/** `dbService`: the CRUD façade over named collections. When the remote
    store is not active (not configured, or its initialisation failed) every
    operation works on the local store; otherwise `add`, `update` and
    `delete` go to the remote store only, and `getAll` reads the remote
    store and falls back to the local list when that read throws. The remote
    store is not modelled as state: each remote call is a parameter that
    receives what the call sends and answers as the remote store would. */
module DbService {
  import opened Wrappers
  import opened Records
  import opened YearSort
  import opened ListOps
  import opened LocalStore
  import Config

  /** The errors a service call throws: `Error("QUOTA_EXCEEDED")` when the
      local list does not fit, or the remote store's own exception. */
  datatype Failure = QuotaExceeded | RemoteFailure

  /** A document of a remote collection: its id and its fields. */
  datatype RemoteDoc = RemoteDoc(docId: string, data: Record)

  /** The answer to the remote `getDocs`: the collection's documents, or an
      exception. */
  datatype Snapshot = Docs(docs: seq<RemoteDoc>) | ReadFailed

  /** What `add` resolves to: the stored record on the local path, the new
      document's reference on the remote path. */
  datatype Added = LocalRecord(record: Record) | RemoteRef(docId: string)

  /** `snapshot.docs.map(doc => ({ ...doc.data(), id: doc.id }))`. */
  function FromDocs(docs: seq<RemoteDoc>): (r: seq<Record>)
    ensures |r| == |docs|
    ensures forall i :: 0 <= i < |docs| ==> r[i] == FromRemote(docs[i].docId, docs[i].data)
  {
    if docs == [] then [] else [FromRemote(docs[0].docId, docs[0].data)] + FromDocs(docs[1..])
  }

  /** The list `getAll` sorts: the local list when the remote store is not
      active or its read threw, the remote documents otherwise. */
  function SourceList(remoteActive: bool, snapshot: Snapshot, localItems: seq<Record>): seq<Record> {
    if !remoteActive then localItems
    else match snapshot
      case Docs(docs) => FromDocs(docs)
      case ReadFailed => localItems
  }

  class Service {
    const local: LocalDb
    /** `isFirebaseConfigured && db`: configured and initialised. */
    const remoteActive: bool

    /** The module's start-up: the remote store is used only when it is
        configured and its initialisation did not throw. */
    constructor (local: LocalDb, config: Config.FirebaseConfig, initSucceeded: bool)
      ensures this.local == local
      ensures remoteActive <==> Config.IsFirebaseConfigured(config) && initSucceeded
    {
      this.local := local;
      remoteActive := Config.IsFirebaseConfigured(config) && initSucceeded;
    }

    /** `getAll(name)`: the source list, stably sorted into non-increasing
        `Number(year || año) || 0`. Nothing is written. */
    method GetAll(name: string, remoteRead: string -> Snapshot) returns (items: seq<Record>)
      ensures var source := SourceList(remoteActive, remoteRead(name), local.Get(name));
        && IsStableSortOf(items, source, SortYear)
        && multiset(items) == multiset(source)
      ensures !remoteActive || remoteRead(name).ReadFailed? ==>
        multiset(items) == multiset(local.Get(name))
    {
      var source: seq<Record>;
      if !remoteActive {
        source := local.Get(name);
      } else {
        match remoteRead(name)
        case Docs(docs) =>
          source := FromDocs(docs);
        case ReadFailed =>
          source := local.Get(name);
      }
      items := SortByYear(source);
      SortByYearCharacterized(source, items);
    }

    /** `add(name, data)`. Locally: the record with a generated `id` (the
        clock's milliseconds in decimal) and `createdAt` goes to the front of
        the list, and is returned; if the list no longer fits, nothing is
        written and `QUOTA_EXCEEDED` is thrown. Remotely: the fields with
        `createdAt` are sent, the local store is untouched, and a remote
        failure is thrown as it is. */
    method Add(name: string, data: Record, now: nat, isoNow: string,
               remoteAdd: (string, Record) -> Option<string>) returns (res: Result<Added, Failure>)
      modifies local
      ensures !remoteActive ==>
        var item := Stamp(data, now, isoNow);
        var written := Write(old(local.store), name, [item] + old(local.Get(name)));
        if local.fits(written) then
          res == Ok(LocalRecord(item)) && local.store == written
        else
          res == Err(QuotaExceeded) && local.store == old(local.store)
      ensures remoteActive ==> local.store == old(local.store)
      ensures remoteActive ==>
        res == match remoteAdd(name, RemoteAddFields(data, isoNow))
               case Some(docId) => Ok(RemoteRef(docId))
               case None => Err(RemoteFailure)
    {
      if !remoteActive {
        var items := local.Get(name);
        var item := Stamp(data, now, isoNow);
        var success := local.Save(name, [item] + items);
        if !success {
          return Err(QuotaExceeded);
        }
        return Ok(LocalRecord(item));
      }
      match remoteAdd(name, RemoteAddFields(data, isoNow))
      case Some(docId) =>
        res := Ok(RemoteRef(docId));
      case None =>
        res := Err(RemoteFailure);
    }

    /** `update(name, id, patch)`. Locally: the first record with the id
        becomes its merge with the patch and `updatedAt`, and the list is
        written back; if no record has the id nothing is written and nothing
        is thrown; if the list no longer fits, nothing is written and
        `QUOTA_EXCEEDED` is thrown. Remotely: the patch without `id`, with
        `updatedAt`, is sent and the local store is untouched. */
    method Update(name: string, id: string, patch: Record, isoNow: string,
                  remoteUpdate: (string, string, Record) -> bool) returns (res: Result<(), Failure>)
      modifies local
      ensures !remoteActive && FirstMatch(old(local.Get(name)), id) == -1 ==>
        res == Ok(()) && local.store == old(local.store)
      ensures !remoteActive && FirstMatch(old(local.Get(name)), id) != -1 ==>
        var written := Write(old(local.store), name, Patched(old(local.Get(name)), id, patch, isoNow));
        if local.fits(written) then
          res == Ok(()) && local.store == written
        else
          res == Err(QuotaExceeded) && local.store == old(local.store)
      ensures remoteActive ==> local.store == old(local.store)
      ensures remoteActive ==>
        res == if remoteUpdate(name, id, RemoteUpdateFields(patch, isoNow)) then Ok(()) else Err(RemoteFailure)
    {
      if !remoteActive {
        var items := local.Get(name);
        var index := FirstMatch(items, id);
        if index != -1 {
          items := items[index := Merge(items[index], patch, isoNow)];
          var success := local.Save(name, items);
          if !success {
            return Err(QuotaExceeded);
          }
        }
        return Ok(());
      }
      var ok := remoteUpdate(name, id, RemoteUpdateFields(patch, isoNow));
      res := if ok then Ok(()) else Err(RemoteFailure);
    }

    /** `delete(name, id)`. Locally: the list without the records carrying the
        id is written back, and a failed write is ignored, so nothing is
        ever thrown. Remotely: the delete is sent and the local store is
        untouched. */
    method Delete(name: string, id: string, remoteDelete: (string, string) -> bool)
      returns (res: Result<(), Failure>)
      modifies local
      ensures !remoteActive ==> res == Ok(())
      ensures !remoteActive ==>
        var written := Write(old(local.store), name, WithoutId(old(local.Get(name)), id));
        local.store == if local.fits(written) then written else old(local.store)
      ensures remoteActive ==> local.store == old(local.store)
      ensures remoteActive ==> res == if remoteDelete(name, id) then Ok(()) else Err(RemoteFailure)
    {
      if !remoteActive {
        var items := local.Get(name);
        var _ := local.Save(name, WithoutId(items, id));
        return Ok(());
      }
      res := if remoteDelete(name, id) then Ok(()) else Err(RemoteFailure);
    }

    /** `clearStorage()`: removes every `gora_` key from the local store,
        whichever backend is active; the remote store is not touched. */
    method ClearStorage()
      modifies local
      ensures local.store == Cleared(old(local.store))
    {
      local.ClearAll();
    }
  }
}
