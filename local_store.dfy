/** The browser key-value store as `localDB` uses it: each collection is one
    whole list under the key `"gora_" + name`. The store is a map from key to
    list; whether a write fits the browser's quota is a predicate the store
    is given when it is created. */
module LocalStore {
  import opened Records

  /** The prefix of every key the application writes. */
  const Prefix := "gora_"

  type Store = map<string, seq<Record>>

  predicate IsAppKey(k: string) {
    Prefix <= k
  }

  /** The key a collection lives under. */
  function Key(name: string): (k: string)
    ensures IsAppKey(k)
    ensures k[|Prefix|..] == name
  {
    Prefix + name
  }

  /** `get`: the stored list, or the empty list when the key is unset. */
  function Read(m: Store, name: string): seq<Record> {
    if Key(name) in m then m[Key(name)] else []
  }

  /** A successful `save`: the collection's key holds the new list and no
      other key changes. */
  function Write(m: Store, name: string, items: seq<Record>): (r: Store)
    ensures r.Keys == m.Keys + {Key(name)}
    ensures r[Key(name)] == items
    ensures forall k :: k in m && k != Key(name) ==> r[k] == m[k]
  {
    m[Key(name) := items]
  }

  /** What `clearAll` leaves: every key that does not start with `gora_`,
      with its value. */
  function Cleared(m: Store): (r: Store)
    ensures forall k :: k in r <==> k in m && !IsAppKey(k)
    ensures forall k :: k in r ==> r[k] == m[k]
  {
    map k | k in m && !IsAppKey(k) :: m[k]
  }

  /** Distinct collections live under distinct keys. */
  lemma KeyInjective(a: string, b: string)
    ensures Key(a) == Key(b) <==> a == b
  {
    if Key(a) == Key(b) {
      assert a == Key(a)[|Prefix|..] == Key(b)[|Prefix|..] == b;
    }
  }

  /** The keys `clearAll` removes are exactly the keys of collections. */
  lemma AppKeysAreCollectionKeys(k: string)
    ensures IsAppKey(k) <==> exists name :: k == Key(name)
  {
    if IsAppKey(k) {
      var name := k[|Prefix|..];
      assert k == Prefix + name;
      assert k == Key(name);
    }
  }

  /** A write is seen by reads of its own collection and by no other, and a
      collection whose key is unset reads as the empty list. */
  lemma ReadAfterWrite(m: Store, a: string, b: string, items: seq<Record>)
    ensures Read(Write(m, a, items), b) == if a == b then items else Read(m, b)
    ensures Key(b) !in m ==> Read(m, b) == []
  {
    KeyInjective(a, b);
  }

  /** After `clearAll` every collection reads as empty. */
  lemma ClearedReadsEmpty(m: Store, name: string)
    ensures Read(Cleared(m), name) == []
  {
    assert IsAppKey(Key(name));
  }

  /** The browser store, updated in place by `save` and `clearAll`. */
  class LocalDb {
    var store: Store
    /** Whether the browser accepts a store of this content (the quota). */
    const fits: Store -> bool

    constructor (initial: Store, fits: Store -> bool)
      ensures store == initial && this.fits == fits
    {
      store := initial;
      this.fits := fits;
    }

    /** `localDB.get(name)`. */
    function Get(name: string): (items: seq<Record>)
      reads this
      ensures items == Read(store, name)
    {
      Read(store, name)
    }

    /** `localDB.save(name, items)`: writes the whole list and reports
        success, or, when the write does not fit, writes nothing and
        reports failure. */
    method Save(name: string, items: seq<Record>) returns (ok: bool)
      modifies this
      ensures ok == fits(Write(old(store), name, items))
      ensures store == if ok then Write(old(store), name, items) else old(store)
    {
      var next := Write(store, name, items);
      ok := fits(next);
      if ok {
        store := next;
      }
    }

    /** `localDB.clearAll()`: walks the keys present when it starts and
        removes each one that starts with `gora_`. */
    method ClearAll()
      modifies this
      ensures store == Cleared(old(store))
    {
      var pending := store.Keys;
      while pending != {}
        invariant pending <= old(store).Keys
        invariant store == map k | k in old(store) && (k in pending || !IsAppKey(k)) :: old(store)[k]
        decreases pending
      {
        var k :| k in pending;
        if IsAppKey(k) {
          store := store - {k};
        }
        pending := pending - {k};
      }
    }
  }
}
