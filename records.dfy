/** Schema-loose records as the storage layer keeps them (the result of
    `JSON.parse`), and the field-level operations of lib/storage.ts: truthiness,
    `Number(...)`, the sort year, and the object spreads that stamp ids and
    timestamps. */
module Records {
  import opened Wrappers
  import JsNumber

  /** A field value: a string, a finite number, an array of strings (such as
      a history entry's `images`), or `undefined`/`null`. */
  datatype Value = Str(s: string) | Num(n: real) | StrList(items: seq<string>) | Absent

  /** A stored record: field name to value. A missing field reads as `Absent`. */
  type Record = map<string, Value>

  const IdField := "id"
  const CreatedAtField := "createdAt"
  const UpdatedAtField := "updatedAt"
  const YearField := "year"
  const AnoField := "a\U{00F1}o"

  /** `r.field`: a missing field reads as `undefined`. */
  function Lookup(r: Record, field: string): Value {
    if field in r then r[field] else Absent
  }

  /** JavaScript truthiness: the empty string, 0 and `undefined`/`null` are
      falsy; every array is truthy, even an empty one. */
  predicate Truthy(v: Value) {
    match v
    case Str(s) => s != ""
    case Num(n) => n != 0.0
    case StrList(_) => true
    case Absent => false
  }

  /** `Number(v)`; `None` stands for NaN. An array converts through its
      comma-joined text, so an empty one is 0, a one-element one is its
      element's number, and a longer one (whose text holds a comma) is NaN. */
  function ToNumber(v: Value): (r: Option<real>)
    ensures v.Num? ==> r == Some(v.n)
    ensures v.Absent? ==> r == None
  {
    match v
    case Str(s) => JsNumber.StringToNumber(s)
    case Num(n) => Some(n)
    case StrList(items) =>
      if |items| == 0 then Some(0.0)
      else if |items| == 1 then JsNumber.StringToNumber(items[0])
      else None
    case Absent => None
  }

  /** The key of the `getAll` comparator, `Number(r.year || r.año) || 0`:
      a NaN (non-numeric or missing value) counts as 0. */
  function SortYear(r: Record): real {
    var v := if Truthy(Lookup(r, YearField)) then Lookup(r, YearField) else Lookup(r, AnoField);
    match ToNumber(v)
    case Some(n) => n
    case None => 0.0
  }

  /** A year written as decimal digits sorts under that number, whatever the
      record's `año` says. */
  lemma DecimalYearKey(r: Record, y: nat)
    ensures SortYear(r[YearField := Str(JsNumber.Decimal(y))]) == y as real
  {
    JsNumber.NumberOfDecimal(y);
  }

  /** A non-zero numeric year (a volunteer's `año` kept as a number, say)
      sorts under that number when there is no truthy `year`. */
  lemma NumericAnoKey(r: Record, y: real)
    requires y != 0.0
    requires !Truthy(Lookup(r, YearField))
    ensures SortYear(r[AnoField := Num(y)]) == y
  {
    assert Lookup(r[AnoField := Num(y)], YearField) == Lookup(r, YearField);
  }

  /** A string year and a numeric year with the same positive value sort
      alike; the two differ at 0, where the number is falsy and `año` is
      consulted instead while the string "0" is truthy. */
  lemma StringAndNumberYearsAgree(r: Record, y: nat)
    requires y > 0
    ensures SortYear(r[YearField := Str(JsNumber.Decimal(y))]) == SortYear(r[YearField := Num(y as real)])
  {
    DecimalYearKey(r, y);
  }

  /** A record with neither field, or whose fields do not read as numbers,
      sorts under 0. */
  lemma NoYearKeyIsZero(r: Record)
    requires YearField !in r && AnoField !in r
    ensures SortYear(r) == 0.0
  {
  }

  /** A truthy `year` that is not a number hides the record's `año`: the
      key is `Number(year)`, which is NaN, so the record sorts under 0 even
      when its `año` is a good number. */
  lemma NonNumericYearHidesAno(r: Record, year: string, ano: Value)
    requires JsNumber.HasNonNumeral(year)
    ensures SortYear(r[YearField := Str(year)][AnoField := ano]) == 0.0
  {
    var r' := r[YearField := Str(year)][AnoField := ano];
    assert Lookup(r', YearField) == Str(year);
    assert year != "";
  }

  /** `item.id === id`: strict equality, so only a string id can match. */
  predicate HasId(r: Record, id: string) {
    Lookup(r, IdField) == Str(id)
  }

  /** `{ ...data, id: Date.now().toString(), createdAt: new Date().toISOString() }`
      with the two clock readings passed in. */
  function Stamp(data: Record, now: nat, isoNow: string): (r: Record)
    ensures HasId(r, JsNumber.Decimal(now))
    ensures Lookup(r, CreatedAtField) == Str(isoNow)
    ensures r.Keys == data.Keys + {IdField, CreatedAtField}
    ensures forall k :: k != IdField && k != CreatedAtField ==> Lookup(r, k) == Lookup(data, k)
  {
    data[IdField := Str(JsNumber.Decimal(now))][CreatedAtField := Str(isoNow)]
  }

  /** `{ ...old, ...patch, updatedAt: new Date().toISOString() }`: the patch's
      fields win over the old record's, and `updatedAt` wins over both. */
  function Merge(rec: Record, patch: Record, isoNow: string): (r: Record)
    ensures r.Keys == rec.Keys + patch.Keys + {UpdatedAtField}
    ensures Lookup(r, UpdatedAtField) == Str(isoNow)
    ensures forall k :: k != UpdatedAtField && k in patch ==> r[k] == patch[k]
    ensures forall k :: k != UpdatedAtField && k !in patch ==> Lookup(r, k) == Lookup(rec, k)
  {
    rec + patch + map[UpdatedAtField := Str(isoNow)]
  }

  /** Merging the same patch twice gives the same record as merging it once:
      repeating an update is harmless. */
  lemma MergeIdempotent(rec: Record, patch: Record, isoNow: string)
    ensures Merge(Merge(rec, patch, isoNow), patch, isoNow) == Merge(rec, patch, isoNow)
  {
    var once := Merge(rec, patch, isoNow);
    var twice := Merge(once, patch, isoNow);
    assert twice.Keys == once.Keys;
    forall k | k in twice
      ensures twice[k] == once[k]
    {
    }
  }

  /** The fields the remote `add` sends: `{ ...data, createdAt }`, with no
      generated id (the remote store assigns the document id). */
  function RemoteAddFields(data: Record, isoNow: string): (r: Record)
    ensures Lookup(r, CreatedAtField) == Str(isoNow)
    ensures forall k :: k != CreatedAtField ==> Lookup(r, k) == Lookup(data, k)
  {
    data[CreatedAtField := Str(isoNow)]
  }

  /** The fields the remote `update` sends: the patch without its `id`, plus
      `updatedAt`. */
  function RemoteUpdateFields(patch: Record, isoNow: string): (r: Record)
    ensures IdField !in r
    ensures Lookup(r, UpdatedAtField) == Str(isoNow)
    ensures forall k :: k != IdField && k != UpdatedAtField ==> Lookup(r, k) == Lookup(patch, k)
  {
    (patch - {IdField})[UpdatedAtField := Str(isoNow)]
  }

  /** `{ ...doc.data(), id: doc.id }`: a remote document as `getAll` returns it. */
  function FromRemote(docId: string, data: Record): (r: Record)
    ensures HasId(r, docId)
    ensures forall k :: k != IdField ==> Lookup(r, k) == Lookup(data, k)
  {
    data[IdField := Str(docId)]
  }
}
