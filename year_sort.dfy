/** The ordering `getAll` applies: `items.sort((a, b) => yearB - yearA)`, a
    stable sort (as ECMAScript requires of `Array.prototype.sort`) into
    non-increasing key order. It is modelled as a stable insertion sort over
    any key, and `StableSortIsUnique` shows that every stable non-increasing
    arrangement of the same list is this one, so the algorithm the browser
    uses does not matter. `SortByYear` instantiates it with the comparator's
    key. */
module YearSort {
  import opened Records

  /** Every element has a key no smaller than the ones after it. */
  ghost predicate NonIncreasing<T>(s: seq<T>, key: T -> real) {
    forall i, j :: 0 <= i < j < |s| ==> key(s[i]) >= key(s[j])
  }

  /** The elements of `s` whose key is `y`, in their order in `s`. A sort is
      stable exactly when it keeps each of these subsequences. */
  function KeyClass<T>(s: seq<T>, key: T -> real, y: real): (r: seq<T>)
    ensures |r| <= |s|
    ensures forall x :: x in r ==> x in s && key(x) == y
  {
    if s == [] then []
    else if key(s[0]) == y then [s[0]] + KeyClass(s[1..], key, y)
    else KeyClass(s[1..], key, y)
  }

  /** Places `x` before the first element whose key is not larger than its own. */
  function Insert<T>(x: T, s: seq<T>, key: T -> real): (r: seq<T>)
    ensures multiset(r) == multiset(s) + multiset{x}
  {
    if s == [] || key(x) >= key(s[0]) then [x] + s
    else
      assert s == [s[0]] + s[1..];
      [s[0]] + Insert(x, s[1..], key)
  }

  /** Stable sort into non-increasing key order. */
  function SortDesc<T>(s: seq<T>, key: T -> real): (r: seq<T>)
    ensures multiset(r) == multiset(s)
  {
    if s == [] then []
    else
      assert s == [s[0]] + s[1..];
      Insert(s[0], SortDesc(s[1..], key), key)
  }

  /** The order `getAll` returns: descending `Number(year || año) || 0`,
      records with equal years in their original order. */
  function SortByYear(s: seq<Record>): (r: seq<Record>)
    ensures multiset(r) == multiset(s)
  {
    SortDesc(s, SortYear)
  }

  lemma HeadBoundsAll<T>(s: seq<T>, key: T -> real)
    requires s != [] && NonIncreasing(s, key)
    ensures forall z :: z in s ==> key(s[0]) >= key(z)
  {
  }

  lemma ConsNonIncreasing<T>(h: T, t: seq<T>, key: T -> real)
    requires NonIncreasing(t, key)
    requires forall z :: z in t ==> key(h) >= key(z)
    ensures NonIncreasing([h] + t, key)
  {
    var r := [h] + t;
    forall i, j | 0 <= i < j < |r|
      ensures key(r[i]) >= key(r[j])
    {
      assert r[j] == t[j - 1];
      if i > 0 {
        assert r[i] == t[i - 1];
      } else {
        assert r[j] in t;
      }
    }
  }

  lemma {:induction false} InsertNonIncreasing<T>(x: T, s: seq<T>, key: T -> real)
    requires NonIncreasing(s, key)
    ensures NonIncreasing(Insert(x, s, key), key)
  {
    if s == [] || key(x) >= key(s[0]) {
      if s != [] {
        HeadBoundsAll(s, key);
      }
      ConsNonIncreasing(x, s, key);
    } else {
      var t := Insert(x, s[1..], key);
      assert NonIncreasing(s[1..], key);
      InsertNonIncreasing(x, s[1..], key);
      HeadBoundsAll(s, key);
      forall z | z in t
        ensures key(s[0]) >= key(z)
      {
        assert z in multiset(t);
        if z != x {
          assert z in multiset(s[1..]);
        }
      }
      ConsNonIncreasing(s[0], t, key);
    }
  }

  lemma {:induction false} SortDescNonIncreasing<T>(s: seq<T>, key: T -> real)
    ensures NonIncreasing(SortDesc(s, key), key)
  {
    if s != [] {
      SortDescNonIncreasing(s[1..], key);
      InsertNonIncreasing(s[0], SortDesc(s[1..], key), key);
    }
  }

  lemma {:induction false} InsertKeyClass<T>(x: T, s: seq<T>, key: T -> real, y: real)
    ensures KeyClass(Insert(x, s, key), key, y)
         == if key(x) == y then [x] + KeyClass(s, key, y) else KeyClass(s, key, y)
  {
    if s == [] || key(x) >= key(s[0]) {
      assert ([x] + s)[1..] == s;
    } else {
      InsertKeyClass(x, s[1..], key, y);
      var r := [s[0]] + Insert(x, s[1..], key);
      assert r[1..] == Insert(x, s[1..], key);
    }
  }

  lemma {:induction false} SortDescStable<T>(s: seq<T>, key: T -> real, y: real)
    ensures KeyClass(SortDesc(s, key), key, y) == KeyClass(s, key, y)
  {
    if s != [] {
      SortDescStable(s[1..], key, y);
      InsertKeyClass(s[0], SortDesc(s[1..], key), key, y);
    }
  }

  lemma {:induction false} KeyClassNonEmpty<T>(s: seq<T>, key: T -> real, y: real)
    requires KeyClass(s, key, y) != []
    ensures exists i :: 0 <= i < |s| && key(s[i]) == y
  {
    var x := KeyClass(s, key, y)[0];
    assert x in KeyClass(s, key, y);
    var i :| 0 <= i < |s| && s[i] == x;
  }

  lemma SameEmptiness<T>(t: seq<T>, u: seq<T>, key: T -> real)
    requires forall y :: KeyClass(t, key, y) == KeyClass(u, key, y)
    ensures t == [] <==> u == []
  {
    if t != [] {
      assert KeyClass(t, key, key(t[0])) != [];
    }
    if u != [] {
      assert KeyClass(u, key, key(u[0])) != [];
    }
  }

  /** Two non-increasing arrangements that agree on every key class are the
      same sequence: a stable sort by key has only one possible result. */
  lemma {:induction false} StableSortIsUnique<T>(t: seq<T>, u: seq<T>, key: T -> real)
    requires NonIncreasing(t, key) && NonIncreasing(u, key)
    requires forall y :: KeyClass(t, key, y) == KeyClass(u, key, y)
    ensures t == u
  {
    SameEmptiness(t, u, key);
    if t != [] {
      var a, b := key(t[0]), key(u[0]);
      assert KeyClass(t, key, a) == [t[0]] + KeyClass(t[1..], key, a);
      assert KeyClass(u, key, b) == [u[0]] + KeyClass(u[1..], key, b);
      KeyClassNonEmpty(u, key, a);
      KeyClassNonEmpty(t, key, b);
      assert a == b;
      assert t[0] == KeyClass(t, key, a)[0] == KeyClass(u, key, a)[0] == u[0];
      forall y
        ensures KeyClass(t[1..], key, y) == KeyClass(u[1..], key, y)
      {
        if y == a {
          assert KeyClass(t, key, a)[1..] == KeyClass(t[1..], key, a);
          assert KeyClass(u, key, a)[1..] == KeyClass(u[1..], key, a);
        } else {
          assert KeyClass(t, key, y) == KeyClass(t[1..], key, y);
          assert KeyClass(u, key, y) == KeyClass(u[1..], key, y);
        }
      }
      StableSortIsUnique(t[1..], u[1..], key);
      assert t == [t[0]] + t[1..] && u == [u[0]] + u[1..];
    }
  }

  /** `t` is a stable sort of `s` into non-increasing key order: ordered,
      and each key's elements in their order in `s`. */
  ghost predicate IsStableSortOf<T>(t: seq<T>, s: seq<T>, key: T -> real) {
    && NonIncreasing(t, key)
    && forall y :: KeyClass(t, key, y) == KeyClass(s, key, y)
  }

  /** `t` is the insertion sort of `s` exactly when it is a stable sort of `s`. */
  lemma SortDescCharacterized<T>(s: seq<T>, t: seq<T>, key: T -> real)
    ensures t == SortDesc(s, key) <==> IsStableSortOf(t, s, key)
  {
    var r := SortDesc(s, key);
    SortDescNonIncreasing(s, key);
    forall y
      ensures KeyClass(r, key, y) == KeyClass(s, key, y)
    {
      SortDescStable(s, key, y);
    }
    assert IsStableSortOf(r, s, key);
    if IsStableSortOf(t, s, key) {
      StableSortIsUnique(t, r, key);
    }
  }

  /** `t` is what `getAll` returns for `s` exactly when `t` is ordered by
      non-increasing sort year and keeps the order of each year's records:
      the result is the stable sort, whatever algorithm computes it. */
  lemma SortByYearCharacterized(s: seq<Record>, t: seq<Record>)
    ensures t == SortByYear(s) <==> IsStableSortOf(t, s, SortYear)
  {
    SortDescCharacterized(s, t, SortYear);
  }
}
