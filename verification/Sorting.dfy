/** The order of names and the stable sort that the tree builder starts with
    (`sort_by` in src/manifest.rs). */
module Sorting {
  import opened Base

  datatype DirEntry = DirEntry(name: Text, hash: Hash, size: U64)

  /** Lexicographic order of byte strings. */
  predicate LexLe(a: Bytes, b: Bytes) {
    a == [] || (b != [] && (a[0] < b[0] || (a[0] == b[0] && LexLe(a[1..], b[1..]))))
  }

  lemma {:induction false} LexTotal(a: Bytes, b: Bytes)
    ensures LexLe(a, b) || LexLe(b, a)
  {
    if a != [] && b != [] && a[0] == b[0] {
      LexTotal(a[1..], b[1..]);
    }
  }

  lemma {:induction false} LexAntisymmetric(a: Bytes, b: Bytes)
    requires LexLe(a, b) && LexLe(b, a)
    ensures a == b
  {
    if a != [] && b != [] {
      LexAntisymmetric(a[1..], b[1..]);
      assert a == [a[0]] + a[1..] && b == [b[0]] + b[1..];
    }
  }

  lemma {:induction false} LexTransitive(a: Bytes, b: Bytes, c: Bytes)
    requires LexLe(a, b) && LexLe(b, c)
    ensures LexLe(a, c)
  {
    if a != [] && a[0] == b[0] == c[0] {
      LexTransitive(a[1..], b[1..], c[1..]);
    }
  }

  /** `a` has the smaller byte where the two first differ, at `k`. */
  ghost predicate LessAt(a: Bytes, b: Bytes, k: nat) {
    k < |a| && k < |b| && a[..k] == b[..k] && a[k] < b[k]
  }

  /** What the order is: `a` begins `b`, or is smaller in the first byte that differs. */
  lemma {:induction false} LexByFirstDifference(a: Bytes, b: Bytes)
    ensures LexLe(a, b) <==> a <= b || exists k: nat :: LessAt(a, b, k)
  {
    if a != [] && b != [] {
      var a', b' := a[1..], b[1..];
      LexByFirstDifference(a', b');
      if k: nat :| LessAt(a, b, k) && k > 0 {
        assert a[..k][0] == b[..k][0] && a[..k][1..] == b[..k][1..];
        assert a'[..k - 1] == a[..k][1..] && b'[..k - 1] == b[..k][1..];
        assert LessAt(a', b', k - 1);
      }
      if a[0] == b[0] && exists k: nat :: LessAt(a', b', k) {
        var k: nat :| LessAt(a', b', k);
        assert a[..k + 1] == [a[0]] + a'[..k] && b[..k + 1] == [b[0]] + b'[..k];
        assert LessAt(a, b, k + 1);
      }
      if a[0] < b[0] {
        assert LessAt(a, b, 0);
      }
    }
  }

  ghost predicate SortedByName(es: seq<DirEntry>) {
    forall i, j :: 0 <= i < j < |es| ==> LexLe(es[i].name, es[j].name)
  }

  /** The entries called `name`, in order. */
  function Named(es: seq<DirEntry>, name: Bytes): seq<DirEntry> {
    if es == [] then [] else
      if es[0].name == name then [es[0]] + Named(es[1..], name) else Named(es[1..], name)
  }

  function Insert(e: DirEntry, es: seq<DirEntry>): seq<DirEntry> {
    if es == [] || LexLe(e.name, es[0].name) then [e] + es else [es[0]] + Insert(e, es[1..])
  }

  /** A stable sort by name. `StableSort` and `SortUnique` pin it down. */
  function SortByName(es: seq<DirEntry>): seq<DirEntry> {
    if es == [] then [] else Insert(es[0], SortByName(es[1..]))
  }

  lemma {:induction false} InsertElements(e: DirEntry, es: seq<DirEntry>)
    ensures multiset(Insert(e, es)) == multiset{e} + multiset(es)
  {
    if es != [] && !LexLe(e.name, es[0].name) {
      InsertElements(e, es[1..]);
      assert es == [es[0]] + es[1..];
    }
  }

  lemma {:induction false} InsertSorted(e: DirEntry, es: seq<DirEntry>)
    requires SortedByName(es)
    ensures SortedByName(Insert(e, es))
  {
    var r := Insert(e, es);
    if es == [] {
    } else if LexLe(e.name, es[0].name) {
      forall j | 0 <= j < |es|
        ensures LexLe(e.name, es[j].name)
      {
        if j > 0 {
          LexTransitive(e.name, es[0].name, es[j].name);
        }
      }
    } else {
      InsertSorted(e, es[1..]);
      InsertElements(e, es[1..]);
      LexTotal(e.name, es[0].name);
      forall j | 1 <= j < |r|
        ensures LexLe(es[0].name, r[j].name)
      {
        assert r[j] in multiset(Insert(e, es[1..]));
        assert r[j] == e || r[j] in es[1..];
      }
    }
  }

  lemma {:induction false} NamedOfInsert(e: DirEntry, es: seq<DirEntry>, name: Bytes)
    ensures Named(Insert(e, es), name) == (if e.name == name then [e] else []) + Named(es, name)
  {
    if es != [] && !LexLe(e.name, es[0].name) {
      NamedOfInsert(e, es[1..], name);
      LexTotal(e.name, e.name);
    }
  }

  /** The result is sorted, has the same elements, and keeps entries of one name in
      their original order. */
  lemma {:induction false} StableSort(es: seq<DirEntry>)
    ensures SortedByName(SortByName(es))
    ensures multiset(SortByName(es)) == multiset(es)
    ensures forall name :: Named(SortByName(es), name) == Named(es, name)
  {
    if es != [] {
      StableSort(es[1..]);
      InsertSorted(es[0], SortByName(es[1..]));
      InsertElements(es[0], SortByName(es[1..]));
      assert es == [es[0]] + es[1..];
      forall name
        ensures Named(SortByName(es), name) == Named(es, name)
      {
        NamedOfInsert(es[0], SortByName(es[1..]), name);
      }
    }
  }

  lemma {:induction false} NamedMember(es: seq<DirEntry>, i: nat)
    requires i < |es|
    ensures es[i] in Named(es, es[i].name)
  {
    if i > 0 {
      NamedMember(es[1..], i - 1);
    }
  }

  lemma {:induction false} NamedSound(es: seq<DirEntry>, name: Bytes)
    ensures forall e :: e in Named(es, name) ==> e in es && e.name == name
  {
    if es != [] {
      NamedSound(es[1..], name);
    }
  }

  lemma SameFirstName(a: seq<DirEntry>, b: seq<DirEntry>)
    requires SortedByName(a) && a != []
    requires forall name :: Named(a, name) == Named(b, name)
    ensures b != []
    ensures SortedByName(b) ==> LexLe(b[0].name, a[0].name)
  {
    NamedMember(a, 0);
    NamedSound(b, a[0].name);
    assert a[0] in Named(b, a[0].name);
    LexTotal(a[0].name, a[0].name);
  }

  /** There is only one sorted list with given entries per name. */
  lemma {:induction false} SortUnique(a: seq<DirEntry>, b: seq<DirEntry>)
    requires SortedByName(a) && SortedByName(b)
    requires forall name :: Named(a, name) == Named(b, name)
    ensures a == b
  {
    if a == [] && b == [] {
    } else if a == [] {
      SameFirstName(b, a);
    } else {
      SameFirstName(a, b);
      SameFirstName(b, a);
      LexAntisymmetric(a[0].name, b[0].name);
      assert Named(a, a[0].name)[0] == a[0] && Named(b, a[0].name)[0] == b[0];
      forall name
        ensures Named(a[1..], name) == Named(b[1..], name)
      {
        assert Named(a, name) == Named(b, name);
        if name == a[0].name {
          assert Named(a, name)[1..] == Named(a[1..], name);
          assert Named(b, name)[1..] == Named(b[1..], name);
        }
      }
      SortUnique(a[1..], b[1..]);
      assert a == [a[0]] + a[1..] && b == [b[0]] + b[1..];
    }
  }

  /** Equal entries per name are all the sort looks at. */
  lemma SortCanonical(a: seq<DirEntry>, b: seq<DirEntry>)
    requires forall name :: Named(a, name) == Named(b, name)
    ensures SortByName(a) == SortByName(b)
  {
    StableSort(a);
    StableSort(b);
    forall name
      ensures Named(SortByName(a), name) == Named(SortByName(b), name)
    {
      assert Named(a, name) == Named(b, name);
    }
    SortUnique(SortByName(a), SortByName(b));
  }

  lemma SortSorted(a: seq<DirEntry>)
    requires SortedByName(a)
    ensures SortByName(a) == a
  {
    StableSort(a);
    SortUnique(SortByName(a), a);
  }

  ghost predicate DistinctNames(es: seq<DirEntry>) {
    forall i, j :: 0 <= i < j < |es| ==> es[i].name != es[j].name
  }

  lemma {:induction false} NamedDistinct(es: seq<DirEntry>, name: Bytes)
    requires DistinctNames(es)
    ensures |Named(es, name)| <= 1
  {
    if es != [] {
      NamedDistinct(es[1..], name);
      NamedSound(es[1..], name);
      var rest := Named(es[1..], name);
      assert rest == [] || rest[0] in rest;
    }
  }

  /** Two listings of the same distinctly named entries have the same entry per name. */
  lemma NamedOfPermutation(a: seq<DirEntry>, b: seq<DirEntry>, name: Bytes)
    requires DistinctNames(a) && DistinctNames(b)
    requires forall e :: e in a <==> e in b
    ensures Named(a, name) == Named(b, name)
  {
    NamedDistinct(a, name);
    NamedDistinct(b, name);
    NamedSound(a, name);
    NamedSound(b, name);
    if Named(a, name) != [] {
      NamedShared(a, b, name);
    }
    if Named(b, name) != [] {
      NamedShared(b, a, name);
    }
  }

  lemma NamedShared(a: seq<DirEntry>, b: seq<DirEntry>, name: Bytes)
    requires forall e :: e in a ==> e in b
    requires Named(a, name) != []
    ensures Named(a, name)[0] in Named(b, name)
  {
    NamedSound(a, name);
    var e := Named(a, name)[0];
    assert e in a && e in b;
    var i :| 0 <= i < |b| && b[i] == e;
    NamedMember(b, i);
  }

  lemma {:induction false} NamedAppend(a: seq<DirEntry>, b: seq<DirEntry>, name: Bytes)
    ensures Named(a + b, name) == Named(a, name) + Named(b, name)
  {
    if a == [] {
      assert a + b == b;
    } else {
      NamedAppend(a[1..], b, name);
      assert (a + b)[1..] == a[1..] + b;
    }
  }
}
