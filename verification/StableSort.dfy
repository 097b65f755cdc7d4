/** `Array.prototype.sort` with a comparator: a stable sort. `below(x, y)` means the comparator is at most 0. */
module StableSort {

  ghost predicate TotalPreorder<T(!new)>(below: (T, T) -> bool) {
    && (forall x, y :: below(x, y) || below(y, x))
    && (forall x, y, z :: below(x, y) && below(y, z) ==> below(x, z))
  }

  function Insert<T>(x: T, s: seq<T>, below: (T, T) -> bool): seq<T> {
    if s == [] || below(x, s[0]) then [x] + s else [s[0]] + Insert(x, s[1..], below)
  }

  function Sort<T>(s: seq<T>, below: (T, T) -> bool): (r: seq<T>) {
    if s == [] then [] else Insert(s[0], Sort(s[1..], below), below)
  }

  ghost predicate Sorted<T(!new)>(s: seq<T>, below: (T, T) -> bool) {
    forall i, j :: 0 <= i < j < |s| ==> below(s[i], s[j])
  }

  lemma {:induction false} InsertPermutes<T>(x: T, s: seq<T>, below: (T, T) -> bool)
    ensures multiset(Insert(x, s, below)) == multiset{x} + multiset(s)
  {
    if s != [] && !below(x, s[0]) {
      InsertPermutes(x, s[1..], below);
      assert s == [s[0]] + s[1..];
    }
  }

  lemma {:induction false} SortPermutes<T>(s: seq<T>, below: (T, T) -> bool)
    ensures multiset(Sort(s, below)) == multiset(s)
    ensures |Sort(s, below)| == |s|
  {
    if s != [] {
      SortPermutes(s[1..], below);
      InsertPermutes(s[0], Sort(s[1..], below), below);
      assert s == [s[0]] + s[1..];
    }
    assert |multiset(Sort(s, below))| == |Sort(s, below)|;
  }

  lemma SortKeepsMembers<T>(s: seq<T>, below: (T, T) -> bool, x: T)
    ensures x in Sort(s, below) <==> x in s
  {
    SortPermutes(s, below);
    assert x in Sort(s, below) <==> x in multiset(Sort(s, below));
  }

  lemma {:induction false} InsertSorts<T(!new)>(x: T, s: seq<T>, below: (T, T) -> bool)
    requires TotalPreorder(below) && Sorted(s, below)
    ensures Sorted(Insert(x, s, below), below)
  {
    if s != [] {
      if below(x, s[0]) {
        forall j | 0 <= j < |s| ensures below(x, s[j]) {
          assert below(s[0], s[0]) || j > 0;
        }
      } else {
        var rest := Insert(x, s[1..], below);
        InsertSorts(x, s[1..], below);
        InsertPermutes(x, s[1..], below);
        forall j | 0 <= j < |rest| ensures below(s[0], rest[j]) {
          assert rest[j] in multiset(rest);
          if rest[j] != x {
            assert rest[j] in s[1..];
          }
        }
      }
    }
  }

  lemma {:induction false} SortSorts<T(!new)>(s: seq<T>, below: (T, T) -> bool)
    requires TotalPreorder(below)
    ensures Sorted(Sort(s, below), below)
  {
    if s != [] {
      SortSorts(s[1..], below);
      InsertSorts(s[0], Sort(s[1..], below), below);
    }
  }

  lemma {:induction false} SortOfSorted<T(!new)>(s: seq<T>, below: (T, T) -> bool)
    requires Sorted(s, below)
    ensures Sort(s, below) == s
  {
    if s != [] {
      SortOfSorted(s[1..], below);
      assert s == [s[0]] + s[1..];
    }
  }

  /** When ties are impossible, the sorted order is determined by what is sorted. */
  lemma {:induction false} SortedIsUnique<T(!new)>(a: seq<T>, b: seq<T>, below: (T, T) -> bool)
    requires Sorted(a, below) && Sorted(b, below) && multiset(a) == multiset(b)
    requires forall x, y :: x in a && y in a && below(x, y) && below(y, x) ==> x == y
    ensures a == b
  {
    assert |a| == |multiset(a)| == |multiset(b)| == |b|;
    if a != [] {
      SmallestIsUnique(a, b, below);
      TailsAreEqual(a, b);
      SortedIsUnique(a[1..], b[1..], below);
      assert a == [a[0]] + a[1..] && b == [b[0]] + b[1..];
    }
  }

  lemma SmallestIsUnique<T(!new)>(a: seq<T>, b: seq<T>, below: (T, T) -> bool)
    requires Sorted(a, below) && Sorted(b, below) && multiset(a) == multiset(b) && a != [] && b != []
    requires forall x, y :: x in a && y in a && below(x, y) && below(y, x) ==> x == y
    ensures a[0] == b[0]
  {
    assert a[0] in multiset(a) && b[0] in multiset(b);
    var i :| 0 <= i < |b| && b[i] == a[0];
    var j :| 0 <= j < |a| && a[j] == b[0];
    assert a[0] in a && b[0] in a;
  }

  lemma TailsAreEqual<T>(a: seq<T>, b: seq<T>)
    requires multiset(a) == multiset(b) && a != [] && b != [] && a[0] == b[0]
    ensures multiset(a[1..]) == multiset(b[1..])
  {
    assert a == [a[0]] + a[1..] && b == [a[0]] + b[1..];
    assert multiset(a[1..]) == multiset(a) - multiset{a[0]} == multiset(b[1..]);
  }

  /** Sorting keeps the order of elements that tie, here those that `same` selects. */
  function Select<T>(s: seq<T>, same: T -> bool): seq<T> {
    if s == [] then [] else (if same(s[0]) then [s[0]] else []) + Select(s[1..], same)
  }

  lemma {:induction false} InsertIsStable<T(!new)>(x: T, s: seq<T>, below: (T, T) -> bool, same: T -> bool)
    requires forall y, z :: same(y) && same(z) ==> below(y, z)
    ensures Select(Insert(x, s, below), same) == (if same(x) then [x] else []) + Select(s, same)
  {
    hide Select;
    if s == [] || below(x, s[0]) {
      SelectCons(x, s, same);
    } else {
      var t := Insert(x, s[1..], below);
      InsertIsStable(x, s[1..], below, same);
      SelectCons(s[0], t, same);
      SelectCons(s[0], s[1..], same);
      assert [s[0]] + s[1..] == s;
      assert !(same(x) && same(s[0]));
    }
  }

  lemma SelectCons<T>(x: T, s: seq<T>, same: T -> bool)
    ensures Select([x] + s, same) == (if same(x) then [x] else []) + Select(s, same)
  {
    assert ([x] + s)[1..] == s;
  }

  lemma {:induction false} SortIsStable<T(!new)>(s: seq<T>, below: (T, T) -> bool, same: T -> bool)
    requires forall y, z :: same(y) && same(z) ==> below(y, z)
    ensures Select(Sort(s, below), same) == Select(s, same)
  {
    if s != [] {
      SortIsStable(s[1..], below, same);
      InsertIsStable(s[0], Sort(s[1..], below), below, same);
    }
  }
}
