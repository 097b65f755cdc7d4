/**
 The index that artifacts and runs share: `new Map` of the current items, `set` for each new one, then
 the values sorted by time with a stable sort. `id` and `time` say what an item is keyed and sorted by.
 */
module TimeIndex {
  import opened Wrappers
  import opened Sequences
  import opened StableSort
  import opened JsMap

  function Keyed<T>(items: seq<T>, id: T -> string): (r: JsMap<string, T>)
    ensures |r| == |items|
    ensures forall i :: 0 <= i < |items| ==> r[i] == Entry(id(items[i]), items[i])
  {
    seq(|items|, i requires 0 <= i < |items| => Entry(id(items[i]), items[i]))
  }

  function Earlier<T>(time: T -> int): (T, T) -> bool {
    (x: T, y: T) => time(x) <= time(y)
  }

  function Merged<T>(current: seq<T>, batch: seq<T>, id: T -> string): JsMap<string, T> {
    PutAll(PutAll([], Keyed(current, id)), Keyed(batch, id))
  }

  function Upsert<T>(current: seq<T>, batch: seq<T>, id: T -> string, time: T -> int): seq<T> {
    Sort(Values(Merged(current, batch, id)), Earlier(time))
  }

  /** `items.find(item => id(item) === key)` */
  function Lookup<T>(items: seq<T>, id: T -> string, key: string): Option<T> {
    if items == [] then None
    else if id(items[0]) == key then Some(items[0])
    else Lookup(items[1..], id, key)
  }

  /** The last of the items with this id. */
  function LastOf<T>(items: seq<T>, id: T -> string, key: string): Option<T> {
    LastFor(Keyed(items, id), key)
  }

  ghost predicate DistinctIds<T(!new)>(items: seq<T>, id: T -> string) {
    forall i, j :: 0 <= i < j < |items| ==> id(items[i]) != id(items[j])
  }

  ghost predicate Ordered<T(!new)>(items: seq<T>, id: T -> string, time: T -> int) {
    DistinctIds(items, id) && Sorted(items, Earlier(time))
  }

  ghost predicate NoTies<T(!new)>(items: seq<T>, time: T -> int) {
    forall x, y :: x in items && y in items && time(x) == time(y) ==> x == y
  }

  // ---------------------------------------------------------------- looking up

  lemma {:induction false} LookupFinds<T(!new)>(items: seq<T>, id: T -> string, key: string)
    ensures Lookup(items, id, key).Some? ==>
        Lookup(items, id, key).value in items && id(Lookup(items, id, key).value) == key
    ensures Lookup(items, id, key).None? ==> forall x :: x in items ==> id(x) != key
  {
    if items != [] {
      LookupFinds(items[1..], id, key);
      assert items == [items[0]] + items[1..];
    }
  }

  lemma LookupIs<T(!new)>(items: seq<T>, id: T -> string, x: T)
    requires DistinctIds(items, id) && x in items
    ensures Lookup(items, id, id(x)) == Some(x)
  {
    hide Lookup;
    LookupFinds(items, id, id(x));
    var i :| 0 <= i < |items| && items[i] == x;
    var j :| 0 <= j < |items| && items[j] == Lookup(items, id, id(x)).value;
    assert i == j;
  }

  /** With distinct ids, looking up does not depend on the order. */
  lemma LookupIgnoresOrder<T(!new)>(a: seq<T>, b: seq<T>, id: T -> string, key: string)
    requires DistinctIds(a, id) && DistinctIds(b, id) && forall x :: x in a <==> x in b
    ensures Lookup(a, id, key) == Lookup(b, id, key)
  {
    hide Lookup;
    LookupFinds(a, id, key);
    LookupFinds(b, id, key);
    if Lookup(a, id, key).Some? {
      LookupIs(b, id, Lookup(a, id, key).value);
    }
  }

  lemma SameLookupsSameMembers<T(!new)>(a: seq<T>, b: seq<T>, id: T -> string)
    requires DistinctIds(a, id) && DistinctIds(b, id)
    requires forall key :: Lookup(a, id, key) == Lookup(b, id, key)
    ensures multiset(a) == multiset(b)
  {
    hide Lookup;
    forall x ensures x in a <==> x in b {
      LookupFinds(a, id, id(x));
      LookupFinds(b, id, id(x));
      if x in a {
        LookupIs(a, id, x);
      }
      if x in b {
        LookupIs(b, id, x);
      }
    }
    SameMembersSameMultiset(a, b);
  }

  lemma NoneIsLast<T>(items: seq<T>, id: T -> string, key: string)
    requires items == []
    ensures LastOf(items, id, key) == None
  {
  }

  lemma LookupCons<T>(items: seq<T>, id: T -> string, key: string)
    requires items != []
    ensures Lookup(items, id, key) == if id(items[0]) == key then Some(items[0]) else Lookup(items[1..], id, key)
  {
  }

  lemma {:induction false} LastOfDistinct<T(!new)>(items: seq<T>, id: T -> string, key: string)
    requires DistinctIds(items, id)
    ensures LastOf(items, id, key) == Lookup(items, id, key)
  {
    hide LastFor, Lookup;
    if items == [] {
      LookupFinds(items, id, key);
      NoneIsLast(items, id, key);
    } else {
      var rest := items[1..];
      LookupCons(items, id, key);
      LastOfDistinct(rest, id, key);
      LookupFinds(rest, id, key);
      assert Keyed(items, id) == [Entry(id(items[0]), items[0])] + Keyed(rest, id);
      LastForCons(Entry(id(items[0]), items[0]), Keyed(rest, id), key);
      if Lookup(rest, id, key).Some? {
        var j :| 0 <= j < |rest| && rest[j] == Lookup(rest, id, key).value;
        assert rest[j] == items[j + 1];
      }
    }
  }

  lemma LastOfOne<T(!new)>(x: T, id: T -> string, key: string)
    ensures LastOf([x], id, key) == if id(x) == key then Some(x) else None
  {
    var entries := Keyed([x], id);
    assert entries[0] == Entry(id(x), x) && |entries| == 1;
    assert entries[..|entries| - 1] == [];
    assert LastFor<string, T>([], key).None?;
  }

  // ---------------------------------------------------------------- the map

  ghost predicate KeyedBy<T(!new)>(m: JsMap<string, T>, id: T -> string) {
    Wf(m) && forall e :: e in m ==> e.key == id(e.value)
  }

  lemma MergedIsKeyed<T(!new)>(current: seq<T>, batch: seq<T>, id: T -> string)
    ensures KeyedBy(Merged(current, batch, id), id)
  {
    hide PutAll;
    var first := PutAll([], Keyed(current, id));
    PutAllKeepsWf([], Keyed(current, id));
    PutAllKeepsWf(first, Keyed(batch, id));
    PutAllEntries([], Keyed(current, id));
    PutAllEntries(first, Keyed(batch, id));
  }

  lemma ValuesOfKeyed<T(!new)>(m: JsMap<string, T>, id: T -> string)
    requires KeyedBy(m, id)
    ensures DistinctIds(Values(m), id) && Keyed(Values(m), id) == m
  {
    hide Values;
    assert forall i :: 0 <= i < |m| ==> m[i] in m;
  }

  lemma GetIsLookup<T(!new)>(m: JsMap<string, T>, id: T -> string, key: string)
    requires KeyedBy(m, id)
    ensures Get(m, key) == Lookup(Values(m), id, key)
  {
    hide Get, Lookup, Values;
    ValuesOfKeyed(m, id);
    LookupFinds(Values(m), id, key);
    assert forall i :: 0 <= i < |m| ==> m[i] in m;
    if Has(m, key) {
      var i :| 0 <= i < |m| && m[i].key == key;
      GetIs(m, i);
      LookupIs(Values(m), id, Values(m)[i]);
    }
  }

  lemma {:induction false} PutAllFresh<K(!new), V(!new)>(entries: seq<Entry<K, V>>)
    requires Wf(entries)
    ensures PutAll([], entries) == entries
    decreases |entries|
  {
    if entries != [] {
      var front, last := entries[..|entries| - 1], entries[|entries| - 1];
      assert entries == front + [last];
      PutAllFresh(front);
      PutAllSnoc([], front, last);
      PutEffect(front, last.key, last.value);
    }
  }

  /** Setting keys that are all there keeps the keys where they are. */
  lemma {:induction false} KeysStay<K(!new), V(!new)>(m: JsMap<K, V>, entries: seq<Entry<K, V>>)
    requires Wf(m) && forall e :: e in entries ==> Has(m, e.key)
    ensures |PutAll(m, entries)| == |m|
    ensures forall i :: 0 <= i < |m| ==> PutAll(m, entries)[i].key == m[i].key
    decreases |entries|
  {
    if entries != [] {
      var m' := Put(m, entries[0].key, entries[0].value);
      hide Put;
      PutEffect(m, entries[0].key, entries[0].value);
      PutKeepsWf(m, entries[0].key, entries[0].value);
      forall e | e in entries[1..] ensures Has(m', e.key) {
        var i :| 0 <= i < |m| && m[i].key == e.key;
        assert m'[i].key == e.key;
      }
      KeysStay(m', entries[1..]);
    }
  }

  lemma TimeIsTotal<T(!new)>(time: T -> int)
    ensures TotalPreorder(Earlier(time))
  {
  }

  // ---------------------------------------------------------------- upserting

  /** Sorting changes neither the ids nor what is found. */
  lemma SortKeepsLookups<T(!new)>(items: seq<T>, id: T -> string, time: T -> int, key: string)
    requires DistinctIds(items, id)
    ensures Ordered(Sort(items, Earlier(time)), id, time)
    ensures Lookup(Sort(items, Earlier(time)), id, key) == Lookup(items, id, key)
  {
    var below := Earlier(time);
    TimeIsTotal(time);
    hide Sort, Lookup, Earlier;
    var sorted := Sort(items, below);
    SortSorts(items, below);
    SortPermutes(items, below);
    DistinctIdsByMultiset(items, sorted, id);
    assert forall x :: x in items <==> x in multiset(items);
    assert forall x :: x in sorted <==> x in multiset(sorted);
    LookupIgnoresOrder(items, sorted, id, key);
  }

  lemma DistinctIdsByMultiset<T(!new)>(a: seq<T>, b: seq<T>, id: T -> string)
    requires DistinctIds(a, id) && multiset(a) == multiset(b)
    ensures DistinctIds(b, id)
  {
    DistinctByMultiset(a, b);
    forall i, j | 0 <= i < j < |b| ensures id(b[i]) != id(b[j]) {
      assert b[i] in multiset(b) && b[j] in multiset(b);
      var k :| 0 <= k < |a| && a[k] == b[i];
      var l :| 0 <= l < |a| && a[l] == b[j];
      assert k != l;
    }
  }

  /** Whatever the index held, afterwards the ids are distinct and the items are in order. */
  lemma UpsertIsOrdered<T(!new)>(current: seq<T>, batch: seq<T>, id: T -> string, time: T -> int)
    ensures Ordered(Upsert(current, batch, id, time), id, time)
  {
    hide Values, Merged, Sort, Earlier;
    MergedIsKeyed(current, batch, id);
    ValuesOfKeyed(Merged(current, batch, id), id);
    SortKeepsLookups(Values(Merged(current, batch, id)), id, time, "");
  }

  /** The last of the batch with an id is stored; an id that the batch does not mention keeps its last item. */
  lemma UpsertLookup<T(!new)>(current: seq<T>, batch: seq<T>, id: T -> string, time: T -> int, key: string)
    ensures Lookup(Upsert(current, batch, id, time), id, key)
         == if LastOf(batch, id, key).Some? then LastOf(batch, id, key) else LastOf(current, id, key)
  {
    hide Values, Sort, Earlier, Lookup, PutAll, LastFor, Get;
    var m := Merged(current, batch, id);
    MergedIsKeyed(current, batch, id);
    ValuesOfKeyed(m, id);
    SortKeepsLookups(Values(m), id, time, key);
    GetIsLookup(m, id, key);
    PutAllKeepsWf([], Keyed(current, id));
    GetAfterPutAll(PutAll([], Keyed(current, id)), Keyed(batch, id), key);
    GetAfterPutAll([], Keyed(current, id), key);
    assert Get<string, T>([], key) == None by {
      assert !Has<string, T>([], key);
    }
  }

  lemma LookupAfterUpsert<T(!new)>(current: seq<T>, batch: seq<T>, id: T -> string, time: T -> int, key: string)
    requires DistinctIds(current, id)
    ensures Lookup(Upsert(current, batch, id, time), id, key)
         == if LastOf(batch, id, key).Some? then LastOf(batch, id, key) else Lookup(current, id, key)
  {
    hide Lookup, Upsert, LastOf;
    UpsertLookup(current, batch, id, time, key);
    LastOfDistinct(current, id, key);
  }

  lemma MergedInPlace<T(!new)>(current: seq<T>, batch: seq<T>, id: T -> string)
    requires DistinctIds(current, id)
    requires forall x :: x in batch ==> Lookup(current, id, id(x)).Some?
    ensures |Values(Merged(current, batch, id))| == |current|
    ensures forall i :: 0 <= i < |current| ==>
              Values(Merged(current, batch, id))[i]
              == (if LastOf(batch, id, id(current[i])).Some? then LastOf(batch, id, id(current[i])).value
                  else current[i])
  {
    hide Values, PutAll, LastFor, Lookup, Get;
    var m, entries := Keyed(current, id), Keyed(batch, id);
    PutAllFresh(m);
    forall e | e in entries ensures Has(m, e.key) {
      LookupFinds(current, id, e.key);
      var x :| x in current && id(x) == e.key;
      var i :| 0 <= i < |current| && current[i] == x;
      assert m[i].key == e.key;
    }
    KeysStay(m, entries);
    var r := PutAll(m, entries);
    PutAllKeepsWf(m, entries);
    forall i | 0 <= i < |m|
      ensures r[i].value == if LastFor(entries, m[i].key).Some? then LastFor(entries, m[i].key).value else current[i]
    {
      GetIs(r, i);
      GetIs(m, i);
      GetAfterPutAll(m, entries, m[i].key);
    }
  }

  lemma LastOfMember<T(!new)>(batch: seq<T>, id: T -> string, x: T)
    requires x in batch
    ensures LastOf(batch, id, id(x)).Some?
  {
    LastForHas(Keyed(batch, id), id(x));
    var i :| 0 <= i < |batch| && batch[i] == x;
    assert Keyed(batch, id)[i].key == id(x);
  }

  lemma {:induction false} LastForHas<V(!new)>(entries: seq<Entry<string, V>>, key: string)
    ensures LastFor(entries, key).Some? <==> Has(entries, key)
  {
    if entries != [] {
      var front, last := entries[..|entries| - 1], entries[|entries| - 1];
      assert entries == front + [last];
      LastForHas(front, key);
      Keyless(front, [last], key);
      assert Has([last], key) <==> last.key == key by {
        assert [last][0] == last;
      }
    }
  }

  /** The same items again: the index is exactly as it was, order included. */
  lemma UpsertIsIdempotent<T(!new)>(current: seq<T>, batch: seq<T>, id: T -> string, time: T -> int)
    ensures Upsert(Upsert(current, batch, id, time), batch, id, time) == Upsert(current, batch, id, time)
  {
    hide Lookup, LastOf, Values, Merged;
    var once := Upsert(current, batch, id, time);
    UpsertIsOrdered(current, batch, id, time);
    forall x | x in batch ensures Lookup(once, id, id(x)).Some? {
      UpsertLookup(current, batch, id, time, id(x));
      LastOfMember(batch, id, x);
    }
    hide Upsert, Sort;
    MergedInPlace(once, batch, id);
    forall i | 0 <= i < |once| ensures Values(Merged(once, batch, id))[i] == once[i] {
      UpsertLookup(current, batch, id, time, id(once[i]));
      LookupIs(once, id, once[i]);
    }
    assert Values(Merged(once, batch, id)) == once;
    SortOfSorted(once, Earlier(time));
    UpsertIsSort(once, batch, id, time);
  }

  lemma UpsertIsSort<T(!new)>(current: seq<T>, batch: seq<T>, id: T -> string, time: T -> int)
    ensures Upsert(current, batch, id, time) == Sort(Values(Merged(current, batch, id)), Earlier(time))
  {
  }

  /** New items for ids that are there, at the times they have, are stored where the old ones were. */
  lemma UpsertInPlace<T(!new)>(current: seq<T>, batch: seq<T>, id: T -> string, time: T -> int)
    requires Ordered(current, id, time)
    requires forall x :: x in batch ==>
        Lookup(current, id, id(x)).Some? && time(Lookup(current, id, id(x)).value) == time(x)
    ensures |Upsert(current, batch, id, time)| == |current|
    ensures forall i :: 0 <= i < |current| ==>
              Upsert(current, batch, id, time)[i]
              == (if LastOf(batch, id, id(current[i])).Some? then LastOf(batch, id, id(current[i])).value
                  else current[i])
  {
    hide Lookup, LastOf, Values, Merged, Upsert, Sort;
    MergedInPlace(current, batch, id);
    var v := Values(Merged(current, batch, id));
    forall i | 0 <= i < |current| ensures time(v[i]) == time(current[i]) {
      if LastOf(batch, id, id(current[i])).Some? {
        LastOfIsMember(batch, id, id(current[i]));
        LookupIs(current, id, current[i]);
      }
    }
    forall i, j | 0 <= i < j < |v| ensures time(v[i]) <= time(v[j]) {
      assert Earlier(time)(current[i], current[j]);
    }
    SortOfSorted(v, Earlier(time));
    UpsertIsSort(current, batch, id, time);
  }

  lemma {:induction false} LastOfIsMember<T(!new)>(batch: seq<T>, id: T -> string, key: string)
    requires LastOf(batch, id, key).Some?
    ensures LastOf(batch, id, key).value in batch && id(LastOf(batch, id, key).value) == key
  {
    var front := batch[..|batch| - 1];
    assert batch == front + [batch[|batch| - 1]];
    assert Keyed(batch, id)[..|batch| - 1] == Keyed(front, id);
    if id(batch[|batch| - 1]) != key {
      LastOfIsMember(front, id, key);
    }
  }

  function AtTime<T>(time: T -> int, t: int): T -> bool {
    (x: T) => time(x) == t
  }

  /** Items of one time stay in the order in which the map has them. */
  lemma TiesKeepMapOrder<T(!new)>(current: seq<T>, batch: seq<T>, id: T -> string, time: T -> int, t: int)
    ensures Select(Upsert(current, batch, id, time), AtTime(time, t))
         == Select(Values(Merged(current, batch, id)), AtTime(time, t))
  {
    hide Values, Merged, Select, Sort;
    UpsertIsSort(current, batch, id, time);
    SortIsStable(Values(Merged(current, batch, id)), Earlier(time), AtTime(time, t));
  }

  lemma SelectNothing<T>(same: T -> bool)
    ensures Select([], same) == []
  {
  }

  lemma {:induction false} SelectConcat<T>(a: seq<T>, b: seq<T>, same: T -> bool)
    ensures Select(a + b, same) == Select(a, same) + Select(b, same)
    decreases |a|
  {
    hide Select;
    if a == [] {
      assert a + b == b;
      SelectNothing(same);
      assert [] + Select(b, same) == Select(b, same);
    } else {
      assert a + b == [a[0]] + (a[1..] + b) && a == [a[0]] + a[1..];
      SelectConcat(a[1..], b, same);
      SelectCons(a[0], a[1..] + b, same);
      SelectCons(a[0], a[1..], same);
      Reassociate(if same(a[0]) then [a[0]] else [], Select(a[1..], same), Select(b, same));
    }
  }

  /** New items come after the old ones of the same time, in the order in which they were given. */
  lemma NewTiesComeLast<T(!new)>(current: seq<T>, batch: seq<T>, id: T -> string, time: T -> int, t: int)
    requires DistinctIds(current + batch, id)
    ensures Select(Upsert(current, batch, id, time), AtTime(time, t))
         == Select(current, AtTime(time, t)) + Select(batch, AtTime(time, t))
  {
    hide Upsert, Select;
    TiesKeepMapOrder(current, batch, id, time, t);
    MergedIsAppended(current, batch, id);
    SelectConcat(current, batch, AtTime(time, t));
  }

  lemma MergedIsAppended<T(!new)>(current: seq<T>, batch: seq<T>, id: T -> string)
    requires DistinctIds(current + batch, id)
    ensures Values(Merged(current, batch, id)) == current + batch
  {
    hide PutAll, Values;
    var all := current + batch;
    assert forall i :: 0 <= i < |current| ==> all[i] == current[i];
    assert forall i :: 0 <= i < |batch| ==> all[|current| + i] == batch[i];
    assert Keyed(all, id) == Keyed(current, id) + Keyed(batch, id);
    PutAllFresh(Keyed(current, id));
    PutAllFresh(Keyed(all, id));
    PutAllSplits([], Keyed(current, id), Keyed(batch, id));
    assert Values(Keyed(all, id)) == all;
  }

  lemma {:induction false} PutAllSplits<K(!new), V(!new)>(m: JsMap<K, V>, a: seq<Entry<K, V>>, b: seq<Entry<K, V>>)
    ensures PutAll(m, a + b) == PutAll(PutAll(m, a), b)
    decreases |a|
  {
    if a == [] {
      assert a + b == b;
    } else {
      assert (a + b)[1..] == a[1..] + b;
      PutAllSplits(Put(m, a[0].key, a[0].value), a[1..], b);
    }
  }

  /** Batches without an id in common: either order stores the same items. */
  lemma DisjointUpsertsAgree<T(!new)>(current: seq<T>, a: seq<T>, b: seq<T>, id: T -> string, time: T -> int,
                                      key: string)
    requires forall x, y :: x in a && y in b ==> id(x) != id(y)
    ensures Lookup(Upsert(Upsert(current, a, id, time), b, id, time), id, key)
         == Lookup(Upsert(Upsert(current, b, id, time), a, id, time), id, key)
  {
    hide Upsert, Lookup, LastOf;
    UpsertIsOrdered(current, a, id, time);
    UpsertIsOrdered(current, b, id, time);
    LookupAfterUpsert(Upsert(current, a, id, time), b, id, time, key);
    LookupAfterUpsert(Upsert(current, b, id, time), a, id, time, key);
    UpsertLookup(current, a, id, time, key);
    UpsertLookup(current, b, id, time, key);
    if LastOf(a, id, key).Some? && LastOf(b, id, key).Some? {
      LastOfIsMember(a, id, key);
      LastOfIsMember(b, id, key);
      assert false;
    }
  }

  /** And the same order too, when no two items have the same time. */
  lemma DisjointUpsertsCommute<T(!new)>(current: seq<T>, a: seq<T>, b: seq<T>, id: T -> string, time: T -> int)
    requires forall x, y :: x in a && y in b ==> id(x) != id(y)
    requires NoTies(Upsert(Upsert(current, a, id, time), b, id, time), time)
    ensures Upsert(Upsert(current, a, id, time), b, id, time) == Upsert(Upsert(current, b, id, time), a, id, time)
  {
    hide Upsert, Lookup;
    var ab := Upsert(Upsert(current, a, id, time), b, id, time);
    var ba := Upsert(Upsert(current, b, id, time), a, id, time);
    UpsertIsOrdered(Upsert(current, a, id, time), b, id, time);
    UpsertIsOrdered(Upsert(current, b, id, time), a, id, time);
    forall key ensures Lookup(ab, id, key) == Lookup(ba, id, key) {
      DisjointUpsertsAgree(current, a, b, id, time, key);
    }
    SameLookupsSameMembers(ab, ba, id);
    SortedIsUnique(ab, ba, Earlier(time));
  }

  // ---------------------------------------------------------------- filtering

  lemma {:induction false} FilterFrom<T(!new)>(s: seq<T>, keep: T -> bool, i: nat, j: nat) returns (k: nat, l: nat)
    requires i < j < |Filter(s, keep)|
    ensures k < l < |s| && s[k] == Filter(s, keep)[i] && s[l] == Filter(s, keep)[j]
  {
    var front := s[..|s| - 1];
    if j < |Filter(front, keep)| {
      k, l := FilterFrom(front, keep, i, j);
    } else {
      FilterMembers(front, keep, Filter(front, keep)[i]);
      k :| 0 <= k < |front| && front[k] == Filter(front, keep)[i];
      l := |front|;
    }
  }

  /** Dropping items keeps the order, and what is found is what was found and is kept. */
  lemma FilterKeepsOrdered<T(!new)>(items: seq<T>, id: T -> string, time: T -> int, keep: T -> bool, key: string)
    requires Ordered(items, id, time)
    ensures Ordered(Filter(items, keep), id, time)
    ensures Lookup(Filter(items, keep), id, key)
         == if Lookup(items, id, key).Some? && keep(Lookup(items, id, key).value) then Lookup(items, id, key) else None
  {
    hide Filter, Lookup;
    var kept := Filter(items, keep);
    forall i, j | 0 <= i < j < |kept| ensures id(kept[i]) != id(kept[j]) && Earlier(time)(kept[i], kept[j]) {
      var k, l := FilterFrom(items, keep, i, j);
    }
    LookupFinds(items, id, key);
    LookupFinds(kept, id, key);
    if Lookup(kept, id, key).Some? {
      FilterMembers(items, keep, Lookup(kept, id, key).value);
      LookupIs(items, id, Lookup(kept, id, key).value);
    } else if Lookup(items, id, key).Some? {
      FilterMembers(items, keep, Lookup(items, id, key).value);
    }
  }
}
