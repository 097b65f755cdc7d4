/** ECMAScript's `Map`: a list of entries with distinct keys, in the order of first insertion. */
module JsMap {
  import opened Wrappers

  datatype Entry<K, V> = Entry(key: K, value: V)

  type JsMap<K, V> = seq<Entry<K, V>>

  ghost predicate Wf<K, V>(m: JsMap<K, V>) {
    forall i, j :: 0 <= i < j < |m| ==> m[i].key != m[j].key
  }

  predicate Has<K(==), V>(m: JsMap<K, V>, key: K) {
    exists i :: 0 <= i < |m| && m[i].key == key
  }

  function Get<K(==), V>(m: JsMap<K, V>, key: K): (r: Option<V>)
    ensures r.Some? <==> Has(m, key)
    ensures r.Some? ==> exists i :: 0 <= i < |m| && m[i] == Entry(key, r.value)
  {
    if m == [] then None
    else if m[0].key == key then
      assert m[0] == Entry(key, m[0].value);
      Some(m[0].value)
    else
      var r := Get(m[1..], key);
      assert r.Some? ==> exists i :: 0 <= i < |m[1..]| && m[1..][i] == Entry(key, r.value);
      r
  }

  /** `set`: in place for a key that is there, at the end for a new one. */
  function Put<K(==), V>(m: JsMap<K, V>, key: K, value: V): (r: JsMap<K, V>) {
    if m == [] then [Entry(key, value)]
    else if m[0].key == key then [Entry(key, value)] + m[1..]
    else [m[0]] + Put(m[1..], key, value)
  }

  function Delete<K(==), V>(m: JsMap<K, V>, key: K): (r: JsMap<K, V>) {
    if m == [] then []
    else if m[0].key == key then m[1..]
    else [m[0]] + Delete(m[1..], key)
  }

  function Values<K, V>(m: JsMap<K, V>): (r: seq<V>)
    ensures |r| == |m|
    ensures forall i :: 0 <= i < |m| ==> r[i] == m[i].value
  {
    if m == [] then [] else [m[0].value] + Values(m[1..])
  }

  /** Setting many entries in order. */
  function PutAll<K(==), V>(m: JsMap<K, V>, entries: seq<Entry<K, V>>): (r: JsMap<K, V>)
    decreases |entries|
  {
    if entries == [] then m else PutAll(Put(m, entries[0].key, entries[0].value), entries[1..])
  }

  // ---------------------------------------------------------------- lemmas

  lemma OtherKeyFirst<K, V>(first: Entry<K, V>, rest: JsMap<K, V>, key: K)
    requires first.key != key
    ensures Has([first] + rest, key) <==> Has(rest, key)
  {
    assert forall i :: 0 <= i < |rest| ==> ([first] + rest)[i + 1] == rest[i];
  }

  /** What `set` does, position by position. */
  lemma {:induction false} PutEffect<K, V>(m: JsMap<K, V>, key: K, value: V)
    ensures var r := Put(m, key, value);
            && |r| == |m| + (if Has(m, key) then 0 else 1)
            && (forall i :: 0 <= i < |m| ==>
                  r[i] == if m[i].key == key && !Has(m[..i], key) then Entry(key, value) else m[i])
            && (!Has(m, key) ==> r == m + [Entry(key, value)])
  {
    if m != [] {
      if m[0].key == key {
        assert forall i :: 0 < i < |m| ==> m[..i][0] == m[0];
      } else {
        var t := m[1..];
        PutEffect(t, key, value);
        assert m == [m[0]] + t;
        OtherKeyFirst(m[0], t, key);
        forall i | 0 < i < |m| ensures Has(m[..i], key) <==> Has(t[..i - 1], key) {
          assert m[..i] == [m[0]] + t[..i - 1];
          OtherKeyFirst(m[0], t[..i - 1], key);
        }
        assert !Has(t, key) ==> [m[0]] + (t + [Entry(key, value)]) == m + [Entry(key, value)];
      }
    }
  }

  lemma {:induction false} GetIs<K, V>(m: JsMap<K, V>, i: nat)
    requires Wf(m) && i < |m|
    ensures Get(m, m[i].key) == Some(m[i].value)
  {
    var v := Get(m, m[i].key);
    assert Has(m, m[i].key);
    var j :| 0 <= j < |m| && m[j] == Entry(m[i].key, v.value);
    assert i == j;
  }

  /** Setting a key that is there changes one position. */
  lemma PutPresent<K, V>(m: JsMap<K, V>, key: K, value: V) returns (i: nat)
    requires Wf(m) && Get(m, key).Some?
    ensures i < |m| && m[i] == Entry(key, Get(m, key).value) && Put(m, key, value) == m[i := Entry(key, value)]
  {
    PutEffect(m, key, value);
    i :| 0 <= i < |m| && m[i] == Entry(key, Get(m, key).value);
  }

  lemma PutKeepsWf<K, V>(m: JsMap<K, V>, key: K, value: V)
    requires Wf(m)
    ensures Wf(Put(m, key, value))
  {
    PutEffect(m, key, value);
  }

  lemma GetAfterPut<K, V>(m: JsMap<K, V>, key: K, value: V, k: K)
    requires Wf(m)
    ensures Get(Put(m, key, value), k) == if k == key then Some(value) else Get(m, k)
  {
    var r := Put(m, key, value);
    PutEffect(m, key, value);
    PutKeepsWf(m, key, value);
    if k == key {
      if Has(m, key) {
        var i :| 0 <= i < |m| && m[i].key == key;
        assert r[i] == Entry(key, value);
        GetIs(r, i);
      } else {
        GetIs(r, |m|);
      }
    } else if Has(m, k) {
      var i :| 0 <= i < |m| && m[i].key == k;
      GetIs(m, i);
      GetIs(r, i);
    } else {
      assert !Has(r, k);
    }
  }

  lemma {:induction false} PutAllKeepsWf<K, V>(m: JsMap<K, V>, entries: seq<Entry<K, V>>)
    requires Wf(m)
    ensures Wf(PutAll(m, entries))
    decreases |entries|
  {
    if entries != [] {
      PutKeepsWf(m, entries[0].key, entries[0].value);
      PutAllKeepsWf(Put(m, entries[0].key, entries[0].value), entries[1..]);
    }
  }

  /** The last entry for a key, if any. */
  function LastFor<K(==), V>(entries: seq<Entry<K, V>>, key: K): Option<V> {
    if entries == [] then None
    else if entries[|entries| - 1].key == key then Some(entries[|entries| - 1].value)
    else LastFor(entries[..|entries| - 1], key)
  }

  lemma {:induction false} LastForCons<K, V>(first: Entry<K, V>, rest: seq<Entry<K, V>>, key: K)
    ensures LastFor([first] + rest, key)
         == if LastFor(rest, key).Some? then LastFor(rest, key)
            else if first.key == key then Some(first.value) else None
    decreases |rest|
  {
    var all := [first] + rest;
    if rest == [] {
      assert all[..0] == [];
    } else {
      assert all[..|all| - 1] == [first] + rest[..|rest| - 1];
      LastForCons(first, rest[..|rest| - 1], key);
    }
  }

  /** The last value set for a key wins, and other keys keep theirs. */
  lemma {:induction false} GetAfterPutAll<K, V>(m: JsMap<K, V>, entries: seq<Entry<K, V>>, key: K)
    requires Wf(m)
    ensures Get(PutAll(m, entries), key) == if LastFor(entries, key).Some? then LastFor(entries, key) else Get(m, key)
    decreases |entries|
  {
    if entries != [] {
      var m' := Put(m, entries[0].key, entries[0].value);
      PutKeepsWf(m, entries[0].key, entries[0].value);
      GetAfterPut(m, entries[0].key, entries[0].value, key);
      GetAfterPutAll(m', entries[1..], key);
      assert entries == [entries[0]] + entries[1..];
      LastForCons(entries[0], entries[1..], key);
    }
  }

  lemma {:induction false} PutAllSnoc<K, V>(m: JsMap<K, V>, entries: seq<Entry<K, V>>, last: Entry<K, V>)
    ensures PutAll(m, entries + [last]) == Put(PutAll(m, entries), last.key, last.value)
    decreases |entries|
  {
    if entries == [] {
      assert entries + [last] == [last];
      assert [last][1..] == [];
    } else {
      assert (entries + [last])[1..] == entries[1..] + [last];
      PutAllSnoc(Put(m, entries[0].key, entries[0].value), entries[1..], last);
    }
  }

  lemma Keyless<K, V>(m: JsMap<K, V>, own: JsMap<K, V>, key: K)
    ensures Has(m + own, key) <==> Has(m, key) || Has(own, key)
  {
    assert forall i :: 0 <= i < |m| ==> (m + own)[i] == m[i];
    assert forall i :: 0 <= i < |own| ==> (m + own)[|m| + i] == own[i];
  }

  /** Setting a key that the first part lacks only concerns the second part. */
  lemma {:induction false} PutInSecond<K, V>(m: JsMap<K, V>, own: JsMap<K, V>, key: K, value: V)
    requires !Has(m, key)
    ensures Put(m + own, key, value) == m + Put(own, key, value)
  {
    if m == [] {
      assert m + own == own && m + Put(own, key, value) == Put(own, key, value);
    } else {
      assert m[0].key != key;
      assert (m + own)[1..] == m[1..] + own;
      assert forall i :: 0 <= i < |m[1..]| ==> m[1..][i] == m[i + 1];
      PutInSecond(m[1..], own, key, value);
      assert m == [m[0]] + m[1..];
    }
  }

  lemma {:induction false} PutAllInSecond<K, V>(m: JsMap<K, V>, own: JsMap<K, V>, entries: seq<Entry<K, V>>)
    requires forall e :: e in entries ==> !Has(m, e.key)
    ensures PutAll(m + own, entries) == m + PutAll(own, entries)
    decreases |entries|
  {
    if entries != [] {
      PutInSecond(m, own, entries[0].key, entries[0].value);
      PutAllInSecond(m, Put(own, entries[0].key, entries[0].value), entries[1..]);
    }
  }

  /** Setting entries leaves only old entries and given ones, and every given key. */
  lemma {:induction false} PutAllEntries<K(!new), V(!new)>(m: JsMap<K, V>, entries: seq<Entry<K, V>>)
    requires Wf(m)
    ensures forall e :: e in PutAll(m, entries) ==> e in m || e in entries
    ensures forall k :: Has(PutAll(m, entries), k) <==> Has(m, k) || Has(entries, k)
    decreases |entries|
  {
    if entries != [] {
      var first, rest := entries[0], entries[1..];
      var m' := Put(m, first.key, first.value);
      PutEffect(m, first.key, first.value);
      PutKeepsWf(m, first.key, first.value);
      PutAllEntries(m', rest);
      assert entries == [first] + rest;
      assert forall e :: e in m' ==> e in m || e == first;
      forall k ensures Has(m', k) <==> Has(m, k) || k == first.key {
        GetAfterPut(m, first.key, first.value, k);
      }
      forall k ensures Has(entries, k) <==> k == first.key || Has(rest, k) {
        Keyless([first], rest, k);
      }
    }
  }

  lemma AppendKeepsWf<K(!new), V(!new)>(m: JsMap<K, V>, own: JsMap<K, V>)
    requires Wf(m) && Wf(own) && forall e :: e in own ==> !Has(m, e.key)
    ensures Wf(m + own)
  {
    forall i, j | 0 <= i < j < |m + own| ensures (m + own)[i].key != (m + own)[j].key {
      if i < |m| <= j {
        assert own[j - |m|] in own;
      }
    }
  }

  lemma GetInFirst<K, V>(m: JsMap<K, V>, more: JsMap<K, V>, key: K)
    requires Wf(m + more) && Get(m, key).Some?
    ensures Get(m + more, key) == Get(m, key)
  {
    var i :| 0 <= i < |m| && m[i] == Entry(key, Get(m, key).value);
    GetIs(m + more, i);
  }

  lemma GetInSecond<K, V>(m: JsMap<K, V>, more: JsMap<K, V>, key: K)
    requires Wf(m + more) && Get(more, key).Some?
    ensures Get(m + more, key) == Get(more, key)
  {
    var i :| 0 <= i < |more| && more[i] == Entry(key, Get(more, key).value);
    assert (m + more)[|m| + i] == more[i];
    GetIs(m + more, |m| + i);
  }
}
