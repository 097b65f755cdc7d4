/**
 What the canonical text looks like, written out: the members of an object in increasing order of keys, the
 literals, the escapes of strings, and the text that a descriptor's digest is the hash of.
 */
module CanonicalText {
  import opened Wrappers
  import opened Sequences
  import opened StableSort
  import opened CanonicalJson
  import opened Descriptors

  /** Smaller at the first unit that differs, or a proper prefix. */
  ghost predicate Before(a: Text, b: Text) {
    exists k: nat :: FirstDifference(a, b, k)
  }

  predicate FirstDifference(a: Text, b: Text, k: nat) {
    && k <= |a| && k < |b|
    && (forall i :: 0 <= i < k ==> a[i] == b[i])
    && (k == |a| || a[k] < b[k])
  }

  ghost predicate KeysIncrease(fields: seq<Field>) {
    forall i :: 0 <= i < |fields| - 1 ==> Before(fields[i].key, fields[i + 1].key)
  }

  /** `"key":value` for each field in the order given, with commas between them. */
  function Members(fields: seq<Field>): Text {
    if fields == [] then []
    else
      Quote(fields[0].key) + Ascii(":") + Stringify(fields[0].value)
      + if |fields| == 1 then [] else Ascii(",") + Members(fields[1..])
  }

  function Elements(items: seq<Json>): Text {
    if items == [] then []
    else
      (if items[0].Undefined? then [] else Stringify(items[0]))
      + if |items| == 1 then [] else Ascii(",") + Elements(items[1..])
  }

  // ---------------------------------------------------------------- the order of keys

  lemma {:induction false} AtMostUntil(a: Text, b: Text, k: nat)
    requires FirstDifference(a, b, k)
    ensures AtMost(a, b) && a != b
  {
    if k > 0 {
      forall i | 0 <= i < k - 1 ensures a[1..][i] == b[1..][i] {
        assert a[i + 1] == b[i + 1];
      }
      AtMostUntil(a[1..], b[1..], k - 1);
    }
  }

  lemma BeforeIsStrict(a: Text, b: Text)
    requires Before(a, b)
    ensures AtMost(a, b) && a != b
  {
    var k: nat :| FirstDifference(a, b, k);
    AtMostUntil(a, b, k);
  }

  lemma {:induction false} IncreasingIsSorted(fields: seq<Field>, i: nat, j: nat)
    requires KeysIncrease(fields) && i < j < |fields|
    ensures AtMost(fields[i].key, fields[j].key) && fields[i].key != fields[j].key
    decreases j
  {
    hide AtMost, Before;
    BeforeIsStrict(fields[j - 1].key, fields[j].key);
    if i < j - 1 {
      IncreasingIsSorted(fields, i, j - 1);
      AtMostIsTransitive(fields[i].key, fields[j - 1].key, fields[j].key);
      AtMostIsTotal(fields[i].key, fields[j - 1].key);
      AtMostIsTotal(fields[j - 1].key, fields[j].key);
    }
  }

  lemma {:induction false} EntryTextsAre(fields: seq<Field>)
    ensures Commas(EntryTexts(Render(fields))) == Members(fields)
  {
    hide Stringify, Quote;
    if fields != [] {
      var entries := Render(fields);
      assert entries[1..] == Render(fields[1..]);
      var first := Quote(fields[0].key) + [COLON] + Stringify(fields[0].value);
      assert Ascii(":") == [COLON] && Ascii(",") == [COMMA];
      assert EntryTexts(entries) == [first] + EntryTexts(Render(fields[1..]));
      assert EntryTexts(entries)[1..] == EntryTexts(Render(fields[1..]));
      EntryTextsAre(fields[1..]);
      if |fields| > 1 {
        CommaThenCommas(EntryTexts(Render(fields[1..])));
      } else {
        assert Render(fields[1..]) == [];
      }
    }
  }

  lemma CommaThenCommas(texts: seq<Text>)
    requires texts != []
    ensures CommaEach(texts) == [COMMA] + Commas(texts)
  {
  }

  lemma IncreasingRenderIsSorted(sorted: seq<Field>)
    requires KeysIncrease(sorted)
    ensures Sort(Render(sorted), ByKey) == Render(sorted) && EntryKeysDistinct(Render(sorted))
  {
    hide AtMost, Before, KeysIncrease, Stringify, Sort;
    var entries := Render(sorted);
    forall i, j | 0 <= i < j < |entries| ensures ByKey(entries[i], entries[j]) && entries[i].key != entries[j].key {
      IncreasingIsSorted(sorted, i, j);
    }
    SortOfSorted(entries, ByKey);
  }

  lemma RenderKeepsDistinct(fields: seq<Field>)
    requires KeysDistinct(fields)
    ensures EntryKeysDistinct(Render(fields))
  {
    hide Stringify;
  }

  /**
   The text of an object: its members by increasing key inside braces. `sorted` holds the same fields in that
   order, whatever the order of insertion.
   */
  lemma ObjectIsWritten(fields: seq<Field>, sorted: seq<Field>)
    requires KeysDistinct(fields) && KeysIncrease(sorted) && forall f :: f in fields <==> f in sorted
    ensures Stringify(Obj(fields)) == Ascii("{") + Members(sorted) + Ascii("}")
  {
    hide Quote, Before, KeysIncrease, Sort, ByKey, KeysDistinct, EntryKeysDistinct, Render, EntryTexts, Commas, Members;
    IncreasingRenderIsSorted(sorted);
    RenderKeepsDistinct(fields);
    SameFieldsSameEntries(fields, sorted);
    SameFieldsSameEntries(sorted, fields);
    SortForgetsOrder(Render(fields), Render(sorted));
    EntryTextsAre(sorted);
    assert Ascii("{") == [OPEN_OBJECT] && Ascii("}") == [CLOSE_OBJECT];
  }

  lemma {:induction false} AtMostIsBefore(a: Text, b: Text) returns (k: nat)
    requires AtMost(a, b) && a != b
    ensures FirstDifference(a, b, k)
  {
    if a == [] || a[0] != b[0] {
      k := 0;
    } else {
      assert a == [a[0]] + a[1..] && b == [b[0]] + b[1..];
      k := AtMostIsBefore(a[1..], b[1..]);
      k := k + 1;
      forall i | 0 <= i < k ensures a[i] == b[i] {
        assert i > 0 ==> a[1..][i - 1] == b[1..][i - 1];
      }
    }
  }

  predicate FieldByKey(f: Field, g: Field) {
    AtMost(f.key, g.key)
  }

  lemma FieldByKeyIsTotalPreorder()
    ensures TotalPreorder(FieldByKey)
  {
    hide AtMost;
    forall f: Field, g: Field ensures FieldByKey(f, g) || FieldByKey(g, f) {
      AtMostIsTotal(f.key, g.key);
    }
    forall f: Field, g: Field, h: Field | FieldByKey(f, g) && FieldByKey(g, h) ensures FieldByKey(f, h) {
      AtMostIsTransitive(f.key, g.key, h.key);
    }
  }

  /** Every object has such an arrangement, so `ObjectIsWritten` settles the text of every object. */
  lemma SortedFieldsExist(fields: seq<Field>) returns (sorted: seq<Field>)
    requires KeysDistinct(fields)
    ensures KeysIncrease(sorted) && forall f :: f in fields <==> f in sorted
  {
    hide AtMost, FirstDifference, Sort;
    sorted := Sort(fields, FieldByKey);
    FieldByKeyIsTotalPreorder();
    SortSorts(fields, FieldByKey);
    SortPermutes(fields, FieldByKey);
    forall f ensures f in fields <==> f in sorted {
      SortKeepsMembers(fields, FieldByKey, f);
    }
    assert Distinct(fields);
    DistinctByMultiset(fields, sorted);
    forall i | 0 <= i < |sorted| - 1 ensures Before(sorted[i].key, sorted[i + 1].key) {
      assert sorted[i] in fields && sorted[i + 1] in fields;
      assert FieldByKey(sorted[i], sorted[i + 1]);
      var k := AtMostIsBefore(sorted[i].key, sorted[i + 1].key);
    }
  }

  lemma SameFieldsSameEntries(a: seq<Field>, b: seq<Field>)
    requires forall f :: f in a ==> f in b
    ensures forall e :: e in Render(a) ==> e in Render(b)
  {
    hide Stringify;
    forall e | e in Render(a) ensures e in Render(b) {
      var i :| 0 <= i < |a| && Render(a)[i] == e;
      assert a[i] in b;
      var j :| 0 <= j < |b| && b[j] == a[i];
      assert Render(b)[j] == e;
    }
  }

  lemma {:induction false} ItemTextsAre(items: seq<Json>)
    ensures Commas(ItemTexts(items)) == Elements(items)
  {
    hide Stringify;
    if items != [] {
      assert Ascii(",") == [COMMA];
      assert ItemTexts(items)[1..] == ItemTexts(items[1..]);
      ItemTextsAre(items[1..]);
      if |items| > 1 {
        CommaThenCommas(ItemTexts(items[1..]));
      }
    }
  }

  lemma ArrayIsWritten(items: seq<Json>)
    ensures Stringify(Arr(items)) == Ascii("[") + Elements(items) + Ascii("]")
  {
    ItemTextsAre(items);
    assert Ascii("[") == [OPEN_LIST] && Ascii("]") == [CLOSE_LIST];
  }

  /** The values without parts. What JSON cannot carry prints as null, and an undefined field is spelled out. */
  lemma LiteralsAreWritten(digits: Text)
    ensures Stringify(Null) == Stringify(NonFinite) == Ascii("null")
    ensures Stringify(Bool(true)) == Ascii("true") && Stringify(Bool(false)) == Ascii("false")
    ensures Stringify(Number(digits)) == digits
    ensures Stringify(Undefined) == Ascii("undefined")
  {
  }

  // ---------------------------------------------------------------- the text of a string

  /** What `JSON.stringify` writes for one code unit that is not half of a pair. */
  function UnitText(u: Unit): Text {
    var digit := Ascii("0123456789abcdef");
    if u == '\"' as int then Ascii("\\\"")
    else if u == '\\' as int then Ascii("\\\\")
    else if u == 8 then Ascii("\\b")
    else if u == 9 then Ascii("\\t")
    else if u == 10 then Ascii("\\n")
    else if u == 12 then Ascii("\\f")
    else if u == 13 then Ascii("\\r")
    else if u < 16 then Ascii("\\u000") + [digit[u]]
    else if u < 32 then Ascii("\\u001") + [digit[u - 16]]
    else if 0xD800 <= u < 0xE000 then Ascii("\\ud") + [digit[u / 256 % 16], digit[u / 16 % 16], digit[u % 16]]
    else [u]
  }

  predicate PairStarts(s: Text) {
    |s| > 1 && 0xD800 <= s[0] < 0xDC00 && 0xDC00 <= s[1] < 0xE000
  }

  lemma HexDigitIs(d: nat)
    requires d < 16
    ensures HexDigit(d) == Ascii("0123456789abcdef")[d]
  {
  }

  lemma UnitIsWritten(u: Unit)
    ensures EscapeUnit(u) == UnitText(u)
  {
    hide HexDigit;
    if ShortEscape(u).None? && (u < 32 || 0xD800 <= u < 0xE000) {
      HexDigitIs(u / 4096);
      HexDigitIs(u / 256 % 16);
      HexDigitIs(u / 16 % 16);
      HexDigitIs(u % 16);
      HighDigits(u);
    }
  }

  lemma HighDigits(u: Unit)
    ensures u < 32 ==> u / 4096 == 0 && u / 256 % 16 == 0
    ensures u < 16 ==> u / 16 % 16 == 0 && u % 16 == u
    ensures 16 <= u < 32 ==> u / 16 % 16 == 1 && u % 16 == u - 16
    ensures 0xD800 <= u < 0xE000 ==> u / 4096 == 13
  {
  }

  lemma QuoteParts(s: Text)
    ensures Quote(s) == Ascii("\"") + (Escape(s) + Ascii("\"")) && Quote(s)[1..] == Escape(s) + Ascii("\"")
  {
    hide Escape;
    assert Ascii("\"") == [QUOTE];
  }

  /** A string's text unit by unit: surrogate pairs are copied, everything else is written as `UnitText` says. */
  lemma StringIsWritten(s: Text)
    ensures Quote([]) == Ascii("\"\"")
    ensures s != [] ==>
              var n := if PairStarts(s) then 2 else 1;
              Quote(s) == Ascii("\"") + (if PairStarts(s) then s[..2] else UnitText(s[0])) + Quote(s[n..])[1..]
  {
    hide Escape, EscapeUnit, UnitText, Quote;
    QuoteParts([]);
    EscapeSteps([]);
    assert Ascii("\"") + ([] + Ascii("\"")) == Ascii("\"\"");
    if s != [] {
      var n := if PairStarts(s) then 2 else 1;
      var first := if PairStarts(s) then s[..2] else UnitText(s[0]);
      EscapeSteps(s);
      UnitIsWritten(s[0]);
      QuoteParts(s);
      QuoteParts(s[n..]);
      assert Escape(s) == first + Escape(s[n..]);
      assert Ascii("\"") + (first + Escape(s[n..]) + Ascii("\""))
          == Ascii("\"") + first + (Escape(s[n..]) + Ascii("\""));
    }
  }

  predicate IsPlain(s: Text) {
    forall i :: 0 <= i < |s| ==> 32 <= s[i] < 0xD800 && s[i] != 34 && s[i] != 92
  }

  lemma {:induction false} PlainIsCopied(s: Text)
    requires IsPlain(s)
    ensures Escape(s) == s
  {
    hide Escape;
    EscapeSteps(s);
    if s != [] {
      assert EscapeUnit(s[0]) == [s[0]];
      assert IsPlain(s[1..]) by {
        forall i | 0 <= i < |s[1..]| ensures 32 <= s[1..][i] < 0xD800 && s[1..][i] != 34 && s[1..][i] != 92 {
          assert s[1..][i] == s[i + 1];
        }
      }
      PlainIsCopied(s[1..]);
    }
  }

  lemma PlainText(s: Text)
    requires IsPlain(s)
    ensures Quote(s) == Ascii("\"") + (s + Ascii("\""))
  {
    PlainIsCopied(s);
    QuoteParts(s);
  }

  lemma TwoMembersText(f: Field, g: Field)
    ensures Members([f, g]) == Quote(f.key) + Ascii(":") + Stringify(f.value) + (Ascii(",") +
                               (Quote(g.key) + Ascii(":") + Stringify(g.value)))
  {
    hide Stringify, Quote;
    assert [f, g][1..] == [g];
    assert Members([g]) == Quote(g.key) + Ascii(":") + Stringify(g.value);
  }

  /** An object with two plain keys, inserted in the other order. */
  lemma TwoMembers(one: Text, two: Text)
    ensures Stringify(Obj([Field(Ascii("b"), Number(two)), Field(Ascii("a"), Number(one))]))
         == Ascii("{\"a\":") + one + Ascii(",\"b\":") + two + Ascii("}")
  {
    hide Stringify, Quote, Members;
    var a, b := Field(Ascii("a"), Number(one)), Field(Ascii("b"), Number(two));
    assert FirstDifference(Ascii("a"), Ascii("b"), 0);
    ObjectIsWritten([b, a], [a, b]);
    TwoMembersText(a, b);
    PlainText(Ascii("a"));
    PlainText(Ascii("b"));
    LiteralsAreWritten(one);
    LiteralsAreWritten(two);
    assert Ascii("{") + (Quote(Ascii("a")) + Ascii(":")) == Ascii("{\"a\":");
    assert Ascii(",") + (Quote(Ascii("b")) + Ascii(":")) == Ascii(",\"b\":");
  }

  // ---------------------------------------------------------------- the text of a descriptor

  /** The fields of a descriptor by key. */
  function SortedFields(d: Descriptor): (fields: seq<Field>) {
    [Field(Ascii("capability_id"), Str(d.capability_id)),
     Field(Ascii("description"), Str(d.description)),
     Field(Ascii("examples"), Arr(d.examples)),
     Field(Ascii("idempotency_mode"), Str(d.idempotency_mode)),
     Field(Ascii("input_schema"), d.input_schema),
     Field(Ascii("max_attempts"), Number(Decimal(d.max_attempts))),
     Field(Ascii("name"), Str(d.name)),
     Field(Ascii("output_schema"), d.output_schema),
     Field(Ascii("pack_id"), Str(d.pack_id)),
     Field(Ascii("requires_approval"), Bool(d.requires_approval)),
     Field(Ascii("risk_level"), Str(match d.risk_level
                                    case Read => Ascii("read")
                                    case Write => Ascii("write")
                                    case ExternalSideEffect => Ascii("external_side_effect")
                                    case Destructive => Ascii("destructive"))),
     Field(Ascii("scopes"), Strings(d.scopes)),
     Field(Ascii("side_effect_kind"), Str(d.side_effect_kind)),
     Field(Ascii("tags"), Strings(d.tags)),
     Field(Ascii("timeout_ms"), Number(Decimal(d.timeout_ms)))]
  }

  lemma FirstKeysIncrease(d: Descriptor, i: nat)
    requires i < 5
    ensures Before(SortedFields(d)[i].key, SortedFields(d)[i + 1].key)
  {
    hide Strings, Decimal;
    assert FirstDifference(Ascii("capability_id"), Ascii("description"), 0);
    assert FirstDifference(Ascii("description"), Ascii("examples"), 0);
    assert FirstDifference(Ascii("examples"), Ascii("idempotency_mode"), 0);
    assert FirstDifference(Ascii("idempotency_mode"), Ascii("input_schema"), 1);
    assert FirstDifference(Ascii("input_schema"), Ascii("max_attempts"), 0);
  }

  lemma MiddleKeysIncrease(d: Descriptor, i: nat)
    requires 5 <= i < 10
    ensures Before(SortedFields(d)[i].key, SortedFields(d)[i + 1].key)
  {
    hide Strings, Decimal;
    assert FirstDifference(Ascii("max_attempts"), Ascii("name"), 0);
    assert FirstDifference(Ascii("name"), Ascii("output_schema"), 0);
    assert FirstDifference(Ascii("output_schema"), Ascii("pack_id"), 0);
    assert FirstDifference(Ascii("pack_id"), Ascii("requires_approval"), 0);
    assert FirstDifference(Ascii("requires_approval"), Ascii("risk_level"), 1);
  }

  lemma LastKeysIncrease(d: Descriptor, i: nat)
    requires 10 <= i < 14
    ensures Before(SortedFields(d)[i].key, SortedFields(d)[i + 1].key)
  {
    hide Strings, Decimal;
    assert FirstDifference(Ascii("risk_level"), Ascii("scopes"), 0);
    assert FirstDifference(Ascii("scopes"), Ascii("side_effect_kind"), 1);
    assert FirstDifference(Ascii("side_effect_kind"), Ascii("tags"), 0);
    assert FirstDifference(Ascii("tags"), Ascii("timeout_ms"), 1);
  }

  /** The digest is the hash of the fifteen members by key, inside braces. */
  lemma DigestedText(hash: Text -> Text, d: Descriptor)
    ensures CapabilityDigest(hash, d) == hash(Ascii("{") + Members(SortedFields(d)) + Ascii("}"))
  {
    KeysAreDistinct();
    var f, g := ToFields(d), SortedFields(d);
    assert forall i :: 0 <= i < |KEYS| ==> f[i] == Field(KEYS[i], FieldValues(d)[i]);
    forall i | 0 <= i < |g| - 1 ensures Before(g[i].key, g[i + 1].key) {
      if i < 5 {
        FirstKeysIncrease(d, i);
      } else if i < 10 {
        MiddleKeysIncrease(d, i);
      } else {
        LastKeysIncrease(d, i);
      }
    }
    SameFields(d);
    hide Stringify, Members, ToFields, FieldValues, SortedFields, KEYS;
    ObjectIsWritten(f, g);
  }

  lemma SameFirstFields(d: Descriptor)
    ensures var f, g := ToFields(d), SortedFields(d);
            && g[0] == f[0]
            && g[1] == f[3]
            && g[2] == f[14]
            && g[3] == f[9]
            && g[4] == f[4]
  {
    hide Strings, Decimal, Ascii;
    var f, g := ToFields(d), SortedFields(d);
    assert f[0] == Field(KEYS[0], FieldValues(d)[0]);
    assert f[3] == Field(KEYS[3], FieldValues(d)[3]);
    assert f[14] == Field(KEYS[14], FieldValues(d)[14]);
    assert f[9] == Field(KEYS[9], FieldValues(d)[9]);
    assert f[4] == Field(KEYS[4], FieldValues(d)[4]);
  }

  lemma SameMiddleFields(d: Descriptor)
    ensures var f, g := ToFields(d), SortedFields(d);
            && g[5] == f[11]
            && g[6] == f[2]
            && g[7] == f[5]
            && g[8] == f[1]
            && g[9] == f[8]
  {
    hide Strings, Decimal, Ascii;
    var f, g := ToFields(d), SortedFields(d);
    assert f[11] == Field(KEYS[11], FieldValues(d)[11]);
    assert f[2] == Field(KEYS[2], FieldValues(d)[2]);
    assert f[5] == Field(KEYS[5], FieldValues(d)[5]);
    assert f[1] == Field(KEYS[1], FieldValues(d)[1]);
    assert f[8] == Field(KEYS[8], FieldValues(d)[8]);
  }

  lemma SameLastFields(d: Descriptor)
    ensures var f, g := ToFields(d), SortedFields(d);
            && g[10] == f[6]
            && g[11] == f[12]
            && g[12] == f[7]
            && g[13] == f[13]
            && g[14] == f[10]
  {
    hide Strings, Decimal, Ascii;
    var f, g := ToFields(d), SortedFields(d);
    assert f[6] == Field(KEYS[6], FieldValues(d)[6]);
    assert f[12] == Field(KEYS[12], FieldValues(d)[12]);
    assert f[7] == Field(KEYS[7], FieldValues(d)[7]);
    assert f[13] == Field(KEYS[13], FieldValues(d)[13]);
    assert f[10] == Field(KEYS[10], FieldValues(d)[10]);
  }

  lemma SameFields(d: Descriptor)
    ensures forall f :: f in ToFields(d) <==> f in SortedFields(d)
  {
    SameFirstFields(d);
    SameMiddleFields(d);
    SameLastFields(d);
    assert |SortedFields(d)| == 15;
    hide ToFields, SortedFields;
    var f, g := ToFields(d), SortedFields(d);
    forall x | x in f ensures x in g {
      var i :| 0 <= i < 15 && f[i] == x;
    }
    forall x | x in g ensures x in f {
      var i :| 0 <= i < 15 && g[i] == x;
    }
  }
}
