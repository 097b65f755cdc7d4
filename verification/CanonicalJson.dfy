/**
 `stableStringify` of packages/capability-sdk/src/descriptor.ts. Text is a sequence of UTF-16 code
 units, which is what JavaScript strings, their default order and the escapes of `JSON.stringify`
 are about. A finite number stands for its own text: Number::toString is injective on finite
 numbers once -0 is read as 0.
 */
module CanonicalJson {
  import opened Wrappers
  import opened Sequences
  import opened StableSort

  type Unit = u: int | 0 <= u < 0x10000

  type Text = seq<Unit>

  datatype Json =
    | Null
    | Bool(b: bool)
    | Number(digits: Text)
    | NonFinite               // NaN and the infinities, which JSON cannot carry
    | Undefined               // nor `undefined`
    | Str(s: Text)
    | Arr(items: seq<Json>)
    | Obj(fields: seq<Field>)

  datatype Field = Field(key: Text, value: Json)

  /** A field with its value printed. */
  datatype Rendered = Rendered(key: Text, text: Text)

  const QUOTE: Unit := 34
  const BACKSLASH: Unit := 92
  const COMMA: Unit := 44
  const COLON: Unit := 58
  const OPEN_LIST: Unit := 91
  const CLOSE_LIST: Unit := 93
  const OPEN_OBJECT: Unit := 123
  const CLOSE_OBJECT: Unit := 125

  const NULL: Text := [110, 117, 108, 108]
  const TRUE: Text := [116, 114, 117, 101]
  const FALSE: Text := [102, 97, 108, 115, 101]
  const UNDEFINED: Text := [117, 110, 100, 101, 102, 105, 110, 101, 100]

  // ---------------------------------------------------------------- strings

  predicate IsHigh(u: Unit) { 0xD800 <= u < 0xDC00 }

  predicate IsLow(u: Unit) { 0xDC00 <= u < 0xE000 }

  function HexDigit(d: nat): Unit
    requires d < 16
  {
    if d < 10 then 48 + d else 87 + d
  }

  function HexValue(u: Unit): Option<nat> {
    if 48 <= u < 58 then Some(u - 48) else if 97 <= u < 103 then Some(u - 87) else None
  }

  function UnicodeEscape(u: Unit): Text {
    [BACKSLASH, 117, HexDigit(u / 4096), HexDigit(u / 256 % 16), HexDigit(u / 16 % 16), HexDigit(u % 16)]
  }

  /** The short escapes of JSON: what stands after the backslash. */
  function ShortEscape(u: Unit): Option<Unit> {
    if u == 8 then Some(98) else if u == 9 then Some(116) else if u == 10 then Some(110)
    else if u == 12 then Some(102) else if u == 13 then Some(114)
    else if u == QUOTE then Some(QUOTE) else if u == BACKSLASH then Some(BACKSLASH)
    else None
  }

  function EscapeUnit(u: Unit): Text {
    if ShortEscape(u).Some? then [BACKSLASH, ShortEscape(u).value]
    else if u < 32 || IsHigh(u) || IsLow(u) then UnicodeEscape(u)
    else [u]
  }

  /** A surrogate pair is copied; a lone surrogate is escaped. */
  function Escape(s: Text): Text {
    if s == [] then []
    else if |s| > 1 && IsHigh(s[0]) && IsLow(s[1]) then [s[0], s[1]] + Escape(s[2..])
    else EscapeUnit(s[0]) + Escape(s[1..])
  }

  function Quote(s: Text): Text {
    [QUOTE] + Escape(s) + [QUOTE]
  }

  /** Reading after the opening quote: the string, and what follows its closing quote. */
  function ReadQuoted(t: Text): Option<(Text, Text)>
    decreases |t|
  {
    if t == [] then None
    else if t[0] == QUOTE then Some(([], t[1..]))
    else if t[0] != BACKSLASH then Prepend(t[0], ReadQuoted(t[1..]))
    else if |t| < 2 then None
    else if t[1] == 98 then Prepend(8, ReadQuoted(t[2..]))
    else if t[1] == 116 then Prepend(9, ReadQuoted(t[2..]))
    else if t[1] == 110 then Prepend(10, ReadQuoted(t[2..]))
    else if t[1] == 102 then Prepend(12, ReadQuoted(t[2..]))
    else if t[1] == 114 then Prepend(13, ReadQuoted(t[2..]))
    else if t[1] == QUOTE then Prepend(QUOTE, ReadQuoted(t[2..]))
    else if t[1] == BACKSLASH then Prepend(BACKSLASH, ReadQuoted(t[2..]))
    else if t[1] == 117 && |t| >= 6 && ReadHex(t[2..6]).Some? then Prepend(ReadHex(t[2..6]).value, ReadQuoted(t[6..]))
    else None
  }

  function Prepend(u: Unit, r: Option<(Text, Text)>): Option<(Text, Text)> {
    if r.Some? then Some(([u] + r.value.0, r.value.1)) else None
  }

  function ReadHex(t: Text): Option<Unit>
    requires |t| == 4
  {
    var a, b, c, d := HexValue(t[0]), HexValue(t[1]), HexValue(t[2]), HexValue(t[3]);
    if a.Some? && b.Some? && c.Some? && d.Some? && a.value < 16 && b.value < 16 && c.value < 16 && d.value < 16
    then Some(4096 * a.value + 256 * b.value + 16 * c.value + d.value) else None
  }

  lemma HexDigitIsRead(d: nat)
    requires d < 16
    ensures HexValue(HexDigit(d)) == Some(d)
  {
  }

  lemma FourDigits(u: Unit)
    ensures u == 4096 * (u / 4096) + 256 * (u / 256 % 16) + 16 * (u / 16 % 16) + u % 16
  {
    assert u / 256 == u / 16 / 16;
    assert u / 4096 == u / 256 / 16;
  }

  lemma HexIsRead(u: Unit)
    ensures ReadHex(UnicodeEscape(u)[2..6]) == Some(u)
  {
    hide HexDigit, HexValue;
    var e := UnicodeEscape(u);
    assert e[2..6] == [e[2], e[3], e[4], e[5]];
    HexDigitIsRead(u / 4096);
    HexDigitIsRead(u / 256 % 16);
    HexDigitIsRead(u / 16 % 16);
    HexDigitIsRead(u % 16);
    FourDigits(u);
  }

  lemma PlainIsRead(u: Unit, rest: Text)
    requires u != QUOTE && u != BACKSLASH
    ensures ReadQuoted([u] + rest) == Prepend(u, ReadQuoted(rest))
  {
    assert ([u] + rest)[1..] == rest;
  }

  lemma ShortEscapeIsRead(u: Unit, rest: Text)
    requires ShortEscape(u).Some?
    ensures ReadQuoted([BACKSLASH, ShortEscape(u).value] + rest) == Prepend(u, ReadQuoted(rest))
  {
    assert ([BACKSLASH, ShortEscape(u).value] + rest)[2..] == rest;
  }

  lemma UnicodeEscapeIsRead(u: Unit, rest: Text)
    ensures ReadQuoted(UnicodeEscape(u) + rest) == Prepend(u, ReadQuoted(rest))
  {
    hide HexDigit, HexValue, ReadHex, Prepend;
    var t := UnicodeEscape(u) + rest;
    HexIsRead(u);
    assert t[6..] == rest && t[2..6] == UnicodeEscape(u)[2..6];
    assert t[0] == BACKSLASH && t[1] == 117;
  }

  lemma UnitIsRead(u: Unit, rest: Text)
    ensures ReadQuoted(EscapeUnit(u) + rest) == Prepend(u, ReadQuoted(rest))
  {
    hide ReadQuoted, UnicodeEscape, Prepend;
    if ShortEscape(u).Some? {
      ShortEscapeIsRead(u, rest);
    } else if u < 32 || IsHigh(u) || IsLow(u) {
      UnicodeEscapeIsRead(u, rest);
    } else {
      PlainIsRead(u, rest);
    }
  }

  /** Reading undoes quoting, for every sequence of code units, whatever follows. */
  lemma {:induction false} QuotedIsRead(s: Text, rest: Text)
    ensures ReadQuoted(Escape(s) + ([QUOTE] + rest)) == Some((s, rest))
    decreases |s|
  {
    hide ReadQuoted, EscapeUnit, Escape;
    EscapeSteps(s);
    var after := [QUOTE] + rest;
    if s == [] {
      assert [] + after == after;
      EndIsRead(rest);
    } else if |s| > 1 && IsHigh(s[0]) && IsLow(s[1]) {
      var t := Escape(s[2..]) + after;
      QuotedIsRead(s[2..], rest);
      Reassociate([s[0], s[1]], Escape(s[2..]), after);
      assert [s[0], s[1]] + t == [s[0]] + ([s[1]] + t);
      PlainIsRead(s[1], t);
      PlainIsRead(s[0], [s[1]] + t);
      assert s == [s[0]] + ([s[1]] + s[2..]);
    } else {
      var t := Escape(s[1..]) + after;
      QuotedIsRead(s[1..], rest);
      Reassociate(EscapeUnit(s[0]), Escape(s[1..]), after);
      UnitIsRead(s[0], t);
      assert s == [s[0]] + s[1..];
    }
  }

  lemma EscapeSteps(s: Text)
    ensures s == [] ==> Escape(s) == []
    ensures s != [] && |s| > 1 && IsHigh(s[0]) && IsLow(s[1]) ==> Escape(s) == [s[0], s[1]] + Escape(s[2..])
    ensures s != [] && !(|s| > 1 && IsHigh(s[0]) && IsLow(s[1])) ==> Escape(s) == EscapeUnit(s[0]) + Escape(s[1..])
  {
  }

  lemma EndIsRead(rest: Text)
    ensures ReadQuoted([QUOTE] + rest) == Some(([], rest))
  {
    assert ([QUOTE] + rest)[1..] == rest;
  }

  lemma QuotesAreUnique(a: Text, b: Text, x: Text, y: Text)
    requires Quote(a) + x == Quote(b) + y
    ensures a == b && x == y
  {
    assert (Quote(a) + x)[1..] == Escape(a) + ([QUOTE] + x);
    assert (Quote(b) + y)[1..] == Escape(b) + ([QUOTE] + y);
    QuotedIsRead(a, x);
    QuotedIsRead(b, y);
  }

  // ---------------------------------------------------------------- values

  /** The default order of `sort`: by code unit. */
  predicate AtMost(a: Text, b: Text) {
    a == [] || (b != [] && (a[0] < b[0] || (a[0] == b[0] && AtMost(a[1..], b[1..]))))
  }

  predicate ByKey(p: Rendered, q: Rendered) {
    AtMost(p.key, q.key)
  }

  function CommaEach(texts: seq<Text>): Text {
    if texts == [] then [] else [COMMA] + texts[0] + CommaEach(texts[1..])
  }

  /** `texts.join(",")` */
  function Commas(texts: seq<Text>): Text {
    if texts == [] then [] else texts[0] + CommaEach(texts[1..])
  }

  function EntryTexts(entries: seq<Rendered>): seq<Text> {
    if entries == [] then [] else [Quote(entries[0].key) + [COLON] + entries[0].text] + EntryTexts(entries[1..])
  }

  /**
   An undefined item of an array joins as nothing; as a field a template spells it out. On its own it has no
   text in the source, and hashing it throws; here it is spelled out as well.
   */
  function Stringify(v: Json): Text
    decreases v
  {
    match v
    case Null => NULL
    case Bool(b) => if b then TRUE else FALSE
    case Number(digits) => digits
    case NonFinite => NULL
    case Undefined => UNDEFINED
    case Str(s) => Quote(s)
    case Arr(items) => [OPEN_LIST] + Commas(ItemTexts(items)) + [CLOSE_LIST]
    case Obj(fields) => [OPEN_OBJECT] + Commas(EntryTexts(Sort(Render(fields), ByKey))) + [CLOSE_OBJECT]
  }

  function ItemTexts(items: seq<Json>): (texts: seq<Text>)
    ensures |texts| == |items|
    decreases items
  {
    if items == [] then []
    else [if items[0].Undefined? then [] else Stringify(items[0])] + ItemTexts(items[1..])
  }

  /** The fields with their values printed, in the order of insertion. */
  function Render(fields: seq<Field>): (entries: seq<Rendered>)
    ensures |entries| == |fields|
    ensures forall i :: 0 <= i < |fields| ==> entries[i] == Rendered(fields[i].key, Stringify(fields[i].value))
    decreases fields
  {
    if fields == [] then [] else [Rendered(fields[0].key, Stringify(fields[0].value))] + Render(fields[1..])
  }

  ghost predicate KeysDistinct(fields: seq<Field>) {
    forall i, j :: 0 <= i < j < |fields| ==> fields[i].key != fields[j].key
  }

  predicate IsNumeralUnit(u: Unit) {
    48 <= u < 58 || u == 45 || u == 43 || u == 46 || u == 101
  }

  /** The alphabet of decimal numbers: a digit or a minus sign, then digits and `-+.e`. */
  predicate IsNumeral(digits: Text) {
    && digits != []
    && (48 <= digits[0] < 58 || digits[0] == 45)
    && forall i :: 0 <= i < |digits| ==> IsNumeralUnit(digits[i])
  }

  /** Objects at any depth have distinct keys, as JavaScript objects do, and numbers are written as numerals. */
  ghost predicate IsValue(v: Json)
    decreases v
  {
    match v
    case Number(digits) => IsNumeral(digits)
    case Arr(items) => forall i :: 0 <= i < |items| ==> IsValue(items[i])
    case Obj(fields) => KeysDistinct(fields) && forall i :: 0 <= i < |fields| ==> IsValue(fields[i].value)
    case _ => true
  }

  /** What JSON can carry. */
  ghost predicate IsJson(v: Json)
    decreases v
  {
    match v
    case NonFinite => false
    case Undefined => false
    case Number(digits) => IsNumeral(digits)
    case Arr(items) => forall i :: 0 <= i < |items| ==> IsJson(items[i])
    case Obj(fields) => KeysDistinct(fields) && forall i :: 0 <= i < |fields| ==> IsJson(fields[i].value)
    case _ => true
  }

  /** What texts tell apart: every value but NaN, the infinities and the list of one undefined item, at any depth. */
  ghost predicate IsNormal(v: Json)
    decreases v
  {
    match v
    case NonFinite => false
    case Number(digits) => IsNumeral(digits)
    case Arr(items) => items != [Undefined] && forall i :: 0 <= i < |items| ==> IsNormal(items[i])
    case Obj(fields) => KeysDistinct(fields) && forall i :: 0 <= i < |fields| ==> IsNormal(fields[i].value)
    case _ => true
  }

  /** The value without what its text loses: NaN and the infinities become null, `[undefined]` becomes `[]`. */
  function Norm(v: Json): Json
    decreases v
  {
    match v
    case NonFinite => Null
    case Arr(items) => Arr(if items == [Undefined] then [] else NormItems(items))
    case Obj(fields) => Obj(NormFields(fields))
    case _ => v
  }

  function NormItems(items: seq<Json>): (r: seq<Json>)
    ensures |r| == |items| && forall i :: 0 <= i < |items| ==> r[i] == Norm(items[i])
    decreases items
  {
    if items == [] then [] else [Norm(items[0])] + NormItems(items[1..])
  }

  function NormFields(fields: seq<Field>): (r: seq<Field>)
    ensures |r| == |fields|
    ensures forall i :: 0 <= i < |fields| ==> r[i] == Field(fields[i].key, Norm(fields[i].value))
    decreases fields
  {
    if fields == [] then [] else [Field(fields[0].key, Norm(fields[0].value))] + NormFields(fields[1..])
  }

  /** The position of a key, or the number of fields when there is none. */
  function IndexOfKey(fields: seq<Field>, key: Text): (i: nat)
    ensures i <= |fields|
    ensures i < |fields| ==> fields[i].key == key
    ensures forall j :: 0 <= j < i ==> fields[j].key != key
  {
    if fields == [] || fields[0].key == key then 0 else 1 + IndexOfKey(fields[1..], key)
  }

  /** The same value, up to the order of the keys of objects at any depth. */
  ghost predicate Equiv(a: Json, b: Json)
    decreases a
  {
    match a
    case Arr(items) =>
      b.Arr? && |items| == |b.items| && forall i :: 0 <= i < |items| ==> Equiv(items[i], b.items[i])
    case Obj(fields) =>
      && b.Obj?
      && (forall i :: 0 <= i < |fields| ==> var j := IndexOfKey(b.fields, fields[i].key);
                                            j < |b.fields| && Equiv(fields[i].value, b.fields[j].value))
      && (forall j :: 0 <= j < |b.fields| ==> IndexOfKey(fields, b.fields[j].key) < |fields|)
    case _ => a == b
  }

  // ---------------------------------------------------------------- key order does not matter

  lemma {:induction false} AtMostIsTotal(a: Text, b: Text)
    ensures AtMost(a, b) || AtMost(b, a)
    ensures AtMost(a, b) && AtMost(b, a) ==> a == b
  {
    if a != [] && b != [] && a[0] == b[0] {
      AtMostIsTotal(a[1..], b[1..]);
      assert a == [a[0]] + a[1..] && b == [b[0]] + b[1..];
    }
  }

  lemma {:induction false} AtMostIsTransitive(a: Text, b: Text, c: Text)
    requires AtMost(a, b) && AtMost(b, c)
    ensures AtMost(a, c)
  {
    if a != [] && a[0] == b[0] && b[0] == c[0] {
      AtMostIsTransitive(a[1..], b[1..], c[1..]);
    }
  }

  lemma ByKeyIsTotalPreorder()
    ensures TotalPreorder(ByKey)
  {
    forall p: Rendered, q: Rendered ensures ByKey(p, q) || ByKey(q, p) {
      AtMostIsTotal(p.key, q.key);
    }
    forall p: Rendered, q: Rendered, r: Rendered | ByKey(p, q) && ByKey(q, r) ensures ByKey(p, r) {
      AtMostIsTransitive(p.key, q.key, r.key);
    }
  }

  ghost predicate EntryKeysDistinct(entries: seq<Rendered>) {
    forall i, j :: 0 <= i < j < |entries| ==> entries[i].key != entries[j].key
  }

  /** Sorting by key forgets the order of insertion. */
  lemma SortForgetsOrder(p: seq<Rendered>, q: seq<Rendered>)
    requires EntryKeysDistinct(p) && EntryKeysDistinct(q)
    requires forall e :: e in p <==> e in q
    ensures Sort(p, ByKey) == Sort(q, ByKey)
  {
    SameMembersSameMultiset(p, q);
    ByKeyIsTotalPreorder();
    SortSorts(p, ByKey);
    SortSorts(q, ByKey);
    SortPermutes(p, ByKey);
    SortPermutes(q, ByKey);
    forall x, y | x in Sort(p, ByKey) && y in Sort(p, ByKey) && ByKey(x, y) && ByKey(y, x) ensures x == y {
      SortKeepsMembers(p, ByKey, x);
      SortKeepsMembers(p, ByKey, y);
      AtMostIsTotal(x.key, y.key);
    }
    SortedIsUnique(Sort(p, ByKey), Sort(q, ByKey), ByKey);
  }

  ghost predicate TextIn(f: Field, fields: seq<Field>) {
    exists j :: 0 <= j < |fields| && f.key == fields[j].key && Stringify(f.value) == Stringify(fields[j].value)
  }

  lemma SameTextsSameEntries(a: seq<Field>, b: seq<Field>)
    requires forall i :: 0 <= i < |a| ==> TextIn(a[i], b)
    ensures forall e :: e in Render(a) ==> e in Render(b)
  {
    forall e | e in Render(a) ensures e in Render(b) {
      var i :| 0 <= i < |a| && Render(a)[i] == e;
      assert TextIn(a[i], b);
      var j :| 0 <= j < |b| && a[i].key == b[j].key && Stringify(a[i].value) == Stringify(b[j].value);
      assert Render(b)[j] == e;
    }
  }

  /** Values that are equal up to key order, at any depth, have one text. */
  lemma {:induction false} SameValueSameText(a: Json, b: Json)
    requires IsValue(a) && IsValue(b) && Equiv(a, b)
    ensures Stringify(a) == Stringify(b)
    decreases a
  {
    match a
    case Arr(items) =>
      forall i | 0 <= i < |items| ensures Stringify(items[i]) == Stringify(b.items[i]) {
        SameValueSameText(items[i], b.items[i]);
      }
      SameItemsSameTexts(items, b.items);
    case Obj(fields) =>
      SameFieldsSameTexts(fields, b.fields);
      SameTextsSameEntries(fields, b.fields);
      SameTextsSameEntries(b.fields, fields);
      SortForgetsOrder(Render(fields), Render(b.fields));
    case _ =>
  }

  lemma {:induction false} SameFieldsSameTexts(a: seq<Field>, b: seq<Field>)
    requires IsValue(Obj(a)) && IsValue(Obj(b)) && Equiv(Obj(a), Obj(b))
    ensures forall i :: 0 <= i < |a| ==> TextIn(a[i], b)
    ensures forall j :: 0 <= j < |b| ==> TextIn(b[j], a)
    decreases a
  {
    hide Stringify;
    forall i | 0 <= i < |a| ensures TextIn(a[i], b) {
      var j := IndexOfKey(b, a[i].key);
      SameValueSameText(a[i].value, b[j].value);
    }
    forall j | 0 <= j < |b| ensures TextIn(b[j], a) {
      var i := IndexOfKey(a, b[j].key);
      assert IndexOfKey(b, a[i].key) == j;
      SameValueSameText(a[i].value, b[j].value);
    }
  }

  lemma {:induction false} SameItemsSameTexts(a: seq<Json>, b: seq<Json>)
    requires |a| == |b|
    requires forall i :: 0 <= i < |a| ==> Stringify(a[i]) == Stringify(b[i]) && a[i].Undefined? == b[i].Undefined?
    ensures ItemTexts(a) == ItemTexts(b)
  {
    if a != [] {
      SameItemsSameTexts(a[1..], b[1..]);
    }
  }

  // ---------------------------------------------------------------- the text determines the value

  /** What can follow a value inside a text: nothing, a comma, or a closing bracket. */
  predicate Stops(x: Text) {
    x == [] || x[0] == COMMA || x[0] == CLOSE_LIST || x[0] == CLOSE_OBJECT
  }

  /** The first unit of a text tells the kind of the value. */
  lemma FirstUnit(v: Json)
    requires IsNormal(v)
    ensures Stringify(v) != [] && !Stops(Stringify(v))
    ensures match v
            case Null => Stringify(v)[0] == 110
            case Bool(b) => Stringify(v)[0] == if b then 116 else 102
            case Number(_) => 48 <= Stringify(v)[0] < 58 || Stringify(v)[0] == 45
            case Str(_) => Stringify(v)[0] == QUOTE
            case Arr(_) => Stringify(v)[0] == OPEN_LIST
            case Undefined => Stringify(v)[0] == 117
            case _ => Stringify(v)[0] == OPEN_OBJECT
  {
  }

  lemma SameStart(a: Text, b: Text, x: Text, y: Text)
    requires a + x == b + y && |a| == |b|
    ensures a == b && x == y
  {
    assert a == (a + x)[..|a|] && b == (b + y)[..|b|];
    assert x == (a + x)[|a|..] && y == (b + y)[|b|..];
  }

  function NumeralRun(t: Text): nat {
    if t == [] || !IsNumeralUnit(t[0]) then 0 else 1 + NumeralRun(t[1..])
  }

  lemma {:induction false} NumeralRunEnds(a: Text, x: Text)
    requires (forall i :: 0 <= i < |a| ==> IsNumeralUnit(a[i])) && Stops(x)
    ensures NumeralRun(a + x) == |a|
  {
    if a == [] {
      assert a + x == x;
    } else {
      assert (a + x)[1..] == a[1..] + x;
      NumeralRunEnds(a[1..], x);
    }
  }

  lemma NumeralsAreUnique(a: Text, b: Text, x: Text, y: Text)
    requires IsNumeral(a) && IsNumeral(b) && Stops(x) && Stops(y) && a + x == b + y
    ensures a == b && x == y
  {
    NumeralRunEnds(a, x);
    NumeralRunEnds(b, y);
    SameStart(a, b, x, y);
  }

  /** No text is a proper start of another where a value ends: equal texts mean equal values. */
  lemma {:induction false} TextsAreUnique(a: Json, b: Json, x: Text, y: Text)
    requires IsNormal(a) && IsNormal(b) && Stops(x) && Stops(y)
    requires Stringify(a) + x == Stringify(b) + y
    ensures Stringify(a) == Stringify(b) && x == y && Equiv(a, b)
    decreases a, 0
  {
    FirstUnit(a);
    FirstUnit(b);
    assert Stringify(a)[0] == (Stringify(a) + x)[0] == (Stringify(b) + y)[0] == Stringify(b)[0];
    match a
    case Number(m) => NumeralsAreUnique(m, b.digits, x, y);
    case Str(s) => QuotesAreUnique(s, b.s, x, y);
    case Arr(items) => ListsAreUnique(items, b.items, x, y);
    case Obj(fields) => ObjectsAreUnique(fields, b.fields, x, y);
    case _ => SameStart(Stringify(a), Stringify(b), x, y);
  }

  function ItemText(v: Json): Text {
    if v.Undefined? then [] else Stringify(v)
  }

  /** The same for an item of a list, where undefined prints as nothing. */
  lemma {:induction false} ItemTextsAreUnique(a: Json, b: Json, x: Text, y: Text)
    requires IsNormal(a) && IsNormal(b) && Stops(x) && Stops(y)
    requires ItemText(a) + x == ItemText(b) + y
    ensures ItemText(a) == ItemText(b) && x == y && Equiv(a, b)
    decreases a, 1
  {
    hide IsNormal, Stringify;
    FirstUnit(a);
    FirstUnit(b);
    assert [] + x == x && [] + y == y;
    if !a.Undefined? && !b.Undefined? {
      TextsAreUnique(a, b, x, y);
    } else if a.Undefined? != b.Undefined? {
      SolidIsNoStop(Stringify(a), x, y);
      SolidIsNoStop(Stringify(b), y, x);
    }
  }

  lemma SolidIsNoStop(a: Text, x: Text, y: Text)
    requires a != [] && !Stops(a) && Stops(y)
    ensures a + x != y
  {
    assert (a + x)[0] == a[0];
  }

  /** The rest of a list after its first item. */
  lemma {:induction false} ItemsAreUnique(a: seq<Json>, b: seq<Json>, x: Text, y: Text)
    requires forall i :: 0 <= i < |a| ==> IsNormal(a[i])
    requires forall i :: 0 <= i < |b| ==> IsNormal(b[i])
    requires x != [] && y != [] && x[0] == CLOSE_LIST && y[0] == CLOSE_LIST
    requires CommaEach(ItemTexts(a)) + x == CommaEach(ItemTexts(b)) + y
    ensures |a| == |b| && x == y && ItemTexts(a) == ItemTexts(b)
    ensures forall i :: 0 <= i < |a| ==> Equiv(a[i], b[i])
    decreases a, 0
  {
    hide IsNormal, Equiv, Stringify;
    if a == [] || b == [] {
      assert (CommaEach(ItemTexts(a)) + x)[0] == (CommaEach(ItemTexts(b)) + y)[0];
      assert a == b == [];
      assert [] + x == x && [] + y == y;
    } else {
      var x', y' := CommaEach(ItemTexts(a[1..])) + x, CommaEach(ItemTexts(b[1..])) + y;
      AfterComma(a, x);
      AfterComma(b, y);
      ItemTextsAreUnique(a[0], b[0], x', y');
      ItemsAreUnique(a[1..], b[1..], x, y);
      assert forall i :: 0 < i < |a| ==> a[i] == a[1..][i - 1] && b[i] == b[1..][i - 1];
    }
  }

  lemma CommaEachCut(texts: seq<Text>, x: Text)
    requires texts != []
    ensures (CommaEach(texts) + x)[1..] == texts[0] + (CommaEach(texts[1..]) + x)
    ensures x != [] && Stops(x) ==> Stops(CommaEach(texts[1..]) + x)
  {
  }

  lemma AfterComma(items: seq<Json>, x: Text)
    requires items != []
    ensures (CommaEach(ItemTexts(items)) + x)[1..] == ItemText(items[0]) + (CommaEach(ItemTexts(items[1..])) + x)
    ensures x != [] && x[0] == CLOSE_LIST ==> Stops(CommaEach(ItemTexts(items[1..])) + x)
  {
    hide CommaEach;
    CommaEachCut(ItemTexts(items), x);
  }

  lemma CommasCut(texts: seq<Text>, first: Text, close: Text, x: Text)
    requires |first| == 1
    ensures (first + Commas(texts) + close + x)[1..]
         == if texts == [] then close + x else texts[0] + (CommaEach(texts[1..]) + (close + x))
  {
  }

  lemma ListText(items: seq<Json>, x: Text)
    requires IsNormal(Arr(items))
    ensures var t := (Stringify(Arr(items)) + x)[1..];
            && t == (if items == [] then [CLOSE_LIST] + x
                     else ItemText(items[0]) + (CommaEach(ItemTexts(items[1..])) + ([CLOSE_LIST] + x)))
            && (items == [] <==> t[0] == CLOSE_LIST)
  {
    hide CommaEach, IsNormal;
    CommasCut(ItemTexts(items), [OPEN_LIST], [CLOSE_LIST], x);
    if items != [] {
      FirstItemStarts(items, [CLOSE_LIST] + x);
    }
  }

  lemma FirstItemStarts(items: seq<Json>, x: Text)
    requires IsNormal(Arr(items)) && items != []
    ensures var t := ItemText(items[0]) + (CommaEach(ItemTexts(items[1..])) + x);
            (x != [] ==> t != [] && t[0] != CLOSE_LIST)
  {
    hide Stringify;
    if items[0].Undefined? {
      assert items == [Undefined] + items[1..];
      assert items[1..] != [];
    } else {
      FirstUnit(items[0]);
    }
  }

  lemma {:induction false} ListsAreUnique(a: seq<Json>, b: seq<Json>, x: Text, y: Text)
    requires IsNormal(Arr(a)) && IsNormal(Arr(b))
    requires Stringify(Arr(a)) + x == Stringify(Arr(b)) + y
    ensures Stringify(Arr(a)) == Stringify(Arr(b)) && x == y && Equiv(Arr(a), Arr(b))
    decreases a, 1
  {
    var x', y' := [CLOSE_LIST] + x, [CLOSE_LIST] + y;
    ListText(a, x);
    ListText(b, y);
    if a != [] && b != [] {
      AfterFirst(ItemTexts(a[1..]), x');
      AfterFirst(ItemTexts(b[1..]), y');
      ItemTextsAreUnique(a[0], b[0], CommaEach(ItemTexts(a[1..])) + x', CommaEach(ItemTexts(b[1..])) + y');
      ItemsAreUnique(a[1..], b[1..], x', y');
      assert forall i :: 0 < i < |a| ==> a[i] == a[1..][i - 1] && b[i] == b[1..][i - 1];
    }
    assert x == x'[1..] && y == y'[1..];
  }

  lemma AfterFirst(texts: seq<Text>, x: Text)
    requires x != [] && Stops(x)
    ensures Stops(CommaEach(texts) + x)
  {
  }

  lemma EntryIsRendered(fields: seq<Field>, entry: Rendered) returns (i: nat)
    requires entry in Render(fields)
    ensures i < |fields| && entry == Rendered(fields[i].key, Stringify(fields[i].value))
  {
    i :| 0 <= i < |fields| && Render(fields)[i] == entry;
  }

  lemma {:induction false} EntryIsUnique(a: seq<Field>, b: seq<Field>, p: Rendered, q: Rendered, x: Text, y: Text)
    requires IsNormal(Obj(a)) && IsNormal(Obj(b)) && p in Render(a) && q in Render(b) && Stops(x) && Stops(y)
    requires Quote(p.key) + [COLON] + p.text + x == Quote(q.key) + [COLON] + q.text + y
    ensures p == q && x == y
    decreases a, 0
  {
    hide Quote, Equiv, Stringify, Render;
    var i := EntryIsRendered(a, p);
    var j := EntryIsRendered(b, q);
    assert IsNormal(a[i].value) && IsNormal(b[j].value);
    hide IsNormal;
    var s, t := [COLON] + (p.text + x), [COLON] + (q.text + y);
    assert Quote(p.key) + s == Quote(p.key) + [COLON] + p.text + x;
    assert Quote(q.key) + t == Quote(q.key) + [COLON] + q.text + y;
    QuotesAreUnique(p.key, q.key, s, t);
    assert p.text + x == s[1..] && q.text + y == t[1..];
    TextsAreUnique(a[i].value, b[j].value, x, y);
  }

  lemma {:induction false} EntriesAreUnique(a: seq<Field>, b: seq<Field>, p: seq<Rendered>, q: seq<Rendered>, x: Text,
                                            y: Text)
    requires IsNormal(Obj(a)) && IsNormal(Obj(b))
    requires (forall e :: e in p ==> e in Render(a)) && (forall e :: e in q ==> e in Render(b))
    requires x != [] && y != [] && x[0] == CLOSE_OBJECT && y[0] == CLOSE_OBJECT
    requires CommaEach(EntryTexts(p)) + x == CommaEach(EntryTexts(q)) + y
    ensures p == q && x == y
    decreases a, 1, |p|
  {
    hide IsNormal, Quote, Render;
    if p == [] || q == [] {
      assert (CommaEach(EntryTexts(p)) + x)[0] == (CommaEach(EntryTexts(q)) + y)[0];
      assert p == q == [];
      assert [] + x == x && [] + y == y;
    } else {
      CommaEachCut(EntryTexts(p), x);
      CommaEachCut(EntryTexts(q), y);
      EntryIsUnique(a, b, p[0], q[0], CommaEach(EntryTexts(p[1..])) + x, CommaEach(EntryTexts(q[1..])) + y);
      EntriesAreUnique(a, b, p[1..], q[1..], x, y);
      assert p == [p[0]] + p[1..] && q == [q[0]] + q[1..];
    }
  }

  lemma ObjectText(fields: seq<Field>, x: Text) returns (p: seq<Rendered>)
    ensures p == Sort(Render(fields), ByKey) && forall e :: e in p <==> e in Render(fields)
    ensures var t := (Stringify(Obj(fields)) + x)[1..];
            && t == (if p == [] then [CLOSE_OBJECT] + x
                     else Quote(p[0].key) + [COLON] + p[0].text
                          + (CommaEach(EntryTexts(p[1..])) + ([CLOSE_OBJECT] + x)))
            && (p == [] <==> t[0] == CLOSE_OBJECT)
  {
    p := Sort(Render(fields), ByKey);
    CommasCut(EntryTexts(p), [OPEN_OBJECT], [CLOSE_OBJECT], x);
    forall e ensures e in p <==> e in Render(fields) {
      SortKeepsMembers(Render(fields), ByKey, e);
    }
  }

  lemma {:induction false} ObjectsAreUnique(a: seq<Field>, b: seq<Field>, x: Text, y: Text)
    requires IsNormal(Obj(a)) && IsNormal(Obj(b))
    requires Stringify(Obj(a)) + x == Stringify(Obj(b)) + y
    ensures Stringify(Obj(a)) == Stringify(Obj(b)) && x == y && Equiv(Obj(a), Obj(b))
    decreases a, 2
  {
    var x', y' := [CLOSE_OBJECT] + x, [CLOSE_OBJECT] + y;
    var p := ObjectText(a, x);
    var q := ObjectText(b, y);
    if p != [] && q != [] {
      AfterFirst(EntryTexts(p[1..]), x');
      AfterFirst(EntryTexts(q[1..]), y');
      EntryIsUnique(a, b, p[0], q[0], CommaEach(EntryTexts(p[1..])) + x', CommaEach(EntryTexts(q[1..])) + y');
      EntriesAreUnique(a, b, p[1..], q[1..], x', y');
      assert p == [p[0]] + p[1..] && q == [q[0]] + q[1..];
    }
    assert x == x'[1..] && y == y'[1..];
    assert p == q;
    SameEntriesSameValue(a, b);
  }

  lemma {:induction false} SameEntriesSameValue(a: seq<Field>, b: seq<Field>)
    requires IsNormal(Obj(a)) && IsNormal(Obj(b)) && forall e :: e in Render(a) <==> e in Render(b)
    ensures Equiv(Obj(a), Obj(b))
    decreases a, 1
  {
    forall i | 0 <= i < |a|
      ensures IndexOfKey(b, a[i].key) < |b| && Equiv(a[i].value, b[IndexOfKey(b, a[i].key)].value)
    {
      assert Render(a)[i] in Render(b);
      var j := EntryIsRendered(b, Render(a)[i]);
      assert IndexOfKey(b, a[i].key) == j;
      TextsAreUnique(a[i].value, b[j].value, [], []);
    }
    forall j | 0 <= j < |b| ensures IndexOfKey(a, b[j].key) < |a| {
      assert Render(b)[j] in Render(a);
      var i := EntryIsRendered(a, Render(b)[j]);
    }
  }

  lemma {:induction false} NormIsNormal(v: Json)
    requires IsValue(v)
    ensures IsNormal(Norm(v))
    decreases v
  {
    match v
    case Arr(items) =>
      forall i | 0 <= i < |items| ensures IsNormal(Norm(items[i])) {
        NormIsNormal(items[i]);
      }
      OneUndefined(items);
    case Obj(fields) =>
      forall i | 0 <= i < |fields| ensures IsNormal(Norm(fields[i].value)) {
        NormIsNormal(fields[i].value);
      }
    case _ =>
  }

  lemma OneUndefined(items: seq<Json>)
    ensures NormItems(items) == [Undefined] ==> items == [Undefined]
  {
    if NormItems(items) == [Undefined] {
      assert Norm(items[0]) == Undefined;
      assert items[0] == Undefined;
    }
  }

  /** What is lost, the text does not have. */
  lemma {:induction false} NormKeepsText(v: Json)
    ensures Stringify(Norm(v)) == Stringify(v)
    decreases v
  {
    match v
    case Arr(items) =>
      if items == [Undefined] {
        assert ItemTexts(items) == [[]];
        assert ItemTexts([]) == [];
      } else {
        forall i | 0 <= i < |items| ensures Stringify(Norm(items[i])) == Stringify(items[i]) {
          NormKeepsText(items[i]);
        }
        SameItemsSameTexts(NormItems(items), items);
      }
    case Obj(fields) =>
      forall i | 0 <= i < |fields| ensures Stringify(Norm(fields[i].value)) == Stringify(fields[i].value) {
        NormKeepsText(fields[i].value);
      }
      assert Render(NormFields(fields)) == Render(fields);
    case _ =>
  }

  lemma {:induction false} NormalIsValue(v: Json)
    requires IsNormal(v)
    ensures IsValue(v)
    decreases v
  {
    match v
    case Arr(items) => forall i | 0 <= i < |items| { NormalIsValue(items[i]); }
    case Obj(fields) => forall i | 0 <= i < |fields| { NormalIsValue(fields[i].value); }
    case _ =>
  }

  /**
   Over all values: the texts are equal exactly when the values are, up to key order, once NaN and the
   infinities are read as null and `[undefined]` as `[]`. So those are the only values that texts confuse.
   */
  lemma SameTextIffSameNorm(a: Json, b: Json)
    requires IsValue(a) && IsValue(b)
    ensures Stringify(a) == Stringify(b) <==> Equiv(Norm(a), Norm(b))
  {
    hide Stringify, Equiv, Norm, IsNormal, IsValue;
    NormKeepsText(a);
    NormKeepsText(b);
    NormIsNormal(a);
    NormIsNormal(b);
    if Equiv(Norm(a), Norm(b)) {
      NormalIsValue(Norm(a));
      NormalIsValue(Norm(b));
      SameValueSameText(Norm(a), Norm(b));
    }
    if Stringify(a) == Stringify(b) {
      assert Stops([]);
      assert Stringify(Norm(a)) + [] == Stringify(Norm(a)) && Stringify(Norm(b)) + [] == Stringify(Norm(b));
      TextsAreUnique(Norm(a), Norm(b), [], []);
    }
  }

  lemma {:induction false} JsonIsNormal(v: Json)
    requires IsJson(v)
    ensures IsValue(v) && Norm(v) == v
    decreases v
  {
    match v
    case Arr(items) =>
      forall i | 0 <= i < |items| ensures IsValue(items[i]) && Norm(items[i]) == items[i] {
        JsonIsNormal(items[i]);
      }
      assert items != [Undefined] by { assert |items| == 1 ==> IsJson(items[0]); }
      assert NormItems(items) == items;
    case Obj(fields) =>
      forall i | 0 <= i < |fields| ensures IsValue(fields[i].value) && Norm(fields[i].value) == fields[i].value {
        JsonIsNormal(fields[i].value);
      }
      assert NormFields(fields) == fields;
    case _ =>
  }

  /** The text is canonical over JSON values: equal texts are equal values up to key order. */
  lemma SameTextIffSameValue(a: Json, b: Json)
    requires IsJson(a) && IsJson(b)
    ensures Stringify(a) == Stringify(b) <==> Equiv(a, b)
  {
    hide Stringify, Equiv, Norm, IsJson, IsValue;
    JsonIsNormal(a);
    JsonIsNormal(b);
    SameTextIffSameNorm(a, b);
  }
}
