/** Capability descriptors and their digest: packages/capability-sdk/src/descriptor.ts. */
module Descriptors {
  import opened Wrappers
  import opened CanonicalJson
  import opened JsString

  datatype RiskLevel = Read | Write | Destructive | ExternalSideEffect

  /** A descriptor without its digest. The strings of the other enumerations are kept as text. */
  datatype Descriptor = Descriptor(
    capability_id: Text,
    pack_id: Text,
    name: Text,
    description: Text,
    input_schema: Json,
    output_schema: Json,
    risk_level: RiskLevel,
    side_effect_kind: Text,
    requires_approval: bool,
    idempotency_mode: Text,
    timeout_ms: nat,
    max_attempts: nat,
    scopes: seq<Text>,
    tags: seq<Text>,
    examples: seq<Json>)

  datatype Finalized = Finalized(descriptor: Descriptor, capability_digest: Text)

  /** Code units of an ASCII literal. */
  function Ascii(s: string): (t: Text)
    ensures |t| == |s|
    ensures forall i :: 0 <= i < |s| ==> t[i] == s[i] as int % 0x10000
  {
    seq(|s|, i requires 0 <= i < |s| => s[i] as int % 0x10000)
  }

  function RiskName(r: RiskLevel): Text {
    match r
    case Read => Ascii("read")
    case Write => Ascii("write")
    case Destructive => Ascii("destructive")
    case ExternalSideEffect => Ascii("external_side_effect")
  }

  /** A count as `JSON.stringify` writes it. */
  function Decimal(n: nat): Text {
    Ascii(DecimalText(n))
  }

  function Strings(items: seq<Text>): Json {
    Arr(seq(|items|, i requires 0 <= i < |items| => Str(items[i])))
  }

  const KEYS: seq<Text> := [
    Ascii("capability_id"), Ascii("pack_id"), Ascii("name"), Ascii("description"), Ascii("input_schema"),
    Ascii("output_schema"), Ascii("risk_level"), Ascii("side_effect_kind"), Ascii("requires_approval"),
    Ascii("idempotency_mode"), Ascii("timeout_ms"), Ascii("max_attempts"), Ascii("scopes"), Ascii("tags"),
    Ascii("examples")]

  function FieldValues(d: Descriptor): (values: seq<Json>)
    ensures |values| == |KEYS|
  {
    [Str(d.capability_id), Str(d.pack_id), Str(d.name), Str(d.description), d.input_schema,
     d.output_schema, Str(RiskName(d.risk_level)), Str(d.side_effect_kind), Bool(d.requires_approval),
     Str(d.idempotency_mode), Number(Decimal(d.timeout_ms)), Number(Decimal(d.max_attempts)),
     Strings(d.scopes), Strings(d.tags), Arr(d.examples)]
  }

  function ToFields(d: Descriptor): (fields: seq<Field>)
    ensures |fields| == |KEYS|
  {
    seq(|KEYS|, i requires 0 <= i < |KEYS| => Field(KEYS[i], FieldValues(d)[i]))
  }

  function CapabilityDigest(hash: Text -> Text, d: Descriptor): Text {
    hash(Stringify(Obj(ToFields(d))))
  }

  /** What the schema of a descriptor asks beyond types. */
  predicate IsWellFormed(d: Descriptor) {
    d.capability_id != [] && d.pack_id != [] && d.name != [] && d.timeout_ms >= 1 && d.max_attempts >= 1
  }

  /** `finalizeDescriptor`: None where the schema rejects the definition. */
  function Finalize(hash: Text -> Text, d: Descriptor): Option<Finalized> {
    if IsWellFormed(d) then Some(Finalized(d, CapabilityDigest(hash, d))) else None
  }

  /** The schemas and examples are JSON. */
  ghost predicate CarriesJson(d: Descriptor) {
    && IsJson(d.input_schema)
    && IsJson(d.output_schema)
    && forall i :: 0 <= i < |d.examples| ==> IsJson(d.examples[i])
  }

  /** Agreement on all fifteen fields, the JSON ones up to key order. */
  ghost predicate Agree(d: Descriptor, e: Descriptor) {
    && d.capability_id == e.capability_id
    && d.pack_id == e.pack_id
    && d.name == e.name
    && d.description == e.description
    && Equiv(d.input_schema, e.input_schema)
    && Equiv(d.output_schema, e.output_schema)
    && d.risk_level == e.risk_level
    && d.side_effect_kind == e.side_effect_kind
    && d.requires_approval == e.requires_approval
    && d.idempotency_mode == e.idempotency_mode
    && d.timeout_ms == e.timeout_ms
    && d.max_attempts == e.max_attempts
    && d.scopes == e.scopes
    && d.tags == e.tags
    && |d.examples| == |e.examples|
    && forall i :: 0 <= i < |d.examples| ==> Equiv(d.examples[i], e.examples[i])
  }

  ghost predicate Injective(hash: Text -> Text) {
    forall a, b :: hash(a) == hash(b) ==> a == b
  }

  // ---------------------------------------------------------------- proofs

  function Signature(t: Text): int {
    if t == [] then 0 else 0x10000 * |t| + t[0]
  }

  lemma KeysAreDistinct()
    ensures forall i, j :: 0 <= i < j < |KEYS| ==> KEYS[i] != KEYS[j]
  {
    assert forall i, j :: 0 <= i < j < |KEYS| ==> Signature(KEYS[i]) != Signature(KEYS[j]);
  }

  lemma DecimalIsNumeral(n: nat)
    ensures IsNumeral(Decimal(n))
  {
    hide DecimalText;
    DecimalTextIsRead(n);
    var t := DecimalText(n);
    forall i | 0 <= i < |t| ensures 48 <= Decimal(n)[i] < 58 {
      assert t[i] in t;
    }
  }

  lemma DecimalIsInjective(m: nat, n: nat)
    requires Decimal(m) == Decimal(n)
    ensures m == n
  {
    hide DecimalText, DecimalValue;
    DecimalTextIsRead(m);
    DecimalTextIsRead(n);
    var s, t := DecimalText(m), DecimalText(n);
    assert |s| == |Decimal(m)| == |Decimal(n)| == |t|;
    forall i | 0 <= i < |s| ensures s[i] == t[i] {
      assert s[i] in s && t[i] in t;
      assert Decimal(m)[i] == Decimal(n)[i];
    }
    assert s == t;
  }

  lemma StrsEquiv(s: Text, t: Text)
    ensures Equiv(Str(s), Str(t)) <==> s == t
  {
  }

  lemma BoolsEquiv(b: bool, c: bool)
    ensures Equiv(Bool(b), Bool(c)) <==> b == c
  {
  }

  lemma ArraysEquiv(a: seq<Json>, b: seq<Json>)
    ensures Equiv(Arr(a), Arr(b)) <==> |a| == |b| && forall k :: 0 <= k < |a| ==> Equiv(a[k], b[k])
  {
  }

  lemma CountsEquiv(m: nat, n: nat)
    ensures Equiv(Number(Decimal(m)), Number(Decimal(n))) <==> m == n
  {
    if Decimal(m) == Decimal(n) {
      DecimalIsInjective(m, n);
    }
  }

  lemma RisksEquiv(r: RiskLevel, s: RiskLevel)
    ensures Equiv(Str(RiskName(r)), Str(RiskName(s))) <==> r == s
  {
    assert forall q: RiskLevel ::
        |RiskName(q)| == if q.Read? then 4 else if q.Write? then 5 else if q.Destructive? then 11 else 20;
  }

  lemma StringsEquiv(a: seq<Text>, b: seq<Text>)
    ensures Equiv(Strings(a), Strings(b)) <==> a == b
  {
    var p, q := Strings(a).items, Strings(b).items;
    if Equiv(Strings(a), Strings(b)) {
      assert forall i :: 0 <= i < |a| ==> Equiv(p[i], q[i]) && p[i] == Str(a[i]) && q[i] == Str(b[i]);
    }
  }

  lemma FieldsEquiv(d: Descriptor, e: Descriptor)
    ensures Equiv(Obj(ToFields(d)), Obj(ToFields(e)))
       <==> forall i :: 0 <= i < |KEYS| ==> Equiv(FieldValues(d)[i], FieldValues(e)[i])
  {
    KeysAreDistinct();
    var f, g := ToFields(d), ToFields(e);
    assert forall i :: 0 <= i < |KEYS| ==> f[i] == Field(KEYS[i], FieldValues(d)[i]);
    assert forall i :: 0 <= i < |KEYS| ==> g[i] == Field(KEYS[i], FieldValues(e)[i]);
    hide ToFields, FieldValues, Equiv, KEYS;
    SameKeysEquiv(f, g);
  }

  /** Objects with the same keys in the same order are equal up to key order when their values are. */
  lemma SameKeysEquiv(f: seq<Field>, g: seq<Field>)
    requires |f| == |g| && forall i :: 0 <= i < |f| ==> f[i].key == g[i].key
    requires forall i, j :: 0 <= i < j < |f| ==> f[i].key != f[j].key
    ensures Equiv(Obj(f), Obj(g)) <==> forall i :: 0 <= i < |f| ==> Equiv(f[i].value, g[i].value)
  {
    hide IndexOfKey;
    forall i | 0 <= i < |f| ensures IndexOfKey(g, f[i].key) == i && IndexOfKey(f, g[i].key) == i {
      KeyIsAt(f, i);
      KeyIsAt(g, i);
    }
  }

  lemma KeyIsAt(f: seq<Field>, i: nat)
    requires i < |f| && forall j, k :: 0 <= j < k < |f| ==> f[j].key != f[k].key
    ensures IndexOfKey(f, f[i].key) == i
  {
    hide IndexOfKey;
    KeyIsThere(f, i);
  }

  lemma {:induction false} KeyIsThere(f: seq<Field>, i: nat)
    requires i < |f|
    ensures IndexOfKey(f, f[i].key) < |f|
  {
    if i > 0 && f[0].key != f[i].key {
      KeyIsThere(f[1..], i - 1);
    }
  }

  /** Agreement on the field at one position of `KEYS`. */
  ghost predicate AgreeAt(d: Descriptor, e: Descriptor, i: nat) {
    if i == 0 then d.capability_id == e.capability_id
    else if i == 1 then d.pack_id == e.pack_id
    else if i == 2 then d.name == e.name
    else if i == 3 then d.description == e.description
    else if i == 4 then Equiv(d.input_schema, e.input_schema)
    else if i == 5 then Equiv(d.output_schema, e.output_schema)
    else if i == 6 then d.risk_level == e.risk_level
    else if i == 7 then d.side_effect_kind == e.side_effect_kind
    else if i == 8 then d.requires_approval == e.requires_approval
    else if i == 9 then d.idempotency_mode == e.idempotency_mode
    else if i == 10 then d.timeout_ms == e.timeout_ms
    else if i == 11 then d.max_attempts == e.max_attempts
    else if i == 12 then d.scopes == e.scopes
    else if i == 13 then d.tags == e.tags
    else |d.examples| == |e.examples| && forall k :: 0 <= k < |d.examples| ==> Equiv(d.examples[k], e.examples[k])
  }

  lemma EarlyFieldAgrees(d: Descriptor, e: Descriptor, i: nat)
    requires i < 8
    ensures Equiv(FieldValues(d)[i], FieldValues(e)[i]) <==> AgreeAt(d, e, i)
  {
    hide RiskName, Decimal, Strings, Equiv;
    var p, q := FieldValues(d)[i], FieldValues(e)[i];
    if p.Str? && q.Str? {
      StrsEquiv(p.s, q.s);
    }
    RisksEquiv(d.risk_level, e.risk_level);
  }

  lemma LateFieldAgrees(d: Descriptor, e: Descriptor, i: nat)
    requires 8 <= i < |KEYS|
    ensures Equiv(FieldValues(d)[i], FieldValues(e)[i]) <==> AgreeAt(d, e, i)
  {
    hide RiskName, Decimal, Strings, Equiv;
    StrsEquiv(d.idempotency_mode, e.idempotency_mode);
    BoolsEquiv(d.requires_approval, e.requires_approval);
    CountsEquiv(d.timeout_ms, e.timeout_ms);
    CountsEquiv(d.max_attempts, e.max_attempts);
    StringsEquiv(d.scopes, e.scopes);
    StringsEquiv(d.tags, e.tags);
    ArraysEquiv(d.examples, e.examples);
  }

  lemma AgreeAtAll(d: Descriptor, e: Descriptor)
    ensures Agree(d, e) <==> forall i :: 0 <= i < |KEYS| ==> AgreeAt(d, e, i)
  {
    hide Equiv;
    if forall i :: 0 <= i < |KEYS| ==> AgreeAt(d, e, i) {
      assert AgreeAt(d, e, 0) && AgreeAt(d, e, 1) && AgreeAt(d, e, 2) && AgreeAt(d, e, 3) && AgreeAt(d, e, 4);
      assert AgreeAt(d, e, 5) && AgreeAt(d, e, 6) && AgreeAt(d, e, 7) && AgreeAt(d, e, 8) && AgreeAt(d, e, 9);
      assert AgreeAt(d, e, 10) && AgreeAt(d, e, 11) && AgreeAt(d, e, 12) && AgreeAt(d, e, 13) && AgreeAt(d, e, 14);
    }
  }

  lemma DescriptorIsJson(d: Descriptor)
    requires CarriesJson(d)
    ensures IsJson(Obj(ToFields(d)))
  {
    KeysAreDistinct();
    DecimalIsNumeral(d.timeout_ms);
    DecimalIsNumeral(d.max_attempts);
    forall i | 0 <= i < |KEYS| ensures IsJson(FieldValues(d)[i]) {
    }
  }

  /** The records that are digested are equal up to key order exactly when the descriptors agree. */
  lemma AgreeIffEquiv(d: Descriptor, e: Descriptor)
    ensures Agree(d, e) <==> Equiv(Obj(ToFields(d)), Obj(ToFields(e)))
  {
    hide Equiv, FieldValues, AgreeAt, Agree, ToFields;
    FieldsEquiv(d, e);
    forall i | 0 <= i < |KEYS| ensures Equiv(FieldValues(d)[i], FieldValues(e)[i]) <==> AgreeAt(d, e, i) {
      if i < 8 { EarlyFieldAgrees(d, e, i); } else { LateFieldAgrees(d, e, i); }
    }
    AgreeAtAll(d, e);
  }

  /** With a collision-free hash, two descriptors share a digest exactly when they agree on all fifteen fields. */
  lemma SameDigestIffAgree(hash: Text -> Text, d: Descriptor, e: Descriptor)
    requires Injective(hash) && CarriesJson(d) && CarriesJson(e)
    ensures CapabilityDigest(hash, d) == CapabilityDigest(hash, e) <==> Agree(d, e)
  {
    hide Equiv, Agree, ToFields;
    DescriptorIsJson(d);
    DescriptorIsJson(e);
    SameTextIffSameValue(Obj(ToFields(d)), Obj(ToFields(e)));
    AgreeIffEquiv(d, e);
  }
}
