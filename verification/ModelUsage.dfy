/**
 Token accounting of packages/core/src/evals/provider-usage.ts: reading a provider's token fields and
 summing the records by role. Numbers are reals, as JavaScript has one number type; per-role objects
 are maps in insertion order.
 */
module ModelUsage {
  import opened Wrappers
  import opened Sequences
  import opened JsMap

  type Number = real

  datatype UsageRecord = UsageRecord(
    provider: string,
    model: string,
    role_label: string,
    input_tokens: Number,
    output_tokens: Number,
    total_tokens: Number,
    cached_input_tokens: Option<Number>,
    reasoning_tokens: Option<Number>,
    provider_reported_cost_usd: Option<Number>,
    estimated_cost_usd: Option<Number>,
    estimated: bool)

  datatype Tokens = Tokens(input_tokens: Number, output_tokens: Number, total_tokens: Number)

  datatype Summary = Summary(
    provider: string,
    models_used: seq<string>,
    input_tokens: Number,
    output_tokens: Number,
    total_tokens: Number,
    cached_input_tokens: Option<Number>,
    reasoning_tokens: Option<Number>,
    estimated_cost_usd: Option<Number>,
    provider_reported_cost_usd: Option<Number>,
    calls_by_role: JsMap<string, Number>,
    tokens_by_role: JsMap<string, Tokens>,
    cost_by_role: JsMap<string, Number>,
    estimated: bool)

  // ---------------------------------------------------------------- reading a provider's fields

  /** The two spellings or three that a provider may use for each field; None for anything but a finite number. */
  datatype ProviderUsage = ProviderUsage(
    inputTokens: Option<Number>, promptTokens: Option<Number>, input_tokens: Option<Number>,
    outputTokens: Option<Number>, completionTokens: Option<Number>, output_tokens: Option<Number>,
    totalTokens: Option<Number>, total_tokens: Option<Number>)

  function Max0(x: Number): Number {
    if x >= 0.0 then x else 0.0
  }

  /** `Math.max(0, Math.round(value))` */
  function NumberField(value: Option<Number>): Option<Number> {
    if value.Some? then Some(Max0((value.value + 0.5).Floor as real)) else None
  }

  function Or<T>(a: Option<T>, b: Option<T>): Option<T> {
    if a.Some? then a else b
  }

  function InputOf(u: ProviderUsage): Option<Number> {
    Or(NumberField(u.inputTokens), Or(NumberField(u.promptTokens), NumberField(u.input_tokens)))
  }

  function OutputOf(u: ProviderUsage): Option<Number> {
    Or(NumberField(u.outputTokens), Or(NumberField(u.completionTokens), NumberField(u.output_tokens)))
  }

  function TotalOf(u: ProviderUsage): Option<Number> {
    Or(NumberField(u.totalTokens), NumberField(u.total_tokens))
  }

  function OrZero(a: Option<Number>): Number {
    if a.Some? then a.value else 0.0
  }

  /** The token counts of the record, or None when the provider gives none of the three and they are estimated. */
  function Normalize(u: ProviderUsage): Option<Tokens> {
    var input, output, total := InputOf(u), OutputOf(u), TotalOf(u);
    if input.None? && output.None? && total.None? then None
    else
      var normalizedInput := if input.Some? then input.value else Max0(OrZero(total) - OrZero(output));
      var normalizedOutput := if output.Some? then output.value else Max0(OrZero(total) - normalizedInput);
      Some(Tokens(normalizedInput, normalizedOutput,
                  if total.Some? then total.value else normalizedInput + normalizedOutput))
  }

  lemma NumberFieldIsCount(value: Option<Number>)
    ensures NumberField(value).Some? ==> NumberField(value).value >= 0.0
    ensures NumberField(value).Some? ==> NumberField(value).value == NumberField(value).value.Floor as real
  {
  }

  lemma FieldsAreCounts(u: ProviderUsage)
    ensures InputOf(u).Some? ==> InputOf(u).value >= 0.0
    ensures OutputOf(u).Some? ==> OutputOf(u).value >= 0.0
    ensures TotalOf(u).Some? ==> TotalOf(u).value >= 0.0
  {
    hide NumberField;
    NumberFieldIsCount(u.inputTokens);
    NumberFieldIsCount(u.promptTokens);
    NumberFieldIsCount(u.input_tokens);
    NumberFieldIsCount(u.outputTokens);
    NumberFieldIsCount(u.completionTokens);
    NumberFieldIsCount(u.output_tokens);
    NumberFieldIsCount(u.totalTokens);
    NumberFieldIsCount(u.total_tokens);
  }

  ghost predicate Consistent(t: Tokens) {
    t.total_tokens == t.input_tokens + t.output_tokens
  }

  /**
   Input and output of a record add up to its total exactly when the provider gives no total, or gives one
   that is the sum of what else it gives, or leaves out one of the two and the total is not below the other.
   */
  lemma NormalizedIsConsistentIff(u: ProviderUsage)
    requires Normalize(u).Some?
    ensures Consistent(Normalize(u).value)
            <==> TotalOf(u).None?
                 || (if InputOf(u).Some? && OutputOf(u).Some? then
                       TotalOf(u).value == InputOf(u).value + OutputOf(u).value
                     else TotalOf(u).value >= OrZero(InputOf(u)) + OrZero(OutputOf(u)))
  {
    FieldsAreCounts(u);
    hide InputOf, OutputOf, TotalOf;
  }

  // ---------------------------------------------------------------- summing

  type Weight = UsageRecord -> Number

  function Sum(records: seq<UsageRecord>, w: Weight): Number {
    if records == [] then 0.0 else Sum(records[..|records| - 1], w) + w(records[|records| - 1])
  }

  /** The records of one role. */
  function RoleSum(records: seq<UsageRecord>, role: string, w: Weight): Number {
    if records == [] then 0.0
    else
      var last := records[|records| - 1];
      RoleSum(records[..|records| - 1], role, w) + if last.role_label == role then w(last) else 0.0
  }

  ghost predicate HasRole(records: seq<UsageRecord>, role: string) {
    exists r :: r in records && r.role_label == role
  }

  function AddTokens(t: Tokens, r: UsageRecord): Tokens {
    Tokens(t.input_tokens + r.input_tokens, t.output_tokens + r.output_tokens, t.total_tokens + r.total_tokens)
  }

  function CostOf(r: UsageRecord): Number {
    OrZero(Or(r.provider_reported_cost_usd, r.estimated_cost_usd))
  }

  const NO_TOKENS := Tokens(0.0, 0.0, 0.0)
  const AddCall := (n: Number, r: UsageRecord) => n + 1.0
  const AddRecord := (t: Tokens, r: UsageRecord) => AddTokens(t, r)
  const AddCost := (n: Number, r: UsageRecord) => n + CostOf(r)

  function GetOr<V>(m: JsMap<string, V>, role: string, zero: V): V {
    if Get(m, role).Some? then Get(m, role).value else zero
  }

  /** `m[role] = add(m[role] ?? zero, record)` for each record. */
  function ByRole<V>(records: seq<UsageRecord>, zero: V, add: (V, UsageRecord) -> V): JsMap<string, V> {
    if records == [] then []
    else
      var m := ByRole(records[..|records| - 1], zero, add);
      var last := records[|records| - 1];
      Put(m, last.role_label, add(GetOr(m, last.role_label, zero), last))
  }

  /** `[...new Set(records.map(record => record.model))]` */
  function Models(records: seq<UsageRecord>): seq<string> {
    if records == [] then []
    else
      var front, last := Models(records[..|records| - 1]), records[|records| - 1].model;
      if last in front then front else front + [last]
  }

  function Positive(n: Number): Option<Number> {
    if n > 0.0 then Some(n) else None
  }

  const Input: Weight := (r: UsageRecord) => r.input_tokens
  const Output: Weight := (r: UsageRecord) => r.output_tokens
  const Total: Weight := (r: UsageRecord) => r.total_tokens
  const Cached: Weight := (r: UsageRecord) => OrZero(r.cached_input_tokens)
  const Reasoning: Weight := (r: UsageRecord) => OrZero(r.reasoning_tokens)
  const ProviderCost: Weight := (r: UsageRecord) => OrZero(r.provider_reported_cost_usd)
  const EstimatedCost: Weight := (r: UsageRecord) => OrZero(r.estimated_cost_usd)
  const Cost: Weight := (r: UsageRecord) => CostOf(r)
  const One: Weight := (r: UsageRecord) => 1.0

  function Summarize(records: seq<UsageRecord>): Summary {
    Summary(
      if records == [] then "unknown" else records[0].provider,
      Models(records),
      Sum(records, Input),
      Sum(records, Output),
      Sum(records, Input) + Sum(records, Output),
      Positive(Sum(records, Cached)),
      Positive(Sum(records, Reasoning)),
      Positive(Sum(records, EstimatedCost)),
      Positive(Sum(records, ProviderCost)),
      ByRole(records, 0.0, AddCall),
      ByRole(records, NO_TOKENS, AddRecord),
      ByRole(records, 0.0, AddCost),
      exists r :: r in records && r.estimated)
  }

  lemma ByRoleSnoc<V>(records: seq<UsageRecord>, last: UsageRecord, zero: V, add: (V, UsageRecord) -> V)
    ensures var m := ByRole(records, zero, add);
            (ByRole(records + [last], zero, add) == Put(m, last.role_label, add(GetOr(m, last.role_label, zero), last)))
  {
    assert (records + [last])[..|records|] == records;
  }

  /** The loop that fills the three objects. */
  method TallyByRole(records: seq<UsageRecord>)
    returns (callsByRole: JsMap<string, Number>, tokensByRole: JsMap<string, Tokens>, costByRole: JsMap<string, Number>)
    ensures callsByRole == ByRole(records, 0.0, AddCall)
    ensures tokensByRole == ByRole(records, NO_TOKENS, AddRecord)
    ensures costByRole == ByRole(records, 0.0, AddCost)
  {
    hide ByRole, Put, Get, CostOf;
    callsByRole, tokensByRole, costByRole := [], [], [];
    var i := 0;
    assert records[..0] == [];
    NoRoles(0.0, AddCall);
    NoRoles(NO_TOKENS, AddRecord);
    NoRoles(0.0, AddCost);
    while i < |records|
      invariant 0 <= i <= |records|
      invariant callsByRole == ByRole(records[..i], 0.0, AddCall)
      invariant tokensByRole == ByRole(records[..i], NO_TOKENS, AddRecord)
      invariant costByRole == ByRole(records[..i], 0.0, AddCost)
    {
      var record := records[i];
      assert records[..i + 1] == records[..i] + [record];
      ByRoleSnoc(records[..i], record, 0.0, AddCall);
      ByRoleSnoc(records[..i], record, NO_TOKENS, AddRecord);
      ByRoleSnoc(records[..i], record, 0.0, AddCost);
      callsByRole := Put(callsByRole, record.role_label, GetOr(callsByRole, record.role_label, 0.0) + 1.0);
      var tokens := GetOr(tokensByRole, record.role_label, NO_TOKENS);
      tokens := tokens.(input_tokens := tokens.input_tokens + record.input_tokens);
      tokens := tokens.(output_tokens := tokens.output_tokens + record.output_tokens);
      tokens := tokens.(total_tokens := tokens.total_tokens + record.total_tokens);
      tokensByRole := Put(tokensByRole, record.role_label, tokens);
      costByRole := Put(costByRole, record.role_label, GetOr(costByRole, record.role_label, 0.0) + CostOf(record));
      i := i + 1;
    }
    assert records[..i] == records;
  }

  lemma NoRoles<V>(zero: V, add: (V, UsageRecord) -> V)
    ensures ByRole([], zero, add) == []
  {
  }

  method SummarizeModelUsage(records: seq<UsageRecord>) returns (s: Summary)
    ensures s == Summarize(records)
  {
    hide ByRole, Sum, Models;
    var inputTokens, outputTokens := Sum(records, Input), Sum(records, Output);
    var callsByRole, tokensByRole, costByRole := TallyByRole(records);
    s := Summary(
      if |records| > 0 then records[0].provider else "unknown",
      Models(records), inputTokens, outputTokens, inputTokens + outputTokens,
      Positive(Sum(records, Cached)), Positive(Sum(records, Reasoning)),
      Positive(Sum(records, EstimatedCost)), Positive(Sum(records, ProviderCost)),
      callsByRole, tokensByRole, costByRole,
      exists r :: r in records && r.estimated);
  }

  // ---------------------------------------------------------------- conservation

  /** `measure` of the values kept per role grows by `w` of each record. */
  ghost predicate Measures<V(!new)>(zero: V, add: (V, UsageRecord) -> V, measure: V -> Number, w: Weight) {
    measure(zero) == 0.0 && forall v, r :: measure(add(v, r)) == measure(v) + w(r)
  }

  function MapTotal<V>(m: JsMap<string, V>, measure: V -> Number): Number {
    if m == [] then 0.0 else measure(m[0].value) + MapTotal(m[1..], measure)
  }

  lemma {:induction false} PutChangesTotal<V(!new)>(m: JsMap<string, V>, role: string, value: V, zero: V,
                                                    measure: V -> Number)
    requires measure(zero) == 0.0
    ensures MapTotal(Put(m, role, value), measure)
         == MapTotal(m, measure) - measure(GetOr(m, role, zero)) + measure(value)
  {
    if m == [] {
      assert Put(m, role, value)[1..] == [];
    } else if m[0].key == role {
      assert Put(m, role, value)[1..] == m[1..];
    } else {
      PutChangesTotal(m[1..], role, value, zero, measure);
      assert Put(m, role, value)[1..] == Put(m[1..], role, value);
    }
  }

  /** The per-role values add up to the sum over all records. */
  lemma {:induction false} RolesAddUp<V(!new)>(records: seq<UsageRecord>, zero: V, add: (V, UsageRecord) -> V,
                                               measure: V -> Number, w: Weight)
    requires Measures(zero, add, measure, w)
    ensures MapTotal(ByRole(records, zero, add), measure) == Sum(records, w)
  {
    hide Put, Get;
    if records != [] {
      var front, last := records[..|records| - 1], records[|records| - 1];
      var m := ByRole(front, zero, add);
      RolesAddUp(front, zero, add, measure, w);
      PutChangesTotal(m, last.role_label, add(GetOr(m, last.role_label, zero), last), zero, measure);
    }
  }

  const Identity := (n: Number) => n
  const InputPart := (t: Tokens) => t.input_tokens
  const OutputPart := (t: Tokens) => t.output_tokens
  const TotalPart := (t: Tokens) => t.total_tokens

  lemma {:induction false} SumOfOnes(records: seq<UsageRecord>)
    ensures Sum(records, One) == |records| as real
  {
    if records != [] {
      SumOfOnes(records[..|records| - 1]);
    }
  }

  /** Nothing is lost between the records, the roles and the totals. */
  lemma UsageIsConserved(records: seq<UsageRecord>)
    ensures var s := Summarize(records);
            (MapTotal(s.calls_by_role, Identity) == |records| as real
            && MapTotal(s.tokens_by_role, InputPart) == s.input_tokens
            && MapTotal(s.tokens_by_role, OutputPart) == s.output_tokens
            && MapTotal(s.tokens_by_role, TotalPart) == Sum(records, Total)
            && MapTotal(s.cost_by_role, Identity) == Sum(records, Cost))
  {
    hide Sum, ByRole, MapTotal, CostOf;
    RolesAddUp(records, 0.0, AddCall, Identity, One);
    SumOfOnes(records);
    RolesAddUp(records, NO_TOKENS, AddRecord, InputPart, Input);
    RolesAddUp(records, NO_TOKENS, AddRecord, OutputPart, Output);
    RolesAddUp(records, NO_TOKENS, AddRecord, TotalPart, Total);
    RolesAddUp(records, 0.0, AddCost, Identity, Cost);
  }

  ghost predicate AddsUp(r: UsageRecord) {
    r.total_tokens == r.input_tokens + r.output_tokens
  }

  /** The top-level total agrees with the roles' totals. */
  ghost predicate TotalsAgree(records: seq<UsageRecord>) {
    Summarize(records).total_tokens == MapTotal(Summarize(records).tokens_by_role, TotalPart)
  }

  lemma TotalsAgreeIsSums(records: seq<UsageRecord>)
    ensures TotalsAgree(records) <==> Sum(records, Input) + Sum(records, Output) == Sum(records, Total)
  {
    hide Sum, ByRole, MapTotal;
    UsageIsConserved(records);
  }

  lemma SumSnoc(records: seq<UsageRecord>, last: UsageRecord, w: Weight)
    ensures Sum(records + [last], w) == Sum(records, w) + w(last)
  {
    assert (records + [last])[..|records|] == records;
  }

  lemma AgreementSnoc(records: seq<UsageRecord>, last: UsageRecord)
    requires TotalsAgree(records)
    ensures TotalsAgree(records + [last]) <==> AddsUp(last)
  {
    hide TotalsAgree, Sum;
    TotalsAgreeIsSums(records);
    TotalsAgreeIsSums(records + [last]);
    SumSnoc(records, last, Input);
    SumSnoc(records, last, Output);
    SumSnoc(records, last, Total);
  }

  /**
   The top-level total is input plus output, not the sum of the records' totals. Deviations of single records
   can cancel, so the two agree throughout a list, record by record, exactly when every record adds up.
   */
  lemma {:induction false} TotalsAgreeThroughoutIff(records: seq<UsageRecord>)
    ensures (forall n :: 0 <= n <= |records| ==> TotalsAgree(records[..n])) <==> forall r :: r in records ==> AddsUp(r)
    decreases |records|
  {
    hide TotalsAgree, AddsUp;
    if records == [] {
      NothingAgrees();
      assert forall n :: 0 <= n <= |records| ==> records[..n] == [];
    } else {
      var front, last := records[..|records| - 1], records[|records| - 1];
      TotalsAgreeThroughoutIff(front);
      assert records == front + [last] && records[..|records|] == records;
      assert forall n :: 0 <= n <= |front| ==> front[..n] == records[..n];
      assert front[..|front|] == front;
      assert forall r :: r in records <==> r in front || r == last;
      if TotalsAgree(front) {
        AgreementSnoc(front, last);
      }
      assert forall n :: 0 <= n <= |records| ==> n <= |front| || records[..n] == records;
    }
  }

  lemma NothingAgrees()
    ensures TotalsAgree([])
  {
    TotalsAgreeIsSums([]);
  }

  /** Two records that deviate by the same amount in opposite directions: the totals agree, and neither adds up. */
  lemma DeviationsCancel(r: UsageRecord, s: UsageRecord)
    requires r.total_tokens - (r.input_tokens + r.output_tokens) == (s.input_tokens + s.output_tokens) - s.total_tokens
    ensures TotalsAgree([r, s])
  {
    hide TotalsAgree;
    TotalsAgreeIsSums([r, s]);
    assert [r, s][..1] == [r] && [r][..0] == [];
    SumOfTwo(r, s, Input);
    SumOfTwo(r, s, Output);
    SumOfTwo(r, s, Total);
  }

  lemma SumOfTwo(r: UsageRecord, s: UsageRecord, w: Weight)
    ensures Sum([r, s], w) == w(r) + w(s)
  {
    assert [r, s] == ([] + [r]) + [s];
    SumSnoc([], r, w);
    SumSnoc([] + [r], s, w);
  }

  /** For one record, the totals agree exactly when it adds up. */
  lemma TotalsOfOneRecord(r: UsageRecord)
    ensures TotalsAgree([r]) <==> AddsUp(r)
  {
    hide TotalsAgree;
    NothingAgrees();
    AgreementSnoc([], r);
    assert [] + [r] == [r];
  }

  // ---------------------------------------------------------------- concatenation

  lemma {:induction false} SumConcat(a: seq<UsageRecord>, b: seq<UsageRecord>, w: Weight)
    ensures Sum(a + b, w) == Sum(a, w) + Sum(b, w)
    decreases |b|
  {
    if b == [] {
      assert a + b == a;
    } else {
      assert (a + b)[..|a + b| - 1] == a + b[..|b| - 1];
      SumConcat(a, b[..|b| - 1], w);
    }
  }

  lemma {:induction false} RoleSumConcat(a: seq<UsageRecord>, b: seq<UsageRecord>, role: string, w: Weight)
    ensures RoleSum(a + b, role, w) == RoleSum(a, role, w) + RoleSum(b, role, w)
    decreases |b|
  {
    if b == [] {
      assert a + b == a;
    } else {
      assert (a + b)[..|a + b| - 1] == a + b[..|b| - 1];
      RoleSumConcat(a, b[..|b| - 1], role, w);
    }
  }

  lemma HasRoleSnoc(records: seq<UsageRecord>, last: UsageRecord, role: string)
    ensures HasRole(records + [last], role) <==> HasRole(records, role) || last.role_label == role
  {
    assert forall r :: r in records + [last] <==> r in records || r == last;
  }

  /** A role is present exactly when a record has it, with the sum over the records of that role. */
  lemma {:induction false} RoleIsItsSum<V(!new)>(records: seq<UsageRecord>, zero: V, add: (V, UsageRecord) -> V,
                                                 measure: V -> Number, w: Weight, role: string)
    requires Measures(zero, add, measure, w)
    ensures Wf(ByRole(records, zero, add))
    ensures Get(ByRole(records, zero, add), role).Some? <==> HasRole(records, role)
    ensures measure(GetOr(ByRole(records, zero, add), role, zero)) == RoleSum(records, role, w)
  {
    hide Put, Get, HasRole;
    if records == [] {
      NobodyHasRole(role);
      NoEntry<V>(role);
    } else {
      var front, last := records[..|records| - 1], records[|records| - 1];
      var m := ByRole(front, zero, add);
      assert records == front + [last];
      HasRoleSnoc(front, last, role);
      RoleIsItsSum(front, zero, add, measure, w, role);
      PutKeepsWf(m, last.role_label, add(GetOr(m, last.role_label, zero), last));
      GetAfterPut(m, last.role_label, add(GetOr(m, last.role_label, zero), last), role);
    }
  }

  lemma NobodyHasRole(role: string)
    ensures !HasRole([], role)
  {
  }

  lemma NoEntry<V>(role: string)
    ensures Get<string, V>([], role) == None
  {
  }

  lemma HasRoleConcat(a: seq<UsageRecord>, b: seq<UsageRecord>, role: string)
    ensures HasRole(a + b, role) <==> HasRole(a, role) || HasRole(b, role)
  {
    assert forall r :: r in a + b <==> r in a || r in b;
  }

  lemma RoleMerges<V(!new)>(a: seq<UsageRecord>, b: seq<UsageRecord>, zero: V, add: (V, UsageRecord) -> V,
                            measure: V -> Number, w: Weight, role: string)
    requires Measures(zero, add, measure, w)
    ensures Get(ByRole(a + b, zero, add), role).Some?
         <==> Get(ByRole(a, zero, add), role).Some? || Get(ByRole(b, zero, add), role).Some?
    ensures measure(GetOr(ByRole(a + b, zero, add), role, zero))
         == measure(GetOr(ByRole(a, zero, add), role, zero)) + measure(GetOr(ByRole(b, zero, add), role, zero))
  {
    hide ByRole, Get, HasRole, RoleSum, GetOr;
    RoleIsItsSum(a, zero, add, measure, w, role);
    RoleIsItsSum(b, zero, add, measure, w, role);
    RoleIsItsSum(a + b, zero, add, measure, w, role);
    RoleSumConcat(a, b, role, w);
    HasRoleConcat(a, b, role);
  }

  function PlusTokens(s: Tokens, t: Tokens): Tokens {
    Tokens(s.input_tokens + t.input_tokens, s.output_tokens + t.output_tokens, s.total_tokens + t.total_tokens)
  }

  /** The summary of two lists together is the pointwise sum of their summaries, role by role. */
  lemma RolesMerge(a: seq<UsageRecord>, b: seq<UsageRecord>, role: string)
    ensures var s, t, u := Summarize(a), Summarize(b), Summarize(a + b);
            (GetOr(u.calls_by_role, role, 0.0) == GetOr(s.calls_by_role, role, 0.0) + GetOr(t.calls_by_role, role, 0.0)
            && GetOr(u.cost_by_role, role, 0.0) == GetOr(s.cost_by_role, role, 0.0) + GetOr(t.cost_by_role, role, 0.0)
            && GetOr(u.tokens_by_role, role, NO_TOKENS)
               == PlusTokens(GetOr(s.tokens_by_role, role, NO_TOKENS), GetOr(t.tokens_by_role, role, NO_TOKENS)))
    ensures Get(Summarize(a + b).calls_by_role, role).Some?
            <==> Get(Summarize(a).calls_by_role, role).Some? || Get(Summarize(b).calls_by_role, role).Some?
    ensures Get(Summarize(a + b).tokens_by_role, role).Some?
            <==> Get(Summarize(a).tokens_by_role, role).Some? || Get(Summarize(b).tokens_by_role, role).Some?
    ensures Get(Summarize(a + b).cost_by_role, role).Some?
            <==> Get(Summarize(a).cost_by_role, role).Some? || Get(Summarize(b).cost_by_role, role).Some?
  {
    hide ByRole, Get, GetOr, CostOf, Sum, Models;
    RoleMerges(a, b, 0.0, AddCall, Identity, One, role);
    RoleMerges(a, b, 0.0, AddCost, Identity, Cost, role);
    RoleMerges(a, b, NO_TOKENS, AddRecord, InputPart, Input, role);
    RoleMerges(a, b, NO_TOKENS, AddRecord, OutputPart, Output, role);
    RoleMerges(a, b, NO_TOKENS, AddRecord, TotalPart, Total, role);
  }

  /** And so are the totals; models are listed once, those of the first list first. */
  lemma TotalsMerge(a: seq<UsageRecord>, b: seq<UsageRecord>)
    ensures var s, t, u := Summarize(a), Summarize(b), Summarize(a + b);
            (u.input_tokens == s.input_tokens + t.input_tokens
            && u.output_tokens == s.output_tokens + t.output_tokens
            && u.total_tokens == s.total_tokens + t.total_tokens
            && (u.estimated <==> s.estimated || t.estimated)
            && u.provider == (if a == [] then t.provider else s.provider)
            && u.models_used == s.models_used + Filter(t.models_used, (m: string) => m !in s.models_used))
  {
    SumConcat(a, b, Input);
    SumConcat(a, b, Output);
    ModelsConcat(a, b);
    assert forall r :: r in a + b <==> r in a || r in b;
    assert a == [] ==> a + b == b;
    hide ByRole, Sum, Models, Filter;
  }

  lemma {:induction false} ModelsConcat(a: seq<UsageRecord>, b: seq<UsageRecord>)
    ensures Models(a + b) == Models(a) + Filter(Models(b), (m: string) => m !in Models(a))
    decreases |b|
  {
    hide Models, Filter;
    var isNew := (m: string) => m !in Models(a);
    NoModels();
    if b == [] {
      assert a + b == a;
      FilterNothing(isNew);
      assert Models(a) + [] == Models(a);
    } else {
      var front, last := b[..|b| - 1], b[|b| - 1];
      var m := Models(front);
      assert a + b == (a + front) + [last] && b == front + [last];
      ModelsConcat(a, front);
      ModelsSnoc(a + front, last);
      ModelsSnoc(front, last);
      FilterMembers(m, isNew, last.model);
      FilterSnoc(m, last.model, isNew);
      Reassociate(Models(a), Filter(m, isNew), [last.model]);
      assert Filter(m, isNew) + [] == Filter(m, isNew);
    }
  }

  lemma NoModels()
    ensures Models([]) == []
  {
  }

  lemma ModelsSnoc(records: seq<UsageRecord>, last: UsageRecord)
    ensures var m := Models(records);
            Models(records + [last]) == if last.model in m then m else m + [last.model]
  {
    assert (records + [last])[..|records|] == records;
  }

  /** Every model that a record names, once. */
  lemma {:induction false} ModelsAreDistinct(records: seq<UsageRecord>, model: string)
    ensures Distinct(Models(records))
    ensures model in Models(records) <==> exists r :: r in records && r.model == model
  {
    hide Models;
    if records == [] {
      NoModels();
    } else {
      var front, last := records[..|records| - 1], records[|records| - 1];
      ModelsAreDistinct(front, model);
      assert records == front + [last];
      ModelsSnoc(front, last);
      if last.model !in Models(front) {
        AppendKeepsDistinct(Models(front), last.model);
      }
      assert forall r :: r in records <==> r in front || r == last;
    }
  }

  // ---------------------------------------------------------------- no record, one record, and the optional sums

  lemma SummaryOfNothing()
    ensures Summarize([]) == Summary("unknown", [], 0.0, 0.0, 0.0, None, None, None, None, [], [], [], false)
  {
  }

  /** What the provider charged, else the estimate, else nothing. */
  function Charged(r: UsageRecord): Number {
    match r.provider_reported_cost_usd
    case Some(reported) => reported
    case None => match r.estimated_cost_usd case Some(estimate) => estimate case None => 0.0
  }

  function Kept(n: Option<Number>): Option<Number> {
    if n.Some? && n.value > 0.0 then n else None
  }

  /** One record is its own summary: with the merging laws below and above, this settles every summary. */
  lemma SummaryOfOne(r: UsageRecord)
    ensures Summarize([r])
         == Summary(r.provider, [r.model], r.input_tokens, r.output_tokens, r.input_tokens + r.output_tokens,
                    Kept(r.cached_input_tokens), Kept(r.reasoning_tokens), Kept(r.estimated_cost_usd),
                    Kept(r.provider_reported_cost_usd),
                    [Entry(r.role_label, 1.0)],
                    [Entry(r.role_label, Tokens(r.input_tokens, r.output_tokens, r.total_tokens))],
                    [Entry(r.role_label, Charged(r))],
                    r.estimated)
  {
    hide Sum, ByRole;
    assert [r][..0] == [];
    assert Models([r]) == [r.model];
    SumOfOneRecord(r, Input);
    SumOfOneRecord(r, Output);
    SumOfOneRecord(r, Cached);
    SumOfOneRecord(r, Reasoning);
    SumOfOneRecord(r, EstimatedCost);
    SumOfOneRecord(r, ProviderCost);
    RoleOfOneRecord(r, 0.0, AddCall);
    RoleOfOneRecord(r, NO_TOKENS, AddRecord);
    RoleOfOneRecord(r, 0.0, AddCost);
    assert r in [r];
    assert AddCost(0.0, r) == Charged(r);
    assert AddRecord(NO_TOKENS, r) == Tokens(r.input_tokens, r.output_tokens, r.total_tokens);
  }

  lemma SumOfOneRecord(r: UsageRecord, w: Weight)
    ensures Sum([r], w) == w(r)
  {
    assert [r][..0] == [];
  }

  lemma RoleOfOneRecord<V>(r: UsageRecord, zero: V, add: (V, UsageRecord) -> V)
    ensures ByRole([r], zero, add) == [Entry(r.role_label, add(zero, r))]
  {
    assert [r][..0] == [];
  }

  /** The schema of a record. */
  predicate IsCounted(r: UsageRecord) {
    && (r.cached_input_tokens.Some? ==> r.cached_input_tokens.value >= 0.0)
    && (r.reasoning_tokens.Some? ==> r.reasoning_tokens.value >= 0.0)
    && (r.provider_reported_cost_usd.Some? ==> r.provider_reported_cost_usd.value >= 0.0)
    && (r.estimated_cost_usd.Some? ==> r.estimated_cost_usd.value >= 0.0)
  }

  lemma {:induction false} SumIsNonNegative(records: seq<UsageRecord>, w: Weight)
    requires forall r :: r in records ==> w(r) >= 0.0
    ensures Sum(records, w) >= 0.0
  {
    if records != [] {
      SumIsNonNegative(records[..|records| - 1], w);
      assert records[|records| - 1] in records;
    }
  }

  lemma OptionalSumMerges(a: seq<UsageRecord>, b: seq<UsageRecord>, w: Weight)
    requires forall r :: r in a + b ==> w(r) >= 0.0
    ensures OrZero(Positive(Sum(a + b, w))) == OrZero(Positive(Sum(a, w))) + OrZero(Positive(Sum(b, w)))
    ensures Positive(Sum(a + b, w)).Some? <==> Positive(Sum(a, w)).Some? || Positive(Sum(b, w)).Some?
  {
    hide Sum;
    assert forall r :: r in a ==> r in a + b;
    assert forall r :: r in b ==> r in a + b;
    SumIsNonNegative(a, w);
    SumIsNonNegative(b, w);
    SumConcat(a, b, w);
  }

  /** The four sums that a summary leaves out when they are zero add up as well. */
  lemma OptionalTotalsMerge(a: seq<UsageRecord>, b: seq<UsageRecord>)
    requires forall r :: r in a + b ==> IsCounted(r)
    ensures var s, t, u := Summarize(a), Summarize(b), Summarize(a + b);
            && OrZero(u.cached_input_tokens) == OrZero(s.cached_input_tokens) + OrZero(t.cached_input_tokens)
            && OrZero(u.reasoning_tokens) == OrZero(s.reasoning_tokens) + OrZero(t.reasoning_tokens)
            && OrZero(u.estimated_cost_usd) == OrZero(s.estimated_cost_usd) + OrZero(t.estimated_cost_usd)
            && OrZero(u.provider_reported_cost_usd)
               == OrZero(s.provider_reported_cost_usd) + OrZero(t.provider_reported_cost_usd)
    ensures var s, t, u := Summarize(a), Summarize(b), Summarize(a + b);
            && (u.cached_input_tokens.Some? <==> s.cached_input_tokens.Some? || t.cached_input_tokens.Some?)
            && (u.reasoning_tokens.Some? <==> s.reasoning_tokens.Some? || t.reasoning_tokens.Some?)
            && (u.estimated_cost_usd.Some? <==> s.estimated_cost_usd.Some? || t.estimated_cost_usd.Some?)
            && (u.provider_reported_cost_usd.Some? <==>
                  s.provider_reported_cost_usd.Some? || t.provider_reported_cost_usd.Some?)
  {
    hide Sum, ByRole, Models, Positive;
    OptionalSumMerges(a, b, Cached);
    OptionalSumMerges(a, b, Reasoning);
    OptionalSumMerges(a, b, EstimatedCost);
    OptionalSumMerges(a, b, ProviderCost);
  }

  // ---------------------------------------------------------------- a provider's fields, case by case

  /** `count` is the number rounded to the nearest whole one, halves up, and never below zero. */
  ghost predicate IsRounded(x: Number, count: Number) {
    && count == count.Floor as real
    && (if x < 0.5 then count == 0.0 else count - 0.5 <= x < count + 0.5)
  }

  /** `count` is what a field says that has these spellings: the first one given counts. */
  ghost predicate Says(first: Option<Number>, second: Option<Number>, third: Option<Number>, count: Option<Number>) {
    if first.Some? then count.Some? && IsRounded(first.value, count.value)
    else if second.Some? then count.Some? && IsRounded(second.value, count.value)
    else if third.Some? then count.Some? && IsRounded(third.value, count.value)
    else count.None?
  }

  lemma RoundedIsUnique(x: Number, a: Number, b: Number)
    requires IsRounded(x, a) && IsRounded(x, b)
    ensures a == b
  {
    WholeAndNear(a.Floor, b.Floor, x);
  }

  lemma WholeAndNear(m: int, n: int, x: Number)
    ensures m as real - 0.5 <= x < m as real + 0.5 && n as real - 0.5 <= x < n as real + 0.5 ==> m == n
  {
    if m < n {
      assert m as real + 1.0 <= n as real;
    } else if n < m {
      assert n as real + 1.0 <= m as real;
    }
  }

  lemma NumberFieldIsRounded(value: Option<Number>)
    ensures value.Some? <==> NumberField(value).Some?
    ensures value.Some? ==> IsRounded(value.value, NumberField(value).value)
  {
  }

  /**
   The tokens of a record from what the provider says of input, output and total. A missing total is the sum; a
   missing part is what the other one leaves of the total, not below zero; with the total alone all of it is
   input; with nothing the tokens are estimated.
   */
  lemma NormalizedIs(u: ProviderUsage, input: Option<Number>, output: Option<Number>, total: Option<Number>)
    requires Says(u.inputTokens, u.promptTokens, u.input_tokens, input)
    requires Says(u.outputTokens, u.completionTokens, u.output_tokens, output)
    requires Says(u.totalTokens, u.total_tokens, None, total)
    ensures Normalize(u)
         == match (input, output, total)
            case (None, None, None) => None
            case (Some(i), Some(o), Some(t)) => Some(Tokens(i, o, t))
            case (Some(i), Some(o), None) => Some(Tokens(i, o, i + o))
            case (Some(i), None, Some(t)) => Some(Tokens(i, if t > i then t - i else 0.0, t))
            case (None, Some(o), Some(t)) => Some(Tokens(if t > o then t - o else 0.0, o, t))
            case (Some(i), None, None) => Some(Tokens(i, 0.0, i))
            case (None, Some(o), None) => Some(Tokens(0.0, o, o))
            case (None, None, Some(t)) => Some(Tokens(t, 0.0, t))
  {
    SaysWhatIsRead(u.inputTokens, u.promptTokens, u.input_tokens, input);
    SaysWhatIsRead(u.outputTokens, u.completionTokens, u.output_tokens, output);
    SaysWhatIsRead(u.totalTokens, u.total_tokens, None, total);
    FieldsAreCounts(u);
    hide NumberField, Says;
  }

  lemma SaysWhatIsRead(first: Option<Number>, second: Option<Number>, third: Option<Number>, count: Option<Number>)
    requires Says(first, second, third, count)
    ensures count == Or(NumberField(first), Or(NumberField(second), NumberField(third)))
  {
    hide NumberField, IsRounded;
    NumberFieldIsRounded(first);
    NumberFieldIsRounded(second);
    NumberFieldIsRounded(third);
    var given := if first.Some? then first else if second.Some? then second else third;
    if given.Some? {
      RoundedIsUnique(given.value, count.value, NumberField(given).value);
    }
  }
}
