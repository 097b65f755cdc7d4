/**
 What a registry lists, resolves and refuses, after any history of registrations: written on the fields of
 packs, descriptors and filters, without the functions that compute it.
 */
module PackListings {
  import opened Wrappers
  import opened Sequences
  import opened CanonicalJson
  import opened Descriptors
  import opened CanonicalText
  import opened StableSort
  import opened JsMap
  import opened PackRegistry
  import opened PackHistories

  // ---------------------------------------------------------------- what is registered

  /** The attempt at this position of the history was successful. */
  predicate Succeeds(hash: Hash, packs: seq<Pack>, i: nat)
    requires i < |packs|
  {
    Register(hash, History(hash, EMPTY, packs[..i]), packs[i]).Ok?
  }

  /** The pack at this position was registered, and `f` is its last definition under that id, with its digest. */
  predicate Contributes(hash: Hash, packs: seq<Pack>, i: nat, f: Finalized)
    requires i < |packs|
  {
    && Succeeds(hash, packs, i)
    && LastDefinition(packs[i].capabilities, f.descriptor.capability_id) == Some(f.descriptor)
    && f.capability_digest == CapabilityDigest(hash, f.descriptor)
  }

  lemma {:induction false} HistorySnoc(hash: Hash, s: Maps, packs: seq<Pack>, last: Pack)
    ensures History(hash, s, packs + [last]) == Attempt(hash, History(hash, s, packs), last)
    decreases |packs|
  {
    hide Attempt;
    if packs == [] {
      assert (packs + [last])[1..] == [];
    } else {
      assert (packs + [last])[1..] == packs[1..] + [last];
      HistorySnoc(hash, Attempt(hash, s, packs[0]), packs[1..], last);
    }
  }

  lemma OwnDescriptors(hash: Hash, pack: Pack, f: Finalized)
    ensures Registered(pack, f) in Values(Own(hash, pack))
       <==> && LastDefinition(pack.capabilities, f.descriptor.capability_id) == Some(f.descriptor)
            && f.capability_digest == CapabilityDigest(hash, f.descriptor)
  {
    hide CapabilityDigest, PutAll, Items, LastDefinition, LastFor, Get;
    var own, items, id := Own(hash, pack), Items(hash, pack, pack.capabilities), f.descriptor.capability_id;
    OwnEntries(hash, pack);
    ItemsKeys(hash, pack, pack.capabilities);
    LastItem(hash, pack, pack.capabilities, id);
    EmptyIsWf();
    NothingThere(id);
    GetAfterPutAll<Text, Registered>([], items, id);
    if Registered(pack, f) in Values(own) {
      var i :| 0 <= i < |own| && own[i].value == Registered(pack, f);
      assert own[i] in own && own[i].key == id;
      GetIs(own, i);
    }
    if Get(own, id) == Some(Registered(pack, f)) {
      var i :| 0 <= i < |own| && own[i] == Entry(id, Registered(pack, f));
      assert Values(own)[i] == Registered(pack, f);
    }
  }

  lemma ValuesConcatenate(m: JsMap<Text, Registered>, own: JsMap<Text, Registered>, r: Registered)
    ensures r in Values(m + own) <==> r in Values(m) || r in Values(own)
  {
    hide Values;
    if r in Values(m) {
      var i :| 0 <= i < |m| && Values(m)[i] == r;
      assert Values(m + own)[i] == r;
    }
    if r in Values(own) {
      var i :| 0 <= i < |own| && Values(own)[i] == r;
      assert Values(m + own)[|m| + i] == r;
    }
  }

  lemma AttemptAdds(hash: Hash, s: Maps, pack: Pack, r: Registered)
    ensures r in Values(Attempt(hash, s, pack).capabilities)
       <==> r in Values(s.capabilities) || (Register(hash, s, pack).Ok? && r in Values(Own(hash, pack)))
  {
    hide Own, Register, Values;
    RegisterIff(hash, s, pack);
    ValuesConcatenate(s.capabilities, Own(hash, pack), r);
  }

  lemma OwnIsOfPack(hash: Hash, pack: Pack, r: Registered)
    ensures r in Values(Own(hash, pack)) ==> r.pack == pack
  {
    hide CapabilityDigest, PutAll, Items;
    OwnEntries(hash, pack);
    ItemsKeys(hash, pack, pack.capabilities);
    if r in Values(Own(hash, pack)) {
      var i :| 0 <= i < |Own(hash, pack)| && Own(hash, pack)[i].value == r;
      assert Own(hash, pack)[i] in Own(hash, pack);
    }
  }

  /** After any history: registered are the definitions of the packs whose attempt succeeded, the last per id. */
  lemma {:induction false} RegisteredIff(hash: Hash, packs: seq<Pack>, r: Registered)
    ensures r in Values(History(hash, EMPTY, packs).capabilities)
       <==> exists i: nat :: i < |packs| && r.pack == packs[i] && Contributes(hash, packs, i, r.descriptor)
    decreases |packs|
  {
    hide Values, Own, CapabilityDigest, Attempt, Register, LastDefinition;
    if packs == [] {
      NothingListed();
    } else {
      var init, last := packs[..|packs| - 1], packs[|packs| - 1];
      assert packs == init + [last];
      var s := History(hash, EMPTY, init);
      HistorySnoc(hash, EMPTY, init, last);
      AttemptAdds(hash, s, last, r);
      OwnIsOfPack(hash, last, r);
      OwnDescriptors(hash, last, r.descriptor);
      RegisteredIff(hash, init, r);
      forall i: nat | i < |init|
        ensures Contributes(hash, packs, i, r.descriptor) <==> Contributes(hash, init, i, r.descriptor)
      {
        assert packs[..i] == init[..i];
      }
      assert Contributes(hash, packs, |init|, r.descriptor) <==>
             Register(hash, s, last).Ok? && Registered(last, r.descriptor) in Values(Own(hash, last));
    }
  }

  lemma NothingListed()
    ensures Values<Text, Registered>([]) == []
  {
  }

  // ---------------------------------------------------------------- listings

  /** At most as risky, in the chain read, write, external side effect, destructive. */
  predicate WithinRisk(r: RiskLevel, limit: RiskLevel) {
    match limit
    case Read => r == Read
    case Write => r == Read || r == Write
    case ExternalSideEffect => r == Read || r == Write || r == ExternalSideEffect
    case Destructive => true
  }

  /** The five tests. A list that is absent allows everything, and so does an empty list of allowed names or scopes. */
  ghost predicate Passes(d: Descriptor, pack: Pack, filter: CapabilityFilter) {
    && (filter.trust_levels.None? || pack.trust_level in filter.trust_levels.value)
    && (filter.max_risk_level.None? || WithinRisk(d.risk_level, filter.max_risk_level.value))
    && (filter.allowed_capabilities.None? || filter.allowed_capabilities.value == []
        || exists key :: key in filter.allowed_capabilities.value
                         && (key == d.capability_id || key == d.name || key == d.pack_id + Ascii(".") + d.name))
    && (filter.allowed_scopes.None? || filter.allowed_scopes.value == []
        || exists scope :: scope in filter.allowed_scopes.value && scope in d.scopes)
    && (filter.denied_scopes.None? || forall scope :: scope in d.scopes ==> scope !in filter.denied_scopes.value)
  }

  lemma OverlapIff(a: seq<Text>, b: seq<Text>)
    ensures Overlap(a, b) <==> exists x :: x in b && x in a
  {
  }

  lemma MatchesIff(f: Finalized, pack: Pack, filter: CapabilityFilter)
    ensures MatchesFilter(f, Some(pack), filter) <==> Passes(f.descriptor, pack, filter)
  {
    hide Overlap, Ascii;
    var d := f.descriptor;
    var keys := [d.capability_id, d.name, d.pack_id + Ascii(".") + d.name];
    assert forall key :: key in keys <==>
             key == d.capability_id || key == d.name || key == d.pack_id + Ascii(".") + d.name;
    if filter.allowed_capabilities.Some? {
      OverlapIff(keys, filter.allowed_capabilities.value);
    }
    if filter.allowed_scopes.Some? {
      OverlapIff(d.scopes, filter.allowed_scopes.value);
    }
    if filter.denied_scopes.Some? {
      OverlapIff(d.scopes, filter.denied_scopes.value);
    }
  }

  lemma RegisteredPack(hash: Hash, s: Maps, f: Finalized) returns (pack: Pack)
    requires Inv(hash, s) && f in DescriptorsOf(s.capabilities)
    ensures Get(s.packs, f.descriptor.pack_id) == Some(pack) && Registered(pack, f) in Values(s.capabilities)
  {
    hide CapabilityDigest;
    var i :| 0 <= i < |s.capabilities| && s.capabilities[i].value.descriptor == f;
    assert EntryFits(hash, s, s.capabilities[i]);
    pack := s.capabilities[i].value.pack;
    assert Values(s.capabilities)[i] == Registered(pack, f);
  }

  lemma DescribedIff(hash: Hash, s: Maps, r: Registered)
    requires Inv(hash, s) && r in Values(s.capabilities)
    ensures r.descriptor in DescriptorsOf(s.capabilities)
    ensures Get(s.packs, r.descriptor.descriptor.pack_id) == Some(r.pack)
  {
    hide CapabilityDigest;
    var i :| 0 <= i < |s.capabilities| && s.capabilities[i].value == r;
    assert EntryFits(hash, s, s.capabilities[i]);
    assert DescriptorsOf(s.capabilities)[i] == r.descriptor;
  }

  lemma ListedInState(hash: Hash, order: Order, s: Maps, filter: CapabilityFilter, f: Finalized)
    requires Inv(hash, s)
    ensures f in ListCapabilities(order, s, filter)
       <==> exists pack :: Registered(pack, f) in Values(s.capabilities) && Passes(f.descriptor, pack, filter)
  {
    hide Inv, MatchesFilter, Passes, Values, DescriptorsOf;
    var keep := (g: Finalized) => MatchesFilter(g, Get(s.packs, g.descriptor.pack_id), filter);
    FilterMembers(DescriptorsOf(s.capabilities), keep, f);
    SortKeepsMembers(Filter(DescriptorsOf(s.capabilities), keep), ById(order), f);
    if f in DescriptorsOf(s.capabilities) {
      var pack := RegisteredPack(hash, s, f);
      MatchesIff(f, pack, filter);
    }
    forall pack | Registered(pack, f) in Values(s.capabilities)
      ensures f in DescriptorsOf(s.capabilities) && Get(s.packs, f.descriptor.pack_id) == Some(pack)
    {
      DescribedIff(hash, s, Registered(pack, f));
    }
  }

  /**
   What a listing contains, after any history: exactly the registered descriptors, each the last definition of
   its id in a pack whose attempt succeeded, that pass the five tests.
   */
  lemma ListedIff(hash: Hash, order: Order, packs: seq<Pack>, filter: CapabilityFilter, f: Finalized)
    ensures f in ListCapabilities(order, History(hash, EMPTY, packs), filter)
       <==> exists i: nat ::
              i < |packs| && Contributes(hash, packs, i, f) && Passes(f.descriptor, packs[i], filter)
  {
    hide ListCapabilities, History, Values, Passes, Contributes;
    var s := History(hash, EMPTY, packs);
    EmptyIsGood(hash);
    HistoryKeepsInv(hash, EMPTY, packs);
    ListedInState(hash, order, s, filter, f);
    forall pack
      ensures Registered(pack, f) in Values(s.capabilities)
         <==> exists i: nat :: i < |packs| && pack == packs[i] && Contributes(hash, packs, i, f)
    {
      RegisteredIff(hash, packs, Registered(pack, f));
    }
  }

  lemma EmptyIsGood(hash: Hash)
    ensures Inv(hash, EMPTY)
  {
  }

  /** A listing runs by capability id, and lists no id twice. */
  lemma ListingIsById(hash: Hash, order: Order, packs: seq<Pack>, filter: CapabilityFilter)
    requires TotalOrder(order)
    ensures var list := ListCapabilities(order, History(hash, EMPTY, packs), filter);
            forall i, j :: 0 <= i < j < |list| ==>
              var a, b := list[i].descriptor.capability_id, list[j].descriptor.capability_id; (order(a, b) && a != b)
  {
    hide History, MatchesFilter, DescriptorsOf, Inv;
    var s := History(hash, EMPTY, packs);
    EmptyIsGood(hash);
    HistoryKeepsInv(hash, EMPTY, packs);
    DescriptorsDistinct(hash, s);
    var keep := (g: Finalized) => MatchesFilter(g, Get(s.packs, g.descriptor.pack_id), filter);
    var all := DescriptorsOf(s.capabilities);
    var kept := Filter(all, keep);
    var list := Sort(kept, ById(order));
    FilterKeepsDistinct(all, keep);
    SortPermutes(kept, ById(order));
    SortSorts(kept, ById(order));
    DistinctByMultiset(kept, list);
    forall i, j | 0 <= i < j < |list|
      ensures list[i].descriptor.capability_id != list[j].descriptor.capability_id
    {
      SortKeepsMembers(kept, ById(order), list[i]);
      SortKeepsMembers(kept, ById(order), list[j]);
      FilterMembers(all, keep, list[i]);
      FilterMembers(all, keep, list[j]);
    }
  }

  /** A limit of read lists nothing but reads, and nothing with a denied scope is ever listed. */
  lemma ListingIsSafe(hash: Hash, order: Order, packs: seq<Pack>, filter: CapabilityFilter, f: Finalized)
    requires f in ListCapabilities(order, History(hash, EMPTY, packs), filter)
    ensures filter.max_risk_level == Some(Read) ==> f.descriptor.risk_level == Read
    ensures filter.max_risk_level.Some? && filter.max_risk_level != Some(Destructive) ==>
              f.descriptor.risk_level != Destructive
    ensures filter.denied_scopes.Some? ==>
              forall scope :: scope in f.descriptor.scopes ==> scope !in filter.denied_scopes.value
  {
    hide ListCapabilities, History, Contributes;
    ListedIff(hash, order, packs, filter, f);
  }

  // ---------------------------------------------------------------- resolving

  predicate IsNamed(r: Registered, pack_id: Option<Text>, name: Option<Text>) {
    pack_id == Some(r.descriptor.descriptor.pack_id) && name == Some(r.descriptor.descriptor.name)
  }

  lemma {:induction false} FoundIsFirst(m: JsMap<Text, Registered>, pack_id: Option<Text>, name: Option<Text>)
      returns (i: nat)
    ensures i <= |m|
    ensures forall j :: 0 <= j < i ==> !IsNamed(m[j].value, pack_id, name)
    ensures i < |m| ==> IsNamed(m[i].value, pack_id, name)
    ensures FindNamed(m, pack_id, name) == if i < |m| then Some(m[i].value.descriptor) else None
  {
    i := 0;
    if m != [] && !IsNamed(m[0].value, pack_id, name) {
      i := FoundIsFirst(m[1..], pack_id, name);
      i := i + 1;
    }
  }

  /** A reference without an id resolves to the first registered capability with that pack and that name. */
  lemma NameResolvesToFirst(s: Maps, ref: CapabilityRef, i: nat)
    requires ref.capability_id == None || ref.capability_id == Some([])
    requires i < |s.capabilities|
    requires IsNamed(s.capabilities[i].value, ref.pack_id, ref.name)
    requires forall j :: 0 <= j < i ==> !IsNamed(s.capabilities[j].value, ref.pack_id, ref.name)
    ensures Resolve(s, ref) == Some(s.capabilities[i].value.descriptor)
  {
    var k := FoundIsFirst(s.capabilities, ref.pack_id, ref.name);
  }

  lemma NameResolvesToNothing(s: Maps, ref: CapabilityRef)
    requires ref.capability_id == None || ref.capability_id == Some([])
    requires forall r :: r in Values(s.capabilities) ==> !IsNamed(r, ref.pack_id, ref.name)
    ensures Resolve(s, ref) == None
  {
    hide IsNamed;
    assert forall k :: 0 <= k < |s.capabilities| ==> Values(s.capabilities)[k] == s.capabilities[k].value;
    var k := FoundIsFirst(s.capabilities, ref.pack_id, ref.name);
  }

  /** In a good state, looking up an id finds the entry of the descriptor that has it. */
  lemma IdIsLookedUp(hash: Hash, s: Maps, id: Text, f: Finalized)
    requires Inv(hash, s)
    ensures Get(s.capabilities, id).Some? && Get(s.capabilities, id).value.descriptor == f
       <==> f.descriptor.capability_id == id && exists pack :: Registered(pack, f) in Values(s.capabilities)
  {
    hide CapabilityDigest, Get, Values, EntryFits;
    forall k | 0 <= k < |s.capabilities|
      ensures s.capabilities[k].key == s.capabilities[k].value.descriptor.descriptor.capability_id
    {
      KeyIsId(hash, s, k);
    }
    if Get(s.capabilities, id).Some? && Get(s.capabilities, id).value.descriptor == f {
      var r := Get(s.capabilities, id).value;
      var k :| 0 <= k < |s.capabilities| && s.capabilities[k] == Entry(id, r);
      assert Values(s.capabilities)[k] == r && r == Registered(r.pack, f);
    }
    if f.descriptor.capability_id == id && exists pack :: Registered(pack, f) in Values(s.capabilities) {
      var pack :| Registered(pack, f) in Values(s.capabilities);
      var k :| 0 <= k < |s.capabilities| && Values(s.capabilities)[k] == Registered(pack, f);
      GetIs(s.capabilities, k);
    }
  }

  lemma KeyIsId(hash: Hash, s: Maps, k: nat)
    requires Inv(hash, s) && k < |s.capabilities|
    ensures s.capabilities[k].key == s.capabilities[k].value.descriptor.descriptor.capability_id
  {
    hide CapabilityDigest;
    assert EntryFits(hash, s, s.capabilities[k]);
  }

  /** A reference with an id looks at nothing else: it resolves to the registered descriptor of that id, if any. */
  lemma IdResolvesIff(hash: Hash, packs: seq<Pack>, ref: CapabilityRef, f: Finalized)
    requires ref.capability_id.Some? && ref.capability_id.value != []
    ensures Resolve(History(hash, EMPTY, packs), ref) == Some(f)
       <==> f.descriptor.capability_id == ref.capability_id.value
            && exists i: nat :: i < |packs| && Contributes(hash, packs, i, f)
  {
    hide History, Contributes, CapabilityDigest, Get, Values, Inv;
    var s := History(hash, EMPTY, packs);
    EmptyIsGood(hash);
    HistoryKeepsInv(hash, EMPTY, packs);
    IdIsLookedUp(hash, s, ref.capability_id.value, f);
    forall i: nat | i < |packs| && Contributes(hash, packs, i, f)
      ensures Registered(packs[i], f) in Values(s.capabilities)
    {
      RegisteredIff(hash, packs, Registered(packs[i], f));
    }
    forall pack | Registered(pack, f) in Values(s.capabilities)
      ensures exists i: nat :: i < |packs| && Contributes(hash, packs, i, f)
    {
      RegisteredIff(hash, packs, Registered(pack, f));
    }
  }

  // ---------------------------------------------------------------- refusals

  /** The schema's demands, the pack's own id, and an id that is not taken. */
  predicate IsAcceptable(s: Maps, pack: Pack, d: Descriptor) {
    MeetsSchema(d) && d.pack_id == pack.pack_id && !Has(s.capabilities, d.capability_id)
  }

  predicate MeetsSchema(d: Descriptor) {
    |d.capability_id| > 0 && |d.pack_id| > 0 && |d.name| > 0 && d.timeout_ms > 0 && d.max_attempts > 0
  }

  lemma {:induction false} PrepareRefuses(hash: Hash, s: Maps, pack: Pack, definitions: seq<Descriptor>, i: nat)
    requires i < |definitions| && !IsAcceptable(s, pack, definitions[i])
    requires forall j :: 0 <= j < i ==> IsAcceptable(s, pack, definitions[j])
    ensures var d := definitions[i];
            Prepare(hash, s, pack, definitions)
            == Err(if !MeetsSchema(d) then SchemaRejected
                   else if d.pack_id != pack.pack_id then PackIdMismatch(d.capability_id)
                   else DuplicateCapabilityId(d.capability_id))
  {
    hide CapabilityDigest;
    if i > 0 {
      assert IsAcceptable(s, pack, definitions[0]);
      PrepareRefuses(hash, s, pack, definitions[1..], i - 1);
    }
  }

  /**
   Why a pack is refused: its manifest, then its id, then its first definition that is not acceptable, which
   fails the schema, or names another pack, or has an id that is taken, in this order.
   */
  lemma RefusalIs(hash: Hash, s: Maps, pack: Pack)
    ensures !pack.manifest_valid ==> Register(hash, s, pack) == Err(InvalidManifest)
    ensures pack.manifest_valid && Has(s.packs, pack.pack_id) ==>
              Register(hash, s, pack) == Err(DuplicatePackId(pack.pack_id))
    ensures pack.manifest_valid && !Has(s.packs, pack.pack_id) ==>
              forall i :: (0 <= i < |pack.capabilities| && !IsAcceptable(s, pack, pack.capabilities[i])
                           && forall j :: 0 <= j < i ==> IsAcceptable(s, pack, pack.capabilities[j])) ==>
                var d := pack.capabilities[i];
                Register(hash, s, pack)
                == Err(if !MeetsSchema(d) then SchemaRejected
                       else if d.pack_id != pack.pack_id then PackIdMismatch(d.capability_id)
                       else DuplicateCapabilityId(d.capability_id))
  {
    hide Prepare, IsAcceptable;
    forall i | 0 <= i < |pack.capabilities| && !IsAcceptable(s, pack, pack.capabilities[i])
               && forall j :: 0 <= j < i ==> IsAcceptable(s, pack, pack.capabilities[j])
      ensures var d := pack.capabilities[i];
              Prepare(hash, s, pack, pack.capabilities)
              == Err(if !MeetsSchema(d) then SchemaRejected
                     else if d.pack_id != pack.pack_id then PackIdMismatch(d.capability_id)
                     else DuplicateCapabilityId(d.capability_id))
    {
      PrepareRefuses(hash, s, pack, pack.capabilities, i);
    }
  }

  // ---------------------------------------------------------------- snapshots

  function SixteenFields(f: Finalized): (fields: seq<Field>)
    ensures |fields| == 16
  {
    ToFields(f.descriptor) + [Field(Ascii("capability_digest"), Str(f.capability_digest))]
  }

  lemma SixteenKeys(f: Finalized)
    ensures forall i, j :: 0 <= i < j < 16 ==> SixteenFields(f)[i].key != SixteenFields(f)[j].key
  {
    KeysAreDistinct();
    assert forall i :: 0 <= i < 15 ==> Signature(KEYS[i]) != Signature(Ascii("capability_digest"));
    assert forall i :: 0 <= i < 15 ==> SixteenFields(f)[i].key == KEYS[i];
    hide FieldValues;
  }

  lemma FinalizedEquiv(f: Finalized, g: Finalized)
    ensures Equiv(FinalizedJson(f), FinalizedJson(g))
       <==> Equiv(Obj(ToFields(f.descriptor)), Obj(ToFields(g.descriptor)))
            && f.capability_digest == g.capability_digest
  {
    hide Equiv, ToFields, FieldValues, KEYS;
    var a, b := ToFields(f.descriptor), ToFields(g.descriptor);
    SixteenKeys(f);
    SixteenKeys(g);
    SameKeys(f.descriptor, g.descriptor);
    StrsEquiv(f.capability_digest, g.capability_digest);
    var x := Field(Ascii("capability_digest"), Str(f.capability_digest));
    var y := Field(Ascii("capability_digest"), Str(g.capability_digest));
    assert |a| == 15 && SixteenFields(f) == a + [x] && SixteenFields(g) == b + [y];
    forall i, j | 0 <= i < j < |a| + 1 ensures (a + [x])[i].key != (a + [x])[j].key {
      assert SixteenFields(f)[i].key != SixteenFields(f)[j].key;
    }
    OneMoreFieldEquiv(a, b, x, y);
  }

  /** One more field at the end has to be equal too. */
  lemma OneMoreFieldEquiv(a: seq<Field>, b: seq<Field>, x: Field, y: Field)
    requires |a| == |b| && x.key == y.key && forall i :: 0 <= i < |a| ==> a[i].key == b[i].key
    requires forall i, j :: 0 <= i < j < |a| + 1 ==> (a + [x])[i].key != (a + [x])[j].key
    ensures Equiv(Obj(a + [x]), Obj(b + [y])) <==> Equiv(Obj(a), Obj(b)) && Equiv(x.value, y.value)
  {
    hide Equiv;
    var p, q := a + [x], b + [y];
    assert forall i :: 0 <= i < |a| ==> p[i] == a[i] && q[i] == b[i];
    assert p[|a|] == x && q[|a|] == y;
    SameKeysEquiv(p, q);
    SameKeysEquiv(a, b);
  }

  lemma SameKeys(d: Descriptor, e: Descriptor)
    ensures |KEYS| == 15 && forall i :: 0 <= i < 15 ==> ToFields(d)[i].key == ToFields(e)[i].key == KEYS[i]
  {
    hide FieldValues;
  }

  lemma FinalizedIsJson(f: Finalized)
    requires CarriesJson(f.descriptor)
    ensures IsJson(FinalizedJson(f))
  {
    hide FieldValues, ToFields;
    SixteenKeys(f);
    DescriptorIsJson(f.descriptor);
    var a, all := ToFields(f.descriptor), SixteenFields(f);
    assert forall i :: 0 <= i < 15 ==> IsJson(a[i].value) && all[i] == a[i];
    assert all[15].value == Str(f.capability_digest) && IsJson(all[15].value);
    assert KeysDistinct(all) && FinalizedJson(f) == Obj(all);
  }

  function ListJson(list: seq<Finalized>): Json {
    Arr(seq(|list|, i requires 0 <= i < |list| => FinalizedJson(list[i])))
  }

  /** Descriptors that agree on their fifteen fields and their digest. */
  ghost predicate SameList(a: seq<Finalized>, b: seq<Finalized>) {
    && |a| == |b|
    && forall i :: 0 <= i < |a| ==>
         Agree(a[i].descriptor, b[i].descriptor) && a[i].capability_digest == b[i].capability_digest
  }

  lemma ListEquiv(a: seq<Finalized>, b: seq<Finalized>)
    ensures Equiv(ListJson(a), ListJson(b)) <==> SameList(a, b)
  {
    hide Equiv, FinalizedJson, Agree, ToFields;
    ArraysEquiv(ListJson(a).items, ListJson(b).items);
    assert forall i :: 0 <= i < |a| ==> ListJson(a).items[i] == FinalizedJson(a[i]);
    assert forall i :: 0 <= i < |b| ==> ListJson(b).items[i] == FinalizedJson(b[i]);
    forall f: Finalized, g: Finalized
      ensures Equiv(FinalizedJson(f), FinalizedJson(g)) <==>
              Agree(f.descriptor, g.descriptor) && f.capability_digest == g.capability_digest
    {
      FinalizedEquiv(f, g);
      AgreeIffEquiv(f.descriptor, g.descriptor);
    }
  }

  lemma ListIsJson(list: seq<Finalized>)
    requires forall f :: f in list ==> CarriesJson(f.descriptor)
    ensures IsJson(ListJson(list))
  {
    hide FinalizedJson, CarriesJson;
    forall i | 0 <= i < |list| ensures IsJson(FinalizedJson(list[i])) {
      FinalizedIsJson(list[i]);
    }
  }

  /** With a collision-free hash, a snapshot's hash is that of its list: equal exactly for lists that agree. */
  lemma SnapshotHashPinsList(hash: Hash, order: Order, s: Maps, t: Maps, filter: CapabilityFilter,
                             other: CapabilityFilter, now: Text, later: Text)
    requires Injective(hash)
    requires forall f :: f in ListCapabilities(order, s, filter) ==> CarriesJson(f.descriptor)
    requires forall f :: f in ListCapabilities(order, t, other) ==> CarriesJson(f.descriptor)
    ensures var a, b := CreateSnapshot(hash, order, s, filter, now), CreateSnapshot(hash, order, t, other, later);
            && a.capabilities == ListCapabilities(order, s, filter)
            && (a.capabilities_hash == b.capabilities_hash <==> SameList(a.capabilities, b.capabilities))
  {
    hide Stringify, ListCapabilities, Equiv, IsJson, FinalizedJson, CarriesJson, SameList;
    var a, b := ListCapabilities(order, s, filter), ListCapabilities(order, t, other);
    ListIsJson(a);
    ListIsJson(b);
    ListEquiv(a, b);
    SameTextIffSameValue(ListJson(a), ListJson(b));
    assert ListJson(a) == Arr(seq(|a|, i requires 0 <= i < |a| => FinalizedJson(a[i])));
    assert ListJson(b) == Arr(seq(|b|, i requires 0 <= i < |b| => FinalizedJson(b[i])));
  }

  /** The id of a snapshot: a prefix and the first 24 units of the hash of the list's hash and the time. */
  lemma SnapshotIdIs(hash: Hash, order: Order, s: Maps, filter: CapabilityFilter, now: Text)
    ensures var shot := CreateSnapshot(hash, order, s, filter, now);
            var id := hash(Ascii("{") + Members([Field(Ascii("capabilities_hash"), Str(shot.capabilities_hash)),
                                                 Field(Ascii("now"), Str(now))]) + Ascii("}"));
            shot.snapshot_id == Ascii("caps_") + if |id| <= 24 then id else id[..24]
  {
    hide Stringify, ListCapabilities, Members, FinalizedJson;
    var shot := CreateSnapshot(hash, order, s, filter, now);
    var fields := [Field(Ascii("capabilities_hash"), Str(shot.capabilities_hash)), Field(Ascii("now"), Str(now))];
    assert FirstDifference(Ascii("capabilities_hash"), Ascii("now"), 0);
    assert fields[0].key[0] != fields[1].key[0];
    ObjectIsWritten(fields, fields);
  }
}
