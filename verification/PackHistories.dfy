/**
 Whole histories of a pack registry: its two maps agree after any of them, a later registration
 never changes an earlier resolution, and the order of registrations is invisible in listings.
 */
module PackHistories {
  import opened Wrappers
  import opened Sequences
  import opened CanonicalJson
  import opened Descriptors
  import opened StableSort
  import opened JsMap
  import opened PackRegistry

  // ---------------------------------------------------------------- the two maps agree

  /** A capability entry: under its own id, with its own digest, from a pack that is registered. */
  ghost predicate EntryFits(hash: Hash, s: Maps, e: Entry<Text, Registered>) {
    var f := e.value.descriptor;
    && e.key == f.descriptor.capability_id
    && Get(s.packs, f.descriptor.pack_id) == Some(e.value.pack)
    && f.capability_digest == CapabilityDigest(hash, f.descriptor)
  }

  ghost predicate Inv(hash: Hash, s: Maps) {
    && Wf(s.packs)
    && Wf(s.capabilities)
    && (forall i :: 0 <= i < |s.packs| ==> s.packs[i].key == s.packs[i].value.pack_id)
    && (forall i :: 0 <= i < |s.capabilities| ==> EntryFits(hash, s, s.capabilities[i]))
  }

  /** A pack that passes every check that does not look at the registry. */
  predicate Sound(pack: Pack) {
    pack.manifest_valid && forall d | d in pack.capabilities :: IsWellFormed(d) && d.pack_id == pack.pack_id
  }

  function Items(hash: Hash, pack: Pack, definitions: seq<Descriptor>): JsMap<Text, Registered> {
    if definitions == [] then []
    else
      var d := definitions[0];
      [Entry(d.capability_id, Registered(pack, Finalized(d, CapabilityDigest(hash, d))))]
      + Items(hash, pack, definitions[1..])
  }

  /** What a pack contributes: of definitions that repeat an id, the last one, without complaint. */
  function Own(hash: Hash, pack: Pack): JsMap<Text, Registered> {
    PutAll([], Items(hash, pack, pack.capabilities))
  }

  predicate Defines(pack: Pack, id: Text) {
    exists d | d in pack.capabilities :: d.capability_id == id
  }

  lemma {:induction false} PrepareIff(hash: Hash, s: Maps, pack: Pack, definitions: seq<Descriptor>)
    ensures Prepare(hash, s, pack, definitions).Ok?
       <==> forall d :: d in definitions ==>
              IsWellFormed(d) && d.pack_id == pack.pack_id && !Has(s.capabilities, d.capability_id)
    ensures Prepare(hash, s, pack, definitions).Ok?
        ==> Prepare(hash, s, pack, definitions).value == Items(hash, pack, definitions)
  {
    if definitions != [] {
      PrepareIff(hash, s, pack, definitions[1..]);
      assert definitions == [definitions[0]] + definitions[1..];
    }
  }

  lemma {:induction false} ItemsKeys(hash: Hash, pack: Pack, definitions: seq<Descriptor>)
    ensures forall e :: e in Items(hash, pack, definitions) ==>
              && e.value.pack == pack && e.value.descriptor.descriptor in definitions
              && e.key == e.value.descriptor.descriptor.capability_id
              && e.value.descriptor.capability_digest == CapabilityDigest(hash, e.value.descriptor.descriptor)
    ensures forall d :: d in definitions ==> Has(Items(hash, pack, definitions), d.capability_id)
  {
    hide CapabilityDigest;
    if definitions != [] {
      var items, rest := Items(hash, pack, definitions), Items(hash, pack, definitions[1..]);
      ItemsKeys(hash, pack, definitions[1..]);
      assert definitions == [definitions[0]] + definitions[1..];
      assert items[0].key == definitions[0].capability_id;
      assert forall i :: 0 <= i < |rest| ==> items[i + 1] == rest[i];
    }
  }

  /** Registration succeeds exactly for a sound pack whose id and capability ids are all new. */
  lemma RegisterIff(hash: Hash, s: Maps, pack: Pack)
    ensures Register(hash, s, pack).Ok?
       <==> && Sound(pack) && !Has(s.packs, pack.pack_id)
            && forall d :: d in pack.capabilities ==> !Has(s.capabilities, d.capability_id)
    ensures Register(hash, s, pack).Ok? ==>
              Register(hash, s, pack).value
              == Maps(s.packs + [Entry(pack.pack_id, pack)], s.capabilities + Own(hash, pack))
  {
    PrepareIff(hash, s, pack, pack.capabilities);
    PutEffect(s.packs, pack.pack_id, pack);
    if Register(hash, s, pack).Ok? {
      var items := Items(hash, pack, pack.capabilities);
      ItemsKeys(hash, pack, pack.capabilities);
      PutAllInSecond(s.capabilities, [], items);
      assert s.capabilities + [] == s.capabilities;
    }
  }

  lemma OwnEntries(hash: Hash, pack: Pack)
    ensures Wf(Own(hash, pack))
    ensures forall e :: e in Own(hash, pack) ==> e in Items(hash, pack, pack.capabilities)
    ensures forall id :: Has(Own(hash, pack), id) <==> Defines(pack, id)
  {
    hide PutAll, Items, CapabilityDigest;
    var items := Items(hash, pack, pack.capabilities);
    ItemsKeys(hash, pack, pack.capabilities);
    PutAllKeepsWf<Text, Registered>([], items);
    PutAllEntries<Text, Registered>([], items);
    forall id ensures Has(Own(hash, pack), id) <==> Defines(pack, id) {
      if Defines(pack, id) {
        var d :| d in pack.capabilities && d.capability_id == id;
        assert Has(items, d.capability_id);
      }
      if Has(Own(hash, pack), id) {
        var i :| 0 <= i < |Own(hash, pack)| && Own(hash, pack)[i].key == id;
        assert Own(hash, pack)[i] in items;
      }
    }
  }

  /** Entries of a new pack, all of it and only new ones. */
  ghost predicate FromPack(hash: Hash, pack: Pack, own: JsMap<Text, Registered>) {
    forall e :: e in own ==>
      && e.value.pack == pack
      && e.key == e.value.descriptor.descriptor.capability_id
      && e.value.descriptor.descriptor.pack_id == pack.pack_id
      && e.value.descriptor.capability_digest == CapabilityDigest(hash, e.value.descriptor.descriptor)
  }

  lemma OwnIsFromPack(hash: Hash, pack: Pack)
    requires Sound(pack)
    ensures FromPack(hash, pack, Own(hash, pack))
  {
    hide Own, CapabilityDigest, Items, IsWellFormed;
    OwnEntries(hash, pack);
    ItemsKeys(hash, pack, pack.capabilities);
  }

  lemma ExtendKeepsInv(hash: Hash, s: Maps, pack: Pack, own: JsMap<Text, Registered>)
    requires Inv(hash, s) && !Has(s.packs, pack.pack_id) && Wf(own) && FromPack(hash, pack, own)
    requires forall e :: e in own ==> !Has(s.capabilities, e.key)
    ensures Inv(hash, Maps(s.packs + [Entry(pack.pack_id, pack)], s.capabilities + own))
  {
    hide CapabilityDigest, Get;
    var s' := Maps(s.packs + [Entry(pack.pack_id, pack)], s.capabilities + own);
    AppendKeepsWf(s.capabilities, own);
    AppendKeepsWf(s.packs, [Entry(pack.pack_id, pack)]);
    NewIsFound(pack);
    hide Wf;
    forall i | 0 <= i < |s'.capabilities| ensures EntryFits(hash, s', s'.capabilities[i]) {
      var e := s'.capabilities[i];
      if i < |s.capabilities| {
        assert EntryFits(hash, s, s.capabilities[i]);
        GetInFirst(s.packs, [Entry(pack.pack_id, pack)], e.value.descriptor.descriptor.pack_id);
      } else {
        assert e == own[i - |s.capabilities|];
        GetInSecond(s.packs, [Entry(pack.pack_id, pack)], pack.pack_id);
      }
    }
  }

  lemma NewIsFound(pack: Pack)
    ensures Get([Entry(pack.pack_id, pack)], pack.pack_id) == Some(pack)
  {
  }

  lemma AttemptKeepsInv(hash: Hash, s: Maps, pack: Pack)
    requires Inv(hash, s)
    ensures Inv(hash, Attempt(hash, s, pack))
  {
    hide CapabilityDigest, Register, Inv, Own, Sound, FromPack, Has;
    RegisterIff(hash, s, pack);
    if Register(hash, s, pack).Ok? {
      OwnEntries(hash, pack);
      OwnIsFromPack(hash, pack);
      OwnIsNew(hash, s, pack);
      ExtendKeepsInv(hash, s, pack, Own(hash, pack));
    }
  }

  lemma OwnIsNew(hash: Hash, s: Maps, pack: Pack)
    requires forall d :: d in pack.capabilities ==> !Has(s.capabilities, d.capability_id)
    ensures forall e :: e in Own(hash, pack) ==> !Has(s.capabilities, e.key)
  {
    hide Own, Items, CapabilityDigest, Has;
    OwnEntries(hash, pack);
    ItemsKeys(hash, pack, pack.capabilities);
  }

  /** From the empty registry, after any sequence of attempts, the two maps agree. */
  lemma {:induction false} HistoryKeepsInv(hash: Hash, s: Maps, packs: seq<Pack>)
    requires Inv(hash, s)
    ensures Inv(hash, History(hash, s, packs))
    decreases |packs|
  {
    if packs != [] {
      AttemptKeepsInv(hash, s, packs[0]);
      HistoryKeepsInv(hash, Attempt(hash, s, packs[0]), packs[1..]);
    }
  }

  // ---------------------------------------------------------------- repeated ids in one pack

  function LastDefinition(definitions: seq<Descriptor>, id: Text): Option<Descriptor> {
    if definitions == [] then None
    else
      var later := LastDefinition(definitions[1..], id);
      if later.Some? then later else if definitions[0].capability_id == id then Some(definitions[0]) else None
  }

  lemma {:induction false} LastItem(hash: Hash, pack: Pack, definitions: seq<Descriptor>, id: Text)
    ensures LastFor(Items(hash, pack, definitions), id)
         == match LastDefinition(definitions, id)
            case None => None
            case Some(d) => Some(Registered(pack, Finalized(d, CapabilityDigest(hash, d))))
  {
    hide CapabilityDigest, LastFor;
    if definitions == [] {
      LastForNone<Registered>(id);
    } else {
      LastItem(hash, pack, definitions[1..], id);
      LastForCons(Items(hash, pack, definitions)[0], Items(hash, pack, definitions[1..]), id);
    }
  }

  lemma LastForNone<V>(id: Text)
    ensures LastFor<Text, V>([], id) == None
  {
  }

  /** `registerPack` does not look for repeated ids inside a pack: an id resolves to its last definition there. */
  lemma LastDefinitionWins(hash: Hash, s: Maps, pack: Pack, d: Descriptor)
    requires Inv(hash, s) && Register(hash, s, pack).Ok? && d in pack.capabilities && d.capability_id != []
    ensures var s', ref := Register(hash, s, pack).value, CapabilityRef(Some(d.capability_id), None, None);
            (LastDefinition(pack.capabilities, d.capability_id).Some?
            && var last := LastDefinition(pack.capabilities, d.capability_id).value;
               Resolve(s', ref) == Some(Finalized(last, CapabilityDigest(hash, last))))
  {
    hide CapabilityDigest, Items, PutAll, Register, Get, LastFor, Has, LastDefinition, Inv;
    var own, id := Own(hash, pack), d.capability_id;
    RegisterIff(hash, s, pack);
    AttemptKeepsInv(hash, s, pack);
    InvIsWf(hash, Attempt(hash, s, pack));
    OwnEntries(hash, pack);
    LastItem(hash, pack, pack.capabilities, id);
    EmptyIsWf();
    GetAfterPutAll<Text, Registered>([], Items(hash, pack, pack.capabilities), id);
    assert Defines(pack, id);
    GetInSecond(s.capabilities, own, id);
    NothingThere(id);
  }

  lemma InvIsWf(hash: Hash, s: Maps)
    requires Inv(hash, s)
    ensures Wf(s.capabilities)
  {
  }

  lemma EmptyIsWf()
    ensures Wf<Text, Registered>([])
  {
  }

  lemma NothingThere(id: Text)
    ensures Get<Text, Registered>([], id) == None
  {
  }

  /** So every definition of a pack resolves to itself exactly when no later one of the pack redefines its id. */
  lemma DefinitionResolvesIff(hash: Hash, s: Maps, pack: Pack, d: Descriptor)
    requires Inv(hash, s) && Register(hash, s, pack).Ok? && d in pack.capabilities && d.capability_id != []
    ensures var r := Resolve(Register(hash, s, pack).value, CapabilityRef(Some(d.capability_id), None, None));
            (r.Some? && r.value.descriptor == d <==> LastDefinition(pack.capabilities, d.capability_id) == Some(d))
  {
    hide Register, Resolve, LastDefinition, Inv;
    LastDefinitionWins(hash, s, pack, d);
  }

  // ---------------------------------------------------------------- resolutions stay

  lemma {:induction false} FindNamedStays(m: JsMap<Text, Registered>, more: JsMap<Text, Registered>,
                                          pack_id: Option<Text>, name: Option<Text>)
    requires FindNamed(m, pack_id, name).Some?
    ensures FindNamed(m + more, pack_id, name) == FindNamed(m, pack_id, name)
  {
    assert (m + more)[1..] == m[1..] + more;
    if FindNamed(m[1..], pack_id, name).Some? {
      FindNamedStays(m[1..], more, pack_id, name);
    }
  }

  lemma AttemptAppends(hash: Hash, s: Maps, pack: Pack)
    ensures s.capabilities <= Attempt(hash, s, pack).capabilities && s.packs <= Attempt(hash, s, pack).packs
  {
    RegisterIff(hash, s, pack);
  }

  /** Whatever is registered later, by id or by pack and name, an earlier resolution stays. */
  lemma {:induction false} ResolutionStays(hash: Hash, s: Maps, packs: seq<Pack>, ref: CapabilityRef)
    requires Inv(hash, s) && Resolve(s, ref).Some?
    ensures Resolve(History(hash, s, packs), ref) == Resolve(s, ref)
    decreases |packs|
  {
    hide Inv, Attempt, Resolve;
    if packs != [] {
      var s' := Attempt(hash, s, packs[0]);
      AttemptKeepsInv(hash, s, packs[0]);
      AttemptAppends(hash, s, packs[0]);
      MoreCapabilities(hash, s, s', ref);
      ResolutionStays(hash, s', packs[1..], ref);
    }
  }

  lemma MoreCapabilities(hash: Hash, s: Maps, t: Maps, ref: CapabilityRef)
    requires Inv(hash, t) && s.capabilities <= t.capabilities && Resolve(s, ref).Some?
    ensures Resolve(t, ref) == Resolve(s, ref)
  {
    hide Get, FindNamed, EntryFits;
    var more := t.capabilities[|s.capabilities|..];
    assert t.capabilities == s.capabilities + more;
    if ref.capability_id.Some? && ref.capability_id.value != [] {
      GetInFirst(s.capabilities, more, ref.capability_id.value);
    } else {
      FindNamedStays(s.capabilities, more, ref.pack_id, ref.name);
    }
  }

  /** A digest that verifies pins the resolved descriptor on all fifteen fields. */
  lemma VerifiedDigestPins(hash: Hash, packs: seq<Pack>, ref: CapabilityRef, d: Descriptor)
    requires Injective(hash) && CarriesJson(d)
    requires var r := Resolve(History(hash, EMPTY, packs), ref); r.Some? ==> CarriesJson(r.value.descriptor)
    ensures var s := History(hash, EMPTY, packs);
            VerifyDigest(s, ref, CapabilityDigest(hash, d)) <==>
              Resolve(s, ref).Some? && Agree(Resolve(s, ref).value.descriptor, d)
  {
    hide CapabilityDigest, Agree, CarriesJson;
    var s := History(hash, EMPTY, packs);
    HistoryKeepsInv(hash, EMPTY, packs);
    if Resolve(s, ref).Some? {
      ResolvedFits(hash, s, ref);
      SameDigestIffAgree(hash, Resolve(s, ref).value.descriptor, d);
    }
  }

  lemma ResolvedFits(hash: Hash, s: Maps, ref: CapabilityRef)
    requires Inv(hash, s) && Resolve(s, ref).Some?
    ensures var f := Resolve(s, ref).value; f.capability_digest == CapabilityDigest(hash, f.descriptor)
  {
    hide CapabilityDigest;
    if ref.capability_id.Some? && ref.capability_id.value != [] {
      var r := Get(s.capabilities, ref.capability_id.value);
    } else {
      var i := NamedAt(s.capabilities, ref.pack_id, ref.name);
      assert EntryFits(hash, s, s.capabilities[i]);
    }
  }

  lemma {:induction false} NamedAt(m: JsMap<Text, Registered>, pack_id: Option<Text>, name: Option<Text>)
    returns (i: nat)
    requires FindNamed(m, pack_id, name).Some?
    ensures i < |m| && FindNamed(m, pack_id, name) == Some(m[i].value.descriptor)
  {
    i := 0;
    if FindNamed(m[1..], pack_id, name) == FindNamed(m, pack_id, name) {
      i := NamedAt(m[1..], pack_id, name);
      i := i + 1;
    }
  }

  // ---------------------------------------------------------------- the order of registration

  /** Registering every pack in turn, if all succeed. */
  function RegisterAll(hash: Hash, packs: seq<Pack>): Option<Maps> {
    if packs == [] then Some(EMPTY)
    else
      var before := RegisterAll(hash, packs[..|packs| - 1]);
      if before.None? then None
      else
        var r := Register(hash, before.value, packs[|packs| - 1]);
        if r.Ok? then Some(r.value) else None
  }

  /** Two packs that share neither their id nor a capability id. */
  predicate Apart(p: Pack, q: Pack) {
    p.pack_id != q.pack_id && forall d | d in q.capabilities :: !Defines(p, d.capability_id)
  }

  lemma ApartIsSymmetric(p: Pack, q: Pack)
    ensures Apart(p, q) <==> Apart(q, p)
  {
  }

  ghost predicate Together(packs: seq<Pack>) {
    && (forall p :: p in packs ==> Sound(p))
    && forall i, j :: 0 <= i < j < |packs| ==> Apart(packs[i], packs[j])
  }

  /** The registry holds exactly what the packs contribute. */
  ghost predicate Filled(hash: Hash, s: Maps, packs: seq<Pack>) {
    Inv(hash, s) && PacksFilled(s, packs) && CapabilitiesFilled(hash, s, packs)
  }

  ghost predicate PacksFilled(s: Maps, packs: seq<Pack>) {
    && (forall id :: Has(s.packs, id) <==> exists p :: p in packs && p.pack_id == id)
    && (forall p :: p in packs ==> Get(s.packs, p.pack_id) == Some(p))
  }

  ghost predicate CapabilitiesFilled(hash: Hash, s: Maps, packs: seq<Pack>) {
    && (forall e :: e in s.capabilities <==> exists p :: p in packs && e in Own(hash, p))
    && (forall id :: Has(s.capabilities, id) <==> exists p :: p in packs && Defines(p, id))
  }

  lemma RegisterFillsPacks(hash: Hash, s: Maps, packs: seq<Pack>, last: Pack)
    requires Filled(hash, s, packs) && Register(hash, s, last).Ok?
    ensures PacksFilled(Register(hash, s, last).value, packs + [last])
  {
    hide Sound, Own, CapabilityDigest, CapabilitiesFilled, PacksFilled, Register, Has, Wf;
    RegisterIff(hash, s, last);
    AttemptKeepsInv(hash, s, last);
    PacksGrow(s, Register(hash, s, last).value, packs, last);
  }

  lemma PacksGrow(s: Maps, t: Maps, packs: seq<Pack>, last: Pack)
    requires PacksFilled(s, packs) && Wf(t.packs) && t.packs == s.packs + [Entry(last.pack_id, last)]
    ensures PacksFilled(t, packs + [last])
  {
    hide Get, Wf;
    var all, one := packs + [last], [Entry(last.pack_id, last)];
    NewIsFound(last);
    assert forall p :: p in all <==> p in packs || p == last;
    forall id ensures Has(t.packs, id) <==> exists p :: p in all && p.pack_id == id {
      Keyless(s.packs, one, id);
      assert Has(one, id) <==> id == last.pack_id by { assert one[0].key == last.pack_id; }
    }
    forall p | p in all ensures Get(t.packs, p.pack_id) == Some(p) {
      if p in packs {
        GetInFirst(s.packs, one, p.pack_id);
      } else {
        GetInSecond(s.packs, one, p.pack_id);
      }
    }
  }

  lemma RegisterFills(hash: Hash, s: Maps, packs: seq<Pack>, last: Pack)
    requires Filled(hash, s, packs) && Register(hash, s, last).Ok?
    ensures Filled(hash, Register(hash, s, last).value, packs + [last])
  {
    hide Sound, Own, CapabilityDigest, PacksFilled, Register, Inv, Has;
    var s' := Register(hash, s, last).value;
    RegisterIff(hash, s, last);
    AttemptKeepsInv(hash, s, last);
    RegisterFillsPacks(hash, s, packs, last);
    OwnEntries(hash, last);
    var all := packs + [last];
    assert forall p :: p in all <==> p in packs || p == last;
    forall id ensures Has(s'.capabilities, id) <==> exists p :: p in all && Defines(p, id) {
      Keyless(s.capabilities, Own(hash, last), id);
    }
    assert forall e :: e in s'.capabilities <==> e in s.capabilities || e in Own(hash, last);
  }

  /** All registrations succeed exactly for sound packs that are pairwise apart, whatever their order. */
  lemma {:induction false} AllSucceedIff(hash: Hash, packs: seq<Pack>)
    ensures RegisterAll(hash, packs).Some? <==> Together(packs)
    ensures RegisterAll(hash, packs).Some? ==> Filled(hash, RegisterAll(hash, packs).value, packs)
    decreases |packs|
  {
    hide Sound, Own, Apart;
    if packs != [] {
      var init, last := packs[..|packs| - 1], packs[|packs| - 1];
      assert packs == init + [last];
      AllSucceedIff(hash, init);
      TogetherSnoc(init, last);
      if RegisterAll(hash, init).Some? {
        var s := RegisterAll(hash, init).value;
        LastSucceedsIff(hash, s, init, last);
        if Register(hash, s, last).Ok? {
          RegisterFills(hash, s, init, last);
        }
      }
    }
  }

  lemma TogetherSnoc(init: seq<Pack>, last: Pack)
    ensures Together(init + [last]) <==> Together(init) && Sound(last) && forall p :: p in init ==> Apart(p, last)
  {
    hide Sound, Apart;
    var all := init + [last];
    assert all[|init|] == last;
    if Together(all) {
      assert forall i :: 0 <= i < |init| ==> all[i] == init[i] && Apart(all[i], all[|init|]);
    }
  }

  lemma LastSucceedsIff(hash: Hash, s: Maps, packs: seq<Pack>, last: Pack)
    requires Filled(hash, s, packs)
    ensures Register(hash, s, last).Ok? <==> Sound(last) && forall p :: p in packs ==> Apart(p, last)
  {
    hide Sound, Own, Inv, CapabilityDigest;
    RegisterIff(hash, s, last);
  }

  lemma TogetherIsSymmetric(a: seq<Pack>, b: seq<Pack>)
    requires multiset(a) == multiset(b) && Together(a)
    ensures Together(b)
  {
    hide Sound;
    assert forall p :: p in a <==> p in multiset(a);
    assert forall p :: p in b <==> p in multiset(b);
    assert Distinct(a);
    DistinctByMultiset(a, b);
    forall i, j | 0 <= i < j < |b| ensures Apart(b[i], b[j]) {
      assert b[i] in a && b[j] in a;
      var k :| 0 <= k < |a| && a[k] == b[i];
      var l :| 0 <= l < |a| && a[l] == b[j];
      ApartIsSymmetric(b[i], b[j]);
    }
  }

  ghost predicate TotalOrder(order: Order) {
    TotalPreorder(order) && forall x, y :: order(x, y) && order(y, x) ==> x == y
  }

  lemma DescriptorsDistinct(hash: Hash, s: Maps)
    requires Inv(hash, s)
    ensures Distinct(DescriptorsOf(s.capabilities))
    ensures forall f, g ::
              (f in DescriptorsOf(s.capabilities) && g in DescriptorsOf(s.capabilities)
               && f.descriptor.capability_id == g.descriptor.capability_id) ==> f == g
  {
    hide CapabilityDigest;
    assert forall i :: 0 <= i < |s.capabilities| ==> EntryFits(hash, s, s.capabilities[i]);
  }

  lemma SameDescriptors(hash: Hash, s: Maps, t: Maps, packs: seq<Pack>, others: seq<Pack>)
    requires Filled(hash, s, packs) && Filled(hash, t, others) && multiset(packs) == multiset(others)
    ensures forall f :: f in DescriptorsOf(s.capabilities) ==> f in DescriptorsOf(t.capabilities)
    ensures forall f :: f in DescriptorsOf(s.capabilities) ==>
              Get(s.packs, f.descriptor.pack_id) == Get(t.packs, f.descriptor.pack_id)
  {
    hide Own, Inv, CapabilityDigest;
    assert forall p :: p in packs <==> p in multiset(packs);
    assert forall p :: p in others <==> p in multiset(others);
    forall f | f in DescriptorsOf(s.capabilities) ensures f in DescriptorsOf(t.capabilities) {
      var i :| 0 <= i < |s.capabilities| && s.capabilities[i].value.descriptor == f;
      assert s.capabilities[i] in s.capabilities;
      assert s.capabilities[i] in t.capabilities;
      var j :| 0 <= j < |t.capabilities| && t.capabilities[j] == s.capabilities[i];
      assert DescriptorsOf(t.capabilities)[j] == f;
    }
    forall id ensures Get(s.packs, id) == Get(t.packs, id) {
      if Has(s.packs, id) || Has(t.packs, id) {
        var p :| p in packs && p.pack_id == id;
      }
    }
  }

  /** Registered in any order, the same packs give the same listing for every filter, and the same snapshot. */
  lemma OrderIsInvisible(hash: Hash, order: Order, a: seq<Pack>, b: seq<Pack>, filter: CapabilityFilter, now: Text)
    requires TotalOrder(order) && multiset(a) == multiset(b) && RegisterAll(hash, a).Some?
    ensures RegisterAll(hash, b).Some?
    ensures var s, t := RegisterAll(hash, a).value, RegisterAll(hash, b).value;
            && ListCapabilities(order, s, filter) == ListCapabilities(order, t, filter)
            && CreateSnapshot(hash, order, s, filter, now) == CreateSnapshot(hash, order, t, filter, now)
  {
    hide Together, Stringify, MatchesFilter;
    AllSucceedIff(hash, a);
    TogetherIsSymmetric(a, b);
    AllSucceedIff(hash, b);
    var s, t := RegisterAll(hash, a).value, RegisterAll(hash, b).value;
    SameDescriptors(hash, s, t, a, b);
    SameDescriptors(hash, t, s, b, a);
    SameListing(hash, order, s, t, filter);
  }

  lemma SameListing(hash: Hash, order: Order, s: Maps, t: Maps, filter: CapabilityFilter)
    requires TotalOrder(order) && Inv(hash, s) && Inv(hash, t)
    requires forall f :: f in DescriptorsOf(s.capabilities) <==> f in DescriptorsOf(t.capabilities)
    requires forall f :: f in DescriptorsOf(s.capabilities) ==>
               Get(s.packs, f.descriptor.pack_id) == Get(t.packs, f.descriptor.pack_id)
    ensures ListCapabilities(order, s, filter) == ListCapabilities(order, t, filter)
  {
    hide MatchesFilter, DescriptorsOf;
    var keepS := (f: Finalized) => MatchesFilter(f, Get(s.packs, f.descriptor.pack_id), filter);
    var keepT := (f: Finalized) => MatchesFilter(f, Get(t.packs, f.descriptor.pack_id), filter);
    var p, q := Filter(DescriptorsOf(s.capabilities), keepS), Filter(DescriptorsOf(t.capabilities), keepT);
    var below := ById(order);
    DescriptorsDistinct(hash, s);
    DescriptorsDistinct(hash, t);
    FilterKeepsDistinct(DescriptorsOf(s.capabilities), keepS);
    FilterKeepsDistinct(DescriptorsOf(t.capabilities), keepT);
    forall f ensures f in p <==> f in q {
      FilterMembers(DescriptorsOf(s.capabilities), keepS, f);
      FilterMembers(DescriptorsOf(t.capabilities), keepT, f);
    }
    SameMembersSameMultiset(p, q);
    SortPermutes(p, below);
    SortPermutes(q, below);
    SortSorts(p, below);
    SortSorts(q, below);
    forall f, g | f in Sort(p, below) && g in Sort(p, below) && below(f, g) && below(g, f) ensures f == g {
      SortKeepsMembers(p, below, f);
      SortKeepsMembers(p, below, g);
      FilterMembers(DescriptorsOf(s.capabilities), keepS, f);
      FilterMembers(DescriptorsOf(s.capabilities), keepS, g);
    }
    SortedIsUnique(Sort(p, below), Sort(q, below), below);
  }
}
