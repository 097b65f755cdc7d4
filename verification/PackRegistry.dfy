/**
 `PackRegistry` of packages/capability-sdk/src/registry.ts: two maps that must agree, filled by an
 all-or-nothing `registerPack`. Registration is also given as a function of the state, so that
 whole histories can be compared.
 */
module PackRegistry {
  import opened Wrappers
  import opened Sequences
  import opened CanonicalJson
  import opened Descriptors
  import opened StableSort
  import opened JsMap

  type Hash = Text -> Text

  /** `manifest_valid` is what the schema of the manifest answers; `code` stands for the executors. */
  datatype Pack = Pack(pack_id: Text, manifest_valid: bool, trust_level: Text, capabilities: seq<Descriptor>, code: nat)

  datatype Registered = Registered(pack: Pack, descriptor: Finalized)

  datatype RegisterError =
    | InvalidManifest
    | DuplicatePackId(pack_id: Text)
    | SchemaRejected
    | PackIdMismatch(capability_id: Text)
    | DuplicateCapabilityId(capability_id: Text)

  datatype Maps = Maps(packs: JsMap<Text, Pack>, capabilities: JsMap<Text, Registered>)

  /** The checks on one definition, in the source's order. */
  function Examine(hash: Hash, s: Maps, pack: Pack, d: Descriptor): Result<Registered, RegisterError> {
    var finalized := Finalize(hash, d);
    if finalized.None? then Err(SchemaRejected)
    else if d.pack_id != pack.pack_id then Err(PackIdMismatch(d.capability_id))
    else if Has(s.capabilities, d.capability_id) then Err(DuplicateCapabilityId(d.capability_id))
    else Ok(Registered(pack, finalized.value))
  }

  /** Checks every definition against what is registered, before anything is stored. */
  function Prepare(hash: Hash, s: Maps, pack: Pack, definitions: seq<Descriptor>)
    : Result<JsMap<Text, Registered>, RegisterError>
  {
    if definitions == [] then Ok([])
    else
      var first := Examine(hash, s, pack, definitions[0]);
      if first.Err? then Err(first.error)
      else
        var rest := Prepare(hash, s, pack, definitions[1..]);
        if rest.Err? then rest else Ok([Entry(definitions[0].capability_id, first.value)] + rest.value)
  }

  function Register(hash: Hash, s: Maps, pack: Pack): Result<Maps, RegisterError> {
    if !pack.manifest_valid then Err(InvalidManifest)
    else if Has(s.packs, pack.pack_id) then Err(DuplicatePackId(pack.pack_id))
    else
      var items := Prepare(hash, s, pack, pack.capabilities);
      if items.Err? then Err(items.error)
      else Ok(Maps(Put(s.packs, pack.pack_id, pack), PutAll(s.capabilities, items.value)))
  }

  /** An attempt: a failure leaves the registry as it was. */
  function Attempt(hash: Hash, s: Maps, pack: Pack): Maps {
    var r := Register(hash, s, pack);
    if r.Ok? then r.value else s
  }

  function History(hash: Hash, s: Maps, packs: seq<Pack>): Maps
    decreases |packs|
  {
    if packs == [] then s else History(hash, Attempt(hash, s, packs[0]), packs[1..])
  }

  const EMPTY := Maps([], [])

  datatype CapabilityRef = CapabilityRef(capability_id: Option<Text>, pack_id: Option<Text>, name: Option<Text>)

  function FindNamed(capabilities: JsMap<Text, Registered>, pack_id: Option<Text>,
                     name: Option<Text>): Option<Finalized> {
    if capabilities == [] then None
    else
      var d := capabilities[0].value.descriptor;
      if Some(d.descriptor.pack_id) == pack_id && Some(d.descriptor.name) == name then Some(d)
      else FindNamed(capabilities[1..], pack_id, name)
  }

  /** An empty id is falsy and falls back to pack and name. */
  function Resolve(s: Maps, ref: CapabilityRef): Option<Finalized> {
    if ref.capability_id.Some? && ref.capability_id.value != [] then
      var r := Get(s.capabilities, ref.capability_id.value);
      if r.Some? then Some(r.value.descriptor) else None
    else FindNamed(s.capabilities, ref.pack_id, ref.name)
  }

  function VerifyDigest(s: Maps, ref: CapabilityRef, digest: Text): bool {
    var r := Resolve(s, ref);
    r.Some? && r.value.capability_digest == digest
  }

  // ---------------------------------------------------------------- listing

  datatype CapabilityFilter = CapabilityFilter(
    allowed_scopes: Option<seq<Text>>,
    denied_scopes: Option<seq<Text>>,
    allowed_capabilities: Option<seq<Text>>,
    max_risk_level: Option<RiskLevel>,
    trust_levels: Option<seq<Text>>)

  function RiskOrder(r: RiskLevel): nat {
    match r
    case Read => 0
    case Write => 1
    case ExternalSideEffect => 2
    case Destructive => 3
  }

  predicate Overlap(a: seq<Text>, b: seq<Text>) {
    exists x | x in a :: x in b
  }

  /** `matchesFilter`: an empty allow list allows everything, an absent pack has no trust level to test. */
  predicate MatchesFilter(f: Finalized, pack: Option<Pack>, filter: CapabilityFilter) {
    var d := f.descriptor;
    && (filter.trust_levels.Some? && pack.Some? ==> pack.value.trust_level in filter.trust_levels.value)
    && (filter.max_risk_level.Some? ==> RiskOrder(d.risk_level) <= RiskOrder(filter.max_risk_level.value))
    && (filter.allowed_capabilities.Some? && filter.allowed_capabilities.value != [] ==>
          Overlap([d.capability_id, d.name, d.pack_id + Ascii(".") + d.name], filter.allowed_capabilities.value))
    && (filter.allowed_scopes.Some? && filter.allowed_scopes.value != [] ==>
          Overlap(d.scopes, filter.allowed_scopes.value))
    && (filter.denied_scopes.Some? ==> !Overlap(d.scopes, filter.denied_scopes.value))
  }

  function DescriptorsOf(capabilities: JsMap<Text, Registered>): (r: seq<Finalized>)
    ensures |r| == |capabilities|
    ensures forall i :: 0 <= i < |r| ==> r[i] == capabilities[i].value.descriptor
  {
    seq(|capabilities|, i requires 0 <= i < |capabilities| => capabilities[i].value.descriptor)
  }

  type Order = (Text, Text) -> bool

  function ById(order: Order): (Finalized, Finalized) -> bool {
    (f: Finalized, g: Finalized) => order(f.descriptor.capability_id, g.descriptor.capability_id)
  }

  /** `localeCompare` is the parameter `order`. */
  function ListCapabilities(order: Order, s: Maps, filter: CapabilityFilter): seq<Finalized> {
    Sort(Filter(DescriptorsOf(s.capabilities),
                (f: Finalized) => MatchesFilter(f, Get(s.packs, f.descriptor.pack_id), filter)),
         ById(order))
  }

  function FinalizedJson(f: Finalized): Json {
    Obj(ToFields(f.descriptor) + [Field(Ascii("capability_digest"), Str(f.capability_digest))])
  }

  datatype Snapshot = Snapshot(snapshot_id: Text, capabilities_hash: Text, capabilities: seq<Finalized>)

  function CreateSnapshot(hash: Hash, order: Order, s: Maps, filter: CapabilityFilter, now: Text): Snapshot {
    var capabilities := ListCapabilities(order, s, filter);
    var capabilities_hash := hash(Stringify(Arr(
      seq(|capabilities|, i requires 0 <= i < |capabilities| => FinalizedJson(capabilities[i])))));
    var id := hash(Stringify(Obj([
      Field(Ascii("capabilities_hash"), Str(capabilities_hash)), Field(Ascii("now"), Str(now))])));
    Snapshot(Ascii("caps_") + Take(id, 24), capabilities_hash, capabilities)
  }

  class Registry {
    var packs: JsMap<Text, Pack>
    var capabilities: JsMap<Text, Registered>

    function Current(): Maps
      reads this
    {
      Maps(packs, capabilities)
    }

    constructor ()
      ensures Current() == EMPTY
    {
      packs, capabilities := [], [];
    }

    /** The checks of `registerPack`: nothing is stored yet. */
    method Check(hash: Hash, pack: Pack) returns (items: Result<JsMap<Text, Registered>, RegisterError>)
      ensures items == Prepare(hash, Current(), pack, pack.capabilities)
    {
      hide Examine;
      var next: JsMap<Text, Registered> := [];
      ghost var all := Prepare(hash, Current(), pack, pack.capabilities);
      assert pack.capabilities[0..] == pack.capabilities && (all.Ok? ==> next + all.value == all.value);
      var i := 0;
      while i < |pack.capabilities|
        invariant 0 <= i <= |pack.capabilities|
        invariant var rest := Prepare(hash, Current(), pack, pack.capabilities[i..]);
                  all == if rest.Err? then rest else Ok(next + rest.value)
      {
        var d := pack.capabilities[i];
        assert pack.capabilities[i..][1..] == pack.capabilities[i + 1..];
        var checked := Examine(hash, Current(), pack, d);
        if checked.Err? {
          return Err(checked.error);
        }
        ghost var rest := Prepare(hash, Current(), pack, pack.capabilities[i + 1..]);
        if rest.Ok? {
          Reassociate(next, [Entry(d.capability_id, checked.value)], rest.value);
        }
        next := next + [Entry(d.capability_id, checked.value)];
        i := i + 1;
      }
      assert next + [] == next;
      items := Ok(next);
    }

    /** All or nothing: `error` says why nothing was stored. */
    method RegisterPack(hash: Hash, pack: Pack) returns (error: Option<RegisterError>)
      modifies this
      ensures error.Some? ==> Current() == old(Current()) && Register(hash, old(Current()), pack) == Err(error.value)
      ensures error.None? ==> Register(hash, old(Current()), pack) == Ok(Current())
    {
      if !pack.manifest_valid {
        return Some(InvalidManifest);
      }
      if Has(packs, pack.pack_id) {
        return Some(DuplicatePackId(pack.pack_id));
      }
      var items := Check(hash, pack);
      if items.Err? {
        return Some(items.error);
      }
      packs := Put(packs, pack.pack_id, pack);
      var i := 0;
      while i < |items.value|
        invariant 0 <= i <= |items.value|
        invariant PutAll(capabilities, items.value[i..]) == PutAll(old(capabilities), items.value)
        invariant packs == Put(old(packs), pack.pack_id, pack)
      {
        assert items.value[i..][1..] == items.value[i + 1..];
        capabilities := Put(capabilities, items.value[i].key, items.value[i].value);
        i := i + 1;
      }
      error := None;
    }
  }
}
