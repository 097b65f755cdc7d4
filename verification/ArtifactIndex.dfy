/**
 The artifact index of packages/core/src/artifacts/artifact-viewer.ts. The index file and the payload
 files are fields of `ArtifactStore`; timestamps in the one format the writers use are milliseconds.
 */
module ArtifactIndex {
  import opened Wrappers
  import opened Sequences
  import opened JsString
  import opened StableSort
  import opened JsMap
  import opened TimeIndex

  datatype Role = PrimaryOutput | SupportingEvidence | DebugLog | Intermediate | Superseded

  /** The fields the index acts on; `content` stands for the others. */
  datatype Artifact = Artifact(
    artifact_id: string,
    created_at: int,
    updated_at: Option<int>,
    related_demo_id: Option<string>,
    artifact_role: Option<Role>,
    path_or_uri: string,
    content: nat)

  datatype Index = Index(artifacts: seq<Artifact>, updated_at: int)

  const IdOf := (a: Artifact) => a.artifact_id
  const CreatedAt := (a: Artifact) => a.created_at

  /** `{ ...artifact, updated_at: now }` for each artifact. */
  function Stamped(artifacts: seq<Artifact>, now: int): (r: seq<Artifact>)
    ensures |r| == |artifacts|
    ensures forall i :: 0 <= i < |artifacts| ==> r[i] == artifacts[i].(updated_at := Some(now))
  {
    seq(|artifacts|, i requires 0 <= i < |artifacts| => artifacts[i].(updated_at := Some(now)))
  }

  function Register(current: seq<Artifact>, artifacts: seq<Artifact>, now: int): seq<Artifact> {
    Upsert(current, Stamped(artifacts, now), IdOf, CreatedAt)
  }

  function NotOfDemo(demo_id: string): Artifact -> bool {
    (a: Artifact) => a.related_demo_id != Some(demo_id)
  }

  function NotBefore(cutoff: int): Artifact -> bool {
    (a: Artifact) => a.created_at >= cutoff
  }

  // ---------------------------------------------------------------- durations and paths

  const MINUTE := 60000
  const MAX_DATE := 8640000000000000

  datatype PruneError = BadDuration | ZeroDuration | DateOutOfRange

  function UnitMs(c: char): Option<nat> {
    if c == 'm' then Some(MINUTE)
    else if c == 'h' then Some(60 * MINUTE)
    else if c == 'd' then Some(24 * 60 * MINUTE)
    else None
  }

  /** `^(\d+)(m|h|d)$` on the trimmed text, and an amount above zero. */
  function ParseDurationMs(value: string): Result<nat, PruneError> {
    var t := Trim(value);
    if |t| < 2 || UnitMs(t[|t| - 1]).None? || exists c :: c in t[..|t| - 1] && !IsDigit(c) then Err(BadDuration)
    else if DecimalValue(t[..|t| - 1]) <= 0 then Err(ZeroDuration)
    else Ok(DecimalValue(t[..|t| - 1]) * UnitMs(t[|t| - 1]).value)
  }

  predicate AllSpaces(s: string) {
    forall c | c in s :: IsSpace(c)
  }

  predicate AllDigits(s: string) {
    forall c | c in s :: IsDigit(c)
  }

  /** Spaces, digits, a unit and spaces are that many units; an amount of zero is refused. */
  lemma DurationIsRead(before: string, digits: string, unit: char, after: string)
    requires AllSpaces(before) && AllSpaces(after) && digits != [] && AllDigits(digits) && unit in "mhd"
    ensures ParseDurationMs(before + digits + [unit] + after)
         == if DecimalValue(digits) == 0 then Err(ZeroDuration)
            else Ok(DecimalValue(digits) * (if unit == 'm' then 60000 else if unit == 'h' then 3600000 else 86400000))
  {
    hide DecimalValue, Trim;
    var t := digits + [unit];
    assert digits[0] in digits;
    TrimDropsSpaces(before, t, after);
    assert before + digits + [unit] + after == before + t + after;
    assert t[..|t| - 1] == digits;
  }

  /** Every other text is refused as no duration. */
  lemma DurationForm(value: string) returns (before: string, digits: string, unit: char, after: string)
    requires ParseDurationMs(value) != Err(BadDuration)
    ensures value == before + digits + [unit] + after
    ensures AllSpaces(before) && AllSpaces(after) && digits != [] && AllDigits(digits) && unit in "mhd"
  {
    hide DecimalValue, Trim;
    before, after := TrimmedIsInside(value);
    var t := Trim(value);
    digits, unit := t[..|t| - 1], t[|t| - 1];
    assert t == digits + [unit];
    assert value == before + (digits + [unit]) + after == before + digits + [unit] + after;
  }

  /** In particular a number as it is written. */
  lemma WrittenDurationIsRead(n: nat, unit: char)
    requires unit in "mhd"
    ensures ParseDurationMs(DecimalText(n) + [unit])
         == if n == 0 then Err(ZeroDuration)
            else Ok(n * (if unit == 'm' then 60000 else if unit == 'h' then 3600000 else 86400000))
  {
    hide DecimalText, DecimalValue, Trim;
    DecimalTextIsRead(n);
    DurationIsRead([], DecimalText(n), unit, []);
    assert [] + DecimalText(n) + [unit] + [] == DecimalText(n) + [unit];
  }

  /** `local` resolves against the caller's directory, `absolute` against the process's. */
  datatype Env = Env(local: string -> string, absolute: string -> string)

  function LowerRun(s: string): (n: nat)
    ensures n <= |s|
  {
    if s != [] && 'a' <= s[0] <= 'z' then 1 + LowerRun(s[1..]) else 0
  }

  /** A `file:` path as written, nothing for other schemes, else a local path. */
  function ResolvePath(env: Env, pathOrUri: string): Option<string> {
    if "file://" <= pathOrUri then Some(pathOrUri[7..])
    else if LowerRun(pathOrUri) > 0 && OccursAt(pathOrUri, "://", LowerRun(pathOrUri)) then None
    else Some(env.local(pathOrUri))
  }

  predicate IsOpenLagrangePath(env: Env, path: string) {
    var absolute, root := env.absolute(path), env.local(".open-lagrange");
    absolute == root || root + "/" <= absolute
  }

  /** The file that pruning the artifact removes when it exists; an empty path is falsy. */
  function ManagedPath(env: Env, a: Artifact): Option<string> {
    var path := ResolvePath(env, a.path_or_uri);
    if path.Some? && path.value != [] && IsOpenLagrangePath(env, path.value) then path else None
  }

  // ---------------------------------------------------------------- pruning

  datatype Sweep = Sweep(removed: seq<string>, files: set<string>)

  /** The payload files that pruning removes, oldest artifact first, and those that are left. */
  function SweepOf(env: Env, artifacts: seq<Artifact>, cutoff: int, files: set<string>): Sweep {
    if artifacts == [] then Sweep([], files)
    else
      var s := SweepOf(env, artifacts[..|artifacts| - 1], cutoff, files);
      var a := artifacts[|artifacts| - 1];
      var path := ManagedPath(env, a);
      if a.created_at < cutoff && path.Some? && env.absolute(path.value) in s.files
        then Sweep(s.removed + [path.value], s.files - {env.absolute(path.value)})
        else s
  }

  datatype PruneReport = PruneReport(pruned_count: int, removed_files: seq<string>, retained_count: nat, cutoff: int)

  class ArtifactStore {
    /** None while there is no index file or it cannot be read as one. */
    var index: Option<Index>
    /** The payload files there are, by absolute path. */
    var files: set<string>

    function Artifacts(): seq<Artifact>
      reads this
    {
      if index.Some? then index.value.artifacts else []
    }

    method RegisterArtifacts(artifacts: seq<Artifact>, now: int)
      modifies this`index
      ensures index == Some(Index(Register(old(Artifacts()), artifacts, now), now))
    {
      hide PutAll;
      var byId := PutAll([], Keyed(Artifacts(), IdOf));
      var i := 0;
      assert Stamped(artifacts, now)[..0] == [] && Keyed(Stamped(artifacts, now)[..0], IdOf) == [];
      PutNothing(byId);
      while i < |artifacts|
        invariant 0 <= i <= |artifacts| && index == old(index)
        invariant byId == Merged(old(Artifacts()), Stamped(artifacts, now)[..i], IdOf)
      {
        var parsed := artifacts[i].(updated_at := Some(now));
        ghost var done := Stamped(artifacts, now)[..i];
        assert Stamped(artifacts, now)[..i + 1] == done + [parsed];
        assert Keyed(done + [parsed], IdOf) == Keyed(done, IdOf) + [Entry(parsed.artifact_id, parsed)];
        PutAllSnoc(PutAll([], Keyed(old(Artifacts()), IdOf)), Keyed(done, IdOf), Entry(parsed.artifact_id, parsed));
        byId := Put(byId, parsed.artifact_id, parsed);
        i := i + 1;
      }
      assert Stamped(artifacts, now)[..i] == Stamped(artifacts, now);
      index := Some(Index(Sort(Values(byId), Earlier(CreatedAt)), now));
    }

    method RemoveArtifactsByDemo(demo_id: string, now: int)
      modifies this`index
      ensures index == Some(Index(Filter(old(Artifacts()), NotOfDemo(demo_id)), now))
    {
      index := Some(Index(Filter(Artifacts(), NotOfDemo(demo_id)), now));
    }

    /** A failure changes nothing. */
    method PruneArtifacts(env: Env, older_than: string, now: int) returns (r: Result<PruneReport, PruneError>)
      modifies this
      ensures r.Err? ==> index == old(index) && files == old(files)
      ensures r.Err? <==>
                || ParseDurationMs(older_than).Err?
                || !(-8640000000000000 <= now - ParseDurationMs(older_than).value <= 8640000000000000)
      ensures r.Ok? ==> var cutoff := now - ParseDurationMs(older_than).value;
              (index == Some(Index(Filter(old(Artifacts()), NotBefore(cutoff)), now))
              && files == SweepOf(env, old(Artifacts()), cutoff, old(files)).files
              && r.value == PruneReport(|old(Artifacts())| - |index.value.artifacts|,
                                        SweepOf(env, old(Artifacts()), cutoff, old(files)).removed,
                                        |index.value.artifacts|, cutoff))
    {
      var duration := ParseDurationMs(older_than);
      if duration.Err? {
        return Err(duration.error);
      }
      var cutoff := now - duration.value;
      if !(-MAX_DATE <= cutoff <= MAX_DATE) {
        return Err(DateOutOfRange);
      }
      var kept, removedFiles := Prune(env, cutoff);
      r := Ok(PruneReport(|Artifacts()| - |kept|, removedFiles, |kept|, cutoff));
      index := Some(Index(kept, now));
    }

    /** The loop of `pruneArtifacts`: files go while the kept artifacts are collected. */
    method Prune(env: Env, cutoff: int) returns (kept: seq<Artifact>, removedFiles: seq<string>)
      modifies this`files
      ensures kept == Filter(Artifacts(), NotBefore(cutoff))
      ensures Sweep(removedFiles, files) == SweepOf(env, Artifacts(), cutoff, old(files))
    {
      hide IsOpenLagrangePath, ResolvePath;
      kept, removedFiles := [], [];
      var current := Artifacts();
      var i := 0;
      while i < |current|
        invariant 0 <= i <= |current| && current == Artifacts()
        invariant kept == Filter(current[..i], NotBefore(cutoff))
        invariant Sweep(removedFiles, files) == SweepOf(env, current[..i], cutoff, old(files))
      {
        var artifact := current[i];
        assert current[..i + 1][..i] == current[..i];
        i := i + 1;
        if artifact.created_at >= cutoff {
          kept := kept + [artifact];
          continue;
        }
        var path := ResolvePath(env, artifact.path_or_uri);
        if path.Some? && path.value != [] && IsOpenLagrangePath(env, path.value) && env.absolute(path.value) in files {
          files := files - {env.absolute(path.value)};
          removedFiles := removedFiles + [path.value];
        }
      }
      assert current[..i] == current;
    }
  }

  lemma PutNothing(m: JsMap<string, Artifact>)
    ensures PutAll(m, []) == m
  {
  }

  // ---------------------------------------------------------------- what registering promises

  /** From any index file: distinct ids, oldest first. */
  lemma RegisterIsOrdered(current: seq<Artifact>, artifacts: seq<Artifact>, now: int)
    ensures Ordered(Register(current, artifacts, now), IdOf, CreatedAt)
  {
    UpsertIsOrdered(current, Stamped(artifacts, now), IdOf, CreatedAt);
  }

  lemma {:induction false} StampedLast(artifacts: seq<Artifact>, now: int, key: string)
    ensures LastOf(Stamped(artifacts, now), IdOf, key)
         == if LastOf(artifacts, IdOf, key).None? then None
            else Some(LastOf(artifacts, IdOf, key).value.(updated_at := Some(now)))
  {
    if artifacts != [] {
      var front, last := artifacts[..|artifacts| - 1], artifacts[|artifacts| - 1];
      StampedLast(front, now, key);
      assert Keyed(artifacts, IdOf)[..|artifacts| - 1] == Keyed(front, IdOf);
      assert Keyed(Stamped(artifacts, now), IdOf)[..|artifacts| - 1] == Keyed(Stamped(front, now), IdOf);
    }
  }

  /** The last artifact given for an id is stored, stamped; an artifact not mentioned stays as it was. */
  lemma LastGivenWins(current: seq<Artifact>, artifacts: seq<Artifact>, now: int, key: string)
    requires DistinctIds(current, IdOf)
    ensures Lookup(Register(current, artifacts, now), IdOf, key)
         == if LastOf(artifacts, IdOf, key).Some?
            then Some(LastOf(artifacts, IdOf, key).value.(updated_at := Some(now)))
            else Lookup(current, IdOf, key)
  {
    hide LastOf, Lookup, Upsert;
    LookupAfterUpsert(current, Stamped(artifacts, now), IdOf, CreatedAt, key);
    StampedLast(artifacts, now, key);
  }

  /** The same call twice leaves the very same index as once, also when the batch repeats an id. */
  lemma RegisterIsIdempotent(current: seq<Artifact>, artifacts: seq<Artifact>, now: int)
    ensures Register(Register(current, artifacts, now), artifacts, now) == Register(current, artifacts, now)
  {
    UpsertIsIdempotent(current, Stamped(artifacts, now), IdOf, CreatedAt);
  }

  /** Two batches with no id in common can be registered in either order when no two creation times are equal. */
  lemma DisjointBatchesCommute(current: seq<Artifact>, a: seq<Artifact>, b: seq<Artifact>, nowA: int, nowB: int)
    requires forall x, y :: x in a && y in b ==> x.artifact_id != y.artifact_id
    requires NoTies(Register(Register(current, a, nowA), b, nowB), CreatedAt)
    ensures Register(Register(current, a, nowA), b, nowB) == Register(Register(current, b, nowB), a, nowA)
  {
    hide Upsert;
    StampedIdsDiffer(a, b, nowA, nowB);
    DisjointUpsertsCommute(current, Stamped(a, nowA), Stamped(b, nowB), IdOf, CreatedAt);
  }

  lemma StampedIdsDiffer(a: seq<Artifact>, b: seq<Artifact>, nowA: int, nowB: int)
    requires forall x, y :: x in a && y in b ==> x.artifact_id != y.artifact_id
    ensures forall x, y :: x in Stamped(a, nowA) && y in Stamped(b, nowB) ==> IdOf(x) != IdOf(y)
  {
    forall x, y | x in Stamped(a, nowA) && y in Stamped(b, nowB) ensures IdOf(x) != IdOf(y) {
      var i :| 0 <= i < |a| && Stamped(a, nowA)[i] == x;
      var j :| 0 <= j < |b| && Stamped(b, nowB)[j] == y;
      assert a[i] in a && b[j] in b;
    }
  }

  /** New artifacts of one creation time are listed after those there are, in the order in which they were given. */
  lemma NewTiesAreListedLast(current: seq<Artifact>, artifacts: seq<Artifact>, now: int, t: int)
    requires DistinctIds(current + artifacts, IdOf)
    ensures Select(Register(current, artifacts, now), AtTime(CreatedAt, t))
         == Select(current, AtTime(CreatedAt, t)) + Stamped(Select(artifacts, AtTime(CreatedAt, t)), now)
  {
    hide Upsert, Select;
    StampedIdsStay(current, artifacts, now);
    NewTiesComeLast(current, Stamped(artifacts, now), IdOf, CreatedAt, t);
    SelectStamped(artifacts, now, t);
  }

  lemma StampedIdsStay(current: seq<Artifact>, artifacts: seq<Artifact>, now: int)
    requires DistinctIds(current + artifacts, IdOf)
    ensures DistinctIds(current + Stamped(artifacts, now), IdOf)
  {
    var a, b := current + artifacts, current + Stamped(artifacts, now);
    assert forall i :: 0 <= i < |b| ==> IdOf(b[i]) == IdOf(a[i]);
  }

  lemma {:induction false} SelectStamped(artifacts: seq<Artifact>, now: int, t: int)
    ensures Select(Stamped(artifacts, now), AtTime(CreatedAt, t))
         == Stamped(Select(artifacts, AtTime(CreatedAt, t)), now)
  {
    if artifacts != [] {
      SelectStamped(artifacts[1..], now, t);
      assert Stamped(artifacts, now)[1..] == Stamped(artifacts[1..], now);
      var rest := Select(artifacts[1..], AtTime(CreatedAt, t));
      assert Stamped([artifacts[0]] + rest, now) == [artifacts[0].(updated_at := Some(now))] + Stamped(rest, now);
      assert [] + Stamped(rest, now) == Stamped(rest, now) && [] + rest == rest;
    }
  }

  /** With equal creation times the order of the calls shows: the one registered first comes first. */
  lemma TiedBatchesDoNotCommute(x: Artifact, y: Artifact, now: int)
    requires x.artifact_id != y.artifact_id && x.created_at == y.created_at
    ensures Register(Register([], [x], now), [y], now) != Register(Register([], [y], now), [x], now)
  {
    RegisterTwo(x, y, now);
    RegisterTwo(y, x, now);
    assert Stamped([x, y], now)[0].artifact_id != Stamped([y, x], now)[0].artifact_id;
  }

  lemma RegisterTwo(x: Artifact, y: Artifact, now: int)
    requires x.artifact_id != y.artifact_id && x.created_at == y.created_at
    ensures Register(Register([], [x], now), [y], now) == Stamped([x, y], now)
  {
    var x', y' := x.(updated_at := Some(now)), y.(updated_at := Some(now));
    RegisterOne([], x, now);
    assert Keyed<Artifact>([], IdOf) == [];
    assert Keyed([x'], IdOf) == [Entry(x.artifact_id, x')];
    RegisterOne([x'], y, now);
    assert Stamped([x, y], now) == [x', y'];
    PutAllFresh([Entry(x.artifact_id, x')]);
    var m := [Entry(x.artifact_id, x')];
    assert Put(m, y.artifact_id, y') == [m[0]] + Put(m[1..], y.artifact_id, y') == [m[0], Entry(y.artifact_id, y')];
    var v := Values([m[0], Entry(y.artifact_id, y')]);
    assert v == [x', y'];
    SortOfSorted(v, Earlier(CreatedAt));
    SortOfSorted([x'], Earlier(CreatedAt));
    assert Values([Entry(x.artifact_id, x')]) == [x'];
  }

  lemma RegisterOne(current: seq<Artifact>, x: Artifact, now: int)
    ensures var x' := x.(updated_at := Some(now));
            (Register(current, [x], now)
            == Sort(Values(Put(PutAll([], Keyed(current, IdOf)), x.artifact_id, x')), Earlier(CreatedAt)))
  {
    hide Put, Values, Sort;
    var x' := x.(updated_at := Some(now));
    assert Stamped([x], now) == [x'];
    assert Keyed([x'], IdOf) == [] + [Entry(x.artifact_id, x')];
    PutAllSnoc(PutAll([], Keyed(current, IdOf)), [], Entry(x.artifact_id, x'));
  }

  /** Registering known artifacts again with their creation times leaves every artifact at its place. */
  lemma RefreshKeepsPlaces(current: seq<Artifact>, artifacts: seq<Artifact>, now: int, i: nat)
    requires Ordered(current, IdOf, CreatedAt) && i < |current|
    requires forall x :: x in artifacts ==>
               && Lookup(current, IdOf, x.artifact_id).Some?
               && Lookup(current, IdOf, x.artifact_id).value.created_at == x.created_at
    ensures |Register(current, artifacts, now)| == |current|
    ensures Register(current, artifacts, now)[i].artifact_id == current[i].artifact_id
  {
    hide Lookup, Upsert, LastOf;
    var batch := Stamped(artifacts, now);
    forall x | x in batch
      ensures Lookup(current, IdOf, IdOf(x)).Some? && CreatedAt(Lookup(current, IdOf, IdOf(x)).value) == CreatedAt(x)
    {
      var k :| 0 <= k < |batch| && batch[k] == x;
      assert artifacts[k] in artifacts;
    }
    UpsertInPlace(current, batch, IdOf, CreatedAt);
    if LastOf(batch, IdOf, current[i].artifact_id).Some? {
      LastOfIsMember(batch, IdOf, current[i].artifact_id);
    }
  }

  ghost predicate InOrder(index: seq<Artifact>, x: Artifact, y: Artifact) {
    exists k, l :: 0 <= k < l < |index| && index[k] == x && index[l] == y
  }

  /** Removing a demo's artifacts: exactly those go, and the others stay in their order. */
  lemma OnlyTheDemoGoes(index: seq<Artifact>, demo_id: string, x: Artifact)
    ensures var r := Filter(index, NotOfDemo(demo_id));
            && (x in r <==> x in index && x.related_demo_id != Some(demo_id))
            && (Ordered(index, IdOf, CreatedAt) ==> Ordered(r, IdOf, CreatedAt))
            && (forall i, j :: 0 <= i < j < |r| ==> InOrder(index, r[i], r[j]))
  {
    hide Filter;
    var r := Filter(index, NotOfDemo(demo_id));
    FilterMembers(index, NotOfDemo(demo_id), x);
    if Ordered(index, IdOf, CreatedAt) {
      FilterKeepsOrdered(index, IdOf, CreatedAt, NotOfDemo(demo_id), "");
    }
    forall i, j | 0 <= i < j < |r| ensures InOrder(index, r[i], r[j]) {
      var k, l := FilterFrom(index, NotOfDemo(demo_id), i, j);
    }
  }

  // ---------------------------------------------------------------- whole histories

  datatype Step = Registered(artifacts: seq<Artifact>, now: int) | DemoRemoved(demo_id: string) | Pruned(cutoff: int)

  function Next(index: seq<Artifact>, step: Step): seq<Artifact> {
    match step
    case Registered(artifacts, now) => Register(index, artifacts, now)
    case DemoRemoved(demo_id) => Filter(index, NotOfDemo(demo_id))
    case Pruned(cutoff) => Filter(index, NotBefore(cutoff))
  }

  function History(steps: seq<Step>): seq<Artifact> {
    if steps == [] then [] else Next(History(steps[..|steps| - 1]), steps[|steps| - 1])
  }

  /** What a history says of one id alone: its last registration, unless a later step dropped it. */
  function Expected(steps: seq<Step>, key: string): Option<Artifact> {
    if steps == [] then None
    else
      var before := Expected(steps[..|steps| - 1], key);
      match steps[|steps| - 1]
      case Registered(artifacts, now) =>
        var last := LastOf(artifacts, IdOf, key);
        if last.Some? then Some(last.value.(updated_at := Some(now))) else before
      case DemoRemoved(demo_id) =>
        if before.Some? && before.value.related_demo_id == Some(demo_id) then None else before
      case Pruned(cutoff) => if before.Some? && before.value.created_at < cutoff then None else before
  }

  /** After any history the index holds, in order, exactly what the history says of each id. */
  lemma {:induction false} HistoryIsExpected(steps: seq<Step>, key: string)
    ensures Ordered(History(steps), IdOf, CreatedAt)
    ensures Lookup(History(steps), IdOf, key) == Expected(steps, key)
  {
    hide Register, LastOf, Lookup, Filter;
    if steps == [] {
      LookupFinds<Artifact>([], IdOf, key);
    } else {
      var before := History(steps[..|steps| - 1]);
      HistoryIsExpected(steps[..|steps| - 1], key);
      match steps[|steps| - 1]
      case Registered(artifacts, now) =>
        RegisterIsOrdered(before, artifacts, now);
        LastGivenWins(before, artifacts, now, key);
      case DemoRemoved(demo_id) =>
        FilterKeepsOrdered(before, IdOf, CreatedAt, NotOfDemo(demo_id), key);
      case Pruned(cutoff) =>
        FilterKeepsOrdered(before, IdOf, CreatedAt, NotBefore(cutoff), key);
    }
  }

  // ---------------------------------------------------------------- payload files

  /** Pruning drops the artifact, and this file is its managed payload. */
  predicate Drops(env: Env, a: Artifact, cutoff: int, file: string) {
    a.created_at < cutoff && ManagedPath(env, a).Some? && env.absolute(ManagedPath(env, a).value) == file
  }

  /** Some artifact that pruning drops has this file as its managed payload. */
  ghost predicate DroppedPayload(env: Env, artifacts: seq<Artifact>, cutoff: int, file: string) {
    exists a :: a in artifacts && Drops(env, a, cutoff, file)
  }

  lemma DroppedPayloadSnoc(env: Env, front: seq<Artifact>, last: Artifact, cutoff: int, file: string)
    ensures DroppedPayload(env, front + [last], cutoff, file)
         <==> DroppedPayload(env, front, cutoff, file)
              || Drops(env, last, cutoff, file)
  {
    hide ManagedPath;
    assert forall a :: a in front + [last] <==> a in front || a == last;
  }

  /** A file survives pruning exactly when it was there and is no dropped artifact's managed payload. */
  lemma {:induction false} SweepRemovesDroppedPayloads(env: Env, artifacts: seq<Artifact>, cutoff: int,
                                                       files: set<string>, file: string)
    ensures file in SweepOf(env, artifacts, cutoff, files).files
         <==> file in files && !DroppedPayload(env, artifacts, cutoff, file)
  {
    hide ManagedPath, DroppedPayload;
    if artifacts != [] {
      var front, last := artifacts[..|artifacts| - 1], artifacts[|artifacts| - 1];
      SweepRemovesDroppedPayloads(env, front, cutoff, files, file);
      assert artifacts == front + [last];
      DroppedPayloadSnoc(env, front, last, cutoff, file);
    } else {
      NothingDropped(env, cutoff, file);
    }
  }

  lemma NothingDropped(env: Env, cutoff: int, file: string)
    ensures !DroppedPayload(env, [], cutoff, file)
  {
  }

  /** The report names each removed file once: the files gone are those of the report, no more and no fewer. */
  lemma {:induction false} SweepReportsWhatIsGone(env: Env, artifacts: seq<Artifact>, cutoff: int, files: set<string>)
    ensures var s := SweepOf(env, artifacts, cutoff, files);
            (s.files <= files
            && (set i | 0 <= i < |s.removed| :: env.absolute(s.removed[i])) == files - s.files
            && |s.removed| == |files| - |s.files|)
  {
    hide ManagedPath;
    var s := SweepOf(env, artifacts, cutoff, files);
    if artifacts != [] {
      var t := SweepOf(env, artifacts[..|artifacts| - 1], cutoff, files);
      SweepReportsWhatIsGone(env, artifacts[..|artifacts| - 1], cutoff, files);
      if s != t {
        RemovedGrows(env, t.removed, s.removed[|s.removed| - 1]);
      }
    } else {
      assert s.removed == [];
    }
  }

  lemma RemovedGrows(env: Env, removed: seq<string>, path: string)
    ensures (set i | 0 <= i < |removed + [path]| :: env.absolute((removed + [path])[i]))
         == (set i | 0 <= i < |removed| :: env.absolute(removed[i])) + {env.absolute(path)}
  {
    var all := removed + [path];
    forall i | 0 <= i < |removed| ensures env.absolute(removed[i]) in (set j | 0 <= j < |all| :: env.absolute(all[j])) {
      assert all[i] == removed[i];
    }
    assert env.absolute(all[|removed|]) in (set j | 0 <= j < |all| :: env.absolute(all[j]));
  }

  lemma PruneKeepsTheRecent(artifacts: seq<Artifact>, cutoff: int, x: Artifact)
    ensures x in Filter(artifacts, NotBefore(cutoff)) <==> x in artifacts && x.created_at >= cutoff
  {
    FilterMembers(artifacts, NotBefore(cutoff), x);
  }

  /** In an ordered index pruning keeps exactly a tail: all dropped artifacts come before all kept ones. */
  lemma {:induction false} PruneKeepsATail(artifacts: seq<Artifact>, cutoff: int)
    requires Sorted(artifacts, Earlier(CreatedAt))
    ensures |Filter(artifacts, NotBefore(cutoff))| <= |artifacts|
    ensures Filter(artifacts, NotBefore(cutoff)) == artifacts[|artifacts| - |Filter(artifacts, NotBefore(cutoff))|..]
  {
    if artifacts != [] {
      var front, last := artifacts[..|artifacts| - 1], artifacts[|artifacts| - 1];
      assert artifacts == front + [last];
      PruneKeepsATail(front, cutoff);
      if last.created_at < cutoff {
        OldestAreDropped(front, last, cutoff);
      }
    }
  }

  lemma OldestAreDropped(front: seq<Artifact>, last: Artifact, cutoff: int)
    requires Sorted(front + [last], Earlier(CreatedAt)) && last.created_at < cutoff
    ensures Filter(front, NotBefore(cutoff)) == []
  {
    forall i | 0 <= i < |front| ensures front[i].created_at < cutoff {
      assert Earlier(CreatedAt)((front + [last])[i], (front + [last])[|front|]);
    }
    AllAreDropped(front, cutoff);
  }

  lemma {:induction false} AllAreDropped(artifacts: seq<Artifact>, cutoff: int)
    requires forall i :: 0 <= i < |artifacts| ==> artifacts[i].created_at < cutoff
    ensures Filter(artifacts, NotBefore(cutoff)) == []
  {
    if artifacts != [] {
      AllAreDropped(artifacts[..|artifacts| - 1], cutoff);
    }
  }

  /** The directory that pruning may touch, and what lies under it. */
  predicate IsInside(env: Env, file: string) {
    file == env.local(".open-lagrange") || env.local(".open-lagrange") + "/" <= file
  }

  /** Lower-case letters, at least one, and `://`. */
  ghost predicate HasScheme(uri: string) {
    exists n: nat :: 0 < n <= |uri| && SchemeEnds(uri, n)
  }

  predicate SchemeEnds(uri: string, n: nat)
    requires n <= |uri|
  {
    (forall i :: 0 <= i < n ==> 'a' <= uri[i] <= 'z') && "://" <= uri[n..]
  }

  /** The path that an artifact names: after `file://`, or a path without a scheme, from the caller's directory. */
  ghost predicate Names(env: Env, uri: string, path: string) {
    uri == "file://" + path || (!HasScheme(uri) && path == env.local(uri))
  }

  lemma {:induction false} LowerRunIs(s: string, n: nat)
    requires n <= |s| && (forall i :: 0 <= i < n ==> 'a' <= s[i] <= 'z') && (n == |s| || !('a' <= s[n] <= 'z'))
    ensures LowerRun(s) == n
  {
    if n > 0 {
      LowerRunIs(s[1..], n - 1);
    }
  }

  lemma {:induction false} LowerRunIsLower(s: string)
    ensures forall i :: 0 <= i < LowerRun(s) ==> 'a' <= s[i] <= 'z'
  {
    if s != [] && 'a' <= s[0] <= 'z' {
      LowerRunIsLower(s[1..]);
      forall i | 0 <= i < LowerRun(s) ensures 'a' <= s[i] <= 'z' {
        assert i > 0 ==> s[i] == s[1..][i - 1];
      }
    }
  }

  lemma SchemeIsFound(uri: string)
    ensures HasScheme(uri) <==> LowerRun(uri) > 0 && OccursAt(uri, "://", LowerRun(uri))
  {
    var n := LowerRun(uri);
    LowerRunIsLower(uri);
    if n > 0 && OccursAt(uri, "://", n) {
      assert uri[n..][..3] == uri[n..n + 3];
      assert SchemeEnds(uri, n);
    }
    if HasScheme(uri) {
      var k: nat :| 0 < k <= |uri| && SchemeEnds(uri, k);
      assert uri[k] == uri[k..][0] == ':';
      LowerRunIs(uri, k);
      assert uri[k..k + 3] == uri[k..][..3];
    }
  }

  lemma FileHasScheme(path: string)
    ensures HasScheme("file://" + path)
  {
    var uri := "file://" + path;
    assert uri[..4] == "file" && uri[4..] == "://" + path;
    assert SchemeEnds(uri, 4);
  }

  lemma NamesIff(env: Env, uri: string, path: string)
    ensures ResolvePath(env, uri) == Some(path) <==> Names(env, uri, path)
  {
    hide HasScheme, LowerRun;
    SchemeIsFound(uri);
    if "file://" <= uri {
      assert uri == "file://" + uri[7..];
      FileHasScheme(uri[7..]);
    }
  }

  /**
   What pruning removes, on paths: a file goes exactly when it was there, lies under `.open-lagrange`, and some
   artifact older than the cutoff names it by a path that is not empty. Other schemes name nothing.
   */
  lemma PayloadGoesIff(env: Env, artifacts: seq<Artifact>, cutoff: int, files: set<string>, file: string)
    requires file in files
    ensures file !in SweepOf(env, artifacts, cutoff, files).files
       <==> IsInside(env, file)
            && exists a, path :: a in artifacts && a.created_at < cutoff && Names(env, a.path_or_uri, path)
                                 && path != "" && env.absolute(path) == file
  {
    hide ResolvePath, Names;
    SweepRemovesDroppedPayloads(env, artifacts, cutoff, files, file);
    if DroppedPayload(env, artifacts, cutoff, file) {
      var a :| a in artifacts && Drops(env, a, cutoff, file);
      NamesIff(env, a.path_or_uri, ManagedPath(env, a).value);
    }
    if IsInside(env, file) {
      forall a, path | a in artifacts && a.created_at < cutoff && Names(env, a.path_or_uri, path)
                       && path != "" && env.absolute(path) == file
        ensures Drops(env, a, cutoff, file)
      {
        NamesIff(env, a.path_or_uri, path);
      }
    }
  }

  /** Nothing outside the directory is ever removed or reported. */
  lemma PruningStaysInside(env: Env, artifacts: seq<Artifact>, cutoff: int, files: set<string>)
    ensures var s := SweepOf(env, artifacts, cutoff, files);
            && (forall file :: file in files && file !in s.files ==> IsInside(env, file))
            && (forall i :: 0 <= i < |s.removed| ==> IsInside(env, env.absolute(s.removed[i])))
  {
    hide SweepOf, IsInside;
    var s := SweepOf(env, artifacts, cutoff, files);
    forall file | file in files && file !in s.files ensures IsInside(env, file) {
      PayloadGoesIff(env, artifacts, cutoff, files, file);
    }
    SweepReportsWhatIsGone(env, artifacts, cutoff, files);
    forall i | 0 <= i < |s.removed| ensures IsInside(env, env.absolute(s.removed[i])) {
      assert env.absolute(s.removed[i]) in files - s.files;
    }
  }

  /**
   The payload of a kept artifact outlives the pruning exactly when no dropped artifact names the same
   managed file. The code does not look for that.
   */
  lemma KeptPayloadSurvivesIff(env: Env, artifacts: seq<Artifact>, cutoff: int, files: set<string>, kept: Artifact)
    requires kept in Filter(artifacts, NotBefore(cutoff))
    requires ResolvePath(env, kept.path_or_uri).Some? && env.absolute(ResolvePath(env, kept.path_or_uri).value) in files
    ensures var file := env.absolute(ResolvePath(env, kept.path_or_uri).value);
            (file in SweepOf(env, artifacts, cutoff, files).files <==> !DroppedPayload(env, artifacts, cutoff, file))
  {
    SweepRemovesDroppedPayloads(env, artifacts, cutoff, files, env.absolute(ResolvePath(env, kept.path_or_uri).value));
  }

  /** Two artifacts of one managed file, an old one and a recent one: the recent one loses its payload. */
  lemma SharedPayloadIsLost(env: Env, old_: Artifact, recent: Artifact, cutoff: int, files: set<string>)
    requires old_.created_at < cutoff <= recent.created_at && old_.path_or_uri == recent.path_or_uri
    requires ManagedPath(env, old_).Some?
    ensures recent in Filter([old_, recent], NotBefore(cutoff))
    ensures env.absolute(ManagedPath(env, recent).value) !in SweepOf(env, [old_, recent], cutoff, files).files
  {
    PruneKeepsTheRecent([old_, recent], cutoff, recent);
    SweepRemovesDroppedPayloads(env, [old_, recent], cutoff, files, env.absolute(ManagedPath(env, old_).value));
    assert old_ in [old_, recent];
  }
}
