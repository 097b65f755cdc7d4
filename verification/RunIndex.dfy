/**
 The run index of packages/core/src/artifacts/run-index.ts: registering and removing runs, the
 record of the latest run, and the artifacts that the runs refer to.
 */
module RunIndex {
  import opened Wrappers
  import opened Sequences
  import opened StableSort
  import opened JsMap
  import opened TimeIndex
  import opened ArtifactIndex

  /** The fields the index acts on; `content` stands for the others. */
  datatype Run = Run(
    run_id: string,
    started_at: int,
    updated_at: Option<int>,
    related_demo_id: Option<string>,
    primary_artifact_refs: seq<string>,
    supporting_artifact_refs: seq<string>,
    debug_artifact_refs: seq<string>,
    content: nat)

  datatype Runs = Runs(runs: seq<Run>, latest_run_id: Option<string>, updated_at: int)

  /** The index file: an unreadable one is not treated as empty here, reading it throws. */
  datatype IndexFile = Missing | Unreadable | Present(index: Runs)

  /** The latest-run file. */
  datatype LatestFile = Absent | NoRuns | Points(run: Run)

  const RunIdOf := (r: Run) => r.run_id
  const StartedAt := (r: Run) => r.started_at

  function RunsIn(file: IndexFile): seq<Run> {
    if file.Present? then file.index.runs else []
  }

  function RunNotOfDemo(demo_id: string): Run -> bool {
    (r: Run) => r.related_demo_id != Some(demo_id)
  }

  function Stamp(run: Run, now: int): Run {
    run.(updated_at := Some(now))
  }

  function WithRun(current: seq<Run>, run: Run, now: int): Runs {
    Runs(Upsert(current, [Stamp(run, now)], RunIdOf, StartedAt), Some(run.run_id), now)
  }

  function WithoutDemo(current: seq<Run>, demo_id: string, now: int): Runs {
    var runs := Filter(current, RunNotOfDemo(demo_id));
    Runs(runs, if runs != [] then Some(runs[|runs| - 1].run_id) else None, now)
  }

  /** An empty id is falsy; "latest" goes through the latest id. */
  function ShowRun(index: Runs, runId: string): Option<Run> {
    var target := if runId == "latest" then index.latest_run_id else Some(runId);
    if target.None? || target.value == "" then None else Lookup(index.runs, RunIdOf, target.value)
  }

  class RunStore {
    var file: IndexFile
    var latest: LatestFile

    constructor ()
      ensures file == Missing && latest == Absent
    {
      file, latest := Missing, Absent;
    }

    method RegisterRun(run: Run, now: int) returns (ok: bool)
      modifies this
      ensures ok <==> old(file) != Unreadable
      ensures !ok ==> file == old(file) && latest == old(latest)
      ensures ok ==> file == Present(WithRun(RunsIn(old(file)), run, now)) && latest == Points(Stamp(run, now))
    {
      if file.Unreadable? {
        return false;
      }
      var current := RunsIn(file);
      var nextRun := run.(updated_at := Some(now));
      var byId := Put(PutAll([], Keyed(current, RunIdOf)), nextRun.run_id, nextRun);
      PutLast(current, nextRun);
      file := Present(Runs(Sort(Values(byId), Earlier(StartedAt)), Some(nextRun.run_id), now));
      latest := Points(nextRun);
      ok := true;
    }

    method RemoveRunsByDemo(demo_id: string, now: int) returns (ok: bool)
      modifies this
      ensures ok <==> old(file) != Unreadable
      ensures !ok ==> file == old(file) && latest == old(latest)
      ensures ok ==> file == Present(WithoutDemo(RunsIn(old(file)), demo_id, now))
      ensures ok ==> latest == LatestOf(file.index.runs)
    {
      if file.Unreadable? {
        return false;
      }
      var runs := Filter(RunsIn(file), RunNotOfDemo(demo_id));
      if runs != [] {
        file := Present(Runs(runs, Some(runs[|runs| - 1].run_id), now));
        latest := Points(runs[|runs| - 1]);
      } else {
        file := Present(Runs(runs, None, now));
        latest := NoRuns;
      }
      ok := true;
    }
  }

  function LatestOf(runs: seq<Run>): LatestFile {
    if runs == [] then NoRuns else Points(runs[|runs| - 1])
  }

  lemma PutLast(current: seq<Run>, run: Run)
    ensures Merged(current, [run], RunIdOf) == Put(PutAll([], Keyed(current, RunIdOf)), run.run_id, run)
  {
    assert Keyed([run], RunIdOf) == [] + [Entry(run.run_id, run)];
    PutAllSnoc(PutAll([], Keyed(current, RunIdOf)), [], Entry(run.run_id, run));
  }

  // ---------------------------------------------------------------- whole histories

  datatype RunStep = RunRegistered(run: Run, now: int) | RunsOfDemoRemoved(demo_id: string, now: int)

  datatype State = State(index: Runs, latest: LatestFile)

  const INITIAL := State(Runs([], None, 0), Absent)

  function Next(s: State, step: RunStep): State {
    match step
    case RunRegistered(run, now) => State(WithRun(s.index.runs, run, now), Points(Stamp(run, now)))
    case RunsOfDemoRemoved(demo_id, now) =>
      var index := WithoutDemo(s.index.runs, demo_id, now);
      State(index, LatestOf(index.runs))
  }

  function History(steps: seq<RunStep>): State {
    if steps == [] then INITIAL else Next(History(steps[..|steps| - 1]), steps[|steps| - 1])
  }

  /** What a history says of one id alone: its last registration, until a removal of its demo. */
  function Expected(steps: seq<RunStep>, id: string): Option<Run> {
    if steps == [] then None
    else
      var before := Expected(steps[..|steps| - 1], id);
      match steps[|steps| - 1]
      case RunRegistered(run, now) => if run.run_id == id then Some(Stamp(run, now)) else before
      case RunsOfDemoRemoved(demo_id, _) =>
        if before.Some? && before.value.related_demo_id == Some(demo_id) then None else before
  }

  /** What every history keeps. */
  ghost predicate Inv(s: State) {
    && Ordered(s.index.runs, RunIdOf, StartedAt)
    && (s.index.latest_run_id.None? <==> s.index.runs == [])
    && (s.latest.Points? <==> s.index.runs != [])
    && (s.latest.Points? ==> s.latest.run in s.index.runs && s.index.latest_run_id == Some(s.latest.run.run_id))
  }

  lemma RegisterOneLookup(current: seq<Run>, run: Run, now: int, id: string)
    requires DistinctIds(current, RunIdOf)
    ensures Lookup(WithRun(current, run, now).runs, RunIdOf, id)
         == if run.run_id == id then Some(Stamp(run, now)) else Lookup(current, RunIdOf, id)
  {
    hide Lookup, Upsert;
    var batch := [Stamp(run, now)];
    LookupAfterUpsert(current, batch, RunIdOf, StartedAt, id);
    LastOfOne(batch[0], RunIdOf, id);
  }

  lemma NextKeepsInv(s: State, step: RunStep)
    requires Inv(s)
    ensures Inv(Next(s, step))
  {
    hide Lookup, Upsert, Filter;
    var runs := Next(s, step).index.runs;
    match step
    case RunRegistered(run, now) =>
      UpsertIsOrdered(s.index.runs, [Stamp(run, now)], RunIdOf, StartedAt);
      RegisterOneLookup(s.index.runs, run, now, run.run_id);
      LookupFinds(runs, RunIdOf, run.run_id);
    case RunsOfDemoRemoved(demo_id, now) =>
      FilterKeepsOrdered(s.index.runs, RunIdOf, StartedAt, RunNotOfDemo(demo_id), "");
  }

  /**
   After any history: distinct ids in starting order, and the latest id and the latest file name the same
   indexed run, if there is any.
   */
  lemma {:induction false} HistoryKeepsInv(steps: seq<RunStep>)
    ensures Inv(History(steps))
  {
    hide Inv, Next;
    if steps == [] {
      InitialInv();
    } else {
      HistoryKeepsInv(steps[..|steps| - 1]);
      NextKeepsInv(History(steps[..|steps| - 1]), steps[|steps| - 1]);
    }
  }

  lemma InitialInv()
    ensures Inv(INITIAL)
  {
  }

  /** After a registration the latest run is that one; after a removal a run that no other started after. */
  lemma LatestAfterStep(steps: seq<RunStep>, step: RunStep, run: Run)
    requires run in History(steps + [step]).index.runs
    ensures var s := History(steps + [step]);
            (match step
             case RunRegistered(registered, now) => s.latest == Points(Stamp(registered, now))
             case RunsOfDemoRemoved(_, _) => s.latest.Points? && run.started_at <= s.latest.run.started_at)
  {
    hide Upsert, Filter;
    assert (steps + [step])[..|steps|] == steps;
    HistoryKeepsInv(steps + [step]);
    var runs := History(steps + [step]).index.runs;
    var i :| 0 <= i < |runs| && runs[i] == run;
    assert i < |runs| - 1 ==> Earlier(StartedAt)(runs[i], runs[|runs| - 1]);
  }

  lemma {:induction false} HistoryLookup(steps: seq<RunStep>, id: string)
    ensures Lookup(History(steps).index.runs, RunIdOf, id) == Expected(steps, id)
  {
    hide Inv, Lookup, Upsert, Filter;
    if steps == [] {
      LookupFinds<Run>([], RunIdOf, id);
    } else {
      var front := steps[..|steps| - 1];
      HistoryLookup(front, id);
      HistoryIsOrdered(front);
      match steps[|steps| - 1]
      case RunRegistered(run, now) =>
        RegisterOneLookup(History(front).index.runs, run, now, id);
      case RunsOfDemoRemoved(demo_id, now) =>
        FilterKeepsOrdered(History(front).index.runs, RunIdOf, StartedAt, RunNotOfDemo(demo_id), id);
    }
  }

  lemma HistoryIsOrdered(steps: seq<RunStep>)
    ensures Ordered(History(steps).index.runs, RunIdOf, StartedAt)
  {
    HistoryKeepsInv(steps);
  }

  /** `showRun` of an id returns its last registration until that is removed. */
  lemma ShowRunIsExpected(steps: seq<RunStep>, id: string)
    requires id != "" && id != "latest"
    ensures ShowRun(History(steps).index, id) == Expected(steps, id)
  {
    HistoryLookup(steps, id);
  }

  /** A run registered under the id "latest" is shown exactly when the latest id happens to be that. */
  lemma ShowLatestIff(steps: seq<RunStep>)
    requires Expected(steps, "latest").Some?
    ensures ShowRun(History(steps).index, "latest") == Expected(steps, "latest")
            <==> History(steps).index.latest_run_id == Some("latest")
  {
    hide Lookup, History, Expected;
    var index := History(steps).index;
    HistoryLookup(steps, "latest");
    LookupFinds(index.runs, RunIdOf, "latest");
    if index.latest_run_id.Some? {
      LookupFinds(index.runs, RunIdOf, index.latest_run_id.value);
    }
  }

  /** Registering any other run hides a run called "latest". */
  lemma RunCalledLatestIsHidden(run: Run, other: Run, now: int)
    requires run.run_id == "latest" && other.run_id != "latest" && other.run_id != ""
    ensures var steps := [RunRegistered(run, now), RunRegistered(other, now)];
            (Expected(steps, "latest") == Some(Stamp(run, now))
            && ShowRun(History(steps).index, "latest") == Some(Stamp(other, now)))
  {
    hide Lookup, Upsert;
    var steps := [RunRegistered(run, now), RunRegistered(other, now)];
    assert steps[..1] == [RunRegistered(run, now)] && steps[..1][..0] == [];
    HistoryLookup(steps, other.run_id);
  }

  // ---------------------------------------------------------------- artifacts of runs

  function RefsForRole(run: Run, role: Role): seq<string> {
    match role
    case PrimaryOutput => run.primary_artifact_refs
    case SupportingEvidence => run.supporting_artifact_refs
    case Intermediate => run.supporting_artifact_refs
    case DebugLog => run.debug_artifact_refs
    case Superseded => []
  }

  function Refs(run: Run, include_debug: bool): seq<string> {
    run.primary_artifact_refs + run.supporting_artifact_refs + if include_debug then run.debug_artifact_refs else []
  }

  /** The artifacts that the references name, in their order; a reference that names none is skipped. */
  function Resolved(artifacts: seq<Artifact>, refs: seq<string>): (r: seq<Artifact>)
    ensures |r| <= |refs|
  {
    if refs == [] then []
    else
      var a := LastOf(artifacts, IdOf, refs[|refs| - 1]);
      Resolved(artifacts, refs[..|refs| - 1]) + if a.Some? then [a.value] else []
  }

  function ListRunArtifacts(index: Runs, run_id: string, role: Option<Role>, artifacts: seq<Artifact>): seq<Artifact> {
    var run := ShowRun(index, run_id);
    if run.None? then []
    else Resolved(artifacts, if role.Some? then RefsForRole(run.value, role.value) else Refs(run.value, true))
  }

  /** All references, those of the last run first. */
  function AllRefs(runs: seq<Run>, include_debug: bool): seq<string> {
    if runs == [] then [] else Refs(runs[|runs| - 1], include_debug) + AllRefs(runs[..|runs| - 1], include_debug)
  }

  /** `slice(0, limit)`: a negative limit counts from the end. */
  function SliceTo<T>(s: seq<T>, limit: int): seq<T> {
    if limit >= 0 then Take(s, limit) else if |s| + limit > 0 then s[..|s| + limit] else []
  }

  const NewestFirst := (x: Artifact, y: Artifact) => y.created_at <= x.created_at

  function Shown(include_debug: bool): Artifact -> bool {
    (a: Artifact) => include_debug || a.artifact_role != Some(DebugLog)
  }

  /** The indexed artifacts, newest first, without debug logs unless asked for. */
  function Newest(artifacts: seq<Artifact>, include_debug: bool): seq<Artifact> {
    Sort(Filter(Values(PutAll([], Keyed(artifacts, IdOf))), Shown(include_debug)), NewestFirst)
  }

  /** What `recentArtifacts` returns, for every limit: below 1 the loops stop after the first reference. */
  function Recent(runs: seq<Run>, artifacts: seq<Artifact>, limit: int, include_debug: bool): seq<Artifact> {
    var refs := AllRefs(runs, include_debug);
    var considered := if limit >= 1 then refs else Take(refs, 1);
    var resolved := Resolved(artifacts, considered);
    if limit >= 1 && resolved != [] then Take(resolved, limit)
    else if limit <= 0 && refs != [] then resolved
    else SliceTo(Newest(artifacts, include_debug), limit)
  }

  lemma ResolvedSnoc(artifacts: seq<Artifact>, refs: seq<string>, ref: string)
    ensures Resolved(artifacts, refs + [ref])
         == Resolved(artifacts, refs)
            + if LastOf(artifacts, IdOf, ref).Some? then [LastOf(artifacts, IdOf, ref).value] else []
  {
    assert (refs + [ref])[..|refs|] == refs;
  }

  lemma {:induction false} ResolvedConcat(artifacts: seq<Artifact>, a: seq<string>, b: seq<string>)
    ensures Resolved(artifacts, a + b) == Resolved(artifacts, a) + Resolved(artifacts, b)
    decreases |b|
  {
    hide LastOf;
    if b == [] {
      assert a + b == a;
    } else {
      var front, last := b[..|b| - 1], b[|b| - 1];
      assert a + b == (a + front) + [last] && b == front + [last];
      ResolvedConcat(artifacts, a, front);
      ResolvedSnoc(artifacts, a + front, last);
      ResolvedSnoc(artifacts, front, last);
    }
  }

  lemma GetIsLastOf(artifacts: seq<Artifact>, ref: string)
    ensures Get(PutAll([], Keyed(artifacts, IdOf)), ref) == LastOf(artifacts, IdOf, ref)
  {
    GetAfterPutAll([], Keyed(artifacts, IdOf), ref);
  }

  lemma ResolvedStep(artifacts: seq<Artifact>, refs: seq<string>, i: nat)
    requires i < |refs|
    ensures Resolved(artifacts, refs[..i + 1])
         == Resolved(artifacts, refs[..i])
            + if LastOf(artifacts, IdOf, refs[i]).Some? then [LastOf(artifacts, IdOf, refs[i]).value] else []
    ensures Resolved(artifacts, refs) == Resolved(artifacts, refs[..i + 1]) + Resolved(artifacts, refs[i + 1..])
  {
    assert refs[..i + 1] == refs[..i] + [refs[i]];
    ResolvedSnoc(artifacts, refs[..i], refs[i]);
    ResolvedConcat(artifacts, refs[..i + 1], refs[i + 1..]);
    assert refs == refs[..i + 1] + refs[i + 1..];
  }

  lemma TakenAtLimit<T>(before: seq<T>, done: seq<T>, rest: seq<T>)
    ensures Take(before + (done + rest), |before + done|) == before + done
    ensures |before + (done + rest)| >= |before + done|
  {
  }

  /** The inner loop over one run's references; `full` when the limit is reached. */
  method AddRefs(artifacts: seq<Artifact>, artifactsById: JsMap<string, Artifact>, refs: seq<string>, limit: int,
                 before: seq<Artifact>)
    returns (ordered: seq<Artifact>, full: bool)
    requires artifactsById == PutAll([], Keyed(artifacts, IdOf))
    requires if limit >= 1 then |before| < limit else before == []
    ensures limit >= 1 ==> ordered == Take(before + Resolved(artifacts, refs), limit)
    ensures limit >= 1 ==> (full <==> |before + Resolved(artifacts, refs)| >= limit)
    ensures limit <= 0 ==> ordered == Resolved(artifacts, Take(refs, 1)) && (full <==> refs != [])
  {
    hide Get, LastOf, PutAll, Resolved, Take;
    ordered := before;
    var i := 0;
    ResolvedNothing(artifacts);
    assert refs[..0] == [];
    while i < |refs|
      invariant 0 <= i <= |refs|
      invariant ordered == before + Resolved(artifacts, refs[..i])
      invariant if limit >= 1 then |ordered| < limit else i == 0
    {
      ghost var done := Resolved(artifacts, refs[..i]);
      var artifact := Get(artifactsById, refs[i]);
      GetIsLastOf(artifacts, refs[i]);
      ResolvedStep(artifacts, refs, i);
      if artifact.Some? {
        Reassociate(before, done, [artifact.value]);
        ordered := ordered + [artifact.value];
      } else {
        assert done + [] == done;
      }
      i := i + 1;
      if |ordered| >= limit {
        TakenAtLimit(before, Resolved(artifacts, refs[..i]), Resolved(artifacts, refs[i..]));
        TakeFirst(refs);
        return ordered, true;
      }
    }
    assert refs[..i] == refs;
    TakeShort(ordered, limit);
    TakeShort(refs, 1);
    full := false;
  }

  lemma ResolvedNothing(artifacts: seq<Artifact>)
    ensures Resolved(artifacts, []) == []
  {
  }

  lemma TakeFirst<T>(s: seq<T>)
    ensures |s| >= 1 ==> Take(s, 1) == s[..1]
  {
  }

  lemma TakeShort<T>(s: seq<T>, limit: int)
    ensures limit >= |s| ==> Take(s, limit) == s
  {
  }

  /** How far the outer loop is before the runs from `i` on are looked at. */
  ghost predicate Progress(runs: seq<Run>, artifacts: seq<Artifact>, limit: int, include_debug: bool, i: nat,
                           ordered: seq<Artifact>)
    requires i <= |runs|
  {
    var refs := AllRefs(runs, include_debug);
    var rest := AllRefs(runs[..i], include_debug);
    && (limit >= 1 ==> |ordered| < limit && ordered + Resolved(artifacts, rest) == Resolved(artifacts, refs))
    && (limit <= 0 ==> ordered == [] && rest == refs)
  }

  /** One run's references more: either the answer is there or the loop goes on. */
  lemma ProgressStep(runs: seq<Run>, artifacts: seq<Artifact>, limit: int, include_debug: bool, i: nat,
                     before: seq<Artifact>, ordered: seq<Artifact>, full: bool)
    requires i < |runs| && Progress(runs, artifacts, limit, include_debug, i + 1, before)
    requires var own := Refs(runs[i], include_debug);
             ((limit >= 1 ==> ordered == Take(before + Resolved(artifacts, own), limit)
                              && (full <==> |before + Resolved(artifacts, own)| >= limit))
             && (limit <= 0 ==> ordered == Resolved(artifacts, Take(own, 1)) && (full <==> own != [])))
    ensures full ==> ordered == Recent(runs, artifacts, limit, include_debug)
    ensures !full ==> Progress(runs, artifacts, limit, include_debug, i, ordered)
  {
    hide Newest, Resolved, Refs, SliceTo;
    var own, rest := Refs(runs[i], include_debug), AllRefs(runs[..i], include_debug);
    assert runs[..i + 1][..i] == runs[..i];
    assert AllRefs(runs[..i + 1], include_debug) == own + rest;
    ResolvedConcat(artifacts, own, rest);
    Reassociate(before, Resolved(artifacts, own), Resolved(artifacts, rest));
    if limit <= 0 {
      FirstOf(own, rest);
      ResolvedNothing(artifacts);
      assert own == [] ==> own + rest == rest;
    } else {
      TakeOfTaken(before + Resolved(artifacts, own), Resolved(artifacts, rest), limit);
    }
  }

  lemma ProgressEnds(runs: seq<Run>, artifacts: seq<Artifact>, limit: int, include_debug: bool, ordered: seq<Artifact>)
    requires Progress(runs, artifacts, limit, include_debug, 0, ordered)
    ensures Recent(runs, artifacts, limit, include_debug)
         == if ordered != [] then ordered else SliceTo(Newest(artifacts, include_debug), limit)
  {
    hide Newest, SliceTo, Resolved;
    assert runs[..0] == [];
    ResolvedNothing(artifacts);
    assert ordered + [] == ordered;
  }

  method RecentArtifacts(runs: seq<Run>, artifacts: seq<Artifact>, limit: int, include_debug: bool)
    returns (r: seq<Artifact>)
    ensures r == Recent(runs, artifacts, limit, include_debug)
  {
    hide Refs, AllRefs, Newest, PutAll, Resolved, Take, Recent, SliceTo, Values;
    var artifactsById := PutAll([], Keyed(artifacts, IdOf));
    var ordered: seq<Artifact> := [];
    var i := |runs|;
    ghost var all := Resolved(artifacts, AllRefs(runs, include_debug));
    assert runs[..i] == runs && [] + all == all;
    while i > 0
      invariant 0 <= i <= |runs|
      invariant Progress(runs, artifacts, limit, include_debug, i, ordered)
    {
      i := i - 1;
      var full;
      ghost var before := ordered;
      ordered, full := AddRefs(artifacts, artifactsById, Refs(runs[i], include_debug), limit, ordered);
      ProgressStep(runs, artifacts, limit, include_debug, i, before, ordered, full);
      if full {
        return ordered;
      }
    }
    ProgressEnds(runs, artifacts, limit, include_debug, ordered);
    if |ordered| > 0 {
      return ordered;
    }
    NewestIs(artifacts, include_debug);
    r := SliceTo(Sort(Filter(Values(artifactsById), Shown(include_debug)), NewestFirst), limit);
  }

  lemma NewestIs(artifacts: seq<Artifact>, include_debug: bool)
    ensures Newest(artifacts, include_debug)
         == Sort(Filter(Values(PutAll([], Keyed(artifacts, IdOf))), Shown(include_debug)), NewestFirst)
  {
  }

  lemma TakeOfTaken<T>(s: seq<T>, more: seq<T>, limit: int)
    ensures limit >= 1 && |s| >= limit ==> Take(s + more, limit) == Take(s, limit)
  {
  }

  lemma TakeHas<T>(s: seq<T>, limit: nat, j: nat)
    requires j < |s|
    ensures j < limit ==> s[j] in Take(s, limit)
  {
    assert j < limit ==> Take(s, limit)[j] == s[j];
  }

  lemma FirstOf<T>(own: seq<T>, rest: seq<T>)
    ensures own != [] ==> Take(own + rest, 1) == Take(own, 1)
  {
  }

  /** With include_debug, one run's part of the list is what `listRunArtifacts` gives for that run. */
  lemma RecentUsesRunLists(steps: seq<RunStep>, run: Run, artifacts: seq<Artifact>)
    requires run in History(steps).index.runs && run.run_id != "" && run.run_id != "latest"
    ensures ListRunArtifacts(History(steps).index, run.run_id, None, artifacts) == Resolved(artifacts, Refs(run, true))
  {
    HistoryIsOrdered(steps);
    LookupIs(History(steps).index.runs, RunIdOf, run);
  }

  /** From a limit of 1 on: never more than the limit, and nothing is returned only if nothing can be. */
  lemma RecentRespectsLimit(runs: seq<Run>, artifacts: seq<Artifact>, limit: int, include_debug: bool)
    requires limit >= 1
    ensures |Recent(runs, artifacts, limit, include_debug)| <= limit
    ensures Recent(runs, artifacts, limit, include_debug) == [] ==>
              Resolved(artifacts, AllRefs(runs, include_debug)) == [] && Newest(artifacts, include_debug) == []
  {
    hide Newest, AllRefs;
  }

  /** The artifacts that runs name: the last run first, and of each its primary, supporting and debug references. */
  function Mentioned(runs: seq<Run>, artifacts: seq<Artifact>, include_debug: bool): seq<Artifact> {
    if runs == [] then []
    else
      var last := runs[|runs| - 1];
      Resolved(artifacts, last.primary_artifact_refs)
      + Resolved(artifacts, last.supporting_artifact_refs)
      + (if include_debug then Resolved(artifacts, last.debug_artifact_refs) else [])
      + Mentioned(runs[..|runs| - 1], artifacts, include_debug)
  }

  /** What a list of references names: for each in order the last artifact with that id, if there is one. */
  lemma NamedIs(artifacts: seq<Artifact>, ref: string, rest: seq<string>)
    ensures Resolved(artifacts, []) == []
    ensures (forall a :: a in artifacts ==> a.artifact_id != ref) ==>
              Resolved(artifacts, [ref] + rest) == Resolved(artifacts, rest)
    ensures forall i :: (0 <= i < |artifacts| && artifacts[i].artifact_id == ref
                         && forall j :: i < j < |artifacts| ==> artifacts[j].artifact_id != ref) ==>
              Resolved(artifacts, [ref] + rest) == [artifacts[i]] + Resolved(artifacts, rest)
  {
    hide LastOf, Resolved;
    ResolvedNothing(artifacts);
    ResolvedConcat(artifacts, [ref], rest);
    ResolvedSnoc(artifacts, [], ref);
    assert [] + [ref] == [ref];
    var last := LastOf(artifacts, IdOf, ref);
    var i := LastOfIsAt(artifacts, ref);
    assert [] + Resolved(artifacts, rest) == Resolved(artifacts, rest);
  }

  lemma {:induction false} LastOfIsAt(artifacts: seq<Artifact>, ref: string) returns (i: nat)
    ensures i <= |artifacts| && (i == |artifacts| <==> LastOf(artifacts, IdOf, ref) == None)
    ensures i == |artifacts| ==> forall a :: a in artifacts ==> a.artifact_id != ref
    ensures i < |artifacts| ==>
              && LastOf(artifacts, IdOf, ref) == Some(artifacts[i]) && artifacts[i].artifact_id == ref
              && forall j :: i < j < |artifacts| ==> artifacts[j].artifact_id != ref
  {
    i := 0;
    if artifacts != [] {
      var front, last := artifacts[..|artifacts| - 1], artifacts[|artifacts| - 1];
      assert Keyed(artifacts, IdOf)[..|artifacts| - 1] == Keyed(front, IdOf);
      i := LastOfIsAt(front, ref);
      if last.artifact_id == ref {
        i := |front|;
      } else if i == |front| {
        i := |artifacts|;
      }
    }
  }

  lemma {:induction false} ReferencesAreMentioned(runs: seq<Run>, artifacts: seq<Artifact>, include_debug: bool)
    ensures Resolved(artifacts, AllRefs(runs, include_debug)) == Mentioned(runs, artifacts, include_debug)
  {
    hide Resolved;
    ResolvedNothing(artifacts);
    if runs != [] {
      var front, last := runs[..|runs| - 1], runs[|runs| - 1];
      ReferencesAreMentioned(front, artifacts, include_debug);
      var primary, supporting := last.primary_artifact_refs, last.supporting_artifact_refs;
      var debug := if include_debug then last.debug_artifact_refs else [];
      ResolvedConcat(artifacts, primary + supporting + debug, AllRefs(front, include_debug));
      ResolvedConcat(artifacts, primary + supporting, debug);
      ResolvedConcat(artifacts, primary, supporting);
    }
  }

  /** From a limit of 1 on: the first artifacts that the runs name, or if they name none, the newest there are. */
  lemma RecentIsMentioned(runs: seq<Run>, artifacts: seq<Artifact>, limit: int, include_debug: bool)
    requires limit >= 1
    ensures var named := Mentioned(runs, artifacts, include_debug);
            named != [] ==>
              Recent(runs, artifacts, limit, include_debug) == if |named| <= limit then named else named[..limit]
  {
    hide Resolved, AllRefs, Newest;
    ReferencesAreMentioned(runs, artifacts, include_debug);
  }

  /** A limit below 1 is noticed after the first reference, so that one is returned, if it names an artifact. */
  lemma LowLimitsReturnTheFirst(runs: seq<Run>, artifacts: seq<Artifact>, limit: int, include_debug: bool)
    requires limit < 1 && runs != [] && runs[|runs| - 1].primary_artifact_refs != []
    ensures Recent(runs, artifacts, limit, include_debug)
         == Resolved(artifacts, [runs[|runs| - 1].primary_artifact_refs[0]])
  {
    hide Resolved, Newest;
    var first := runs[|runs| - 1].primary_artifact_refs[0];
    assert AllRefs(runs, include_debug)[0] == first;
    assert Take(AllRefs(runs, include_debug), 1) == [first];
  }

  /**
   The artifacts of a run, by its id and by role: those of its last registration. Intermediate ones are looked up
   among the supporting ones, and superseded ones are never found.
   */
  lemma RunArtifactsAre(steps: seq<RunStep>, id: string, role: Option<Role>, artifacts: seq<Artifact>)
    requires id != "" && id != "latest"
    ensures ListRunArtifacts(History(steps).index, id, role, artifacts)
         == match Expected(steps, id)
            case None => []
            case Some(run) =>
              match role
              case None =>
                Resolved(artifacts, run.primary_artifact_refs)
                + Resolved(artifacts, run.supporting_artifact_refs)
                + Resolved(artifacts, run.debug_artifact_refs)
              case Some(PrimaryOutput) => Resolved(artifacts, run.primary_artifact_refs)
              case Some(SupportingEvidence) => Resolved(artifacts, run.supporting_artifact_refs)
              case Some(Intermediate) => Resolved(artifacts, run.supporting_artifact_refs)
              case Some(DebugLog) => Resolved(artifacts, run.debug_artifact_refs)
              case Some(Superseded) => []
  {
    hide Resolved, ShowRun, History, Expected;
    ShowRunIsExpected(steps, id);
    ResolvedNothing(artifacts);
    if Expected(steps, id).Some? {
      var run := Expected(steps, id).value;
      assert run.primary_artifact_refs + run.supporting_artifact_refs + run.debug_artifact_refs == Refs(run, true);
      ResolvedConcat(artifacts, run.primary_artifact_refs + run.supporting_artifact_refs, run.debug_artifact_refs);
      ResolvedConcat(artifacts, run.primary_artifact_refs, run.supporting_artifact_refs);
    }
  }

  /** "latest" shows the run that the latest-run file names, after any history; an empty id shows nothing. */
  lemma LatestIsShown(steps: seq<RunStep>)
    ensures var s := History(steps);
            && ShowRun(s.index, "") == None
            && ShowRun(s.index, "latest")
               == if s.latest.Points? && s.latest.run.run_id != "" then Some(s.latest.run) else None
  {
    hide Lookup, History;
    HistoryKeepsInv(steps);
    var s := History(steps);
    if s.latest.Points? {
      LookupIs(s.index.runs, RunIdOf, s.latest.run);
    }
  }

  /** When no reference resolves: the newest artifacts, none left out that is newer than one returned. */
  lemma FallbackIsNewest(artifacts: seq<Artifact>, limit: nat, include_debug: bool, x: Artifact, i: nat)
    requires DistinctIds(artifacts, IdOf)
    requires i < |SliceTo(Newest(artifacts, include_debug), limit)|
    ensures var r := SliceTo(Newest(artifacts, include_debug), limit);
            ((x in r ==> x in artifacts && (include_debug || x.artifact_role != Some(DebugLog)))
            && (x in artifacts && (include_debug || x.artifact_role != Some(DebugLog)) && x !in r ==>
                  x.created_at <= r[i].created_at && |r| == limit))
  {
    assert Shown(include_debug)(x) <==> include_debug || x.artifact_role != Some(DebugLog);
    hide Sort, Filter, Values, PutAll, Shown;
    var m := Keyed(artifacts, IdOf);
    PutAllFresh(m);
    assert Values(m) == artifacts;
    var all := Newest(artifacts, include_debug);
    var kept := Filter(artifacts, Shown(include_debug));
    FilterMembers(artifacts, Shown(include_debug), x);
    SortKeepsMembers(kept, NewestFirst, x);
    SortSorts(kept, NewestFirst);
    if x in all && x !in SliceTo(all, limit) {
      var j :| 0 <= j < |all| && all[j] == x;
      TakeHas(all, limit, j);
      assert NewestFirst(all[i], all[j]);
    }
  }

  /** And newest first. When the runs name something, it is not looked at. */
  lemma FallbackIsOrdered(runs: seq<Run>, artifacts: seq<Artifact>, limit: int, include_debug: bool)
    requires limit >= 1 && Mentioned(runs, artifacts, include_debug) == []
    ensures var r := Recent(runs, artifacts, limit, include_debug);
            && r == SliceTo(Newest(artifacts, include_debug), limit)
            && forall i, j :: 0 <= i < j < |r| ==> r[i].created_at >= r[j].created_at
  {
    hide Sort, Filter, Values, PutAll, Shown, Resolved, AllRefs;
    ReferencesAreMentioned(runs, artifacts, include_debug);
    SortSorts(Filter(Values(PutAll([], Keyed(artifacts, IdOf))), Shown(include_debug)), NewestFirst);
    var all := Newest(artifacts, include_debug);
    assert forall i, j :: 0 <= i < j < |all| ==> NewestFirst(all[i], all[j]);
  }
}
