/** Generations of a repository's replicas (internal/praefect/coordinator.go,
    internal/praefect/replicator.go), as a machine in which mutators, replication jobs and accessors
    of one repository interleave and may fail at any step.

    The database operations are those of internal/praefect/datastore/repository_store.go: `generation`
    is the row in `repositories`, `records` the rows in `storage_repositories`. A replica's contents
    are the set of writes it holds. */
module Generations {
  import opened Prelude

  type Storage = nat
  type Write = nat

  /** A mutator in flight: it was routed to a consistent primary and consistent secondaries, and its
      write has been committed to disk on those in `applied`. */
  datatype Mutator = Mutator(primary: Storage, secondaries: set<Storage>, write: Write, applied: set<Storage>)

  /** A replication job in flight, by target. `generation` is what GetReplicatedGeneration returned;
      None stands for GenerationUnknown. */
  datatype Job =
    | Begun(source: Storage, generation: Option<nat>)
    | Copying(source: Storage, generation: Option<nat>, snapshot: set<Write>)
    | Copied(source: Storage, generation: Option<nat>)

  datatype State = State(
    generation: nat,
    records: map<Storage, nat>,
    writes: seq<set<Write>>,          // the writes recorded with each generation
    disk: map<Storage, set<Write>>,
    mutators: map<nat, Mutator>,
    jobs: map<Storage, Job>
  )

  datatype Action =
    // mutators
    | Route(m: nat, primary: Storage, secondaries: set<Storage>, write: Write)
    | Apply(m: nat, on: Storage)
    | Increment(m: nat, updated: set<Storage>)
    | Abandon(m: nat)
    // replication jobs
    | Begin(target: Storage, source: Storage)
    | Snapshot(target: Storage)
    | CopySome(target: Storage, contents: set<Write>)
    | CopyDone(target: Storage)
    | SetGeneration(target: Storage)
    | InvalidSource(target: Storage)
    | JobFails(target: Storage)

  predicate Consistent(s: State, x: Storage) {
    x in s.records && forall y :: y in s.records ==> s.records[y] <= s.records[x]
  }

  function Participants(m: Mutator): set<Storage> {
    m.secondaries + {m.primary}
  }

  function Contents(s: State, x: Storage): set<Write> {
    if x in s.disk then s.disk[x] else {}
  }

  /** Writes not seen before have no generation, no mutator, and are on no disk and in no snapshot. */
  ghost predicate Unused(s: State, w: Write) {
    && (forall i :: 0 <= i < |s.writes| ==> w !in s.writes[i])
    && (forall m :: m in s.mutators ==> s.mutators[m].write != w)
    && Absent(s, w)
  }

  ghost predicate Absent(s: State, w: Write) {
    && (forall x :: x in s.disk ==> w !in s.disk[x])
    && (forall t :: t in s.jobs && s.jobs[t].Copying? ==> w !in s.jobs[t].snapshot)
  }

  /** GetReplicatedGeneration: refused when the target is known and not behind the source. */
  predicate Upgrades(s: State, source: Storage, target: Storage) {
    target !in s.records || (source in s.records && s.records[target] < s.records[source])
  }

  ghost predicate Enabled(s: State, a: Action) {
    match a
    case Route(m, primary, secondaries, w) =>
      && m !in s.mutators && Unused(s, w) && primary !in secondaries
      && Consistent(s, primary) && forall x :: x in secondaries ==> Consistent(s, x)
    case Apply(m, on) => m in s.mutators && on in Participants(s.mutators[m])
    // Secondaries count as updated only if they did what the primary did: committed, or failed alike.
    case Increment(m, updated) =>
      && m in s.mutators && updated <= s.mutators[m].secondaries
      && (s.mutators[m].primary in s.mutators[m].applied ==> updated <= s.mutators[m].applied)
    case Abandon(m) => m in s.mutators
    case Begin(target, source) => target !in s.jobs && source != target && Upgrades(s, source, target)
    case Snapshot(target) => target in s.jobs && s.jobs[target].Begun?
    case CopySome(target, contents) =>
      && target in s.jobs && s.jobs[target].Copying?
      && Contents(s, target) * s.jobs[target].snapshot <= contents <= Contents(s, target) + s.jobs[target].snapshot
    case CopyDone(target) => target in s.jobs && s.jobs[target].Copying?
    case SetGeneration(target) => target in s.jobs && s.jobs[target].Copied?
    case InvalidSource(target) => target in s.jobs && s.jobs[target].Begun?
    case JobFails(target) => target in s.jobs
  }

  /** IncrementGeneration: the listed replicas that are at the repository's generation go up by one,
      and so does the repository; if there is none, nothing changes. */
  function Raised(s: State, listed: set<Storage>): set<Storage> {
    set x | x in listed && x in s.records && s.records[x] == s.generation
  }

  ghost function Step(s: State, a: Action): State
    requires Enabled(s, a)
  {
    match a
    case Route(m, primary, secondaries, w) => s.(mutators := s.mutators[m := Mutator(primary, secondaries, w, {})])
    case Apply(m, on) =>
      var mut := s.mutators[m];
      s.(disk := s.disk[on := Contents(s, on) + {mut.write}], mutators := s.mutators[m := mut.(applied := mut.applied + {on})])
    case Increment(m, updated) =>
      var mut := s.mutators[m];
      var raised := Raised(s, updated + {mut.primary});
      var t := s.(mutators := s.mutators - {m});
      if raised == {} then t
      else t.(generation := s.generation + 1,
              records := map x | x in s.records :: if x in raised then s.generation + 1 else s.records[x],
              writes := s.writes + [if mut.primary in mut.applied then {mut.write} else {}])
    case Abandon(m) => s.(mutators := s.mutators - {m})
    case Begin(target, source) =>
      s.(jobs := s.jobs[target := Begun(source, if source in s.records then Some(s.records[source]) else None)])
    case Snapshot(target) =>
      var j := s.jobs[target];
      s.(jobs := s.jobs[target := Copying(j.source, j.generation, Contents(s, j.source))])
    case CopySome(target, contents) => s.(disk := s.disk[target := contents])
    case CopyDone(target) =>
      var j := s.jobs[target];
      s.(disk := s.disk[target := j.snapshot], jobs := s.jobs[target := Copied(j.source, j.generation)])
    case SetGeneration(target) =>
      var t := s.(jobs := s.jobs - {target});
      if s.jobs[target].generation.None? then t
      else
        var g := s.jobs[target].generation.value;
        t.(records := s.records[target := g], generation := if s.generation < g then g else s.generation)
    case InvalidSource(target) =>
      s.(records := s.records - {s.jobs[target].source}, jobs := s.jobs - {target})
    case JobFails(target) => s.(jobs := s.jobs - {target})
  }

  /** A repository just created on some of its storages. */
  predicate Initial(s: State) {
    && s.generation == 0 && s.writes == [{}] && s.mutators == map[] && s.jobs == map[]
    && s.records != map[] && forall x :: x in s.records ==> s.records[x] == 0
  }

  ghost function After(s: State, h: seq<Action>): Option<State> {
    if h == [] then Some(s)
    else
      var before := After(s, h[..|h| - 1]);
      if before.Some? && Enabled(before.value, h[|h| - 1]) then Some(Step(before.value, h[|h| - 1])) else None
  }

  // ---- careful steps --------------------------------------------------------------------------

  /** The job brings its target to the repository's generation. */
  predicate Newest(s: State, target: Storage) {
    target in s.jobs && s.jobs[target].generation == Some(s.generation)
  }

  predicate TakesPart(s: State, m: nat, x: Storage) {
    m in s.mutators && x in Participants(s.mutators[m])
  }

  /** What a copy leaves on its target. */
  function Copy(s: State, a: Action): set<Write>
    requires (a.CopySome? || a.CopyDone?) && a.target in s.jobs && s.jobs[a.target].Copying?
  {
    if a.CopySome? then a.contents else s.jobs[a.target].snapshot
  }

  /** Job `t` has read the generation of replica `x` and has not taken its snapshot yet. */
  predicate Expects(s: State, t: Storage, x: Storage) {
    t in s.jobs && s.jobs[t].Begun? && s.jobs[t].source == x && s.jobs[t].generation.Some?
  }

  /** `contents` has the writes recorded after generation `known`, up to and including `g`. */
  ghost predicate Brings(s: State, contents: set<Write>, known: Option<nat>, g: nat) {
    forall i :: 0 <= i <= g && i < |s.writes| && (known.Some? ==> known.value < i) ==> s.writes[i] <= contents
  }

  /** A step is careful unless it is one of these:
      - a job to the newest generation takes its snapshot from a source that lacks the write of a
        mutator in which the job's target takes part;
      - a mutator is routed to a replica onto which such a job is copying;
      - a copy lacks a write of a generation that is newer than the copy's own, on a replica from
        which another job has read that generation. */
  ghost predicate Careful(s: State, a: Action)
    requires Enabled(s, a)
  {
    match a
    case Snapshot(x) => Newest(s, x) ==>
      forall m :: TakesPart(s, m, x) ==> s.mutators[m].write in Contents(s, s.jobs[x].source)
    case Route(_, primary, secondaries, _) =>
      forall x :: x in secondaries + {primary} && Newest(s, x) ==> !s.jobs[x].Copying?
    case CopySome(x, _) => forall t :: Expects(s, t, x) ==> Brings(s, Copy(s, a), s.jobs[x].generation, s.jobs[t].generation.value)
    case CopyDone(x) => forall t :: Expects(s, t, x) ==> Brings(s, Copy(s, a), s.jobs[x].generation, s.jobs[t].generation.value)
    case _ => true
  }

  ghost predicate CarefulRun(s: State, h: seq<Action>)
    requires After(s, h).Some?
  {
    h == [] || (Careful(After(s, h[..|h| - 1]).value, h[|h| - 1]) && CarefulRun(s, h[..|h| - 1]))
  }

  // ---- the invariant --------------------------------------------------------------------------

  /** `contents` holds every write of the first generations, up to and including `g`. */
  ghost predicate Holds(writes: seq<set<Write>>, contents: set<Write>, g: nat) {
    forall i :: 0 <= i <= g && i < |writes| ==> writes[i] <= contents
  }

  ghost predicate RecordsOk(s: State) {
    && |s.writes| == s.generation + 1
    && forall x :: x in s.records ==> s.records[x] <= s.generation && Holds(s.writes, Contents(s, x), s.records[x])
  }

  ghost predicate Applied(s: State, m: nat, x: Storage) {
    m in s.mutators && x in s.mutators[m].applied
  }

  /** The replica is not at the repository's generation, nor about to be recorded there. */
  predicate Low(s: State, x: Storage) {
    (x in s.records ==> s.records[x] < s.generation) && !(Newest(s, x) && s.jobs[x].Copied?)
  }

  /** What a mutator has applied is there, unless the replica is low. */
  ghost predicate AppliedOk(s: State) {
    forall m, x :: Applied(s, m, x) ==> TakesPart(s, m, x) && (s.mutators[m].write in Contents(s, x) || Low(s, x))
  }

  /** The snapshot that is to make `x` the newest has the writes in flight on `x`. */
  ghost predicate SnapshotsOk(s: State) {
    forall m, x :: TakesPart(s, m, x) && Newest(s, x) && s.jobs[x].Copying? ==> s.mutators[m].write in s.jobs[x].snapshot
  }

  /** A job knows a generation that the target has not, and whose writes are on the source, then in
      the snapshot, and finally on the target. */
  ghost predicate JobOk(s: State, target: Storage, j: Job) {
    && j.source != target
    && (j.generation.None? ==> target !in s.records)
    && (j.generation.Some? ==>
          var g := j.generation.value;
          && g <= s.generation && (target in s.records ==> s.records[target] < g)
          && Holds(s.writes, if j.Begun? then Contents(s, j.source) else if j.Copying? then j.snapshot else Contents(s, target), g))
  }

  ghost predicate JobsOk(s: State) {
    forall t :: t in s.jobs ==> JobOk(s, t, s.jobs[t])
  }

  ghost predicate Inv(s: State) {
    RecordsOk(s) && AppliedOk(s) && SnapshotsOk(s) && JobsOk(s)
  }

  lemma RecordsIncrement(s: State, m: nat, updated: set<Storage>)
    requires Inv(s) && Enabled(s, Increment(m, updated))
    ensures RecordsOk(Step(s, Increment(m, updated)))
  {
    var mut := s.mutators[m];
    forall x | x in Raised(s, updated + {mut.primary}) && mut.primary in mut.applied ensures mut.write in Contents(s, x) {
      assert Applied(s, m, x);
    }
  }

  lemma RecordsJob(s: State, a: Action)
    requires RecordsOk(s) && Enabled(s, a) && (a.CopySome? || a.CopyDone? || a.SetGeneration? || a.InvalidSource?)
    requires JobOk(s, a.target, s.jobs[a.target])
    ensures RecordsOk(Step(s, a))
  {
  }

  lemma RecordsStep(s: State, a: Action)
    requires Inv(s) && Enabled(s, a)
    ensures RecordsOk(Step(s, a))
  {
    if a.Increment? {
      RecordsIncrement(s, a.m, a.updated);
    } else if a.CopySome? || a.CopyDone? || a.SetGeneration? || a.InvalidSource? {
      RecordsJob(s, a);
    }
  }

  lemma AppliedStays(s: State, a: Action, m: nat, x: Storage)
    requires Inv(s) && Enabled(s, a) && Applied(Step(s, a), m, x)
    ensures var t := Step(s, a); TakesPart(t, m, x) && (t.mutators[m].write in Contents(t, x) || Low(t, x))
  {
    assert Applied(s, m, x) || a == Apply(m, x);
    if x in s.jobs { assert JobOk(s, x, s.jobs[x]); }
  }

  lemma AppliedStep(s: State, a: Action)
    requires Inv(s) && Enabled(s, a)
    ensures AppliedOk(Step(s, a))
  {
    var t := Step(s, a);
    forall m, x | Applied(t, m, x) ensures TakesPart(t, m, x) && (t.mutators[m].write in Contents(t, x) || Low(t, x)) {
      AppliedStays(s, a, m, x);
    }
  }

  lemma SnapshotStays(s: State, a: Action, m: nat, x: Storage)
    requires Inv(s) && Enabled(s, a) && Careful(s, a)
    requires var t := Step(s, a); TakesPart(t, m, x) && Newest(t, x) && t.jobs[x].Copying?
    ensures Step(s, a).mutators[m].write in Step(s, a).jobs[x].snapshot
  {
    if x in s.jobs { assert JobOk(s, x, s.jobs[x]); }
    assert TakesPart(s, m, x) || a.Route?;
  }

  lemma SnapshotsStep(s: State, a: Action)
    requires Inv(s) && Enabled(s, a) && Careful(s, a)
    ensures SnapshotsOk(Step(s, a))
  {
    var t := Step(s, a);
    forall m, x | TakesPart(t, m, x) && Newest(t, x) && t.jobs[x].Copying? ensures t.mutators[m].write in t.jobs[x].snapshot {
      SnapshotStays(s, a, m, x);
    }
  }

  /** A job's own steps. */
  lemma JobMoves(s: State, a: Action)
    requires RecordsOk(s) && JobsOk(s) && Enabled(s, a) && (a.Begin? || a.Snapshot? || a.CopySome? || a.CopyDone?)
    ensures JobOk(Step(s, a), a.target, Step(s, a).jobs[a.target])
  {
    if !a.Begin? { assert JobOk(s, a.target, s.jobs[a.target]); }
  }

  /** What mutators do leaves a job as it should be: its target is behind, so nobody raises it. */
  lemma JobBesideMutator(s: State, a: Action, t: Storage)
    requires RecordsOk(s) && JobsOk(s) && Enabled(s, a) && t in s.jobs
    requires a.Route? || a.Apply? || a.Increment? || a.Abandon?
    ensures JobOk(Step(s, a), t, s.jobs[t])
  {
    assert JobOk(s, t, s.jobs[t]);
  }

  /** A careful copy leaves its target fit to be copied from. */
  lemma CopyHolds(s: State, a: Action, t: Storage)
    requires JobsOk(s) && Enabled(s, a) && Careful(s, a) && (a.CopySome? || a.CopyDone?) && Expects(s, t, a.target)
    ensures Holds(s.writes, Copy(s, a), s.jobs[t].generation.value)
  {
    var own, g := s.jobs[a.target].generation, s.jobs[t].generation.value;
    assert JobOk(s, t, s.jobs[t]) && JobOk(s, a.target, s.jobs[a.target]);
    assert Brings(s, Copy(s, a), own, g);
  }

  /** What other jobs do leaves a job as it should be. */
  lemma JobBesideJob(s: State, a: Action, t: Storage)
    requires JobsOk(s) && Enabled(s, a) && Careful(s, a) && t in s.jobs
    requires !a.Route? && !a.Apply? && !a.Increment? && !a.Abandon? && a.target != t
    ensures JobOk(Step(s, a), t, s.jobs[t])
  {
    assert JobOk(s, t, s.jobs[t]);
    if a.CopySome? || a.CopyDone? {
      if Expects(s, t, a.target) { CopyHolds(s, a, t); }
    } else if a.target in s.jobs {
      assert JobOk(s, a.target, s.jobs[a.target]);
    }
  }

  lemma JobsStep(s: State, a: Action)
    requires RecordsOk(s) && JobsOk(s) && Enabled(s, a) && Careful(s, a)
    ensures JobsOk(Step(s, a))
  {
    forall t | t in Step(s, a).jobs ensures JobOk(Step(s, a), t, Step(s, a).jobs[t]) {
      if a.Route? || a.Apply? || a.Increment? || a.Abandon? {
        JobBesideMutator(s, a, t);
      } else if a.target == t {
        JobMoves(s, a);
      } else {
        JobBesideJob(s, a, t);
      }
    }
  }

  lemma InvStep(s: State, a: Action)
    requires Inv(s) && Enabled(s, a) && Careful(s, a)
    ensures Inv(Step(s, a))
  {
    RecordsStep(s, a);
    AppliedStep(s, a);
    SnapshotsStep(s, a);
    JobsStep(s, a);
  }

  lemma {:induction false} InvFrom(s: State, h: seq<Action>)
    requires Inv(s) && After(s, h).Some? && CarefulRun(s, h)
    ensures Inv(After(s, h).value)
  {
    if h != [] {
      InvFrom(s, h[..|h| - 1]);
      InvStep(After(s, h[..|h| - 1]).value, h[|h| - 1]);
    }
  }

  /** Some replica lacks a write recorded up to its own generation. */
  ghost predicate Overstated(s: State) {
    exists x :: x in s.records && !Holds(s.writes, Contents(s, x), s.records[x])
  }

  /** Recorded generations never overstate contents: in every careful run, with any number of mutators
      and jobs in flight, whatever fails and whatever records are dropped, a replica holds every write
      recorded up to its own generation. */
  lemma NeverOverstated(s: State, h: seq<Action>)
    requires Initial(s) && After(s, h).Some? && CarefulRun(s, h)
    ensures !Overstated(After(s, h).value)
  {
    InvFrom(s, h);
  }

  // ---- runs -----------------------------------------------------------------------------------

  lemma AfterThen(s: State, h: seq<Action>, t: State, a: Action, u: State)
    requires After(s, h) == Some(t) && Enabled(t, a) && u == Step(t, a)
    ensures After(s, h + [a]) == Some(u)
    ensures CarefulRun(s, h) && Careful(t, a) ==> CarefulRun(s, h + [a])
  {
    assert (h + [a])[..|h|] == h;
  }

  lemma {:induction false} RunsJoin(s: State, h: seq<Action>, t: State, rest: seq<Action>)
    requires After(s, h) == Some(t) && After(t, rest).Some?
    ensures After(s, h + rest) == After(t, rest)
    ensures CarefulRun(s, h) && CarefulRun(t, rest) ==> CarefulRun(s, h + rest)
  {
    if rest == [] {
      assert h + rest == h;
    } else {
      var n := |rest| - 1;
      assert (h + rest)[..|h + rest| - 1] == h + rest[..n];
      RunsJoin(s, h, t, rest[..n]);
    }
  }

  // ---- accessors ------------------------------------------------------------------------------

  /** Some replica is at the repository's generation. */
  ghost predicate Intact(s: State) {
    exists x :: AtNewest(s, x)
  }

  predicate AtNewest(s: State, x: Storage) {
    x in s.records && s.records[x] == s.generation
  }

  /** The step does not drop the record of the only replica at the repository's generation. */
  ghost predicate SparesNewest(s: State, a: Action) {
    a.InvalidSource? && a.target in s.jobs ==> exists y :: y != s.jobs[a.target].source && AtNewest(s, y)
  }

  /** That, and nothing else, loses the newest replica. */
  lemma IntactExactly(s: State, a: Action)
    requires RecordsOk(s) && JobsOk(s) && Enabled(s, a) && Intact(s)
    ensures Intact(Step(s, a)) <==> SparesNewest(s, a)
  {
    var t := Step(s, a);
    var x :| AtNewest(s, x);
    if a.InvalidSource? {
      forall y ensures AtNewest(t, y) <==> AtNewest(s, y) && y != s.jobs[a.target].source {}
    } else if a.Increment? && t.generation != s.generation {
      var y :| y in Raised(s, a.updated + {s.mutators[a.m].primary});
      assert AtNewest(t, y);
    } else {
      if a.SetGeneration? { assert JobOk(s, a.target, s.jobs[a.target]); }
      assert AtNewest(t, x);
    }
  }

  ghost predicate NewestSpared(s: State, h: seq<Action>)
    requires After(s, h).Some?
  {
    h == [] || (SparesNewest(After(s, h[..|h| - 1]).value, h[|h| - 1]) && NewestSpared(s, h[..|h| - 1]))
  }

  lemma {:induction false} IntactRun(s: State, h: seq<Action>)
    requires Initial(s) && After(s, h).Some? && CarefulRun(s, h) && NewestSpared(s, h)
    ensures Intact(After(s, h).value)
  {
    if h == [] {
      var x :| x in s.records;
      assert AtNewest(s, x);
    } else {
      var n := |h| - 1;
      IntactRun(s, h[..n]);
      InvFrom(s, h[..n]);
      IntactExactly(After(s, h[..n]).value, h[n]);
    }
  }

  lemma {:induction false} WritesGrow(s: State, h: seq<Action>, rest: seq<Action>)
    requires After(s, h + rest).Some?
    ensures After(s, h).Some? && After(s, h).value.writes <= After(s, h + rest).value.writes
  {
    if rest == [] {
      assert h + rest == h;
    } else {
      assert (h + rest)[..|h + rest| - 1] == h + rest[..|rest| - 1];
      WritesGrow(s, h, rest[..|rest| - 1]);
      WritesStep(After(s, h + rest[..|rest| - 1]).value, rest[|rest| - 1]);
    }
  }

  lemma WritesStep(s: State, a: Action)
    requires Enabled(s, a)
    ensures s.writes <= Step(s, a).writes
  {
  }

  /** An accessor sees every acknowledged write. Once a mutator whose primary committed has raised
      the generation, its write is on every replica that counts as consistent at any later time at
      which some replica is at the repository's generation, whatever records have been dropped. */
  lemma AcknowledgedWritesAreServed(s: State, h: seq<Action>, m: nat, updated: set<Storage>, rest: seq<Action>, x: Storage)
    requires var all := h + [Increment(m, updated)] + rest;
             && Initial(s) && After(s, all).Some? && CarefulRun(s, all)
             && Intact(After(s, all).value) && Consistent(After(s, all).value, x)
    requires After(s, h).Some? && m in After(s, h).value.mutators
    requires var t := After(s, h).value; var mut := t.mutators[m];
             mut.primary in mut.applied && Raised(t, updated + {mut.primary}) != {}
    ensures After(s, h).value.mutators[m].write in Contents(After(s, h + [Increment(m, updated)] + rest).value, x)
  {
    var h1 := h + [Increment(m, updated)];
    var w := After(s, h).value.mutators[m].write;
    assert h1[..|h1| - 1] == h;
    WritesGrow(s, h1, rest);
    var t, u := After(s, h1).value, After(s, h1 + rest).value;
    var g := |t.writes| - 1;
    assert w in t.writes[g] && w in u.writes[g];
    InvFrom(s, h1 + rest);
    var y :| AtNewest(u, y);
    assert u.records[y] <= u.records[x];
    assert Holds(u.writes, Contents(u, x), u.records[x]);
  }
}
