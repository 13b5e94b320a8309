/** When runs of `Generations` are careful, and what happens when they are not: the condition under
    which recorded generations never overstate contents is exact, it follows from guards on jobs and
    dropped records, and without them there are runs that break it. */
module GenerationGuards {
  import opened Prelude
  import opened Generations

  // ---- the condition is exact -----------------------------------------------------------------

  ghost predicate Dooms(s: State, rest: seq<Action>) {
    After(s, rest).Some? && CarefulRun(s, rest) && Overstated(After(s, rest).value)
  }

  /** Careful steps lead from `s` to a record that overstates. */
  ghost predicate Doomed(s: State) {
    exists rest :: Dooms(s, rest)
  }

  lemma SoundNotDoomed(s: State)
    requires Inv(s)
    ensures !Doomed(s)
  {
    forall rest | After(s, rest).Some? && CarefulRun(s, rest) ensures !Overstated(After(s, rest).value) {
      InvFrom(s, rest);
    }
  }

  /** Mutator `m` writes to `x` and to its primary, and then a finished copy replaces `x`. */
  lemma WriteReplaced(s: State, m: nat, x: Storage) returns (h: seq<Action>, t: State)
    requires JobsOk(s) && TakesPart(s, m, x) && Newest(s, x) && s.jobs[x].Copying?
    ensures After(s, h) == Some(t) && CarefulRun(s, h)
    ensures t.generation == s.generation && t.writes == s.writes && t.records == s.records
    ensures Contents(t, x) == s.jobs[x].snapshot && Newest(t, x) && t.jobs[x].Copied?
    ensures m in t.mutators && t.mutators[m].(applied := {}) == s.mutators[m].(applied := {})
    ensures {x, s.mutators[m].primary} <= t.mutators[m].applied
  {
    var p := s.mutators[m].primary;
    var s1 := Step(s, Apply(m, x));
    AfterThen(s, [], s, Apply(m, x), s1);
    h := [] + [Apply(m, x)];
    var s2 := Step(s1, Apply(m, p));
    AfterThen(s, h, s1, Apply(m, p), s2);
    h := h + [Apply(m, p)];
    NewestCopies(s, s2, x);
    t := Step(s2, CopyDone(x));
    AfterThen(s, h, s2, CopyDone(x), t);
    h := h + [CopyDone(x)];
  }

  /** A copy of the newest generation disappoints nobody. */
  lemma NewestCopies(s: State, t: State, x: Storage)
    requires JobsOk(s) && t.jobs == s.jobs && t.generation == s.generation
    requires Newest(t, x) && t.jobs[x].Copying?
    ensures Careful(t, CopyDone(x))
  {
    forall j | Expects(t, j, x) ensures Brings(t, Copy(t, CopyDone(x)), t.jobs[x].generation, t.jobs[j].generation.value) {
      assert JobOk(s, j, s.jobs[j]);
    }
  }

  /** If a snapshot for the newest generation lacks a write in flight on the target, the write can be
      lost and recorded nevertheless. */
  lemma LostWriteDooms(s: State, m: nat, x: Storage)
    requires RecordsOk(s) && JobsOk(s) && TakesPart(s, m, x) && Newest(s, x) && s.jobs[x].Copying?
    requires s.mutators[m].write !in s.jobs[x].snapshot
    ensures Doomed(s)
  {
    var h, t := WriteReplaced(s, m, x);
    var mut := t.mutators[m];
    var t1 := Step(t, SetGeneration(x));
    AfterThen(s, h, t, SetGeneration(x), t1);
    h := h + [SetGeneration(x)];
    var updated := if x in mut.secondaries then {x} else {};
    assert x in Raised(t1, updated + {mut.primary});
    var t2 := Step(t1, Increment(m, updated));
    AfterThen(s, h, t1, Increment(m, updated), t2);
    h := h + [Increment(m, updated)];
    var n := |s.writes|;
    assert t2.writes[n] == {mut.write} && t2.records[x] == n && Contents(t2, x) == s.jobs[x].snapshot;
    assert mut.write in t2.writes[n];
    assert Dooms(s, h);
  }

  lemma {:induction false} AbandonAll(s: State) returns (h: seq<Action>)
    ensures After(s, h) == Some(s.(mutators := map[])) && CarefulRun(s, h)
    decreases |s.mutators|
  {
    if s.mutators == map[] {
      h := [];
      assert s == s.(mutators := map[]);
    } else {
      var m :| m in s.mutators;
      var t := Step(s, Abandon(m));
      assert t.mutators.Keys == s.mutators.Keys - {m};
      AfterThen(s, [], s, Abandon(m), t);
      var rest := AbandonAll(t);
      RunsJoin(s, [] + [Abandon(m)], t, rest);
      h := [Abandon(m)] + rest;
      assert [] + [Abandon(m)] == [Abandon(m)];
    }
  }

  lemma {:induction false} FailOthers(s: State, keep: Storage) returns (h: seq<Action>)
    requires keep in s.jobs
    ensures After(s, h) == Some(s.(jobs := map[keep := s.jobs[keep]])) && CarefulRun(s, h)
    decreases |s.jobs|
  {
    if forall j :: j in s.jobs ==> j == keep {
      h := [];
      assert s.jobs == map[keep := s.jobs[keep]];
    } else {
      var j :| j in s.jobs && j != keep;
      var t := Step(s, JobFails(j));
      assert t.jobs.Keys == s.jobs.Keys - {j};
      AfterThen(s, [], s, JobFails(j), t);
      var rest := FailOthers(t, keep);
      RunsJoin(s, [] + [JobFails(j)], t, rest);
      h := [JobFails(j)] + rest;
      assert [] + [JobFails(j)] == [JobFails(j)];
    }
  }

  /** All mutators give up and all other jobs fail. */
  lemma Quiesce(s: State, keep: Storage) returns (h: seq<Action>)
    requires keep in s.jobs
    ensures After(s, h) == Some(s.(mutators := map[], jobs := map[keep := s.jobs[keep]])) && CarefulRun(s, h)
  {
    var h1 := AbandonAll(s);
    var t := s.(mutators := map[]);
    var h2 := FailOthers(t, keep);
    RunsJoin(s, h1, t, h2);
    h := h1 + h2;
  }

  /** The only job there is copies from a replica that lacks a write it expects. */
  lemma LonelyCopy(s: State, j: Storage, x: Storage) returns (h: seq<Action>, t: State)
    requires Expects(s, j, x) && j != x && s.mutators == map[] && s.jobs.Keys == {j}
    ensures After(s, h) == Some(t) && CarefulRun(s, h)
    ensures t.jobs == map[j := Copied(x, s.jobs[j].generation)]
    ensures Contents(t, j) == Contents(s, x) && t.writes == s.writes && t.generation == s.generation && t.records == s.records
  {
    var t1 := Step(s, Snapshot(j));
    AfterThen(s, [], s, Snapshot(j), t1);
    h := [] + [Snapshot(j)];
    assert forall k :: !Expects(t1, k, j);
    t := Step(t1, CopyDone(j));
    AfterThen(s, h, t1, CopyDone(j), t);
    h := h + [CopyDone(j)];
  }

  lemma LonelyJob(s: State, j: Storage, x: Storage)
    requires Expects(s, j, x) && j != x && s.mutators == map[] && s.jobs.Keys == {j}
    requires !Holds(s.writes, Contents(s, x), s.jobs[j].generation.value)
    ensures Doomed(s)
  {
    var h, t := LonelyCopy(s, j, x);
    var t1 := Step(t, SetGeneration(j));
    AfterThen(s, h, t, SetGeneration(j), t1);
    assert j in t1.records && Contents(t1, j) == Contents(s, x) && t1.writes == s.writes;
    assert Dooms(s, h + [SetGeneration(j)]);
  }

  lemma DoomedBefore(s: State, h: seq<Action>, t: State)
    requires After(s, h) == Some(t) && CarefulRun(s, h) && Doomed(t)
    ensures Doomed(s)
  {
    var rest :| Dooms(t, rest);
    RunsJoin(s, h, t, rest);
    assert Dooms(s, h + rest);
  }

  /** If a job expects a generation of a replica that lacks one of its writes, its target can be
      recorded there. */
  lemma Disappointed(s: State, j: Storage, x: Storage)
    requires Expects(s, j, x) && j != x && !Holds(s.writes, Contents(s, x), s.jobs[j].generation.value)
    ensures Doomed(s)
  {
    var h := Quiesce(s, j);
    var t := s.(mutators := map[], jobs := map[j := s.jobs[j]]);
    LonelyJob(t, j, x);
    DoomedBefore(s, h, t);
  }

  lemma CarelessRoute(s: State, a: Action)
    requires Inv(s) && Enabled(s, a) && a.Route? && !Careful(s, a)
    ensures Doomed(Step(s, a))
  {
    var t := Step(s, a);
    var x :| x in a.secondaries + {a.primary} && Newest(s, x) && s.jobs[x].Copying?;
    RecordsStep(s, a);
    forall j | j in t.jobs ensures JobOk(t, j, t.jobs[j]) { JobBesideMutator(s, a, j); }
    LostWriteDooms(t, a.m, x);
  }

  lemma CarelessSnapshot(s: State, x: Storage)
    requires Inv(s) && Enabled(s, Snapshot(x)) && !Careful(s, Snapshot(x))
    ensures Doomed(Step(s, Snapshot(x)))
  {
    var a := Snapshot(x);
    var t := Step(s, a);
    var m :| TakesPart(s, m, x) && s.mutators[m].write !in Contents(s, s.jobs[x].source);
    RecordsStep(s, a);
    forall j | j in t.jobs ensures JobOk(t, j, t.jobs[j]) {
      assert JobOk(s, j, s.jobs[j]);
      if j == x { JobMoves(s, a); }
    }
    LostWriteDooms(t, m, x);
  }

  lemma CarelessCopy(s: State, a: Action)
    requires Inv(s) && Enabled(s, a) && (a.CopySome? || a.CopyDone?) && !Careful(s, a)
    ensures Doomed(Step(s, a))
  {
    var x := a.target;
    var j :| Expects(s, j, x) && !Brings(s, Copy(s, a), s.jobs[x].generation, s.jobs[j].generation.value);
    assert JobOk(s, j, s.jobs[j]);
    Disappointed(Step(s, a), j, x);
  }

  /** The condition is exact. After any careful run, careful steps can lead on from a further step to a
      record that overstates its replica's contents if and only if that step is not careful. */
  lemma CarefulExactly(s: State, h: seq<Action>, a: Action)
    requires Initial(s) && After(s, h).Some? && CarefulRun(s, h) && Enabled(After(s, h).value, a)
    ensures Doomed(Step(After(s, h).value, a)) <==> !Careful(After(s, h).value, a)
  {
    InvFrom(s, h);
    var u := After(s, h).value;
    if Careful(u, a) {
      InvStep(u, a);
      SoundNotDoomed(Step(u, a));
    } else if a.Route? {
      CarelessRoute(u, a);
    } else if a.Snapshot? {
      CarelessSnapshot(u, a.target);
    } else {
      CarelessCopy(u, a);
    }
  }

  // ---- guards on jobs and on dropped records --------------------------------------------------

  /** No job to the repository's generation begins on a replica that takes part in a mutator. */
  ghost predicate KeepsApart(s: State, a: Action)
    requires Enabled(s, a)
  {
    a.Begin? && AtNewest(s, a.source) ==> forall m :: !TakesPart(s, m, a.target)
  }

  /** No record is dropped that another job relies on. */
  ghost predicate KeepsSources(s: State, a: Action)
    requires Enabled(s, a)
  {
    a.InvalidSource? ==> forall t :: t in s.jobs && t != a.target && s.jobs[t].generation.Some? ==>
                           s.jobs[t].source != s.jobs[a.target].source
  }

  ghost predicate GuardedRun(s: State, h: seq<Action>)
    requires After(s, h).Some?
  {
    h == [] || (var u, a := After(s, h[..|h| - 1]).value, h[|h| - 1];
                KeepsApart(u, a) && KeepsSources(u, a) && GuardedRun(s, h[..|h| - 1]))
  }

  /** Every job's source has the generation that the job knows. */
  ghost predicate SourceOk(s: State, t: Storage) {
    t in s.jobs && s.jobs[t].generation.Some? ==>
      s.jobs[t].source in s.records && s.jobs[t].generation.value <= s.records[s.jobs[t].source]
  }

  ghost predicate SourcesOk(s: State) {
    forall t :: SourceOk(s, t)
  }

  ghost predicate ApartOk(s: State) {
    forall m, x :: TakesPart(s, m, x) ==> !Newest(s, x)
  }

  lemma SourceStep(s: State, a: Action, t: Storage)
    requires RecordsOk(s) && JobsOk(s) && SourcesOk(s) && Enabled(s, a) && KeepsSources(s, a)
    ensures SourceOk(Step(s, a), t)
  {
    assert SourceOk(s, t);
    if a.SetGeneration? { assert JobOk(s, a.target, s.jobs[a.target]); }
  }

  /** The target of a job is behind its source, or unknown; so it is not consistent. */
  lemma TargetsInconsistent(s: State, x: Storage)
    requires JobsOk(s) && SourcesOk(s) && Consistent(s, x)
    ensures x !in s.jobs
  {
    assert SourceOk(s, x);
    assert x in s.jobs ==> JobOk(s, x, s.jobs[x]);
  }

  lemma ApartStays(s: State, a: Action, m: nat, x: Storage)
    requires RecordsOk(s) && JobsOk(s) && SourcesOk(s) && ApartOk(s) && Enabled(s, a) && KeepsApart(s, a)
    requires TakesPart(Step(s, a), m, x)
    ensures !Newest(Step(s, a), x)
  {
    if TakesPart(s, m, x) {
      assert !Newest(s, x);
      if x in s.jobs { assert JobOk(s, x, s.jobs[x]); }
      if a.SetGeneration? { assert JobOk(s, a.target, s.jobs[a.target]); }
    } else {
      assert Consistent(s, x);
      TargetsInconsistent(s, x);
    }
  }

  lemma GuardedIsCareful(s: State, a: Action)
    requires Inv(s) && SourcesOk(s) && ApartOk(s) && Enabled(s, a)
    ensures Careful(s, a)
  {
    match a
    case Route(_, primary, secondaries, _) =>
      forall x | x in secondaries + {primary} ensures x !in s.jobs {
        assert Consistent(s, x);
        TargetsInconsistent(s, x);
      }
    case CopySome(x, _) => SourcesSuffice(s, a);
    case CopyDone(x) => SourcesSuffice(s, a);
    case _ =>
  }

  /** A replica that others copy from is recorded, so a job onto it brings a newer generation. */
  lemma SourcesSuffice(s: State, a: Action)
    requires JobsOk(s) && SourcesOk(s) && Enabled(s, a) && (a.CopySome? || a.CopyDone?)
    ensures Careful(s, a)
  {
    var x := a.target;
    forall t | Expects(s, t, x) ensures Brings(s, Copy(s, a), s.jobs[x].generation, s.jobs[t].generation.value) {
      assert SourceOk(s, t) && JobOk(s, x, s.jobs[x]);
    }
  }

  lemma GuardedStep(s: State, a: Action)
    requires Inv(s) && SourcesOk(s) && ApartOk(s) && Enabled(s, a) && KeepsApart(s, a) && KeepsSources(s, a)
    ensures Inv(Step(s, a)) && SourcesOk(Step(s, a)) && ApartOk(Step(s, a))
  {
    GuardedIsCareful(s, a);
    InvStep(s, a);
    forall t ensures SourceOk(Step(s, a), t) { SourceStep(s, a, t); }
    forall m, x | TakesPart(Step(s, a), m, x) ensures !Newest(Step(s, a), x) { ApartStays(s, a, m, x); }
  }

  /** Any number of mutators may be in flight: if no job to the newest generation begins on a replica
      that takes part in one of them, and no record is dropped that another job relies on, then the
      run is careful. */
  lemma {:induction false} GuardedRunIsCareful(s: State, h: seq<Action>)
    requires Initial(s) && After(s, h).Some? && GuardedRun(s, h)
    ensures CarefulRun(s, h)
    ensures var u := After(s, h).value; Inv(u) && SourcesOk(u) && ApartOk(u)
  {
    if h != [] {
      var before := h[..|h| - 1];
      GuardedRunIsCareful(s, before);
      GuardedIsCareful(After(s, before).value, h[|h| - 1]);
      GuardedStep(After(s, before).value, h[|h| - 1]);
    }
  }

  // ---- serial mutators ------------------------------------------------------------------------

  /** Mutators of the repository run one after the other. */
  ghost predicate Serial(s: State, a: Action) {
    a.Route? ==> s.mutators == map[]
  }

  /** No record is dropped of a replica that takes part in a mutator. */
  ghost predicate KeepsParticipants(s: State, a: Action)
    requires Enabled(s, a)
  {
    a.InvalidSource? ==> forall m :: !TakesPart(s, m, s.jobs[a.target].source)
  }

  ghost predicate SerialRun(s: State, h: seq<Action>)
    requires After(s, h).Some?
  {
    h == [] || (var u, a := After(s, h[..|h| - 1]).value, h[|h| - 1];
                Serial(u, a) && KeepsParticipants(u, a) && KeepsSources(u, a) && SerialRun(s, h[..|h| - 1]))
  }

  ghost predicate SerialOk(s: State) {
    && (forall m, n :: m in s.mutators && n in s.mutators ==> m == n)
    && (forall m, x :: TakesPart(s, m, x) ==> Consistent(s, x))
  }

  /** A consistent replica needs no job. */
  lemma SerialIsApart(s: State, a: Action)
    requires SerialOk(s) && Enabled(s, a)
    ensures KeepsApart(s, a)
  {
    if a.Begin? {
      forall m | TakesPart(s, m, a.target) ensures !AtNewest(s, a.source) {
        assert Consistent(s, a.target);
      }
    }
  }

  lemma ConsistentStays(s: State, a: Action, m: nat, x: Storage)
    requires RecordsOk(s) && JobsOk(s) && SourcesOk(s) && SerialOk(s) && Enabled(s, a) && Serial(s, a) && KeepsParticipants(s, a)
    requires TakesPart(Step(s, a), m, x)
    ensures Consistent(Step(s, a), x)
  {
    if TakesPart(s, m, x) {
      assert Consistent(s, x);
      TargetsInconsistent(s, x);
      if a.SetGeneration? { assert SourceOk(s, a.target); }
    } else {
      assert Consistent(s, x);
    }
  }

  lemma SerialStep(s: State, a: Action)
    requires RecordsOk(s) && JobsOk(s) && SourcesOk(s) && SerialOk(s) && Enabled(s, a) && Serial(s, a) && KeepsParticipants(s, a)
    ensures SerialOk(Step(s, a))
  {
    var t := Step(s, a);
    assert !a.Route? ==> t.mutators.Keys <= s.mutators.Keys;
    forall m, x | TakesPart(t, m, x) ensures Consistent(t, x) { ConsistentStays(s, a, m, x); }
  }

  /** Serial mutators are guarded: if mutators run one after the other, and no record is dropped that
      a mutator or another job relies on, then no guard on jobs is needed. */
  lemma {:induction false} SerialRunIsGuarded(s: State, h: seq<Action>)
    requires Initial(s) && After(s, h).Some? && SerialRun(s, h)
    ensures GuardedRun(s, h) && SerialOk(After(s, h).value)
  {
    if h != [] {
      var before := h[..|h| - 1];
      SerialRunIsGuarded(s, before);
      GuardedRunIsCareful(s, before);
      SerialIsApart(After(s, before).value, h[|h| - 1]);
      SerialStep(After(s, before).value, h[|h| - 1]);
    }
  }

  // ---- the guard on jobs is needed ------------------------------------------------------------

  /** A write that has been applied nowhere is nowhere, and no two mutators have the same. */
  ghost predicate FreshOk(s: State) {
    && (forall m :: m in s.mutators && s.mutators[m].applied == {} ==> Absent(s, s.mutators[m].write))
    && (forall m, n :: m in s.mutators && n in s.mutators && s.mutators[m].write == s.mutators[n].write ==> m == n)
  }

  lemma FreshStep(s: State, a: Action)
    requires FreshOk(s) && Enabled(s, a)
    ensures FreshOk(Step(s, a))
  {
    var t := Step(s, a);
    forall m | m in t.mutators && t.mutators[m].applied == {} ensures Absent(t, t.mutators[m].write) {
      AbsentStays(s, a, m);
    }
  }

  lemma AbsentStays(s: State, a: Action, m: nat)
    requires FreshOk(s) && Enabled(s, a) && m in Step(s, a).mutators && Step(s, a).mutators[m].applied == {}
    ensures Absent(Step(s, a), Step(s, a).mutators[m].write)
  {
    if a.Snapshot? { assert s.jobs[a.target].source in s.disk || Contents(s, s.jobs[a.target].source) == {}; }
  }

  lemma {:induction false} FreshRun(s: State, h: seq<Action>)
    requires Initial(s) && After(s, h).Some?
    ensures FreshOk(After(s, h).value)
  {
    if h != [] {
      FreshRun(s, h[..|h| - 1]);
      FreshStep(After(s, h[..|h| - 1]).value, h[|h| - 1]);
    }
  }

  /** After any careful run, let a job to the newest generation begin on a replica `x` and take its
      snapshot, while the mutators in which `x` takes part have applied nothing yet. Careful steps can
      then lead to a record that overstates if and only if `x` does take part in one. */
  lemma BeginExactly(s: State, h: seq<Action>, x: Storage, source: Storage)
    requires Initial(s) && After(s, h).Some? && CarefulRun(s, h)
    requires var u := After(s, h).value;
             && Enabled(u, Begin(x, source)) && AtNewest(u, source)
             && forall m :: TakesPart(u, m, x) ==> u.mutators[m].applied == {}
    ensures var u := After(s, h).value; var v := Step(u, Begin(x, source));
            Enabled(v, Snapshot(x)) && (Doomed(Step(v, Snapshot(x))) <==> exists m :: TakesPart(u, m, x))
  {
    var u := After(s, h).value;
    var v := Step(u, Begin(x, source));
    AfterThen(s, h, u, Begin(x, source), v);
    CarefulExactly(s, h + [Begin(x, source)], Snapshot(x));
    FreshRun(s, h);
    forall m | TakesPart(u, m, x) ensures TakesPart(v, m, x) && v.mutators[m].write !in Contents(v, source) {
      assert Absent(u, u.mutators[m].write);
    }
    forall m | TakesPart(v, m, x) ensures TakesPart(u, m, x) {}
  }

  // ---- runs -----------------------------------------------------------------------------------

  /** Two replicas, 0 and 1, at generation 0, in a repository without writes. */
  const TWO: State := State(0, map[0 := 0, 1 := 0], [{}], map[], map[], map[])

  const M1: Mutator := Mutator(0, {1}, 1, {})
  const M2: Mutator := Mutator(0, {1}, 2, {})

  lemma TwoRouted() returns (h: seq<Action>)
    ensures After(TWO, h) == Some(TWO.(mutators := map[1 := M1, 2 := M2])) && CarefulRun(TWO, h)
  {
    var t1 := TWO.(mutators := map[1 := M1]);
    assert Consistent(TWO, 0) && Consistent(TWO, 1);
    assert Step(TWO, Route(1, 0, {1}, 1)) == t1;
    AfterThen(TWO, [], TWO, Route(1, 0, {1}, 1), t1);
    var t2 := TWO.(mutators := map[1 := M1, 2 := M2]);
    assert Consistent(t1, 0) && Consistent(t1, 1) && Unused(t1, 2);
    assert Step(t1, Route(2, 0, {1}, 2)) == t2;
    h := [] + [Route(1, 0, {1}, 1)];
    AfterThen(TWO, h, t1, Route(2, 0, {1}, 2), t2);
    h := h + [Route(2, 0, {1}, 2)];
  }

  lemma SecondApplies() returns (h: seq<Action>)
    ensures After(TWO, h) == Some(TWO.(disk := map[0 := {2}], mutators := map[1 := M1, 2 := M2.(applied := {0})])) && CarefulRun(TWO, h)
  {
    h := TwoRouted();
    var t2 := TWO.(mutators := map[1 := M1, 2 := M2]);
    var t3 := t2.(disk := map[0 := {2}], mutators := map[1 := M1, 2 := M2.(applied := {0})]);
    assert Contents(t2, 0) + {2} == {2} && M2.applied + {0} == {0};
    assert Step(t2, Apply(2, 0)) == t3;
    AfterThen(TWO, h, t2, Apply(2, 0), t3);
    h := h + [Apply(2, 0)];
  }

  /** The second mutator finishes on replica 0 alone. */
  lemma SecondFinishes() returns (h: seq<Action>)
    ensures After(TWO, h) == Some(State(1, map[0 := 1, 1 := 0], [{}, {2}], map[0 := {2}], map[1 := M1], map[])) && CarefulRun(TWO, h)
  {
    h := SecondApplies();
    var t3 := TWO.(disk := map[0 := {2}], mutators := map[1 := M1, 2 := M2.(applied := {0})]);
    var t4 := State(1, map[0 := 1, 1 := 0], [{}, {2}], map[0 := {2}], map[1 := M1], map[]);
    assert 0 in Raised(t3, {} + {0});
    assert Step(t3, Increment(2, {})) == t4;
    AfterThen(TWO, h, t3, Increment(2, {}), t4);
    h := h + [Increment(2, {})];
  }

  /** With two mutators of one repository in flight, a job that repairs a replica after one of them can
      cost the other its write, and the replica is recorded nevertheless. */
  lemma ConcurrentMutatorsOverstate() returns (s: State, h: seq<Action>)
    ensures Initial(s) && After(s, h).Some? && Overstated(After(s, h).value)
  {
    s := TWO;
    assert 0 in s.records;
    h := SecondFinishes();
    var u := State(1, map[0 := 1, 1 := 0], [{}, {2}], map[0 := {2}], map[1 := M1], map[]);
    assert TakesPart(u, 1, 1);
    BeginExactly(s, h, 1, 0);
    var v := Step(u, Begin(1, 0));
    AfterThen(s, h, u, Begin(1, 0), v);
    var w := Step(v, Snapshot(1));
    AfterThen(s, h + [Begin(1, 0)], v, Snapshot(1), w);
    var rest :| Dooms(w, rest);
    RunsJoin(s, h + [Begin(1, 0)] + [Snapshot(1)], w, rest);
    h := h + [Begin(1, 0)] + [Snapshot(1)] + rest;
  }

  const THREE: State := State(0, map[0 := 0, 1 := 0, 2 := 0], [{}], map[], map[], map[])

  ghost predicate SeriallyAfter(h: seq<Action>, t: State) {
    After(THREE, h) == Some(t) && RoutesAlone(THREE, h)
  }

  /** Mutators run one after the other, whatever is dropped. */
  ghost predicate RoutesAlone(s: State, h: seq<Action>)
    requires After(s, h).Some?
  {
    h == [] || (Serial(After(s, h[..|h| - 1]).value, h[|h| - 1]) && RoutesAlone(s, h[..|h| - 1]))
  }

  lemma SerialThen(h: seq<Action>, t: State, a: Action, u: State)
    requires SeriallyAfter(h, t) && Enabled(t, a) && u == Step(t, a) && Serial(t, a)
    ensures SeriallyAfter(h + [a], u)
    ensures CarefulRun(THREE, h) && Careful(t, a) ==> CarefulRun(THREE, h + [a])
  {
    AfterThen(THREE, h, t, a, u);
    assert (h + [a])[..|h|] == h;
  }

  const W1: Mutator := Mutator(0, {}, 1, {})

  lemma OneRouted() returns (h: seq<Action>)
    ensures SeriallyAfter(h, THREE.(mutators := map[1 := W1])) && CarefulRun(THREE, h)
  {
    assert Consistent(THREE, 0);
    assert Step(THREE, Route(1, 0, {}, 1)) == THREE.(mutators := map[1 := W1]);
    SerialThen([], THREE, Route(1, 0, {}, 1), THREE.(mutators := map[1 := W1]));
    h := [] + [Route(1, 0, {}, 1)];
  }

  lemma OneApplied() returns (h: seq<Action>)
    ensures SeriallyAfter(h, THREE.(disk := map[0 := {1}], mutators := map[1 := W1.(applied := {0})])) && CarefulRun(THREE, h)
  {
    h := OneRouted();
    var t1 := THREE.(mutators := map[1 := W1]);
    var t2 := THREE.(disk := map[0 := {1}], mutators := map[1 := W1.(applied := {0})]);
    assert Contents(t1, 0) + {1} == {1} && W1.applied + {0} == {0};
    assert Step(t1, Apply(1, 0)) == t2;
    SerialThen(h, t1, Apply(1, 0), t2);
    h := h + [Apply(1, 0)];
  }

  /** One mutator writes to replica 0, and is recorded there. */
  lemma OneWrite() returns (h: seq<Action>)
    ensures SeriallyAfter(h, State(1, map[0 := 1, 1 := 0, 2 := 0], [{}, {1}], map[0 := {1}], map[], map[])) && CarefulRun(THREE, h)
  {
    h := OneApplied();
    var t2 := THREE.(disk := map[0 := {1}], mutators := map[1 := W1.(applied := {0})]);
    var t3 := State(1, map[0 := 1, 1 := 0, 2 := 0], [{}, {1}], map[0 := {1}], map[], map[]);
    assert 0 in Raised(t2, {} + {0});
    assert Step(t2, Increment(1, {})) == t3;
    SerialThen(h, t2, Increment(1, {}), t3);
    h := h + [Increment(1, {})];
  }

  /** A job begins to bring replica 1 up. */
  lemma OneJob() returns (h: seq<Action>)
    ensures SeriallyAfter(h, State(1, map[0 := 1, 1 := 0, 2 := 0], [{}, {1}], map[0 := {1}], map[], map[1 := Begun(0, Some(1))]))
    ensures CarefulRun(THREE, h)
  {
    h := OneWrite();
    var t3 := State(1, map[0 := 1, 1 := 0, 2 := 0], [{}, {1}], map[0 := {1}], map[], map[]);
    var t4 := t3.(jobs := map[1 := Begun(0, Some(1))]);
    assert Step(t3, Begin(1, 0)) == t4;
    SerialThen(h, t3, Begin(1, 0), t4);
    h := h + [Begin(1, 0)];
  }

  /** The record of the only replica that has the write is dropped, and an older replica becomes
      consistent without it: that some replica is at the repository's generation is needed. */
  lemma DroppedNewestMisleads() returns (h: seq<Action>, t: State)
    ensures Initial(THREE) && After(THREE, h) == Some(t) && CarefulRun(THREE, h)
    ensures !Intact(t) && Consistent(t, 1) && |t.writes| == 2 && 1 in t.writes[1] && 1 !in Contents(t, 1)
  {
    h := OneJob();
    var t4 := State(1, map[0 := 1, 1 := 0, 2 := 0], [{}, {1}], map[0 := {1}], map[], map[1 := Begun(0, Some(1))]);
    t := t4.(records := map[1 := 0, 2 := 0], jobs := map[]);
    assert Step(t4, InvalidSource(1)) == t;
    SerialThen(h, t4, InvalidSource(1), t);
    h := h + [InvalidSource(1)];
    assert 0 in THREE.records;
  }

  /** A second job reads the generation of replica 0. */
  lemma TwoJobs() returns (h: seq<Action>)
    ensures SeriallyAfter(h, State(1, map[0 := 1, 1 := 0, 2 := 0], [{}, {1}], map[0 := {1}], map[],
                                   map[1 := Begun(0, Some(1)), 2 := Begun(0, Some(1))]))
  {
    h := OneJob();
    var t4 := State(1, map[0 := 1, 1 := 0, 2 := 0], [{}, {1}], map[0 := {1}], map[], map[1 := Begun(0, Some(1))]);
    var t5 := t4.(jobs := map[1 := Begun(0, Some(1)), 2 := Begun(0, Some(1))]);
    assert Step(t4, Begin(2, 0)) == t5;
    SerialThen(h, t4, Begin(2, 0), t5);
    h := h + [Begin(2, 0)];
  }

  /** It finds that replica invalid. */
  lemma SourceDropped() returns (h: seq<Action>)
    ensures SeriallyAfter(h, State(1, map[1 := 0, 2 := 0], [{}, {1}], map[0 := {1}], map[], map[1 := Begun(0, Some(1))]))
  {
    h := TwoJobs();
    var t5 := State(1, map[0 := 1, 1 := 0, 2 := 0], [{}, {1}], map[0 := {1}], map[], map[1 := Begun(0, Some(1)), 2 := Begun(0, Some(1))]);
    var t6 := t5.(records := map[1 := 0, 2 := 0], jobs := map[1 := Begun(0, Some(1))]);
    assert t5.records - {0} == t6.records && t5.jobs - {2} == t6.jobs;
    SerialThen(h, t5, InvalidSource(2), t6);
    h := h + [InvalidSource(2)];
  }

  /** A third job is about to replace replica 0 by an older one. */
  lemma OlderCopied() returns (h: seq<Action>)
    ensures SeriallyAfter(h, State(1, map[1 := 0, 2 := 0], [{}, {1}], map[0 := {1}], map[],
                                   map[1 := Begun(0, Some(1)), 0 := Copying(2, Some(0), {})]))
  {
    h := SourceDropped();
    var t6 := State(1, map[1 := 0, 2 := 0], [{}, {1}], map[0 := {1}], map[], map[1 := Begun(0, Some(1))]);
    var t7 := t6.(jobs := map[1 := Begun(0, Some(1)), 0 := Begun(2, Some(0))]);
    assert Step(t6, Begin(0, 2)) == t7;
    SerialThen(h, t6, Begin(0, 2), t7);
    h := h + [Begin(0, 2)];
    var t8 := t6.(jobs := map[1 := Begun(0, Some(1)), 0 := Copying(2, Some(0), {})]);
    assert Step(t7, Snapshot(0)) == t8;
    SerialThen(h, t7, Snapshot(0), t8);
    h := h + [Snapshot(0)];
  }

  /** It does so, and the first job takes its snapshot of what is left. */
  lemma SourceReplaced() returns (h: seq<Action>)
    ensures SeriallyAfter(h, State(1, map[1 := 0, 2 := 0], [{}, {1}], map[0 := {}], map[],
                                   map[1 := Copying(0, Some(1), {}), 0 := Copied(2, Some(0))]))
  {
    h := OlderCopied();
    var t8 := State(1, map[1 := 0, 2 := 0], [{}, {1}], map[0 := {1}], map[], map[1 := Begun(0, Some(1)), 0 := Copying(2, Some(0), {})]);
    var t9 := t8.(disk := map[0 := {}], jobs := map[1 := Begun(0, Some(1)), 0 := Copied(2, Some(0))]);
    assert Step(t8, CopyDone(0)) == t9;
    SerialThen(h, t8, CopyDone(0), t9);
    h := h + [CopyDone(0)];
    var t10 := t9.(jobs := map[1 := Copying(0, Some(1), {}), 0 := Copied(2, Some(0))]);
    assert Step(t9, Snapshot(1)) == t10;
    SerialThen(h, t9, Snapshot(1), t10);
    h := h + [Snapshot(1)];
  }

  lemma TargetReplaced() returns (h: seq<Action>)
    ensures SeriallyAfter(h, State(1, map[1 := 0, 2 := 0], [{}, {1}], map[0 := {}, 1 := {}], map[],
                                   map[1 := Copied(0, Some(1)), 0 := Copied(2, Some(0))]))
  {
    h := SourceReplaced();
    var t10 := State(1, map[1 := 0, 2 := 0], [{}, {1}], map[0 := {}], map[], map[1 := Copying(0, Some(1), {}), 0 := Copied(2, Some(0))]);
    var t11 := t10.(disk := map[0 := {}, 1 := {}], jobs := map[1 := Copied(0, Some(1)), 0 := Copied(2, Some(0))]);
    assert Step(t10, CopyDone(1)) == t11;
    SerialThen(h, t10, CopyDone(1), t11);
    h := h + [CopyDone(1)];
  }

  /** Serial mutators alone are not enough: if a record is dropped on which another job relies, that
      job's target can be recorded at a generation whose write it has not. */
  lemma DroppedSourceOverstates() returns (h: seq<Action>)
    ensures Initial(THREE) && After(THREE, h).Some? && RoutesAlone(THREE, h) && Overstated(After(THREE, h).value)
  {
    h := TargetReplaced();
    var t11 := State(1, map[1 := 0, 2 := 0], [{}, {1}], map[0 := {}, 1 := {}], map[],
                     map[1 := Copied(0, Some(1)), 0 := Copied(2, Some(0))]);
    var t12 := Step(t11, SetGeneration(1));
    SerialThen(h, t11, SetGeneration(1), t12);
    h := h + [SetGeneration(1)];
    assert t12.records[1] == 1 && 1 in t12.writes[1] && Contents(t12, 1) == {};
    assert 0 in THREE.records;
  }
}
