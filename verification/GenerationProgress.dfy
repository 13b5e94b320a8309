/** What mutators and replication jobs that succeed do to the recorded generations
    (internal/praefect/coordinator.go, internal/praefect/replicator.go;
    internal/praefect/datastore/repository_store.go, IncrementGeneration): who is consistent
    afterwards, that the write is there, and that a replica that lags behind catches up. */
module GenerationProgress {
  import opened Prelude
  import opened Generations

  /** Exactly those whom the mutator updated, of the replicas at the repository's generation, are at the
      next one, and only they count as consistent; if there is none, nothing changes. */
  lemma IncrementExactly(s: State, h: seq<Action>, m: nat, updated: set<Storage>, x: Storage)
    requires Initial(s) && After(s, h).Some? && CarefulRun(s, h) && Enabled(After(s, h).value, Increment(m, updated))
    ensures var u := After(s, h).value; var listed := updated + {u.mutators[m].primary};
            var t := Step(u, Increment(m, updated));
            && t.mutators == u.mutators - {m} && t.disk == u.disk && t.jobs == u.jobs
            && if exists y :: y in listed && AtNewest(u, y) then
                 && t.generation == u.generation + 1
                 && (AtNewest(t, x) <==> x in listed && AtNewest(u, x)) && (Consistent(t, x) <==> AtNewest(t, x))
                 && (x in t.records <==> x in u.records) && (x in t.records && !AtNewest(t, x) ==> t.records[x] == u.records[x])
               else t.generation == u.generation && t.records == u.records
  {
    InvFrom(s, h);
    RaiseExactly(After(s, h).value, m, updated, x);
  }

  lemma RaiseExactly(u: State, m: nat, updated: set<Storage>, x: Storage)
    requires RecordsOk(u) && Enabled(u, Increment(m, updated))
    ensures var listed := updated + {u.mutators[m].primary}; var t := Step(u, Increment(m, updated));
            && t.mutators == u.mutators - {m} && t.disk == u.disk && t.jobs == u.jobs
            && if exists y :: y in listed && AtNewest(u, y) then
                 && t.generation == u.generation + 1
                 && (AtNewest(t, x) <==> x in listed && AtNewest(u, x)) && (Consistent(t, x) <==> AtNewest(t, x))
                 && (x in t.records <==> x in u.records) && (x in t.records && !AtNewest(t, x) ==> t.records[x] == u.records[x])
               else t.generation == u.generation && t.records == u.records
  {
    var listed := updated + {u.mutators[m].primary};
    if y :| y in listed && AtNewest(u, y) {
      var t := Step(u, Increment(m, updated));
      assert y in Raised(u, listed) && AtNewest(t, y);
      assert forall z :: z in t.records ==> t.records[z] <= t.generation;
    } else {
      assert Raised(u, listed) == {};
    }
  }

  // ---- a mutator that succeeds everywhere -----------------------------------------------------

  /** What applying a write to the replicas in `on` makes of a state. */
  ghost predicate AppliedTo(u: State, t: State, m: nat, on: set<Storage>)
    requires m in u.mutators
  {
    && t == u.(disk := t.disk, mutators := u.mutators[m := u.mutators[m].(applied := u.mutators[m].applied + on)])
    && (forall x :: Contents(t, x) == if x in on then Contents(u, x) + {u.mutators[m].write} else Contents(u, x))
  }

  lemma AppliedNone(u: State, m: nat)
    requires m in u.mutators
    ensures AppliedTo(u, u, m, {})
  {
    assert u.mutators[m].applied + {} == u.mutators[m].applied;
    assert u.mutators[m := u.mutators[m]] == u.mutators;
  }

  lemma {:induction false} ApplyAll(u: State, m: nat, on: set<Storage>) returns (h: seq<Action>, t: State)
    requires m in u.mutators && on <= Participants(u.mutators[m])
    ensures After(u, h) == Some(t) && AppliedTo(u, t, m, on)
    decreases |on|
  {
    if on == {} {
      h, t := [], u;
      AppliedNone(u, m);
    } else {
      var x :| x in on;
      h, t := ApplyAll(u, m, on - {x});
      h, t := ApplyOne(u, h, t, m, on - {x}, x);
      assert on - {x} + {x} == on;
    }
  }

  lemma ApplyOne(u: State, h: seq<Action>, s: State, m: nat, on: set<Storage>, x: Storage) returns (h': seq<Action>, t: State)
    requires m in u.mutators && After(u, h) == Some(s) && AppliedTo(u, s, m, on) && x !in on && x in Participants(u.mutators[m])
    ensures After(u, h') == Some(t) && AppliedTo(u, t, m, on + {x})
  {
    t := Step(s, Apply(m, x));
    AfterThen(u, h, s, Apply(m, x), t);
    h' := h + [Apply(m, x)];
    AppliedOne(u, s, t, m, on, x);
  }

  lemma AppliedOne(u: State, s: State, t: State, m: nat, on: set<Storage>, x: Storage)
    requires m in u.mutators && AppliedTo(u, s, m, on) && Enabled(s, Apply(m, x)) && t == Step(s, Apply(m, x)) && x !in on
    ensures AppliedTo(u, t, m, on + {x})
  {
    assert u.mutators[m].applied + on + {x} == u.mutators[m].applied + (on + {x});
  }

  /** The write is on all participants, and is yet to be recorded. */
  ghost predicate Everywhere(u: State, t: State, m: nat, p: Storage, secondaries: set<Storage>, w: Write) {
    && t.generation == u.generation && t.records == u.records && t.writes == u.writes
    && m in t.mutators && t.mutators[m].primary == p && t.mutators[m].secondaries == secondaries && t.mutators[m].write == w
    && t.mutators[m].applied == secondaries + {p}
    && forall x :: x in secondaries + {p} ==> w in Contents(t, x)
  }

  lemma RouteAndApply(u: State, m: nat, p: Storage, secondaries: set<Storage>, w: Write) returns (h: seq<Action>, t: State)
    requires Enabled(u, Route(m, p, secondaries, w))
    ensures After(u, h) == Some(t) && Everywhere(u, t, m, p, secondaries, w)
  {
    var routed := Step(u, Route(m, p, secondaries, w));
    AfterThen(u, [], u, Route(m, p, secondaries, w), routed);
    var first := [] + [Route(m, p, secondaries, w)];
    h, t := ApplyAll(routed, m, secondaries + {p});
    RunsJoin(u, first, routed, h);
    h := first + h;
  }

  lemma RecordEverywhere(u: State, s: State, m: nat, p: Storage, secondaries: set<Storage>, w: Write) returns (t: State)
    requires RecordsOk(u) && Everywhere(u, s, m, p, secondaries, w) && Enabled(s, Increment(m, secondaries))
    requires forall x :: x in secondaries + {p} ==> AtNewest(u, x)
    ensures t == Step(s, Increment(m, secondaries)) && t.generation == u.generation + 1 && m !in t.mutators
    ensures |t.writes| == t.generation + 1 && t.writes[t.generation] == {w} && t.disk == s.disk
    ensures forall x :: (AtNewest(t, x) <==> x in secondaries + {p}) && (Consistent(t, x) <==> x in secondaries + {p})
  {
    t := Step(s, Increment(m, secondaries));
    var listed := secondaries + {p};
    assert forall x :: x in listed ==> AtNewest(s, x);
    assert Raised(s, listed) == listed && p in listed;
    assert forall x :: x in t.records ==> t.records[x] <= t.generation;
    assert AtNewest(t, p);
  }

  /** A mutator that is routed, applied everywhere and recorded leaves each of its participants at the
      new generation of the repository, with its write, and nobody else counts as consistent. */
  lemma MutatorGoesThrough(s: State, h: seq<Action>, m: nat, p: Storage, secondaries: set<Storage>, w: Write)
    returns (rest: seq<Action>, t: State)
    requires Initial(s) && After(s, h).Some? && CarefulRun(s, h)
    requires Enabled(After(s, h).value, Route(m, p, secondaries, w)) && Intact(After(s, h).value)
    ensures After(s, h + rest) == Some(t) && t.generation == After(s, h).value.generation + 1 && m !in t.mutators
    ensures |t.writes| == t.generation + 1 && t.writes[t.generation] == {w}
    ensures forall x :: x in secondaries + {p} ==> AtNewest(t, x) && w in Contents(t, x)
    ensures forall x :: Consistent(t, x) ==> x in secondaries + {p}
  {
    var u := After(s, h).value;
    InvFrom(s, h);
    ParticipantsNewest(u, secondaries + {p});
    var applied;
    rest, applied := RouteAndApply(u, m, p, secondaries, w);
    t := RecordEverywhere(u, applied, m, p, secondaries, w);
    AfterThen(u, rest, applied, Increment(m, secondaries), t);
    rest := rest + [Increment(m, secondaries)];
    RunsJoin(s, h, u, rest);
  }

  lemma ParticipantsNewest(u: State, on: set<Storage>)
    requires RecordsOk(u) && Intact(u) && forall x :: x in on ==> Consistent(u, x)
    ensures forall x :: x in on ==> AtNewest(u, x)
  {
    var y :| AtNewest(u, y);
  }

  // ---- repair ---------------------------------------------------------------------------------

  /** A job from `x` to `y` that nothing disturbs. */
  function Repair(y: Storage, x: Storage): seq<Action> {
    [Begin(y, x), Snapshot(y), CopyDone(y), SetGeneration(y)]
  }

  lemma RepairBegins(u: State, y: Storage, x: Storage, g: nat) returns (t: State)
    requires Enabled(u, Begin(y, x)) && x in u.records && u.records[x] == g
    ensures After(u, [Begin(y, x), Snapshot(y)]) == Some(t)
    ensures t == u.(jobs := u.jobs[y := Copying(x, Some(g), Contents(u, x))])
    ensures (forall m :: !TakesPart(u, m, y)) ==> CarefulRun(u, [Begin(y, x), Snapshot(y)])
  {
    var s1 := u.(jobs := u.jobs[y := Begun(x, Some(g))]);
    AfterThen(u, [], u, Begin(y, x), s1);
    assert [] + [Begin(y, x)] == [Begin(y, x)];
    t := u.(jobs := u.jobs[y := Copying(x, Some(g), Contents(u, x))]);
    assert Step(s1, Snapshot(y)) == t;
    AfterThen(u, [Begin(y, x)], s1, Snapshot(y), t);
    assert [Begin(y, x)] + [Snapshot(y)] == [Begin(y, x), Snapshot(y)];
    if forall m :: !TakesPart(u, m, y) {
      assert forall m :: TakesPart(s1, m, y) ==> TakesPart(u, m, y);
      assert Careful(s1, Snapshot(y));
    }
  }

  lemma RepairCopies(u: State, y: Storage, x: Storage, g: nat) returns (t: State)
    requires JobsOk(u) && Enabled(u, Begin(y, x)) && x in u.records && u.records[x] == g == u.generation
    ensures After(u, [Begin(y, x), Snapshot(y), CopyDone(y)]) == Some(t)
    ensures t == u.(disk := u.disk[y := Contents(u, x)], jobs := u.jobs[y := Copied(x, Some(g))])
    ensures (forall m :: !TakesPart(u, m, y)) ==> CarefulRun(u, [Begin(y, x), Snapshot(y), CopyDone(y)])
  {
    var s := RepairBegins(u, y, x, g);
    t := Step(s, CopyDone(y));
    assert t.jobs == u.jobs[y := Copied(x, Some(g))];
    RepairIsCareful(u, s, y);
    AfterThen(u, [Begin(y, x), Snapshot(y)], s, CopyDone(y), t);
    assert [Begin(y, x), Snapshot(y)] + [CopyDone(y)] == [Begin(y, x), Snapshot(y), CopyDone(y)];
  }

  /** Nobody relies on more than the newest generation. */
  lemma RepairIsCareful(u: State, s: State, y: Storage)
    requires JobsOk(u) && s.generation == u.generation && Newest(s, y) && s.jobs[y].Copying?
    requires forall t :: t in s.jobs && t != y ==> t in u.jobs && s.jobs[t] == u.jobs[t]
    ensures Careful(s, CopyDone(y))
  {
    forall t | Expects(s, t, y) ensures Brings(s, Copy(s, CopyDone(y)), s.jobs[y].generation, s.jobs[t].generation.value) {
      assert JobOk(u, t, u.jobs[t]);
    }
  }

  /** A replica that lags behind can be repaired, however far behind it is. After any careful run, take
      one at the repository's generation and one that has a lower record or none, and no job: a job
      from the one to the other goes through and leaves it at the repository's generation, with every
      recorded write. It is careful if the other takes part in no mutator. */
  lemma LaggingIsRepaired(s: State, h: seq<Action>, x: Storage, y: Storage) returns (t: State)
    requires Initial(s) && After(s, h).Some? && CarefulRun(s, h)
    requires var u := After(s, h).value;
             AtNewest(u, x) && y !in u.jobs && (y in u.records ==> u.records[y] < u.records[x]) && x != y
    ensures After(s, h + Repair(y, x)) == Some(t)
    ensures t.generation == After(s, h).value.generation && AtNewest(t, y) && y !in t.jobs
    ensures Contents(t, y) == Contents(After(s, h).value, x) && forall i :: 0 <= i < |t.writes| ==> t.writes[i] <= Contents(t, y)
    ensures (forall m :: !TakesPart(After(s, h).value, m, y)) ==> CarefulRun(s, h + Repair(y, x))
  {
    var u := After(s, h).value;
    InvFrom(s, h);
    assert Holds(u.writes, Contents(u, x), u.records[x]);
    var c := RepairCopies(u, y, x, u.generation);
    var h3 := [Begin(y, x), Snapshot(y), CopyDone(y)];
    t := Step(c, SetGeneration(y));
    AfterThen(u, h3, c, SetGeneration(y), t);
    assert h3 + [SetGeneration(y)] == Repair(y, x);
    RunsJoin(s, h, u, Repair(y, x));
  }
}
