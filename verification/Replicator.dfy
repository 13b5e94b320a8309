/** One replication job, and the events that a target storage dequeues
    (internal/praefect/replicator.go).

    `Cluster` is what a job acts on: the database rows and the replicas on disk. Its ghost fields
    complete it to a state of `Generations`, and every operation is shown to be a step of that
    machine; so whatever holds of the machine's runs holds of Replicate. */
module Replicator {
  import opened Prelude
  import opened Generations

  /** What GetReplicatedGeneration answers; Replicated(None) stands for GenerationUnknown. */
  datatype Answer = Replicated(generation: Option<nat>) | Downgrade

  /** The target has a record, and the source has none that is higher. */
  predicate Downgrades(records: map<Storage, nat>, source: Storage, target: Storage) {
    target in records && (source !in records || records[source] <= records[target])
  }

  class Cluster {
    var generation: nat
    var records: map<Storage, nat>
    var disk: map<Storage, set<Write>>
    ghost var writes: seq<set<Write>>
    ghost var mutators: map<nat, Mutator>
    ghost var jobs: map<Storage, Job>
    ghost const first: State
    ghost var history: seq<Action>

    ghost function View(): State
      reads this
    {
      State(generation, records, writes, disk, mutators, jobs)
    }

    /** The history is a run of the machine that leads from the first state to the present one. */
    ghost predicate Valid()
      reads this
    {
      After(first, history) == Some(View())
    }

    constructor (generation: nat, records: map<Storage, nat>, disk: map<Storage, set<Write>>, ghost s: State)
      requires s.generation == generation && s.records == records && s.disk == disk
      ensures Valid() && View() == s && first == s && history == []
    {
      this.generation, this.records, this.disk := generation, records, disk;
      writes, mutators, jobs, first, history := s.writes, s.mutators, s.jobs, s, [];
    }

    function At(x: Storage): set<Write>
      reads this
    {
      if x in disk then disk[x] else {}
    }

    /** A job begins exactly when it would not downgrade its target: the target has no record, or a lower
        one than the source. */
    method GetReplicatedGeneration(source: Storage, target: Storage) returns (a: Answer)
      requires Valid() && target !in jobs && source != target
      modifies this`jobs, this`history
      ensures Valid() && old(history) <= history
      ensures a.Downgrade? <==> Downgrades(records, source, target)
      ensures a.Downgrade? ==> View() == old(View())
      ensures a.Replicated? ==> a.generation == if source in records then Some(records[source]) else None
      ensures a.Replicated? ==> jobs == old(jobs)[target := Begun(source, a.generation)]
    {
      var theirs := if source in records then Some(records[source]) else None;
      if target in records && (theirs.None? || records[target] >= theirs.value) { return Downgrade; }
      ghost var s := View();
      jobs := jobs[target := Begun(source, theirs)];
      AfterThen(first, history, s, Begin(target, source), View());
      history := history + [Begin(target, source)];
      a := Replicated(theirs);
    }

    ghost method TakeSnapshot(target: Storage)
      requires Valid() && target in jobs && jobs[target].Begun?
      modifies this`jobs, this`history
      ensures Valid() && old(history) <= history
      ensures var j := old(jobs)[target]; jobs == old(jobs)[target := Copying(j.source, j.generation, At(j.source))]
    {
      ghost var s, j := View(), jobs[target];
      jobs := jobs[target := Copying(j.source, j.generation, At(j.source))];
      AfterThen(first, history, s, Snapshot(target), View());
      history := history + [Snapshot(target)];
    }

    /** ReplicateRepository that succeeds makes the target a copy of the source. */
    method Copy(source: Storage, target: Storage)
      requires Valid() && target in jobs && jobs[target].Begun? && jobs[target].source == source
      modifies this`disk, this`jobs, this`history
      ensures Valid() && old(history) <= history
      ensures disk == old(disk)[target := old(At(source))]
      ensures jobs == old(jobs)[target := Copied(source, old(jobs[target].generation))]
    {
      TakeSnapshot(target);
      ghost var s := View();
      disk := disk[target := At(source)];
      jobs := jobs[target := Copied(source, jobs[target].generation)];
      AfterThen(first, history, s, CopyDone(target), View());
      history := history + [CopyDone(target)];
    }

    /** ReplicateRepository that fails may leave the target with part of what either had. */
    method CopyPart(source: Storage, target: Storage, partial: set<Write>)
      requires Valid() && target in jobs && jobs[target].Begun? && jobs[target].source == source
      requires At(target) * At(source) <= partial <= At(target) + At(source)
      modifies this`disk, this`jobs, this`history
      ensures Valid() && old(history) <= history
      ensures disk == old(disk)[target := partial] && jobs.Keys == old(jobs).Keys && jobs - {target} == old(jobs) - {target}
    {
      TakeSnapshot(target);
      ghost var s := View();
      disk := disk[target := partial];
      AfterThen(first, history, s, CopySome(target, partial), View());
      history := history + [CopySome(target, partial)];
    }

    method Record(target: Storage, g: Option<nat>)
      requires Valid() && target in jobs && jobs[target].Copied? && jobs[target].generation == g
      modifies this`records, this`generation, this`jobs, this`history
      ensures Valid() && old(history) <= history && jobs == old(jobs) - {target}
      ensures records == if g.Some? then old(records)[target := g.value] else old(records)
      ensures generation == if g.Some? && old(generation) < g.value then g.value else old(generation)
    {
      ghost var s := View();
      if g.Some? {
        records := records[target := g.value];
        if generation < g.value { generation := g.value; }
      }
      jobs := jobs - {target};
      AfterThen(first, history, s, SetGeneration(target), View());
      history := history + [SetGeneration(target)];
    }

    method DeleteInvalid(source: Storage, target: Storage)
      requires Valid() && target in jobs && jobs[target].Begun? && jobs[target].source == source
      modifies this`records, this`jobs, this`history
      ensures Valid() && old(history) <= history && jobs == old(jobs) - {target} && records == old(records) - {source}
    {
      ghost var s := View();
      records := records - {source};
      jobs := jobs - {target};
      AfterThen(first, history, s, InvalidSource(target), View());
      history := history + [InvalidSource(target)];
    }

    ghost method GiveUp(target: Storage)
      requires Valid() && target in jobs
      modifies this`jobs, this`history
      ensures Valid() && old(history) <= history && jobs == old(jobs) - {target}
    {
      ghost var s := View();
      jobs := jobs - {target};
      AfterThen(first, history, s, JobFails(target), View());
      history := history + [JobFails(target)];
    }
  }

  datatype Transfer = Done | SourceInvalid | Broken(partial: set<Write>)

  /** How the calls go: the first one to the store, those to the two nodes, the last one to the store. */
  datatype Fortune = Fortune(answered: bool, transfer: Transfer, poolLinked: bool, stored: bool)

  /** Replicate from the transfer on: the target's record changes only after a complete copy. */
  method Finish(c: Cluster, source: Storage, target: Storage, g: Option<nat>, f: Fortune) returns (ok: bool)
    requires c.Valid() && source != target && target in c.jobs && c.jobs[target] == Begun(source, g)
    requires f.transfer.Broken? ==> c.At(target) * c.At(source) <= f.transfer.partial <= c.At(target) + c.At(source)
    modifies c
    ensures c.Valid() && old(c.history) <= c.history && c.jobs == old(c.jobs) - {target}
    ensures ok <==> (f.transfer.SourceInvalid? && f.stored) || (f.transfer.Done? && f.poolLinked && (f.stored || g.None?))
    ensures !ok ==> c.records == old(c.records) && c.generation == old(c.generation)
    ensures ok && f.transfer.SourceInvalid? ==> c.records == old(c.records) - {source} && c.disk == old(c.disk)
    ensures ok && f.transfer.Done? ==>
              c.At(target) == old(c.At(source)) && c.records == if g.Some? then old(c.records)[target := g.value] else old(c.records)
    ensures c.disk - {target} == old(c.disk) - {target}
  {
    if f.transfer.SourceInvalid? && f.stored {
      c.DeleteInvalid(source, target);
      return true;
    }
    if f.transfer.Done? {
      c.Copy(source, target);
      if f.poolLinked && (f.stored || g.None?) {
        c.Record(target, g);
        return true;
      }
    } else if f.transfer.Broken? {
      c.CopyPart(source, target, f.transfer.partial);
    }
    c.GiveUp(target);
    ok := false;
  }

  /** Replicate. A job that would downgrade its target is acknowledged and changes nothing. Otherwise
      the target's record changes only after a complete copy, to the source's generation; a source
      that turns out to be invalid loses its record; and every error leaves the records alone. In
      each case what happened is a run of the machine. */
  method Replicate(c: Cluster, source: Storage, target: Storage, f: Fortune) returns (ok: bool)
    requires c.Valid() && source != target && target !in c.jobs
    requires f.transfer.Broken? ==> c.At(target) * c.At(source) <= f.transfer.partial <= c.At(target) + c.At(source)
    modifies c
    ensures c.Valid() && old(c.history) <= c.history && c.jobs == old(c.jobs)
    ensures !f.answered ==> !ok && c.View() == old(c.View())
    ensures f.answered && Downgrades(old(c.records), source, target) ==> ok && c.View() == old(c.View())
    ensures f.answered && !Downgrades(old(c.records), source, target) ==>
              (ok <==> (f.transfer.SourceInvalid? && f.stored) ||
                       (f.transfer.Done? && f.poolLinked && (f.stored || source !in old(c.records))))
    ensures !ok ==> c.records == old(c.records) && c.generation == old(c.generation)
    ensures !Downgrades(old(c.records), source, target) && ok && f.transfer.SourceInvalid? ==>
              c.records == old(c.records) - {source} && c.disk == old(c.disk)
    ensures !Downgrades(old(c.records), source, target) && ok && f.transfer.Done? ==>
              c.At(target) == old(c.At(source)) &&
              c.records == if source in old(c.records) then old(c.records)[target := old(c.records)[source]] else old(c.records)
    ensures c.disk - {target} == old(c.disk) - {target}
    // When all goes well, a target that is behind is brought up to its source, however far behind it was.
    ensures f == Fortune(true, Done, true, true) && source in old(c.records) &&
            (target in old(c.records) ==> old(c.records)[target] < old(c.records)[source]) ==>
              ok && c.records == old(c.records)[target := old(c.records)[source]] && c.At(target) == old(c.At(source))
  {
    if !f.answered { return false; }
    var a := c.GetReplicatedGeneration(source, target);
    if a.Downgrade? { return true; }
    assert c.jobs - {target} == old(c.jobs);
    ok := Finish(c, source, target, a.generation, f);
  }

  // ---- acknowledging events -------------------------------------------------------------------

  datatype JobState = Completed | Failed | Dead

  datatype Event = Event(id: nat, attempt: int)

  /** The state in which an event ends up: a failed one is given up when no attempt is left. */
  function FinalState(e: Event, failing: set<nat>): JobState {
    if e.id !in failing then Completed else if e.attempt <= 0 then Dead else Failed
  }

  /** The events that end up in state `st`, in the order in which they were dequeued. */
  function InState(events: seq<Event>, failing: set<nat>, st: JobState): seq<nat> {
    if events == [] then [] else
      var rest, e := InState(events[..|events| - 1], failing, st), events[|events| - 1];
      if FinalState(e, failing) == st then rest + [e.id] else rest
  }

  function Ids(events: seq<Event>): seq<nat> {
    seq(|events|, i requires 0 <= i < |events| => events[i].id)
  }

  function Listed(byState: map<JobState, seq<nat>>, st: JobState): seq<nat> {
    if st in byState then byState[st] else []
  }

  method SortByState(events: seq<Event>, failing: set<nat>) returns (byState: map<JobState, seq<nat>>)
    ensures forall st :: Listed(byState, st) == InState(events, failing, st)
  {
    byState := map[];
    for i := 0 to |events|
      invariant forall st :: Listed(byState, st) == InState(events[..i], failing, st)
    {
      assert events[..i + 1][..i] == events[..i];
      var state := Completed;
      if events[i].id in failing { state := if events[i].attempt <= 0 then Dead else Failed; }
      byState := byState[state := Listed(byState, state) + [events[i].id]];
    }
    assert events[..|events|] == events;
  }

  /** handleNode: what gets acknowledged, by state. None stands for an error of Dequeue, and acknowledging
      the states in `refusing` fails; that does not keep the others from being acknowledged. */
  method HandleNode(dequeued: Option<seq<Event>>, failing: set<nat>, refusing: set<JobState>)
    returns (acknowledged: map<JobState, seq<nat>>, handled: nat)
    ensures handled == if dequeued.Some? then |dequeued.value| else 0
    ensures forall st :: Listed(acknowledged, st) ==
                           if dequeued.Some? && st !in refusing then InState(dequeued.value, failing, st) else []
  {
    acknowledged, handled := map[], 0;
    if dequeued.None? || |dequeued.value| == 0 { return; }
    var byState := SortByState(dequeued.value, failing);
    var left := byState.Keys;
    while left != {}
      invariant left <= byState.Keys
      invariant forall st :: Listed(acknowledged, st) == if st in left || st in refusing then [] else Listed(byState, st)
      decreases |left|
    {
      var state :| state in left;
      left := left - {state};
      if state in refusing { continue; }
      acknowledged := acknowledged[state := byState[state]];
    }
    handled := |dequeued.value|;
  }

  predicate Conserves(done: seq<nat>, failed: seq<nat>, dead: seq<nat>, all: seq<nat>) {
    multiset(done) + multiset(failed) + multiset(dead) == multiset(all)
  }

  lemma OneMore(done: seq<nat>, failed: seq<nat>, dead: seq<nat>, all: seq<nat>, id: nat)
    requires Conserves(done, failed, dead, all)
    ensures Conserves(done + [id], failed, dead, all + [id])
    ensures Conserves(done, failed + [id], dead, all + [id])
    ensures Conserves(done, failed, dead + [id], all + [id])
  {
    assert multiset(done + [id]) == multiset(done) + multiset{id};
    assert multiset(failed + [id]) == multiset(failed) + multiset{id};
    assert multiset(dead + [id]) == multiset(dead) + multiset{id};
    assert multiset(all + [id]) == multiset(all) + multiset{id};
  }

  /** Every dequeued event is acknowledged, and in one state only. */
  lemma {:induction false} EventsConserved(events: seq<Event>, failing: set<nat>)
    ensures Conserves(InState(events, failing, Completed), InState(events, failing, Failed), InState(events, failing, Dead), Ids(events))
  {
    if events != [] {
      var before, e := events[..|events| - 1], events[|events| - 1].id;
      EventsConserved(before, failing);
      OneMore(InState(before, failing, Completed), InState(before, failing, Failed), InState(before, failing, Dead), Ids(before), e);
      assert Ids(events) == Ids(before) + [e];
    }
  }

  /** The distinct IDs of a batch tell the events apart. */
  predicate DistinctIds(events: seq<Event>) {
    forall i, j :: 0 <= i < j < |events| ==> events[i].id != events[j].id
  }

  /** Which events are acknowledged as what: one that went well as completed, one that failed as dead if it
      has no attempt left, and otherwise as failed, to be tried again. */
  lemma {:induction false} StatesExactly(events: seq<Event>, failing: set<nat>, i: nat)
    requires DistinctIds(events) && i < |events|
    ensures events[i].id in InState(events, failing, Completed) <==> events[i].id !in failing
    ensures events[i].id in InState(events, failing, Dead) <==> events[i].id in failing && events[i].attempt <= 0
    ensures events[i].id in InState(events, failing, Failed) <==> events[i].id in failing && events[i].attempt > 0
    decreases |events|
  {
    var n := |events| - 1;
    var before := events[..n];
    forall st ensures forall id :: id in InState(before, failing, st) ==> id != events[n].id { OnlyTheirs(before, failing, st); }
    if i < n { StatesExactly(before, failing, i); }
  }

  lemma {:induction false} OnlyTheirs(events: seq<Event>, failing: set<nat>, st: JobState)
    ensures forall id :: id in InState(events, failing, st) ==> exists i :: 0 <= i < |events| && events[i].id == id
  {
    if events != [] {
      var n := |events| - 1;
      OnlyTheirs(events[..n], failing, st);
      forall id | id in InState(events, failing, st) ensures exists i :: 0 <= i < |events| && events[i].id == id {
        if id in InState(events[..n], failing, st) {
          var i :| 0 <= i < n && events[..n][i].id == id;
          assert events[i].id == id;
        } else {
          assert events[n].id == id;
        }
      }
    }
  }
}
