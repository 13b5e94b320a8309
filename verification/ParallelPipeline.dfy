/** The parallel backup pipeline (internal/backup/pipeline.go) as a machine of its channel operations.
    Sending on a request channel and receiving from it are one step, because the channel has no
    buffer. Each command is handled by one Handle call. */
module ParallelPipeline {
  import opened Prelude

  datatype Command = Command(id: nat, storage: string)

  /** A worker is known by its channel and its number there. */
  datatype WorkerId = WorkerId(channel: string, index: nat)

  /** `Received` workers wait for a slot, `Finished` ones have not given theirs back. */
  datatype Worker = Idle | Received(c: Command) | Executing(c: Command) | Finished | Exited

  datatype State = State(
    parallel: int,
    parallelStorage: int,
    channels: set<string>,              // keys of the request map
    workers: map<WorkerId, Worker>,
    slots: nat,                         // how many slots are taken
    sending: set<Command>,              // Handle calls that have not sent yet
    handled: set<Command>,              // every command ever passed to Handle
    accepted: set<Command>,             // commands whose Handle call has sent
    executed: seq<Command>,             // commands whose execution is over, in order
    done: bool
  )

  datatype Action =
    | Handle(c: Command)
    | Cancel(c: Command)
    | Send(c: Command, w: WorkerId)
    | Acquire(w: WorkerId)
    | Finish(w: WorkerId)
    | Release(w: WorkerId)
    | CloseDone
    | Exit(w: WorkerId)

  /** getStorage: without a limit per storage, all commands share one channel. */
  function Channel(s: State, storage: string): string {
    if s.parallelStorage < 1 then "" else storage
  }

  function WorkersPerChannel(s: State): int {
    if s.parallelStorage < 1 then s.parallel else s.parallelStorage
  }

  /** workerSlots exists only when both limits are positive. */
  predicate HasSlots(s: State) {
    s.parallel > 0 && s.parallelStorage > 0
  }

  function Names(channel: string, n: int): (r: set<WorkerId>)
    ensures forall w :: w in r <==> w.channel == channel && w.index < n
    ensures |r| == if n <= 0 then 0 else n
  {
    if n <= 0 then {} else
      var rest := Names(channel, n - 1);
      rest + {WorkerId(channel, n - 1)}
  }

  predicate Enabled(s: State, a: Action) {
    match a
    case Handle(c) => c !in s.handled
    case Cancel(c) => c in s.sending
    case Send(c, w) => c in s.sending && w in s.workers && w.channel == Channel(s, c.storage) && s.workers[w].Idle?
    case Acquire(w) => w in s.workers && s.workers[w].Received? && (HasSlots(s) ==> s.slots < s.parallel)
    case Finish(w) => w in s.workers && s.workers[w].Executing?
    case Release(w) => w in s.workers && s.workers[w].Finished?
    case CloseDone => !s.done
    case Exit(w) => w in s.workers && s.workers[w].Idle? && s.done
  }

  function Step(s: State, a: Action): State
    requires Enabled(s, a)
  {
    match a
    case Handle(c) =>
      var ch := Channel(s, c.storage);
      var t := s.(sending := s.sending + {c}, handled := s.handled + {c});
      if ch in s.channels then t
      else t.(channels := s.channels + {ch}, workers := s.workers + (map w | w in Names(ch, WorkersPerChannel(s)) :: Idle))
    case Cancel(c) => s.(sending := s.sending - {c})
    case Send(c, w) => s.(sending := s.sending - {c}, accepted := s.accepted + {c}, workers := s.workers[w := Received(c)])
    case Acquire(w) =>
      s.(workers := s.workers[w := Executing(s.workers[w].c)], slots := if HasSlots(s) then s.slots + 1 else s.slots)
    case Finish(w) => s.(executed := s.executed + [s.workers[w].c], workers := s.workers[w := Finished])
    case Release(w) =>
      s.(workers := s.workers[w := Idle], slots := if HasSlots(s) && s.slots > 0 then s.slots - 1 else s.slots)
    case CloseDone => s.(done := true)
    case Exit(w) => s.(workers := s.workers[w := Exited])
  }

  predicate Initial(s: State) {
    && s.channels == {} && s.workers == map[] && s.slots == 0 && !s.done
    && s.sending == {} && s.handled == {} && s.accepted == {} && s.executed == []
  }

  function After(s: State, h: seq<Action>): Option<State> {
    if h == [] then Some(s)
    else
      var before := After(s, h[..|h| - 1]);
      if before.Some? && Enabled(before.value, h[|h| - 1]) then Some(Step(before.value, h[|h| - 1])) else None
  }

  // ---- the invariant --------------------------------------------------------------------------

  predicate HasSlot(x: Worker) { x.Executing? || x.Finished? }

  predicate HasCommand(x: Worker) { x.Received? || x.Executing? }

  function SlotHolders(s: State): set<WorkerId> {
    set w | w in s.workers && HasSlot(s.workers[w])
  }

  function ExecutingWorkers(s: State): set<WorkerId> {
    set w | w in s.workers && s.workers[w].Executing?
  }

  ghost predicate WorkersOk(s: State) {
    && (forall w :: w in s.workers ==> w.channel in s.channels && w.index < WorkersPerChannel(s))
    && (s.parallelStorage < 1 ==> s.channels <= {""})
    && (HasSlots(s) ==> s.slots == |SlotHolders(s)| <= s.parallel)
  }

  predicate HeldBy(s: State, w: WorkerId, c: Command) {
    w in s.workers && HasCommand(s.workers[w]) && s.workers[w].c == c
  }

  /** A command in a worker's hands was accepted, is for that worker's channel, is in nobody else's
      hands, and has not been executed. */
  ghost predicate HeldOk(s: State) {
    && (forall w, c :: HeldBy(s, w, c) ==> c in s.accepted && c !in s.executed && Channel(s, c.storage) == w.channel)
    && (forall v, w, c :: HeldBy(s, v, c) && HeldBy(s, w, c) ==> v == w)
  }

  ghost predicate Held(s: State, c: Command) {
    exists w :: HeldBy(s, w, c)
  }

  ghost predicate CommandsOk(s: State) {
    && s.sending !! s.accepted && s.sending <= s.handled && s.accepted <= s.handled
    && (forall i :: 0 <= i < |s.executed| ==> s.executed[i] in s.accepted)
    && (forall i, j :: 0 <= i < j < |s.executed| ==> s.executed[i] != s.executed[j])
    && (forall c :: c in s.accepted ==> c in s.executed || Held(s, c))
  }

  ghost predicate Inv(s: State) {
    WorkersOk(s) && HeldOk(s) && CommandsOk(s)
  }

  lemma HoldersStep(s: State, a: Action)
    requires WorkersOk(s) && Enabled(s, a)
    ensures var now, before := SlotHolders(Step(s, a)), SlotHolders(s);
            now == if a.Acquire? then before + {a.w} else if a.Release? then before - {a.w} else before
  {
  }

  lemma SlotsStep(s: State, a: Action)
    requires WorkersOk(s) && Enabled(s, a) && HasSlots(s)
    ensures var t := Step(s, a); t.slots == |SlotHolders(t)| <= t.parallel
  {
    HoldersStep(s, a);
    var before := SlotHolders(s);
    if a.Acquire? {
      assert a.w !in before && |before + {a.w}| == |before| + 1;
    } else if a.Release? {
      assert a.w in before && |before - {a.w}| == |before| - 1;
    }
  }

  lemma WorkersStep(s: State, a: Action)
    requires WorkersOk(s) && Enabled(s, a)
    ensures WorkersOk(Step(s, a))
  {
    if HasSlots(s) { SlotsStep(s, a); }
  }

  /** A worker gets hold of a command only by receiving it. */
  lemma HeldBefore(s: State, a: Action, w: WorkerId, c: Command)
    requires WorkersOk(s) && Enabled(s, a)
    ensures HeldBy(Step(s, a), w, c) <==> (HeldBy(s, w, c) && a != Finish(w)) || a == Send(c, w)
  {
  }

  lemma HeldStep(s: State, a: Action)
    requires Inv(s) && Enabled(s, a)
    ensures HeldOk(Step(s, a))
  {
    var t := Step(s, a);
    forall w, c | HeldBy(t, w, c)
      ensures c in t.accepted && c !in t.executed && Channel(t, c.storage) == w.channel
    {
      HeldBefore(s, a, w, c);
      if a.Finish? { assert HeldBy(s, a.w, s.workers[a.w].c); }
    }
    forall v, w, c | HeldBy(t, v, c) && HeldBy(t, w, c) ensures v == w {
      HeldBefore(s, a, v, c);
      HeldBefore(s, a, w, c);
    }
  }

  lemma CommandsStep(s: State, a: Action)
    requires Inv(s) && Enabled(s, a)
    ensures CommandsOk(Step(s, a))
  {
    var t := Step(s, a);
    if a.Finish? { assert HeldBy(s, a.w, s.workers[a.w].c); }
    forall c | c in t.accepted ensures c in t.executed || Held(t, c) {
      if a.Send? && c == a.c {
        assert HeldBy(t, a.w, c);
      } else if c !in s.executed {
        var w :| HeldBy(s, w, c);
        HeldBefore(s, a, w, c);
      }
    }
  }

  lemma {:induction false} InvRun(s: State, h: seq<Action>)
    requires Initial(s) && After(s, h).Some?
    ensures Inv(After(s, h).value)
  {
    if h != [] {
      InvRun(s, h[..|h| - 1]);
      var t := After(s, h[..|h| - 1]).value;
      WorkersStep(t, h[|h| - 1]);
      HeldStep(t, h[|h| - 1]);
      CommandsStep(t, h[|h| - 1]);
    } else {
      assert SlotHolders(s) == {};
    }
  }

  // ---- bounded parallelism --------------------------------------------------------------------

  lemma Smaller(a: set<WorkerId>, b: set<WorkerId>)
    requires a <= b
    ensures |a| <= |b|
  {
    assert b == a + (b - a);
  }

  /** Bounded parallelism: at most `parallel` commands execute at once when that is positive, and at
      most `parallelStorage` of any one storage when that is. */
  lemma BoundedParallelism(s: State, h: seq<Action>, storage: string)
    requires Initial(s) && After(s, h).Some?
    ensures var t := After(s, h).value;
            && (t.parallel > 0 ==> |ExecutingWorkers(t)| <= t.parallel)
            && (t.parallelStorage > 0 ==>
                  |set w | w in ExecutingWorkers(t) && t.workers[w].c.storage == storage| <= t.parallelStorage)
  {
    InvRun(s, h);
    var t := After(s, h).value;
    if HasSlots(t) {
      Smaller(ExecutingWorkers(t), SlotHolders(t));
    } else if t.parallel > 0 {
      Smaller(ExecutingWorkers(t), Names("", t.parallel));
    }
    if t.parallelStorage > 0 {
      var here := set w | w in ExecutingWorkers(t) && t.workers[w].c.storage == storage;
      assert forall w :: w in here ==> HeldBy(t, w, t.workers[w].c);
      Smaller(here, Names(storage, t.parallelStorage));
    }
  }

  // ---- draining -------------------------------------------------------------------------------

  /** Done waits until every worker has left. */
  predicate Drained(s: State) {
    s.done && forall w :: w in s.workers ==> s.workers[w].Exited?
  }

  /** When Done returns, exactly the accepted commands have been executed, each of them once. */
  lemma DrainExecutesAll(s: State, h: seq<Action>)
    requires Initial(s) && After(s, h).Some? && Drained(After(s, h).value)
    ensures var t := After(s, h).value;
            && (forall c :: c in t.accepted <==> c in t.executed)
            && (forall i, j :: 0 <= i < j < |t.executed| ==> t.executed[i] != t.executed[j])
  {
    InvRun(s, h);
    var t := After(s, h).value;
    forall c | c in t.accepted ensures c in t.executed {
      assert c in t.executed || Held(t, c);
    }
  }

  /** Draining never gets stuck: after Done has been called, some worker can move until all have
      left. */
  lemma DrainProceeds(s: State, h: seq<Action>) returns (a: Action)
    requires Initial(s) && After(s, h).Some? && After(s, h).value.done && !Drained(After(s, h).value)
    ensures (a.Acquire? || a.Finish? || a.Release? || a.Exit?) && Enabled(After(s, h).value, a)
  {
    InvRun(s, h);
    var t := After(s, h).value;
    var w :| w in t.workers && !t.workers[w].Exited?;
    match t.workers[w]
    case Idle => a := Exit(w);
    case Executing(_) => a := Finish(w);
    case Finished => a := Release(w);
    case Received(_) =>
      if HasSlots(t) && t.slots >= t.parallel {
        assert SlotHolders(t) != {};
        var v :| v in SlotHolders(t);
        a := if t.workers[v].Executing? then Finish(v) else Release(v);
      } else {
        a := Acquire(w);
      }
  }
}
