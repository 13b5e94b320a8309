/** That the parallel backup pipeline gets its work done (internal/backup/pipeline.go): a command that
    was passed to Handle can always be executed, and draining can always be brought to an end. */
module PipelineProgress {
  import opened Prelude
  import opened ParallelPipeline

  /** The steps that workers and Handle calls take on their own. */
  predicate Working(a: Action) {
    a.Send? || a.Acquire? || a.Finish? || a.Release? || a.Exit?
  }

  predicate AllWorking(h: seq<Action>) {
    forall i :: 0 <= i < |h| ==> Working(h[i])
  }

  /** Every channel has all its workers, every waiting Handle call has its channel, and no worker has
      left before Done. */
  ghost predicate ChannelsOk(s: State) {
    && (forall w: WorkerId :: w.channel in s.channels && w.index < WorkersPerChannel(s) ==> w in s.workers)
    && (forall c :: c in s.sending ==> Channel(s, c.storage) in s.channels)
    && (forall w :: w in s.workers && s.workers[w].Exited? ==> s.done)
  }

  ghost predicate Fine(s: State) {
    Inv(s) && ChannelsOk(s)
  }

  lemma ChannelsStep(s: State, a: Action)
    requires WorkersOk(s) && ChannelsOk(s) && Enabled(s, a)
    ensures ChannelsOk(Step(s, a))
  {
  }

  lemma FineStep(s: State, a: Action)
    requires Fine(s) && Enabled(s, a)
    ensures Fine(Step(s, a))
  {
    WorkersStep(s, a);
    HeldStep(s, a);
    CommandsStep(s, a);
    ChannelsStep(s, a);
  }

  lemma {:induction false} FineRun(s: State, h: seq<Action>)
    requires Initial(s) && After(s, h).Some?
    ensures Fine(After(s, h).value)
  {
    if h == [] {
      assert SlotHolders(s) == {};
    } else {
      FineRun(s, h[..|h| - 1]);
      FineStep(After(s, h[..|h| - 1]).value, h[|h| - 1]);
    }
  }

  // ---- runs -----------------------------------------------------------------------------------

  /** `t` can be reached from `s` by the work of the pipeline alone. */
  ghost predicate Reaches(s: State, h: seq<Action>, t: State) {
    After(s, h) == Some(t) && AllWorking(h) && Fine(t)
  }

  lemma Then(s: State, h: seq<Action>, t: State, a: Action) returns (h': seq<Action>, u: State)
    requires Reaches(s, h, t) && Enabled(t, a) && Working(a)
    ensures Reaches(s, h', u) && u == Step(t, a)
  {
    h', u := h + [a], Step(t, a);
    assert h'[..|h|] == h;
    FineStep(t, a);
  }

  lemma {:induction false} Join(s: State, h: seq<Action>, t: State, rest: seq<Action>)
    requires After(s, h) == Some(t) && After(t, rest).Some?
    ensures After(s, h + rest) == After(t, rest)
    decreases |rest|
  {
    if rest == [] {
      assert h + rest == h;
    } else {
      assert (h + rest)[..|h + rest| - 1] == h + rest[..|rest| - 1];
      Join(s, h, t, rest[..|rest| - 1]);
    }
  }

  /** What does not change while the pipeline works on the commands of others. */
  ghost predicate Kept(s: State, t: State) {
    && t.parallel == s.parallel && t.parallelStorage == s.parallelStorage && t.done == s.done
    && t.sending == s.sending && t.channels == s.channels && t.workers.Keys == s.workers.Keys
    && (forall c :: c in s.executed ==> c in t.executed)
  }

  lemma Finishes(s: State, h: seq<Action>, t: State, v: WorkerId) returns (h': seq<Action>, u: State)
    requires Reaches(s, h, t) && v in t.workers && t.workers[v].Executing?
    ensures Reaches(s, h', u) && Kept(t, u) && u.workers == t.workers[v := Finished] && u.slots == t.slots
    ensures t.workers[v].c in u.executed
  {
    h', u := Then(s, h, t, Finish(v));
  }

  lemma Releases(s: State, h: seq<Action>, t: State, v: WorkerId) returns (h': seq<Action>, u: State)
    requires Reaches(s, h, t) && v in t.workers && t.workers[v].Finished?
    ensures Reaches(s, h', u) && Kept(t, u) && u.workers == t.workers[v := Idle]
    ensures HasSlots(t) ==> u.slots < t.parallel
  {
    h', u := Then(s, h, t, Release(v));
    if HasSlots(t) { assert v in SlotHolders(t); }
  }

  /** A worker that has a slot gives it back. */
  lemma GivesBack(s: State, h: seq<Action>, t: State, v: WorkerId) returns (h': seq<Action>, u: State)
    requires Reaches(s, h, t) && v in t.workers && HasSlot(t.workers[v])
    ensures Reaches(s, h', u) && Kept(t, u) && u.workers == t.workers[v := Idle]
    ensures HasSlots(t) ==> u.slots < t.parallel
    ensures t.workers[v].Executing? ==> t.workers[v].c in u.executed
  {
    h', u := h, t;
    if t.workers[v].Executing? { h', u := Finishes(s, h', u, v); }
    h', u := Releases(s, h', u, v);
    assert t.workers[v := Finished][v := Idle] == t.workers[v := Idle];
  }

  /** A worker that has received a command gets a slot, if need be after another one has given it back. */
  lemma GetsSlot(s: State, h: seq<Action>, t: State, w: WorkerId) returns (h': seq<Action>, u: State)
    requires Reaches(s, h, t) && w in t.workers && t.workers[w].Received?
    ensures Reaches(s, h', u) && Kept(t, u) && w in u.workers && u.workers[w] == Executing(t.workers[w].c)
    ensures forall v :: v in t.workers && v != w && (t.workers[v].Idle? || t.workers[v].Exited?) ==> u.workers[v] == t.workers[v]
  {
    h', u := h, t;
    if HasSlots(t) && t.slots >= t.parallel {
      assert SlotHolders(t) != {};
      var v :| v in SlotHolders(t);
      h', u := GivesBack(s, h, t, v);
    }
    h', u := Then(s, h', u, Acquire(w));
  }

  /** A worker finishes what it has and is idle again. */
  lemma BecomesIdle(s: State, h: seq<Action>, t: State, w: WorkerId) returns (h': seq<Action>, u: State)
    requires Reaches(s, h, t) && w in t.workers && !t.workers[w].Exited?
    ensures Reaches(s, h', u) && Kept(t, u) && w in u.workers && u.workers[w].Idle?
    ensures HasCommand(t.workers[w]) ==> t.workers[w].c in u.executed
    ensures forall v :: v in t.workers && v != w && (t.workers[v].Idle? || t.workers[v].Exited?) ==> u.workers[v] == t.workers[v]
  {
    h', u := h, t;
    if t.workers[w].Received? { h', u := GetsSlot(s, h', u, w); }
    if HasSlot(u.workers[w]) { h', u := GivesBack(s, h', u, w); }
  }

  // ---- every command can be executed ----------------------------------------------------------

  lemma CommandRuns(s: State, c: Command) returns (h: seq<Action>, t: State)
    requires Fine(s) && c in s.sending && !s.done && WorkersPerChannel(s) >= 1
    ensures Reaches(s, h, t) && c in t.executed
  {
    var w := WorkerId(Channel(s, c.storage), 0);
    assert w.channel in s.channels && w.index < WorkersPerChannel(s);
    h, t := BecomesIdle(s, [], s, w);
    h, t := Then(s, h, t, Send(c, w));
    h, t := BecomesIdle(s, h, t, w);
  }

  /** In every run, a command whose Handle call waits can be executed, by the work of the pipeline alone,
      unless Done has been called: whatever the other workers are doing, and however many slots are
      taken. It takes a limit that allows for at least one worker; otherwise no worker ever exists. The
      Handle call can also give up at any time. */
  lemma EveryCommandCanRun(s: State, h: seq<Action>, c: Command)
    requires Initial(s) && After(s, h).Some? && c in After(s, h).value.sending && !After(s, h).value.done
    ensures After(s, h + [Cancel(c)]).Some? && c !in After(s, h + [Cancel(c)]).value.sending
    ensures WorkersPerChannel(s) >= 1 <==>
              exists rest :: AllWorking(rest) && After(s, h + rest).Some? && c in After(s, h + rest).value.executed
  {
    FineRun(s, h);
    LimitsStay(s, h);
    var u := After(s, h).value;
    assert (h + [Cancel(c)])[..|h|] == h;
    if WorkersPerChannel(s) >= 1 {
      var rest, t := CommandRuns(u, c);
      Join(s, h, u, rest);
      assert After(s, h + rest) == Some(t);
    } else {
      forall rest | After(s, h + rest).Some? ensures c !in After(s, h + rest).value.executed {
        NobodyWorks(s, h + rest);
      }
    }
  }

  lemma {:induction false} LimitsStay(s: State, h: seq<Action>)
    requires After(s, h).Some?
    ensures After(s, h).value.parallel == s.parallel && After(s, h).value.parallelStorage == s.parallelStorage
  {
    if h != [] { LimitsStay(s, h[..|h| - 1]); }
  }

  lemma {:induction false} NobodyWorks(s: State, h: seq<Action>)
    requires Initial(s) && After(s, h).Some? && WorkersPerChannel(s) < 1
    ensures After(s, h).value.executed == []
  {
    if h != [] {
      NobodyWorks(s, h[..|h| - 1]);
      FineRun(s, h[..|h| - 1]);
      LimitsStay(s, h[..|h| - 1]);
    }
  }

  // ---- draining comes to an end ---------------------------------------------------------------

  function Present(s: State): set<WorkerId> {
    set w | w in s.workers && !s.workers[w].Exited?
  }

  /** After Done has been called, the workers can leave one after the other: what they have is executed. */
  lemma {:induction false} AllLeave(s: State) returns (h: seq<Action>, t: State)
    requires Fine(s) && s.done
    ensures Reaches(s, h, t) && Drained(t)
    decreases |Present(s)|
  {
    if Present(s) == {} {
      h, t := [], s;
      forall w | w in s.workers ensures s.workers[w].Exited? { assert w !in Present(s); }
    } else {
      var w :| w in Present(s);
      h, t := BecomesIdle(s, [], s, w);
      h, t := Then(s, h, t, Exit(w));
      FewerPresent(s, t, w);
      var rest, u := AllLeave(t);
      Join(s, h, t, rest);
      h, t := h + rest, u;
    }
  }

  lemma FewerPresent(s: State, t: State, w: WorkerId)
    requires w in Present(s) && t.workers.Keys == s.workers.Keys && t.workers[w].Exited?
    requires forall v :: v in s.workers && s.workers[v].Exited? ==> t.workers[v].Exited?
    ensures |Present(t)| < |Present(s)|
  {
    assert Present(t) <= Present(s) - {w};
    Smaller(Present(t), Present(s) - {w});
  }

  /** In every run, once Done has been called, the workers can come to an end on their own, and then every
      accepted command has been executed. */
  lemma DrainCompletes(s: State, h: seq<Action>) returns (rest: seq<Action>)
    requires Initial(s) && After(s, h).Some? && CloseDone in h
    ensures AllWorking(rest) && After(s, h + rest).Some? && Drained(After(s, h + rest).value)
    ensures forall c :: c in After(s, h).value.accepted ==> c in After(s, h + rest).value.executed
  {
    FineRun(s, h);
    DoneExactly(s, h);
    var t;
    rest, t := AllLeave(After(s, h).value);
    Join(s, h, After(s, h).value, rest);
    DrainExecutesAll(s, h + rest);
    AcceptedStays(After(s, h).value, rest);
  }

  lemma {:induction false} AcceptedStays(s: State, h: seq<Action>)
    requires After(s, h).Some?
    ensures s.accepted <= After(s, h).value.accepted
  {
    if h != [] { AcceptedStays(s, h[..|h| - 1]); }
  }

  lemma {:induction false} DoneExactly(s: State, h: seq<Action>)
    requires Initial(s) && After(s, h).Some?
    ensures After(s, h).value.done <==> CloseDone in h
  {
    if h != [] {
      DoneExactly(s, h[..|h| - 1]);
      assert h == h[..|h| - 1] + [h[|h| - 1]];
    }
  }

  predicate GaveUp(s: State, c: Command) {
    c in s.handled && c !in s.sending && c !in s.accepted
  }

  lemma GaveUpStays(s: State, a: Action, c: Command)
    requires GaveUp(s, c) && Enabled(s, a)
    ensures GaveUp(Step(s, a), c)
  {
  }

  lemma GivesUp(s: State, c: Command)
    requires CommandsOk(s) && Enabled(s, Cancel(c))
    ensures GaveUp(Step(s, Cancel(c)), c)
  {
  }

  lemma {:induction false} CanceledGaveUp(s: State, h: seq<Action>, c: Command)
    requires Initial(s) && After(s, h).Some? && Cancel(c) in h
    ensures GaveUp(After(s, h).value, c)
  {
    var before, a := h[..|h| - 1], h[|h| - 1];
    assert h == before + [a];
    if Cancel(c) in before {
      CanceledGaveUp(s, before, c);
      GaveUpStays(After(s, before).value, a, c);
    } else {
      FineRun(s, before);
      GivesUp(After(s, before).value, c);
    }
  }

  /** A command whose Handle call gave up before it was accepted is never executed. */
  lemma CanceledNeverRuns(s: State, h: seq<Action>, c: Command)
    requires Initial(s) && After(s, h).Some? && Cancel(c) in h
    ensures c !in After(s, h).value.accepted && c !in After(s, h).value.executed
  {
    CanceledGaveUp(s, h, c);
    FineRun(s, h);
  }

  // ---- the limits are reached -----------------------------------------------------------------

  /** How many of the commands go to a channel. */
  function Rank(s: State, cs: seq<Command>, channel: string): nat {
    if cs == [] then 0
    else Rank(s, cs[..|cs| - 1], channel) + (if Channel(s, cs[|cs| - 1].storage) == channel then 1 else 0)
  }

  /** The commands are distinct, and neither limit is exceeded. */
  ghost predicate WithinLimits(s: State, cs: seq<Command>) {
    && (forall i, j :: 0 <= i < j < |cs| ==> cs[i] != cs[j])
    && (s.parallel > 0 ==> |cs| <= s.parallel)
    && (s.parallelStorage > 0 ==> forall channel :: Rank(s, cs, channel) <= s.parallelStorage)
    && (s.parallel > 0 || s.parallelStorage > 0)
  }

  ghost predicate Runs(s: State, c: Command) {
    exists w :: w in s.workers && s.workers[w] == Executing(c)
  }

  /** The workers from the next one of each channel on are idle. */
  ghost predicate OthersIdle(s: State, cs: seq<Command>) {
    forall w: WorkerId :: w in s.workers && w.index >= Rank(s, cs, w.channel) ==> s.workers[w].Idle?
  }

  ghost predicate AllRun(s: State, cs: seq<Command>) {
    forall c :: c in cs ==> Runs(s, c)
  }

  /** All of `cs` execute, each on the next worker of its channel, and all other workers are idle. */
  ghost predicate Busy(s: State, cs: seq<Command>) {
    && Fine(s) && !s.done && (HasSlots(s) ==> s.slots == |cs|)
    && (forall c :: c in s.handled <==> c in cs)
    && OthersIdle(s, cs) && AllRun(s, cs)
  }

  /** After Handle, the worker is there and waits for a command; nothing happens to others. */
  lemma AfterHandle(s: State, c: Command, w: WorkerId) returns (t: State)
    requires Fine(s) && c !in s.handled && w.channel == Channel(s, c.storage) && w.index < WorkersPerChannel(s)
    requires w in s.workers ==> s.workers[w].Idle?
    ensures Enabled(s, Handle(c)) && t == Step(s, Handle(c)) && Fine(t) && w in t.workers && t.workers[w].Idle?
    ensures t == s.(sending := s.sending + {c}, handled := s.handled + {c}, channels := t.channels, workers := t.workers)
    ensures forall v :: v in s.workers ==> v in t.workers && t.workers[v] == s.workers[v]
    ensures forall v :: v in t.workers && v !in s.workers ==> t.workers[v].Idle?
  {
    t := Step(s, Handle(c));
    FineStep(s, Handle(c));
  }

  lemma Starts(s: State, c: Command, w: WorkerId) returns (s1: State, t: State)
    requires Fine(s) && c in s.sending && w in s.workers && w.channel == Channel(s, c.storage) && s.workers[w].Idle?
    requires HasSlots(s) ==> s.slots < s.parallel
    ensures Enabled(s, Send(c, w)) && s1 == Step(s, Send(c, w)) && Enabled(s1, Acquire(w)) && t == Step(s1, Acquire(w)) && Fine(t)
    ensures t.workers == s.workers[w := Executing(c)] && t.handled == s.handled && t.done == s.done
    ensures t.parallel == s.parallel && t.parallelStorage == s.parallelStorage && (HasSlots(s) ==> t.slots == s.slots + 1)
  {
    s1 := Step(s, Send(c, w));
    FineStep(s, Send(c, w));
    t := Step(s1, Acquire(w));
    FineStep(s1, Acquire(w));
    assert s.workers[w := Received(c)][w := Executing(c)] == s.workers[w := Executing(c)];
  }

  /** What starting a command does to the workers. */
  ghost predicate Replaced(s: State, c: Command, w: WorkerId, t: State) {
    && t.parallelStorage == s.parallelStorage && w in t.workers && t.workers[w] == Executing(c)
    && (forall v :: v in s.workers && v != w ==> v in t.workers && t.workers[v] == s.workers[v])
    && (forall v :: v in t.workers && v !in s.workers && v != w ==> t.workers[v].Idle?)
    && (w in s.workers ==> s.workers[w].Idle?)
  }

  /** What starting `c` on worker `w` makes of a state. */
  ghost predicate Started(s: State, c: Command, w: WorkerId, t: State) {
    && Fine(t) && t.done == s.done && t.parallel == s.parallel && (HasSlots(s) ==> t.slots == s.slots + 1)
    && t.handled == s.handled + {c} && Replaced(s, c, w, t)
  }

  lemma Start(s: State, c: Command, w: WorkerId) returns (t: State)
    requires Fine(s) && c !in s.handled && w.channel == Channel(s, c.storage) && w.index < WorkersPerChannel(s)
    requires (w in s.workers ==> s.workers[w].Idle?) && (HasSlots(s) ==> s.slots < s.parallel)
    ensures After(s, [Handle(c), Send(c, w), Acquire(w)]) == Some(t) && Started(s, c, w, t)
  {
    var s1 := AfterHandle(s, c, w);
    var s2;
    s2, t := Starts(s1, c, w);
    Three(s, Handle(c), s1, Send(c, w), s2, Acquire(w));
  }

  lemma StartMore(s: State, cs: seq<Command>, c: Command) returns (t: State)
    requires Busy(s, cs) && c !in cs && Rank(s, cs, Channel(s, c.storage)) < WorkersPerChannel(s)
    requires HasSlots(s) ==> |cs| < s.parallel
    ensures var w := WorkerId(Channel(s, c.storage), Rank(s, cs, Channel(s, c.storage)));
            After(s, [Handle(c), Send(c, w), Acquire(w)]) == Some(t)
    ensures t.parallel == s.parallel && t.parallelStorage == s.parallelStorage && Busy(t, cs + [c])
  {
    var w := WorkerId(Channel(s, c.storage), Rank(s, cs, Channel(s, c.storage)));
    t := Start(s, c, w);
    StartedBusy(s, cs, c, w, t);
  }

  lemma Three(s: State, a: Action, s1: State, b: Action, s2: State, c: Action)
    requires Enabled(s, a) && s1 == Step(s, a) && Enabled(s1, b) && s2 == Step(s1, b) && Enabled(s2, c)
    ensures After(s, [a, b, c]) == Some(Step(s2, c))
  {
    assert [a, b, c][..2] == [a, b] && [a, b][..1] == [a] && [a][..0] == [];
    assert After(s, [a]) == Some(s1);
    assert After(s, [a, b]) == Some(s2);
  }

  lemma StillIdle(s: State, cs: seq<Command>, c: Command, w: WorkerId, t: State)
    requires OthersIdle(s, cs) && w == WorkerId(Channel(s, c.storage), Rank(s, cs, Channel(s, c.storage))) && Replaced(s, c, w, t)
    ensures OthersIdle(t, cs + [c])
  {
    var more := cs + [c];
    assert more[..|cs|] == cs;
    forall v: WorkerId | v in t.workers && v.index >= Rank(t, more, v.channel) ensures t.workers[v].Idle? {
      RankSame(s, t, cs, v.channel);
      assert v != w;
    }
  }

  lemma StartedBusy(s: State, cs: seq<Command>, c: Command, w: WorkerId, t: State)
    requires Busy(s, cs) && w == WorkerId(Channel(s, c.storage), Rank(s, cs, Channel(s, c.storage))) && Started(s, c, w, t)
    ensures Busy(t, cs + [c])
  {
    StillIdle(s, cs, c, w, t);
    forall d | d in cs + [c] ensures Runs(t, d) { StillRuns(s, cs, c, w, t, d); }
  }

  lemma StillRuns(s: State, cs: seq<Command>, c: Command, w: WorkerId, t: State, d: Command)
    requires d in cs + [c] && AllRun(s, cs) && Replaced(s, c, w, t)
    ensures Runs(t, d)
  {
    if d != c {
      var v :| v in s.workers && s.workers[v] == Executing(d);
      assert t.workers[v] == Executing(d);
    }
  }

  lemma {:induction false} RankSame(s: State, t: State, cs: seq<Command>, channel: string)
    requires t.parallelStorage == s.parallelStorage
    ensures Rank(t, cs, channel) == Rank(s, cs, channel)
    ensures s.parallelStorage < 1 ==> Rank(s, cs, channel) == if channel == "" then |cs| else 0
  {
    if cs != [] { RankSame(s, t, cs[..|cs| - 1], channel); }
  }

  lemma {:induction false} FillUp(s: State, cs: seq<Command>) returns (h: seq<Action>, t: State)
    requires Initial(s) && WithinLimits(s, cs)
    ensures After(s, h) == Some(t) && t.parallel == s.parallel && t.parallelStorage == s.parallelStorage && Busy(t, cs)
    decreases |cs|
  {
    if cs == [] {
      h, t := [], s;
      assert SlotHolders(s) == {};
    } else {
      var before, c := cs[..|cs| - 1], cs[|cs| - 1];
      FewerWithin(s, cs);
      h, t := FillUp(s, before);
      RankSame(s, t, before, Channel(s, c.storage));
      assert c !in before;
      var w := WorkerId(Channel(t, c.storage), Rank(t, before, Channel(t, c.storage)));
      var u := StartMore(t, before, c);
      Join(s, h, t, [Handle(c), Send(c, w), Acquire(w)]);
      h, t := h + [Handle(c), Send(c, w), Acquire(w)], u;
      assert before + [c] == cs;
    }
  }

  lemma FewerWithin(s: State, cs: seq<Command>)
    requires WithinLimits(s, cs) && cs != []
    ensures WithinLimits(s, cs[..|cs| - 1])
    ensures var c := cs[|cs| - 1]; Rank(s, cs[..|cs| - 1], Channel(s, c.storage)) < WorkersPerChannel(s)
  {
    var before := cs[..|cs| - 1];
    assert forall channel :: Rank(s, before, channel) <= Rank(s, cs, channel);
    var ch := Channel(s, cs[|cs| - 1].storage);
    assert Rank(s, cs, ch) == Rank(s, before, ch) + 1;
    RankSame(s, s, before, ch);
  }

  /** The limits are no stricter than they say: any commands within both limits can execute at the same time. */
  lemma LimitsAreReached(s: State, cs: seq<Command>) returns (h: seq<Action>)
    requires Initial(s) && WithinLimits(s, cs)
    ensures After(s, h).Some? && forall c :: c in cs ==> Runs(After(s, h).value, c)
  {
    var t;
    h, t := FillUp(s, cs);
  }
}
