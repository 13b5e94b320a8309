/** When a vote is decided and who is woken
    (internal/praefect/transactions/subtransaction.go): nobody waits for a decision that is already
    certain, and whoever is woken has a result. */
module VotingProgress {
  import opened Prelude
  import opened Voting
  import E = VotingExact

  /** The voter has voted and has no result yet: it sits and waits. */
  predicate Waits(s: State, i: nat) {
    i < |s.voters| && s.voters[i].vote.Some? && s.voters[i].result.Undecided?
  }

  /** No vote has reached the threshold, and some vote still can if it gets all that are outstanding. */
  ghost predicate Open(s: State) {
    && |s.voters| > 0
    && (forall v :: Count(s, v) < Threshold(|s.voters| - 1))
    && (exists v :: Count(s, v) + Outstanding(s.voters) >= Threshold(|s.voters| - 1))
  }

  predicate AllVoted(s: State) {
    forall i :: 0 <= i < |s.voters| ==> s.voters[i].vote.Some?
  }

  /** Some vote has reached the threshold. */
  ghost predicate Reached(s: State) {
    |s.voters| > 0 && exists v :: Count(s, v) >= Threshold(|s.voters| - 1)
  }

  /** Whoever waits can hope. */
  ghost predicate WaitsOk(s: State) {
    forall i :: Waits(s, i) ==> Open(s)
  }

  /** The voters are woken once the threshold is reached or nobody is undecided, and only then. */
  ghost predicate DoneOk(s: State) {
    && (s.done ==> Reached(s) || !AnyUndecided(s.voters)) && (Reached(s) ==> s.done) && (AllVoted(s) ==> s.done)
    && (forall i :: 0 <= i < |s.voters| && s.voters[i].result.Committed? ==> s.done)
  }

  /** While someone is undecided, only a stop has given a result to somebody who has not voted. */
  ghost predicate StoppedOk(s: State) {
    AnyUndecided(s.voters) ==> forall i :: 0 <= i < |s.voters| && s.voters[i].vote.None? ==>
      s.voters[i].result.Undecided? || s.voters[i].result.Stopped?
  }

  ghost predicate Progress(s: State) {
    |s.voters| > 0 && WaitsOk(s) && DoneOk(s) && StoppedOk(s)
  }

  /** The early return of updateVoterState, and what follows when it is not taken. */
  lemma DecidedWaits(r: State, majority: Vote, i: nat)
    requires |r.voters| > 0 && Largest(r.counts, majority) && i < |r.voters|
    ensures var t := Decided(r, Threshold(|r.voters| - 1), majority);
            Waits(t, i) <==> Waits(r, i) && Open(r)
  {
    var t := Decided(r, Threshold(|r.voters| - 1), majority);
    assert forall v :: Count(r, v) <= Count(r, majority);
    if Open(r) {
      var v :| Count(r, v) + Outstanding(r.voters) >= Threshold(|r.voters| - 1);
      assert Count(r, majority) + Outstanding(r.voters) >= Threshold(|r.voters| - 1);
    }
  }

  lemma DecidedSame(r: State, majority: Vote)
    requires |r.voters| > 0
    ensures var t := Decided(r, Threshold(|r.voters| - 1), majority);
            Outstanding(t.voters) == Outstanding(r.voters) && (Open(r) <==> Open(t))
  {
    var t := Decided(r, Threshold(|r.voters| - 1), majority);
    OutstandingSame(r.voters, t.voters);
    assert forall v :: Count(t, v) == Count(r, v);
  }

  lemma {:induction false} NoneOutstanding(voters: seq<Voter>)
    requires forall i :: 0 <= i < |voters| ==> voters[i].vote.Some?
    ensures Outstanding(voters) == 0
  {
    if voters != [] { NoneOutstanding(voters[..|voters| - 1]); }
  }

  lemma AllVotedDone(r: State, majority: Vote)
    requires |r.voters| > 0 && Largest(r.counts, majority) && AllVoted(r)
    ensures Decided(r, Threshold(|r.voters| - 1), majority).done
  {
    var t := Decided(r, Threshold(|r.voters| - 1), majority);
    NoneOutstanding(r.voters);
    assert !Open(r);
    forall i | 0 <= i < |t.voters| ensures !t.voters[i].result.Undecided? {
      DecidedWaits(r, majority, i);
      assert !Waits(t, i);
    }
  }

  lemma VotedWaits(s: State, a: Action)
    requires |s.voters| > 0 && Enabled(s, a) && (a.Cast? || a.Withdraw?)
    ensures WaitsOk(Step(s, a))
  {
    var r, t := Recorded(s, a), Step(s, a);
    DecidedSame(r, a.majority);
    forall i | Waits(t, i) ensures Open(t) { DecidedWaits(r, a.majority, i); }
  }

  lemma DecidedDone(r: State, majority: Vote)
    requires |r.voters| > 0 && Largest(r.counts, majority) && (r.done ==> Reached(r))
    requires forall i :: 0 <= i < |r.voters| && r.voters[i].result.Committed? ==> r.done
    ensures DoneOk(Decided(r, Threshold(|r.voters| - 1), majority))
  {
    var t := Decided(r, Threshold(|r.voters| - 1), majority);
    assert forall v :: Count(t, v) == Count(r, v) <= Count(t, majority);
    if Reached(r) {
      var v :| Count(r, v) >= Threshold(|r.voters| - 1);
      assert Count(t, v) >= Threshold(|t.voters| - 1);
    }
    if AllVoted(t) {
      assert forall i :: 0 <= i < |r.voters| ==> r.voters[i].vote == t.voters[i].vote;
      AllVotedDone(r, majority);
    }
  }

  /** Once the threshold is reached nothing is taken back: a withdrawal comes too late. */
  lemma RecordedReached(s: State, a: Action)
    requires |s.voters| > 0 && DoneOk(s) && Enabled(s, a) && (a.Cast? || a.Withdraw?) && s.done
    ensures Reached(Recorded(s, a))
  {
    assert AnyUndecided(s.voters) by { assert s.voters[a.i].result.Undecided?; }
    var v :| Count(s, v) >= Threshold(|s.voters| - 1);
    assert Count(Recorded(s, a), v) >= Threshold(|s.voters| - 1);
  }

  lemma VotedStopped(s: State, a: Action)
    requires |s.voters| > 0 && StoppedOk(s) && Enabled(s, a) && (a.Cast? || a.Withdraw?)
    ensures StoppedOk(Step(s, a))
  {
    assert AnyUndecided(s.voters) by { assert s.voters[a.i].result.Undecided?; }
    var r, t := Recorded(s, a), Step(s, a);
    assert forall i :: 0 <= i < |s.voters| && t.voters[i].vote.None? ==> t.voters[i] == r.voters[i] == s.voters[i];
  }

  lemma VotedProgress(s: State, a: Action)
    requires Progress(s) && Enabled(s, a) && (a.Cast? || a.Withdraw?)
    ensures Progress(Step(s, a))
  {
    VotedWaits(s, a);
    if s.done { RecordedReached(s, a); }
    DecidedDone(Recorded(s, a), a.majority);
    VotedStopped(s, a);
  }

  /** What ending the vote leaves alone. */
  lemma EndedSame(s: State, a: Action)
    requires |s.voters| > 0 && Enabled(s, a) && !a.Cast? && !a.Withdraw?
    ensures var t := Step(s, a);
            && (forall v :: Count(t, v) == Count(s, v)) && Outstanding(t.voters) == Outstanding(s.voters)
            && (Reached(t) <==> Reached(s)) && (AllVoted(t) <==> AllVoted(s)) && (Open(t) <==> Open(s))
            && (forall i :: 0 <= i < |s.voters| ==> t.voters[i].vote == s.voters[i].vote)
  {
    var t := Step(s, a);
    OutstandingSame(s.voters, t.voters);
    assert forall v :: Count(t, v) == Count(s, v);
    assert forall i :: 0 <= i < |s.voters| ==> t.voters[i].vote == s.voters[i].vote;
  }

  lemma EndedProgress(s: State, a: Action)
    requires Progress(s) && Enabled(s, a) && !a.Cast? && !a.Withdraw?
    ensures Progress(Step(s, a))
  {
    var t := Step(s, a);
    EndedSame(s, a);
    forall i | Waits(t, i) ensures Open(t) { assert Waits(s, i); }
    if a.StopInterrupted? {
      if AnyUndecided(t.voters) {
        var i :| 0 <= i < |t.voters| && t.voters[i].result.Undecided?;
        assert s.voters[i].result.Undecided?;
      }
    } else {
      assert forall i :: 0 <= i < |s.voters| ==> i in Below(|s.voters|) && !t.voters[i].result.Undecided?;
    }
  }

  lemma {:induction false} ProgressRun(s: State, h: seq<Action>)
    requires Initial(s) && After(s, h).Some?
    ensures Progress(After(s, h).value)
  {
    if h != [] {
      var u, a := After(s, h[..|h| - 1]).value, h[|h| - 1];
      ProgressRun(s, h[..|h| - 1]);
      if a.Cast? || a.Withdraw? { VotedProgress(u, a); } else { EndedProgress(u, a); }
    } else {
      assert s.voters[0].vote.None?;
    }
  }

  /** Nobody waits in vain. In every run, a voter that has voted and has no result yet waits for a
      quorum that no vote has and that some vote can still get; and it has not been woken. */
  lemma WaitingHopes(s: State, h: seq<Action>, i: nat)
    requires Initial(s) && After(s, h).Some? && Waits(After(s, h).value, i)
    ensures Open(After(s, h).value) && !After(s, h).value.done
  {
    ProgressRun(s, h);
  }

  /** Exactly then does a vote wait: whoever casts a vote has no result afterwards if and only if the
      quorum is still open, and otherwise everyone who has voted gets one. */
  lemma CastWaitsExactly(s: State, h: seq<Action>, a: Action)
    requires Initial(s) && After(s, h).Some? && Enabled(After(s, h).value, a) && a.Cast?
    ensures var t := Step(After(s, h).value, a);
            && (Waits(t, a.i) <==> Open(t))
            && (!Open(t) ==> forall i :: !Waits(t, i))
  {
    var u := After(s, h).value;
    VotedWaits(u, a);
    DecidedSame(Recorded(u, a), a.majority);
    DecidedWaits(Recorded(u, a), a.majority, a.i);
  }

  /** In every run, when all have voted, everyone has a result and has been woken. */
  lemma AllVotedDecides(s: State, h: seq<Action>)
    requires Initial(s) && After(s, h).Some? && AllVoted(After(s, h).value)
    ensures var t := After(s, h).value; t.done && !AnyUndecided(t.voters)
  {
    ProgressRun(s, h);
    var t := After(s, h).value;
    NoneOutstanding(t.voters);
    forall i | 0 <= i < |t.voters| ensures !t.voters[i].result.Undecided? { assert !Waits(t, i); }
  }

  /** In every run, whoever committed has been woken, and of those woken nobody who has voted lacks a result. */
  lemma WokenAreDecided(s: State, h: seq<Action>, i: nat)
    requires Initial(s) && After(s, h).Some? && i < |s.voters|
    ensures var t := After(s, h).value; (t.voters[i].result.Committed? ==> t.done) && (t.done ==> !Waits(t, i))
  {
    ProgressRun(s, h);
  }

  /** In every run, if somebody waits and nobody can vote any more, then a voter was stopped before it
      voted: its vote counts as outstanding for good. */
  lemma BlockedByStopped(s: State, h: seq<Action>, i: nat)
    requires Initial(s) && After(s, h).Some? && Waits(After(s, h).value, i) && Free(After(s, h).value) == {}
    ensures exists j: nat :: j < |s.voters| && After(s, h).value.voters[j].vote.None? && After(s, h).value.voters[j].result.Stopped?
  {
    ProgressRun(s, h);
    var t := After(s, h).value;
    if AllVoted(t) {
      AllVotedDecides(s, h);
      assert false;
    } else {
      var j: nat :| j < |t.voters| && t.voters[j].vote.None?;
      assert t.voters[i].result.Undecided?;
      assert j !in Free(t);
    }
  }

  function Withdrawn(p: Option<Vote>, w: Vote, last: Outcome, counts: map<Vote, nat>): State {
    State(E.Three(p, Undecided, Some(w), Canceled, None, last), counts, false)
  }

  lemma OneVoted(w: Vote) returns (t: State)
    ensures Enabled(E.FRESH, Cast(1, w, w)) && t == Step(E.FRESH, Cast(1, w, w))
    ensures t == State(E.Three(None, Undecided, Some(w), Undecided, None, Undecided), map[w := 1], false)
  {
    t := State(E.Three(None, Undecided, Some(w), Undecided, None, Undecided), map[w := 1], false);
    assert Recorded(E.FRESH, Cast(1, w, w)) == t;
    E.OutstandingThree(t.voters);
    assert t.voters[0].result.Undecided? && Threshold(2) == 4 && Count(t, w) == 1;
  }

  lemma OneWithdrew(w: Vote) returns (t: State)
    ensures var s := State(E.Three(None, Undecided, Some(w), Undecided, None, Undecided), map[w := 1], false);
            Enabled(s, Withdraw(1, w)) && t == Step(s, Withdraw(1, w))
    ensures t == Withdrawn(None, w, Undecided, map[w := 0])
  {
    var s := State(E.Three(None, Undecided, Some(w), Undecided, None, Undecided), map[w := 1], false);
    t := Withdrawn(None, w, Undecided, map[w := 0]);
    assert Recorded(s, Withdraw(1, w)) == t;
    E.OutstandingThree(t.voters);
    assert t.voters[0].result.Undecided? && Threshold(2) == 4 && Count(t, w) == 0;
  }

  lemma LastStopped(w: Vote) returns (t: State)
    ensures var s := Withdrawn(None, w, Undecided, map[w := 0]);
            Enabled(s, StopInterrupted({2})) && t == Step(s, StopInterrupted({2}))
    ensures t == Withdrawn(None, w, Stopped, map[w := 0])
  {
    var s := Withdrawn(None, w, Undecided, map[w := 0]);
    assert s.voters[1].result.Canceled?;
    t := Step(s, StopInterrupted({2}));
  }

  lemma PrimaryWaits(v: Vote, w: Vote) returns (t: State)
    requires v != w
    ensures var s := Withdrawn(None, w, Stopped, map[w := 0]);
            Enabled(s, Cast(0, v, v)) && t == Step(s, Cast(0, v, v))
    ensures t == Withdrawn(Some(v), w, Stopped, map[w := 0, v := 3])
  {
    var s := Withdrawn(None, w, Stopped, map[w := 0]);
    t := Withdrawn(Some(v), w, Stopped, map[w := 0, v := 3]);
    assert Recorded(s, Cast(0, v, v)) == t;
    E.OutstandingThree(t.voters);
    assert t.voters[0].result.Undecided? && Threshold(2) == 4 && Count(t, v) == 3;
  }

  /** Such runs exist: the primary votes after a stop was interrupted, and waits for a vote that cannot come. */
  lemma StoppedVoterBlocks(v: Vote, w: Vote) returns (h: seq<Action>, t: State)
    requires v != w
    ensures Initial(E.FRESH) && After(E.FRESH, h) == Some(t) && Waits(t, 0) && !t.done && Free(t) == {}
  {
    var s1 := OneVoted(w);
    AfterThen(E.FRESH, [], E.FRESH, Cast(1, w, w), s1);
    h := [] + [Cast(1, w, w)];
    var s2 := OneWithdrew(w);
    AfterThen(E.FRESH, h, s1, Withdraw(1, w), s2);
    h := h + [Withdraw(1, w)];
    var s3 := LastStopped(w);
    AfterThen(E.FRESH, h, s2, StopInterrupted({2}), s3);
    h := h + [StopInterrupted({2})];
    t := PrimaryWaits(v, w);
    AfterThen(E.FRESH, h, s3, Cast(0, v, v), t);
    h := h + [Cast(0, v, v)];
    assert forall i :: 0 <= i < 3 ==> i !in Free(t);
  }

  // ---- verdicts -------------------------------------------------------------------------------

  /** Some vote can still reach the threshold, or has. */
  ghost predicate Hope(s: State) {
    |s.voters| > 0 && exists v :: Count(s, v) + Outstanding(s.voters) >= Threshold(|s.voters| - 1)
  }

  /** Whoever failed voted against a quorum, or at a time when there was none to be had. */
  ghost predicate VerdictOk(s: State, i: nat)
    requires 0 < |s.voters| && i < |s.voters|
  {
    s.voters[i].result.Failed? ==>
      && s.voters[i].vote.Some?
      && (Hope(s) ==> exists w :: w != s.voters[i].vote.value && Count(s, w) >= Threshold(|s.voters| - 1))
  }

  ghost predicate VerdictsOk(s: State) {
    |s.voters| > 0 && forall i :: 0 <= i < |s.voters| ==> VerdictOk(s, i)
  }

  /** Recording a vote gives no vote a chance that it did not have. */
  lemma HopeFades(s: State, a: Action)
    requires |s.voters| > 0 && Enabled(s, a) && (a.Cast? || a.Withdraw?)
    ensures Hope(Recorded(s, a)) ==> Hope(s)
  {
    var r := Recorded(s, a);
    if a.Cast? { OutstandingCast(s.voters, a.i, a.v); } else { OutstandingSame(s.voters, r.voters); }
    if Hope(r) {
      var v :| Count(r, v) + Outstanding(r.voters) >= Threshold(|r.voters| - 1);
      assert Count(s, v) + Outstanding(s.voters) >= Threshold(|s.voters| - 1);
    }
  }

  lemma RecordedVerdict(s: State, a: Action, i: nat)
    requires |s.voters| > 0 && DoneOk(s) && Enabled(s, a) && (a.Cast? || a.Withdraw?) && i < |s.voters| && VerdictOk(s, i)
    ensures VerdictOk(Recorded(s, a), i)
  {
    var r := Recorded(s, a);
    HopeFades(s, a);
    if r.voters[i].result.Failed? && Hope(r) {
      var w :| w != s.voters[i].vote.value && Count(s, w) >= Threshold(|s.voters| - 1);
      assert Count(r, w) >= Threshold(|r.voters| - 1);
    }
  }

  lemma DecidedVerdict(r: State, majority: Vote, i: nat)
    requires |r.voters| > 0 && Largest(r.counts, majority) && i < |r.voters| && VerdictOk(r, i)
    ensures VerdictOk(Decided(r, Threshold(|r.voters| - 1), majority), i)
  {
    var t := Decided(r, Threshold(|r.voters| - 1), majority);
    OutstandingSame(r.voters, t.voters);
    assert forall v :: Count(t, v) == Count(r, v) <= Count(r, majority);
    if t.voters[i].result.Failed? && Hope(t) {
      var v :| Count(t, v) + Outstanding(t.voters) >= Threshold(|t.voters| - 1);
      assert Count(r, v) + Outstanding(r.voters) >= Threshold(|r.voters| - 1);
      if r.voters[i].result.Failed? {
        var w :| w != r.voters[i].vote.value && Count(r, w) >= Threshold(|r.voters| - 1);
        assert Count(t, w) >= Threshold(|t.voters| - 1);
      } else {
        assert Count(t, majority) >= Threshold(|t.voters| - 1);
      }
    }
  }

  lemma EndedVerdict(s: State, a: Action, i: nat)
    requires |s.voters| > 0 && Enabled(s, a) && !a.Cast? && !a.Withdraw? && i < |s.voters| && VerdictOk(s, i)
    ensures VerdictOk(Step(s, a), i)
  {
    var t := Step(s, a);
    EndedSame(s, a);
    if t.voters[i].result.Failed? && Hope(t) {
      var v :| Count(t, v) + Outstanding(t.voters) >= Threshold(|t.voters| - 1);
      assert Count(s, v) + Outstanding(s.voters) >= Threshold(|s.voters| - 1);
      var w :| w != s.voters[i].vote.value && Count(s, w) >= Threshold(|s.voters| - 1);
      assert Count(t, w) >= Threshold(|t.voters| - 1);
    }
  }

  lemma {:induction false} VerdictsRun(s: State, h: seq<Action>)
    requires Initial(s) && After(s, h).Some?
    ensures VerdictsOk(After(s, h).value)
  {
    if h != [] {
      var u, a := After(s, h[..|h| - 1]).value, h[|h| - 1];
      VerdictsRun(s, h[..|h| - 1]);
      ProgressRun(s, h[..|h| - 1]);
      forall i | 0 <= i < |u.voters| ensures VerdictOk(Step(u, a), i) {
        if a.Cast? || a.Withdraw? {
          RecordedVerdict(u, a, i);
          DecidedVerdict(Recorded(u, a), a.majority, i);
        } else {
          EndedVerdict(u, a, i);
        }
      }
    }
  }

  lemma QuorumVerdict(t: State, v: Vote, i: nat)
    requires Inv(t) && i < |t.voters| && Count(t, v) >= Threshold(|t.voters| - 1) && t.voters[i].vote.Some?
    requires !Waits(t, i) && VerdictOk(t, i)
    ensures var x := t.voters[i];
            x.result.Canceled? || x.result.Stopped? || x.result == if x.vote == Some(v) then Committed else Failed
  {
    var x := t.voters[i];
    assert Count(t, v) <= Weight(t.voters, For(t, v));
    QuorumExactly(t.voters, For(t, v));
    if x.result.Committed? {
      QuorumExactly(t.voters, For(t, x.vote.value));
    } else if x.result.Failed? && x.vote == Some(v) {
      assert Hope(t);
      var w :| w != v && Count(t, w) >= Threshold(|t.voters| - 1);
      assert Count(t, w) <= Weight(t.voters, For(t, w));
      QuorumExactly(t.voters, For(t, w));
    }
  }

  /** In every run, once a vote has a quorum, whoever cast it has committed and whoever cast another has
      failed, unless it was withdrawn, canceled or stopped before. */
  lemma QuorumDecides(s: State, h: seq<Action>, v: Vote, i: nat)
    requires Initial(s) && After(s, h).Some? && i < |s.voters|
    requires var t := After(s, h).value; Count(t, v) >= Threshold(|t.voters| - 1) && t.voters[i].vote.Some?
    ensures var x := After(s, h).value.voters[i];
            x.result.Canceled? || x.result.Stopped? || x.result == if x.vote == Some(v) then Committed else Failed
  {
    InvRun(s, h);
    ProgressRun(s, h);
    VerdictsRun(s, h);
    QuorumVerdict(After(s, h).value, v, i);
  }

  /** A voter that comes late can still vote, whatever it votes, and gets its result at once; nobody
      else's changes. */
  lemma LateVoter(s: State, h: seq<Action>, v: Vote, j: nat, w: Vote)
    requires Initial(s) && After(s, h).Some? && Count(After(s, h).value, v) >= Threshold(|s.voters| - 1)
    requires j in Free(After(s, h).value)
    ensures Enabled(After(s, h).value, Cast(j, w, v))
    ensures var u := After(s, h).value; var t := Step(u, Cast(j, w, v));
            && t.voters[j].result == (if w == v then Committed else Failed)
            && forall i :: 0 <= i < |u.voters| && i != j ==> t.voters[i] == u.voters[i]
  {
    InvRun(s, h);
    ProgressRun(s, h);
    LateCast(After(s, h).value, v, j, w);
  }

  lemma LateCast(u: State, v: Vote, j: nat, w: Vote)
    requires Inv(u) && WaitsOk(u) && Count(u, v) >= Threshold(|u.voters| - 1) && j in Free(u)
    ensures Enabled(u, Cast(j, w, v))
    ensures var t := Step(u, Cast(j, w, v));
            && t.voters[j].result == (if w == v then Committed else Failed)
            && forall i :: 0 <= i < |u.voters| && i != j ==> t.voters[i] == u.voters[i]
  {
    LateLargest(u, v, j, w);
    var r := Recorded(u, Cast(j, w, v));
    assert Count(r, v) >= Threshold(|r.voters| - 1);
    forall i | 0 <= i < |u.voters| && i != j ensures r.voters[i] == u.voters[i] && !Waits(r, i) {
      assert !Open(u);
      assert !Waits(u, i);
    }
  }

  lemma LateLargest(u: State, v: Vote, j: nat, w: Vote)
    requires Inv(u) && Count(u, v) >= Threshold(|u.voters| - 1) && j in Free(u)
    ensures Largest(Recorded(u, Cast(j, w, v)).counts, v)
  {
    var r := Recorded(u, Cast(j, w, v));
    assert Count(u, v) <= Weight(u.voters, For(u, v));
    QuorumExactly(u.voters, For(u, v));
    assert j != 0;
    assert u.voters[..|u.voters|] == u.voters;
    forall x | x in r.counts && x != v ensures r.counts[x] <= r.counts[v] {
      assert Count(u, x) <= Weight(u.voters, For(u, x));
      WeightIs(u.voters, |u.voters|, For(u, x));
    }
  }

  /** As long as everyone just votes, the counts are what was voted, and nobody is canceled or stopped. */
  ghost predicate PlainOk(s: State) {
    && (forall v :: Count(s, v) == Weight(s.voters, For(s, v)))
    && (forall i :: 0 <= i < |s.voters| ==> !s.voters[i].result.Canceled? && !s.voters[i].result.Stopped?)
  }

  lemma CastCounts(s: State, a: Action, v: Vote)
    requires Enabled(s, a) && a.Cast? && Count(s, v) == Weight(s.voters, For(s, v))
    ensures Count(Recorded(s, a), v) == Weight(Recorded(s, a).voters, For(Recorded(s, a), v))
  {
    var r := Recorded(s, a);
    if v == a.v {
      assert For(r, v) == For(s, v) + {a.i};
      WeightAdd(r.voters, For(s, v), a.i);
      WeightMonotone(s.voters, r.voters, For(s, v), For(s, v));
      WeightMonotone(r.voters, s.voters, For(s, v), For(s, v));
    } else {
      WeightMonotone(s.voters, r.voters, For(s, v), For(r, v));
      WeightMonotone(r.voters, s.voters, For(r, v), For(s, v));
    }
  }

  lemma DecidedCounts(r: State, majority: Vote, v: Vote)
    requires |r.voters| > 0 && Count(r, v) == Weight(r.voters, For(r, v))
    ensures var t := Decided(r, Threshold(|r.voters| - 1), majority); Count(t, v) == Weight(t.voters, For(t, v))
  {
    var t := Decided(r, Threshold(|r.voters| - 1), majority);
    WeightMonotone(r.voters, t.voters, For(r, v), For(t, v));
    WeightMonotone(t.voters, r.voters, For(t, v), For(r, v));
  }

  lemma {:induction false} PlainRun(s: State, h: seq<Action>)
    requires Initial(s) && After(s, h).Some? && forall i :: 0 <= i < |h| ==> h[i].Cast?
    ensures PlainOk(After(s, h).value)
  {
    if h == [] {
      forall v ensures Weight(s.voters, For(s, v)) == 0 { WeightNone(s.voters, For(s, v)); }
    } else {
      var u, a := After(s, h[..|h| - 1]).value, h[|h| - 1];
      PlainRun(s, h[..|h| - 1]);
      forall v ensures Count(Step(u, a), v) == Weight(Step(u, a).voters, For(Step(u, a), v)) {
        CastCounts(u, a, v);
        DecidedCounts(Recorded(u, a), a.majority, v);
      }
    }
  }

  /** When everyone just votes, in any order, and all vote the same, everyone commits. */
  lemma UnanimousCommits(s: State, h: seq<Action>, v: Vote, i: nat)
    requires Initial(s) && After(s, h).Some? && forall i :: 0 <= i < |h| ==> h[i].Cast?
    requires forall i :: 0 <= i < |s.voters| ==> After(s, h).value.voters[i].vote == Some(v)
    requires i < |s.voters|
    ensures After(s, h).value.voters[i].result.Committed? && After(s, h).value.done
  {
    var t := After(s, h).value;
    InvRun(s, h);
    PlainRun(s, h);
    ThresholdSound(t.voters, {}, {});
    WeightMonotone(t.voters, t.voters, Below(|t.voters|), For(t, v));
    QuorumDecides(s, h, v, i);
    AllVotedDecides(s, h);
  }

  // ---- results are final ----------------------------------------------------------------------

  lemma FinalStep(s: State, a: Action, i: nat)
    requires |s.voters| > 0 && Enabled(s, a) && i < |s.voters| && !s.voters[i].result.Undecided?
    ensures Step(s, a).voters[i].result == s.voters[i].result
  {
  }

  lemma LastStep(s: State, h: seq<Action>, rest: seq<Action>)
    requires |s.voters| > 0 && After(s, h + rest).Some? && rest != []
    ensures var before := After(s, h + rest[..|rest| - 1]);
            && before.Some? && Enabled(before.value, rest[|rest| - 1])
            && After(s, h + rest) == Some(Step(before.value, rest[|rest| - 1]))
  {
    assert (h + rest)[..|h + rest| - 1] == h + rest[..|rest| - 1];
  }

  /** A voter that has a result keeps it, whatever happens afterwards. */
  lemma {:induction false} ResultsFinal(s: State, h: seq<Action>, rest: seq<Action>, i: nat)
    requires |s.voters| > 0 && After(s, h + rest).Some? && i < |s.voters|
    ensures After(s, h).Some?
    ensures !After(s, h).value.voters[i].result.Undecided? ==>
              After(s, h + rest).value.voters[i].result == After(s, h).value.voters[i].result
    decreases |rest|
  {
    if rest == [] {
      assert h + rest == h;
    } else {
      LastStep(s, h, rest);
      var u, a := After(s, h + rest[..|rest| - 1]).value, rest[|rest| - 1];
      ResultsFinal(s, h, rest[..|rest| - 1], i);
      if !u.voters[i].result.Undecided? { FinalStep(u, a, i); }
    }
  }

  /** After a cancellation or a stop that came through, whoever had no result has been canceled or
      stopped, for good: nobody commits later. */
  lemma EndedForGood(s: State, h: seq<Action>, a: Action, rest: seq<Action>, i: nat)
    requires |s.voters| > 0 && i < |s.voters| && (a.CancelAll? || a.StopAll?) && After(s, h + [a] + rest).Some?
    ensures After(s, h).Some?
    ensures var before, now := After(s, h).value.voters[i].result, After(s, h + [a] + rest).value.voters[i].result;
            now == if !before.Undecided? then before else if a.CancelAll? then Canceled else Stopped
  {
    ResultsFinal(s, h + [a], rest, i);
    assert (h + [a])[..|h|] == h;
    assert i in Below(|s.voters|);
  }

  /** A cancellation is possible at any time; a stop comes through if and only if nobody was canceled or
      stopped before. Either leaves nobody undecided, and wakes everyone. */
  lemma EndingUnblocks(s: State, h: seq<Action>, a: Action)
    requires |s.voters| > 0 && After(s, h).Some? && (a.CancelAll? || a.StopAll?)
    ensures var u := After(s, h).value;
            After(s, h + [a]).Some? <==>
              a.CancelAll? || forall i :: 0 <= i < |u.voters| ==> u.voters[i].result in {Undecided, Committed, Failed}
    ensures After(s, h + [a]).Some? ==> After(s, h + [a]).value.done && !AnyUndecided(After(s, h + [a]).value.voters)
  {
    var u := After(s, h).value;
    assert (h + [a])[..|h|] == h;
    assert forall i :: 0 <= i < |s.voters| ==> i in Below(|s.voters|);
  }
}
