/** When an interrupted stop lets a secondary commit without the primary: exactly when the vote of the
    primary it stops can still win (internal/praefect/transactions/subtransaction.go). */
module VotingExact {
  import opened Prelude
  import opened Voting

  /** Somebody has committed, and not the primary. */
  predicate Split(s: State)
    requires |s.voters| > 0
  {
    !s.voters[0].result.Committed? && exists i :: 0 <= i < |s.voters| && s.voters[i].result.Committed?
  }

  /** `rest` spares the primary and yet leads from `s` to a split. */
  predicate Splits(s: State, rest: seq<Action>)
    requires |s.voters| > 0
  {
    After(s, rest).Some? && PrimarySpared(s, rest) && Split(After(s, rest).value)
  }

  ghost predicate Doomed(s: State)
    requires |s.voters| > 0
  {
    exists rest :: Splits(s, rest)
  }

  // ---- a spared primary is safe ---------------------------------------------------------------

  lemma {:induction false} PrimaryFrom(s: State, rest: seq<Action>)
    requires PrimaryOk(s) && After(s, rest).Some? && PrimarySpared(s, rest)
    ensures PrimaryOk(After(s, rest).value)
  {
    if rest != [] {
      PrimaryFrom(s, rest[..|rest| - 1]);
      PrimaryStep(After(s, rest[..|rest| - 1]).value, rest[|rest| - 1]);
    }
  }

  lemma SparedIsSafe(s: State)
    requires PrimaryOk(s)
    ensures !Doomed(s)
  {
    forall rest | After(s, rest).Some? && PrimarySpared(s, rest) ensures !Splits(s, rest) { PrimaryFrom(s, rest); }
  }

  // ---- an undecided primary -------------------------------------------------------------------

  /** As long as the primary is undecided, the subtransaction is open and no vote has reached the threshold. */
  ghost predicate Open(s: State) {
    |s.voters| > 0 && (s.voters[0].result.Undecided? ==>
      !s.done && forall v :: Count(s, v) < Threshold(|s.voters| - 1))
  }

  lemma OpenStep(s: State, a: Action)
    requires Inv(s) && Open(s) && Enabled(s, a)
    ensures Open(Step(s, a))
  {
    var t := Step(s, a);
    if t.voters[0].result.Undecided? {
      if a.Cast? || a.Withdraw? {
        RecordedOk(s, a);
        OpenDecided(Recorded(s, a), a.majority);
      } else {
        assert 0 in Below(|s.voters|);
        assert forall v :: Count(t, v) == Count(s, v);
      }
    }
  }

  lemma OpenDecided(r: State, majority: Vote)
    requires Inv(r) && Largest(r.counts, majority) && (r.voters[0].result.Undecided? ==> !r.done)
    ensures Open(Decided(r, Threshold(|r.voters| - 1), majority))
  {
    var t := Decided(r, Threshold(|r.voters| - 1), majority);
    if t.voters[0].result.Undecided? {
      assert r.voters[0].result.Undecided?;
      assert Count(r, majority) <= Weight(r.voters, For(r, majority));
      QuorumExactly(r.voters, For(r, majority));
      assert Count(r, majority) < Threshold(|r.voters| - 1);
      assert forall v :: Count(t, v) <= Count(r, majority);
    }
  }

  lemma {:induction false} OpenRun(s: State, h: seq<Action>)
    requires Initial(s) && After(s, h).Some?
    ensures Open(After(s, h).value)
  {
    if h != [] {
      var before := After(s, h[..|h| - 1]).value;
      OpenRun(s, h[..|h| - 1]);
      InvRun(s, h[..|h| - 1]);
      OpenStep(before, h[|h| - 1]);
    }
  }

  // ---- the vote of a stopped primary can win --------------------------------------------------

  lemma {:induction false} AfterFirst(s: State, a: Action, rest: seq<Action>)
    requires |s.voters| > 0 && Enabled(s, a) && Spares(s, a)
    ensures |Step(s, a).voters| > 0 && After(s, [a] + rest) == After(Step(s, a), rest)
    ensures After(s, [a] + rest).Some? ==> (PrimarySpared(Step(s, a), rest) ==> PrimarySpared(s, [a] + rest))
    decreases |rest|
  {
    var h := [a] + rest;
    if rest == [] {
      assert h[..0] == [] && h == [a];
      assert After(s, []) == Some(s);
    } else {
      assert h[..|h| - 1] == [a] + rest[..|rest| - 1];
      AfterFirst(s, a, rest[..|rest| - 1]);
    }
  }

  /** `v` is the vote of a stopped primary, no quorum yet, and those who can still vote can make it one. */
  ghost predicate CanWin(t: State, v: Vote) {
    && Inv(t) && CountsExact(t) && !t.done && t.voters[0].result.Stopped? && t.voters[0].vote == Some(v)
    && Count(t, v) < Threshold(|t.voters| - 1) <= Count(t, v) + Weight(t.voters, Free(t))
  }

  /** Once the primary has voted, no other vote is larger. */
  lemma PrimaryVoteLeads(t: State, v: Vote, j: nat)
    requires CanWin(t, v) && j in Free(t)
    ensures Enabled(t, Cast(j, v, v))
  {
    var r := Recorded(t, Cast(j, v, v));
    RecordedCounts(t, j, v);
    assert t.voters[..|t.voters|] == t.voters && r.voters[..|r.voters|] == r.voters;
    WeightIs(t.voters, |t.voters|, Standing(t, v));
    assert 0 in Standing(t, v);
    assert Count(t, v) >= |t.voters|;
    forall w | w in r.counts && w != v ensures r.counts[w] <= r.counts[v] {
      assert Count(r, w) <= Weight(r.voters, For(r, w));
      WeightIs(r.voters, |r.voters|, For(r, w));
    }
  }

  lemma {:induction false} UnvotedOutstanding(voters: seq<Voter>, who: set<nat>)
    requires forall i :: 0 <= i < |voters| && i in who ==> voters[i].vote.None?
    ensures Weight(voters, who) <= Outstanding(voters)
  {
    if voters != [] { UnvotedOutstanding(voters[..|voters| - 1], who); }
  }

  /** A vote short of the quorum leaves everyone waiting. */
  lemma ShortCast(t: State, v: Vote, j: nat)
    requires CanWin(t, v) && j in Free(t) && Count(t, v) + t.voters[j].votes < Threshold(|t.voters| - 1)
    requires Enabled(t, Cast(j, v, v))
    ensures Step(t, Cast(j, v, v)) == Recorded(t, Cast(j, v, v))
    ensures Free(t) == Free(Recorded(t, Cast(j, v, v))) + {j}
    ensures Count(t, v) + Weight(t.voters, Free(t)) <=
            Count(Recorded(t, Cast(j, v, v)), v) + Weight(Recorded(t, Cast(j, v, v)).voters, Free(Recorded(t, Cast(j, v, v))))
  {
    var r := Recorded(t, Cast(j, v, v));
    assert Free(t) == Free(r) + {j};
    WeightAdd(t.voters, Free(r), j);
    WeightMonotone(t.voters, r.voters, Free(r), Free(r));
    UnvotedOutstanding(r.voters, Free(r));
    if Free(r) == {} { WeightNone(r.voters, Free(r)); }
    var i :| i in Free(r);
    assert r.voters[i].result.Undecided?;
  }

  lemma LastVote(t: State, v: Vote, j: nat)
    requires Inv(t) && j in Free(t) && t.voters[0].result.Stopped?
    requires Count(t, v) + t.voters[j].votes >= Threshold(|t.voters| - 1)
    ensures Enabled(t, Cast(j, v, v)) && Split(Step(t, Cast(j, v, v)))
    ensures Splits(t, [Cast(j, v, v)])
  {
    var a := Cast(j, v, v);
    CompletingCast(t, j, v);
    assert j != 0;
    AfterThen(t, [], t, a, Step(t, a));
    assert [] + [a] == [a];
  }

  lemma OneMoreVote(t: State, v: Vote, j: nat)
    requires CanWin(t, v) && j in Free(t) && Count(t, v) + t.voters[j].votes < Threshold(|t.voters| - 1)
    ensures Enabled(t, Cast(j, v, v)) && CanWin(Step(t, Cast(j, v, v)), v)
    ensures |Free(Step(t, Cast(j, v, v)))| < |Free(t)|
  {
    PrimaryVoteLeads(t, v, j);
    ShortCast(t, v, j);
    InvStep(t, Cast(j, v, v));
    ExactStep(t, Cast(j, v, v));
  }

  lemma {:induction false} CanWinSplits(t: State, v: Vote)
    requires CanWin(t, v)
    ensures Doomed(t)
    decreases |Free(t)|
  {
    if Free(t) == {} { WeightNone(t.voters, Free(t)); }
    var j :| j in Free(t);
    var a := Cast(j, v, v);
    if Count(t, v) + t.voters[j].votes >= Threshold(|t.voters| - 1) {
      LastVote(t, v, j);
    } else {
      OneMoreVote(t, v, j);
      CanWinSplits(Step(t, a), v);
      var rest :| Splits(Step(t, a), rest);
      AfterFirst(t, a, rest);
      assert Splits(t, [a] + rest);
    }
  }

  /** The proviso is exact. In every run that has spared the primary so far, whatever step comes next:
      from there a secondary can commit without the primary if and only if the step does not spare it. */
  lemma SparedExactly(s: State, h: seq<Action>, a: Action)
    requires Initial(s) && After(s, h).Some? && PrimarySpared(s, h) && Enabled(After(s, h).value, a)
    ensures Doomed(Step(After(s, h).value, a)) <==> !Spares(After(s, h).value, a)
  {
    var u := After(s, h).value;
    PrimaryRun(s, h);
    if Spares(u, a) {
      PrimaryStep(u, a);
      SparedIsSafe(Step(u, a));
    } else {
      InvRun(s, h);
      ExactRun(s, h);
      OpenRun(s, h);
      StoppedCanWin(u, a);
      CanWinSplits(Step(u, a), u.voters[0].vote.value);
    }
  }

  lemma StoppedCanWin(u: State, a: Action)
    requires Inv(u) && CountsExact(u) && Open(u) && Enabled(u, a) && !Spares(u, a)
    ensures CanWin(Step(u, a), u.voters[0].vote.value)
  {
    var t := Step(u, a);
    var v := u.voters[0].vote.value;
    InvStep(u, a);
    ExactStep(u, a);
    assert Free(t) == Free(u) - a.reached;
    WeightMonotone(u.voters, t.voters, Free(u) - a.reached, Free(t));
    assert Count(t, v) == Count(u, v);
  }

  // ---- a concrete run -------------------------------------------------------------------------

  function Three(p: Option<Vote>, pr: Outcome, q: Option<Vote>, qr: Outcome, r: Option<Vote>, rr: Outcome): seq<Voter> {
    [Voter("p", 3, p, pr), Voter("q", 1, q, qr), Voter("r", 1, r, rr)]
  }

  lemma OutstandingThree(x: seq<Voter>)
    requires |x| == 3
    ensures Outstanding(x) == (if x[0].vote.None? then x[0].votes else 0) + (if x[1].vote.None? then x[1].votes else 0)
                              + (if x[2].vote.None? then x[2].votes else 0)
  {
    assert x[..2][..1] == x[..1] && x[..1][..0] == [];
    assert Outstanding(x[..1]) == if x[0].vote.None? then x[0].votes else 0;
    assert Outstanding(x[..2]) == Outstanding(x[..1]) + if x[1].vote.None? then x[1].votes else 0;
  }

  lemma HopCast0(v: Vote) returns (t: State)
    ensures var s := State(Three(None, Undecided, None, Undecided, None, Undecided), map[], false);
            Enabled(s, Cast(0, v, v)) && t == Step(s, Cast(0, v, v))
    ensures t == State(Three(Some(v), Undecided, None, Undecided, None, Undecided), map[v := 3], false)
  {
    var s := State(Three(None, Undecided, None, Undecided, None, Undecided), map[], false);
    var r := State(Three(Some(v), Undecided, None, Undecided, None, Undecided), map[v := 3], false);
    assert Recorded(s, Cast(0, v, v)) == r;
    OutstandingThree(r.voters);
    assert r.voters[0].result.Undecided? && Threshold(2) == 4 && Count(r, v) == 3;
    assert AnyUndecided(r.voters) && Outstanding(r.voters) >= 1;
    t := Step(s, Cast(0, v, v));
  }

  lemma HopCast1(v: Vote, w: Vote) returns (t: State)
    requires v != w
    ensures var s := State(Three(Some(v), Undecided, None, Undecided, None, Undecided), map[v := 3], false);
            Enabled(s, Cast(1, w, v)) && t == Step(s, Cast(1, w, v))
    ensures t == State(Three(Some(v), Undecided, Some(w), Undecided, None, Undecided), map[v := 3, w := 1], false)
  {
    var s := State(Three(Some(v), Undecided, None, Undecided, None, Undecided), map[v := 3], false);
    var r := State(Three(Some(v), Undecided, Some(w), Undecided, None, Undecided), map[v := 3, w := 1], false);
    assert Recorded(s, Cast(1, w, v)) == r;
    OutstandingThree(r.voters);
    assert r.voters[0].result.Undecided? && Threshold(2) == 4 && Count(r, v) == 3;
    assert AnyUndecided(r.voters) && Outstanding(r.voters) >= 1;
    t := Step(s, Cast(1, w, v));
  }

  lemma HopWithdraw(v: Vote, w: Vote) returns (t: State)
    requires v != w
    ensures var s := State(Three(Some(v), Undecided, Some(w), Undecided, None, Undecided), map[v := 3, w := 1], false);
            Enabled(s, Withdraw(1, v)) && t == Step(s, Withdraw(1, v))
    ensures t == State(Three(Some(v), Undecided, Some(w), Canceled, None, Undecided), map[v := 3, w := 0], false)
  {
    var s := State(Three(Some(v), Undecided, Some(w), Undecided, None, Undecided), map[v := 3, w := 1], false);
    var r := State(Three(Some(v), Undecided, Some(w), Canceled, None, Undecided), map[v := 3, w := 0], false);
    assert Recorded(s, Withdraw(1, v)) == r;
    OutstandingThree(r.voters);
    assert r.voters[0].result.Undecided? && Threshold(2) == 4 && Count(r, v) == 3;
    assert AnyUndecided(r.voters) && Outstanding(r.voters) >= 1;
    t := Step(s, Withdraw(1, v));
  }

  const FRESH: State := State(Three(None, Undecided, None, Undecided, None, Undecided), map[], false)

  lemma SplitPrefix(v: Vote, w: Vote) returns (h: seq<Action>)
    requires v != w
    ensures After(FRESH, h) == Some(State(Three(Some(v), Undecided, Some(w), Canceled, None, Undecided), map[v := 3, w := 0], false))
    ensures PrimarySpared(FRESH, h)
  {
    var s1 := HopCast0(v);
    AfterThen(FRESH, [], FRESH, Cast(0, v, v), s1);
    h := [] + [Cast(0, v, v)];
    var s2 := HopCast1(v, w);
    AfterThen(FRESH, h, s1, Cast(1, w, v), s2);
    h := h + [Cast(1, w, v)];
    var s3 := HopWithdraw(v, w);
    AfterThen(FRESH, h, s2, Withdraw(1, v), s3);
    h := h + [Withdraw(1, v)];
  }

  lemma HopStop(v: Vote, w: Vote) returns (t: State)
    requires v != w
    ensures var s := State(Three(Some(v), Undecided, Some(w), Canceled, None, Undecided), map[v := 3, w := 0], false);
            Enabled(s, StopInterrupted({0})) && t == Step(s, StopInterrupted({0}))
    ensures t == State(Three(Some(v), Stopped, Some(w), Canceled, None, Undecided), map[v := 3, w := 0], false)
  {
    var s := State(Three(Some(v), Undecided, Some(w), Canceled, None, Undecided), map[v := 3, w := 0], false);
    assert s.voters[1].result.Canceled?;
    t := Step(s, StopInterrupted({0}));
  }

  /** Such runs exist: a stop that meets a canceled voter after it has stopped the primary gives up
      half way, and then a secondary commits. */
  lemma InterruptedStopSplits(v: Vote, w: Vote) returns (s: State, h: seq<Action>)
    requires v != w
    ensures Initial(s) && |s.voters| == 3 && After(s, h).Some? && Split(After(s, h).value)
  {
    s := FRESH;
    h := SplitPrefix(v, w);
    var t := HopStop(v, w);
    AfterThen(s, h, After(s, h).value, StopInterrupted({0}), t);
    h := h + [StopInterrupted({0})];
    InvRun(s, h);
    LastVote(t, v, 2);
    AfterThen(s, h, t, Cast(2, v, v), Step(t, Cast(2, v, v)));
    h := h + [Cast(2, v, v)];
  }
}
