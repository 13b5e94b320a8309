/** Weighted voting: the voters and threshold that the coordinator registers
    (internal/praefect/coordinator.go) and the subtransaction that counts their votes
    (internal/praefect/transactions/subtransaction.go). */
module Voting {
  import opened Prelude

  type Vote = bytes

  datatype Outcome = Undecided | Committed | Failed | Canceled | Stopped

  datatype Voter = Voter(name: string, votes: nat, vote: Option<Vote>, result: Outcome)

  // ---- registration ---------------------------------------------------------------------------

  /** registerTransaction: the primary first, with more votes than all secondaries together. */
  method Register(primary: string, secondaries: seq<string>) returns (voters: seq<Voter>, threshold: nat)
    ensures |voters| == 1 + |secondaries|
    ensures voters[0] == Voter(primary, |secondaries| + 1, None, Undecided)
    ensures forall i :: 1 <= i < |voters| ==> voters[i] == Voter(secondaries[i - 1], 1, None, Undecided)
    ensures threshold == Threshold(|secondaries|)
  {
    voters := [Voter(primary, |secondaries| + 1, None, Undecided)];
    threshold := |secondaries| + 1;
    for k := 0 to |secondaries|
      invariant |voters| == k + 1 && voters[0] == Voter(primary, |secondaries| + 1, None, Undecided)
      invariant forall i :: 1 <= i <= k ==> voters[i] == Voter(secondaries[i - 1], 1, None, Undecided)
    {
      voters := voters + [Voter(secondaries[k], 1, None, Undecided)];
    }
    if |secondaries| > 1 {
      threshold := threshold + (|secondaries| + 1) / 2;
    }
  }

  function Threshold(secondaries: nat): nat {
    secondaries + 1 + (if secondaries > 1 then (secondaries + 1) / 2 else 0)
  }

  /** The weights that Register assigns. */
  predicate Weighted(voters: seq<Voter>) {
    && |voters| > 0 && voters[0].votes == |voters|
    && forall i :: 1 <= i < |voters| ==> voters[i].votes == 1
  }

  // ---- quorums --------------------------------------------------------------------------------

  /** The votes of those voters whose index is in `who`. */
  function Weight(voters: seq<Voter>, who: set<nat>): nat {
    if voters == [] then 0
    else Weight(voters[..|voters| - 1], who) + (if |voters| - 1 in who then voters[|voters| - 1].votes else 0)
  }

  /** The secondaries in `who`, among the first `n` voters. */
  function Secondaries(n: nat, who: set<nat>): nat {
    if n <= 1 then 0 else Secondaries(n - 1, who) + (if n - 1 in who then 1 else 0)
  }

  lemma {:induction false} WeightIs(voters: seq<Voter>, n: nat, who: set<nat>)
    requires Weighted(voters) && 1 <= n <= |voters|
    ensures Weight(voters[..n], who) == (if 0 in who then |voters| else 0) + Secondaries(n, who)
    ensures Secondaries(n, who) <= n - 1
  {
    assert voters[..n][..n - 1] == voters[..n - 1];
    if n > 1 { WeightIs(voters, n - 1, who); } else { assert voters[..n][..0] == []; }
  }

  /** A voter set reaches the threshold exactly when it holds the primary and, if there are at least
      two secondaries, at least half of them. */
  lemma QuorumExactly(voters: seq<Voter>, who: set<nat>)
    requires Weighted(voters)
    ensures var n := |voters| - 1;
            Weight(voters, who) >= Threshold(n) <==> 0 in who && (n > 1 ==> 2 * Secondaries(|voters|, who) >= n)
  {
    assert voters[..|voters|] == voters;
    WeightIs(voters, |voters|, who);
  }

  function Below(n: nat): (r: set<nat>)
    ensures forall i :: i in r <==> 0 <= i < n
  {
    if n == 0 then {} else Below(n - 1) + {n - 1}
  }

  lemma {:induction false} SecondariesAll(n: nat, who: set<nat>)
    requires forall i :: 0 <= i < n ==> i in who
    ensures Secondaries(n, who) == if n == 0 then 0 else n - 1
  {
    if n > 1 { SecondariesAll(n - 1, who); }
  }

  /** The threshold can be reached, and disjoint voter sets cannot both reach it. These are the two
      conditions that newTransaction demands. */
  lemma ThresholdSound(voters: seq<Voter>, a: set<nat>, b: set<nat>)
    requires Weighted(voters)
    ensures Weight(voters, Below(|voters|)) >= Threshold(|voters| - 1)
    ensures 2 * Threshold(|voters| - 1) > Weight(voters, Below(|voters|))
    ensures a !! b ==> !(Weight(voters, a) >= Threshold(|voters| - 1) && Weight(voters, b) >= Threshold(|voters| - 1))
  {
    var all := Below(|voters|);
    assert voters[..|voters|] == voters;
    WeightIs(voters, |voters|, all);
    SecondariesAll(|voters|, all);
    QuorumExactly(voters, a);
    QuorumExactly(voters, b);
  }

  // ---- the subtransaction ---------------------------------------------------------------------

  datatype State = State(voters: seq<Voter>, counts: map<Vote, nat>, done: bool)

  function Count(s: State, v: Vote): nat {
    if v in s.counts then s.counts[v] else 0
  }

  /** The steps that change anything; every other call returns an error and changes nothing.
      A voter is named by its index. `majority` is the entry that the loop over the vote counts ends
      up with; the loop visits the counts in any order. */
  datatype Action =
    | Cast(i: nat, v: Vote, majority: Vote)
    | Withdraw(i: nat, majority: Vote)
    | CancelAll
    | StopAll
    | StopInterrupted(reached: set<nat>)

  predicate Largest(counts: map<Vote, nat>, v: Vote) {
    v in counts && forall w :: w in counts ==> counts[w] <= counts[v]
  }

  function Recorded(s: State, a: Action): State
    requires (a.Cast? || a.Withdraw?) && a.i < |s.voters| && (a.Withdraw? ==> s.voters[a.i].vote.Some?)
  {
    if a.Cast? then
      s.(voters := s.voters[a.i := s.voters[a.i].(vote := Some(a.v))],
         counts := s.counts[a.v := Count(s, a.v) + s.voters[a.i].votes])
    else
      var v := s.voters[a.i].vote.value;
      var w := s.voters[a.i].votes;
      s.(voters := s.voters[a.i := s.voters[a.i].(result := Canceled)],
         counts := s.counts[v := if Count(s, v) >= w then Count(s, v) - w else 0])
  }

  predicate Settled(s: State) {
    forall i :: 0 <= i < |s.voters| ==> s.voters[i].result != Canceled && s.voters[i].result != Stopped
  }

  predicate Enabled(s: State, a: Action) {
    match a
    case Cast(i, v, majority) =>
      && i < |s.voters| && s.voters[i].vote.None? && s.voters[i].result.Undecided?
      && Largest(Recorded(s, a).counts, majority)
    case Withdraw(i, majority) =>
      && i < |s.voters| && s.voters[i].vote.Some? && s.voters[i].result.Undecided? && !s.done
      && Largest(Recorded(s, a).counts, majority)
    case CancelAll => true
    case StopAll => Settled(s)
    case StopInterrupted(_) => !Settled(s)
  }

  predicate AnyUndecided(voters: seq<Voter>) {
    exists i :: 0 <= i < |voters| && voters[i].result.Undecided?
  }

  function Outstanding(voters: seq<Voter>): nat {
    if voters == [] then 0
    else Outstanding(voters[..|voters| - 1]) + (if voters[|voters| - 1].vote.None? then voters[|voters| - 1].votes else 0)
  }

  /** The second half of updateVoterState, with the voters' signal that is deferred to its end. */
  function Decided(s: State, threshold: nat, majority: Vote): State {
    var most := Count(s, majority);
    var waiting := most < threshold && most + Outstanding(s.voters) >= threshold;
    var voters := if waiting then s.voters else Judged(s.voters, if most >= threshold then Some(majority) else None);
    s.(voters := voters,
       done := s.done || most >= threshold || !AnyUndecided(voters))
  }

  /** Everyone who voted and is undecided commits or fails, depending on the winning vote. */
  function Judged(voters: seq<Voter>, winner: Option<Vote>): seq<Voter> {
    seq(|voters|, i requires 0 <= i < |voters| =>
      if !voters[i].result.Undecided? || voters[i].vote.None? then voters[i]
      else voters[i].(result := if voters[i].vote == winner then Committed else Failed))
  }

  function Ended(s: State, result: Outcome, reached: set<nat>): seq<Voter> {
    seq(|s.voters|, i requires 0 <= i < |s.voters| =>
      if i in reached && s.voters[i].result.Undecided? then s.voters[i].(result := result) else s.voters[i])
  }

  function Step(s: State, a: Action): State
    requires Enabled(s, a) && |s.voters| > 0
  {
    var all := Below(|s.voters|);
    match a
    case Cast(_, _, majority) => Decided(Recorded(s, a), Threshold(|s.voters| - 1), majority)
    case Withdraw(_, majority) => Decided(Recorded(s, a), Threshold(|s.voters| - 1), majority)
    case CancelAll => s.(voters := Ended(s, Canceled, all), done := true)
    case StopAll => s.(voters := Ended(s, Stopped, all), done := true)
    case StopInterrupted(reached) => s.(voters := Ended(s, Stopped, reached))
  }

  /** A subtransaction as it is created from registered voters. */
  predicate Initial(s: State) {
    && Weighted(s.voters) && s.counts == map[] && !s.done
    && forall i :: 0 <= i < |s.voters| ==> s.voters[i].vote.None? && s.voters[i].result.Undecided?
  }

  function After(s: State, h: seq<Action>): Option<State>
    requires |s.voters| > 0
    ensures After(s, h).Some? ==> |After(s, h).value.voters| == |s.voters|
  {
    if h == [] then Some(s)
    else
      var before := After(s, h[..|h| - 1]);
      if before.Some? && Enabled(before.value, h[|h| - 1]) then Some(Step(before.value, h[|h| - 1])) else None
  }

  // ---- the invariant --------------------------------------------------------------------------

  /** Those who voted `v`. */
  function For(s: State, v: Vote): set<nat> {
    set i: nat | i < |s.voters| && s.voters[i].vote == Some(v)
  }

  /** Those who voted `v` and still count for it: a canceled voter does not, nor does a stopped primary. */
  function Live(s: State, v: Vote): set<nat> {
    set i: nat | i < |s.voters| && s.voters[i].vote == Some(v) && !s.voters[i].result.Canceled?
                 && (i == 0 ==> !s.voters[i].result.Stopped?)
  }

  /** The weight behind a vote bounds its count, and whoever committed has a quorum behind its vote. */
  ghost predicate Inv(s: State) {
    && Weighted(s.voters)
    && (forall v :: Count(s, v) <= Weight(s.voters, For(s, v)))
    && (forall i :: 0 <= i < |s.voters| && s.voters[i].result.Committed? ==>
          s.voters[i].vote.Some? && Weight(s.voters, For(s, s.voters[i].vote.value)) >= Threshold(|s.voters| - 1))
  }

  /** Only the weights matter, and a larger set weighs no less. */
  lemma {:induction false} WeightMonotone(x: seq<Voter>, y: seq<Voter>, a: set<nat>, b: set<nat>)
    requires |x| == |y| && forall i :: 0 <= i < |x| ==> x[i].votes == y[i].votes
    requires forall i :: 0 <= i < |x| && i in a ==> i in b
    ensures Weight(x, a) <= Weight(y, b)
  {
    if x != [] { WeightMonotone(x[..|x| - 1], y[..|y| - 1], a, b); }
  }

  lemma {:induction false} WeightAdd(voters: seq<Voter>, a: set<nat>, i: nat)
    requires i < |voters| && i !in a
    ensures Weight(voters, a + {i}) == Weight(voters, a) + voters[i].votes
  {
    var n := |voters| - 1;
    if i < n {
      WeightAdd(voters[..n], a, i);
    } else {
      WeightMonotone(voters[..n], voters[..n], a, a + {i});
      WeightMonotone(voters[..n], voters[..n], a + {i}, a);
    }
  }

  lemma SameVotes(s: State, t: State, v: Vote)
    requires |s.voters| == |t.voters|
    requires forall i :: 0 <= i < |s.voters| ==> s.voters[i].votes == t.voters[i].votes
    requires forall i :: 0 <= i < |s.voters| && s.voters[i].vote.Some? ==> t.voters[i].vote == s.voters[i].vote
    ensures Weight(s.voters, For(s, v)) <= Weight(t.voters, For(t, v))
  {
    WeightMonotone(s.voters, t.voters, For(s, v), For(t, v));
  }

  /** Recording a vote, or its withdrawal, keeps the counts within the weights. */
  lemma RecordedOk(s: State, a: Action)
    requires Inv(s) && Enabled(s, a) && (a.Cast? || a.Withdraw?)
    ensures Inv(Recorded(s, a))
  {
    var t := Recorded(s, a);
    forall v ensures Count(t, v) <= Weight(t.voters, For(t, v)) {
      if a.Cast? && v == a.v {
        assert For(t, v) == For(s, v) + {a.i};
        WeightAdd(t.voters, For(s, v), a.i);
        WeightMonotone(s.voters, t.voters, For(s, v), For(s, v));
      } else {
        SameVotes(s, t, v);
      }
    }
    forall i | 0 <= i < |t.voters| && t.voters[i].result.Committed?
      ensures t.voters[i].vote.Some? && Weight(t.voters, For(t, t.voters[i].vote.value)) >= Threshold(|t.voters| - 1)
    {
      SameVotes(s, t, s.voters[i].vote.value);
    }
  }

  lemma DecidedOk(s: State, majority: Vote)
    requires Inv(s)
    ensures Inv(Decided(s, Threshold(|s.voters| - 1), majority))
  {
    var t := Decided(s, Threshold(|s.voters| - 1), majority);
    forall v ensures Weight(s.voters, For(s, v)) <= Weight(t.voters, For(t, v)) { SameVotes(s, t, v); }
  }

  lemma InvStep(s: State, a: Action)
    requires Inv(s) && Enabled(s, a)
    ensures Inv(Step(s, a))
  {
    if a.Cast? || a.Withdraw? {
      RecordedOk(s, a);
      DecidedOk(Recorded(s, a), a.majority);
    } else {
      EndedOk(s, Step(s, a));
    }
  }

  /** Ending the vote changes only undecided results. */
  lemma EndedOk(s: State, t: State)
    requires Inv(s) && |t.voters| == |s.voters| && t.counts == s.counts
    requires forall i :: 0 <= i < |s.voters| ==>
               t.voters[i].votes == s.voters[i].votes && t.voters[i].vote == s.voters[i].vote
               && (t.voters[i].result.Committed? ==> s.voters[i].result.Committed?)
    ensures Inv(t)
  {
    forall v ensures Weight(s.voters, For(s, v)) <= Weight(t.voters, For(t, v)) { SameVotes(s, t, v); }
    assert forall v :: Count(t, v) == Count(s, v);
  }

  lemma {:induction false} InvRun(s: State, h: seq<Action>)
    requires Initial(s) && After(s, h).Some?
    ensures Inv(After(s, h).value)
  {
    if h != [] {
      InvRun(s, h[..|h| - 1]);
      InvStep(After(s, h[..|h| - 1]).value, h[|h| - 1]);
    }
  }

  /** Agreement. In every run, whoever commits voted as the primary did, and with two or more
      secondaries at least half of them voted so too; hence nobody commits another vote. */
  lemma Agreement(s: State, h: seq<Action>, i: nat)
    requires Initial(s) && After(s, h).Some? && i < |s.voters|
    requires After(s, h).value.voters[i].result.Committed?
    ensures var t := After(s, h).value; var n := |t.voters| - 1;
            && t.voters[i].vote.Some? && t.voters[0].vote == t.voters[i].vote
            && (n > 1 ==> 2 * Secondaries(|t.voters|, For(t, t.voters[i].vote.value)) >= n)
  {
    InvRun(s, h);
    var t := After(s, h).value;
    QuorumExactly(t.voters, For(t, t.voters[i].vote.value));
  }

  // ---- no withdrawal underflows ---------------------------------------------------------------

  /** Those who voted `v` and are not canceled. */
  function Standing(s: State, v: Vote): set<nat> {
    set i: nat | i < |s.voters| && s.voters[i].vote == Some(v) && !s.voters[i].result.Canceled?
  }

  /** While the subtransaction is not done, the counts are exact. */
  ghost predicate CountsExact(s: State) {
    !s.done ==> forall v :: Count(s, v) == Weight(s.voters, Standing(s, v))
  }

  lemma SameStanding(s: State, t: State, v: Vote)
    requires |s.voters| == |t.voters|
    requires forall i :: 0 <= i < |s.voters| ==>
               && s.voters[i].votes == t.voters[i].votes && s.voters[i].vote == t.voters[i].vote
               && (s.voters[i].result.Canceled? <==> t.voters[i].result.Canceled?)
    ensures Weight(s.voters, Standing(s, v)) == Weight(t.voters, Standing(t, v))
  {
    WeightMonotone(s.voters, t.voters, Standing(s, v), Standing(t, v));
    WeightMonotone(t.voters, s.voters, Standing(t, v), Standing(s, v));
  }

  lemma RecordedExact(s: State, a: Action, v: Vote)
    requires Enabled(s, a) && (a.Cast? || a.Withdraw?)
    requires Count(s, v) == Weight(s.voters, Standing(s, v))
    ensures Count(Recorded(s, a), v) == Weight(Recorded(s, a).voters, Standing(Recorded(s, a), v))
    ensures a.Withdraw? && s.voters[a.i].vote == Some(v) ==> s.voters[a.i].votes <= Count(s, v)
  {
    var t := Recorded(s, a);
    if a.Cast? && v == a.v {
      assert Standing(t, v) == Standing(s, v) + {a.i};
      WeightAdd(t.voters, Standing(s, v), a.i);
      WeightMonotone(s.voters, t.voters, Standing(s, v), Standing(s, v));
      WeightMonotone(t.voters, s.voters, Standing(s, v), Standing(s, v));
    } else if a.Withdraw? && s.voters[a.i].vote == Some(v) {
      assert Standing(s, v) == Standing(t, v) + {a.i};
      WeightAdd(s.voters, Standing(t, v), a.i);
      WeightMonotone(s.voters, t.voters, Standing(t, v), Standing(t, v));
      WeightMonotone(t.voters, s.voters, Standing(t, v), Standing(t, v));
    } else {
      WeightMonotone(s.voters, t.voters, Standing(s, v), Standing(t, v));
      WeightMonotone(t.voters, s.voters, Standing(t, v), Standing(s, v));
    }
  }

  lemma ExactStep(s: State, a: Action)
    requires |s.voters| > 0 && CountsExact(s) && Enabled(s, a)
    ensures CountsExact(Step(s, a))
  {
    var t := Step(s, a);
    if !t.done {
      forall v ensures Count(t, v) == Weight(t.voters, Standing(t, v)) {
        if a.Cast? || a.Withdraw? {
          RecordedExact(s, a, v);
          SameStanding(Recorded(s, a), t, v);
        } else {
          SameStanding(s, t, v);
        }
      }
    }
  }

  lemma {:induction false} ExactRun(s: State, h: seq<Action>)
    requires Initial(s) && After(s, h).Some?
    ensures CountsExact(After(s, h).value)
  {
    if h == [] {
      forall v ensures Weight(s.voters, Standing(s, v)) == 0 { WeightNone(s.voters, Standing(s, v)); }
    } else {
      ExactRun(s, h[..|h| - 1]);
      ExactStep(After(s, h[..|h| - 1]).value, h[|h| - 1]);
    }
  }

  lemma {:induction false} WeightNone(voters: seq<Voter>, who: set<nat>)
    requires forall i :: 0 <= i < |voters| ==> i !in who
    ensures Weight(voters, who) == 0
  {
    if voters != [] { WeightNone(voters[..|voters| - 1], who); }
  }

  /** In every run the unsigned count that a withdrawal is subtracted from is large enough. */
  lemma WithdrawalsFit(s: State, h: seq<Action>, i: nat, majority: Vote)
    requires Initial(s) && After(s, h).Some? && Enabled(After(s, h).value, Withdraw(i, majority))
    ensures var t := After(s, h).value; t.voters[i].votes <= Count(t, t.voters[i].vote.value)
  {
    ExactRun(s, h);
    RecordedExact(After(s, h).value, Withdraw(i, majority), After(s, h).value.voters[i].vote.value);
  }

  // ---- the primary is among those who commit --------------------------------------------------

  /** Those who can still vote. */
  function Free(s: State): set<nat> {
    set i: nat | i < |s.voters| && s.voters[i].vote.None? && s.voters[i].result.Undecided?
  }

  /** The primary was stopped after it had voted `v`, and those who can still vote are too few for `v`. */
  predicate Hopeless(s: State, v: Vote)
    requires |s.voters| > 0
  {
    s.voters[0].result.Stopped? && s.voters[0].vote == Some(v) && Count(s, v) + Weight(s.voters, Free(s)) < Threshold(|s.voters| - 1)
  }

  /** The count is within the weight of those who still count for `v`, or else `v` has no chance. */
  predicate TallyOk(s: State, v: Vote)
    requires |s.voters| > 0
  {
    Count(s, v) <= Weight(s.voters, Live(s, v)) || Hopeless(s, v)
  }

  /** While the vote is open, the tally is right; a primary that failed leaves no vote a chance; and
      nobody commits without the primary. */
  ghost predicate PrimaryOk(s: State) {
    && Inv(s)
    && (AnyUndecided(s.voters) ==> forall v :: TallyOk(s, v))
    && (s.voters[0].result.Failed? ==> forall v :: Count(s, v) + Outstanding(s.voters) < Threshold(|s.voters| - 1))
    && (forall i :: 0 <= i < |s.voters| && s.voters[i].result.Committed? ==> s.voters[0].result.Committed?)
  }

  lemma {:induction false} OutstandingSame(x: seq<Voter>, y: seq<Voter>)
    requires |x| == |y| && forall i :: 0 <= i < |x| ==> x[i].votes == y[i].votes && x[i].vote == y[i].vote
    ensures Outstanding(x) == Outstanding(y)
  {
    if x != [] { OutstandingSame(x[..|x| - 1], y[..|y| - 1]); }
  }

  lemma {:induction false} OutstandingCast(x: seq<Voter>, i: nat, v: Vote)
    requires i < |x| && x[i].vote.None?
    ensures Outstanding(x[i := x[i].(vote := Some(v))]) == Outstanding(x) - x[i].votes
  {
    var n := |x| - 1;
    var y := x[i := x[i].(vote := Some(v))];
    if i < n {
      assert y[..n] == x[..n][i := x[i].(vote := Some(v))];
      OutstandingCast(x[..n], i, v);
    } else {
      assert y[..n] == x[..n];
    }
  }

  /** What recording establishes before the decision is taken. */
  lemma RecordedPrimary(s: State, a: Action)
    requires PrimaryOk(s) && Enabled(s, a) && (a.Cast? || a.Withdraw?)
    ensures var t := Recorded(s, a);
            && (forall v :: TallyOk(t, v))
            && (t.voters[0].result.Failed? ==> forall v :: Count(t, v) + Outstanding(t.voters) < Threshold(|t.voters| - 1))
            && (forall i :: 0 <= i < |t.voters| && t.voters[i].result.Committed? ==> t.voters[0].result.Committed?)
  {
    var t := Recorded(s, a);
    assert AnyUndecided(s.voters) by { assert s.voters[a.i].result.Undecided?; }
    forall v ensures TallyOk(t, v) {
      assert TallyOk(s, v);
      if Count(s, v) <= Weight(s.voters, Live(s, v)) { RecordedLive(s, a, v); } else { RecordedHopeless(s, a, v); }
    }
    if a.Cast? { OutstandingCast(s.voters, a.i, a.v); } else { OutstandingSame(s.voters, t.voters); }
    assert forall v :: Count(t, v) + Outstanding(t.voters) <= Count(s, v) + Outstanding(s.voters);
  }

  lemma RecordedLive(s: State, a: Action, v: Vote)
    requires Enabled(s, a) && (a.Cast? || a.Withdraw?)
    requires Count(s, v) <= Weight(s.voters, Live(s, v))
    ensures Count(Recorded(s, a), v) <= Weight(Recorded(s, a).voters, Live(Recorded(s, a), v))
  {
    var t := Recorded(s, a);
    if a.Cast? && v == a.v {
      assert Live(t, v) == Live(s, v) + {a.i};
      WeightAdd(t.voters, Live(s, v), a.i);
      WeightMonotone(s.voters, t.voters, Live(s, v), Live(s, v));
    } else if a.Withdraw? && s.voters[a.i].vote == Some(v) {
      assert Live(s, v) == Live(t, v) + {a.i};
      WeightAdd(s.voters, Live(t, v), a.i);
      WeightMonotone(s.voters, t.voters, Live(t, v), Live(t, v));
    } else {
      WeightMonotone(s.voters, t.voters, Live(s, v), Live(t, v));
    }
  }

  /** A vote without a chance gets none. */
  lemma RecordedHopeless(s: State, a: Action, v: Vote)
    requires Enabled(s, a) && (a.Cast? || a.Withdraw?) && |s.voters| > 0 && Hopeless(s, v)
    ensures Hopeless(Recorded(s, a), v)
  {
    var t := Recorded(s, a);
    if a.Cast? {
      assert Free(s) == Free(t) + {a.i};
      WeightAdd(s.voters, Free(t), a.i);
      WeightMonotone(t.voters, s.voters, Free(t), Free(t));
    } else {
      WeightMonotone(t.voters, s.voters, Free(t), Free(s));
    }
  }

  lemma DecidedTally(t: State, majority: Vote, v: Vote)
    requires Weighted(t.voters) && TallyOk(t, v)
    ensures TallyOk(Decided(t, Threshold(|t.voters| - 1), majority), v)
  {
    var u := Decided(t, Threshold(|t.voters| - 1), majority);
    WeightMonotone(t.voters, u.voters, Live(t, v), Live(u, v));
    WeightMonotone(u.voters, t.voters, Free(u), Free(t));
  }

  lemma DecidedPrimary(t: State, majority: Vote)
    requires Inv(t) && Largest(t.counts, majority)
    requires forall v :: TallyOk(t, v)
    requires t.voters[0].result.Failed? ==> forall v :: Count(t, v) + Outstanding(t.voters) < Threshold(|t.voters| - 1)
    requires forall i :: 0 <= i < |t.voters| && t.voters[i].result.Committed? ==> t.voters[0].result.Committed?
    ensures PrimaryOk(Decided(t, Threshold(|t.voters| - 1), majority))
  {
    var threshold := Threshold(|t.voters| - 1);
    var u := Decided(t, threshold, majority);
    DecidedOk(t, majority);
    OutstandingSame(t.voters, u.voters);
    forall v ensures TallyOk(u, v) { DecidedTally(t, majority, v); }
    DecidedCommits(t, majority);
    assert forall v :: Count(u, v) == Count(t, v);
  }

  /** If anybody commits, so does the primary; and if the primary fails, no vote has a chance. */
  lemma DecidedCommits(t: State, majority: Vote)
    requires Inv(t) && Largest(t.counts, majority)
    requires forall v :: TallyOk(t, v)
    requires t.voters[0].result.Failed? ==> forall v :: Count(t, v) + Outstanding(t.voters) < Threshold(|t.voters| - 1)
    requires forall i :: 0 <= i < |t.voters| && t.voters[i].result.Committed? ==> t.voters[0].result.Committed?
    ensures var u := Decided(t, Threshold(|t.voters| - 1), majority);
            && (forall i :: 0 <= i < |u.voters| && u.voters[i].result.Committed? ==> u.voters[0].result.Committed?)
            && (u.voters[0].result.Failed? ==> forall v :: Count(t, v) + Outstanding(t.voters) < Threshold(|t.voters| - 1))
  {
    var threshold := Threshold(|t.voters| - 1);
    if Count(t, majority) >= threshold {
      assert TallyOk(t, majority);
      QuorumExactly(t.voters, Live(t, majority));
    }
    assert forall v :: Count(t, v) <= Count(t, majority);
  }

  /** A stop that gives up half way does no harm, unless it has stopped an undecided primary that had
      voted, and those whom it did not reach can still make a quorum of that vote. */
  predicate Spares(s: State, a: Action)
    requires |s.voters| > 0
  {
    a.StopInterrupted? && 0 in a.reached && s.voters[0].result.Undecided? && s.voters[0].vote.Some? ==>
      Count(s, s.voters[0].vote.value) + Weight(s.voters, Free(s) - a.reached) < Threshold(|s.voters| - 1)
  }

  lemma PrimaryStep(s: State, a: Action)
    requires PrimaryOk(s) && Enabled(s, a) && Spares(s, a)
    ensures PrimaryOk(Step(s, a))
  {
    InvStep(s, a);
    if a.Cast? || a.Withdraw? {
      RecordedOk(s, a);
      RecordedPrimary(s, a);
      DecidedPrimary(Recorded(s, a), a.majority);
    } else if a.StopInterrupted? {
      InterruptedPrimary(s, a);
    } else {
      EndedPrimary(s, a);
    }
  }

  lemma InterruptedPrimary(s: State, a: Action)
    requires PrimaryOk(s) && Enabled(s, a) && a.StopInterrupted? && Spares(s, a) && Inv(Step(s, a))
    ensures PrimaryOk(Step(s, a))
  {
    var t := Step(s, a);
    OutstandingSame(s.voters, t.voters);
    assert forall v :: Count(t, v) == Count(s, v);
    if AnyUndecided(t.voters) {
      var i :| 0 <= i < |t.voters| && t.voters[i].result.Undecided?;
      assert s.voters[i].result.Undecided?;
      forall v ensures TallyOk(t, v) { InterruptedTally(s, a, v); }
    }
  }

  lemma InterruptedTally(s: State, a: Action, v: Vote)
    requires Weighted(s.voters) && TallyOk(s, v) && Enabled(s, a) && a.StopInterrupted? && Spares(s, a)
    ensures TallyOk(Step(s, a), v)
  {
    var t := Step(s, a);
    assert Free(t) == Free(s) - a.reached;
    WeightMonotone(t.voters, s.voters, Free(t), Free(s));
    WeightMonotone(t.voters, s.voters, Free(t), Free(s) - a.reached);
    if 0 in Live(t, v) || 0 !in Live(s, v) { WeightMonotone(s.voters, t.voters, Live(s, v), Live(t, v)); }
  }

  lemma EndedPrimary(s: State, a: Action)
    requires PrimaryOk(s) && Enabled(s, a) && (a.CancelAll? || a.StopAll?) && Inv(Step(s, a))
    ensures PrimaryOk(Step(s, a))
  {
    var t := Step(s, a);
    assert forall i :: 0 <= i < |s.voters| ==> i in Below(|s.voters|) && !t.voters[i].result.Undecided?;
    ClosedPrimary(s, t);
  }

  lemma ClosedPrimary(s: State, t: State)
    requires PrimaryOk(s) && Inv(t) && |t.voters| == |s.voters| && t.counts == s.counts
    requires forall i :: 0 <= i < |s.voters| ==>
               t.voters[i].votes == s.voters[i].votes && t.voters[i].vote == s.voters[i].vote && !t.voters[i].result.Undecided?
               && (t.voters[i].result == s.voters[i].result || t.voters[i].result.Canceled? || t.voters[i].result.Stopped?)
    requires s.voters[0].result.Committed? ==> t.voters[0].result.Committed?
    ensures PrimaryOk(t)
  {
    OutstandingSame(s.voters, t.voters);
    assert forall v :: Count(t, v) == Count(s, v);
  }

  /** Every step of a run spares the primary. */
  predicate PrimarySpared(s: State, h: seq<Action>)
    requires |s.voters| > 0
  {
    h != [] && After(s, h).Some? ==>
      PrimarySpared(s, h[..|h| - 1]) && Spares(After(s, h[..|h| - 1]).value, h[|h| - 1])
  }

  lemma {:induction false} PrimaryRun(s: State, h: seq<Action>)
    requires Initial(s) && After(s, h).Some? && PrimarySpared(s, h)
    ensures PrimaryOk(After(s, h).value)
  {
    if h != [] {
      PrimaryRun(s, h[..|h| - 1]);
      PrimaryStep(After(s, h[..|h| - 1]).value, h[|h| - 1]);
    }
  }

  /** Nobody commits unless the primary commits, as long as no stop gives up after it has stopped an
      undecided primary whose vote can still win. */
  lemma NoCommitWithoutPrimary(s: State, h: seq<Action>, i: nat)
    requires Initial(s) && After(s, h).Some? && PrimarySpared(s, h)
    requires i < |s.voters| && After(s, h).value.voters[i].result.Committed?
    ensures After(s, h).value.voters[0].result.Committed?
  {
    PrimaryRun(s, h);
  }

  /** A vote that reaches the threshold is the largest, and decides for everyone who cast it. */
  lemma CompletingCast(u: State, j: nat, v: Vote)
    requires Inv(u) && j < |u.voters| && u.voters[j].vote.None? && u.voters[j].result.Undecided?
    requires Count(u, v) + u.voters[j].votes >= Threshold(|u.voters| - 1)
    ensures Enabled(u, Cast(j, v, v))
    ensures var t := Step(u, Cast(j, v, v));
            t.voters[j].result.Committed? && forall i :: 0 <= i < |u.voters| && i != j ==>
              t.voters[i].result == if u.voters[i].result.Undecided? && u.voters[i].vote == Some(v) then Committed
                                    else if u.voters[i].result.Undecided? && u.voters[i].vote.Some? then Failed else u.voters[i].result
  {
    var r := Recorded(u, Cast(j, v, v));
    var threshold := Threshold(|u.voters| - 1);
    RecordedCounts(u, j, v);
    forall w | w in r.counts ensures r.counts[w] <= r.counts[v] {
      if w != v {
        assert For(r, w) !! For(r, v);
        ThresholdSound(r.voters, For(r, w), For(r, v));
        assert Count(r, w) <= Weight(r.voters, For(r, w)) && Count(r, v) <= Weight(r.voters, For(r, v));
      }
    }
  }

  lemma RecordedCounts(u: State, j: nat, v: Vote)
    requires Inv(u) && j < |u.voters| && u.voters[j].vote.None? && u.voters[j].result.Undecided?
    ensures var r := Recorded(u, Cast(j, v, v));
            Weighted(r.voters) && forall w :: Count(r, w) <= Weight(r.voters, For(r, w))
  {
    var a := Cast(j, v, v);
    var t := Recorded(u, a);
    forall w ensures Count(t, w) <= Weight(t.voters, For(t, w)) {
      if w == v {
        assert For(t, w) == For(u, w) + {j};
        WeightAdd(t.voters, For(u, w), j);
        WeightMonotone(u.voters, t.voters, For(u, w), For(u, w));
      } else {
        SameVotes(u, t, w);
      }
    }
  }

  lemma AfterThen(s: State, h: seq<Action>, t: State, a: Action, u: State)
    requires |s.voters| > 0 && After(s, h) == Some(t) && Enabled(t, a) && u == Step(t, a)
    ensures After(s, h + [a]) == Some(u)
    ensures PrimarySpared(s, h) && Spares(t, a) ==> PrimarySpared(s, h + [a])
  {
    assert (h + [a])[..|h|] == h;
  }
}
