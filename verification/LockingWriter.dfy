/** Compare-and-swap on a file (internal/safe/locking_file_writer.go, file_writer.go), as a machine of
    the system calls that any number of LockingFileWriters on one path make.

    Size, modification time and mode are taken to identify a version of the target file. */
module LockingWriter {
  import opened Prelude

  type WriterId = nat
  type Version = nat

  /** Between Lock's check and the creation of the lock file a writer is `Checked`; between Commit's
      check and the rename it is `Committing`; after the rename and before unlocking, `Renamed`. */
  datatype Phase = Open | Checked | Locked | Committing | Renamed | Closed

  /** `seen` is what the writer found when it was created; `spent` says that the embedded FileWriter
      has been committed or closed, which happens at most once. */
  datatype Writer = Writer(seen: Option<Version>, phase: Phase, spent: bool)

  /** One replacement of the target: by whom, what that writer had seen, what it replaced. */
  datatype Swap = Swap(writer: WriterId, seen: Option<Version>, replaced: Option<Version>, made: Version)

  datatype State = State(
    target: Option<Version>,
    next: Version,                  // versions from here on have never been used
    locked: bool,                   // the lock file exists
    writers: map<WriterId, Writer>,
    swaps: seq<Swap>
  )

  datatype Action =
    | Create(w: WriterId)
    | LockCheck(w: WriterId)
    | LockTake(w: WriterId)
    | CommitCheck(w: WriterId)
    | Rename(w: WriterId, renamed: bool, synced: bool)
    | Unlock(w: WriterId, ok: bool)
    | Close(w: WriterId, ok: bool)
    | Foreign(target: Option<Version>)    // somebody who does not use these writers

  predicate Enabled(s: State, a: Action) {
    match a
    case Create(w) => w !in s.writers
    case LockCheck(w) => w in s.writers && s.writers[w].phase.Open?
    case LockTake(w) => w in s.writers && s.writers[w].phase.Checked?
    case CommitCheck(w) => w in s.writers && s.writers[w].phase.Locked?
    case Rename(w, renamed, synced) => w in s.writers && s.writers[w].phase.Committing? && (synced ==> renamed)
    case Unlock(w, _) => w in s.writers && s.writers[w].phase.Renamed?
    case Close(w, _) => w in s.writers && (s.writers[w].phase.Open? || s.writers[w].phase.Locked?)
    case Foreign(t) => t.Some? ==> t.value >= s.next
  }

  function To(s: State, w: WriterId, phase: Phase): State
    requires w in s.writers
  {
    s.(writers := s.writers[w := s.writers[w].(phase := phase)])
  }

  function Step(s: State, a: Action): State
    requires Enabled(s, a)
  {
    match a
    case Create(w) => s.(writers := s.writers[w := Writer(s.target, Open, false)])
    // A failed check leaves the writer as it was.
    case LockCheck(w) => if s.target == s.writers[w].seen then To(s, w, Checked) else s
    case LockTake(w) => if s.locked then To(s, w, Open) else To(s, w, Locked).(locked := true)
    case CommitCheck(w) => if s.target == s.writers[w].seen then To(s, w, Committing) else s
    // FileWriter.Commit: once only; when the directory cannot be synced it fails after the rename.
    case Rename(w, renamed, synced) =>
      var x := s.writers[w];
      if x.spent || !renamed then s.(writers := s.writers[w := x.(phase := Locked, spent := true)])
      else
        s.(target := Some(s.next), next := s.next + 1,
           swaps := s.swaps + [Swap(w, x.seen, s.target, s.next)],
           writers := s.writers[w := x.(phase := if synced then Renamed else Locked, spent := true)])
    case Unlock(w, ok) => if ok then To(s, w, Closed).(locked := false) else To(s, w, Locked)
    case Close(w, ok) =>
      var x := s.writers[w];
      var t := s.(writers := s.writers[w := x.(phase := Closed, spent := true)]);
      if x.phase.Locked? && ok then t.(locked := false) else t
    case Foreign(t) => s.(target := t, next := if t.Some? then t.value + 1 else s.next)
  }

  /** Some version, or none, and no writers. */
  predicate Initial(s: State) {
    !s.locked && s.writers == map[] && s.swaps == [] && (s.target.Some? ==> s.target.value < s.next)
  }

  function After(s: State, h: seq<Action>): Option<State> {
    if h == [] then Some(s)
    else
      var before := After(s, h[..|h| - 1]);
      if before.Some? && Enabled(before.value, h[|h| - 1]) then Some(Step(before.value, h[|h| - 1])) else None
  }

  /** The one moment at which a foreign change goes unnoticed: after Commit's check. */
  predicate Exposed(s: State) {
    exists w :: w in s.writers && s.writers[w].phase.Committing?
  }

  /** No foreign change happens at such a moment. With cooperating writers only, there is none. */
  predicate Sheltered(s: State, h: seq<Action>)
    requires After(s, h).Some?
  {
    h == [] || ((h[|h| - 1].Foreign? ==> !Exposed(After(s, h[..|h| - 1]).value)) && Sheltered(s, h[..|h| - 1]))
  }

  // ---- the invariant --------------------------------------------------------------------------

  predicate Holds(x: Writer) {
    x.phase.Locked? || x.phase.Committing? || x.phase.Renamed?
  }

  ghost predicate LockOk(s: State) {
    && (forall w :: w in s.writers && Holds(s.writers[w]) ==> s.locked)
    && (forall v, w :: v in s.writers && w in s.writers && Holds(s.writers[v]) && Holds(s.writers[w]) ==> v == w)
  }

  ghost predicate TargetOk(s: State) {
    && (s.target.Some? ==> s.target.value < s.next)
    && (forall w :: w in s.writers && s.writers[w].phase.Committing? ==> s.target == s.writers[w].seen)
  }

  /** Every swap replaced what its writer had seen, and no version was replaced twice. */
  ghost predicate SwapsOk(s: State) {
    && (forall i :: 0 <= i < |s.swaps| ==> s.swaps[i].replaced == s.swaps[i].seen && s.swaps[i].made < s.next)
    && (forall i :: 0 <= i < |s.swaps| && s.swaps[i].replaced.Some? ==>
          s.swaps[i].replaced.value < s.next && s.swaps[i].replaced != s.target)
    && (forall i, j :: 0 <= i < j < |s.swaps| && s.swaps[i].replaced.Some? ==> s.swaps[i].replaced != s.swaps[j].replaced)
  }

  ghost predicate Inv(s: State) {
    LockOk(s) && TargetOk(s) && SwapsOk(s)
  }

  lemma LockStep(s: State, a: Action)
    requires LockOk(s) && Enabled(s, a)
    ensures LockOk(Step(s, a))
  {
  }

  lemma TargetStep(s: State, a: Action)
    requires LockOk(s) && TargetOk(s) && Enabled(s, a) && (a.Foreign? ==> !Exposed(s))
    ensures TargetOk(Step(s, a))
  {
  }

  lemma SwapsRename(s: State, w: WriterId, t: State)
    requires TargetOk(s) && SwapsOk(s) && w in s.writers && s.writers[w].phase.Committing?
    requires t.swaps == s.swaps + [Swap(w, s.writers[w].seen, s.target, s.next)] && t.target == Some(s.next) && t.next == s.next + 1
    ensures SwapsOk(t)
  {
  }

  lemma SwapsStep(s: State, a: Action)
    requires TargetOk(s) && SwapsOk(s) && Enabled(s, a)
    ensures SwapsOk(Step(s, a))
  {
    if a.Rename? && a.renamed && !s.writers[a.w].spent {
      SwapsRename(s, a.w, Step(s, a));
    } else {
      assert Step(s, a).swaps == s.swaps;
    }
  }

  lemma {:induction false} InvRun(s: State, h: seq<Action>)
    requires Initial(s) && After(s, h).Some? && Sheltered(s, h)
    ensures Inv(After(s, h).value)
  {
    if h != [] {
      InvRun(s, h[..|h| - 1]);
      var t := After(s, h[..|h| - 1]).value;
      LockStep(t, h[|h| - 1]);
      TargetStep(t, h[|h| - 1]);
      SwapsStep(t, h[|h| - 1]);
    }
  }

  lemma {:induction false} LockRun(s: State, h: seq<Action>)
    requires Initial(s) && After(s, h).Some?
    ensures LockOk(After(s, h).value)
  {
    if h != [] {
      LockRun(s, h[..|h| - 1]);
      LockStep(After(s, h[..|h| - 1]).value, h[|h| - 1]);
    }
  }

  /** Mutual exclusion: in every run, whatever else happens to the target, at most one writer holds
      the lock, and while it does the lock file exists. */
  lemma MutualExclusion(s: State, h: seq<Action>, v: WriterId, w: WriterId)
    requires Initial(s) && After(s, h).Some?
    requires var t := After(s, h).value; v in t.writers && w in t.writers && Holds(t.writers[v]) && Holds(t.writers[w])
    ensures v == w && After(s, h).value.locked
  {
    LockRun(s, h);
  }

  /** No lost update: each commit replaces exactly the version its writer saw when it was created, so
      of several writers that saw the same file at most one ever commits. */
  lemma NoLostUpdate(s: State, h: seq<Action>, i: nat, j: nat)
    requires Initial(s) && After(s, h).Some? && Sheltered(s, h)
    requires i < |After(s, h).value.swaps| && j < |After(s, h).value.swaps|
    ensures var swaps := After(s, h).value.swaps;
            && swaps[i].replaced == swaps[i].seen
            && (swaps[i].seen.Some? && swaps[i].seen == swaps[j].seen ==> i == j)
  {
    InvRun(s, h);
  }

  /** With cooperating writers only, this covers writers that saw no file as well. */
  lemma {:induction false} CooperatingRun(s: State, h: seq<Action>)
    requires Initial(s) && After(s, h).Some? && forall i :: 0 <= i < |h| ==> !h[i].Foreign?
    ensures Sheltered(s, h)
    ensures var t := After(s, h).value;
            && (t.swaps != [] ==> t.target.Some?)
            && forall i :: 0 < i < |t.swaps| ==> t.swaps[i].replaced.Some?
  {
    if h != [] { CooperatingRun(s, h[..|h| - 1]); }
  }

  lemma CooperatingWriters(s: State, h: seq<Action>, i: nat, j: nat)
    requires Initial(s) && After(s, h).Some? && forall i :: 0 <= i < |h| ==> !h[i].Foreign?
    requires i < |After(s, h).value.swaps| && j < |After(s, h).value.swaps|
    ensures var swaps := After(s, h).value.swaps;
            swaps[i].replaced == swaps[i].seen && (swaps[i].seen == swaps[j].seen ==> i == j)
  {
    CooperatingRun(s, h);
    NoLostUpdate(s, h, i, j);
    NoLostUpdate(s, h, j, i);
  }

  /** The proviso is exact: after a sheltered run, let somebody else set the target to `f` when `w` has
      just made its check. The rename that follows replaces what `w` saw if and only if that left the
      target as it was. */
  lemma ShelteredExactly(s: State, h: seq<Action>, w: WriterId, f: Option<Version>) returns (t: State)
    requires Initial(s) && After(s, h).Some? && Sheltered(s, h) && Enabled(After(s, h).value, Foreign(f))
    requires var u := After(s, h).value; w in u.writers && u.writers[w].phase.Committing? && !u.writers[w].spent
    ensures After(s, h + [Foreign(f), Rename(w, true, true)]) == Some(t)
    ensures var n := |After(s, h).value.swaps|;
            && |t.swaps| == n + 1 && t.swaps[n].writer == w && t.swaps[n].replaced == f
            && (t.swaps[n].replaced == t.swaps[n].seen <==> f == After(s, h).value.target)
  {
    InvRun(s, h);
    var u := After(s, h).value;
    var u1 := Step(u, Foreign(f));
    t := Step(u1, Rename(w, true, true));
    AfterThen(s, h, u, Foreign(f), u1);
    AfterThen(s, h + [Foreign(f)], u1, Rename(w, true, true), t);
    assert h + [Foreign(f)] + [Rename(w, true, true)] == h + [Foreign(f), Rename(w, true, true)];
  }

  /** The exception is real: a foreign change after Commit's check is overwritten unseen. */
  lemma ForeignChangeLost(version: Version) returns (s: State, h: seq<Action>)
    ensures Initial(s) && After(s, h).Some?
    ensures var swaps := After(s, h).value.swaps; |swaps| == 1 && swaps[0].seen.None? && swaps[0].replaced == Some(version)
  {
    s := State(None, 0, false, map[], []);
    var x := Writer(None, Open, false);
    var s1 := s.(writers := map[0 := x]);
    AfterThen(s, [], s, Create(0), s1);
    h := [] + [Create(0)];
    var s2 := s1.(writers := map[0 := x.(phase := Checked)]);
    AfterThen(s, h, s1, LockCheck(0), s2);
    h := h + [LockCheck(0)];
    var s3 := s1.(writers := map[0 := x.(phase := Locked)], locked := true);
    AfterThen(s, h, s2, LockTake(0), s3);
    h := h + [LockTake(0)];
    var s4 := s3.(writers := map[0 := x.(phase := Committing)]);
    AfterThen(s, h, s3, CommitCheck(0), s4);
    h := h + [CommitCheck(0)];
    var s5 := s4.(target := Some(version), next := version + 1);
    AfterThen(s, h, s4, Foreign(Some(version)), s5);
    h := h + [Foreign(Some(version))];
    AfterThen(s, h, s5, Rename(0, true, true), Step(s5, Rename(0, true, true)));
    h := h + [Rename(0, true, true)];
  }

  lemma AfterThen(s: State, h: seq<Action>, t: State, a: Action, u: State)
    requires After(s, h) == Some(t) && Enabled(t, a) && u == Step(t, a)
    ensures After(s, h + [a]) == Some(u)
  {
    assert (h + [a])[..|h|] == h;
  }

  // ---- the lock comes free --------------------------------------------------------------------

  /** The step gives up the lock without removing the lock file: Close by its holder, when that fails. */
  predicate Leaves(s: State, a: Action) {
    a.Close? && !a.ok && a.w in s.writers && s.writers[a.w].phase.Locked?
  }

  /** Somewhere in `h` a holder left its lock file behind. */
  predicate LeftBehind(s: State, h: seq<Action>)
    requires After(s, h).Some?
  {
    h != [] && (Leaves(After(s, h[..|h| - 1]).value, h[|h| - 1]) || LeftBehind(s, h[..|h| - 1]))
  }

  predicate Held(s: State) {
    exists w :: w in s.writers && Holds(s.writers[w])
  }

  lemma HeldMoves(s: State, a: Action, left: bool)
    requires LockOk(s) && Enabled(s, a) && (s.locked <==> Held(s) || left) && !(Held(s) && left)
    ensures var left' := left || Leaves(s, a); (Step(s, a).locked <==> Held(Step(s, a)) || left') && !(Held(Step(s, a)) && left')
  {
    var t := Step(s, a);
    if a.Create? || a.Foreign? {
      assert forall w :: w in s.writers ==> w in t.writers && t.writers[w] == s.writers[w];
      assert forall w :: w in t.writers && Holds(t.writers[w]) ==> w in s.writers;
    } else {
      HolderMoves(s, a);
    }
  }

  /** A step of a writer changes that writer only, and at most one writer holds the lock. */
  lemma HolderMoves(s: State, a: Action)
    requires LockOk(s) && Enabled(s, a) && !a.Create? && !a.Foreign?
    ensures var t := Step(s, a);
            && a.w in s.writers && a.w in t.writers && t.writers.Keys == s.writers.Keys
            && (forall v :: v in s.writers && v != a.w ==> t.writers[v] == s.writers[v])
            && (Held(t) <==> Holds(t.writers[a.w]) || (Held(s) && !Holds(s.writers[a.w])))
  {
    var t := Step(s, a);
    if Held(t) && !Holds(t.writers[a.w]) {
      var v :| v in t.writers && Holds(t.writers[v]);
      assert v in s.writers && Holds(s.writers[v]);
    }
    if Held(s) && !Holds(s.writers[a.w]) {
      var v :| v in s.writers && Holds(s.writers[v]);
      assert v in t.writers && Holds(t.writers[v]);
    }
  }

  /** The lock file is there exactly while a writer holds the lock, or for good after a holder has closed
      without being able to remove it. */
  lemma {:induction false} LockedExactly(s: State, h: seq<Action>)
    requires Initial(s) && After(s, h).Some?
    ensures var t := After(s, h).value; (t.locked <==> Held(t) || LeftBehind(s, h)) && !(Held(t) && LeftBehind(s, h))
  {
    if h != [] {
      LockedExactly(s, h[..|h| - 1]);
      LockRun(s, h[..|h| - 1]);
      HeldMoves(After(s, h[..|h| - 1]).value, h[|h| - 1], LeftBehind(s, h[..|h| - 1]));
    }
  }

  /** A writer from its creation to the end of Commit, undisturbed. */
  function Update(w: WriterId): seq<Action> {
    [Create(w), LockCheck(w), LockTake(w), CommitCheck(w), Rename(w, true, true), Unlock(w, true)]
  }

  lemma UpdateLocks(u: State, w: WriterId) returns (t: State)
    requires !u.locked && w !in u.writers
    ensures After(u, [Create(w), LockCheck(w), LockTake(w)]) == Some(t)
    ensures t == u.(locked := true, writers := u.writers[w := Writer(u.target, Locked, false)])
  {
    var x := Writer(u.target, Open, false);
    var u1 := u.(writers := u.writers[w := x]);
    AfterThen(u, [], u, Create(w), u1);
    assert [] + [Create(w)] == [Create(w)];
    var u2 := u.(writers := u.writers[w := x.(phase := Checked)]);
    assert Step(u1, LockCheck(w)) == u2;
    AfterThen(u, [Create(w)], u1, LockCheck(w), u2);
    assert [Create(w)] + [LockCheck(w)] == [Create(w), LockCheck(w)];
    t := u.(locked := true, writers := u.writers[w := x.(phase := Locked)]);
    assert Step(u2, LockTake(w)) == t;
    AfterThen(u, [Create(w), LockCheck(w)], u2, LockTake(w), t);
    assert [Create(w), LockCheck(w)] + [LockTake(w)] == [Create(w), LockCheck(w), LockTake(w)];
  }

  lemma UpdateCommits(u: State, w: WriterId) returns (t: State)
    requires u.locked && w in u.writers && u.writers[w] == Writer(u.target, Locked, false)
    ensures After(u, [CommitCheck(w), Rename(w, true, true), Unlock(w, true)]) == Some(t)
    ensures t == u.(target := Some(u.next), next := u.next + 1, locked := false,
                    swaps := u.swaps + [Swap(w, u.target, u.target, u.next)],
                    writers := u.writers[w := Writer(u.target, Closed, true)])
  {
    var x := u.writers[w];
    var u1 := u.(writers := u.writers[w := x.(phase := Committing)]);
    AfterThen(u, [], u, CommitCheck(w), u1);
    assert [] + [CommitCheck(w)] == [CommitCheck(w)];
    var u2 := u.(target := Some(u.next), next := u.next + 1, swaps := u.swaps + [Swap(w, u.target, u.target, u.next)],
                 writers := u.writers[w := x.(phase := Renamed, spent := true)]);
    assert Step(u1, Rename(w, true, true)) == u2;
    AfterThen(u, [CommitCheck(w)], u1, Rename(w, true, true), u2);
    assert [CommitCheck(w)] + [Rename(w, true, true)] == [CommitCheck(w), Rename(w, true, true)];
    t := u2.(locked := false, writers := u.writers[w := x.(phase := Closed, spent := true)]);
    assert Step(u2, Unlock(w, true)) == t;
    AfterThen(u, [CommitCheck(w), Rename(w, true, true)], u2, Unlock(w, true), t);
    assert [CommitCheck(w), Rename(w, true, true)] + [Unlock(w, true)] == [CommitCheck(w), Rename(w, true, true), Unlock(w, true)];
  }

  lemma {:induction false} RunsJoin(s: State, h: seq<Action>, t: State, rest: seq<Action>)
    requires After(s, h) == Some(t) && After(t, rest).Some?
    ensures After(s, h + rest) == After(t, rest)
    decreases |rest|
  {
    if rest == [] {
      assert h + rest == h;
    } else {
      assert (h + rest)[..|h + rest| - 1] == h + rest[..|rest| - 1];
      RunsJoin(s, h, t, rest[..|rest| - 1]);
    }
  }

  /** Updates go on. After any run in which nobody holds the lock and no holder has left its lock file
      behind, a new writer can lock and commit: the target becomes a new version, in place of the one
      the writer saw, and the lock is free again. */
  lemma UpdateGoesThrough(s: State, h: seq<Action>, w: WriterId) returns (t: State)
    requires Initial(s) && After(s, h).Some? && !Held(After(s, h).value) && !LeftBehind(s, h) && w !in After(s, h).value.writers
    ensures After(s, h + Update(w)) == Some(t) && !t.locked && !Held(t)
    ensures var u := After(s, h).value;
            && t.target == Some(u.next) != u.target && t.swaps == u.swaps + [Swap(w, u.target, u.target, u.next)]
            && t.writers[w].phase.Closed?
  {
    var u := After(s, h).value;
    LockedExactly(s, h);
    VersionsNew(s, h);
    var locked := UpdateLocks(u, w);
    t := UpdateCommits(locked, w);
    var first, last := [Create(w), LockCheck(w), LockTake(w)], [CommitCheck(w), Rename(w, true, true), Unlock(w, true)];
    RunsJoin(u, first, locked, last);
    assert first + last == Update(w);
    RunsJoin(s, h, u, Update(w));
    forall v | v in t.writers ensures !Holds(t.writers[v]) { assert v == w || t.writers[v] == u.writers[v]; }
  }

  lemma {:induction false} VersionsNew(s: State, h: seq<Action>)
    requires Initial(s) && After(s, h).Some?
    ensures var t := After(s, h).value; t.target.Some? ==> t.target.value < t.next
  {
    if h != [] { VersionsNew(s, h[..|h| - 1]); }
  }

  // ---- when Lock and Commit succeed -----------------------------------------------------------

  /** Lock, undisturbed: the creation of the lock file follows only on a check that succeeds. */
  function LockCall(s: State, w: WriterId): State
    requires Enabled(s, LockCheck(w))
  {
    var t := Step(s, LockCheck(w));
    if Enabled(t, LockTake(w)) then Step(t, LockTake(w)) else t
  }

  /** Commit, undisturbed, when the calls go as told. */
  function CommitCall(s: State, w: WriterId, renamed: bool, synced: bool, unlocked: bool): State
    requires Enabled(s, CommitCheck(w)) && (synced ==> renamed)
  {
    var t := Step(s, CommitCheck(w));
    if !Enabled(t, Rename(w, renamed, synced)) then t
    else
      var u := Step(t, Rename(w, renamed, synced));
      if Enabled(u, Unlock(w, unlocked)) then Step(u, Unlock(w, unlocked)) else u
  }

  /** Lock succeeds if and only if the target is still what the writer saw and nobody has the lock;
      otherwise the writer stays open, and can try again. */
  lemma LockExactly(s: State, w: WriterId)
    requires Enabled(s, LockCheck(w))
    ensures var x := s.writers[w]; var t := LockCall(s, w);
            if s.target == x.seen && !s.locked then t == s.(locked := true, writers := s.writers[w := x.(phase := Locked)])
            else t == s
  {
    var x := s.writers[w];
    assert s.writers[w := x] == s.writers;
    assert s.writers[w := x.(phase := Checked)][w := x.(phase := Open)] == s.writers;
    assert s.writers[w := x.(phase := Checked)][w := x.(phase := Locked)] == s.writers[w := x.(phase := Locked)];
  }

  /** Commit succeeds if and only if the target is still what the writer saw, the writer was not committed
      before, and all calls succeed; only then is the lock gone. The target is replaced if and only if
      the rename happens, also when Commit then fails because the directory could not be synced or the
      lock file not removed. */
  lemma CommitExactly(s: State, w: WriterId, renamed: bool, synced: bool, unlocked: bool)
    requires Enabled(s, CommitCheck(w)) && (synced ==> renamed)
    ensures var x := s.writers[w]; var t := CommitCall(s, w, renamed, synced, unlocked);
            var current := s.target == x.seen && !x.spent;
            && w in t.writers
            && (t.writers[w].phase.Closed? <==> current && renamed && synced && unlocked)
            && (!t.writers[w].phase.Closed? ==> t.writers[w].phase.Locked?)
            && t.locked == (s.locked && !t.writers[w].phase.Closed?)
            && t.target == (if current && renamed then Some(s.next) else s.target)
            && t.swaps == (if current && renamed then s.swaps + [Swap(w, x.seen, s.target, s.next)] else s.swaps)
  {
  }

  /** An open or locked writer can always be closed, whatever has failed before. The target stays as it is,
      and the lock of a holder is free afterwards if its lock file can be removed. */
  lemma CloseFrees(s: State, h: seq<Action>, w: WriterId, ok: bool)
    requires Initial(s) && After(s, h).Some? && w in After(s, h).value.writers
    requires var x := After(s, h).value.writers[w]; x.phase.Open? || x.phase.Locked?
    ensures After(s, h + [Close(w, ok)]).Some?
    ensures var u, t := After(s, h).value, After(s, h + [Close(w, ok)]).value;
            && t.target == u.target && t.swaps == u.swaps && t.writers[w].phase.Closed?
            && t.locked == (u.locked && !(u.writers[w].phase.Locked? && ok))
  {
    AfterThen(s, h, After(s, h).value, Close(w, ok), Step(After(s, h).value, Close(w, ok)));
  }

  lemma SpentStays(s: State, a: Action, w: WriterId)
    requires Enabled(s, a) && w in s.writers && s.writers[w].spent
    ensures w in Step(s, a).writers && Step(s, a).writers[w].spent && s.swaps <= Step(s, a).swaps
    ensures forall i :: |s.swaps| <= i < |Step(s, a).swaps| ==> Step(s, a).swaps[i].writer != w
  {
  }

  /** A writer gets one attempt: once it has come to the rename, whether or not that worked, it never
      replaces the target again. */
  lemma {:induction false} OneAttempt(s: State, h: seq<Action>, w: WriterId, renamed: bool, synced: bool, rest: seq<Action>)
    requires After(s, h + [Rename(w, renamed, synced)] + rest).Some?
    ensures After(s, h + [Rename(w, renamed, synced)]).Some?
    ensures var u, t := After(s, h + [Rename(w, renamed, synced)]).value, After(s, h + [Rename(w, renamed, synced)] + rest).value;
            && w in t.writers && t.writers[w].spent && u.swaps <= t.swaps
            && forall i :: |u.swaps| <= i < |t.swaps| ==> t.swaps[i].writer != w
    decreases |rest|
  {
    var h1 := h + [Rename(w, renamed, synced)];
    if rest == [] {
      assert h1 + rest == h1 && h1[..|h1| - 1] == h;
    } else {
      assert (h1 + rest)[..|h1 + rest| - 1] == h1 + rest[..|rest| - 1];
      OneAttempt(s, h, w, renamed, synced, rest[..|rest| - 1]);
      SpentStays(After(s, h1 + rest[..|rest| - 1]).value, rest[|rest| - 1], w);
    }
  }
}
