/** What a create run ends with, what its readers get, and that both get there
    (internal/streamcache/pipe.go; internal/streamcache/cache.go, runCreate). */
module PipeResults {
  import opened Prelude
  import opened Pipes

  // ---- the history behind a state -------------------------------------------------------------

  /** A Write that returned an error: the pipe was broken, or the write to the file failed. */
  predicate WriteFails(a: Action) {
    a.W? && (a.w.SeeBroken? || (a.w.FileWrite? && !a.w.ok))
  }

  predicate AnyWriteFailed(h: seq<Action>) {
    exists i :: 0 <= i < |h| && WriteFails(h[i])
  }

  /** The writer closed the file without an error, and not all readers had closed before. */
  ghost predicate ClosedWell(first: ReaderId, h: seq<Action>)
    requires Run(first, h)
  {
    exists i :: ClosesWell(first, h, i)
  }

  predicate ClosesWell(first: ReaderId, h: seq<Action>, i: nat) {
    i < |h| && h[i] == W(CloseWriter(true)) && Run(first, h[..i]) && !Broken(After(first, h[..i]).value)
  }

  /** How many bytes reader `id` has read in the course of `h`, since it was opened. */
  function BytesRead(h: seq<Action>, id: ReaderId): nat {
    if h == [] then 0
    else
      var a, before := h[|h| - 1], BytesRead(h[..|h| - 1], id);
      if a.R? && a.id == id && a.r.FileRead? then before + a.r.n else before
  }

  /** How the writer's state and the failures of writes come about. */
  ghost predicate StoryOk(first: ReaderId, h: seq<Action>, p: Pipe)
    requires Run(first, h)
  {
    && (p.failed <==> AnyWriteFailed(h))
    && (p.writer.Returned? || p.writer.Closed? <==> W(Return(true)) in h || W(Return(false)) in h)
    && !(W(Return(true)) in h && W(Return(false)) in h)
    && (p.writer.Returned? ==> (p.writer.ok <==> W(Return(true)) in h))
    && (p.writer.Closed? <==> W(CloseWriter(true)) in h || W(CloseWriter(false)) in h)
    && (p.writer.Closed? ==> (p.writer.ok <==> W(Return(true)) in h && ClosedWell(first, h)))
    && (!p.writer.Closed? ==> !ClosedWell(first, h))
  }

  lemma Member(h: seq<Action>, a: Action, b: Action)
    ensures b in h + [a] <==> b in h || b == a
  {
  }

  lemma LastOf(first: ReaderId, h: seq<Action>)
    requires Run(first, h) && h != []
    ensures var before, a := h[..|h| - 1], h[|h| - 1];
            && h == before + [a] && Run(first, before) && Enabled(After(first, before).value, a)
            && After(first, h) == Some(Step(After(first, before).value, a))
  {
  }

  lemma ClosedWellGrows(first: ReaderId, h: seq<Action>, a: Action)
    requires Run(first, h) && Run(first, h + [a])
    ensures ClosedWell(first, h + [a]) <==> ClosedWell(first, h) || (a == W(CloseWriter(true)) && !Broken(After(first, h).value))
  {
    var longer := h + [a];
    assert longer[..|h|] == h;
    forall i: nat | i < |h| ensures ClosesWell(first, longer, i) <==> ClosesWell(first, h, i) {
      assert longer[..i] == h[..i];
    }
    assert ClosesWell(first, longer, |h|) <==> a == W(CloseWriter(true)) && !Broken(After(first, h).value);
    if ClosedWell(first, longer) {
      var i :| ClosesWell(first, longer, i);
      assert i == |h| || ClosesWell(first, h, i);
    }
    if ClosedWell(first, h) {
      var i :| ClosesWell(first, h, i);
      assert ClosesWell(first, longer, i);
    }
  }

  lemma FailuresGrow(h: seq<Action>, a: Action)
    ensures AnyWriteFailed(h + [a]) <==> AnyWriteFailed(h) || WriteFails(a)
  {
    var longer := h + [a];
    if AnyWriteFailed(h) {
      var i :| 0 <= i < |h| && WriteFails(h[i]);
      assert WriteFails(longer[i]);
    }
    if WriteFails(a) { assert WriteFails(longer[|h|]); }
    if AnyWriteFailed(longer) {
      var i :| 0 <= i < |longer| && WriteFails(longer[i]);
      assert i < |h| ==> WriteFails(h[i]);
    }
  }

  /** Readers leave the writer alone. */
  lemma WriterStays(p: Pipe, a: Action)
    requires Enabled(p, a) && !a.W?
    ensures Step(p, a).writer == p.writer && Step(p, a).failed == p.failed && Step(p, a).output == p.output
  {
  }

  /** What one more step adds to the history. */
  lemma HistoryGrows(first: ReaderId, h: seq<Action>, a: Action)
    requires Run(first, h) && Run(first, h + [a])
    ensures AnyWriteFailed(h + [a]) <==> AnyWriteFailed(h) || WriteFails(a)
    ensures ClosedWell(first, h + [a]) <==> ClosedWell(first, h) || (a == W(CloseWriter(true)) && !Broken(After(first, h).value))
    ensures forall w :: W(w) in h + [a] <==> W(w) in h || a == W(w)
  {
    FailuresGrow(h, a);
    ClosedWellGrows(first, h, a);
    forall w ensures W(w) in h + [a] <==> W(w) in h || a == W(w) { Member(h, a, W(w)); }
  }

  lemma StoryQuiet(first: ReaderId, h: seq<Action>, a: Action, p: Pipe)
    requires Run(first, h) && Run(first, h + [a]) && !a.W? && Enabled(p, a) && StoryOk(first, h, p)
    ensures StoryOk(first, h + [a], Step(p, a))
  {
    HistoryGrows(first, h, a);
    WriterStays(p, a);
  }

  lemma StoryWriter(first: ReaderId, h: seq<Action>, w: WriterAction, p: Pipe)
    requires Run(first, h) && Run(first, h + [W(w)]) && After(first, h) == Some(p) && WriterEnabled(p, w) && WriterOk(p)
    requires StoryOk(first, h, p)
    ensures StoryOk(first, h + [W(w)], WriterStep(p, w))
  {
    HistoryGrows(first, h, W(w));
  }

  lemma {:induction false} StoryRun(first: ReaderId, h: seq<Action>)
    requires Run(first, h)
    ensures StoryOk(first, h, After(first, h).value)
  {
    if h != [] {
      LastOf(first, h);
      StoryRun(first, h[..|h| - 1]);
      InvRun(first, h[..|h| - 1]);
      var p, a := After(first, h[..|h| - 1]).value, h[|h| - 1];
      if a.W? { StoryWriter(first, h[..|h| - 1], a.w, p); } else { StoryQuiet(first, h[..|h| - 1], a, p); }
    }
  }

  /** The result of a create run. In every run, it is a success if and only if `create` returned without
      an error, the file was closed without an error, and there was a reader left at that time; and a
      write has failed if and only if the run says so. */
  lemma ResultExactly(first: ReaderId, h: seq<Action>)
    requires Run(first, h)
    ensures var p := After(first, h).value;
            && (p.writer == Closed(true) <==> W(Return(true)) in h && ClosedWell(first, h))
            && (p.writer.Closed? <==> W(CloseWriter(true)) in h || W(CloseWriter(false)) in h)
            && (p.failed <==> AnyWriteFailed(h))
  {
    StoryRun(first, h);
  }

  /** A pipe was not broken when it was closed exactly if it is not broken now. */
  lemma ClosedWellNow(first: ReaderId, h: seq<Action>)
    requires Run(first, h)
    ensures ClosedWell(first, h) <==> W(CloseWriter(true)) in h && !Broken(After(first, h).value)
  {
    if ClosedWell(first, h) {
      var i :| ClosesWell(first, h, i);
      CloseCompletes(first, h, i);
    }
    if W(CloseWriter(true)) in h && !Broken(After(first, h).value) {
      var i :| 0 <= i < |h| && h[i] == W(CloseWriter(true));
      RunPrefix(first, h, i);
      assert h == h[..i] + h[i..];
      ModesAreFinal(first, h[..i], h[i..]);
      assert ClosesWell(first, h, i);
    }
  }

  lemma {:induction false} RunPrefix(first: ReaderId, h: seq<Action>, i: nat)
    requires Run(first, h) && i <= |h|
    ensures Run(first, h[..i])
    decreases |h|
  {
    if i == |h| {
      assert h[..i] == h;
    } else {
      RunPrefix(first, h[..|h| - 1], i);
      assert h[..|h| - 1][..i] == h[..i];
    }
  }

  lemma CloseCompletes(first: ReaderId, h: seq<Action>, i: nat)
    requires Run(first, h) && ClosesWell(first, h, i)
    ensures !Broken(After(first, h).value)
  {
    RunPrefix(first, h, i + 1);
    assert h[..i + 1][..i] == h[..i];
    InvRun(first, h[..i]);
    assert Completed(After(first, h[..i + 1]).value);
    assert h == h[..i + 1] + h[i + 1..];
    ModesAreFinal(first, h[..i + 1], h[i + 1..]);
  }

  // ---- honest create functions ----------------------------------------------------------------

  /** `create` never returns nil after one of its writes has failed. */
  predicate Honest(h: seq<Action>) {
    forall i :: 0 <= i < |h| && h[i] == W(Return(true)) ==> !AnyWriteFailed(h[..i])
  }

  lemma HonestPrefix(h: seq<Action>)
    requires Honest(h) && h != []
    ensures Honest(h[..|h| - 1])
    ensures h[|h| - 1] == W(Return(true)) ==> !AnyWriteFailed(h[..|h| - 1])
  {
    var before := h[..|h| - 1];
    forall i | 0 <= i < |before| && before[i] == W(Return(true)) ensures !AnyWriteFailed(before[..i]) {
      assert h[i] == before[i] && h[..i] == before[..i];
    }
  }

  /** After a success, no write has failed: `create` writes nothing once it has returned. */
  lemma {:induction false} SuccessIsWhole(first: ReaderId, h: seq<Action>)
    requires Run(first, h) && Honest(h)
    ensures var p := After(first, h).value; (p.writer == Returned(true) || p.writer == Closed(true)) ==> !p.failed
  {
    if h != [] {
      LastOf(first, h);
      HonestPrefix(h);
      SuccessIsWhole(first, h[..|h| - 1]);
      StoryRun(first, h[..|h| - 1]);
      var p, a := After(first, h[..|h| - 1]).value, h[|h| - 1];
      if !a.W? { WriterStays(p, a); }
    }
  }

  /** EOF and success mean the whole output, if the create function is honest. */
  lemma EofAndSuccess(first: ReaderId, h: seq<Action>, id: ReaderId)
    requires Run(first, h) && Honest(h) && id in After(first, h).value.readers
    requires After(first, h).value.writer == Closed(true) && After(first, h).value.readers[id].eof
    ensures After(first, h).value.readers[id].got == After(first, h).value.output
  {
    SuccessIsWhole(first, h);
    StreamsAreFaithful(first, h, id);
  }

  // ---- what a reader has received -------------------------------------------------------------

  ghost predicate ReadsOk(h: seq<Action>, p: Pipe) {
    forall id :: if id in p.readers then |p.readers[id].got| == BytesRead(h, id) else BytesRead(h, id) == 0
  }

  lemma ReadsStep(h: seq<Action>, p: Pipe, a: Action)
    requires ReadsOk(h, p) && Enabled(p, a)
    ensures ReadsOk(h + [a], Step(p, a))
  {
    assert (h + [a])[..|h|] == h;
    var q := Step(p, a);
    forall id ensures if id in q.readers then |q.readers[id].got| == BytesRead(h + [a], id) else BytesRead(h + [a], id) == 0 {
      assert if id in p.readers then |p.readers[id].got| == BytesRead(h, id) else BytesRead(h, id) == 0;
    }
  }

  /** In every run, what a reader has received is the beginning of the file, as long as what it has read. */
  lemma {:induction false} ReceivedExactly(first: ReaderId, h: seq<Action>)
    requires Run(first, h)
    ensures var p := After(first, h).value;
            && ReadsOk(h, p)
            && forall id :: id in p.readers ==> BytesRead(h, id) <= |p.file| && p.readers[id].got == p.file[..BytesRead(h, id)]
  {
    if h != [] {
      LastOf(first, h);
      ReceivedExactly(first, h[..|h| - 1]);
      ReadsStep(h[..|h| - 1], After(first, h[..|h| - 1]).value, h[|h| - 1]);
    }
    var p := After(first, h).value;
    InvRun(first, h);
    forall id | id in p.readers ensures BytesRead(h, id) <= |p.file| && p.readers[id].got == p.file[..BytesRead(h, id)] {
      assert ReaderOk(p, id, p.readers[id]);
    }
  }

  // ---- reading and writing get on -------------------------------------------------------------

  lemma ExecThen(p: Pipe, h: seq<Action>, q: Pipe, a: Action)
    requires Exec(p, h) == Some(q) && Enabled(q, a)
    ensures Exec(p, h + [a]) == Some(Step(q, a))
  {
    assert (h + [a])[..|h|] == h;
  }

  /** The steps are all the writer's, or all reads of reader `id`. */
  predicate AllWrites(h: seq<Action>) {
    forall i :: 0 <= i < |h| ==> h[i].W?
  }

  predicate AllReads(h: seq<Action>, id: ReaderId) {
    forall i :: 0 <= i < |h| ==> h[i].R? && h[i].id == id && !h[i].r.OpenReader? && !h[i].r.CloseReader?
  }

  /** The reader can take `n` more bytes: they are published, or the writer has closed. */
  predicate CanTake(p: Pipe, id: ReaderId, n: nat) {
    && id in p.readers && p.readers[id].phase.AtRest? && 0 < n && |p.readers[id].got| + n <= |p.file|
    && p.readers[id].position < p.wcursor.pos
  }

  lemma ExecTwo(p: Pipe, a: Action, q: Pipe, b: Action)
    requires Enabled(p, a) && q == Step(p, a) && Enabled(q, b)
    ensures Exec(p, [a, b]) == Some(Step(q, b))
  {
    ExecThen(p, [], p, a);
    assert [] + [a] == [a];
    ExecThen(p, [a], q, b);
    assert [a] + [b] == [a, b];
  }

  lemma SetTwice(p: Pipe, id: ReaderId, x: Reader, y: Reader)
    ensures SetReader(SetReader(p, id, x), id, y) == SetReader(p, id, y)
  {
    assert p.readers[id := x][id := y] == p.readers[id := y];
  }

  /** A Read up to its first look at the write cursor. */
  lemma ReadStarts(p: Pipe, id: ReaderId, n: nat)
    requires id in p.readers && p.readers[id].phase.AtRest?
    ensures var x := p.readers[id];
            Exec(p, [R(id, BeginRead(n)), R(id, CheckRead)]) ==
              Some(SetReader(p, id, x.(phase := if x.position >= p.wcursor.pos then RWaiting(n) else RReady(n))))
  {
    var x := p.readers[id];
    var begun := x.(phase := RChecking(n));
    SetTwice(p, id, begun, x.(phase := if x.position >= p.wcursor.pos then RWaiting(n) else RReady(n)));
    ExecTwo(p, R(id, BeginRead(n)), SetReader(p, id, begun), R(id, CheckRead));
  }

  lemma ReadEnds(p: Pipe, id: ReaderId, n: nat) returns (q: Pipe)
    requires id in p.readers && p.readers[id].phase == RReady(n) && 0 < n && |p.readers[id].got| + n <= |p.file|
    ensures Exec(p, [R(id, FileRead(n)), R(id, Advance)]) == Some(q)
    ensures id in q.readers && q.readers[id].phase.AtRest? && q.file == p.file && q.wcursor == p.wcursor && q.writer == p.writer
    ensures q.rcursor.done == p.rcursor.done
    ensures q.readers[id].got == p.readers[id].got + p.file[|p.readers[id].got|..|p.readers[id].got| + n]
  {
    var read := Step(p, R(id, FileRead(n)));
    q := Step(read, R(id, Advance));
    ExecTwo(p, R(id, FileRead(n)), read, R(id, Advance));
  }

  lemma TwoReads(id: ReaderId, a: ReaderAction, b: ReaderAction)
    requires !a.OpenReader? && !a.CloseReader? && !b.OpenReader? && !b.CloseReader?
    ensures AllReads([R(id, a), R(id, b)], id)
  {
  }

  lemma MoreReads(g: seq<Action>, h: seq<Action>, id: ReaderId)
    requires AllReads(g, id) && AllReads(h, id)
    ensures AllReads(g + h, id)
  {
  }

  /** One Read that finds something: it returns the next bytes of the file and leaves the rest of the pipe alone. */
  lemma ReadOn(p: Pipe, id: ReaderId, n: nat) returns (h: seq<Action>, q: Pipe)
    requires Inv(p) && CanTake(p, id, n)
    ensures Exec(p, h) == Some(q) && AllReads(h, id)
    ensures id in q.readers && q.readers[id].phase.AtRest? && q.file == p.file && q.wcursor == p.wcursor && q.writer == p.writer
    ensures q.rcursor.done == p.rcursor.done
    ensures q.readers[id].got == p.readers[id].got + p.file[|p.readers[id].got|..|p.readers[id].got| + n]
  {
    var begun := SetReader(p, id, p.readers[id].(phase := RReady(n)));
    var first, last := [R(id, BeginRead(n)), R(id, CheckRead)], [R(id, FileRead(n)), R(id, Advance)];
    ReadStarts(p, id, n);
    q := ReadEnds(begun, id, n);
    ExecSplits(p, first, begun, last);
    TwoReads(id, BeginRead(n), CheckRead);
    TwoReads(id, FileRead(n), Advance);
    MoreReads(first, last, id);
    h := first + last;
  }

  lemma {:induction false} InvSteps(p: Pipe, h: seq<Action>, q: Pipe)
    requires Inv(p) && Exec(p, h) == Some(q)
    ensures Inv(q)
    decreases |h|
  {
    if h != [] {
      InvSteps(p, h[..|h| - 1], Exec(p, h[..|h| - 1]).value);
      InvStep(Exec(p, h[..|h| - 1]).value, h[|h| - 1]);
    }
  }

  lemma SeesEof(p: Pipe, id: ReaderId) returns (q: Pipe)
    requires Completed(p) && id in p.readers && p.readers[id].phase == RWaiting(1) && p.readers[id].got == p.file
    ensures Exec(p, [R(id, SeeClosed), R(id, FileRead(0))]) == Some(q)
    ensures id in q.readers && q.readers[id].eof && q.readers[id].got == p.file && q.file == p.file
  {
    var x := p.readers[id];
    var woken := SetReader(p, id, x.(phase := RReady(1)));
    q := Step(woken, R(id, FileRead(0)));
    ExecTwo(p, R(id, SeeClosed), woken, R(id, FileRead(0)));
    assert x.got + p.file[|x.got|..|x.got| + 0] == x.got;
  }

  /** One Read at the end of a completed file: it returns EOF. */
  lemma ReadEof(p: Pipe, id: ReaderId) returns (h: seq<Action>, q: Pipe)
    requires Inv(p) && Completed(p) && id in p.readers && p.readers[id].phase.AtRest? && p.readers[id].got == p.file
    ensures Exec(p, h) == Some(q) && id in q.readers && q.readers[id].eof && q.readers[id].got == p.file && q.file == p.file
    ensures AllReads(h, id)
  {
    assert ReaderOk(p, id, p.readers[id]);
    var begun := SetReader(p, id, p.readers[id].(phase := RWaiting(1)));
    var first, last := [R(id, BeginRead(1)), R(id, CheckRead)], [R(id, SeeClosed), R(id, FileRead(0))];
    ReadStarts(p, id, 1);
    q := SeesEof(begun, id);
    ExecSplits(p, first, begun, last);
    TwoReads(id, BeginRead(1), CheckRead);
    TwoReads(id, SeeClosed, FileRead(0));
    MoreReads(first, last, id);
    h := first + last;
  }

  /** A reader of a completed pipe that keeps reading gets the whole file and then EOF. */
  lemma ReadsToEnd(first: ReaderId, h: seq<Action>, id: ReaderId) returns (rest: seq<Action>)
    requires Run(first, h) && Completed(After(first, h).value)
    requires id in After(first, h).value.readers && After(first, h).value.readers[id].phase.AtRest?
    ensures Run(first, h + rest) && After(first, h + rest).value.file == After(first, h).value.file && AllReads(rest, id)
    ensures id in After(first, h + rest).value.readers
    ensures After(first, h + rest).value.readers[id].eof && After(first, h + rest).value.readers[id].got == After(first, h).value.file
  {
    InvRun(first, h);
    var p := After(first, h).value;
    assert ReaderOk(p, id, p.readers[id]);
    var n := |p.file| - |p.readers[id].got|;
    var mid, more := p, [];
    if n > 0 {
      more, mid := ReadOn(p, id, n);
      InvSteps(p, more, mid);
    }
    assert mid.readers[id].got == p.file;
    var last, q := ReadEof(mid, id);
    ExecSplits(p, more, mid, last);
    rest := more + last;
    ExecSplits(NewPipe(first), h, p, rest);
  }

  /** A Write that does not have to wait stores and publishes everything. */
  lemma WriteOn(first: ReaderId, h: seq<Action>, b: bytes) returns (rest: seq<Action>, q: Pipe)
    requires Run(first, h) && After(first, h).value.writer.Idle?
    requires After(first, h).value.wcursor.pos <= After(first, h).value.rcursor.pos
    ensures After(first, h + rest) == Some(q) && AllWrites(rest)
    ensures var p := After(first, h).value;
            && q.file == p.file + b && q.output == p.output + b && q.writer.Idle? && q.failed == p.failed
            && q.wcursor.pos == |q.file| && q.readers == p.readers
            && q.wcursor.subscribers == p.wcursor.subscribers && q.wcursor.done == p.wcursor.done
            && (if b == [] then q.rtokens == p.rtokens else forall id :: id in p.wcursor.subscribers ==> id in q.rtokens)
  {
    InvRun(first, h);
    var p := After(first, h).value;
    var p1 := p.(output := p.output + b, writer := Checking(b));
    ExecThen(p, [], p, W(BeginWrite(b)));
    rest := [] + [W(BeginWrite(b))];
    var p2 := p1.(writer := Ready(b));
    ExecThen(p, rest, p1, W(CheckWrite));
    rest := rest + [W(CheckWrite)];
    var p3 := Step(p2, W(FileWrite(|b|, true)));
    assert b[..|b|] == b;
    ExecThen(p, rest, p2, W(FileWrite(|b|, true)));
    rest := rest + [W(FileWrite(|b|, true))];
    q := Step(p3, W(PublishWrite));
    ExecThen(p, rest, p3, W(PublishWrite));
    rest := rest + [W(PublishWrite)];
    ExecSplits(NewPipe(first), h, p, rest);
  }

  /** `create` returns nil and the file is closed without an error, while there is a reader. */
  lemma CloseOn(first: ReaderId, h: seq<Action>) returns (rest: seq<Action>, q: Pipe)
    requires Run(first, h) && After(first, h).value.writer.Idle? && !After(first, h).value.wcursor.done
    ensures After(first, h + rest) == Some(q) && AllWrites(rest)
    ensures var p := After(first, h).value;
            Completed(q) && q.writer == Closed(true) && q.file == p.file && q.output == p.output && q.readers == p.readers
  {
    InvRun(first, h);
    var p := After(first, h).value;
    var returned := p.(writer := Returned(true));
    q := Step(returned, W(CloseWriter(true)));
    ExecTwo(p, W(Return(true)), returned, W(CloseWriter(true)));
    rest := [W(Return(true)), W(CloseWriter(true))];
    ExecSplits(NewPipe(first), h, p, rest);
  }

  // ---- no spurious failures and wake-ups ------------------------------------------------------

  /** In every run, a Write finds the pipe broken only when it is: all readers have closed before the end. */
  lemma BrokenWhenSeen(first: ReaderId, h: seq<Action>, i: nat)
    requires Run(first, h) && i < |h| && h[i] == W(SeeBroken)
    ensures Run(first, h[..i]) && Broken(After(first, h[..i]).value) && After(first, h[..i]).value.wcursor.subscribers == []
  {
    RunPrefix(first, h, i + 1);
    assert h[..i + 1][..i] == h[..i];
    RunPrefix(first, h, i);
    InvRun(first, h[..i]);
  }

  lemma TokenMoves(p: Pipe, a: Action, id: ReaderId)
    requires Enabled(p, a) && a != W(PublishWrite) && id !in p.rtokens
    ensures id !in Step(p, a).rtokens
  {
  }

  /** A reader that has been woken is not woken again before the writer has published something more. */
  lemma {:induction false} SleepsUntilPublished(first: ReaderId, h: seq<Action>, id: ReaderId, rest: seq<Action>)
    requires Run(first, h + [R(id, TakeReadToken)] + rest) && W(PublishWrite) !in rest
    ensures id !in After(first, h + [R(id, TakeReadToken)] + rest).value.rtokens
    ensures !Enabled(After(first, h + [R(id, TakeReadToken)] + rest).value, R(id, TakeReadToken))
    decreases |rest|
  {
    var h1 := h + [R(id, TakeReadToken)];
    if rest == [] {
      assert h1 + rest == h1 && h1[..|h1| - 1] == h;
    } else {
      var n := |rest| - 1;
      assert (h1 + rest)[..|h1 + rest| - 1] == h1 + rest[..n];
      assert rest[n] in rest && forall a :: a in rest[..n] ==> a in rest;
      SleepsUntilPublished(first, h, id, rest[..n]);
      TokenMoves(After(first, h1 + rest[..n]).value, rest[n], id);
    }
  }
}
