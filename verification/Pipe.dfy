/** One writer and many readers on an append-only file (internal/streamcache/pipe.go), as a machine
    whose steps are the atomic operations of the code: cursor operations, channel receives, system
    calls, and the bodies guarded by the pipe's mutex.

    The writer is one goroutine that runs `create` and then closes the pipe
    (internal/streamcache/cache.go, runCreate). Each reader is used by one goroutine at a time. */
module Pipes {
  import opened Prelude
  import opened Cursors

  type ReaderId = nat

  /** The only subscriber of the read cursor. */
  const WRITER: nat := 0

  /** Where the writing goroutine is. `Flushed` is the gap between the write to the file and the
      update of the write cursor. `Closed(ok)` carries runCreate's result. */
  datatype Writer =
    | Idle
    | Checking(b: bytes)
    | Waiting(b: bytes)
    | Ready(b: bytes)
    | Flushed(n: nat)
    | Returned(ok: bool)
    | Closed(ok: bool)

  /** Where a reading goroutine is. `Fetched` is the gap between the read from the file and the
      update of the position and of the read cursor. */
  datatype Phase =
    | AtRest
    | RChecking(max: nat)
    | RWaiting(max: nat)
    | RReady(max: nat)
    | Fetched(n: nat)
    | Shut

  /** A reader, with everything it has received and whether it has seen EOF. */
  datatype Reader = Reader(got: bytes, position: nat, eof: bool, phase: Phase)

  datatype Pipe = Pipe(
    file: bytes,
    linked: bool,             // the file still has its name
    output: bytes,            // everything `create` has tried to write
    failed: bool,             // some Write has returned an error
    missing: nat,             // how many of those bytes Write has not stored
    lastWrite: nat,           // the length of the latest write to the file
    wcursor: Cursor<nat>,
    rcursor: Cursor<nat>,
    wtokens: set<nat>,        // notifiers of rcursor's subscribers that hold a token
    rtokens: set<ReaderId>,   // notifiers of wcursor's subscribers that hold a token
    writer: Writer,
    readers: map<ReaderId, Reader>
  )

  datatype WriterAction =
    | BeginWrite(b: bytes)
    | CheckWrite
    | TakeWriteToken
    | SeeBroken
    | FileWrite(n: nat, ok: bool)
    | PublishWrite
    | Return(ok: bool)
    | CloseWriter(ok: bool)   // `ok` says whether closing the file succeeded

  datatype ReaderAction =
    | OpenReader
    | BeginRead(max: nat)
    | CheckRead
    | TakeReadToken
    | SeeClosed
    | FileRead(n: nat)
    | Advance
    | CloseReader

  datatype Action = W(w: WriterAction) | R(id: ReaderId, r: ReaderAction) | RemoveFile

  /** newPipe: the writer is subscribed to rcursor and one reader, `id`, to wcursor. */
  function NewPipe(id: ReaderId): Pipe {
    Pipe([], true, [], false, 0, 0, Cursor(0, [id], false), Cursor(0, [WRITER], false),
         {}, {}, Idle, map[id := Reader([], 0, false, AtRest)])
  }

  predicate Broken(p: Pipe) { p.wcursor.done && !p.rcursor.done }

  predicate Completed(p: Pipe) { p.rcursor.done }

  predicate WriterEnabled(p: Pipe, a: WriterAction) {
    match a
    case BeginWrite(b) => p.writer.Idle?
    case CheckWrite => p.writer.Checking?
    case TakeWriteToken => p.writer.Waiting? && WRITER in p.wtokens
    case SeeBroken => p.writer.Waiting? && p.wcursor.done
    case FileWrite(n, ok) => p.writer.Ready? && n <= |p.writer.b| && (n < |p.writer.b| ==> !ok)
    case PublishWrite => p.writer.Flushed?
    case Return(ok) => p.writer.Idle?
    case CloseWriter(ok) => p.writer.Returned?
  }

  function WriterStep(p: Pipe, a: WriterAction): Pipe
    requires WriterEnabled(p, a)
  {
    match a
    case BeginWrite(b) => p.(output := p.output + b, writer := Checking(b))
    case CheckWrite =>
      p.(writer := if p.wcursor.pos > p.rcursor.pos then Waiting(p.writer.b) else Ready(p.writer.b))
    case TakeWriteToken => p.(wtokens := p.wtokens - {WRITER}, writer := Checking(p.writer.b))
    case SeeBroken => p.(failed := true, missing := p.missing + |p.writer.b|, writer := Idle)
    case FileWrite(n, ok) =>
      p.(file := p.file + p.writer.b[..n], lastWrite := n, failed := p.failed || !ok,
         missing := p.missing + |p.writer.b| - n, writer := Flushed(n))
    case PublishWrite =>
      var c := p.wcursor.SetPosition(p.wcursor.pos + p.writer.n);
      p.(wcursor := c, writer := Idle,
         rtokens := if c.pos > p.wcursor.pos then p.rtokens + (set r | r in c.subscribers) else p.rtokens)
    case Return(ok) => p.(writer := Returned(ok))
    case CloseWriter(ok) =>
      if p.wcursor.done then p.(writer := Closed(false))
      else p.(rcursor := p.rcursor.Unsubscribe(WRITER), writer := Closed(p.writer.ok && ok))
  }

  /** What OpenReader checks before it subscribes. */
  predicate CanOpen(p: Pipe) {
    !Broken(p) && p.linked
  }

  predicate ReaderEnabled(p: Pipe, id: ReaderId, a: ReaderAction) {
    if a.OpenReader? then id !in p.readers && CanOpen(p)
    else if id !in p.readers then false
    else
      var x := p.readers[id];
      match a
      case BeginRead(max) => x.phase.AtRest?
      case CheckRead => x.phase.RChecking?
      case TakeReadToken => x.phase.RWaiting? && id in p.rtokens
      case SeeClosed => x.phase.RWaiting? && p.rcursor.done
      case FileRead(n) =>
        && x.phase.RReady? && n <= x.phase.max && |x.got| + n <= |p.file|
        && (n == 0 ==> x.phase.max == 0 || |x.got| == |p.file|)
      case Advance => x.phase.Fetched?
      case CloseReader => x.phase.AtRest?
  }

  function SetReader(p: Pipe, id: ReaderId, x: Reader): Pipe {
    p.(readers := p.readers[id := x])
  }

  function ReaderStep(p: Pipe, id: ReaderId, a: ReaderAction): Pipe
    requires ReaderEnabled(p, id, a)
  {
    if a.OpenReader? then
      SetReader(p, id, Reader([], 0, false, AtRest)).(wcursor := p.wcursor.Subscribe(id))
    else
      var x := p.readers[id];
      match a
      case BeginRead(max) => SetReader(p, id, x.(phase := RChecking(max)))
      case CheckRead =>
        SetReader(p, id, x.(phase := if x.position >= p.wcursor.pos then RWaiting(x.phase.max) else RReady(x.phase.max)))
      case TakeReadToken => SetReader(p, id, x.(phase := RChecking(x.phase.max))).(rtokens := p.rtokens - {id})
      case SeeClosed => SetReader(p, id, x.(phase := RReady(x.phase.max)))
      case FileRead(n) =>
        SetReader(p, id, Reader(x.got + p.file[|x.got|..|x.got| + n], x.position, x.eof || (n == 0 && x.phase.max > 0), Fetched(n)))
      case Advance =>
        var c := p.rcursor.SetPosition(x.position + x.phase.n);
        SetReader(p, id, x.(position := x.position + x.phase.n, phase := AtRest))
          .(rcursor := c, wtokens := if c.pos > p.rcursor.pos then p.wtokens + (set w | w in c.subscribers) else p.wtokens)
      case CloseReader => SetReader(p, id, x.(phase := Shut)).(wcursor := p.wcursor.Unsubscribe(id))
  }

  predicate Enabled(p: Pipe, a: Action) {
    match a
    case W(w) => WriterEnabled(p, w)
    case R(id, r) => ReaderEnabled(p, id, r)
    case RemoveFile => true
  }

  function Step(p: Pipe, a: Action): Pipe
    requires Enabled(p, a)
  {
    match a
    case W(w) => WriterStep(p, w)
    case R(id, r) => ReaderStep(p, id, r)
    case RemoveFile => p.(linked := false)
  }

  /** Where a list of steps leads from `p`, or None when one of them is not enabled. */
  function Exec(p: Pipe, h: seq<Action>): Option<Pipe> {
    if h == [] then Some(p)
    else
      var before := Exec(p, h[..|h| - 1]);
      if before.Some? && Enabled(before.value, h[|h| - 1]) then Some(Step(before.value, h[|h| - 1])) else None
  }

  lemma {:induction false} ExecSplits(p: Pipe, h: seq<Action>, q: Pipe, rest: seq<Action>)
    requires Exec(p, h) == Some(q)
    ensures Exec(p, h + rest) == Exec(q, rest)
    decreases |rest|
  {
    if rest == [] {
      assert h + rest == h;
    } else {
      assert (h + rest)[..|h + rest| - 1] == h + rest[..|rest| - 1];
      ExecSplits(p, h, q, rest[..|rest| - 1]);
    }
  }

  /** The same from a new pipe whose first reader is `first`. */
  function After(first: ReaderId, h: seq<Action>): Option<Pipe> {
    Exec(NewPipe(first), h)
  }

  predicate Run(first: ReaderId, h: seq<Action>) { After(first, h).Some? }

  // ---- the invariant --------------------------------------------------------------------------

  /** The part of `create`'s output that is still on its way to the file. */
  function InFlight(p: Pipe): bytes {
    if p.writer.Checking? || p.writer.Waiting? || p.writer.Ready? then p.writer.b else []
  }

  ghost predicate WriterOk(p: Pipe) {
    && p.wcursor.pos + (if p.writer.Flushed? then p.writer.n else 0) == |p.file|
    && p.rcursor.subscribers == (if p.rcursor.done then [] else [WRITER])
    && (p.rcursor.done ==> p.writer.Closed?)
    && (p.writer.Closed? ==> p.rcursor.done || p.wcursor.done)
    && |p.file| + |InFlight(p)| + p.missing == |p.output|
    && (p.missing == 0 ==> p.file + InFlight(p) == p.output)
    && (!p.failed ==> p.missing == 0)
    && (p.writer.Closed? && p.writer.ok ==> p.rcursor.done)
    && (p.writer.Ready? ==> p.wcursor.pos <= p.rcursor.pos)
    && 0 <= p.rcursor.pos && p.lastWrite <= |p.file| && |p.file| <= p.rcursor.pos + p.lastWrite
    && (p.writer.Waiting? && p.rcursor.pos >= p.wcursor.pos ==> WRITER in p.wtokens)
  }

  ghost predicate ReaderOk(p: Pipe, id: ReaderId, x: Reader) {
    && |x.got| <= |p.file| && x.got == p.file[..|x.got|]
    && x.position + (if x.phase.Fetched? then x.phase.n else 0) == |x.got|
    && x.position <= p.rcursor.pos
    && (x.phase.Shut? <==> id !in p.wcursor.subscribers)
    && (x.phase.RWaiting? && x.position < p.wcursor.pos ==> id in p.rtokens)
    && (x.phase.RReady? ==> x.position < p.wcursor.pos || p.rcursor.done)
    && (x.eof ==> p.rcursor.done && x.got == p.file)
  }

  ghost predicate CursorsOk(p: Pipe) {
    && Distinct(p.wcursor.subscribers)
    && (forall id :: id in p.wcursor.subscribers ==> id in p.readers)
    && (p.wcursor.subscribers == [] ==> p.wcursor.done)
    && (Broken(p) ==> p.wcursor.subscribers == [])
    && (exists id :: id in p.readers && p.readers[id].position == p.rcursor.pos)
  }

  ghost predicate ReadersOk(p: Pipe) {
    forall id :: id in p.readers ==> ReaderOk(p, id, p.readers[id])
  }

  ghost predicate Inv(p: Pipe) {
    WriterOk(p) && CursorsOk(p) && ReadersOk(p)
  }

  lemma WriterStepKeepsWriter(p: Pipe, a: WriterAction)
    requires WriterOk(p) && WriterEnabled(p, a)
    ensures WriterOk(WriterStep(p, a))
  {
    if a.FileWrite? && a.n == |p.writer.b| {
      assert p.writer.b[..a.n] == p.writer.b;
    }
  }

  lemma WriterStepKeepsReader(p: Pipe, a: WriterAction, id: ReaderId, x: Reader)
    requires WriterOk(p) && WriterEnabled(p, a) && ReaderOk(p, id, x)
    ensures ReaderOk(WriterStep(p, a), id, x)
  {
  }

  lemma WriterStepKeepsInv(p: Pipe, a: WriterAction)
    requires Inv(p) && WriterEnabled(p, a)
    ensures Inv(WriterStep(p, a))
  {
    WriterStepKeepsWriter(p, a);
    forall id | id in p.readers ensures ReaderOk(WriterStep(p, a), id, p.readers[id]) {
      WriterStepKeepsReader(p, a, id, p.readers[id]);
    }
  }

  lemma ReaderStepKeepsWriter(p: Pipe, id: ReaderId, a: ReaderAction)
    requires Inv(p) && ReaderEnabled(p, id, a)
    ensures WriterOk(ReaderStep(p, id, a))
  {
  }

  lemma ReaderStepKeepsSelf(p: Pipe, id: ReaderId, a: ReaderAction)
    requires WriterOk(p) && CursorsOk(p) && ReaderEnabled(p, id, a) && (id in p.readers ==> ReaderOk(p, id, p.readers[id]))
    ensures ReaderOk(ReaderStep(p, id, a), id, ReaderStep(p, id, a).readers[id])
  {
    if a.OpenReader? || a.CloseReader? {
      SubscriptionKeepsSelf(p, id, a);
    } else if a.FileRead? {
      FileReadKeepsSelf(p, id, a.n);
    } else {
      WaitingKeepsSelf(p, id, a);
    }
  }

  lemma SubscriptionKeepsSelf(p: Pipe, id: ReaderId, a: ReaderAction)
    requires WriterOk(p) && CursorsOk(p) && ReaderEnabled(p, id, a) && (id in p.readers ==> ReaderOk(p, id, p.readers[id]))
    requires a.OpenReader? || a.CloseReader?
    ensures ReaderOk(ReaderStep(p, id, a), id, ReaderStep(p, id, a).readers[id])
  {
    WithoutDistinct(p.wcursor.subscribers, id);
  }

  lemma WaitingKeepsSelf(p: Pipe, id: ReaderId, a: ReaderAction)
    requires WriterOk(p) && ReaderEnabled(p, id, a) && !a.OpenReader? && !a.CloseReader? && !a.FileRead?
    requires ReaderOk(p, id, p.readers[id])
    ensures ReaderOk(ReaderStep(p, id, a), id, ReaderStep(p, id, a).readers[id])
  {
  }

  /** Reading from the file extends the prefix, and finds nothing only at its end. */
  lemma FileReadKeepsSelf(p: Pipe, id: ReaderId, n: nat)
    requires WriterOk(p) && ReaderEnabled(p, id, FileRead(n)) && ReaderOk(p, id, p.readers[id])
    ensures var q := ReaderStep(p, id, FileRead(n)); ReaderOk(q, id, q.readers[id])
  {
    var got := p.readers[id].got;
    assert got + p.file[|got|..|got| + n] == p.file[..|got| + n];
  }

  lemma ReaderStepKeepsOther(p: Pipe, id: ReaderId, a: ReaderAction, other: ReaderId, x: Reader)
    requires Inv(p) && ReaderEnabled(p, id, a) && other != id && ReaderOk(p, other, x)
    ensures ReaderOk(ReaderStep(p, id, a), other, x)
  {
    WithoutDistinct(p.wcursor.subscribers, id);
  }

  lemma ReaderStepKeepsCursors(p: Pipe, id: ReaderId, a: ReaderAction)
    requires Inv(p) && ReaderEnabled(p, id, a)
    ensures CursorsOk(ReaderStep(p, id, a))
  {
    WithoutDistinct(p.wcursor.subscribers, id);
    FastestReader(p, id, a);
  }

  /** The read cursor stays where the fastest reader is. */
  lemma FastestReader(p: Pipe, id: ReaderId, a: ReaderAction)
    requires Inv(p) && ReaderEnabled(p, id, a)
    ensures var q := ReaderStep(p, id, a); exists r :: r in q.readers && q.readers[r].position == q.rcursor.pos
  {
    var q := ReaderStep(p, id, a);
    var fastest :| fastest in p.readers && p.readers[fastest].position == p.rcursor.pos;
    assert q.readers[fastest].position == q.rcursor.pos || q.readers[id].position == q.rcursor.pos;
  }

  lemma InvStep(p: Pipe, a: Action)
    requires Inv(p) && Enabled(p, a)
    ensures Inv(Step(p, a))
  {
    match a
    case W(w) => WriterStepKeepsInv(p, w);
    case R(id, r) => ReaderStepKeepsInv(p, id, r);
    case RemoveFile => RemovalKeepsInv(p);
  }

  lemma ReaderStepKeepsInv(p: Pipe, id: ReaderId, a: ReaderAction)
    requires Inv(p) && ReaderEnabled(p, id, a)
    ensures Inv(ReaderStep(p, id, a))
  {
    ReaderStepKeepsWriter(p, id, a);
    ReaderStepKeepsCursors(p, id, a);
    var q := ReaderStep(p, id, a);
    forall other | other in q.readers ensures ReaderOk(q, other, q.readers[other]) {
      if other == id { ReaderStepKeepsSelf(p, id, a); }
      else { ReaderStepKeepsOther(p, id, a, other, p.readers[other]); }
    }
  }

  lemma RemovalKeepsInv(p: Pipe)
    requires Inv(p)
    ensures Inv(p.(linked := false))
  {
    var q := p.(linked := false);
    assert forall id :: id in p.readers ==> ReaderOk(p, id, p.readers[id]) && ReaderOk(q, id, q.readers[id]);
    var fastest :| fastest in p.readers && p.readers[fastest].position == p.rcursor.pos;
    assert q.readers[fastest].position == q.rcursor.pos;
  }

  lemma {:induction false} InvRun(first: ReaderId, h: seq<Action>)
    requires Run(first, h)
    ensures Inv(After(first, h).value)
  {
    if h != [] {
      InvRun(first, h[..|h| - 1]);
      InvStep(After(first, h[..|h| - 1]).value, h[|h| - 1]);
    } else {
      assert NewPipe(first).readers[first].position == NewPipe(first).rcursor.pos;
    }
  }

  // ---- streams are faithful and complete ------------------------------------------------------

  ghost predicate Faithful(p: Pipe, x: Reader) {
    && x.got <= p.file
    && (x.eof ==> p.writer.Closed? && x.got == p.file)
    && (x.eof ==> (x.got == p.output <==> p.missing == 0))
    && (!p.failed ==> p.missing == 0 && p.file <= p.output)
  }

  lemma ReadersAreFaithful(p: Pipe, id: ReaderId)
    requires Inv(p) && id in p.readers
    ensures Faithful(p, p.readers[id])
  {
    assert ReaderOk(p, id, p.readers[id]);
  }

  /** What a reader has received is a prefix of the file, and EOF comes only after the writer closed
      and everything in the file was received. The reader then holds the entire output of the create
      run if and only if no write fell short; a run in which no write failed is such a run. */
  lemma StreamsAreFaithful(first: ReaderId, h: seq<Action>, id: ReaderId)
    requires Run(first, h) && id in After(first, h).value.readers
    ensures var p := After(first, h).value; var x := p.readers[id];
            && x.got <= p.file
            && (x.eof ==> p.writer.Closed? && x.got == p.file)
            && (x.eof ==> (x.got == p.output <==> p.missing == 0))
            && (!p.failed ==> p.missing == 0 && p.file <= p.output)
  {
    InvRun(first, h);
    ReadersAreFaithful(After(first, h).value, id);
  }

  // ---- wake-ups -------------------------------------------------------------------------------

  /** The writer sits in its select with nothing to receive. */
  predicate WriterStuck(p: Pipe) {
    p.writer.Waiting? && WRITER !in p.wtokens && !p.wcursor.done
  }

  /** A reader sits in its select with nothing to receive. */
  predicate ReaderStuck(p: Pipe, id: ReaderId)
    requires id in p.readers
  {
    p.readers[id].phase.RWaiting? && id !in p.rtokens && !p.rcursor.done
  }

  /** No lost wake-up: whoever sits in a select with nothing to receive has nothing to do yet. */
  lemma NoLostWakeUp(first: ReaderId, h: seq<Action>)
    requires Run(first, h)
    ensures var p := After(first, h).value;
            && (WriterStuck(p) ==> p.rcursor.pos < p.wcursor.pos && !Broken(p))
            && forall id :: id in p.readers && ReaderStuck(p, id) ==> p.wcursor.pos <= p.readers[id].position
  {
    InvRun(first, h);
    var p := After(first, h).value;
    forall id | id in p.readers && ReaderStuck(p, id) ensures p.wcursor.pos <= p.readers[id].position {
      assert ReaderOk(p, id, p.readers[id]);
    }
  }

  /** No deadlock: while the writer is stuck some reader is open and none is stuck, and a reader can
      only be stuck while the writer still has something to do. */
  lemma NoDeadlock(first: ReaderId, h: seq<Action>)
    requires Run(first, h)
    ensures var p := After(first, h).value;
            && (WriterStuck(p) ==> exists id :: id in p.readers && !p.readers[id].phase.Shut?)
            && forall id :: id in p.readers && ReaderStuck(p, id) ==> !WriterStuck(p) && !p.writer.Closed?
  {
    InvRun(first, h);
    var p := After(first, h).value;
    if WriterStuck(p) {
      var id := p.wcursor.subscribers[0];
      assert id in p.wcursor.subscribers && ReaderOk(p, id, p.readers[id]);
    }
    forall id | id in p.readers && ReaderStuck(p, id) ensures !WriterStuck(p) && !p.writer.Closed? {
      assert ReaderOk(p, id, p.readers[id]);
    }
  }

  // ---- modes ----------------------------------------------------------------------------------

  lemma ModeStep(p: Pipe, a: Action)
    requires Inv(p) && Enabled(p, a)
    ensures Broken(p) ==> Broken(Step(p, a))
    ensures Completed(p) ==> Completed(Step(p, a)) && Step(p, a).file == p.file
  {
    if a.R? { ReaderModeStep(p, a.id, a.r); }
  }

  lemma ReaderModeStep(p: Pipe, id: ReaderId, a: ReaderAction)
    requires ReaderEnabled(p, id, a)
    ensures var q := ReaderStep(p, id, a);
            q.rcursor.done == p.rcursor.done && (p.wcursor.done ==> q.wcursor.done) && q.file == p.file
  {
  }

  /** A broken pipe stays broken and a completed one stays completed, with the same contents. */
  lemma {:induction false} ModesAreFinal(first: ReaderId, h: seq<Action>, t: seq<Action>)
    requires Run(first, h) && Run(first, h + t)
    ensures Broken(After(first, h).value) ==> Broken(After(first, h + t).value)
    ensures Completed(After(first, h).value) ==> Completed(After(first, h + t).value) && After(first, h + t).value.file == After(first, h).value.file
  {
    if t == [] {
      assert h + t == h;
    } else {
      var n := |t| - 1;
      assert (h + t)[..|h + t| - 1] == h + t[..n];
      ModesAreFinal(first, h, t[..n]);
      InvRun(first, h + t[..n]);
      ModeStep(After(first, h + t[..n]).value, t[n]);
    }
  }

  /** A broken pipe has no subscribed reader, admits none, and never yields a successful create.
      A completed one can be opened again as long as the file has its name. */
  lemma ModesDecideOpening(first: ReaderId, h: seq<Action>, id: ReaderId)
    requires Run(first, h) && id !in After(first, h).value.readers
    ensures var p := After(first, h).value;
            && (Broken(p) ==> p.wcursor.subscribers == [] && !CanOpen(p) && p.writer != Closed(true))
            && (Completed(p) ==> (Enabled(p, R(id, OpenReader)) <==> p.linked))
            && (!Broken(p) && !Completed(p) ==> p.wcursor.subscribers != [])
  {
    InvRun(first, h);
  }

  /** Back pressure: the file is ahead of the fastest reader by at most the latest write. */
  lemma BackPressure(first: ReaderId, h: seq<Action>) returns (fastest: ReaderId)
    requires Run(first, h)
    ensures var p := After(first, h).value;
            && fastest in p.readers
            && (forall id :: id in p.readers ==> p.readers[id].position <= p.readers[fastest].position)
            && |p.file| <= p.readers[fastest].position + p.lastWrite
  {
    InvRun(first, h);
    var p := After(first, h).value;
    fastest :| fastest in p.readers && p.readers[fastest].position == p.rcursor.pos;
    assert forall id :: id in p.readers ==> ReaderOk(p, id, p.readers[id]);
  }
}
