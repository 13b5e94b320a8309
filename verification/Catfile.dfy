/** Request and response framing of a `git cat-file --batch` process
    (internal/git/catfile/batch_process.go). The process itself is an environment that answers each
    request with one frame, as the section "BATCH OUTPUT" of git-cat-file(1) describes. */
module Catfile {
  import opened Prelude
  import opened ObjectInfos

  /** What the process has to say about a revision. */
  datatype Answer = Found(oid: bytes, kind: bytes, contents: bytes) | Missing | Ambiguous

  /** What the processes of a repository answer to a revision, at which time. */
  type Repository = (nat, bytes) -> Answer

  predicate Sound(a: Answer) {
    a.Found? ==> ValidOid(a.oid) && Word(a.kind) && |a.contents| < MAX_INT64
  }

  function Line(revision: bytes, a: Answer): bytes {
    match a
    case Found(oid, kind, contents) => Header(ObjectInfo(oid, kind, |contents|))
    case Missing => revision + " missing"
    case Ambiguous => revision + AMBIGUOUS
  }

  function Body(a: Answer): bytes {
    if a.Found? then a.contents + [NEWLINE] else []
  }

  /** The frame: a line, and for an object its contents and one more newline. */
  function Frame(revision: bytes, a: Answer): bytes {
    Line(revision, a) + [NEWLINE] + Body(a)
  }

  /** What the parsed header tells about the answer. */
  predicate Says(a: Answer, r: Result<ObjectInfo, InfoError>) {
    match a
    case Found(oid, kind, contents) => r == Ok(ObjectInfo(oid, kind, |contents|))
    case Missing => r == Err(NotFound)
    case Ambiguous => r.Err? && r.error != NotFound
  }

  /** Broken stands for an error while writing to the process or reading from it. */
  datatype RequestError = UnreadBytes(n: int) | WrongType | BadInfo(info: InfoError) | Broken

  /** What becomes of a process until it is asked again: it lives; it ends before it has answered; or
      it ends after it has printed so many bytes of the answer's body. */
  datatype Fate = Lives | Mute | Cut(delivered: nat)

  lemma LineParses(revision: bytes, a: Answer)
    requires Sound(a) && NEWLINE !in revision
    ensures NEWLINE !in Line(revision, a) && Says(a, ParseInfoLine(Line(revision, a)))
  {
    match a {
      case Found(oid, kind, contents) =>
        HeaderRoundTrip(ObjectInfo(oid, kind, |contents|));
        HeaderFields(ObjectInfo(oid, kind, |contents|));
      case Missing => MissingIsNotFound(revision + " missing");
      case Ambiguous => AmbiguousIsInvalid(revision);
    }
  }

  lemma FirstLine(line: bytes, rest: bytes)
    requires NEWLINE !in line
    ensures var out := line + [NEWLINE] + rest;
            && IndexOf(out, NEWLINE) == |line| < |out|
            && out[..|line|] == line && out[|line| + 1..] == rest
  {
    var out := line + [NEWLINE] + rest;
    assert out[|line|] == NEWLINE;
    assert forall k :: 0 <= k < |line| ==> out[k] == line[k];
  }

  /** The first line of a frame tells what the answer is, and what follows it is the body. */
  lemma FrameParses(revision: bytes, a: Answer)
    requires Sound(a) && NEWLINE !in revision
    ensures var out := Frame(revision, a); var i := IndexOf(out, NEWLINE);
            i < |out| && Says(a, ParseInfoLine(out[..i])) && out[i + 1..] == Body(a)
  {
    LineParses(revision, a);
    FirstLine(Line(revision, a), Body(a));
  }

  function Least(a: nat, b: nat, c: nat): nat {
    if a <= b && a <= c then a else if b <= c then b else c
  }

  function Min(a: nat, b: nat): nat {
    if a <= b then a else b
  }

  class BatchProcess {
    const answer: Repository
    var out: bytes             // what the process has printed and nobody has read yet
    var alive: bool            // whether it will print more when it is asked
    var n: int                 // how much of the current frame is unread

    ghost var frame: bytes     // the unread part of the current frame
    ghost var current: BatchReader?

    /** The counter is in step with the stream: `n` is the length of the unread part of one frame, which
        ends with the frame's newline, and what can still be read is that part, or a prefix of it when
        the process has ended. */
    ghost predicate Valid()
      reads this
    {
      && out <= frame && (alive ==> out == frame) && n == |frame|
      && (frame != [] ==> frame[|frame| - 1] == NEWLINE)
      && forall t, r :: Sound(answer(t, r))
    }

    constructor (answer: Repository)
      requires forall t, r :: Sound(answer(t, r))
      ensures Valid() && n == 0 && alive && this.answer == answer && current == null
    {
      this.answer := answer;
      out, alive, n, frame, current := [], true, 0, [], null;
    }

    /** One request line goes in, and the header line of the answer's frame comes out: what is left
        to read is the object and its newline, as far as the process gets. */
    method Exchange(at: nat, revision: bytes, fate: Fate) returns (r: Result<ObjectInfo, InfoError>)
      requires out == [] && !fate.Mute? && NEWLINE !in revision && Sound(answer(at, revision))
      modifies this`out, this`alive
      ensures Says(answer(at, revision), r) && alive == fate.Lives?
      ensures var body := Body(answer(at, revision)); out == if fate.Lives? then body else body[..Min(fate.delivered, |body|)]
    {
      out := Frame(revision, answer(at, revision));
      FrameParses(revision, answer(at, revision));
      var i := IndexOf(out, NEWLINE);
      r := ParseInfoLine(out[..i]);
      out, alive := out[i + 1..], fate.Lives?;
      if fate.Cut? { out := out[..Min(fate.delivered, |out|)]; }
    }

    /** Discards an object of the wrong type: everything up to the frame's newline, if it all comes. */
    method Discard() returns (ok: bool)
      requires Valid() && n > 0
      modifies this`out, this`n, this`frame
      ensures Valid() && ok == (old(out) == old(frame))
      ensures if ok then n == 0 else n == old(n) && out == []
    {
      if |out| < n {
        out := [];
        return false;
      }
      out, n, frame := [], 0, [];
      ok := true;
    }

    /** The answer of a process that has nothing left to read. */
    method Answered(at: nat, revision: bytes, expected: bytes, fate: Fate) returns (r: Result<BatchReader, RequestError>)
      requires Valid() && n == 0 && alive && !fate.Mute? && NEWLINE !in revision
      modifies this
      ensures Valid() && alive == fate.Lives?
      ensures match answer(at, revision)
              case Missing => r == Err(BadInfo(NotFound)) && n == 0 && current == null
              case Ambiguous => r.Err? && r.error.BadInfo? && r.error.info != NotFound && n == 0 && current == null
              case Found(oid, kind, contents) =>
                if kind != expected then
                  && current == null
                  && if fate.Cut? && fate.delivered <= |contents| then r == Err(Broken) && n == |contents| + 1
                     else r == Err(WrongType) && n == 0
                else
                  && r.Ok? && fresh(r.value) && current == r.value && n == |contents| + 1
                  && r.value.process == this && r.value.contents == contents
                  && r.value.remaining == |contents| && r.value.Valid()
                  && (fate.Cut? ==> |out| == Min(fate.delivered, |contents| + 1))
    {
      current := null;
      var info := Exchange(at, revision, fate);
      frame := Body(answer(at, revision));
      if info.Err? { return Err(BadInfo(info.error)); }
      n := info.value.size + 1;
      if info.value.kind != expected {
        var ok := Discard();
        return Err(if ok then WrongType else Broken);
      }
      var reader := new BatchReader(this, info.value.size, answer(at, revision).contents);
      current := reader;
      r := Ok(reader);
    }

    /** batchProcess.reader. A request is refused exactly when an earlier object has unread bytes;
        otherwise the result is what the process answers to this revision, or an error when the
        process has ended; and whatever the result, the counter stays in step. */
    method Request(at: nat, revision: bytes, expected: bytes, fate: Fate) returns (r: Result<BatchReader, RequestError>)
      requires Valid() && NEWLINE !in revision
      modifies this
      ensures Valid()
      ensures old(n) > 1 ==> r == Err(UnreadBytes(old(n))) && frame == old(frame) && out == old(out) && alive == old(alive)
                             && current == old(current)
      ensures old(n) <= 1 && (!old(alive) || fate.Mute?) ==> r == Err(Broken) && n <= 1 && !alive && current == null
      ensures old(n) <= 1 && old(alive) && !fate.Mute? ==>
                && alive == fate.Lives?
                && match answer(at, revision)
                   case Missing => r == Err(BadInfo(NotFound)) && n == 0 && current == null
                   case Ambiguous => r.Err? && r.error.BadInfo? && r.error.info != NotFound && n == 0 && current == null
                   case Found(oid, kind, contents) =>
                     if kind != expected then
                       && current == null
                       && if fate.Cut? && fate.delivered <= |contents| then r == Err(Broken) && n == |contents| + 1
                          else r == Err(WrongType) && n == 0
                     else
                       && r.Ok? && fresh(r.value) && current == r.value && n == |contents| + 1
                       && r.value.process == this && r.value.contents == contents
                       && r.value.remaining == |contents| && r.value.Valid()
                       && (fate.Cut? ==> |out| == Min(fate.delivered, |contents| + 1))
    {
      if n == 1 {
        if out == [] {
          current := null;
          return Err(Broken);
        }
        out, frame := out[1..], frame[1..];
        n := n - 1;
      }
      if n != 0 { return Err(UnreadBytes(n)); }
      if !alive || fate.Mute? {
        alive, current := false, null;
        return Err(Broken);
      }
      r := Answered(at, revision, expected, fate);
    }

    /** batchProcess.consume; the precondition is that it does not panic. */
    method Consume(k: nat)
      requires n - k >= 1
      modifies this`n
      ensures n == old(n) - k
    {
      n := n - k;
    }

    method HasUnreadData() returns (b: bool)
      requires Valid()
      ensures b <==> |frame| > 1
    {
      b := n > 1;
    }
  }

  /** A reader over the contents of one object: a LimitReader that reports to its process. */
  class BatchReader {
    const process: BatchProcess
    var remaining: nat
    ghost const contents: bytes

    /** The reader is the one that the latest request returned. */
    ghost predicate Valid()
      reads this, process
    {
      && process.Valid() && process.current == this && remaining <= |contents|
      && process.frame == contents[|contents| - remaining..] + [NEWLINE]
    }

    constructor (process: BatchProcess, size: nat, ghost contents: bytes)
      requires size == |contents|
      ensures this.process == process && remaining == size && this.contents == contents
    {
      this.process := process;
      remaining := size;
      this.contents := contents;
    }

    /** Reads at most `max` bytes; `buffered` is how many the buffer below happens to hold. What
        comes out is the next part of the object, and the call does not panic. EOF comes exactly at the
        object's end, or where the output of a process that has ended stops short of it. */
    method Read(max: nat, buffered: nat) returns (p: bytes, eof: bool)
      requires Valid() && buffered > 0
      modifies this`remaining, process`out, process`n, process`frame
      ensures Valid() && remaining == old(remaining) - |p| && |process.out| == old(|process.out|) - |p|
      ensures |p| == Least(max, buffered, Min(old(remaining), old(|process.out|)))
      ensures p == contents[|contents| - old(remaining)..|contents| - remaining]
      ensures eof <==> old(remaining) == 0 || (old(process.out) == [] && max > 0)
    {
      if remaining == 0 || process.out == [] {
        process.Consume(0);
        return [], remaining == 0 || max > 0;
      }
      var k := Least(max, buffered, Min(remaining, |process.out|));
      p, eof := process.out[..k], false;
      process.out := process.out[k..];
      process.frame := process.frame[k..];
      process.Consume(k);
      remaining := remaining - k;
    }
  }

  // ---- whole sessions -------------------------------------------------------------------------

  /** What a client does: ask for an object at some time, or read on in the one it has. */
  datatype Op = Ask(at: nat, revision: bytes, kind: bytes, fate: Fate) | ReadOn(max: nat, buffered: nat)

  datatype Event = Refused | Absent | Malformed | Mismatch | Failed | Opened | Data(p: bytes, eof: bool) | NoReader

  /** A client's view without any framing: `rest` is what it has not read of its current object; `left`
      is how much output a process that has ended still has; and a client is stuck when an object of
      the wrong type could not be discarded. */
  datatype View = View(rest: Option<bytes>, stuck: bool, left: Option<nat>)

  const START: View := View(None, false, None)
  const DEAD: View := View(None, false, Some(0))

  function Ideal(answer: Repository, v: View, op: Op): (Event, View) {
    match op
    case Ask(at, revision, kind, fate) =>
      if v.stuck || (v.rest.Some? && v.rest.value != []) then (Refused, v)
      else if v.left.Some? || fate.Mute? then (Failed, DEAD)
      else
        var after := if fate.Lives? then START else DEAD;
        (match answer(at, revision)
         case Missing => (Absent, after)
         case Ambiguous => (Malformed, after)
         case Found(_, k, contents) =>
           if k == kind then (Opened, View(Some(contents), false, if fate.Cut? then Some(Min(fate.delivered, |contents| + 1)) else None))
           else if fate.Cut? && fate.delivered <= |contents| then (Failed, DEAD.(stuck := contents != []))
           else (Mismatch, after))
    case ReadOn(max, buffered) =>
      if v.rest.None? then (NoReader, v)
      else if v.rest.value == [] then (Data([], true), v)
      else if v.left == Some(0) then (Data([], max > 0), v)
      else
        var k := Least(max, buffered, if v.left.Some? then Min(|v.rest.value|, v.left.value) else |v.rest.value|);
        (Data(v.rest.value[..k], false), View(Some(v.rest.value[k..]), v.stuck, if v.left.Some? then Some(v.left.value - k) else None))
  }

  function IdealSession(answer: Repository, v: View, ops: seq<Op>): seq<Event>
    decreases |ops|
  {
    if ops == [] then []
    else
      var (event, v') := Ideal(answer, v, ops[0]);
      [event] + IdealSession(answer, v', ops[1..])
  }

  predicate Usable(op: Op) {
    if op.Ask? then NEWLINE !in op.revision else op.buffered > 0
  }

  predicate WellFormed(ops: seq<Op>) {
    forall i :: 0 <= i < |ops| ==> Usable(ops[i])
  }

  method PerformAsk(b: BatchProcess, reader: BatchReader?, ghost v: View, op: Op)
    returns (event: Event, reader': BatchReader?)
    requires b.Valid() && op.Ask? && Usable(op) && InStep(b, reader, v)
    modifies b
    ensures b.Valid() && InStep(b, reader', Ideal(b.answer, v, op).1)
    ensures event == Ideal(b.answer, v, op).0
    ensures reader' != reader ==> reader' == null || fresh(reader')
  {
    reader' := reader;
    var r := b.Request(op.at, op.revision, op.kind, op.fate);
    match r
    case Ok(x) =>
      event, reader' := Opened, x;
      assert x.contents[0..] == x.contents;
    case Err(UnreadBytes(_)) => event := Refused;
    case Err(WrongType) => event, reader' := Mismatch, null;
    case Err(BadInfo(info)) => event, reader' := if info.NotFound? then Absent else Malformed, null;
    case Err(Broken) => event, reader' := Failed, null;
  }

  method PerformRead(b: BatchProcess, reader: BatchReader?, ghost v: View, op: Op) returns (event: Event)
    requires b.Valid() && op.ReadOn? && Usable(op) && InStep(b, reader, v)
    modifies b, reader
    ensures b.Valid() && InStep(b, reader, Ideal(b.answer, v, op).1)
    ensures event == Ideal(b.answer, v, op).0
  {
    if reader == null { return NoReader; }
    ghost var from, all := |reader.contents| - reader.remaining, reader.contents;
    var p, eof := reader.Read(op.max, op.buffered);
    event := Data(p, eof);
    assert all[from..][..|p|] == all[from..from + |p|] && all[from..][|p|..] == all[from + |p|..];
  }

  method Perform(b: BatchProcess, reader: BatchReader?, ghost v: View, op: Op)
    returns (event: Event, reader': BatchReader?)
    requires b.Valid() && Usable(op) && InStep(b, reader, v)
    modifies b, reader
    ensures b.Valid() && InStep(b, reader', Ideal(b.answer, v, op).1)
    ensures event == Ideal(b.answer, v, op).0
    ensures reader' != reader ==> reader' == null || fresh(reader')
  {
    if op.Ask? {
      event, reader' := PerformAsk(b, reader, v, op);
    } else {
      event := PerformRead(b, reader, v, op);
      reader' := reader;
    }
  }

  /** The client's reader, the process and the client's view of the current object agree. */
  ghost predicate InStep(b: BatchProcess, reader: BatchReader?, v: View)
    reads b, reader, if reader != null then {reader.process} else {}
  {
    && (reader == null <==> v.rest.None?) && (v.left.None? <==> b.alive)
    && (reader == null ==> (v.stuck <==> b.n > 1))
    && (reader != null ==>
          && reader.process == b && reader.Valid() && !v.stuck
          && v.rest.value == reader.contents[|reader.contents| - reader.remaining..]
          && (v.left.Some? ==> |b.out| == v.left.value))
  }

  lemma IdealTurn(answer: Repository, v: View, ops: seq<Op>, i: nat, events: seq<Event>, all: seq<Event>)
    requires i < |ops| && events + IdealSession(answer, v, ops[i..]) == all
    ensures events + [Ideal(answer, v, ops[i]).0] + IdealSession(answer, Ideal(answer, v, ops[i]).1, ops[i + 1..]) == all
  {
    assert ops[i..][1..] == ops[i + 1..];
  }

  /** Framing is invisible: over any session of requests, partial reads, type mismatches and missing
      objects, on a process with at most a newline left to read, and wherever the process ends, a
      client of the real process sees exactly the events of the ideal one. */
  method Session(b: BatchProcess, ops: seq<Op>) returns (events: seq<Event>)
    requires b.Valid() && b.n <= 1 && WellFormed(ops)
    modifies b
    ensures b.Valid()
    ensures events == IdealSession(b.answer, if old(b.alive) then START else DEAD, ops)
  {
    events := [];
    var reader: BatchReader? := null;
    ghost var v := if b.alive then START else DEAD;
    ghost var all := IdealSession(b.answer, v, ops);
    assert ops[0..] == ops;
    for i := 0 to |ops|
      invariant b.Valid() && InStep(b, reader, v)
      invariant reader == null || fresh(reader)
      invariant events + IdealSession(b.answer, v, ops[i..]) == all
    {
      IdealTurn(b.answer, v, ops, i, events, all);
      var event;
      event, reader := Perform(b, reader, v, ops[i]);
      v := Ideal(b.answer, v, ops[i]).1;
      events := events + [event];
    }
  }

  function Payload(e: seq<Event>): bytes {
    if e == [] then [] else (if e[0].Data? then e[0].p else []) + Payload(e[1..])
  }

  /** How much of its object a client can get at all. */
  function Reachable(rest: bytes, left: Option<nat>): bytes {
    if left.Some? then rest[..Min(|rest|, left.value)] else rest
  }

  lemma ReadStep(answer: Repository, v: View, op: Op)
    requires v.rest.Some? && !v.stuck && op.ReadOn?
    ensures var (event, v') := Ideal(answer, v, op);
            && event.Data? && v'.rest.Some? && !v'.stuck
            && Reachable(v.rest.value, v.left) == event.p + Reachable(v'.rest.value, v'.left)
            && (event == Data([], true) ==> Reachable(v.rest.value, v.left) == [])
  {
  }

  /** The ideal client gets what it asked for: what it reads is a prefix of the object, and all that
      there will be once it has seen EOF, whatever the sizes of the reads. */
  lemma {:induction false} IdealReadsConcatenate(answer: Repository, v: View, ops: seq<Op>)
    requires v.rest.Some? && !v.stuck && forall i :: 0 <= i < |ops| ==> ops[i].ReadOn?
    ensures var e := IdealSession(answer, v, ops); var all := Reachable(v.rest.value, v.left);
            Payload(e) <= all <= v.rest.value && (Data([], true) in e ==> Payload(e) == all)
    decreases |ops|
  {
    if ops != [] {
      var (event, v') := Ideal(answer, v, ops[0]);
      ReadStep(answer, v, ops[0]);
      IdealReadsConcatenate(answer, v', ops[1..]);
      var e' := IdealSession(answer, v', ops[1..]);
      assert ([event] + e')[1..] == e';
      assert Payload([event] + e') == event.p + Payload(e');
    }
  }

  /** EOF does not tell whether the object is complete: it is if and only if the process lived, or got
      as far as the object's last byte. */
  lemma CompleteExactly(answer: Repository, v: View, ops: seq<Op>)
    requires v.rest.Some? && !v.stuck && forall i :: 0 <= i < |ops| ==> ops[i].ReadOn?
    requires Data([], true) in IdealSession(answer, v, ops)
    ensures Payload(IdealSession(answer, v, ops)) == v.rest.value <==> v.left.None? || v.left.value >= |v.rest.value|
  {
    IdealReadsConcatenate(answer, v, ops);
  }
}
