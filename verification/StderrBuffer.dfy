/** The bounded buffer for a command's standard error (internal/command/stderrbuffer.go). */
module StderrBuffer {
  import opened Prelude

  datatype Limits = Limits(bufLimit: int, lineLimit: int, sep: bytes)

  /** The buffer's fields that change: what it holds, and how much of it is the current line. */
  datatype State = State(buf: bytes, line: int)

  predicate Active(l: Limits) { l.bufLimit > 0 && l.lineLimit > 0 }

  /** What the code keeps true between writes. */
  predicate Sane(l: Limits, s: State) {
    0 <= s.line && (Active(l) ==> s.line <= l.lineLimit && |s.buf| <= l.bufLimit)
  }

  function Min(a: int, b: int): int { if a < b then a else b }

  /** The part of a line that still fits. */
  function Fit(l: Limits, s: State, part: bytes): (r: bytes)
    requires Sane(l, s) && Active(l)
  {
    part[..Min(|part|, Min(l.lineLimit - s.line, l.bufLimit - |s.buf|))]
  }

  /** One Write call. A separator that does not fit any more ends the call early. */
  function Written(l: Limits, s: State, p: bytes): (t: State)
    requires Sane(l, s)
    ensures Sane(l, t)
    decreases |p|
  {
    if !Active(l) || p == [] || |s.buf| >= l.bufLimit then s
    else
      var i := IndexOf(p, NEWLINE);
      var part := Fit(l, s, p[..i]);
      if i == |p| then State(s.buf + part, s.line + |part|)
      else if |s.buf| + |part| + |l.sep| <= l.bufLimit then Written(l, State(s.buf + part + l.sep, 0), p[i + 1..])
      else State(s.buf + part, 0)
  }

  class Buffer {
    const limits: Limits
    var buf: bytes
    var currentLineLength: int

    function View(): State
      reads this
    {
      State(buf, currentLineLength)
    }

    ghost predicate Valid()
      reads this
    {
      limits.sep != [] && limits.bufLimit >= 0 && limits.lineLimit >= 0 && Sane(limits, View())
    }

    constructor (bufLimit: nat, lineLimit: nat, sep: bytes)
      ensures Valid() && View() == State([], 0)
      ensures limits == Limits(bufLimit, lineLimit, if sep == [] then [NEWLINE] else sep)
    {
      limits := Limits(bufLimit, lineLimit, if sep == [] then [NEWLINE] else sep);
      buf, currentLineLength := [], 0;
    }

    /** Always accepts the whole input. */
    method Write(p: bytes) returns (n: int)
      requires Valid()
      modifies this
      ensures Valid() && n == |p| && View() == Written(limits, old(View()), p)
    {
      n := |p|;
      if limits.bufLimit <= 0 || limits.lineLimit <= 0 { return; }
      var s := 0;
      while s < |p| && |buf| < limits.bufLimit
        invariant 0 <= s <= |p| && Valid()
        invariant Written(limits, View(), p[s..]) == Written(limits, old(View()), p)
        decreases |p| - s
      {
        var rest := p[s..];
        var i := IndexOf(rest, NEWLINE);
        var part, found;
        if i < |rest| {
          part, s, found := rest[..i], s + i + 1, true;
          assert p[s..] == rest[i + 1..];
        } else {
          part, s, found := rest, |p|, false;
          assert rest[..i] == rest;
        }
        part := Fit(limits, View(), part);
        buf := buf + part;
        if found {
          currentLineLength := 0;
          if |buf| + |limits.sep| <= limits.bufLimit {
            buf := buf + limits.sep;
          } else {
            return;
          }
        } else {
          currentLineLength := currentLineLength + |part|;
        }
      }
    }
  }

  /** newStderrBuffer: negative limits are refused; an empty separator stands for a newline. */
  method NewBuffer(bufLimit: int, lineLimit: int, sep: bytes) returns (b: Option<Buffer>)
    ensures b.None? <==> bufLimit < 0 || lineLimit < 0
    ensures b.Some? ==> fresh(b.value) && b.value.Valid() && b.value.View() == State([], 0)
                        && b.value.limits == Limits(bufLimit, lineLimit, if sep == [] then [NEWLINE] else sep)
  {
    if bufLimit < 0 || lineLimit < 0 { return None; }
    var buffer := new Buffer(bufLimit, lineLimit, sep);
    b := Some(buffer);
  }

  // ---- byte by byte ---------------------------------------------------------------------------

  /** A full buffer takes no more, so its line length means nothing. */
  function Settled(l: Limits, s: State): State {
    if |s.buf| >= l.bufLimit then s.(line := 0) else s
  }

  /** The simple form, for a separator of one byte: each byte by itself. */
  function Put(l: Limits, s: State, c: byte): (t: State)
    requires Sane(l, s) && |l.sep| == 1
    ensures Sane(l, t)
  {
    if !Active(l) || |s.buf| >= l.bufLimit then s
    else if c == NEWLINE then State(s.buf + l.sep, 0)
    else if s.line < l.lineLimit then Settled(l, State(s.buf + [c], s.line + 1))
    else s
  }

  function Fold(l: Limits, s: State, p: bytes): (t: State)
    requires Sane(l, s) && |l.sep| == 1
    ensures Sane(l, t)
    decreases |p|
  {
    if p == [] then s else Fold(l, Put(l, s, p[0]), p[1..])
  }

  lemma {:induction false} FoldConcat(l: Limits, s: State, p: bytes, q: bytes)
    requires Sane(l, s) && |l.sep| == 1
    ensures Fold(l, s, p + q) == Fold(l, Fold(l, s, p), q)
    decreases |p|
  {
    if p == [] {
      assert p + q == q;
    } else {
      assert (p + q)[1..] == p[1..] + q;
      FoldConcat(l, Put(l, s, p[0]), p[1..], q);
    }
  }

  lemma {:induction false} FoldFull(l: Limits, s: State, p: bytes)
    requires Sane(l, s) && |l.sep| == 1 && (!Active(l) || |s.buf| >= l.bufLimit)
    ensures Fold(l, s, p) == s
    decreases |p|
  {
    if p != [] { FoldFull(l, s, p[1..]); }
  }

  /** A stretch without newlines adds what fits. */
  lemma {:induction false} FoldLine(l: Limits, s: State, p: bytes)
    requires Sane(l, s) && |l.sep| == 1 && Active(l) && NEWLINE !in p && s == Settled(l, s)
    ensures Fold(l, s, p) == Settled(l, State(s.buf + Fit(l, s, p), s.line + |Fit(l, s, p)|))
    decreases |p|
  {
    if |s.buf| >= l.bufLimit {
      FoldFull(l, s, p);
      assert Fit(l, s, p) == [] && s.buf + [] == s.buf;
    } else if p == [] {
      assert s.buf + Fit(l, s, p) == s.buf;
    } else {
      var t := Put(l, s, p[0]);
      FoldLine(l, t, p[1..]);
      if s.line < l.lineLimit {
        if |t.buf| < l.bufLimit {
          assert Fit(l, s, p) == [p[0]] + Fit(l, t, p[1..]);
          assert s.buf + Fit(l, s, p) == t.buf + Fit(l, t, p[1..]);
        } else {
          assert Fit(l, s, p) == [p[0]];
          assert Fit(l, t, p[1..]) == [] && t.buf + [] == t.buf;
        }
      }
    }
  }

  /** With a one-byte separator a Write call is the fold over its bytes. */
  lemma {:induction false} WrittenIsFold(l: Limits, s: State, p: bytes)
    requires Sane(l, s) && |l.sep| == 1 && Active(l)
    ensures Settled(l, Written(l, s, p)) == Fold(l, Settled(l, s), p)
    decreases |p|
  {
    if p == [] {
    } else if |s.buf| >= l.bufLimit {
      FoldFull(l, Settled(l, s), p);
    } else {
      var i := IndexOf(p, NEWLINE);
      FoldLine(l, s, p[..i]);
      if i == |p| {
        assert p[..i] == p;
      } else {
        var t := Fold(l, s, p[..i]);
        assert p == p[..i] + ([NEWLINE] + p[i + 1..]);
        FoldConcat(l, s, p[..i], [NEWLINE] + p[i + 1..]);
        assert ([NEWLINE] + p[i + 1..])[1..] == p[i + 1..];
        if |t.buf| >= l.bufLimit {
          FoldFull(l, t, [NEWLINE] + p[i + 1..]);
        } else {
          WrittenIsFold(l, State(t.buf + l.sep, 0), p[i + 1..]);
        }
      }
    }
  }

  /** Several Write calls in a row. */
  function WrittenAll(l: Limits, s: State, chunks: seq<bytes>): (t: State)
    requires Sane(l, s)
    ensures Sane(l, t)
    decreases |chunks|
  {
    if chunks == [] then s else WrittenAll(l, Written(l, s, chunks[0]), chunks[1..])
  }

  lemma {:induction false} WrittenAllIsFold(l: Limits, s: State, chunks: seq<bytes>)
    requires Sane(l, s) && |l.sep| == 1 && Active(l)
    ensures Settled(l, WrittenAll(l, s, chunks)) == Fold(l, Settled(l, s), Concat(chunks))
    decreases |chunks|
  {
    if chunks != [] {
      WrittenIsFold(l, s, chunks[0]);
      WrittenAllIsFold(l, Written(l, s, chunks[0]), chunks[1..]);
      FoldConcat(l, Settled(l, s), chunks[0], Concat(chunks[1..]));
    }
  }

  lemma {:induction false} InactiveWritesNothing(l: Limits, s: State, chunks: seq<bytes>)
    requires Sane(l, s) && !Active(l)
    ensures WrittenAll(l, s, chunks) == s
    decreases |chunks|
  {
    if chunks != [] { InactiveWritesNothing(l, s, chunks[1..]); }
  }

  /** Chunk independence: however the same bytes are split over Write calls, the buffer ends up
      holding the same, provided the separator is one byte, as it is for commands. */
  lemma ChunkIndependence(l: Limits, a: seq<bytes>, b: seq<bytes>)
    requires |l.sep| == 1 && Concat(a) == Concat(b)
    ensures WrittenAll(l, State([], 0), a).buf == WrittenAll(l, State([], 0), b).buf
  {
    if Active(l) {
      WrittenAllIsFold(l, State([], 0), a);
      WrittenAllIsFold(l, State([], 0), b);
    } else {
      InactiveWritesNothing(l, State([], 0), a);
      InactiveWritesNothing(l, State([], 0), b);
    }
  }

  /** One byte is exactly what it takes: for every longer separator there are limits and an input
      whose buffer depends on how it is split. */
  lemma LongSeparatorsDepend(sep: bytes)
    requires |sep| >= 2
    ensures var l := Limits(|sep|, 2, sep);
            Concat(["a\nb"]) == Concat(["a\n", "b"]) &&
            WrittenAll(l, State([], 0), ["a\nb"]).buf != WrittenAll(l, State([], 0), ["a\n", "b"]).buf
  {
  }

  // ---- bounds ---------------------------------------------------------------------------------

  /** No stretch of the buffer without a separator is longer than `n`. */
  ghost predicate LinesWithin(buf: bytes, sep: byte, n: int) {
    forall i, j :: 0 <= i <= j <= |buf| && sep !in buf[i..j] ==> j - i <= n
  }

  /** The last line is no longer than `line` says. */
  ghost predicate LastLineWithin(buf: bytes, sep: byte, line: int) {
    forall i :: 0 <= i <= |buf| && sep !in buf[i..] ==> |buf| - i <= line
  }

  ghost predicate Bounded(l: Limits, s: State)
    requires |l.sep| == 1
  {
    && LinesWithin(s.buf, l.sep[0], l.lineLimit)
    && (|s.buf| < l.bufLimit ==> LastLineWithin(s.buf, l.sep[0], s.line))
  }

  lemma PutBounded(l: Limits, s: State, c: byte)
    requires Sane(l, s) && |l.sep| == 1 && Active(l) && Bounded(l, s)
    ensures Bounded(l, Put(l, s, c))
  {
    var t := Put(l, s, c);
    var x := l.sep[0];
    if t.buf != s.buf {
      assert |t.buf| == |s.buf| + 1 && t.buf[..|s.buf|] == s.buf;
      forall i, j | 0 <= i <= j <= |t.buf| && x !in t.buf[i..j] ensures j - i <= l.lineLimit {
        if j <= |s.buf| {
          assert t.buf[i..j] == s.buf[i..j];
        } else if i < j {
          assert t.buf[i..j] == s.buf[i..] + [t.buf[|s.buf|]];
        }
      }
      forall i | 0 <= i <= |t.buf| && x !in t.buf[i..] ensures |t.buf| < l.bufLimit ==> |t.buf| - i <= t.line {
        if i <= |s.buf| { assert t.buf[i..] == s.buf[i..] + [t.buf[|s.buf|]]; }
      }
    }
  }

  lemma {:induction false} FoldBounded(l: Limits, s: State, p: bytes)
    requires Sane(l, s) && |l.sep| == 1 && Active(l) && Bounded(l, s)
    ensures Bounded(l, Fold(l, s, p))
    decreases |p|
  {
    if p != [] {
      PutBounded(l, s, p[0]);
      FoldBounded(l, Put(l, s, p[0]), p[1..]);
    }
  }

  /** Whatever is written, the buffer stays within its limit and no line exceeds the line limit. */
  lemma Bounds(l: Limits, chunks: seq<bytes>)
    requires |l.sep| == 1 && Active(l)
    ensures var buf := WrittenAll(l, State([], 0), chunks).buf;
            |buf| <= l.bufLimit && LinesWithin(buf, l.sep[0], l.lineLimit)
  {
    WrittenAllIsFold(l, State([], 0), chunks);
    FoldBounded(l, State([], 0), Concat(chunks));
  }
}
