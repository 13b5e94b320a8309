/** A reader that holds back the last N bytes of its source (internal/git/gitio/trailer.go). */
module TrailerReaders {
  import opened Prelude

  const BUF_SIZE: nat := 8192

  /** How the source answers one Read: `n` bytes, together with EOF or another error or neither. */
  datatype Reply = Reply(n: nat, eof: bool, failed: bool)

  datatype Outcome = Data | EOF | Failed

  datatype TrailerError = NotAtEOF | TooShort

  /** The source without its last `n` bytes. */
  function Body(source: bytes, n: nat): bytes {
    if |source| < n then [] else source[..|source| - n]
  }

  class TrailerReader {
    const trailerSize: nat
    const buf: array<byte>
    var start: nat
    var end: nat
    var atEOF: bool
    var rest: bytes              // what the source has not delivered yet

    ghost var source: bytes      // all that the source delivers, except what it delivers with an error
    ghost var delivered: bytes   // what Read has returned so far

    /** Nothing is lost, and once something has been returned a whole trailer is held back. */
    ghost predicate Valid()
      reads this, buf
    {
      && buf.Length == BUF_SIZE && trailerSize < BUF_SIZE && start <= end <= BUF_SIZE
      && delivered + buf[start..end] + rest == source
      && (delivered != [] ==> end - start >= trailerSize)
      && (atEOF ==> rest == [])
    }

    /** The size check of NewTrailerReader, which panics otherwise, is the precondition. */
    constructor (source: bytes, trailerSize: nat)
      requires trailerSize < BUF_SIZE
      ensures Valid() && fresh(buf) && delivered == [] && !atEOF
      ensures this.source == source && this.trailerSize == trailerSize
    {
      this.trailerSize := trailerSize;
      buf := new byte[BUF_SIZE](_ => '\0');
      start, end, atEOF, rest := 0, 0, false, source;
      this.source, delivered := source, [];
    }

    /** Moves what is buffered to the front of the buffer. */
    method Shift()
      requires Valid()
      modifies this`start, this`end, buf
      ensures Valid() && start == 0 && end == old(end - start) && buf[..end] == old(buf[start..end])
    {
      var n := end - start;
      ghost var held := buf[start..end];
      for i := 0 to n
        modifies buf
        invariant forall k :: 0 <= k < i ==> buf[k] == held[k]
        invariant forall k :: i <= k < n ==> buf[start + k] == held[k]
      {
        buf[i] := buf[start + i];
      }
      start, end := 0, n;
      assert buf[start..end] == held && buf[..end] == held;
    }

    /** What the source may answer: as many bytes as there are and fit, and EOF only when there are no
        more; along with another error there may be bytes too. */
    predicate Answers(r: Reply, space: nat)
      reads this
    {
      r.n <= space && r.n <= |rest| && (r.eof ==> r.n == |rest| && !r.failed)
    }

    /** Lets the source read into the free part of the buffer. */
    method Fill(n: nat)
      requires Valid() && start == 0 && n <= |rest| && end + n <= BUF_SIZE
      modifies this`end, this`rest, buf
      ensures start == 0 && end == old(end) + n && rest == old(rest)[n..]
      ensures delivered + buf[start..end] + rest == source
    {
      ghost var held, from := buf[..end], rest;
      for i := 0 to n
        modifies buf
        invariant buf[..end + i] == held + from[..i]
      {
        buf[end + i] := rest[i];
      }
      end, rest := end + n, rest[n..];
      assert buf[start..end] == held + from[..n];
      assert held + from[..n] + from[n..] == held + from;
      assert delivered + held + from == delivered + (held + from);
    }

    /** What the source delivers along with an error is not counted as read. */
    method Lose(n: nat)
      requires Valid() && !atEOF && n <= |rest|
      modifies this`rest, this`source
      ensures Valid() && rest == old(rest)[n..] && source == old(source[..|source| - |rest|]) + rest
    {
      ghost var held := delivered + buf[start..end];
      assert source[..|source| - |rest|] == held;
      rest := rest[n..];
      source := held + rest;
    }

    /** One read from the source into the buffer. */
    method Refill(reply: Reply)
      requires Valid() && !atEOF && end - start <= trailerSize && !reply.failed && Answers(reply, BUF_SIZE - (end - start))
      modifies this`start, this`end, this`rest, this`atEOF, buf
      ensures Valid() && (atEOF <==> reply.eof) && rest == old(rest)[reply.n..]
    {
      Shift();
      Fill(reply.n);
      if reply.eof { atEOF := true; }
    }

    /** Hands out the next `n` bytes. */
    method Take(n: nat) returns (p: bytes)
      requires Valid() && n + trailerSize <= end - start
      modifies this`start, this`delivered
      ensures Valid() && delivered == old(delivered) + p && |p| == n && end - start == old(end - start) - n
    {
      p := buf[start..start + n];
      assert buf[start..end] == p + buf[start + n..end];
      assert delivered + (p + buf[start + n..end]) == delivered + p + buf[start + n..end];
      start, delivered := start + n, delivered + p;
    }

    /** Returns the next part of the source's body, at most `max` bytes of it. EOF comes exactly when
        the source has ended and its whole body has been returned. */
    method Read(max: nat, reply: Reply) returns (p: bytes, outcome: Outcome)
      requires Valid() && (!atEOF && end - start <= trailerSize ==> Answers(reply, BUF_SIZE - (end - start)))
      modifies this, buf
      ensures Valid() && delivered == old(delivered) + p && |p| <= max
      ensures outcome.EOF? ==> p == [] && delivered == Body(source, trailerSize) && atEOF
      ensures outcome.Data? ==> |p| == max || end - start <= trailerSize
      ensures outcome.Failed? <==> reply.failed && old(!atEOF && end - start <= trailerSize)
      ensures outcome.Failed? ==> p == [] && rest == old(rest)[reply.n..] && source == old(source[..|source| - |rest|]) + rest
      ensures !outcome.Failed? ==> source == old(source)
      // The source is asked exactly when no more than the trailer is buffered, and what it says counts.
      ensures old(atEOF || end - start > trailerSize) ==> rest == old(rest) && atEOF == old(atEOF)
      ensures old(!atEOF && end - start <= trailerSize) && !reply.failed ==> rest == old(rest)[reply.n..] && atEOF == reply.eof
      ensures outcome.Data? && p == [] ==> max == 0 || (!atEOF && end - start <= trailerSize)
      ensures atEOF && delivered == old(delivered) == Body(source, trailerSize) ==> outcome.EOF?
    {
      if !atEOF && end - start <= trailerSize {
        if reply.failed {
          Shift();
          Lose(reply.n);
          return [], Failed;
        }
        Refill(reply);
      }
      if end - start <= trailerSize {
        BodyDelivered(delivered, buf[start..end], trailerSize);
        assert atEOF ==> source == delivered + buf[start..end];
        return [], if atEOF then EOF else Data;
      }
      var n := end - start - trailerSize;
      p := Take(if max < n then max else n);
      outcome := Data;
      assert atEOF ==> source == delivered + buf[start..end];
    }

    /** After the end of the source's body this is the rest of the source, or an error if the source
        is too short; before, it is an error. */
    method Trailer() returns (r: Result<bytes, TrailerError>)
      requires Valid()
      ensures r == if !atEOF || delivered != Body(source, trailerSize) then Err(NotAtEOF)
                   else if |source| < trailerSize then Err(TooShort)
                   else Ok(source[|source| - trailerSize..])
    {
      var n := end - start;
      ghost var held := buf[start..end];
      if atEOF { TrailerIs(delivered, held, rest, source, trailerSize); }
      if !atEOF || n > trailerSize { return Err(NotAtEOF); }
      if n < trailerSize { return Err(TooShort); }
      r := Ok(buf[end - trailerSize..end]);
      assert r.value == held;
    }
  }

  /** When the source has ended, what is held is the trailer exactly if it is that long. */
  lemma TrailerIs(delivered: bytes, held: bytes, rest: bytes, source: bytes, n: nat)
    requires delivered + held + rest == source && rest == [] && (delivered != [] ==> |held| >= n)
    ensures delivered == Body(source, n) <==> |held| <= n
    ensures |held| < n ==> |source| < n
    ensures |held| == n ==> |source| >= n && source[|source| - n..] == held
  {
    assert source == delivered + held;
    if |held| <= n { BodyDelivered(delivered, held, n); }
  }

  lemma BodyDelivered(delivered: bytes, held: bytes, n: nat)
    requires |held| <= n && (delivered != [] ==> |held| >= n)
    ensures delivered == Body(delivered + held, n)
  {
    if |delivered + held| >= n { assert (delivered + held)[..|delivered|] == delivered; }
  }

  /** Reads to the end with any buffer sizes and any behaviour of the source: what comes out is the
      source without its last N bytes, and then Trailer yields exactly those, or fails if the source
      is shorter than N. A script that ends before EOF has delivered a prefix of that. Bytes that come
      along with an error are lost: `lost` counts them, and what comes out of a long enough source is
      right if and only if there are none. */
  method ReadAll(source: bytes, trailerSize: nat, sizes: seq<nat>, replies: seq<Reply>)
    returns (out: bytes, ended: bool, trailer: Result<bytes, TrailerError>, lost: nat)
    requires trailerSize < BUF_SIZE && |sizes| == |replies|
    ensures lost == 0 ==> out <= Body(source, trailerSize)
    ensures lost == 0 && ended ==> out == Body(source, trailerSize)
    ensures lost == 0 && ended ==>
              trailer == if |source| >= trailerSize then Ok(source[|source| - trailerSize..]) else Err(TooShort)
    ensures ended && |source| >= trailerSize + lost ==> (out == Body(source, trailerSize) <==> lost == 0)
  {
    var tr := new TrailerReader(source, trailerSize);
    out, ended, lost := [], false, 0;
    for i := 0 to |sizes|
      invariant tr.Valid() && tr.trailerSize == trailerSize && fresh(tr) && fresh(tr.buf)
      invariant |tr.source| + lost == |source| && (lost == 0 ==> tr.source == source)
      invariant out == tr.delivered && !ended
    {
      var p, outcome;
      // A source that breaks its contract ends the script.
      if !tr.atEOF && tr.end - tr.start <= trailerSize && !tr.Answers(replies[i], BUF_SIZE - (tr.end - tr.start)) { break; }
      p, outcome := tr.Read(sizes[i], replies[i]);
      out := out + p;
      if outcome.Failed? { lost := lost + replies[i].n; }
      if outcome.EOF? {
        ended := true;
        break;
      }
    }
    PrefixOfBody(tr.delivered, tr.buf[tr.start..tr.end], tr.rest, tr.source, trailerSize);
    trailer := tr.Trailer();
  }

  lemma PrefixOfBody(delivered: bytes, held: bytes, rest: bytes, source: bytes, n: nat)
    requires delivered + held + rest == source && (delivered != [] ==> |held| >= n)
    ensures delivered <= Body(source, n)
  {
  }

  /** Reads until EOF, as callers do: with a buffer that is not empty, and a source that each time delivers
      something or ends. This comes to an end, with the whole body and then the trailer. `chunk` says how
      much the source has ready when it has delivered so many bytes, and `early` whether it reports EOF
      with its last bytes or by itself. */
  method Drain(source: bytes, trailerSize: nat, max: nat, chunk: nat -> nat, early: bool)
    returns (out: bytes, trailer: Result<bytes, TrailerError>)
    requires trailerSize < BUF_SIZE && max > 0
    ensures out == Body(source, trailerSize)
    ensures trailer == if |source| >= trailerSize then Ok(source[|source| - trailerSize..]) else Err(TooShort)
  {
    var tr := new TrailerReader(source, trailerSize);
    var outcome := Data;
    out := [];
    while outcome.Data?
      invariant tr.Valid() && tr.trailerSize == trailerSize && fresh(tr) && fresh(tr.buf)
      invariant tr.source == source && out == tr.delivered && !outcome.Failed?
      invariant outcome.EOF? ==> out == Body(source, trailerSize) && tr.atEOF
      decreases |tr.rest|, if tr.atEOF then 0 else 1, |source| - |out|, if outcome.EOF? then 0 else 1
    {
      var space := BUF_SIZE - (tr.end - tr.start);
      var n := if space < |tr.rest| then space else |tr.rest|;
      if chunk(|source| - |tr.rest|) + 1 < n { n := chunk(|source| - |tr.rest|) + 1; }
      var p;
      p, outcome := tr.Read(max, Reply(n, n == |tr.rest| && (early || n == 0), false));
      out := out + p;
    }
    trailer := tr.Trailer();
  }
}
