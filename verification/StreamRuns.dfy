/** What the streams of the stream cache carry (internal/streamcache/cache.go): each create run has a
    pipe of its own that goes through a run of the pipe machine; a stream reads the file of one create
    run and waits for the result of the same; and lookups share a run as long as it is in the index. */
module StreamRuns {
  import opened Prelude
  import opened StreamCache
  import P = Pipes
  import R = PipeResults

  // ---- every create run has a pipe of its own -------------------------------------------------

  /** What a step of the cache means to the pipe of run `r`. */
  function Deed(s: State, a: Action, r: RunId): seq<P.Action>
    requires Enabled(s, a)
  {
    match a
    case Hit(k, id) => if s.index[k] == r then [P.R(id, P.OpenReader)] else []
    case Progress(q, p) => if q == r then [p] else []
    case Unlink(name) => if s.dir[name] == r && r in s.runs then [P.RemoveFile] else []
    case _ => []
  }

  /** What has happened to the pipe of run `r` in the course of `h`. */
  function Story(h: seq<Action>, r: RunId): seq<P.Action>
    requires Run(h)
  {
    if h == [] then []
    else Story(h[..|h| - 1], r) + Deed(After(h[..|h| - 1]).value, h[|h| - 1], r)
  }

  /** The stream that was returned with the creation of run `r`. */
  function Opener(h: seq<Action>, r: RunId): StreamId {
    if h == [] then 0
    else if h[|h| - 1].Create? && h[|h| - 1].r == r then h[|h| - 1].id
    else Opener(h[..|h| - 1], r)
  }

  ghost predicate OwnPipe(h: seq<Action>, r: RunId)
    requires Run(h)
  {
    var s := After(h).value;
    if r in s.runs then P.After(Opener(h, r), Story(h, r)) == Some(s.runs[r].pipe) else Story(h, r) == []
  }

  lemma HitDeed(s: State, k: Key, id: StreamId)
    requires Inv(s) && Enabled(s, Hit(k, id))
    ensures var r := s.index[k]; var p := s.runs[r].pipe;
            P.Enabled(p, P.R(id, P.OpenReader)) && Subscribed(p, id) == P.Step(p, P.R(id, P.OpenReader))
  {
    assert PipeOk(s, s.index[k]);
  }

  /** A deed is a step of the pipe. */
  lemma DeedIsStep(s: State, a: Action, r: RunId)
    requires Inv(s) && Enabled(s, a) && r in s.runs && Deed(s, a, r) != []
    ensures |Deed(s, a, r)| == 1 && r in Step(s, a).runs && P.Enabled(s.runs[r].pipe, Deed(s, a, r)[0])
    ensures Step(s, a).runs[r].pipe == P.Step(s.runs[r].pipe, Deed(s, a, r)[0])
  {
    if a.Hit? { HitDeed(s, a.k, a.id); }
  }

  /** Without a deed, the pipe stays as it is. */
  lemma NoDeed(s: State, a: Action, r: RunId)
    requires Enabled(s, a) && r in s.runs && r in s.used && Deed(s, a, r) == []
    ensures r in Step(s, a).runs && Step(s, a).runs[r].pipe == s.runs[r].pipe
  {
    match a
    case Hit(k, _) => assert s.index[k] != r;
    case Progress(q, _) => assert q != r;
    case _ =>
  }

  lemma DeedLater(s: State, a: Action, r: RunId)
    requires Inv(s) && Enabled(s, a) && r !in s.runs
    ensures Deed(s, a, r) == []
    ensures r in Step(s, a).runs ==> a.Create? && a.r == r && Step(s, a).runs[r].pipe == P.NewPipe(a.id)
  {
  }

  lemma StoryGrows(o: StreamId, story: seq<P.Action>, p: P.Pipe, d: seq<P.Action>, q: P.Pipe)
    requires P.After(o, story) == Some(p)
    requires if d == [] then q == p else |d| == 1 && P.Enabled(p, d[0]) && q == P.Step(p, d[0])
    ensures P.After(o, story + d) == Some(q)
  {
    if d == [] {
      assert story + d == story;
    } else {
      R.ExecThen(P.NewPipe(o), story, p, d[0]);
      assert d == [d[0]];
    }
  }

  /** Every pipe in the cache is a run of the pipe machine, from its creation on: whatever holds of
      those runs holds of it. */
  lemma {:induction false} PipesRun(h: seq<Action>, r: RunId)
    requires Run(h) && After(h).value.created < TWO64
    ensures OwnPipe(h, r)
  {
    if h != [] {
      var before, a := h[..|h| - 1], h[|h| - 1];
      var s := After(before).value;
      CreatedGrows(s, a);
      PipesRun(before, r);
      InvRun(before);
      if r in s.runs {
        NotCreatedAgain(s, a, r);
        if Deed(s, a, r) == [] { NoDeed(s, a, r); } else { DeedIsStep(s, a, r); }
        StoryGrows(Opener(before, r), Story(before, r), s.runs[r].pipe, Deed(s, a, r), Step(s, a).runs[r].pipe);
      } else {
        DeedLater(s, a, r);
      }
    }
  }

  lemma NotCreatedAgain(s: State, a: Action, r: RunId)
    requires Inv(s) && Enabled(s, a) && r in s.runs
    ensures !(a.Create? && a.r == r)
  {
  }

  /** The story has exactly those steps of the writer that the cache's run has for `r`. */
  lemma {:induction false} StoryHas(h: seq<Action>, r: RunId, a: P.Action)
    requires Run(h) && Internal(a)
    ensures a in Story(h, r) <==> Progress(r, a) in h
  {
    if h != [] {
      var before, last := h[..|h| - 1], h[|h| - 1];
      StoryHas(before, r, a);
      var d := Deed(After(before).value, last, r);
      assert h == before + [last];
      assert a in d <==> last == Progress(r, a);
    }
  }

  /** The run's result is a success: Wait returns nil. */
  predicate Succeeded(s: State, r: RunId) {
    r in s.runs && s.runs[r].pipe.writer == P.Closed(true)
  }

  /** Hits are single-sourced. A stream returned for `k` reads the file of exactly the create run
      for `k` whose result its Wait returns, whatever has been evicted, unlinked or re-created since.
      That result is nil if and only if the run's create function returned nil, closing its file
      succeeded, and the pipe was not broken. When the stream has seen EOF it holds everything that
      run wrote, if and only if no write of the run fell short; so it does when Wait returns nil, if
      the create function does not return nil after a write has failed. */
  lemma SingleSource(h: seq<Action>, id: StreamId)
    requires Run(h) && After(h).value.created < TWO64 && id in After(h).value.streams
    ensures var s := After(h).value; var st := s.streams[id]; var r := st.waiter;
            && st.file == r && r in s.runs && s.runs[r].key == st.key
            && var p := s.runs[r].pipe;
               && id in p.readers && P.Faithful(p, p.readers[id])
               && (Succeeded(s, r) <==> Progress(r, P.W(P.Return(true))) in h && Progress(r, P.W(P.CloseWriter(true))) in h && !P.Broken(p))
               && (Succeeded(s, r) && R.Honest(Story(h, r)) && p.readers[id].eof ==> p.readers[id].got == p.output)
  {
    InvRun(h);
    var s := After(h).value;
    var r := s.streams[id].waiter;
    assert StreamOk(s, id) && PipeOk(s, r);
    P.ReadersAreFaithful(s.runs[r].pipe, id);
    ResultOf(h, r);
    if Succeeded(s, r) && R.Honest(Story(h, r)) && s.runs[r].pipe.readers[id].eof {
      R.EofAndSuccess(Opener(h, r), Story(h, r), id);
    }
  }

  lemma ResultOf(h: seq<Action>, r: RunId)
    requires Run(h) && After(h).value.created < TWO64 && r in After(h).value.runs
    ensures P.Run(Opener(h, r), Story(h, r)) && P.After(Opener(h, r), Story(h, r)).value == After(h).value.runs[r].pipe
    ensures var s := After(h).value;
            Succeeded(s, r) <==>
              Progress(r, P.W(P.Return(true))) in h && Progress(r, P.W(P.CloseWriter(true))) in h && !P.Broken(s.runs[r].pipe)
  {
    PipesRun(h, r);
    R.ResultExactly(Opener(h, r), Story(h, r));
    R.ClosedWellNow(Opener(h, r), Story(h, r));
    StoryHas(h, r, P.W(P.Return(true)));
    StoryHas(h, r, P.W(P.CloseWriter(true)));
  }

  /** Two streams that wait for the same run hold the same bytes as far as both have come. */
  lemma StreamsAgree(h: seq<Action>, i: StreamId, j: StreamId)
    requires Run(h) && After(h).value.created < TWO64
    requires i in After(h).value.streams && j in After(h).value.streams
    requires After(h).value.streams[i].waiter == After(h).value.streams[j].waiter
    ensures var s := After(h).value; var r := s.streams[i].waiter;
            && r in s.runs && i in s.runs[r].pipe.readers && j in s.runs[r].pipe.readers
            && (s.runs[r].pipe.readers[i].got <= s.runs[r].pipe.readers[j].got ||
                s.runs[r].pipe.readers[j].got <= s.runs[r].pipe.readers[i].got)
  {
    SingleSource(h, i);
    SingleSource(h, j);
  }

  /** The entry of a create run is forgotten for its result exactly when the run has ended and Wait does not
      return nil; then the index has no entry for its key. */
  lemma FailedIsForgotten(h: seq<Action>, r: RunId)
    requires Run(h) && After(h).value.created < TWO64 && r in After(h).value.runs
    ensures var s := After(h).value;
            && (Enabled(s, ForgetFailed(r)) <==>
                  !Succeeded(s, r) && (Progress(r, P.W(P.CloseWriter(true))) in h || Progress(r, P.W(P.CloseWriter(false))) in h))
            && (Enabled(s, ForgetFailed(r)) ==> s.runs[r].key !in Step(s, ForgetFailed(r)).index)
  {
    PipesRun(h, r);
    R.ResultExactly(Opener(h, r), Story(h, r));
    StoryHas(h, r, P.W(P.CloseWriter(true)));
    StoryHas(h, r, P.W(P.CloseWriter(false)));
  }

  // ---- the index ------------------------------------------------------------------------------

  /** The step takes the entry for `k` out of the index, or replaces it. */
  predicate Displaces(s: State, a: Action, k: Key)
    requires Enabled(s, a)
  {
    match a
    case Create(k', _, _) => k' == k
    case CreateFails(k', _) => k' == k
    case Evict(k') => k' == k
    case ForgetFailed(r) => s.runs[r].key == k
    case _ => false
  }

  /** No step of `rest`, taken after `h`, displaces the entry for `k`. */
  predicate Undisturbed(h: seq<Action>, rest: seq<Action>, k: Key)
    requires Run(h + rest)
  {
    rest == [] ||
      (assert (h + rest)[..|h + rest| - 1] == h + rest[..|rest| - 1];
       !Displaces(After(h + rest[..|rest| - 1]).value, rest[|rest| - 1], k) && Undisturbed(h, rest[..|rest| - 1], k))
  }

  lemma IndexMoves(s: State, a: Action, k: Key, r: RunId)
    requires NamesOk(s) && IndexOk(s) && Enabled(s, a) && r in s.used
    ensures k in Step(s, a).index && Step(s, a).index[k] == r <==> k in s.index && s.index[k] == r && !Displaces(s, a, k)
    ensures r in Step(s, a).used
  {
  }

  /** After a create run for `k` has begun, the index has it for `k` if and only if nothing has displaced
      it since: no failed or new creation for `k`, no eviction of `k`, no failed run for `k` forgotten. */
  lemma {:induction false} IndexedExactly(h: seq<Action>, k: Key, r: RunId, id: StreamId, rest: seq<Action>)
    requires Run(h + [Create(k, r, id)] + rest) && After(h + [Create(k, r, id)] + rest).value.created < TWO64
    ensures var s := After(h + [Create(k, r, id)] + rest).value;
            && r in s.used
            && (k in s.index && s.index[k] == r <==> Undisturbed(h + [Create(k, r, id)], rest, k))
    decreases |rest|
  {
    var h1 := h + [Create(k, r, id)];
    if rest == [] {
      assert h1 + rest == h1 && h1[..|h1| - 1] == h;
    } else {
      var n := |rest| - 1;
      assert (h1 + rest)[..|h1 + rest| - 1] == h1 + rest[..n];
      var s := After(h1 + rest[..n]).value;
      CreatedGrows(s, rest[n]);
      IndexedExactly(h, k, r, id, rest[..n]);
      InvRun(h1 + rest[..n]);
      IndexMoves(s, rest[n], k, r);
    }
  }

  lemma NameMoves(s: State, a: Action, r: RunId)
    requires NamesOk(s) && Enabled(s, a) && Step(s, a).created < TWO64 && r in s.runs
    ensures r in Step(s, a).runs && Step(s, a).runs[r].name == s.runs[r].name
    ensures s.runs[r].name in Step(s, a).dir <==> s.runs[r].name in s.dir && a != Unlink(s.runs[r].name)
  {
  }

  /** The file of a create run is there if and only if nothing has removed it by its name since. */
  lemma {:induction false} NamedExactly(h: seq<Action>, k: Key, r: RunId, id: StreamId, rest: seq<Action>)
    requires Run(h + [Create(k, r, id)] + rest) && After(h + [Create(k, r, id)] + rest).value.created < TWO64
    ensures var s := After(h + [Create(k, r, id)] + rest).value;
            r in s.runs && (s.runs[r].name in s.dir <==> Unlink(s.runs[r].name) !in rest)
    decreases |rest|
  {
    var h1 := h + [Create(k, r, id)];
    if rest == [] {
      assert h1 + rest == h1 && h1[..|h1| - 1] == h;
    } else {
      var n := |rest| - 1;
      assert (h1 + rest)[..|h1 + rest| - 1] == h1 + rest[..n] && rest == rest[..n] + [rest[n]];
      var s := After(h1 + rest[..n]).value;
      CreatedGrows(s, rest[n]);
      NamedExactly(h, k, r, id, rest[..n]);
      InvRun(h1 + rest[..n]);
      NameMoves(s, rest[n], r);
    }
  }

  /** A second lookup shares the first one's run. As long as nothing has displaced its entry, a lookup
      for `k` is a hit if and only if nothing has removed its file and its pipe is not broken; the new
      stream then reads the file of that run and waits for its result. */
  lemma SecondLookupHits(h: seq<Action>, k: Key, r: RunId, id: StreamId, rest: seq<Action>, id': StreamId)
    requires Run(h + [Create(k, r, id)] + rest) && After(h + [Create(k, r, id)] + rest).value.created < TWO64
    requires Undisturbed(h + [Create(k, r, id)], rest, k)
    ensures var s := After(h + [Create(k, r, id)] + rest).value;
            && r in s.runs
            && (id' !in s.streams ==> (Enabled(s, Hit(k, id')) <==> Unlink(s.runs[r].name) !in rest && !P.Broken(s.runs[r].pipe)))
            && (Enabled(s, Hit(k, id')) ==> Step(s, Hit(k, id')).streams[id'] == Stream(k, r, r))
  {
    IndexedExactly(h, k, r, id, rest);
    NamedExactly(h, k, r, id, rest);
    InvRun(h + [Create(k, r, id)] + rest);
  }

  // ---- from a lookup to EOF -------------------------------------------------------------------

  /** Where a list of steps leads from `s`. */
  function Exec(s: State, h: seq<Action>): Option<State> {
    if h == [] then Some(s)
    else
      var before := Exec(s, h[..|h| - 1]);
      if before.Some? && Enabled(before.value, h[|h| - 1]) then Some(Step(before.value, h[|h| - 1])) else None
  }

  lemma {:induction false} AfterExec(h: seq<Action>, s: State, rest: seq<Action>)
    requires After(h) == Some(s) && Exec(s, rest).Some?
    ensures After(h + rest) == Exec(s, rest)
    decreases |rest|
  {
    if rest == [] {
      assert h + rest == h;
    } else {
      assert (h + rest)[..|h + rest| - 1] == h + rest[..|rest| - 1];
      AfterExec(h, s, rest[..|rest| - 1]);
    }
  }

  predicate AllInternal(ph: seq<P.Action>) {
    forall i :: 0 <= i < |ph| ==> Internal(ph[i])
  }

  function Lifted(r: RunId, ph: seq<P.Action>): seq<Action> {
    seq(|ph|, i requires 0 <= i < |ph| => Progress(r, ph[i]))
  }

  /** What a pipe can do by itself, it can do in the cache. */
  lemma {:induction false} Lift(s: State, r: RunId, ph: seq<P.Action>)
    requires r in s.runs && P.Exec(s.runs[r].pipe, ph).Some? && AllInternal(ph)
    ensures Exec(s, Lifted(r, ph)) == Some(SetPipe(s, r, P.Exec(s.runs[r].pipe, ph).value))
    decreases |ph|
  {
    if ph == [] {
      assert s.runs[r := s.runs[r].(pipe := s.runs[r].pipe)] == s.runs;
    } else {
      var n := |ph| - 1;
      assert Lifted(r, ph)[..n] == Lifted(r, ph[..n]);
      Lift(s, r, ph[..n]);
      var q := P.Exec(s.runs[r].pipe, ph[..n]).value;
      LiftOne(s, r, q, ph[n]);
    }
  }

  lemma LiftOne(s: State, r: RunId, q: P.Pipe, a: P.Action)
    requires r in s.runs && P.Enabled(q, a) && Internal(a)
    ensures Enabled(SetPipe(s, r, q), Progress(r, a))
    ensures Step(SetPipe(s, r, q), Progress(r, a)) == SetPipe(s, r, P.Step(q, a))
  {
    var t := SetPipe(s, r, q);
    assert t.runs[r := t.runs[r].(pipe := P.Step(q, a))] == s.runs[r := s.runs[r].(pipe := P.Step(q, a))];
  }

  /** In every run below roll-over, a lookup that does not hit can begin a new create run. */
  lemma CreatePossible(h: seq<Action>, k: Key, r: RunId, id: StreamId)
    requires Run(h) && After(h).value.created + 1 < TWO64 && r !in After(h).value.used && id !in After(h).value.streams
    ensures Enabled(After(h).value, Create(k, r, id))
  {
    InvRun(h);
  }

  /** A create run that writes `b`, and its first reader, from beginning to end. */
  lemma PipeThrough(id: StreamId, b: bytes) returns (ph: seq<P.Action>, q: P.Pipe)
    ensures P.After(id, ph) == Some(q) && AllInternal(ph)
    ensures q.writer == P.Closed(true) && q.output == b && id in q.readers && q.readers[id].eof && q.readers[id].got == b
  {
    assert P.After(id, []) == Some(P.NewPipe(id));
    var h1, p1 := R.WriteOn(id, [], b);
    var h2, p2 := R.CloseOn(id, [] + h1);
    assert p2.readers[id] == P.NewPipe(id).readers[id] && [] + b == b;
    var h3 := R.ReadsToEnd(id, [] + h1 + h2, id);
    ph := [] + h1 + h2 + h3;
    q := P.After(id, ph).value;
    P.ExecSplits(P.NewPipe(id), [] + h1 + h2, p2, h3);
    ReadsKeepOutput(p2, h3, q, id);
  }

  lemma {:induction false} ReadsKeepOutput(p: P.Pipe, h: seq<P.Action>, q: P.Pipe, id: StreamId)
    requires R.AllReads(h, id) && P.Exec(p, h) == Some(q)
    ensures q.output == p.output && q.writer == p.writer
    decreases |h|
  {
    if h != [] {
      ReadsKeepOutput(p, h[..|h| - 1], P.Exec(p, h[..|h| - 1]).value, id);
      R.WriterStays(P.Exec(p, h[..|h| - 1]).value, h[|h| - 1]);
    }
  }

  /** The cache serves what is created. After any run below roll-over, a lookup can begin a create run for
      any key, and when that writes `b` and returns nil, the stream of the lookup gets exactly `b` and
      then EOF, its Wait returns nil, and the run is in the index for the next lookup. */
  lemma CreatedIsServed(h: seq<Action>, k: Key, r: RunId, id: StreamId, b: bytes) returns (rest: seq<Action>)
    requires Run(h) && After(h).value.created + 1 < TWO64 && r !in After(h).value.used && id !in After(h).value.streams
    ensures Run(h + rest) && Succeeded(After(h + rest).value, r)
    ensures var t := After(h + rest).value;
            && k in t.index && t.index[k] == r && id in t.streams && t.streams[id] == Stream(k, r, r)
            && id in t.runs[r].pipe.readers && t.runs[r].pipe.readers[id].eof && t.runs[r].pipe.readers[id].got == b
  {
    var s := After(h).value;
    CreatePossible(h, k, r, id);
    var t := Step(s, Create(k, r, id));
    var ph, q := PipeThrough(id, b);
    assert t.runs[r].pipe == P.NewPipe(id);
    Lift(t, r, ph);
    CreateThen(s, k, r, id, t, Lifted(r, ph));
    rest := [Create(k, r, id)] + Lifted(r, ph);
    AfterExec(h, s, rest);
  }

  lemma CreateThen(s: State, k: Key, r: RunId, id: StreamId, t: State, more: seq<Action>)
    requires Enabled(s, Create(k, r, id)) && t == Step(s, Create(k, r, id)) && Exec(t, more).Some?
    ensures Exec(s, [Create(k, r, id)] + more) == Exec(t, more)
  {
    assert [Create(k, r, id)][..0] == [];
    assert Exec(s, [Create(k, r, id)]) == Some(t);
    ExecJoins(s, [Create(k, r, id)], t, more);
  }

  lemma {:induction false} ExecJoins(s: State, h: seq<Action>, t: State, rest: seq<Action>)
    requires Exec(s, h) == Some(t) && Exec(t, rest).Some?
    ensures Exec(s, h + rest) == Exec(t, rest)
    decreases |rest|
  {
    if rest == [] {
      assert h + rest == h;
    } else {
      assert (h + rest)[..|h + rest| - 1] == h + rest[..|rest| - 1];
      ExecJoins(s, h, t, rest[..|rest| - 1]);
    }
  }

  /** After any run, a stream whose run was closed well and that keeps reading gets that run's whole file and
      then EOF, whatever has been evicted or removed. */
  lemma StreamReadsToEnd(h: seq<Action>, id: StreamId) returns (rest: seq<Action>)
    requires Run(h) && After(h).value.created < TWO64 && id in After(h).value.streams
    requires var s := After(h).value; var r := s.streams[id].waiter;
             r in s.runs && P.Completed(s.runs[r].pipe) && id in s.runs[r].pipe.readers && s.runs[r].pipe.readers[id].phase.AtRest?
    ensures Run(h + rest)
    ensures var s, t := After(h).value, After(h + rest).value; var r := s.streams[id].waiter;
            && r in t.runs && id in t.runs[r].pipe.readers && t.runs[r].pipe.readers[id].eof
            && t.runs[r].pipe.readers[id].got == s.runs[r].pipe.file
  {
    var s := After(h).value;
    var r := s.streams[id].waiter;
    PipesRun(h, r);
    var ph := R.ReadsToEnd(Opener(h, r), Story(h, r), id);
    P.ExecSplits(P.NewPipe(Opener(h, r)), Story(h, r), s.runs[r].pipe, ph);
    Lift(s, r, ph);
    rest := Lifted(r, ph);
    AfterExec(h, s, rest);
  }
}
