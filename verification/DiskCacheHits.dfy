/** What the disk cache's lookups do find (internal/cache/keyer.go, internal/cache/diskcache.go): which
    generation is in the file `latest`, which responses are there, and when a lease stops blocking. */
module DiskCacheHits {
  import opened Prelude
  import opened CacheKey
  import opened DiskCache

  // ---- runs -----------------------------------------------------------------------------------

  lemma {:induction false} ExecJoin(s: State, h: seq<Action>, t: State, rest: seq<Action>)
    requires Exec(s, h) == Some(t) && Exec(t, rest).Some?
    ensures Exec(s, h + rest) == Exec(t, rest)
    decreases |rest|
  {
    if rest == [] {
      assert h + rest == h;
    } else {
      assert (h + rest)[..|h + rest| - 1] == h + rest[..|rest| - 1];
      ExecJoin(s, h, t, rest[..|rest| - 1]);
    }
  }

  /** The last step of a run that goes on with `rest`. */
  lemma LastStep(s: State, h: seq<Action>, rest: seq<Action>)
    requires Exec(s, h + rest).Some? && rest != []
    ensures var before := Exec(s, h + rest[..|rest| - 1]);
            && before.Some? && Enabled(before.value, rest[|rest| - 1])
            && Exec(s, h + rest) == Some(Step(before.value, rest[|rest| - 1]))
  {
    assert (h + rest)[..|h + rest| - 1] == h + rest[..|rest| - 1];
  }

  // ---- the file `latest` ----------------------------------------------------------------------

  /** The step writes or removes the file `latest`. */
  predicate TouchesLatest(a: Action) {
    a.RemoveLatest? || a.RewriteLatest? || a.DropLatest? || a.CreateLatest?
  }

  /** Nobody writes or removes `latest` in the course of `rest`. */
  predicate NoTouch(rest: seq<Action>) {
    forall i :: 0 <= i < |rest| ==> !TouchesLatest(rest[i])
  }

  lemma NoTouchLast(rest: seq<Action>)
    requires rest != []
    ensures NoTouch(rest) <==> NoTouch(rest[..|rest| - 1]) && !TouchesLatest(rest[|rest| - 1])
  {
    var n := |rest| - 1;
    assert forall i :: 0 <= i < n ==> rest[..n][i] == rest[i];
  }

  /** After `h`, somebody knows `gen` to be in `latest`: its last step wrote it there or read it. */
  predicate Learns(h: seq<Action>, gen: Gen) {
    && h != [] && Run(h)
    && match h[|h| - 1]
       case CreateLatest(_, g) => g == gen
       case RewriteLatest(_, g) => g == gen
       case ReadLatest(c) => var x := After(h).value.clients; c in x && x[c].Keyed? && x[c].gen == gen
       case _ => false
  }

  /** What holds without any assumption on leases and responses. */
  ghost predicate BasicsOk(s: State) {
    && (s.latest.Some? ==> s.latest.value in s.born)
    && (forall c :: c in s.clients ==> Encodable(s.clients[c].call, ""))
  }

  lemma {:induction false} BasicsRun(h: seq<Action>)
    requires Run(h)
    ensures BasicsOk(After(h).value)
  {
    if h != [] {
      BasicsRun(h[..|h| - 1]);
      BasicsStep(After(h[..|h| - 1]).value, h[|h| - 1]);
    }
  }

  lemma BasicsStep(s: State, a: Action)
    requires BasicsOk(s) && Enabled(s, a)
    ensures BasicsOk(Step(s, a))
  {
  }

  lemma LearntIsThere(h: seq<Action>, gen: Gen)
    requires Learns(h, gen)
    ensures After(h).value.latest == Some(gen) && gen in After(h).value.born
  {
    BasicsRun(h);
  }

  lemma LatestMoves(s: State, a: Action, gen: Gen)
    requires Enabled(s, a) && gen in s.born
    ensures gen in Step(s, a).born
    ensures Step(s, a).latest == Some(gen) <==> s.latest == Some(gen) && !TouchesLatest(a)
  {
  }

  /** A generation that was written to `latest` or read from it is there at any later time if and only
      if nobody has written or removed the file since: no lease began or ended, the walker did not drop
      it, and no lookup that had found it missing made another. */
  lemma {:induction false} LatestExactly(h: seq<Action>, gen: Gen, rest: seq<Action>)
    requires Learns(h, gen) && Run(h + rest)
    ensures gen in After(h + rest).value.born
    ensures After(h + rest).value.latest == Some(gen) <==> NoTouch(rest)
    decreases |rest|
  {
    LearntIsThere(h, gen);
    if rest == [] {
      assert h + rest == h;
    } else {
      var n := |rest| - 1;
      LastStep(INIT, h, rest);
      LatestExactly(h, gen, rest[..n]);
      LatestMoves(After(h + rest[..n]).value, rest[n], gen);
      NoTouchLast(rest);
    }
  }

  // ---- cached files ---------------------------------------------------------------------------

  /** The step stores a response under `key`, or drops what is there. */
  predicate TouchesFile(s: State, a: Action, key: bytes) {
    a == DropFile(key) || (a.Store? && a.c in s.clients && s.clients[a.c].Computed? && Preimage(s.clients[a.c].call, s.clients[a.c].gen) == key)
  }

  lemma FileMoves(s: State, a: Action, key: bytes)
    requires Enabled(s, a)
    ensures var t := Step(s, a);
            && (!TouchesFile(s, a, key) ==> (key in t.files <==> key in s.files) && (key in s.files ==> t.files[key] == s.files[key]))
            && (a == DropFile(key) ==> key !in t.files)
            && (TouchesFile(s, a, key) && a.Store? ==> key in t.files && t.files[key] == s.clients[a.c].response)
  {
  }

  /** No step of `rest`, taken from `s`, touches `key`. */
  predicate Untouched(s: State, rest: seq<Action>, key: bytes) {
    rest == [] ||
      var before := Exec(s, rest[..|rest| - 1]);
      before.Some? && !TouchesFile(before.value, rest[|rest| - 1], key) && Untouched(s, rest[..|rest| - 1], key)
  }

  lemma {:induction false} FileStaysPut(s: State, rest: seq<Action>, key: bytes)
    requires Exec(s, rest).Some? && Untouched(s, rest, key)
    ensures var t := Exec(s, rest).value; (key in t.files <==> key in s.files) && (key in s.files ==> t.files[key] == s.files[key])
    decreases |rest|
  {
    if rest != [] {
      FileStaysPut(s, rest[..|rest| - 1], key);
      FileMoves(Exec(s, rest[..|rest| - 1]).value, rest[|rest| - 1], key);
    }
  }

  /** An undisturbed lookup, when no lease is pending and `latest` exists: it is served exactly what is
      cached for its call under that generation. */
  lemma LookupExactly(s: State, d: ClientId, call: Call) returns (t: State)
    requires d !in s.clients && Encodable(call, "") && s.pending == map[] && s.latest.Some?
    ensures Exec(s, Lookup(d, call) + [Open(d)]) == Some(t)
    ensures var key := Preimage(call, s.latest.value);
            t.clients[d] == if key in s.files then Served(call, s.Version(), s.files[key]) else Over(call, s.Version())
  {
    var u := QuietLookup(s, d, call);
    ExecThen(s, Lookup(d, call), u, Open(d));
    t := Step(u, Open(d));
  }

  /** A response that has been stored is what lookups get from then on. Somebody knows the generation at
      the end of `h`; later a client with that generation stores its response; nobody touches `latest`
      all along, nor the file after it was stored. Then, when no lease is pending, a lookup for the same
      call is served that response. */
  lemma StoredIsFound(h: seq<Action>, gen: Gen, mid: seq<Action>, c: ClientId, rest: seq<Action>, d: ClientId) returns (t: State)
    requires Learns(h, gen) && Run(h + mid) && Enabled(After(h + mid).value, Store(c)) && After(h + mid).value.clients[c].gen == gen
    requires var stored, x := Step(After(h + mid).value, Store(c)), After(h + mid).value.clients[c];
             Exec(stored, rest).Some? && Untouched(stored, rest, Preimage(x.call, gen))
    requires NoTouch(mid) && NoTouch(rest)
    requires var s := Exec(Step(After(h + mid).value, Store(c)), rest).value; d !in s.clients && s.pending == map[]
    ensures var x, s := After(h + mid).value.clients[c], Exec(Step(After(h + mid).value, Store(c)), rest).value;
            && After(h + mid + [Store(c)] + rest) == Some(s)
            && Exec(s, Lookup(d, x.call) + [Open(d)]) == Some(t) && t.clients[d] == Served(x.call, s.Version(), x.response)
  {
    var u := After(h + mid).value;
    var stored, key := Step(u, Store(c)), Preimage(u.clients[c].call, gen);
    var s := Exec(stored, rest).value;
    BasicsRun(h + mid);
    ExecThen(INIT, h + mid, u, Store(c));
    ExecJoin(INIT, h + mid + [Store(c)], stored, rest);
    LatestExactly(h, gen, mid);
    LatestStays(stored, rest);
    FileStaysPut(stored, rest, key);
    t := LookupExactly(s, d, u.clients[c].call);
  }

  lemma {:induction false} LatestStays(s: State, rest: seq<Action>)
    requires Exec(s, rest).Some? && NoTouch(rest)
    ensures Exec(s, rest).value.latest == s.latest
    decreases |rest|
  {
    if rest != [] {
      NoTouchLast(rest);
      LatestStays(s, rest[..|rest| - 1]);
      LatestUntouched(Exec(s, rest[..|rest| - 1]).value, rest[|rest| - 1]);
    }
  }

  lemma LatestUntouched(s: State, a: Action)
    requires Enabled(s, a) && !TouchesLatest(a)
    ensures Step(s, a).latest == s.latest
  {
  }

  // ---- the first store of a repository --------------------------------------------------------

  /** PutStream on its own, when `latest` is missing. */
  function FirstPut(c: ClientId, call: Call, gen: Gen, v: nat): seq<Action> {
    [Begin(c, Put, call), ScanStart(c), ScanEmpty(c), ReadLatest(c), CreateLatest(c, gen), Compute(c, v), Store(c)]
  }

  lemma PutKeyed(s: State, c: ClientId, call: Call, gen: Gen)
    requires c !in s.clients && Encodable(call, "") && s.pending == map[] && s.latest.None? && gen !in s.born && |gen| < LIMIT
    ensures Exec(s, [Begin(c, Put, call), ScanStart(c), ScanEmpty(c), ReadLatest(c), CreateLatest(c, gen)]) ==
              Some(SetClient(s.(latest := Some(gen), born := s.born[gen := s.Version()]), c, Keyed(Put, call, s.Version(), gen, s.Version())))
  {
    var h := [Begin(c, Put, call), ScanStart(c), ScanEmpty(c)];
    QuietScanned(s, c, Put, call);
    var s1 := SetClient(s, c, Scanned(Put, call, s.Version()));
    var s2 := SetClient(s, c, LatestMissing(Put, call, s.Version()));
    assert Step(s1, ReadLatest(c)) == s2;
    ExecThen(s, h, s1, ReadLatest(c));
    ExecThen(s, h + [ReadLatest(c)], s2, CreateLatest(c, gen));
    assert h + [ReadLatest(c)] + [CreateLatest(c, gen)] ==
           [Begin(c, Put, call), ScanStart(c), ScanEmpty(c), ReadLatest(c), CreateLatest(c, gen)];
    assert s2.clients[c := Keyed(Put, call, s.Version(), gen, s.Version())] ==
           s.clients[c := Keyed(Put, call, s.Version(), gen, s.Version())];
  }

  /** The first store of a repository works. From any state in which `latest` is missing and no lease is
      pending, a PutStream that runs on its own makes a generation, and the next lookup for the same call
      reads it from `latest` and is served the response. */
  lemma FirstStoreIsServed(s: State, c: ClientId, call: Call, gen: Gen, d: ClientId) returns (t: State)
    requires s.pending == map[] && s.latest.None? && c !in s.clients && d !in s.clients && c != d
    requires Encodable(call, "") && gen !in s.born && |gen| < LIMIT
    ensures Exec(s, FirstPut(c, call, gen, s.Version()) + Lookup(d, call) + [Open(d)]) == Some(t)
    ensures t.clients[d] == Served(call, s.Version(), Response(call, s.Version()))
  {
    var v := s.Version();
    var h := [Begin(c, Put, call), ScanStart(c), ScanEmpty(c), ReadLatest(c), CreateLatest(c, gen)];
    PutKeyed(s, c, call, gen);
    var s1 := SetClient(s.(latest := Some(gen), born := s.born[gen := v]), c, Keyed(Put, call, v, gen, v));
    ExecThen(s, h, s1, Compute(c, v));
    var s2 := Step(s1, Compute(c, v));
    ExecThen(s, h + [Compute(c, v)], s2, Store(c));
    assert h + [Compute(c, v)] + [Store(c)] == FirstPut(c, call, gen, v);
    var s3 := Step(s2, Store(c));
    t := LookupExactly(s3, d, call);
    ExecJoin(s, FirstPut(c, call, gen, v), s3, Lookup(d, call) + [Open(d)]);
    assert FirstPut(c, call, gen, v) + (Lookup(d, call) + [Open(d)]) == FirstPut(c, call, gen, v) + Lookup(d, call) + [Open(d)];
  }

  // ---- leases ---------------------------------------------------------------------------------

  /** The seconds that pass in the course of `h`. */
  function Elapsed(h: seq<Action>): nat {
    if h == [] then 0 else Elapsed(h[..|h| - 1]) + (if h[|h| - 1].Tick? then h[|h| - 1].seconds else 0)
  }

  lemma PendingMoves(s: State, a: Action, l: LeaseId)
    requires Enabled(s, a) && l in s.leases && s.leases[l] != LatestRemoved
    ensures var t := Step(s, a);
            && l in t.leases && t.leases[l] != LatestRemoved
            && t.now == s.now + (if a.Tick? then a.seconds else 0)
            && (l in t.pending <==> l in s.pending && a != RemovePending(l) && a != DropPending(l))
            && (l in t.pending ==> t.pending[l] == s.pending[l])
  {
  }

  /** A lease's pending file is there, after the lease has begun, if and only if neither the lease nor a
      sweep has removed it; and it counts as stale if and only if an hour has passed. */
  lemma {:induction false} PendingExactly(h: seq<Action>, l: LeaseId, rest: seq<Action>)
    requires Run(h + [CreatePending(l)] + rest)
    ensures var s := After(h + [CreatePending(l)] + rest).value;
            && l in s.leases && s.leases[l] != LatestRemoved && Run(h) && s.now == After(h).value.now + Elapsed(rest)
            && (l in s.pending <==> RemovePending(l) !in rest && DropPending(l) !in rest)
            && (l in s.pending ==> s.pending[l] == After(h).value.now && (Stale(s, l) <==> Elapsed(rest) >= 3600))
    decreases |rest|
  {
    var h1 := h + [CreatePending(l)];
    if rest == [] {
      assert h1 + rest == h1 && h1[..|h1| - 1] == h;
    } else {
      var n := |rest| - 1;
      LastStep(INIT, h1, rest);
      PendingExactly(h, l, rest[..n]);
      PendingMoves(After(h1 + rest[..n]).value, rest[n], l);
      assert rest == rest[..n] + [rest[n]];
    }
  }

  /** A call that met a lease, that failed, or that has stored its response is over for good: it is served
      nothing and stores nothing any more. */
  lemma {:induction false} OverForGood(h: seq<Action>, a: Action, rest: seq<Action>)
    requires (a.ScanFound? || a.Fail? || a.Store?) && Run(h + [a] + rest)
    ensures Run(h) && a.c in After(h).value.clients
    ensures var s, x := After(h + [a] + rest).value, After(h).value.clients[a.c];
            a.c in s.clients && s.clients[a.c] == Over(x.call, x.begin)
    decreases |rest|
  {
    var h1 := h + [a];
    if rest == [] {
      assert h1 + rest == h1 && h1[..|h1| - 1] == h;
    } else {
      LastStep(INIT, h1, rest);
      OverForGood(h, a, rest[..|rest| - 1]);
      OverStays(After(h1 + rest[..|rest| - 1]).value, rest[|rest| - 1], a.c);
    }
  }

  lemma OverStays(s: State, a: Action, c: ClientId)
    requires Enabled(s, a) && c in s.clients && s.clients[c].Over?
    ensures c in Step(s, a).clients && Step(s, a).clients[c] == s.clients[c]
  {
  }

  // ---- listings -------------------------------------------------------------------------------

  /** Nobody but the environment acts for `c` in the course of `rest`. */
  predicate Idle(rest: seq<Action>, c: ClientId) {
    forall i :: 0 <= i < |rest| ==> !ActsFor(rest[i], c)
  }

  predicate ActsFor(a: Action, c: ClientId) {
    match a
    case Begin(d, _, _) => d == c
    case ScanStart(d) => d == c
    case ScanEmpty(d) => d == c
    case ScanFound(d) => d == c
    case ReadLatest(d) => d == c
    case CreateLatest(d, _) => d == c
    case Open(d) => d == c
    case Compute(d, _) => d == c
    case Store(d) => d == c
    case Fail(d) => d == c
    case _ => false
  }

  lemma ListingMoves(s: State, a: Action, c: ClientId, l: LeaseId)
    requires Enabled(s, a) && !ActsFor(a, c) && c in s.clients && s.clients[c].Scanning?
    ensures c in Step(s, a).clients && Step(s, a).clients[c].Scanning?
    ensures l in Step(s, a).clients[c].must <==> l in s.clients[c].must && a != RemovePending(l) && a != DropPending(l)
  {
  }

  lemma {:induction false} ListingExactly(h: seq<Action>, c: ClientId, rest: seq<Action>, l: LeaseId)
    requires Run(h + [ScanStart(c)] + rest) && Idle(rest, c)
    ensures Run(h)
    ensures var s := After(h + [ScanStart(c)] + rest).value;
            && c in s.clients && s.clients[c].Scanning?
            && (l in s.clients[c].must <==> l in After(h).value.pending && RemovePending(l) !in rest && DropPending(l) !in rest)
    decreases |rest|
  {
    var h1 := h + [ScanStart(c)];
    if rest == [] {
      assert h1 + rest == h1 && h1[..|h1| - 1] == h;
    } else {
      var n := |rest| - 1;
      assert rest == rest[..n] + [rest[n]];
      assert Idle(rest[..n], c) && !ActsFor(rest[n], c);
      LastStep(INIT, h1, rest);
      ListingExactly(h, c, rest[..n], l);
      ListingMoves(After(h1 + rest[..n]).value, rest[n], c, l);
    }
  }

  /** A lookup can go on after its listing if and only if every lease that was pending when the listing
      began has had its pending file removed since, or is stale; at any time it may also give up. */
  lemma GoesOnExactly(h: seq<Action>, c: ClientId, rest: seq<Action>)
    requires Run(h + [ScanStart(c)] + rest) && Idle(rest, c)
    ensures Run(h)
    ensures var s := After(h + [ScanStart(c)] + rest).value;
            && Enabled(s, ScanFound(c)) && Enabled(s, Fail(c))
            && (Enabled(s, ScanEmpty(c)) <==>
                  forall l :: l in After(h).value.pending ==> RemovePending(l) in rest || DropPending(l) in rest || Stale(s, l))
  {
    ListingExactly(h, c, rest, 0);
    var s, pending := After(h + [ScanStart(c)] + rest).value, After(h).value.pending;
    forall l ensures l in s.clients[c].must <==> l in pending && RemovePending(l) !in rest && DropPending(l) !in rest {
      ListingExactly(h, c, rest, l);
    }
  }

  // ---- abandoned leases -----------------------------------------------------------------------

  lemma {:induction false} DropAll(s: State) returns (h: seq<Action>, t: State)
    requires forall l :: l in s.pending ==> Stale(s, l)
    ensures Exec(s, h) == Some(t) && t.pending == map[] && t.latest == s.latest && t.files == s.files && t.mutations == s.mutations
    ensures t.clients.Keys == s.clients.Keys && t.born == s.born
    decreases |s.pending|
  {
    if s.pending == map[] {
      h, t := [], s;
    } else {
      var l :| l in s.pending;
      var s1 := Step(s, DropPending(l));
      assert |s1.pending| < |s.pending| by { assert s1.pending.Keys == s.pending.Keys - {l}; KeysLess(s.pending, s1.pending, l); }
      ExecThen(s, [], s, DropPending(l));
      var rest;
      rest, t := DropAll(s1);
      ExecJoin(s, [] + [DropPending(l)], s1, rest);
      h := [] + [DropPending(l)] + rest;
    }
  }

  lemma KeysLess<V>(m: map<LeaseId, V>, n: map<LeaseId, V>, l: LeaseId)
    requires l in m && n.Keys == m.Keys - {l}
    ensures |n| < |m|
  {
    assert |n| == |n.Keys| && |m| == |m.Keys|;
  }

  /** A lease that never ends blocks lookups for an hour and no longer: from any state, an hour and a sweep
      later no pending file is left, and nothing else has changed; so the next lookup goes on. */
  lemma AbandonedLeasesExpire(s: State) returns (h: seq<Action>, t: State)
    requires forall l :: l in s.pending ==> s.pending[l] <= s.now
    ensures Exec(s, [Tick(3600)] + h) == Some(t) && t.pending == map[]
    ensures t.latest == s.latest && t.files == s.files && t.mutations == s.mutations && t.clients.Keys == s.clients.Keys && t.born == s.born
  {
    var later := Step(s, Tick(3600));
    ExecThen(s, [], s, Tick(3600));
    assert [] + [Tick(3600)] == [Tick(3600)];
    h, t := DropAll(later);
    ExecJoin(s, [Tick(3600)], later, h);
  }
}
