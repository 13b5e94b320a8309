/** The disk cache's lease protocol (internal/cache/keyer.go, internal/cache/diskcache.go), as a
    machine of the file-system steps that lookups, stores, mutators and the cleanup walker take.

    One repository is modelled. A directory listing is not atomic: it must report the pending files
    that exist from its beginning to its end, and may miss the others. */
module DiskCache {
  import opened Prelude
  import opened CacheKey

  type Gen = bytes
  type ClientId = nat
  type LeaseId = nat

  /** Seconds after which a pending file counts as stale. */
  const STALE_AGE: nat := 3600

  datatype Kind = Get | Put

  /** A cached response: which call it answers, and which repository version it was computed from. */
  datatype Response = Response(call: Call, version: nat)

  /** A GetStream or PutStream call, by how far it has come. `begin` is the repository version when
      the call was made. */
  datatype Client =
    | Called(kind: Kind, call: Call, begin: nat)
    | Scanning(kind: Kind, call: Call, begin: nat, must: set<LeaseId>)
    | Scanned(kind: Kind, call: Call, begin: nat)
    | LatestMissing(kind: Kind, call: Call, begin: nat)
    | Keyed(kind: Kind, call: Call, begin: nat, gen: Gen, keyedAt: nat)
    | Computed(call: Call, begin: nat, gen: Gen, keyedAt: nat, response: Response)
    | Served(call: Call, begin: nat, response: Response)
    | Over(call: Call, begin: nat)

  /** A lease, by the steps taken: `latest` removed, pending file created, `latest` rewritten,
      pending file removed. */
  datatype Lease = LatestRemoved | Held | Updated | Ended

  datatype State = State(
    mutations: seq<LeaseId>,         // who made each change; the version is how many there are
    latest: Option<Gen>,             // the file `latest`
    born: map<Gen, nat>,             // every generation ever written, with the version at that time
    pending: map<LeaseId, nat>,      // the files in `pending`, with their modification time
    leases: map<LeaseId, Lease>,
    clients: map<ClientId, Client>,
    files: map<bytes, Response>,     // the cached files, by the byte string hashed into their path
    now: nat
  ) {
    function Version(): nat { |mutations| }
  }

  datatype Action =
    // GetStream and PutStream
    | Begin(c: ClientId, kind: Kind, call: Call)
    | ScanStart(c: ClientId)
    | ScanEmpty(c: ClientId)
    | ScanFound(c: ClientId)
    | ReadLatest(c: ClientId)
    | CreateLatest(c: ClientId, gen: Gen)
    | Open(c: ClientId)
    | Compute(c: ClientId, version: nat)
    | Store(c: ClientId)
    | Fail(c: ClientId)
    // StartLease, the mutation, EndLease
    | RemoveLatest(l: LeaseId)
    | CreatePending(l: LeaseId)
    | Mutate(l: LeaseId)
    | RewriteLatest(l: LeaseId, gen: Gen)
    | RemovePending(l: LeaseId)
    // the walker, the stale-lease sweep and the clock
    | DropLatest
    | DropFile(key: bytes)
    | DropPending(l: LeaseId)
    | Tick(seconds: nat)

  const INIT: State := State([], None, map[], map[], map[], map[], map[], 0)

  predicate Stale(s: State, l: LeaseId) {
    l in s.pending && s.now - s.pending[l] >= STALE_AGE
  }

  /** Assumption on mutators: a lease rewrites `latest` before its pending file counts as stale. */
  predicate LeasesShort(s: State) {
    forall l :: l in s.leases && s.leases[l] == Held ==> !Stale(s, l)
  }

  /** Assumption on callers of PutStream: the response was computed after KeyPath returned. */
  predicate ResponsesLate(s: State) {
    forall c :: c in s.clients && s.clients[c].Computed? ==> s.clients[c].keyedAt <= s.clients[c].response.version
  }

  /** What that is for: the response is no older than the generation it will be filed under. */
  predicate ResponsesFresh(s: State) {
    forall c :: c in s.clients && s.clients[c].Computed? && s.clients[c].gen in s.born ==>
      s.born[s.clients[c].gen] <= s.clients[c].response.version
  }

  predicate LeaseIs(s: State, l: LeaseId, lease: Lease) {
    l in s.leases && s.leases[l] == lease
  }

  predicate Enabled(s: State, a: Action) {
    match a
    case Begin(c, kind, call) => c !in s.clients && Encodable(call, "")
    case ScanStart(c) => c in s.clients && s.clients[c].Called?
    case ScanEmpty(c) => c in s.clients && s.clients[c].Scanning? && forall l :: l in s.clients[c].must ==> Stale(s, l)
    case ScanFound(c) => c in s.clients && s.clients[c].Scanning?
    case ReadLatest(c) => c in s.clients && s.clients[c].Scanned?
    case CreateLatest(c, gen) => c in s.clients && s.clients[c].LatestMissing? && gen !in s.born && |gen| < LIMIT
    case Open(c) => c in s.clients && s.clients[c].Keyed? && s.clients[c].kind.Get?
    case Compute(c, version) =>
      c in s.clients && s.clients[c].Keyed? && s.clients[c].kind.Put? && s.clients[c].begin <= version <= s.Version()
    case Store(c) => c in s.clients && s.clients[c].Computed?
    case Fail(c) => c in s.clients && !s.clients[c].Served?
    case RemoveLatest(l) => l !in s.leases
    case CreatePending(l) => LeaseIs(s, l, LatestRemoved)
    case Mutate(l) => LeaseIs(s, l, Held)
    case RewriteLatest(l, gen) => LeaseIs(s, l, Held) && gen !in s.born && |gen| < LIMIT
    case RemovePending(l) => LeaseIs(s, l, Updated)
    case DropLatest => true
    case DropFile(key) => true
    case DropPending(l) => Stale(s, l)
    case Tick(_) => true
  }

  function SetClient(s: State, c: ClientId, client: Client): State {
    s.(clients := s.clients[c := client])
  }

  function WriteLatest(s: State, gen: Gen): State {
    s.(latest := Some(gen), born := s.born[gen := s.Version()])
  }

  /** Removing a pending file also takes it out of what running listings must report. */
  function ErasePending(s: State, l: LeaseId): State {
    s.(pending := s.pending - {l},
       clients := map c | c in s.clients ::
         if s.clients[c].Scanning? then s.clients[c].(must := s.clients[c].must - {l}) else s.clients[c])
  }

  function Step(s: State, a: Action): State
    requires Enabled(s, a)
  {
    match a
    case Begin(c, kind, call) => SetClient(s, c, Called(kind, call, s.Version()))
    case ScanStart(c) =>
      var x := s.clients[c]; SetClient(s, c, Scanning(x.kind, x.call, x.begin, s.pending.Keys))
    case ScanEmpty(c) =>
      var x := s.clients[c]; SetClient(s, c, Scanned(x.kind, x.call, x.begin))
    case ScanFound(c) =>
      var x := s.clients[c]; SetClient(s, c, Over(x.call, x.begin))
    case ReadLatest(c) =>
      var x := s.clients[c];
      SetClient(s, c, match s.latest
                      case None => LatestMissing(x.kind, x.call, x.begin)
                      case Some(gen) => Keyed(x.kind, x.call, x.begin, gen, s.Version()))
    case CreateLatest(c, gen) =>
      var x := s.clients[c]; SetClient(WriteLatest(s, gen), c, Keyed(x.kind, x.call, x.begin, gen, s.Version()))
    case Open(c) =>
      var x := s.clients[c]; var key := Preimage(x.call, x.gen);
      SetClient(s, c, if key in s.files then Served(x.call, x.begin, s.files[key]) else Over(x.call, x.begin))
    case Compute(c, version) =>
      var x := s.clients[c];
      SetClient(s, c, Computed(x.call, x.begin, x.gen, x.keyedAt, Response(x.call, version)))
    case Store(c) =>
      var x := s.clients[c];
      SetClient(s, c, Over(x.call, x.begin)).(files := s.files[Preimage(x.call, x.gen) := x.response])
    case Fail(c) =>
      var x := s.clients[c]; SetClient(s, c, Over(x.call, x.begin))
    case RemoveLatest(l) => s.(latest := None, leases := s.leases[l := LatestRemoved])
    case CreatePending(l) => s.(pending := s.pending[l := s.now], leases := s.leases[l := Held])
    case Mutate(l) => s.(mutations := s.mutations + [l])
    case RewriteLatest(l, gen) => WriteLatest(s, gen).(leases := s.leases[l := Updated])
    case RemovePending(l) => ErasePending(s, l).(leases := s.leases[l := Ended])
    case DropLatest => s.(latest := None)
    case DropFile(key) => s.(files := s.files - {key})
    case DropPending(l) => ErasePending(s, l)
    case Tick(seconds) => s.(now := s.now + seconds)
  }

  /** A listed pending file, with its age when the loop comes to it. */
  datatype Listed = Listed(lease: LeaseId, age: nat)

  datatype Swept = Clear | PendingExists | RemoveFailed

  predicate TooOld(x: Listed) {
    x.age > STALE_AGE
  }

  /** keyPath's loop over a listing, where removing one of the `stuck` files fails. The lookup goes on
      only when every listed file was too old and could be removed; the removed files are too old,
      and unless a removal failed they are all those that are. */
  method SweepPending(listing: seq<Listed>, stuck: set<LeaseId>) returns (r: Swept, removed: seq<LeaseId>)
    ensures r.Clear? <==> forall i :: 0 <= i < |listing| ==> TooOld(listing[i]) && listing[i].lease !in stuck
    ensures r.RemoveFailed? <==> exists i :: 0 <= i < |listing| && TooOld(listing[i]) && listing[i].lease in stuck
    ensures forall l :: l in removed ==> l !in stuck && exists i :: 0 <= i < |listing| && TooOld(listing[i]) && listing[i].lease == l
    ensures !r.RemoveFailed? ==> forall i :: 0 <= i < |listing| && TooOld(listing[i]) ==> listing[i].lease in removed
  {
    var anyValid := false;
    removed := [];
    for i := 0 to |listing|
      invariant anyValid <==> exists k :: 0 <= k < i && !TooOld(listing[k])
      invariant forall k :: 0 <= k < i && TooOld(listing[k]) ==> listing[k].lease in removed && listing[k].lease !in stuck
      invariant forall l :: l in removed ==> l !in stuck && exists k :: 0 <= k < i && TooOld(listing[k]) && listing[k].lease == l
    {
      if TooOld(listing[i]) {
        if listing[i].lease in stuck { return RemoveFailed, removed; }
        removed := removed + [listing[i].lease];
      } else {
        anyValid := true;
      }
    }
    r := if anyValid then PendingExists else Clear;
  }

  /** When a sweep finds the listing clear, the machine's lookup may go on: the listing has every file
      that it must have, and no file is younger now than it was when the loop came to it. */
  lemma ClearEnables(s: State, c: ClientId, listing: seq<Listed>)
    requires c in s.clients && s.clients[c].Scanning?
    requires forall l :: l in s.clients[c].must ==> l in s.pending && exists i :: 0 <= i < |listing| && listing[i].lease == l
    requires forall i :: 0 <= i < |listing| && listing[i].lease in s.pending ==> listing[i].age <= s.now - s.pending[listing[i].lease]
    requires forall i :: 0 <= i < |listing| ==> TooOld(listing[i])
    ensures Enabled(s, ScanEmpty(c))
  {
  }

  // ---- runs -----------------------------------------------------------------------------------

  /** Where a list of steps leads from `s`, or None when one of them is not enabled. */
  function Exec(s: State, h: seq<Action>): Option<State> {
    if h == [] then Some(s)
    else
      var before := Exec(s, h[..|h| - 1]);
      if before.Some? && Enabled(before.value, h[|h| - 1]) then Some(Step(before.value, h[|h| - 1])) else None
  }

  function After(h: seq<Action>): Option<State> {
    Exec(INIT, h)
  }

  predicate Run(h: seq<Action>) {
    After(h).Some?
  }

  /** The first assumption in every state of a run. */
  predicate AlwaysShort(h: seq<Action>) {
    Run(h) ==> LeasesShort(After(h).value) && (h != [] ==> AlwaysShort(h[..|h| - 1]))
  }

  /** The second assumption in every state of a run. */
  predicate AlwaysLate(h: seq<Action>) {
    Run(h) ==> ResponsesLate(After(h).value) && (h != [] ==> AlwaysLate(h[..|h| - 1]))
  }

  /** The same for the weaker condition on responses. */
  predicate AlwaysFresh(h: seq<Action>) {
    Run(h) ==> ResponsesFresh(After(h).value) && (h != [] ==> AlwaysFresh(h[..|h| - 1]))
  }

  // ---- the invariant --------------------------------------------------------------------------

  /** The lease that made change number `m` (counting from one) has not rewritten `latest` yet. */
  ghost predicate Unpublished(s: State, m: nat)
    requires 1 <= m <= s.Version()
  {
    LeaseIs(s, s.mutations[m - 1], Held)
  }

  ghost predicate LeasesOk(s: State) {
    && (forall l :: l in s.pending ==> l in s.leases && s.leases[l] != LatestRemoved)
    && (forall l :: LeaseIs(s, l, Held) ==> l in s.pending)
    && (forall m :: 0 <= m < |s.mutations| ==> s.mutations[m] in s.leases && s.leases[s.mutations[m]] != LatestRemoved)
  }

  /** Whatever changed after the generation in `latest` was written is still unpublished. */
  ghost predicate LatestOk(s: State) {
    s.latest.Some? ==>
      && s.latest.value in s.born
      && forall m :: s.born[s.latest.value] < m <= s.Version() ==> Unpublished(s, m)
  }

  ghost predicate GensOk(s: State) {
    forall g :: g in s.born ==> s.born[g] <= s.Version() && |g| < LIMIT
  }

  /** A response filed for `call` and generation `g` answers `call` and is no older than `g`. */
  ghost predicate FileOk(s: State, call: Call, g: Gen) {
    Encodable(call, g) ==> FileAtOk(s, Preimage(call, g), call, g)
  }

  ghost predicate FileAtOk(s: State, key: bytes, call: Call, g: Gen) {
    key in s.files ==> s.files[key].call == call && g in s.born && s.born[g] <= s.files[key].version
  }

  ghost predicate FilesOk(s: State) {
    forall call, g :: FileOk(s, call, g)
  }

  ghost predicate ClientOk(s: State, x: Client) {
    && x.begin <= s.Version()
    && Encodable(x.call, "")
    && match x
       case Called(_, _, _) => true
       case Scanning(_, _, begin, must) =>
         forall m :: 1 <= m <= begin && Unpublished(s, m) ==> s.mutations[m - 1] in must
       case Scanned(_, _, begin) =>
         forall m :: 1 <= m <= begin ==> !Unpublished(s, m)
       case LatestMissing(_, _, begin) => true
       case Keyed(_, _, begin, gen, keyedAt) => gen in s.born && begin <= s.born[gen] <= keyedAt <= s.Version()
       case Computed(call, begin, gen, keyedAt, r) => gen in s.born && s.born[gen] <= keyedAt && r.call == call
       case Served(call, begin, r) => r.call == call && begin <= r.version
       case Over(_, _) => true
  }

  ghost predicate ClientsOk(s: State) {
    forall c :: c in s.clients ==> ClientOk(s, s.clients[c])
  }

  ghost predicate Inv(s: State) {
    && LeasesOk(s) && LatestOk(s) && GensOk(s) && FilesOk(s) && ClientsOk(s)
  }

  // ---- every step keeps the invariant ---------------------------------------------------------

  lemma GensStep(s: State, a: Action)
    requires GensOk(s) && Enabled(s, a)
    ensures GensOk(Step(s, a))
  {
  }

  lemma LeasesStep(s: State, a: Action)
    requires LeasesOk(s) && Enabled(s, a) && LeasesShort(s)
    ensures LeasesOk(Step(s, a))
  {
    var t := Step(s, a);
    forall l | LeaseIs(t, l, Held) ensures l in t.pending {
      assert a.CreatePending? || LeaseIs(s, l, Held);
    }
    forall m | 0 <= m < |t.mutations| ensures t.mutations[m] in t.leases && t.leases[t.mutations[m]] != LatestRemoved {
      assert m < |s.mutations| ==> s.mutations[m] in s.leases;
    }
  }

  /** A change is published once and for all, and only by rewriting `latest`. */
  lemma PublishedStep(s: State, a: Action, m: nat)
    requires LeasesOk(s) && Enabled(s, a) && 1 <= m <= s.Version()
    ensures m <= Step(s, a).Version() && Step(s, a).mutations[m - 1] == s.mutations[m - 1]
    ensures Unpublished(Step(s, a), m) ==> Unpublished(s, m)
    ensures !a.RewriteLatest? && Unpublished(s, m) ==> Unpublished(Step(s, a), m)
  {
  }

  lemma LatestStep(s: State, a: Action)
    requires LeasesOk(s) && LatestOk(s) && GensOk(s) && Enabled(s, a)
    ensures LatestOk(Step(s, a))
  {
    var t := Step(s, a);
    if t.latest.Some? && t.latest == s.latest {
      forall m | t.born[t.latest.value] < m <= t.Version()
        ensures Unpublished(t, m)
      {
        if m <= s.Version() { PublishedStep(s, a, m); }
      }
    }
  }

  lemma StoreAtOk(s: State, t: State, x: Client, xkey: bytes, key: bytes, call: Call, g: Gen)
    requires x.Computed? && x.response.call == x.call && x.gen in s.born && s.born[x.gen] <= x.response.version
    requires FileAtOk(s, key, call, g) && t.files == s.files[xkey := x.response] && t.born == s.born
    requires key == xkey <==> call == x.call && g == x.gen
    ensures FileAtOk(t, key, call, g)
  {
  }

  lemma StoreOk(s: State, c: ClientId, call: Call, g: Gen)
    requires FileOk(s, call, g) && GensOk(s) && Enabled(s, Store(c)) && ResponsesFresh(s)
    requires ClientOk(s, s.clients[c])
    ensures FileOk(Step(s, Store(c)), call, g)
  {
    var x := s.clients[c];
    if Encodable(call, g) {
      PreimageInjective(call, g, x.call, x.gen);
      StoreAtOk(s, Step(s, Store(c)), x, Preimage(x.call, x.gen), Preimage(call, g), call, g);
    }
  }

  /** The other steps add no file and forget no generation. */
  lemma FileStays(s: State, t: State, call: Call, g: Gen)
    requires FileOk(s, call, g)
    requires forall k :: k in t.files ==> k in s.files && t.files[k] == s.files[k]
    requires forall b :: b in s.born ==> b in t.born && t.born[b] == s.born[b]
    ensures FileOk(t, call, g)
  {
  }

  lemma FileStep(s: State, a: Action, call: Call, g: Gen)
    requires FileOk(s, call, g) && GensOk(s) && ClientsOk(s) && Enabled(s, a) && ResponsesFresh(s)
    ensures FileOk(Step(s, a), call, g)
  {
    if a.Store? {
      StoreOk(s, a.c, call, g);
    } else {
      FileStays(s, Step(s, a), call, g);
    }
  }

  /** A client that takes no step of its own stays as it should be. */
  lemma ClientStays(s: State, a: Action, x: Client)
    requires LeasesOk(s) && GensOk(s) && Enabled(s, a) && ClientOk(s, x)
    ensures ClientOk(Step(s, a), x)
  {
    forall m | 1 <= m <= s.Version()
      ensures Unpublished(Step(s, a), m) ==> Unpublished(s, m)
      ensures Step(s, a).mutations[m - 1] == s.mutations[m - 1]
    {
      PublishedStep(s, a, m);
    }
  }

  /** A running listing loses only the pending files of leases that published their changes. */
  lemma ListingShrinks(s: State, a: Action, c: ClientId)
    requires LeasesOk(s) && GensOk(s) && ClientsOk(s) && Enabled(s, a) && LeasesShort(s)
    requires (a.RemovePending? || a.DropPending?) && c in s.clients
    ensures ClientOk(Step(s, a), Step(s, a).clients[c])
  {
    ClientStays(s, a, s.clients[c]);
  }

  /** The steps of a call up to and including the listing of pending files. */
  lemma ScanMoves(s: State, a: Action)
    requires LeasesOk(s) && Enabled(s, a) && LeasesShort(s)
    requires a.Begin? || a.ScanStart? || a.ScanEmpty? || a.ScanFound?
    requires !a.Begin? ==> ClientOk(s, s.clients[a.c])
    ensures ClientOk(Step(s, a), Step(s, a).clients[a.c])
  {
    if a.ScanEmpty? {
      var x, must := s.clients[a.c], s.clients[a.c].must;
      forall m | 1 <= m <= x.begin
        ensures !Unpublished(Step(s, a), m)
      {
        var l := s.mutations[m - 1];
        assert Unpublished(s, m) ==> l in must;
      }
    }
  }

  /** After a listing without pending leases, `latest` names a generation no older than the call. */
  lemma ReadLatestMoves(s: State, c: ClientId)
    requires LatestOk(s) && GensOk(s) && Enabled(s, ReadLatest(c)) && ClientOk(s, s.clients[c])
    ensures ClientOk(Step(s, ReadLatest(c)), Step(s, ReadLatest(c)).clients[c])
  {
    if s.clients[c].begin >= 1 {
      assert !Unpublished(s, s.clients[c].begin);
    }
  }

  /** The steps of a call after the listing. */
  lemma KeyMoves(s: State, a: Action)
    requires a.CreateLatest? || a.Compute? || a.Store? || a.Fail?
    requires GensOk(s) && Enabled(s, a) && ClientOk(s, s.clients[a.c])
    ensures ClientOk(Step(s, a), Step(s, a).clients[a.c])
  {
  }

  lemma OpenMoves(s: State, c: ClientId)
    requires GensOk(s) && Enabled(s, Open(c)) && ClientOk(s, s.clients[c])
    requires FileOk(s, s.clients[c].call, s.clients[c].gen)
    ensures ClientOk(Step(s, Open(c)), Step(s, Open(c)).clients[c])
  {
  }

  /** A client that takes a step. */
  lemma ClientMoves(s: State, a: Action, c: ClientId)
    requires Inv(s) && Enabled(s, a) && LeasesShort(s)
    requires c in Step(s, a).clients && (c in s.clients ==> Step(s, a).clients[c] != s.clients[c])
    requires !a.RemovePending? && !a.DropPending?
    ensures ClientOk(Step(s, a), Step(s, a).clients[c])
  {
    if a.Begin? || a.ScanStart? || a.ScanEmpty? || a.ScanFound? {
      ScanMoves(s, a);
    } else if a.ReadLatest? {
      ReadLatestMoves(s, c);
    } else if a.Open? {
      OpenMoves(s, c);
    } else {
      KeyMoves(s, a);
    }
  }

  lemma ClientsStep(s: State, a: Action)
    requires Inv(s) && Enabled(s, a) && LeasesShort(s)
    ensures ClientsOk(Step(s, a))
  {
    var t := Step(s, a);
    forall c | c in t.clients
      ensures ClientOk(t, t.clients[c])
    {
      if c in s.clients && t.clients[c] == s.clients[c] {
        ClientStays(s, a, s.clients[c]);
      } else if a.RemovePending? || a.DropPending? {
        ListingShrinks(s, a, c);
      } else {
        ClientMoves(s, a, c);
      }
    }
  }

  lemma InvStep(s: State, a: Action)
    requires Inv(s) && Enabled(s, a) && LeasesShort(s) && ResponsesFresh(s)
    ensures Inv(Step(s, a))
  {
    GensStep(s, a);
    LeasesStep(s, a);
    LatestStep(s, a);
    ClientsStep(s, a);
    forall call, g ensures FileOk(Step(s, a), call, g) {
      FileStep(s, a, call, g);
    }
  }

  lemma {:induction false} InvRun(h: seq<Action>)
    requires Run(h) && AlwaysShort(h) && AlwaysFresh(h)
    ensures Inv(After(h).value)
  {
    if h != [] {
      InvRun(h[..|h| - 1]);
      InvStep(After(h[..|h| - 1]).value, h[|h| - 1]);
    }
  }

  /** No stale hit. Whatever the interleaving of lookups, stores, leases and deletions, a response
      that GetStream serves answers its call and was computed from a repository version at least
      as new as the one current when that GetStream was called, if every stored response is no older
      than the generation it is filed under. */
  lemma NoStaleHit(h: seq<Action>, c: ClientId)
    requires Run(h) && AlwaysShort(h) && AlwaysFresh(h)
    requires c in After(h).value.clients && After(h).value.clients[c].Served?
    ensures var x := After(h).value.clients[c]; x.response.call == x.call && x.begin <= x.response.version
  {
    InvRun(h);
    assert ClientOk(After(h).value, After(h).value.clients[c]);
  }

  /** A caller that computes its response after KeyPath has returned meets that condition. */
  lemma {:induction false} LateIsFresh(h: seq<Action>)
    requires Run(h) && AlwaysShort(h) && AlwaysLate(h)
    ensures AlwaysFresh(h)
  {
    if h != [] {
      LateIsFresh(h[..|h| - 1]);
      InvRun(h[..|h| - 1]);
      InvStep(After(h[..|h| - 1]).value, h[|h| - 1]);
      var t := After(h).value;
      forall c | c in t.clients && t.clients[c].Computed? && t.clients[c].gen in t.born
        ensures t.born[t.clients[c].gen] <= t.clients[c].response.version
      {
        assert ClientOk(t, t.clients[c]);
      }
    }
  }

  // ---- what happens when a response is stored too early ---------------------------------------

  lemma ExecThen(s: State, h: seq<Action>, t: State, a: Action)
    requires Exec(s, h) == Some(t) && Enabled(t, a)
    ensures Exec(s, h + [a]) == Some(Step(t, a))
  {
    assert (h + [a])[..|h|] == h;
  }

  lemma QuietScan(s: State, d: ClientId, kind: Kind, call: Call)
    requires d !in s.clients && Encodable(call, "") && s.pending == map[]
    ensures Exec(s, [Begin(d, kind, call), ScanStart(d)]) == Some(SetClient(s, d, Scanning(kind, call, s.Version(), {})))
  {
    var s1 := SetClient(s, d, Called(kind, call, s.Version()));
    ExecThen(s, [], s, Begin(d, kind, call));
    assert [] + [Begin(d, kind, call)] == [Begin(d, kind, call)];
    ExecThen(s, [Begin(d, kind, call)], s1, ScanStart(d));
    assert s.pending.Keys == {};
    assert Step(s1, ScanStart(d)) == SetClient(s, d, Scanning(kind, call, s.Version(), {}));
    assert [Begin(d, kind, call)] + [ScanStart(d)] == [Begin(d, kind, call), ScanStart(d)];
  }

  lemma QuietScanned(s: State, d: ClientId, kind: Kind, call: Call)
    requires d !in s.clients && Encodable(call, "") && s.pending == map[]
    ensures Exec(s, [Begin(d, kind, call), ScanStart(d), ScanEmpty(d)]) == Some(SetClient(s, d, Scanned(kind, call, s.Version())))
  {
    QuietScan(s, d, kind, call);
    var h, t := [Begin(d, kind, call), ScanStart(d)], SetClient(s, d, Scanning(kind, call, s.Version(), {}));
    ExecThen(s, h, t, ScanEmpty(d));
    assert Step(t, ScanEmpty(d)) == SetClient(s, d, Scanned(kind, call, s.Version()));
    assert h + [ScanEmpty(d)] == [Begin(d, kind, call), ScanStart(d), ScanEmpty(d)];
  }

  /** A lookup with no interference, when `latest` exists and no lease is pending. */
  lemma QuietLookup(s: State, d: ClientId, call: Call) returns (t: State)
    requires d !in s.clients && Encodable(call, "") && s.pending == map[] && s.latest.Some?
    ensures Exec(s, Lookup(d, call)) == Some(t)
    ensures t == SetClient(s, d, Keyed(Get, call, s.Version(), s.latest.value, s.Version()))
  {
    QuietScanned(s, d, Get, call);
    var h, u := [Begin(d, Get, call), ScanStart(d), ScanEmpty(d)], SetClient(s, d, Scanned(Get, call, s.Version()));
    t := SetClient(s, d, Keyed(Get, call, s.Version(), s.latest.value, s.Version()));
    ExecThen(s, h, u, ReadLatest(d));
    assert Step(u, ReadLatest(d)) == t;
    assert h + [ReadLatest(d)] == Lookup(d, call);
  }

  /** A lookup that runs on its own, up to the point where it opens the file. */
  function Lookup(d: ClientId, call: Call): seq<Action> {
    [Begin(d, Get, call), ScanStart(d), ScanEmpty(d), ReadLatest(d)]
  }

  /** A response stored under the current generation is what the next lookup gets. */
  lemma StoredThenServed(s: State, c: ClientId, d: ClientId) returns (t: State)
    requires Enabled(s, Store(c)) && d !in s.clients && s.pending == map[]
    requires Encodable(s.clients[c].call, "") && s.latest == Some(s.clients[c].gen)
    ensures var x := s.clients[c];
            && Exec(Step(s, Store(c)), Lookup(d, x.call)) == Some(t) && Enabled(t, Open(d))
            && Step(t, Open(d)).clients[d] == Served(x.call, s.Version(), x.response)
  {
    t := QuietLookup(Step(s, Store(c)), d, s.clients[c].call);
  }

  /** When no lease is pending, a client that holds the current generation learnt it after the last change. */
  lemma KeyedNow(s: State, c: ClientId)
    requires Inv(s) && s.pending == map[]
    requires c in s.clients && s.clients[c].Keyed? && s.latest == Some(s.clients[c].gen)
    ensures s.clients[c].gen in s.born && s.born[s.clients[c].gen] == s.clients[c].keyedAt == s.Version()
  {
    assert ClientOk(s, s.clients[c]);
    if s.Version() >= 1 { assert !Unpublished(s, s.Version()); }
  }

  /** The condition is exact when no lease is pending. After any run that keeps both assumptions, let a
      client whose generation is current compute a response from version `v`, store it, and let a
      lookup follow: the lookup gets a hit, and the hit is not stale if and only if the response is no
      older than its generation, which is to say that it was computed after KeyPath had returned. */
  lemma FreshExactly(h: seq<Action>, c: ClientId, v: nat, d: ClientId) returns (t: State)
    requires Run(h) && AlwaysShort(h) && AlwaysFresh(h)
    requires var s := After(h).value;
             && Enabled(s, Compute(c, v)) && d !in s.clients && s.pending == map[] && s.latest == Some(s.clients[c].gen)
    ensures var s := After(h).value; var s1 := Step(s, Compute(c, v)); var x := s.clients[c];
            && Enabled(s1, Store(c)) && Exec(Step(s1, Store(c)), Lookup(d, x.call)) == Some(t) && Enabled(t, Open(d))
            && var hit := Step(t, Open(d)).clients[d];
               && hit.Served? && hit.begin == s.Version() && hit.response == Response(x.call, v) && x.gen in s.born
               && (hit.begin <= hit.response.version <==> s.born[x.gen] <= v)
               && (s.born[x.gen] <= v <==> x.keyedAt <= v)
  {
    InvRun(h);
    var s := After(h).value;
    KeyedNow(s, c);
    assert ClientOk(s, s.clients[c]);
    t := StoredThenServed(Step(s, Compute(c, v)), c, d);
  }

  /** Whatever is pending, a lookup that already knows the generation gets the response, and the hit is
      not stale when the response is no older than its generation. */
  lemma UnderWayIsFresh(h: seq<Action>, c: ClientId, v: nat, d: ClientId)
    requires Run(h) && AlwaysShort(h) && AlwaysFresh(h)
    requires var s := After(h).value;
             && Enabled(s, Compute(c, v)) && Enabled(s, Open(d))
             && s.clients[d].call == s.clients[c].call && s.clients[d].gen == s.clients[c].gen
    ensures var s := After(h).value; var s1 := Step(s, Compute(c, v)); var x := s.clients[c];
            && Enabled(s1, Store(c)) && Enabled(Step(s1, Store(c)), Open(d))
            && var hit := Step(Step(s1, Store(c)), Open(d)).clients[d];
               && hit == Served(x.call, s.clients[d].begin, Response(x.call, v))
               && x.gen in s.born && (s.born[x.gen] <= v ==> hit.begin <= hit.response.version)
  {
    InvRun(h);
    var s := After(h).value;
    assert ClientOk(s, s.clients[d]);
  }

  /** A response computed before a change, by a client whose KeyPath returned after it. */
  function EarlyState(call: Call, g: Gen, x: Client): State {
    State([0], Some(g), map[g := 1], map[], map[0 := Ended], map[0 := x], map[], 0)
  }

  lemma EarlyBegin(call: Call, g: Gen) returns (h: seq<Action>)
    requires Encodable(call, g)
    ensures AlwaysShort(h)
    ensures After(h) == Some(State([], None, map[], map[], map[], map[0 := Called(Put, call, 0)], map[], 0))
  {
    h := [Begin(0, Put, call)];
    ShortThen([], INIT, Begin(0, Put, call), Step(INIT, Begin(0, Put, call)), h);
  }

  lemma EarlyCall(call: Call, g: Gen) returns (h: seq<Action>)
    requires Encodable(call, g)
    ensures AlwaysShort(h)
    ensures After(h) == Some(State([], None, map[], map[], map[0 := LatestRemoved], map[0 := Called(Put, call, 0)], map[], 0))
  {
    var s1 := State([], None, map[], map[], map[], map[0 := Called(Put, call, 0)], map[], 0);
    h := EarlyBegin(call, g);
    var s2 := s1.(leases := map[0 := LatestRemoved]);
    ShortThen(h, s1, RemoveLatest(0), s2, h + [RemoveLatest(0)]);
    h := h + [RemoveLatest(0)];
  }

  lemma EarlyLease(call: Call, g: Gen) returns (h: seq<Action>)
    requires Encodable(call, g)
    ensures AlwaysShort(h)
    ensures After(h) == Some(State([0], None, map[], map[0 := 0], map[0 := Held], map[0 := Called(Put, call, 0)], map[], 0))
  {
    h := EarlyCall(call, g);
    var s2 := State([], None, map[], map[], map[0 := LatestRemoved], map[0 := Called(Put, call, 0)], map[], 0);
    var s3 := s2.(pending := map[0 := 0], leases := map[0 := Held]);
    ShortThen(h, s2, CreatePending(0), s3, h + [CreatePending(0)]);
    h := h + [CreatePending(0)];
    ShortThen(h, s3, Mutate(0), s3.(mutations := [0]), h + [Mutate(0)]);
    h := h + [Mutate(0)];
  }

  lemma ShortThen(h: seq<Action>, s: State, a: Action, t: State, longer: seq<Action>)
    requires After(h) == Some(s) && AlwaysShort(h) && Enabled(s, a) && t == Step(s, a) && LeasesShort(t) && longer == h + [a]
    ensures After(longer) == Some(t) && AlwaysShort(longer)
  {
    ExecThen(INIT, h, s, a);
    assert longer[..|h|] == h;
  }

  lemma EarlyPublished(call: Call, g: Gen) returns (h: seq<Action>)
    requires Encodable(call, g)
    ensures AlwaysShort(h) && After(h) == Some(EarlyState(call, g, Called(Put, call, 0)))
  {
    h := EarlyLease(call, g);
    var s4 := State([0], None, map[], map[0 := 0], map[0 := Held], map[0 := Called(Put, call, 0)], map[], 0);
    var s5 := State([0], Some(g), map[g := 1], map[0 := 0], map[0 := Updated], map[0 := Called(Put, call, 0)], map[], 0);
    ShortThen(h, s4, RewriteLatest(0, g), s5, h + [RewriteLatest(0, g)]);
    h := h + [RewriteLatest(0, g)];
    var s6 := EarlyState(call, g, Called(Put, call, 0));
    assert Step(s5, RemovePending(0)) == s6;
    ShortThen(h, s5, RemovePending(0), s6, h + [RemovePending(0)]);
    h := h + [RemovePending(0)];
  }

  lemma EarlyScanned(call: Call, g: Gen) returns (h: seq<Action>)
    requires Encodable(call, g)
    ensures AlwaysShort(h) && After(h) == Some(EarlyState(call, g, Scanned(Put, call, 0)))
  {
    h := EarlyPublished(call, g);
    var s6 := EarlyState(call, g, Called(Put, call, 0));
    var s7 := EarlyState(call, g, Scanning(Put, call, 0, {}));
    assert s6.pending.Keys == {};
    ShortThen(h, s6, ScanStart(0), s7, h + [ScanStart(0)]);
    h := h + [ScanStart(0)];
    var s8 := EarlyState(call, g, Scanned(Put, call, 0));
    ShortThen(h, s7, ScanEmpty(0), s8, h + [ScanEmpty(0)]);
    h := h + [ScanEmpty(0)];
  }

  lemma EarlyComputed(call: Call, g: Gen) returns (h: seq<Action>)
    requires Encodable(call, g)
    ensures AlwaysShort(h) && After(h) == Some(EarlyState(call, g, Computed(call, 0, g, 1, Response(call, 0))))
  {
    h := EarlyScanned(call, g);
    var s8 := EarlyState(call, g, Scanned(Put, call, 0));
    var s9 := EarlyState(call, g, Keyed(Put, call, 0, g, 1));
    ShortThen(h, s8, ReadLatest(0), s9, h + [ReadLatest(0)]);
    h := h + [ReadLatest(0)];
    var s10 := EarlyState(call, g, Computed(call, 0, g, 1, Response(call, 0)));
    ShortThen(h, s9, Compute(0, 0), s10, h + [Compute(0, 0)]);
    h := h + [Compute(0, 0)];
  }

  /** The assumption is needed: with short leases only, a response computed before KeyPath returned
      can be stored and served to a lookup that began after the change. */
  lemma EarlyResponseGoesStale(call: Call, g: Gen) returns (h: seq<Action>, t: State)
    requires Encodable(call, g)
    ensures Run(h) && AlwaysShort(h) && Enabled(After(h).value, Store(0))
    ensures && Exec(Step(After(h).value, Store(0)), Lookup(1, call)) == Some(t) && Enabled(t, Open(1))
            && var x := Step(t, Open(1)).clients[1]; x.Served? && x.response.version < x.begin
  {
    h := EarlyComputed(call, g);
    t := StoredThenServed(After(h).value, 0, 1);
  }
}
