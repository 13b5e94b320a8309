/** The stream cache's index and file store (internal/streamcache/cache.go, filestore.go) over the
    pipes of `Pipes`, as a machine. FindOrCreate, the deletion after a failed create and the eviction
    loop run under the cache's mutex, so each is one step; the create runs, the readers, and the two
    file-removing goroutines interleave with them.

    A lookup may create even when the index has its key, because opening the file can fail.

    Every create run has its own pipe. A reader opens the file by name, so which run's bytes it gets
    depends on what that name refers to at that moment; a stream's Wait depends on the index entry. */
module StreamCache {
  import opened Prelude
  import P = Pipes

  type Key = string
  type RunId = nat
  type StreamId = P.ReaderId
  type FileName = nat

  const TWO64: nat := 0x1_0000_0000_0000_0000

  /** One call of a create callback: the key it was for, the name of its file, and its pipe. */
  datatype CreateRun = CreateRun(key: Key, name: FileName, pipe: P.Pipe)

  /** A Stream returned for `key`: whose file it reads, and whose result its Wait returns. */
  datatype Stream = Stream(key: Key, file: RunId, waiter: RunId)

  datatype State = State(
    counter: nat,                     // filestore.counter, a uint64
    created: nat,                     // how many names have been handed out
    dir: map<FileName, RunId>,        // names in the cache directory, with the run whose file it is
    used: set<RunId>,
    runs: map<RunId, CreateRun>,
    index: map<Key, RunId>,
    streams: map<StreamId, Stream>
  )

  datatype Action =
    | Hit(k: Key, id: StreamId)
    | Create(k: Key, r: RunId, id: StreamId)
    | CreateFails(k: Key, leftover: Option<RunId>)
    | Progress(r: RunId, a: P.Action)
    | ForgetFailed(r: RunId)
    | Evict(k: Key)
    | Unlink(name: FileName)

  const INIT: State := State(0, 0, map[], {}, map[], map[], map[])

  function NextName(s: State): FileName {
    (s.counter + 1) % TWO64
  }

  /** Steps of a pipe that neither open a reader nor remove the file; those go through the cache. */
  predicate Internal(a: P.Action) {
    !a.RemoveFile? && !(a.R? && a.r.OpenReader?)
  }

  predicate Enabled(s: State, a: Action) {
    match a
    case Hit(k, id) =>
      && id !in s.streams && k in s.index && s.index[k] in s.runs
      && !P.Broken(s.runs[s.index[k]].pipe) && s.runs[s.index[k]].name in s.dir
    case Create(k, r, id) => r !in s.used && id !in s.streams && NextName(s) !in s.dir
    case CreateFails(k, leftover) => leftover.Some? ==> leftover.value !in s.used && NextName(s) !in s.dir
    case Progress(r, p) => r in s.runs && Internal(p) && P.Enabled(s.runs[r].pipe, p)
    case ForgetFailed(r) => r in s.runs && s.runs[r].pipe.writer == P.Closed(false)
    case Evict(k) => true
    case Unlink(name) => name in s.dir
  }

  function SetPipe(s: State, r: RunId, p: P.Pipe): State
    requires r in s.runs
  {
    s.(runs := s.runs[r := s.runs[r].(pipe := p)])
  }

  /** Opening a reader on a pipe: its file is there, though perhaps not under the pipe's name. */
  function Subscribed(p: P.Pipe, id: StreamId): P.Pipe {
    P.SetReader(p, id, P.Reader([], 0, false, P.AtRest)).(wcursor := p.wcursor.Subscribe(id))
  }

  function Step(s: State, a: Action): State
    requires Enabled(s, a)
  {
    match a
    case Hit(k, id) =>
      var r := s.index[k];
      SetPipe(s, r, Subscribed(s.runs[r].pipe, id))
        .(streams := s.streams[id := Stream(k, s.dir[s.runs[r].name], r)])
    case Create(k, r, id) =>
      var name := NextName(s);
      s.(counter := name, created := s.created + 1, dir := s.dir[name := r], used := s.used + {r},
         runs := s.runs[r := CreateRun(k, name, P.NewPipe(id))],
         index := s.index[k := r], streams := s.streams[id := Stream(k, r, r)])
    case CreateFails(k, leftover) =>
      var t := s.(counter := NextName(s), created := s.created + 1, index := s.index - {k});
      if leftover.None? then t
      else t.(dir := s.dir[NextName(s) := leftover.value], used := s.used + {leftover.value})
    case Progress(r, p) => SetPipe(s, r, P.Step(s.runs[r].pipe, p))
    case ForgetFailed(r) => s.(index := s.index - {s.runs[r].key})
    case Evict(k) => s.(index := s.index - {k})
    case Unlink(name) =>
      var r := s.dir[name];
      var t := s.(dir := s.dir - {name});
      if r in s.runs then SetPipe(t, r, s.runs[r].pipe.(linked := false)) else t
  }

  function After(h: seq<Action>): Option<State> {
    if h == [] then Some(INIT)
    else
      var before := After(h[..|h| - 1]);
      if before.Some? && Enabled(before.value, h[|h| - 1]) then Some(Step(before.value, h[|h| - 1])) else None
  }

  predicate Run(h: seq<Action>) { After(h).Some? }

  // ---- the invariant --------------------------------------------------------------------------

  /** Names have been handed out in order, and a name belongs to one run for good. */
  ghost predicate NamesOk(s: State) {
    && s.counter == s.created < TWO64
    && (forall n :: n in s.dir ==> 1 <= n <= s.counter && s.dir[n] in s.used)
    && (forall r :: r in s.runs ==> r in s.used && 1 <= s.runs[r].name <= s.counter)
    && (forall r :: r in s.runs && s.runs[r].name in s.dir ==> s.dir[s.runs[r].name] == r)
    && (forall n :: n in s.dir && s.dir[n] in s.runs ==> s.runs[s.dir[n]].name == n)
  }

  ghost predicate PipeOk(s: State, r: RunId)
    requires r in s.runs
  {
    P.Inv(s.runs[r].pipe) && (s.runs[r].pipe.linked <==> s.runs[r].name in s.dir)
  }

  ghost predicate PipesOk(s: State) {
    forall r :: r in s.runs ==> PipeOk(s, r)
  }

  ghost predicate IndexOk(s: State) {
    forall k :: k in s.index ==> s.index[k] in s.runs && s.runs[s.index[k]].key == k
  }

  ghost predicate StreamOk(s: State, id: StreamId)
    requires id in s.streams
  {
    var st := s.streams[id];
    st.file == st.waiter && st.waiter in s.runs && s.runs[st.waiter].key == st.key && id in s.runs[st.waiter].pipe.readers
  }

  ghost predicate StreamsOk(s: State) {
    && (forall id :: id in s.streams ==> StreamOk(s, id))
    && (forall r, id :: r in s.runs && id in s.runs[r].pipe.readers ==> id in s.streams)
  }

  ghost predicate Inv(s: State) {
    NamesOk(s) && PipesOk(s) && IndexOk(s) && StreamsOk(s)
  }

  lemma FirstPipeOk(id: StreamId)
    ensures P.Inv(P.NewPipe(id))
  {
    assert P.NewPipe(id).readers[id].position == P.NewPipe(id).rcursor.pos;
  }

  lemma NamesCreate(s: State, k: Key, r: RunId, id: StreamId)
    requires NamesOk(s) && Enabled(s, Create(k, r, id)) && s.created + 1 < TWO64
    ensures NamesOk(Step(s, Create(k, r, id)))
  {
    var t, name := Step(s, Create(k, r, id)), s.counter + 1;
    assert NextName(s) == name;
    NamesGrow(s, t, r, t.runs[r]);
  }

  lemma NamesGrow(s: State, t: State, r: RunId, run: CreateRun)
    requires NamesOk(s) && r !in s.used && s.created + 1 < TWO64 && run.name == s.counter + 1
    requires t.counter == s.counter + 1 && t.created == s.created + 1
    requires t.dir == s.dir[run.name := r] && t.used == s.used + {r} && t.runs == s.runs[r := run]
    ensures NamesOk(t)
  {
    assert forall q :: q in t.runs && q != r ==> q in s.runs && t.runs[q] == s.runs[q];
  }

  lemma NamesCreateFails(s: State, k: Key, leftover: Option<RunId>)
    requires NamesOk(s) && Enabled(s, CreateFails(k, leftover)) && s.created + 1 < TWO64
    ensures NamesOk(Step(s, CreateFails(k, leftover)))
  {
  }

  /** The steps that hand out no name change no run's name, and at most remove one. */
  lemma NamesQuiet(s: State, a: Action)
    requires NamesOk(s) && Enabled(s, a) && !a.Create? && !a.CreateFails?
    ensures NamesOk(Step(s, a))
  {
    QuietShape(s, a);
    NamesShrink(s, Step(s, a));
  }

  lemma QuietShape(s: State, a: Action)
    requires Enabled(s, a) && !a.Create? && !a.CreateFails?
    ensures var t := Step(s, a);
            && t.runs.Keys == s.runs.Keys && t.used == s.used && t.counter == s.counter && t.created == s.created
            && (forall r :: r in s.runs ==> t.runs[r].name == s.runs[r].name)
            && (forall n :: n in t.dir ==> n in s.dir && t.dir[n] == s.dir[n])
  {
  }

  lemma NamesShrink(s: State, t: State)
    requires NamesOk(s) && t.runs.Keys == s.runs.Keys && t.used == s.used && t.counter == s.counter && t.created == s.created
    requires forall r :: r in s.runs ==> t.runs[r].name == s.runs[r].name
    requires forall n :: n in t.dir ==> n in s.dir && t.dir[n] == s.dir[n]
    ensures NamesOk(t)
  {
  }

  lemma PipeKeepsReaders(p: P.Pipe, a: P.Action)
    requires P.Enabled(p, a) && Internal(a)
    ensures P.Step(p, a).readers.Keys == p.readers.Keys && P.Step(p, a).linked == p.linked
  {
    if a.R? { ReaderKeepsReaders(p, a.id, a.r); }
  }

  lemma ReaderKeepsReaders(p: P.Pipe, id: StreamId, a: P.ReaderAction)
    requires P.ReaderEnabled(p, id, a) && !a.OpenReader?
    ensures P.ReaderStep(p, id, a).readers.Keys == p.readers.Keys && P.ReaderStep(p, id, a).linked == p.linked
  {
    assert id in p.readers;
  }

  lemma SubscribedOk(p: P.Pipe, id: StreamId)
    requires P.Inv(p) && id !in p.readers && !P.Broken(p) && p.linked
    ensures P.Inv(Subscribed(p, id)) && Subscribed(p, id).linked
  {
    P.InvStep(p, P.R(id, P.OpenReader));
    assert Subscribed(p, id) == P.Step(p, P.R(id, P.OpenReader));
  }

  /** A run that the step leaves alone keeps its pipe and the name of its file. */
  lemma OtherPipeStays(s: State, a: Action, r: RunId)
    requires NamesOk(s) && Enabled(s, a) && Step(s, a).created < TWO64 && r in s.runs && PipeOk(s, r)
    requires Step(s, a).runs[r] == s.runs[r]
    ensures PipeOk(Step(s, a), r)
  {
  }

  lemma PipeStep(s: State, a: Action, r: RunId)
    requires NamesOk(s) && StreamsOk(s) && Enabled(s, a) && Step(s, a).created < TWO64
    requires r in Step(s, a).runs && (r in s.runs ==> PipeOk(s, r))
    requires r in s.runs ==> Step(s, a).runs[r] != s.runs[r]
    ensures PipeOk(Step(s, a), r)
  {
    match a
    case Hit(k, id) => SubscribedOk(s.runs[r].pipe, id);
    case Create(k, _, id) => FirstPipeOk(id);
    case Progress(_, p) =>
      P.InvStep(s.runs[r].pipe, p);
      PipeKeepsReaders(s.runs[r].pipe, p);
    case Unlink(name) => P.InvStep(s.runs[r].pipe, P.RemoveFile);
    case _ =>
  }

  lemma IndexStep(s: State, a: Action)
    requires NamesOk(s) && IndexOk(s) && Enabled(s, a)
    ensures IndexOk(Step(s, a))
  {
  }

  lemma ReadersStay(s: State, a: Action, r: RunId)
    requires NamesOk(s) && Enabled(s, a) && r in s.runs
    ensures var t := Step(s, a);
            && r in t.runs && t.runs[r].key == s.runs[r].key
            && t.runs[r].pipe.readers.Keys == s.runs[r].pipe.readers.Keys +
                 (if a.Hit? && r == s.index[a.k] then {a.id} else {})
  {
    if a.Progress? { PipeKeepsReaders(s.runs[a.r].pipe, a.a); }
  }

  lemma StreamStep(s: State, a: Action, id: StreamId)
    requires NamesOk(s) && IndexOk(s) && StreamsOk(s) && Enabled(s, a) && id in Step(s, a).streams
    ensures StreamOk(Step(s, a), id)
  {
    if id in s.streams {
      assert StreamOk(s, id);
      ReadersStay(s, a, s.streams[id].waiter);
    } else if a.Hit? {
      ReadersStay(s, a, s.index[a.k]);
    }
  }

  lemma ReaderKnown(s: State, a: Action, r: RunId, id: StreamId)
    requires NamesOk(s) && StreamsOk(s) && Enabled(s, a) && r in Step(s, a).runs && id in Step(s, a).runs[r].pipe.readers
    ensures id in Step(s, a).streams
  {
    if r in s.runs { ReadersStay(s, a, r); }
  }

  lemma StreamsStep(s: State, a: Action)
    requires NamesOk(s) && IndexOk(s) && StreamsOk(s) && Enabled(s, a)
    ensures StreamsOk(Step(s, a))
  {
    var t := Step(s, a);
    forall id | id in t.streams ensures StreamOk(t, id) { StreamStep(s, a, id); }
    forall r, id | r in t.runs && id in t.runs[r].pipe.readers ensures id in t.streams { ReaderKnown(s, a, r, id); }
  }

  lemma NamesStep(s: State, a: Action)
    requires NamesOk(s) && Enabled(s, a) && Step(s, a).created < TWO64
    ensures NamesOk(Step(s, a))
  {
    match a {
      case Create(k, r, id) => NamesCreate(s, k, r, id);
      case CreateFails(k, leftover) => NamesCreateFails(s, k, leftover);
      case _ => NamesQuiet(s, a);
    }
  }

  lemma PipesStep(s: State, a: Action)
    requires NamesOk(s) && PipesOk(s) && StreamsOk(s) && Enabled(s, a) && Step(s, a).created < TWO64
    ensures PipesOk(Step(s, a))
  {
    forall r | r in Step(s, a).runs ensures PipeOk(Step(s, a), r) {
      if r in s.runs && Step(s, a).runs[r] == s.runs[r] { OtherPipeStays(s, a, r); } else { PipeStep(s, a, r); }
    }
  }

  lemma InvStep(s: State, a: Action)
    requires Inv(s) && Enabled(s, a) && Step(s, a).created < TWO64
    ensures Inv(Step(s, a))
  {
    NamesStep(s, a);
    IndexStep(s, a);
    StreamsStep(s, a);
    PipesStep(s, a);
  }

  lemma {:induction false} InvRun(h: seq<Action>)
    requires Run(h) && After(h).value.created < TWO64
    ensures Inv(After(h).value)
  {
    if h == [] {
      InvInit();
    } else {
      CreatedGrows(After(h[..|h| - 1]).value, h[|h| - 1]);
      InvRun(h[..|h| - 1]);
      InvStep(After(h[..|h| - 1]).value, h[|h| - 1]);
    }
  }

  lemma InvInit()
    ensures Inv(INIT)
  {
  }

  lemma CreatedGrows(s: State, a: Action)
    requires Enabled(s, a)
    ensures s.created <= Step(s, a).created
  {
  }
}
