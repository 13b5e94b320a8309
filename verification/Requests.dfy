/** Requests that share the cache of `git cat-file` processes: any number of them hold processes at the
    same time, their sessions interleave, repositories change meanwhile, and processes may end
    (internal/git/catfile/batch_cache.go, BatchProcess and returnWhenDone). */
module Requests {
  import opened Prelude
  import opened Catfile
  import opened ProcessCache

  type Id = nat

  /** What happens, one thing after the other: a request arrives for a key, does something with its
      process, or is done; the monitor sweeps the cache; everything is evicted; time passes. */
  datatype Doing =
    | Arrive(id: Id, key: Key)
    | Act(id: Id, op: Op)
    | Leave(id: Id)
    | Sweep
    | EvictAll
    | Pass(time: nat)

  predicate Possible(script: seq<Doing>) {
    forall i :: 0 <= i < |script| && script[i].Act? ==> Usable(script[i].op)
  }

  /** What a request has done so far, seen by itself. */
  datatype Story = Story(key: Key, ops: seq<Op>, open: bool)

  function Told(before: Option<Story>, id: Id, d: Doing): Option<Story> {
    if d.Arrive? && d.id == id && before.None? then Some(Story(d.key, [], true))
    else if d.Act? && d.id == id && before.Some? && before.value.open then Some(before.value.(ops := before.value.ops + [d.op]))
    else if d.Leave? && d.id == id && before.Some? then Some(before.value.(open := false))
    else before
  }

  function StoryOf(script: seq<Doing>, id: Id): Option<Story> {
    if script == [] then None else Told(StoryOf(script[..|script| - 1], id), id, script[|script| - 1])
  }

  predicate Deadly(op: Op) {
    op.Ask? && !op.fate.Lives?
  }

  /** The keys for which a process has ended. */
  function Grim(script: seq<Doing>): set<Key> {
    if script == [] then {}
    else
      var before, d := script[..|script| - 1], script[|script| - 1];
      if d.Act? && Deadly(d.op) && StoryOf(before, d.id).Some? && StoryOf(before, d.id).value.open
      then Grim(before) + {StoryOf(before, d.id).value.key} else Grim(before)
  }

  // ---- ideal sessions grow at the end ---------------------------------------------------------

  function IdealView(answer: Repository, v: View, ops: seq<Op>): View
    decreases |ops|
  {
    if ops == [] then v else IdealView(answer, Ideal(answer, v, ops[0]).1, ops[1..])
  }

  lemma {:induction false} IdealSnoc(answer: Repository, v: View, ops: seq<Op>, op: Op)
    ensures var last := Ideal(answer, IdealView(answer, v, ops), op);
            && IdealSession(answer, v, ops + [op]) == IdealSession(answer, v, ops) + [last.0]
            && IdealView(answer, v, ops + [op]) == last.1
    decreases |ops|
  {
    if ops == [] {
      assert [] + [op] == [op] && [op][1..] == [];
    } else {
      assert (ops + [op])[1..] == ops[1..] + [op];
      IdealSnoc(answer, Ideal(answer, v, ops[0]).1, ops[1..], op);
    }
  }

  function Start(dead: bool): View {
    if dead then DEAD else START
  }

  // ---- processes that are checked out ---------------------------------------------------------

  datatype Held = Held(key: Key, batch: Batch, reader: BatchReader?)

  ghost predicate HeldOk(h: Held, v: View, repo: Key -> Repository, grim: set<Key>)
    reads h.batch.process, h.reader, if h.reader != null then {h.reader.process} else {}
  {
    && h.batch.process.Valid() && InStep(h.batch.process, h.reader, v)
    && h.batch.process.answer == repo(h.key) && (h.batch.process.alive || h.key in grim)
  }

  /** No two requests hold the same process, and no held process is in the cache. */
  ghost predicate Apart(entries: seq<Entry>, open: map<Id, Held>) {
    && (forall i, j :: i in open && j in open && i != j ==>
          open[i].batch != open[j].batch && open[i].batch.process != open[j].batch.process)
    && (forall i, e :: i in open && e in entries ==> e.batch != open[i].batch && e.batch.process != open[i].batch.process)
  }

  ghost predicate CacheOk(cache: BatchCache, repo: Key -> Repository, grim: set<Key>)
    reads cache, set e | e in cache.entries :: e.batch, set e | e in cache.entries :: e.batch.process
  {
    && cache.Valid() && OwnProcesses(cache.entries) && Belongs(cache.entries, repo)
    && Lively(cache.entries, grim)
  }

  ghost predicate Lively(entries: seq<Entry>, grim: set<Key>)
    reads set e | e in entries :: e.batch.process
  {
    forall e :: e in entries ==> e.batch.process.alive || e.key in grim
  }

  ghost predicate OpenOk(open: map<Id, Held>, views: map<Id, View>, repo: Key -> Repository, grim: set<Key>)
    reads set i | i in open :: open[i].batch.process, set i | i in open && open[i].reader != null :: open[i].reader
    reads set i | i in open && open[i].reader != null :: open[i].reader.process
  {
    open.Keys == views.Keys && forall i :: i in open ==> HeldOk(open[i], views[i], repo, grim)
  }

  /** A request gets a process; `dead` tells whether that process has ended before. */
  method GetProcess(cache: BatchCache, key: Key, repo: Key -> Repository, ghost grim: set<Key>) returns (held: Held, dead: bool)
    requires CacheOk(cache, repo, grim)
    requires forall t, r :: Sound(repo(key)(t, r))
    modifies cache`entries, set e | e in cache.entries :: e.batch
    ensures CacheOk(cache, repo, grim) && held.key == key && held.reader == null && HeldOk(held, Start(dead), repo, grim)
    ensures dead ==> key in grim
    ensures forall e :: e in cache.entries ==> e in old(cache.entries) && e.batch != held.batch && e.batch.process != held.batch.process
    ensures (fresh(held.batch) && fresh(held.batch.process)) || exists e :: e in old(cache.entries) && e.batch == held.batch
  {
    var b := Obtain(cache, key, repo);
    held, dead := Held(key, b, null), !b.process.alive;
  }

  lemma AdmittedApart(before: seq<Entry>, after: seq<Entry>, open: map<Id, Held>, id: Id, held: Held)
    requires Apart(before, open) && id !in open
    requires forall e :: e in after ==> e in before && e.batch != held.batch && e.batch.process != held.batch.process
    requires forall i :: i in open ==> open[i].batch != held.batch && open[i].batch.process != held.batch.process
    ensures Apart(after, open[id := held])
  {
  }

  /** A request arrives while others hold processes. */
  method Admit(cache: BatchCache, open: map<Id, Held>, ghost views: map<Id, View>, id: Id, key: Key, repo: Key -> Repository,
               ghost grim: set<Key>)
    returns (held: Held, dead: bool)
    requires CacheOk(cache, repo, grim) && Apart(cache.entries, open) && OpenOk(open, views, repo, grim) && id !in open
    requires forall t, r :: Sound(repo(key)(t, r))
    modifies cache`entries, set e | e in cache.entries :: e.batch
    ensures CacheOk(cache, repo, grim) && held.key == key && held.reader == null
    ensures Apart(cache.entries, open[id := held]) && OpenOk(open[id := held], views[id := Start(dead)], repo, grim)
    ensures dead ==> key in grim
    ensures forall e :: e in cache.entries ==> e in old(cache.entries)
    ensures (fresh(held.batch) && fresh(held.batch.process)) || exists e :: e in old(cache.entries) && e.batch == held.batch
  {
    ghost var before := cache.entries;
    held, dead := GetProcess(cache, key, repo, grim);
    assert forall i :: i in open ==> open[i].batch != held.batch && open[i].batch.process != held.batch.process;
    AdmittedApart(before, cache.entries, open, id, held);
  }

  /** What a request does with the process that it holds. */
  method ActAlone(h: Held, ghost v: View, op: Op, ghost repo: Key -> Repository, ghost grim: set<Key>) returns (held: Held, event: Event)
    requires HeldOk(h, v, repo, grim) && Usable(op)
    modifies h.batch.process, h.reader
    ensures var next := Ideal(repo(h.key), v, op);
            && event == next.0 && held.key == h.key && held.batch == h.batch
            && HeldOk(held, next.1, repo, if Deadly(op) then grim + {h.key} else grim)
    ensures held.reader == null || fresh(held.reader) || held.reader == h.reader
  {
    var reader;
    event, reader := Perform(h.batch.process, h.reader, v, op);
    held := h.(reader := reader);
  }

  /** That does not disturb the cache. */
  method ActBesideCache(cache: BatchCache, h: Held, ghost v: View, op: Op, ghost repo: Key -> Repository, ghost grim: set<Key>)
    returns (held: Held, event: Event)
    requires HeldOk(h, v, repo, grim) && Usable(op) && CacheOk(cache, repo, grim)
    requires forall e :: e in cache.entries ==> e.batch.process != h.batch.process
    modifies h.batch.process, h.reader
    ensures var next := Ideal(repo(h.key), v, op); var grim' := if Deadly(op) then grim + {h.key} else grim;
            && event == next.0 && held.key == h.key && held.batch == h.batch
            && HeldOk(held, next.1, repo, grim') && CacheOk(cache, repo, grim')
    ensures held.reader == null || fresh(held.reader) || held.reader == h.reader
  {
    held, event := ActAlone(h, v, op, repo, grim);
  }

  /** Readers of other processes are other readers. */
  lemma OtherReaders(entries: seq<Entry>, open: map<Id, Held>, views: map<Id, View>, repo: Key -> Repository, grim: set<Key>, id: Id, j: Id)
    requires Apart(entries, open) && OpenOk(open, views, repo, grim) && id in open && j in open && j != id
    ensures open[j].batch.process != open[id].batch.process
    ensures open[j].reader != null ==> open[j].reader != open[id].reader && open[j].reader.process == open[j].batch.process
  {
    assert HeldOk(open[j], views[j], repo, grim) && HeldOk(open[id], views[id], repo, grim);
  }

  lemma OpenMoves(open: map<Id, Held>, views: map<Id, View>, id: Id, held: Held, v: View, repo: Key -> Repository,
                  grim: set<Key>, grim': set<Key>)
    requires open.Keys == views.Keys && id in open && grim <= grim' && HeldOk(held, v, repo, grim')
    requires forall j :: j in open && j != id ==> HeldOk(open[j], views[j], repo, grim)
    ensures OpenOk(open[id := held], views[id := v], repo, grim')
  {
    forall j | j in open && j != id ensures HeldOk(open[j], views[j], repo, grim') {
      assert HeldOk(open[j], views[j], repo, grim);
    }
  }

  /** A request does something with its process while others hold theirs. */
  method ActOn(cache: BatchCache, open: map<Id, Held>, ghost views: map<Id, View>, id: Id, op: Op, ghost repo: Key -> Repository,
               ghost grim: set<Key>)
    returns (held: Held, event: Event)
    requires CacheOk(cache, repo, grim) && Apart(cache.entries, open) && OpenOk(open, views, repo, grim) && id in open && Usable(op)
    modifies open[id].batch.process, open[id].reader
    ensures var grim' := if Deadly(op) then grim + {open[id].key} else grim;
            var next := Ideal(repo(open[id].key), views[id], op);
            && event == next.0 && held.key == open[id].key && held.batch == open[id].batch
            && CacheOk(cache, repo, grim') && OpenOk(open[id := held], views[id := next.1], repo, grim')
    ensures held.reader == null || fresh(held.reader) || held.reader == open[id].reader
  {
    forall j | j in open && j != id
      ensures HeldOk(open[j], views[j], repo, grim) && open[j].batch.process != open[id].batch.process
      ensures open[j].reader != null ==> open[j].reader != open[id].reader && open[j].reader.process == open[j].batch.process
    {
      OtherReaders(cache.entries, open, views, repo, grim, id, j);
    }
    held, event := ActBesideCache(cache, open[id], views[id], op, repo, grim);
    OpenMoves(open, views, id, held, Ideal(repo(open[id].key), views[id], op).1, repo, grim,
              if Deadly(op) then grim + {open[id].key} else grim);
  }

  lemma StillLively(before: seq<Entry>, after: seq<Entry>, x: Entry, grim: set<Key>)
    requires Lively(before, grim) && (x.batch.process.alive || x.key in grim)
    requires forall e :: e in after ==> e in before || e == x
    ensures Lively(after, grim)
  {
  }

  /** A request is done, and its process goes back or ends. */
  method GiveBack(cache: BatchCache, h: Held, ghost v: View, now: nat, ghost repo: Key -> Repository, ghost grim: set<Key>)
    requires CacheOk(cache, repo, grim) && HeldOk(h, v, repo, grim) && now >= cache.clock
    requires forall e :: e in cache.entries ==> e.batch != h.batch && e.batch.process != h.batch.process
    modifies cache, h.batch, set e | e in cache.entries :: e.batch
    ensures CacheOk(cache, repo, grim) && cache.clock <= now
    ensures forall e :: e in cache.entries ==> e in old(cache.entries) || e.batch == h.batch
  {
    ghost var before := cache.entries;
    ReturnWhenDone(cache, h.key, h.batch, now);
    Returned(before, cache.entries, h.key, h.batch, now + cache.ttl, cache.maxLen, repo);
    StillLively(before, cache.entries, Entry(h.key, h.batch, now + cache.ttl), grim);
  }

  lemma DismissedApart(before: seq<Entry>, after: seq<Entry>, open: map<Id, Held>, id: Id)
    requires Apart(before, open) && id in open && forall e :: e in after ==> e in before || e.batch == open[id].batch
    ensures Apart(after, open - {id})
  {
  }

  method Dismiss(cache: BatchCache, open: map<Id, Held>, ghost views: map<Id, View>, id: Id, now: nat, ghost repo: Key -> Repository,
                 ghost grim: set<Key>)
    requires CacheOk(cache, repo, grim) && Apart(cache.entries, open) && OpenOk(open, views, repo, grim) && id in open
    requires now >= cache.clock
    modifies cache, open[id].batch, set e | e in cache.entries :: e.batch
    ensures CacheOk(cache, repo, grim) && Apart(cache.entries, open - {id}) && OpenOk(open - {id}, views - {id}, repo, grim)
    ensures cache.clock <= now
    ensures forall e :: e in cache.entries ==> e in old(cache.entries) || e.batch == open[id].batch
  {
    ghost var before := cache.entries;
    GiveBack(cache, open[id], views[id], now, repo, grim);
    DismissedApart(before, cache.entries, open, id);
  }

  // ---- what everybody has seen ----------------------------------------------------------------

  /** The bookkeeping: who holds a process, what each request has seen, and who got a process that had
      ended before. */
  datatype Books = Books(open: map<Id, Held>, seen: map<Id, seq<Event>>, inherited: set<Id>)

  /** The books agree with the story of request `id`. */
  ghost predicate Chronicled(script: seq<Doing>, b: Books, views: map<Id, View>, repo: Key -> Repository, id: Id) {
    match StoryOf(script, id)
    case None => id !in b.seen && id !in b.open && id !in b.inherited
    case Some(st) =>
      && id in b.seen && b.seen[id] == IdealSession(repo(st.key), Start(id in b.inherited), st.ops)
      && (id in b.open <==> st.open)
      && (st.open ==> id in views && b.open[id].key == st.key && views[id] == IdealView(repo(st.key), Start(id in b.inherited), st.ops))
      && (id in b.inherited ==> st.key in Grim(script))
  }

  /** How one thing that happens changes the books. */
  ghost predicate Booked(b: Books, views: map<Id, View>, d: Doing, b': Books, views': map<Id, View>, repo: Key -> Repository, grim: set<Key>) {
    match d
    case Arrive(id, key) =>
      if id in b.seen then b' == b && views' == views
      else
        && id in b'.open && b'.open == b.open[id := b'.open[id]] && b'.open[id].key == key && b'.seen == b.seen[id := []]
        && (forall j :: j != id ==> (j in b'.inherited <==> j in b.inherited)) && views' == views[id := Start(id in b'.inherited)]
        && (id in b'.inherited ==> key in grim)
    case Act(id, op) =>
      if id !in b.open || id !in b.seen || id !in views then b' == b && views' == views
      else
        var next := Ideal(repo(b.open[id].key), views[id], op);
        && id in b'.open && b'.open == b.open[id := b'.open[id]] && b'.open[id].key == b.open[id].key
        && b'.seen == b.seen[id := b.seen[id] + [next.0]] && b'.inherited == b.inherited && views' == views[id := next.1]
    case Leave(id) => b' == b.(open := b.open - {id}) && views' == views - {id}
    case _ => b' == b && views' == views
  }

  predicate Concerns(d: Doing, id: Id) {
    (d.Arrive? || d.Act? || d.Leave?) && d.id == id
  }

  /** What another request does is no matter. */
  lemma OthersUntouched(b: Books, views: map<Id, View>, d: Doing, b': Books, views': map<Id, View>, repo: Key -> Repository,
                        grim: set<Key>, id: Id)
    requires Booked(b, views, d, b', views', repo, grim) && !Concerns(d, id)
    ensures (id in b'.seen <==> id in b.seen) && (id in b.seen ==> b'.seen[id] == b.seen[id])
    ensures (id in b'.open <==> id in b.open) && (id in b.open ==> b'.open[id] == b.open[id])
    ensures (id in views' <==> id in views) && (id in views ==> views'[id] == views[id])
    ensures id in b'.inherited <==> id in b.inherited
  {
  }

  lemma StoryGrows(script: seq<Doing>, d: Doing, id: Id)
    ensures StoryOf(script + [d], id) == Told(StoryOf(script, id), id, d)
    ensures Grim(script) <= Grim(script + [d])
  {
    assert (script + [d])[..|script|] == script;
  }

  lemma ChronicleAct(script: seq<Doing>, d: Doing, b: Books, views: map<Id, View>, b': Books, views': map<Id, View>,
                     repo: Key -> Repository)
    requires d.Act? && Chronicled(script, b, views, repo, d.id) && Booked(b, views, d, b', views', repo, Grim(script))
    ensures Chronicled(script + [d], b', views', repo, d.id)
  {
    StoryGrows(script, d, d.id);
    var st := StoryOf(script, d.id);
    if st.Some? { IdealSnoc(repo(st.value.key), Start(d.id in b.inherited), st.value.ops, d.op); }
  }

  lemma ChronicleStep(script: seq<Doing>, d: Doing, b: Books, views: map<Id, View>, b': Books, views': map<Id, View>,
                      repo: Key -> Repository, id: Id)
    requires Chronicled(script, b, views, repo, id) && Booked(b, views, d, b', views', repo, Grim(script))
    ensures Chronicled(script + [d], b', views', repo, id)
  {
    StoryGrows(script, d, id);
    if !Concerns(d, id) {
      OthersUntouched(b, views, d, b', views', repo, Grim(script), id);
    } else if d.Act? {
      ChronicleAct(script, d, b, views, b', views', repo);
    }
  }

  // ---- everything together --------------------------------------------------------------------

  /** All batches, processes and readers in use are in `known`. */
  ghost predicate Within(entries: seq<Entry>, open: map<Id, Held>, known: set<object>) {
    && (forall e :: e in entries ==> e.batch in known && e.batch.process in known)
    && (forall i :: i in open ==> open[i].batch in known && open[i].batch.process in known && (open[i].reader != null ==> open[i].reader in known))
  }

  ghost predicate Sane(cache: BatchCache, b: Books, views: map<Id, View>, repo: Key -> Repository, grim: set<Key>, known: set<object>)
    reads cache, known
    reads set e | e in cache.entries :: e.batch, set e | e in cache.entries :: e.batch.process
    reads set i | i in b.open :: b.open[i].batch.process, set i | i in b.open && b.open[i].reader != null :: b.open[i].reader
    reads set i | i in b.open && b.open[i].reader != null :: b.open[i].reader.process
  {
    && CacheOk(cache, repo, grim) && Apart(cache.entries, b.open) && OpenOk(b.open, views, repo, grim)
    && b.open.Keys <= b.seen.Keys && Within(cache.entries, b.open, known) && cache !in known
  }

  method DoArrive(cache: BatchCache, b: Books, ghost views: map<Id, View>, d: Doing, repo: Key -> Repository, ghost grim: set<Key>,
                  ghost known: set<object>)
    returns (b': Books, ghost views': map<Id, View>, ghost known': set<object>)
    requires Sane(cache, b, views, repo, grim, known) && d.Arrive? && forall t, r :: Sound(repo(d.key)(t, r))
    modifies cache`entries, known
    ensures Sane(cache, b', views', repo, grim, known') && Booked(b, views, d, b', views', repo, grim)
    ensures cache !in known' && forall o :: o in known' ==> o in known || fresh(o)
  {
    b', views', known' := b, views, known;
    if d.id in b.seen { return; }
    var held, dead := Admit(cache, b.open, views, d.id, d.key, repo, grim);
    b' := Books(b.open[d.id := held], b.seen[d.id := []], if dead then b.inherited + {d.id} else b.inherited - {d.id});
    views' := views[d.id := Start(dead)];
    known' := known + {held.batch, held.batch.process};
  }

  lemma StillApart(entries: seq<Entry>, open: map<Id, Held>, id: Id, held: Held)
    requires Apart(entries, open) && id in open && held.batch == open[id].batch
    ensures Apart(entries, open[id := held])
  {
  }

  lemma StillWithin(entries: seq<Entry>, open: map<Id, Held>, known: set<object>, id: Id, held: Held)
    requires Within(entries, open, known) && id in open && held.batch == open[id].batch
    ensures Within(entries, open[id := held], if held.reader != null then known + {held.reader} else known)
  {
  }

  method DoAct(cache: BatchCache, b: Books, ghost views: map<Id, View>, d: Doing, ghost repo: Key -> Repository, ghost grim: set<Key>,
               ghost known: set<object>)
    returns (b': Books, ghost views': map<Id, View>, ghost known': set<object>)
    requires Sane(cache, b, views, repo, grim, known) && d.Act? && Usable(d.op)
    modifies known
    ensures Sane(cache, b', views', repo, if Deadly(d.op) && d.id in b.open then grim + {b.open[d.id].key} else grim, known')
    ensures Booked(b, views, d, b', views', repo, grim)
    ensures cache !in known' && forall o :: o in known' ==> o in known || fresh(o)
  {
    b', views', known' := b, views, known;
    if d.id !in b.open { return; }
    var held, event := ActOn(cache, b.open, views, d.id, d.op, repo, grim);
    StillApart(cache.entries, b.open, d.id, held);
    StillWithin(cache.entries, b.open, known, d.id, held);
    b' := b.(open := b.open[d.id := held], seen := b.seen[d.id := b.seen[d.id] + [event]]);
    views' := views[d.id := Ideal(repo(b.open[d.id].key), views[d.id], d.op).1];
    if held.reader != null { known' := known + {held.reader}; }
  }

  method DoLeave(cache: BatchCache, b: Books, ghost views: map<Id, View>, d: Doing, now: nat, ghost repo: Key -> Repository,
                 ghost grim: set<Key>, ghost known: set<object>)
    returns (b': Books, ghost views': map<Id, View>)
    requires Sane(cache, b, views, repo, grim, known) && d.Leave? && now >= cache.clock
    modifies cache, known
    ensures Sane(cache, b', views', repo, grim, known) && Booked(b, views, d, b', views', repo, grim) && cache.clock <= now
  {
    b', views' := b.(open := b.open - {d.id}), views - {d.id};
    if d.id !in b.open {
      assert b'.open == b.open && views' == views;
      return;
    }
    Dismiss(cache, b.open, views, d.id, now, repo, grim);
  }

  /** The monitor's sweep, or the eviction of everything, takes nothing from anybody. */
  method DoEvict(cache: BatchCache, ghost b: Books, ghost views: map<Id, View>, everything: bool, now: nat, ghost repo: Key -> Repository,
                 ghost grim: set<Key>, ghost known: set<object>)
    requires Sane(cache, b, views, repo, grim, known)
    modifies cache`entries, set e | e in cache.entries :: e.batch
    ensures Sane(cache, b, views, repo, grim, known)
  {
    if everything { cache.Evict(); } else { cache.EnforceTTL(now); }
  }

  method Do(cache: BatchCache, b: Books, ghost views: map<Id, View>, d: Doing, now: nat, repo: Key -> Repository, ghost grim: set<Key>,
            ghost known: set<object>)
    returns (b': Books, ghost views': map<Id, View>, ghost known': set<object>)
    requires Sane(cache, b, views, repo, grim, known) && now >= cache.clock && (d.Act? ==> Usable(d.op))
    requires forall k, t, r :: Sound(repo(k)(t, r))
    modifies cache, known
    ensures Sane(cache, b', views', repo, if d.Act? && Deadly(d.op) && d.id in b.open then grim + {b.open[d.id].key} else grim, known')
    ensures Booked(b, views, d, b', views', repo, grim) && cache.clock <= now
    ensures cache !in known' && forall o :: o in known' ==> o in known || fresh(o)
  {
    b', views', known' := b, views, known;
    match d
    case Arrive(_, _) => b', views', known' := DoArrive(cache, b, views, d, repo, grim, known);
    case Act(_, _) => b', views', known' := DoAct(cache, b, views, d, repo, grim, known);
    case Leave(_) => b', views' := DoLeave(cache, b, views, d, now, repo, grim, known);
    case Sweep => DoEvict(cache, b, views, false, now, repo, grim, known);
    case EvictAll => DoEvict(cache, b, views, true, now, repo, grim, known);
    case Pass(_) =>
  }

  ghost predicate Chronicle(script: seq<Doing>, b: Books, views: map<Id, View>, repo: Key -> Repository) {
    forall id :: Chronicled(script, b, views, repo, id)
  }

  lemma ChronicleGrows(script: seq<Doing>, d: Doing, b: Books, views: map<Id, View>, b': Books, views': map<Id, View>,
                       repo: Key -> Repository)
    requires Chronicle(script, b, views, repo) && Booked(b, views, d, b', views', repo, Grim(script))
    ensures Chronicle(script + [d], b', views', repo)
  {
    forall id ensures Chronicled(script + [d], b', views', repo, id) {
      ChronicleStep(script, d, b, views, b', views', repo, id);
    }
  }

  lemma ChronicleTells(script: seq<Doing>, b: Books, views: map<Id, View>, repo: Key -> Repository)
    requires Chronicle(script, b, views, repo)
    ensures forall id :: id in b.seen <==> StoryOf(script, id).Some?
    ensures forall id :: id in b.seen ==>
              var st := StoryOf(script, id).value; b.seen[id] == IdealSession(repo(st.key), Start(id in b.inherited), st.ops)
    ensures forall id :: id in b.inherited ==> id in b.seen && StoryOf(script, id).value.key in Grim(script)
  {
    forall id ensures id in b.seen <==> StoryOf(script, id).Some? { assert Chronicled(script, b, views, repo, id); }
    forall id | id in b.seen
      ensures var st := StoryOf(script, id).value; b.seen[id] == IdealSession(repo(st.key), Start(id in b.inherited), st.ops)
    {
      assert Chronicled(script, b, views, repo, id);
    }
    forall id | id in b.inherited ensures id in b.seen && StoryOf(script, id).value.key in Grim(script) {
      assert Chronicled(script, b, views, repo, id);
    }
  }

  lemma GrimStep(script: seq<Doing>, d: Doing, b: Books, views: map<Id, View>, repo: Key -> Repository)
    requires Chronicle(script, b, views, repo)
    ensures Grim(script + [d]) ==
            if d.Act? && Deadly(d.op) && d.id in b.open then Grim(script) + {b.open[d.id].key} else Grim(script)
  {
    assert (script + [d])[..|script|] == script;
    if d.Act? { assert Chronicled(script, b, views, repo, d.id); }
  }

  /** Caching is invisible. Whatever the cache's size and time to live, however many requests hold
      processes at the same time, for whatever keys, however their sessions interleave, however they
      leave their processes behind, and however the repositories change meanwhile: each request sees
      exactly the events of an ideal session of its own. The one thing it can notice is that the process
      it got had ended before, and then one has ended for its key. */
  method ServeAll(ttl: nat, maxLen: int, script: seq<Doing>, repo: Key -> Repository)
    returns (seen: map<Id, seq<Event>>, inherited: set<Id>)
    requires Possible(script) && forall k, t, r :: Sound(repo(k)(t, r))
    ensures forall id :: id in seen <==> StoryOf(script, id).Some?
    ensures forall id :: id in seen ==>
              var st := StoryOf(script, id).value; seen[id] == IdealSession(repo(st.key), Start(id in inherited), st.ops)
    ensures forall id :: id in inherited ==> id in seen && StoryOf(script, id).value.key in Grim(script)
  {
    var cache := new BatchCache(ttl, maxLen);
    var b, now := Books(map[], map[], {}), 0;
    ghost var views: map<Id, View>, known: set<object>, grim: set<Key> := map[], {}, {};
    for i := 0 to |script|
      invariant Sane(cache, b, views, repo, grim, known) && now >= cache.clock
      invariant forall o :: o in known ==> fresh(o)
      invariant Chronicle(script[..i], b, views, repo) && grim == Grim(script[..i])
    {
      var d := script[i];
      GrimStep(script[..i], d, b, views, repo);
      assert script[..i + 1] == script[..i] + [d];
      ghost var b0, views0 := b, views;
      b, views, known := Do(cache, b, views, d, now, repo, grim, known);
      ChronicleGrows(script[..i], d, b0, views0, b, views, repo);
      grim := Grim(script[..i + 1]);
      if d.Pass? { now := now + d.time; }
    }
    assert script[..|script|] == script;
    ChronicleTells(script, b, views, repo);
    seen, inherited := b.seen, b.inherited;
  }
}
