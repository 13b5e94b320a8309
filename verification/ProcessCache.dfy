/** The cache of `git cat-file` processes (internal/git/catfile/batch_cache.go). All methods run
    under the cache's mutex. Time is a parameter, in nanoseconds; it does not run backwards. */
module ProcessCache {
  import opened Prelude
  import opened Catfile

  /** newCacheKey's result. */
  type Key = string

  class Batch {
    const process: BatchProcess
    var closed: bool

    constructor (process: BatchProcess)
      ensures this.process == process && !closed
    {
      this.process := process;
      closed := false;
    }

    method Close()
      modifies this
      ensures closed
    {
      if !closed { closed := true; }
    }
  }

  /** The process is in step with its stream and has at most a newline left to read. */
  ghost predicate Clean(b: Batch)
    reads b.process
  {
    b.process.Valid() && b.process.n <= 1
  }

  datatype Entry = Entry(key: Key, batch: Batch, expiry: nat)

  /** The entries that do not have key `k`, in order. */
  function WithoutKey(entries: seq<Entry>, k: Key): seq<Entry> {
    if entries == [] then []
    else (if entries[0].key == k then [] else [entries[0]]) + WithoutKey(entries[1..], k)
  }

  /** The entries that have not expired at `now`, in order. */
  function Unexpired(entries: seq<Entry>, now: nat): seq<Entry> {
    if entries == [] then []
    else (if entries[0].expiry < now then [] else [entries[0]]) + Unexpired(entries[1..], now)
  }

  function LastOf<T>(s: seq<T>, n: nat): seq<T> {
    if |s| <= n then s else s[|s| - n..]
  }

  ghost predicate Ordered(entries: seq<Entry>) {
    forall i, j :: 0 <= i < j < |entries| ==> entries[i].expiry <= entries[j].expiry
  }

  ghost predicate UniqueKeys(entries: seq<Entry>) {
    forall i, j :: 0 <= i < j < |entries| ==> entries[i].key != entries[j].key
  }

  ghost predicate UniqueBatches(entries: seq<Entry>) {
    forall i, j :: 0 <= i < j < |entries| ==> entries[i].batch != entries[j].batch
  }

  /** What the entries by themselves have to satisfy; `latest` bounds the expiries. */
  ghost predicate Tidy(entries: seq<Entry>, maxLen: nat, latest: nat) {
    && |entries| <= maxLen && UniqueKeys(entries) && UniqueBatches(entries) && Ordered(entries)
    && forall i :: 0 <= i < |entries| ==> entries[i].expiry <= latest
  }

  lemma TidySuffix(entries: seq<Entry>, k: nat, maxLen: nat, latest: nat)
    requires Tidy(entries, maxLen, latest) && k <= |entries|
    ensures Tidy(entries[k..], maxLen, latest)
  {
  }

  /** In an ordered list the expired entries are in front, so the head decides. */
  lemma {:induction false} UnexpiredIsSuffix(entries: seq<Entry>, k: nat, now: nat)
    requires Ordered(entries) && k <= |entries|
    requires forall i :: 0 <= i < k ==> entries[i].expiry < now
    requires k < |entries| ==> entries[k].expiry >= now
    ensures Unexpired(entries, now) == entries[k..]
    ensures forall i :: k <= i < |entries| ==> entries[i].expiry >= now
  {
    if k > 0 {
      UnexpiredIsSuffix(entries[1..], k - 1, now);
      assert entries[1..][k - 1..] == entries[k..];
    } else if entries != [] {
      assert |entries| > 1 ==> entries[0].expiry <= entries[1].expiry;
      UnexpiredIsSuffix(entries[1..], 0, now);
      assert entries[0..] == entries;
    }
  }

  lemma {:induction false} WithoutKeySplits(entries: seq<Entry>, k: Key, i: nat)
    requires UniqueKeys(entries) && i < |entries| && entries[i].key == k
    ensures WithoutKey(entries, k) == entries[..i] + entries[i + 1..]
  {
    if i == 0 {
      assert entries[..0] == [];
      WithoutKeyAbsent(entries[1..], k);
    } else {
      WithoutKeySplits(entries[1..], k, i - 1);
      assert entries[1..][..i - 1] == entries[..i][1..] && entries[1..][i..] == entries[i + 1..];
    }
  }

  lemma {:induction false} WithoutKeyAbsent(entries: seq<Entry>, k: Key)
    requires forall i :: 0 <= i < |entries| ==> entries[i].key != k
    ensures WithoutKey(entries, k) == entries
  {
    if entries != [] { WithoutKeyAbsent(entries[1..], k); }
  }

  /** Dropping one key keeps the rest tidy, and so does a new last entry with a fresh key. */
  lemma TidyWithout(entries: seq<Entry>, i: nat, maxLen: nat, latest: nat)
    requires Tidy(entries, maxLen, latest) && i < |entries|
    ensures Tidy(entries[..i] + entries[i + 1..], maxLen, latest)
    ensures forall e :: e in entries[..i] + entries[i + 1..] ==> e.key != entries[i].key
  {
  }

  lemma TidyAppend(entries: seq<Entry>, e: Entry, maxLen: nat, latest: nat)
    requires Tidy(entries, maxLen, latest) && latest <= e.expiry
    requires forall i :: 0 <= i < |entries| ==> entries[i].key != e.key && entries[i].batch != e.batch
    ensures Tidy(entries + [e], maxLen + 1, e.expiry)
  {
  }

  class BatchCache {
    const maxLen: nat
    const ttl: nat
    var entries: seq<Entry>
    ghost var clock: nat

    /** Keys are unique, the length is bounded, expiries do not decrease, and every batch is open,
        owned by one entry, and clean. */
    ghost predicate Valid()
      reads this, set e | e in entries :: e.batch, set e | e in entries :: e.batch.process
    {
      && maxLen > 0 && Tidy(entries, maxLen, clock + ttl)
      && forall e :: e in entries ==> !e.batch.closed && Clean(e.batch)
    }

    constructor (ttl: nat, maxLen: int)
      ensures Valid() && entries == [] && clock == 0
      ensures this.ttl == ttl && this.maxLen == if maxLen <= 0 then 100 else maxLen
    {
      this.ttl := ttl;
      this.maxLen := if maxLen <= 0 then 100 else maxLen;
      entries, clock := [], 0;
    }

    method Lookup(k: Key) returns (i: int, ok: bool)
      ensures ok ==> 0 <= i < |entries| && entries[i].key == k
      ensures !ok ==> forall j :: 0 <= j < |entries| ==> entries[j].key != k
    {
      for j := 0 to |entries|
        invariant forall m :: 0 <= m < j ==> entries[m].key != k
      {
        if entries[j].key == k { return j, true; }
      }
      return -1, false;
    }

    /** Takes one entry out, and closes its batch if that is wanted. */
    method Delete(i: nat, wantClose: bool)
      requires i < |entries|
      modifies this`entries, entries[i].batch
      ensures entries == old(entries)[..i] + old(entries)[i + 1..]
      ensures if wantClose then old(entries[i].batch).closed else old(entries[i].batch).closed == old(entries[i].batch.closed)
    {
      var ent := entries[i];
      if wantClose { ent.batch.Close(); }
      entries := entries[..i] + entries[i + 1..];
    }

    /** The loop that evicts heads as long as they have expired. */
    method EvictExpiredHeads(now: nat) returns (ghost k: nat)
      requires UniqueBatches(entries) && forall i :: 0 <= i < |entries| ==> !entries[i].batch.closed
      modifies this`entries, set e | e in entries :: e.batch
      ensures k <= |old(entries)| && entries == old(entries)[k..]
      ensures forall i :: 0 <= i < k ==> old(entries)[i].batch.closed && old(entries)[i].expiry < now
      ensures forall i :: k <= i < |old(entries)| ==> !old(entries)[i].batch.closed
      ensures entries != [] ==> entries[0].expiry >= now
    {
      k := 0;
      while |entries| > 0 && entries[0].expiry < now
        invariant 0 <= k <= |old(entries)| && entries == old(entries)[k..]
        invariant forall i :: 0 <= i < k ==> old(entries)[i].batch.closed && old(entries)[i].expiry < now
        invariant forall i :: k <= i < |old(entries)| ==> !old(entries)[i].batch.closed
        decreases |entries|
      {
        assert entries[0] == old(entries)[k];
        Delete(0, true);
        k := k + 1;
      }
    }

    /** Evicts exactly the expired entries, although it looks only at the head, and closes exactly
        their batches. */
    method EnforceTTL(now: nat)
      requires Valid()
      modifies this`entries, set e | e in entries :: e.batch
      ensures Valid() && entries == Unexpired(old(entries), now) && forall e :: e in entries ==> e in old(entries)
      ensures forall e :: e in old(entries) ==> (e.batch.closed <==> e.expiry < now)
    {
      ghost var all := entries;
      ghost var k := EvictExpiredHeads(now);
      UnexpiredIsSuffix(all, k, now);
      TidySuffix(all, k, maxLen, clock + ttl);
    }

    /** Evicts heads until at most `n` entries are left. */
    method EvictDownTo(n: nat)
      requires UniqueBatches(entries) && forall i :: 0 <= i < |entries| ==> !entries[i].batch.closed
      modifies this`entries, set e | e in entries :: e.batch
      ensures entries == LastOf(old(entries), n)
      ensures forall e :: e in old(entries) ==> (e.batch.closed <==> e !in entries)
    {
      ghost var k := 0;
      while |entries| > n
        invariant 0 <= k <= |old(entries)| && entries == old(entries)[k..]
        invariant k > 0 ==> |old(entries)| - k >= n
        invariant forall i :: 0 <= i < |old(entries)| ==> (old(entries)[i].batch.closed <==> i < k)
        decreases |entries|
      {
        assert entries[0] == old(entries)[k];
        Delete(0, true);
        k := k + 1;
      }
      forall i | 0 <= i < |old(entries)| ensures old(entries)[i] in entries <==> i >= k { SuffixMember(old(entries), n, i); }
    }

    /** Evict closes everything. */
    method Evict()
      requires Valid()
      modifies this`entries, set e | e in entries :: e.batch
      ensures Valid() && entries == []
      ensures forall e :: e in old(entries) ==> e.batch.closed
    {
      EvictDownTo(0);
    }

    /** Takes out the entry with key `k`, if there is one, and closes its batch if that is wanted. */
    method Remove(k: Key, wantClose: bool) returns (found: Option<Batch>)
      requires Valid()
      modifies this`entries, set e | e in entries :: e.batch
      ensures Valid() && entries == WithoutKey(old(entries), k)
      ensures forall e :: e in entries ==> e in old(entries) && e.key != k
      ensures forall e :: e in old(entries) && e.key != k ==> e in entries
      ensures found.Some? <==> exists e :: e in old(entries) && e.key == k
      ensures found.Some? ==> (forall e :: e in old(entries) ==> (e.batch == found.value <==> e.key == k))
      ensures forall e :: e in old(entries) ==> (e.batch.closed <==> wantClose && e.key == k)
    {
      ghost var all := entries;
      forall e ensures e in WithoutKey(all, k) <==> e in all && e.key != k { WithoutKeyMember(all, k, e); }
      var i, ok := Lookup(k);
      if !ok {
        WithoutKeyAbsent(entries, k);
        return None;
      }
      WithoutKeySplits(entries, k, i);
      TidyWithout(entries, i, maxLen, clock + ttl);
      found := Some(entries[i].batch);
      Delete(i, wantClose);
      assert all[i] in all;
    }

    /** Checkout hands the batch over to the caller: open, clean, and no longer in the cache. */
    method Checkout(k: Key) returns (r: Option<Batch>)
      requires Valid()
      modifies this`entries, set e | e in entries :: e.batch
      ensures Valid() && entries == WithoutKey(old(entries), k)
      ensures forall e :: e in entries ==> e in old(entries) && e.key != k
      ensures r.Some? <==> exists e :: e in old(entries) && e.key == k
      ensures r.Some? ==> exists e :: e in old(entries) && e.key == k && e.batch == r.value
      ensures r.Some? ==> !r.value.closed && Clean(r.value) && forall e :: e in entries ==> e.batch != r.value
      ensures forall e :: e in old(entries) ==> !e.batch.closed
    {
      r := Remove(k, false);
      if r.Some? {
        ghost var e :| e in old(entries) && e.key == k;
      }
    }

    /** Evicts the oldest entries over the limit. */
    method Trim()
      requires maxLen > 0 && Tidy(entries, maxLen + 1, clock + ttl)
      requires forall e :: e in entries ==> !e.batch.closed && Clean(e.batch)
      modifies this`entries, set e | e in entries :: e.batch
      ensures Valid() && entries == LastOf(old(entries), maxLen)
      ensures forall e :: e in old(entries) ==> (e.batch.closed <==> e !in entries)
    {
      ghost var all := entries;
      EvictDownTo(maxLen);
      TidySuffix(all, if |all| <= maxLen then 0 else |all| - maxLen, maxLen + 1, clock + ttl);
    }

    /** Appends an entry whose key is not there yet, and evicts the oldest ones over the limit. */
    method AddFresh(e: Entry)
      requires Valid() && !e.batch.closed && Clean(e.batch) && e.expiry >= clock + ttl
      requires forall x :: x in entries ==> x.batch != e.batch && x.key != e.key
      modifies this, e.batch, set x | x in entries :: x.batch
      ensures Valid() && clock == e.expiry - ttl && !e.batch.closed
      ensures entries == LastOf(old(entries) + [e], maxLen)
      ensures forall x :: x in old(entries) ==> (x.batch.closed <==> x !in entries)
    {
      TidyAppend(entries, e, maxLen, clock + ttl);
      entries, clock := entries + [e], e.expiry - ttl;
      ghost var grown := entries;
      Trim();
      SuffixMember(grown, maxLen, |grown| - 1);
    }

    /** Add replaces an entry with the same key and then evicts the oldest ones over the limit. The
        batches that leave the cache, and no others, get closed. */
    method Add(k: Key, b: Batch, now: nat)
      requires Valid() && !b.closed && Clean(b) && now >= clock
      requires forall e :: e in entries ==> e.batch != b
      modifies this, b, set e | e in entries :: e.batch
      ensures Valid() && clock == now && !b.closed
      ensures entries == LastOf(WithoutKey(old(entries), k) + [Entry(k, b, now + ttl)], maxLen)
      ensures forall e :: e in old(entries) ==> (e.batch.closed <==> e !in entries)
    {
      var replaced := Remove(k, true);
      ghost var kept := entries;
      AddFresh(Entry(k, b, now + ttl));
      forall e | e in old(entries) ensures e.batch.closed <==> e !in entries {
        if e.key == k {
          assert forall x :: x in kept ==> x.batch != e.batch;
        } else {
          assert e in kept;
        }
      }
    }
  }

  /** returnWhenDone: a batch comes back into the cache exactly when it is open and clean; one with
      unread data is closed instead. */
  method ReturnWhenDone(cache: BatchCache, k: Key, b: Batch, now: nat)
    requires cache.Valid() && b.process.Valid() && now >= cache.clock
    requires forall e :: e in cache.entries ==> e.batch != b
    modifies cache, b, set e | e in cache.entries :: e.batch
    ensures cache.Valid() && cache.clock <= now
    ensures old(b.closed) || |b.process.frame| > 1 ==> b.closed && cache.entries == old(cache.entries)
    ensures !old(b.closed) && |b.process.frame| <= 1 ==>
              !b.closed && cache.entries == LastOf(WithoutKey(old(cache.entries), k) + [Entry(k, b, now + cache.ttl)], cache.maxLen)
  {
    if b.closed { return; }
    var unread := b.process.HasUnreadData();
    if unread {
      b.Close();
      return;
    }
    cache.Add(k, b, now);
  }

  // ---- requests through the cache -------------------------------------------------------------

  /** No two entries share a process. */
  ghost predicate OwnProcesses(entries: seq<Entry>) {
    forall e, f :: e in entries && f in entries && e.batch.process == f.batch.process ==> e == f
  }

  /** A process cached under a key is one of that key's repository. */
  ghost predicate Belongs(entries: seq<Entry>, repo: Key -> Repository) {
    forall e :: e in entries ==> e.batch.process.answer == repo(e.key)
  }

  /** What BatchProcess hands out: the cached batch if there is one for the key, and otherwise one with a
      new process. */
  method Obtain(cache: BatchCache, k: Key, repo: Key -> Repository) returns (b: Batch)
    requires cache.Valid() && OwnProcesses(cache.entries) && Belongs(cache.entries, repo)
    requires forall t, r :: Sound(repo(k)(t, r))
    modifies cache`entries, set e | e in cache.entries :: e.batch
    ensures cache.Valid() && cache.entries == WithoutKey(old(cache.entries), k)
    ensures forall e :: e in cache.entries ==> e in old(cache.entries) && e.key != k
    ensures !b.closed && Clean(b) && b.process.answer == repo(k)
    ensures forall e :: e in cache.entries ==> e.batch != b && e.batch.process != b.process
    ensures if exists e :: e in old(cache.entries) && e.key == k then exists e :: e in old(cache.entries) && e.key == k && e.batch == b
            else fresh(b) && fresh(b.process) && b.process.alive
  {
    var cached := cache.Checkout(k);
    if cached.Some? {
      ghost var f :| f in old(cache.entries) && f.key == k && f.batch == cached.value;
      assert forall e :: e in cache.entries ==> e in old(cache.entries) && e != f;
      return cached.value;
    }
    var process := new BatchProcess(repo(k));
    b := new Batch(process);
  }

  /** A batch that comes back joins the others, whether or not it replaces one. */
  lemma Returned(before: seq<Entry>, after: seq<Entry>, k: Key, b: Batch, expiry: nat, maxLen: nat, repo: Key -> Repository)
    requires OwnProcesses(before) && Belongs(before, repo) && b.process.answer == repo(k)
    requires forall e :: e in before ==> e.batch.process != b.process
    requires after == before || after == LastOf(WithoutKey(before, k) + [Entry(k, b, expiry)], maxLen)
    ensures OwnProcesses(after) && Belongs(after, repo)
    ensures forall e :: e in after ==> e in before || e == Entry(k, b, expiry)
  {
    var grown := WithoutKey(before, k) + [Entry(k, b, expiry)];
    forall e | e in grown ensures e in before || e == Entry(k, b, expiry) {
      WithoutKeyMember(before, k, e);
    }
    assert forall e :: e in LastOf(grown, maxLen) ==> e in grown;
  }

  /** Whether an element of a list of distinct batches is among its last `n`. */
  lemma SuffixMember(entries: seq<Entry>, n: nat, i: nat)
    requires UniqueBatches(entries) && i < |entries|
    ensures entries[i] in LastOf(entries, n) <==> i >= |entries| - n
  {
    if i >= |entries| - n && |entries| > n { assert LastOf(entries, n)[i - (|entries| - n)] == entries[i]; }
  }

  lemma {:induction false} WithoutKeyMember(entries: seq<Entry>, k: Key, e: Entry)
    ensures e in WithoutKey(entries, k) <==> e in entries && e.key != k
  {
    if entries != [] { WithoutKeyMember(entries[1..], k, e); }
  }
}
