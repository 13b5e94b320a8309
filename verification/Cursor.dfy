/** Positions with change notifications (internal/streamcache/cursor.go).

    `Cursor` is the value a cursor holds; `CursorObject` is the mutable object, whose methods are
    proved to compute the functions on values. The methods run under the cursor's mutex, so other
    components may treat each of them as one step. */
module Cursors {

  /** A cursor's fields. `done` says whether doneChan is closed. */
  datatype Cursor<N(==)> = Cursor(pos: int, subscribers: seq<N>, done: bool) {

    function Subscribe(n: N): Cursor<N> {
      this.(subscribers := subscribers + [n])
    }

    function Unsubscribe(n: N): Cursor<N> {
      var rest := Without(subscribers, n);
      this.(subscribers := rest, done := done || rest == [])
    }

    function SetPosition(p: int): Cursor<N> {
      if p <= pos then this else this.(pos := p)
    }
  }

  /** `s` without the first occurrence of `x`. */
  function Without<N(==)>(s: seq<N>, x: N): (r: seq<N>)
    ensures |r| <= |s|
    ensures forall y :: y in r ==> y in s
  {
    if s == [] then [] else if s[0] == x then s[1..] else [s[0]] + Without(s[1..], x)
  }

  ghost predicate Distinct<N>(s: seq<N>) {
    forall i, j :: 0 <= i < j < |s| ==> s[i] != s[j]
  }

  lemma {:induction false} WithoutSplits<N>(s: seq<N>, x: N, i: nat)
    requires i < |s| && s[i] == x && x !in s[..i]
    ensures Without(s, x) == s[..i] + s[i + 1..]
  {
    if i > 0 {
      assert s[0] in s[..i];
      assert s[1..][..i - 1] == s[..i][1..];
      WithoutSplits(s[1..], x, i - 1);
    }
  }

  lemma {:induction false} WithoutAbsent<N>(s: seq<N>, x: N)
    requires x !in s
    ensures Without(s, x) == s
  {
    if s != [] { WithoutAbsent(s[1..], x); }
  }

  /** Unsubscribing one of several distinct subscribers removes it and nothing else. */
  lemma {:induction false} WithoutDistinct<N>(s: seq<N>, x: N)
    requires Distinct(s)
    ensures Distinct(Without(s, x))
    ensures forall y :: y in Without(s, x) <==> y in s && y != x
  {
    if s != [] && s[0] != x {
      WithoutDistinct(s[1..], x);
      var r := Without(s[1..], x);
      assert Without(s, x) == [s[0]] + r;
      assert s[0] !in r by { assert forall j :: 1 <= j < |s| ==> s[0] != s[j]; }
    } else if s != [] {
      assert forall y :: y in s[1..] ==> y != x;
      assert forall y :: y in s && y != x ==> y in s[1..];
    }
  }

  /** A channel with one slot; `token` says whether the slot is taken. */
  class Notifier {
    var token: bool

    constructor ()
      ensures !token
    {
      token := false;
    }

    /** Never blocks, and leaves the slot taken. */
    method Notify()
      modifies this
      ensures token
    {
      if !token { token := true; }
    }
  }

  class CursorObject {
    var pos: int
    var subscribers: seq<Notifier>
    var done: bool

    function View(): Cursor<Notifier>
      reads this
    {
      Cursor(pos, subscribers, done)
    }

    constructor ()
      ensures View() == Cursor(0, [], false)
    {
      pos, subscribers, done := 0, [], false;
    }

    method Subscribe() returns (n: Notifier)
      modifies this
      ensures fresh(n) && !n.token
      ensures View() == old(View()).Subscribe(n)
    {
      n := new Notifier();
      subscribers := subscribers + [n];
    }

    /** Removes one subscription, and closes the done channel when none is left. */
    method Unsubscribe(n: Notifier)
      modifies this
      ensures View() == old(View()).Unsubscribe(n)
    {
      var i := 0;
      while i < |subscribers| && subscribers[i] != n
        invariant 0 <= i <= |subscribers| && n !in subscribers[..i]
        invariant View() == old(View())
      {
        i := i + 1;
      }
      if i < |subscribers| {
        WithoutSplits(subscribers, n, i);
        subscribers := subscribers[..i] + subscribers[i + 1..];
      } else {
        WithoutAbsent(subscribers, n);
      }
      if |subscribers| == 0 && !done {
        done := true;
      }
    }

    /** Moves forward only. Exactly when the position grew, every subscriber has a token. */
    method SetPosition(p: int)
      modifies this, subscribers
      ensures View() == old(View()).SetPosition(p)
      ensures p > old(pos) ==> forall n :: n in subscribers ==> n.token
      ensures p <= old(pos) ==> forall n :: n in subscribers ==> n.token == old(n.token)
    {
      if p <= pos { return; }
      pos := p;
      for i := 0 to |subscribers|
        invariant View() == old(View()).SetPosition(p)
        invariant forall k :: 0 <= k < i ==> subscribers[k].token
      {
        subscribers[i].Notify();
      }
    }
  }
}
