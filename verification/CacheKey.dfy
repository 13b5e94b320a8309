/** The byte string that names a cached response (internal/cache/keyer.go).

    SHA-256 itself is not modelled: two cache paths are taken to be equal exactly when the hashed
    byte strings are equal, so what matters is that the byte string determines its components. */
module CacheKey {
  import opened Prelude

  /** What a lookup is about, apart from the repository's cache generation. */
  datatype Call = Call(version: bytes, rpcMethod: bytes, request: bytes, flags: bytes)

  const LIMIT: nat := 0x1_0000_0000

  /** Every component is short enough for its length to fit in eight hexadecimal digits. */
  predicate Encodable(call: Call, gen: bytes) {
    && |call.version| < LIMIT
    && |call.rpcMethod| < LIMIT
    && |gen| < LIMIT
    && |call.request| < LIMIT
    && |call.flags| < LIMIT
  }

  function HexDigit(d: nat): (c: byte)
    requires d < 16
  {
    "0123456789abcdef"[d]
  }

  function HexValue(c: byte): (d: nat)
  {
    if '0' <= c <= '9' then c as int - '0' as int
    else if 'a' <= c <= 'f' then c as int - 'a' as int + 10
    else 0
  }

  /** The hexadecimal numeral of `n` with no leading zeros. */
  function Hex(n: nat): (s: bytes)
    ensures |s| > 0
  {
    if n < 16 then [HexDigit(n)] else Hex(n / 16) + [HexDigit(n % 16)]
  }

  function Zeros(k: nat): (s: bytes)
  {
    seq(k, _ => '0')
  }

  /** fmt's "%08x": at least eight digits, padded on the left with zeros. */
  function PaddedHex(n: nat): (s: bytes)
  {
    if |Hex(n)| < 8 then Zeros(8 - |Hex(n)|) + Hex(n) else Hex(n)
  }

  function PrefixLen(s: bytes): bytes {
    PaddedHex(|s|) + s
  }

  /** The five strings that are hashed, in the order of the loop. */
  function Components(call: Call, gen: bytes): seq<bytes> {
    [call.version, call.rpcMethod, gen, call.request, call.flags]
  }

  function Encode(parts: seq<bytes>): bytes {
    if parts == [] then [] else PrefixLen(parts[0]) + Encode(parts[1..])
  }

  /** Everything written into the hash. */
  function Preimage(call: Call, gen: bytes): bytes {
    Encode(Components(call, gen))
  }

  // ---- decoding -------------------------------------------------------------------------------

  function Unhex(s: bytes): nat {
    if s == [] then 0 else 16 * Unhex(s[..|s| - 1]) + HexValue(s[|s| - 1])
  }

  /** Splits one length-prefixed component off the front of `s`. */
  function Split(s: bytes): (r: Option<(bytes, bytes)>)
    ensures r.Some? ==> |r.value.0| + |r.value.1| + 8 == |s|
  {
    if |s| < 8 || 8 + Unhex(s[..8]) > |s| then None
    else
      var n := Unhex(s[..8]);
      Some((s[8..8 + n], s[8 + n..]))
  }

  lemma UnhexSnoc(s: bytes, d: nat)
    requires d < 16
    ensures Unhex(s + [HexDigit(d)]) == 16 * Unhex(s) + d
  {
    assert (s + [HexDigit(d)])[..|s|] == s;
  }

  lemma {:induction false} UnhexHex(n: nat)
    ensures Unhex(Hex(n)) == n
  {
    if n >= 16 {
      UnhexHex(n / 16);
      UnhexSnoc(Hex(n / 16), n % 16);
    } else {
      UnhexSnoc([], n);
      assert [] + [HexDigit(n)] == Hex(n);
    }
  }

  lemma {:induction false} UnhexZeros(k: nat, s: bytes)
    ensures Unhex(Zeros(k) + s) == Unhex(s)
    decreases |s|, k
  {
    if s != [] {
      assert (Zeros(k) + s)[..k + |s| - 1] == Zeros(k) + s[..|s| - 1];
      UnhexZeros(k, s[..|s| - 1]);
    } else if k > 0 {
      assert (Zeros(k) + s)[..k - 1] == Zeros(k - 1) + [];
      UnhexZeros(k - 1, []);
    } else {
      assert Zeros(0) + s == s;
    }
  }

  function Pow16(k: nat): nat {
    if k == 0 then 1 else 16 * Pow16(k - 1)
  }

  lemma {:induction false} HexLength(n: nat, k: nat)
    requires k >= 1 && n < Pow16(k)
    ensures |Hex(n)| <= k
  {
    if n >= 16 {
      HexLength(n / 16, k - 1);
    }
  }

  lemma PaddedHexFits(n: nat)
    requires n < LIMIT
    ensures |PaddedHex(n)| == 8 && Unhex(PaddedHex(n)) == n
  {
    assert Pow16(8) == LIMIT by {
      assert Pow16(4) == 0x1_0000;
      assert Pow16(6) == 0x100_0000;
    }
    HexLength(n, 8);
    UnhexHex(n);
    UnhexZeros(8 - |Hex(n)|, Hex(n));
    assert Zeros(0) + Hex(n) == Hex(n);
  }

  /** A length prefix makes a component self-delimiting. */
  lemma SplitPrefixLen(s: bytes, rest: bytes)
    requires |s| < LIMIT
    ensures Split(PrefixLen(s) + rest) == Some((s, rest))
  {
    PaddedHexFits(|s|);
    var t := PrefixLen(s) + rest;
    assert t[..8] == PaddedHex(|s|);
    assert t[8..8 + |s|] == s;
    assert t[8 + |s|..] == rest;
  }

  lemma {:induction false} EncodeInjective(a: seq<bytes>, b: seq<bytes>)
    requires |a| == |b|
    requires forall i :: 0 <= i < |a| ==> |a[i]| < LIMIT && |b[i]| < LIMIT
    requires Encode(a) == Encode(b)
    ensures a == b
  {
    if a != [] {
      SplitPrefixLen(a[0], Encode(a[1..]));
      SplitPrefixLen(b[0], Encode(b[1..]));
      EncodeInjective(a[1..], b[1..]);
      assert a == [a[0]] + a[1..] && b == [b[0]] + b[1..];
    }
  }

  /** Two lookups hash the same byte string exactly when every component is the same. */
  lemma PreimageInjective(a: Call, g: bytes, b: Call, h: bytes)
    requires Encodable(a, g) && Encodable(b, h)
    ensures Preimage(a, g) == Preimage(b, h) <==> a == b && g == h
  {
    if Preimage(a, g) == Preimage(b, h) {
      var p, q := Components(a, g), Components(b, h);
      EncodeInjective(p, q);
      assert p[0] == q[0] && p[1] == q[1] && p[2] == q[2] && p[3] == q[3] && p[4] == q[4];
    }
  }
}
