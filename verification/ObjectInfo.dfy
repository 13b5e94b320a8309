/** The header line of `git cat-file --batch` (internal/git/catfile/objectinfo.go), as the section
    "BATCH OUTPUT" of git-cat-file(1) lays it down. */
module ObjectInfos {
  import opened Prelude

  datatype ObjectInfo = ObjectInfo(oid: bytes, kind: bytes, size: int)

  datatype InfoError = NotFound | InvalidInfoLine | InvalidOid | InvalidSize

  const MAX_INT64: int := 0x7fff_ffff_ffff_ffff
  const MISSING: bytes := " missing"
  const AMBIGUOUS: bytes := " ambiguous"

  predicate HasSuffix(s: bytes, suffix: bytes) {
    |suffix| <= |s| && s[|s| - |suffix|..] == suffix
  }

  /** strings.Split(s, " "): the fields between single spaces, at least one. */
  function Fields(s: bytes): (r: seq<bytes>)
    ensures |r| >= 1
  {
    var i := IndexOf(s, SPACE);
    if i == |s| then [s] else [s[..i]] + Fields(s[i + 1..])
  }

  predicate Digit(c: byte) { '0' <= c <= '9' }

  predicate Digits(s: bytes) { s != [] && forall i :: 0 <= i < |s| ==> Digit(s[i]) }

  function DigitValue(c: byte): (d: nat)
    requires Digit(c)
  {
    c as int - '0' as int
  }

  function Value(s: bytes): nat
    requires forall i :: 0 <= i < |s| ==> Digit(s[i])
  {
    if s == [] then 0 else 10 * Value(s[..|s| - 1]) + DigitValue(s[|s| - 1])
  }

  /** strconv.ParseInt(s, 10, 64). */
  function ParseInt(s: bytes): Option<int> {
    var negative := s != [] && s[0] == '-';
    var digits := if s != [] && (s[0] == '-' || s[0] == '+') then s[1..] else s;
    if !Digits(digits) then None
    else if negative then (if Value(digits) <= MAX_INT64 + 1 then Some(0 - Value(digits)) else None)
    else (if Value(digits) <= MAX_INT64 then Some(Value(digits)) else None)
  }

  predicate HexLower(c: byte) { '0' <= c <= '9' || 'a' <= c <= 'f' }

  predicate ValidOid(s: bytes) { |s| == 40 && forall i :: 0 <= i < |s| ==> HexLower(s[i]) }

  /** ParseObjectInfo, after the line has been read and its newline removed. */
  function ParseInfoLine(line: bytes): Result<ObjectInfo, InfoError> {
    if HasSuffix(line, MISSING) then Err(NotFound)
    else
      var info := Fields(line);
      if |info| != 3 then Err(InvalidInfoLine)
      else if !ValidOid(info[0]) then Err(InvalidOid)
      else
        var size := ParseInt(info[2]);
        if size.None? then Err(InvalidSize) else Ok(ObjectInfo(info[0], info[1], size.value))
  }

  // ---- what git prints ------------------------------------------------------------------------

  function Decimal(n: nat): (s: bytes)
    ensures Digits(s)
  {
    var last := ['0' + (n % 10) as char];
    if n < 10 then last else Decimal(n / 10) + last
  }

  /** An object type is a word. */
  predicate Word(s: bytes) { s != [] && SPACE !in s && NEWLINE !in s }

  function Header(info: ObjectInfo): bytes
    requires info.size >= 0
  {
    info.oid + [SPACE] + info.kind + [SPACE] + Decimal(info.size)
  }

  lemma {:induction false} ValueDecimal(n: nat)
    ensures Value(Decimal(n)) == n
  {
    var last := ['0' + (n % 10) as char];
    if n >= 10 {
      ValueDecimal(n / 10);
      assert Decimal(n)[..|Decimal(n)| - 1] == Decimal(n / 10);
    } else {
      assert Decimal(n)[..0] == [];
    }
  }

  lemma FirstField(word: bytes, rest: bytes)
    requires SPACE !in word
    ensures Fields(word) == [word]
    ensures Fields(word + [SPACE] + rest) == [word] + Fields(rest)
  {
    var s := word + [SPACE] + rest;
    var i := IndexOf(s, SPACE);
    assert s[|word|] == SPACE;
    assert forall k :: 0 <= k < |word| ==> s[k] == word[k];
    assert i == |word| && s[..i] == word && s[i + 1..] == rest;
  }

  lemma ParseDecimal(n: nat)
    requires n <= MAX_INT64
    ensures ParseInt(Decimal(n)) == Some(n)
  {
    ValueDecimal(n);
    assert Digit(Decimal(n)[0]);
  }

  /** A numeral parses to its value, with or without a sign, exactly if that fits into 64 bits. */
  lemma ParseIntExactly(s: bytes)
    requires Digits(s)
    ensures ParseInt(s) == if Value(s) < 0x8000_0000_0000_0000 then Some(Value(s)) else None
    ensures ParseInt(['+'] + s) == if Value(s) < 0x8000_0000_0000_0000 then Some(Value(s)) else None
    ensures ParseInt(['-'] + s) == if Value(s) <= 0x8000_0000_0000_0000 then Some(0 - Value(s)) else None
  {
    assert Digit(s[0]);
    assert (['+'] + s)[1..] == s && (['-'] + s)[1..] == s;
  }

  lemma SuffixEnds(s: bytes, suffix: bytes)
    requires s != [] && suffix != []
    ensures HasSuffix(s, suffix) ==> s[|s| - 1] == suffix[|suffix| - 1]
  {
    if HasSuffix(s, suffix) { assert s[|s| - |suffix|..][|suffix| - 1] == s[|s| - 1]; }
  }

  lemma HeaderFields(info: ObjectInfo)
    requires ValidOid(info.oid) && Word(info.kind) && info.size >= 0
    ensures Fields(Header(info)) == [info.oid, info.kind, Decimal(info.size)]
    ensures NEWLINE !in Header(info)
  {
    var d := Decimal(info.size);
    assert SPACE !in d && NEWLINE !in d by { assert forall i :: 0 <= i < |d| ==> Digit(d[i]); }
    assert SPACE !in info.oid && NEWLINE !in info.oid by { assert forall i :: 0 <= i < |info.oid| ==> HexLower(info.oid[i]); }
    assert Header(info) == info.oid + [SPACE] + (info.kind + [SPACE] + d);
    FirstField(info.oid, info.kind + [SPACE] + d);
    FirstField(info.kind, d);
    FirstField(d, []);
  }

  /** The header that git prints for an object parses to that object's data. */
  lemma HeaderRoundTrip(info: ObjectInfo)
    requires ValidOid(info.oid) && Word(info.kind) && 0 <= info.size < 0x8000_0000_0000_0000
    ensures ParseInfoLine(Header(info)) == Ok(info)
  {
    HeaderFields(info);
    ParseDecimal(info.size);
    var h := Header(info);
    var d := Decimal(info.size);
    assert h[|h| - 1] == d[|d| - 1] && Digit(d[|d| - 1]);
    SuffixEnds(h, MISSING);
  }

  /** A line says "not found" exactly when it is something followed by a space and "missing". */
  lemma MissingIsNotFound(line: bytes)
    ensures ParseInfoLine(line) == Err(NotFound) <==> exists revision :: line == revision + " missing"
  {
    if ParseInfoLine(line) == Err(NotFound) {
      var revision := line[..|line| - |MISSING|];
      assert line == revision + " missing";
    }
    if revision :| line == revision + " missing" {
      assert line[|line| - |MISSING|..] == MISSING;
    }
  }

  lemma {:induction false} LastField(s: bytes, word: bytes)
    requires SPACE !in word
    ensures var f := Fields(s + [SPACE] + word); f[|f| - 1] == word
  {
    var t := s + [SPACE] + word;
    var i := IndexOf(s, SPACE);
    if i == |s| {
      FirstField(s, word);
      FirstField(word, []);
    } else {
      var rest := s[i + 1..] + [SPACE] + word;
      assert SPACE !in s[..i];
      assert t == s[..i] + [SPACE] + rest;
      FirstField(s[..i], rest);
      LastField(s[i + 1..], word);
    }
  }

  /** Git's answer to an ambiguous name is an error, but not "not found". */
  lemma AmbiguousIsInvalid(revision: bytes)
    ensures var r := ParseInfoLine(revision + AMBIGUOUS); r.Err? && r.error != NotFound
  {
    var line := revision + AMBIGUOUS;
    assert line == revision + [SPACE] + "ambiguous";
    LastField(revision, "ambiguous");
    assert !Digit("ambiguous"[0]);
    assert line[|line| - 1] == 's';
    SuffixEnds(line, MISSING);
  }
}
