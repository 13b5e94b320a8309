/** What parsing and resolving do to a file that was printed from common lines and conflict hunks. */
module ConflictRoundTrip {
  import opened Prelude
  import opened ObjectInfos
  import opened Conflict

  /** A stretch of common lines, or a conflict with the lines of either side. */
  datatype Piece = Common(lines: seq<bytes>) | Hunk(ours: seq<bytes>, theirs: seq<bytes>)

  /** The markers that git prints around the sides of a conflict. */
  function MarkersFor(our: bytes, their: bytes): Markers {
    Markers("<<<<<<< " + our, "=======", ">>>>>>> " + their)
  }

  predicate GoodMarkers(m: Markers) {
    && m.start != m.middle && m.start != m.end && m.middle != m.end
    && NEWLINE !in m.start && NEWLINE !in m.middle && NEWLINE !in m.end
  }

  lemma MarkersAreGood(our: bytes, their: bytes)
    requires NEWLINE !in our && NEWLINE !in their
    ensures GoodMarkers(MarkersFor(our, their))
  {
    var m := MarkersFor(our, their);
    assert m.start[0] == '<' && m.middle[0] == '=' && m.end[0] == '>';
    assert NEWLINE !in "<<<<<<< " && NEWLINE !in ">>>>>>> ";
  }

  /** A line of payload: not a marker, no newline in it, and not a remark of the diff. */
  predicate Plain(m: Markers, l: bytes) {
    l != m.start && l != m.middle && l != m.end && NEWLINE !in l && !(|l| > 0 && l[0] == BACKSLASH)
  }

  predicate AllPlain(m: Markers, ls: seq<bytes>) {
    forall i :: 0 <= i < |ls| ==> Plain(m, ls[i])
  }

  predicate PlainPiece(m: Markers, p: Piece) {
    match p
    case Common(lines) => AllPlain(m, lines)
    case Hunk(ours, theirs) => AllPlain(m, ours) && AllPlain(m, theirs)
  }

  predicate AllPlainPieces(m: Markers, ps: seq<Piece>) {
    forall i :: 0 <= i < |ps| ==> PlainPiece(m, ps[i])
  }

  function PrintPiece(m: Markers, p: Piece): seq<bytes> {
    match p
    case Common(lines) => lines
    case Hunk(ours, theirs) => ([m.start] + ours) + ([m.middle] + theirs) + [m.end]
  }

  function PrintLines(m: Markers, ps: seq<Piece>): seq<bytes> {
    if ps == [] then [] else PrintPiece(m, ps[0]) + PrintLines(m, ps[1..])
  }

  function Terminated(ls: seq<bytes>): bytes {
    if ls == [] then [] else ls[0] + [NEWLINE] + Terminated(ls[1..])
  }

  function Print(m: Markers, ps: seq<Piece>): bytes {
    Terminated(PrintLines(m, ps))
  }

  // ---- parsing a printed file -----------------------------------------------------------------

  function FeedAll(m: Markers, st: State, ls: seq<bytes>): Result<State, ParseError>
    decreases |ls|
  {
    if ls == [] then Ok(st)
    else
      var fed := Feed(m, st, ls[0]);
      if fed.Err? then fed else FeedAll(m, fed.value, ls[1..])
  }

  lemma SplitsAt(sep: byte, l: bytes, rest: bytes)
    requires sep !in l
    ensures var s := l + [sep] + rest;
            IndexOf(s, sep) == |l| < |s| && s[..|l|] == l && s[|l| + 1..] == rest
  {
    var s := l + [sep] + rest;
    assert s[|l|] == sep;
    assert forall k :: 0 <= k < |l| ==> s[k] == l[k];
  }

  lemma {:induction false} LinesOfTerminated(ls: seq<bytes>)
    requires forall i :: 0 <= i < |ls| ==> NEWLINE !in ls[i]
    ensures LinesOf(Terminated(ls)) == ls
  {
    if ls != [] {
      SplitsAt(NEWLINE, ls[0], Terminated(ls[1..]));
      LinesOfTerminated(ls[1..]);
    }
  }

  /** Below the size limit a scan is nothing but feeding the lines. */
  lemma {:induction false} ScanFeeds(m: Markers, st: State, ls: seq<bytes>, read: nat, total: nat)
    requires read <= total < FILE_LIMIT && forall i :: 0 <= i < |ls| ==> |ls[i]| < FILE_LIMIT
    ensures Scan(m, st, ls, read, total) == FeedAll(m, st, ls)
    decreases |ls|
  {
    if ls != [] {
      var fed := Feed(m, st, ls[0]);
      if fed.Ok? { ScanFeeds(m, fed.value, ls[1..], Read(read, |ls[0]|, total), total); }
    }
  }

  lemma {:induction false} LinesFit(s: bytes)
    ensures forall i :: 0 <= i < |LinesOf(s)| ==> |LinesOf(s)[i]| <= |s|
    decreases |s|
  {
    if s != [] {
      LinesStep(s);
      LinesFit(s[Advance(s)..]);
    }
  }

  lemma {:induction false} FeedConcat(m: Markers, st: State, a: seq<bytes>, b: seq<bytes>)
    ensures FeedAll(m, st, a + b) == var mid := FeedAll(m, st, a); if mid.Err? then mid else FeedAll(m, mid.value, b)
    decreases |a|
  {
    if a == [] {
      assert a + b == b;
    } else {
      assert (a + b)[1..] == a[1..] + b;
      var fed := Feed(m, st, a[0]);
      if fed.Ok? { FeedConcat(m, fed.value, a[1..], b); }
    }
  }

  /** The lines that a stretch of payload in one section is stored as, and the count after it. */
  function Numbered(c: Count, section: Section, ls: seq<bytes>): seq<Line>
    decreases |ls|
  {
    if ls == [] then [] else [LineAt(c, ls[0], section)] + Numbered(Next(c, section), section, ls[1..])
  }

  function Later(c: Count, section: Section, n: nat): Count {
    Count(c.objs + n, if section.SectionNew? then c.olds else c.olds + n, if section.SectionOld? then c.news else c.news + n)
  }

  lemma {:induction false} FeedPlain(m: Markers, st: State, ls: seq<bytes>)
    requires AllPlain(m, ls)
    ensures FeedAll(m, st, ls) == Ok(State(st.lines + Numbered(st.count, st.section, ls), Later(st.count, st.section, |ls|), st.section))
    decreases |ls|
  {
    if ls == [] {
      assert st.lines + [] == st.lines;
    } else {
      var st' := State(st.lines + [LineAt(st.count, ls[0], st.section)], Next(st.count, st.section), st.section);
      assert Feed(m, st, ls[0]) == Ok(st');
      FeedPlain(m, st', ls[1..]);
      var rest := Numbered(st'.count, st.section, ls[1..]);
      assert st'.lines + rest == st.lines + ([LineAt(st.count, ls[0], st.section)] + rest);
    }
  }

  function PieceLines(c: Count, p: Piece): seq<Line> {
    match p
    case Common(lines) => Numbered(c, SectionNone, lines)
    case Hunk(ours, theirs) => Numbered(c, SectionNew, ours) + Numbered(Later(c, SectionNew, |ours|), SectionOld, theirs)
  }

  function PieceCount(c: Count, p: Piece): Count {
    match p
    case Common(lines) => Later(c, SectionNone, |lines|)
    case Hunk(ours, theirs) => Later(Later(c, SectionNew, |ours|), SectionOld, |theirs|)
  }

  function AllLines(c: Count, ps: seq<Piece>): seq<Line>
    decreases |ps|
  {
    if ps == [] then [] else PieceLines(c, ps[0]) + AllLines(PieceCount(c, ps[0]), ps[1..])
  }

  lemma FeedMarker(m: Markers, st: State, l: bytes, to: Section)
    requires Feed(m, st, l) == Ok(st.(section := to))
    ensures FeedAll(m, st, [l]) == Ok(st.(section := to))
  {
    assert [l][1..] == [];
  }

  /** A marker that opens a side, and the side's lines. */
  lemma FeedSide(m: Markers, st: State, marker: bytes, side: Section, ls: seq<bytes>)
    requires Feed(m, st, marker) == Ok(st.(section := side)) && AllPlain(m, ls)
    ensures FeedAll(m, st, [marker] + ls) == Ok(State(st.lines + Numbered(st.count, side, ls), Later(st.count, side, |ls|), side))
  {
    FeedMarker(m, st, marker, side);
    FeedPlain(m, st.(section := side), ls);
    FeedConcat(m, st, [marker], ls);
  }

  lemma FeedHunk(m: Markers, st: State, ours: seq<bytes>, theirs: seq<bytes>)
    requires GoodMarkers(m) && st.section.SectionNone? && AllPlain(m, ours) && AllPlain(m, theirs)
    ensures var p := Hunk(ours, theirs);
            FeedAll(m, st, PrintPiece(m, p)) == Ok(State(st.lines + PieceLines(st.count, p), PieceCount(st.count, p), SectionNone))
  {
    var c := Later(st.count, SectionNew, |ours|);
    var new', old' := Numbered(st.count, SectionNew, ours), Numbered(c, SectionOld, theirs);
    var s1 := State(st.lines + new', c, SectionNew);
    FeedSide(m, st, m.start, SectionNew, ours);
    var s2 := State(s1.lines + old', Later(c, SectionOld, |theirs|), SectionOld);
    FeedSide(m, s1, m.middle, SectionOld, theirs);
    FeedConcat(m, st, [m.start] + ours, [m.middle] + theirs);
    FeedMarker(m, s2, m.end, SectionNone);
    FeedConcat(m, st, ([m.start] + ours) + ([m.middle] + theirs), [m.end]);
    Associative(st.lines, new', old');
  }

  lemma FeedPiece(m: Markers, st: State, p: Piece)
    requires GoodMarkers(m) && st.section.SectionNone? && PlainPiece(m, p)
    ensures FeedAll(m, st, PrintPiece(m, p)) == Ok(State(st.lines + PieceLines(st.count, p), PieceCount(st.count, p), SectionNone))
  {
    match p
    case Common(lines) => FeedPlain(m, st, lines);
    case Hunk(ours, theirs) => FeedHunk(m, st, ours, theirs);
  }

  lemma FeedFirst(m: Markers, st: State, st': State, ps: seq<Piece>)
    requires ps != [] && GoodMarkers(m) && st.section.SectionNone? && PlainPiece(m, ps[0])
    requires st' == State(st.lines + PieceLines(st.count, ps[0]), PieceCount(st.count, ps[0]), SectionNone)
    ensures FeedAll(m, st, PrintLines(m, ps)) == FeedAll(m, st', PrintLines(m, ps[1..]))
  {
    FeedPiece(m, st, ps[0]);
    FeedConcat(m, st, PrintPiece(m, ps[0]), PrintLines(m, ps[1..]));
  }

  function AllCount(c: Count, ps: seq<Piece>): Count
    decreases |ps|
  {
    if ps == [] then c else AllCount(PieceCount(c, ps[0]), ps[1..])
  }

  lemma {:induction false} FeedPieces(m: Markers, st: State, ps: seq<Piece>)
    requires GoodMarkers(m) && st.section.SectionNone? && AllPlainPieces(m, ps)
    ensures FeedAll(m, st, PrintLines(m, ps)) == Ok(State(st.lines + AllLines(st.count, ps), AllCount(st.count, ps), SectionNone))
    decreases |ps|
  {
    if ps == [] {
      assert st.lines + [] == st.lines;
      return;
    }
    var here, c := PieceLines(st.count, ps[0]), PieceCount(st.count, ps[0]);
    var st' := State(st.lines + here, c, SectionNone);
    FeedFirst(m, st, st', ps);
    FeedPieces(m, st', ps[1..]);
    Associative(st.lines, here, AllLines(c, ps[1..]));
  }

  lemma Associative<T>(a: seq<T>, b: seq<T>, c: seq<T>)
    ensures a + b + c == a + (b + c)
  {
  }

  lemma {:induction false} PrintedLinesHaveNoNewline(m: Markers, ps: seq<Piece>)
    requires GoodMarkers(m) && AllPlainPieces(m, ps)
    ensures forall l :: l in PrintLines(m, ps) ==> NEWLINE !in l
    decreases |ps|
  {
    if ps != [] {
      PrintedLinesHaveNoNewline(m, ps[1..]);
      assert PlainPiece(m, ps[0]);
      assert forall l :: l in PrintPiece(m, ps[0]) ==> NEWLINE !in l;
    }
  }

  /** A file prints the pieces when its lines are theirs; its last line may lack the newline. */
  predicate Prints(m: Markers, ps: seq<Piece>, src: bytes) {
    src != [] && LinesOf(src) == PrintLines(m, ps)
  }

  lemma PrintPrints(m: Markers, ps: seq<Piece>)
    requires GoodMarkers(m) && AllPlainPieces(m, ps)
    requires Print(m, ps) != []
    ensures Prints(m, ps, Print(m, ps))
  {
    PrintedLinesHaveNoNewline(m, ps);
    LinesOfTerminated(PrintLines(m, ps));
  }

  /** Parsing a printed file yields its lines, each with its side and its place in either file. */
  lemma ParsePrinted(m: Markers, ps: seq<Piece>, src: bytes)
    requires GoodMarkers(m) && AllPlainPieces(m, ps)
    requires Prints(m, ps, src) && |src| < FILE_LIMIT
    ensures Parsed(m, src) == Ok(AllLines(FIRST.count, ps))
  {
    LinesFit(src);
    ScanFeeds(m, FIRST, LinesOf(src), 0, |src|);
    FeedPieces(m, FIRST, ps);
    assert FIRST.lines + AllLines(FIRST.count, ps) == AllLines(FIRST.count, ps);
  }

  // ---- only printed files are accepted --------------------------------------------------------

  predicate Remark(l: bytes) {
    |l| > 0 && l[0] == BACKSLASH
  }

  /** A line that may come out of a file without remarks. */
  predicate Usual(l: bytes) {
    NEWLINE !in l && !Remark(l)
  }

  predicate AllUsual(ls: seq<bytes>) {
    forall i :: 0 <= i < |ls| ==> Usual(ls[i])
  }

  /** The scan has neither failed nor stopped inside a conflict. */
  predicate Closes(m: Markers, st: State, ls: seq<bytes>) {
    var r := FeedAll(m, st, ls);
    r.Ok? && !r.value.section.SectionOld? && !r.value.section.SectionNew?
  }

  /** Inside one side of a conflict the lines up to the next marker are payload, and that marker is
      the one that ends the side. */
  lemma {:induction false} TakeSide(m: Markers, st: State, ls: seq<bytes>)
    returns (payload: seq<bytes>, rest: seq<bytes>, st': State)
    requires GoodMarkers(m) && AllUsual(ls) && Closes(m, st, ls) && (st.section.SectionNew? || st.section.SectionOld?)
    ensures ls == payload + [if st.section.SectionNew? then m.middle else m.end] + rest && |rest| < |ls|
    ensures AllPlain(m, payload) && AllUsual(rest) && Closes(m, st', rest)
    ensures st'.section == if st.section.SectionNew? then SectionOld else SectionNone
    decreases |ls|
  {
    var fed := Feed(m, st, ls[0]);
    if ls[0] == m.middle || ls[0] == m.end {
      payload, rest, st' := [], ls[1..], fed.value;
      assert ls == [] + [ls[0]] + ls[1..];
    } else {
      assert Plain(m, ls[0]);
      var more;
      more, rest, st' := TakeSide(m, fed.value, ls[1..]);
      payload := [ls[0]] + more;
      assert ls == [ls[0]] + ls[1..];
    }
  }

  lemma TakeHunk(m: Markers, st: State, ls: seq<bytes>) returns (p: Piece, rest: seq<bytes>, st': State)
    requires GoodMarkers(m) && AllUsual(ls) && Closes(m, st, ls) && st.section.SectionNone? && ls != [] && ls[0] == m.start
    ensures PlainPiece(m, p) && ls == PrintPiece(m, p) + rest && |rest| < |ls|
    ensures AllUsual(rest) && Closes(m, st', rest) && st'.section.SectionNone?
  {
    var ours, mid, st1 := TakeSide(m, Feed(m, st, ls[0]).value, ls[1..]);
    var theirs, tail, st2 := TakeSide(m, st1, mid);
    p, rest, st' := Hunk(ours, theirs), tail, st2;
    assert ls == [m.start] + ls[1..];
  }

  lemma {:induction false} Unprint(m: Markers, st: State, ls: seq<bytes>) returns (ps: seq<Piece>)
    requires GoodMarkers(m) && AllUsual(ls) && Closes(m, st, ls) && st.section.SectionNone?
    ensures AllPlainPieces(m, ps) && PrintLines(m, ps) == ls
    decreases |ls|
  {
    if ls == [] { return []; }
    var p, rest, st';
    if ls[0] == m.start {
      p, rest, st' := TakeHunk(m, st, ls);
    } else {
      p, rest, st' := Common([ls[0]]), ls[1..], Feed(m, st, ls[0]).value;
      assert ls == [ls[0]] + ls[1..];
    }
    var more := Unprint(m, st', rest);
    ps := [p] + more;
    assert ps[1..] == more;
  }

  lemma {:induction false} LinesHaveNoNewline(s: bytes)
    ensures forall i :: 0 <= i < |LinesOf(s)| ==> NEWLINE !in LinesOf(s)[i]
    decreases |s|
  {
    if s != [] {
      LinesStep(s);
      LinesHaveNoNewline(s[Advance(s)..]);
    }
  }

  /** Parse accepts exactly the printed files: a non-empty file below the size limit, in which no line
      starts with a backslash, parses if and only if its lines are those of common lines and complete
      conflicts. */
  lemma AcceptsExactly(m: Markers, src: bytes)
    requires GoodMarkers(m) && src != [] && |src| < FILE_LIMIT
    requires forall i :: 0 <= i < |LinesOf(src)| ==> !Remark(LinesOf(src)[i])
    ensures Parsed(m, src).Ok? <==> exists ps :: AllPlainPieces(m, ps) && Prints(m, ps, src)
  {
    LinesFit(src);
    LinesHaveNoNewline(src);
    ScanFeeds(m, FIRST, LinesOf(src), 0, |src|);
    if Parsed(m, src).Ok? {
      var ps := Unprint(m, FIRST, LinesOf(src));
      assert AllPlainPieces(m, ps) && Prints(m, ps, src);
    }
    forall ps | AllPlainPieces(m, ps) && Prints(m, ps, src) ensures Parsed(m, src).Ok? {
      ParsePrinted(m, ps, src);
    }
  }

  // ---- section IDs ----------------------------------------------------------------------------

  lemma UnderscoreSplits(a: bytes, b: bytes, c: bytes, d: bytes)
    requires '_' !in a && '_' !in c && a + ['_'] + b == c + ['_'] + d
    ensures a == c && b == d
  {
    SplitsAt('_', a, b);
    SplitsAt('_', c, d);
  }

  /** Within one file, sections that start at different places have different IDs. */
  lemma SectionKeyInjective(hash: bytes, o1: nat, n1: nat, o2: nat, n2: nat)
    ensures SectionKey(hash, o1, n1) == SectionKey(hash, o2, n2) <==> o1 == o2 && n1 == n2
  {
    var a, b, c, d := Decimal(o1), Decimal(n1), Decimal(o2), Decimal(n2);
    if SectionKey(hash, o1, n1) == SectionKey(hash, o2, n2) {
      assert SectionKey(hash, o1, n1)[|hash| + 1..] == a + ['_'] + b;
      assert SectionKey(hash, o2, n2)[|hash| + 1..] == c + ['_'] + d;
      assert '_' !in a && '_' !in c by {
        assert forall i :: 0 <= i < |a| ==> Digit(a[i]);
        assert forall i :: 0 <= i < |c| ==> Digit(c[i]);
      }
      UnderscoreSplits(a, b, c, d);
      ValueDecimal(o1); ValueDecimal(n1); ValueDecimal(o2); ValueDecimal(n2);
    }
  }

  // ---- resolving a printed file ---------------------------------------------------------------

  /** Between two hunks there is at least one common line. */
  predicate Separated(ps: seq<Piece>) {
    forall i :: 0 <= i < |ps| - 1 && ps[i].Hunk? ==> ps[i + 1].Common? && ps[i + 1].lines != []
  }

  predicate Empty(p: Piece) {
    p.Hunk? && p.ours == [] && p.theirs == []
  }

  function Key(hash: bytes, c: Count): bytes {
    SectionKey(hash, c.olds, c.news)
  }

  predicate Chosen(sections: map<bytes, bytes>, id: bytes) {
    id in sections && (sections[id] == HEAD || sections[id] == ORIGIN)
  }

  /** The ID that a conflict at `c` goes by: that of the conflict right before it, if there is one. */
  function IdAt(hash: bytes, current: Option<bytes>, c: Count): bytes {
    if current.Some? then current.value else Key(hash, c)
  }

  /** What one piece adds to the resolved lines; None when it is a conflict without a valid choice. */
  function Kept(hash: bytes, sections: map<bytes, bytes>, current: Option<bytes>, c: Count, p: Piece): Option<seq<bytes>> {
    match p
    case Common(lines) => Some(lines)
    case Hunk(ours, theirs) =>
      var id := IdAt(hash, current, c);
      if Empty(p) then Some([])
      else if !Chosen(sections, id) then None
      else Some(if sections[id] == HEAD then ours else theirs)
  }

  /** The ID that is in force after a piece: a common line ends it. */
  function Carried(hash: bytes, current: Option<bytes>, c: Count, p: Piece): Option<bytes> {
    match p
    case Common(lines) => if lines == [] then current else None
    case Hunk(_, _) => if Empty(p) then current else Some(IdAt(hash, current, c))
  }

  /** The lines that a resolution asks for, or None when a conflict has no valid choice. */
  function Wanted(hash: bytes, sections: map<bytes, bytes>, current: Option<bytes>, c: Count, ps: seq<Piece>): Option<seq<bytes>>
    decreases |ps|
  {
    if ps == [] then Some([])
    else
      var kept := Kept(hash, sections, current, c, ps[0]);
      var rest := Wanted(hash, sections, Carried(hash, current, c, ps[0]), PieceCount(c, ps[0]), ps[1..]);
      if kept.None? || rest.None? then None else Some(kept.value + rest.value)
  }

  lemma {:induction false} ResolveConcat(hash: bytes, sections: map<bytes, bytes>, st: Resolving, a: seq<Line>, b: seq<Line>)
    ensures ResolveAll(hash, sections, st, a + b) ==
            var mid := ResolveAll(hash, sections, st, a); if mid.None? then None else ResolveAll(hash, sections, mid.value, b)
    decreases |a|
  {
    if a == [] {
      assert a + b == b;
    } else {
      assert (a + b)[1..] == a[1..] + b;
      var next := ResolveLine(hash, sections, st, a[0]);
      if next.Some? { ResolveConcat(hash, sections, next.value, a[1..], b); }
    }
  }

  lemma {:induction false} ResolveCommon(hash: bytes, sections: map<bytes, bytes>, st: Resolving, c: Count, ls: seq<bytes>)
    ensures ResolveAll(hash, sections, st, Numbered(c, SectionNone, ls))
            == Some(Resolving(st.lines + ls, if ls == [] then st.current else None))
    decreases |ls|
  {
    if ls == [] {
      assert st.lines + ls == st.lines;
    } else {
      var all := Numbered(c, SectionNone, ls);
      assert all[1..] == Numbered(Next(c, SectionNone), SectionNone, ls[1..]);
      ResolveCommon(hash, sections, Resolving(st.lines + [ls[0]], None), Next(c, SectionNone), ls[1..]);
      assert st.lines + [ls[0]] + ls[1..] == st.lines + ls;
    }
  }

  /** Within a section whose ID is known, the lines of the chosen side are kept. */
  lemma {:induction false} ResolveSide(hash: bytes, sections: map<bytes, bytes>, st: Resolving, c: Count, side: Section, ls: seq<bytes>)
    requires side.SectionNew? || side.SectionOld?
    requires st.current.Some? && Chosen(sections, st.current.value)
    ensures var keep := (sections[st.current.value] == HEAD) == side.SectionNew?;
            ResolveAll(hash, sections, st, Numbered(c, side, ls)) == Some(st.(lines := st.lines + if keep then ls else []))
    decreases |ls|
  {
    if ls == [] {
      assert st.lines + ls == st.lines;
    } else {
      var all := Numbered(c, side, ls);
      assert all[1..] == Numbered(Next(c, side), side, ls[1..]);
      var keep := (sections[st.current.value] == HEAD) == side.SectionNew?;
      ResolveSide(hash, sections, st.(lines := st.lines + if keep then [ls[0]] else []), Next(c, side), side, ls[1..]);
      assert st.lines + [ls[0]] + ls[1..] == st.lines + ls && st.lines + [] == st.lines;
    }
  }

  /** The first line of a section fixes the section's ID. */
  lemma ResolveFirst(hash: bytes, sections: map<bytes, bytes>, st: Resolving, c: Count, side: Section, ls: seq<bytes>, more: seq<Line>)
    requires (side.SectionNew? || side.SectionOld?) && ls != []
    ensures var id := IdAt(hash, st.current, c);
            ResolveAll(hash, sections, st, Numbered(c, side, ls) + more) ==
            if !Chosen(sections, id) then None
            else ResolveAll(hash, sections, st.(current := Some(id)), Numbered(c, side, ls) + more)
  {
    var all := Numbered(c, side, ls) + more;
    assert all[0] == LineAt(c, ls[0], side);
  }

  /** Both sides of a conflict whose ID is known. */
  lemma ResolveSides(hash: bytes, sections: map<bytes, bytes>, st: Resolving, c: Count, c': Count, ours: seq<bytes>, theirs: seq<bytes>)
    requires st.current.Some? && Chosen(sections, st.current.value)
    ensures ResolveAll(hash, sections, st, Numbered(c, SectionNew, ours) + Numbered(c', SectionOld, theirs))
            == Some(st.(lines := st.lines + if sections[st.current.value] == HEAD then ours else theirs))
  {
    var head := sections[st.current.value] == HEAD;
    ResolveSide(hash, sections, st, c, SectionNew, ours);
    ResolveConcat(hash, sections, st, Numbered(c, SectionNew, ours), Numbered(c', SectionOld, theirs));
    ResolveSide(hash, sections, st.(lines := st.lines + if head then ours else []), c', SectionOld, theirs);
    assert st.lines + ours + [] == st.lines + ours && st.lines + [] + theirs == st.lines + theirs;
  }

  lemma ResolveHunk(hash: bytes, sections: map<bytes, bytes>, st: Resolving, c: Count, ours: seq<bytes>, theirs: seq<bytes>)
    requires !Empty(Hunk(ours, theirs))
    ensures var id := IdAt(hash, st.current, c);
            ResolveAll(hash, sections, st, PieceLines(c, Hunk(ours, theirs))) ==
            if !Chosen(sections, id) then None
            else Some(Resolving(st.lines + (if sections[id] == HEAD then ours else theirs), Some(id)))
  {
    var c' := Later(c, SectionNew, |ours|);
    var a, b := Numbered(c, SectionNew, ours), Numbered(c', SectionOld, theirs);
    if ours != [] {
      ResolveFirst(hash, sections, st, c, SectionNew, ours, b);
    } else {
      assert a + b == b && b + [] == b && c'.olds == c.olds && c'.news == c.news;
      ResolveFirst(hash, sections, st, c', SectionOld, theirs, []);
    }
    var id := IdAt(hash, st.current, c);
    if Chosen(sections, id) { ResolveSides(hash, sections, st.(current := Some(id)), c, c', ours, theirs); }
  }

  /** `r` is the outcome of a resolution that started at `st` and should add the lines `w`. */
  predicate Adds(r: Option<Resolving>, st: Resolving, w: Option<seq<bytes>>) {
    if w.None? then r.None? else r.Some? && r.value.lines == st.lines + w.value
  }

  lemma ResolvePiece(hash: bytes, sections: map<bytes, bytes>, st: Resolving, c: Count, p: Piece)
    ensures var r := ResolveAll(hash, sections, st, PieceLines(c, p));
            Adds(r, st, Kept(hash, sections, st.current, c, p)) && (r.Some? ==> r.value.current == Carried(hash, st.current, c, p))
  {
    match p
    case Common(lines) => ResolveCommon(hash, sections, st, c, lines);
    case Hunk(ours, theirs) =>
      if Empty(p) {
        assert PieceLines(c, p) == [] && st.lines + [] == st.lines;
      } else {
        ResolveHunk(hash, sections, st, c, ours, theirs);
      }
  }

  lemma ResolveRest(hash: bytes, sections: map<bytes, bytes>, st: Resolving, here: seq<Line>, rest: seq<Line>,
                    kept: Option<seq<bytes>>, w: Option<seq<bytes>>)
    requires Adds(ResolveAll(hash, sections, st, here), st, kept)
    requires kept.Some? ==> var mid := ResolveAll(hash, sections, st, here).value; Adds(ResolveAll(hash, sections, mid, rest), mid, w)
    ensures Adds(ResolveAll(hash, sections, st, here + rest), st, if kept.None? || w.None? then None else Some(kept.value + w.value))
  {
    ResolveConcat(hash, sections, st, here, rest);
    if kept.Some? && w.Some? { Associative(st.lines, kept.value, w.value); }
  }

  /** Resolve keeps common lines and, of each conflict, the side that was chosen for its ID; it fails
      exactly when some conflict has no valid choice. */
  lemma {:induction false} ResolvePieces(hash: bytes, sections: map<bytes, bytes>, st: Resolving, c: Count, ps: seq<Piece>)
    ensures Adds(ResolveAll(hash, sections, st, AllLines(c, ps)), st, Wanted(hash, sections, st.current, c, ps))
    decreases |ps|
  {
    if ps == [] {
      assert st.lines + [] == st.lines;
    } else {
      var c', here := PieceCount(c, ps[0]), PieceLines(c, ps[0]);
      ResolvePiece(hash, sections, st, c, ps[0]);
      var mid := ResolveAll(hash, sections, st, here);
      if mid.Some? { ResolvePieces(hash, sections, mid.value, c', ps[1..]); }
      ResolveRest(hash, sections, st, here, AllLines(c', ps[1..]), Kept(hash, sections, st.current, c, ps[0]),
                  Wanted(hash, sections, Carried(hash, st.current, c, ps[0]), c', ps[1..]));
    }
  }

  predicate AllConflicts(ps: seq<Piece>) {
    forall i :: 0 <= i < |ps| ==> ps[i].Hunk? && !Empty(ps[i])
  }

  /** One side of each of several conflicts. */
  function Sides(ps: seq<Piece>, head: bool): seq<bytes>
    requires AllConflicts(ps)
  {
    if ps == [] then [] else (if head then ps[0].ours else ps[0].theirs) + Sides(ps[1..], head)
  }

  /** Conflicts that follow each other without a common line in between share the ID of the first, so
      the one choice for that ID decides all of them, and no choice for another ID matters. */
  lemma {:induction false} AdjacentShareChoice(hash: bytes, sections: map<bytes, bytes>, id: bytes, c: Count, ps: seq<Piece>)
    requires AllConflicts(ps) && Chosen(sections, id)
    ensures Wanted(hash, sections, Some(id), c, ps) == Some(Sides(ps, sections[id] == HEAD))
    ensures id == Key(hash, c) ==> Wanted(hash, sections, None, c, ps) == Some(Sides(ps, sections[id] == HEAD))
    decreases |ps|
  {
    if ps != [] { AdjacentShareChoice(hash, sections, id, PieceCount(c, ps[0]), ps[1..]); }
  }

  lemma SeparatedTail(ps: seq<Piece>)
    requires Separated(ps) && ps != []
    ensures Separated(ps[1..])
    ensures |ps| > 1 && ps[0].Hunk? ==> ps[1..][0].Common? && ps[1..][0].lines != []
  {
    assert forall i :: 0 <= i < |ps| - 1 ==> ps[1..][i] == ps[i + 1];
  }

  // ---- one choice for each conflict -----------------------------------------------------------

  /** The resolution that picks, for each piece that is a conflict, our side or theirs. */
  function SectionsFor(hash: bytes, c: Count, ps: seq<Piece>, head: seq<bool>): map<bytes, bytes>
    requires |head| == |ps|
    decreases |ps|
  {
    if ps == [] then map[]
    else
      var rest := SectionsFor(hash, PieceCount(c, ps[0]), ps[1..], head[1..]);
      if ps[0].Hunk? && !Empty(ps[0]) then rest[Key(hash, c) := if head[0] then "head" else "origin"] else rest
  }

  function Picked(ps: seq<Piece>, head: seq<bool>): seq<bytes>
    requires |head| == |ps|
  {
    if ps == [] then []
    else (match ps[0] case Common(lines) => lines case Hunk(ours, theirs) => if head[0] then ours else theirs)
         + Picked(ps[1..], head[1..])
  }

  /** Conflicts that start later in the old file have other IDs. */
  lemma {:induction false} EarlierKeyAbsent(hash: bytes, c: Count, ps: seq<Piece>, head: seq<bool>, o: nat, n: nat)
    requires |head| == |ps| && o < c.olds
    ensures SectionKey(hash, o, n) !in SectionsFor(hash, c, ps, head)
    decreases |ps|
  {
    if ps != [] {
      EarlierKeyAbsent(hash, PieceCount(c, ps[0]), ps[1..], head[1..], o, n);
      SectionKeyInjective(hash, o, n, c.olds, c.news);
    }
  }

  /** Separated conflicts have distinct IDs. */
  lemma OwnKeyAbsentLater(hash: bytes, c: Count, ps: seq<Piece>, head: seq<bool>)
    requires |head| == |ps| && ps != [] && Separated(ps) && ps[0].Hunk?
    ensures Key(hash, c) !in SectionsFor(hash, PieceCount(c, ps[0]), ps[1..], head[1..])
  {
    if |ps| > 1 {
      SeparatedTail(ps);
      var c' := PieceCount(c, ps[0]);
      EarlierKeyAbsent(hash, PieceCount(c', ps[1]), ps[2..], head[2..], c.olds, c.news);
      assert ps[1..][1..] == ps[2..] && head[1..][1..] == head[2..];
    }
  }

  lemma {:induction false} PicksAreWanted(hash: bytes, sections: map<bytes, bytes>, current: Option<bytes>, c: Count,
                                          ps: seq<Piece>, head: seq<bool>)
    requires |head| == |ps| && Separated(ps) && (current.Some? && ps != [] ==> ps[0].Common? && ps[0].lines != [])
    requires forall k :: k in SectionsFor(hash, c, ps, head) ==> k in sections && sections[k] == SectionsFor(hash, c, ps, head)[k]
    ensures Wanted(hash, sections, current, c, ps) == Some(Picked(ps, head))
    decreases |ps|
  {
    if ps != [] {
      SeparatedTail(ps);
      if ps[0].Hunk? { OwnKeyAbsentLater(hash, c, ps, head); }
      PicksAreWanted(hash, sections, Carried(hash, current, c, ps[0]), PieceCount(c, ps[0]), ps[1..], head[1..]);
      if ps[0].Hunk? && !Empty(ps[0]) { assert Key(hash, c) in SectionsFor(hash, c, ps, head); }
    }
  }

  lemma {:induction false} SomeSection(hash: bytes, c: Count, ps: seq<Piece>, head: seq<bool>, i: nat)
    requires |head| == |ps| && i < |ps| && ps[i].Hunk? && !Empty(ps[i])
    ensures SectionsFor(hash, c, ps, head) != map[]
    decreases |ps|
  {
    if i == 0 {
      assert Key(hash, c) in SectionsFor(hash, c, ps, head);
    } else {
      SomeSection(hash, PieceCount(c, ps[0]), ps[1..], head[1..], i - 1);
      var k :| k in SectionsFor(hash, PieceCount(c, ps[0]), ps[1..], head[1..]);
      assert k in SectionsFor(hash, c, ps, head);
    }
  }

  /** The round trip. Print common lines and separated conflicts, parse the result, and resolve it
      with any choice for each conflict: out come the common lines and the chosen sides, joined by
      newlines and ended as our file ends. */
  lemma RoundTrip(our: bytes, their: bytes, src: bytes, hash: bytes, contents: bytes, ps: seq<Piece>, head: seq<bool>, i: nat, content: bytes)
    requires NEWLINE !in our && NEWLINE !in their && |head| == |ps| && Separated(ps)
    requires AllPlainPieces(MarkersFor(our, their), ps) && Prints(MarkersFor(our, their), ps, src) && |src| < FILE_LIMIT
    requires i < |ps| && ps[i].Hunk? && !Empty(ps[i])
    ensures var parsed := Parsed(Markers("<<<<<<< " + our, "=======", ">>>>>>> " + their), src);
            && parsed.Ok?
            && Resolved(hash, parsed.value, contents, Resolution(SectionsFor(hash, FIRST.count, ps, head), content))
               == Some(Join(Picked(ps, head)) + (if EndsWithNewline(contents) then [NEWLINE] else []))
  {
    MarkersAreGood(our, their);
    ParsePrinted(MarkersFor(our, their), ps, src);
    var sections := SectionsFor(hash, FIRST.count, ps, head);
    SomeSection(hash, FIRST.count, ps, head, i);
    PicksAreWanted(hash, sections, None, FIRST.count, ps, head);
    ResolvePieces(hash, sections, Resolving([], None), FIRST.count, ps);
    assert [] + Picked(ps, head) == Picked(ps, head);
  }

  /** The same for the file that ends every printed line with a newline. */
  lemma PrintRoundTrip(our: bytes, their: bytes, hash: bytes, contents: bytes, ps: seq<Piece>, head: seq<bool>, i: nat, content: bytes)
    requires NEWLINE !in our && NEWLINE !in their && |head| == |ps| && Separated(ps)
    requires AllPlainPieces(MarkersFor(our, their), ps) && 0 < |Print(MarkersFor(our, their), ps)| < FILE_LIMIT
    requires i < |ps| && ps[i].Hunk? && !Empty(ps[i])
    ensures var parsed := Parsed(Markers("<<<<<<< " + our, "=======", ">>>>>>> " + their), Print(MarkersFor(our, their), ps));
            && parsed.Ok?
            && Resolved(hash, parsed.value, contents, Resolution(SectionsFor(hash, FIRST.count, ps, head), content))
               == Some(Join(Picked(ps, head)) + (if EndsWithNewline(contents) then [NEWLINE] else []))
  {
    var m := MarkersFor(our, their);
    MarkersAreGood(our, their);
    PrintPrints(m, ps);
    RoundTrip(our, their, Print(m, ps), hash, contents, ps, head, i, content);
  }

  /** A resolution without sections is its content, byte for byte; with sections, its content does not matter. */
  lemma ContentOrSections(hash: bytes, ls: seq<Line>, contents: bytes, sections: map<bytes, bytes>, content: bytes, other: bytes)
    ensures Resolved(hash, ls, contents, Resolution(map[], content)) == Some(content)
    ensures sections != map[] ==>
              Resolved(hash, ls, contents, Resolution(sections, content)) == Resolved(hash, ls, contents, Resolution(sections, other))
  {
  }

  // ---- choosing our side everywhere -----------------------------------------------------------

  function Ending(s: bytes): bytes {
    if EndsWithNewline(s) then [NEWLINE] else []
  }

  lemma JoinCons(l: bytes, ls: seq<bytes>)
    requires ls != []
    ensures Join([l] + ls) == l + [NEWLINE] + Join(ls)
  {
    assert ([l] + ls)[1..] == ls;
  }

  lemma JoinLinesCons(l: bytes, rest: bytes, s: bytes)
    requires NEWLINE !in l && s == l + [NEWLINE] + rest && Join(LinesOf(rest)) + Ending(rest) == rest
    ensures Join(LinesOf(s)) + Ending(s) == s
  {
    SplitsAt(NEWLINE, l, rest);
    assert LinesOf(s) == [l] + LinesOf(rest);
    JoinMore(l, LinesOf(rest), rest, s);
  }

  lemma JoinMore(l: bytes, ls: seq<bytes>, rest: bytes, s: bytes)
    requires (ls == [] <==> rest == []) && s == l + [NEWLINE] + rest && Join(ls) + Ending(rest) == rest
    ensures Join([l] + ls) + Ending(s) == s
  {
    if rest != [] {
      JoinCons(l, ls);
      assert l + [NEWLINE] + Join(ls) + Ending(rest) == l + [NEWLINE] + (Join(ls) + Ending(rest));
    }
  }

  lemma JoinOneLine(s: bytes)
    requires NEWLINE !in s
    ensures Join(LinesOf(s)) + Ending(s) == s
  {
    assert s + [] == s;
  }

  lemma {:induction false} JoinLines(s: bytes)
    ensures Join(LinesOf(s)) + Ending(s) == s
    decreases |s|
  {
    if NEWLINE !in s {
      JoinOneLine(s);
    } else {
      var i := IndexOf(s, NEWLINE);
      JoinLines(s[i + 1..]);
      JoinLinesCons(s[..i], s[i + 1..], s);
    }
  }

  function Everywhere(n: nat): seq<bool> { seq(n, _ => true) }

  /** Choosing "head" for every conflict gives back our file byte for byte, when its lines are the
      common lines and our sides. */
  lemma HeadRebuildsOurs(our: bytes, their: bytes, src: bytes, hash: bytes, contents: bytes, ps: seq<Piece>, i: nat, content: bytes)
    requires NEWLINE !in our && NEWLINE !in their && Separated(ps)
    requires AllPlainPieces(MarkersFor(our, their), ps) && Prints(MarkersFor(our, their), ps, src) && |src| < FILE_LIMIT
    requires i < |ps| && ps[i].Hunk? && !Empty(ps[i])
    requires LinesOf(contents) == Picked(ps, Everywhere(|ps|))
    ensures var parsed := Parsed(Markers("<<<<<<< " + our, "=======", ">>>>>>> " + their), src);
            && parsed.Ok?
            && Resolved(hash, parsed.value, contents, Resolution(SectionsFor(hash, FIRST.count, ps, Everywhere(|ps|)), content))
               == Some(contents)
  {
    RoundTrip(our, their, src, hash, contents, ps, Everywhere(|ps|), i, content);
    JoinLines(contents);
  }
}
