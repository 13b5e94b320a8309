/** What becomes of the lines of any file that is parsed, with remarks or without
    (internal/git/conflict/parser.go). */
module ConflictLines {
  import opened Prelude
  import opened ObjectInfos
  import opened Conflict
  import opened ConflictRoundTrip

  // ---- the size limit -------------------------------------------------------------------------

  /** The scan of what is left of a file that is too large fails, here or later. */
  lemma {:induction false} TooLargeFails(m: Markers, st: State, rest: bytes, total: nat)
    requires |rest| <= total && total >= FILE_LIMIT
    ensures Scan(m, st, LinesOf(rest), total - |rest|, total).Err?
    decreases |rest|
  {
    if rest != [] {
      LinesStep(rest);
      var l := rest[..IndexOf(rest, NEWLINE)];
      var tail := rest[Advance(rest)..];
      var fed := Feed(m, st, l);
      if fed.Ok? { TooLargeFails(m, fed.value, tail, total); }
      assert LinesOf(rest)[1..] == LinesOf(tail);
    }
  }

  /** A file is refused for its size if it is empty or reaches the limit; below the limit it never is. */
  lemma SizeLimitExactly(m: Markers, src: bytes)
    ensures src == [] || |src| >= 204800 ==> Parsed(m, src).Err?
    ensures 0 < |src| < 204800 ==> Parsed(m, src) != Err(UnmergeableFile)
  {
    if |src| >= FILE_LIMIT {
      TooLargeFails(m, FIRST, src, |src|);
    } else {
      LinesFit(src);
      ScanFeeds(m, FIRST, LinesOf(src), 0, |src|);
      FeedErrors(m, FIRST, LinesOf(src));
    }
  }

  lemma {:induction false} FeedErrors(m: Markers, st: State, ls: seq<bytes>)
    ensures FeedAll(m, st, ls) != Err(UnmergeableFile)
    decreases |ls|
  {
    if ls != [] && Feed(m, st, ls[0]).Ok? { FeedErrors(m, Feed(m, st, ls[0]).value, ls[1..]); }
  }

  // ---- payloads -------------------------------------------------------------------------------

  predicate Marker(m: Markers, l: bytes) {
    l == m.start || l == m.middle || l == m.end
  }

  function Payloads(ls: seq<Line>): seq<bytes> {
    seq(|ls|, i requires 0 <= i < |ls| => ls[i].payload)
  }

  function NonMarkers(m: Markers, ls: seq<bytes>): seq<bytes> {
    if ls == [] then [] else (if Marker(m, ls[0]) then [] else [ls[0]]) + NonMarkers(m, ls[1..])
  }

  lemma {:induction false} FeedKeeps(m: Markers, st: State, ls: seq<bytes>)
    requires FeedAll(m, st, ls).Ok?
    ensures Payloads(FeedAll(m, st, ls).value.lines) == Payloads(st.lines) + NonMarkers(m, ls)
    decreases |ls|
  {
    if ls == [] {
      assert Payloads(st.lines) + [] == Payloads(st.lines);
    } else {
      var fed := Feed(m, st, ls[0]).value;
      FeedKeeps(m, fed, ls[1..]);
      assert Payloads(fed.lines) == Payloads(st.lines) + (if Marker(m, ls[0]) then [] else [ls[0]]);
      Associative(Payloads(st.lines), if Marker(m, ls[0]) then [] else [ls[0]], NonMarkers(m, ls[1..]));
    }
  }

  /** The scan of a file of an acceptable size is nothing but feeding its lines. */
  lemma ParsedFeeds(m: Markers, src: bytes)
    requires Parsed(m, src).Ok?
    ensures FeedAll(m, FIRST, LinesOf(src)).Ok? && Parsed(m, src).value == FeedAll(m, FIRST, LinesOf(src)).value.lines
  {
    SizeLimitExactly(m, src);
    LinesFit(src);
    ScanFeeds(m, FIRST, LinesOf(src), 0, |src|);
  }

  /** Parsing loses nothing: the payloads are the file's lines without the markers, in order. */
  lemma ParseKeepsLines(m: Markers, src: bytes)
    requires Parsed(m, src).Ok?
    ensures Payloads(Parsed(m, src).value) == NonMarkers(m, LinesOf(src))
  {
    ParsedFeeds(m, src);
    FeedKeeps(m, FIRST, LinesOf(src));
    assert Payloads(FIRST.lines) + NonMarkers(m, LinesOf(src)) == NonMarkers(m, LinesOf(src));
  }

  // ---- places ---------------------------------------------------------------------------------

  /** How many of the lines are no remarks, and not in section `but`. */
  function Counted(ls: seq<Line>, but: Option<Section>): nat {
    if ls == [] then 0
    else
      var l := ls[|ls| - 1];
      Counted(ls[..|ls| - 1], but) + (if Remark(l.payload) || Some(l.section) == but then 0 else 1)
  }

  ghost predicate CountOk(ls: seq<Line>, c: Count) {
    c.objs == Counted(ls, None) && c.olds == 1 + Counted(ls, Some(SectionNew)) && c.news == 1 + Counted(ls, Some(SectionOld))
  }

  ghost predicate PlaceOk(ls: seq<Line>, i: nat)
    requires i < |ls|
  {
    CountOk(ls[..i], Count(ls[i].objIndex, ls[i].oldIndex, ls[i].newIndex))
  }

  ghost predicate PlacesOk(st: State) {
    CountOk(st.lines, st.count) && forall i :: 0 <= i < |st.lines| ==> PlaceOk(st.lines, i)
  }

  lemma FeedPlaces(m: Markers, st: State, l: bytes)
    requires PlacesOk(st) && Feed(m, st, l).Ok?
    ensures PlacesOk(Feed(m, st, l).value)
  {
    var t := Feed(m, st, l).value;
    if t.lines != st.lines {
      var n := |st.lines|;
      assert t.lines[..n] == st.lines;
      forall i | 0 <= i < n ensures PlaceOk(t.lines, i) {
        assert PlaceOk(st.lines, i);
        assert t.lines[..i] == st.lines[..i];
      }
      assert PlaceOk(t.lines, n);
    }
  }

  lemma {:induction false} FeedAllPlaces(m: Markers, st: State, ls: seq<bytes>)
    requires PlacesOk(st) && FeedAll(m, st, ls).Ok?
    ensures PlacesOk(FeedAll(m, st, ls).value)
    decreases |ls|
  {
    if ls != [] {
      FeedPlaces(m, st, ls[0]);
      FeedAllPlaces(m, Feed(m, st, ls[0]).value, ls[1..]);
    }
  }

  /** Every parsed line knows its place. Its index in the object is how many lines come before it; its
      index in the old file is one more than how many of these are not on our side; and its index in
      the new file one more than how many are not on theirs. Remarks take up no place. */
  lemma PlacesExactly(m: Markers, src: bytes, i: nat)
    requires Parsed(m, src).Ok? && i < |Parsed(m, src).value|
    ensures var ls := Parsed(m, src).value;
            && ls[i].objIndex == Counted(ls[..i], None)
            && ls[i].oldIndex == 1 + Counted(ls[..i], Some(SectionNew))
            && ls[i].newIndex == 1 + Counted(ls[..i], Some(SectionOld))
  {
    ParsedFeeds(m, src);
    FeedAllPlaces(m, FIRST, LinesOf(src));
    assert PlaceOk(Parsed(m, src).value, i);
  }

  // ---- remarks --------------------------------------------------------------------------------

  predicate NoMarkers(m: Markers, ls: seq<bytes>) {
    forall i :: 0 <= i < |ls| ==> !Marker(m, ls[i])
  }

  /** After a remark, markers are errors, and every line is part of no side. */
  lemma {:induction false} AfterRemark(m: Markers, st: State, ls: seq<bytes>)
    requires st.section.SectionNoNewline?
    ensures FeedAll(m, st, ls).Ok? <==> NoMarkers(m, ls)
    ensures FeedAll(m, st, ls).Ok? ==>
              var t := FeedAll(m, st, ls).value;
              && t.section.SectionNoNewline? && st.lines <= t.lines
              && forall i :: |st.lines| <= i < |t.lines| ==> t.lines[i].section.SectionNoNewline?
    decreases |ls|
  {
    if ls != [] {
      assert NoMarkers(m, ls) <==> !Marker(m, ls[0]) && NoMarkers(m, ls[1..]) by {
        assert forall i :: 0 <= i < |ls| - 1 ==> ls[1..][i] == ls[i + 1];
      }
      if Feed(m, st, ls[0]).Ok? { AfterRemark(m, Feed(m, st, ls[0]).value, ls[1..]); }
    }
  }

  /** A file with a remark in it is accepted if and only if what comes before the remark can be fed, inside
      a conflict or not, and no marker comes after it; everything from the remark on is on neither side. */
  lemma RemarkExactly(m: Markers, before: seq<bytes>, remark: bytes, after: seq<bytes>)
    requires Remark(remark) && !Marker(m, remark)
    ensures Closes(m, FIRST, before + [remark] + after) <==> FeedAll(m, FIRST, before).Ok? && NoMarkers(m, after)
    ensures Closes(m, FIRST, before + [remark] + after) ==>
              var n, t := |FeedAll(m, FIRST, before).value.lines|, FeedAll(m, FIRST, before + [remark] + after).value;
              forall i :: n <= i < |t.lines| ==> t.lines[i].section.SectionNoNewline?
  {
    FeedConcat(m, FIRST, before + [remark], after);
    FeedConcat(m, FIRST, before, [remark]);
    var mid := FeedAll(m, FIRST, before);
    if mid.Ok? {
      var st := Feed(m, mid.value, remark).value;
      assert [remark][1..] == [];
      assert FeedAll(m, mid.value, [remark]) == Ok(st);
      AfterRemark(m, st, after);
    }
  }
}
