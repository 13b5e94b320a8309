/** Parsing and resolving a file with merge conflict markers (internal/git/conflict/parser.go).

    The SHA-1 of the path, which every section ID of a file starts with, is a parameter. */
module Conflict {
  import opened Prelude
  import opened ObjectInfos

  datatype Section = SectionNone | SectionOld | SectionNew | SectionNoNewline

  datatype Line = Line(objIndex: nat, oldIndex: nat, newIndex: nat, payload: bytes, section: Section)

  datatype ParseError = UnmergeableFile | UnexpectedDelimiter | MissingEndDelimiter

  const FILE_LIMIT: nat := 200 * 1024
  const BACKSLASH: byte := '\\'

  /** The conflict markers for the paths of the two sides. */
  datatype Markers = Markers(start: bytes, middle: bytes, end: bytes)

  datatype Count = Count(objs: nat, olds: nat, news: nat)

  /** The variables of the scan loop. */
  datatype State = State(lines: seq<Line>, count: Count, section: Section)

  const FIRST: State := State([], Count(0, 1, 1), SectionNone)

  function Next(c: Count, section: Section): Count {
    Count(c.objs + 1, if section.SectionNew? then c.olds else c.olds + 1, if section.SectionOld? then c.news else c.news + 1)
  }

  function LineAt(c: Count, payload: bytes, section: Section): Line {
    Line(c.objs, c.olds, c.news, payload, section)
  }

  /** The body of the loop. */
  function Feed(m: Markers, st: State, l: bytes): Result<State, ParseError> {
    if l == m.start then
      if st.section.SectionNone? then Ok(st.(section := SectionNew)) else Err(UnexpectedDelimiter)
    else if l == m.middle then
      if st.section.SectionNew? then Ok(st.(section := SectionOld)) else Err(UnexpectedDelimiter)
    else if l == m.end then
      if st.section.SectionOld? then Ok(st.(section := SectionNone)) else Err(UnexpectedDelimiter)
    else if |l| > 0 && l[0] == BACKSLASH then
      Ok(State(st.lines + [LineAt(st.count, l, SectionNoNewline)], st.count, SectionNoNewline))
    else
      Ok(State(st.lines + [LineAt(st.count, l, st.section)], Next(st.count, st.section), st.section))
  }

  /** The lines of a file, whether or not it ends with a newline. */
  function LinesOf(s: bytes): seq<bytes>
    decreases |s|
  {
    if s == [] then []
    else
      var i := IndexOf(s, NEWLINE);
      if i == |s| then [s] else [s[..i]] + LinesOf(s[i + 1..])
  }

  /** How many bytes have been read after a line of length `n`: only the last line can lack its newline. */
  function Read(read: nat, n: nat, total: nat): nat {
    if read + n + 1 <= total then read + n + 1 else total
  }

  /** The scan of the remaining lines of a source of `total` bytes, of which `read` have been read.
      The size limit applies before each line, and a single line must stay below it too. */
  function Scan(m: Markers, st: State, ls: seq<bytes>, read: nat, total: nat): Result<State, ParseError>
    decreases |ls|
  {
    if read >= FILE_LIMIT then Err(UnmergeableFile)
    else if ls == [] then Ok(st)
    else if |ls[0]| >= FILE_LIMIT then Err(UnmergeableFile)
    else
      var fed := Feed(m, st, ls[0]);
      if fed.Err? then fed else Scan(m, fed.value, ls[1..], Read(read, |ls[0]|, total), total)
  }

  function Parsed(m: Markers, src: bytes): Result<seq<Line>, ParseError> {
    var st := Scan(m, FIRST, LinesOf(src), 0, |src|);
    if st.Err? then Err(st.error)
    else if st.value.section.SectionOld? || st.value.section.SectionNew? then Err(MissingEndDelimiter)
    else if src == [] then Err(UnmergeableFile)
    else Ok(st.value.lines)
  }

  /** The split function: how long the next line is, and how many bytes it takes up. */
  function Advance(rest: bytes): (n: nat)
    requires rest != []
    ensures 0 < n <= |rest|
  {
    var i := IndexOf(rest, NEWLINE);
    if i == |rest| then i else i + 1
  }

  lemma LinesStep(rest: bytes)
    requires rest != []
    ensures LinesOf(rest) == [rest[..IndexOf(rest, NEWLINE)]] + LinesOf(rest[Advance(rest)..])
  {
    var i := IndexOf(rest, NEWLINE);
    if i == |rest| {
      assert rest[..i] == rest && rest[i..] == [];
    }
  }

  lemma ScanStep(m: Markers, st: State, lines: seq<bytes>, i: nat, read: nat, total: nat)
    requires i < |lines| && read < FILE_LIMIT && |lines[i]| < FILE_LIMIT
    ensures var fed := Feed(m, st, lines[i]);
            Scan(m, st, lines[i..], read, total) ==
            if fed.Err? then fed else Scan(m, fed.value, lines[i + 1..], Read(read, |lines[i]|, total), total)
  {
    assert lines[i..][1..] == lines[i + 1..];
  }

  /** The scanner with Parse's split function: line after line until the source ends. */
  method Split(src: bytes) returns (lines: seq<bytes>)
    ensures lines == LinesOf(src)
  {
    lines := [];
    var i := 0;
    assert src[0..] == src;
    while i < |src|
      invariant 0 <= i <= |src| && lines + LinesOf(src[i..]) == LinesOf(src)
      decreases |src| - i
    {
      var rest := src[i..];
      LinesStep(rest);
      lines := lines + [rest[..IndexOf(rest, NEWLINE)]];
      assert rest[Advance(rest)..] == src[i + Advance(rest)..];
      i := i + Advance(rest);
    }
  }

  /** Parse's loop over the lines. */
  method ScanAll(m: Markers, lines: seq<bytes>, total: nat) returns (r: Result<State, ParseError>)
    ensures r == Scan(m, FIRST, lines, 0, total)
  {
    var st, bytesRead := FIRST, 0;
    assert lines[0..] == lines;
    for i := 0 to |lines|
      invariant 0 <= bytesRead <= total
      invariant Scan(m, FIRST, lines, 0, total) == Scan(m, st, lines[i..], bytesRead, total)
    {
      if bytesRead >= FILE_LIMIT || |lines[i]| >= FILE_LIMIT { return Err(UnmergeableFile); }
      ScanStep(m, st, lines, i, bytesRead, total);
      var fed := Feed(m, st, lines[i]);
      if fed.Err? { return fed; }
      st, bytesRead := fed.value, Read(bytesRead, |lines[i]|, total);
    }
    r := if bytesRead >= FILE_LIMIT then Err(UnmergeableFile) else Ok(st);
  }

  /** Parse, for the paths of the two sides. */
  method Parse(our: bytes, their: bytes, src: bytes) returns (r: Result<seq<Line>, ParseError>)
    ensures r == Parsed(Markers("<<<<<<< " + our, "=======", ">>>>>>> " + their), src)
  {
    var m := Markers("<<<<<<< " + our, "=======", ">>>>>>> " + their);
    var lines := Split(src);
    var st := ScanAll(m, lines, |src|);
    if st.Err? { return Err(st.error); }
    if st.value.section.SectionOld? || st.value.section.SectionNew? { return Err(MissingEndDelimiter); }
    if |src| == 0 { return Err(UnmergeableFile); }
    r := Ok(st.value.lines);
  }

  // ---- resolution -----------------------------------------------------------------------------

  function SectionKey(hash: bytes, oldIndex: nat, newIndex: nat): bytes {
    hash + "_" + Decimal(oldIndex) + "_" + Decimal(newIndex)
  }

  function SectionId(hash: bytes, l: Line): bytes {
    SectionKey(hash, l.oldIndex, l.newIndex)
  }

  datatype Entry = Entry(path: bytes, contents: bytes)

  datatype Resolution = Resolution(sections: map<bytes, bytes>, content: bytes)

  const HEAD: bytes := "head"
  const ORIGIN: bytes := "origin"

  /** The variables of Resolve's loop; None once a section has no resolution. */
  datatype Resolving = Resolving(lines: seq<bytes>, current: Option<bytes>)

  function ResolveLine(hash: bytes, sections: map<bytes, bytes>, st: Resolving, l: Line): Option<Resolving> {
    if l.section.SectionNone? then Some(Resolving(st.lines + [l.payload], None))
    else
      var id := if st.current.Some? then st.current.value else SectionId(hash, l);
      if id !in sections || (sections[id] != HEAD && sections[id] != ORIGIN) then None
      else if l.section == (if sections[id] == HEAD then SectionNew else SectionOld) then
        Some(Resolving(st.lines + [l.payload], Some(id)))
      else Some(st.(current := Some(id)))
  }

  function ResolveAll(hash: bytes, sections: map<bytes, bytes>, st: Resolving, ls: seq<Line>): Option<Resolving>
    decreases |ls|
  {
    if ls == [] then Some(st)
    else
      var next := ResolveLine(hash, sections, st, ls[0]);
      if next.None? then None else ResolveAll(hash, sections, next.value, ls[1..])
  }

  /** strings.Join(lines, "\n"). */
  function Join(lines: seq<bytes>): bytes {
    if lines == [] then [] else if |lines| == 1 then lines[0] else lines[0] + [NEWLINE] + Join(lines[1..])
  }

  function EndsWithNewline(s: bytes): bool {
    s != [] && s[|s| - 1] == NEWLINE
  }

  function Resolved(hash: bytes, ls: seq<Line>, our: bytes, r: Resolution): Option<bytes> {
    if r.sections == map[] then Some(r.content)
    else
      var st := ResolveAll(hash, r.sections, Resolving([], None), ls);
      if st.None? then None
      else Some(Join(st.value.lines) + (if EndsWithNewline(our) then [NEWLINE] else []))
  }

  /** None stands for the error about a missing resolution. */
  method Resolve(hash: bytes, ls: seq<Line>, our: bytes, r: Resolution) returns (result: Option<bytes>)
    ensures result == Resolved(hash, ls, our, r)
  {
    if |r.sections| == 0 { return Some(r.content); }
    var sectionID: Option<bytes> := None;
    var lines: seq<bytes> := [];
    for i := 0 to |ls|
      invariant ResolveAll(hash, r.sections, Resolving([], None), ls)
             == ResolveAll(hash, r.sections, Resolving(lines, sectionID), ls[i..])
    {
      var l := ls[i];
      assert ls[i..][1..] == ls[i + 1..];
      if l.section.SectionNone? {
        sectionID, lines := None, lines + [l.payload];
        continue;
      }
      if sectionID.None? { sectionID := Some(SectionId(hash, l)); }
      if sectionID.value !in r.sections { return None; }
      var choice := r.sections[sectionID.value];
      if choice == HEAD {
        if !l.section.SectionNew? { continue; }
      } else if choice == ORIGIN {
        if !l.section.SectionOld? { continue; }
      } else {
        return None;
      }
      lines := lines + [l.payload];
    }
    var contents := Join(lines);
    if EndsWithNewline(our) { contents := contents + [NEWLINE]; }
    result := Some(contents);
    assert contents == Join(lines) + (if EndsWithNewline(our) then [NEWLINE] else []);
  }
}
