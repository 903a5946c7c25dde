/** The parser of `git status --porcelain=v2 --branch` in agentiso/src/mcp/git_tools.rs, against
    a rendering of the records in the "Porcelain Format Version 2" section of git-status. */
module Porcelain {
  import opened Prelude
  import Decimal
  import opened Text
  import Utf8

  /** What the parser gathers. */
  datatype Info = Info(
    branch: string, ahead: int, behind: int,
    staged: seq<string>, modified: seq<string>, untracked: seq<string>, conflicted: seq<string>)

  const INITIAL := Info("(unknown)", 0, 0, [], [], [], [])

  const HEAD := "# branch.head "
  const AB := "# branch.ab "

  // ---- The parser ----

  function ParseCount(info: Info, token: string): Info {
    if "+" <= token then info.(ahead := match Decimal.ParseI64(token[1..]) case Some(n) => n case None => 0)
    else if "-" <= token then info.(behind := match Decimal.ParseI64(token[1..]) case Some(n) => n case None => 0)
    else info
  }

  function ParseCounts(info: Info, tokens: seq<string>): Info {
    if tokens == [] then info
    else ParseCount(ParseCounts(info, tokens[..|tokens| - 1]), tokens[|tokens| - 1])
  }

  predicate IsStaged(xy: string) { xy != "" && xy[0] != '.' }

  /** The test of the second byte of the state field; a first character beyond ASCII takes more
      than one byte, and its second byte is never a full stop. */
  predicate IsModified(xy: string) { xy != "" && (xy[0] >= 128 as char || (|xy| >= 2 && xy[1] != '.')) }

  function AddChange(info: Info, xy: string, path: string): Info {
    info.(staged := if IsStaged(xy) then info.staged + [path] else info.staged,
          modified := if IsModified(xy) then info.modified + [path] else info.modified)
  }

  function ParseOrdinary(info: Info, line: string): Info {
    var parts := SplitN(line, 9, ' ');
    if |parts| >= 9 then AddChange(info, parts[1], parts[8]) else info
  }

  function ParseRenamed(info: Info, line: string): Info {
    var parts := SplitN(line, 10, ' ');
    if |parts| >= 10 then AddChange(info, parts[1], parts[9][..IndexOf(parts[9], '\t')]) else info
  }

  function ParseUnmerged(info: Info, line: string): Info {
    var parts := SplitN(line, 11, ' ');
    info.(conflicted := info.conflicted + [parts[|parts| - 1]])
  }

  function ParseLine(info: Info, line: string): Info {
    if HEAD <= line then info.(branch := TrimStart(line, HEAD))
    else if AB <= line then ParseCounts(info, SplitWhitespace(TrimStart(line, AB)))
    else if "1 " <= line then ParseOrdinary(info, line)
    else if "2 " <= line then ParseRenamed(info, line)
    else if "u " <= line then ParseUnmerged(info, line)
    else if "? " <= line then info.(untracked := info.untracked + [TrimStart(line, "? ")])
    else info
  }

  function ParseLines(lines: seq<string>): Info {
    if lines == [] then INITIAL else ParseLine(ParseLines(lines[..|lines| - 1]), lines[|lines| - 1])
  }

  method ParseAheadBehind(info: Info, ab: string) returns (ahead: int, behind: int)
    ensures info.(ahead := ahead, behind := behind) == ParseCounts(info, SplitWhitespace(ab))
  {
    ahead, behind := info.ahead, info.behind;
    var tokens := SplitWhitespace(ab);
    for i := 0 to |tokens|
      invariant info.(ahead := ahead, behind := behind) == ParseCounts(info, tokens[..i])
    {
      var token := tokens[i];
      assert tokens[..i + 1][..i] == tokens[..i];
      if "+" <= token {
        var val := Decimal.ParseI64(token[1..]);
        ahead := if val.Some? then val.value else 0;
      } else if "-" <= token {
        var val := Decimal.ParseI64(token[1..]);
        behind := if val.Some? then val.value else 0;
      }
    }
    assert tokens[..|tokens|] == tokens;
  }

  /** The parser's loop. */
  method Parse(output: string) returns (info: Info, dirty: bool)
    ensures info == ParseLines(Lines(output))
    ensures dirty <==> info.staged != [] || info.modified != [] || info.untracked != [] || info.conflicted != []
  {
    hide SplitN, TrimStart, SplitWhitespace, ParseCounts;
    var branch, ahead, behind := "(unknown)", 0, 0;
    var staged: seq<string>, modified: seq<string>, untracked: seq<string>, conflicted: seq<string> := [], [], [], [];
    var lines := Lines(output);
    for i := 0 to |lines|
      invariant Info(branch, ahead, behind, staged, modified, untracked, conflicted) == ParseLines(lines[..i])
    {
      var line := lines[i];
      assert lines[..i + 1][..i] == lines[..i];
      if HEAD <= line {
        branch := TrimStart(line, HEAD);
      } else if AB <= line {
        var soFar := Info(branch, ahead, behind, staged, modified, untracked, conflicted);
        ahead, behind := ParseAheadBehind(soFar, TrimStart(line, AB));
      } else if "1 " <= line {
        var parts := SplitN(line, 9, ' ');
        if |parts| >= 9 {
          if IsStaged(parts[1]) {
            staged := staged + [parts[8]];
          }
          if IsModified(parts[1]) {
            modified := modified + [parts[8]];
          }
        }
      } else if "2 " <= line {
        var parts := SplitN(line, 10, ' ');
        if |parts| >= 10 {
          var path := parts[9][..IndexOf(parts[9], '\t')];
          if IsStaged(parts[1]) {
            staged := staged + [path];
          }
          if IsModified(parts[1]) {
            modified := modified + [path];
          }
        }
      } else if "u " <= line {
        var parts := SplitN(line, 11, ' ');
        conflicted := conflicted + [parts[|parts| - 1]];
      } else if "? " <= line {
        untracked := untracked + [TrimStart(line, "? ")];
      }
    }
    assert lines[..|lines|] == lines;
    info := Info(branch, ahead, behind, staged, modified, untracked, conflicted);
    dirty := staged != [] || modified != [] || untracked != [] || conflicted != [];
  }

  // ---- Statuses and their rendering ----

  /** `meta` holds the columns between the state and the path. */
  datatype Record =
    | Ordinary(x: char, y: char, meta: seq<string>, path: string)
    | Renamed(x: char, y: char, meta: seq<string>, path: string, orig: string)
    | Unmerged(x: char, y: char, meta: seq<string>, path: string)
    | Untracked(path: string)
    | Ignored(path: string)

  datatype Status = Status(
    oid: Option<string>, head: Option<string>, upstream: Option<string>, ab: Option<(nat, nat)>,
    records: seq<Record>)

  predicate IsColumn(s: string) { ' ' !in s && '\n' !in s }

  predicate Columns(r: Record, n: nat)
    requires !r.Untracked? && !r.Ignored?
  {
    |r.meta| == n && (forall m :: m in r.meta ==> IsColumn(m)) && IsColumn([r.x, r.y]) && r.x < 128 as char
  }

  predicate RecordOk(r: Record) {
    match r
    case Ordinary(_, _, _, path) => Columns(r, 6) && OneLine(path)
    case Renamed(_, _, _, path, orig) => Columns(r, 7) && '\n' !in path && '\t' !in path && OneLine(orig)
    case Unmerged(_, _, _, path) => Columns(r, 8) && OneLine(path)
    case Untracked(path) => OneLine(path)
    case Ignored(path) => OneLine(path)
  }

  predicate StatusOk(st: Status) {
    && (st.oid.Some? ==> OneLine(st.oid.value))
    && (st.head.Some? ==> OneLine(st.head.value) && !("# branch.head " <= st.head.value))
    && (st.upstream.Some? ==> OneLine(st.upstream.value))
    && (st.ab.Some? ==> st.ab.value.0 <= Decimal.I64_MAX && st.ab.value.1 <= Decimal.I64_MAX)
    && forall r :: r in st.records ==> RecordOk(r)
  }

  function RecordLine(r: Record): string {
    match r
    case Ordinary(x, y, meta, path) => Joined(["1", [x, y]] + meta, ' ', path)
    case Renamed(x, y, meta, path, orig) => Joined(["2", [x, y]] + meta, ' ', path + "\t" + orig)
    case Unmerged(x, y, meta, path) => Joined(["u", [x, y]] + meta, ' ', path)
    case Untracked(path) => "? " + path
    case Ignored(path) => "! " + path
  }

  function AbLine(ahead: nat, behind: nat): string {
    "# branch.ab " + ("+" + Decimal.Numeral(ahead) + " " + ("-" + Decimal.Numeral(behind)))
  }

  function HeaderLines(st: Status): seq<string> {
    (if st.oid.Some? then ["# branch.oid " + st.oid.value] else [])
    + (if st.head.Some? then ["# branch.head " + st.head.value] else [])
    + (if st.upstream.Some? then ["# branch.upstream " + st.upstream.value] else [])
    + (if st.ab.Some? then [AbLine(st.ab.value.0, st.ab.value.1)] else [])
  }

  function RecordLines(rs: seq<Record>): seq<string> {
    seq(|rs|, i requires 0 <= i < |rs| => RecordLine(rs[i]))
  }

  function Render(st: Status): string { Unlines(HeaderLines(st) + RecordLines(st.records)) }

  /** What a record contributes to the lists. */
  function Add(info: Info, r: Record): Info {
    match r
    case Ordinary(x, y, _, path) => AddState(info, x, y, path)
    case Renamed(x, y, _, path, _) => AddState(info, x, y, path)
    case Unmerged(_, _, _, path) => info.(conflicted := info.conflicted + [path])
    case Untracked(path) => info.(untracked := info.untracked + [path])
    case Ignored(_) => info
  }

  function AddState(info: Info, x: char, y: char, path: string): Info {
    info.(staged := if x != '.' then info.staged + [path] else info.staged,
          modified := if y != '.' then info.modified + [path] else info.modified)
  }

  function Header(st: Status): Info {
    INITIAL.(branch := if st.head.Some? then st.head.value else "(unknown)",
             ahead := if st.ab.Some? then st.ab.value.0 else 0,
             behind := if st.ab.Some? then st.ab.value.1 else 0)
  }

  function AddAll(info: Info, rs: seq<Record>): Info {
    if rs == [] then info else Add(AddAll(info, rs[..|rs| - 1]), rs[|rs| - 1])
  }

  /** The information a status carries. */
  function Meaning(st: Status): Info { AddAll(Header(st), st.records) }

  /** Record by record, the parser loses nothing but leading "? " of untracked paths. */
  function Seen(r: Record): Record {
    if r.Untracked? then Untracked(TrimStart(r.path, "? ")) else r
  }

  // ---- Lines that git does not write ----

  /** A record with too few columns is ignored, and so is a line of no known kind. */
  lemma ShortRecordsAreIgnored(info: Info, line: string)
    requires |line| >= 2 && line[1] == ' '
    ensures line[0] == '1' && Count(line, ' ') < 8 ==> ParseLine(info, line) == info
    ensures line[0] == '2' && Count(line, ' ') < 9 ==> ParseLine(info, line) == info
    ensures line[0] !in {'#', '1', '2', 'u', '?'} ==> ParseLine(info, line) == info
  {
    hide SplitN, TrimStart, ParseCounts, SplitWhitespace, Count;
    SplitNLength(line, 9, ' ');
    SplitNLength(line, 10, ' ');
    assert HEAD[0] == '#' && AB[0] == '#';
  }

  function BytesOf(s: string): Utf8.Bytes { if s == "" then [] else Utf8.Encode(s[0] as int) + BytesOf(s[1..]) }

  /** A state of any length and in any characters is judged by its first two bytes: staged if the
      first, modified if the second is there and is not a full stop. */
  lemma StateByBytes(xy: string)
    ensures var b := BytesOf(xy);
            && (IsStaged(xy) <==> b != [] && b[0] != 0x2E)
            && (IsModified(xy) <==> |b| >= 2 && b[1] != 0x2E)
  {
    if |xy| >= 2 {
      assert BytesOf(xy[1..]) == Utf8.Encode(xy[1] as int) + BytesOf(xy[2..]) by {
        assert xy[1..][0] == xy[1] && xy[1..][1..] == xy[2..];
      }
    }
  }

  /** An unmerged record with fewer columns still counts: its path is what follows the last space. */
  lemma ShortUnmerged(info: Info, before: string, path: string)
    requires "u " <= before + " " && ' ' !in path && Count(before, ' ') < 10
    ensures ParseLine(info, before + " " + path) == info.(conflicted := info.conflicted + [path])
  {
    hide SplitN, Count, TrimStart, ParseCounts, SplitWhitespace;
    var line := before + " " + path;
    assert line[0] == 'u' && line[1] == ' ' by {
      assert (before + " ")[..2] == line[..2] == "u ";
    }
    ParseByTag(info, line);
    SplitNLast(before, path, 11, ' ');
  }

  /** A rename without a tab keeps its whole last column. */
  lemma RenamedWithoutTab(info: Info, r: Record)
    requires r.Renamed? && RecordOk(r)
    ensures ParseLine(info, Joined(["2", [r.x, r.y]] + r.meta, ' ', r.path)) == AddState(info, r.x, r.y, r.path)
  {
    hide SplitN, Joined, IndexOf, ParseLine;
    var line := Joined(["2", [r.x, r.y]] + r.meta, ' ', r.path);
    ColumnsSplit("2", r, 7, r.path);
    ParseByTag(info, line);
    assert r.path[..|r.path|] == r.path;
    IndexOfAt(r.path, '\t', |r.path|);
    AddChangeIsAddState(info, r.x, r.y, r.path);
  }

  /** A header prefix is removed as often as it leads. */
  lemma RepeatedPrefix(info: Info, rest: string)
    ensures ParseLine(info, "# branch.head " + ("# branch.head " + rest)) == ParseLine(info, "# branch.head " + rest)
    ensures ParseLine(info, "# branch.ab " + ("# branch.ab " + rest)) == ParseLine(info, "# branch.ab " + rest)
  {
    hide TrimStart, ParseCounts, SplitWhitespace;
    TrimStartExactly(HEAD, HEAD + rest);
    TrimStartExactly(AB, AB + rest);
    assert HEAD[9] == 'h' && AB[9] == 'a';
  }

  /** The number a token gives after its sign, 0 if it is none. */
  function CountIn(token: string): int
    requires token != ""
  {
    match Decimal.ParseI64(token[1..]) case Some(n) => n case None => 0
  }

  /** The last token that starts with `sign`. */
  ghost predicate IsLast(sign: string, tokens: seq<string>, k: nat) {
    k < |tokens| && sign <= tokens[k] && forall j :: k < j < |tokens| ==> !(sign <= tokens[j])
  }

  function CountOf(info: Info, sign: string): int { if sign == "+" then info.ahead else info.behind }

  lemma {:induction false} LastCountWins(info: Info, tokens: seq<string>, sign: string)
    requires sign in {"+", "-"}
    ensures var count := CountOf(ParseCounts(info, tokens), sign);
            && (forall k: nat :: IsLast(sign, tokens, k) ==> count == CountIn(tokens[k]))
            && ((forall k: nat :: !IsLast(sign, tokens, k)) ==> count == CountOf(info, sign))
  {
    if tokens != [] {
      hide ParseCount, IsLast, CountIn;
      var init, last := tokens[..|tokens| - 1], tokens[|tokens| - 1];
      LastCountWins(info, init, sign);
      CountOne(ParseCounts(info, init), last);
      LastOfMore(sign, init, last);
      assert tokens == init + [last];
      LastIsToken(sign, init);
    }
  }

  lemma LastIsToken(sign: string, tokens: seq<string>)
    ensures forall k: nat :: IsLast(sign, tokens, k) ==> k < |tokens| && sign <= tokens[k]
  {
  }

  /** The last token with a plus sign gives how far the branch is ahead, the last with a minus sign
      how far it is behind; an unreadable number counts as 0. */
  lemma LastCountsWin(info: Info, tokens: seq<string>)
    ensures var r := ParseCounts(info, tokens);
            && (forall k: nat :: IsLast("+", tokens, k) ==> r.ahead == CountIn(tokens[k]))
            && (forall k: nat :: IsLast("-", tokens, k) ==> r.behind == CountIn(tokens[k]))
            && ((forall k: nat :: !IsLast("+", tokens, k)) ==> r.ahead == info.ahead)
            && ((forall k: nat :: !IsLast("-", tokens, k)) ==> r.behind == info.behind)
  {
    LastCountWins(info, tokens, "+");
    LastCountWins(info, tokens, "-");
  }

  lemma CountOne(info: Info, token: string)
    ensures ParseCount(info, token).ahead == if "+" <= token then CountIn(token) else info.ahead
    ensures ParseCount(info, token).behind == if "-" <= token then CountIn(token) else info.behind
  {
    assert "+"[0] == '+' && "-"[0] == '-';
  }

  lemma LastOfMore(sign: string, init: seq<string>, last: string)
    requires sign != ""
    ensures forall k: nat :: IsLast(sign, init + [last], k) <==>
              if sign <= last then k == |init| else IsLast(sign, init, k)
    ensures (forall k: nat :: !IsLast(sign, init + [last], k)) <==>
            !(sign <= last) && forall k: nat :: !IsLast(sign, init, k)
  {
    forall k: nat
      ensures IsLast(sign, init + [last], k) <==> if sign <= last then k == |init| else IsLast(sign, init, k)
    {
      assert (init + [last])[|init|] == last;
      assert forall j :: 0 <= j < |init| ==> (init + [last])[j] == init[j];
    }
    hide IsLast;
    assert sign <= last ==> IsLast(sign, init + [last], |init|);
    assert !(sign <= last) ==> forall k: nat :: IsLast(sign, init + [last], k) <==> IsLast(sign, init, k);
  }

  // ---- Lines ----

  lemma JoinedIsOneLine(fields: seq<string>, last: string)
    requires fields != [] && (forall f :: f in fields ==> '\n' !in f) && OneLine(last)
    ensures OneLine(Joined(fields, ' ', last))
    decreases |fields|
  {
    var rest := Joined(fields[1..], ' ', last);
    if |fields| > 1 {
      JoinedIsOneLine(fields[1..], last);
    }
    var s := Joined(fields, ' ', last);
    assert s == fields[0] + [' '] + rest;
    assert rest != "" ==> s[|s| - 1] == rest[|rest| - 1];
  }

  lemma RecordLineIsOneLine(r: Record)
    requires RecordOk(r)
    ensures OneLine(RecordLine(r))
  {
    match r
    case Ordinary(x, y, meta, path) =>
      JoinedIsOneLine(["1", [x, y]] + meta, path);
    case Renamed(x, y, meta, path, orig) =>
      var last := path + "\t" + orig;
      assert orig != "" ==> last[|last| - 1] == orig[|orig| - 1];
      JoinedIsOneLine(["2", [x, y]] + meta, last);
    case Unmerged(x, y, meta, path) =>
      JoinedIsOneLine(["u", [x, y]] + meta, path);
    case Untracked(path) =>
      assert path != "" ==> ("? " + path)[|path| + 1] == path[|path| - 1];
    case Ignored(path) =>
      assert path != "" ==> ("! " + path)[|path| + 1] == path[|path| - 1];
  }

  lemma PrefixedIsOneLine(prefix: string, s: string)
    requires '\n' !in prefix && prefix != "" && prefix[|prefix| - 1] == ' ' && OneLine(s)
    ensures OneLine(prefix + s)
  {
    assert s != "" ==> (prefix + s)[|prefix| + |s| - 1] == s[|s| - 1];
  }

  /** A record line is split back into its columns. */
  lemma ColumnsSplit(tag: string, r: Record, n: nat, last: string)
    requires !r.Untracked? && !r.Ignored? && Columns(r, n) && |tag| == 1 && tag[0] != ' '
    ensures var line := Joined([tag, [r.x, r.y]] + r.meta, ' ', last);
            && tag + " " <= line
            && SplitN(line, n + 3, ' ') == [tag, [r.x, r.y]] + r.meta + [last]
  {
    var fields := [tag, [r.x, r.y]] + r.meta;
    assert IsColumn([r.x, r.y]);
    forall f | f in fields
      ensures ' ' !in f
    {
      assert f == tag || f == [r.x, r.y] || f in r.meta;
    }
    SplitNOfJoined(fields, ' ', last);
    assert Joined(fields, ' ', last) == tag + [' '] + Joined(fields[1..], ' ', last);
  }

  /** The tag of a record decides how its line is parsed. */
  lemma ParseByTag(info: Info, line: string)
    requires |line| >= 2 && line[1] == ' '
    ensures line[0] == '1' ==> ParseLine(info, line) == ParseOrdinary(info, line)
    ensures line[0] == '2' ==> ParseLine(info, line) == ParseRenamed(info, line)
    ensures line[0] == 'u' ==> ParseLine(info, line) == ParseUnmerged(info, line)
    ensures line[0] == '?' ==> ParseLine(info, line) == info.(untracked := info.untracked + [TrimStart(line, "? ")])
    ensures line[0] == '!' ==> ParseLine(info, line) == info
  {
    hide ParseOrdinary, ParseRenamed, ParseUnmerged, TrimStart, ParseCounts, SplitWhitespace;
    assert HEAD[0] == '#' && AB[0] == '#';
  }

  lemma ParseOrdinaryRecord(info: Info, r: Record)
    requires r.Ordinary? && RecordOk(r)
    ensures ParseOrdinary(info, RecordLine(r)) == Add(info, r)
  {
    hide SplitN, Joined;
    ColumnsSplit("1", r, 6, r.path);
    AddChangeIsAddState(info, r.x, r.y, r.path);
  }

  lemma ParseRenamedRecord(info: Info, r: Record)
    requires r.Renamed? && RecordOk(r)
    ensures ParseRenamed(info, RecordLine(r)) == Add(info, r)
  {
    hide SplitN, Joined, IndexOf;
    var last := r.path + "\t" + r.orig;
    ColumnsSplit("2", r, 7, last);
    assert last[..|r.path|] == r.path && last[|r.path|] == '\t';
    IndexOfAt(last, '\t', |r.path|);
    AddChangeIsAddState(info, r.x, r.y, r.path);
  }

  lemma ParseUnmergedRecord(info: Info, r: Record)
    requires r.Unmerged? && RecordOk(r)
    ensures ParseUnmerged(info, RecordLine(r)) == Add(info, r)
  {
    hide SplitN, Joined;
    ColumnsSplit("u", r, 8, r.path);
  }

  lemma RecordTag(r: Record)
    requires RecordOk(r)
    ensures var line := RecordLine(r);
            && |line| >= 2 && line[1] == ' '
            && line[0] == match r
                          case Ordinary(_, _, _, _) => '1'
                          case Renamed(_, _, _, _, _) => '2'
                          case Unmerged(_, _, _, _) => 'u'
                          case Untracked(_) => '?'
                          case Ignored(_) => '!'
  {
  }

  lemma AddChangeIsAddState(info: Info, x: char, y: char, path: string)
    requires x < 128 as char
    ensures AddChange(info, [x, y], path) == AddState(info, x, y, path)
  {
  }

  lemma ParseRecordLine(info: Info, r: Record)
    requires RecordOk(r)
    ensures ParseLine(info, RecordLine(r)) == Add(info, Seen(r))
  {
    hide ParseLine, ParseOrdinary, ParseRenamed, ParseUnmerged;
    RecordTag(r);
    ParseByTag(info, RecordLine(r));
    match r
    case Ordinary(_, _, _, _) => ParseOrdinaryRecord(info, r);
    case Renamed(_, _, _, _, _) => ParseRenamedRecord(info, r);
    case Unmerged(_, _, _, _) => ParseUnmergedRecord(info, r);
    case Untracked(path) => TrimStartExactly("? ", path);
    case Ignored(_) =>
  }

  lemma ParseAbLine(info: Info, ahead: nat, behind: nat)
    requires ahead <= Decimal.I64_MAX && behind <= Decimal.I64_MAX
    ensures ParseLine(info, AbLine(ahead, behind)) == info.(ahead := ahead, behind := behind)
  {
    var a, b := "+" + Decimal.Numeral(ahead), "-" + Decimal.Numeral(behind);
    ParseAbTokens(info, ahead, behind);
    assert a[1..] == Decimal.Numeral(ahead) && b[1..] == Decimal.Numeral(behind);
    Decimal.ParseNumeral(ahead);
    Decimal.ParseNumeral(behind);
    assert [a, b][..1] == [a] && [a][..0] == [];
    assert a[0] == '+' && b[0] == '-' && "+"[0] == '+';
    assert ParseCounts(info, [a, b]) == ParseCount(ParseCounts(info, [a]), b);
    assert ParseCounts(info, [a]) == ParseCount(info, a);
  }

  lemma ParseAbTokens(info: Info, ahead: nat, behind: nat)
    ensures ParseLine(info, AbLine(ahead, behind)) ==
            ParseCounts(info, ["+" + Decimal.Numeral(ahead), "-" + Decimal.Numeral(behind)])
  {
    hide ParseCounts, SplitWhitespace, TrimStart;
    AbTokens(ahead, behind);
    assert AbLine(ahead, behind)[9] == 'a' && HEAD[9] == 'h';
  }

  lemma AbTokens(ahead: nat, behind: nat)
    ensures SplitWhitespace(TrimStart(AbLine(ahead, behind), AB)) ==
            ["+" + Decimal.Numeral(ahead), "-" + Decimal.Numeral(behind)]
  {
    var a, b := "+" + Decimal.Numeral(ahead), "-" + Decimal.Numeral(behind);
    var rest := a + " " + b;
    assert rest[0] == '+' && AB[0] == '#';
    TrimStartExactly(AB, rest);
    forall c | c in a || c in b
      ensures !IsWhitespace(c)
    {
      assert c in {'+', '-'} || Decimal.IsDigit(c);
    }
    SplitTwoWords(a, b);
  }

  lemma ParseHeadLine(info: Info, head: string)
    requires !(HEAD <= head)
    ensures ParseLine(info, HEAD + head) == info.(branch := head)
  {
    TrimStartExactly(HEAD, head);
  }

  lemma ParseOtherHeader(info: Info, line: string)
    requires |line| >= 10 && line[0] == '#' && line[9] in {'o', 'u'}
    ensures ParseLine(info, line) == info
  {
    assert HEAD[9] == 'h' && AB[9] == 'a';
    assert "1 "[0] == '1' && "2 "[0] == '2' && "u "[0] == 'u' && "? "[0] == '?';
  }

  /** The header lines set the branch and the counts, and nothing else. */
  lemma ParseHeader(st: Status)
    requires StatusOk(st)
    ensures ParseLines(HeaderLines(st)) == Header(st)
  {
    hide ParseLine, ParseLines;
    var lines: seq<string> := [];
    EmptyLines();
    if st.oid.Some? {
      ParseOtherHeader(ParseLines(lines), "# branch.oid " + st.oid.value);
      lines := Snoc(lines, "# branch.oid " + st.oid.value);
    }
    if st.head.Some? {
      ParseHeadLine(ParseLines(lines), st.head.value);
      lines := Snoc(lines, HEAD + st.head.value);
    }
    if st.upstream.Some? {
      ParseOtherHeader(ParseLines(lines), "# branch.upstream " + st.upstream.value);
      lines := Snoc(lines, "# branch.upstream " + st.upstream.value);
    }
    if st.ab.Some? {
      ParseAbLine(ParseLines(lines), st.ab.value.0, st.ab.value.1);
      lines := Snoc(lines, AbLine(st.ab.value.0, st.ab.value.1));
    }
    assert lines == HeaderLines(st);
  }

  lemma EmptyLines()
    ensures ParseLines([]) == INITIAL
  {
  }

  lemma Snoc(lines: seq<string>, line: string) returns (more: seq<string>)
    ensures more == lines + [line] && ParseLines(more) == ParseLine(ParseLines(lines), line)
  {
    more := lines + [line];
    assert more[..|lines|] == lines;
  }

  function SeenAll(rs: seq<Record>): seq<Record> {
    seq(|rs|, i requires 0 <= i < |rs| => Seen(rs[i]))
  }

  lemma {:induction false} ParseRecords(headers: seq<string>, rs: seq<Record>)
    requires forall r :: r in rs ==> RecordOk(r)
    ensures ParseLines(headers + RecordLines(rs)) == AddAll(ParseLines(headers), SeenAll(rs))
    decreases |rs|
  {
    hide ParseLine, ParseLines, RecordLine, Add, Seen, RecordOk;
    if rs == [] {
      assert headers + RecordLines(rs) == headers;
    } else {
      var init, r := rs[..|rs| - 1], rs[|rs| - 1];
      ParseRecords(headers, init);
      assert headers + RecordLines(rs) == headers + RecordLines(init) + [RecordLine(r)];
      var more := Snoc(headers + RecordLines(init), RecordLine(r));
      ParseRecordLine(ParseLines(headers + RecordLines(init)), r);
      assert SeenAll(rs)[..|rs| - 1] == SeenAll(init);
    }
  }

  lemma RenderedLines(st: Status)
    requires StatusOk(st)
    ensures Lines(Render(st)) == HeaderLines(st) + RecordLines(st.records)
  {
    forall l | l in HeaderLines(st) + RecordLines(st.records)
      ensures OneLine(l)
    {
      if l in RecordLines(st.records) {
        var i :| 0 <= i < |st.records| && l == RecordLine(st.records[i]);
        RecordLineIsOneLine(st.records[i]);
      } else {
        HeaderLineIsOneLine(st, l);
      }
    }
    LinesOfUnlines(HeaderLines(st) + RecordLines(st.records));
  }

  lemma HeaderLineIsOneLine(st: Status, l: string)
    requires StatusOk(st) && l in HeaderLines(st)
    ensures OneLine(l)
  {
    if st.oid.Some? && l == "# branch.oid " + st.oid.value {
      PrefixedIsOneLine("# branch.oid ", st.oid.value);
    } else if st.head.Some? && l == HEAD + st.head.value {
      PrefixedIsOneLine(HEAD, st.head.value);
    } else if st.upstream.Some? && l == "# branch.upstream " + st.upstream.value {
      PrefixedIsOneLine("# branch.upstream ", st.upstream.value);
    } else {
      var a, b := Decimal.Numeral(st.ab.value.0), Decimal.Numeral(st.ab.value.1);
      assert l == AbLine(st.ab.value.0, st.ab.value.1);
      assert forall i :: 0 <= i < |a| ==> Decimal.IsDigit(a[i]);
      assert forall i :: 0 <= i < |b| ==> Decimal.IsDigit(b[i]);
      assert l[|l| - 1] == b[|b| - 1];
    }
  }

  /** Parsing a rendered status recovers all it carries, record by record. */
  lemma ParseRendered(st: Status)
    requires StatusOk(st)
    ensures ParseLines(Lines(Render(st))) == Meaning(st.(records := SeenAll(st.records)))
  {
    RenderedLines(st);
    ParseHeader(st);
    ParseRecords(HeaderLines(st), st.records);
  }

  /** It recovers the status itself exactly when no untracked path starts with "? ". */
  lemma RoundTripExactly(st: Status)
    requires StatusOk(st)
    ensures ParseLines(Lines(Render(st))) == Meaning(st) <==> KeepsUntracked(st.records)
  {
    ParseRendered(st);
    UntrackedExactly(Header(st), st.records);
  }

  lemma {:induction false} UntrackedExactly(info: Info, rs: seq<Record>)
    ensures AddAll(info, SeenAll(rs)) == AddAll(info, rs) <==> KeepsUntracked(rs)
    ensures SameButUntracked(AddAll(info, SeenAll(rs)), AddAll(info, rs))
    decreases |rs|
  {
    hide Add, Seen, SameButUntracked, KeepsUntracked;
    if rs == [] {
      NothingUntracked(AddAll(info, rs));
    } else {
      var init, r := rs[..|rs| - 1], rs[|rs| - 1];
      UntrackedExactly(info, init);
      assert SeenAll(rs)[..|rs| - 1] == SeenAll(init);
      assert rs == init + [r];
      AddSeen(AddAll(info, SeenAll(init)), AddAll(info, init), r);
      KeepsOneMore(init, r);
    }
  }

  /** No untracked path starts with "? ". */
  predicate KeepsUntracked(rs: seq<Record>) { forall r :: r in rs && r.Untracked? ==> !("? " <= r.path) }

  /** Equal but for the untracked paths, of which there are as many. */
  predicate SameButUntracked(a: Info, b: Info) {
    a == b.(untracked := a.untracked) && |a.untracked| == |b.untracked|
  }

  lemma NothingUntracked(info: Info)
    ensures SameButUntracked(info, info) && KeepsUntracked([])
  {
  }

  lemma KeepsOneMore(rs: seq<Record>, r: Record)
    ensures KeepsUntracked(rs + [r]) <==> KeepsUntracked(rs) && (r.Untracked? ==> !("? " <= r.path))
  {
  }

  lemma AddSeen(a: Info, b: Info, r: Record)
    requires SameButUntracked(a, b)
    ensures SameButUntracked(Add(a, Seen(r)), Add(b, r))
    ensures Add(a, Seen(r)) == Add(b, r) <==> a == b && (r.Untracked? ==> !("? " <= r.path))
  {
    hide TrimStart;
    if r.Untracked? {
      TrimStartShrinks(r.path, "? ");
      SnocCancels(a.untracked, b.untracked, Seen(r).path, r.path);
    }
  }

  lemma SnocCancels(a: seq<string>, b: seq<string>, x: string, y: string)
    ensures a + [x] == b + [y] <==> a == b && x == y
  {
    if a + [x] == b + [y] {
      assert a == (a + [x])[..|a|] && b == (b + [y])[..|b|];
      assert x == (a + [x])[|a|] && y == (b + [y])[|b|];
    }
  }
}
