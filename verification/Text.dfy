/** The string operations of Rust's standard library that the status parser relies on. */
module Text {
  import opened Prelude

  /** The first place of `c` in `s`, or the length of `s`. */
  function IndexOf(s: string, c: char): (i: nat)
    ensures i <= |s| && (forall j :: 0 <= j < i ==> s[j] != c) && (i < |s| ==> s[i] == c)
  {
    if s == "" || s[0] == c then 0 else 1 + IndexOf(s[1..], c)
  }

  lemma IndexOfAt(s: string, c: char, i: nat)
    requires i <= |s| && c !in s[..i] && (i == |s| || s[i] == c)
    ensures IndexOf(s, c) == i
  {
    forall j | 0 <= j < i
      ensures s[j] != c
    {
      assert s[..i][j] in s[..i];
    }
  }

  /** `lines`: split at line feeds, dropping a carriage return before one; an unfinished last
      line counts, and keeps its carriage return. */
  function Lines(s: string): seq<string>
    decreases |s|
  {
    if s == "" then []
    else
      var i := IndexOf(s, '\n');
      if i == |s| then [s]
      else [if i > 0 && s[i - 1] == '\r' then s[..i - 1] else s[..i]] + Lines(s[i + 1..])
  }

  predicate OneLine(s: string) { '\n' !in s && (s != "" ==> s[|s| - 1] != '\r') }

  function Unlines(lines: seq<string>): string {
    if lines == [] then "" else lines[0] + "\n" + Unlines(lines[1..])
  }

  lemma LinesCons(l: string, rest: string)
    requires OneLine(l)
    ensures Lines(l + "\n" + rest) == [l] + Lines(rest)
  {
    var s := l + "\n" + rest;
    var i := |l|;
    assert s[..i] == l && s[i] == '\n' && s[i + 1..] == rest;
    IndexOfAt(s, '\n', i);
    assert i > 0 ==> s[i - 1] == l[i - 1];
  }

  lemma {:induction false} LinesOfUnlines(lines: seq<string>)
    requires forall l :: l in lines ==> OneLine(l)
    ensures Lines(Unlines(lines)) == lines
  {
    if lines != [] {
      LinesOfUnlines(lines[1..]);
      LinesCons(lines[0], Unlines(lines[1..]));
      assert [lines[0]] + lines[1..] == lines;
    }
  }

  /** A carriage return before a line feed goes with it; a last line without a line feed counts as
      it is, and after the last line feed there is no further line. */
  lemma LineEnds(l: string, rest: string)
    requires '\n' !in l
    ensures Lines(l + "\r\n" + rest) == [l] + Lines(rest)
    ensures l != "" ==> Lines(l) == [l]
    ensures Lines("") == []
  {
    var s := l + "\r\n" + rest;
    var i := |l| + 1;
    assert s[..i] == l + "\r" && s[i] == '\n' && s[i + 1..] == rest && s[..i - 1] == l;
    IndexOfAt(s, '\n', i);
    assert l[..|l|] == l;
    IndexOfAt(l, '\n', |l|);
  }

  /** `splitn`: at most `n` parts, the last one holding everything that is left. */
  function SplitN(s: string, n: nat, sep: char): (parts: seq<string>)
    requires n > 0
    ensures parts != []
    decreases n
  {
    var i := IndexOf(s, sep);
    if n == 1 || i == |s| then [s] else [s[..i]] + SplitN(s[i + 1..], n - 1, sep)
  }

  function Count(s: string, c: char): nat { if s == "" then 0 else (if s[0] == c then 1 else 0) + Count(s[1..], c) }

  lemma {:induction false} CountAfter(s: string, c: char)
    ensures var i := IndexOf(s, c); Count(s, c) == if i == |s| then 0 else 1 + Count(s[i + 1..], c)
  {
    if s != "" && s[0] != c {
      CountAfter(s[1..], c);
      var i := IndexOf(s[1..], c);
      assert i < |s[1..]| ==> s[1..][i + 1..] == s[i + 2..];
    }
  }

  /** There are as many parts as separators and one more, up to the limit. */
  lemma {:induction false} SplitNLength(s: string, n: nat, sep: char)
    requires n > 0
    ensures |SplitN(s, n, sep)| == if Count(s, sep) < n then Count(s, sep) + 1 else n
    decreases n
  {
    hide Count, IndexOf;
    CountAfter(s, sep);
    var i := IndexOf(s, sep);
    if n > 1 && i < |s| {
      SplitNLength(s[i + 1..], n - 1, sep);
    }
  }

  /** Fields, each followed by a separator, then a last part. */
  function Joined(fields: seq<string>, sep: char, last: string): string {
    if fields == [] then last else fields[0] + [sep] + Joined(fields[1..], sep, last)
  }

  lemma SplitNFirst(field: string, rest: string, n: nat, sep: char)
    requires sep !in field && n > 1
    ensures SplitN(field + [sep] + rest, n, sep) == [field] + SplitN(rest, n - 1, sep)
  {
    var s, i := field + [sep] + rest, |field|;
    assert s[..i] == field && s[i] == sep && s[i + 1..] == rest;
    IndexOfAt(s, sep, i);
  }

  lemma SplitNOnce(s: string, sep: char)
    ensures SplitN(s, 1, sep) == [s]
  {
  }

  /** With fewer separators than the limit the last part is what follows the last of them. */
  lemma {:induction false} SplitNLast(before: string, last: string, n: nat, sep: char)
    requires sep !in last && Count(before, sep) + 1 < n
    ensures var parts := SplitN(before + [sep] + last, n, sep); parts[|parts| - 1] == last
    decreases n
  {
    hide Count, IndexOf, SplitN;
    var i := IndexOf(before, sep);
    CountAfter(before, sep);
    if i == |before| {
      SplitNFirst(before, last, n, sep);
      NoSeparator(last, n - 1, sep);
    } else {
      var field, rest := before[..i], before[i + 1..];
      assert before == field + [sep] + rest;
      assert field + [sep] + (rest + [sep] + last) == before + [sep] + last by {
        ConcatIsAssociative(field + [sep], rest, [sep] + last);
        ConcatIsAssociative(rest, [sep], last);
        ConcatIsAssociative(before, [sep], last);
      }
      SplitNFirst(field, rest + [sep] + last, n, sep);
      SplitNLast(rest, last, n - 1, sep);
    }
  }

  lemma NoSeparator(s: string, n: nat, sep: char)
    requires sep !in s && n > 0
    ensures SplitN(s, n, sep) == [s]
  {
    IndexOfAt(s, sep, |s|);
  }

  lemma {:induction false} SplitNOfJoined(fields: seq<string>, sep: char, last: string)
    requires forall f :: f in fields ==> sep !in f
    ensures SplitN(Joined(fields, sep, last), |fields| + 1, sep) == fields + [last]
    decreases |fields|
  {
    hide SplitN;
    if fields == [] {
      SplitNOnce(last, sep);
    } else {
      SplitNOfJoined(fields[1..], sep, last);
      SplitNFirst(fields[0], Joined(fields[1..], sep, last), |fields| + 1, sep);
      assert [fields[0]] + (fields[1..] + [last]) == fields + [last];
    }
  }

  /** `trim_start_matches`: the pattern is removed as often as it leads. */
  function TrimStart(s: string, pattern: string): string
    requires pattern != ""
    decreases |s|
  {
    if pattern <= s then TrimStart(s[|pattern|..], pattern) else s
  }

  lemma {:induction false} TrimStartShrinks(s: string, pattern: string)
    requires pattern != ""
    ensures |TrimStart(s, pattern)| <= |s|
    ensures TrimStart(s, pattern) == s <==> !(pattern <= s)
    decreases |s|
  {
    if pattern <= s {
      TrimStartShrinks(s[|pattern|..], pattern);
    }
  }

  /** Removing a leading pattern gives back what followed it exactly when that does not itself
      start with the pattern. */
  lemma TrimStartExactly(pattern: string, s: string)
    requires pattern != ""
    ensures TrimStart(pattern + s, pattern) == TrimStart(s, pattern)
    ensures TrimStart(pattern + s, pattern) == s <==> !(pattern <= s)
  {
    assert pattern <= pattern + s && (pattern + s)[|pattern|..] == s;
    TrimStartShrinks(s, pattern);
  }

  /** The characters with the White_Space property. */
  predicate IsWhitespace(c: char) {
    || '\U{9}' <= c <= '\U{D}'
    || c in {' ', '\U{85}', '\U{A0}', '\U{1680}', '\U{2028}', '\U{2029}', '\U{202F}', '\U{205F}', '\U{3000}'}
    || '\U{2000}' <= c <= '\U{200A}'
  }

  function WordEnd(s: string): (i: nat)
    ensures i <= |s| && (forall j :: 0 <= j < i ==> !IsWhitespace(s[j])) && (i < |s| ==> IsWhitespace(s[i]))
  {
    if s == "" || IsWhitespace(s[0]) then 0 else 1 + WordEnd(s[1..])
  }

  /** `split_whitespace`. */
  function SplitWhitespace(s: string): seq<string>
    decreases |s|
  {
    if s == "" then []
    else if IsWhitespace(s[0]) then SplitWhitespace(s[1..])
    else [s[..WordEnd(s)]] + SplitWhitespace(s[WordEnd(s)..])
  }

  lemma FirstWord(a: string, rest: string)
    requires a != "" && (forall c :: c in a ==> !IsWhitespace(c)) && (rest == "" || IsWhitespace(rest[0]))
    ensures SplitWhitespace(a + rest) == [a] + SplitWhitespace(rest)
  {
    hide IsWhitespace;
    var s := a + rest;
    assert s[0] == a[0] && a[0] in a;
    assert forall j :: 0 <= j < |a| ==> s[j] == a[j] && a[j] in a;
    assert rest != "" ==> s[|a|] == rest[0];
    assert WordEnd(s) == |a|;
    assert s[..|a|] == a && s[|a|..] == rest;
  }

  lemma SplitTwoWords(a: string, b: string)
    requires a != "" && b != "" && (forall c :: c in a || c in b ==> !IsWhitespace(c))
    ensures SplitWhitespace(a + " " + b) == [a, b]
  {
    assert IsWhitespace(' ');
    hide IsWhitespace;
    FirstWord(a, " " + b);
    FirstWord(b, "");
    assert a + " " + b == a + (" " + b) && (" " + b)[1..] == b && b + "" == b;
  }
}
