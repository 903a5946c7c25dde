/** `shell_escape` of agentiso/src/util.rs, the git command lines built with it, and a reading of
    the POSIX.1-2017 Shell Command Language (sections 2.2.1, 2.2.2 and 2.3) to judge them by. */
module Shell {
  import opened Prelude
  import Decimal

  // ---- Token recognition ----

  predicate IsBlank(c: char) { c == ' ' || c == '\t' }

  /** Characters that, unquoted, may mean something other than themselves: operators,
      expansions, double quotes, patterns, comments, and the newline. */
  predicate IsSpecial(c: char) {
    c in {'|', '&', ';', '<', '>', '(', ')', '$', '`', '"', '*', '?', '[', '#', '~', '%', '\n', '\r', '!', '{', '}'}
  }

  /** Where the recogniser stands: between tokens, in a word read so far, or inside the single
      quotes of a word. */
  datatype Mode = Between | InWord(word: string) | Quoted(word: string) {
    function Read(): string {
      match this
      case Between => ""
      case InWord(w) => w
      case Quoted(w) => w
    }
  }

  /** The words of a command line, or nothing if it holds an unquoted special character, an
      unfinished quotation, or a trailing backslash. */
  function Scan(mode: Mode, s: string): Option<seq<string>>
    decreases |s|
  {
    if s == [] then
      match mode
      case Between => Some([])
      case InWord(w) => Some([w])
      case Quoted(_) => None
    else
      var c, rest := s[0], s[1..];
      match mode
      case Quoted(w) =>
        if c == '\'' then Scan(InWord(w), rest) else Scan(Quoted(w + [c]), rest)
      case _ =>
        var w := mode.Read();
        if c == '\'' then Scan(Quoted(w), rest)
        else if c == '\\' then
          if rest == [] then None
          else if rest[0] == '\n' then Scan(mode, rest[1..])
          else Scan(InWord(w + [rest[0]]), rest[1..])
        else if IsBlank(c) then
          match Scan(Between, rest)
          case None => None
          case Some(words) => Some(if mode.InWord? then [w] + words else words)
        else if IsSpecial(c) then None
        else Scan(InWord(w + [c]), rest)
  }

  function Tokenize(s: string): Option<seq<string>> { Scan(Between, s) }

  // ---- Escaping ----

  function EscapeBody(s: string): string {
    if s == "" then "" else (if s[0] == '\'' then "'\\''" else [s[0]]) + EscapeBody(s[1..])
  }

  lemma {:induction false} EscapeBodySnoc(s: string, c: char)
    ensures EscapeBody(s + [c]) == EscapeBody(s) + EscapeBody([c])
  {
    if s == "" {
      assert s + [c] == [c];
    } else {
      EscapeBodySnoc(s[1..], c);
      assert (s + [c])[1..] == s[1..] + [c] && (s + [c])[0] == s[0];
      ConcatIsAssociative(if s[0] == '\'' then "'\\''" else [s[0]], EscapeBody(s[1..]), EscapeBody([c]));
    }
  }

  /** Inside quotes the escaped text adds exactly the text to the word, and stays inside quotes. */
  lemma {:induction false} ScanEscapeBody(w: string, s: string, rest: string)
    ensures Scan(Quoted(w), EscapeBody(s) + rest) == Scan(Quoted(w + s), rest)
    decreases |s|
  {
    hide Scan;
    if s == "" {
      assert EscapeBody(s) + rest == rest && w + s == w;
    } else {
      var tail := EscapeBody(s[1..]) + rest;
      var w' := w + [s[0]];
      assert w' + s[1..] == w + s;
      ScanEscapeBody(w', s[1..], rest);
      if s[0] == '\'' {
        assert EscapeBody(s) + rest == "'\\''" + tail;
        ScanQuoteEscape(w, tail);
      } else {
        assert EscapeBody(s) + rest == [s[0]] + tail;
        ScanQuotedChar(w, s[0], tail);
      }
    }
  }

  lemma ScanQuotedChar(w: string, c: char, rest: string)
    requires c != '\''
    ensures Scan(Quoted(w), [c] + rest) == Scan(Quoted(w + [c]), rest)
  {
    assert ([c] + rest)[1..] == rest;
  }

  lemma ScanQuoteEscape(w: string, tail: string)
    ensures Scan(Quoted(w), "'\\''" + tail) == Scan(Quoted(w + ['\'']), tail)
  {
    var s := "'\\''" + tail;
    assert s[1..] == "\\''" + tail && s[2..] == "''" + tail && s[3..] == "'" + tail && s[4..] == tail;
    assert s[1..][1..] == s[2..] && s[2..][1..] == s[3..] && s[3..][1..] == s[4..];
    assert Scan(Quoted(w), s) == Scan(InWord(w), s[1..]);
    assert Scan(InWord(w), s[1..]) == Scan(InWord(w + ['\'']), s[3..]);
  }

  function Escape(s: string): string { "'" + EscapeBody(s) + "'" }

  /** The loop of `shell_escape`. Its result is one word of the shell, and that word is `s`. */
  method ShellEscape(s: string) returns (escaped: string)
    ensures escaped == Escape(s)
    ensures Tokenize(escaped) == Some([s])
  {
    escaped := "'";
    for i := 0 to |s|
      invariant escaped == "'" + EscapeBody(s[..i])
    {
      assert s[..i + 1] == s[..i] + [s[i]];
      EscapeBodySnoc(s[..i], s[i]);
      if s[i] == '\'' {
        escaped := escaped + "'\\''";
      } else {
        escaped := escaped + [s[i]];
      }
    }
    assert s[..|s|] == s;
    escaped := escaped + "'";
    EscapeIsOneWord(s);
  }

  /** After an escaped string the recogniser is in a word that has grown by exactly that string. */
  lemma ScanEscape(mode: Mode, s: string, rest: string)
    requires !mode.Quoted?
    ensures Scan(mode, Escape(s) + rest) ==
            Scan(InWord(mode.Read() + s), rest)
  {
    var w := mode.Read();
    var t := Escape(s) + rest;
    assert t[1..] == EscapeBody(s) + ("'" + rest);
    ScanEscapeBody(w, s, "'" + rest);
    assert ("'" + rest)[1..] == rest;
  }

  lemma EscapeIsOneWord(s: string)
    ensures Tokenize(Escape(s)) == Some([s])
  {
    ScanEscape(Between, s, "");
    assert Escape(s) + "" == Escape(s) && "" + s == s;
  }

  // ---- Command lines ----

  /** Literal text of a command line that is read as itself. */
  predicate IsPlain(s: string) {
    forall i :: 0 <= i < |s| ==> !IsBlank(s[i]) && !IsSpecial(s[i]) && s[i] != '\'' && s[i] != '\\'
  }

  lemma {:induction false} ScanPlain(mode: Mode, s: string, rest: string)
    requires IsPlain(s) && !mode.Quoted? && s != ""
    ensures Scan(mode, s + rest) == Scan(InWord(mode.Read() + s), rest)
    decreases |s|
  {
    var w := mode.Read();
    assert (s + rest)[1..] == s[1..] + rest;
    if |s| == 1 {
      assert s[1..] + rest == rest && w + [s[0]] == w + s;
    } else {
      ScanPlain(InWord(w + [s[0]]), s[1..], rest);
      assert w + [s[0]] + s[1..] == w + s;
    }
  }

  /** A word as the builders write it: plain text, then possibly an escaped string. */
  datatype Piece = Plain(text: string) | Escaped(prefix: string, text: string)

  predicate WellFormed(p: Piece) {
    match p
    case Plain(text) => IsPlain(text) && text != ""
    case Escaped(prefix, _) => IsPlain(prefix)
  }

  function Render(p: Piece): string {
    match p
    case Plain(text) => text
    case Escaped(prefix, text) => prefix + Escape(text)
  }

  function Word(p: Piece): string {
    match p
    case Plain(text) => text
    case Escaped(prefix, text) => prefix + text
  }

  /** Pieces, each after a blank. */
  function Tail(ps: seq<Piece>): string {
    if ps == [] then "" else " " + Render(ps[0]) + Tail(ps[1..])
  }

  function Words(ps: seq<Piece>): seq<string> {
    seq(|ps|, i requires 0 <= i < |ps| => Word(ps[i]))
  }

  lemma ScanPiece(p: Piece, rest: string)
    requires WellFormed(p)
    ensures Scan(Between, Render(p) + rest) == Scan(InWord(Word(p)), rest)
  {
    match p
    case Plain(text) =>
      ScanPlain(Between, text, rest);
      assert "" + text == text;
    case Escaped(prefix, text) =>
      assert Render(p) + rest == prefix + (Escape(text) + rest);
      if prefix == "" {
        ScanEscape(Between, text, rest);
        assert prefix + (Escape(text) + rest) == Escape(text) + rest;
      } else {
        ScanPlain(Between, prefix, Escape(text) + rest);
        assert "" + prefix == prefix;
        ScanEscape(InWord(prefix), text, rest);
      }
  }

  lemma ScanEnd(w: string)
    ensures Scan(InWord(w), "") == Some([w])
  {
  }

  lemma ScanBlank(w: string, rest: string)
    ensures Scan(InWord(w), " " + rest) ==
            match Scan(Between, rest) case None => None case Some(words) => Some([w] + words)
  {
    assert (" " + rest)[1..] == rest;
  }

  lemma {:induction false} ScanTail(w: string, ps: seq<Piece>)
    requires forall p :: p in ps ==> WellFormed(p)
    ensures Scan(InWord(w), Tail(ps)) == Some([w] + Words(ps))
    decreases |ps|
  {
    hide Scan, Render, Word, WellFormed;
    if ps == [] {
      ScanEnd(w);
      assert [w] + Words(ps) == [w];
    } else {
      var after := Render(ps[0]) + Tail(ps[1..]);
      ConcatIsAssociative(" ", Render(ps[0]), Tail(ps[1..]));
      ScanBlank(w, after);
      ScanPiece(ps[0], Tail(ps[1..]));
      ScanTail(Word(ps[0]), ps[1..]);
      assert Words(ps) == [Word(ps[0])] + Words(ps[1..]);
    }
  }

  /** A command line made of pieces is read as exactly their words, whatever the escaped text. */
  lemma CommandWords(first: Piece, rest: seq<Piece>)
    requires WellFormed(first) && forall p :: p in rest ==> WellFormed(p)
    ensures Tokenize(Render(first) + Tail(rest)) == Some([Word(first)] + Words(rest))
  {
    ScanPiece(first, Tail(rest));
    ScanTail(Word(first), rest);
  }

  lemma {:induction false} TailAppend(a: seq<Piece>, b: seq<Piece>)
    ensures Tail(a + b) == Tail(a) + Tail(b)
    decreases |a|
  {
    hide Render;
    if a == [] {
      assert a + b == b;
    } else {
      TailAppend(a[1..], b);
      assert (a + b)[1..] == a[1..] + b && (a + b)[0] == a[0];
      ConcatIsAssociative(" " + Render(a[0]), Tail(a[1..]), Tail(b));
    }
  }

  lemma NumeralIsPlain(n: nat)
    ensures IsPlain(Decimal.Numeral(n))
  {
    var s := Decimal.Numeral(n);
    assert forall i :: 0 <= i < |s| ==> Decimal.IsDigit(s[i]);
  }

  /** `cmd` is `git` followed by pieces that are read as `argv`. */
  ghost predicate Builds(cmd: string, argv: seq<string>) {
    exists ps :: Spells(cmd, argv, ps)
  }

  ghost predicate Spells(cmd: string, argv: seq<string>, ps: seq<Piece>) {
    cmd == "git" + Tail(ps) && argv == Words(ps) && forall p :: p in ps ==> WellFormed(p)
  }

  /** One more word. */
  lemma Extend(cmd: string, argv: seq<string>, p: Piece)
    requires Builds(cmd, argv) && WellFormed(p)
    ensures Builds(cmd + (" " + Render(p)), argv + [Word(p)])
  {
    hide Render, Word, WellFormed;
    var ps :| Spells(cmd, argv, ps);
    TailAppend(ps, [p]);
    assert Tail([p]) == " " + Render(p);
    assert cmd + (" " + Render(p)) == "git" + Tail(ps + [p]);
    assert argv + [Word(p)] == Words(ps + [p]);
    assert Spells(cmd + (" " + Render(p)), argv + [Word(p)], ps + [p]);
  }

  /** Two more words, appended as one text. */
  lemma ExtendTwo(cmd: string, argv: seq<string>, text: string, p: Piece, q: Piece)
    requires Builds(cmd, argv) && WellFormed(p) && WellFormed(q)
    requires text == " " + Render(p) + " " + Render(q)
    ensures Builds(cmd + text, argv + [Word(p), Word(q)])
  {
    hide Render, Word, WellFormed, Builds;
    Extend(cmd, argv, p);
    Extend(cmd + (" " + Render(p)), argv + [Word(p)], q);
    assert cmd + text == cmd + (" " + Render(p)) + (" " + Render(q));
    assert argv + [Word(p), Word(q)] == argv + [Word(p)] + [Word(q)];
  }

  lemma BuiltCommandWords(cmd: string, argv: seq<string>)
    requires Builds(cmd, argv)
    ensures Tokenize(cmd) == Some(["git"] + argv)
  {
    var ps :| Spells(cmd, argv, ps);
    CommandWords(Plain("git"), ps);
  }

  lemma JustGit()
    ensures Builds("git", [])
  {
    assert Spells("git", [], []);
  }

  lemma CloneWordsArePlain()
    ensures IsPlain("clone") && IsPlain("--depth") && IsPlain("--branch") && IsPlain("")
  {
  }

  lemma CommitWordsArePlain()
    ensures IsPlain("-C") && IsPlain("-c") && IsPlain("commit") && IsPlain("-m") && IsPlain("")
  {
  }

  lemma AuthorWordsArePlain()
    ensures IsPlain("user.name=") && IsPlain("user.email=") && IsPlain("--author=")
  {
  }

  /** The arguments `git clone` is meant to receive. */
  function CloneArgv(url: string, dest: string, branch: Option<string>, depth: Option<U32>): seq<string> {
    ["git", "clone"]
    + (if depth.Some? then ["--depth", Decimal.Numeral(depth.value)] else [])
    + (if branch.Some? then ["--branch", branch.value] else [])
    + [url, dest]
  }

  method AppendDepth(cmd: string, ghost argv: seq<string>, depth: U32) returns (cmd': string)
    requires Builds(cmd, argv)
    ensures Builds(cmd', argv + ["--depth", Decimal.Numeral(depth)])
  {
    hide Builds, IsPlain;
    CloneWordsArePlain();
    var n := Decimal.Numeral(depth);
    NumeralIsPlain(depth);
    assert " --depth " + n == " " + "--depth" + " " + n;
    ExtendTwo(cmd, argv, " --depth " + n, Plain("--depth"), Plain(n));
    cmd' := cmd + (" --depth " + n);
  }

  /** The command line of `handle_git_clone`. */
  method BuildClone(url: string, path: Option<string>, branch: Option<string>, depth: Option<U32>) returns (cmd: string)
    ensures Tokenize(cmd) == Some(CloneArgv(url, if path.Some? then path.value else "/workspace", branch, depth))
  {
    hide Builds, Escape, Tokenize, IsPlain, CloneArgv;
    CloneWordsArePlain();
    var dest := if path.Some? then path.value else "/workspace";
    cmd := "git clone";
    ghost var argv := ["clone"];
    JustGit();
    Extend("git", [], Plain("clone"));
    assert cmd == "git" + (" " + "clone") && argv == [] + ["clone"];
    if depth.Some? {
      cmd := AppendDepth(cmd, argv, depth.value);
      argv := argv + ["--depth", Decimal.Numeral(depth.value)];
    }
    if branch.Some? {
      var b := ShellEscape(branch.value);
      ExtendEscaped(cmd, argv, " --branch ", Plain("--branch"), "", branch.value);
      assert " --branch " + b == " --branch " + "" + b;
      cmd := cmd + (" --branch " + b);
      argv := argv + ["--branch", branch.value];
    }
    var u := ShellEscape(url);
    var d := ShellEscape(dest);
    ExtendEscaped(cmd, argv, " " + u + " ", Escaped("", url), "", dest);
    assert "" + url == url;
    cmd := cmd + (" " + u + " " + d);
    argv := argv + [url, dest];
    BuiltCommandWords(cmd, argv);
    WholeCloneArgv(argv, url, dest, branch, depth);
  }

  lemma WholeCloneArgv(argv: seq<string>, url: string, dest: string, branch: Option<string>, depth: Option<U32>)
    requires argv == ["clone"] + (if depth.Some? then ["--depth", Decimal.Numeral(depth.value)] else [])
                     + (if branch.Some? then ["--branch", branch.value] else []) + [url, dest]
    ensures ["git"] + argv == CloneArgv(url, dest, branch, depth)
  {
  }

  /** A flag or other word, then an escaped string after a plain prefix. */
  lemma ExtendEscaped(cmd: string, argv: seq<string>, text: string, p: Piece, prefix: string, s: string)
    requires Builds(cmd, argv) && WellFormed(p) && IsPlain(prefix) && text == " " + Render(p) + " "
    ensures Builds(cmd + (text + prefix + Escape(s)), argv + [Word(p), prefix + s])
    ensures prefix == "" ==> Builds(cmd + (text + Escape(s)), argv + [Word(p), s])
  {
    hide Builds, Escape, IsPlain;
    assert text + prefix + Escape(s) == " " + Render(p) + " " + (prefix + Escape(s));
    ExtendTwo(cmd, argv, text + prefix + Escape(s), p, Escaped(prefix, s));
    if prefix == "" {
      assert text + prefix == text && prefix + s == s;
    }
  }

  /** The arguments `git commit` is meant to receive. */
  function Author(name: Option<string>, email: Option<string>): Option<(string, string)> {
    if name.Some? && email.Some? then Some((name.value, email.value)) else None
  }

  function CommitArgv(path: string, message: string, author: Option<(string, string)>): seq<string> {
    ["git", "-C", path]
    + (if author.Some? then ["-c", "user.name=" + author.value.0, "-c", "user.email=" + author.value.1] else [])
    + ["commit", "-m", message]
    + (if author.Some? then ["--author=" + (author.value.0 + " <" + author.value.1 + ">")] else [])
  }

  /** The command line of `handle_git_commit`; an author needs both a name and an email. */
  method BuildCommit(path: Option<string>, message: string, authorName: Option<string>, authorEmail: Option<string>)
    returns (cmd: string)
    ensures Tokenize(cmd) ==
            Some(CommitArgv(if path.Some? then path.value else "/workspace", message, Author(authorName, authorEmail)))
  {
    hide Builds, Escape, Tokenize, IsPlain;
    CommitWordsArePlain();
    AuthorWordsArePlain();
    var dir := if path.Some? then path.value else "/workspace";
    var p := ShellEscape(dir);
    JustGit();
    ExtendEscaped("git", [], " -C ", Plain("-C"), "", dir);
    cmd := "git -C " + p;
    ghost var argv := ["-C", dir];
    assert cmd == "git" + (" -C " + p) && argv == [] + ["-C", dir];
    if authorName.Some? && authorEmail.Some? {
      cmd := AppendIdentity(cmd, argv, authorName.value, authorEmail.value);
      argv := argv + ["-c", "user.name=" + authorName.value] + ["-c", "user.email=" + authorEmail.value];
    }
    cmd := AppendMessage(cmd, argv, message);
    argv := argv + ["commit"] + ["-m", message];
    if authorName.Some? && authorEmail.Some? {
      cmd := AppendAuthor(cmd, argv, authorName.value, authorEmail.value);
      argv := argv + ["--author=" + (authorName.value + " <" + authorEmail.value + ">")];
    }
    BuiltCommandWords(cmd, argv);
    assert ["git"] + argv ==
           CommitArgv(dir, message, Author(authorName, authorEmail));
  }

  method AppendAuthor(cmd: string, ghost argv: seq<string>, name: string, email: string) returns (cmd': string)
    requires Builds(cmd, argv)
    ensures Builds(cmd', argv + ["--author=" + (name + " <" + email + ">")])
  {
    hide Builds, Escape, IsPlain;
    AuthorWordsArePlain();
    var full := name + " <" + email + ">";
    var a := ShellEscape(full);
    Extend(cmd, argv, Escaped("--author=", full));
    assert " --author=" + a == " " + ("--author=" + a);
    cmd' := cmd + (" --author=" + a);
  }

  /** The `-c user.name=... -c user.email=...` part of the commit command. */
  method AppendIdentity(cmd: string, ghost argv: seq<string>, name: string, email: string) returns (cmd': string)
    requires Builds(cmd, argv)
    ensures Builds(cmd', argv + ["-c", "user.name=" + name] + ["-c", "user.email=" + email])
  {
    hide Builds, Escape, IsPlain;
    CommitWordsArePlain();
    AuthorWordsArePlain();
    var n := ShellEscape(name);
    var e := ShellEscape(email);
    cmd' := cmd + (" -c user.name=" + n + " -c user.email=" + e);
    ghost var first := " -c " + "user.name=" + n;
    ghost var second := " -c " + "user.email=" + e;
    ExtendEscaped(cmd, argv, " -c ", Plain("-c"), "user.name=", name);
    ExtendEscaped(cmd + first, argv + ["-c", "user.name=" + name], " -c ", Plain("-c"), "user.email=", email);
    assert " -c user.name=" + n == first && " -c user.email=" + e == second;
    assert cmd' == cmd + first + second;
  }

  /** The `commit -m ...` part of the commit command. */
  method AppendMessage(cmd: string, ghost argv: seq<string>, message: string) returns (cmd': string)
    requires Builds(cmd, argv)
    ensures Builds(cmd', argv + ["commit"] + ["-m", message])
  {
    hide Builds, Escape, IsPlain;
    CommitWordsArePlain();
    AuthorWordsArePlain();
    var m := ShellEscape(message);
    cmd' := cmd + (" commit -m " + m);
    Extend(cmd, argv, Plain("commit"));
    ExtendEscaped(cmd + (" " + "commit"), argv + ["commit"], " -m ", Plain("-m"), "", message);
    assert " commit -m " + m == " " + "commit" + (" -m " + m);
    assert cmd' == cmd + (" " + "commit") + (" -m " + m);
  }
}
