/** Printing a script and reading it back with both passes of the shell. */
module ShellRoundTrip {
  import opened Common
  import opened Shell

  /** One pipeline of a script and how it follows the one before. */
  datatype Link = Link(chainer: Chainer, pipeline: Pipeline)

  // ---------------------------------------------------------------------------
  // The canonical printer.
  // ---------------------------------------------------------------------------

  /** A single quote cannot stand in single quotes: close, escape it, open again. */
  function Escaped(w: string): string {
    if w == [] then [] else (if w[0] == '\'' then "'\\''" else [w[0]]) + Escaped(w[1..])
  }

  function Quoted(w: string): string {
    "'" + (Escaped(w) + "'")
  }

  predicate PrintableRedir(r: Redir) {
    && r.fd < 10
    && (r.mode.Read? ==> r.fd == 0)
    && match r.target
       case Path(path) => path != ""
       case Dup(fd) => fd <= 2 && r.mode.Write?
  }

  predicate PrintableCommand(c: SimpleCommand) {
    && (c.words != [] || c.redirs != [])
    && (forall k :: 0 <= k < |c.words| ==> c.words[k] != "")
    && (forall k :: 0 <= k < |c.redirs| ==> PrintableRedir(c.redirs[k]))
  }

  predicate PrintablePipeline(p: Pipeline) {
    p != [] && forall k :: 0 <= k < |p| ==> PrintableCommand(p[k])
  }

  /** The first link has nothing to follow. */
  predicate Printable(script: seq<Link>) {
    script != [] && script[0].chainer == Seq && forall k :: 0 <= k < |script| ==> PrintablePipeline(script[k].pipeline)
  }

  function RedirText(r: Redir): string
    requires PrintableRedir(r)
  {
    match r.target
    case Dup(fd) => [Digit(r.fd)] + (">&" + [Digit(fd)])
    case Path(path) =>
      match r.mode
      case Read => "<" + Quoted(path)
      case Write => [Digit(r.fd)] + (">" + Quoted(path))
      case Append => [Digit(r.fd)] + (">>" + Quoted(path))
  }

  function Items(words: seq<string>, redirs: seq<Redir>): (r: seq<string>)
    requires forall k :: 0 <= k < |redirs| ==> PrintableRedir(redirs[k])
    ensures |r| == |words| + |redirs|
  {
    if words != [] then [Quoted(words[0])] + Items(words[1..], redirs)
    else if redirs != [] then [RedirText(redirs[0])] + Items([], redirs[1..])
    else []
  }

  function Joined(parts: seq<string>, separator: string): string
    requires parts != []
  {
    parts[0] + if |parts| == 1 then "" else separator + Joined(parts[1..], separator)
  }

  function CommandText(c: SimpleCommand): string
    requires PrintableCommand(c)
  {
    Joined(Items(c.words, c.redirs), " ")
  }

  function PipelineText(p: Pipeline): string
    requires PrintablePipeline(p)
  {
    CommandText(p[0]) + if |p| == 1 then "" else " | " + PipelineText(p[1..])
  }

  function Separator(chainer: Chainer): string {
    match chainer
    case Seq => " ; "
    case And => " && "
    case Or => " || "
  }

  function ScriptText(script: seq<Link>): string
    requires script != [] && forall k :: 0 <= k < |script| ==> PrintablePipeline(script[k].pipeline)
  {
    PipelineText(script[0].pipeline)
    + if |script| == 1 then "" else Separator(script[1].chainer) + ScriptText(script[1..])
  }

  function Segments(script: seq<Link>): (r: seq<Segment>)
    requires forall k :: 0 <= k < |script| ==> PrintablePipeline(script[k].pipeline)
    ensures |r| == |script|
    ensures forall k :: 0 <= k < |script| ==> r[k] == Segment(script[k].chainer, PipelineText(script[k].pipeline))
  {
    if script == [] then []
    else [Segment(script[0].chainer, PipelineText(script[0].pipeline))] + Segments(script[1..])
  }

  // ---------------------------------------------------------------------------
  // The second pass reads a printed pipeline back.
  // ---------------------------------------------------------------------------

  /** What may follow an item. */
  predicate Stops(s: string) {
    s == [] || s[0] == ' '
  }

  lemma {:induction false} ReadEscaped(w: string, rest: string, word: string, status: int)
    ensures ReadWord(Escaped(w) + "'" + rest, Single, word, status) == ReadWord(rest, Bare, word + w, status)
  {
    hide ReadWord;
    var s := Escaped(w) + "'" + rest;
    if w == [] {
      ReadInside('\'', rest, word, status);
      assert s == "'" + rest && word + w == word;
    } else {
      var tail := Escaped(w[1..]) + "'" + rest;
      ReadEscaped(w[1..], rest, word + [w[0]], status);
      assert word + [w[0]] + w[1..] == word + w;
      if w[0] == '\'' {
        assert s == "'\\''" + tail;
        ReadReopened(tail, word, status);
      } else {
        assert s == [w[0]] + tail;
        ReadInside(w[0], tail, word, status);
      }
    }
  }

  lemma ReadInside(c: char, tail: string, word: string, status: int)
    ensures ReadWord([c] + tail, Single, word, status) ==
            if c == '\'' then ReadWord(tail, Bare, word, status) else ReadWord(tail, Single, word + [c], status)
  {
    hide StatusText;
    assert ([c] + tail)[1..] == tail;
  }

  lemma ReadReopened(tail: string, word: string, status: int)
    ensures ReadWord("'\\''" + tail, Single, word, status) == ReadWord(tail, Single, word + "'", status)
  {
    hide StatusText;
    var s, t, u := "'\\''" + tail, "\\''" + tail, "'" + tail;
    assert s[1..] == t && t[2..] == u && u[1..] == tail;
    assert ReadWord(s, Single, word, status) == ReadWord(t, Bare, word, status);
    assert ReadWord(t, Bare, word, status) == ReadWord(u, Bare, word + [t[1]], status);
    assert ReadWord(u, Bare, word + "'", status) == ReadWord(tail, Single, word + "'", status);
  }

  lemma ReadQuoted(w: string, rest: string, status: int)
    requires w != "" && Stops(rest)
    ensures ReadWord(Quoted(w) + rest, Bare, "", status) == Ok((w, rest))
  {
    var s := Quoted(w) + rest;
    assert s[1..] == Escaped(w) + "'" + rest;
    ReadEscaped(w, rest, "", status);
    assert "" + w == w;
  }

  lemma SkipNothing(s: string)
    requires s != [] && !IsBlankChar(s[0])
    ensures SkipBlanks(s) == s
  {
  }

  lemma ParseDup(fd: nat, rest: string, status: int)
    requires fd <= 2 && Stops(rest)
    ensures ReadWord([Digit(fd)] + rest, Bare, "", status) == Ok(([Digit(fd)], rest))
    ensures ParseU8([Digit(fd)]) == Some(fd)
  {
    var s := [Digit(fd)] + rest;
    assert s[1..] == rest;
    assert "" + [Digit(fd)] == [Digit(fd)];
    assert DigitsValue([]) == Some(0);
    assert [Digit(fd)][..0] == [];
  }

  /** The arrow and what follows it, after the file descriptor. */
  lemma ParseRedirText(r: Redir, rest: string, status: int)
    requires PrintableRedir(r) && Stops(rest) && !r.mode.Read?
    ensures var s := RedirText(r) + rest;
            |s| > 1 && s[0] == Digit(r.fd) && s[1] == '>' && ParseRedir(s[1..], Some(r.fd), status) == Ok((r, rest))
  {
    hide ReadWord, ParseU8, Escaped;
    var s := (RedirText(r) + rest)[1..];
    match r.target
    case Dup(fd) =>
      var t := [Digit(fd)] + rest;
      assert s == ">&" + t;
      assert s[1..][1..] == t;
      SkipNothing(t);
      ParseDup(fd, rest, status);
    case Path(path) =>
      var t := Quoted(path) + rest;
      assert s == (if r.mode.Append? then ">>" else ">") + t;
      assert (if r.mode.Append? then s[2..] else s[1..]) == t;
      SkipNothing(t);
      ReadQuoted(path, rest, status);
  }

  lemma ParseInputText(r: Redir, rest: string, status: int)
    requires PrintableRedir(r) && Stops(rest) && r.mode.Read?
    ensures var s := RedirText(r) + rest; s != [] && s[0] == '<' && ParseRedir(s, None, status) == Ok((r, rest))
  {
    hide ReadWord, Escaped;
    var s := RedirText(r) + rest;
    var t := Quoted(r.target.path) + rest;
    assert s == "<" + t;
    assert s[1..] == t;
    SkipNothing(t);
    ReadQuoted(r.target.path, rest, status);
  }

  /** The first item of a command is read and added to what was read before. */
  lemma ParseWordItem(w: string, rest: string, words: seq<string>, redirs: seq<Redir>, status: int)
    requires w != "" && Stops(rest)
    ensures ParseCommand(Quoted(w) + rest, words, redirs, status) == ParseCommand(rest, words + [w], redirs, status)
  {
    hide ReadWord, Escaped;
    var s := Quoted(w) + rest;
    SkipNothing(s);
    ReadQuoted(w, rest, status);
  }

  lemma ParseRedirItem(r: Redir, rest: string, words: seq<string>, redirs: seq<Redir>, status: int)
    requires PrintableRedir(r) && Stops(rest)
    ensures ParseCommand(RedirText(r) + rest, words, redirs, status) == ParseCommand(rest, words, redirs + [r], status)
  {
    hide ReadWord, Escaped, ParseRedir, RedirText;
    var s := RedirText(r) + rest;
    if r.mode.Read? {
      ParseInputText(r, rest, status);
    } else {
      ParseRedirText(r, rest, status);
      assert Digit(r.fd) as nat - '0' as nat == r.fd;
    }
    SkipNothing(s);
  }

  lemma BlankIsSkipped(s: string, words: seq<string>, redirs: seq<Redir>, status: int)
    ensures SkipBlanks(" " + s) == SkipBlanks(s)
    ensures ParseCommand(" " + s, words, redirs, status) == ParseCommand(s, words, redirs, status)
  {
    assert (" " + s)[1..] == s;
  }

  lemma {:induction false} ParseItems(
    words: seq<string>, redirs: seq<Redir>, rest: string, before: SimpleCommand, status: int)
    requires PrintableCommand(SimpleCommand(words, redirs)) && Stops(rest)
    ensures ParseCommand(Joined(Items(words, redirs), " ") + rest, before.words, before.redirs, status)
            == ParseCommand(rest, before.words + words, before.redirs + redirs, status)
    decreases |words| + |redirs|
  {
    hide ParseCommand, RedirText, Quoted;
    var items := Items(words, redirs);
    var s := Joined(items, " ") + rest;
    var words', redirs', before';
    if words != [] {
      words', redirs', before' := words[1..], redirs, SimpleCommand(before.words + [words[0]], before.redirs);
    } else {
      words', redirs', before' := words, redirs[1..], SimpleCommand(before.words, before.redirs + [redirs[0]]);
    }
    assert before'.words + words' == before.words + words && before'.redirs + redirs' == before.redirs + redirs;
    assert items[1..] == Items(words', redirs');
    var tail;
    if |items| == 1 {
      tail := rest;
      assert words' == [] && redirs' == [];
      assert before'.words == before.words + words && before'.redirs == before.redirs + redirs;
    } else {
      var more := Joined(items[1..], " ") + rest;
      tail := " " + more;
      BlankIsSkipped(more, before'.words, before'.redirs, status);
      ParseItems(words', redirs', rest, before', status);
    }
    assert s == items[0] + tail;
    if words != [] {
      ParseWordItem(words[0], tail, before.words, before.redirs, status);
    } else {
      ParseRedirItem(redirs[0], tail, before.words, before.redirs, status);
    }
  }

  lemma ParseCommandText(c: SimpleCommand, rest: string, status: int)
    requires PrintableCommand(c) && Stops(rest) && (SkipBlanks(rest) == [] || SkipBlanks(rest)[0] == '|')
    ensures ParseCommand(CommandText(c) + rest, [], [], status) == Ok((c, SkipBlanks(rest)))
  {
    ParseItems(c.words, c.redirs, rest, SimpleCommand([], []), status);
    assert [] + c.words == c.words && [] + c.redirs == c.redirs;
  }

  lemma BlankThenPipe(more: string)
    requires more != [] && !IsBlankChar(more[0])
    ensures SkipBlanks(" | " + more) == "| " + more && SkipBlanks("| " + more) == "| " + more
    ensures PipeAhead("| " + more) && SkipBlanks(("| " + more)[1..]) == more
  {
    assert (" | " + more)[1..] == "| " + more;
    assert ("| " + more)[1..] == " " + more;
    assert (" " + more)[1..] == more;
  }

  lemma {:induction false} ParsePipelineText(p: Pipeline, stages: Pipeline, status: int)
    requires PrintablePipeline(p)
    ensures ParseStages(PipelineText(p), stages, status) == Ok(stages + p)
    decreases |p|
  {
    hide ParseCommand, CommandText, PrintableCommand;
    if |p| == 1 {
      ParseCommandText(p[0], "", status);
      assert PipelineText(p) == CommandText(p[0]) + "";
      assert stages + [p[0]] == stages + p;
    } else {
      var more := PipelineText(p[1..]);
      PipelineSolid(p[1..]);
      BlankThenPipe(more);
      ParseCommandText(p[0], " | " + more, status);
      ParsePipelineText(p[1..], stages + [p[0]], status);
      assert stages + [p[0]] + p[1..] == stages + p;
    }
  }

  /** Nothing to trim at either end. */
  predicate Solid(s: string) {
    s != [] && !IsWhitespace(s[0]) && !IsWhitespace(s[|s| - 1])
  }

  lemma {:induction false} ItemsSolid(words: seq<string>, redirs: seq<Redir>, k: nat)
    requires forall k :: 0 <= k < |redirs| ==> PrintableRedir(redirs[k])
    requires k < |Items(words, redirs)|
    ensures Solid(Items(words, redirs)[k])
    decreases |words| + |redirs|
  {
    hide Escaped;
    if k > 0 {
      if words != [] {
        ItemsSolid(words[1..], redirs, k - 1);
      } else {
        ItemsSolid([], redirs[1..], k - 1);
      }
    }
  }

  lemma {:induction false} JoinedSolid(parts: seq<string>, separator: string)
    requires parts != [] && forall k :: 0 <= k < |parts| ==> Solid(parts[k])
    ensures Solid(Joined(parts, separator))
  {
    if |parts| > 1 {
      JoinedSolid(parts[1..], separator);
    }
  }

  lemma CommandSolid(c: SimpleCommand)
    requires PrintableCommand(c)
    ensures Solid(CommandText(c))
  {
    forall k | 0 <= k < |Items(c.words, c.redirs)| ensures Solid(Items(c.words, c.redirs)[k]) {
      ItemsSolid(c.words, c.redirs, k);
    }
    JoinedSolid(Items(c.words, c.redirs), " ");
  }

  lemma {:induction false} PipelineSolid(p: Pipeline)
    requires PrintablePipeline(p)
    ensures Solid(PipelineText(p))
    decreases |p|
  {
    hide CommandText, PrintableCommand, IsWhitespace;
    CommandSolid(p[0]);
    if |p| > 1 {
      PipelineSolid(p[1..]);
    }
  }

  // ---------------------------------------------------------------------------
  // The first pass cuts a printed script at its separators only.
  // ---------------------------------------------------------------------------

  /** The splitter copies `t` and is then where it was. */
  ghost predicate Inert(t: string) {
    forall rest: string, st: Splitting ::
      Split(t + rest, Bare, false, st) == Split(rest, Bare, false, st.Push(t))
  }

  lemma InertAppend(a: string, b: string)
    requires Inert(a) && Inert(b)
    ensures Inert(a + b)
  {
    hide Split;
    forall rest: string, st: Splitting
      ensures Split(a + b + rest, Bare, false, st) == Split(rest, Bare, false, st.Push(a + b))
    {
      assert a + b + rest == a + (b + rest);
      assert Split(a + (b + rest), Bare, false, st) == Split(b + rest, Bare, false, st.Push(a));
      assert st.Push(a).Push(b) == st.Push(a + b) by {
        assert st.current + a + b == st.current + (a + b);
      }
    }
  }

  lemma {:induction false} SplitEscaped(w: string, rest: string, st: Splitting)
    ensures Split(Escaped(w) + "'" + rest, Single, false, st) == Split(rest, Bare, false, st.Push(Escaped(w) + "'"))
  {
    hide Split;
    var s := Escaped(w) + "'" + rest;
    if w == [] {
      SplitInside('\'', rest, st);
      assert s == "'" + rest && Escaped(w) + "'" == "'";
    } else {
      var head := if w[0] == '\'' then "'\\''" else [w[0]];
      var tail := Escaped(w[1..]) + "'" + rest;
      SplitEscaped(w[1..], rest, st.Push(head));
      assert st.Push(head).Push(Escaped(w[1..]) + "'") == st.Push(Escaped(w) + "'") by {
        assert Escaped(w) + "'" == head + (Escaped(w[1..]) + "'");
        assert st.current + head + (Escaped(w[1..]) + "'") == st.current + (head + (Escaped(w[1..]) + "'"));
      }
      assert s == head + tail;
      if w[0] == '\'' {
        Reopen(tail, st);
      } else {
        SplitInside(w[0], tail, st);
      }
    }
  }

  lemma SplitInside(c: char, tail: string, st: Splitting)
    ensures Split([c] + tail, Single, false, st) ==
            Split(tail, if c == '\'' then Bare else Single, false, st.Push([c]))
  {
    hide Finish, Flush, CommentStarts;
    assert ([c] + tail)[1..] == tail;
  }

  /** Close, escaped quote, open again. */
  lemma Reopen(tail: string, st: Splitting)
    ensures Split("'\\''" + tail, Single, false, st) == Split(tail, Single, false, st.Push("'\\''"))
  {
    hide Finish, Flush, CommentStarts;
    var s, t, u := "'\\''" + tail, "\\''" + tail, "'" + tail;
    assert s[1..] == t && t[2..] == u && t[..2] == "\\'" && u[1..] == tail;
    assert Split(s, Single, false, st) == Split(t, Bare, false, st.Push("'"));
    assert Split(t, Bare, false, st.Push("'")) == Split(u, Bare, false, st.Push("'").Push("\\'"));
    var st' := st.Push("'").Push("\\'");
    assert Split(u, Bare, false, st') == Split(tail, Single, false, st'.Push("'"));
    assert st'.Push("'") == st.Push("'\\''") by {
      assert st.current + "'" + "\\'" + "'" == st.current + "'\\''";
    }
  }

  lemma QuotedInert(w: string)
    ensures Inert(Quoted(w))
  {
    hide Finish, Flush, CommentStarts;
    forall rest: string, st: Splitting
      ensures Split(Quoted(w) + rest, Bare, false, st) == Split(rest, Bare, false, st.Push(Quoted(w)))
    {
      var s := Quoted(w) + rest;
      assert s[1..] == Escaped(w) + "'" + rest;
      SplitEscaped(w, rest, st.Push("'"));
      assert st.Push("'").Push(Escaped(w) + "'") == st.Push(Quoted(w)) by {
        assert st.current + "'" + (Escaped(w) + "'") == st.current + Quoted(w);
      }
    }
  }

  /** A character the splitter copies wherever it stands outside quotes, `>` apart. */
  predicate Plain(c: char) {
    !IsQuote(c) && c !in {'\\', '#', ';', '\n', '&', '|', '>'}
  }

  lemma PlainInert(c: char)
    requires Plain(c)
    ensures Inert([c])
  {
    hide Finish, Flush, CommentStarts;
    forall rest: string, st: Splitting
      ensures Split([c] + rest, Bare, false, st) == Split(rest, Bare, false, st.Push([c]))
    {
      assert ([c] + rest)[1..] == rest;
    }
  }

  /** An output arrow before a quoted path; `>&` is not a background job. */
  lemma ArrowSteps(rest: string, afterGt: bool, st: Splitting)
    ensures Split(">" + rest, Bare, afterGt, st) == Split(rest, Bare, true, st.Push(">"))
    ensures rest == [] || rest[0] != '&' ==>
              Split("&" + rest, Bare, true, st) == Split(rest, Bare, false, st.Push("&"))
  {
    hide Finish, Flush, CommentStarts;
    assert (">" + rest)[1..] == rest && ("&" + rest)[1..] == rest;
  }

  /** Right after an arrow anything but `&` is read as anywhere else. */
  lemma ArrowForgotten(s: string, st: Splitting)
    requires s == [] || s[0] != '&'
    ensures Split(s, Bare, true, st) == Split(s, Bare, false, st)
  {
    hide Finish, Flush, CommentStarts;
  }

  lemma PathArrowInert(arrow: string, path: string)
    requires arrow == ">" || arrow == ">>"
    ensures Inert(arrow + Quoted(path))
  {
    hide Split, Escaped;
    QuotedInert(path);
    forall rest: string, st: Splitting
      ensures Split(arrow + Quoted(path) + rest, Bare, false, st) == Split(rest, Bare, false, st.Push(arrow + Quoted(path)))
    {
      var t := Quoted(path) + rest;
      assert arrow + Quoted(path) + rest == arrow + t;
      ArrowSteps(t, arrow == ">>", if arrow == ">>" then st.Push(">") else st);
      if arrow == ">>" {
        ArrowSteps(">" + t, false, st);
        assert ">" + (">" + t) == ">>" + t;
        assert st.Push(">").Push(">") == st.Push(">>") by {
          assert st.current + ">" + ">" == st.current + ">>";
        }
      }
      ArrowForgotten(t, st.Push(arrow));
      assert st.Push(arrow).Push(Quoted(path)) == st.Push(arrow + Quoted(path)) by {
        assert st.current + arrow + Quoted(path) == st.current + (arrow + Quoted(path));
      }
    }
  }

  lemma DupArrowInert(fd: nat)
    requires fd <= 2
    ensures Inert(">&" + [Digit(fd)])
  {
    hide Split;
    PlainInert(Digit(fd));
    var d := [Digit(fd)];
    forall rest: string, st: Splitting
      ensures Split(">&" + d + rest, Bare, false, st) == Split(rest, Bare, false, st.Push(">&" + d))
    {
      assert ">&" + d + rest == ">" + ("&" + (d + rest));
      ArrowSteps("&" + (d + rest), false, st);
      ArrowSteps(d + rest, false, st.Push(">"));
      assert st.Push(">").Push("&").Push(d) == st.Push(">&" + d) by {
        assert st.current + ">" + "&" + d == st.current + (">&" + d);
      }
    }
  }

  lemma RedirInert(r: Redir)
    requires PrintableRedir(r)
    ensures Inert(RedirText(r))
  {
    hide Inert, Quoted;
    match r.target
    case Dup(fd) =>
      PlainInert(Digit(r.fd));
      DupArrowInert(fd);
      InertAppend([Digit(r.fd)], ">&" + [Digit(fd)]);
    case Path(path) =>
      if r.mode.Read? {
        PlainInert('<');
        QuotedInert(path);
        InertAppend("<", Quoted(path));
      } else {
        var arrow := if r.mode.Append? then ">>" else ">";
        PlainInert(Digit(r.fd));
        PathArrowInert(arrow, path);
        InertAppend([Digit(r.fd)], arrow + Quoted(path));
      }
  }

  lemma {:induction false} ItemsInert(words: seq<string>, redirs: seq<Redir>)
    requires PrintableCommand(SimpleCommand(words, redirs))
    ensures Inert(Joined(Items(words, redirs), " "))
    decreases |words| + |redirs|
  {
    hide Inert, Quoted, RedirText, PrintableRedir;
    var items := Items(words, redirs);
    if words != [] {
      QuotedInert(words[0]);
    } else {
      RedirInert(redirs[0]);
    }
    if |items| == 1 {
      assert Joined(items, " ") == items[0];
    } else {
      if words != [] {
        ItemsInert(words[1..], redirs);
        assert items[1..] == Items(words[1..], redirs);
      } else {
        ItemsInert([], redirs[1..]);
        assert items[1..] == Items([], redirs[1..]);
      }
      PlainInert(' ');
      InertAppend(" ", Joined(items[1..], " "));
      InertAppend(items[0], " " + Joined(items[1..], " "));
    }
  }

  lemma PipeInert()
    ensures Inert(" | ")
  {
    hide Finish, Flush, CommentStarts;
    forall rest: string, st: Splitting
      ensures Split(" | " + rest, Bare, false, st) == Split(rest, Bare, false, st.Push(" | "))
    {
      var s, t, u := " | " + rest, "| " + rest, " " + rest;
      assert s[1..] == t && t[1..] == u && u[1..] == rest;
      assert Split(s, Bare, false, st) == Split(t, Bare, false, st.Push(" "));
      assert Split(t, Bare, false, st.Push(" ")) == Split(u, Bare, false, st.Push(" ").Push("|"));
      assert st.Push(" ").Push("|").Push(" ") == st.Push(" | ") by {
        assert st.current + " " + "|" + " " == st.current + " | ";
      }
    }
  }

  lemma {:induction false} PipelineInert(p: Pipeline)
    requires PrintablePipeline(p)
    ensures Inert(PipelineText(p))
    decreases |p|
  {
    hide Inert, PrintableRedir;
    ItemsInert(p[0].words, p[0].redirs);
    if |p| == 1 {
      assert PipelineText(p) == CommandText(p[0]);
    } else {
      PipelineInert(p[1..]);
      PipeInert();
      InertAppend(" | ", PipelineText(p[1..]));
      InertAppend(CommandText(p[0]), " | " + PipelineText(p[1..]));
    }
  }

  lemma TrimSolid(t: string, before: string, after: string)
    requires Solid(t) && (before == "" || before == " ") && (after == "" || after == " ")
    ensures Trim(before + t + after) == t && !IsBlank(before + t + after)
  {
    var s, u := before + t + after, t + after;
    assert s[|before|] == t[0];
    assert TrimStart(s) == u by {
      if before == " " {
        assert s[1..] == u;
      } else {
        assert s == u;
      }
    }
    if after == " " {
      assert u[..|u| - 1] == t;
      assert TrimEnd(u) == TrimEnd(t);
    } else {
      assert u == t;
    }
    assert TrimEnd(t) == t;
  }

  /** The separator ends the segment it follows. */
  lemma SplitSeparator(chainer: Chainer, rest: string, st: Splitting)
    requires Flush(st.Push(" ")).Ok?
    ensures var done := Flush(st.Push(" ")).value;
            var pending: Option<Chainer> := if chainer.Seq? then None else Some(chainer);
            Split(Separator(chainer) + rest, Bare, false, st) == Split(rest, Bare, false, Splitting(" ", pending, done.segments))
  {
    hide Finish, CommentStarts, Trim;
    var s := Separator(chainer) + rest;
    var mark, after := s[1..], " " + rest;
    assert Split(s, Bare, false, st) == Split(mark, Bare, false, st.Push(" "));
    assert (if chainer.Seq? then mark[1..] else mark[2..]) == after && after[1..] == rest;
    var pending: Option<Chainer> := if chainer.Seq? then None else Some(chainer);
    var done := Flush(st.Push(" ")).value.(pending := pending);
    assert Split(mark, Bare, false, st.Push(" ")) == Split(after, Bare, false, done);
    assert done.Push(" ") == Splitting(" ", pending, done.segments) by {
      assert "" + " " == " ";
    }
  }

  lemma {:induction false} SplitLinks(script: seq<Link>, st: Splitting)
    requires script != [] && forall k :: 0 <= k < |script| ==> PrintablePipeline(script[k].pipeline)
    requires st.current == "" || st.current == " "
    requires script[0].chainer == if st.segments == [] || st.pending.None? then Seq else st.pending.value
    ensures Split(ScriptText(script), Bare, false, st) == Ok(st.segments + Segments(script))
    decreases |script|
  {
    hide Split, PrintablePipeline, PipelineText, Separator, Flush, Finish;
    var t := PipelineText(script[0].pipeline);
    var st' := st.Push(t);
    var segment := Segment(script[0].chainer, t);
    PipelineFlushes(script[0], st);
    if |script| == 1 {
      assert ScriptText(script) == t + "";
      SplitPipeline(script[0].pipeline, "", st);
      assert Segments(script) == [segment];
    } else {
      var rest := ScriptText(script[1..]);
      var tail := Separator(script[1].chainer) + rest;
      assert ScriptText(script) == t + tail;
      SplitPipeline(script[0].pipeline, tail, st);
      SplitSeparator(script[1].chainer, rest, st');
      var pending: Option<Chainer> := if script[1].chainer.Seq? then None else Some(script[1].chainer);
      SplitLinks(script[1..], Splitting(" ", pending, st.segments + [segment]));
      assert st.segments + [segment] + Segments(script[1..]) == st.segments + Segments(script);
    }
  }

  lemma SplitPipeline(p: Pipeline, rest: string, st: Splitting)
    requires PrintablePipeline(p)
    ensures Split(PipelineText(p) + rest, Bare, false, st) == Split(rest, Bare, false, st.Push(PipelineText(p)))
    ensures Split("", Bare, false, st.Push(PipelineText(p))) == Finish(st.Push(PipelineText(p)))
  {
    hide Finish, PipelineText, PrintablePipeline;
    PipelineInert(p);
  }

  lemma PipelineFlushes(link: Link, st: Splitting)
    requires PrintablePipeline(link.pipeline) && (st.current == "" || st.current == " ")
    requires link.chainer == if st.segments == [] || st.pending.None? then Seq else st.pending.value
    ensures var t := PipelineText(link.pipeline);
            var done := st.segments + [Segment(link.chainer, t)];
            && Flush(st.Push(t).Push(" ")) == Ok(Splitting("", None, done))
            && Finish(st.Push(t)) == Ok(done)
  {
    hide PipelineText, PrintablePipeline, Trim, IsBlank;
    var t := PipelineText(link.pipeline);
    PipelineSolid(link.pipeline);
    TrimSolid(t, st.current, "");
    TrimSolid(t, st.current, " ");
    assert st.current + t + "" == st.current + t;
  }

  /** Printing a script and reading it back gives the same script, whatever the last status:
      the splitter finds its links, and the parser each link's pipeline. */
  lemma {:induction false} ScriptRoundTrip(script: seq<Link>)
    requires Printable(script)
    ensures SplitScript(ScriptText(script)) == Ok(Segments(script))
    ensures forall k, status :: 0 <= k < |script| ==>
              Segments(script)[k].chainer == script[k].chainer
              && ParsePipeline(Segments(script)[k].text, status) == Ok(script[k].pipeline)
  {
    hide Split, ParseStages, PipelineText, PrintablePipeline;
    SplitLinks(script, START);
    assert START.segments + Segments(script) == Segments(script);
    forall k, status | 0 <= k < |script|
      ensures ParsePipeline(Segments(script)[k].text, status) == Ok(script[k].pipeline)
    {
      ParsePipelineText(script[k].pipeline, [], status);
      assert [] + script[k].pipeline == script[k].pipeline;
    }
  }

  // ---------------------------------------------------------------------------
  // Words of single-quoted, double-quoted and status pieces.
  // ---------------------------------------------------------------------------

  datatype Piece = InSingle(text: string) | InDouble(text: string) | BareStatus | QuotedStatus

  /** In double quotes a quote, a backslash and a dollar sign are escaped. */
  function DoubleEscaped(w: string): string {
    if w == [] then []
    else (if w[0] in {'"', '\\', '$'} then ['\\', w[0]] else [w[0]]) + DoubleEscaped(w[1..])
  }

  function PieceText(p: Piece): string {
    match p
    case InSingle(text) => Quoted(text)
    case InDouble(text) => "\"" + (DoubleEscaped(text) + "\"")
    case BareStatus => "$?"
    case QuotedStatus => "\"$?\""
  }

  /** What a piece stands for, given the last status. */
  function PieceValue(p: Piece, status: int): string {
    match p
    case InSingle(text) => text
    case InDouble(text) => text
    case BareStatus => StatusText(status)
    case QuotedStatus => StatusText(status)
  }

  function WordText(pieces: seq<Piece>): string {
    if pieces == [] then "" else PieceText(pieces[0]) + WordText(pieces[1..])
  }

  function WordValue(pieces: seq<Piece>, status: int): string {
    if pieces == [] then "" else PieceValue(pieces[0], status) + WordValue(pieces[1..], status)
  }

  lemma {:induction false} ReadDoubleEscaped(w: string, rest: string, word: string, status: int)
    ensures ReadWord(DoubleEscaped(w) + "\"" + rest, Double, word, status) == ReadWord(rest, Bare, word + w, status)
  {
    hide ReadWord;
    var s := DoubleEscaped(w) + "\"" + rest;
    if w == [] {
      InDoubleStep('"', rest, word, status);
      assert s == "\"" + rest && word + w == word;
    } else {
      var tail := DoubleEscaped(w[1..]) + "\"" + rest;
      ReadDoubleEscaped(w[1..], rest, word + [w[0]], status);
      assert word + [w[0]] + w[1..] == word + w;
      if w[0] in {'"', '\\', '$'} {
        assert s == ['\\', w[0]] + tail;
        EscapeInDouble(w[0], tail, word, status);
      } else {
        assert s == [w[0]] + tail;
        InDoubleStep(w[0], tail, word, status);
      }
    }
  }

  lemma InDoubleStep(c: char, tail: string, word: string, status: int)
    requires c != '\\' && c != '$'
    ensures ReadWord([c] + tail, Double, word, status) ==
            if c == '"' then ReadWord(tail, Bare, word, status) else ReadWord(tail, Double, word + [c], status)
  {
    hide StatusText;
    assert ([c] + tail)[1..] == tail;
  }

  lemma EscapeInDouble(c: char, tail: string, word: string, status: int)
    ensures ReadWord(['\\', c] + tail, Double, word, status) == ReadWord(tail, Double, word + [c], status)
  {
    hide StatusText;
    assert (['\\', c] + tail)[2..] == tail;
  }

  lemma StatusStep(mode: Mode, tail: string, word: string, status: int)
    requires !mode.Single?
    ensures ReadWord("$?" + tail, mode, word, status) == ReadWord(tail, mode, word + StatusText(status), status)
  {
    hide StatusText;
    assert ("$?" + tail)[2..] == tail;
  }

  lemma OpensQuote(c: char, tail: string, word: string, status: int)
    requires IsQuote(c)
    ensures ReadWord([c] + tail, Bare, word, status) == ReadWord(tail, Opened(c), word, status)
  {
    hide StatusText;
    assert ([c] + tail)[1..] == tail;
  }

  /** Each piece adds exactly its value to the word. */
  lemma ReadPiece(p: Piece, rest: string, word: string, status: int)
    ensures ReadWord(PieceText(p) + rest, Bare, word, status) == ReadWord(rest, Bare, word + PieceValue(p, status), status)
  {
    hide ReadWord, StatusText, Escaped, DoubleEscaped;
    match p
    case InSingle(text) =>
      var t := Escaped(text) + "'" + rest;
      assert PieceText(p) + rest == "'" + t;
      OpensQuote('\'', t, word, status);
      ReadEscaped(text, rest, word, status);
    case InDouble(text) =>
      var t := DoubleEscaped(text) + "\"" + rest;
      assert PieceText(p) + rest == "\"" + t;
      OpensQuote('"', t, word, status);
      ReadDoubleEscaped(text, rest, word, status);
    case BareStatus =>
      StatusStep(Bare, rest, word, status);
    case QuotedStatus =>
      var t := "\"" + rest;
      assert PieceText(p) + rest == "\"" + ("$?" + t);
      OpensQuote('"', "$?" + t, word, status);
      StatusStep(Double, t, word, status);
      InDoubleStep('"', rest, word + StatusText(status), status);
  }

  lemma {:induction false} ReadPieces(pieces: seq<Piece>, rest: string, word: string, status: int)
    ensures ReadWord(WordText(pieces) + rest, Bare, word, status) == ReadWord(rest, Bare, word + WordValue(pieces, status), status)
    decreases |pieces|
  {
    hide ReadWord, PieceText, PieceValue;
    if pieces == [] {
      assert WordText(pieces) + rest == rest && word + WordValue(pieces, status) == word;
    } else {
      var tail := WordText(pieces[1..]) + rest;
      assert WordText(pieces) + rest == PieceText(pieces[0]) + tail;
      ReadPiece(pieces[0], tail, word, status);
      ReadPieces(pieces[1..], rest, word + PieceValue(pieces[0], status), status);
      assert word + PieceValue(pieces[0], status) + WordValue(pieces[1..], status) == word + WordValue(pieces, status);
    }
  }

  lemma {:induction false} SplitDoubleEscaped(w: string, rest: string, st: Splitting)
    ensures Split(DoubleEscaped(w) + "\"" + rest, Double, false, st)
            == Split(rest, Bare, false, st.Push(DoubleEscaped(w) + "\""))
  {
    hide Split;
    var s := DoubleEscaped(w) + "\"" + rest;
    if w == [] {
      SplitInDouble("\"", rest, st);
      assert s == "\"" + rest && DoubleEscaped(w) + "\"" == "\"";
    } else {
      var head := if w[0] in {'"', '\\', '$'} then ['\\', w[0]] else [w[0]];
      var tail := DoubleEscaped(w[1..]) + "\"" + rest;
      SplitDoubleEscaped(w[1..], rest, st.Push(head));
      assert st.Push(head).Push(DoubleEscaped(w[1..]) + "\"") == st.Push(DoubleEscaped(w) + "\"") by {
        assert DoubleEscaped(w) + "\"" == head + (DoubleEscaped(w[1..]) + "\"");
        assert st.current + head + (DoubleEscaped(w[1..]) + "\"") == st.current + (head + (DoubleEscaped(w[1..]) + "\""));
      }
      assert s == head + tail;
      SplitInDouble(head, tail, st);
    }
  }

  /** One character, or an escaped one, inside double quotes. */
  lemma SplitInDouble(head: string, tail: string, st: Splitting)
    requires (|head| == 1 && head[0] != '\\') || (|head| == 2 && head[0] == '\\')
    ensures Split(head + tail, Double, false, st) == Split(tail, if head == "\"" then Bare else Double, false, st.Push(head))
  {
    hide Finish, Flush, CommentStarts;
    var s := head + tail;
    assert s[|head|..] == tail && s[..|head|] == head;
    if |head| == 1 {
      assert head == [head[0]];
    }
  }

  lemma DoubleInert(w: string)
    ensures Inert("\"" + (DoubleEscaped(w) + "\""))
  {
    hide Finish, Flush, CommentStarts, DoubleEscaped;
    var text := "\"" + (DoubleEscaped(w) + "\"");
    forall rest: string, st: Splitting ensures Split(text + rest, Bare, false, st) == Split(rest, Bare, false, st.Push(text)) {
      var s := text + rest;
      assert s[1..] == DoubleEscaped(w) + "\"" + rest;
      SplitDoubleEscaped(w, rest, st.Push("\""));
      assert st.Push("\"").Push(DoubleEscaped(w) + "\"") == st.Push(text) by {
        assert st.current + "\"" + (DoubleEscaped(w) + "\"") == st.current + text;
      }
    }
  }

  lemma QuotedStatusInert()
    ensures Inert("\"$?\"")
  {
    hide Split;
    forall rest: string, st: Splitting
      ensures Split("\"$?\"" + rest, Bare, false, st) == Split(rest, Bare, false, st.Push("\"$?\""))
    {
      var a, b, c := "$?\"" + rest, "?\"" + rest, "\"" + rest;
      assert "\"$?\"" + rest == "\"" + a && a == "$" + b && b == "?" + c;
      SplitOpensDouble(a, st);
      SplitInDouble("$", b, st.Push("\""));
      SplitInDouble("?", c, st.Push("\"").Push("$"));
      SplitInDouble("\"", rest, st.Push("\"").Push("$").Push("?"));
      assert st.Push("\"").Push("$").Push("?").Push("\"") == st.Push("\"$?\"") by {
        assert st.current + "\"" + "$" + "?" + "\"" == st.current + "\"$?\"";
      }
    }
  }

  lemma SplitOpensDouble(tail: string, st: Splitting)
    ensures Split("\"" + tail, Bare, false, st) == Split(tail, Double, false, st.Push("\""))
  {
    hide Finish, Flush, CommentStarts;
    assert ("\"" + tail)[1..] == tail;
  }

  lemma {:induction false} PiecesInert(pieces: seq<Piece>)
    ensures Inert(WordText(pieces))
    decreases |pieces|
  {
    hide Inert, Quoted, DoubleEscaped;
    if pieces == [] {
      NothingInert();
    } else {
      PiecesInert(pieces[1..]);
      match pieces[0] {
        case InSingle(text) => QuotedInert(text);
        case InDouble(text) => DoubleInert(text);
        case BareStatus =>
          PlainInert('$');
          PlainInert('?');
          InertAppend("$", "?");
          assert "$" + "?" == "$?";
        case QuotedStatus => QuotedStatusInert();
      }
      InertAppend(PieceText(pieces[0]), WordText(pieces[1..]));
    }
  }

  lemma NothingInert()
    ensures Inert("")
  {
    hide Split;
    forall rest: string, st: Splitting ensures Split("" + rest, Bare, false, st) == Split(rest, Bare, false, st.Push("")) {
      assert "" + rest == rest && st.current + "" == st.current;
    }
  }

  /** A word of pieces passes the splitter untouched and is read as the pieces' values in
      order, with the last status for each `$?`, as long as it is not empty. */
  lemma WordRoundTrip(pieces: seq<Piece>, rest: string, status: int)
    requires Stops(rest)
    ensures Inert(WordText(pieces))
    ensures ReadWord(WordText(pieces) + rest, Bare, "", status) ==
            if WordValue(pieces, status) == "" then Err(ExpectedWord) else Ok((WordValue(pieces, status), rest))
  {
    hide Inert, WordText, WordValue, StatusText;
    PiecesInert(pieces);
    ReadPieces(pieces, rest, "", status);
    assert "" + WordValue(pieces, status) == WordValue(pieces, status);
  }

  /** The digits of `$?` are the status in decimal. */
  lemma {:induction false} DecimalRead(n: nat)
    ensures DigitsValue(Decimal(n)) == Some(n) && |Decimal(n)| >= 1
    ensures |Decimal(n)| > 1 ==> Decimal(n)[0] != '0'
  {
    var d := Digit(n % 10);
    assert d as nat - '0' as nat == n % 10;
    if n < 10 {
      assert [d][..0] == [] && DigitsValue([]) == Some(0);
    } else {
      DecimalRead(n / 10);
      var s := Decimal(n);
      assert s[..|s| - 1] == Decimal(n / 10);
      assert s[0] == Decimal(n / 10)[0];
      if |Decimal(n / 10)| == 1 {
        assert n / 10 < 10 && Decimal(n / 10) == [Digit(n / 10)];
      }
    }
  }

  lemma StatusInDecimal(status: int)
    ensures status >= 0 ==> DigitsValue(StatusText(status)) == Some(status)
    ensures status < 0 ==> StatusText(status)[0] == '-' && DigitsValue(StatusText(status)[1..]) == Some(-status)
  {
    hide Decimal, DigitsValue;
    if status >= 0 {
      DecimalRead(status);
    } else {
      DecimalRead(-status);
      assert StatusText(status)[1..] == Decimal(-status);
    }
  }

  /** A descriptor is read from its decimal digits, with or without a plus sign, up to 255. */
  lemma ParseU8Reads(n: nat)
    ensures ParseU8(Decimal(n)) == (if n <= 255 then Some(n) else None)
    ensures ParseU8("+" + Decimal(n)) == ParseU8(Decimal(n)) && ParseU8("-" + Decimal(n)) == None
  {
    DecimalRead(n);
    var s := Decimal(n);
    FirstIsDigit(n);
    assert ("+" + s)[1..] == s;
    NoSign(s);
  }

  lemma {:induction false} FirstIsDigit(n: nat)
    ensures IsDigit(Decimal(n)[0])
  {
    if n >= 10 {
      FirstIsDigit(n / 10);
      assert Decimal(n)[0] == Decimal(n / 10)[0];
    }
  }

  lemma {:induction false} NoSign(s: string)
    ensures DigitsValue("-" + s) == None
  {
    var t := "-" + s;
    if s != [] {
      assert t[..|t| - 1] == "-" + s[..|s| - 1];
      NoSign(s[..|s| - 1]);
    }
  }
}
