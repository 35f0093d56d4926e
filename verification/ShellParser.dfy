/** The two passes as the shell runs them, over positions in the text, and the loop that
    runs a script. */
module ShellParser {
  import opened Common
  import opened Shell
  import opened ShellRoundTrip

  lemma Drop(s: string, i: nat, k: nat)
    requires i + k <= |s|
    ensures s[i..][k..] == s[i + k..]
  {
  }

  // ---------------------------------------------------------------------------
  // First pass.
  // ---------------------------------------------------------------------------

  /** Copy a quoted span through its closing quote; fail if the script ends first. */
  method CopyQuoted(chars: string, start: nat, quote: char, ghost st: Splitting) returns (i: nat, copied: string, closed: bool)
    requires start < |chars| && chars[start] == quote && IsQuote(quote)
    ensures start < i <= |chars| && (closed ==> chars[i - 1] == quote)
    ensures var whole := Split(chars[start..], Bare, false, st);
            if closed then whole == Split(chars[i..], Bare, false, st.Push(copied)) else whole == Err(UnterminatedQuote)
  {
    hide Split;
    copied := [quote];
    i := start + 1;
    closed := false;
    OpenStep(chars[start..], st);
    Drop(chars, start, 1);
    while i < |chars|
      invariant start < i <= |chars| && !closed
      invariant Split(chars[start..], Bare, false, st) == Split(chars[i..], Opened(quote), false, st.Push(copied))
    {
      var inner := chars[i];
      QuotedStep(chars[i..], Opened(quote), st.Push(copied));
      Drop(chars, i, 1);
      if inner == '\\' && quote == '"' && i + 1 < |chars| {
        Drop(chars, i, 2);
        assert chars[i..][..2] == [inner, chars[i + 1]];
        PushPush(st, copied, [inner, chars[i + 1]]);
        copied := copied + [inner, chars[i + 1]];
        i := i + 2;
        continue;
      }
      PushPush(st, copied, [inner]);
      copied := copied + [inner];
      i := i + 1;
      if inner == quote {
        return i, copied, true;
      }
    }
    assert chars[i..] == "";
    QuotedEnd(Opened(quote), st.Push(copied));
  }

  lemma PushPush(st: Splitting, a: string, b: string)
    ensures st.Push(a).Push(b) == st.Push(a + b)
  {
    assert st.current + a + b == st.current + (a + b);
  }

  lemma OpenStep(s: string, st: Splitting)
    requires s != [] && IsQuote(s[0])
    ensures Split(s, Bare, false, st) == Split(s[1..], Opened(s[0]), false, st.Push([s[0]]))
  {
    hide Finish, Flush, CommentStarts;
  }

  lemma QuotedStep(s: string, mode: Mode, st: Splitting)
    requires s != [] && !mode.Bare?
    ensures Split(s, mode, false, st) ==
            if s[0] == '\\' && mode.Double? && |s| > 1 then Split(s[2..], mode, false, st.Push(s[..2]))
            else Split(s[1..], if Closes(mode, s[0]) then Bare else mode, false, st.Push([s[0]]))
  {
    hide Finish, Flush, CommentStarts;
  }

  lemma QuotedEnd(mode: Mode, st: Splitting)
    requires !mode.Bare?
    ensures Split("", mode, false, st) == Err(UnterminatedQuote)
  {
  }

  method FlushSegment(st: Splitting) returns (r: Result<Splitting, SyntaxError>)
    ensures r == Flush(st)
  {
    var text := Trim(st.current);
    if text == "" {
      if st.pending.Some? {
        return Err(EmptyInChain);
      }
      return Ok(Splitting("", None, st.segments));
    }
    var chainer := if st.segments == [] then Seq else if st.pending.Some? then st.pending.value else Seq;
    return Ok(Splitting("", None, st.segments + [Segment(chainer, text)]));
  }

  /** Skip a comment up to, not through, the end of its line. */
  method SkipCommentAt(chars: string, start: nat) returns (i: nat)
    requires start < |chars| && chars[start] == '#'
    ensures start < i <= |chars| && (i == |chars| || chars[i] == '\n')
    ensures chars[i..] == SkipComment(chars[start..])
  {
    i := start;
    while i < |chars| && chars[i] != '\n'
      invariant start <= i <= |chars| && (i == start ==> chars[i] == '#')
      invariant SkipComment(chars[i..]) == SkipComment(chars[start..])
    {
      Drop(chars, i, 1);
      i := i + 1;
    }
  }

  /** At the start of a segment or after a blank, a `#` starts a comment. */
  predicate StartsComment(current: string)
    ensures StartsComment(current) <==> CommentStarts(current)
  {
    BlankTrims(current);
    Trim(current) == "" || " " == LastOf(current) || "\t" == LastOf(current)
  }

  function LastOf(s: string): string {
    if s == "" then "" else s[|s| - 1..]
  }

  method SplitSegments(script: string) returns (r: Result<seq<Segment>, SyntaxError>)
    ensures r == SplitScript(script)
  {
    hide Flush, CommentStarts, IsBlank, Finish, SkipComment, StartsComment;
    var st, i := START, 0;
    assert script[0..] == script;
    while i < |script|
      invariant 0 <= i <= |script|
      invariant Split(script[i..], Bare, i > 0 && script[i - 1] == '>', st) == SplitScript(script)
    {
      var c := script[i];
      Drop(script, i, 1);
      if i + 1 < |script| {
        Drop(script, i, 2);
        assert script[i..][..2] == [c, script[i + 1]];
      }
      if c != '&' {
        ArrowForgotten(script[i..], st);
      }
      if IsQuote(c) {
        var next, copied, closed := CopyQuoted(script, i, c, st);
        if !closed {
          return Err(UnterminatedQuote);
        }
        st, i := st.Push(copied), next;
      } else if c == '\\' {
        if i + 1 < |script| {
          st, i := st.Push([c, script[i + 1]]), i + 2;
        } else {
          st, i := st.Push([c]), i + 1;
        }
      } else if c == '#' && StartsComment(st.current) {
        i := SkipCommentAt(script, i);
        ArrowForgotten(script[i..], st);
      } else if c == ';' || c == '\n' {
        var done := FlushSegment(st);
        if done.Err? {
          return Err(done.error);
        }
        st, i := done.value, i + 1;
      } else if (c == '&' || c == '|') && i + 1 < |script| && script[i + 1] == c {
        var done := FlushSegment(st);
        if done.Err? {
          return Err(done.error);
        }
        st, i := done.value.(pending := Some(if c == '&' then And else Or)), i + 2;
      } else if c == '&' && !(i > 0 && script[i - 1] == '>') {
        return Err(BackgroundJob);
      } else {
        st, i := st.Push([c]), i + 1;
      }
    }
    r := FinishScript(st);
  }

  method FinishScript(st: Splitting) returns (r: Result<seq<Segment>, SyntaxError>)
    ensures r == Finish(st)
  {
    hide Flush;
    if st.pending.Some? && Trim(st.current) == "" {
      BlankTrims(st.current);
      return Err(TrailingChain);
    }
    BlankTrims(st.current);
    var done := FlushSegment(st);
    if done.Err? {
      return Err(done.error);
    }
    if done.value.segments == [] {
      return Err(EmptyScript);
    }
    return Ok(done.value.segments);
  }

  /** `trim().is_empty()` says that every character is white space. */
  lemma BlankTrims(s: string)
    ensures Trim(s) == "" <==> IsBlank(s)
  {
    TrimStartBlank(s);
    var t := TrimStart(s);
    if t != "" {
      TrimEndKeeps(t);
    }
  }

  lemma {:induction false} TrimStartBlank(s: string)
    ensures if IsBlank(s) then TrimStart(s) == "" else TrimStart(s) != "" && !IsWhitespace(TrimStart(s)[0])
  {
    hide IsWhitespace;
    if s != [] && IsWhitespace(s[0]) {
      TrimStartBlank(s[1..]);
      assert IsBlank(s) <==> IsBlank(s[1..]) by {
        if IsBlank(s[1..]) {
          assert forall i :: 1 <= i < |s| ==> s[i] == s[1..][i - 1];
        }
      }
    }
  }

  lemma {:induction false} TrimEndKeeps(s: string)
    requires s != "" && !IsWhitespace(s[0])
    ensures TrimEnd(s) != ""
  {
    if IsWhitespace(s[|s| - 1]) {
      TrimEndKeeps(s[..|s| - 1]);
    }
  }

  // ---------------------------------------------------------------------------
  // Second pass.
  // ---------------------------------------------------------------------------

  class SegmentParser {
    const chars: string
    const lastStatus: int
    var pos: nat

    ghost predicate Valid()
      reads this
    {
      pos <= |chars|
    }

    /** What is left to read. */
    ghost function Rest(): string
      requires Valid()
      reads this
    {
      chars[pos..]
    }

    constructor (text: string, lastStatus: int)
      ensures Valid() && Rest() == text && this.lastStatus == lastStatus
    {
      chars, this.lastStatus, pos := text, lastStatus, 0;
    }

    function PeekAt(offset: nat): (c: Option<char>)
      requires Valid()
      reads this
      ensures c == if offset < |Rest()| then Some(Rest()[offset]) else None
    {
      if pos + offset < |chars| then Some(chars[pos + offset]) else None
    }

    method Bump() returns (c: Option<char>)
      requires Valid()
      modifies this
      ensures Valid()
      ensures old(Rest()) == [] ==> c.None? && Rest() == []
      ensures old(Rest()) != [] ==> c == Some(old(Rest())[0]) && Rest() == old(Rest())[1..]
    {
      c := PeekAt(0);
      if c.Some? {
        pos := pos + 1;
      }
    }

    method SkipBlanks()
      requires Valid()
      modifies this
      ensures Valid() && Rest() == Shell.SkipBlanks(old(Rest()))
    {
      while PeekAt(0) == Some(' ') || PeekAt(0) == Some('\t')
        invariant Valid() && Shell.SkipBlanks(Rest()) == Shell.SkipBlanks(old(Rest()))
        decreases |chars| - pos
      {
        Drop(chars, pos, 1);
        pos := pos + 1;
      }
    }

    /** The rest of a single-quoted span, after its opening quote. */
    method ReadSingle(before: string) returns (word: string, closed: bool)
      requires Valid()
      modifies this
      ensures Valid() && pos >= old(pos)
      ensures var whole := Shell.ReadWord(old(Rest()), Single, before, lastStatus);
              if closed then whole == Shell.ReadWord(Rest(), Bare, word, lastStatus) else whole == Err(UnterminatedSingle)
    {
      hide StatusText, EndsWord;
      word := before;
      while true
        invariant Valid() && pos >= old(pos)
        invariant Shell.ReadWord(old(Rest()), Single, before, lastStatus) == Shell.ReadWord(Rest(), Single, word, lastStatus)
        decreases |chars| - pos
      {
        ghost var rest := Rest();
        var c := Bump();
        if c.None? {
          return word, false;
        }
        if c.value == '\'' {
          return word, true;
        }
        word := word + [c.value];
      }
    }

    /** The rest of a double-quoted span, after its opening quote. */
    method ReadDouble(before: string) returns (word: string, closed: bool)
      requires Valid()
      modifies this
      ensures Valid() && pos >= old(pos)
      ensures var whole := Shell.ReadWord(old(Rest()), Double, before, lastStatus);
              if closed then whole == Shell.ReadWord(Rest(), Bare, word, lastStatus) else whole == Err(UnterminatedDouble)
    {
      hide StatusText, EndsWord;
      word := before;
      while true
        invariant Valid() && pos >= old(pos)
        invariant Shell.ReadWord(old(Rest()), Double, before, lastStatus) == Shell.ReadWord(Rest(), Double, word, lastStatus)
        decreases |chars| - pos
      {
        ghost var rest := Rest();
        var c := Bump();
        if c.None? {
          return word, false;
        }
        if c.value == '"' {
          return word, true;
        } else if c.value == '\\' {
          var next := Bump();
          if next.Some? {
            assert rest[2..] == Rest();
            word := word + [next.value];
          } else {
            assert Rest() == [];
          }
        } else if c.value == '$' && PeekAt(0) == Some('?') {
          pos := pos + 1;
          assert rest[2..] == Rest();
          word := word + StatusText(lastStatus);
        } else {
          word := word + [c.value];
        }
      }
    }

    method ReadWord() returns (r: Result<string, SyntaxError>)
      requires Valid()
      modifies this
      ensures Valid()
      ensures var whole := Shell.ReadWord(old(Rest()), Bare, "", lastStatus);
              if r.Ok? then whole == Ok((r.value, Rest())) && pos > old(pos) else whole == Err(r.error)
    {
      hide StatusText, Shell.ReadWord;
      var word := "";
      while true
        invariant Valid() && pos >= old(pos) && (pos == old(pos) ==> word == "")
        invariant Shell.ReadWord(old(Rest()), Bare, "", lastStatus) == Shell.ReadWord(Rest(), Bare, word, lastStatus)
        decreases |chars| - pos
      {
        ghost var rest := Rest();
        WordStep(rest, word, lastStatus);
        var c := PeekAt(0);
        if c.None? {
          break;
        }
        Drop(chars, pos, 1);
        if c.value == '\'' {
          pos := pos + 1;
          var closed;
          word, closed := ReadSingle(word);
          if !closed {
            return Err(UnterminatedSingle);
          }
        } else if c.value == '"' {
          pos := pos + 1;
          var closed;
          word, closed := ReadDouble(word);
          if !closed {
            return Err(UnterminatedDouble);
          }
        } else if c.value == '\\' {
          pos := pos + 1;
          var next := Bump();
          if next.Some? {
            assert rest[2..] == Rest();
            word := word + [next.value];
          } else {
            assert Rest() == [];
          }
        } else if c.value == '$' && PeekAt(1) == Some('?') {
          Drop(chars, pos, 2);
          pos := pos + 2;
          word := word + StatusText(lastStatus);
        } else if IsTerminator(c.value, PeekAt(1), word == "") {
          break;
        } else {
          word := word + [c.value];
          pos := pos + 1;
        }
      }
      if word == "" {
        return Err(ExpectedWord);
      }
      return Ok(word);
    }

    method ParseRedir(fd: Option<nat>) returns (r: Result<Redir, SyntaxError>)
      requires Valid() && Rest() != [] && IsArrow(Rest()[0])
      modifies this
      ensures Valid()
      ensures var whole := Shell.ParseRedir(old(Rest()), fd, lastStatus);
              if r.Ok? then whole == Ok((r.value, Rest())) && pos > old(pos) else whole == Err(r.error)
    {
      hide Shell.ReadWord, Shell.SkipBlanks, ParseU8;
      ghost var rest := Rest();
      var head := chars[pos];
      pos := pos + 1;
      var mode := Write;
      if head == '<' {
        if fd.Some? {
          return Err(FdBeforeInput);
        }
        mode := Read;
      }
      if head == '>' && PeekAt(0) == Some('>') {
        pos := pos + 1;
        mode := Append;
      }
      assert Rest() == if mode.Append? then rest[2..] else rest[1..];
      var from := if fd.Some? then fd.value else if head == '<' then 0 else 1;
      if PeekAt(0) == Some('&') {
        ghost var arrow := Rest();
        pos := pos + 1;
        assert Rest() == arrow[1..];
        SkipBlanks();
        var target := ReadWord();
        if target.Err? {
          return Err(target.error);
        }
        var dup := ParseU8(target.value);
        if dup.None? || dup.value > 2 {
          return Err(BadDuplication(target.value));
        }
        return Ok(Redir(from, Write, Dup(dup.value)));
      }
      SkipBlanks();
      var path := ReadWord();
      if path.Err? {
        return Err(path.error);
      }
      return Ok(Redir(from, mode, Path(path.value)));
    }

    method ParseCommand() returns (r: Result<SimpleCommand, SyntaxError>)
      requires Valid()
      modifies this
      ensures Valid() && (r.Ok? ==> pos >= old(pos))
      ensures var whole := Shell.ParseCommand(old(Rest()), [], [], lastStatus);
              if r.Ok? then whole == Ok((r.value, Rest())) else whole == Err(r.error)
    {
      hide Shell.ReadWord, Shell.ParseRedir, Shell.SkipBlanks;
      var words: seq<string>, redirs: seq<Redir> := [], [];
      while true
        invariant Valid() && pos >= old(pos)
        invariant Shell.ParseCommand(old(Rest()), [], [], lastStatus) == Shell.ParseCommand(Rest(), words, redirs, lastStatus)
        decreases |chars| - pos
      {
        SkipBlanks();
        var c := PeekAt(0);
        if c.None? || c.value == '|' {
          break;
        }
        Drop(chars, pos, 1);
        if IsDigit(c.value) && PeekAt(1).Some? && IsArrow(PeekAt(1).value) {
          pos := pos + 1;
          var redir := ParseRedir(Some(c.value as nat - '0' as nat));
          if redir.Err? {
            return Err(redir.error);
          }
          redirs := redirs + [redir.value];
        } else if IsArrow(c.value) {
          var redir := ParseRedir(None);
          if redir.Err? {
            return Err(redir.error);
          }
          redirs := redirs + [redir.value];
        } else {
          var word := ReadWord();
          if word.Err? {
            return Err(word.error);
          }
          words := words + [word.value];
        }
      }
      if words == [] && redirs == [] {
        return Err(EmptyCommand);
      }
      return Ok(SimpleCommand(words, redirs));
    }

    method ParsePipeline() returns (r: Result<Pipeline, SyntaxError>)
      requires Valid()
      modifies this
      ensures Valid() && r == Shell.ParsePipeline(old(Rest()), lastStatus)
    {
      hide Shell.ParseCommand, Shell.SkipBlanks, ParseStages;
      ghost var all := Rest();
      var first := ParseCommand();
      if first.Err? {
        StagesFail(all, [], lastStatus);
        return Err(first.error);
      }
      var stages: Pipeline := [first.value];
      ghost var from, done: Pipeline := all, [];
      while true
        invariant Valid() && |from| <= |all| && |Rest()| <= |from|
        invariant stages != [] && stages[..|stages| - 1] == done
        invariant Shell.ParseCommand(from, [], [], lastStatus) == Ok((stages[|stages| - 1], Rest()))
        invariant ParseStages(from, done, lastStatus) == Shell.ParsePipeline(all, lastStatus)
        decreases |chars| - pos
      {
        StagesStep(from, done, stages[|stages| - 1], Rest(), lastStatus);
        assert done + [stages[|stages| - 1]] == stages;
        SkipBlanks();
        SkippedAll(Rest());
        if PeekAt(0) == Some('|') && PeekAt(1) != Some('|') {
          Drop(chars, pos, 1);
          pos := pos + 1;
          SkipBlanks();
          from, done := Rest(), stages;
          var next := ParseCommand();
          if next.Err? {
            StagesFail(from, done, lastStatus);
            return Err(next.error);
          }
          stages := stages + [next.value];
        } else {
          break;
        }
      }
      SkipBlanks();
      if PeekAt(0).Some? {
        return Err(TrailingCharacters);
      }
      return Ok(stages);
    }
  }

  /** One step of a word outside quotes. */
  lemma WordStep(s: string, word: string, status: int)
    ensures Shell.ReadWord(s, Bare, word, status) ==
            if s == [] || (!IsQuote(s[0]) && s[0] != '\\' && !(s[0] == '$' && |s| > 1 && s[1] == '?') && EndsWord(s, word == ""))
            then WordOf(word, s)
            else if IsQuote(s[0]) then Shell.ReadWord(s[1..], Opened(s[0]), word, status)
            else if s[0] == '\\' then
              (if |s| == 1 then Shell.ReadWord([], Bare, word, status) else Shell.ReadWord(s[2..], Bare, word + [s[1]], status))
            else if s[0] == '$' && |s| > 1 && s[1] == '?' then Shell.ReadWord(s[2..], Bare, word + StatusText(status), status)
            else Shell.ReadWord(s[1..], Bare, word + [s[0]], status)
  {
    hide StatusText, EndsWord;
  }

  /** After a stage: another one, the end, or an error. */
  lemma StagesStep(s: string, stages: Pipeline, command: SimpleCommand, rest: string, status: int)
    requires Shell.ParseCommand(s, [], [], status) == Ok((command, rest))
    ensures var t := Shell.SkipBlanks(rest);
            ParseStages(s, stages, status) ==
            if PipeAhead(t) then ParseStages(Shell.SkipBlanks(t[1..]), stages + [command], status)
            else if t != [] then Err(TrailingCharacters)
            else Ok(stages + [command])
  {
  }

  lemma StagesFail(s: string, stages: Pipeline, status: int)
    requires Shell.ParseCommand(s, [], [], status).Err?
    ensures ParseStages(s, stages, status) == Err(Shell.ParseCommand(s, [], [], status).error)
  {
  }

  lemma SkippedAll(s: string)
    requires s == [] || !IsBlankChar(s[0])
    ensures Shell.SkipBlanks(s) == s
  {
  }

  predicate IsTerminator(c: char, next: Option<char>, atTokenStart: bool) {
    || c == ' ' || c == '\t' || c == '|' || c == '<' || c == '>' || c == '&'
    || (IsDigit(c) && atTokenStart && next.Some? && IsArrow(next.value))
  }

  // ---------------------------------------------------------------------------
  // Running a script.
  // ---------------------------------------------------------------------------

  datatype Outcome = Status(status: int) | Exit(code: int)

  /** What a pipeline does, given every pipeline that ran before it and itself. */
  type Exec = seq<Pipeline> -> Outcome

  predicate Runs(chainer: Chainer, status: int) {
    match chainer
    case Seq => true
    case And => status == 0
    case Or => status != 0
  }

  const SYNTAX_STATUS := 2

  function RunSegments(segments: seq<Segment>, status: int, ran: seq<Pipeline>, exec: Exec): (int, seq<Pipeline>) {
    if segments == [] then (status, ran)
    else if !Runs(segments[0].chainer, status) then RunSegments(segments[1..], status, ran, exec)
    else match Shell.ParsePipeline(segments[0].text, status)
      case Err(_) => (SYNTAX_STATUS, ran)
      case Ok(pipeline) =>
        (match exec(ran + [pipeline])
         case Status(status') => RunSegments(segments[1..], status', ran + [pipeline], exec)
         case Exit(code) => (code, ran + [pipeline]))
  }

  /** The meaning of a script: each pipeline runs or is skipped by the status so far. */
  function RunLinks(script: seq<Link>, status: int, ran: seq<Pipeline>, exec: Exec): (int, seq<Pipeline>) {
    if script == [] then (status, ran)
    else if !Runs(script[0].chainer, status) then RunLinks(script[1..], status, ran, exec)
    else
      var ran' := ran + [script[0].pipeline];
      match exec(ran')
      case Status(status') => RunLinks(script[1..], status', ran', exec)
      case Exit(code) => (code, ran')
  }

  /** The status, and the pipelines run so far, before a segment. */
  datatype Moment = Moment(status: int, ran: seq<Pipeline>)

  /** After `;` or a newline a segment's turn always comes, after `&&` only with status 0,
      after `||` only with another. */
  predicate TurnComes(chainer: Chainer, status: int) {
    || chainer == Seq
    || (chainer == And && status == 0)
    || (chainer == Or && status != 0)
  }

  /** A segment whose turn comes runs its pipeline, which sets the status; any other leaves
      everything as it was. */
  ghost predicate Passes(segment: Segment, before: Moment, after: Moment, exec: Exec) {
    if !TurnComes(segment.chainer, before.status) then after == before
    else
      var pipeline := Shell.ParsePipeline(segment.text, before.status);
      && pipeline.Ok? && after.ran == before.ran + [pipeline.value]
      && exec(after.ran) == Status(after.status)
  }

  /** A segment whose turn comes ends the script by a syntax error or an exit. */
  ghost predicate Ends(segment: Segment, before: Moment, exec: Exec, status: int, ran: seq<Pipeline>) {
    && TurnComes(segment.chainer, before.status)
    && match Shell.ParsePipeline(segment.text, before.status)
       case Err(_) => status == 2 && ran == before.ran
       case Ok(pipeline) => ran == before.ran + [pipeline] && exec(ran) == Exit(status)
  }

  /** `history` tells segment by segment how the script came to `status` and `ran`. */
  ghost predicate Explains(
    history: seq<Moment>, segments: seq<Segment>, exec: Exec, status: int, ran: seq<Pipeline>)
  {
    && 0 < |history| <= |segments| + 1 && history[0] == Moment(0, [])
    && (forall k :: 0 <= k < |history| - 1 ==> Passes(segments[k], history[k], history[k + 1], exec))
    && var n := |history| - 1;
       if n == |segments| then history[n] == Moment(status, ran)
       else Ends(segments[n], history[n], exec, status, ran)
  }

  /** The status of a script that runs to its end is that of the last pipeline run, 0 if none did. */
  lemma StatusOfLast(history: seq<Moment>, segments: seq<Segment>, exec: Exec, status: int, ran: seq<Pipeline>)
    requires Explains(history, segments, exec, status, ran) && |history| > |segments|
    ensures if ran == [] then status == 0 else exec(ran) == Status(status)
  {
    hide ParseStages, Passes;
    StatusAt(history, segments, exec, status, ran, |history| - 1);
  }

  lemma {:induction false} StatusAt(
    history: seq<Moment>, segments: seq<Segment>, exec: Exec, status: int, ran: seq<Pipeline>, k: nat)
    requires Explains(history, segments, exec, status, ran) && k < |history|
    ensures if history[k].ran == [] then history[k].status == 0 else exec(history[k].ran) == Status(history[k].status)
  {
    hide ParseStages;
    if k > 0 {
      StatusAt(history, segments, exec, status, ran, k - 1);
      assert Passes(segments[k - 1], history[k - 1], history[k - 1 + 1], exec);
    }
  }

  /** The exit status of a script and the pipelines it ran, in order, with the history that
      explains them. */
  method RunScript(script: string, exec: Exec) returns (status: int, ran: seq<Pipeline>, ghost history: seq<Moment>)
    ensures (status, ran) == match SplitScript(script)
                             case Err(_) => (SYNTAX_STATUS, [])
                             case Ok(segments) => RunSegments(segments, 0, [], exec)
    ensures SplitScript(script).Err? ==> status == 2 && ran == []
    ensures SplitScript(script).Ok? ==> Explains(history, SplitScript(script).value, exec, status, ran)
  {
    hide Split, ParseStages;
    history := [];
    var split := SplitSegments(script);
    if split.Err? {
      return SYNTAX_STATUS, [], history;
    }
    var segments := split.value;
    status, ran := 0, [];
    history := [Moment(0, [])];
    assert segments[0..] == segments;
    for i := 0 to |segments|
      invariant RunSegments(segments[i..], status, ran, exec) == RunSegments(segments, 0, [], exec)
      invariant |history| == i + 1 && history[0] == Moment(0, []) && history[i] == Moment(status, ran)
      invariant forall k :: 0 <= k < i ==> Passes(segments[k], history[k], history[k + 1], exec)
    {
      assert segments[i..][0] == segments[i] && segments[i..][1..] == segments[i + 1..];
      if !Runs(segments[i].chainer, status) {
        history := history + [Moment(status, ran)];
        continue;
      }
      var parser := new SegmentParser(segments[i].text, status);
      var pipeline := parser.ParsePipeline();
      if pipeline.Err? {
        status := SYNTAX_STATUS;
        return;
      }
      ran := ran + [pipeline.value];
      match exec(ran)
      case Status(status') =>
        status := status';
        history := history + [Moment(status, ran)];
      case Exit(code) =>
        status := code;
        return;
    }
  }

  lemma {:induction false} SegmentsRunAsLinks(script: seq<Link>, status: int, ran: seq<Pipeline>, exec: Exec)
    requires forall k :: 0 <= k < |script| ==> PrintablePipeline(script[k].pipeline)
    ensures RunSegments(Segments(script), status, ran, exec) == RunLinks(script, status, ran, exec)
    decreases |script|
  {
    hide PrintablePipeline, PipelineText, ParseStages;
    if script != [] {
      var p := script[0].pipeline;
      ParsePipelineText(p, [], status);
      assert [] + p == p;
      assert Segments(script)[1..] == Segments(script[1..]);
      if !Runs(script[0].chainer, status) {
        SegmentsRunAsLinks(script[1..], status, ran, exec);
      } else if exec(ran + [p]).Status? {
        SegmentsRunAsLinks(script[1..], exec(ran + [p]).status, ran + [p], exec);
      }
    }
  }

  /** Running a printed script is running the script, whatever its pipelines do. */
  lemma PrintedScriptRuns(script: seq<Link>, exec: Exec)
    requires Printable(script)
    ensures SplitScript(ScriptText(script)).Ok?
    ensures RunSegments(SplitScript(ScriptText(script)).value, 0, [], exec) == RunLinks(script, 0, [], exec)
  {
    ScriptRoundTrip(script);
    SegmentsRunAsLinks(script, 0, [], exec);
  }
}
