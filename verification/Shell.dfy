/** The grammar of the guest's mini shell (`bin/rfb-busybox.rs`): what the splitter and the
    segment parser accept, as functions of the text still to be read. */
module Shell {
  import opened Common

  datatype Chainer = Seq | And | Or

  datatype Segment = Segment(chainer: Chainer, text: string)

  datatype Target = Path(path: string) | Dup(fd: nat)

  datatype RedirMode = Write | Append | Read

  datatype Redir = Redir(fd: nat, mode: RedirMode, target: Target)

  datatype SimpleCommand = SimpleCommand(words: seq<string>, redirs: seq<Redir>)

  type Pipeline = seq<SimpleCommand>

  datatype SyntaxError =
    | UnterminatedQuote
    | BackgroundJob
    | TrailingChain
    | EmptyInChain
    | EmptyScript
    | UnterminatedSingle
    | UnterminatedDouble
    | ExpectedWord
    | EmptyCommand
    | FdBeforeInput
    | BadDuplication(target: string)
    | TrailingCharacters

  /** Outside quotes, or inside one kind of them. */
  datatype Mode = Bare | Single | Double

  predicate IsQuote(c: char) {
    c == '\'' || c == '"'
  }

  function Opened(quote: char): Mode {
    if quote == '"' then Double else Single
  }

  predicate Closes(mode: Mode, c: char) {
    (mode.Single? && c == '\'') || (mode.Double? && c == '"')
  }

  function TrimStart(s: string): (r: string)
    ensures |r| <= |s|
  {
    if s != [] && IsWhitespace(s[0]) then TrimStart(s[1..]) else s
  }

  function TrimEnd(s: string): (r: string)
    ensures |r| <= |s|
  {
    if s != [] && IsWhitespace(s[|s| - 1]) then TrimEnd(s[..|s| - 1]) else s
  }

  function Trim(s: string): string {
    TrimEnd(TrimStart(s))
  }

  // ---------------------------------------------------------------------------
  // First pass: top-level `;`, newline, `&&` and `||`.
  // ---------------------------------------------------------------------------

  /** What the splitter carries: the current segment, its chainer and the finished segments. */
  datatype Splitting = Splitting(current: string, pending: Option<Chainer>, segments: seq<Segment>) {
    function Push(text: string): Splitting {
      this.(current := current + text)
    }
  }

  function Flush(st: Splitting): Result<Splitting, SyntaxError> {
    var text := Trim(st.current);
    if text == "" then
      if st.pending.Some? then Err(EmptyInChain) else Ok(Splitting("", None, st.segments))
    else
      var chainer := if st.segments == [] || st.pending.None? then Seq else st.pending.value;
      Ok(Splitting("", None, st.segments + [Segment(chainer, text)]))
  }

  function Finish(st: Splitting): Result<seq<Segment>, SyntaxError> {
    if st.pending.Some? && IsBlank(st.current) then Err(TrailingChain)
    else
      var done :- Flush(st);
      if done.segments == [] then Err(EmptyScript) else Ok(done.segments)
  }

  predicate CommentStarts(current: string) {
    IsBlank(current) || (current != "" && (current[|current| - 1] == ' ' || current[|current| - 1] == '\t'))
  }

  function SkipComment(s: string): (r: string)
    ensures |r| <= |s|
    ensures s != [] && s[0] != '\n' ==> |r| < |s|
  {
    if s == [] || s[0] == '\n' then s else SkipComment(s[1..])
  }

  /** Split the rest `s` of a script; `afterGt` says that the character before it is `>`. */
  function Split(s: string, mode: Mode, afterGt: bool, st: Splitting): Result<seq<Segment>, SyntaxError>
    decreases |s|
  {
    if s == [] then
      if mode.Bare? then Finish(st) else Err(UnterminatedQuote)
    else
      var c := s[0];
      if !mode.Bare? then
        if c == '\\' && mode.Double? && |s| > 1 then Split(s[2..], mode, false, st.Push(s[..2]))
        else Split(s[1..], if Closes(mode, c) then Bare else mode, false, st.Push([c]))
      else if IsQuote(c) then Split(s[1..], Opened(c), false, st.Push([c]))
      else if c == '\\' then
        if |s| == 1 then Finish(st.Push([c])) else Split(s[2..], Bare, s[1] == '>', st.Push(s[..2]))
      else if c == '#' && CommentStarts(st.current) then Split(SkipComment(s), Bare, false, st)
      else if c == ';' || c == '\n' then
        var done :- Flush(st);
        Split(s[1..], Bare, false, done)
      else if (c == '&' || c == '|') && |s| > 1 && s[1] == c then
        var done :- Flush(st);
        Split(s[2..], Bare, false, done.(pending := Some(if c == '&' then And else Or)))
      else if c == '&' && !afterGt then Err(BackgroundJob)
      else Split(s[1..], Bare, c == '>', st.Push([c]))
  }

  const START := Splitting("", None, [])

  function SplitScript(script: string): Result<seq<Segment>, SyntaxError> {
    Split(script, Bare, false, START)
  }

  // ---------------------------------------------------------------------------
  // Second pass: a pipeline of simple commands.
  // ---------------------------------------------------------------------------

  predicate IsBlankChar(c: char) {
    c == ' ' || c == '\t'
  }

  predicate IsDigit(c: char) {
    '0' <= c <= '9'
  }

  predicate IsArrow(c: char) {
    c == '<' || c == '>'
  }

  function SkipBlanks(s: string): (r: string)
    ensures |r| <= |s| && (r == [] || !IsBlankChar(r[0]))
  {
    if s != [] && IsBlankChar(s[0]) then SkipBlanks(s[1..]) else s
  }

  function Digit(d: nat): char
    requires d < 10
  {
    '0' + d as char
  }

  function Decimal(n: nat): (s: string)
    ensures s != ""
  {
    if n < 10 then [Digit(n)] else Decimal(n / 10) + [Digit(n % 10)]
  }

  /** `i32::to_string` */
  function StatusText(status: int): (s: string)
    ensures s != ""
  {
    if status < 0 then "-" + Decimal(-status) else Decimal(status)
  }

  /** Whether `s`, not empty, starts with a character that ends the current word. */
  predicate EndsWord(s: string, atTokenStart: bool)
    requires s != []
  {
    || IsBlankChar(s[0]) || s[0] == '|' || IsArrow(s[0]) || s[0] == '&'
    || (IsDigit(s[0]) && atTokenStart && |s| > 1 && IsArrow(s[1]))
  }

  /** One word: bare characters, quoted spans, escapes and `$?`; the word and what follows it. */
  function ReadWord(s: string, mode: Mode, word: string, status: int): (r: Result<(string, string), SyntaxError>)
    ensures r.Ok? ==> |r.value.1| < |s| || (r.value.1 == s && mode.Bare? && word != "")
    decreases |s|
  {
    if s == [] then
      if mode.Single? then Err(UnterminatedSingle)
      else if mode.Double? then Err(UnterminatedDouble)
      else WordOf(word, s)
    else
      var c := s[0];
      if Closes(mode, c) then ReadWord(s[1..], Bare, word, status)
      else if mode.Single? then ReadWord(s[1..], mode, word + [c], status)
      else if mode.Bare? && IsQuote(c) then ReadWord(s[1..], Opened(c), word, status)
      else if c == '\\' then
        if |s| == 1 then ReadWord([], mode, word, status) else ReadWord(s[2..], mode, word + [s[1]], status)
      else if c == '$' && |s| > 1 && s[1] == '?' then ReadWord(s[2..], mode, word + StatusText(status), status)
      else if mode.Bare? && EndsWord(s, word == "") then WordOf(word, s)
      else ReadWord(s[1..], mode, word + [c], status)
  }

  function WordOf(word: string, rest: string): Result<(string, string), SyntaxError> {
    if word == "" then Err(ExpectedWord) else Ok((word, rest))
  }

  function DigitsValue(s: string): Option<nat> {
    if s == [] then Some(0)
    else if !IsDigit(s[|s| - 1]) then None
    else
      var high := DigitsValue(s[..|s| - 1]);
      if high.None? then None else Some(high.value * 10 + (s[|s| - 1] as nat - '0' as nat))
  }

  /** `str::parse::<u8>`: an optional plus sign and at least one digit, at most 255. */
  function ParseU8(s: string): Option<nat> {
    var digits := if s != [] && s[0] == '+' then s[1..] else s;
    if digits == [] then None
    else
      var value := DigitsValue(digits);
      if value.Some? && value.value <= 255 then value else None
  }

  /** A redirection whose arrow starts `s`. */
  function ParseRedir(s: string, fd: Option<nat>, status: int): (r: Result<(Redir, string), SyntaxError>)
    requires s != [] && IsArrow(s[0])
    ensures r.Ok? ==> |r.value.1| < |s|
  {
    if s[0] == '<' && fd.Some? then Err(FdBeforeInput)
    else
      var append := s[0] == '>' && |s| > 1 && s[1] == '>';
      var mode := if s[0] == '<' then Read else if append then Append else Write;
      var rest := if append then s[2..] else s[1..];
      var from := if fd.Some? then fd.value else if s[0] == '<' then 0 else 1;
      if rest != [] && rest[0] == '&' then
        var (target, after) :- ReadWord(SkipBlanks(rest[1..]), Bare, "", status);
        var dup := ParseU8(target);
        if dup.None? || dup.value > 2 then Err(BadDuplication(target))
        else Ok((Redir(from, Write, Dup(dup.value)), after))
      else
        var (path, after) :- ReadWord(SkipBlanks(rest), Bare, "", status);
        Ok((Redir(from, mode, Path(path)), after))
  }

  function ParseCommand(s: string, words: seq<string>, redirs: seq<Redir>, status: int)
    : (r: Result<(SimpleCommand, string), SyntaxError>)
    ensures r.Ok? ==> |r.value.1| <= |s|
    decreases |s|
  {
    var t := SkipBlanks(s);
    if t == [] || t[0] == '|' then
      if words == [] && redirs == [] then Err(EmptyCommand) else Ok((SimpleCommand(words, redirs), t))
    else if IsDigit(t[0]) && |t| > 1 && IsArrow(t[1]) then
      var (redir, rest) :- ParseRedir(t[1..], Some(t[0] as nat - '0' as nat), status);
      ParseCommand(rest, words, redirs + [redir], status)
    else if IsArrow(t[0]) then
      var (redir, rest) :- ParseRedir(t, None, status);
      ParseCommand(rest, words, redirs + [redir], status)
    else
      var (word, rest) :- ReadWord(t, Bare, "", status);
      ParseCommand(rest, words + [word], redirs, status)
  }

  /** A single `|`, which joins two stages. */
  predicate PipeAhead(s: string) {
    s != [] && s[0] == '|' && !(|s| > 1 && s[1] == '|')
  }

  function ParseStages(s: string, stages: Pipeline, status: int): Result<Pipeline, SyntaxError>
    decreases |s|
  {
    var (command, rest) :- ParseCommand(s, [], [], status);
    var t := SkipBlanks(rest);
    if PipeAhead(t) then ParseStages(SkipBlanks(t[1..]), stages + [command], status)
    else if t != [] then Err(TrailingCharacters)
    else Ok(stages + [command])
  }

  function ParsePipeline(text: string, status: int): Result<Pipeline, SyntaxError> {
    ParseStages(text, [], status)
  }

  // ---------------------------------------------------------------------------
  // The two passes agree on quoting.
  // ---------------------------------------------------------------------------

  /** A quoting automaton that reads one character at a time. */
  datatype Lex = Lex(mode: Mode, escaped: bool)

  function Next(l: Lex, c: char): Lex {
    if l.escaped then Lex(l.mode, false)
    else if c == '\\' && !l.mode.Single? then Lex(l.mode, true)
    else if l.mode.Bare? then Lex(if IsQuote(c) then Opened(c) else Bare, false)
    else Lex(if Closes(l.mode, c) then Bare else l.mode, false)
  }

  function Scan(s: string, l: Lex): Lex {
    if s == [] then l else Scan(s[1..], Next(l, s[0]))
  }

  /** Every quote that opens in `s` also closes in it. */
  predicate Balanced(s: string) {
    Scan(s, Lex(Bare, false)).mode.Bare?
  }

  lemma {:induction false} ScanAppend(a: string, b: string, l: Lex)
    ensures Scan(a + b, l) == Scan(b, Scan(a, l))
  {
    if a == [] {
      assert a + b == b;
    } else {
      assert (a + b)[1..] == a[1..] + b;
      ScanAppend(a[1..], b, Next(l, a[0]));
    }
  }

  lemma ScanPush(current: string, text: string, l: Lex)
    requires 1 <= |text| <= 2
    ensures Scan(current + text, l) ==
            if |text| == 1 then Next(Scan(current, l), text[0]) else Next(Next(Scan(current, l), text[0]), text[1])
  {
    ScanAppend(current, text, l);
    var m := Scan(current, l);
    assert Scan(text, m) == Scan(text[1..], Next(m, text[0]));
    if |text| == 2 {
      assert text[1..][1..] == [] && text[1..][0] == text[1];
    }
  }

  lemma {:induction false} TrimStartBalanced(s: string)
    requires Balanced(s)
    ensures Balanced(TrimStart(s))
  {
    if s != [] && IsWhitespace(s[0]) {
      TrimStartBalanced(s[1..]);
    }
  }

  lemma {:induction false} TrimEndBalanced(s: string)
    requires Balanced(s)
    ensures Balanced(TrimEnd(s))
  {
    if s != [] && IsWhitespace(s[|s| - 1]) {
      var n := |s| - 1;
      assert s == s[..n] + [s[n]];
      ScanPush(s[..n], [s[n]], Lex(Bare, false));
      TrimEndBalanced(s[..n]);
    }
  }

  ghost predicate AllBalanced(segments: seq<Segment>) {
    forall k :: 0 <= k < |segments| ==> Balanced(segments[k].text)
  }

  lemma FlushBalanced(st: Splitting)
    requires Balanced(st.current) && AllBalanced(st.segments) && Flush(st).Ok?
    ensures AllBalanced(Flush(st).value.segments) && Flush(st).value.current == ""
  {
    TrimStartBalanced(st.current);
    TrimEndBalanced(TrimStart(st.current));
  }

  /** The splitter is in quotes exactly when the automaton is, so it only cuts outside them. */
  lemma {:induction false} SplitBalanced(s: string, mode: Mode, afterGt: bool, st: Splitting)
    requires Scan(st.current, Lex(Bare, false)) == Lex(mode, false) && AllBalanced(st.segments)
    requires Split(s, mode, afterGt, st).Ok?
    ensures AllBalanced(Split(s, mode, afterGt, st).value)
    decreases |s|
  {
    hide Flush, CommentStarts, IsBlank;
    var l := Lex(Bare, false);
    assert Scan("", l) == l;
    if s == [] {
      FlushBalanced(st);
    } else {
      var c := s[0];
      ScanPush(st.current, [c], l);
      if |s| > 1 {
        ScanPush(st.current, s[..2], l);
      }
      if !mode.Bare? {
        if c == '\\' && mode.Double? && |s| > 1 {
          SplitBalanced(s[2..], mode, false, st.Push(s[..2]));
        } else {
          SplitBalanced(s[1..], if Closes(mode, c) then Bare else mode, false, st.Push([c]));
        }
      } else if IsQuote(c) {
        SplitBalanced(s[1..], Opened(c), false, st.Push([c]));
      } else if c == '\\' {
        if |s| == 1 {
          FlushBalanced(st.Push([c]));
        } else {
          SplitBalanced(s[2..], Bare, s[1] == '>', st.Push(s[..2]));
        }
      } else if c == '#' && CommentStarts(st.current) {
        SplitBalanced(SkipComment(s), Bare, false, st);
      } else if c == ';' || c == '\n' {
        FlushBalanced(st);
        SplitBalanced(s[1..], Bare, false, Flush(st).value);
      } else if (c == '&' || c == '|') && |s| > 1 && s[1] == c {
        FlushBalanced(st);
        SplitBalanced(s[2..], Bare, false, Flush(st).value.(pending := Some(if c == '&' then And else Or)));
      } else {
        SplitBalanced(s[1..], Bare, c == '>', st.Push([c]));
      }
    }
  }

  predicate Unterminated(e: SyntaxError) {
    e.UnterminatedSingle? || e.UnterminatedDouble?
  }

  lemma {:induction false} ReadWordBalanced(s: string, mode: Mode, word: string, status: int)
    requires Scan(s, Lex(mode, false)).mode.Bare?
    ensures var r := ReadWord(s, mode, word, status);
            if r.Ok? then Balanced(r.value.1) else !Unterminated(r.error)
    decreases |s|
  {
    hide StatusText;
    if s != [] {
      var c := s[0];
      if |s| > 1 {
        assert Scan(s, Lex(mode, false)) == Scan(s[1..][1..], Next(Next(Lex(mode, false), c), s[1]));
        assert s[1..][1..] == s[2..];
      }
      if Closes(mode, c) {
        ReadWordBalanced(s[1..], Bare, word, status);
      } else if mode.Single? {
        ReadWordBalanced(s[1..], mode, word + [c], status);
      } else if mode.Bare? && IsQuote(c) {
        ReadWordBalanced(s[1..], Opened(c), word, status);
      } else if c == '\\' {
        if |s| > 1 {
          ReadWordBalanced(s[2..], mode, word + [s[1]], status);
        }
      } else if c == '$' && |s| > 1 && s[1] == '?' {
        ReadWordBalanced(s[2..], mode, word + StatusText(status), status);
      } else if !(mode.Bare? && EndsWord(s, word == "")) {
        ReadWordBalanced(s[1..], mode, word + [c], status);
      }
    }
  }

  lemma {:induction false} SkipBlanksBalanced(s: string)
    requires Balanced(s)
    ensures Balanced(SkipBlanks(s))
  {
    if s != [] && IsBlankChar(s[0]) {
      SkipBlanksBalanced(s[1..]);
    }
  }

  lemma DropPlain(s: string)
    requires s != [] && Balanced(s) && !IsQuote(s[0]) && s[0] != '\\'
    ensures Balanced(s[1..])
  {
  }

  lemma ParseRedirBalanced(s: string, fd: Option<nat>, status: int)
    requires s != [] && IsArrow(s[0]) && Balanced(s)
    ensures var r := ParseRedir(s, fd, status);
            if r.Ok? then Balanced(r.value.1) else !Unterminated(r.error)
  {
    hide Balanced, ReadWord, SkipBlanks, ParseU8;
    var append := s[0] == '>' && |s| > 1 && s[1] == '>';
    var rest := if append then s[2..] else s[1..];
    DropPlain(s);
    if append {
      DropPlain(s[1..]);
      assert s[1..][1..] == s[2..];
    }
    var from := rest;
    if rest != [] && rest[0] == '&' {
      DropPlain(rest);
      from := rest[1..];
    }
    SkipBlanksBalanced(from);
    BareWord(SkipBlanks(from), status);
  }

  lemma BareWord(s: string, status: int)
    requires Balanced(s)
    ensures var r := ReadWord(s, Bare, "", status);
            if r.Ok? then Balanced(r.value.1) else !Unterminated(r.error)
  {
    ReadWordBalanced(s, Bare, "", status);
  }

  lemma {:induction false} ParseCommandBalanced(s: string, words: seq<string>, redirs: seq<Redir>, status: int)
    requires Balanced(s)
    ensures var r := ParseCommand(s, words, redirs, status);
            if r.Ok? then Balanced(r.value.1) else !Unterminated(r.error)
    decreases |s|
  {
    hide Balanced, ReadWord, SkipBlanks, ParseRedir;
    SkipBlanksBalanced(s);
    var t := SkipBlanks(s);
    if t == [] || t[0] == '|' {
    } else if IsDigit(t[0]) && |t| > 1 && IsArrow(t[1]) {
      DropPlain(t);
      ParseRedirBalanced(t[1..], Some(t[0] as nat - '0' as nat), status);
      var r := ParseRedir(t[1..], Some(t[0] as nat - '0' as nat), status);
      if r.Ok? {
        ParseCommandBalanced(r.value.1, words, redirs + [r.value.0], status);
      }
    } else if IsArrow(t[0]) {
      ParseRedirBalanced(t, None, status);
      var r := ParseRedir(t, None, status);
      if r.Ok? {
        ParseCommandBalanced(r.value.1, words, redirs + [r.value.0], status);
      }
    } else {
      BareWord(t, status);
      var r := ReadWord(t, Bare, "", status);
      if r.Ok? {
        ParseCommandBalanced(r.value.1, words + [r.value.0], redirs, status);
      }
    }
  }

  lemma {:induction false} ParseStagesBalanced(s: string, stages: Pipeline, status: int)
    requires Balanced(s)
    ensures var r := ParseStages(s, stages, status); r.Ok? || !Unterminated(r.error)
    decreases |s|
  {
    hide Balanced, ParseCommand, SkipBlanks;
    ParseCommandBalanced(s, [], [], status);
    var r := ParseCommand(s, [], [], status);
    if r.Ok? {
      var t := SkipBlanks(r.value.1);
      SkipBlanksBalanced(r.value.1);
      if PipeAhead(t) {
        DropPlain(t);
        SkipBlanksBalanced(t[1..]);
        ParseStagesBalanced(SkipBlanks(t[1..]), stages + [r.value.0], status);
      }
    }
  }

  /** No segment of a script the splitter accepts makes the parser report an open quote. */
  lemma PassesAgreeOnQuotes(script: string, k: nat, status: int)
    requires SplitScript(script).Ok? && k < |SplitScript(script).value|
    ensures var r := ParsePipeline(SplitScript(script).value[k].text, status);
            r.Ok? || !Unterminated(r.error)
  {
    hide Split, ParseStages;
    SplitBalanced(script, Bare, false, START);
    ParseStagesBalanced(SplitScript(script).value[k].text, [], status);
  }
}
