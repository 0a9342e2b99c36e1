/** The shell's grammar: a tokenizer with quoting, a parser from tokens to command groups, and the
    expansion of words. Each loop of the source is a method proved against the recursive function of
    the same meaning that the laws in `ShellProofs` are about. */
module Shell {

  import opened Common

  datatype Result<+T> = Ok(value: T) | Err(error: Error)

  datatype Error =
    | UnfinishedEscape | UnfinishedEscapeInDoubleQuotes | UnterminatedSingleQuote | UnterminatedDoubleQuote
    | BadRedirectionFd | ExpectedTargetFd | BadTargetFd
    | EmptyCommand | RedirectionWithoutCommand | ExpectedPath | OperatorRequiresCommand

  /** Marks the next character as exempt from expansion. */
  const PROTECTED: char := '\U{1f}'

  datatype RedirKind = In | Out | Append
  datatype RedirTarget = Path(path: string) | Fd(fd: byte)
  datatype Redir = Redir(fd: byte, kind: RedirKind, target: RedirTarget)
  datatype SimpleCmd = SimpleCmd(args: seq<string>, redirs: seq<Redir>)
  datatype Connector = Always | And | Or
  datatype CommandGroup = CommandGroup(pipeline: seq<SimpleCmd>, background: bool, next: Connector)

  datatype Token =
    | Word(word: string) | Pipe | Semi | AndIf | OrIf | Background
    | Redirect(fd: byte, kind: RedirKind) | Dup(fd: byte, target: byte)

  // ---- Characters ----

  predicate Whitespace(c: char) {
    || '\U{9}' <= c <= '\U{d}' || c == ' ' || c == '\U{85}' || c == '\U{a0}' || c == '\U{1680}'
    || '\U{2000}' <= c <= '\U{200a}' || c == '\U{2028}' || c == '\U{2029}' || c == '\U{202f}'
    || c == '\U{205f}' || c == '\U{3000}'
  }

  predicate Digit(c: char) { '0' <= c <= '9' }

  predicate Operator(c: char) { c in {';', '|', '&', '<', '>'} }

  predicate AllDigits(s: string) {
    forall i | 0 <= i < |s| :: Digit(s[i])
  }

  function Value(digits: string): nat
    requires AllDigits(digits)
  {
    if digits == "" then 0
    else Value(digits[..|digits| - 1]) * 10 + (digits[|digits| - 1] as nat - '0' as nat)
  }

  function LeadingDigits(s: string): (n: nat)
    ensures n <= |s| && AllDigits(s[..n])
  {
    if s != "" && Digit(s[0]) then
      var n := LeadingDigits(s[1..]);
      assert s[..n + 1] == [s[0]] + s[1..][..n];
      n + 1
    else 0
  }

  /** The character as `push_protected` stores it. */
  function Guarded(c: char): string {
    if c == '$' || c == '~' || c == PROTECTED then [PROTECTED, c] else [c]
  }

  // ---- Tokens ----

  datatype Mode = Plain | Single | Double

  datatype Lexer = Lexer(out: seq<Token>, cur: string, started: bool, mode: Mode)

  function Flush(x: Lexer): Lexer {
    if x.started then x.(out := x.out + [Word(x.cur)], cur := "", started := false) else x
  }

  function Emit(x: Lexer, t: Token): Lexer {
    var y := Flush(x);
    y.(out := y.out + [t])
  }

  function Extend(x: Lexer, text: string): Lexer {
    x.(cur := x.cur + text, started := true)
  }

  /** Whether the pending word is the descriptor of the redirection operator that follows it. */
  predicate FdPrefix(x: Lexer) { x.started && x.cur != "" && AllDigits(x.cur) }

  /** What follows the redirection operator's first character, which is already consumed. */
  function RedirectRest(x: Lexer, ch: char, s: string): (r: Result<(Lexer, string)>)
    requires ch == '<' || ch == '>'
    ensures r.Ok? ==> |r.value.1| <= |s|
  {
    if FdPrefix(x) && Value(x.cur) > 255 then Err(BadRedirectionFd)
    else
      var fd: byte := if FdPrefix(x) then Value(x.cur) else if ch == '<' then 0 else 1;
      var y := if FdPrefix(x) then x.(cur := "", started := false) else Flush(x);
      if ch == '<' then Ok((Emit(y, Redirect(fd, In)), s))
      else if s != "" && s[0] == '>' then Ok((Emit(y, Redirect(fd, RedirKind.Append)), s[1..]))
      else if s != "" && s[0] == '&' then
        var n := LeadingDigits(s[1..]);
        if n == 0 then Err(ExpectedTargetFd)
        else if Value(s[1..][..n]) > 255 then Err(BadTargetFd)
        else Ok((Emit(y, Dup(fd, Value(s[1..][..n]))), s[1..][n..]))
      else Ok((Emit(y, Redirect(fd, RedirKind.Out)), s))
  }

  function PlainStep(x: Lexer, s: string): (r: Result<(Lexer, string)>)
    requires s != ""
    ensures r.Ok? ==> |r.value.1| < |s|
  {
    var ch, rest := s[0], s[1..];
    if ch == '\'' then Ok((x.(mode := Single, started := true), rest))
    else if ch == '"' then Ok((x.(mode := Double, started := true), rest))
    else if ch == '\\' then
      if rest == "" then Err(UnfinishedEscape) else Ok((Extend(x, Guarded(rest[0])), rest[1..]))
    else if Whitespace(ch) then Ok((Flush(x), rest))
    else if ch == ';' then Ok((Emit(x, Semi), rest))
    else if ch == '|' then
      if rest != "" && rest[0] == '|' then Ok((Emit(x, OrIf), rest[1..])) else Ok((Emit(x, Pipe), rest))
    else if ch == '&' then
      if rest != "" && rest[0] == '&' then Ok((Emit(x, AndIf), rest[1..])) else Ok((Emit(x, Background), rest))
    else if ch == '<' || ch == '>' then RedirectRest(x, ch, rest)
    else Ok((Extend(x, [ch]), rest))
  }

  function Step(x: Lexer, s: string): (r: Result<(Lexer, string)>)
    requires s != ""
    ensures r.Ok? ==> |r.value.1| < |s|
  {
    var ch, rest := s[0], s[1..];
    match x.mode
    case Single =>
      if ch == '\'' then Ok((x.(mode := Plain), rest)) else Ok((x.(cur := x.cur + Guarded(ch)), rest))
    case Double =>
      if ch == '"' then Ok((x.(mode := Plain), rest))
      else if ch == '\\' then
        if rest == "" then Err(UnfinishedEscapeInDoubleQuotes)
        else Ok((x.(cur := x.cur + Guarded(rest[0])), rest[1..]))
      else Ok((Extend(x, [ch]), rest))
    case Plain => PlainStep(x, s)
  }

  function LexFrom(x: Lexer, s: string): Result<seq<Token>>
    decreases |s|
  {
    if s == "" then
      match x.mode
      case Single => Err(UnterminatedSingleQuote)
      case Double => Err(UnterminatedDoubleQuote)
      case Plain => Ok(Flush(x).out)
    else
      match Step(x, s)
      case Err(e) => Err(e)
      case Ok(p) => LexFrom(p.0, p.1)
  }

  const START: Lexer := Lexer([], "", false, Plain)

  function Lex(line: string): Result<seq<Token>> { LexFrom(START, line) }

  // ---- Groups ----

  datatype Parser = Parser(groups: seq<CommandGroup>, pipeline: seq<SimpleCmd>, cmd: SimpleCmd)

  const NO_CMD := SimpleCmd([], [])

  function FinishCmd(p: Parser): Result<Parser> {
    if p.cmd.args == [] && p.cmd.redirs == [] then Err(EmptyCommand)
    else if p.cmd.args == [] then Err(RedirectionWithoutCommand)
    else Ok(p.(pipeline := p.pipeline + [p.cmd], cmd := NO_CMD))
  }

  function FinishGroup(p: Parser, background: bool, next: Connector): Result<Parser> {
    match FinishCmd(p)
    case Err(e) => Err(e)
    case Ok(q) => Ok(q.(groups := q.groups + [CommandGroup(q.pipeline, background, next)], pipeline := []))
  }

  function AddRedir(p: Parser, r: Redir): Parser {
    p.(cmd := p.cmd.(redirs := p.cmd.redirs + [r]))
  }

  /** One turn of the parsing loop: the state after it and the tokens not yet looked at. */
  function Consume(p: Parser, ts: seq<Token>): (r: Result<(Parser, seq<Token>)>)
    requires ts != []
    ensures r.Ok? ==> |r.value.1| < |ts|
  {
    match ts[0]
    case Word(w) => Ok((p.(cmd := p.cmd.(args := p.cmd.args + [w])), ts[1..]))
    case Redirect(fd, kind) =>
      if |ts| > 1 && ts[1].Word? then Ok((AddRedir(p, Redir(fd, kind, Path(ts[1].word))), ts[2..]))
      else Err(ExpectedPath)
    case Dup(fd, target) => Ok((AddRedir(p, Redir(fd, RedirKind.Out, Fd(target))), ts[1..]))
    case Pipe => With(FinishCmd(p), ts[1..])
    case Semi => With(FinishGroup(p, false, Always), ts[1..])
    case AndIf => With(FinishGroup(p, false, And), ts[1..])
    case OrIf => With(FinishGroup(p, false, Or), ts[1..])
    case Background => With(FinishGroup(p, true, Always), ts[1..])
  }

  function With(p: Result<Parser>, ts: seq<Token>): Result<(Parser, seq<Token>)> {
    if p.Ok? then Ok((p.value, ts)) else Err(p.error)
  }

  predicate Dangling(t: Token) { t.AndIf? || t.OrIf? || t.Pipe? }

  function Conclude(p: Parser, last: Token): Result<seq<CommandGroup>> {
    var q := if p.cmd != NO_CMD || p.pipeline != [] then FinishGroup(p, false, Always) else Ok(p);
    if q.Err? then Err(q.error)
    else if Dangling(last) then Err(OperatorRequiresCommand)
    else Ok(q.value.groups)
  }

  function ParseFrom(p: Parser, ts: seq<Token>, last: Token): Result<seq<CommandGroup>>
    decreases |ts|
  {
    if ts == [] then Conclude(p, last)
    else
      match Consume(p, ts)
      case Err(e) => Err(e)
      case Ok(q) => ParseFrom(q.0, q.1, last)
  }

  const EMPTY: Parser := Parser([], [], NO_CMD)

  function ParseTokens(ts: seq<Token>): Result<seq<CommandGroup>> {
    if ts == [] then Ok([]) else ParseFrom(EMPTY, ts, ts[|ts| - 1])
  }

  function Parse(line: string): Result<seq<CommandGroup>> {
    match Lex(line)
    case Err(e) => Err(e)
    case Ok(ts) => ParseTokens(ts)
  }

  // ---- Expansion ----

  datatype Env = Env(vars: map<string, string>, status: string)

  predicate NameChar(c: char) { Digit(c) || 'a' <= c <= 'z' || 'A' <= c <= 'Z' || c == '_' }

  function NameLength(s: string): (n: nat)
    ensures n <= |s|
  {
    if s != "" && NameChar(s[0]) then NameLength(s[1..]) + 1 else 0
  }

  function BraceLength(s: string): (n: nat)
    ensures n <= |s|
  {
    if s != "" && s[0] != '}' then BraceLength(s[1..]) + 1 else 0
  }

  function Substitute(env: Env, name: string): string {
    if name == "" then "$" else if name in env.vars then env.vars[name] else ""
  }

  /** A `$` and what follows it: the text it stands for and the rest of the word. */
  function Dollar(env: Env, s: string): (r: (string, string))
    requires s != ""
    ensures |r.1| <= |s|
  {
    if s[0] == '?' then (env.status, s[1..])
    else if s[0] == '{' then
      var n := BraceLength(s[1..]);
      (Substitute(env, s[1..][..n]), if n < |s| - 1 then s[1..][n + 1..] else "")
    else
      var n := NameLength(s);
      (Substitute(env, s[..n]), s[n..])
  }

  function ExpandFrom(env: Env, s: string): string
    decreases |s|
  {
    if s == "" then ""
    else if s[0] == PROTECTED then (if |s| > 1 then [s[1]] + ExpandFrom(env, s[2..]) else "")
    else if s[0] != '$' then [s[0]] + ExpandFrom(env, s[1..])
    else if |s| == 1 then "$"
    else
      var d := Dollar(env, s[1..]);
      d.0 + ExpandFrom(env, d.1)
  }

  predicate TildePrefix(s: string) { s != "" && s[0] == '~' && (|s| == 1 || s[1] == '/') }

  function Home(env: Env): string { if "HOME" in env.vars then env.vars["HOME"] else "/" }

  function Expand(env: Env, word: string): string {
    if TildePrefix(word) then Home(env) + ExpandFrom(env, word[1..]) else ExpandFrom(env, word)
  }

  // ---- The loops of the source ----

  method FlushWord(cur: string, out: seq<Token>, started: bool)
    returns (cur': string, out': seq<Token>, started': bool)
    ensures forall m: Mode :: Lexer(out', cur', started', m) == Flush(Lexer(out, cur, started, m))
    ensures !started'
  {
    cur', out', started' := cur, out, started;
    if started {
      out' := out + [Word(cur)];
      cur', started' := "", false;
    }
  }

  method DigitsOf(s: string) returns (digits: string, rest: string)
    ensures digits == s[..LeadingDigits(s)] && rest == s[LeadingDigits(s)..]
  {
    digits, rest := "", s;
    while rest != "" && Digit(rest[0])
      invariant digits + rest == s
      invariant LeadingDigits(s) == |digits| + LeadingDigits(rest)
      decreases |rest|
    {
      assert digits + rest == digits + [rest[0]] + rest[1..];
      digits, rest := digits + [rest[0]], rest[1..];
    }
  }

  /** The rest of a redirection, after its `<` or `>`. */
  method TakeRedirect(ch: char, it: string, out: seq<Token>, cur: string, started: bool)
    returns (r: Result<(Lexer, string)>)
    requires ch == '<' || ch == '>'
    ensures r == RedirectRest(Lexer(out, cur, started, Plain), ch, it)
  {
    ghost var x := Lexer(out, cur, started, Plain);
    var fd: byte := if ch == '<' then 0 else 1;
    var cur', out', started';
    if started && cur != "" && AllDigits(cur) {
      var v := Value(cur);
      if v > 255 {
        return Err(BadRedirectionFd);
      }
      fd := v;
      cur', out', started' := "", out, false;
    } else {
      cur', out', started' := FlushWord(cur, out, started);
    }
    var kind, rest := if ch == '<' then In else RedirKind.Out, it;
    if ch == '>' && rest != "" && rest[0] == '>' {
      rest, kind := rest[1..], RedirKind.Append;
    }
    if ch == '>' && kind == RedirKind.Out && rest != "" && rest[0] == '&' {
      var digits;
      digits, rest := DigitsOf(rest[1..]);
      if digits == "" {
        return Err(ExpectedTargetFd);
      }
      var target := Value(digits);
      if target > 255 {
        return Err(BadTargetFd);
      }
      out' := out' + [Dup(fd, target)];
    } else {
      out' := out' + [Redirect(fd, kind)];
    }
    r := Ok((Lexer(out', cur', started', Plain), rest));
  }

  /** One character outside quotes. */
  method TakePlain(it: string, out: seq<Token>, cur: string, started: bool) returns (r: Result<(Lexer, string)>)
    requires it != ""
    ensures r == PlainStep(Lexer(out, cur, started, Plain), it)
  {
    hide RedirectRest, Whitespace, Guarded;
    var ch, rest := it[0], it[1..];
    if ch == '\'' || ch == '"' {
      return Ok((Lexer(out, cur, true, if ch == '"' then Double else Single), rest));
    }
    if ch == '\\' {
      if rest == "" {
        return Err(UnfinishedEscape);
      }
      return Ok((Lexer(out, cur + Guarded(rest[0]), true, Plain), rest[1..]));
    }
    if !Whitespace(ch) && !Operator(ch) {
      return Ok((Lexer(out, cur + [ch], true, Plain), rest));
    }
    if !Whitespace(ch) && (ch == '<' || ch == '>') {
      r := TakeRedirect(ch, rest, out, cur, started);
      return;
    }
    var cur', out', started' := FlushWord(cur, out, started);
    if !Whitespace(ch) {
      var twice := rest != "" && rest[0] == ch;
      if ch == ';' {
        out' := out' + [Semi];
      } else if ch == '|' {
        out' := out' + [if twice then OrIf else Pipe];
      } else {
        out' := out' + [if twice then AndIf else Background];
      }
      rest := if ch != ';' && twice then rest[1..] else rest;
    }
    r := Ok((Lexer(out', cur', started', Plain), rest));
  }

  method Tokenize(line: string) returns (r: Result<seq<Token>>)
    ensures r == Lex(line)
  {
    hide PlainStep, Guarded;
    var out: seq<Token>, cur, it := [], "", line;
    var single, double, started := false, false, false;
    while it != ""
      invariant !(single && double)
      invariant Lex(line) == LexFrom(Lexer(out, cur, started, if single then Single else if double then Double else Plain), it)
      decreases |it|
    {
      var ch := it[0];
      if single {
        if ch == '\'' {
          single := false;
        } else {
          cur := cur + Guarded(ch);
        }
        it := it[1..];
        continue;
      }
      if double {
        if ch == '"' {
          double := false;
        } else if ch == '\\' {
          if |it| == 1 {
            return Err(UnfinishedEscapeInDoubleQuotes);
          }
          cur := cur + Guarded(it[1]);
          it := it[1..];
        } else {
          started := true;
          cur := cur + [ch];
        }
        it := it[1..];
        continue;
      }
      var step := TakePlain(it, out, cur, started);
      if step.Err? {
        return Err(step.error);
      }
      var x := step.value.0;
      out, cur, started, single, double := x.out, x.cur, x.started, x.mode.Single?, x.mode.Double?;
      it := step.value.1;
    }
    if single {
      return Err(UnterminatedSingleQuote);
    }
    if double {
      return Err(UnterminatedDoubleQuote);
    }
    cur, out, started := FlushWord(cur, out, started);
    r := Ok(out);
  }

  method ParseLine(line: string) returns (r: Result<seq<CommandGroup>>)
    ensures r == Parse(line)
  {
    hide Lex, Consume;
    var lexed := Tokenize(line);
    if lexed.Err? {
      return Err(lexed.error);
    }
    var tokens := lexed.value;
    if tokens == [] {
      return Ok([]);
    }
    ghost var last := tokens[|tokens| - 1];
    var p, i := EMPTY, 0;
    while i < |tokens|
      invariant i <= |tokens|
      invariant ParseTokens(tokens) == ParseFrom(p, tokens[i..], last)
    {
      var step := ParseOne(tokens, i, p);
      if step.Err? {
        return Err(step.error);
      }
      p, i := step.value.0, step.value.1;
    }
    assert tokens[i..] == [];
    if p.cmd != NO_CMD || p.pipeline != [] {
      var q := FinishGroup(p, false, Always);
      if q.Err? {
        return Err(q.error);
      }
      p := q.value;
    }
    if Dangling(tokens[|tokens| - 1]) {
      return Err(OperatorRequiresCommand);
    }
    r := Ok(p.groups);
  }

  method ParseOne(tokens: seq<Token>, i: nat, p: Parser) returns (r: Result<(Parser, nat)>)
    requires i < |tokens|
    ensures r.Err? ==> Consume(p, tokens[i..]) == Err(r.error)
    ensures r.Ok? ==> i < r.value.1 <= |tokens| && Consume(p, tokens[i..]) == Ok((r.value.0, tokens[r.value.1..]))
  {
    ghost var ts := tokens[i..];
    assert ts[1..] == tokens[i + 1..];
    var done: Result<Parser>;
    match tokens[i] {
      case Word(w) =>
        return Ok((p.(cmd := p.cmd.(args := p.cmd.args + [w])), i + 1));
      case Redirect(fd, kind) =>
        if i + 1 >= |tokens| || !tokens[i + 1].Word? {
          return Err(ExpectedPath);
        }
        assert ts[2..] == tokens[i + 2..];
        return Ok((AddRedir(p, Redir(fd, kind, Path(tokens[i + 1].word))), i + 2));
      case Dup(fd, target) =>
        return Ok((AddRedir(p, Redir(fd, RedirKind.Out, Fd(target))), i + 1));
      case Pipe => done := FinishCmd(p);
      case Semi => done := FinishGroup(p, false, Always);
      case AndIf => done := FinishGroup(p, false, And);
      case OrIf => done := FinishGroup(p, false, Or);
      case Background => done := FinishGroup(p, true, Always);
    }
    if done.Err? {
      return Err(done.error);
    }
    r := Ok((done.value, i + 1));
  }

  method ExpandWord(env: Env, word: string) returns (out: string)
    ensures out == Expand(env, word)
  {
    hide Dollar, ExpandFrom;
    out := "";
    var rest := word;
    if TildePrefix(word) {
      out, rest := Home(env), word[1..];
    }
    ExpandNothing(env);
    while rest != ""
      invariant Expand(env, word) == out + ExpandFrom(env, rest)
      decreases |rest|
    {
      ExpandNext(env, rest);
      if rest[0] == PROTECTED {
        rest := rest[1..];
        if rest != "" {
          Regroup(out, [rest[0]], ExpandFrom(env, rest[1..]));
          out, rest := out + [rest[0]], rest[1..];
        }
      } else if rest[0] != '$' {
        Regroup(out, [rest[0]], ExpandFrom(env, rest[1..]));
        out, rest := out + [rest[0]], rest[1..];
      } else {
        rest := rest[1..];
        if rest == "" {
          out := out + "$";
          return;
        }
        var text;
        text, rest := Variable(env, rest);
        Regroup(out, text, ExpandFrom(env, rest));
        out := out + text;
      }
    }
  }

  lemma {:induction false} ExpandNothing(env: Env)
    ensures ExpandFrom(env, "") == ""
  {
  }

  lemma {:induction false} ExpandNext(env: Env, s: string)
    requires s != ""
    ensures s[0] == PROTECTED ==>
              ExpandFrom(env, s) == if s[1..] != "" then [s[1..][0]] + ExpandFrom(env, s[1..][1..]) else ""
    ensures s[0] != PROTECTED && s[0] != '$' ==> ExpandFrom(env, s) == [s[0]] + ExpandFrom(env, s[1..])
    ensures s[0] == '$' ==>
              ExpandFrom(env, s) == if s[1..] == "" then "$"
                                    else Dollar(env, s[1..]).0 + ExpandFrom(env, Dollar(env, s[1..]).1)
  {
    assert |s| > 1 ==> s[1..][1..] == s[2..];
  }

  lemma {:induction false} Regroup(a: string, b: string, c: string)
    ensures a + (b + c) == (a + b) + c
  {
  }

  /** Reads the name after a `$`. */
  method Variable(env: Env, s: string) returns (text: string, rest: string)
    requires s != ""
    ensures (text, rest) == Dollar(env, s)
  {
    hide BraceLength, NameLength, Substitute;
    if s[0] == '?' {
      return env.status, s[1..];
    }
    var name;
    if s[0] == '{' {
      name, rest := BracedName(s[1..]);
      if rest != "" {
        rest := rest[1..];
      }
    } else {
      name, rest := BareName(s);
    }
    text := Substitute(env, name);
  }

  method BracedName(s: string) returns (name: string, rest: string)
    ensures name == s[..BraceLength(s)] && rest == s[BraceLength(s)..]
  {
    name, rest := "", s;
    while rest != "" && rest[0] != '}'
      invariant name + rest == s && BraceLength(s) == |name| + BraceLength(rest)
      decreases |rest|
    {
      assert name + rest == name + [rest[0]] + rest[1..];
      name, rest := name + [rest[0]], rest[1..];
    }
  }

  method BareName(s: string) returns (name: string, rest: string)
    ensures name == s[..NameLength(s)] && rest == s[NameLength(s)..]
  {
    name, rest := "", s;
    while rest != "" && NameChar(rest[0])
      invariant name + rest == s && NameLength(s) == |name| + NameLength(rest)
      decreases |rest|
    {
      assert name + rest == name + [rest[0]] + rest[1..];
      name, rest := name + [rest[0]], rest[1..];
    }
  }
}
