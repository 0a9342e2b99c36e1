/** Laws of the shell's grammar: every list of command groups the parser can produce is written back
    by `Print` to a line that parses to it, and quoting a text protects it from every expansion. */
module ShellProofs {

  import opened Common
  import opened Shell

  // ---- A printer ----

  function Decimal(n: nat): (d: string)
    ensures d != "" && AllDigits(d)
  {
    var c := ('0' as nat + n % 10) as char;
    if n < 10 then [c] else Decimal(n / 10) + [c]
  }

  /** A word between double quotes, with the two special characters escaped. */
  function Quote(w: string): string {
    if w == "" then ""
    else (if w[0] == '"' || w[0] == '\\' then ['\\', w[0]] else [w[0]]) + Quote(w[1..])
  }

  function RedirText(kind: RedirKind): string {
    match kind case In => "<" case Out => ">" case Append => ">>"
  }

  function PrintToken(t: Token): string {
    match t
    case Word(w) => "\"" + (Quote(w) + "\" ")
    case Pipe => "| "
    case Semi => "; "
    case AndIf => "&& "
    case OrIf => "|| "
    case Background => "& "
    case Redirect(fd, kind) => Decimal(fd) + (RedirText(kind) + " ")
    case Dup(fd, target) => Decimal(fd) + (">&" + (Decimal(target) + " "))
  }

  function PrintTokens(ts: seq<Token>): string {
    if ts == [] then "" else PrintToken(ts[0]) + PrintTokens(ts[1..])
  }

  function RedirToken(r: Redir): seq<Token> {
    match r.target
    case Path(w) => [Redirect(r.fd, r.kind), Word(w)]
    case Fd(target) => [Dup(r.fd, target)]
  }

  function RedirTokens(rs: seq<Redir>): seq<Token> {
    if rs == [] then [] else RedirToken(rs[0]) + RedirTokens(rs[1..])
  }

  function WordTokens(ws: seq<string>): seq<Token> {
    if ws == [] then [] else [Word(ws[0])] + WordTokens(ws[1..])
  }

  function PipelineTokens(cs: seq<SimpleCmd>): seq<Token>
    requires cs != []
  {
    var c := WordTokens(cs[0].args) + RedirTokens(cs[0].redirs);
    if |cs| == 1 then c else c + ([Pipe] + PipelineTokens(cs[1..]))
  }

  function Terminator(g: CommandGroup): Token {
    if g.background then Background
    else match g.next case Always => Semi case And => AndIf case Or => OrIf
  }

  function GroupTokens(gs: seq<CommandGroup>): seq<Token>
    requires AllWellFormed(gs)
  {
    if gs == [] then []
    else
      assert WellFormedGroup(gs[0]);
      PipelineTokens(gs[0].pipeline) + ([Terminator(gs[0])] + GroupTokens(gs[1..]))
  }

  // ---- What the parser can produce ----

  predicate WellFormedCmd(c: SimpleCmd) {
    c.args != [] && forall r | r in c.redirs :: r.target.Fd? ==> r.kind.Out?
  }

  predicate WellFormedPipeline(cs: seq<SimpleCmd>) {
    cs != [] && forall c | c in cs :: WellFormedCmd(c)
  }

  predicate WellFormedGroup(g: CommandGroup) {
    WellFormedPipeline(g.pipeline) && (g.background ==> g.next == Always)
  }

  predicate AllWellFormed(gs: seq<CommandGroup>) {
    forall g | g in gs :: WellFormedGroup(g)
  }

  predicate WellFormed(gs: seq<CommandGroup>) {
    AllWellFormed(gs) && (gs != [] ==> gs[|gs| - 1].next == Always)
  }

  function Print(gs: seq<CommandGroup>): string
    requires WellFormed(gs)
  {
    PrintTokens(GroupTokens(gs))
  }

  // ---- Tokens survive printing ----

  lemma {:induction false} DecimalValue(n: nat)
    ensures Value(Decimal(n)) == n
  {
    var d := Decimal(n);
    if n >= 10 {
      DecimalValue(n / 10);
      assert d[..|d| - 1] == Decimal(n / 10);
    }
  }

  lemma {:induction false} Advance(x: Lexer, s: string, y: Lexer, rest: string)
    requires s != "" && Step(x, s) == Ok((y, rest))
    ensures LexFrom(x, s) == LexFrom(y, rest)
  {
  }

  lemma {:induction false} ReadClosingQuote(x: Lexer, rest: string)
    requires x.mode == Double && x.started
    ensures LexFrom(x, "\" " + rest) == LexFrom(Lexer(x.out + [Word(x.cur)], "", false, Plain), rest)
  {
    hide LexFrom;
    var y := x.(mode := Plain);
    var tail := "\" " + rest;
    assert tail[1..] == " " + rest && (" " + rest)[1..] == rest;
    Advance(x, tail, y, " " + rest);
    Advance(y, " " + rest, Flush(y), rest);
  }

  lemma {:induction false} ReadQuotedChar(x: Lexer, c: char, s: string)
    requires x.mode == Double && x.started
    ensures LexFrom(x, Quote([c]) + s) == LexFrom(x.(cur := x.cur + [c]), s)
  {
    hide LexFrom;
    var y := x.(cur := x.cur + [c]);
    assert [c][1..] == "";
    if c == '"' || c == '\\' {
      var t := ['\\', c] + s;
      assert Quote([c]) + s == t && t[1..][1..] == s;
      Advance(x, t, y, s);
    } else {
      var t := [c] + s;
      assert Quote([c]) + s == t && t[1..] == s;
      Advance(x, t, y, s);
    }
  }

  lemma {:induction false} QuoteFirst(w: string, tail: string)
    requires w != ""
    ensures Quote(w) + tail == Quote([w[0]]) + (Quote(w[1..]) + tail)
  {
    assert [w[0]][1..] == "" && Quote(w) == Quote([w[0]]) + Quote(w[1..]);
  }

  lemma {:induction false} QuoteNothing(tail: string)
    ensures Quote("") + tail == tail
  {
  }

  /** Inside double quotes, a quoted word is read back whole. */
  lemma {:induction false} ReadQuoted(x: Lexer, w: string, rest: string)
    requires x.mode == Double && x.started
    ensures LexFrom(x, Quote(w) + ("\" " + rest)) == LexFrom(Lexer(x.out + [Word(x.cur + w)], "", false, Plain), rest)
    decreases |w|
  {
    hide LexFrom, Quote;
    var tail := "\" " + rest;
    if w == "" {
      QuoteNothing(tail);
      assert x.cur + w == x.cur;
      ReadClosingQuote(x, rest);
    } else {
      var s := Quote(w[1..]) + tail;
      QuoteFirst(w, tail);
      ReadQuotedChar(x, w[0], s);
      ReadQuoted(x.(cur := x.cur + [w[0]]), w[1..], rest);
      assert x.cur + [w[0]] + w[1..] == x.cur + w;
    }
  }

  /** Digits outside quotes collect into the pending word. */
  lemma {:induction false} ReadDigits(out: seq<Token>, cur: string, d: string, rest: string)
    requires AllDigits(d) && d != ""
    ensures LexFrom(Lexer(out, cur, cur != "", Plain), d + rest) == LexFrom(Lexer(out, cur + d, true, Plain), rest)
    decreases |d|
  {
    hide LexFrom;
    var x, y := Lexer(out, cur, cur != "", Plain), Lexer(out, cur + [d[0]], true, Plain);
    assert Digit(d[0]);
    assert d + rest == [d[0]] + (d[1..] + rest);
    Advance(x, [d[0]] + (d[1..] + rest), y, d[1..] + rest);
    if |d| == 1 {
      assert d[1..] + rest == rest && cur + [d[0]] == cur + d;
    } else {
      ReadDigits(out, cur + [d[0]], d[1..], rest);
      assert cur + [d[0]] + d[1..] == cur + d;
    }
  }

  lemma {:induction false} CountDigits(d: string, rest: string)
    requires AllDigits(d) && (rest == "" || !Digit(rest[0]))
    ensures LeadingDigits(d + rest) == |d|
  {
    if d == "" {
      assert d + rest == rest;
    } else {
      assert Digit(d[0]) && (d + rest)[1..] == d[1..] + rest;
      CountDigits(d[1..], rest);
    }
  }

  predicate Idle(x: Lexer) { x.cur == "" && !x.started && x.mode == Plain }

  /** A pending word of digits is the descriptor of the redirection that follows. */
  lemma {:induction false} StepRedirect(out: seq<Token>, fd: byte, ch: char, tail: string)
    requires ch == '<' || ch == '>'
    ensures var d := Decimal(fd);
            Step(Lexer(out, d, true, Plain), [ch] + tail) == RedirectRest(Lexer(out, d, true, Plain), ch, tail)
    ensures Value(Decimal(fd)) == fd && FdPrefix(Lexer(out, Decimal(fd), true, Plain))
  {
    hide Decimal, RedirectRest;
    DecimalValue(fd);
    assert ([ch] + tail)[1..] == tail;
  }

  lemma {:induction false} RedirectOperator(out: seq<Token>, fd: byte, kind: RedirKind, rest: string)
    ensures Step(Lexer(out, Decimal(fd), true, Plain), RedirText(kind) + (" " + rest))
         == Ok((Lexer(out + [Redirect(fd, kind)], "", false, Plain), " " + rest))
  {
    hide Decimal, Step, Value, FdPrefix;
    var s := " " + rest;
    if kind.In? {
      StepRedirect(out, fd, '<', s);
    } else if kind.Out? {
      StepRedirect(out, fd, '>', s);
    } else {
      StepRedirect(out, fd, '>', ">" + s);
      assert ">>" + s == ">" + (">" + s) && (">" + s)[1..] == s;
    }
  }

  lemma {:induction false} ReadRedirect(out: seq<Token>, fd: byte, kind: RedirKind, rest: string)
    ensures LexFrom(Lexer(out, "", false, Plain), PrintToken(Redirect(fd, kind)) + rest)
         == LexFrom(Lexer(out + [Redirect(fd, kind)], "", false, Plain), rest)
  {
    hide LexFrom, Decimal, Step;
    var s := RedirText(kind) + (" " + rest);
    assert PrintToken(Redirect(fd, kind)) + rest == Decimal(fd) + s;
    ReadDigits(out, "", Decimal(fd), s);
    assert "" + Decimal(fd) == Decimal(fd);
    var y := Lexer(out + [Redirect(fd, kind)], "", false, Plain);
    RedirectOperator(out, fd, kind, rest);
    Advance(Lexer(out, Decimal(fd), true, Plain), s, y, " " + rest);
    ReadSpace(y, rest);
  }

  lemma {:induction false} ReadSpace(x: Lexer, rest: string)
    requires Idle(x)
    ensures LexFrom(x, " " + rest) == LexFrom(x, rest)
  {
    hide LexFrom;
    assert (" " + rest)[1..] == rest;
    Advance(x, " " + rest, x, rest);
  }

  lemma {:induction false} DupOperator(out: seq<Token>, fd: byte, target: byte, rest: string)
    ensures Step(Lexer(out, Decimal(fd), true, Plain), ">&" + (Decimal(target) + (" " + rest)))
         == Ok((Lexer(out + [Dup(fd, target)], "", false, Plain), " " + rest))
  {
    hide Decimal, Step, Value, FdPrefix, LeadingDigits;
    var d, s := Decimal(target), " " + rest;
    StepRedirect(out, fd, '>', "&" + (d + s));
    StepRedirect(out, target, '>', "");
    assert ">&" + (d + s) == ">" + ("&" + (d + s)) && ("&" + (d + s))[1..] == d + s;
    CountDigits(d, s);
    assert (d + s)[..|d|] == d && (d + s)[|d|..] == s;
  }

  lemma {:induction false} ReadDup(out: seq<Token>, fd: byte, target: byte, rest: string)
    ensures LexFrom(Lexer(out, "", false, Plain), PrintToken(Dup(fd, target)) + rest)
         == LexFrom(Lexer(out + [Dup(fd, target)], "", false, Plain), rest)
  {
    hide LexFrom, Decimal, Step;
    var s := ">&" + (Decimal(target) + (" " + rest));
    assert PrintToken(Dup(fd, target)) + rest == Decimal(fd) + s;
    ReadDigits(out, "", Decimal(fd), s);
    assert "" + Decimal(fd) == Decimal(fd);
    var y := Lexer(out + [Dup(fd, target)], "", false, Plain);
    DupOperator(out, fd, target, rest);
    Advance(Lexer(out, Decimal(fd), true, Plain), s, y, " " + rest);
    ReadSpace(y, rest);
  }

  lemma {:induction false} ReadOperator(out: seq<Token>, t: Token, rest: string)
    requires !t.Word? && !t.Redirect? && !t.Dup?
    ensures LexFrom(Lexer(out, "", false, Plain), PrintToken(t) + rest)
         == LexFrom(Lexer(out + [t], "", false, Plain), rest)
  {
    hide LexFrom;
    var x, y, s := Lexer(out, "", false, Plain), Lexer(out + [t], "", false, Plain), PrintToken(t) + rest;
    assert s == s[..|PrintToken(t)| - 1] + (" " + rest);
    assert |PrintToken(t)| == 3 ==> s[1..][1..] == " " + rest;
    assert |PrintToken(t)| == 2 ==> s[1..] == " " + rest;
    Advance(x, s, y, " " + rest);
    ReadSpace(y, rest);
  }

  lemma {:induction false} ReadWord(out: seq<Token>, w: string, rest: string)
    ensures LexFrom(Lexer(out, "", false, Plain), PrintToken(Word(w)) + rest)
         == LexFrom(Lexer(out + [Word(w)], "", false, Plain), rest)
  {
    hide LexFrom, Quote;
    var x, y := Lexer(out, "", false, Plain), Lexer(out, "", true, Double);
    var s := Quote(w) + ("\" " + rest);
    assert PrintToken(Word(w)) + rest == "\"" + s && ("\"" + s)[1..] == s;
    Advance(x, "\"" + s, y, s);
    ReadQuoted(y, w, rest);
    assert "" + w == w;
  }

  lemma {:induction false} LexNothing(out: seq<Token>)
    ensures LexFrom(Lexer(out, "", false, Plain), "") == Ok(out)
  {
  }

  /** Every sequence of tokens is read back from its printed form. */
  lemma {:induction false} LexPrinted(out: seq<Token>, ts: seq<Token>)
    ensures LexFrom(Lexer(out, "", false, Plain), PrintTokens(ts)) == Ok(out + ts)
    decreases |ts|
  {
    hide LexFrom, PrintToken;
    if ts == [] {
      assert out + ts == out;
      LexNothing(out);
    } else {
      ReadToken(out, ts[0], PrintTokens(ts[1..]));
      LexPrinted(out + [ts[0]], ts[1..]);
      assert out + [ts[0]] + ts[1..] == out + ts;
    }
  }

  lemma {:induction false} ReadToken(out: seq<Token>, t: Token, rest: string)
    ensures LexFrom(Lexer(out, "", false, Plain), PrintToken(t) + rest)
         == LexFrom(Lexer(out + [t], "", false, Plain), rest)
  {
    hide LexFrom, PrintToken;
    if t.Word? {
      ReadWord(out, t.word, rest);
    } else if t.Redirect? {
      ReadRedirect(out, t.fd, t.kind, rest);
    } else if t.Dup? {
      ReadDup(out, t.fd, t.target, rest);
    } else {
      ReadOperator(out, t, rest);
    }
  }

  lemma {:induction false} TokensRoundTrip(ts: seq<Token>)
    ensures Lex(PrintTokens(ts)) == Ok(ts)
  {
    LexPrinted([], ts);
    assert [] + ts == ts;
  }

  // ---- Groups survive printing ----

  lemma {:induction false} Proceed(p: Parser, ts: seq<Token>, last: Token, q: Parser, rest: seq<Token>)
    requires ts != [] && Consume(p, ts) == Ok((q, rest))
    ensures ParseFrom(p, ts, last) == ParseFrom(q, rest, last)
  {
  }

  lemma {:induction false} ReadArg(p: Parser, w: string, ts: seq<Token>, last: Token)
    ensures ParseFrom(p, [Word(w)] + ts, last) == ParseFrom(p.(cmd := p.cmd.(args := p.cmd.args + [w])), ts, last)
  {
    hide ParseFrom;
    assert ([Word(w)] + ts)[1..] == ts;
    Proceed(p, [Word(w)] + ts, last, p.(cmd := p.cmd.(args := p.cmd.args + [w])), ts);
  }

  lemma {:induction false} FirstWord(ws: seq<string>, ts: seq<Token>)
    ensures WordTokens(ws) + ts == if ws == [] then ts else [Word(ws[0])] + (WordTokens(ws[1..]) + ts)
  {
  }

  lemma {:induction false} ReadWords(p: Parser, ws: seq<string>, ts: seq<Token>, last: Token)
    ensures ParseFrom(p, WordTokens(ws) + ts, last)
         == ParseFrom(p.(cmd := p.cmd.(args := p.cmd.args + ws)), ts, last)
    decreases |ws|
  {
    hide ParseFrom, WordTokens;
    FirstWord(ws, ts);
    if ws == [] {
      assert p.cmd.args + ws == p.cmd.args;
    } else {
      ReadArg(p, ws[0], WordTokens(ws[1..]) + ts, last);
      ReadWords(p.(cmd := p.cmd.(args := p.cmd.args + [ws[0]])), ws[1..], ts, last);
      assert p.cmd.args + [ws[0]] + ws[1..] == p.cmd.args + ws;
    }
  }

  lemma {:induction false} ReadRedir(p: Parser, r: Redir, ts: seq<Token>, last: Token)
    requires r.target.Fd? ==> r.kind.Out?
    ensures ParseFrom(p, RedirToken(r) + ts, last) == ParseFrom(AddRedir(p, r), ts, last)
  {
    hide ParseFrom;
    var all := RedirToken(r) + ts;
    assert all[|RedirToken(r)|..] == ts;
    Proceed(p, all, last, AddRedir(p, r), ts);
  }

  lemma {:induction false} ReadRedirs(p: Parser, rs: seq<Redir>, ts: seq<Token>, last: Token)
    requires forall r | r in rs :: r.target.Fd? ==> r.kind.Out?
    ensures ParseFrom(p, RedirTokens(rs) + ts, last)
         == ParseFrom(p.(cmd := p.cmd.(redirs := p.cmd.redirs + rs)), ts, last)
    decreases |rs|
  {
    hide ParseFrom, RedirToken;
    if rs == [] {
      assert RedirTokens(rs) + ts == ts && p.cmd.redirs + rs == p.cmd.redirs;
    } else {
      var rest := RedirTokens(rs[1..]) + ts;
      assert rs[0] in rs;
      assert RedirTokens(rs) + ts == RedirToken(rs[0]) + rest;
      ReadRedir(p, rs[0], rest, last);
      ReadRedirs(AddRedir(p, rs[0]), rs[1..], ts, last);
      assert p.cmd.redirs + [rs[0]] + rs[1..] == p.cmd.redirs + rs;
    }
  }

  lemma {:induction false} ReadCmd(p: Parser, c: SimpleCmd, ts: seq<Token>, last: Token)
    requires p.cmd == NO_CMD && WellFormedCmd(c)
    ensures ParseFrom(p, WordTokens(c.args) + RedirTokens(c.redirs) + ts, last) == ParseFrom(p.(cmd := c), ts, last)
  {
    var tail := RedirTokens(c.redirs) + ts;
    assert WordTokens(c.args) + RedirTokens(c.redirs) + ts == WordTokens(c.args) + tail;
    ReadWords(p, c.args, tail, last);
    ReadRedirs(p.(cmd := p.cmd.(args := p.cmd.args + c.args)), c.redirs, ts, last);
    assert [] + c.args == c.args && [] + c.redirs == c.redirs;
  }

  /** All but the last command of a pipeline are finished by its pipes. */
  lemma {:induction false} ReadPipeline(p: Parser, cs: seq<SimpleCmd>, ts: seq<Token>, last: Token)
    requires p.cmd == NO_CMD && WellFormedPipeline(cs)
    ensures ParseFrom(p, PipelineTokens(cs) + ts, last)
         == ParseFrom(p.(pipeline := p.pipeline + cs[..|cs| - 1], cmd := cs[|cs| - 1]), ts, last)
    decreases |cs|
  {
    hide WordTokens, RedirTokens, ParseFrom;
    var c := cs[0];
    var head := WordTokens(c.args) + RedirTokens(c.redirs);
    assert WellFormedCmd(c);
    if |cs| == 1 {
      ReadCmd(p, c, ts, last);
      assert p.pipeline + cs[..0] == p.pipeline;
    } else {
      var rest := PipelineTokens(cs[1..]) + ts;
      var tail := [Pipe] + rest;
      assert PipelineTokens(cs) + ts == head + tail;
      ReadCmd(p, c, tail, last);
      var q := p.(pipeline := p.pipeline + [c]);
      assert tail[1..] == rest;
      Proceed(p.(cmd := c), tail, last, q, rest);
      ReadPipeline(q, cs[1..], ts, last);
      assert p.pipeline + [c] + cs[1..][..|cs| - 2] == p.pipeline + cs[..|cs| - 1];
    }
  }

  lemma {:induction false} ReadGroup(done: seq<CommandGroup>, g: CommandGroup, ts: seq<Token>, last: Token)
    requires WellFormedGroup(g)
    ensures ParseFrom(Parser(done, [], NO_CMD), PipelineTokens(g.pipeline) + ([Terminator(g)] + ts), last)
         == ParseFrom(Parser(done + [g], [], NO_CMD), ts, last)
  {
    hide PipelineTokens, ParseFrom;
    var cs, tail := g.pipeline, [Terminator(g)] + ts;
    ReadPipeline(Parser(done, [], NO_CMD), cs, tail, last);
    var front, c := cs[..|cs| - 1], cs[|cs| - 1];
    assert [] + front == front && front + [c] == cs && WellFormedCmd(c);
    assert tail[1..] == ts;
    Proceed(Parser(done, front, c), tail, last, Parser(done + [g], [], NO_CMD), ts);
  }

  lemma {:induction false} ReadGroups(done: seq<CommandGroup>, gs: seq<CommandGroup>, last: Token)
    requires AllWellFormed(gs)
    requires !Dangling(last)
    ensures ParseFrom(Parser(done, [], NO_CMD), GroupTokens(gs), last) == Ok(done + gs)
    decreases |gs|
  {
    if gs == [] {
      assert done + gs == done;
    } else {
      hide PipelineTokens, ParseFrom, Terminator;
      assert WellFormedGroup(gs[0]);
      ReadGroup(done, gs[0], GroupTokens(gs[1..]), last);
      ReadGroups(done + [gs[0]], gs[1..], last);
      assert done + [gs[0]] + gs[1..] == done + gs;
    }
  }

  lemma {:induction false} LastToken(gs: seq<CommandGroup>)
    requires gs != [] && AllWellFormed(gs)
    ensures GroupTokens(gs) != [] && GroupTokens(gs)[|GroupTokens(gs)| - 1] == Terminator(gs[|gs| - 1])
  {
    if |gs| > 1 {
      LastToken(gs[1..]);
    } else {
      assert GroupTokens(gs[1..]) == [];
    }
  }

  /** Printing is a right inverse of parsing on everything well-formed. */
  lemma {:induction false} ParsePrinted(gs: seq<CommandGroup>)
    requires WellFormed(gs)
    ensures Parse(Print(gs)) == Ok(gs)
  {
    TokensRoundTrip(GroupTokens(gs));
    if gs != [] {
      LastToken(gs);
      ReadGroups([], gs, Terminator(gs[|gs| - 1]));
      assert [] + gs == gs;
    }
  }

  // ---- The parser produces nothing else ----

  predicate Good(p: Parser) {
    && AllWellFormed(p.groups) && (forall c | c in p.pipeline :: WellFormedCmd(c))
    && (forall r | r in p.cmd.redirs :: r.target.Fd? ==> r.kind.Out?)
  }

  /** With no token left, a group still waiting for its successor means the last token says so. */
  predicate Waits(p: Parser, last: Token) {
    p.cmd == NO_CMD && p.pipeline == [] && p.groups != [] && p.groups[|p.groups| - 1].next != Always ==> Dangling(last)
  }

  lemma {:induction false} FinishKeeps(p: Parser, background: bool, next: Connector)
    requires Good(p) && (background ==> next == Always)
    ensures FinishCmd(p).Ok? ==> Good(FinishCmd(p).value)
    ensures var q := FinishGroup(p, background, next);
            q.Ok? ==> Good(q.value) && q.value.groups != [] && q.value.groups[|q.value.groups| - 1].next == next
  {
    if FinishCmd(p).Ok? {
      assert WellFormedCmd(p.cmd);
      var g := CommandGroup(p.pipeline + [p.cmd], background, next);
      assert WellFormedGroup(g);
    }
  }

  lemma {:induction false} ConsumeKeeps(p: Parser, ts: seq<Token>)
    requires Good(p) && ts != [] && Consume(p, ts).Ok?
    ensures var (q, rest) := Consume(p, ts).value;
            Good(q) && (if rest == [] then Waits(q, ts[|ts| - 1]) else rest[|rest| - 1] == ts[|ts| - 1])
  {
    hide AllWellFormed;
    match ts[0]
    case Word(_) =>
    case Redirect(_, _) =>
    case Dup(_, _) =>
    case Pipe => FinishKeeps(p, false, Always);
    case Semi => FinishKeeps(p, false, Always);
    case AndIf => FinishKeeps(p, false, And);
    case OrIf => FinishKeeps(p, false, Or);
    case Background => FinishKeeps(p, true, Always);
  }

  lemma {:induction false} ParsedFrom(p: Parser, ts: seq<Token>, last: Token)
    requires Good(p) && ParseFrom(p, ts, last).Ok?
    requires if ts == [] then Waits(p, last) else ts[|ts| - 1] == last
    ensures WellFormed(ParseFrom(p, ts, last).value)
    decreases |ts|
  {
    if ts == [] {
      FinishKeeps(p, false, Always);
    } else {
      hide AllWellFormed;
      ConsumeKeeps(p, ts);
      ParsedFrom(Consume(p, ts).value.0, Consume(p, ts).value.1, last);
    }
  }

  /** The results of parsing are exactly the well-formed group lists. */
  lemma {:induction false} ParsedIffWellFormed(gs: seq<CommandGroup>)
    ensures WellFormed(gs) <==> exists line :: Parse(line) == Ok(gs)
  {
    if WellFormed(gs) {
      ParsePrinted(gs);
    }
    forall line | Parse(line) == Ok(gs)
      ensures WellFormed(gs)
    {
      var ts := Lex(line).value;
      if ts != [] {
        ParsedFrom(EMPTY, ts, ts[|ts| - 1]);
      }
    }
  }

  // ---- The end of a line, and what is not one ----

  lemma {:induction false} ReadGroupsThen(done: seq<CommandGroup>, gs: seq<CommandGroup>, ts: seq<Token>, last: Token)
    requires AllWellFormed(gs)
    ensures ParseFrom(Parser(done, [], NO_CMD), GroupTokens(gs) + ts, last)
         == ParseFrom(Parser(done + gs, [], NO_CMD), ts, last)
    decreases |gs|
  {
    hide PipelineTokens, ParseFrom, Terminator;
    if gs == [] {
      assert done + gs == done && GroupTokens(gs) + ts == ts;
    } else {
      assert WellFormedGroup(gs[0]);
      var rest := GroupTokens(gs[1..]) + ts;
      assert GroupTokens(gs) + ts == PipelineTokens(gs[0].pipeline) + ([Terminator(gs[0])] + rest);
      ReadGroup(done, gs[0], rest, last);
      ReadGroupsThen(done + [gs[0]], gs[1..], ts, last);
      assert done + [gs[0]] + gs[1..] == done + gs;
    }
  }

  lemma {:induction false} WordsEnd(ws: seq<string>)
    requires ws != []
    ensures WordTokens(ws) != [] && WordTokens(ws)[|WordTokens(ws)| - 1].Word?
  {
    if |ws| > 1 {
      WordsEnd(ws[1..]);
    }
  }

  lemma {:induction false} RedirsEnd(rs: seq<Redir>)
    requires rs != []
    ensures RedirTokens(rs) != [] && !Dangling(RedirTokens(rs)[|RedirTokens(rs)| - 1])
  {
    if |rs| > 1 {
      RedirsEnd(rs[1..]);
    } else {
      assert RedirTokens(rs[1..]) == [];
    }
  }

  lemma {:induction false} PipelineEnds(cs: seq<SimpleCmd>)
    requires WellFormedPipeline(cs)
    ensures PipelineTokens(cs) != [] && !Dangling(PipelineTokens(cs)[|PipelineTokens(cs)| - 1])
    decreases |cs|
  {
    assert WellFormedCmd(cs[0]);
    WordsEnd(cs[0].args);
    if cs[0].redirs != [] {
      RedirsEnd(cs[0].redirs);
    }
    if |cs| > 1 {
      PipelineEnds(cs[1..]);
    }
  }

  /** The last group of a line needs no terminator: it runs in the foreground. */
  lemma {:induction false} LastTerminatorIsOptional(gs: seq<CommandGroup>, cs: seq<SimpleCmd>)
    requires AllWellFormed(gs) && WellFormedPipeline(cs)
    ensures ParseTokens(GroupTokens(gs) + PipelineTokens(cs)) == Ok(gs + [CommandGroup(cs, false, Always)])
  {
    hide GroupTokens, PipelineTokens;
    var ts := GroupTokens(gs) + PipelineTokens(cs);
    PipelineEnds(cs);
    var last := ts[|ts| - 1];
    assert last == PipelineTokens(cs)[|PipelineTokens(cs)| - 1];
    ReadGroupsThen([], gs, PipelineTokens(cs), last);
    assert [] + gs == gs;
    assert PipelineTokens(cs) + [] == PipelineTokens(cs);
    ReadPipeline(Parser(gs, [], NO_CMD), cs, [], last);
    EndsInForeground(gs, cs, last);
  }

  lemma {:induction false} EndsInForeground(gs: seq<CommandGroup>, cs: seq<SimpleCmd>, last: Token)
    requires WellFormedPipeline(cs) && !Dangling(last)
    ensures ParseFrom(Parser(gs, [] + cs[..|cs| - 1], cs[|cs| - 1]), [], last)
         == Ok(gs + [CommandGroup(cs, false, Always)])
  {
    var front, c := cs[..|cs| - 1], cs[|cs| - 1];
    assert c in cs && WellFormedCmd(c) && [] + front == front && front + [c] == cs;
  }

  /** A line that ends in `&&` or `||` lacks a command. */
  lemma {:induction false} DanglingIsError(gs: seq<CommandGroup>)
    requires AllWellFormed(gs) && gs != [] && gs[|gs| - 1].next != Always
    ensures ParseTokens(GroupTokens(gs)) == Err(OperatorRequiresCommand)
  {
    assert gs[|gs| - 1] in gs && WellFormedGroup(gs[|gs| - 1]);
    LastToken(gs);
    var last := Terminator(gs[|gs| - 1]);
    assert GroupTokens(gs) + [] == GroupTokens(gs);
    ReadGroupsThen([], gs, [], last);
  }

  /** An operator where a command is missing, or has redirections only, is an error, and so is a redirection
      that no path follows. */
  lemma {:induction false} MissingPieces(p: Parser, t: Token, ts: seq<Token>, last: Token)
    ensures !t.Word? && !t.Redirect? && !t.Dup? && p.cmd.args == [] ==>
              ParseFrom(p, [t] + ts, last) ==
                Err(if p.cmd.redirs == [] then EmptyCommand else RedirectionWithoutCommand)
    ensures t.Redirect? && (ts == [] || !ts[0].Word?) ==> ParseFrom(p, [t] + ts, last) == Err(ExpectedPath)
  {
    assert ([t] + ts)[1..] == ts && (ts != [] ==> ([t] + ts)[1] == ts[0]);
  }

  /** So is a line that ends in a pipe, or in redirections without a command. */
  lemma {:induction false} UnfinishedEnd(p: Parser, last: Token)
    requires p.cmd.args == [] && (p.cmd.redirs != [] || p.pipeline != [])
    ensures ParseFrom(p, [], last) == Err(if p.cmd.redirs == [] then EmptyCommand else RedirectionWithoutCommand)
  {
  }

  // ---- Quoting defeats expansion ----

  function Protect(s: string): string {
    if s == "" then "" else Guarded(s[0]) + Protect(s[1..])
  }

  function Backslashed(s: string): string {
    if s == "" then "" else ['\\', s[0]] + Backslashed(s[1..])
  }

  lemma {:induction false} ExpandProtectedFrom(env: Env, s: string)
    ensures ExpandFrom(env, Protect(s)) == s
  {
    if s != "" {
      ExpandProtectedFrom(env, s[1..]);
      var w := Protect(s);
      assert w[|Guarded(s[0])|..] == Protect(s[1..]);
      assert s == [s[0]] + s[1..];
    }
  }

  /** A protected text expands to itself, whatever the variables are. */
  lemma {:induction false} ExpandProtected(env: Env, s: string)
    ensures Expand(env, Protect(s)) == s
  {
    ExpandProtectedFrom(env, s);
    assert s != "" && s[0] == '~' ==> Protect(s)[0] == PROTECTED;
  }

  lemma {:induction false} ReadSingleQuoted(x: Lexer, s: string, rest: string)
    requires x.mode == Single && '\'' !in s
    ensures LexFrom(x, s + ("'" + rest)) == LexFrom(x.(cur := x.cur + Protect(s), mode := Plain), rest)
    decreases |s|
  {
    hide LexFrom, Guarded;
    var tail := "'" + rest;
    if s == "" {
      assert s + tail == tail && tail[1..] == rest && x.cur + Protect(s) == x.cur;
      Advance(x, tail, x.(mode := Plain), rest);
    } else {
      var y := x.(cur := x.cur + Guarded(s[0]));
      assert s + tail == [s[0]] + (s[1..] + tail);
      assert s[0] != '\'';
      Advance(x, [s[0]] + (s[1..] + tail), y, s[1..] + tail);
      ReadSingleQuoted(y, s[1..], rest);
      assert x.cur + Guarded(s[0]) + Protect(s[1..]) == x.cur + Protect(s);
    }
  }

  lemma {:induction false} LexOneWord(cur: string)
    ensures LexFrom(Lexer([], cur, true, Plain), "") == Ok([Word(cur)])
  {
    assert [] + [Word(cur)] == [Word(cur)];
  }

  lemma {:induction false} ReadEscape(x: Lexer, c: char, rest: string)
    requires x.mode == Plain
    ensures LexFrom(x, ['\\', c] + rest) == LexFrom(x.(cur := x.cur + Guarded(c), started := true), rest)
  {
    hide LexFrom, Guarded;
    var s := ['\\', c] + rest;
    assert s[1..][1..] == rest;
    Advance(x, s, x.(cur := x.cur + Guarded(c), started := true), rest);
  }

  lemma {:induction false} ReadBackslashed(x: Lexer, s: string)
    requires x.mode == Plain && s != ""
    ensures LexFrom(x, Backslashed(s)) == LexFrom(x.(cur := x.cur + Protect(s), started := true), "")
    decreases |s|
  {
    hide LexFrom, Guarded;
    var y := x.(cur := x.cur + Guarded(s[0]), started := true);
    ReadEscape(x, s[0], Backslashed(s[1..]));
    if |s| > 1 {
      ReadBackslashed(y, s[1..]);
      assert y.cur + Protect(s[1..]) == x.cur + Protect(s);
    } else {
      assert s[1..] == "" && Backslashed("") == "" && Protect("") == "";
      assert y.cur == x.cur + Protect(s);
    }
  }

  /** Any text without a quote, between single quotes, reaches the command unchanged. */
  lemma {:induction false} SingleQuotedIsLiteral(env: Env, s: string)
    requires '\'' !in s
    ensures Lex("'" + (s + "'")) == Ok([Word(Protect(s))]) && Expand(env, Protect(s)) == s
  {
    ExpandProtected(env, s);
    var x := Lexer([], "", true, Single);
    assert s + "'" == s + ("'" + "");
    var t := s + ("'" + "");
    assert ("'" + t)[1..] == t;
    Advance(START, "'" + t, x, t);
    ReadSingleQuoted(x, s, "");
    assert "" + Protect(s) == Protect(s);
    LexOneWord(Protect(s));
  }

  /** Any text at all, with every character escaped, reaches the command unchanged. */
  lemma {:induction false} BackslashedIsLiteral(env: Env, s: string)
    requires s != ""
    ensures Lex(Backslashed(s)) == Ok([Word(Protect(s))]) && Expand(env, Protect(s)) == s
  {
    ExpandProtected(env, s);
    ReadBackslashed(START, s);
    assert "" + Protect(s) == Protect(s);
    LexOneWord(Protect(s));
  }

  lemma {:induction false} PlainFrom(env: Env, w: string)
    requires '$' !in w
    ensures PROTECTED !in w ==> ExpandFrom(env, w) == w
    ensures |ExpandFrom(env, w)| <= |w|
    ensures PROTECTED in w ==> |ExpandFrom(env, w)| < |w|
    decreases |w|
  {
    if w != "" {
      assert w[0] != '$';
      if w[0] == PROTECTED {
        if |w| > 1 {
          PlainFrom(env, w[2..]);
        }
      } else {
        PlainFrom(env, w[1..]);
        assert w == [w[0]] + w[1..];
      }
    }
  }

  /** Text with nothing to expand is kept as it is exactly when it does not itself contain the
      marker character: typed unquoted, U+001F disappears. */
  lemma {:induction false} PlainTextIsLiteralIff(env: Env, w: string)
    requires '$' !in w && !TildePrefix(w)
    ensures Expand(env, w) == w <==> PROTECTED !in w
  {
    PlainFrom(env, w);
  }

  lemma {:induction false} MarkerIsLost(env: Env)
    ensures Lex([PROTECTED]) == Ok([Word([PROTECTED])]) && Expand(env, [PROTECTED]) == ""
  {
    var x := Lexer([], [PROTECTED], true, Plain);
    assert [PROTECTED][1..] == "" && "" + [PROTECTED] == [PROTECTED];
    Advance(START, [PROTECTED], x, "");
    LexOneWord([PROTECTED]);
  }

  /** Nor do double quotes save it. */
  lemma {:induction false} QuotedMarkerIsLost(env: Env)
    ensures Lex("\"" + ([PROTECTED] + "\" ")) == Ok([Word([PROTECTED])]) && Expand(env, [PROTECTED]) == ""
  {
    var w := Word([PROTECTED]);
    MarkerIsLost(env);
    TokensRoundTrip([w]);
    assert [w][1..] == [] && PrintTokens([w]) == PrintToken(w) + "" == PrintToken(w);
    assert [PROTECTED][1..] == "" && Quote([PROTECTED]) == [PROTECTED];
  }

  // ---- Variables ----

  lemma {:induction false} CountBraced(name: string, rest: string)
    requires '}' !in name
    ensures BraceLength(name + ("}" + rest)) == |name|
  {
    var s := name + ("}" + rest);
    if name == "" {
      assert s == "}" + rest;
    } else {
      assert s[1..] == name[1..] + ("}" + rest) && s[0] == name[0] && name[0] in name;
      CountBraced(name[1..], rest);
    }
  }

  lemma {:induction false} CountName(name: string, rest: string)
    requires (forall i | 0 <= i < |name| :: NameChar(name[i])) && (rest == "" || !NameChar(rest[0]))
    ensures NameLength(name + rest) == |name|
  {
    if name == "" {
      assert name + rest == rest;
    } else {
      assert (name + rest)[1..] == name[1..] + rest;
      CountName(name[1..], rest);
    }
  }

  /** A name between braces stands for its value, nothing if unset, and expansion goes on behind it. */
  lemma {:induction false} BracedVariable(env: Env, name: string, rest: string)
    requires name != "" && '}' !in name
    ensures ExpandFrom(env, "${" + (name + ("}" + rest)))
         == (if name in env.vars then env.vars[name] else "") + ExpandFrom(env, rest)
  {
    hide Dollar;
    var tail := name + ("}" + rest);
    var s := "${" + tail;
    assert s[1..] == "{" + tail;
    DollarBrace(env, name, rest);
  }

  lemma {:induction false} DollarBrace(env: Env, name: string, rest: string)
    requires name != "" && '}' !in name
    ensures Dollar(env, "{" + (name + ("}" + rest))) == (Substitute(env, name), rest)
  {
    var tail := name + ("}" + rest);
    CountBraced(name, rest);
    assert ("{" + tail)[1..] == tail;
    assert tail[..|name|] == name && tail[|name| + 1..] == rest;
  }

  /** A bare name runs as far as it can. */
  lemma {:induction false} BareVariable(env: Env, name: string, rest: string)
    requires name != "" && (forall i | 0 <= i < |name| :: NameChar(name[i])) && (rest == "" || !NameChar(rest[0]))
    ensures ExpandFrom(env, "$" + (name + rest))
         == (if name in env.vars then env.vars[name] else "") + ExpandFrom(env, rest)
  {
    var tail := name + rest;
    CountName(name, rest);
    assert ("$" + tail)[1..] == tail;
    assert NameChar(name[0]) && tail[0] == name[0];
    assert tail[..|name|] == name && tail[|name|..] == rest;
  }

  /** `$?` is the status of the last command. */
  lemma {:induction false} StatusVariable(env: Env, rest: string)
    ensures ExpandFrom(env, "$?" + rest) == env.status + ExpandFrom(env, rest)
  {
    assert ("$?" + rest)[1..] == "?" + rest && ("?" + rest)[1..] == rest;
  }

  /** Letters, digits and the underscore make names. */
  lemma {:induction false} NameCharIs(c: char)
    ensures NameChar(c) <==>
              var n := c as nat; 48 <= n <= 57 || 65 <= n <= 90 || n == 95 || 97 <= n <= 122
  {
  }

  /** A dollar sign that no name, brace or question mark follows stands for itself. */
  lemma {:induction false} DollarIsLiteral(env: Env, rest: string)
    requires rest == "" || (!NameChar(rest[0]) && rest[0] != '{' && rest[0] != '?')
    ensures ExpandFrom(env, "$" + rest) == "$" + ExpandFrom(env, rest)
  {
    assert ("$" + rest)[1..] == rest;
    if rest != "" {
      assert NameLength(rest) == 0 && rest[..0] == "" && rest[0..] == rest;
    }
  }

  /** A brace that is not closed takes the rest for the name; an empty name stands for a dollar sign. */
  lemma {:induction false} UnclosedBrace(env: Env, name: string)
    requires '}' !in name
    ensures ExpandFrom(env, "${" + name)
         == if name == "" then "$" else if name in env.vars then env.vars[name] else ""
  {
    var s := "${" + name;
    assert s[1..] == "{" + name && s[1..][1..] == name && name + "" == name;
    CountUnclosed(name);
    assert name[..|name|] == name;
  }

  lemma {:induction false} CountUnclosed(name: string)
    requires '}' !in name
    ensures BraceLength(name) == |name|
  {
    if name != "" {
      CountUnclosed(name[1..]);
    }
  }

  lemma {:induction false} EmptyBraces(env: Env, rest: string)
    ensures ExpandFrom(env, "${}" + rest) == "$" + ExpandFrom(env, rest)
  {
    var s := "${}" + rest;
    assert s[1..] == "{}" + rest && s[1..][1..] == "}" + rest && ("}" + rest)[1..] == rest;
    assert BraceLength("}" + rest) == 0 && ("}" + rest)[..0] == "";
  }

  /** Outside variables characters are kept, and a protected one loses its mark. */
  lemma {:induction false} OtherCharacters(env: Env, c: char, rest: string)
    ensures c != '$' && c != '\U{1f}' ==> ExpandFrom(env, [c] + rest) == [c] + ExpandFrom(env, rest)
    ensures ExpandFrom(env, ['\U{1f}', c] + rest) == [c] + ExpandFrom(env, rest)
  {
    assert ([c] + rest)[1..] == rest && (['\U{1f}', c] + rest)[2..] == rest;
  }

  /** A tilde alone or before a slash is the home directory, the root if there is none; any other is kept. */
  lemma {:induction false} TildeIsHome(env: Env, rest: string)
    ensures var home := if "HOME" in env.vars then env.vars["HOME"] else "/";
            && Expand(env, "~") == home && Expand(env, "~/" + rest) == home + ExpandFrom(env, "/" + rest)
    ensures rest != "" && rest[0] != '/' ==> Expand(env, "~" + rest) == ExpandFrom(env, "~" + rest)
    ensures rest == "" || rest[0] != '~' ==> Expand(env, rest) == ExpandFrom(env, rest)
  {
    assert "~"[1..] == "" && ("~/" + rest)[1..] == "/" + rest;
    assert (if "HOME" in env.vars then env.vars["HOME"] else "/") + "" == Home(env);
    assert rest != "" ==> ("~" + rest)[1] == rest[0];
  }
}
