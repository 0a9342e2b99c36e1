/** How a command line may be written. A line is laid out from lexemes and gaps: words in any mixture of
    bare, escaped and quoted pieces, operators, and redirections with or without a descriptor. The
    tokenizer accepts exactly the lines that can be laid out, and reads the laid-out tokens. */
module ShellLayout {

  import opened Common
  import opened Shell
  import opened ShellProofs

  // ---- Words ----

  /** A character between double quotes. */
  datatype Inner = Raw(c: char) | Escaped(c: char)

  /** A piece of a word: a bare character, an escaped one, or a quoted text. */
  datatype Piece = Bare(c: char) | Slashed(c: char) | Singly(text: string) | Doubly(body: seq<Inner>)

  predicate Special(c: char) { Whitespace(c) || c in {'\'', '"', '\\', ';', '|', '&', '<', '>'} }

  predicate ProperInner(i: Inner) { i.Raw? ==> i.c != '"' && i.c != '\\' }

  predicate ProperPiece(p: Piece) {
    match p
    case Bare(c) => !Special(c)
    case Slashed(_) => true
    case Singly(text) => '\'' !in text
    case Doubly(body) => forall i | 0 <= i < |body| :: ProperInner(body[i])
  }

  predicate Proper(ps: seq<Piece>) { forall i | 0 <= i < |ps| :: ProperPiece(ps[i]) }

  function InnerText(i: Inner): string { if i.Raw? then [i.c] else ['\\', i.c] }

  function InnerWord(i: Inner): string { if i.Raw? then [i.c] else Protect([i.c]) }

  function BodyText(body: seq<Inner>): string {
    if body == [] then "" else BodyText(body[..|body| - 1]) + InnerText(body[|body| - 1])
  }

  function BodyWord(body: seq<Inner>): string {
    if body == [] then "" else BodyWord(body[..|body| - 1]) + InnerWord(body[|body| - 1])
  }

  function PieceText(p: Piece): string {
    match p
    case Bare(c) => [c]
    case Slashed(c) => ['\\', c]
    case Singly(text) => "'" + (text + "'")
    case Doubly(body) => "\"" + (BodyText(body) + "\"")
  }

  /** What the piece adds to the word: quoted dollar signs and tildes are protected from expansion, except
      raw ones between double quotes. */
  function PieceWord(p: Piece): string {
    match p
    case Bare(c) => [c]
    case Slashed(c) => Protect([c])
    case Singly(text) => Protect(text)
    case Doubly(body) => BodyWord(body)
  }

  function Text(ps: seq<Piece>): string {
    if ps == [] then "" else Text(ps[..|ps| - 1]) + PieceText(ps[|ps| - 1])
  }

  function Meaning(ps: seq<Piece>): string {
    if ps == [] then "" else Meaning(ps[..|ps| - 1]) + PieceWord(ps[|ps| - 1])
  }

  /** The characters that are white space: those of the Unicode property White_Space. */
  lemma {:induction false} WhiteSpaceIs(c: char)
    ensures Whitespace(c) <==>
              (c as nat) in {9, 10, 11, 12, 13, 32, 0x85, 0xA0, 0x1680, 0x2000, 0x2001, 0x2002, 0x2003, 0x2004, 0x2005,
                             0x2006, 0x2007, 0x2008, 0x2009, 0x200A, 0x2028, 0x2029, 0x202F, 0x205F, 0x3000}
  {
  }

  // ---- Lines ----

  datatype Lexeme =
    | Plainly(word: seq<Piece>)
    | Sign(op: Token)
    | Redirection(fd: seq<Piece>, kind: RedirKind)
    | Duplication(fd: seq<Piece>, target: string)

  /** A lexeme and the white space before it. */
  datatype Item = Item(gap: string, lexeme: Lexeme)

  /** A line: lexemes, and white space at the end. */
  datatype Layout = Layout(items: seq<Item>, end: string)

  predicate Number(w: string) { w != "" && AllDigits(w) }

  predicate Descriptor(ps: seq<Piece>) {
    ps != [] ==> Proper(ps) && Number(Meaning(ps)) && Value(Meaning(ps)) <= 255
  }

  predicate ProperLexeme(l: Lexeme) {
    match l
    case Plainly(ps) => ps != [] && Proper(ps)
    case Sign(op) => !op.Word? && !op.Redirect? && !op.Dup?
    case Redirection(fd, _) => Descriptor(fd)
    case Duplication(fd, target) => Descriptor(fd) && Number(target) && Value(target) <= 255
  }

  function SignText(op: Token): string {
    match op
    case Pipe => "|"
    case Semi => ";"
    case AndIf => "&&"
    case OrIf => "||"
    case Background => "&"
    case _ => ""
  }

  function LexemeText(l: Lexeme): string {
    match l
    case Plainly(ps) => Text(ps)
    case Sign(op) => SignText(op)
    case Redirection(fd, kind) => Text(fd) + RedirText(kind)
    case Duplication(fd, target) => Text(fd) + (">&" + target)
  }

  /** The descriptor that is written, or standard input for `<` and standard output for the others. */
  function FdOf(fd: seq<Piece>, kind: RedirKind): byte
    requires Descriptor(fd)
  {
    if fd != [] then Value(Meaning(fd)) else if kind.In? then 0 else 1
  }

  function TokenOf(l: Lexeme): Token
    requires ProperLexeme(l)
  {
    match l
    case Plainly(ps) => Word(Meaning(ps))
    case Sign(op) => op
    case Redirection(fd, kind) => Redirect(FdOf(fd, kind), kind)
    case Duplication(fd, target) => Dup(FdOf(fd, RedirKind.Out), Value(target))
  }

  predicate Blank(gap: string) { forall i | 0 <= i < |gap| :: Whitespace(gap[i]) }

  function LineText(items: seq<Item>, end: string): string {
    if items == [] then end else items[0].gap + (LexemeText(items[0].lexeme) + LineText(items[1..], end))
  }

  /** The longest operator wins, so some lexemes must not be followed by certain characters. */
  predicate EndsBefore(l: Lexeme, rest: string) {
    rest != "" ==>
      match l
      case Plainly(_) => true
      case Sign(op) => (op.Pipe? ==> rest[0] != '|') && (op.Background? ==> rest[0] != '&')
      case Redirection(_, kind) => kind.Out? ==> rest[0] != '>' && rest[0] != '&'
      case Duplication(_, _) => !Digit(rest[0])
  }

  /** Whether `l` may stand right behind the word `pending` without a gap: another word or a descriptor would
      run into it, and a number would become the descriptor. */
  predicate Abuts(pending: Option<string>, l: Lexeme) {
    pending.Some? ==>
      match l
      case Plainly(_) => false
      case Sign(_) => true
      case Redirection(fd, _) => fd == [] && !Number(pending.value)
      case Duplication(fd, _) => fd == [] && !Number(pending.value)
  }

  function PendingAfter(l: Lexeme): Option<string> {
    if l.Plainly? then Some(Meaning(l.word)) else None
  }

  /** The items and the end are a proper layout behind `pending`. */
  predicate LaidOut(pending: Option<string>, items: seq<Item>, end: string)
    decreases |items|
  {
    if items == [] then Blank(end)
    else
      && Blank(items[0].gap) && ProperLexeme(items[0].lexeme)
      && (items[0].gap == "" ==> Abuts(pending, items[0].lexeme))
      && EndsBefore(items[0].lexeme, LineText(items[1..], end))
      && LaidOut(PendingAfter(items[0].lexeme), items[1..], end)
  }

  function Tokens(pending: Option<string>, items: seq<Item>, end: string): seq<Token>
    requires LaidOut(pending, items, end)
    decreases |items|
  {
    if items == [] then []
    else [TokenOf(items[0].lexeme)] + Tokens(PendingAfter(items[0].lexeme), items[1..], end)
  }

  // ---- Reading words ----

  lemma {:induction false} ProtectOne(c: char)
    ensures Protect([c]) == Guarded(c)
  {
    assert [c][1..] == "" && Guarded(c) + "" == Guarded(c);
  }

  lemma {:induction false} ReadInner(x: Lexer, i: Inner, rest: string)
    requires x.mode == Double && x.started && ProperInner(i)
    ensures LexFrom(x, InnerText(i) + rest) == LexFrom(x.(cur := x.cur + InnerWord(i)), rest)
  {
    hide LexFrom, Guarded, Protect;
    ProtectOne(i.c);
    var s := InnerText(i) + rest;
    assert i.Raw? ==> s[1..] == rest;
    assert i.Escaped? ==> s[1..][1..] == rest;
    Advance(x, s, x.(cur := x.cur + InnerWord(i)), rest);
  }

  lemma {:induction false} ReadBody(x: Lexer, body: seq<Inner>, rest: string)
    requires x.mode == Double && x.started && forall i | 0 <= i < |body| :: ProperInner(body[i])
    ensures LexFrom(x, BodyText(body) + rest) == LexFrom(x.(cur := x.cur + BodyWord(body)), rest)
    decreases |body|
  {
    hide LexFrom, InnerText, InnerWord, ProperInner;
    if body == [] {
      assert BodyText(body) + rest == rest && x.cur + BodyWord(body) == x.cur;
    } else {
      var n := |body| - 1;
      var init, last := body[..n], body[n];
      ReadBody(x, init, InnerText(last) + rest);
      assert BodyText(body) + rest == BodyText(init) + (InnerText(last) + rest);
      var y := x.(cur := x.cur + BodyWord(init));
      ReadInner(y, last, rest);
      assert y.cur + InnerWord(last) == x.cur + BodyWord(body);
    }
  }

  lemma {:induction false} ReadDoubly(x: Lexer, body: seq<Inner>, rest: string)
    requires x.mode == Plain && ProperPiece(Doubly(body))
    ensures LexFrom(x, PieceText(Doubly(body)) + rest)
         == LexFrom(x.(cur := x.cur + BodyWord(body), started := true), rest)
  {
    hide LexFrom, BodyText, BodyWord;
    var y, tail := x.(mode := Double, started := true), BodyText(body) + ("\"" + rest);
    assert PieceText(Doubly(body)) + rest == "\"" + tail && ("\"" + tail)[1..] == tail;
    Advance(x, "\"" + tail, y, tail);
    ReadBody(y, body, "\"" + rest);
    var z := y.(cur := x.cur + BodyWord(body));
    assert ("\"" + rest)[1..] == rest;
    Advance(z, "\"" + rest, z.(mode := Plain), rest);
  }

  lemma {:induction false} ReadSingly(x: Lexer, text: string, rest: string)
    requires x.mode == Plain && '\'' !in text
    ensures LexFrom(x, PieceText(Singly(text)) + rest)
         == LexFrom(x.(cur := x.cur + Protect(text), started := true), rest)
  {
    hide LexFrom, Protect;
    var y, tail := x.(mode := Single, started := true), text + ("'" + rest);
    assert PieceText(Singly(text)) + rest == "'" + tail && ("'" + tail)[1..] == tail;
    Advance(x, "'" + tail, y, tail);
    ReadSingleQuoted(y, text, rest);
  }

  lemma {:induction false} ReadBare(x: Lexer, c: char, rest: string)
    requires x.mode == Plain && !Special(c)
    ensures LexFrom(x, [c] + rest) == LexFrom(x.(cur := x.cur + [c], started := true), rest)
  {
    hide LexFrom, Whitespace;
    assert ([c] + rest)[1..] == rest;
    Advance(x, [c] + rest, x.(cur := x.cur + [c], started := true), rest);
  }

  lemma {:induction false} ReadPiece(x: Lexer, p: Piece, rest: string)
    requires x.mode == Plain && ProperPiece(p)
    ensures LexFrom(x, PieceText(p) + rest) == LexFrom(x.(cur := x.cur + PieceWord(p), started := true), rest)
  {
    hide LexFrom, BodyText, BodyWord, Protect;
    match p
    case Bare(c) => ReadBare(x, c, rest);
    case Slashed(c) =>
      ProtectOne(c);
      ReadEscape(x, c, rest);
    case Singly(text) => ReadSingly(x, text, rest);
    case Doubly(body) => ReadDoubly(x, body, rest);
  }

  /** A word, or a piece of it, adds its meaning to the pending word. */
  lemma {:induction false} ReadPieces(x: Lexer, ps: seq<Piece>, rest: string)
    requires x.mode == Plain && Proper(ps)
    ensures LexFrom(x, Text(ps) + rest)
         == LexFrom(x.(cur := x.cur + Meaning(ps), started := x.started || ps != []), rest)
    decreases |ps|
  {
    hide LexFrom, ProperPiece, PieceText, PieceWord;
    if ps == [] {
      assert Text(ps) + rest == rest && x.cur + Meaning(ps) == x.cur;
    } else {
      var n := |ps| - 1;
      var init, last := ps[..n], ps[n];
      ReadPieces(x, init, PieceText(last) + rest);
      assert Text(ps) + rest == Text(init) + (PieceText(last) + rest);
      var y := x.(cur := x.cur + Meaning(init), started := x.started || init != []);
      ReadPiece(y, last, rest);
      assert y.cur + PieceWord(last) == x.cur + Meaning(ps);
    }
  }

  // ---- Reading lexemes ----

  /** The tokenizer behind `out`, with or without a pending word. */
  function At(out: seq<Token>, pending: Option<string>): Lexer {
    Lexer(out, if pending.Some? then pending.value else "", pending.Some?, Plain)
  }

  function Flushed(out: seq<Token>, pending: Option<string>): seq<Token> {
    if pending.Some? then out + [Word(pending.value)] else out
  }

  lemma {:induction false} ReadGap(out: seq<Token>, pending: Option<string>, gap: string, rest: string)
    requires Blank(gap)
    ensures LexFrom(At(out, pending), gap + rest)
         == if gap == "" then LexFrom(At(out, pending), rest) else LexFrom(At(Flushed(out, pending), None), rest)
    decreases |gap|
  {
    hide LexFrom, Whitespace;
    if gap == "" {
      assert gap + rest == rest;
    } else {
      var x, y := At(out, pending), At(Flushed(out, pending), None);
      ReadWhite(x, gap[0], gap[1..] + rest);
      assert gap + rest == [gap[0]] + (gap[1..] + rest);
      ReadGap(Flushed(out, pending), None, gap[1..], rest);
    }
  }

  lemma {:induction false} ReadWhite(x: Lexer, c: char, rest: string)
    requires x.mode == Plain && Whitespace(c)
    ensures LexFrom(x, [c] + rest) == LexFrom(Flush(x), rest)
  {
    hide LexFrom;
    assert ([c] + rest)[1..] == rest;
    Advance(x, [c] + rest, Flush(x), rest);
  }

  lemma {:induction false} ReadSign(out: seq<Token>, pending: Option<string>, op: Token, rest: string)
    requires ProperLexeme(Sign(op)) && EndsBefore(Sign(op), rest)
    ensures LexFrom(At(out, pending), SignText(op) + rest)
         == LexFrom(At(Flushed(out, pending) + [op], None), rest)
  {
    hide LexFrom, RedirectRest, Guarded, AllDigits;
    var s := SignText(op) + rest;
    assert |SignText(op)| == 1 ==> s[1..] == rest;
    assert |SignText(op)| == 2 ==> s[1..][1..] == rest;
    Advance(At(out, pending), s, At(Flushed(out, pending) + [op], None), rest);
  }

  /** The pending text is the descriptor, or there is none. */
  predicate FdFits(pending: Option<string>, written: bool) {
    if written then pending.Some? && Number(pending.value) && Value(pending.value) <= 255
    else pending.Some? ==> !Number(pending.value)
  }

  function FdPending(pending: Option<string>, written: bool, kind: RedirKind): byte
    requires FdFits(pending, written)
  {
    if written then Value(pending.value) else if kind.In? then 0 else 1
  }

  function Before(out: seq<Token>, pending: Option<string>, written: bool): seq<Token> {
    if written then out else Flushed(out, pending)
  }

  lemma {:induction false} ArrowStep(x: Lexer, ch: char, s: string)
    requires x.mode == Plain && (ch == '<' || ch == '>')
    ensures Step(x, [ch] + s) == RedirectRest(x, ch, s)
  {
    hide RedirectRest;
    assert ([ch] + s)[1..] == s;
  }

  lemma {:induction false} TargetRead(target: string, rest: string)
    requires Number(target) && (rest != "" ==> !Digit(rest[0]))
    ensures var s := "&" + (target + rest);
            && s[0] == '&' && s[1..] == target + rest && LeadingDigits(s[1..]) == |target|
            && s[1..][..|target|] == target && s[1..][|target|..] == rest
  {
    hide LeadingDigits;
    CountDigits(target, rest);
    assert ("&" + (target + rest))[1..] == target + rest;
  }

  lemma {:induction false} ReadArrow(out: seq<Token>, pending: Option<string>, written: bool, kind: RedirKind,
                                     rest: string)
    requires FdFits(pending, written) && EndsBefore(Redirection([], kind), rest)
    ensures LexFrom(At(out, pending), RedirText(kind) + rest)
         == LexFrom(At(Before(out, pending, written) + [Redirect(FdPending(pending, written, kind), kind)], None), rest)
  {
    hide LexFrom, Value, Step, LeadingDigits;
    var s := RedirText(kind) + rest;
    var after := if kind.Append? then ">" + rest else rest;
    assert s == [s[0]] + after && (">" + rest)[1..] == rest;
    ArrowStep(At(out, pending), s[0], after);
    Advance(At(out, pending), s,
            At(Before(out, pending, written) + [Redirect(FdPending(pending, written, kind), kind)], None), rest);
  }

  lemma {:induction false} ReadDuplicate(out: seq<Token>, pending: Option<string>, written: bool, target: string,
                                         rest: string)
    requires FdFits(pending, written) && Number(target) && Value(target) <= 255 && (rest != "" ==> !Digit(rest[0]))
    ensures LexFrom(At(out, pending), ">&" + (target + rest))
         == LexFrom(At(Before(out, pending, written) +
                       [Dup(FdPending(pending, written, RedirKind.Out), Value(target))], None), rest)
  {
    hide LexFrom, Value, LeadingDigits, Step;
    var s := ">&" + (target + rest);
    ArrowStep(At(out, pending), '>', "&" + (target + rest));
    TargetRead(target, rest);
    assert s == ['>'] + ("&" + (target + rest));
    Advance(At(out, pending), s,
            At(Before(out, pending, written) +
               [Dup(FdPending(pending, written, RedirKind.Out), Value(target))], None), rest);
  }

  lemma {:induction false} ReadWordLexeme(out: seq<Token>, ps: seq<Piece>, rest: string)
    requires Proper(ps) && ps != []
    ensures LexFrom(At(out, None), Text(ps) + rest) == LexFrom(At(out, Some(Meaning(ps))), rest)
  {
    hide LexFrom, Text, Meaning;
    ReadPieces(At(out, None), ps, rest);
    assert "" + Meaning(ps) == Meaning(ps);
  }

  lemma {:induction false} ReadRedirection(out: seq<Token>, pending: Option<string>, fd: seq<Piece>,
                                           kind: RedirKind, rest: string)
    requires Descriptor(fd) && Abuts(pending, Redirection(fd, kind)) && EndsBefore(Redirection(fd, kind), rest)
    ensures LexFrom(At(out, pending), (Text(fd) + RedirText(kind)) + rest)
         == LexFrom(At(Flushed(out, pending) + [Redirect(FdOf(fd, kind), kind)], None), rest)
  {
    hide LexFrom, Text, Meaning, Value, AllDigits;
    ReadDescriptor(out, pending, fd, RedirText(kind) + rest);
    assert (Text(fd) + RedirText(kind)) + rest == Text(fd) + (RedirText(kind) + rest);
    ReadArrow(out, if fd == [] then pending else Some(Meaning(fd)), fd != [], kind, rest);
  }

  lemma {:induction false} ReadDuplication(out: seq<Token>, pending: Option<string>, fd: seq<Piece>,
                                           target: string, rest: string)
    requires Descriptor(fd) && Number(target) && Value(target) <= 255
    requires Abuts(pending, Duplication(fd, target)) && EndsBefore(Duplication(fd, target), rest)
    ensures LexFrom(At(out, pending), (Text(fd) + (">&" + target)) + rest)
         == LexFrom(At(Flushed(out, pending) + [Dup(FdOf(fd, RedirKind.Out), Value(target))], None), rest)
  {
    hide LexFrom, Text, Meaning, Value, AllDigits, Digit;
    ReadDescriptor(out, pending, fd, ">&" + (target + rest));
    assert (Text(fd) + (">&" + target)) + rest == Text(fd) + (">&" + (target + rest));
    ReadDuplicate(out, if fd == [] then pending else Some(Meaning(fd)), fd != [], target, rest);
  }

  /** One lexeme, right behind `pending`. */
  lemma {:induction false} ReadLexeme(out: seq<Token>, pending: Option<string>, l: Lexeme, rest: string)
    requires ProperLexeme(l) && Abuts(pending, l) && EndsBefore(l, rest)
    ensures LexFrom(At(out, pending), LexemeText(l) + rest)
         == if l.Plainly? then LexFrom(At(out, PendingAfter(l)), rest)
            else LexFrom(At(Flushed(out, pending) + [TokenOf(l)], None), rest)
  {
    hide LexFrom, Text, Meaning, Value, Digit, At, Flushed, Descriptor, RedirText;
    match l
    case Plainly(ps) => ReadWordLexeme(out, ps, rest);
    case Sign(op) => ReadSign(out, pending, op, rest);
    case Redirection(fd, kind) => ReadRedirection(out, pending, fd, kind, rest);
    case Duplication(fd, target) => ReadDuplication(out, pending, fd, target, rest);
  }

  lemma {:induction false} ReadDescriptor(out: seq<Token>, pending: Option<string>, fd: seq<Piece>, rest: string)
    requires Descriptor(fd) && (pending.Some? ==> fd == [])
    ensures LexFrom(At(out, pending), Text(fd) + rest)
         == LexFrom(At(out, if fd == [] then pending else Some(Meaning(fd))), rest)
  {
    hide LexFrom, Value;
    if fd == [] {
      assert Text(fd) + rest == rest;
    } else {
      ReadPieces(At(out, pending), fd, rest);
      assert "" + Meaning(fd) == Meaning(fd);
    }
  }

  lemma {:induction false} ReadEnd(out: seq<Token>, pending: Option<string>, end: string)
    requires Blank(end)
    ensures LexFrom(At(out, pending), end) == Ok(Flushed(out, pending))
  {
    assert end + "" == end;
    ReadGap(out, pending, end, "");
  }

  /** One item. */
  lemma {:induction false} ReadItem(out: seq<Token>, pending: Option<string>, item: Item, rest: string)
    requires Blank(item.gap) && ProperLexeme(item.lexeme) && (item.gap == "" ==> Abuts(pending, item.lexeme))
    requires EndsBefore(item.lexeme, rest)
    ensures var l := item.lexeme;
            LexFrom(At(out, pending), item.gap + (LexemeText(l) + rest))
            == if l.Plainly? then LexFrom(At(Flushed(out, pending), PendingAfter(l)), rest)
               else LexFrom(At(Flushed(out, pending) + [TokenOf(l)], None), rest)
  {
    hide LexFrom, ProperLexeme, LexemeText, TokenOf, EndsBefore, Abuts, PendingAfter, Blank, At;
    var l := item.lexeme;
    ReadGap(out, pending, item.gap, LexemeText(l) + rest);
    if item.gap == "" {
      ReadLexeme(out, pending, l, rest);
      if l.Plainly? {
        PlainNeedsGap(pending, l);
      }
    } else {
      NothingAbuts(l);
      ReadLexeme(Flushed(out, pending), None, l, rest);
    }
  }

  lemma {:induction false} ReadLine(out: seq<Token>, pending: Option<string>, items: seq<Item>, end: string)
    requires LaidOut(pending, items, end)
    ensures LexFrom(At(out, pending), LineText(items, end)) == Ok(Flushed(out, pending) + Tokens(pending, items, end))
    decreases |items|
  {
    hide LexFrom, ProperLexeme, LexemeText, TokenOf, EndsBefore, Abuts, Blank, At;
    if items == [] {
      ReadEnd(out, pending, end);
      assert Flushed(out, pending) + [] == Flushed(out, pending);
    } else {
      var l, before := items[0].lexeme, Flushed(out, pending);
      var more := Tokens(PendingAfter(l), items[1..], end);
      ReadItem(out, pending, items[0], LineText(items[1..], end));
      PendingToken(l);
      ReadLine(if l.Plainly? then before else before + [TokenOf(l)], PendingAfter(l), items[1..], end);
      assert (before + [TokenOf(l)]) + more == before + ([TokenOf(l)] + more);
    }
  }

  lemma {:induction false} NothingAbuts(l: Lexeme)
    ensures Abuts(None, l)
  {
  }

  lemma {:induction false} PlainNeedsGap(pending: Option<string>, l: Lexeme)
    requires Abuts(pending, l) && l.Plainly?
    ensures pending.None?
  {
  }

  lemma {:induction false} PendingToken(l: Lexeme)
    requires ProperLexeme(l)
    ensures l.Plainly? ==> TokenOf(l) == Word(PendingAfter(l).value)
  {
  }

  /** A line that is laid out is read as its lexemes. */
  lemma {:induction false} LaidOutIsRead(items: seq<Item>, end: string)
    requires LaidOut(None, items, end)
    ensures Lex(LineText(items, end)) == Ok(Tokens(None, items, end))
  {
    hide LexFrom;
    ReadLine([], None, items, end);
    assert [] + Tokens(None, items, end) == Tokens(None, items, end);
  }

  // ---- What is not a line ----

  lemma {:induction false} TrailingBackslash(x: Lexer)
    requires x.mode == Plain
    ensures LexFrom(x, "\\") == Err(UnfinishedEscape)
  {
  }

  lemma {:induction false} BadDescriptor(x: Lexer, ch: char, rest: string)
    requires x.mode == Plain && x.started && Number(x.cur) && Value(x.cur) > 255 && (ch == '<' || ch == '>')
    ensures LexFrom(x, [ch] + rest) == Err(BadRedirectionFd)
  {
    assert ([ch] + rest)[1..] == rest;
  }

  lemma {:induction false} MissingTarget(x: Lexer, rest: string)
    requires x.mode == Plain && (x.started && Number(x.cur) ==> Value(x.cur) <= 255)
    requires rest == "" || !Digit(rest[0])
    ensures LexFrom(x, ">&" + rest) == Err(ExpectedTargetFd)
  {
    hide Value;
    assert (">&" + rest)[1..] == "&" + rest && ("&" + rest)[1..] == rest;
    assert LeadingDigits(rest) == 0;
  }

  lemma {:induction false} BadTarget(x: Lexer, target: string, rest: string)
    requires x.mode == Plain && (x.started && Number(x.cur) ==> Value(x.cur) <= 255)
    requires Number(target) && Value(target) > 255 && (rest == "" || !Digit(rest[0]))
    ensures LexFrom(x, ">&" + (target + rest)) == Err(BadTargetFd)
  {
    hide Value, LeadingDigits, LexFrom, Step;
    var s := ">&" + (target + rest);
    ArrowStep(x, '>', "&" + (target + rest));
    TargetRead(target, rest);
    assert s == ['>'] + ("&" + (target + rest));
    Fails(x, s);
  }

  lemma {:induction false} Fails(x: Lexer, s: string)
    requires s != "" && Step(x, s).Err?
    ensures LexFrom(x, s) == Err(Step(x, s).error)
  {
  }

  lemma {:induction false} UnclosedSingle(x: Lexer, text: string)
    requires x.mode == Plain && '\'' !in text
    ensures LexFrom(x, "'" + text) == Err(UnterminatedSingleQuote)
  {
    hide Guarded;
    assert ("'" + text)[1..] == text;
    StaysSingle(x.(mode := Single, started := true), text);
  }

  lemma {:induction false} StaysSingle(x: Lexer, text: string)
    requires x.mode == Single && '\'' !in text
    ensures LexFrom(x, text) == Err(UnterminatedSingleQuote)
    decreases |text|
  {
    hide Guarded;
    if text != "" {
      assert text[0] in text;
      StaysSingle(x.(cur := x.cur + Guarded(text[0])), text[1..]);
    }
  }

  lemma {:induction false} UnclosedDouble(x: Lexer, body: seq<Inner>)
    requires x.mode == Plain && ProperPiece(Doubly(body))
    ensures LexFrom(x, "\"" + BodyText(body)) == Err(UnterminatedDoubleQuote)
    ensures LexFrom(x, "\"" + (BodyText(body) + "\\")) == Err(UnfinishedEscapeInDoubleQuotes)
  {
    hide BodyText, BodyWord;
    var y, t := x.(mode := Double, started := true), BodyText(body);
    assert ("\"" + t)[1..] == t && ("\"" + (t + "\\"))[1..] == t + "\\" && t + "" == t;
    ReadBody(y, body, "");
    ReadBody(y, body, "\\");
  }

  // ---- Nothing else is a line ----

  lemma {:induction false} SplitSingle(s: string) returns (text: string, rest: string)
    ensures s == text + rest && '\'' !in text && (rest != "" ==> rest[0] == '\'')
    decreases |s|
  {
    if s == "" || s[0] == '\'' {
      text, rest := "", s;
    } else {
      text, rest := SplitSingle(s[1..]);
      text := [s[0]] + text;
    }
  }

  lemma {:induction false} BodyFront(i: Inner, body: seq<Inner>)
    ensures BodyText([i] + body) == InnerText(i) + BodyText(body)
    decreases |body|
  {
    hide InnerText;
    if body == [] {
      assert [i] + body == [i] && [i][..0] == [] && "" + InnerText(i) == InnerText(i) + "";
    } else {
      var n := |body| - 1;
      var all := [i] + body;
      assert all[..n + 1] == [i] + body[..n] && all[n + 1] == body[n];
      BodyFront(i, body[..n]);
      assert (InnerText(i) + BodyText(body[..n])) + InnerText(body[n])
          == InnerText(i) + (BodyText(body[..n]) + InnerText(body[n]));
    }
  }

  lemma {:induction false} SplitDouble(s: string) returns (body: seq<Inner>, rest: string)
    ensures s == BodyText(body) + rest && ProperPiece(Doubly(body))
    ensures rest == "" || rest == "\\" || rest[0] == '"'
    decreases |s|
  {
    hide BodyText;
    if s == "" || s == "\\" || s[0] == '"' {
      body, rest := [], s;
      assert BodyText([]) == "" by { NoBody(); }
    } else {
      var i := if s[0] == '\\' then Escaped(s[1]) else Raw(s[0]);
      var tail;
      tail, rest := SplitDouble(s[|InnerText(i)|..]);
      BodyFront(i, tail);
      body := [i] + tail;
      assert s == InnerText(i) + s[|InnerText(i)|..];
    }
  }

  lemma {:induction false} NoBody()
    ensures BodyText([]) == ""
  {
  }

  /** The tokenizer in the middle of a word. */
  function Within(out: seq<Token>, ps: seq<Piece>): Lexer { Lexer(out, Meaning(ps), ps != [], Plain) }

  function Pending(ps: seq<Piece>): Option<string> { if ps == [] then None else Some(Meaning(ps)) }

  function WordItems(ps: seq<Piece>): seq<Item> { if ps == [] then [] else [Item("", Plainly(ps))] }

  /** The text behind a word under way can be laid out together with it. */
  ghost predicate Readable(ps: seq<Piece>, s: string) {
    exists l: Layout :: LaidOut(None, l.items, l.end) && LineText(l.items, l.end) == Text(ps) + s
  }

  lemma {:induction false} GapFirst(c: char, items: seq<Item>, end: string, pending: Option<string>) returns (l: Layout)
    requires Whitespace(c) && LaidOut(None, items, end)
    ensures LaidOut(pending, l.items, l.end) && LineText(l.items, l.end) == [c] + LineText(items, end)
  {
    hide Whitespace, ProperLexeme, LexemeText, Abuts, EndsBefore;
    if items == [] {
      l := Layout([], [c] + end);
    } else {
      var first := items[0].(gap := [c] + items[0].gap);
      l := Layout([first] + items[1..], end);
      assert l.items[1..] == items[1..];
    }
  }

  /** A lexeme behind a word under way, in front of a layout. */
  lemma {:induction false} LexemeFirst(ps: seq<Piece>, l: Lexeme, items: seq<Item>, end: string)
    requires Proper(ps) && LaidOut(None, items, end) && !l.Plainly? && ProperLexeme(l)
    requires Abuts(Pending(ps), l) && EndsBefore(l, LineText(items, end))
    ensures Readable(ps, LexemeText(l) + LineText(items, end))
  {
    hide Text, Meaning, LexemeText, EndsBefore, ProperPiece;
    var tail := [Item("", l)] + items;
    assert tail[1..] == items && LaidOut(Pending(ps), tail, end);
    assert LineText(tail, end) == LexemeText(l) + LineText(items, end);
    WordFirst(ps, tail, end);
  }

  lemma {:induction false} WordFirst(ps: seq<Piece>, tail: seq<Item>, end: string)
    requires Proper(ps) && LaidOut(Pending(ps), tail, end)
    ensures Readable(ps, LineText(tail, end))
  {
    hide Meaning, ProperPiece;
    var all := WordItems(ps) + tail;
    if ps == [] {
      assert all == tail && Text(ps) + LineText(tail, end) == LineText(tail, end);
    } else {
      hide Text;
      assert all[1..] == tail && EndsBefore(Plainly(ps), LineText(tail, end));
      assert LineText(all, end) == Text(ps) + LineText(tail, end);
    }
    var l := Layout(all, end);
    assert LaidOut(None, l.items, l.end) && LineText(l.items, l.end) == Text(ps) + LineText(tail, end);
  }

  /** One more piece joins the word under way. */
  lemma {:induction false} PieceNext(ps: seq<Piece>, p: Piece, rest: string)
    requires Readable(ps + [p], rest)
    ensures Readable(ps, PieceText(p) + rest)
  {
    hide PieceText, LaidOut, LineText;
    assert (ps + [p])[..|ps|] == ps;
    assert (Text(ps) + PieceText(p)) + rest == Text(ps) + (PieceText(p) + rest);
  }

  /** A gap behind a word under way. */
  lemma {:induction false} GapNext(ps: seq<Piece>, c: char, rest: string)
    requires Proper(ps) && Whitespace(c) && Readable([], rest)
    ensures Readable(ps, [c] + rest)
  {
    hide Whitespace, LaidOut, LineText, Proper, Pending;
    var l: Layout :| LaidOut(None, l.items, l.end) && LineText(l.items, l.end) == Text([]) + rest;
    assert Text([]) + rest == rest;
    var m := GapFirst(c, l.items, l.end, Pending(ps));
    WordFirst(ps, m.items, m.end);
  }

  lemma {:induction false} LexemeNext(ps: seq<Piece>, l: Lexeme, rest: string)
    requires Proper(ps) && !l.Plainly? && ProperLexeme(l) && Abuts(Pending(ps), l) && EndsBefore(l, rest)
    requires Readable([], rest)
    ensures Readable(ps, LexemeText(l) + rest)
  {
    hide LaidOut, LineText, Proper, Pending, ProperLexeme, Abuts, EndsBefore, LexemeText;
    var m: Layout :| LaidOut(None, m.items, m.end) && LineText(m.items, m.end) == Text([]) + rest;
    assert Text([]) + rest == rest;
    LexemeFirst(ps, l, m.items, m.end);
  }

  lemma {:induction false} WithinIsAt(out: seq<Token>, ps: seq<Piece>)
    ensures Within(out, ps) == At(out, Pending(ps))
    ensures Flush(Within(out, ps)) == Within(Flushed(out, Pending(ps)), [])
  {
  }

  lemma {:induction false} WithinNext(out: seq<Token>, ps: seq<Piece>, p: Piece)
    ensures Within(out, ps + [p]) == Within(out, ps).(cur := Meaning(ps) + PieceWord(p), started := true)
  {
    assert (ps + [p])[..|ps|] == ps;
  }

  /** The text is accepted in the middle of a word. */
  predicate Acceptable(out: seq<Token>, ps: seq<Piece>, s: string) { LexFrom(Within(out, ps), s).Ok? }

  lemma {:induction false} PieceIsRead(out: seq<Token>, ps: seq<Piece>, p: Piece, rest: string)
    requires ProperPiece(p) && Acceptable(out, ps, PieceText(p) + rest)
    ensures Acceptable(out, ps + [p], rest)
  {
    hide LexFrom, PieceText, PieceWord, ProperPiece, Meaning;
    WithinNext(out, ps, p);
    ReadPiece(Within(out, ps), p, rest);
  }

  /** The next piece of a word, if the text begins with one. */
  lemma {:induction false} NextPiece(out: seq<Token>, ps: seq<Piece>, s: string) returns (p: Piece, rest: string)
    requires Acceptable(out, ps, s) && s != "" && (!Special(s[0]) || s[0] == '\\' || s[0] == '\'' || s[0] == '"')
    ensures ProperPiece(p) && s == PieceText(p) + rest && |rest| < |s|
  {
    hide LexFrom, Whitespace, BodyText;
    var x, c := Within(out, ps), s[0];
    assert s == [c] + s[1..];
    if c == '\\' {
      if s == "\\" {
        TrailingBackslash(x);
      }
      p, rest := Slashed(s[1]), s[2..];
    } else if c == '\'' {
      var text, r := SplitSingle(s[1..]);
      if r == "" {
        assert text + r == text;
        UnclosedSingle(x, text);
      }
      p, rest := Singly(text), r[1..];
      assert r == "'" + rest;
    } else if c == '"' {
      var body, r := SplitDouble(s[1..]);
      UnclosedDouble(x, body);
      assert r == "" ==> BodyText(body) + r == BodyText(body);
      p, rest := Doubly(body), r[1..];
      assert r == "\"" + rest;
    } else {
      p, rest := Bare(c), s[1..];
    }
  }

  function NextSign(s: string): Token
    requires s != ""
  {
    var again := |s| > 1 && s[1] == s[0];
    if s[0] == ';' then Semi
    else if s[0] == '|' then (if again then OrIf else Pipe)
    else (if again then AndIf else Background)
  }

  lemma {:induction false} SignIsRead(out: seq<Token>, ps: seq<Piece>, s: string)
    returns (out': seq<Token>, rest: string)
    requires Proper(ps) && s != "" && s[0] in {';', '|', '&'} && Acceptable(out, ps, s)
    ensures |rest| < |s| && Acceptable(out', [], rest) && (Readable([], rest) ==> Readable(ps, s))
  {
    hide LexFrom, Readable, Proper, Flushed;
    var op := NextSign(s);
    rest := s[|SignText(op)|..];
    assert s == SignText(op) + rest;
    WithinIsAt(out, ps);
    ReadSign(out, Pending(ps), op, rest);
    out' := Flushed(out, Pending(ps)) + [op];
    WithinIsAt(out', []);
    if Readable([], rest) {
      LexemeNext(ps, Sign(op), rest);
    }
  }

  function NextKind(s: string): RedirKind
    requires s != ""
  {
    if s[0] == '<' then In else if |s| > 1 && s[1] == '>' then RedirKind.Append else RedirKind.Out
  }

  /** A word under way that is a number is the descriptor of the redirection behind it. */
  lemma {:induction false} DescriptorFits(out: seq<Token>, ps: seq<Piece>, s: string) returns (written: bool)
    requires Proper(ps) && s != "" && (s[0] == '<' || s[0] == '>') && Acceptable(out, ps, s)
    ensures FdFits(Pending(ps), written) && (written ==> Descriptor(ps) && ps != [])
  {
    hide LexFrom, Value;
    written := ps != [] && Number(Meaning(ps));
    if written && Value(Meaning(ps)) > 255 {
      assert s == [s[0]] + s[1..];
      BadDescriptor(Within(out, ps), s[0], s[1..]);
    }
  }

  /** A redirection behind a word under way, which is its descriptor if it is a number. */
  lemma {:induction false} ArrowNext(ps: seq<Piece>, written: bool, l: Lexeme, text: string, rest: string)
    requires Proper(ps) && FdFits(Pending(ps), written) && (written ==> Descriptor(ps) && ps != [])
    requires l.Redirection? || l.Duplication?
    requires l.fd == (if written then ps else []) && LexemeText(l) == Text(l.fd) + text
    requires ProperLexeme(l) && EndsBefore(l, rest) && Readable([], rest)
    ensures Readable(ps, text + rest)
  {
    hide Readable, Value, Meaning, LexemeText, EndsBefore, ProperLexeme, ProperPiece, Text, AllDigits;
    NoText();
    if written {
      LexemeNext([], l, rest);
      assert (Text(ps) + text) + rest == Text(ps) + (text + rest);
      SameReadable(ps, text + rest);
    } else {
      LexemeNext(ps, l, rest);
      assert Text([]) + text == text;
    }
  }

  lemma {:induction false} NoText()
    ensures Text([]) == "" && Meaning([]) == ""
  {
  }

  lemma {:induction false} SameReadable(ps: seq<Piece>, s: string)
    requires Readable([], Text(ps) + s)
    ensures Readable(ps, s)
  {
    hide LaidOut, LineText;
    assert Text([]) + (Text(ps) + s) == Text(ps) + s;
  }

  lemma {:induction false} ArrowIsRead(out: seq<Token>, ps: seq<Piece>, s: string)
    returns (out': seq<Token>, rest: string)
    requires Proper(ps) && s != "" && (s[0] == '<' || s[0] == '>') && Acceptable(out, ps, s)
    requires !(s[0] == '>' && |s| > 1 && s[1] == '&')
    ensures |rest| < |s| && Acceptable(out', [], rest) && (Readable([], rest) ==> Readable(ps, s))
  {
    hide LexFrom, Readable, Value, Meaning, Proper, Text;
    var kind := NextKind(s);
    rest := s[|RedirText(kind)|..];
    assert s == RedirText(kind) + rest;
    var written := DescriptorFits(out, ps, s);
    WithinIsAt(out, ps);
    ReadArrow(out, Pending(ps), written, kind, rest);
    out' := Before(out, Pending(ps), written) + [Redirect(FdPending(Pending(ps), written, kind), kind)];
    WithinIsAt(out', []);
    if Readable([], rest) {
      ArrowNext(ps, written, Redirection(if written then ps else [], kind), RedirText(kind), rest);
    }
  }

  lemma {:induction false} DigitsSplit(s: string) returns (digits: string, rest: string)
    ensures s == digits + rest && AllDigits(digits) && (rest == "" || !Digit(rest[0]))
    decreases |s|
  {
    if s == "" || !Digit(s[0]) {
      digits, rest := "", s;
    } else {
      digits, rest := DigitsSplit(s[1..]);
      digits := [s[0]] + digits;
    }
  }

  lemma {:induction false} DuplicateIsRead(out: seq<Token>, ps: seq<Piece>, s: string)
    returns (out': seq<Token>, rest: string)
    requires Proper(ps) && |s| > 1 && s[0] == '>' && s[1] == '&' && Acceptable(out, ps, s)
    ensures |rest| < |s| && Acceptable(out', [], rest) && (Readable([], rest) ==> Readable(ps, s))
  {
    hide LexFrom, Readable, Value, Meaning, Proper, Text;
    var written := DescriptorFits(out, ps, s);
    var target;
    target, rest := DigitsSplit(s[2..]);
    assert s == ">&" + (target + rest);
    TargetFits(out, ps, target, rest);
    WithinIsAt(out, ps);
    ReadDuplicate(out, Pending(ps), written, target, rest);
    out' := Before(out, Pending(ps), written) + [Dup(FdPending(Pending(ps), written, RedirKind.Out), Value(target))];
    WithinIsAt(out', []);
    if Readable([], rest) {
      ArrowNext(ps, written, Duplication(if written then ps else [], target), ">&" + target, rest);
      assert (">&" + target) + rest == s;
    }
  }

  lemma {:induction false} TargetFits(out: seq<Token>, ps: seq<Piece>, target: string, rest: string)
    requires AllDigits(target) && (rest == "" || !Digit(rest[0])) && Acceptable(out, ps, ">&" + (target + rest))
    requires ps != [] && Number(Meaning(ps)) ==> Value(Meaning(ps)) <= 255
    ensures Number(target) && Value(target) <= 255
  {
    hide LexFrom, Value, Meaning, Digit;
    if target == "" {
      assert target + rest == rest;
      MissingTarget(Within(out, ps), rest);
    } else if Value(target) > 255 {
      BadTarget(Within(out, ps), target, rest);
    }
  }

  /** Whatever the tokenizer accepts can be laid out. */
  lemma {:induction false} OnlyLines(out: seq<Token>, ps: seq<Piece>, s: string)
    requires Proper(ps) && Acceptable(out, ps, s)
    ensures Readable(ps, s)
    decreases |s|
  {
    hide Acceptable, Readable, ProperPiece, PieceText, Whitespace, Text;
    if s == "" {
      WordFirst(ps, [], "");
    } else if Whitespace(s[0]) {
      GapIsRead(out, ps, s);
      OnlyLines(Flushed(out, Pending(ps)), [], s[1..]);
      GapNext(ps, s[0], s[1..]);
      assert [s[0]] + s[1..] == s;
    } else if s[0] in {';', '|', '&'} {
      var out', rest := SignIsRead(out, ps, s);
      OnlyLines(out', [], rest);
    } else if s[0] == '>' && |s| > 1 && s[1] == '&' {
      var out', rest := DuplicateIsRead(out, ps, s);
      OnlyLines(out', [], rest);
    } else if s[0] == '<' || s[0] == '>' {
      var out', rest := ArrowIsRead(out, ps, s);
      OnlyLines(out', [], rest);
    } else {
      var p, rest := NextPiece(out, ps, s);
      PieceIsRead(out, ps, p, rest);
      OnlyLines(out, ps + [p], rest);
      PieceNext(ps, p, rest);
    }
  }

  lemma {:induction false} GapIsRead(out: seq<Token>, ps: seq<Piece>, s: string)
    requires s != "" && Whitespace(s[0]) && Acceptable(out, ps, s)
    ensures Acceptable(Flushed(out, Pending(ps)), [], s[1..])
  {
    hide LexFrom, Whitespace, Meaning;
    WithinIsAt(out, ps);
    assert s == [s[0]] + s[1..];
    ReadWhite(Within(out, ps), s[0], s[1..]);
  }

  /** The tokenizer accepts exactly the lines that can be laid out, and reads the tokens laid out. */
  lemma {:induction false} LexedIffLaidOut(line: string, ts: seq<Token>)
    ensures Lex(line) == Ok(ts) <==>
              exists l: Layout :: LaidOut(None, l.items, l.end) && LineText(l.items, l.end) == line &&
                                  Tokens(None, l.items, l.end) == ts
  {
    hide LexFrom, LaidOut, LineText, Tokens;
    if l: Layout :| LaidOut(None, l.items, l.end) && LineText(l.items, l.end) == line &&
                    Tokens(None, l.items, l.end) == ts {
      LaidOutIsRead(l.items, l.end);
    }
    if Lex(line) == Ok(ts) {
      OnlyLines([], [], line);
      assert Text([]) + line == line;
      var l: Layout :| LaidOut(None, l.items, l.end) && LineText(l.items, l.end) == Text([]) + line;
      LaidOutIsRead(l.items, l.end);
    }
  }
}
