/** The grammar of the shell in user/sh.c, over tokens: derivations, what they flatten to, and the
    recursive-descent parser as a function. A parse is exactly a derivation, and there is at most one. */
module ShellGrammar {

  const MAXARGS: int := 10

  /** A token is a slice of the input. Words have kind 'a', ">>" has kind '+', the others their own character. */
  datatype Token = Token(kind: char, lo: int, hi: int)

  datatype Error = MissingFile | MissingParen | TooManyArgs | Syntax | Leftovers

  // ---------------------------------------------------------------- derivations

  /** Line ::= Pipeline "&"* [";" Line] */
  datatype Line = Line(first: Pipeline, backs: seq<Token>, tail: Tail)
  datatype Tail = NoTail | Then(semi: Token, line: Line)
  /** Pipeline ::= Command ["|" Pipeline] */
  datatype Pipeline = One(command: Command) | Piped(command: Command, bar: Token, rest: Pipeline)
  /** Command ::= "(" Line ")" Redirection*  |  (Word | Redirection)* */
  datatype Command = Block(open: Token, body: Line, close: Token, redirs: seq<Item>) | Simple(items: seq<Item>)
  /** Redirection ::= ("<" | ">" | ">>") Word */
  datatype Item = Arg(word: Token) | Redirect(op: Token, file: Token)

  predicate IsOp(t: Token) {
    t.kind == '<' || t.kind == '>' || t.kind == '+'
  }

  ghost predicate ItemOk(i: Item) {
    match i
    case Arg(w) => w.kind == 'a'
    case Redirect(op, f) => IsOp(op) && f.kind == 'a'
  }

  ghost predicate RedirsOk(items: seq<Item>) {
    forall i :: 0 <= i < |items| ==> items[i].Redirect? && ItemOk(items[i])
  }

  function Args(items: seq<Item>): seq<Token> {
    if items == [] then []
    else (if items[0].Arg? then [items[0].word] else []) + Args(items[1..])
  }

  ghost predicate LineOk(d: Line)
    decreases d, 2
  {
    && PipelineOk(d.first)
    && (forall i :: 0 <= i < |d.backs| ==> d.backs[i].kind == '&')
    && (d.tail.Then? ==> d.tail.semi.kind == ';' && LineOk(d.tail.line))
  }

  ghost predicate PipelineOk(d: Pipeline)
    decreases d, 1
  {
    && CommandOk(d.command)
    && (d.Piped? ==> d.bar.kind == '|' && PipelineOk(d.rest))
  }

  ghost predicate CommandOk(d: Command)
    decreases d, 0
  {
    match d
    case Block(open, body, close, redirs) => open.kind == '(' && LineOk(body) && close.kind == ')' && RedirsOk(redirs)
    case Simple(items) => (forall i :: 0 <= i < |items| ==> ItemOk(items[i])) && |Args(items)| < MAXARGS
  }

  // ---------------------------------------------------------------- the tokens of a derivation

  ghost function FlatItems(items: seq<Item>): seq<Token> {
    if items == [] then []
    else (match items[0] case Arg(w) => [w] case Redirect(op, f) => [op, f]) + FlatItems(items[1..])
  }

  ghost function FlatLine(d: Line): seq<Token>
    decreases d, 2
  {
    FlatPipeline(d.first) + d.backs + match d.tail case NoTail => [] case Then(semi, line) => [semi] + FlatLine(line)
  }

  ghost function FlatPipeline(d: Pipeline): seq<Token>
    decreases d, 1
  {
    FlatCommand(d.command) + match d case One(_) => [] case Piped(_, bar, rest) => [bar] + FlatPipeline(rest)
  }

  ghost function FlatCommand(d: Command): seq<Token>
    decreases d, 0
  {
    match d
    case Block(open, body, close, redirs) => [open] + FlatLine(body) + [close] + FlatItems(redirs)
    case Simple(items) => FlatItems(items)
  }

  // ---------------------------------------------------------------- the parser

  datatype Parse<T> = Ok(d: T, rest: seq<Token>) | Fail(e: Error)

  /** Whether the next token has one of the kinds. */
  predicate Next(ts: seq<Token>, kinds: string) {
    ts != [] && ts[0].kind in kinds
  }

  function PRedirs(ts: seq<Token>): (r: Parse<seq<Item>>)
    ensures r.Ok? ==> |r.rest| <= |ts|
  {
    if !Next(ts, "<>+") then Ok([], ts)
    else if |ts| < 2 || ts[1].kind != 'a' then Fail(MissingFile)
    else
      match PRedirs(ts[2..])
      case Fail(e) => Fail(e)
      case Ok(d, rest) => Ok([Redirect(ts[0], ts[1])] + d, rest)
  }

  /** The arguments and redirections of a simple command, argc arguments having been read. */
  function PItems(ts: seq<Token>, argc: int): (r: Parse<seq<Item>>)
    ensures r.Ok? ==> |r.rest| <= |ts|
  {
    if ts == [] || Next(ts, "|)&;") then Ok([], ts)
    else if Next(ts, "<>+") then
      if |ts| < 2 || ts[1].kind != 'a' then Fail(MissingFile)
      else
        match PItems(ts[2..], argc)
        case Fail(e) => Fail(e)
        case Ok(d, rest) => Ok([Redirect(ts[0], ts[1])] + d, rest)
    else if ts[0].kind != 'a' then Fail(Syntax)
    else if argc + 1 >= MAXARGS then Fail(TooManyArgs)
    else
      match PItems(ts[1..], argc + 1)
      case Fail(e) => Fail(e)
      case Ok(d, rest) => Ok([Arg(ts[0])] + d, rest)
  }

  function PCommand(ts: seq<Token>): (r: Parse<Command>)
    ensures r.Ok? ==> |r.rest| <= |ts|
    decreases |ts|, 0
  {
    if Next(ts, "(") then
      match PLine(ts[1..])
      case Fail(e) => Fail(e)
      case Ok(body, rest) =>
        if !Next(rest, ")") then Fail(MissingParen)
        else
          match PRedirs(rest[1..])
          case Fail(e) => Fail(e)
          case Ok(redirs, rest') => Ok(Block(ts[0], body, rest[0], redirs), rest')
    else
      match PItems(ts, 0)
      case Fail(e) => Fail(e)
      case Ok(items, rest) => Ok(Simple(items), rest)
  }

  function PPipeline(ts: seq<Token>): (r: Parse<Pipeline>)
    ensures r.Ok? ==> |r.rest| <= |ts|
    decreases |ts|, 1
  {
    match PCommand(ts)
    case Fail(e) => Fail(e)
    case Ok(c, rest) =>
      if !Next(rest, "|") then Ok(One(c), rest)
      else
        match PPipeline(rest[1..])
        case Fail(e) => Fail(e)
        case Ok(p, rest') => Ok(Piped(c, rest[0], p), rest')
  }

  function PBacks(ts: seq<Token>): (r: (seq<Token>, seq<Token>))
    ensures |r.1| <= |ts|
  {
    if !Next(ts, "&") then ([], ts)
    else var (backs, rest) := PBacks(ts[1..]); ([ts[0]] + backs, rest)
  }

  function PLine(ts: seq<Token>): (r: Parse<Line>)
    ensures r.Ok? ==> |r.rest| <= |ts|
    decreases |ts|, 2
  {
    match PPipeline(ts)
    case Fail(e) => Fail(e)
    case Ok(p, rest) =>
      var (backs, rest') := PBacks(rest);
      if !Next(rest', ";") then Ok(Line(p, backs, NoTail), rest')
      else
        match PLine(rest'[1..])
        case Fail(e) => Fail(e)
        case Ok(l, rest'') => Ok(Line(p, backs, Then(rest'[0], l)), rest'')
  }

  /** parsecmd: a line and nothing after it. */
  function PAll(ts: seq<Token>): Parse<Line> {
    match PLine(ts)
    case Fail(e) => Fail(e)
    case Ok(d, rest) => if rest == [] then Ok(d, rest) else Fail(Leftovers)
  }

  // ---------------------------------------------------------------- every parse is a derivation

  /** The tokens of one item. */
  ghost function FlatItem(i: Item): seq<Token> {
    match i case Arg(w) => [w] case Redirect(op, f) => [op, f]
  }

  lemma ItemsCons(i: Item, items: seq<Item>, rest: seq<Token>)
    ensures FlatItems([i] + items) == FlatItem(i) + FlatItems(items)
    ensures FlatItems([i] + items) + rest == FlatItem(i) + (FlatItems(items) + rest)
    ensures Args([i] + items) == (if i.Arg? then [i.word] else []) + Args(items)
  {
    assert ([i] + items)[1..] == items;
  }

  /** Putting slices of a token sequence together again. */
  lemma Glue(a: seq<Token>, b: seq<Token>, x: Token, c: seq<Token>, r: seq<Token>)
    ensures (a + b + ([x] + c)) + r == a + (b + ([x] + (c + r)))
  {
  }

  lemma Split(ts: seq<Token>, n: int)
    requires 0 <= n <= |ts|
    ensures ts[..n] + ts[n..] == ts
  {
  }

  lemma {:induction false} RedirsSound(ts: seq<Token>)
    requires PRedirs(ts).Ok?
    ensures RedirsOk(PRedirs(ts).d) && FlatItems(PRedirs(ts).d) + PRedirs(ts).rest == ts
    ensures !Next(PRedirs(ts).rest, "<>+")
  {
    hide FlatItems, Args;
    if Next(ts, "<>+") {
      RedirsSound(ts[2..]);
      ItemsCons(Redirect(ts[0], ts[1]), PRedirs(ts[2..]).d, PRedirs(ts[2..]).rest);
      Split(ts, 2);
    } else {
      NoItems(ts);
    }
  }

  lemma NoItems(ts: seq<Token>)
    ensures FlatItems([]) == [] && FlatItems([]) + ts == ts && Args([]) == []
  {
  }

  lemma {:induction false} ItemsSound(ts: seq<Token>, argc: int)
    requires PItems(ts, argc).Ok? && argc < MAXARGS
    ensures var d := PItems(ts, argc).d;
            && (forall i :: 0 <= i < |d| ==> ItemOk(d[i])) && argc + |Args(d)| < MAXARGS
            && FlatItems(d) + PItems(ts, argc).rest == ts
    ensures PItems(ts, argc).rest == [] || Next(PItems(ts, argc).rest, "|)&;")
  {
    hide FlatItems, Args;
    if ts == [] || Next(ts, "|)&;") {
      NoItems(ts);
    } else if Next(ts, "<>+") {
      ItemsSound(ts[2..], argc);
      ItemsCons(Redirect(ts[0], ts[1]), PItems(ts[2..], argc).d, PItems(ts[2..], argc).rest);
      Split(ts, 2);
    } else {
      ItemsSound(ts[1..], argc + 1);
      ItemsCons(Arg(ts[0]), PItems(ts[1..], argc + 1).d, PItems(ts[1..], argc + 1).rest);
      Split(ts, 1);
    }
  }

  lemma {:induction false} BacksSound(ts: seq<Token>)
    ensures forall i :: 0 <= i < |PBacks(ts).0| ==> PBacks(ts).0[i].kind == '&'
    ensures PBacks(ts).0 + PBacks(ts).1 == ts && !Next(PBacks(ts).1, "&")
  {
    if Next(ts, "&") {
      BacksSound(ts[1..]);
    }
  }

  lemma {:induction false} CommandSound(ts: seq<Token>)
    requires PCommand(ts).Ok?
    ensures CommandOk(PCommand(ts).d) && FlatCommand(PCommand(ts).d) + PCommand(ts).rest == ts
    decreases |ts|, 0
  {
    hide FlatItems, Args, FlatLine, LineOk, PLine, PItems, PRedirs;
    if Next(ts, "(") {
      LineSound(ts[1..]);
      var body, rest := PLine(ts[1..]).d, PLine(ts[1..]).rest;
      RedirsSound(rest[1..]);
      Glue([ts[0]], FlatLine(body), rest[0], FlatItems(PRedirs(rest[1..]).d), PRedirs(rest[1..]).rest);
      BlockFlat(ts[0], body, rest[0], PRedirs(rest[1..]).d);
      Split(rest, 1);
      Split(ts, 1);
    } else {
      ItemsSound(ts, 0);
    }
  }

  lemma BlockFlat(open: Token, body: Line, close: Token, redirs: seq<Item>)
    ensures FlatCommand(Block(open, body, close, redirs)) == [open] + FlatLine(body) + ([close] + FlatItems(redirs))
  {
  }

  lemma {:induction false} PipelineSound(ts: seq<Token>)
    requires PPipeline(ts).Ok?
    ensures PipelineOk(PPipeline(ts).d) && FlatPipeline(PPipeline(ts).d) + PPipeline(ts).rest == ts
    decreases |ts|, 1
  {
    hide FlatCommand, CommandOk, PCommand;
    CommandSound(ts);
    var c, rest := PCommand(ts).d, PCommand(ts).rest;
    if Next(rest, "|") {
      PipelineSound(rest[1..]);
      Glue(FlatCommand(c), [], rest[0], FlatPipeline(PPipeline(rest[1..]).d), PPipeline(rest[1..]).rest);
      Split(rest, 1);
    }
  }

  lemma {:induction false} LineSound(ts: seq<Token>)
    requires PLine(ts).Ok?
    ensures LineOk(PLine(ts).d) && FlatLine(PLine(ts).d) + PLine(ts).rest == ts
    decreases |ts|, 2
  {
    hide FlatPipeline, PipelineOk, PPipeline, PBacks;
    PipelineSound(ts);
    var p, rest := PPipeline(ts).d, PPipeline(ts).rest;
    BacksSound(rest);
    var backs, rest' := PBacks(rest).0, PBacks(rest).1;
    if Next(rest', ";") {
      LineSound(rest'[1..]);
      Glue(FlatPipeline(p), backs, rest'[0], FlatLine(PLine(rest'[1..]).d), PLine(rest'[1..]).rest);
      Split(rest', 1);
    } else {
      assert FlatPipeline(p) + backs + [] + rest' == FlatPipeline(p) + (backs + rest');
    }
  }

  // ---------------------------------------------------------------- every derivation is parsed

  lemma {:induction false} RedirsComplete(redirs: seq<Item>, rest: seq<Token>)
    requires RedirsOk(redirs) && !Next(rest, "<>+")
    ensures PRedirs(FlatItems(redirs) + rest) == Ok(redirs, rest)
  {
    hide FlatItems, Args;
    if redirs == [] {
      NoItems(rest);
    } else {
      var i, tail := redirs[0], redirs[1..];
      assert redirs == [i] + tail;
      RedirsComplete(tail, rest);
      ItemsCons(i, tail, rest);
      var ts := FlatItems(redirs) + rest;
      assert ts[0] == i.op && ts[1] == i.file && ts[2..] == FlatItems(tail) + rest;
    }
  }

  lemma {:induction false} ItemsComplete(items: seq<Item>, argc: int, rest: seq<Token>)
    requires (forall i :: 0 <= i < |items| ==> ItemOk(items[i])) && argc + |Args(items)| < MAXARGS
    requires rest == [] || Next(rest, "|)&;")
    ensures PItems(FlatItems(items) + rest, argc) == Ok(items, rest)
  {
    hide FlatItems, Args;
    if items == [] {
      NoItems(rest);
    } else {
      var i, tail := items[0], items[1..];
      assert items == [i] + tail;
      ItemsCons(i, tail, rest);
      var ts := FlatItems(items) + rest;
      if i.Arg? {
        ItemsComplete(tail, argc + 1, rest);
        assert ts[0] == i.word && ts[1..] == FlatItems(tail) + rest;
      } else {
        ItemsComplete(tail, argc, rest);
        assert ts[0] == i.op && ts[1] == i.file && ts[2..] == FlatItems(tail) + rest;
      }
    }
  }

  lemma {:induction false} BacksComplete(backs: seq<Token>, rest: seq<Token>)
    requires (forall i :: 0 <= i < |backs| ==> backs[i].kind == '&') && !Next(rest, "&")
    ensures PBacks(backs + rest) == (backs, rest)
  {
    if backs == [] {
      assert backs + rest == rest;
    } else {
      BacksComplete(backs[1..], rest);
      assert (backs + rest)[1..] == backs[1..] + rest;
      assert [backs[0]] + backs[1..] == backs;
    }
  }

  /** The first token of a simple command, or of what follows it, opens no block. */
  lemma NotOpen(items: seq<Item>, rest: seq<Token>)
    requires (forall i :: 0 <= i < |items| ==> ItemOk(items[i])) && (rest == [] || Next(rest, "|)&;"))
    ensures !Next(FlatItems(items) + rest, "(")
  {
  }

  lemma {:induction false} CommandComplete(d: Command, rest: seq<Token>)
    requires CommandOk(d) && (rest == [] || Next(rest, "|)&;"))
    ensures PCommand(FlatCommand(d) + rest) == Ok(d, rest)
    decreases d, 0
  {
    hide FlatItems, Args, FlatLine, LineOk, PLine, PItems, PRedirs;
    match d
    case Block(open, body, close, redirs) =>
      BlockFlat(open, body, close, redirs);
      Glue([open], FlatLine(body), close, FlatItems(redirs), rest);
      var after := FlatItems(redirs) + rest;
      var ts := FlatCommand(d) + rest;
      assert ts[0] == open && ts[1..] == FlatLine(body) + ([close] + after);
      LineComplete(body, [close] + after);
      RedirsComplete(redirs, rest);
      assert ([close] + after)[1..] == after;
    case Simple(items) =>
      NotOpen(items, rest);
      ItemsComplete(items, 0, rest);
  }

  lemma {:induction false} PipelineComplete(d: Pipeline, rest: seq<Token>)
    requires PipelineOk(d) && (rest == [] || Next(rest, ")&;"))
    ensures PPipeline(FlatPipeline(d) + rest) == Ok(d, rest)
    decreases d, 1
  {
    hide FlatCommand, CommandOk, PCommand;
    match d
    case One(c) =>
      CommandComplete(c, rest);
      assert FlatPipeline(d) + rest == FlatCommand(c) + rest;
    case Piped(c, bar, p) =>
      var after := [bar] + (FlatPipeline(p) + rest);
      CommandComplete(c, after);
      PipelineComplete(p, rest);
      Glue(FlatCommand(c), [], bar, FlatPipeline(p), rest);
      assert FlatPipeline(d) + rest == FlatCommand(c) + after;
      assert after[1..] == FlatPipeline(p) + rest;
  }

  lemma {:induction false} LineComplete(d: Line, rest: seq<Token>)
    requires LineOk(d) && (rest == [] || Next(rest, ")"))
    ensures PLine(FlatLine(d) + rest) == Ok(d, rest)
    decreases d, 2
  {
    hide FlatPipeline, PipelineOk, PPipeline, PBacks;
    var after := match d.tail case NoTail => rest case Then(semi, l) => [semi] + (FlatLine(l) + rest);
    match d.tail {
      case NoTail =>
        assert FlatLine(d) + rest == FlatPipeline(d.first) + (d.backs + after);
      case Then(semi, l) =>
        LineComplete(l, rest);
        Glue(FlatPipeline(d.first), d.backs, semi, FlatLine(l), rest);
        assert after[1..] == FlatLine(l) + rest;
    }
    BacksComplete(d.backs, after);
    assert d.backs + after == [] || Next(d.backs + after, ")&;");
    PipelineComplete(d.first, d.backs + after);
  }

  // ---------------------------------------------------------------- what the parser accepts

  /** The parser accepts exactly the sentences of the grammar, and returns their derivation. */
  lemma AcceptsGrammar(ts: seq<Token>, d: Line)
    ensures PAll(ts) == Ok(d, []) <==> LineOk(d) && FlatLine(d) == ts
  {
    if PAll(ts) == Ok(d, []) {
      LineSound(ts);
      assert FlatLine(d) + [] == FlatLine(d);
    }
    if LineOk(d) && FlatLine(d) == ts {
      LineComplete(d, []);
      assert FlatLine(d) + [] == ts;
    }
  }

  /** No sentence has two derivations. */
  lemma Unambiguous(d: Line, e: Line)
    requires LineOk(d) && LineOk(e) && FlatLine(d) == FlatLine(e)
    ensures d == e
  {
    AcceptsGrammar(FlatLine(d), d);
    AcceptsGrammar(FlatLine(d), e);
  }
}
