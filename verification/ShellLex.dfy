/** The tokens of a command line, as user/sh.c cuts it, and the command trees built from them. */
module ShellLex {
  import opened ShellGrammar

  predicate IsSpace(c: char) {
    c == ' ' || c == '\t' || c == '\r' || c == '\n' || c == 0xB as char
  }

  predicate IsSymbol(c: char) {
    c in "<|>&;()"
  }

  predicate IsWord(c: char) {
    !IsSpace(c) && !IsSymbol(c)
  }

  // ---------------------------------------------------------------- cutting the text

  ghost function SkipSpace(text: string, p: int): (r: int)
    requires 0 <= p <= |text|
    ensures p <= r <= |text|
    ensures (forall i :: p <= i < r ==> IsSpace(text[i])) && (r < |text| ==> !IsSpace(text[r]))
    decreases |text| - p
  {
    if p < |text| && IsSpace(text[p]) then SkipSpace(text, p + 1) else p
  }

  ghost function WordEnd(text: string, p: int): (r: int)
    requires 0 <= p <= |text|
    ensures p <= r <= |text|
    ensures (forall i :: p <= i < r ==> IsWord(text[i])) && (r < |text| ==> !IsWord(text[r]))
    decreases |text| - p
  {
    if p < |text| && IsWord(text[p]) then WordEnd(text, p + 1) else p
  }

  ghost function TokenAt(text: string, p: int): (t: Token)
    requires 0 <= p < |text| && !IsSpace(text[p])
    ensures t.lo == p && p < t.hi <= |text|
  {
    if text[p] == '>' && p + 1 < |text| && text[p + 1] == '>' then Token('+', p, p + 2)
    else if IsSymbol(text[p]) then Token(text[p], p, p + 1)
    else Token('a', p, WordEnd(text, p))
  }

  ghost function Lex(text: string, p: int): (ts: seq<Token>)
    requires 0 <= p <= |text|
    decreases |text| - p
  {
    var q := SkipSpace(text, p);
    if q == |text| then [] else [TokenAt(text, q)] + Lex(text, TokenAt(text, q).hi)
  }

  lemma LexNext(text: string, p: int)
    requires 0 <= p <= |text|
    ensures var q := SkipSpace(text, p);
            if q == |text| then Lex(text, p) == []
            else !IsSpace(text[q]) && Lex(text, p) == [TokenAt(text, q)] + Lex(text, TokenAt(text, q).hi)
  {
  }

  lemma KindNotZero(text: string, p: int)
    requires 0 <= p < |text| && !IsSpace(text[p]) && text[p] != 0 as char
    ensures TokenAt(text, p).kind != 0 as char
  {
  }

  lemma {:induction false} LexSkips(text: string, p: int)
    requires 0 <= p <= |text|
    ensures Lex(text, SkipSpace(text, p)) == Lex(text, p)
  {
    SkipTwice(text, p);
  }

  lemma {:induction false} SkipTwice(text: string, p: int)
    requires 0 <= p <= |text|
    ensures SkipSpace(text, SkipSpace(text, p)) == SkipSpace(text, p)
    decreases |text| - p
  {
    if p < |text| && IsSpace(text[p]) {
      SkipTwice(text, p + 1);
    }
  }

  /** White space or a symbol of the shell. */
  ghost predicate Separates(c: char) {
    c in BLANKS || c in SIGNS
  }

  const BLANKS: string := " \t\r\n\U{B}"
  const SIGNS: string := "<|>&;()"

  /** The slice is a whole word: neither white space nor symbols in it, and one of them after it. */
  ghost predicate WholeWord(text: string, lo: int, hi: int) {
    && 0 <= lo < hi <= |text|
    && (forall i :: lo <= i < hi ==> !Separates(text[i]))
    && (hi < |text| ==> Separates(text[hi]))
  }

  lemma CharKinds(c: char)
    ensures IsSpace(c) <==> c in BLANKS
    ensures IsWord(c) <==> !Separates(c)
  {
    assert c == 0xB as char <==> c == BLANKS[4];
  }

  lemma WordIsWhole(text: string, lo: int)
    requires 0 <= lo < |text| && IsWord(text[lo])
    ensures WholeWord(text, lo, WordEnd(text, lo))
  {
    hide Separates, IsWord;
    forall i | 0 <= i < |text| ensures IsWord(text[i]) <==> !Separates(text[i]) {
      CharKinds(text[i]);
    }
  }

  /** Tokens come in order, are not empty, and lie in the text; the words among them are whole. */
  lemma {:induction false} LexTokens(text: string, p: int, i: int)
    requires 0 <= p <= |text| && 0 <= i < |Lex(text, p)|
    ensures var ts := Lex(text, p);
            && p <= ts[i].lo < ts[i].hi <= |text|
            && (0 < i ==> ts[i - 1].hi <= ts[i].lo)
            && (ts[i].kind == 'a' <==> !Separates(text[ts[i].lo]))
            && (ts[i].kind == 'a' ==> WholeWord(text, ts[i].lo, ts[i].hi))
    decreases |text| - p
  {
    var q := SkipSpace(text, p);
    var t := TokenAt(text, q);
    CharKinds(text[q]);
    if IsWord(text[q]) { WordIsWhole(text, q); }
    if 0 < i {
      LexTokens(text, t.hi, i - 1);
      if i == 1 {
        assert Lex(text, p)[0] == t;
      }
    }
  }

  /** Every character that is not white space is in a token. */
  lemma {:induction false} LexCovers(text: string, p: int, c: int) returns (i: int)
    requires 0 <= p <= c < |text| && text[c] !in BLANKS
    ensures 0 <= i < |Lex(text, p)| && Lex(text, p)[i].lo <= c < Lex(text, p)[i].hi
    decreases |text| - p
  {
    var q := SkipSpace(text, p);
    CharKinds(text[c]);
    assert q <= c;
    var t := TokenAt(text, q);
    if c < t.hi {
      i := 0;
    } else {
      var j := LexCovers(text, t.hi, c);
      i := j + 1;
    }
  }

  // ---------------------------------------------------------------- command trees

  datatype Span = Span(lo: int, hi: int)
  datatype Cmd =
    | ExecCmd(args: seq<Span>)
    | RedirCmd(cmd: Cmd, file: Span, mode: int, fd: int)
    | PipeCmd(left: Cmd, right: Cmd)
    | ListCmd(left: Cmd, right: Cmd)
    | BackCmd(cmd: Cmd)

  const O_RDONLY: int := 0x000
  const O_WRONLY: int := 0x001
  const O_CREATE: int := 0x200
  const O_TRUNC: int := 0x400

  function SpanOf(t: Token): Span {
    Span(t.lo, t.hi)
  }

  function Spans(ts: seq<Token>): (r: seq<Span>)
    ensures |r| == |ts| && forall i :: 0 <= i < |ts| ==> r[i] == SpanOf(ts[i])
  {
    seq(|ts|, i requires 0 <= i < |ts| => SpanOf(ts[i]))
  }

  /** "<" reads standard input from the file; ">" and ">>" write standard output to it, ">" truncating it. */
  function Redirected(cmd: Cmd, op: char, file: Span): Cmd {
    if op == '<' then RedirCmd(cmd, file, O_RDONLY, 0)
    else if op == '>' then RedirCmd(cmd, file, O_WRONLY + O_CREATE + O_TRUNC, 1)
    else RedirCmd(cmd, file, O_WRONLY + O_CREATE, 1)
  }

  /** The redirections among the items, the first innermost. */
  ghost function Wrap(cmd: Cmd, items: seq<Item>): Cmd
    decreases |items|
  {
    if items == [] then cmd
    else
      var last := items[|items| - 1];
      var inner := Wrap(cmd, items[..|items| - 1]);
      if last.Arg? then inner else Redirected(inner, last.op.kind, SpanOf(last.file))
  }

  ghost function Backed(cmd: Cmd, n: nat): Cmd {
    if n == 0 then cmd else BackCmd(Backed(cmd, n - 1))
  }

  ghost function TreeLine(d: Line): Cmd
    decreases d, 2
  {
    var first := Backed(TreePipeline(d.first), |d.backs|);
    match d.tail case NoTail => first case Then(_, line) => ListCmd(first, TreeLine(line))
  }

  ghost function TreePipeline(d: Pipeline): Cmd
    decreases d, 1
  {
    match d
    case One(c) => TreeCommand(c)
    case Piped(c, _, rest) => PipeCmd(TreeCommand(c), TreePipeline(rest))
  }

  ghost function TreeCommand(d: Command): Cmd
    decreases d, 0
  {
    match d
    case Block(_, body, _, redirs) => Wrap(TreeLine(body), redirs)
    case Simple(items) => Wrap(ExecCmd(Spans(Args(items))), items)
  }
}
