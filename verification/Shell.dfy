/** The parser of user/sh.c: a cursor over the command line, recursive descent, and termination of the words in
    place. A panic is a result here. */
module Shell {
  import opened ShellGrammar
  import opened ShellLex
  import opened ShellText

  datatype Parsed = Done(cmd: Cmd) | Panic(e: Error)

  /** The kind of the next token is what peek looks for; ">>" starts with ">". */
  predicate Ahead(ts: seq<Token>, toks: string) {
    ts != [] && (ts[0].kind in toks || (ts[0].kind == '+' && '>' in toks))
  }

  /** Results that start with items already read. */
  ghost function Prepend(items: seq<Item>, r: Parse<seq<Item>>): Parse<seq<Item>> {
    match r case Fail(e) => Fail(e) case Ok(d, rest) => Ok(items + d, rest)
  }

  lemma {:induction false} RedirsThenItems(ts: seq<Token>, argc: int)
    ensures PItems(ts, argc) ==
            match PRedirs(ts) case Fail(e) => Fail(e) case Ok(d, rest) => Prepend(d, PItems(rest, argc))
  {
    if Next(ts, "<>+") {
      if |ts| >= 2 && ts[1].kind == 'a' {
        RedirsThenItems(ts[2..], argc);
        match PRedirs(ts[2..]) {
          case Fail(_) =>
          case Ok(d, rest) =>
            match PItems(rest, argc) {
              case Fail(_) =>
              case Ok(e, _) => assert [Redirect(ts[0], ts[1])] + (d + e) == ([Redirect(ts[0], ts[1])] + d) + e;
            }
        }
      }
    } else {
      PrependNone(PItems(ts, argc));
    }
  }

  lemma PrependNone(r: Parse<seq<Item>>)
    ensures Prepend([], r) == r
  {
    if r.Ok? { assert [] + r.d == r.d; }
  }

  lemma PrependMore(a: seq<Item>, b: seq<Item>, r: Parse<seq<Item>>)
    ensures Prepend(a, Prepend(b, r)) == Prepend(a + b, r)
  {
    if r.Ok? { assert a + (b + r.d) == (a + b) + r.d; }
  }

  // ---------------------------------------------------------------- the command that is being filled in

  /** The innermost command with these arguments: parseexec writes them through its own pointer, whatever
      redirections already surround the command. */
  function WithArgs(cmd: Cmd, args: seq<Span>): Cmd {
    match cmd
    case RedirCmd(c, f, m, fd) => RedirCmd(WithArgs(c, args), f, m, fd)
    case _ => ExecCmd(args)
  }

  lemma {:induction false} WithArgsWrap(a: seq<Span>, b: seq<Span>, items: seq<Item>)
    ensures WithArgs(Wrap(ExecCmd(a), items), b) == Wrap(ExecCmd(b), items)
    decreases |items|
  {
    if items != [] {
      WithArgsWrap(a, b, items[..|items| - 1]);
    }
  }

  lemma {:induction false} WrapMore(cmd: Cmd, a: seq<Item>, b: seq<Item>)
    ensures Wrap(Wrap(cmd, a), b) == Wrap(cmd, a + b)
    decreases |b|
  {
    if b == [] {
      assert a + b == a;
    } else {
      var n := |b| - 1;
      WrapMore(cmd, a, b[..n]);
      assert (a + b)[..|a + b| - 1] == a + b[..n];
    }
  }

  lemma {:induction false} ArgsMore(a: seq<Item>, b: seq<Item>)
    ensures Args(a + b) == Args(a) + Args(b)
  {
    hide Args, FlatItems;
    if a == [] {
      NoItems([]);
      assert a + b == b;
    } else {
      var i, t := a[0], a[1..];
      ArgsMore(t, b);
      ItemsCons(i, t, []);
      ItemsCons(i, t + b, []);
      assert a == [i] + t && a + b == [i] + (t + b);
    }
  }

  lemma {:induction false} NoArgs(items: seq<Item>)
    requires RedirsOk(items)
    ensures Args(items) == []
  {
    hide Args, FlatItems;
    if items == [] {
      NoItems([]);
    } else {
      NoArgs(items[1..]);
      ItemsCons(items[0], items[1..], []);
      assert items == [items[0]] + items[1..];
    }
  }

  class Parser {
    const buf: array<char>
    const text: string
    var pos: int

    ghost predicate Valid()
      reads this, buf
    {
      && buf.Length == |text| + 1 && buf[..|text|] == text && buf[|text|] == 0 as char
      && 0 <= pos <= |text|
      && (forall i :: 0 <= i < |text| ==> text[i] != 0 as char)
    }

    /** The tokens still to be read. */
    ghost function Tokens(): seq<Token>
      requires Valid()
      reads this, buf
    {
      Lex(text, pos)
    }

    constructor (s: string)
      requires forall i :: 0 <= i < |s| ==> s[i] != 0 as char
      ensures Valid() && text == s && pos == 0 && fresh(buf)
    {
      buf := new char[|s| + 1](i requires 0 <= i <= |s| => if i < |s| then s[i] else 0 as char);
      text, pos := s, 0;
    }

    method SkipWhite()
      requires Valid()
      modifies `pos
      ensures Valid() && pos == SkipSpace(text, old(pos)) && Tokens() == old(Tokens())
    {
      LexSkips(text, pos);
      while pos < |text| && IsSpace(buf[pos])
        invariant 0 <= pos <= |text| && SkipSpace(text, pos) == SkipSpace(text, old(pos))
      {
        pos := pos + 1;
      }
    }

    /** The switch of gettoken: passes the token that starts here. */
    method Scan() returns (ret: char)
      requires Valid() && pos < |text| && !IsSpace(text[pos])
      modifies `pos
      ensures Valid() && Token(ret, old(pos), pos) == TokenAt(text, old(pos))
    {
      ghost var q := pos;
      ret := buf[pos];
      if ret == '|' || ret == '(' || ret == ')' || ret == ';' || ret == '&' || ret == '<' {
        pos := pos + 1;
      } else if ret == '>' {
        pos := pos + 1;
        if buf[pos] == '>' {
          ret := '+';
          pos := pos + 1;
        }
      } else {
        ret := 'a';
        while pos < |text| && !IsSpace(buf[pos]) && !IsSymbol(buf[pos])
          invariant q <= pos <= |text| && WordEnd(text, pos) == WordEnd(text, q)
        {
          pos := pos + 1;
        }
      }
    }

    /** gettoken: the next token's kind and slice, or 0 at the end. */
    method GetToken() returns (ret: char, q: int, eq: int)
      requires Valid()
      modifies `pos
      ensures Valid()
      ensures old(Tokens()) == [] ==> ret == 0 as char && Tokens() == []
      ensures pos < |text| ==> !IsSpace(text[pos])
      ensures old(Tokens()) != [] ==>
                old(Tokens())[0] == Token(ret, q, eq) && Tokens() == old(Tokens())[1..] && ret != 0 as char
    {
      hide Lex, SkipSpace, IsSymbol, WordEnd;
      LexNext(text, pos);
      SkipWhite();
      q := pos;
      ret := buf[pos];
      if ret != 0 as char {
        ret := Scan();
        KindNotZero(text, q);
      }
      eq := pos;
      SkipWhite();
    }

    /** peek: whether the next token starts with one of the characters. */
    method Peek(toks: string) returns (r: bool)
      requires Valid() && forall i :: 0 <= i < |toks| ==> IsSymbol(toks[i])
      modifies `pos
      ensures Valid() && Tokens() == old(Tokens()) && (r <==> Ahead(Tokens(), toks))
      ensures pos == |text| <==> Tokens() == []
    {
      SkipWhite();
      SkipTwice(text, old(pos));
      r := buf[pos] != 0 as char && buf[pos] in toks;
    }

    /** parseredirs */
    method ParseRedirs(cmd: Cmd) returns (r: Parsed)
      requires Valid()
      modifies `pos
      ensures Valid()
      ensures PRedirs(old(Tokens())).Fail? ==> r == Panic(PRedirs(old(Tokens())).e)
      ensures PRedirs(old(Tokens())).Ok? ==>
               r == Done(Wrap(cmd, PRedirs(old(Tokens())).d)) && Tokens() == PRedirs(old(Tokens())).rest
      ensures PRedirs(old(Tokens())).Ok? ==> !Next(Tokens(), "<>+")
    {
      hide PRedirs, Wrap, Lex, Prepend, RedirsOk;
      ghost var ts := Tokens();
      var c := cmd;
      ghost var items: seq<Item> := [];
      RedirsNone(cmd, ts);
      var more := Peek("<>");
      while more
        invariant Valid() && PRedirs(ts) == Prepend(items, PRedirs(Tokens())) && RedirsOk(items)
        invariant c == Wrap(cmd, items) && (more <==> Next(Tokens(), "<>+"))
        decreases |Tokens()|
      {
        ghost var now := Tokens();
        var tok, _, _ := GetToken();
        var kind, q, eq := GetToken();
        if kind != 'a' {
          RedirsMissing(items, now);
          return Panic(MissingFile);
        }
        RedirsStep(items, now);
        WrapRedirect(cmd, items, now[0], now[1]);
        c := Redirected(c, tok, Span(q, eq));
        items := items + [Redirect(now[0], now[1])];
        more := Peek("<>");
      }
      RedirsStop(items, Tokens());
      return Done(c);
    }

    /** parseexec, for a command that is not a block. */
    method ParseSimple() returns (r: Parsed)
      requires Valid()
      modifies `pos
      ensures Valid()
      ensures PItems(old(Tokens()), 0).Fail? ==> r == Panic(PItems(old(Tokens()), 0).e)
      ensures PItems(old(Tokens()), 0).Ok? ==>
                r == Done(TreeCommand(Simple(PItems(old(Tokens()), 0).d))) && Tokens() == PItems(old(Tokens()), 0).rest
    {
      hide PRedirs, PItems, Wrap, Lex, Reading, RedirsOk, Args, Spans;
      ghost var ts := Tokens();
      StartReading(ts);
      r := ParseRedirs(ExecCmd([]));
      if r.Panic? { return; }
      var ret := r.cmd;
      var args: seq<Span> := [];
      ghost var items := PRedirs(ts).d;
      var stop := Peek("|)&;");
      while !stop
        invariant Valid() && Reading(ts, items, Tokens(), args, ret) && !Next(Tokens(), "<>+")
        invariant stop <==> Next(Tokens(), "|)&;")
        decreases |Tokens()|
      {
        ghost var now := Tokens();
        WrongToken(ts, items, now, args, ret);
        var tok, q, eq := GetToken();
        if tok == 0 as char { break; }
        if tok != 'a' { return Panic(Syntax); }
        if |args| + 1 >= MAXARGS { return Panic(TooManyArgs); }
        ReadArg(ts, items, now, args, ret);
        args := args + [Span(q, eq)];
        r := ParseRedirs(WithArgs(ret, args));
        if r.Panic? { return; }
        ret := r.cmd;
        items := items + ([Arg(now[0])] + PRedirs(now[1..]).d);
        stop := Peek("|)&;");
      }
      StopReading(ts, items, Tokens(), args, ret);
      return Done(ret);
    }

    /** parseblock */
    method ParseBlock() returns (r: Parsed)
      requires Valid() && Next(Tokens(), "(")
      modifies `pos
      ensures Valid()
      ensures PCommand(old(Tokens())).Fail? ==> r == Panic(PCommand(old(Tokens())).e)
      ensures PCommand(old(Tokens())).Ok? ==>
                r == Done(TreeCommand(PCommand(old(Tokens())).d)) && Tokens() == PCommand(old(Tokens())).rest
      decreases |Tokens()|, 0
    {
      hide Lex, PLine, PRedirs, Wrap, TreeLine;
      var _, _, _ := GetToken();
      r := ParseLine();
      if r.Panic? { return; }
      var closed := Peek(")");
      if !closed { return Panic(MissingParen); }
      var _, _, _ := GetToken();
      r := ParseRedirs(r.cmd);
    }

    /** parseexec */
    method ParseExec() returns (r: Parsed)
      requires Valid()
      modifies `pos
      ensures Valid()
      ensures PCommand(old(Tokens())).Fail? ==> r == Panic(PCommand(old(Tokens())).e)
      ensures PCommand(old(Tokens())).Ok? ==>
                r == Done(TreeCommand(PCommand(old(Tokens())).d)) && Tokens() == PCommand(old(Tokens())).rest
      decreases |Tokens()|, 1
    {
      hide Lex, PLine, PItems, TreeCommand;
      var block := Peek("(");
      if block {
        r := ParseBlock();
      } else {
        r := ParseSimple();
      }
    }

    /** parsepipe */
    method ParsePipe() returns (r: Parsed)
      requires Valid()
      modifies `pos
      ensures Valid()
      ensures PPipeline(old(Tokens())).Fail? ==> r == Panic(PPipeline(old(Tokens())).e)
      ensures PPipeline(old(Tokens())).Ok? ==>
                r == Done(TreePipeline(PPipeline(old(Tokens())).d)) && Tokens() == PPipeline(old(Tokens())).rest
      decreases |Tokens()|, 2
    {
      hide Lex, PCommand, TreeCommand;
      r := ParseExec();
      if r.Panic? { return; }
      var piped := Peek("|");
      if piped {
        var left := r.cmd;
        var _, _, _ := GetToken();
        r := ParsePipe();
        if r.Done? {
          r := Done(PipeCmd(left, r.cmd));
        }
      }
    }

    /** The loop of parseline: one BackCmd for every "&". */
    method ParseBacks(cmd: Cmd) returns (c: Cmd)
      requires Valid()
      modifies `pos
      ensures Valid() && c == Backed(cmd, |PBacks(old(Tokens())).0|) && Tokens() == PBacks(old(Tokens())).1
    {
      hide Lex;
      ghost var ts := Tokens();
      ghost var n := 0;
      c := cmd;
      var back := Peek("&");
      while back
        invariant Valid() && 0 <= n && |PBacks(ts).0| == n + |PBacks(Tokens()).0| && PBacks(ts).1 == PBacks(Tokens()).1
        invariant c == Backed(cmd, n) && (back <==> Next(Tokens(), "&"))
        decreases |Tokens()|
      {
        var _, _, _ := GetToken();
        c := BackCmd(c);
        n := n + 1;
        back := Peek("&");
      }
    }

    /** parseline */
    method ParseLine() returns (r: Parsed)
      requires Valid()
      modifies `pos
      ensures Valid()
      ensures PLine(old(Tokens())).Fail? ==> r == Panic(PLine(old(Tokens())).e)
      ensures PLine(old(Tokens())).Ok? ==>
                r == Done(TreeLine(PLine(old(Tokens())).d)) && Tokens() == PLine(old(Tokens())).rest
      decreases |Tokens()|, 3
    {
      hide Lex, PPipeline, TreePipeline, PBacks, Backed;
      r := ParsePipe();
      if r.Panic? { return; }
      var c := ParseBacks(r.cmd);
      var list := Peek(";");
      if list {
        var _, _, _ := GetToken();
        r := ParseLine();
        if r.Done? {
          r := Done(ListCmd(c, r.cmd));
        }
      } else {
        r := Done(c);
      }
    }

    /** nulterminate: a terminator after every word of the command, and nowhere else. */
    method NulTerminate(cmd: Cmd)
      requires forall i :: IsEnd(cmd, i) ==> 0 <= i < buf.Length
      modifies buf
      ensures forall i :: 0 <= i < buf.Length ==> buf[i] == if IsEnd(cmd, i) then 0 as char else old(buf[i])
      decreases cmd
    {
      match cmd
      case ExecCmd(args) =>
        var i := 0;
        while i < |args|
          invariant 0 <= i <= |args|
          invariant forall j :: 0 <= j < buf.Length ==>
                      buf[j] == if (exists k :: 0 <= k < i && args[k].hi == j) then 0 as char else old(buf[j])
        {
          assert IsEnd(cmd, args[i].hi);
          buf[args[i].hi] := 0 as char;
          i := i + 1;
        }
      case RedirCmd(c, file, _, _) =>
        assert IsEnd(cmd, file.hi);
        forall i | IsEnd(c, i) ensures IsEnd(cmd, i) {}
        NulTerminate(c);
        buf[file.hi] := 0 as char;
      case PipeCmd(left, right) =>
        forall i | IsEnd(left, i) || IsEnd(right, i) ensures IsEnd(cmd, i) {}
        NulTerminate(left);
        NulTerminate(right);
      case ListCmd(left, right) =>
        forall i | IsEnd(left, i) || IsEnd(right, i) ensures IsEnd(cmd, i) {}
        NulTerminate(left);
        NulTerminate(right);
      case BackCmd(c) =>
        forall i | IsEnd(c, i) ensures IsEnd(cmd, i) {}
        NulTerminate(c);
    }

    /** parsecmd: the tree of the line if it is a sentence of the grammar, and every word of it terminated in
        place; a panic otherwise. */
    method ParseCmd() returns (r: Parsed)
      requires Valid() && pos == 0
      modifies this, buf
      ensures r.Done? <==> exists d :: LineOk(d) && FlatLine(d) == Lex(text, 0)
      ensures r.Done? ==> exists d :: LineOk(d) && FlatLine(d) == Lex(text, 0) && r.cmd == TreeLine(d)
      ensures r.Done? ==> Redirs(r.cmd) == Opens(text, Lex(text, 0)) && Marks(r.cmd) == Plain(text, Lex(text, 0))
      ensures r.Done? ==> forall w :: HasWord(r.cmd, w) ==>
                WholeWord(text, w.lo, w.hi) && CString(buf[..], w.lo) == text[w.lo..w.hi]
    {
      hide Lex, PLine, TreeLine, FlatLine, LineOk, Redirs, Opens, Marks, Plain;
      ghost var ts := Tokens();
      r := ParseLine();
      if r.Panic? {
        Rejected(ts);
        return;
      }
      var _ := Peek("");
      if pos != |text| {
        Rejected(ts);
        return Panic(Leftovers);
      }
      ghost var d := PLine(ts).d;
      AcceptsGrammar(ts, d);
      EndsInText(text, d);
      TreeSaysText(text, d);
      NulTerminate(r.cmd);
      forall w | HasWord(r.cmd, w) ensures WholeWord(text, w.lo, w.hi) && CString(buf[..], w.lo) == text[w.lo..w.hi] {
        WordReadsBack(text, d, w, buf[..]);
      }
    }
  }

  /** A word of the command: an argument or a file name. */
  ghost predicate HasWord(cmd: Cmd, w: Span) {
    match cmd
    case ExecCmd(args) => w in args
    case RedirCmd(c, file, _, _) => HasWord(c, w) || file == w
    case PipeCmd(l, r) => HasWord(l, w) || HasWord(r, w)
    case ListCmd(l, r) => HasWord(l, w) || HasWord(r, w)
    case BackCmd(c) => HasWord(c, w)
  }

  /** The string that starts at a position of a buffer. */
  ghost function CString(b: seq<char>, p: int): string
    requires 0 <= p <= |b|
    decreases |b| - p
  {
    if p == |b| || b[p] == 0 as char then [] else [b[p]] + CString(b, p + 1)
  }

  lemma {:induction false} CStringIs(b: seq<char>, lo: int, hi: int)
    requires 0 <= lo <= hi < |b| && b[hi] == 0 as char && forall i :: lo <= i < hi ==> b[i] != 0 as char
    ensures CString(b, lo) == b[lo..hi]
    decreases hi - lo
  {
    if lo < hi {
      CStringIs(b, lo + 1, hi);
      assert b[lo..hi] == [b[lo]] + b[lo + 1..hi];
    }
  }

  lemma Rejected(ts: seq<Token>)
    requires PAll(ts).Fail?
    ensures !exists d :: LineOk(d) && FlatLine(d) == ts
  {
    forall d | LineOk(d) && FlatLine(d) == ts ensures PAll(ts) == Ok(d, []) {
      AcceptsGrammar(ts, d);
    }
  }

  // ---------------------------------------------------------------- the words of a tree are tokens

  ghost predicate IsToken(ts: seq<Token>, w: Span) {
    exists i :: 0 <= i < |ts| && ts[i].kind == 'a' && SpanOf(ts[i]) == w
  }

  lemma TokenLeft(a: seq<Token>, b: seq<Token>, w: Span)
    ensures IsToken(a, w) || IsToken(b, w) <==> IsToken(a + b, w)
  {
    if IsToken(a, w) {
      var i :| 0 <= i < |a| && a[i].kind == 'a' && SpanOf(a[i]) == w;
      assert (a + b)[i] == a[i];
    }
    if IsToken(b, w) {
      var i :| 0 <= i < |b| && b[i].kind == 'a' && SpanOf(b[i]) == w;
      assert (a + b)[|a| + i] == b[i];
    }
  }

  lemma {:induction false} ItemWords(cmd: Cmd, items: seq<Item>, w: Span)
    requires forall i :: 0 <= i < |items| ==> ItemOk(items[i])
    requires HasWord(Wrap(cmd, items), w)
    ensures HasWord(cmd, w) || IsToken(FlatItems(items), w)
    decreases |items|
  {
    if items != [] {
      var n := |items| - 1;
      var inner, last := items[..n], items[n];
      assert items == inner + [last];
      FlatSnoc(inner, last);
      TokenLeft(FlatItems(inner), FlatItem(last), w);
      if HasWord(Wrap(cmd, inner), w) {
        ItemWords(cmd, inner, w);
      } else {
        assert FlatItem(last)[1].kind == 'a' && SpanOf(FlatItem(last)[1]) == w;
      }
    }
  }

  lemma {:induction false} ArgWords(items: seq<Item>, k: int)
    requires (forall i :: 0 <= i < |items| ==> ItemOk(items[i])) && 0 <= k < |Args(items)|
    ensures IsToken(FlatItems(items), SpanOf(Args(items)[k]))
  {
    hide FlatItems, Args;
    if items == [] {
      NoItems([]);
    } else {
      var i, t := items[0], items[1..];
      assert items == [i] + t;
      ItemsCons(i, t, []);
      TokenLeft(FlatItem(i), FlatItems(t), SpanOf(Args(items)[k]));
      assert FlatItems(items) == FlatItem(i) + FlatItems(t);
      if i.Arg? && k == 0 {
        assert FlatItem(i)[0].kind == 'a';
      } else {
        ArgWords(t, if i.Arg? then k - 1 else k);
      }
    }
  }

  lemma {:induction false} BackedWords(cmd: Cmd, n: nat, w: Span)
    requires HasWord(Backed(cmd, n), w)
    ensures HasWord(cmd, w)
  {
    if 0 < n {
      BackedWords(cmd, n - 1, w);
    }
  }

  lemma {:induction false} LineWords(d: Line, w: Span)
    requires LineOk(d) && HasWord(TreeLine(d), w)
    ensures IsToken(FlatLine(d), w)
    decreases d, 2
  {
    var after := match d.tail case NoTail => [] case Then(semi, line) => [semi] + FlatLine(line);
    TokenLeft(FlatPipeline(d.first), d.backs, w);
    TokenLeft(FlatPipeline(d.first) + d.backs, after, w);
    if d.tail.Then? && HasWord(TreeLine(d.tail.line), w) {
      LineWords(d.tail.line, w);
      TokenLeft([d.tail.semi], FlatLine(d.tail.line), w);
    } else {
      BackedWords(TreePipeline(d.first), |d.backs|, w);
      PipelineWords(d.first, w);
    }
  }

  lemma {:induction false} PipelineWords(d: Pipeline, w: Span)
    requires PipelineOk(d) && HasWord(TreePipeline(d), w)
    ensures IsToken(FlatPipeline(d), w)
    decreases d, 1
  {
    var after := match d case One(_) => [] case Piped(_, bar, rest) => [bar] + FlatPipeline(rest);
    TokenLeft(FlatCommand(d.command), after, w);
    if d.Piped? && HasWord(TreePipeline(d.rest), w) {
      PipelineWords(d.rest, w);
      TokenLeft([d.bar], FlatPipeline(d.rest), w);
    } else {
      CommandWords(d.command, w);
    }
  }

  lemma {:induction false} CommandWords(d: Command, w: Span)
    requires CommandOk(d) && HasWord(TreeCommand(d), w)
    ensures IsToken(FlatCommand(d), w)
    decreases d, 0
  {
    match d
    case Block(open, body, close, redirs) =>
      ItemWords(TreeLine(body), redirs, w);
      TokenLeft([open], FlatLine(body), w);
      TokenLeft([open] + FlatLine(body), [close], w);
      TokenLeft([open] + FlatLine(body) + [close], FlatItems(redirs), w);
      if HasWord(TreeLine(body), w) {
        LineWords(body, w);
      }
    case Simple(items) =>
      var args := Spans(Args(items));
      ItemWords(ExecCmd(args), items, w);
      if w in args {
        var k :| 0 <= k < |args| && args[k] == w;
        ArgWords(items, k);
      }
  }

  /** Every word of the tree of a line is a whole word of the text. */
  lemma WordsAreWhole(text: string, d: Line, w: Span)
    requires LineOk(d) && FlatLine(d) == Lex(text, 0) && HasWord(TreeLine(d), w)
    ensures WholeWord(text, w.lo, w.hi)
  {
    LineWords(d, w);
    var ts := Lex(text, 0);
    var i :| 0 <= i < |ts| && ts[i].kind == 'a' && SpanOf(ts[i]) == w;
    LexTokens(text, 0, i);
  }

  lemma {:induction false} EndIsWordEnd(cmd: Cmd, i: int) returns (w: Span)
    requires IsEnd(cmd, i)
    ensures HasWord(cmd, w) && w.hi == i
  {
    match cmd
    case ExecCmd(args) =>
      var k :| 0 <= k < |args| && args[k].hi == i;
      w := args[k];
    case RedirCmd(c, file, _, _) =>
      if IsEnd(c, i) { w := EndIsWordEnd(c, i); } else { w := file; }
    case PipeCmd(l, r) =>
      if IsEnd(l, i) { w := EndIsWordEnd(l, i); } else { w := EndIsWordEnd(r, i); }
    case ListCmd(l, r) =>
      if IsEnd(l, i) { w := EndIsWordEnd(l, i); } else { w := EndIsWordEnd(r, i); }
    case BackCmd(c) =>
      w := EndIsWordEnd(c, i);
  }

  lemma {:induction false} WordHasEnd(cmd: Cmd, w: Span)
    requires HasWord(cmd, w)
    ensures IsEnd(cmd, w.hi)
  {
    match cmd
    case ExecCmd(args) =>
      var k :| 0 <= k < |args| && args[k] == w;
      assert args[k].hi == w.hi;
    case RedirCmd(c, file, _, _) =>
      if HasWord(c, w) { WordHasEnd(c, w); }
    case PipeCmd(l, r) =>
      if HasWord(l, w) { WordHasEnd(l, w); } else { WordHasEnd(r, w); }
    case ListCmd(l, r) =>
      if HasWord(l, w) { WordHasEnd(l, w); } else { WordHasEnd(r, w); }
    case BackCmd(c) =>
      WordHasEnd(c, w);
  }

  lemma EndsInText(text: string, d: Line)
    requires LineOk(d) && FlatLine(d) == Lex(text, 0)
    ensures forall i :: IsEnd(TreeLine(d), i) ==> 0 < i <= |text| && (i < |text| ==> Separates(text[i]))
  {
    forall i | IsEnd(TreeLine(d), i) ensures 0 < i <= |text| && (i < |text| ==> Separates(text[i])) {
      var w := EndIsWordEnd(TreeLine(d), i);
      WordsAreWhole(text, d, w);
    }
  }

  /** No terminator lands inside a word: each reads back as the slice it was. */
  lemma WordReadsBack(text: string, d: Line, w: Span, b: seq<char>)
    requires LineOk(d) && FlatLine(d) == Lex(text, 0) && HasWord(TreeLine(d), w)
    requires |b| == |text| + 1 && (forall i :: 0 <= i < |text| ==> text[i] != 0 as char)
    requires forall i :: 0 <= i < |b| ==> b[i] == if IsEnd(TreeLine(d), i) || i == |text| then 0 as char else text[i]
    ensures WholeWord(text, w.lo, w.hi) && CString(b, w.lo) == text[w.lo..w.hi]
  {
    hide Lex, TreeLine, FlatLine, LineOk, HasWord, IsEnd, CString, Separates;
    WordsAreWhole(text, d, w);
    EndsInText(text, d);
    WordHasEnd(TreeLine(d), w);
    forall i | w.lo <= i < w.hi ensures b[i] == text[i] {
      assert !IsEnd(TreeLine(d), i);
    }
    SliceReadsBack(text, b, w.lo, w.hi);
  }

  lemma SliceReadsBack(text: string, b: seq<char>, lo: int, hi: int)
    requires 0 <= lo <= hi <= |text| < |b| && b[hi] == 0 as char
    requires forall i :: lo <= i < hi ==> b[i] == text[i] && text[i] != 0 as char
    ensures CString(b, lo) == text[lo..hi]
  {
    CStringIs(b, lo, hi);
    assert b[lo..hi] == text[lo..hi];
  }

  /** Where the words of a command end. */
  ghost predicate IsEnd(cmd: Cmd, i: int) {
    match cmd
    case ExecCmd(args) => exists k :: 0 <= k < |args| && args[k].hi == i
    case RedirCmd(c, file, _, _) => IsEnd(c, i) || file.hi == i
    case PipeCmd(l, r) => IsEnd(l, i) || IsEnd(r, i)
    case ListCmd(l, r) => IsEnd(l, i) || IsEnd(r, i)
    case BackCmd(c) => IsEnd(c, i)
  }

  // ---------------------------------------------------------------- steps of the loops

  lemma RedirsNone(cmd: Cmd, ts: seq<Token>)
    ensures PRedirs(ts) == Prepend([], PRedirs(ts)) && RedirsOk([]) && Wrap(cmd, []) == cmd
  {
    PrependNone(PRedirs(ts));
  }

  lemma RedirsStep(items: seq<Item>, now: seq<Token>)
    requires |now| >= 2 && Next(now, "<>+") && now[1].kind == 'a' && RedirsOk(items)
    ensures Prepend(items, PRedirs(now)) == Prepend(items + [Redirect(now[0], now[1])], PRedirs(now[2..]))
    ensures RedirsOk(items + [Redirect(now[0], now[1])]) && now[1..][1..] == now[2..]
  {
    PrependMore(items, [Redirect(now[0], now[1])], PRedirs(now[2..]));
  }

  lemma RedirsMissing(items: seq<Item>, now: seq<Token>)
    requires Next(now, "<>+") && (|now| < 2 || now[1].kind != 'a')
    ensures Prepend(items, PRedirs(now)) == Fail(MissingFile)
  {
  }

  lemma RedirsStop(items: seq<Item>, now: seq<Token>)
    requires !Next(now, "<>+")
    ensures Prepend(items, PRedirs(now)) == Ok(items, now)
  {
    assert items + [] == items;
  }

  lemma WrapRedirect(cmd: Cmd, items: seq<Item>, op: Token, file: Token)
    ensures Wrap(cmd, items + [Redirect(op, file)]) == Redirected(Wrap(cmd, items), op.kind, SpanOf(file))
  {
    assert (items + [Redirect(op, file)])[..|items|] == items;
  }

  /** The items read so far, what is left, and the command built from them. */
  ghost predicate Reading(ts: seq<Token>, items: seq<Item>, now: seq<Token>, args: seq<Span>, ret: Cmd) {
    && PItems(ts, 0) == Prepend(items, PItems(now, |args|))
    && args == Spans(Args(items)) && ret == Wrap(ExecCmd(args), items)
  }

  lemma StartReading(ts: seq<Token>)
    ensures PRedirs(ts).Fail? ==> PItems(ts, 0) == Fail(PRedirs(ts).e)
    ensures PRedirs(ts).Ok? ==> Reading(ts, PRedirs(ts).d, PRedirs(ts).rest, [], Wrap(ExecCmd([]), PRedirs(ts).d))
  {
    RedirsThenItems(ts, 0);
    if PRedirs(ts).Ok? {
      RedirsSound(ts);
      NoArgs(PRedirs(ts).d);
    }
  }

  lemma WrongToken(ts: seq<Token>, items: seq<Item>, now: seq<Token>, args: seq<Span>, ret: Cmd)
    requires Reading(ts, items, now, args, ret) && !Next(now, "<>+") && !Next(now, "|)&;")
    ensures now != [] && now[0].kind != 'a' ==> PItems(ts, 0) == Fail(Syntax)
    ensures now != [] && now[0].kind == 'a' && |args| + 1 >= MAXARGS ==> PItems(ts, 0) == Fail(TooManyArgs)
  {
  }

  lemma ReadArg(ts: seq<Token>, items: seq<Item>, now: seq<Token>, args: seq<Span>, ret: Cmd)
    requires Reading(ts, items, now, args, ret) && now != [] && now[0].kind == 'a' && |args| + 1 < MAXARGS
    ensures PRedirs(now[1..]).Fail? ==> PItems(ts, 0) == Fail(PRedirs(now[1..]).e)
    ensures PRedirs(now[1..]).Ok? ==>
              var d, args' := PRedirs(now[1..]).d, args + [SpanOf(now[0])];
              Reading(ts, items + ([Arg(now[0])] + d), PRedirs(now[1..]).rest, args', Wrap(WithArgs(ret, args'), d))
  {
    hide PItems, PRedirs, Wrap, Args;
    var t, args' := now[0], args + [SpanOf(now[0])];
    assert now == [t] + now[1..];
    ItemAhead(t, now[1..], |args|);
    RedirsThenItems(now[1..], |args'|);
    if PRedirs(now[1..]).Ok? {
      var d, rest := PRedirs(now[1..]).d, PRedirs(now[1..]).rest;
      RedirsSound(now[1..]);
      WithArgsWrap(args, args', items);
      WrapArg(ExecCmd(args'), items, t, d);
      ArgsAfter(items, t, d);
      PrependMore(items, [Arg(t)], Prepend(d, PItems(rest, |args'|)));
      PrependMore(items + [Arg(t)], d, PItems(rest, |args'|));
      assert items + [Arg(t)] + d == items + ([Arg(t)] + d);
    }
  }

  lemma StopReading(ts: seq<Token>, items: seq<Item>, now: seq<Token>, args: seq<Span>, ret: Cmd)
    requires Reading(ts, items, now, args, ret) && (now == [] || Next(now, "|)&;"))
    ensures PItems(ts, 0) == Ok(items, now) && ret == TreeCommand(Simple(items))
  {
    assert items + [] == items;
  }

  lemma ItemAhead(t: Token, now: seq<Token>, argc: int)
    requires t.kind == 'a' && argc + 1 < MAXARGS
    ensures PItems([t] + now, argc) == Prepend([Arg(t)], PItems(now, argc + 1))
  {
    assert ([t] + now)[1..] == now;
  }

  lemma WrapArg(cmd: Cmd, items: seq<Item>, t: Token, d: seq<Item>)
    ensures Wrap(Wrap(cmd, items), d) == Wrap(cmd, items + ([Arg(t)] + d))
  {
    hide Wrap;
    WrapNothing(cmd, items, t);
    WrapMore(cmd, items + [Arg(t)], d);
    assert items + [Arg(t)] + d == items + ([Arg(t)] + d);
  }

  /** An argument wraps nothing. */
  lemma WrapNothing(cmd: Cmd, items: seq<Item>, t: Token)
    ensures Wrap(cmd, items + [Arg(t)]) == Wrap(cmd, items)
  {
    assert (items + [Arg(t)])[..|items|] == items;
  }

  lemma ArgsAfter(items: seq<Item>, t: Token, d: seq<Item>)
    requires RedirsOk(d)
    ensures Args(items + ([Arg(t)] + d)) == Args(items) + [t]
  {
    hide FlatItems;
    ArgsMore(items, [Arg(t)] + d);
    ItemsCons(Arg(t), d, []);
    NoArgs(d);
  }
}
