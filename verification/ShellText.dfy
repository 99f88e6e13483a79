/** What a command tree says, read off the text: its redirections, and its words and operators in order. */
module ShellText {
  import opened ShellGrammar
  import opened ShellLex

  // ---------------------------------------------------------------- reading the tree

  datatype Redir = Redir(file: Span, mode: int, fd: int)

  /** The redirections of a tree, the inner ones first. */
  ghost function Redirs(cmd: Cmd): seq<Redir> {
    match cmd
    case ExecCmd(_) => []
    case RedirCmd(c, file, mode, fd) => Redirs(c) + [Redir(file, mode, fd)]
    case PipeCmd(l, r) => Redirs(l) + Redirs(r)
    case ListCmd(l, r) => Redirs(l) + Redirs(r)
    case BackCmd(c) => Redirs(c)
  }

  datatype Mark = Word(w: Span) | Sign(c: char)

  /** The arguments of a tree and the operators between its commands, from left to right. */
  ghost function Marks(cmd: Cmd): seq<Mark> {
    match cmd
    case ExecCmd(args) => Words(args)
    case RedirCmd(c, _, _, _) => Marks(c)
    case PipeCmd(l, r) => Marks(l) + [Sign('|')] + Marks(r)
    case ListCmd(l, r) => Marks(l) + [Sign(';')] + Marks(r)
    case BackCmd(c) => Marks(c) + [Sign('&')]
  }

  ghost function Words(args: seq<Span>): (r: seq<Mark>)
    ensures |r| == |args| && forall i :: 0 <= i < |args| ==> r[i] == Word(args[i])
  {
    seq(|args|, i requires 0 <= i < |args| => Word(args[i]))
  }

  // ---------------------------------------------------------------- reading the tokens

  ghost function Slice(text: string, t: Token): string {
    if 0 <= t.lo <= t.hi <= |text| then text[t.lo..t.hi] else ""
  }

  /** Every operator of a redirection has its file, the word after it: "<" opens it for reading as descriptor 0; ">" and
      ">>" for writing as descriptor 1, creating it, and ">" truncates it. */
  ghost function Opens(text: string, ts: seq<Token>): seq<Redir> {
    if ts == [] then []
    else
      var op := Slice(text, ts[0]);
      if |ts| >= 2 && op == "<" then [Redir(Span(ts[1].lo, ts[1].hi), 0, 0)] + Opens(text, ts[2..])
      else if |ts| >= 2 && op == ">" then [Redir(Span(ts[1].lo, ts[1].hi), 0x601, 1)] + Opens(text, ts[2..])
      else if |ts| >= 2 && op == ">>" then [Redir(Span(ts[1].lo, ts[1].hi), 0x201, 1)] + Opens(text, ts[2..])
      else Opens(text, ts[1..])
  }

  /** The words and operators of the text but for redirections and parentheses. */
  ghost function Plain(text: string, ts: seq<Token>): seq<Mark> {
    if ts == [] then []
    else
      var op := Slice(text, ts[0]);
      if |ts| >= 2 && (op == "<" || op == ">" || op == ">>") then Plain(text, ts[2..])
      else if op == "(" || op == ")" then Plain(text, ts[1..])
      else if op == "|" || op == ";" || op == "&" then [Sign(op[0])] + Plain(text, ts[1..])
      else [Word(Span(ts[0].lo, ts[0].hi))] + Plain(text, ts[1..])
  }

  // ---------------------------------------------------------------- tokens are what they look like

  ghost predicate LooksLike(text: string, t: Token) {
    if t.kind == '+' then Slice(text, t) == ">>"
    else if t.kind == 'a' then forall c :: c in "<|>&;()" ==> Slice(text, t) != [c] && Slice(text, t) != ">>"
    else Slice(text, t) == [t.kind]
  }

  ghost predicate AllLook(text: string, ts: seq<Token>) {
    forall i :: 0 <= i < |ts| ==> LooksLike(text, ts[i])
  }

  lemma TokenLooks(text: string, p: int)
    requires 0 <= p < |text| && !IsSpace(text[p])
    ensures LooksLike(text, TokenAt(text, p))
  {
    var t := TokenAt(text, p);
    var s := Slice(text, t);
    assert s[0] == text[p];
    if t.kind == 'a' && !IsSymbol(text[p]) {
      assert s[0] !in "<|>&;()";
    }
  }

  lemma {:induction false} LexLooks(text: string, p: int)
    requires 0 <= p <= |text|
    ensures AllLook(text, Lex(text, p))
    decreases |text| - p
  {
    hide LooksLike;
    var q := SkipSpace(text, p);
    if q < |text| {
      TokenLooks(text, q);
      LexLooks(text, TokenAt(text, q).hi);
    }
  }

  // ---------------------------------------------------------------- whole parts of a derivation

  /** The tokens are whole: no operator of a redirection is left without its file, and both readings of what follows do
      not depend on them. */
  ghost predicate Whole(text: string, a: seq<Token>) {
    forall b {:trigger Opens(text, a + b)} {:trigger Plain(text, a + b)} ::
      Opens(text, a + b) == Opens(text, a) + Opens(text, b) && Plain(text, a + b) == Plain(text, a) + Plain(text, b)
  }

  lemma WholeNone(text: string)
    ensures Whole(text, []) && Opens(text, []) == [] && Plain(text, []) == []
  {
    forall b ensures Opens(text, [] + b) == Opens(text, b) && Plain(text, [] + b) == Plain(text, b) {
      assert [] + b == b;
    }
  }

  lemma WholeBoth(text: string, a: seq<Token>, b: seq<Token>)
    requires Whole(text, a) && Whole(text, b)
    ensures Whole(text, a + b)
    ensures Opens(text, a + b) == Opens(text, a) + Opens(text, b)
    ensures Plain(text, a + b) == Plain(text, a) + Plain(text, b)
  {
    hide Opens, Plain;
    forall c
      ensures Opens(text, a + b + c) == Opens(text, a + b) + Opens(text, c)
      ensures Plain(text, a + b + c) == Plain(text, a + b) + Plain(text, c)
    {
      assert a + b + c == a + (b + c);
      assert Opens(text, a + (b + c)) == Opens(text, a) + (Opens(text, b) + Opens(text, c));
      assert Plain(text, a + (b + c)) == Plain(text, a) + (Plain(text, b) + Plain(text, c));
    }
  }

  /** A token that is no operator of a redirection. */
  lemma WholeOne(text: string, t: Token)
    requires LooksLike(text, t) && !IsOp(t)
    ensures Whole(text, [t]) && Opens(text, [t]) == []
    ensures t.kind == 'a' ==> Plain(text, [t]) == [Word(SpanOf(t))]
    ensures t.kind == '(' || t.kind == ')' ==> Plain(text, [t]) == []
    ensures t.kind == '|' || t.kind == ';' || t.kind == '&' ==> Plain(text, [t]) == [Sign(t.kind)]
  {
    var s := Slice(text, t);
    assert s != "<" && s != ">" && s != ">>";
    forall b
      ensures Opens(text, [t] + b) == Opens(text, [t]) + Opens(text, b)
      ensures Plain(text, [t] + b) == Plain(text, [t]) + Plain(text, b)
    {
      assert ([t] + b)[1..] == b;
    }
    assert [t][1..] == [];
  }

  /** An operator of a redirection takes the token after it. */
  lemma RedirectFirst(text: string, op: Token, file: Token, b: seq<Token>)
    requires LooksLike(text, op) && IsOp(op)
    ensures Plain(text, [op, file] + b) == Plain(text, b)
    ensures Opens(text, [op, file] + b) ==
            [Redir(SpanOf(file), if op.kind == '<' then 0 else if op.kind == '>' then 0x601 else 0x201,
                   if op.kind == '<' then 0 else 1)] + Opens(text, b)
  {
    var ts := [op, file] + b;
    assert ts[2..] == b && ts[0] == op && ts[1] == file;
    var s := Slice(text, op);
    assert s == if op.kind == '<' then "<" else if op.kind == '>' then ">" else ">>";
  }

  /** A redirection is read as the shell's parser makes it. */
  lemma WholeRedirect(text: string, op: Token, file: Token, cmd: Cmd)
    requires LooksLike(text, op) && IsOp(op)
    ensures Whole(text, [op, file]) && Plain(text, [op, file]) == []
    ensures Redirs(Redirected(cmd, op.kind, SpanOf(file))) == Redirs(cmd) + Opens(text, [op, file])
    ensures Marks(Redirected(cmd, op.kind, SpanOf(file))) == Marks(cmd)
  {
    hide Opens, Plain, LooksLike;
    WholeNone(text);
    RedirectFirst(text, op, file, []);
    assert [op, file] + [] == [op, file];
    forall b
      ensures Opens(text, [op, file] + b) == Opens(text, [op, file]) + Opens(text, b)
      ensures Plain(text, [op, file] + b) == Plain(text, [op, file]) + Plain(text, b)
    {
      RedirectFirst(text, op, file, b);
    }
  }

  // ---------------------------------------------------------------- from derivations to trees

  lemma {:induction false} FlatSnoc(items: seq<Item>, last: Item)
    ensures FlatItems(items + [last]) == FlatItems(items) + FlatItem(last)
  {
    hide FlatItems, Args;
    if items == [] {
      assert items + [last] == [last] + [];
      ItemsCons(last, [], []);
      NoItems([]);
    } else {
      var i, t := items[0], items[1..];
      FlatSnoc(t, last);
      assert items == [i] + t && items + [last] == [i] + (t + [last]);
      ItemsCons(i, t + [last], []);
      ItemsCons(i, t, []);
      assert FlatItem(i) + (FlatItems(t) + FlatItem(last)) == FlatItem(i) + FlatItems(t) + FlatItem(last);
    }
  }

  lemma {:induction false} ArgsSnoc(items: seq<Item>, last: Item)
    ensures Args(items + [last]) == Args(items) + if last.Arg? then [last.word] else []
  {
    if items == [] {
      assert items + [last] == [last];
    } else {
      ArgsSnoc(items[1..], last);
      assert (items + [last])[1..] == items[1..] + [last];
    }
  }

  /** What the arguments and redirections of a command say. */
  lemma {:induction false} ItemsSay(text: string, items: seq<Item>, cmd: Cmd)
    requires (forall i :: 0 <= i < |items| ==> ItemOk(items[i])) && AllLook(text, FlatItems(items))
    ensures Whole(text, FlatItems(items)) && Plain(text, FlatItems(items)) == Words(Spans(Args(items)))
    ensures Redirs(Wrap(cmd, items)) == Redirs(cmd) + Opens(text, FlatItems(items))
    ensures Marks(Wrap(cmd, items)) == Marks(cmd)
    decreases |items|
  {
    hide Whole, LooksLike, Opens, Plain, FlatItems, Args;
    if items == [] {
      WholeNone(text);
      NoItems([]);
      assert Words(Spans([])) == [];
    } else {
      var n := |items| - 1;
      var inner, last := items[..n], items[n];
      assert items == inner + [last];
      FlatSnoc(inner, last);
      ArgsSnoc(inner, last);
      Parts(text, FlatItems(inner), FlatItem(last));
      ItemsSay(text, inner, cmd);
      match last {
        case Arg(w) =>
          assert FlatItem(last)[0] == w;
          WholeOne(text, w);
          assert Words(Spans(Args(inner) + [w])) == Words(Spans(Args(inner))) + [Word(SpanOf(w))];
        case Redirect(op, file) =>
          assert FlatItem(last)[0] == op;
          WholeRedirect(text, op, file, Wrap(cmd, inner));
          assert Args(inner) + [] == Args(inner);
      }
      WholeBoth(text, FlatItems(inner), FlatItem(last));
      assert Redirs(cmd) + (Opens(text, FlatItems(inner)) + Opens(text, FlatItem(last)))
          == Redirs(cmd) + Opens(text, FlatItems(inner)) + Opens(text, FlatItem(last));
    }
  }

  lemma Parts(text: string, a: seq<Token>, b: seq<Token>)
    requires AllLook(text, a + b)
    ensures AllLook(text, a) && AllLook(text, b)
  {
    hide LooksLike;
    forall i | 0 <= i < |a| ensures LooksLike(text, a[i]) {
      assert (a + b)[i] == a[i];
    }
    forall i | 0 <= i < |b| ensures LooksLike(text, b[i]) {
      assert (a + b)[|a| + i] == b[i];
    }
  }

  /** Every "&" is one operator. */
  lemma {:induction false} BacksSay(text: string, backs: seq<Token>, cmd: Cmd)
    requires AllLook(text, backs) && forall i :: 0 <= i < |backs| ==> backs[i].kind == '&'
    ensures Whole(text, backs) && Opens(text, backs) == []
    ensures Redirs(Backed(cmd, |backs|)) == Redirs(cmd)
    ensures Marks(Backed(cmd, |backs|)) == Marks(cmd) + Plain(text, backs)
    decreases |backs|
  {
    hide Whole, LooksLike, Opens, Plain;
    if backs == [] {
      WholeNone(text);
    } else {
      var n := |backs| - 1;
      assert backs == backs[..n] + [backs[n]];
      Parts(text, backs[..n], [backs[n]]);
      BacksSay(text, backs[..n], cmd);
      assert [backs[n]][0] == backs[n];
      WholeOne(text, backs[n]);
      WholeBoth(text, backs[..n], [backs[n]]);
    }
  }

  /** The tree of a line says what its tokens say. */
  lemma {:induction false} LineSays(text: string, d: Line)
    requires LineOk(d) && AllLook(text, FlatLine(d))
    ensures Whole(text, FlatLine(d))
    ensures Redirs(TreeLine(d)) == Opens(text, FlatLine(d)) && Marks(TreeLine(d)) == Plain(text, FlatLine(d))
    decreases d, 2
  {
    hide Whole, LooksLike, Opens, Plain, AllLook;
    var after := match d.tail case NoTail => [] case Then(semi, line) => [semi] + FlatLine(line);
    var a, b := FlatPipeline(d.first), d.backs;
    Parts(text, a + b, after);
    Parts(text, a, b);
    PipelineSays(text, d.first);
    BacksSay(text, b, TreePipeline(d.first));
    WholeBoth(text, a, b);
    match d.tail {
      case NoTail =>
        assert a + b + [] == a + b;
      case Then(semi, line) =>
        Parts(text, [semi], FlatLine(line));
        LineSays(text, line);
        OneLooks(text, semi);
        WholeOne(text, semi);
        WholeBoth(text, [semi], FlatLine(line));
    }
    if d.tail.Then? {
      WholeBoth(text, a + b, after);
    }
  }

  lemma OneLooks(text: string, t: Token)
    requires AllLook(text, [t])
    ensures LooksLike(text, t)
  {
    assert [t][0] == t;
  }

  lemma {:induction false} PipelineSays(text: string, d: Pipeline)
    requires PipelineOk(d) && AllLook(text, FlatPipeline(d))
    ensures Whole(text, FlatPipeline(d))
    ensures Redirs(TreePipeline(d)) == Opens(text, FlatPipeline(d))
    ensures Marks(TreePipeline(d)) == Plain(text, FlatPipeline(d))
    decreases d, 1
  {
    hide Whole, LooksLike, Opens, Plain, AllLook;
    var a := FlatCommand(d.command);
    var after := match d case One(_) => [] case Piped(_, bar, rest) => [bar] + FlatPipeline(rest);
    Parts(text, a, after);
    CommandSays(text, d.command);
    match d {
      case One(_) =>
        assert a + [] == a;
      case Piped(_, bar, rest) =>
        Parts(text, [bar], FlatPipeline(rest));
        PipelineSays(text, rest);
        OneLooks(text, bar);
        WholeOne(text, bar);
        WholeBoth(text, [bar], FlatPipeline(rest));
        WholeBoth(text, a, after);
    }
  }

  lemma {:induction false} CommandSays(text: string, d: Command)
    requires CommandOk(d) && AllLook(text, FlatCommand(d))
    ensures Whole(text, FlatCommand(d))
    ensures Redirs(TreeCommand(d)) == Opens(text, FlatCommand(d))
    ensures Marks(TreeCommand(d)) == Plain(text, FlatCommand(d))
    decreases d, 0
  {
    hide Whole, LooksLike, Opens, Plain, AllLook, Wrap;
    match d
    case Block(open, body, close, redirs) =>
      var f := FlatLine(body);
      Parts(text, [open] + f + [close], FlatItems(redirs));
      Parts(text, [open] + f, [close]);
      Parts(text, [open], f);
      OneLooks(text, open);
      OneLooks(text, close);
      WholeOne(text, open);
      WholeOne(text, close);
      LineSays(text, body);
      ItemsSay(text, redirs, TreeLine(body));
      RedirsOnly(redirs);
      WholeBoth(text, [open], f);
      WholeBoth(text, [open] + f, [close]);
      WholeBoth(text, [open] + f + [close], FlatItems(redirs));
    case Simple(items) =>
      ItemsSay(text, items, ExecCmd(Spans(Args(items))));
  }

  lemma {:induction false} RedirsOnly(items: seq<Item>)
    requires RedirsOk(items)
    ensures Words(Spans(Args(items))) == [] && Args(items) == []
  {
    if items != [] { RedirsOnly(items[1..]); }
  }

  /** The tree of a line has exactly the redirections of the text, each with the file, mode and descriptor that its
      operator asks for; and its words and operators, from left to right, are those of the text. */
  lemma TreeSaysText(text: string, d: Line)
    requires LineOk(d) && FlatLine(d) == Lex(text, 0)
    ensures Redirs(TreeLine(d)) == Opens(text, Lex(text, 0)) && Marks(TreeLine(d)) == Plain(text, Lex(text, 0))
  {
    hide Lex, LooksLike;
    LexLooks(text, 0);
    LineSays(text, d);
  }
}
