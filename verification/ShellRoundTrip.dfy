/** Every command, written out with parentheses around each part, is read back as the same
    command. */
module ShellRoundTrip {
  import opened ShellSyntax

  // A command as its meaning: the texts of its words.
  datatype Ast =
    | Run(args: seq<string>)
    | To(cmd: Ast, file: string, mode: Mode)
    | Both(left: Ast, right: Ast)
    | Then(left: Ast, right: Ast)
    | Aside(cmd: Ast)

  function Text(w: Token, t: string): string {
    if w.Word? && w.q <= w.eq <= |t| then t[w.q..w.eq] else ""
  }

  function Meaning(c: Cmd, t: string): Ast {
    match c
    case Exec(args) => Run(seq(|args|, i requires 0 <= i < |args| => Text(args[i], t)))
    case Redir(d, how) => To(Meaning(d, t), Text(how.file, t), how.mode)
    case Pipe(l, r) => Both(Meaning(l, t), Meaning(r, t))
    case List(l, r) => Then(Meaning(l, t), Meaning(r, t))
    case Back(d) => Aside(Meaning(d, t))
  }

  predicate ValidWord(w: string) {
    w != "" && forall i :: 0 <= i < |w| ==> WordChar(w[i])
  }

  // What the shell accepts: words that are words, and fewer than MAXARGS of them.
  predicate Valid(a: Ast) {
    match a
    case Run(args) => |args| < MAXARGS && forall i :: 0 <= i < |args| ==> ValidWord(args[i])
    case To(b, file, _) => Valid(b) && ValidWord(file)
    case Both(l, r) => Valid(l) && Valid(r)
    case Then(l, r) => Valid(l) && Valid(r)
    case Aside(b) => Valid(b)
  }

  // ---- writing a command ------------------------------------------------

  datatype Lexeme = W(text: string) | S(c: char)

  // The symbol '+' is written >>.
  function Shown(l: Lexeme): string {
    if l.W? then l.text else if l.c == '+' then ">>" else [l.c]
  }

  function Show(a: Ast): seq<Lexeme>
    decreases a, 0
  {
    match a
    case Run(args) => seq(|args|, i requires 0 <= i < |args| => W(args[i]))
    case To(b, file, mode) => Sub(b) + [S(if mode == In then '<' else '>'), W(file)]
    case Both(l, r) => Sub(l) + [S('|')] + Sub(r)
    case Then(l, r) => Sub(l) + [S(';')] + Sub(r)
    case Aside(b) => Sub(b) + [S('&')]
  }

  function Sub(a: Ast): seq<Lexeme>
    decreases a, 1
  {
    [S('(')] + Show(a) + [S(')')]
  }

  function Render(ls: seq<Lexeme>): string {
    if ls == [] then "" else Shown(ls[0]) + " " + Render(ls[1..])
  }

  function Print(a: Ast): string {
    Render(Show(a))
  }

  // ---- tokens of a written command --------------------------------------

  predicate Fits(k: Token, t: string, l: Lexeme) {
    match l
    case W(text) => k.Word? && Text(k, t) == text
    case S(c) => k == Sym(c)
  }

  predicate Matches(ts: seq<Token>, t: string, ls: seq<Lexeme>) {
    |ts| == |ls| && forall i :: 0 <= i < |ls| ==> Fits(ts[i], t, ls[i])
  }

  predicate ValidLexeme(l: Lexeme) {
    if l.W? then ValidWord(l.text) else Symbol(l.c) || l.c == '+'
  }

  lemma {:induction false} ShowValid(a: Ast)
    requires Valid(a)
    ensures forall l :: l in Show(a) ==> ValidLexeme(l)
  {
    match a
    case Run(_) =>
    case To(b, _, _) => ShowValid(b);
    case Both(l, r) => ShowValid(l); ShowValid(r);
    case Then(l, r) => ShowValid(l); ShowValid(r);
    case Aside(b) => ShowValid(b);
  }

  lemma {:induction false} WordEnds(t: string, s: nat, e: nat)
    requires s <= e < |t| && Blank(t[e]) && forall i :: s <= i < e ==> WordChar(t[i])
    ensures WordEnd(t, s) == e
    decreases e - s
  {
    if s < e {
      WordEnds(t, s + 1, e);
    }
  }

  lemma LexOne(t: string, s: nat, l: Lexeme)
    requires ValidLexeme(l)
    requires var w := Shown(l); s + |w| < |t| && t[s..s + |w|] == w && t[s + |w|] == ' '
    ensures s < |t| && !Blank(t[s])
    ensures Fits(TokenAt(t, s).0, t, l) && TokenAt(t, s).1 == s + |Shown(l)|
  {
    var w := Shown(l);
    assert forall i :: 0 <= i < |w| ==> t[s + i] == w[i];
    assert t[s] == w[0];
    if l.W? {
      forall i | s <= i < s + |w|
        ensures WordChar(t[i])
      {
        assert t[i] == w[i - s];
      }
      WordEnds(t, s + 1, s + |w|);
    }
  }

  lemma {:induction false} Lex(pre: string, ls: seq<Lexeme>, t: string)
    requires t == pre + Render(ls) && forall l :: l in ls ==> ValidLexeme(l)
    ensures Matches(Tokens(t, |pre|), t, ls)
    decreases |ls|
  {
    hide Render, SkipBlanks, TokenAt, WordEnd, Tokens, Matches, Fits, ValidLexeme, Blank;
    if ls == [] {
      LexNone(pre, t);
    } else {
      var w := Shown(ls[0]);
      RenderOne(ls);
      Middle(pre, w, Render(ls[1..]), t);
      LexOne(t, |pre|, ls[0]);
      Lex(pre + w + " ", ls[1..], t);
      LexBlank(t, |pre| + |w|);
      LexFirst(t, |pre|);
      MatchesCons(TokenAt(t, |pre|).0, Tokens(t, |pre| + |w| + 1), t, ls);
    }
  }

  lemma LexNone(pre: string, t: string)
    requires t == pre + Render([])
    ensures Matches(Tokens(t, |pre|), t, [])
  {
    assert t == pre;
  }

  lemma MatchesCons(k: Token, ts: seq<Token>, t: string, ls: seq<Lexeme>)
    requires ls != [] && Fits(k, t, ls[0]) && Matches(ts, t, ls[1..])
    ensures Matches([k] + ts, t, ls)
  {
    hide Fits;
  }

  lemma RenderOne(ls: seq<Lexeme>)
    requires ls != []
    ensures Render(ls) == Shown(ls[0]) + " " + Render(ls[1..])
  {
  }

  lemma Middle(pre: string, w: string, rest: string, t: string)
    requires t == pre + (w + " " + rest)
    ensures t == (pre + w + " ") + rest && |pre| + |w| < |t|
    ensures t[|pre|..|pre| + |w|] == w && t[|pre| + |w|] == ' '
  {
  }

  lemma LexFirst(t: string, s: nat)
    requires s < |t| && !Blank(t[s])
    ensures var (k, e) := TokenAt(t, s); Tokens(t, s) == [k] + Tokens(t, e)
  {
  }

  lemma LexBlank(t: string, s: nat)
    requires s < |t| && t[s] == ' '
    ensures Tokens(t, s) == Tokens(t, s + 1)
  {
  }

  // ---- parsing the tokens of a written command --------------------------

  // What may follow a command inside parentheses or at the end of the line.
  predicate Closed(rest: seq<Token>) {
    rest == [] || rest[0] == Sym(')')
  }

  lemma RedirsNone(ts: seq<Token>)
    requires NoRedir(ts)
    ensures Redirs(ts) == Ok([], ts)
  {
  }

  lemma RedirsOne(k: Token, f: Token, rest: seq<Token>)
    requires (k == Sym('<') || k == Sym('>')) && f.Word? && NoRedir(rest)
    ensures Redirs([k, f] + rest) == Ok([Redirect(f, if k == Sym('<') then In else Out)], rest)
  {
    hide AllIn, Shorter, Files;
    RedirsNone(rest);
    var ts := [k, f] + rest;
    assert ts[2..] == rest && ts[0] == k && ts[1] == f;
    assert Redirs(ts[2..]) == Ok([], rest);
    var how := Redirect(f, if k == Sym('<') then In else Out);
    assert [how] + [] == [how];
  }

  lemma ArgsStop(args: seq<Token>, ts: seq<Token>)
    requires Closed(ts)
    ensures Args(args, [], ts) == Ok(Exec(args), ts)
  {
    hide Redirs, AllIn, Shorter, Files, Words;
  }

  lemma ArgsWord(args: seq<Token>, w: Token, ts: seq<Token>)
    requires w.Word? && |args| + 1 < MAXARGS && NoRedir(ts)
    ensures Args(args, [], [w] + ts) == Args(args + [w], [], ts)
  {
    hide AllIn, Shorter, Files, Words;
    RedirsNone(ts);
    assert ([w] + ts)[1..] == ts;
    var none: seq<Redirect> := [];
    assert none + none == none;
  }

  lemma SimpleWords(ts: seq<Token>)
    requires NoRedir(ts) && (ts == [] || ts[0] != Sym('('))
    ensures Simple(ts) == Args([], [], ts)
  {
    hide Args, AllIn, Shorter, Files, Words;
    RedirsNone(ts);
  }

  // The result of parsing a block and then the redirections after it.
  function Redirected(c: Cmd, more: seq<Token>): Result<Cmd> {
    match Redirs(more)
    case Fail(e) => Fail(e)
    case Ok(rs, rest) => Ok(Wrap(c, rs), rest)
  }

  lemma SimpleBlock(inner: seq<Token>, more: seq<Token>, c: Cmd)
    requires Line(inner + ([Sym(')')] + more)) == Ok(c, [Sym(')')] + more)
    ensures Simple([Sym('(')] + inner + [Sym(')')] + more) == Redirected(c, more)
  {
    hide Line, Redirs, AllIn, Shorter, Files, Words;
    var ts := [Sym('(')] + inner + [Sym(')')] + more;
    assert ts[1..] == inner + ([Sym(')')] + more);
    assert ([Sym(')')] + more)[1..] == more;
  }

  lemma RedirectedNone(c: Cmd, more: seq<Token>)
    requires NoRedir(more)
    ensures Redirected(c, more) == Ok(c, more)
  {
    RedirsNone(more);
  }

  lemma RedirectedOne(c: Cmd, k: Token, f: Token, rest: seq<Token>)
    requires (k == Sym('<') || k == Sym('>')) && f.Word? && NoRedir(rest)
    ensures Redirected(c, [k, f] + rest) == Ok(Redir(c, Redirect(f, if k == Sym('<') then In else Out)), rest)
  {
    hide Redirs;
    RedirsOne(k, f, rest);
    var how := Redirect(f, if k == Sym('<') then In else Out);
    assert [how][..0] == [] && Wrap(c, []) == c;
    assert Wrap(c, [how]) == Redir(c, how);
  }

  lemma LineClosed(ts: seq<Token>, c: Cmd, rest: seq<Token>)
    requires Simple(ts) == Ok(c, rest) && Closed(rest)
    ensures Pipeline(ts) == Line(ts) == Ok(c, rest)
  {
    hide Simple, AllIn, Shorter, Words;
  }

  lemma LinePipe(ts: seq<Token>, c: Cmd, more: seq<Token>, d: Cmd, rest: seq<Token>)
    requires Simple(ts) == Ok(c, [Sym('|')] + more) && Simple(more) == Ok(d, rest) && Closed(rest)
    ensures Line(ts) == Ok(Pipe(c, d), rest)
  {
    hide Simple, AllIn, Shorter, Words;
    LineClosed(more, d, rest);
    assert ([Sym('|')] + more)[1..] == more;
  }

  lemma LineList(ts: seq<Token>, c: Cmd, more: seq<Token>, d: Cmd, rest: seq<Token>)
    requires Simple(ts) == Ok(c, [Sym(';')] + more) && Line(more) == Ok(d, rest)
    ensures Line(ts) == Ok(List(c, d), rest)
  {
    hide Simple, AllIn, Shorter, Words;
    assert ([Sym(';')] + more)[1..] == more;
  }

  lemma LineBack(ts: seq<Token>, c: Cmd, rest: seq<Token>)
    requires Simple(ts) == Ok(c, [Sym('&')] + rest) && Closed(rest)
    ensures Line(ts) == Ok(Back(c), rest)
  {
    hide Simple, AllIn, Shorter, Words;
    assert ([Sym('&')] + rest)[1..] == rest;
    assert LineEnd(Back(c), rest) == Ok(Back(c), rest);
  }

  lemma {:induction false} ParseWords(args: seq<Token>, ws: seq<Token>, rest: seq<Token>)
    requires |args| + |ws| < MAXARGS && Closed(rest) && forall i :: 0 <= i < |ws| ==> ws[i].Word?
    ensures Args(args, [], ws + rest) == Ok(Exec(args + ws), rest)
    decreases |ws|
  {
    hide Args, Redirs, AllIn, Shorter;
    if ws == [] {
      assert ws + rest == rest && args + ws == args;
      ArgsStop(args, rest);
    } else {
      assert ws + rest == [ws[0]] + (ws[1..] + rest);
      assert args + ws == args + [ws[0]] + ws[1..];
      ArgsWord(args, ws[0], ws[1..] + rest);
      ParseWords(args + [ws[0]], ws[1..], rest);
    }
  }

  // The pieces of tokens that match the pieces of a text.
  lemma Split(ts: seq<Token>, t: string, a: seq<Lexeme>, b: seq<Lexeme>)
    requires Matches(ts, t, a + b)
    ensures |a| <= |ts| && ts == ts[..|a|] + ts[|a|..] && Matches(ts[..|a|], t, a) && Matches(ts[|a|..], t, b)
  {
    hide Fits;
    assert forall i :: 0 <= i < |a| ==> (a + b)[i] == a[i];
    assert forall i :: 0 <= i < |b| ==> (a + b)[|a| + i] == b[i];
  }

  lemma OneSym(ts: seq<Token>, t: string, c: char)
    requires Matches(ts, t, [S(c)])
    ensures ts == [Sym(c)]
  {
    assert Fits(ts[0], t, [S(c)][0]);
  }

  lemma ParseSub(a: Ast, ts: seq<Token>, more: seq<Token>, t: string) returns (c: Cmd)
    requires Valid(a) && Matches(ts, t, Sub(a))
    ensures Meaning(c, t) == a && Simple(ts + more) == Redirected(c, more)
    decreases a, 2
  {
    hide Simple, Line, Redirected, Matches, Meaning, Show;
    Split(ts, t, [S('(')] + Show(a), [S(')')]);
    var n := |Show(a)|;
    Split(ts[..n + 1], t, [S('(')], Show(a));
    OneSym(ts[n + 1..], t, ')');
    OneSym(ts[..n + 1][..1], t, '(');
    var inner := ts[..n + 1][1..];
    c := ParseShow(a, inner, [Sym(')')] + more, t);
    SimpleBlock(inner, more, c);
    assert ts + more == [Sym('(')] + inner + [Sym(')')] + more;
  }

  lemma ParseShow(a: Ast, ts: seq<Token>, rest: seq<Token>, t: string) returns (c: Cmd)
    requires Valid(a) && Matches(ts, t, Show(a)) && Closed(rest)
    ensures Meaning(c, t) == a && Line(ts + rest) == Ok(c, rest)
    decreases a, 1
  {
    hide *;
    match a
    case Run(_) => c := ParseRun(a, ts, rest, t);
    case To(_, _, _) => c := ParseTo(a, ts, rest, t);
    case Both(_, _) => c := ParseBoth(a, ts, rest, t);
    case Then(_, _) => c := ParseThen(a, ts, rest, t);
    case Aside(_) => c := ParseAside(a, ts, rest, t);
  }

  lemma ParseTo(a: Ast, ts: seq<Token>, rest: seq<Token>, t: string) returns (c: Cmd)
    requires a.To? && Valid(a) && Matches(ts, t, Show(a)) && Closed(rest)
    ensures Meaning(c, t) == a && Line(ts + rest) == Ok(c, rest)
    decreases a, 0
  {
    hide Simple, Line, Redirected, Matches, Sub, Wrap, LineEnd, Pipeline, Shorter, AllIn, Words;
    var tail := [S(if a.mode == In then '<' else '>'), W(a.file)];
    Split(ts, t, Sub(a.cmd), tail);
    var n := |Sub(a.cmd)|;
    var d := ParseSub(a.cmd, ts[..n], ts[n..] + rest, t);
    RedirFits(ts[n..], t, a.file, a.mode);
    RedirectedOne(d, ts[n..][0], ts[n..][1], rest);
    assert ts + rest == ts[..n] + (ts[n..] + rest);
    c := Redir(d, Redirect(ts[n..][1], a.mode));
    LineClosed(ts + rest, c, rest);
  }

  lemma ParseBoth(a: Ast, ts: seq<Token>, rest: seq<Token>, t: string) returns (c: Cmd)
    requires a.Both? && Valid(a) && Matches(ts, t, Show(a)) && Closed(rest)
    ensures Meaning(c, t) == a && Line(ts + rest) == Ok(c, rest)
    decreases a, 0
  {
    hide Simple, Line, Redirected, Matches, Sub, Wrap, LineEnd, Pipeline, Shorter, AllIn, Words;
    var n := |Sub(a.left)|;
    Split(ts, t, Sub(a.left) + [S('|')], Sub(a.right));
    Split(ts[..n + 1], t, Sub(a.left), [S('|')]);
    OneSym(ts[..n + 1][n..], t, '|');
    var more := ts[n + 1..] + rest;
    var l := ParseSub(a.left, ts[..n + 1][..n], [Sym('|')] + more, t);
    var r := ParseSub(a.right, ts[n + 1..], rest, t);
    RedirectedNone(l, [Sym('|')] + more);
    RedirectedNone(r, rest);
    assert ts + rest == ts[..n + 1][..n] + ([Sym('|')] + more);
    LinePipe(ts + rest, l, more, r, rest);
    c := Pipe(l, r);
  }

  lemma ParseThen(a: Ast, ts: seq<Token>, rest: seq<Token>, t: string) returns (c: Cmd)
    requires a.Then? && Valid(a) && Matches(ts, t, Show(a)) && Closed(rest)
    ensures Meaning(c, t) == a && Line(ts + rest) == Ok(c, rest)
    decreases a, 0
  {
    hide Simple, Line, Redirected, Matches, Sub, Wrap, LineEnd, Pipeline, Shorter, AllIn, Words;
    var n := |Sub(a.left)|;
    Split(ts, t, Sub(a.left) + [S(';')], Sub(a.right));
    Split(ts[..n + 1], t, Sub(a.left), [S(';')]);
    OneSym(ts[..n + 1][n..], t, ';');
    var more := ts[n + 1..] + rest;
    var l := ParseSub(a.left, ts[..n + 1][..n], [Sym(';')] + more, t);
    var r := ParseSub(a.right, ts[n + 1..], rest, t);
    RedirectedNone(l, [Sym(';')] + more);
    RedirectedNone(r, rest);
    LineClosed(more, r, rest);
    assert ts + rest == ts[..n + 1][..n] + ([Sym(';')] + more);
    LineList(ts + rest, l, more, r, rest);
    c := List(l, r);
  }

  lemma ParseAside(a: Ast, ts: seq<Token>, rest: seq<Token>, t: string) returns (c: Cmd)
    requires a.Aside? && Valid(a) && Matches(ts, t, Show(a)) && Closed(rest)
    ensures Meaning(c, t) == a && Line(ts + rest) == Ok(c, rest)
    decreases a, 0
  {
    hide Simple, Line, Redirected, Matches, Sub, Wrap, LineEnd, Pipeline, Shorter, AllIn, Words;
    Split(ts, t, Sub(a.cmd), [S('&')]);
    var n := |Sub(a.cmd)|;
    OneSym(ts[n..], t, '&');
    var d := ParseSub(a.cmd, ts[..n], [Sym('&')] + rest, t);
    RedirectedNone(d, [Sym('&')] + rest);
    assert ts + rest == ts[..n] + ([Sym('&')] + rest);
    LineBack(ts + rest, d, rest);
    c := Back(d);
  }

  lemma RedirFits(ts: seq<Token>, t: string, file: string, mode: Mode)
    requires Matches(ts, t, [S(if mode == In then '<' else '>'), W(file)])
    ensures |ts| == 2 && ts == [ts[0], ts[1]] && ts[0] == Sym(if mode == In then '<' else '>')
    ensures ts[1].Word? && Text(ts[1], t) == file
  {
    var tail := [S(if mode == In then '<' else '>'), W(file)];
    assert Fits(ts[0], t, tail[0]) && Fits(ts[1], t, tail[1]);
  }

  lemma RunWords(a: Ast, ts: seq<Token>, t: string)
    requires a.Run? && Valid(a) && Matches(ts, t, Show(a))
    ensures |ts| < MAXARGS && (forall i :: 0 <= i < |ts| ==> ts[i].Word?) && Meaning(Exec(ts), t) == a
  {
    hide ValidWord, Text;
    assert forall i :: 0 <= i < |ts| ==> Fits(ts[i], t, Show(a)[i]);
  }

  lemma ParseRun(a: Ast, ts: seq<Token>, rest: seq<Token>, t: string) returns (c: Cmd)
    requires a.Run? && Valid(a) && Matches(ts, t, Show(a)) && Closed(rest)
    ensures Meaning(c, t) == a && Line(ts + rest) == Ok(c, rest)
  {
    hide Simple, Line, Args, Meaning, Matches, Valid, Show, Shorter, AllIn, Words;
    c := Exec(ts);
    RunWords(a, ts, t);
    ParseWords([], ts, rest);
    assert [] + ts == ts;
    SimpleWords(ts + rest);
    LineClosed(ts + rest, c, rest);
  }

  // Every valid command, printed, parses to itself.
  lemma RoundTrip(a: Ast)
    requires Valid(a)
    ensures var r := Command(Tokens(Print(a), 0)); r.Ok? && Meaning(r.value, Print(a)) == a
  {
    hide Line, Tokens, Matches, Meaning;
    var t := Print(a);
    ShowValid(a);
    assert t == "" + Render(Show(a));
    Lex("", Show(a), t);
    var ts := Tokens(t, 0);
    var c := ParseShow(a, ts, [], t);
    assert ts + [] == ts;
  }
}
