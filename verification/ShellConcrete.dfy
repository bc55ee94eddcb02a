/** Commands as one writes them, with parentheses only where one wants them: every line that
    follows the levels of the grammar is read as what it says. */
module ShellConcrete {
  import opened ShellSyntax
  import opened ShellRoundTrip

  // A word, or a redirection with one of the symbols <, > and >>.
  datatype Item = Wd(text: string) | Rd(c: char, file: string)

  datatype Syn =
    | Leaf(items: seq<Item>)            // words and redirections in any order
    | Paren(body: Syn, after: seq<Item>) // a line in parentheses, and redirections
    | Bar(left: Syn, right: Syn)
    | Amp(body: Syn)
    | Semi(left: Syn, right: Syn)

  // | binds closer than &, and & closer than ;.
  function Level(s: Syn): nat {
    match s
    case Leaf(_) => 0
    case Paren(_, _) => 0
    case Bar(_, _) => 1
    case Amp(_) => 2
    case Semi(_, _) => 3
  }

  predicate ValidItem(x: Item) {
    match x
    case Wd(w) => ValidWord(w)
    case Rd(c, file) => (c == '<' || c == '>' || c == '+') && ValidWord(file)
  }

  function WordsOf(items: seq<Item>): seq<string> {
    if items == [] then [] else (if items[0].Wd? then [items[0].text] else []) + WordsOf(items[1..])
  }

  function RedsOf(items: seq<Item>): (rs: seq<Item>)
    ensures forall r :: r in rs ==> r.Rd?
  {
    if items == [] then [] else (if items[0].Rd? then [items[0]] else []) + RedsOf(items[1..])
  }

  predicate Well(s: Syn) {
    match s
    case Leaf(items) => (forall x :: x in items ==> ValidItem(x)) && |WordsOf(items)| < MAXARGS
    case Paren(b, after) => Well(b) && forall x :: x in after ==> x.Rd? && ValidItem(x)
    case Bar(l, r) => Well(l) && Well(r) && Level(l) == 0 && Level(r) <= 1
    case Amp(b) => Well(b) && Level(b) <= 2
    case Semi(l, r) => Well(l) && Well(r) && Level(l) <= 2
  }

  // The commands that are redirected first are the inner ones.
  function Redirs(a: Ast, rs: seq<Item>): Ast
    requires forall r :: r in rs ==> r.Rd?
  {
    if rs == [] then a
    else
      var r := rs[|rs| - 1];
      To(Redirs(a, rs[..|rs| - 1]), r.file, if r.c == '<' then In else Out)
  }

  function Denote(s: Syn): Ast
    requires Well(s)
  {
    match s
    case Leaf(items) => Redirs(Run(WordsOf(items)), RedsOf(items))
    case Paren(b, after) => Redirs(Denote(b), after)
    case Bar(l, r) => Both(Denote(l), Denote(r))
    case Amp(b) => Aside(Denote(b))
    case Semi(l, r) => Then(Denote(l), Denote(r))
  }

  function ItemLexemes(x: Item): seq<Lexeme> {
    match x
    case Wd(w) => [W(w)]
    case Rd(c, file) => [S(c), W(file)]
  }

  function Items(items: seq<Item>): seq<Lexeme> {
    if items == [] then [] else ItemLexemes(items[0]) + Items(items[1..])
  }

  function Spell(s: Syn): seq<Lexeme> {
    match s
    case Leaf(items) => Items(items)
    case Paren(b, after) => [S('(')] + Spell(b) + [S(')')] + Items(after)
    case Bar(l, r) => Spell(l) + [S('|')] + Spell(r)
    case Amp(b) => Spell(b) + [S('&')]
    case Semi(l, r) => Spell(l) + [S(';')] + Spell(r)
  }

  // ---- words and redirections -------------------------------------------

  // A command without parentheses ends here.
  predicate Ends(rest: seq<Token>) {
    rest == [] || rest[0] == Sym('|') || rest[0] == Sym(')') || rest[0] == Sym('&') || rest[0] == Sym(';')
  }

  predicate SameReds(qs: seq<Redirect>, rs: seq<Item>, t: string) {
    |qs| == |rs| && forall i :: 0 <= i < |rs| ==>
      rs[i].Rd? && Text(qs[i].file, t) == rs[i].file && qs[i].mode == if rs[i].c == '<' then In else Out
  }

  predicate SameWords(xs: seq<Token>, ws: seq<string>, t: string) {
    |xs| == |ws| && forall i :: 0 <= i < |ws| ==> xs[i].Word? && Text(xs[i], t) == ws[i]
  }

  // The redirections that come first, and the items after them.
  function Lead(items: seq<Item>): (r: (seq<Item>, seq<Item>))
  {
    if items != [] && items[0].Rd? then
      var (rs, more) := Lead(items[1..]);
      ([items[0]] + rs, more)
    else ([], items)
  }

  lemma {:induction false} LeadIs(items: seq<Item>)
    ensures var (rs, more) := Lead(items);
      && |more| <= |items| && (forall x :: x in more ==> x in items) && (more != [] ==> more[0].Wd?)
      && RedsOf(items) == rs + RedsOf(more) && WordsOf(items) == WordsOf(more)
  {
    if items != [] && items[0].Rd? {
      LeadIs(items[1..]);
      assert forall x :: x in items[1..] ==> x in items;
    }
  }

  lemma TwoTokens(ts: seq<Token>, t: string, x: Item)
    requires x.Rd? && Matches(ts, t, ItemLexemes(x))
    ensures |ts| == 2 && ts[0] == Sym(x.c) && ts[1].Word? && Text(ts[1], t) == x.file
  {
    assert Fits(ts[0], t, ItemLexemes(x)[0]) && Fits(ts[1], t, ItemLexemes(x)[1]);
  }

  lemma OneToken(ts: seq<Token>, t: string, x: Item)
    requires x.Wd? && Matches(ts, t, ItemLexemes(x))
    ensures |ts| == 1 && ts[0].Word? && Text(ts[0], t) == x.text
  {
    assert Fits(ts[0], t, ItemLexemes(x)[0]);
  }

  lemma RedirsCons(k: Token, f: Token, ts: seq<Token>, qs: seq<Redirect>, rest: seq<Token>)
    requires (k == Sym('<') || k == Sym('>') || k == Sym('+')) && f.Word?
    requires ShellSyntax.Redirs(ts) == Ok(qs, rest)
    ensures ShellSyntax.Redirs([k, f] + ts) == Ok([Redirect(f, if k == Sym('<') then In else Out)] + qs, rest)
  {
    hide AllIn, Shorter, Files;
    var us := [k, f] + ts;
    assert us[2..] == ts && us[0] == k && us[1] == f;
  }

  // parseredirs takes the redirections that come first.
  lemma {:induction false} ParseLead(items: seq<Item>, ts: seq<Token>, rest: seq<Token>, t: string)
      returns (qs: seq<Redirect>, more: seq<Token>)
    requires (forall x :: x in items ==> ValidItem(x)) && Matches(ts, t, Items(items)) && Ends(rest)
    ensures ShellSyntax.Redirs(ts + rest) == Ok(qs, more + rest)
    ensures SameReds(qs, Lead(items).0, t) && Matches(more, t, Items(Lead(items).1))
    decreases |items|
  {
    hide ShellSyntax.Redirs, Matches, Text, ValidWord, SameReds, Ends, ItemLexemes;
    if items != [] && items[0].Rd? {
      var k, f, us := FirstRedir(items, ts, t);
      assert items[0] in items && forall x :: x in items[1..] ==> x in items;
      var ps;
      ps, more := ParseLead(items[1..], us, rest, t);
      RedirsCons(k, f, us + rest, ps, more + rest);
      assert ts + rest == [k, f] + (us + rest);
      qs := [Redirect(f, if k == Sym('<') then In else Out)] + ps;
      SameRedsCons(items[0], k, f, ps, Lead(items[1..]).0, t);
    } else {
      NoReds(t);
      qs, more := [], ts;
      NoLead(items, ts, rest, t);
    }
  }

  lemma FirstRedir(items: seq<Item>, ts: seq<Token>, t: string) returns (k: Token, f: Token, us: seq<Token>)
    requires items != [] && items[0].Rd? && Matches(ts, t, Items(items))
    ensures ts == [k, f] + us && k == Sym(items[0].c) && f.Word? && Text(f, t) == items[0].file
    ensures Matches(us, t, Items(items[1..]))
  {
    hide Text;
    Split(ts, t, ItemLexemes(items[0]), Items(items[1..]));
    TwoTokens(ts[..2], t, items[0]);
    k, f, us := ts[0], ts[1], ts[2..];
  }

  lemma FirstWord(items: seq<Item>, ts: seq<Token>, t: string) returns (w: Token, us: seq<Token>)
    requires items != [] && items[0].Wd? && Matches(ts, t, Items(items))
    ensures ts == [w] + us && w.Word? && Text(w, t) == items[0].text && Matches(us, t, Items(items[1..]))
  {
    hide Text;
    Split(ts, t, ItemLexemes(items[0]), Items(items[1..]));
    OneToken(ts[..1], t, items[0]);
    w, us := ts[0], ts[1..];
  }

  lemma SameRedsCons(x: Item, k: Token, f: Token, qs: seq<Redirect>, rs: seq<Item>, t: string)
    requires x.Rd? && k == Sym(x.c) && Text(f, t) == x.file && SameReds(qs, rs, t)
    ensures SameReds([Redirect(f, if k == Sym('<') then In else Out)] + qs, [x] + rs, t)
  {
    hide Text;
  }

  lemma SameWordsCons(w: Token, text: string, xs: seq<Token>, ws: seq<string>, t: string)
    requires w.Word? && Text(w, t) == text && SameWords(xs, ws, t)
    ensures SameWords([w] + xs, [text] + ws, t)
  {
    hide Text;
  }

  lemma NoReds(t: string)
    ensures SameReds([], [], t)
  {
  }

  lemma NoWords(t: string)
    ensures SameReds([], RedsOf([]), t) && SameWords([], WordsOf([]), t)
  {
  }

  lemma NoLead(items: seq<Item>, ts: seq<Token>, rest: seq<Token>, t: string)
    requires Matches(ts, t, Items(items)) && (items == [] || items[0].Wd?) && Ends(rest)
    ensures ShellSyntax.Redirs(ts + rest) == Ok([], ts + rest)
    ensures items == [] ==> ts == []
    ensures items != [] ==> ts != [] && ts[0].Word?
  {
    if items != [] {
      assert Items(items)[0] == W(items[0].text);
      assert Fits(ts[0], t, Items(items)[0]);
    }
    RedirsNone(ts + rest);
  }

  lemma ArgsEnd(args: seq<Token>, rs: seq<Redirect>, rest: seq<Token>)
    requires Ends(rest)
    ensures Args(args, rs, rest) == Ok(Wrap(Exec(args), rs), rest)
  {
    hide ShellSyntax.Redirs, AllIn, Shorter, Files, Words, Wrap;
  }

  lemma ArgsNext(args: seq<Token>, rs: seq<Redirect>, w: Token, ts: seq<Token>, qs: seq<Redirect>, more: seq<Token>)
    requires w.Word? && |args| + 1 < MAXARGS && ShellSyntax.Redirs(ts) == Ok(qs, more)
    ensures Args(args, rs, [w] + ts) == Args(args + [w], rs + qs, more)
  {
    hide ShellSyntax.Redirs, AllIn, Shorter, Files, Words, Wrap;
    assert ([w] + ts)[1..] == ts;
  }

  lemma ArgsJoin(args: seq<Token>, rs: seq<Redirect>, w: Token, us: seq<Token>, rest: seq<Token>,
                 ps: seq<Redirect>, more: seq<Token>, ys: seq<Token>, os: seq<Redirect>)
    requires w.Word? && |args| + 1 < MAXARGS && ShellSyntax.Redirs(us + rest) == Ok(ps, more + rest)
    requires Args(args + [w], rs + ps, more + rest) == Ok(Wrap(Exec(args + [w] + ys), rs + ps + os), rest)
    ensures Args(args, rs, [w] + us + rest) == Ok(Wrap(Exec(args + ([w] + ys)), rs + (ps + os)), rest)
  {
    hide ShellSyntax.Redirs, Args, Wrap;
    ArgsNext(args, rs, w, us + rest, ps, more + rest);
    Regroup([w], us, rest);
    Regroup(args, [w], ys);
    Regroup(rs, ps, os);
  }

  lemma Regroup<T>(a: seq<T>, b: seq<T>, c: seq<T>)
    ensures a + b + c == a + (b + c)
  {
  }

  // The words and redirections that are left after the words args and redirections rs.
  lemma {:induction false} ParseItems(args: seq<Token>, rs: seq<Redirect>, items: seq<Item>, ts: seq<Token>,
                                      rest: seq<Token>, t: string) returns (xs: seq<Token>, qs: seq<Redirect>)
    requires (forall x :: x in items ==> ValidItem(x)) && Matches(ts, t, Items(items)) && Ends(rest)
    requires (items == [] || items[0].Wd?) && |args| + |WordsOf(items)| < MAXARGS
    ensures Args(args, rs, ts + rest) == Ok(Wrap(Exec(args + xs), rs + qs), rest)
    ensures SameWords(xs, WordsOf(items), t) && SameReds(qs, RedsOf(items), t)
    decreases |items|
  {
    hide ShellSyntax.Redirs, Args, Matches, Text, ValidWord, Wrap, Ends, SameReds, SameWords, ItemLexemes, Items;
    hide Lead, ValidItem, WordsOf, RedsOf;
    if items == [] {
      xs, qs := [], [];
      NoWords(t);
      NoLead(items, ts, rest, t);
      assert ts + rest == rest && args + xs == args && rs + qs == rs;
      ArgsEnd(args, rs, rest);
    } else {
      var w, us := FirstWord(items, ts, t);
      var next := AfterWord(items);
      var ps, more := ParseLead(items[1..], us, rest, t);
      var ys, os := ParseItems(args + [w], rs + ps, next, more, rest, t);
      xs, qs := [w] + ys, ps + os;
      ArgsJoin(args, rs, w, us, rest, ps, more, ys, os);
      SameWordsCons(w, items[0].text, ys, WordsOf(next), t);
      SameRedsConcat(ps, os, Lead(items[1..]).0, RedsOf(next), t);
    }
  }

  lemma AfterWord(items: seq<Item>) returns (next: seq<Item>)
    requires items != [] && items[0].Wd? && forall x :: x in items ==> ValidItem(x)
    ensures next == Lead(items[1..]).1 && |next| < |items| && (next == [] || next[0].Wd?)
    ensures (forall x :: x in items[1..] ==> ValidItem(x)) && (forall x :: x in next ==> ValidItem(x))
    ensures WordsOf(items) == [items[0].text] + WordsOf(next)
    ensures RedsOf(items) == Lead(items[1..]).0 + RedsOf(next)
  {
    hide ValidItem, Lead;
    assert forall x :: x in items[1..] ==> x in items;
    LeadIs(items[1..]);
    next := Lead(items[1..]).1;
    assert RedsOf(items) == RedsOf(items[1..]) && WordsOf(items) == [items[0].text] + WordsOf(items[1..]);
  }

  lemma {:induction false} WrapMeaning(c: Cmd, qs: seq<Redirect>, rs: seq<Item>, t: string)
    requires SameReds(qs, rs, t) && forall r :: r in rs ==> r.Rd?
    ensures Meaning(Wrap(c, qs), t) == Redirs(Meaning(c, t), rs)
    decreases |qs|
  {
    hide Text, SameReds;
    if qs == [] {
      NoneLeft(rs, t);
    } else {
      var n := |qs| - 1;
      LastRed(qs, rs, t);
      assert rs[n] in rs && forall r :: r in rs[..n] ==> r in rs;
      WrapMeaning(c, qs[..n], rs[..n], t);
    }
  }

  lemma NoneLeft(rs: seq<Item>, t: string)
    requires SameReds([], rs, t)
    ensures rs == []
  {
  }

  lemma LastRed(qs: seq<Redirect>, rs: seq<Item>, t: string)
    requires qs != [] && SameReds(qs, rs, t)
    ensures var n := |qs| - 1;
      |rs| == n + 1 && SameReds(qs[..n], rs[..n], t)
      && rs[n].Rd? && Text(qs[n].file, t) == rs[n].file && qs[n].mode == if rs[n].c == '<' then In else Out
  {
    hide Text;
  }

  lemma WordsMeaning(xs: seq<Token>, ws: seq<string>, t: string)
    requires SameWords(xs, ws, t)
    ensures Meaning(Exec(xs), t) == Run(ws)
  {
  }

  // ---- the levels of the grammar ----------------------------------------

  lemma ParseLeaf(s: Syn, ts: seq<Token>, rest: seq<Token>, t: string) returns (c: Cmd)
    requires s.Leaf? && Well(s) && Matches(ts, t, Spell(s)) && Ends(rest)
    ensures Meaning(c, t) == Denote(s) && Simple(ts + rest) == Ok(c, rest)
  {
    hide ShellSyntax.Redirs, Args, Matches, Text, ValidItem, Wrap, Redirs;
    LeadIs(s.items);
    var rs, more := ParseLead(s.items, ts, rest, t);
    var xs, qs := ParseItems([], rs, Lead(s.items).1, more, rest, t);
    NotParen(s.items, ts, rest, t);
    SimpleArgs(ts + rest, rs, more + rest);
    assert [] + xs == xs;
    c := Wrap(Exec(xs), rs + qs);
    SameRedsConcat(rs, qs, Lead(s.items).0, RedsOf(Lead(s.items).1), t);
    WrapMeaning(Exec(xs), rs + qs, RedsOf(s.items), t);
    WordsMeaning(xs, WordsOf(s.items), t);
  }

  lemma SameRedsConcat(a: seq<Redirect>, b: seq<Redirect>, r: seq<Item>, s: seq<Item>, t: string)
    requires SameReds(a, r, t) && SameReds(b, s, t)
    ensures SameReds(a + b, r + s, t)
  {
    hide Text;
  }

  lemma NotParen(items: seq<Item>, ts: seq<Token>, rest: seq<Token>, t: string)
    requires (forall x :: x in items ==> ValidItem(x)) && Matches(ts, t, Items(items)) && Ends(rest)
    ensures !Starts(ts + rest, '(')
  {
    if items != [] {
      assert items[0] in items && ValidItem(items[0]);
      assert Items(items)[0] == ItemLexemes(items[0])[0];
      assert Fits(ts[0], t, Items(items)[0]);
    }
  }

  lemma SimpleArgs(ts: seq<Token>, rs: seq<Redirect>, more: seq<Token>)
    requires !Starts(ts, '(') && ShellSyntax.Redirs(ts) == Ok(rs, more)
    ensures Simple(ts) == Args([], rs, more)
  {
    hide Args, AllIn, Shorter, Files, Words;
  }

  lemma {:induction false} AllReds(rs: seq<Item>)
    requires forall r :: r in rs ==> r.Rd?
    ensures Lead(rs) == (rs, [])
  {
    if rs != [] {
      assert rs[0] in rs && forall r :: r in rs[1..] ==> r in rs;
      AllReds(rs[1..]);
      assert rs == [rs[0]] + rs[1..];
    }
  }

  lemma RedirectedAll(c: Cmd, ts: seq<Token>, rest: seq<Token>, qs: seq<Redirect>)
    requires ShellSyntax.Redirs(ts + rest) == Ok(qs, rest)
    ensures Redirected(c, ts + rest) == Ok(Wrap(c, qs), rest)
  {
    hide ShellSyntax.Redirs, Wrap;
  }

  lemma ParseParen(s: Syn, ts: seq<Token>, rest: seq<Token>, t: string) returns (c: Cmd)
    requires s.Paren? && Well(s) && Matches(ts, t, Spell(s)) && Ends(rest)
    ensures Meaning(c, t) == Denote(s) && Simple(ts + rest) == Ok(c, rest)
    decreases s, 0
  {
    hide Simple, Line, Redirected, Matches, Meaning, Spell, Denote, Well, ShellSyntax.Redirs, Wrap, Ends, Redirs;
    SpellParen(s);
    var n := |Spell(s.body)|;
    Split(ts, t, [S('(')] + Spell(s.body) + [S(')')], Items(s.after));
    Split(ts[..n + 2], t, [S('(')] + Spell(s.body), [S(')')]);
    Split(ts[..n + 2][..n + 1], t, [S('(')], Spell(s.body));
    OneSym(ts[..n + 2][n + 1..], t, ')');
    OneSym(ts[..n + 2][..n + 1][..1], t, '(');
    var inner, tail := ts[..n + 2][..n + 1][1..], ts[n + 2..];
    var d := ParseLine(s.body, inner, [Sym(')')] + (tail + rest), t);
    SimpleBlock(inner, tail + rest, d);
    assert ts + rest == [Sym('(')] + inner + [Sym(')')] + (tail + rest);
    AllReds(s.after);
    var qs, more := ParseLead(s.after, tail, rest, t);
    NoTokens(more, t);
    assert more + rest == rest;
    RedirectedAll(d, tail, rest, qs);
    c := Wrap(d, qs);
    WrapMeaning(d, qs, s.after, t);
  }

  lemma NoTokens(ts: seq<Token>, t: string)
    requires Matches(ts, t, Items([]))
    ensures ts == []
  {
  }

  lemma SpellParen(s: Syn)
    requires s.Paren? && Well(s)
    ensures Spell(s) == [S('(')] + Spell(s.body) + [S(')')] + Items(s.after)
    ensures Well(s.body) && (forall x :: x in s.after ==> x.Rd? && ValidItem(x))
    ensures Denote(s) == Redirs(Denote(s.body), s.after)
  {
  }

  lemma ParseSimple(s: Syn, ts: seq<Token>, rest: seq<Token>, t: string) returns (c: Cmd)
    requires Level(s) == 0 && Well(s) && Matches(ts, t, Spell(s)) && Ends(rest)
    ensures Meaning(c, t) == Denote(s) && Simple(ts + rest) == Ok(c, rest)
    decreases s, 1
  {
    hide Simple, Matches, Meaning, Spell, Denote, Well, Ends;
    if s.Leaf? {
      c := ParseLeaf(s, ts, rest, t);
    } else {
      c := ParseParen(s, ts, rest, t);
    }
  }

  // What may follow a pipe.
  predicate Follows(rest: seq<Token>) {
    rest == [] || rest[0] == Sym(')') || rest[0] == Sym('&') || rest[0] == Sym(';')
  }

  lemma ParsePipe(s: Syn, ts: seq<Token>, rest: seq<Token>, t: string) returns (c: Cmd)
    requires Level(s) <= 1 && Well(s) && Matches(ts, t, Spell(s)) && Follows(rest)
    ensures Meaning(c, t) == Denote(s) && Pipeline(ts + rest) == Ok(c, rest)
    decreases s, 2
  {
    hide Simple, Pipeline, Matches, Meaning, Spell, Denote, Well;
    if s.Bar? {
      SpellBar(s);
      var n := |Spell(s.left)|;
      var more := SplitAt(ts, t, Spell(s.left), '|', Spell(s.right));
      var l := ParseSimple(s.left, ts[..n], [Sym('|')] + (more + rest), t);
      var r := ParsePipe(s.right, more, rest, t);
      assert ts + rest == ts[..n] + ([Sym('|')] + (more + rest));
      PipeOf(ts + rest, l, more + rest, r, rest);
      c := Pipe(l, r);
      BarMeaning(l, r, t);
    } else {
      c := ParseSimple(s, ts, rest, t);
      PipeAlone(ts + rest, c, rest);
    }
  }

  lemma SplitAt(ts: seq<Token>, t: string, a: seq<Lexeme>, c: char, b: seq<Lexeme>) returns (more: seq<Token>)
    requires Matches(ts, t, a + [S(c)] + b)
    ensures |a| <= |ts| && Matches(ts[..|a|], t, a) && Matches(more, t, b) && ts == ts[..|a|] + ([Sym(c)] + more)
  {
    hide Matches;
    Split(ts, t, a + [S(c)], b);
    Split(ts[..|a| + 1], t, a, [S(c)]);
    OneSym(ts[..|a| + 1][|a|..], t, c);
    more := ts[|a| + 1..];
    assert ts[..|a| + 1][..|a|] == ts[..|a|];
  }

  lemma SpellBar(s: Syn)
    requires s.Bar? && Well(s)
    ensures Spell(s) == Spell(s.left) + [S('|')] + Spell(s.right)
    ensures Well(s.left) && Well(s.right) && Level(s.left) == 0 && Level(s.right) <= 1
    ensures Denote(s) == Both(Denote(s.left), Denote(s.right))
  {
  }

  lemma BarMeaning(l: Cmd, r: Cmd, t: string)
    ensures Meaning(Pipe(l, r), t) == Both(Meaning(l, t), Meaning(r, t))
    ensures Meaning(List(l, r), t) == Then(Meaning(l, t), Meaning(r, t))
    ensures Meaning(Back(l), t) == Aside(Meaning(l, t))
  {
  }

  lemma PipeOf(ts: seq<Token>, c: Cmd, more: seq<Token>, d: Cmd, rest: seq<Token>)
    requires Simple(ts) == Ok(c, [Sym('|')] + more) && Pipeline(more) == Ok(d, rest)
    ensures Pipeline(ts) == Ok(Pipe(c, d), rest)
  {
    hide Simple, AllIn, Shorter, Words;
    assert ([Sym('|')] + more)[1..] == more;
  }

  lemma PipeAlone(ts: seq<Token>, c: Cmd, rest: seq<Token>)
    requires Simple(ts) == Ok(c, rest) && !Starts(rest, '|')
    ensures Pipeline(ts) == Ok(c, rest)
  {
    hide Simple, AllIn, Shorter, Words;
  }

  // A pipe and any number of &, up to a ; or the end.
  lemma ParseHead(s: Syn, ts: seq<Token>, rest: seq<Token>, t: string) returns (c: Cmd)
    requires Level(s) <= 2 && Well(s) && Matches(ts, t, Spell(s)) && Follows(rest)
    ensures Meaning(c, t) == Denote(s) && Line(ts + rest) == LineEnd(c, rest)
    decreases s, 3
  {
    hide Simple, Pipeline, Line, LineEnd, Matches, Meaning, Spell, Denote, Well;
    if s.Amp? {
      SpellAmp(s);
      var n := |Spell(s.body)|;
      Split(ts, t, Spell(s.body), [S('&')]);
      OneSym(ts[n..], t, '&');
      var d := ParseHead(s.body, ts[..n], [Sym('&')] + rest, t);
      assert ts + rest == ts[..n] + ([Sym('&')] + rest);
      c := Back(d);
      EndBack(d, rest);
      BarMeaning(d, d, t);
    } else {
      c := ParsePipe(s, ts, rest, t);
      LineOf(ts + rest, c, rest);
    }
  }

  lemma SpellAmp(s: Syn)
    requires s.Amp? && Well(s)
    ensures Spell(s) == Spell(s.body) + [S('&')] && Well(s.body) && Level(s.body) <= 2
    ensures Denote(s) == Aside(Denote(s.body))
  {
  }

  lemma EndBack(c: Cmd, rest: seq<Token>)
    ensures LineEnd(c, [Sym('&')] + rest) == LineEnd(Back(c), rest)
  {
    hide Line, AllIn, Shorter, Words;
    assert ([Sym('&')] + rest)[1..] == rest;
  }

  lemma LineOf(ts: seq<Token>, c: Cmd, rest: seq<Token>)
    requires Pipeline(ts) == Ok(c, rest)
    ensures Line(ts) == LineEnd(c, rest)
  {
    hide Pipeline, LineEnd, AllIn, Shorter, Words;
  }

  lemma ParseLine(s: Syn, ts: seq<Token>, rest: seq<Token>, t: string) returns (c: Cmd)
    requires Well(s) && Matches(ts, t, Spell(s)) && Closed(rest)
    ensures Meaning(c, t) == Denote(s) && Line(ts + rest) == Ok(c, rest)
    decreases s, 4
  {
    hide Simple, Pipeline, Line, LineEnd, Matches, Meaning, Spell, Denote, Well;
    if s.Semi? {
      SpellSemi(s);
      var n := |Spell(s.left)|;
      var more := SplitAt(ts, t, Spell(s.left), ';', Spell(s.right));
      var l := ParseHead(s.left, ts[..n], [Sym(';')] + (more + rest), t);
      var r := ParseLine(s.right, more, rest, t);
      assert ts + rest == ts[..n] + ([Sym(';')] + (more + rest));
      EndList(l, more + rest, r, rest);
      c := List(l, r);
      BarMeaning(l, r, t);
    } else {
      c := ParseHead(s, ts, rest, t);
      EndClosed(c, rest);
    }
  }

  lemma SpellSemi(s: Syn)
    requires s.Semi? && Well(s)
    ensures Spell(s) == Spell(s.left) + [S(';')] + Spell(s.right)
    ensures Well(s.left) && Well(s.right) && Level(s.left) <= 2
    ensures Denote(s) == Then(Denote(s.left), Denote(s.right))
  {
  }

  lemma EndList(c: Cmd, more: seq<Token>, d: Cmd, rest: seq<Token>)
    requires Line(more) == Ok(d, rest)
    ensures LineEnd(c, [Sym(';')] + more) == Ok(List(c, d), rest)
  {
    hide Line, AllIn, Shorter, Words;
    assert ([Sym(';')] + more)[1..] == more;
  }

  lemma EndClosed(c: Cmd, rest: seq<Token>)
    requires Closed(rest)
    ensures LineEnd(c, rest) == Ok(c, rest)
  {
    hide Line, AllIn, Shorter, Words;
  }

  // ---- every line -------------------------------------------------------

  lemma {:induction false} ItemsValid(items: seq<Item>)
    requires forall x :: x in items ==> ValidItem(x)
    ensures forall l :: l in Items(items) ==> ValidLexeme(l)
  {
    if items != [] {
      assert items[0] in items && ValidItem(items[0]);
      assert forall x :: x in items[1..] ==> x in items;
      ItemsValid(items[1..]);
    }
  }

  lemma {:induction false} SpellValid(s: Syn)
    requires Well(s)
    ensures forall l :: l in Spell(s) ==> ValidLexeme(l)
  {
    match s
    case Leaf(items) => ItemsValid(items);
    case Paren(b, after) => SpellValid(b); ItemsValid(after);
    case Bar(l, r) => SpellValid(l); SpellValid(r);
    case Amp(b) => SpellValid(b);
    case Semi(l, r) => SpellValid(l); SpellValid(r);
  }

  // Blanks may stand anywhere between words and symbols, and must between two words, and
  // between a > and one that is not part of a >>.
  predicate Separate(a: Lexeme, b: Lexeme) {
    !(a.W? && b.W?) && !(a == S('>') && (b == S('>') || b == S('+')))
  }

  predicate Gaps(ls: seq<Lexeme>, gaps: seq<string>) {
    && |gaps| == |ls| + 1
    && (forall i :: 0 <= i < |gaps| ==> forall j :: 0 <= j < |gaps[i]| ==> Blank(gaps[i][j]))
    && (forall i :: 0 < i < |ls| && gaps[i] == "" ==> Separate(ls[i - 1], ls[i]))
  }

  function Spaced(ls: seq<Lexeme>, gaps: seq<string>): string
    requires |gaps| == |ls| + 1
  {
    if ls == [] then gaps[0] else gaps[0] + Shown(ls[0]) + Spaced(ls[1..], gaps[1..])
  }

  lemma {:induction false} SkipGap(t: string, s: nat, n: nat)
    requires s + n <= |t| && forall i :: s <= i < s + n ==> Blank(t[i])
    ensures Tokens(t, s) == Tokens(t, s + n)
    decreases n
  {
    hide Blank, Tokens, SkipBlanks;
    if n > 0 {
      SkipOne(t, s);
      SkipGap(t, s + 1, n - 1);
    }
  }

  lemma SkipOne(t: string, s: nat)
    requires s < |t| && Blank(t[s])
    ensures Tokens(t, s) == Tokens(t, s + 1)
  {
    hide Blank, TokenAt;
    assert SkipBlanks(t, s) == SkipBlanks(t, s + 1);
  }

  lemma {:induction false} WordStops(t: string, s: nat, e: nat)
    requires s <= e <= |t| && (e < |t| ==> Blank(t[e]) || Symbol(t[e])) && forall i :: s <= i < e ==> WordChar(t[i])
    ensures WordEnd(t, s) == e
    decreases e - s
  {
    if s < e {
      WordStops(t, s + 1, e);
    }
  }

  // Where a lexeme stops.
  predicate StopsAt(l: Lexeme, t: string, e: nat)
    requires e <= |t|
  {
    e < |t| ==> (l.W? ==> Blank(t[e]) || Symbol(t[e])) && (l == S('>') ==> t[e] != '>')
  }

  lemma LexAt(t: string, s: nat, l: Lexeme)
    requires ValidLexeme(l) && s + |Shown(l)| <= |t| && t[s..s + |Shown(l)|] == Shown(l)
    requires StopsAt(l, t, s + |Shown(l)|)
    ensures s < |t| && !Blank(t[s])
    ensures Fits(TokenAt(t, s).0, t, l) && TokenAt(t, s).1 == s + |Shown(l)|
  {
    var w := Shown(l);
    assert forall i :: 0 <= i < |w| ==> t[s + i] == w[i];
    assert t[s] == w[0];
    if l.W? {
      forall i | s <= i < s + |w|
        ensures WordChar(t[i])
      {
        assert t[i] == w[i - s];
      }
      WordStops(t, s + 1, s + |w|);
    }
  }

  lemma NextStops(ls: seq<Lexeme>, gaps: seq<string>, t: string, e: nat)
    requires ls != [] && Gaps(ls, gaps) && (forall l :: l in ls ==> ValidLexeme(l))
    requires e <= |t| && t[e..] == Spaced(ls[1..], gaps[1..])
    ensures StopsAt(ls[0], t, e)
  {
    var rest := Spaced(ls[1..], gaps[1..]);
    if e < |t| {
      assert t[e] == rest[0];
      if gaps[1] != "" {
        assert rest[0] == gaps[1][0] && Blank(gaps[1][0]);
      } else if |ls| > 1 {
        assert ls[1] in ls && ValidLexeme(ls[1]) && Separate(ls[0], ls[1]);
        assert rest == "" + Shown(ls[1]) + Spaced(ls[1..][1..], gaps[1..][1..]);
        assert rest[0] == Shown(ls[1])[0];
      }
    }
  }

  // A line has the tokens that it was written with, however it is spaced.
  lemma {:induction false} LexSpaced(pre: string, ls: seq<Lexeme>, gaps: seq<string>, t: string)
    requires |gaps| == |ls| + 1 && Gaps(ls, gaps)
    requires (forall l :: l in ls ==> ValidLexeme(l)) && t == pre + Spaced(ls, gaps)
    ensures Matches(Tokens(t, |pre|), t, ls)
    decreases |ls|
  {
    hide SkipBlanks, TokenAt, WordEnd, Tokens, Matches, Fits, ValidLexeme, Blank, Separate, Shown, Spaced, Gaps;
    var s := FirstGap(pre, ls, gaps, t);
    SkipGap(t, |pre|, |gaps[0]|);
    if ls == [] {
      LexNothing(t, s);
    } else {
      var w, rest := Shown(ls[0]), Spaced(ls[1..], gaps[1..]);
      var pre' := pre + gaps[0] + w;
      Slices(pre, gaps[0], w, rest, t);
      assert ls[0] in ls && forall l :: l in ls[1..] ==> l in ls;
      NextStops(ls, gaps, t, s + |w|);
      LexAt(t, s, ls[0]);
      GapsRest(ls, gaps);
      LexSpaced(pre', ls[1..], gaps[1..], t);
      LexFirst(t, s);
      MatchesCons(TokenAt(t, s).0, Tokens(t, s + |w|), t, ls);
    }
  }

  lemma FirstGap(pre: string, ls: seq<Lexeme>, gaps: seq<string>, t: string) returns (s: nat)
    requires Gaps(ls, gaps) && t == pre + Spaced(ls, gaps)
    ensures s == |pre| + |gaps[0]| <= |t| && forall i :: |pre| <= i < s ==> Blank(t[i])
    ensures ls == [] ==> s == |t|
    ensures ls != [] ==> t == pre + (gaps[0] + Shown(ls[0]) + Spaced(ls[1..], gaps[1..]))
  {
    hide Blank, Separate, Shown;
    s := |pre| + |gaps[0]|;
    forall i | |pre| <= i < s
      ensures Blank(t[i])
    {
      assert t[i] == gaps[0][i - |pre|];
    }
  }

  lemma Slices(pre: string, gap: string, w: string, rest: string, t: string)
    requires t == pre + (gap + w + rest)
    ensures var s := |pre| + |gap|;
      s + |w| <= |t| && t == (pre + gap + w) + rest && t[s..s + |w|] == w && t[s + |w|..] == rest
  {
  }

  lemma LexNothing(t: string, s: nat)
    requires s == |t|
    ensures Matches(Tokens(t, s), t, [])
  {
  }

  lemma GapsRest(ls: seq<Lexeme>, gaps: seq<string>)
    requires ls != [] && Gaps(ls, gaps)
    ensures Gaps(ls[1..], gaps[1..])
  {
    hide Blank, Separate;
  }

  // What is written is what is read.
  lemma ReadsAsWritten(s: Syn, gaps: seq<string>)
    requires Well(s) && Gaps(Spell(s), gaps)
    ensures var t := Spaced(Spell(s), gaps);
      var r := Command(Tokens(t, 0)); r.Ok? && Meaning(r.value, t) == Denote(s)
  {
    assert |gaps| == |Spell(s)| + 1;
    hide Line, Tokens, Matches, Meaning, Spell, Denote, Well, Gaps;
    var t := Spaced(Spell(s), gaps);
    SpellValid(s);
    assert t == "" + Spaced(Spell(s), gaps);
    LexSpaced("", Spell(s), gaps, t);
    var ts := Tokens(t, 0);
    var c := ParseLine(s, ts, [], t);
    assert ts + [] == ts;
  }

  // ---- as few parentheses as the grammar allows -------------------------

  function Grouped(s: Syn, level: nat): Syn {
    if Level(s) <= level then s else Paren(s, [])
  }

  function Redirecting(s: Syn, r: Item): Syn {
    match s
    case Leaf(items) => Leaf(items + [r])
    case Paren(b, after) => Paren(b, after + [r])
    case _ => Paren(s, [r])
  }

  function Minimal(a: Ast): Syn {
    match a
    case Run(args) => Leaf(seq(|args|, i requires 0 <= i < |args| => Wd(args[i])))
    case To(b, file, mode) => Redirecting(Minimal(b), Rd(if mode == In then '<' else '>', file))
    case Both(l, r) => Bar(Grouped(Minimal(l), 0), Grouped(Minimal(r), 1))
    case Then(l, r) => Semi(Grouped(Minimal(l), 2), Minimal(r))
    case Aside(b) => Amp(Grouped(Minimal(b), 2))
  }

  lemma {:induction false} ItemsConcat(a: seq<Item>, r: Item)
    ensures WordsOf(a + [r]) == WordsOf(a) + if r.Wd? then [r.text] else []
    ensures RedsOf(a + [r]) == RedsOf(a) + if r.Rd? then [r] else []
  {
    if a == [] {
      assert a + [r] == [r];
    } else {
      assert (a + [r])[1..] == a[1..] + [r];
      ItemsConcat(a[1..], r);
    }
  }

  lemma {:induction false} WordsOnly(args: seq<string>)
    ensures var items := seq(|args|, i requires 0 <= i < |args| => Wd(args[i]));
      WordsOf(items) == args && RedsOf(items) == []
  {
    var items := seq(|args|, i requires 0 <= i < |args| => Wd(args[i]));
    if args != [] {
      assert items[1..] == seq(|args[1..]|, i requires 0 <= i < |args[1..]| => Wd(args[1..][i]));
      WordsOnly(args[1..]);
    }
  }

  lemma RedirectingIs(s: Syn, r: Item)
    requires Well(s) && r.Rd? && ValidItem(r)
    ensures Well(Redirecting(s, r))
    ensures Denote(Redirecting(s, r)) == To(Denote(s), r.file, if r.c == '<' then In else Out)
  {
    match s
    case Leaf(items) =>
      ItemsConcat(items, r);
      var rs := RedsOf(items) + [r];
      assert rs[..|rs| - 1] == RedsOf(items) && rs[|rs| - 1] == r;
      assert RedsOf(items + [r]) == rs && WordsOf(items + [r]) == WordsOf(items);
    case Paren(b, after) =>
      assert (after + [r])[..|after|] == after;
    case _ =>
      assert [r][..0] == [] && Redirs(Denote(s), []) == Denote(s);
  }

  // It is read back as the command that it was made for.
  lemma {:induction false} MinimalIs(a: Ast)
    requires Valid(a)
    ensures Well(Minimal(a)) && Denote(Minimal(a)) == a
  {
    match a
    case Run(args) => WordsOnly(args);
    case To(b, file, mode) =>
      MinimalIs(b);
      RedirectingIs(Minimal(b), Rd(if mode == In then '<' else '>', file));
    case Both(l, r) =>
      MinimalIs(l);
      MinimalIs(r);
    case Then(l, r) =>
      MinimalIs(l);
      MinimalIs(r);
    case Aside(b) =>
      MinimalIs(b);
  }

  lemma MinimalRoundTrip(a: Ast, gaps: seq<string>)
    requires Valid(a) && Gaps(Spell(Minimal(a)), gaps)
    ensures var t := Spaced(Spell(Minimal(a)), gaps);
      var r := Command(Tokens(t, 0)); r.Ok? && Meaning(r.value, t) == a
  {
    MinimalIs(a);
    ReadsAsWritten(Minimal(a), gaps);
  }

  // No parentheses at all where none are needed.
  predicate Plain(s: Syn) {
    match s
    case Leaf(_) => true
    case Paren(_, _) => false
    case Bar(l, r) => Plain(l) && Plain(r)
    case Amp(b) => Plain(b)
    case Semi(l, r) => Plain(l) && Plain(r)
  }

  lemma {:induction false} MinimalPlain(s: Syn)
    requires Well(s) && Plain(s)
    ensures Plain(Minimal(Denote(s))) && Level(Minimal(Denote(s))) == Level(s)
  {
    match s
    case Leaf(items) => LeafPlain(Run(WordsOf(items)), RedsOf(items));
    case Bar(l, r) =>
      MinimalPlain(l);
      MinimalPlain(r);
    case Amp(b) => MinimalPlain(b);
    case Semi(l, r) =>
      MinimalPlain(l);
      MinimalPlain(r);
  }

  lemma {:induction false} LeafPlain(a: Ast, rs: seq<Item>)
    requires a.Run? && forall r :: r in rs ==> r.Rd?
    ensures Minimal(Redirs(a, rs)).Leaf?
    decreases |rs|
  {
    if rs != [] {
      assert forall r :: r in rs[..|rs| - 1] ==> r in rs;
      LeafPlain(a, rs[..|rs| - 1]);
    }
  }
}
