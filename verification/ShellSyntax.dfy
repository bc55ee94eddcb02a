/** The command language of the shell: tokens, the grammar that sh.c parses, and the fully
    parenthesised way to write a command. */
module ShellSyntax {
  const MAXARGS := 10

  predicate Blank(c: char) {
    c == ' ' || c == '\t' || c == '\r' || c == '\n' || c == '\U{000b}'
  }

  predicate Symbol(c: char) {
    c == '<' || c == '|' || c == '>' || c == '&' || c == ';' || c == '(' || c == ')'
  }

  // The characters of the shell are apart, and all others are those of words.
  lemma Characters(c: char)
    ensures Blank(c) <==> c in " \t\r\n\U{000b}"
    ensures Symbol(c) <==> c in "<|>&;()"
    ensures WordChar(c) <==> c !in " \t\r\n\U{000b}<|>&;()\0"
  {
  }

  predicate WordChar(c: char) {
    !Blank(c) && !Symbol(c) && c != '\0'
  }

  // A word is given by where it starts and ends in the line; the symbol of >> is '+'.
  datatype Token = Word(q: nat, eq: nat) | Sym(c: char)

  datatype Mode = In | Out

  datatype Redirect = Redirect(file: Token, mode: Mode)

  datatype Cmd =
    | Exec(args: seq<Token>)
    | Redir(cmd: Cmd, how: Redirect)
    | Pipe(left: Cmd, right: Cmd)
    | List(left: Cmd, right: Cmd)
    | Back(cmd: Cmd)

  // Why the shell panics.
  datatype Error = Syntax | NoFile | NoParen | TooMany | Leftovers

  // ---- tokens of a line -------------------------------------------------

  function SkipBlanks(t: string, s: nat): (b: nat)
    requires s <= |t|
    ensures s <= b <= |t| && (b < |t| ==> !Blank(t[b])) && forall i :: s <= i < b ==> Blank(t[i])
    decreases |t| - s
  {
    if s < |t| && Blank(t[s]) then SkipBlanks(t, s + 1) else s
  }

  function WordEnd(t: string, s: nat): (e: nat)
    requires s <= |t|
    ensures s <= e <= |t| && (e < |t| ==> Blank(t[e]) || Symbol(t[e]))
    ensures forall i :: s <= i < e ==> !Blank(t[i]) && !Symbol(t[i])
    decreases |t| - s
  {
    if s < |t| && !Blank(t[s]) && !Symbol(t[s]) then WordEnd(t, s + 1) else s
  }

  // The token that starts at b, and where it ends.
  function TokenAt(t: string, b: nat): (r: (Token, nat))
    requires b < |t| && !Blank(t[b])
    ensures b < r.1 <= |t|
    ensures r.0.Sym? ==> Symbol(r.0.c) || r.0.c == '+'
  {
    if t[b] == '>' && b + 1 < |t| && t[b + 1] == '>' then (Sym('+'), b + 2)
    else if Symbol(t[b]) then (Sym(t[b]), b + 1)
    else
      var e := WordEnd(t, b + 1);
      (Word(b, e), e)
  }

  function Tokens(t: string, s: nat): (ts: seq<Token>)
    requires s <= |t|
    decreases |t| - s
  {
    var b := SkipBlanks(t, s);
    if b == |t| then []
    else
      var (k, e) := TokenAt(t, b);
      [k] + Tokens(t, e)
  }

  // ---- the grammar ------------------------------------------------------

  datatype Result<T> = Ok(value: T, rest: seq<Token>) | Fail(error: Error)

  predicate Starts(ts: seq<Token>, c: char) {
    ts != [] && ts[0] == Sym(c)
  }

  function Words(c: Cmd): set<Token> {
    match c
    case Exec(args) => set w | w in args
    case Redir(d, how) => Words(d) + {how.file}
    case Pipe(l, r) => Words(l) + Words(r)
    case List(l, r) => Words(l) + Words(r)
    case Back(d) => Words(d)
  }

  function Files(rs: seq<Redirect>): set<Token> {
    set i | 0 <= i < |rs| :: rs[i].file
  }

  // Later redirections are outermost.
  function Wrap(c: Cmd, rs: seq<Redirect>): Cmd {
    if rs == [] then c else Redir(Wrap(c, rs[..|rs| - 1]), rs[|rs| - 1])
  }

  ghost predicate AllIn(ws: set<Token>, ts: seq<Token>) {
    forall w :: w in ws ==> w.Word? && w in ts
  }

  // ws are known or are words of ts.
  ghost predicate Among(ws: set<Token>, known: set<Token>, ts: seq<Token>) {
    forall w :: w in ws ==> w in known || (w.Word? && w in ts)
  }

  lemma AmongMore(ws: set<Token>, known: set<Token>, rest: seq<Token>, ts: seq<Token>)
    requires ts != [] && Shorter(rest, ts[1..]) && (Among(ws, known, ts[1..]) || AllIn(ws, ts[1..]))
    ensures Shorter(rest, ts) && Among(ws, known, ts)
  {
    assert rest == ts[1..][|ts| - 1 - |rest|..] == ts[|ts| - |rest|..];
  }

  // What is left over is the end of what there was.
  ghost predicate Shorter(rest: seq<Token>, ts: seq<Token>) {
    |rest| <= |ts| && rest == ts[|ts| - |rest|..]
  }

  predicate NoRedir(ts: seq<Token>) {
    ts == [] || (ts[0] != Sym('<') && ts[0] != Sym('>') && ts[0] != Sym('+'))
  }

  // < file, > file and >> file, as many as there are; > and >> are parsed alike.
  function Redirs(ts: seq<Token>): (r: Result<seq<Redirect>>)
    ensures r.Ok? ==> Shorter(r.rest, ts) && AllIn(Files(r.value), ts)
    decreases |ts|
  {
    if Starts(ts, '<') || Starts(ts, '>') || Starts(ts, '+') then
      if |ts| >= 2 && ts[1].Word? then
        match Redirs(ts[2..])
        case Ok(rs, rest) => Ok([Redirect(ts[1], if ts[0].c == '<' then In else Out)] + rs, rest)
        case Fail(e) => Fail(e)
      else Fail(NoFile)
    else Ok([], ts)
  }

  // parseline: a pipe, any number of &, and ; with another line.
  function Line(ts: seq<Token>): (r: Result<Cmd>)
    ensures r.Ok? ==> Shorter(r.rest, ts) && AllIn(Words(r.value), ts)
    decreases |ts|, 4
  {
    match Pipeline(ts)
    case Fail(e) => Fail(e)
    case Ok(c, rest) => LineEnd(c, rest)
  }

  function LineEnd(c: Cmd, ts: seq<Token>): (r: Result<Cmd>)
    ensures r.Ok? ==> Shorter(r.rest, ts) && Among(Words(r.value), Words(c), ts)
    decreases |ts|, 0
  {
    if Starts(ts, '&') then
      var r := LineEnd(Back(c), ts[1..]);
      if r.Ok? then AmongMore(Words(r.value), Words(c), r.rest, ts); r else r
    else if Starts(ts, ';') then
      match Line(ts[1..])
      case Fail(e) => Fail(e)
      case Ok(d, rest) =>
        AmongMore(Words(d), {}, rest, ts);
        Ok(List(c, d), rest)
    else Ok(c, ts)
  }

  // parsepipe
  function Pipeline(ts: seq<Token>): (r: Result<Cmd>)
    ensures r.Ok? ==> Shorter(r.rest, ts) && AllIn(Words(r.value), ts)
    decreases |ts|, 3
  {
    match Simple(ts)
    case Fail(e) => Fail(e)
    case Ok(c, rest) =>
      if Starts(rest, '|') then
        match Pipeline(rest[1..])
        case Fail(e) => Fail(e)
        case Ok(d, rest') => Ok(Pipe(c, d), rest')
      else Ok(c, rest)
  }

  // parseexec: a block in parentheses, or words and redirections.
  function Simple(ts: seq<Token>): (r: Result<Cmd>)
    ensures r.Ok? ==> Shorter(r.rest, ts) && AllIn(Words(r.value), ts)
    decreases |ts|, 2
  {
    if Starts(ts, '(') then Block(ts)
    else
      match Redirs(ts)
      case Fail(e) => Fail(e)
      case Ok(rs, rest) => Args([], rs, rest)
  }

  // The rest of a command after the words args and the redirections rs.
  function Args(args: seq<Token>, rs: seq<Redirect>, ts: seq<Token>): (r: Result<Cmd>)
    ensures r.Ok? ==>
      && Shorter(r.rest, ts)
      && Among(Words(r.value), (set w | w in args) + Files(rs), ts)
    decreases |ts|, 1
  {
    if ts == [] || Starts(ts, '|') || Starts(ts, ')') || Starts(ts, '&') || Starts(ts, ';') then
      WrapWords(Exec(args), rs);
      Ok(Wrap(Exec(args), rs), ts)
    else if !ts[0].Word? then Fail(Syntax)
    else if |args| + 1 >= MAXARGS then Fail(TooMany)
    else
      match Redirs(ts[1..])
      case Fail(e) => Fail(e)
      case Ok(more, rest) =>
        FilesMore(rs, more);
        Args(args + [ts[0]], rs + more, rest)
  }

  // parseblock
  function Block(ts: seq<Token>): (r: Result<Cmd>)
    requires Starts(ts, '(')
    ensures r.Ok? ==> Shorter(r.rest, ts) && AllIn(Words(r.value), ts)
    decreases |ts|, 1
  {
    match Line(ts[1..])
    case Fail(e) => Fail(e)
    case Ok(c, rest) =>
      if !Starts(rest, ')') then Fail(NoParen)
      else
        match Redirs(rest[1..])
        case Fail(e) => Fail(e)
        case Ok(rs, rest') =>
          WrapWords(c, rs);
          Ok(Wrap(c, rs), rest')
  }

  lemma FilesMore(rs: seq<Redirect>, more: seq<Redirect>)
    ensures Files(rs + more) == Files(rs) + Files(more)
  {
    forall w | w in Files(rs) + Files(more)
      ensures w in Files(rs + more)
    {
      if w in Files(rs) {
        var i :| 0 <= i < |rs| && rs[i].file == w;
        assert (rs + more)[i].file == w;
      } else {
        var i :| 0 <= i < |more| && more[i].file == w;
        assert (rs + more)[|rs| + i].file == w;
      }
    }
  }

  lemma {:induction false} WrapWords(c: Cmd, rs: seq<Redirect>)
    ensures Words(Wrap(c, rs)) == Words(c) + Files(rs)
  {
    if rs != [] {
      WrapWords(c, rs[..|rs| - 1]);
      FilesMore(rs[..|rs| - 1], [rs[|rs| - 1]]);
      assert rs == rs[..|rs| - 1] + [rs[|rs| - 1]];
      assert Files([rs[|rs| - 1]]) == {rs[|rs| - 1].file} by {
        assert [rs[|rs| - 1]][0].file == rs[|rs| - 1].file;
      }
    }
  }

  // parsecmd: a line, and nothing else.
  function Command(ts: seq<Token>): Result<Cmd> {
    match Line(ts)
    case Fail(e) => Fail(e)
    case Ok(c, rest) => if rest == [] then Ok(c, []) else Fail(Leftovers)
  }
}
