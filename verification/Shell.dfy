/** The parser of sh.c: a cursor that gettoken and peek move over the line, a procedure for
    each level of the grammar, and the pass that ends every word with a NUL in place. */
module Shell {
  import opened ShellSyntax

  // What a procedure of the parser gives: a command, or the panic that ends the shell.
  datatype Parsed = Done(cmd: Cmd) | Panic(error: Error)

  predicate NoNul(t: string) {
    forall i :: 0 <= i < |t| ==> t[i] != '\0'
  }

  ghost predicate Agrees(r: Parsed, spec: Result<Cmd>, rest: seq<Token>) {
    match spec
    case Ok(c, rest') => r == Done(c) && rest == rest'
    case Fail(e) => r == Panic(e)
  }

  // The character that peek sees at a token.
  function First(k: Token): char {
    if k.Word? then 'a' else if k.c == '+' then '>' else k.c
  }

  lemma TokensFrom(t: string, s: nat)
    requires s <= |t|
    ensures Tokens(t, SkipBlanks(t, s)) == Tokens(t, s)
  {
    SkipTwice(t, s);
  }

  lemma {:induction false} SkipTwice(t: string, s: nat)
    requires s <= |t|
    ensures SkipBlanks(t, SkipBlanks(t, s)) == SkipBlanks(t, s)
    decreases |t| - s
  {
    if s < |t| && Blank(t[s]) {
      SkipTwice(t, s + 1);
    }
  }

  lemma WordExtent(t: string, b: nat)
    requires b < |t| && !Blank(t[b])
    ensures var (k, e) := TokenAt(t, b); k.Word? ==> k == Word(b, e)
  {
  }

  predicate AtStop(ts: seq<Token>) {
    ts != [] && (ts[0] == Sym('|') || ts[0] == Sym(')') || ts[0] == Sym('&') || ts[0] == Sym(';'))
  }

  lemma ArgsStep(args: seq<Token>, rs: seq<Redirect>, ts: seq<Token>)
    ensures ts == [] || AtStop(ts) ==> Args(args, rs, ts) == Ok(Wrap(Exec(args), rs), ts)
    ensures ts != [] && !AtStop(ts) && !ts[0].Word? ==> Args(args, rs, ts) == Fail(Syntax)
    ensures ts != [] && ts[0].Word? && |args| + 1 >= MAXARGS ==> Args(args, rs, ts) == Fail(TooMany)
    ensures ts != [] && ts[0].Word? && |args| + 1 < MAXARGS ==>
      && (Redirs(ts[1..]).Fail? ==> Args(args, rs, ts) == Fail(Redirs(ts[1..]).error))
      && (Redirs(ts[1..]).Ok? ==>
            Args(args, rs, ts) == Args(args + [ts[0]], rs + Redirs(ts[1..]).value, Redirs(ts[1..]).rest))
  {
    hide Shorter, AllIn, Words, Files, Redirs, Wrap;
  }

  // Redirections rs are read, and r is the result of reading on.
  ghost predicate SoFar(rs: seq<Redirect>, r: Result<seq<Redirect>>, whole: Result<seq<Redirect>>) {
    match r
    case Ok(more, rest) => whole == Ok(rs + more, rest)
    case Fail(e) => whole == Fail(e)
  }

  lemma RedirsStep(rs: seq<Redirect>, ts: seq<Token>, whole: Result<seq<Redirect>>)
    requires !NoRedir(ts) && SoFar(rs, Redirs(ts), whole)
    ensures |ts| < 2 || !ts[1].Word? ==> whole == Fail(NoFile)
    ensures |ts| >= 2 && ts[1].Word? ==>
      SoFar(rs + [Redirect(ts[1], if ts[0].c == '<' then In else Out)], Redirs(ts[2..]), whole)
  {
    hide Shorter, AllIn, Files;
    if |ts| >= 2 && ts[1].Word? {
      var r := Redirect(ts[1], if ts[0].c == '<' then In else Out);
      if Redirs(ts[2..]).Ok? {
        assert rs + ([r] + Redirs(ts[2..]).value) == rs + [r] + Redirs(ts[2..]).value;
      }
    }
  }

  lemma RedirsStart(ts: seq<Token>)
    ensures SoFar([], Redirs(ts), Redirs(ts))
  {
    if Redirs(ts).Ok? {
      assert [] + Redirs(ts).value == Redirs(ts).value;
    }
  }

  lemma RedirsDone(rs: seq<Redirect>, ts: seq<Token>, whole: Result<seq<Redirect>>)
    requires NoRedir(ts) && SoFar(rs, Redirs(ts), whole)
    ensures whole == Ok(rs, ts)
  {
    assert rs + [] == rs;
  }

  // ---- the words of a line ----------------------------------------------

  // A word's text, with the blank, symbol or end that it stops at.
  ghost predicate IsWord(t: string, w: Token) {
    && w.Word? && w.q < w.eq <= |t| && (w.eq == |t| || Blank(t[w.eq]) || Symbol(t[w.eq]))
    && forall i :: w.q <= i < w.eq ==> !Blank(t[i]) && !Symbol(t[i])
  }

  lemma {:induction false} TokensWords(t: string, s: nat, w: Token)
    requires s <= |t| && w in Tokens(t, s) && w.Word?
    ensures IsWord(t, w)
    decreases |t| - s
  {
    var b := SkipBlanks(t, s);
    if b < |t| {
      var (k, e) := TokenAt(t, b);
      if w != k {
        TokensWords(t, e, w);
      }
    }
  }

  lemma CommandWords(t: string, c: Cmd, rest: seq<Token>)
    requires Line(Tokens(t, 0)) == Ok(c, rest)
    ensures forall w :: w in Words(c) ==> IsWord(t, w)
  {
    hide Tokens, Line, Words;
    forall w | w in Words(c)
      ensures IsWord(t, w)
    {
      TokensWords(t, 0, w);
    }
  }

  ghost predicate Ends(ws: set<Token>, i: nat) {
    exists w :: w in ws && w.Word? && w.eq == i
  }

  // The string at q: up to the first NUL.
  function CString(b: string, q: nat): string
    decreases |b| - q
  {
    if q < |b| && b[q] != '\0' then [b[q]] + CString(b, q + 1) else ""
  }

  lemma {:induction false} CStringIs(b: string, q: nat, e: nat)
    requires q <= e < |b| && b[e] == '\0' && forall i :: q <= i < e ==> b[i] != '\0'
    ensures CString(b, q) == b[q..e]
    decreases e - q
  {
    if q < e {
      CStringIs(b, q + 1, e);
      assert b[q..e] == [b[q]] + b[q + 1..e];
    }
  }

  // No word ends inside another, so every word is whole.
  lemma ReadBack(t: string, b: string, ws: set<Token>)
    requires NoNul(t) && |b| == |t| + 1 && (forall w :: w in ws ==> IsWord(t, w))
    requires forall i :: 0 <= i < |t| ==> b[i] == if Ends(ws, i) then '\0' else t[i]
    requires b[|t|] == '\0'
    ensures forall w :: w in ws ==> IsWord(t, w) && CString(b, w.q) == t[w.q..w.eq]
  {
    forall w | w in ws
      ensures CString(b, w.q) == t[w.q..w.eq]
    {
      assert w.eq < |t| ==> Ends(ws, w.eq);
      CStringIs(b, w.q, w.eq);
      assert b[w.q..w.eq] == t[w.q..w.eq];
    }
  }

  class Parser {
    const buf: array<char>
    const es: nat
    var s: nat

    ghost predicate Valid()
      reads this, buf
    {
      buf.Length == es + 1 && s <= es && NoNul(buf[..es]) && buf[es] == '\0'
    }

    ghost function Rest(): seq<Token>
      requires Valid()
      reads this, buf
    {
      Tokens(buf[..es], s)
    }

    // The line is copied with the NUL that ends it.
    constructor (line: string)
      requires NoNul(line)
      ensures Valid() && buf[..es] == line && s == 0 && fresh(buf)
    {
      es, s := |line|, 0;
      buf := new char[|line| + 1](i requires 0 <= i <= |line| => if i < |line| then line[i] else '\0');
    }

    method SkipSpace()
      requires Valid()
      modifies `s
      ensures Valid() && s == SkipBlanks(buf[..es], old(s))
    {
      while s < es && Blank(buf[s])
        invariant s <= es && SkipBlanks(buf[..es], s) == SkipBlanks(buf[..es], old(s))
      {
        s := s + 1;
      }
    }

    method Peek(toks: string) returns (r: bool)
      requires Valid() && forall c :: c in toks ==> Symbol(c)
      modifies `s
      ensures Valid() && old(s) <= s && Rest() == old(Rest())
      ensures r <==> Rest() != [] && First(Rest()[0]) in toks
      ensures toks == "" && Rest() == [] ==> s == es
      ensures s == es ==> Rest() == []
    {
      TokensFrom(buf[..es], s);
      SkipSpace();
      r := buf[s] != '\0' && buf[s] in toks;
    }

    // The switch of gettoken, at a character that is not blank.
    method ScanToken() returns (ret: char)
      requires Valid() && (s < es ==> !Blank(buf[s]))
      modifies `s
      ensures Valid() && (old(s) == es ==> ret == '\0' && s == es)
      ensures old(s) < es ==>
        var (k, e) := TokenAt(buf[..es], old(s)); s == e && ret == if k.Word? then 'a' else k.c
    {
      ghost var t, b := buf[..es], s;
      ret := buf[s];
      if ret == '\0' {
      } else if ret == '|' || ret == '(' || ret == ')' || ret == ';' || ret == '&' || ret == '<' {
        s := s + 1;
      } else if ret == '>' {
        s := s + 1;
        if buf[s] == '>' {
          ret := '+';
          s := s + 1;
        }
      } else {
        ret := 'a';
        assert WordEnd(t, b) == WordEnd(t, b + 1);
        while s < es && !Blank(buf[s]) && !Symbol(buf[s])
          invariant b <= s <= es && WordEnd(t, s) == WordEnd(t, b)
        {
          s := s + 1;
        }
      }
    }

    method Gettoken() returns (ret: char, q: nat, eq: nat)
      requires Valid()
      modifies `s
      ensures Valid() && old(s) <= s
      ensures old(Rest()) == [] ==> ret == '\0' && Rest() == []
      ensures old(Rest()) != [] ==>
        && old(s) < s && Rest() == old(Rest())[1..]
        && ret != '\0' && (ret == 'a' <==> old(Rest())[0].Word?)
        && match old(Rest())[0] { case Word(b, e) => q == b && eq == e case Sym(c) => ret == c }
    {
      hide TokenAt, WordEnd;
      ghost var t := buf[..es];
      SkipSpace();
      q := s;
      ret := ScanToken();
      eq := s;
      if q < es {
        WordExtent(t, q);
      }
      TokensFrom(t, s);
      SkipSpace();
    }

    method ParseRedirs() returns (ok: bool, rs: seq<Redirect>)
      requires Valid()
      modifies `s
      ensures Valid() && old(s) <= s
      ensures match Redirs(old(Rest())) {
        case Ok(x, rest) => ok && rs == x && Rest() == rest
        case Fail(e) => !ok && e == NoFile
      }
    {
      hide Tokens, Shorter, AllIn, Files;
      ghost var ts := Rest();
      rs := [];
      RedirsStart(ts);
      var more := Peek("<>");
      while more
        invariant Valid() && old(s) <= s && (more <==> !NoRedir(Rest())) && SoFar(rs, Redirs(Rest()), Redirs(ts))
        decreases es - s
      {
        var tok, ret, q, eq;
        RedirsStep(rs, Rest(), Redirs(ts));
        tok, q, eq := Gettoken();
        ret, q, eq := Gettoken();
        if ret != 'a' {
          return false, [];
        }
        rs := rs + [Redirect(Word(q, eq), if tok == '<' then In else Out)];
        more := Peek("<>");
      }
      RedirsDone(rs, Rest(), Redirs(ts));
      return true, rs;
    }

    method ParseLine() returns (r: Parsed)
      requires Valid()
      modifies `s
      ensures Valid() && old(s) <= s && Agrees(r, Line(old(Rest())), Rest())
      decreases es - s, 3
    {
      hide Tokens, Pipeline, Shorter, AllIn, Words;
      ghost var ts := Rest();
      r := ParsePipe();
      if r.Panic? {
        return;
      }
      var cmd := r.cmd;
      var more := Peek("&");
      while more
        invariant Valid() && old(s) <= s && (more <==> Starts(Rest(), '&')) && Line(ts) == LineEnd(cmd, Rest())
        decreases es - s
      {
        var tok, q, eq := Gettoken();
        cmd := Back(cmd);
        more := Peek("&");
      }
      more := Peek(";");
      if more {
        var tok, q, eq := Gettoken();
        var d := ParseLine();
        if d.Panic? {
          return d;
        }
        cmd := List(cmd, d.cmd);
      }
      return Done(cmd);
    }

    method ParsePipe() returns (r: Parsed)
      requires Valid()
      modifies `s
      ensures Valid() && old(s) <= s && Agrees(r, Pipeline(old(Rest())), Rest())
      decreases es - s, 2
    {
      hide Tokens, Simple, Shorter, AllIn, Words;
      r := ParseExec();
      if r.Panic? {
        return;
      }
      var more := Peek("|");
      if more {
        var tok, q, eq := Gettoken();
        var d := ParsePipe();
        if d.Panic? {
          return d;
        }
        return Done(Pipe(r.cmd, d.cmd));
      }
    }

    method ParseBlock() returns (r: Parsed)
      requires Valid() && Starts(Rest(), '(')
      modifies `s
      ensures Valid() && old(s) <= s && Agrees(r, Block(old(Rest())), Rest())
      decreases es - s, 0
    {
      hide Tokens, Line, Shorter, AllIn, Words, Redirs, Wrap;
      var open := Peek("(");
      var tok, q, eq := Gettoken();
      r := ParseLine();
      if r.Panic? {
        return;
      }
      var close := Peek(")");
      if !close {
        return Panic(NoParen);
      }
      tok, q, eq := Gettoken();
      var ok, rs := ParseRedirs();
      return if ok then Done(Wrap(r.cmd, rs)) else Panic(NoFile);
    }

    method ParseExec() returns (r: Parsed)
      requires Valid()
      modifies `s
      ensures Valid() && old(s) <= s && Agrees(r, Simple(old(Rest())), Rest())
      decreases es - s, 1
    {
      hide Tokens, Block, Shorter, AllIn, Words, Files, Redirs, Wrap;
      ghost var ts := Rest();
      var open := Peek("(");
      if open {
        r := ParseBlock();
        return;
      }
      var ok, rs := ParseRedirs();
      if !ok {
        return Panic(NoFile);
      }
      r := ParseArgs(rs);
    }

    // The loop of parseexec over the words of a command. The C code fills the arguments
    // of an exec node that is already inside the redirections; here it is put there last.
    method ParseArgs(before: seq<Redirect>) returns (r: Parsed)
      requires Valid()
      modifies `s
      ensures Valid() && old(s) <= s && Agrees(r, Args([], before, old(Rest())), Rest())
    {
      hide Tokens, Args, Shorter, AllIn, Words, Files, Redirs, Wrap, Starts;
      ghost var whole := Args([], before, Rest());
      var args, argc, rs := [], 0, before;
      var stop := Peek("|)&;");
      while !stop
        invariant Valid() && old(s) <= s && (stop <==> AtStop(Rest())) && argc == |args| < MAXARGS
        invariant whole == Args(args, rs, Rest())
        decreases es - s, !stop
      {
        ArgsStep(args, rs, Rest());
        var tok, q, eq := Gettoken();
        if tok == '\0' {
          break;
        }
        if tok != 'a' {
          return Panic(Syntax);
        }
        args, argc := args + [Word(q, eq)], argc + 1;
        if argc >= MAXARGS {
          return Panic(TooMany);
        }
        var ok, more := ParseRedirs();
        if !ok {
          return Panic(NoFile);
        }
        rs := rs + more;
        stop := Peek("|)&;");
      }
      ArgsStep(args, rs, Rest());
      return Done(Wrap(Exec(args), rs));
    }

    // Every word of the command gets a NUL at its end, and nothing else changes.
    method NulTerminate(cmd: Cmd)
      requires forall w :: w in Words(cmd) ==> w.Word? && w.eq < buf.Length
      modifies buf
      ensures forall i :: 0 <= i < buf.Length ==> buf[i] == if Ends(Words(cmd), i) then '\0' else old(buf[i])
      decreases cmd
    {
      match cmd
      case Exec(args) =>
        var i := 0;
        while i < |args|
          invariant i <= |args|
          invariant forall j :: 0 <= j < buf.Length ==>
            buf[j] == if exists k :: 0 <= k < i && args[k].eq == j then '\0' else old(buf[j])
        {
          buf[args[i].eq] := '\0';
          i := i + 1;
        }
      case Redir(d, how) =>
        NulTerminate(d);
        buf[how.file.eq] := '\0';
      case Pipe(l, r) =>
        NulTerminate(l);
        NulTerminate(r);
      case List(l, r) =>
        NulTerminate(l);
        NulTerminate(r);
      case Back(d) =>
        NulTerminate(d);
    }

    // A line that is a command, and nothing more; then each word of the command reads
    // back from the buffer, up to the next NUL, as exactly its text in the line.
    method ParseCmd() returns (r: Parsed)
      requires Valid() && s == 0
      modifies this, buf
      ensures Agrees(r, Command(Tokens(old(buf[..es]), 0)), [])
      ensures r.Panic? ==> buf[..] == old(buf[..])
      ensures r.Done? ==> forall w :: w in Words(r.cmd) ==>
        w.Word? && w.q < w.eq <= es && CString(buf[..], w.q) == old(buf[w.q..w.eq])
    {
      hide Tokens, Line, Shorter, AllIn, Words, Ends, CString;
      ghost var t := buf[..es];
      r := ParseLine();
      if r.Panic? {
        return;
      }
      ghost var rest := Rest();
      var unused := Peek("");
      if s != es {
        return Panic(Leftovers);
      }
      CommandWords(t, r.cmd, rest);
      NulTerminate(r.cmd);
      ReadBack(t, buf[..], Words(r.cmd));
    }
  }
}
