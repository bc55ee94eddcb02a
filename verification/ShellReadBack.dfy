/** The parser of sh.c run on a command that was written out: the buffer it leaves holds
    that command, in NUL-terminated words. */
module ShellReadBack {
  import opened ShellSyntax
  import opened ShellRoundTrip
  import C = ShellConcrete
  import opened Shell

  function Held1(w: Token, b: string): string {
    if w.Word? then CString(b, w.q) else ""
  }

  // The command that runcmd finds in buffer b: its words are C strings.
  function Held(c: Cmd, b: string): Ast {
    match c
    case Exec(args) => Run(seq(|args|, i requires 0 <= i < |args| => Held1(args[i], b)))
    case Redir(d, how) => To(Held(d, b), Held1(how.file, b), how.mode)
    case Pipe(l, r) => Both(Held(l, b), Held(r, b))
    case List(l, r) => Then(Held(l, b), Held(r, b))
    case Back(d) => Aside(Held(d, b))
  }

  lemma {:induction false} HeldMeaning(c: Cmd, t: string, b: string)
    requires forall w :: w in Words(c) ==> Held1(w, b) == Text(w, t)
    ensures Held(c, b) == Meaning(c, t)
  {
    match c
    case Exec(args) => assert forall i :: 0 <= i < |args| ==> args[i] in Words(c);
    case Redir(d, how) => HeldMeaning(d, t, b);
    case Pipe(l, r) => HeldMeaning(l, t, b); HeldMeaning(r, t, b);
    case List(l, r) => HeldMeaning(l, t, b); HeldMeaning(r, t, b);
    case Back(d) => HeldMeaning(d, t, b);
  }

  lemma {:induction false} RenderNoNul(ls: seq<Lexeme>)
    requires forall l :: l in ls ==> ValidLexeme(l)
    ensures NoNul(Render(ls))
  {
    if ls != [] {
      RenderNoNul(ls[1..]);
      assert ls[0] in ls && forall l :: l in ls[1..] ==> l in ls;
    }
  }

  // Printed, put in a buffer and parsed there, every valid command is found in it again.
  method ReadPrinted(a: Ast) returns (r: Parsed, b: string)
    requires Valid(a)
    ensures r.Done? && Meaning(r.cmd, Print(a)) == a && Held(r.cmd, b) == a
  {
    hide Tokens, Command, Held, Meaning, Show, Render, Words, CString, ValidLexeme;
    var t := Print(a);
    ShowValid(a);
    RenderNoNul(Show(a));
    RoundTrip(a);
    var p := new Parser(t);
    r := p.ParseCmd();
    b := p.buf[..];
    HeldMeaning(r.cmd, t, b);
  }

  lemma {:induction false} SpacedNoNul(ls: seq<Lexeme>, gaps: seq<string>)
    requires (forall l :: l in ls ==> ValidLexeme(l)) && C.Gaps(ls, gaps)
    ensures NoNul(C.Spaced(ls, gaps))
    decreases |ls|
  {
    assert forall j :: 0 <= j < |gaps[0]| ==> Blank(gaps[0][j]);
    if ls != [] {
      assert ls[0] in ls && forall l :: l in ls[1..] ==> l in ls;
      C.GapsRest(ls, gaps);
      SpacedNoNul(ls[1..], gaps[1..]);
    }
  }

  // So is every line that follows the grammar, spaced in any way.
  method ReadWritten(s: C.Syn, gaps: seq<string>) returns (r: Parsed, b: string)
    requires C.Well(s) && C.Gaps(C.Spell(s), gaps)
    ensures r.Done? && Held(r.cmd, b) == C.Denote(s)
  {
    assert |gaps| == |C.Spell(s)| + 1;
    hide Tokens, Command, Held, Meaning, Words, CString, ValidLexeme, C.Spell, C.Spaced, C.Gaps, C.Well, C.Denote;
    var t := C.Spaced(C.Spell(s), gaps);
    C.SpellValid(s);
    SpacedNoNul(C.Spell(s), gaps);
    C.ReadsAsWritten(s, gaps);
    var p := new Parser(t);
    r := p.ParseCmd();
    b := p.buf[..];
    HeldMeaning(r.cmd, t, b);
  }
}
