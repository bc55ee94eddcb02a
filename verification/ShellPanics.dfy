/** The lines that the shell does not read: each family with the panic that it ends in. */
module ShellPanics {
  import opened ShellSyntax
  import opened ShellRoundTrip
  import opened ShellConcrete

  predicate AllWords(ts: seq<Token>) {
    forall i :: 0 <= i < |ts| ==> ts[i].Word?
  }

  lemma NoneTwice()
    ensures var none: seq<Redirect> := []; none + none == none
  {
  }

  // More than MAXARGS - 1 words in a row.
  lemma {:induction false} TooManyFrom(args: seq<Token>, ts: seq<Token>, rest: seq<Token>)
    requires AllWords(ts) && |args| < MAXARGS <= |args| + |ts|
    ensures Args(args, [], ts + rest) == Fail(TooMany)
    decreases |ts|
  {
    hide AllIn, Shorter, Files, Words, Wrap, ShellSyntax.Redirs;
    assert ts + rest == [ts[0]] + (ts[1..] + rest);
    if |args| + 1 < MAXARGS {
      RedirsNone(ts[1..] + rest);
      NoneTwice();
      ArgsNext(args, [], ts[0], ts[1..] + rest, [], ts[1..] + rest);
      TooManyFrom(args + [ts[0]], ts[1..], rest);
    }
  }

  lemma LineFails(ts: seq<Token>, e: Error)
    requires Simple(ts) == Fail(e)
    ensures Pipeline(ts) == Fail(e) && Line(ts) == Fail(e) && Command(ts) == Fail(e)
  {
    hide Simple;
  }

  lemma TooManyWords(ts: seq<Token>, rest: seq<Token>)
    requires AllWords(ts) && |ts| >= MAXARGS
    ensures Command(ts + rest) == Fail(TooMany)
  {
    hide Simple, Line, Args, ShellSyntax.Redirs, Command;
    assert (ts + rest)[0] == ts[0];
    RedirsNone(ts + rest);
    SimpleArgs(ts + rest, [], ts + rest);
    TooManyFrom([], ts, rest);
    LineFails(ts + rest, TooMany);
  }

  // A redirection, after fewer words than that, without a file.
  lemma {:induction false} NoFileFrom(args: seq<Token>, ts: seq<Token>, k: Token, rest: seq<Token>)
    requires AllWords(ts) && ts != [] && |args| + |ts| < MAXARGS
    requires (k == Sym('<') || k == Sym('>') || k == Sym('+')) && (rest == [] || !rest[0].Word?)
    ensures Args(args, [], ts + ([k] + rest)) == Fail(NoFile)
    decreases |ts|
  {
    hide AllIn, Shorter, Files, Words, Wrap;
    assert ts + ([k] + rest) == [ts[0]] + (ts[1..] + ([k] + rest));
    if |ts| == 1 {
      assert ts[1..] + ([k] + rest) == [k] + rest;
      assert ShellSyntax.Redirs([k] + rest) == Fail(NoFile);
      assert ([ts[0]] + ([k] + rest))[1..] == [k] + rest;
    } else {
      hide Args;
      NoneTwice();
      RedirsNone(ts[1..] + ([k] + rest));
      ArgsNext(args, [], ts[0], ts[1..] + ([k] + rest), [], ts[1..] + ([k] + rest));
      NoFileFrom(args + [ts[0]], ts[1..], k, rest);
    }
  }

  lemma RedirectionWithoutFile(ts: seq<Token>, k: Token, rest: seq<Token>)
    requires AllWords(ts) && |ts| < MAXARGS
    requires (k == Sym('<') || k == Sym('>') || k == Sym('+')) && (rest == [] || !rest[0].Word?)
    ensures Command(ts + ([k] + rest)) == Fail(NoFile)
  {
    var us := ts + ([k] + rest);
    if ts == [] {
      assert us == [k] + rest;
      assert ShellSyntax.Redirs(us) == Fail(NoFile);
      assert Simple(us) == Fail(NoFile);
    } else {
      RedirsNone(us);
      SimpleArgs(us, [], us);
      NoFileFrom([], ts, k, rest);
    }
    hide Simple, Command;
    LineFails(us, NoFile);
  }

  // A parenthesis that is not closed.
  lemma NotClosed(s: Syn, ts: seq<Token>, t: string)
    requires Well(s) && Matches(ts, t, Spell(s))
    ensures Command([Sym('(')] + ts) == Fail(NoParen)
  {
    hide Line, Matches, Meaning, Spell, Denote, Well;
    var c := ParseLine(s, ts, [], t);
    assert ts + [] == ts && ([Sym('(')] + ts)[1..] == ts;
    assert Simple([Sym('(')] + ts) == Fail(NoParen);
    hide Simple, Command;
    LineFails([Sym('(')] + ts, NoParen);
  }

  // One that was not opened.
  lemma NotOpened(s: Syn, ts: seq<Token>, rest: seq<Token>, t: string)
    requires Well(s) && Matches(ts, t, Spell(s))
    ensures Command(ts + ([Sym(')')] + rest)) == Fail(Leftovers)
  {
    hide Line, Matches, Meaning, Spell, Denote, Well;
    var c := ParseLine(s, ts, [Sym(')')] + rest, t);
  }

  // After & there must be another one, a ; or the end.
  lemma NothingAfterAmp(s: Syn, ts: seq<Token>, w: Token, rest: seq<Token>, t: string)
    requires Well(s) && Level(s) <= 2 && Matches(ts, t, Spell(s)) && w.Word?
    ensures Command(ts + ([Sym('&'), w] + rest)) == Fail(Leftovers)
  {
    hide Line, Matches, Meaning, Spell, Denote, Well, LineEnd;
    var more := [w] + rest;
    var c := ParseHead(s, ts, [Sym('&')] + more, t);
    assert [Sym('&')] + more == [Sym('&'), w] + rest;
    EndBack(c, more);
    EndWord(Back(c), more);
  }

  lemma EndWord(c: Cmd, rest: seq<Token>)
    requires rest != [] && rest[0].Word?
    ensures LineEnd(c, rest) == Ok(c, rest)
  {
    hide Line, AllIn, Shorter, Words;
  }

  // A parenthesis among the words of a command.
  lemma ParenAfterWord(w: Token, rest: seq<Token>)
    requires w.Word?
    ensures Command([w, Sym('(')] + rest) == Fail(Syntax)
  {
    hide AllIn, Shorter, Files, Words, Wrap;
    var ts, more := [w, Sym('(')] + rest, [Sym('(')] + rest;
    assert ts == [w] + more;
    RedirsNone(ts);
    RedirsNone(more);
    SimpleArgs(ts, [], ts);
    ArgsNext([], [], w, more, [], more);
    assert Args([] + [w], [] + [], more) == Fail(Syntax);
    hide Simple, Command, Args;
    LineFails(ts, Syntax);
  }
}
