/** The shell does not tell appending from overwriting: > and >> are parsed alike. */
module ShellAlike {
  import opened ShellSyntax

  function Plain(k: Token): Token {
    if k == Sym('+') then Sym('>') else k
  }

  // The tokens with > in place of every >>.
  function Alike(ts: seq<Token>): (us: seq<Token>)
    ensures |us| == |ts|
  {
    seq(|ts|, i requires 0 <= i < |ts| => Plain(ts[i]))
  }

  function AlikeRest<T>(r: Result<T>): Result<T> {
    match r
    case Ok(v, rest) => Ok(v, Alike(rest))
    case Fail(e) => Fail(e)
  }

  lemma AlikeFrom(ts: seq<Token>, k: nat)
    requires k <= |ts|
    ensures Alike(ts)[k..] == Alike(ts[k..])
  {
  }

  lemma {:induction false} RedirsAlike(ts: seq<Token>)
    ensures Redirs(Alike(ts)) == AlikeRest(Redirs(ts))
    decreases |ts|
  {
    hide AllIn, Shorter, Files;
    if !NoRedir(ts) && |ts| >= 2 {
      AlikeFrom(ts, 2);
      RedirsAlike(ts[2..]);
    }
  }

  lemma {:induction false} LineAlike(ts: seq<Token>)
    ensures Line(Alike(ts)) == AlikeRest(Line(ts))
    decreases |ts|, 4
  {
    hide AllIn, Shorter, Words, Pipeline, LineEnd, Alike;
    PipelineAlike(ts);
    if Pipeline(ts).Ok? {
      PipelineRest(ts);
      LineEndAlike(Pipeline(ts).value, Pipeline(ts).rest);
    }
  }

  lemma PipelineRest(ts: seq<Token>)
    ensures Pipeline(ts).Ok? ==> |Pipeline(ts).rest| <= |ts|
  {
  }

  lemma SimpleRest(ts: seq<Token>)
    ensures Simple(ts).Ok? ==> |Simple(ts).rest| <= |ts|
  {
  }

  lemma RedirsRest(ts: seq<Token>)
    ensures Redirs(ts).Ok? ==> |Redirs(ts).rest| <= |ts|
  {
  }

  lemma {:induction false} LineEndAlike(c: Cmd, ts: seq<Token>)
    ensures LineEnd(c, Alike(ts)) == AlikeRest(LineEnd(c, ts))
    decreases |ts|, 0
  {
    hide AllIn, Shorter, Words, Line;
    if Starts(ts, '&') {
      AlikeFrom(ts, 1);
      LineEndAlike(Back(c), ts[1..]);
    } else if Starts(ts, ';') {
      AlikeFrom(ts, 1);
      LineAlike(ts[1..]);
    }
  }

  lemma {:induction false} PipelineAlike(ts: seq<Token>)
    ensures Pipeline(Alike(ts)) == AlikeRest(Pipeline(ts))
    decreases |ts|, 3
  {
    hide AllIn, Shorter, Words, Simple;
    SimpleAlike(ts);
    if Simple(ts).Ok? && Starts(Simple(ts).rest, '|') {
      SimpleRest(ts);
      AlikeFrom(Simple(ts).rest, 1);
      PipelineAlike(Simple(ts).rest[1..]);
    }
  }

  lemma {:induction false} SimpleAlike(ts: seq<Token>)
    ensures Simple(Alike(ts)) == AlikeRest(Simple(ts))
    decreases |ts|, 2
  {
    hide AllIn, Shorter, Words, Files, Block, Args, Redirs;
    if Starts(ts, '(') {
      BlockAlike(ts);
    } else {
      RedirsAlike(ts);
      if Redirs(ts).Ok? {
        RedirsRest(ts);
        ArgsAlike([], Redirs(ts).value, Redirs(ts).rest);
      }
    }
  }

  lemma {:induction false} ArgsAlike(args: seq<Token>, rs: seq<Redirect>, ts: seq<Token>)
    ensures Args(args, rs, Alike(ts)) == AlikeRest(Args(args, rs, ts))
    decreases |ts|, 1
  {
    hide AllIn, Shorter, Words, Files, Wrap, Redirs;
    if ts != [] && ts[0].Word? && |args| + 1 < MAXARGS {
      AlikeFrom(ts, 1);
      RedirsAlike(ts[1..]);
      if Redirs(ts[1..]).Ok? {
        RedirsRest(ts[1..]);
        ArgsAlike(args + [ts[0]], rs + Redirs(ts[1..]).value, Redirs(ts[1..]).rest);
      }
    }
  }

  lemma {:induction false} BlockAlike(ts: seq<Token>)
    requires Starts(ts, '(')
    ensures Starts(Alike(ts), '(') && Block(Alike(ts)) == AlikeRest(Block(ts))
    decreases |ts|, 1
  {
    hide AllIn, Shorter, Words, Files, Wrap, Redirs, Line;
    AlikeFrom(ts, 1);
    LineAlike(ts[1..]);
    if Line(ts[1..]).Ok? && Starts(Line(ts[1..]).rest, ')') {
      AlikeFrom(Line(ts[1..]).rest, 1);
      RedirsAlike(Line(ts[1..]).rest[1..]);
    }
  }

  // A line with >> in it is the same command as the line with > there.
  lemma AppendIsOverwrite(ts: seq<Token>)
    ensures Command(Alike(ts)) == Command(ts)
  {
    hide Line;
    LineAlike(ts);
  }

  lemma AppendTokens()
    ensures Tokens("a >> b", 0) == [Word(0, 1), Sym('+'), Word(5, 6)]
    ensures Tokens("a  > b", 0) == [Word(0, 1), Sym('>'), Word(5, 6)]
  {
    hide Tokens, TokenAt;
    FirstWord("a >> b");
    FirstWord("a  > b");
    Redirection("a >> b", 2);
    Redirection("a  > b", 3);
    LastWord("a >> b");
    LastWord("a  > b");
  }

  lemma Redirection(t: string, p: nat)
    requires |t| == 6 && t[1] == ' ' && t[3] == '>' && t[4] == ' ' && (p == 2 || p == 3)
    requires t[2] == if p == 2 then '>' else ' '
    ensures Tokens(t, 1) == [if p == 2 then Sym('+') else Sym('>')] + Tokens(t, 4)
  {
    assert SkipBlanks(t, p) == p;
    assert SkipBlanks(t, 1) == p;
  }

  lemma FirstWord(t: string)
    requires |t| == 6 && t[0] == 'a' && t[1] == ' '
    ensures Tokens(t, 0) == [Word(0, 1)] + Tokens(t, 1)
  {
    assert WordEnd(t, 1) == 1;
    assert SkipBlanks(t, 0) == 0;
  }

  lemma LastWord(t: string)
    requires |t| == 6 && t[4] == ' ' && t[5] == 'b'
    ensures Tokens(t, 4) == [Word(5, 6)]
  {
    assert WordEnd(t, 6) == 6;
    assert SkipBlanks(t, 4) == 5 && SkipBlanks(t, 6) == 6;
  }

  // For one: a >> b and a > b.
  lemma AppendLost()
    ensures var t, u := "a >> b", "a  > b";
      && Tokens(t, 0) != Tokens(u, 0) && Command(Tokens(t, 0)) == Command(Tokens(u, 0))
      && Command(Tokens(t, 0)).Ok?
  {
    hide Tokens, Command, SkipBlanks, WordEnd;
    AppendTokens();
    var ts := [Word(0, 1), Sym('+'), Word(5, 6)];
    assert Alike(ts) == [Word(0, 1), Sym('>'), Word(5, 6)];
    AppendIsOverwrite(ts);
    AppendParsed();
  }

  lemma AppendParsed()
    ensures Command([Word(0, 1), Sym('+'), Word(5, 6)]).Ok?
  {
    hide AllIn, Shorter, Words, Files, Wrap;
    var ts := [Word(0, 1), Sym('+'), Word(5, 6)];
    assert Redirs(ts) == Ok([], ts);
    var how := Redirect(Word(5, 6), Out);
    assert ts[1..][2..] == [] && Redirs([]) == Ok([], []);
    assert Redirs(ts[1..]) == Ok([how] + [], []);
    assert Args([Word(0, 1)], [] + ([how] + []), []).Ok?;
    assert [] + [ts[0]] == [Word(0, 1)];
    assert Args([], [], ts) == Args([] + [ts[0]], [] + ([how] + []), []);
    assert Simple(ts) == Args([], [], ts);
  }
}
