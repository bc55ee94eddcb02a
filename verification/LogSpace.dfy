/** Whether the log can get too small for a transaction. log_write tests for room before
    it takes log.lock, so two processes may pass on the same last block; commit then
    writes past the log, unless it finds no buffer to do so. And log_write refuses a block
    once log.size - 1 are logged, while begin_op admits operations as if LOGSIZE fitted. */
module LogSpace {
  import opened Params
  import opened Blocks
  import opened LogDisk
  import opened GroupCommit
  import FileWrite
  import opened Sets

  // The layout that mkfs writes: boot block, super block, log.
  const MKFS := Geometry(2, LOGSIZE)
  const FSSIZE := 1000

  // Some run comes to the panic of log_write, "too big a transaction".
  predicate Panics(c: Config) {
    c.limit > 0 && (c.g.size - 1 <= Room(c.limit) || LOGSIZE <= Room(c.limit))
  }

  // Some run gets more blocks into lh than the log has room for.
  predicate Outgrows(c: Config) {
    2 <= c.g.size <= LOGSIZE && c.g.size <= Room(c.limit)
  }

  // And writes them past its end. NBUF of them pin every buffer, and commit panics first.
  predicate Spills(c: Config) {
    Outgrows(c) && c.g.size < NBUF
  }

  // With the layout of mkfs, operations that may add MAXOPBLOCKS blocks can halt the
  // machine and outgrow the log, but nothing is ever written past it.
  lemma WithMkfs(limit: nat)
    ensures Panics(Config(MKFS, limit)) <==> limit >= MAXOPBLOCKS
    ensures Outgrows(Config(MKFS, limit)) <==> limit >= MAXOPBLOCKS
    ensures !Spills(Config(MKFS, limit))
  {
  }

  // ---- when it is large enough ------------------------------------------

  lemma {:induction false} NoPanic(c: Config, d: Disk, n: nat, es: seq<Event>)
    requires !Panics(c) && ValidHeader(c.g, d) && Run(c, Start(c, d, n), es)
    ensures !After(c, Start(c, d, n), es).mode.Panicked?
    decreases |es|
  {
    if es != [] {
      var s0, k := Start(c, d, n), |es| - 1;
      NoPanic(c, d, n, es[..k]);
      RunInv(c, d, n, es[..k]);
      var s := After(c, s0, es[..k]);
      if s.mode.Up? {
        RunFits(c, d, n, es[..k], c.limit);
        NoPanicStep(c, s, es[k]);
      }
      hide Start, Next, Inv, Enabled;
    }
  }

  lemma NoPanicStep(c: Config, s: Sys, e: Event)
    requires !Panics(c) && Inv(c, s) && s.mode.Up? && Enabled(c, s, e)
    requires Fits(s, c.limit, Room(c.limit))
    ensures !Next(c, s, e).mode.Panicked?
  {
    if e.Guard? || e.End? {
      OneCommitter(s, e.p, e.p);
    } else if e.Change? {
      InUseFits(c, s, c.limit, Room(c.limit));
    } else if e.CommitStep? {
      assert CommitterInv(c, s, s.procs[e.p]);
    }
    hide DiskInv, CommitProgress, CommitWrite, Sum, InUse;
  }

  // Writes cut up by filewrite never halt the machine, whatever their number.
  lemma FilewriteFits(c: Config, d: Disk, n: nat, es: seq<Event>)
    requires c.limit == FileWrite.WRITEBLOCKS && c.g.size >= LOGSIZE
    requires ValidHeader(c.g, d) && Run(c, Start(c, d, n), es)
    ensures !After(c, Start(c, d, n), es).mode.Panicked?
  {
    NoPanic(c, d, n, es);
  }

  // The log is never outgrown if an operation adds at most MAXOPBLOCKS blocks and Room of
  // them fit; and every run is crash safe at every moment.
  lemma Contained(c: Config, d: Disk, n: nat, es: seq<Event>)
    requires c.limit <= MAXOPBLOCKS && Room(c.limit) < c.g.size
    requires ValidHeader(c.g, d) && Run(c, Start(c, d, n), es)
    ensures var t := After(c, Start(c, d, n), es);
      !t.mode.Spilled? && (t.mode.Up? ==> |t.lh| <= c.g.size - 1) && Safe(c, t)
  {
    NeverSpills(c, d, n, es);
    SafeNow(c, d, n, es);
    if After(c, Start(c, d, n), es).mode.Up? {
      RunFits(c, d, n, es, c.limit);
    }
  }

  lemma SafeNow(c: Config, d: Disk, n: nat, es: seq<Event>)
    requires ValidHeader(c.g, d) && Run(c, Start(c, d, n), es)
    requires !After(c, Start(c, d, n), es).mode.Spilled?
    ensures Safe(c, After(c, Start(c, d, n), es))
  {
    CrashSafety(c, d, n, es);
    RunInv(c, d, n, es);
    var t := After(c, Start(c, d, n), es);
    assert PrefixAt(c, t, t.cut);
  }

  lemma {:induction false} NeverSpills(c: Config, d: Disk, n: nat, es: seq<Event>)
    requires !Spills(c) && ValidHeader(c.g, d) && Run(c, Start(c, d, n), es)
    ensures !After(c, Start(c, d, n), es).mode.Spilled?
    decreases |es|
  {
    if es != [] {
      var s0, k := Start(c, d, n), |es| - 1;
      NeverSpills(c, d, n, es[..k]);
      RunInv(c, d, n, es[..k]);
      var s := After(c, s0, es[..k]);
      if s.mode.Up? {
        if c.limit <= MAXOPBLOCKS {
          RunFits(c, d, n, es[..k], c.limit);
        }
        NoSpillStep(c, s, es[k]);
      }
      hide Start, Next, Inv, Enabled, Fits;
    }
  }

  lemma NoSpillStep(c: Config, s: Sys, e: Event)
    requires !Spills(c) && Inv(c, s) && s.mode.Up? && Enabled(c, s, e)
    requires c.limit <= MAXOPBLOCKS ==> Fits(s, c.limit, Room(c.limit))
    ensures !Next(c, s, e).mode.Spilled?
  {
    if e.CommitStep? {
      assert CommitterInv(c, s, s.procs[e.p]);
      assert |s.lh| < c.g.size || |s.lh| >= NBUF;
    }
    hide DiskInv, CommitProgress, CommitWrite, Sum;
  }

  // ---- when it is too small ---------------------------------------------

  function Blank(x: Word): Block {
    seq(WORDS, _ => x)
  }

  function EmptyDisk(size: nat): Disk {
    seq(size, _ => Blank(0))
  }

  // Block i of the runs below; the first block after the log is not one of them.
  function Home(g: Geometry, i: nat): nat {
    g.start + g.size + 1 + i
  }

  ghost predicate Spacious(g: Geometry, size: nat) {
    1 <= g.size && g.start + g.size + LOGSIZE < size < UINT
  }

  lemma EmptyDiskValid(g: Geometry, size: nat)
    requires Spacious(g, size)
    ensures ValidHeader(g, EmptyDisk(size)) && Pending(g, EmptyDisk(size)) == []
  {
    assert EmptyDisk(size)[g.start][0] == 0;
  }

  // Two processes have logged j different blocks, all with the same new contents.
  ghost predicate Filled(c: Config, s: Sys, size: nat, j: nat) {
    && s.mode.Up? && !s.committing && |s.procs| == 2
    && |s.disk| == size == |s.cache|
    && s.lh == seq(j, i requires 0 <= i < j => Home(c.g, i))
    && Ones(c.g, s.writes)
  }

  ghost predicate Ones(g: Geometry, ws: seq<Write>) {
    forall i :: 0 <= i < |ws| ==> ws[i].block >= Home(g, 0) && ws[i].data == Blank(1)
  }

  // q, in an operation, has added m blocks.
  ghost predicate Added(s: Sys, q: nat, m: nat) {
    q < |s.procs| && s.procs[q].InOp? && s.procs[q].turn.Free? && |s.procs[q].added| == m
  }

  // Process 0 has begun; process 1 is between operations.
  ghost predicate Alone(c: Config, s: Sys, size: nat, j: nat) {
    Filled(c, s, size, j) && s.outstanding == 1 && Added(s, 0, 0) && s.procs[1].Idle?
  }

  // Both are in an operation; what goes beyond MAXOPBLOCKS blocks is theirs by turns.
  ghost predicate Both(c: Config, s: Sys, size: nat, j: nat) {
    Filled(c, s, size, j) && s.outstanding == 2 && Added(s, 0, Share(j, 0)) && Added(s, 1, Share(j, 1))
  }

  function Share(j: nat, q: nat): nat
    requires q < 2
  {
    if j <= MAXOPBLOCKS then 0 else (j - MAXOPBLOCKS + 1 - q) / 2
  }

  lemma Shares(j: nat)
    requires j >= MAXOPBLOCKS
    ensures var q := (j - MAXOPBLOCKS) % 2;
      Share(j + 1, q) == Share(j, q) + 1 && Share(j + 1, 1 - q) == Share(j, 1 - q)
    ensures forall quota: nat {:trigger Room(quota)} :: j < Room(quota) ==> Share(j, (j - MAXOPBLOCKS) % 2) < quota
  {
  }

  // One whole call of log_write, with nothing in between.
  function LoggedBy(s: Sys, q: nat, b: nat, data: Block): Sys
    requires q < |s.procs| && s.procs[q].InOp? && b < |s.cache|
  {
    var me := s.procs[q];
    s.(lh := Absorb(s.lh, b),
       procs := s.procs[q := InOp(me.op, if b in s.lh then me.added else me.added + {b}, Free)],
       cache := s.cache[b := data], writes := s.writes + [Write(me.op, b, data)])
  }

  lemma LogSteps(c: Config, s: Sys, q: nat, b: nat, data: Block)
    requires Enabled(c, s, Change(q, b, data)) && !TooBig(c.g, |s.lh|) && s.outstanding > 0 && b < |s.cache|
    requires |InUse(s)| < NBUF
    ensures var s1 := Next(c, s, Change(q, b, data));
      && Enabled(c, s1, Guard(q))
      && var s2 := Next(c, s1, Guard(q));
      && Enabled(c, s2, LogWrite(q)) && Next(c, s2, LogWrite(q)) == LoggedBy(s, q, b, data)
  {
  }

  lemma LogCall(c: Config, s: Sys, q: nat, b: nat, data: Block) returns (es: seq<Event>)
    requires Enabled(c, s, Change(q, b, data)) && !TooBig(c.g, |s.lh|) && s.outstanding > 0 && b < |s.cache|
    requires |InUse(s)| < NBUF
    ensures Run(c, s, es) && After(c, s, es) == LoggedBy(s, q, b, data)
  {
    LogSteps(c, s, q, b, data);
    hide Next, Enabled, LoggedBy, TooBig, InUse;
    var e1, e2, e3 := Change(q, b, data), Guard(q), LogWrite(q);
    RunOne(c, s, e1);
    RunSnoc(c, s, [e1], e2);
    RunSnoc(c, s, [e1] + [e2], e3);
    es := [e1] + [e2] + [e3];
  }

  lemma NotLogged(c: Config, s: Sys, size: nat, j: nat)
    requires Filled(c, s, size, j)
    ensures Home(c.g, j) !in s.lh
    ensures Absorb(s.lh, Home(c.g, j)) == seq(j + 1, i requires 0 <= i < j + 1 => Home(c.g, i))
    ensures |Elements(s.lh)| <= j
  {
    assert Home(c.g, j) !in s.lh;
    ElementsCount(s.lh);
  }

  lemma NobodyHolds(s: Sys)
    requires |s.procs| == 2
    requires forall q :: 0 <= q < 2 ==> s.procs[q].Idle? || (s.procs[q].InOp? && s.procs[q].turn.Free?)
    ensures InUse(s) == Elements(s.lh)
  {
    assert Held(s.procs) == {};
  }

  lemma LoggedFills(c: Config, s: Sys, size: nat, j: nat, q: nat, m: nat)
    requires Spacious(c.g, size) && s.cut <= |s.writes| && OpInv(c, s) && Filled(c, s, size, j)
    requires j < LOGSIZE && q < 2 && Added(s, q, m)
    ensures Home(c.g, j) < size && !InLog(c.g, Home(c.g, j))
    ensures var t := LoggedBy(s, q, Home(c.g, j), Blank(1));
      && Filled(c, t, size, j + 1) && Added(t, q, m + 1)
      && t.procs[1 - q] == s.procs[1 - q] && t.outstanding == s.outstanding
  {
    NotLogged(c, s, size, j);
    assert Home(c.g, j) !in s.procs[q].added;
    hide Absorb, OpInv;
  }

  // q logs block j.
  lemma LogOne(c: Config, s: Sys, size: nat, j: nat, q: nat, m: nat) returns (es: seq<Event>)
    requires Spacious(c.g, size) && s.cut <= |s.writes| && OpInv(c, s) && Filled(c, s, size, j) && s.outstanding > 0
    requires j < LOGSIZE && j < c.g.size - 1 && q < 2 && Added(s, q, m) && m < c.limit
    requires s.procs[1 - q].Idle? || (s.procs[1 - q].InOp? && s.procs[1 - q].turn.Free?)
    ensures Run(c, s, es)
    ensures var t := After(c, s, es);
      && Filled(c, t, size, j + 1) && Added(t, q, m + 1)
      && t.procs[1 - q] == s.procs[1 - q] && t.outstanding == s.outstanding
  {
    var b := Home(c.g, j);
    LoggedFills(c, s, size, j, q, m);
    assert q == 0 || q == 1;
    assert Enabled(c, s, Change(q, b, Blank(1))) && |s.lh| == j && b < |s.cache|;
    NobodyHolds(s);
    NotLogged(c, s, size, j);
    hide Enabled, Absorb, OpInv, Filled, Added, Spacious, InUse;
    es := LogCall(c, s, q, b, Blank(1));
  }

  lemma Started(c: Config, size: nat) returns (es: seq<Event>)
    requires Spacious(c.g, size)
    ensures ValidHeader(c.g, EmptyDisk(size))
    ensures var s0 := Start(c, EmptyDisk(size), 2);
      Run(c, s0, es) && Alone(c, After(c, s0, es), size, 0)
  {
    EmptyDiskValid(c.g, size);
    var s0 := Start(c, EmptyDisk(size), 2);
    RunOne(c, s0, RecoverStep);
    var s1 := Next(c, s0, RecoverStep);
    assert s1.mode.Up? && s1.procs == AllIdle(2) && s1.lh == [] && s1.outstanding == 0 && !s1.committing;
    assert Enabled(c, s1, Begin(0));
    RunSnoc(c, s0, [RecoverStep], Begin(0));
    es := [RecoverStep] + [Begin(0)];
  }

  lemma BeginBoth(c: Config, s: Sys, size: nat, j: nat)
    requires Alone(c, s, size, j) && j <= MAXOPBLOCKS
    ensures Enabled(c, s, Begin(1)) && Both(c, Next(c, s, Begin(1)), size, j)
  {
  }

  lemma EndAlone(c: Config, s: Sys, size: nat, j: nat, m: nat)
    requires Filled(c, s, size, j) && s.outstanding == 2 && Added(s, 0, 0) && Added(s, 1, m)
    ensures Enabled(c, s, End(1)) && Alone(c, Next(c, s, End(1)), size, j)
  {
  }

  // Process 1 begins, logs block j and ends, while process 0 stays.
  lemma Filler(c: Config, s: Sys, size: nat, j: nat) returns (es: seq<Event>)
    requires Spacious(c.g, size) && Inv(c, s) && Alone(c, s, size, j)
    requires j < MAXOPBLOCKS && j < c.g.size - 1 && c.limit > 0
    ensures Run(c, s, es) && Alone(c, After(c, s, es), size, j + 1)
  {
    BeginBoth(c, s, size, j);
    BeginInv(c, s, 1);
    RunOne(c, s, Begin(1));
    var t := Next(c, s, Begin(1));
    var fs := LogOne(c, t, size, j, 1, 0);
    hide Enabled, Next, Inv, Filled;
    RunConcat(c, s, [Begin(1)], fs);
    EndAlone(c, After(c, t, fs), size, j + 1, 1);
    RunSnoc(c, s, [Begin(1)] + fs, End(1));
    es := [Begin(1)] + fs + [End(1)];
  }

  lemma {:induction false} ReachAlone(c: Config, size: nat, j: nat) returns (es: seq<Event>)
    requires Spacious(c.g, size) && c.limit > 0 && j <= MAXOPBLOCKS && j <= c.g.size - 1
    ensures ValidHeader(c.g, EmptyDisk(size))
    ensures var s0 := Start(c, EmptyDisk(size), 2);
      Run(c, s0, es) && Alone(c, After(c, s0, es), size, j)
  {
    EmptyDiskValid(c.g, size);
    hide Alone, Inv, Start, Enabled, Next, EmptyDisk, ValidHeader;
    if j == 0 {
      es := Started(c, size);
    } else {
      var s0 := Start(c, EmptyDisk(size), 2);
      es := ReachAlone(c, size, j - 1);
      RunInv(c, EmptyDisk(size), 2, es);
      var fs := Filler(c, After(c, s0, es), size, j - 1);
      RunConcat(c, s0, es, fs);
      es := es + fs;
    }
  }

  // Every number of blocks that Room allows is logged in some run.
  lemma {:induction false} ReachBoth(c: Config, size: nat, j: nat) returns (es: seq<Event>)
    requires Spacious(c.g, size) && c.limit > 0 && j <= c.g.size - 1 && j <= LOGSIZE && j <= Room(c.limit)
    ensures ValidHeader(c.g, EmptyDisk(size))
    ensures var s0 := Start(c, EmptyDisk(size), 2);
      Run(c, s0, es) && Both(c, After(c, s0, es), size, j)
    decreases j
  {
    EmptyDiskValid(c.g, size);
    hide Filled, Inv, Start, Enabled, Next, EmptyDisk, ValidHeader, Added;
    var s0 := Start(c, EmptyDisk(size), 2);
    if j <= MAXOPBLOCKS {
      es := ReachAlone(c, size, j);
      BeginBoth(c, After(c, s0, es), size, j);
      RunSnoc(c, s0, es, Begin(1));
      es := es + [Begin(1)];
    } else {
      es := ReachBoth(c, size, j - 1);
      RunInv(c, EmptyDisk(size), 2, es);
      var fs := ByTurns(c, After(c, s0, es), size, j - 1);
      RunConcat(c, s0, es, fs);
      es := es + fs;
    }
  }

  lemma ByTurns(c: Config, s: Sys, size: nat, j: nat) returns (es: seq<Event>)
    requires Spacious(c.g, size) && s.cut <= |s.writes| && OpInv(c, s) && Both(c, s, size, j) && MAXOPBLOCKS <= j
    requires j < c.g.size - 1 && j < LOGSIZE && j < Room(c.limit)
    ensures Run(c, s, es) && Both(c, After(c, s, es), size, j + 1)
  {
    var q := (j - MAXOPBLOCKS) % 2;
    Shares(j);
    assert Share(j, q) < c.limit;
    hide Filled, OpInv, Spacious, Room, Share, Enabled, Next, Start;
    es := LogOne(c, s, size, j, q, Share(j, q));
  }

  // ---- the panic --------------------------------------------------------

  // log_write panics in some run exactly when Panics says so.
  lemma PanicIff(c: Config, size: nat)
    requires Spacious(c.g, size)
    ensures (exists d: Disk, n: nat, es: seq<Event> ::
               && |d| == size && ValidHeader(c.g, d) && Run(c, Start(c, d, n), es)
               && After(c, Start(c, d, n), es).mode == Panicked(TooBigTransaction))
            <==> Panics(c)
  {
    if Panics(c) {
      var es := PanicRun(c, size);
      var d := EmptyDisk(size);
      assert |d| == size && After(c, Start(c, d, 2), es).mode == Panicked(TooBigTransaction);
    } else {
      forall d: Disk, n: nat, es: seq<Event> | |d| == size && ValidHeader(c.g, d) && Run(c, Start(c, d, n), es)
        ensures After(c, Start(c, d, n), es).mode != Panicked(TooBigTransaction)
      {
        NoPanic(c, d, n, es);
      }
    }
  }

  lemma PanicSteps(c: Config, s: Sys, size: nat, j: nat)
    requires Spacious(c.g, size) && Both(c, s, size, j) && TooBig(c.g, j) && c.limit > 0
    ensures var e := Change(0, Home(c.g, 0), Blank(1));
      && Enabled(c, s, e) && Enabled(c, Next(c, s, e), Guard(0))
      && Next(c, Next(c, s, e), Guard(0)).mode == Panicked(TooBigTransaction)
  {
    assert j > 0 ==> s.lh[0] == Home(c.g, 0);
  }

  lemma PanicRun(c: Config, size: nat) returns (es: seq<Event>)
    requires Spacious(c.g, size) && Panics(c)
    ensures ValidHeader(c.g, EmptyDisk(size))
    ensures var s0 := Start(c, EmptyDisk(size), 2);
      Run(c, s0, es) && After(c, s0, es).mode == Panicked(TooBigTransaction)
  {
    var j := if c.g.size - 1 <= LOGSIZE then c.g.size - 1 else LOGSIZE;
    es := ReachBoth(c, size, j);
    var s0 := Start(c, EmptyDisk(size), 2);
    PanicSteps(c, After(c, s0, es), size, j);
    hide Enabled, Next, Start, Both;
    var e := Change(0, Home(c.g, 0), Blank(1));
    RunSnoc(c, s0, es, e);
    RunSnoc(c, s0, es + [e], Guard(0));
    es := es + [e] + [Guard(0)];
  }

  // ---- the write past the log -------------------------------------------

  // The two processes pass the test on the same last place.
  function Raced(c: Config, s: Sys, j: nat): Sys
    requires |s.procs| == 2 && s.procs[0].InOp? && s.procs[1].InOp?
  {
    s.(procs := [s.procs[0].(turn := Passed(Home(c.g, j), Blank(1))),
                 s.procs[1].(turn := Passed(Home(c.g, j + 1), Blank(1)))])
  }

  // There are buffers for both blocks.
  lemma RaceBuffers(c: Config, s: Sys, size: nat, j: nat)
    requires Filled(c, s, size, j) && j + 2 <= LOGSIZE
    requires forall q :: 0 <= q < 2 ==> s.procs[q].InOp? && s.procs[q].turn.Free?
    ensures |InUse(s)| < NBUF
    ensures var s1 := ChangedBy(s, 0, Home(c.g, j), Blank(1)); s1.mode.Up? && |InUse(s1)| < NBUF
  {
    NobodyHolds(s);
    NotLogged(c, s, size, j);
    var b := Home(c.g, j);
    hide Filled, Elements, Absorb;
    ChangeUses(s, 0, b, Blank(1));
    SubsetCount(InUse(ChangedBy(s, 0, b, Blank(1))), InUse(s) + {b});
  }

  lemma RaceSteps(c: Config, s: Sys, size: nat, j: nat, a: nat, b: nat)
    requires Spacious(c.g, size) && Filled(c, s, size, j) && s.outstanding == 2
    requires j + 2 <= LOGSIZE && !TooBig(c.g, j)
    requires Added(s, 0, a) && Added(s, 1, b) && a < c.limit && b < c.limit
    ensures var e1, e2 := Change(0, Home(c.g, j), Blank(1)), Change(1, Home(c.g, j + 1), Blank(1));
      && Enabled(c, s, e1) && var s1 := Next(c, s, e1);
      && Enabled(c, s1, e2) && var s2 := Next(c, s1, e2);
      && Enabled(c, s2, Guard(0)) && var s3 := Next(c, s2, Guard(0));
      && Enabled(c, s3, Guard(1)) && Next(c, s3, Guard(1)) == Raced(c, s, j)
  {
    hide InUse, Absorb, Ones;
    RaceBuffers(c, s, size, j);
  }

  // And both log their blocks.
  lemma RaceEnds(c: Config, s: Sys, size: nat, j: nat, a: nat, b: nat)
    requires Spacious(c.g, size) && Filled(c, s, size, j) && s.outstanding == 2 && j + 2 <= LOGSIZE
    requires Added(s, 0, a) && Added(s, 1, b)
    ensures var s4 := Raced(c, s, j);
      && Enabled(c, s4, LogWrite(0)) && var s5 := Next(c, s4, LogWrite(0));
      && Enabled(c, s5, LogWrite(1)) && var s6 := Next(c, s5, LogWrite(1));
      && Filled(c, s6, size, j + 2) && s6.outstanding == 2
      && s6.procs[0].InOp? && s6.procs[0].turn.Free? && s6.procs[1].InOp? && s6.procs[1].turn.Free?
  {
    NotLogged(c, s, size, j);
    var s5 := Next(c, Raced(c, s, j), LogWrite(0));
    assert Filled(c, s5, size, j + 1);
    NotLogged(c, s5, size, j + 1);
  }

  lemma EndBoth(c: Config, s: Sys, size: nat, j: nat)
    requires Filled(c, s, size, j) && s.outstanding == 2
    requires s.procs[0].InOp? && s.procs[0].turn.Free? && s.procs[1].InOp? && s.procs[1].turn.Free?
    ensures Enabled(c, s, End(0)) && var t := Next(c, s, End(0));
      Enabled(c, t, End(1)) && Copying(c, Next(c, t, End(1)), size, j, 0)
  {
  }

  // The second process commits j blocks, and has written k of them to the log.
  ghost predicate Copying(c: Config, s: Sys, size: nat, j: nat, k: nat) {
    && s.mode.Up? && |s.procs| == 2 && s.procs[1] == Committing(k)
    && |s.disk| == size == |s.cache| && |s.lh| == j && Ones(c.g, s.writes)
  }

  lemma PassBoth(c: Config, s: Sys, size: nat, j: nat, a: nat, b: nat) returns (es: seq<Event>)
    requires Spacious(c.g, size) && Filled(c, s, size, j) && s.outstanding == 2
    requires j + 2 <= LOGSIZE && !TooBig(c.g, j)
    requires Added(s, 0, a) && Added(s, 1, b) && a < c.limit && b < c.limit
    ensures Run(c, s, es) && After(c, s, es) == Raced(c, s, j)
  {
    RaceSteps(c, s, size, j, a, b);
    hide Enabled, Next, Filled, Raced, Spacious, TooBig;
    var e1, e2 := Change(0, Home(c.g, j), Blank(1)), Change(1, Home(c.g, j + 1), Blank(1));
    RunOne(c, s, e1);
    RunSnoc(c, s, [e1], e2);
    RunSnoc(c, s, [e1] + [e2], Guard(0));
    RunSnoc(c, s, [e1] + [e2] + [Guard(0)], Guard(1));
    es := [e1] + [e2] + [Guard(0)] + [Guard(1)];
  }

  lemma LogBoth(c: Config, s: Sys, size: nat, j: nat, a: nat, b: nat) returns (es: seq<Event>)
    requires Spacious(c.g, size) && Filled(c, s, size, j) && s.outstanding == 2 && j + 2 <= LOGSIZE
    requires Added(s, 0, a) && Added(s, 1, b)
    ensures var t := Raced(c, s, j);
      Run(c, t, es) && Copying(c, After(c, t, es), size, j + 2, 0)
  {
    RaceEnds(c, s, size, j, a, b);
    var s4 := Raced(c, s, j);
    EndBoth(c, Next(c, Next(c, s4, LogWrite(0)), LogWrite(1)), size, j + 2);
    hide Enabled, Next, Filled, Raced, Spacious, Copying;
    RunOne(c, s4, LogWrite(0));
    RunSnoc(c, s4, [LogWrite(0)], LogWrite(1));
    RunSnoc(c, s4, [LogWrite(0)] + [LogWrite(1)], End(0));
    RunSnoc(c, s4, [LogWrite(0)] + [LogWrite(1)] + [End(0)], End(1));
    es := [LogWrite(0)] + [LogWrite(1)] + [End(0)] + [End(1)];
  }

  lemma RaceRun(c: Config, size: nat) returns (es: seq<Event>)
    requires Spacious(c.g, size) && Outgrows(c)
    ensures ValidHeader(c.g, EmptyDisk(size))
    ensures var s0 := Start(c, EmptyDisk(size), 2);
      Run(c, s0, es) && Copying(c, After(c, s0, es), size, c.g.size, 0)
  {
    var j: nat := c.g.size - 2;
    es := ReachBoth(c, size, j);
    var s0 := Start(c, EmptyDisk(size), 2);
    var s := After(c, s0, es);
    assert Share(j, 0) < c.limit && Share(j, 1) < c.limit && !TooBig(c.g, j) && j + 2 <= LOGSIZE;
    hide Enabled, Next, Start, Filled, Added, Raced, EmptyDisk, Copying, ValidHeader, Spacious, Outgrows, Share;
    hide TooBig;
    var fs := PassBoth(c, s, size, j, Share(j, 0), Share(j, 1));
    var gs := LogBoth(c, s, size, j, Share(j, 0), Share(j, 1));
    RunConcat(c, s0, es, fs);
    RunConcat(c, s0, es + fs, gs);
    es := es + fs + gs;
  }

  // Some run gets more blocks into lh than fit exactly when Outgrows says so.
  lemma OutgrowIff(c: Config, size: nat)
    requires Spacious(c.g, size)
    ensures (exists d: Disk, n: nat, es: seq<Event> ::
               && |d| == size && ValidHeader(c.g, d) && Run(c, Start(c, d, n), es)
               && After(c, Start(c, d, n), es).mode.Up? && |After(c, Start(c, d, n), es).lh| > c.g.size - 1)
            <==> Outgrows(c)
  {
    if Outgrows(c) {
      var es := RaceRun(c, size);
      var d := EmptyDisk(size);
      assert |d| == size && |After(c, Start(c, d, 2), es).lh| > c.g.size - 1;
    } else {
      forall d: Disk, n: nat, es: seq<Event> |
        |d| == size && ValidHeader(c.g, d) && Run(c, Start(c, d, n), es) && After(c, Start(c, d, n), es).mode.Up?
        ensures |After(c, Start(c, d, n), es).lh| <= c.g.size - 1
      {
        RunInv(c, d, n, es);
        if c.limit <= MAXOPBLOCKS {
          RunFits(c, d, n, es, c.limit);
        }
      }
    }
  }

  lemma {:induction false} CopyRun(c: Config, size: nat, k: nat) returns (es: seq<Event>)
    requires Spacious(c.g, size) && Spills(c) && k < c.g.size
    ensures ValidHeader(c.g, EmptyDisk(size))
    ensures var s0 := Start(c, EmptyDisk(size), 2);
      Run(c, s0, es) && Copying(c, After(c, s0, es), size, c.g.size, k)
  {
    EmptyDiskValid(c.g, size);
    if k == 0 {
      es := RaceRun(c, size);
    } else {
      es := CopyRun(c, size, k - 1);
      var s0 := Start(c, EmptyDisk(size), 2);
      RunInv(c, EmptyDisk(size), 2, es);
      CopyStep(c, After(c, s0, es), size, k - 1);
      hide Enabled, Next, Start, Copying, EmptyDisk, ValidHeader, Inv;
      RunSnoc(c, s0, es, CommitStep(1));
      es := es + [CommitStep(1)];
    }
  }

  lemma CopyStep(c: Config, s: Sys, size: nat, k: nat)
    requires Spacious(c.g, size) && Inv(c, s) && Copying(c, s, size, c.g.size, k) && k + 1 < c.g.size < NBUF
    ensures Enabled(c, s, CommitStep(1)) && Copying(c, Next(c, s, CommitStep(1)), size, c.g.size, k + 1)
  {
    hide Recovered, Applied, SameHome, Touched, Ones;
  }

  // The block after the log is overwritten; the header still says that there is nothing
  // to recover.
  ghost predicate Torn(c: Config, t: Sys) {
    && t.mode.Spilled? && ValidHeader(c.g, t.disk) && Pending(c.g, t.disk) == []
    && c.g.start + c.g.size < |t.disk| && t.disk[c.g.start + c.g.size] == Blank(1)
    && Ones(c.g, t.writes)
  }

  lemma SpillStep(c: Config, s: Sys, size: nat)
    requires Spacious(c.g, size) && Inv(c, s) && Copying(c, s, size, c.g.size, c.g.size - 1) && c.g.size < NBUF
    ensures Enabled(c, s, CommitStep(1)) && Torn(c, Next(c, s, CommitStep(1)))
  {
    LoggedOnes(c, s, s.lh[c.g.size - 1]);
    var t := Next(c, s, CommitStep(1));
    assert t.disk[c.g.start] == s.disk[c.g.start];
    hide Recovered, Applied, Touched, Ones, CommitProgress;
  }

  lemma LoggedOnes(c: Config, s: Sys, b: nat)
    requires Inv(c, s) && s.mode.Up? && Ones(c.g, s.writes) && b in s.lh && |s.lh| == c.g.size
    requires |s.procs| == 2 && s.procs[1].Committing? && 1 <= c.g.size
    ensures b < |s.cache| == |s.disk| && s.cache[b] == Blank(1) && Untouched(c, s)
  {
    assert CommitterInv(c, s, s.procs[1]);
    assert Touched(s.writes, s.cut, b);
    OnesApplied(c.g, s.home, s.writes, b);
    hide Recovered, Applied, Ones, CommitProgress;
  }

  lemma {:induction false} OnesApplied(g: Geometry, home: Disk, ws: seq<Write>, b: nat)
    requires (forall i :: 0 <= i < |ws| ==> ws[i].block < |home|) && Ones(g, ws) && b < |home|
    ensures Touched(ws, 0, b) ==> Applied(home, ws)[b] == Blank(1)
    ensures b < Home(g, 0) ==> Applied(home, ws)[b] == home[b]
  {
    if ws != [] {
      var n := |ws| - 1;
      OnesApplied(g, home, ws[..n], b);
      if Touched(ws, 0, b) && ws[n].block != b {
        var i :| 0 <= i < |ws| && ws[i].block == b;
        assert ws[..n][i].block == b;
      }
    }
  }

  lemma SpillRun(c: Config, size: nat) returns (es: seq<Event>)
    requires Spacious(c.g, size) && Spills(c)
    ensures ValidHeader(c.g, EmptyDisk(size))
    ensures var s0 := Start(c, EmptyDisk(size), 2);
      Run(c, s0, es) && Torn(c, After(c, s0, es))
  {
    es := CopyRun(c, size, c.g.size - 1);
    var s0 := Start(c, EmptyDisk(size), 2);
    RunInv(c, EmptyDisk(size), 2, es);
    SpillStep(c, After(c, s0, es), size);
    hide Enabled, Next, Start, Copying, EmptyDisk, ValidHeader, Inv;
    RunSnoc(c, s0, es, CommitStep(1));
    es := es + [CommitStep(1)];
  }

  // ---- crash safety, exactly --------------------------------------------

  // The disk recovers to the effect of the first j writes, which cut no operation in two.
  ghost predicate PrefixAt(c: Config, t: Sys, j: nat)
    requires ValidHeader(c.g, t.disk) && ValidWrites(c.g, |t.home|, t.writes)
  {
    && j <= |t.writes| && WholeOps(t.writes, j)
    && SameHome(c.g, Recovered(c.g, t.disk), Applied(t.home, t.writes[..j]))
  }

  ghost predicate Safe(c: Config, t: Sys) {
    && ValidHeader(c.g, t.disk) && ValidWrites(c.g, |t.home|, t.writes)
    && exists j: nat :: PrefixAt(c, t, j)
  }

  // No prefix of the writes is what a torn disk recovers to.
  lemma TornNotSafe(c: Config, t: Sys)
    requires Torn(c, t) && 1 <= c.g.size && c.g.start + c.g.size < |t.home|
    requires t.home[c.g.start + c.g.size] == Blank(0)
    ensures !Safe(c, t)
  {
    var b := c.g.start + c.g.size;
    RecoveredShape(c.g, t.disk);
    assert Blank(0)[0] != Blank(1)[0];
    forall j: nat | ValidWrites(c.g, |t.home|, t.writes) && j <= |t.writes|
      ensures !PrefixAt(c, t, j)
    {
      OnesApplied(c.g, t.home, t.writes[..j], b);
    }
  }

  // Every run of every number of processes is crash safe at every moment, or else some
  // run is not: whatever prefix of its writes one takes, recovery gives something else.
  lemma SafeIff(c: Config, size: nat)
    requires Spacious(c.g, size)
    ensures (forall d: Disk, n: nat, es: seq<Event> ::
               |d| == size && ValidHeader(c.g, d) && Run(c, Start(c, d, n), es) ==>
                 Safe(c, After(c, Start(c, d, n), es)))
            <==> !Spills(c)
  {
    if Spills(c) {
      var es := SpillRun(c, size);
      var d := EmptyDisk(size);
      var s0 := Start(c, d, 2);
      HomeFixed(c, s0, es);
      EmptyDiskValid(c.g, size);
      RecoveredShape(c.g, d);
      TornNotSafe(c, After(c, s0, es));
      assert |d| == size;
    } else {
      forall d: Disk, n: nat, es: seq<Event> | |d| == size && ValidHeader(c.g, d) && Run(c, Start(c, d, n), es)
        ensures Safe(c, After(c, Start(c, d, n), es))
      {
        NeverSpills(c, d, n, es);
        SafeNow(c, d, n, es);
      }
    }
  }
}
