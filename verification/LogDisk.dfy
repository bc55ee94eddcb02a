/** The on-disk log: its format, and what each single-block write of commit and
    of recovery does to the disk. */
module LogDisk {
  import opened Params
  import opened Blocks

  // The log occupies blocks start .. start + size; the first one is the header.
  datatype Geometry = Geometry(start: nat, size: nat)

  ghost predicate ValidGeometry(g: Geometry, size: nat) {
    1 <= g.size && g.start + g.size <= size < UINT
  }

  predicate InLog(g: Geometry, b: nat) {
    g.start <= b < g.start + g.size
  }

  predicate Distinct<T(==)>(s: seq<T>) {
    forall i, j :: 0 <= i < j < |s| ==> s[i] != s[j]
  }

  function Elements(lh: seq<nat>): set<nat> {
    set i | 0 <= i < |lh| :: lh[i]
  }

  lemma {:induction false} ElementsCount(lh: seq<nat>)
    ensures |Elements(lh)| <= |lh|
    ensures Distinct(lh) ==> |Elements(lh)| == |lh|
  {
    if lh == [] {
      assert Elements(lh) == {};
    } else {
      var rest := lh[..|lh| - 1];
      ElementsCount(rest);
      assert Elements(lh) == Elements(rest) + {lh[|lh| - 1]};
    }
  }

  // log.lh: block numbers of the transaction, all of them home blocks.
  ghost predicate HomeBlocks(g: Geometry, size: nat, lh: seq<nat>) {
    && |lh| <= LOGSIZE && Distinct(lh)
    && forall i :: 0 <= i < |lh| ==> lh[i] < size && !InLog(g, lh[i])
  }

  // And the log on the disk has room for them.
  ghost predicate ValidBlocks(g: Geometry, size: nat, lh: seq<nat>) {
    HomeBlocks(g, size, lh) && |lh| <= g.size - 1
  }

  // ---- the log in memory ------------------------------------------------

  // begin_op lets an operation start.
  predicate Admits(committing: bool, n: nat, outstanding: int) {
    !committing && n + (outstanding + 1) * MAXOPBLOCKS <= LOGSIZE
  }

  // log_write panics, "too big a transaction".
  predicate TooBig(g: Geometry, n: nat) {
    n >= LOGSIZE || n >= g.size - 1
  }

  // Log absorption: a block already logged keeps its place.
  function Absorb(lh: seq<nat>, b: nat): seq<nat> {
    if b in lh then lh else lh + [b]
  }

  lemma AbsorbHome(g: Geometry, size: nat, lh: seq<nat>, b: nat)
    requires HomeBlocks(g, size, lh) && b < size && !InLog(g, b) && (b in lh || |lh| < LOGSIZE)
    ensures HomeBlocks(g, size, Absorb(lh, b))
    ensures forall x :: x in Absorb(lh, b) <==> x in lh || x == b
  {
  }

  lemma AbsorbValid(g: Geometry, size: nat, lh: seq<nat>, b: nat)
    requires ValidBlocks(g, size, lh) && b < size && !InLog(g, b) && !TooBig(g, |lh|)
    ensures ValidBlocks(g, size, Absorb(lh, b))
    ensures forall x :: x in Absorb(lh, b) <==> x in lh || x == b
  {
  }

  // ---- the header block -------------------------------------------------

  // struct logheader laid over a block: word 0 is n, words 1..n are block[].
  // Words past n keep what they held.
  function EncodeHeader(was: Block, lh: seq<nat>): (h: Block)
    requires |lh| <= LOGSIZE
    requires forall i :: 0 <= i < |lh| ==> lh[i] < UINT
  {
    var words: seq<Word> := seq(WORDS, i requires 0 <= i < WORDS =>
      if i == 0 then |lh| else if i <= |lh| then lh[i - 1] else was[i]);
    words
  }

  // read_head reads n and then n block numbers; n is bounded by the block[] array.
  function DecodeHeader(h: Block): (lh: seq<nat>)
    requires h[0] <= LOGSIZE
  {
    seq(h[0], i requires 0 <= i < h[0] => h[i + 1])
  }

  lemma HeaderRoundTrip(was: Block, lh: seq<nat>)
    requires |lh| <= LOGSIZE
    requires forall i :: 0 <= i < |lh| ==> lh[i] < UINT
    ensures EncodeHeader(was, lh)[0] == |lh|
    ensures forall i :: 0 <= i < |lh| ==> EncodeHeader(was, lh)[i + 1] == lh[i]
    ensures forall i :: |lh| < i < WORDS ==> EncodeHeader(was, lh)[i] == was[i]
    ensures DecodeHeader(EncodeHeader(was, lh)) == lh
  {
    var h := EncodeHeader(was, lh);
    assert h[0] == |lh|;
    assert forall i :: 0 <= i < |lh| ==> h[i + 1] == lh[i];
  }

  // The header on disk names a transaction that recovery can install.
  ghost predicate ValidHeader(g: Geometry, d: Disk) {
    && ValidGeometry(g, |d|)
    && d[g.start][0] <= LOGSIZE
    && ValidBlocks(g, |d|, DecodeHeader(d[g.start]))
  }

  ghost function Pending(g: Geometry, d: Disk): seq<nat>
    requires ValidHeader(g, d)
  {
    DecodeHeader(d[g.start])
  }

  // ---- recovery, one block write at a time ------------------------------

  // Write number k of recover_from_log, once read_head has returned lh:
  // |lh| copies from the log to the home blocks, then the header is cleared.
  function RecoverWrite(g: Geometry, d: Disk, lh: seq<nat>, k: nat): (e: Disk)
    requires ValidGeometry(g, |d|) && ValidBlocks(g, |d|, lh) && k <= |lh|
    ensures |e| == |d|
  {
    if k < |lh| then d[lh[k] := d[g.start + k + 1]]
    else d[g.start := EncodeHeader(d[g.start], [])]
  }

  function RecoverAt(g: Geometry, d: Disk, lh: seq<nat>, k: nat): (e: Disk)
    requires ValidGeometry(g, |d|) && ValidBlocks(g, |d|, lh) && k <= |lh| + 1
    ensures |e| == |d|
  {
    if k == 0 then d else RecoverWrite(g, RecoverAt(g, d, lh, k - 1), lh, k - 1)
  }

  // The disk after recover_from_log runs to its end.
  ghost function Recovered(g: Geometry, d: Disk): (e: Disk)
    requires ValidHeader(g, d)
    ensures |e| == |d|
  {
    RecoverAt(g, d, Pending(g, d), |Pending(g, d)| + 1)
  }

  // ---- commit, one block write at a time --------------------------------

  // Write number k of commit() for the transaction lh, whose new contents are in
  // the cache: |lh| log blocks, the header, |lh| home blocks, the cleared header.
  function CommitWrite(g: Geometry, d: Disk, lh: seq<nat>, cache: Disk, k: nat): (e: Disk)
    requires ValidGeometry(g, |d|) && ValidBlocks(g, |d|, lh)
    requires |cache| == |d| && k <= 2 * |lh| + 1
    ensures |e| == |d|
  {
    var n := |lh|;
    if k < n then d[g.start + k + 1 := cache[lh[k]]]
    else if k == n then d[g.start := EncodeHeader(d[g.start], lh)]
    else RecoverWrite(g, d, lh, k - n - 1)
  }

  function CommitAt(g: Geometry, d: Disk, lh: seq<nat>, cache: Disk, k: nat): (e: Disk)
    requires ValidGeometry(g, |d|) && ValidBlocks(g, |d|, lh)
    requires |cache| == |d| && k <= 2 * |lh| + 2
    ensures |e| == |d|
  {
    if k == 0 then d else CommitWrite(g, CommitAt(g, d, lh, cache, k - 1), lh, cache, k - 1)
  }

  // ---- home blocks ------------------------------------------------------

  // Equal outside the log area: what the file system sees of two disks.
  ghost predicate SameHome(g: Geometry, d: Disk, e: Disk) {
    && |d| == |e|
    && forall b :: 0 <= b < |d| && !InLog(g, b) ==> d[b] == e[b]
  }

  // The cache holds the transaction: it differs from the disk's home blocks only
  // in blocks of lh.
  ghost predicate DiffersOnlyIn(g: Geometry, d: Disk, cache: Disk, lh: seq<nat>) {
    && |d| == |cache|
    && forall b :: 0 <= b < |d| && !InLog(g, b) && b !in lh ==> d[b] == cache[b]
  }

  // ---- recovery from any interrupted recovery ---------------------------

  // The first k blocks of lh have been copied home; nothing else has moved.
  lemma {:induction false} RecoverAtShape(g: Geometry, d: Disk, lh: seq<nat>, k: nat)
    requires ValidGeometry(g, |d|) && ValidBlocks(g, |d|, lh) && k <= |lh|
    ensures forall b :: 0 <= b < |d| && b !in lh[..k] ==> RecoverAt(g, d, lh, k)[b] == d[b]
    ensures forall j :: 0 <= j < k ==> RecoverAt(g, d, lh, k)[lh[j]] == d[g.start + j + 1]
  {
    if k > 0 {
      RecoverAtShape(g, d, lh, k - 1);
      var c, e := RecoverAt(g, d, lh, k - 1), RecoverAt(g, d, lh, k);
      var b := lh[k - 1];
      assert lh[..k] == lh[..k - 1] + [b];
      assert InLog(g, g.start + k) && g.start + k !in lh[..k - 1];
      assert e == c[b := d[g.start + k]];
      hide RecoverAt;
      forall j | 0 <= j < k
        ensures e[lh[j]] == d[g.start + j + 1]
      {
        assert j < k - 1 ==> lh[j] != b;
      }
    }
  }

  // Recovery replaces exactly the pending home blocks, and leaves nothing pending.
  lemma RecoveredShape(g: Geometry, d: Disk)
    requires ValidHeader(g, d)
    ensures var lh, e := Pending(g, d), Recovered(g, d);
      && ValidHeader(g, e) && Pending(g, e) == []
      && (forall b :: 0 <= b < |d| && !InLog(g, b) && b !in lh ==> e[b] == d[b])
      && (forall j :: 0 <= j < |lh| ==> e[lh[j]] == d[g.start + j + 1])
  {
    var lh, e := Pending(g, d), Recovered(g, d);
    RecoverAtShape(g, d, lh, |lh|);
    assert lh[..|lh|] == lh;
    HeaderRoundTrip(RecoverAt(g, d, lh, |lh|)[g.start], []);
  }

  // Recovery is idempotent under crashes: a disk left by a recovery that stopped
  // after any number k of its writes recovers to the same home blocks.
  lemma RecoveryRestartable(g: Geometry, d: Disk, k: nat)
    requires ValidHeader(g, d) && k <= |Pending(g, d)| + 1
    ensures var e := RecoverAt(g, d, Pending(g, d), k);
      ValidHeader(g, e) && SameHome(g, Recovered(g, e), Recovered(g, d))
  {
    var lh := Pending(g, d);
    var e := RecoverAt(g, d, lh, k);
    RecoveredShape(g, d);
    if k == |lh| + 1 {
      RecoveredShape(g, e);
    } else {
      RecoverAtShape(g, d, lh, k);
      assert g.start !in lh[..k];
      assert Pending(g, e) == lh;
      RecoveredShape(g, e);
      var r, s := Recovered(g, e), Recovered(g, d);
      forall b | 0 <= b < |d| && !InLog(g, b)
        ensures r[b] == s[b]
      {
        if b in lh {
          var j :| 0 <= j < |lh| && lh[j] == b;
          assert g.start + j + 1 !in lh[..k];
        } else {
          assert b !in lh[..k];
        }
      }
    }
  }

  // One copy of a recovery does not change what it will end with.
  lemma RecoverCopyStep(g: Geometry, d: Disk, k: nat)
    requires ValidHeader(g, d) && k < |Pending(g, d)|
    ensures var lh := Pending(g, d); var e := RecoverWrite(g, d, lh, k);
      && ValidHeader(g, e) && Pending(g, e) == lh
      && SameHome(g, Recovered(g, e), Recovered(g, d))
      && (forall b :: 0 <= b < |d| && InLog(g, b) ==> e[b] == d[b])
  {
    var lh := Pending(g, d);
    var e := RecoverWrite(g, d, lh, k);
    assert e[g.start] == d[g.start];
    RecoveredShape(g, d);
    RecoveredShape(g, e);
    hide RecoverAt, RecoverWrite, Recovered;
  }

  // And the last write of a recovery changes no home block.
  lemma RecoverLastStep(g: Geometry, d: Disk)
    requires ValidHeader(g, d)
    requires forall j :: 0 <= j < |Pending(g, d)| ==> d[Pending(g, d)[j]] == d[g.start + j + 1]
    ensures var e := RecoverWrite(g, d, Pending(g, d), |Pending(g, d)|);
      && ValidHeader(g, e) && Pending(g, e) == []
      && SameHome(g, e, Recovered(g, d)) && SameHome(g, Recovered(g, e), Recovered(g, d))
  {
    var e := RecoverWrite(g, d, Pending(g, d), |Pending(g, d)|);
    HeaderRoundTrip(d[g.start], []);
    assert Pending(g, e) == [];
    RecoveredShape(g, d);
    RecoveredShape(g, e);
  }

  // ---- crashes inside commit --------------------------------------------

  // What is on the disk after k writes of a commit that began from home state d0.
  ghost predicate CommitProgress(g: Geometry, d0: Disk, d: Disk, lh: seq<nat>, cache: Disk, k: nat) {
    && ValidHeader(g, d) && ValidBlocks(g, |d|, lh) && |d0| == |d| == |cache|
    && DiffersOnlyIn(g, d0, cache, lh)
    && k <= 2 * |lh| + 2
    && var n := |lh|;
    if k <= n then
      && Pending(g, d) == []
      && (forall j :: 0 <= j < k ==> d[g.start + j + 1] == cache[lh[j]])
      && SameHome(g, d, d0)
    else if k <= 2 * n + 1 then
      && Pending(g, d) == lh
      && (forall j :: 0 <= j < n ==> d[g.start + j + 1] == cache[lh[j]])
      && (forall j :: 0 <= j < k - n - 1 ==> d[lh[j]] == cache[lh[j]])
      && (forall b :: 0 <= b < |d| && !InLog(g, b) && b !in lh ==> d[b] == cache[b])
    else
      Pending(g, d) == [] && SameHome(g, d, cache)
  }

  // Each single write moves a commit from one stage of its progress to the next.
  lemma CommitProgressStep(g: Geometry, d0: Disk, d: Disk, lh: seq<nat>, cache: Disk, k: nat)
    requires CommitProgress(g, d0, d, lh, cache, k) && k <= 2 * |lh| + 1
    ensures CommitProgress(g, d0, CommitWrite(g, d, lh, cache, k), lh, cache, k + 1)
  {
    if k < |lh| {
      LogBlockStep(g, d0, d, lh, cache, k);
    } else if k == |lh| {
      HeaderStep(g, d0, d, lh, cache);
    } else if k <= 2 * |lh| {
      InstallStep(g, d0, d, lh, cache, k);
    } else {
      HeaderRoundTrip(d[g.start], []);
    }
  }

  lemma LogBlockStep(g: Geometry, d0: Disk, d: Disk, lh: seq<nat>, cache: Disk, k: nat)
    requires CommitProgress(g, d0, d, lh, cache, k) && k < |lh|
    ensures CommitProgress(g, d0, CommitWrite(g, d, lh, cache, k), lh, cache, k + 1)
  {
    assert CommitWrite(g, d, lh, cache, k)[g.start] == d[g.start];
  }

  lemma HeaderStep(g: Geometry, d0: Disk, d: Disk, lh: seq<nat>, cache: Disk)
    requires CommitProgress(g, d0, d, lh, cache, |lh|)
    ensures CommitProgress(g, d0, CommitWrite(g, d, lh, cache, |lh|), lh, cache, |lh| + 1)
  {
    HeaderRoundTrip(d[g.start], lh);
    assert Pending(g, CommitWrite(g, d, lh, cache, |lh|)) == lh;
  }

  lemma InstallStep(g: Geometry, d0: Disk, d: Disk, lh: seq<nat>, cache: Disk, k: nat)
    requires CommitProgress(g, d0, d, lh, cache, k) && |lh| < k <= 2 * |lh|
    ensures CommitProgress(g, d0, CommitWrite(g, d, lh, cache, k), lh, cache, k + 1)
  {
    assert CommitWrite(g, d, lh, cache, k)[g.start] == d[g.start];
  }

  // The header write is the commit point: recovery before it gives the old home
  // blocks, every one; recovery after it gives the new ones, every one.
  lemma CrashDuringCommit(g: Geometry, d0: Disk, d: Disk, lh: seq<nat>, cache: Disk, k: nat)
    requires CommitProgress(g, d0, d, lh, cache, k)
    ensures SameHome(g, Recovered(g, d), if k <= |lh| then d0 else cache)
  {
    RecoveredShape(g, d);
  }

  lemma CommitFacts(g: Geometry, d0: Disk, d: Disk, lh: seq<nat>, cache: Disk, k: nat)
    requires CommitProgress(g, d0, d, lh, cache, k)
    ensures ValidHeader(g, d) && ValidBlocks(g, |d|, lh)
    ensures k == 2 * |lh| + 2 ==> Pending(g, d) == [] && SameHome(g, d, cache)
  {
  }

  lemma {:induction false} CommitAtProgress(g: Geometry, d: Disk, lh: seq<nat>, cache: Disk, k: nat)
    requires ValidHeader(g, d) && Pending(g, d) == [] && ValidBlocks(g, |d|, lh)
    requires DiffersOnlyIn(g, d, cache, lh) && k <= 2 * |lh| + 2
    ensures CommitProgress(g, d, CommitAt(g, d, lh, cache, k), lh, cache, k)
  {
    if k > 0 {
      CommitAtProgress(g, d, lh, cache, k - 1);
      CommitProgressStep(g, d, CommitAt(g, d, lh, cache, k - 1), lh, cache, k - 1);
    }
  }

  // Crash atomicity of one transaction: stop commit after any k writes, then stop
  // each of any number of recoveries after any number of its writes; a recovery
  // that finishes leaves all home blocks old or all home blocks new.
  ghost function Reboots(g: Geometry, d: Disk, stops: seq<nat>): (e: Disk)
    requires ValidHeader(g, d)
    ensures ValidHeader(g, e) && SameHome(g, Recovered(g, e), Recovered(g, d))
    decreases |stops|
  {
    if stops == [] then d
    else
      var lh := Pending(g, d);
      var k := if stops[0] <= |lh| + 1 then stops[0] else |lh| + 1;
      RecoveryRestartable(g, d, k);
      Reboots(g, RecoverAt(g, d, lh, k), stops[1..])
  }

  lemma CrashAtomicity(g: Geometry, d: Disk, lh: seq<nat>, cache: Disk, k: nat, stops: seq<nat>)
    requires ValidHeader(g, d) && Pending(g, d) == [] && ValidBlocks(g, |d|, lh)
    requires DiffersOnlyIn(g, d, cache, lh) && k <= 2 * |lh| + 2
    ensures var crashed := CommitAt(g, d, lh, cache, k);
      && ValidHeader(g, crashed)
      && SameHome(g, Recovered(g, Reboots(g, crashed, stops)), if k <= |lh| then d else cache)
  {
    CommitAtProgress(g, d, lh, cache, k);
    CrashDuringCommit(g, d, CommitAt(g, d, lh, cache, k), lh, cache, k);
  }
}
