/** The functions of fs.c that allocate, map, read, write and free the blocks of files,
    and filewrite of file.c, which cuts a write into transactions. */
module FileOps {
  import opened Sets
  import opened Params
  import opened Bytes
  import opened Files
  import opened FileData
  import opened FileWrite
  import opened FileSteps
  import opened FileLog

  // struct file, for an inode
  class OpenFile {
    const ip: nat
    const writable: bool
    var off: Word

    constructor (ip: nat, writable: bool, off: Word)
      ensures this.ip == ip && this.writable == writable && this.off == off
    {
      this.ip, this.writable, this.off := ip, writable, off;
    }
  }

  class FileSystem {
    const sb: Layout
    var bitmap: seq<bv8>
    var data: seq<seq<Byte>>
    var inodes: seq<Inode>
    var dinodes: seq<Inode>
    ghost var owner: map<nat, (nat, nat)>
    // The blocks given to log_write since the last begin_op.
    ghost var logged: set<nat>

    ghost function S(): Fs
      reads this
    {
      Fs(sb, bitmap, data, inodes, dinodes, owner)
    }

    // A disk whose blocks are owned as owner says, with every inode just read from it.
    constructor (sb: Layout, bitmap: seq<bv8>, data: seq<seq<Byte>>, dinodes: seq<Inode>,
        ghost owner: map<nat, (nat, nat)>)
      ensures S() == Fs(sb, bitmap, data, dinodes, dinodes, owner) && logged == {}
    {
      this.sb, this.bitmap, this.data, this.inodes, this.dinodes := sb, bitmap, data, dinodes, dinodes;
      this.owner, this.logged := owner, {};
    }

    method Bzero(b: nat)
      requires b < |data|
      modifies `data, `logged
      ensures S() == old(S()).(data := old(data)[b := Zeros()]) && logged == old(logged) + {b}
    {
      data := data[b := Zeros()];
      logged := logged + {b};
    }

    // The block found by balloc is marked in the free map and zeroed.
    method TakeBlock(b: nat)
      requires b / 8 < |bitmap| && b < |data|
      modifies `bitmap, `data, `logged
      ensures S() == Alloc(old(S()), b) && logged == old(logged) + {sb.bmapstart + b / BPB, b}
    {
      hide Mask, Zeros;
      var m := Mask(b % BPB % 8);
      InBitmapBlock(b / BPB, b % BPB);
      bitmap := bitmap[b / 8 := bitmap[b / 8] | m];
      logged := logged + {sb.bmapstart + b / BPB};
      Bzero(b);
    }

    // The least free block, marked and zeroed; ok is false where balloc panics.
    method Balloc() returns (ok: bool, b: nat)
      requires Shape(S())
      modifies `bitmap, `data, `logged
      ensures ok ==>
        && b < sb.size && !Bit(old(bitmap), b) && (forall c :: 0 <= c < b ==> Bit(old(bitmap), c))
        && S() == Alloc(old(S()), b) && logged == old(logged) + {sb.bmapstart + b / BPB, b}
      ensures !ok ==> Full(old(S())) && S() == old(S())
    {
      hide Mask, Zeros, SetBit;
      var base := 0;
      ghost var q := 0;
      while base < sb.size
        invariant base == BPB * q && bitmap == old(bitmap) && data == old(data) && logged == old(logged)
        invariant forall c :: 0 <= c < base && c < sb.size ==> Bit(bitmap, c)
      {
        var bi := 0;
        while bi < BPB && base + bi < sb.size
          invariant bi <= BPB && bitmap == old(bitmap) && data == old(data) && logged == old(logged)
          invariant forall c :: 0 <= c < base + bi && c < sb.size ==> Bit(bitmap, c)
        {
          var m := Mask(bi % 8);
          InBitmapBlock(q, bi);
          b := base + bi;
          if bitmap[b / 8] & m == 0 {
            TakeBlock(b);
            return true, b;
          }
          bi := bi + 1;
        }
        base, q := base + BPB, q + 1;
      }
      return false, 0;
    }

    // A block must be marked to be freed: bfree panics otherwise.
    method Bfree(b: nat)
      requires b / 8 < |bitmap| && Bit(bitmap, b)
      modifies `bitmap, `logged
      ensures S() == old(S()).(bitmap := ClearBit(old(bitmap), b)) && logged == old(logged) + {sb.bmapstart + b / BPB}
    {
      hide Mask;
      var m := Mask(b % BPB % 8);
      InBitmapBlock(b / BPB, b % BPB);
      bitmap := bitmap[b / 8 := bitmap[b / 8] & !m];
      logged := logged + {sb.bmapstart + b / BPB};
    }

    method Iupdate(i: nat)
      requires i < |inodes| && i < |dinodes|
      modifies `dinodes, `logged
      ensures S() == Saved(old(S()), i) && logged == old(logged) + {sb.inodestart + i / IPB}
    {
      dinodes := dinodes[i := inodes[i]];
      logged := logged + {sb.inodestart + i / IPB};
    }

    // Slot k of inode i, empty before, gets a fresh block.
    method FillDirect(i: nat, k: nat) returns (ok: bool, addr: nat)
      requires Inv(S()) && Vacant(S(), i, k) && k <= INDIRECT
      modifies `bitmap, `data, `inodes, `owner, `logged
      ensures ok ==> Free(old(S()), addr) && Vacant(old(S()), i, k) && S() == Filled(old(S()), i, k, addr)
      ensures ok ==> logged == old(logged) + {sb.bmapstart + addr / BPB, addr} && addr < sb.size
      ensures ok ==> Logs(old(S()), S(), logged)
      ensures !ok ==> Shape(S()) && Full(S())
    {
      hide Inv, Slot, Bit, Shape;
      InvShape(S());
      ghost var s := S();
      ok, addr := Balloc();
      if ok {
        UnmarkedFree(s, addr);
        inodes := inodes[i := inodes[i].(addrs := inodes[i].addrs[k := addr])];
        owner := owner[addr := (i, k)];
        LogsFilled(s, i, k, addr, logged);
      }
    }

    // Entry k - 13 of the indirect block of inode i, empty before, gets a fresh block.
    method FillEntry(i: nat, k: nat) returns (ok: bool, addr: nat)
      requires Inv(S()) && Vacant(S(), i, k) && k > INDIRECT
      modifies `bitmap, `data, `owner, `logged
      ensures ok ==> Free(old(S()), addr) && Vacant(old(S()), i, k) && S() == Filled(old(S()), i, k, addr)
      ensures ok ==>
        logged == old(logged) + {sb.bmapstart + addr / BPB, addr, old(inodes[i].addrs[INDIRECT])} && addr < sb.size
      ensures ok ==> Logs(old(S()), S(), logged)
      ensures !ok ==> Shape(S()) && Full(S())
    {
      hide Inv, Bit, SetBit, SetWord, Zeros, WordAt;
      InvShape(S());
      ghost var s := S();
      var a := inodes[i].addrs[INDIRECT];
      ok, addr := Balloc();
      if ok {
        UnmarkedFree(s, addr);
        SlotOwner(s, i, INDIRECT);
        data := data[a := SetWord(data[a], k - INDIRECT - 1, addr)];
        logged := logged + {a};
        owner := owner[addr := (i, k)];
        LogsFilled(s, i, k, addr, logged);
      }
    }

    // The bn-th block of inode i, allocated if it was not there; ok is false where bmap
    // or balloc panics.
    method Bmap(i: nat, bn: nat) returns (ok: bool, addr: nat)
      requires Inv(S()) && i < |inodes|
      modifies `bitmap, `data, `inodes, `owner, `logged
      ensures ok ==> Mapped(old(S()), S(), i, bn) && addr == FileBlock(S(), i, bn)
      ensures ok ==> Shape(S()) && i < |inodes| && logged <= old(logged) + Touched(S(), i, bn, bn + 1)
      ensures ok ==> old(logged) <= logged && Logs(old(S()), S(), logged)
      ensures !ok ==> bn >= MAXFILE || (Shape(S()) && Full(S()) && Shape(old(S())) && FileBlock(old(S()), i, bn) == 0)
    {
      hide Inv, Mapped, Touched, Filled, Free, Vacant, Bit, Zeros, Logs;
      ghost var s := S();
      InvShape(s);
      LogsNothing(s, logged);
      if bn < NDIRECT {
        addr := inodes[i].addrs[bn];
        if addr != 0 {
          MappedAlready(s, i, bn);
          return true, addr;
        }
        EmptySlot(s, i, bn);
        ok, addr := FillDirect(i, bn);
        if ok {
          MapOne(s, i, bn, addr);
          MappedTouches(s, S(), i, bn, addr);
        }
      } else if bn - NDIRECT < NINDIRECT {
        addr := inodes[i].addrs[NDIRECT];
        if addr == 0 {
          ok, addr := BmapIndirect(i, bn);
        } else {
          addr := WordAt(data[addr], bn - NDIRECT);
          if addr != 0 {
            MappedAlready(s, i, bn);
            return true, addr;
          }
          EmptySlot(s, i, bn + 1);
          ok, addr := FillEntry(i, bn + 1);
          if ok {
            MapOne(s, i, bn, addr);
            MappedTouches(s, S(), i, bn, addr);
          }
        }
      } else {
        return false, 0;
      }
    }

    // bmap where neither the indirect block nor its entry is there.
    method BmapIndirect(i: nat, bn: nat) returns (ok: bool, addr: nat)
      requires Inv(S()) && i < |inodes| && NDIRECT <= bn < MAXFILE && inodes[i].addrs[NDIRECT] == 0
      modifies `bitmap, `data, `inodes, `owner, `logged
      ensures ok ==> Mapped(old(S()), S(), i, bn) && addr == FileBlock(S(), i, bn)
      ensures ok ==> Shape(S()) && i < |inodes| && logged <= old(logged) + Touched(S(), i, bn, bn + 1)
      ensures ok ==> old(logged) <= logged && Logs(old(S()), S(), logged)
      ensures !ok ==> Shape(S()) && Full(S())
    {
      hide Inv, Mapped, Touched, Filled, Free, Vacant, Bit, Zeros, Logs;
      ghost var s := S();
      InvShape(s);
      EmptySlot(s, i, INDIRECT);
      ok, addr := FillDirect(i, INDIRECT);
      if ok {
        ghost var u, a, before := S(), addr, logged;
        IndirectAppears(s, i, a, bn);
        addr := WordAt(data[addr], bn - NDIRECT);
        assert addr == 0;
        ok, addr := FillEntry(i, bn + 1);
        if ok {
          LogsThen(s, u, S(), before, logged);
          MapTwo(s, i, bn, a, addr);
          MappedTouches(s, S(), i, bn, addr);
        }
      }
    }

    method FreeDirect(i: nat, ghost s: Fs)
      requires Freeing(s, S(), i, {})
      modifies `bitmap, `inodes, `logged
      ensures Freeing(s, S(), i, SlotsTo(NDIRECT)) && logged <= old(logged) + BitmapBlocks(sb)
      ensures old(logged) <= logged && Logs(old(S()), S(), logged)
    {
      hide Inv, Slot, Bit, ClearBit, FreedBits, BitmapBlocks, Shape, Logs;
      LogsNothing(S(), logged);
      assert SlotsTo(0) == {};
      var k := 0;
      while k < NDIRECT
        invariant k <= NDIRECT && Freeing(s, S(), i, SlotsTo(k)) && logged <= old(logged) + BitmapBlocks(sb)
        invariant old(logged) <= logged && Logs(old(S()), S(), logged)
      {
        FreeOne(s, bitmap, i, k, SlotsTo(k));
        DirectSlot(s, i, k);
        assert SlotsTo(k + 1) == SlotsTo(k) + {k};
        if inodes[i].addrs[k] != 0 {
          ghost var u, before := S(), logged;
          InBitmap(sb, inodes[i].addrs[k]);
          Bfree(inodes[i].addrs[k]);
          inodes := inodes[i := inodes[i].(addrs := inodes[i].addrs[k := 0])];
          LogsFreed(u, S(), inodes, old(inodes)[i].addrs[k], logged);
          LogsThen(old(S()), u, S(), before, logged);
        }
        k := k + 1;
      }
    }

    method FreeEntries(i: nat, ghost s: Fs)
      requires Freeing(s, S(), i, SlotsTo(NDIRECT)) && inodes[i].addrs[NDIRECT] != 0
      modifies `bitmap, `logged
      ensures Freeing(s, S(), i, SlotsBut(INDIRECT)) && logged <= old(logged) + BitmapBlocks(sb)
      ensures old(logged) <= logged && Logs(old(S()), S(), logged)
    {
      hide Inv, Slot, Bit, ClearBit, FreedBits, BitmapBlocks, Shape, WordAt, Logs;
      LogsNothing(S(), logged);
      ghost var done: set<nat> := SlotsTo(NDIRECT);
      var a := inodes[i].addrs[NDIRECT];
      var j: nat := 0;
      while j < NINDIRECT
        invariant j <= NINDIRECT && Freeing(s, S(), i, done) && logged <= old(logged) + BitmapBlocks(sb)
        invariant old(logged) <= logged && Logs(old(S()), S(), logged)
        invariant inodes == old(inodes) && forall k :: k in done <==> 0 <= k < INDIRECT || INDIRECT < k <= INDIRECT + j
      {
        DirectSlot(s, i, INDIRECT);
        EntrySlot(s, i, j);
        FreeOne(s, bitmap, i, INDIRECT + 1 + j, done);
        if WordAt(data[a], j) != 0 {
          ghost var u, before := S(), logged;
          InBitmap(sb, WordAt(data[a], j));
          Bfree(WordAt(data[a], j));
          LogsFreed(u, S(), inodes, WordAt(data[a], j), logged);
          LogsThen(old(S()), u, S(), before, logged);
        }
        done := done + {INDIRECT + 1 + j};
        j := j + 1;
      }
      assert done == SlotsBut(INDIRECT);
    }

    // The indirect block, if there is one, with its entries.
    method FreeIndirect(i: nat, ghost s: Fs)
      requires Freeing(s, S(), i, SlotsTo(NDIRECT))
      modifies `bitmap, `inodes, `logged
      ensures Freeing(s, S(), i, SlotsTo(NSLOTS)) && logged <= old(logged) + BitmapBlocks(sb)
      ensures old(logged) <= logged && Logs(old(S()), S(), logged)
    {
      hide Inv, Bit, ClearBit, WordAt, FreedBits, BitmapBlocks, Shape, FreesFile, Logs;
      LogsNothing(S(), logged);
      if inodes[i].addrs[NDIRECT] != 0 {
        FreeEntries(i, s);
        ghost var u, before := S(), logged;
        DirectSlot(s, i, INDIRECT);
        FreeOne(s, bitmap, i, INDIRECT, SlotsBut(INDIRECT));
        InBitmap(sb, inodes[i].addrs[NDIRECT]);
        ghost var b := inodes[i].addrs[NDIRECT];
        Bfree(inodes[i].addrs[NDIRECT]);
        inodes := inodes[i := inodes[i].(addrs := inodes[i].addrs[NDIRECT := 0])];
        LogsFreed(u, S(), inodes, b, logged);
        LogsThen(old(S()), u, S(), before, logged);
        AllSlots();
      } else {
        NoEntries(s, bitmap, i);
      }
    }

    // Every block of inode i is freed, and no other; the panic in bfree is unreachable.
    method Itrunc(i: nat)
      requires Inv(S()) && i < |inodes|
      modifies `bitmap, `inodes, `dinodes, `owner, `logged
      ensures Inv(S()) && S() == Truncated(old(S()), i, bitmap)
      ensures FreesFile(old(S()), bitmap, i)
      ensures logged <= old(logged) + BitmapBlocks(sb) + {sb.inodestart + i / IPB}
      ensures old(logged) <= logged && Logs(old(S()), S(), logged)
    {
      hide Inv, Bit, ClearBit, WordAt, FreedBits, BitmapBlocks, Shape, FreesFile, Logs;
      ghost var s := S();
      InvShape(s);
      NothingFreed(s, i);
      FreeDirect(i, s);
      ghost var u, before := S(), logged;
      FreeIndirect(i, s);
      LogsThen(s, u, S(), before, logged);
      Emptied(s, S(), i);
      u, before := S(), logged;
      inodes := inodes[i := inodes[i].(size := 0)];
      Iupdate(i);
      LogsMore(s, u, before, logged);
      LogsTruncated(s, u, i, logged);
      owner := map b | b in owner && owner[b].0 != i :: owner[b];
      TruncatedInv(s, i, bitmap, SlotsTo(NSLOTS));
      AllFreed(s, bitmap, i);
    }

    // Bytes off up to off + n of the file, as far as it goes. The state changes only if
    // the file has holes, and no contents change even then; ok is false where balloc panics.
    method Readi(i: nat, off: Word, n: Word) returns (ok: bool, r: int, dst: seq<Byte>)
      requires Inv(S()) && i < |inodes|
      modifies `bitmap, `data, `inodes, `owner, `logged
      ensures Shape(old(S())) && Shape(S())
      ensures off > old(inodes[i].size) || off + n >= UINT ==> ok && r == -1 && S() == old(S())
      ensures ok && r != -1 ==> off <= old(inodes[i].size) && off + n < UINT
      ensures ok && r != -1 ==> r == |dst| && dst == Range(Content(old(S()), i), off, n)
      ensures ok ==> Same(old(S()), S(), i)
      ensures ok ==> old(logged) <= logged && Logs(old(S()), S(), logged)
      ensures NoHoles(old(S()), i) ==> ok && S() == old(S())
      ensures !ok ==> Full(S())
    {
      hide Inv, Slot, Shape, Same, NoHoles, ByteAt, Stretch, Range, Full, Logs;
      ghost var s0 := S();
      SameRefl(s0, i);
      LogsNothing(s0, logged);
      if off > inodes[i].size || (off + n) % UINT < off {
        return true, -1, [];
      }
      var todo: nat := if off + n > inodes[i].size then inodes[i].size - off else n;
      StretchRange(s0, i, off, n);
      ok, dst := ReadBlocks(i, off, todo, s0);
      return ok, todo, dst;
    }

    // The loop of readi.
    method ReadBlocks(i: nat, off: nat, todo: nat, ghost s0: Fs) returns (ok: bool, dst: seq<Byte>)
      requires s0 == S() && Inv(s0) && Shape(s0) && i < |s0.inodes|
      requires off + todo <= s0.inodes[i].size <= MAXBYTES
      modifies `bitmap, `data, `inodes, `owner, `logged
      ensures Shape(S()) && (ok ==> Same(s0, S(), i) && dst == Stretch(s0, i, off, todo))
      ensures ok ==> old(logged) <= logged && Logs(s0, S(), logged)
      ensures NoHoles(s0, i) ==> ok && S() == s0
      ensures !ok ==> Full(S())
    {
      hide Inv, Slot, Shape, Same, NoHoles, Mapped, Touched, ByteAt, FileBlock, Stretch, Full, Logs;
      SameRefl(s0, i);
      LogsNothing(s0, logged);
      var tot: nat := 0;
      dst := [];
      while tot < todo
        invariant tot <= todo && Same(s0, S(), i) && (tot == todo || tot == 0 || (off + tot) % BSIZE == 0)
        invariant Shape(S()) && dst == Stretch(s0, i, off, tot)
        invariant NoHoles(s0, i) ==> S() == s0
        invariant old(logged) <= logged && Logs(s0, S(), logged)
      {
        SameInv(s0, S(), i);
        if NoHoles(s0, i) {
          BlockThere(s0, i, off + tot);
        }
        ghost var s, before := S(), logged;
        var b;
        ok, b := Bmap(i, (off + tot) / BSIZE);
        if !ok {
          return false, [];
        }
        LogsThen(s0, s, S(), before, logged);
        SameStep(s0, s, S(), i, (off + tot) / BSIZE);
        ChunkBounds(off, tot, todo);
        var at, m := (off + tot) % BSIZE, Chunk(off, tot, todo);
        ReadChunk(s0, S(), i, off + tot, m);
        StretchSplit(s0, i, off, tot, m);
        dst := dst + data[b][at..at + m];
        tot := tot + m;
      }
      return true, dst;
    }

    // src is spliced into the file at off, or nothing happens and -1 is returned; ok is
    // false where balloc panics.
    method Writei(i: nat, src: seq<Byte>, off: Word) returns (ok: bool, r: int)
      requires Inv(S()) && i < |inodes| && |src| < UINT
      modifies `bitmap, `data, `inodes, `dinodes, `owner, `logged
      ensures Shape(old(S())) && Shape(S())
      ensures !Accepts(old(inodes[i].size), off, |src|) ==> ok && r == -1 && S() == old(S()) && logged == old(logged)
      ensures ok && Accepts(old(inodes[i].size), off, |src|) ==> r == |src| && Written(old(S()), S(), i, off, src)
      ensures ok && Accepts(old(inodes[i].size), off, |src|) ==>
        logged <= old(logged) + Touched(S(), i, off / BSIZE, Reached(off, |src|)) + {sb.inodestart + i / IPB}
      ensures ok ==> old(logged) <= logged && Logs(old(S()), S(), logged)
      ensures ok && Accepts(old(inodes[i].size), off, |src|) ==> i < |inodes| && Covers(S(), i, off, |src|, logged)
      ensures !ok ==> Full(S())
    {
      hide Inv, Slot, Shape, Wrote, NoHoles, Mapped, Touched, ByteAt, FileBlock, Full, Covering, Written, PutChunk,
        Stepping, Logs, Covers;
      ghost var s0, before := S(), logged;
      InvShape(s0);
      LogsNothing(s0, logged);
      if off > inodes[i].size || (off + |src|) % UINT < off {
        return true, -1;
      }
      if off + |src| > MAXBYTES {
        return true, -1;
      }
      ReachedBound(off, |src|);
      ok := WriteBlocks(i, src, off, s0);
      if !ok {
        return false, 0;
      }
      ghost var s, done := S(), logged;
      WroteWritten(s0, s, i, off, src);
      WroteFacts(s0, s, i, off, src, |src|);
      FinishedTouched(s, i, off + |src|, off / BSIZE, Reached(off, |src|));
      if |src| > 0 && off + |src| > inodes[i].size {
        inodes := inodes[i := inodes[i].(size := off + |src|)];
        Iupdate(i);
      }
      LogsFinished(s, i, off + |src|, logged);
      LogsThen(s0, s, S(), done, logged);
      CoversFinished(s, i, off + |src|, off, |src|, done, logged);
      return true, |src|;
    }

    // The loop of writei.
    method WriteBlocks(i: nat, src: seq<Byte>, off: Word, ghost s0: Fs) returns (ok: bool)
      requires s0 == S() && Inv(s0) && Shape(s0) && i < |inodes| && off <= inodes[i].size && off + |src| <= MAXBYTES
      modifies `bitmap, `data, `inodes, `owner, `logged
      ensures ok ==> Wrote(s0, S(), i, off, src, |src|)
      ensures ok ==> Shape(S()) && i < |inodes| && Reached(off, |src|) <= MAXFILE
      ensures ok ==> logged <= old(logged) + Touched(S(), i, off / BSIZE, Reached(off, |src|))
      ensures ok ==> old(logged) <= logged && Logs(s0, S(), logged) && Covers(S(), i, off, |src|, logged)
      ensures !ok ==> Shape(S()) && Full(S())
    {
      hide Inv, Slot, Shape, Wrote, NoHoles, Mapped, Touched, ByteAt, FileBlock, Full, Covering, PutChunk, Stepping;
      hide Logs, Covers;
      ghost var before := logged;
      WroteNothing(s0, i, off, src);
      LogsNothing(s0, logged);
      CoversNothing(s0, i, off, logged);
      var tot: nat := 0;
      while tot < |src|
        invariant tot <= |src| && (tot == |src| || tot == 0 || (off + tot) % BSIZE == 0)
        invariant Wrote(s0, S(), i, off, src, tot) && Shape(S()) && i < |inodes| && Reached(off, tot) <= MAXFILE
        invariant logged <= before + Touched(S(), i, off / BSIZE, Reached(off, tot))
        invariant before <= logged && Logs(s0, S(), logged) && Covers(S(), i, off, tot, logged)
      {
        ghost var s, done := S(), logged;
        WroteFacts(s0, s, i, off, src, tot);
        ChunkBounds(off, tot, |src|);
        var b;
        ok, b := Bmap(i, (off + tot) / BSIZE);
        if !ok {
          return false;
        }
        ghost var t := S();
        WriteStep(s0, s, t, i, off, src, tot);
        MappedShape(s, t, i, (off + tot) / BSIZE);
        PutChunkIs(t, i, off, src, tot);
        TouchedChunk(s0, s, t, i, off, src, tot);
        var m := Chunk(off, tot, |src|);
        ghost var mapped := logged;
        data := data[b := Overwrite(data[b], (off + tot) % BSIZE, src[tot..tot + m])];
        logged := logged + {b};
        LogsChunk(t, i, off, src, tot, logged);
        LogsThen(s0, s, t, done, mapped);
        LogsThen(s0, t, S(), mapped, logged);
        CoversStep(s0, s, t, i, off, src, tot, done, logged);
        tot := tot + m;
      }
      return true;
    }

    // One transaction of filewrite, from begin_op to end_op.
    method WriteChunk(f: OpenFile, src: seq<Byte>) returns (ok: bool, r: int)
      requires Inv(S()) && f.ip < |inodes| && 0 < |src| <= CHUNK
      modifies f`off, `bitmap, `data, `inodes, `dinodes, `owner, `logged
      ensures ok && !Accepts(old(inodes[f.ip].size), old(f.off), |src|) ==>
        r == -1 && S() == old(S()) && f.off == old(f.off)
      ensures ok && Accepts(old(inodes[f.ip].size), old(f.off), |src|) ==>
        r == |src| && Written(old(S()), S(), f.ip, old(f.off), src) && f.off == old(f.off) + |src|
      ensures ok && sb.size <= BPB ==> |logged| <= WRITEBLOCKS
      ensures ok ==> Transaction(old(S()), S(), f.ip, old(f.off), |src|, logged)
    {
      hide Inv, Slot, Shape, Touched, Written, Logs, Covers;
      logged := {};
      ok, r := Writei(f.ip, src, f.off);
      if ok && r > 0 {
        WrittenInv(old(S()), S(), f.ip, f.off, src);
        if sb.size <= BPB {
          ghost var iblock := sb.inodestart + f.ip / IPB;
          TouchedCount(S(), f.ip, f.off, |src|, iblock);
          SubsetCount(logged, Touched(S(), f.ip, f.off / BSIZE, Reached(f.off, |src|)) + {iblock});
        }
        f.off := f.off + r;
      }
    }

    // A write is cut into chunks, each in a transaction of its own; ops has the blocks
    // that each transaction logged, and states what there was before and after each. ok is
    // false where balloc panics; the panic for a short write is unreachable.
    method Filewrite(f: OpenFile, addr: seq<Byte>, n: int)
        returns (ok: bool, r: int, ghost ops: seq<set<nat>>, ghost states: seq<Fs>)
      requires Inv(S()) && f.ip < |inodes| && n <= |addr| && n < 0x8000_0000
      modifies f`off, `bitmap, `data, `inodes, `dinodes, `owner, `logged
      ensures Shape(old(S()))
      ensures !f.writable ==> ok && r == -1 && S() == old(S()) && f.off == old(f.off)
      ensures f.writable && ok ==>
        var k := Complete(old(inodes[f.ip].size), old(f.off), n);
        && (if k == 0 then S() == old(S()) else k <= n && Written(old(S()), S(), f.ip, old(f.off), addr[..k]))
        && f.off == old(f.off) + k && r == if k == n then n else -1
      ensures sb.size <= BPB ==> forall x :: 0 <= x < |ops| ==> |ops[x]| <= WRITEBLOCKS
      ensures ok ==> |states| == |ops| + 1 && states[0] == old(S()) && states[|ops|] == S()
      ensures ok ==> Transactions(states, f.ip, old(f.off), n, ops)
    {
      hide Inv, Slot, Shape, NoHoles, Touched, Written, Transaction, Transactions;
      ghost var s0, off := S(), f.off;
      InvShape(s0);
      NoTransaction(s0, f.ip, off, n);
      ops, states := [], [S()];
      if !f.writable {
        return true, -1, ops, states;
      }
      var k: nat := 0;
      ghost var q: nat := 0;
      while k < n
        invariant k <= n || k == 0
        invariant k == n || k == CHUNK * q
        invariant Progress(s0, S(), f.ip, off, addr, k) && f.off == off + k
        invariant sb.size <= BPB ==> forall x :: 0 <= x < |ops| ==> |ops[x]| <= WRITEBLOCKS
        invariant |states| == |ops| + 1 && states[0] == s0 && states[|ops|] == S()
        invariant Transactions(states, f.ip, off, n, ops)
        invariant k < n ==> |ops| == q
      {
        ProgressFacts(s0, S(), f.ip, off, addr, k);
        var n1 := n - k;
        if n1 > CHUNK {
          n1 := CHUNK;
        }
        ghost var s := S();
        ok, r := WriteChunk(f, addr[k..k + n1]);
        if !ok {
          return false, -1, ops, states;
        }
        OneMore(states, f.ip, off, n, ops, S(), logged);
        ops, states := ops + [logged], states + [S()];
        if r < 0 {
          CompleteStops(s0.inodes[f.ip].size, s.inodes[f.ip].size, off, n, k, q);
          break;
        }
        assert r == n1;
        Advance(s0, s, S(), f.ip, off, addr, k, n1);
        k, q := k + r, q + 1;
      }
      if k >= n {
        ProgressFacts(s0, S(), f.ip, off, addr, k);
      }
      return true, if k == n then n else -1, ops, states;
    }
  }
}
