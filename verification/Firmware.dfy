/** Reading a firmware file in blocks of 64 bytes through one reused buffer. */
module Firmware {
  import opened Common
  import opened Memory

  const BLOCK_SIZE := 64

  datatype Status = Success | Failure | InvalidParam | MallocFail

  datatype Ending = Ended | Failed | StillReading

  class FwDesc {
    var fd: int
    const buff: array<uint8>
    var offset: nat
    var openFlag: bool

    constructor (fd: int)
      ensures this.fd == fd && offset == 0 && openFlag && buff.Length == BLOCK_SIZE && fresh(buff)
    {
      this.fd, offset, openFlag := fd, 0, true;
      buff := new uint8[BLOCK_SIZE](_ => 0);
    }
  }

  class FwBlock {
    var data: array?<uint8>
    var dataSize: nat
    var curOffset: nat
    var endFlag: bool

    constructor ()
    {}
  }

  /** How much the read at `offset` asks for, and whether it calls the block the last. */
  function Asked(offset: nat, size: nat): (nat, bool)
    requires offset < size
  {
    if Wrap(offset + BLOCK_SIZE) >= size then (size - offset, true) else (BLOCK_SIZE, false)
  }

  class OsalFirmware {
    var fwSize: nat
    var para: FwDesc?

    constructor ()
      ensures fwSize == 0 && para == null
    {
      fwSize, para := 0, null;
    }

    ghost predicate Valid()
      reads this, para
    {
      fwSize < TWO_TO_32 && (para != null ==> para.buff.Length == BLOCK_SIZE && para.offset < TWO_TO_32)
    }

    /** `pathOk`, `fd` (-1 for an error), `statOk` and `allocOk` answer for realpath, open,
        fstat and the allocator; `stSize` is the file size that fstat reports. `closed` is
        whether the descriptor was closed again. */
    method Request(nameOk: bool, pathOk: bool, fd: int, statOk: bool, stSize: nat, allocOk: bool)
      returns (r: Status, closed: bool)
      modifies this
      ensures r == if !nameOk then InvalidParam
                   else if !pathOk || fd == -1 || !statOk then Failure
                   else if !allocOk then MallocFail else Success
      ensures closed <==> nameOk && pathOk && fd != -1 && r != Success
      ensures r == InvalidParam ==> unchanged(this)
      ensures r == Failure || r == MallocFail ==> Valid() && fwSize == 0 && para == null
      ensures r == Success ==>
                && Valid() && para != null && fresh(para) && fresh(para.buff)
                && fwSize == Wrap(stSize) && para.fd == fd && para.openFlag && para.offset == 0
    {
      if !nameOk {
        return InvalidParam, false;
      }
      fwSize := 0;
      para := null;
      if !pathOk {
        return Failure, false;
      }
      if fd == -1 {
        return Failure, false;
      }
      if !statOk {
        return Failure, true;
      }
      if !allocOk {
        return MallocFail, true;
      }
      para := new FwDesc(fd);
      fwSize := Wrap(stSize);
      return Success, false;
    }

    method Seek(offset: nat) returns (r: Status)
      requires Valid()
      modifies para
      ensures Valid() && r == if offset >= fwSize || para == null then InvalidParam else Success
      ensures para != null ==>
                && para.offset == (if r == Success then offset else old(para.offset))
                && para.fd == old(para.fd) && para.openFlag == old(para.openFlag)
    {
      if offset >= fwSize || para == null {
        return InvalidParam;
      }
      para.offset := offset;
      return Success;
    }

    /** `sought` is what lseek answers and `got` what read does: a count, or -1. */
    method Read(block: FwBlock?, file: seq<uint8>, sought: int, got: int) returns (r: Status)
      requires Valid()
      requires para != null && para.offset < fwSize ==>
                 -1 <= got <= Asked(para.offset, fwSize).0 && (got > 0 ==> para.offset + got <= |file|)
      modifies para, block, if para == null then {} else {para.buff}
      ensures Valid()
      ensures r == Success <==>
                && para != null && block != null && old(para.openFlag) && old(para.offset) < fwSize
                && para.fd != -1 && sought == old(para.offset) && got == Asked(old(para.offset), fwSize).0
      ensures r == InvalidParam <==>
                para == null || block == null || !old(para.openFlag) || old(para.offset) >= fwSize || para.fd == -1
      ensures para != null ==> para.fd == old(para.fd) && para.openFlag == old(para.openFlag)
      ensures para != null && r != Success ==> para.offset == old(para.offset)
      ensures r == Success ==>
                var (n, end) := Asked(old(para.offset), fwSize);
                && block.data == para.buff && block.dataSize == n && block.endFlag == end
                && block.curOffset == old(para.offset)
                && block.data[..n] == file[old(para.offset)..old(para.offset) + n]
                && para.offset == Wrap(old(para.offset) + n)
    {
      if para == null || block == null {
        return InvalidParam;
      }
      if !para.openFlag {
        return InvalidParam;
      }
      block.data := para.buff;
      block.endFlag := false;
      block.dataSize := BLOCK_SIZE;
      if para.offset >= fwSize {
        return InvalidParam;
      }
      if Wrap(para.offset + block.dataSize) >= fwSize {
        block.dataSize := fwSize - para.offset;
        block.endFlag := true;
      }
      if para.fd == -1 {
        return InvalidParam;
      }
      if sought != para.offset {
        return Failure;
      }
      if got > 0 {
        CopyIn(para.buff, 0, file[para.offset..para.offset + got]);
      }
      if got != block.dataSize {
        return Failure;
      }
      block.curOffset := para.offset;
      para.offset := Wrap(para.offset + block.dataSize);
      return Success;
    }

    /** One read of a file whose reads return all the bytes there are. */
    method ReadNext(file: seq<uint8>, block: FwBlock) returns (ok: bool, data: seq<uint8>, last: bool)
      requires Valid() && para != null && para.openFlag && para.fd != -1 && para.offset < fwSize <= |file|
      modifies para, para.buff, block
      ensures Valid() && para.openFlag && para.fd == old(para.fd)
      ensures ok <==> old(para.offset) + Asked(old(para.offset), fwSize).0 <= |file|
      ensures ok ==> (|data|, last) == Asked(old(para.offset), fwSize)
      ensures ok ==> IsBlock(file, old(para.offset), data) && para.offset == Wrap(old(para.offset) + |data|)
      ensures !ok ==> para.offset == old(para.offset)
    {
      var left := |file| - para.offset;
      var n := Asked(para.offset, fwSize).0;
      var r := Read(block, file, para.offset, if n <= left then n else left);
      if r != Success {
        return false, [], false;
      }
      return true, block.data[..block.dataSize], block.endFlag;
    }

    /** The next read after those that got `got` from offset `o`. */
    method ReadOn(file: seq<uint8>, block: FwBlock, ghost o: nat, got: seq<seq<uint8>>, flags: seq<bool>,
                  ghost turns: nat)
      returns (end: Ending, got': seq<seq<uint8>>, flags': seq<bool>)
      requires Valid() && para != null && para.openFlag && para.fd != -1 && o < fwSize == Wrap(|file|)
      requires para.offset < fwSize && SoFar(file, fwSize, o, got, flags, para.offset) && |got| < turns
      modifies para, para.buff, block
      ensures Valid() && para.openFlag && para.fd == old(para.fd)
      ensures if end == StillReading
              then para.offset < fwSize && SoFar(file, fwSize, o, got', flags', para.offset) && |got'| == |got| + 1
              else Reading(file, fwSize, o, turns, end, got', flags', para.offset)
    {
      WrapSmall(|file|);
      ghost var at := para.offset;
      var ok, data, last := ReadNext(file, block);
      end, got', flags' := After(ok, last), if ok then got + [data] else got, if ok then flags + [last] else flags;
      OneRead(file, fwSize, o, got, flags, at, turns, ok, data, last);
    }

    /** Reads from the current offset until the end flag, a failure, or `turns` reads, on the
        file whose size was recorded, whose reads return all the bytes there are. */
    method ReadToEnd(file: seq<uint8>, turns: nat) returns (end: Ending, got: seq<seq<uint8>>, flags: seq<bool>)
      requires Valid() && para != null && para.openFlag && para.fd != -1
      requires fwSize == Wrap(|file|) && para.offset < fwSize
      modifies para, para.buff
      ensures Valid() && fwSize == old(fwSize)
      ensures Reading(file, fwSize, old(para.offset), turns, end, got, flags, para.offset)
    {
      ghost var o := para.offset;
      var block := new FwBlock();
      end, got, flags := StillReading, [], [];
      NothingYet(file, fwSize, o);
      while |got| < turns
        invariant Valid() && para.openFlag && para.fd == old(para.fd) && para.offset < fwSize
        invariant SoFar(file, fwSize, o, got, flags, para.offset) && |got| <= turns
        decreases turns - |got|
      {
        end, got, flags := ReadOn(file, block, o, got, flags, turns);
        if end != StillReading {
          return;
        }
      }
      SoFarReading(file, fwSize, o, got, flags, para.offset);
      end := StillReading;
    }
  }

  function After(ok: bool, last: bool): Ending {
    if !ok then Failed else if last then Ended else StillReading
  }

  /** What the outcome of a read makes of the reading so far. */
  lemma OneRead(file: seq<uint8>, size: nat, o: nat, got: seq<seq<uint8>>, flags: seq<bool>, at: nat, turns: nat,
                ok: bool, data: seq<uint8>, last: bool)
    requires o < size < TWO_TO_32 && size == Wrap(|file|) && at < size && SoFar(file, size, o, got, flags, at)
    requires |got| < turns && (ok <==> at + Asked(at, size).0 <= |file|)
    requires ok ==> (|data|, last) == Asked(at, size) && IsBlock(file, at, data)
    ensures if !ok then Reading(file, size, o, turns, Failed, got, flags, at)
            else
              var at' := Wrap(at + |data|);
              if last then Reading(file, size, o, turns, Ended, got + [data], flags + [last], at')
              else at' < size && SoFar(file, size, o, got + [data], flags + [last], at')
  {
    if !ok {
      NoMore(file, size, o, got, flags, at, turns);
    } else if last {
      LastOne(file, size, o, got, flags, at, data, turns);
    } else {
      OneMore(file, size, o, got, flags, at, data);
    }
  }

  lemma NothingYet(file: seq<uint8>, size: nat, o: nat)
    requires o < size == Wrap(|file|)
    ensures SoFar(file, size, o, [], [], o)
  {
    WrapSmall(|file|);
    assert file[o..o] == [];
  }

  /** Each block is the stretch of the file its read asked for. */
  ghost predicate AllBlocks(file: seq<uint8>, o: nat, got: seq<seq<uint8>>) {
    forall i | 0 <= i < |got| :: IsBlock(file, Wrap(o + BLOCK_SIZE * i), got[i])
  }

  /** What `turns` reads of a file from offset `o` come to, where `size` is the recorded
      size and `at` the offset reached: the blocks put together are the file from `o` to the
      recorded end, only the last one flagged, exactly when the end can be reached; where it
      cannot, a file below 4 GiB fails at the top, and a longer one is read for ever. */
  ghost predicate Reading(file: seq<uint8>, size: nat, o: nat, turns: nat,
                          end: Ending, got: seq<seq<uint8>>, flags: seq<bool>, at: nat)
    requires o < size < TWO_TO_32
  {
    && (end == Ended <==> Reassembles(o, size) && Blocks(o, size) <= turns)
    && (end == Failed <==> !Reassembles(o, size) && |file| < TWO_TO_32 && ToTop(o) < turns)
    && (end == Ended ==>
          && |got| == Blocks(o, size) && at == size <= |file| && Concat(got) == file[o..size]
          && (Concat(got) == file[o..] <==> |file| < TWO_TO_32))
    && (end == Failed ==> |got| == ToTop(o) && at == o + BLOCK_SIZE * |got|)
    && (end == StillReading ==> |got| == turns && at == Wrap(o + BLOCK_SIZE * turns))
    && |flags| == |got| && (forall i | 0 <= i < |flags| :: flags[i] <==> end == Ended && i == |flags| - 1)
    && AllBlocks(file, o, got)
  }

  /** Reading from `o` has got these blocks, none of them flagged, and stands at `at`. */
  ghost predicate SoFar(file: seq<uint8>, size: nat, o: nat, got: seq<seq<uint8>>, flags: seq<bool>, at: nat)
    requires o < size < TWO_TO_32
  {
    && at == Wrap(o + BLOCK_SIZE * |got|)
    && (Reassembles(o, size) ==> |got| < Blocks(o, size) && AtBlock(file, o, got, at))
    && (!Reassembles(o, size) && |file| < TWO_TO_32 ==> |got| <= ToTop(o) && at == o + BLOCK_SIZE * |got|)
    && |flags| == |got| && (forall i | 0 <= i < |flags| :: !flags[i])
    && AllBlocks(file, o, got)
  }

  ghost predicate AtBlock(file: seq<uint8>, o: nat, got: seq<seq<uint8>>, at: nat) {
    at == o + BLOCK_SIZE * |got| <= |file| && Concat(got) == file[o..at]
  }

  lemma OneMore(file: seq<uint8>, size: nat, o: nat, got: seq<seq<uint8>>, flags: seq<bool>, at: nat, data: seq<uint8>)
    requires o < size < TWO_TO_32 && size == Wrap(|file|) && at < size && SoFar(file, size, o, got, flags, at)
    requires (|data|, false) == Asked(at, size) && IsBlock(file, at, data)
    ensures var at' := Wrap(at + |data|);
            at' < size && SoFar(file, size, o, got + [data], flags + [false], at')
  {
    WrapSmall(|file|);
    NextBlock(o, size, |got|);
    BlocksSnoc(file, o, got, data);
    if Reassembles(o, size) {
      AtNext(file, o, got, at, data);
    }
  }

  lemma Slices(file: seq<uint8>, i: nat, j: nat, k: nat)
    requires i <= j <= k <= |file|
    ensures file[i..j] + file[j..k] == file[i..k]
  {}

  lemma AtNext(file: seq<uint8>, o: nat, got: seq<seq<uint8>>, at: nat, data: seq<uint8>)
    requires o <= at && AtBlock(file, o, got, at) && IsBlock(file, at, data)
    ensures Concat(got + [data]) == file[o..at + |data|]
  {
    ConcatSnoc(got, data);
    Slices(file, o, at, at + |data|);
  }

  lemma BlocksSnoc(file: seq<uint8>, o: nat, got: seq<seq<uint8>>, data: seq<uint8>)
    requires AllBlocks(file, o, got) && IsBlock(file, Wrap(o + BLOCK_SIZE * |got|), data)
    ensures AllBlocks(file, o, got + [data])
  {
    var more := got + [data];
    forall i | 0 <= i < |more|
      ensures IsBlock(file, Wrap(o + BLOCK_SIZE * i), more[i])
    {
      assert i < |got| ==> more[i] == got[i];
    }
  }

  lemma LastOne(file: seq<uint8>, size: nat, o: nat, got: seq<seq<uint8>>, flags: seq<bool>, at: nat, data: seq<uint8>,
                turns: nat)
    requires o < size < TWO_TO_32 && size == Wrap(|file|) && at < size && SoFar(file, size, o, got, flags, at)
    requires (|data|, true) == Asked(at, size) && IsBlock(file, at, data) && |got| < turns
    ensures Reading(file, size, o, turns, Ended, got + [data], flags + [true], Wrap(at + |data|))
  {
    WrapSmall(|file|);
    NextBlock(o, size, |got|);
    BlocksSnoc(file, o, got, data);
    AtNext(file, o, got, at, data);
    assert |file[o..]| == |file[o..size]| <==> |file| < TWO_TO_32;
  }

  /** A read that gets too few bytes stands at the top of a file below 4 GiB. */
  lemma NoMore(file: seq<uint8>, size: nat, o: nat, got: seq<seq<uint8>>, flags: seq<bool>, at: nat, turns: nat)
    requires o < size < TWO_TO_32 && size == Wrap(|file|) && at < size && SoFar(file, size, o, got, flags, at)
    requires at + Asked(at, size).0 > |file| && |got| < turns
    ensures Reading(file, size, o, turns, Failed, got, flags, at)
  {
    WrapSmall(|file|);
    NextBlock(o, size, |got|);
  }

  lemma SoFarReading(file: seq<uint8>, size: nat, o: nat, got: seq<seq<uint8>>, flags: seq<bool>, at: nat)
    requires o < size < TWO_TO_32 && SoFar(file, size, o, got, flags, at)
    ensures Reading(file, size, o, |got|, StillReading, got, flags, at)
  {}

  /** A stretch of the file that starts at `at`. */
  predicate IsBlock(file: seq<uint8>, at: nat, block: seq<uint8>) {
    at + |block| <= |file| && block == file[at..at + |block|]
  }

  function Blocks(offset: nat, size: nat): nat
    requires offset < size
  {
    (size - offset + BLOCK_SIZE - 1) / BLOCK_SIZE
  }

  /** Full blocks from `offset` until the next one would end beyond 4 GiB. */
  function ToTop(offset: nat): nat
    requires offset < TWO_TO_32
  {
    (TWO_TO_32 - 1 - offset) / BLOCK_SIZE
  }

  /** Exactly when reading from `offset` gets to the recorded end of the file: when the end
      of the last block, counted as a full one, still fits uint32_t. */
  predicate Reassembles(offset: nat, size: nat)
    requires offset < size
  {
    offset + BLOCK_SIZE * Blocks(offset, size) < TWO_TO_32
  }

  /** A file that ends at least 64 bytes below 4 GiB can be read from anywhere, and one
      longer than that cannot be read from its start. */
  lemma ReassemblesBelow(size: nat)
    requires 0 < size < TWO_TO_32
    ensures size <= TWO_TO_32 - BLOCK_SIZE ==> forall o | 0 <= o < size :: Reassembles(o, size)
    ensures size > TWO_TO_32 - BLOCK_SIZE ==> !Reassembles(0, size)
  {}

  lemma WrapSmall(n: nat)
    ensures Wrap(n) <= n && (Wrap(n) == n <==> n < TWO_TO_32)
    ensures n >= TWO_TO_32 ==> n >= Wrap(n) + TWO_TO_32
  {}

  lemma StepWraps(o: nat, k: nat)
    ensures Wrap(Wrap(o + BLOCK_SIZE * k) + BLOCK_SIZE) == Wrap(o + BLOCK_SIZE * (k + 1))
    ensures exists j: int :: Wrap(o + BLOCK_SIZE * k) == o + BLOCK_SIZE * j
  {
    var n := o + BLOCK_SIZE * k;
    var m := n / TWO_TO_32;
    assert Wrap(n) == n % TWO_TO_32 == n - TWO_TO_32 * m;
    assert Wrap(n) == o + BLOCK_SIZE * (k - 0x400_0000 * m);
    assert n + BLOCK_SIZE == (Wrap(n) + BLOCK_SIZE) + TWO_TO_32 * m;
    ModPlus(Wrap(n) + BLOCK_SIZE, m);
  }

  /** The k-th read from `o`. Where the end can be reached it asks for the next full block,
      or for the last one; elsewhere it always asks for a full block, and once it reaches
      the top no such block is left in a file below 4 GiB. */
  lemma NextBlock(o: nat, size: nat, k: nat)
    requires o < size < TWO_TO_32
    ensures Wrap(Wrap(o + BLOCK_SIZE * k) + BLOCK_SIZE) == Wrap(o + BLOCK_SIZE * (k + 1))
    ensures Reassembles(o, size) && k < Blocks(o, size) ==>
              var x := o + BLOCK_SIZE * k;
              && x < size && Wrap(x) == x
              && (if k + 1 < Blocks(o, size) then x + BLOCK_SIZE < size && Asked(x, size) == (BLOCK_SIZE, false)
                  else Asked(x, size) == (size - x, true))
    ensures !Reassembles(o, size) ==>
              var x := Wrap(o + BLOCK_SIZE * k);
              && x < size && Asked(x, size) == (BLOCK_SIZE, false) && Wrap(x + BLOCK_SIZE) < size
    ensures !Reassembles(o, size) && k <= ToTop(o) ==>
              var x := o + BLOCK_SIZE * k;
              Wrap(x) == x && (k == ToTop(o) <==> x + BLOCK_SIZE > size)
  {
    StepWraps(o, k);
    if !Reassembles(o, size) {
      TopBelow(o, size);
      var x := Wrap(o + BLOCK_SIZE * k);
      var j: int :| x == o + BLOCK_SIZE * j;
      OnGrid(o, size, x, j);
    }
  }

  lemma TopBelow(o: nat, size: nat)
    requires o < size < TWO_TO_32 && !Reassembles(o, size)
    ensures var top := o + BLOCK_SIZE * ToTop(o); TWO_TO_32 - BLOCK_SIZE <= top < size
  {}

  lemma OnGrid(o: nat, size: nat, x: nat, j: int)
    requires o < size < TWO_TO_32 && !Reassembles(o, size) && x == o + BLOCK_SIZE * j && x < TWO_TO_32
    ensures x < size && Asked(x, size) == (BLOCK_SIZE, false) && Wrap(x + BLOCK_SIZE) < size
  {
    TopBelow(o, size);
    assert j <= ToTop(o);
    if j < ToTop(o) {
      assert x + BLOCK_SIZE <= o + BLOCK_SIZE * ToTop(o);
    } else {
      assert (x + BLOCK_SIZE) % TWO_TO_32 == x + BLOCK_SIZE - TWO_TO_32;
    }
  }

  function Concat(ss: seq<seq<uint8>>): seq<uint8> {
    if ss == [] then [] else Concat(ss[..|ss| - 1]) + ss[|ss| - 1]
  }

  lemma ConcatSnoc(ss: seq<seq<uint8>>, s: seq<uint8>)
    ensures Concat(ss + [s]) == Concat(ss) + s
  {
    assert (ss + [s])[..|ss|] == ss;
  }
}
