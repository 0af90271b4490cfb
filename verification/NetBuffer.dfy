/** The network buffer: one block of memory split into a head room, a data segment
    and a tail room. Six moves shift the two cuts between them. */
module NetBuffer {
  import opened Common
  import opened Memory

  /** Overrun stands for a write outside a block: what the program does from there on is not
      defined, and nothing more is promised. */
  datatype Status = Success | Failure | InvalidParam | Overrun

  const HEAD_BUF: nat := 0
  const DATA_BUF: nat := 1
  const TAIL_BUF: nat := 2

  datatype BufField = BufField(offset: nat, len: nat)

  // --------------------------------------------- the buffer as two cuts

  /** Head room is [0, a), data [a, b), tail room [b, len). */
  datatype Cut = Cut(a: nat, b: nat, len: nat) {
    predicate Ok() {
      a <= b <= len < TWO_TO_32
    }
  }

  datatype Move = Push(id: nat, n: nat) | Pop(id: nat, n: nat)

  /** The cuts after a move, or None when the room it takes from is too small. */
  function Moved(c: Cut, m: Move): Option<Cut> {
    match m
    case Push(0, n) => if c.a + n <= c.b then Some(c.(a := c.a + n)) else None
    case Push(1, n) => if c.b + n <= c.len then Some(c.(b := c.b + n)) else None
    case Push(2, n) => if c.a + n <= c.b then Some(c.(b := c.b - n)) else None
    case Pop(0, n) => if n <= c.a then Some(c.(a := c.a - n)) else None
    case Pop(1, n) => if c.a + n <= c.b then Some(c.(a := c.a + n)) else None
    case Pop(2, n) => if c.b + n <= c.len then Some(c.(b := c.b + n)) else None
    case _ => Some(c)
  }

  /** The move that takes back an accepted move. */
  function Inverse(m: Move): Move {
    match m
    case Push(0, n) => Pop(0, n)
    case Push(1, n) => Push(2, n)
    case Push(2, n) => Pop(2, n)
    case Pop(0, n) => Pop(1, n)
    case Pop(1, n) => Pop(0, n)
    case Pop(2, n) => Push(2, n)
    case _ => m
  }

  /** A run of moves; a refused one changes nothing and the run goes on. */
  function MovedAll(c: Cut, ms: seq<Move>): Cut
    decreases |ms|
  {
    if ms == [] then c
    else MovedAll(match Moved(c, ms[0]) case Some(d) => d case None => c, ms[1..])
  }

  predicate AllAccepted(c: Cut, ms: seq<Move>)
    decreases |ms|
  {
    ms == [] || match Moved(c, ms[0]) case Some(d) => AllAccepted(d, ms[1..]) case None => false
  }

  function Undo(ms: seq<Move>): seq<Move>
    decreases |ms|
  {
    if ms == [] then [] else Undo(ms[1..]) + [Inverse(ms[0])]
  }

  lemma {:induction false} MovedAllInTurn(c: Cut, ms: seq<Move>, ns: seq<Move>)
    ensures MovedAll(c, ms + ns) == MovedAll(MovedAll(c, ms), ns)
    ensures AllAccepted(c, ms) && AllAccepted(MovedAll(c, ms), ns) ==> AllAccepted(c, ms + ns)
    decreases |ms|
  {
    if ms == [] {
      assert ms + ns == ns;
    } else {
      assert (ms + ns)[1..] == ms[1..] + ns;
      MovedAllInTurn(match Moved(c, ms[0]) case Some(d) => d case None => c, ms[1..], ns);
    }
  }

  lemma InverseUndoes(c: Cut, m: Move)
    requires c.Ok() && Moved(c, m).Some?
    ensures Moved(c, m).value.Ok() && Moved(Moved(c, m).value, Inverse(m)) == Some(c)
  {
    match m
    case Push(0, n) => assert Moved(c, m) == Some(c.(a := c.a + n));
    case Push(1, n) => assert Moved(c, m) == Some(c.(b := c.b + n));
    case Push(2, n) => assert Moved(c, m) == Some(c.(b := c.b - n));
    case Pop(0, n) => assert Moved(c, m) == Some(c.(a := c.a - n));
    case Pop(1, n) => assert Moved(c, m) == Some(c.(a := c.a + n));
    case Pop(2, n) => assert Moved(c, m) == Some(c.(b := c.b + n));
    case _ =>
  }

  lemma OneMove(c: Cut, m: Move)
    requires Moved(c, m).Some?
    ensures AllAccepted(c, [m]) && MovedAll(c, [m]) == Moved(c, m).value
  {
    assert [m][1..] == [];
  }

  /** Whatever a run of accepted moves did to the layout, the inverse moves in
      reverse order are accepted too and restore it. */
  lemma {:induction false} UndoRestores(c: Cut, ms: seq<Move>)
    requires c.Ok() && AllAccepted(c, ms)
    ensures MovedAll(c, ms).Ok()
    ensures AllAccepted(MovedAll(c, ms), Undo(ms))
    ensures MovedAll(MovedAll(c, ms), Undo(ms)) == c
    decreases |ms|
  {
    if ms != [] {
      InverseUndoes(c, ms[0]);
      var d := Moved(c, ms[0]).value;
      UndoRestores(d, ms[1..]);
      OneMove(d, Inverse(ms[0]));
      assert MovedAll(c, ms) == MovedAll(d, ms[1..]);
      MovedAllInTurn(MovedAll(c, ms), Undo(ms[1..]), [Inverse(ms[0])]);
    }
  }

  // ----------------------------------------------------- growing the rooms

  /** The cuts and the block length NetBufResizeRoom computes in uint32_t. */
  function Resized(c: Cut, headroom: nat, tailroom: nat): Cut {
    Cut(Wrap(c.a + headroom), Wrap(c.b + headroom), Wrap(headroom + c.len + tailroom))
  }

  /** The room the copy into the new block is told it has, in uint32_t. */
  function CopyRoom(c: Cut, headroom: nat, tailroom: nat): nat {
    Wrap(Resized(c, headroom, tailroom).len - headroom)
  }

  /** memcpy_s takes the copy of head room and data. */
  predicate CopyTaken(c: Cut, headroom: nat, tailroom: nat) {
    CopyRoom(c, headroom, tailroom) > 0 && c.b <= CopyRoom(c, headroom, tailroom)
  }

  /** The bytes it writes, [headroom, headroom + c.b), are bytes of the new block. */
  predicate CopyInside(c: Cut, headroom: nat, tailroom: nat) {
    c.b == 0 || headroom + c.b <= Resized(c, headroom, tailroom).len
  }

  lemma WrapOver(n: int)
    requires -TWO_TO_32 <= n < 3 * TWO_TO_32
    ensures Wrap(n) == if n < 0 then n + TWO_TO_32
                       else if n < TWO_TO_32 then n
                       else if n < 2 * TWO_TO_32 then n - TWO_TO_32
                       else n - 2 * TWO_TO_32
  {}

  /** The check of memcpy_s does not see the head room at all. */
  lemma CopyRoomIsRest(c: Cut, headroom: nat, tailroom: nat)
    requires c.Ok() && headroom < TWO_TO_32 && tailroom < TWO_TO_32
    ensures CopyRoom(c, headroom, tailroom) == Wrap(c.len + tailroom)
    ensures Resized(c, headroom, tailroom).len == Wrap(headroom + Wrap(c.len + tailroom))
  {
    WrapOver(headroom + c.len + tailroom);
    WrapOver(c.len + tailroom);
    WrapOver(headroom + Wrap(c.len + tailroom));
    WrapOver(Resized(c, headroom, tailroom).len - headroom);
  }

  /** The tail length is kept by its own uint32_t addition; it agrees with the rest. */
  lemma TailAgrees(c: Cut, headroom: nat, tailroom: nat)
    requires c.Ok() && headroom < TWO_TO_32 && tailroom < TWO_TO_32 && CopyTaken(c, headroom, tailroom)
    requires headroom <= Resized(c, headroom, tailroom).len
    ensures Resized(c, headroom, tailroom).Ok()
    ensures headroom + c.b + Wrap(c.len - c.b + tailroom) == Resized(c, headroom, tailroom).len
  {
    WrapOver(headroom + c.len + tailroom);
    WrapOver(c.len - c.b + tailroom);
  }

  /** Exactly when an accepted resize writes inside the new block and leaves a whole layout. */
  lemma SafeResizeIff(c: Cut, headroom: nat, tailroom: nat)
    requires c.Ok() && headroom < TWO_TO_32 && tailroom < TWO_TO_32 && CopyTaken(c, headroom, tailroom)
    ensures CopyInside(c, headroom, tailroom) && Resized(c, headroom, tailroom).Ok()
            <==> headroom + Wrap(c.len + tailroom) < TWO_TO_32
    ensures c.b > 0 ==> (CopyInside(c, headroom, tailroom) <==> headroom + Wrap(c.len + tailroom) < TWO_TO_32)
    ensures c.b > 0 && c.len + tailroom < TWO_TO_32 ==>
              (CopyInside(c, headroom, tailroom) <==> headroom + c.len + tailroom < TWO_TO_32)
  {
    CopyRoomIsRest(c, headroom, tailroom);
    WrapOver(headroom + Wrap(c.len + tailroom));
    if headroom <= Resized(c, headroom, tailroom).len {
      TailAgrees(c, headroom, tailroom);
    }
  }

  /** The copy is taken and stays inside, the layout is whole and both rooms have grown by
      the amounts asked for. */
  predicate AsAsked(c: Cut, headroom: nat, tailroom: nat) {
    && CopyTaken(c, headroom, tailroom) && CopyInside(c, headroom, tailroom)
    && var d := Resized(c, headroom, tailroom);
       && d.Ok() && d.a == c.a + headroom && d.b - d.a == c.b - c.a
       && d.len - d.b == c.len - c.b + tailroom
  }

  /** A resize does what was asked exactly when the new length fits uint32_t and is not all
      head room. */
  lemma AsAskedIff(c: Cut, headroom: nat, tailroom: nat)
    requires c.Ok() && headroom < TWO_TO_32 && tailroom < TWO_TO_32
    ensures AsAsked(c, headroom, tailroom) <==> headroom + c.len + tailroom < TWO_TO_32 && c.len + tailroom > 0
  {
    CopyRoomIsRest(c, headroom, tailroom);
    WrapOver(headroom + c.len + tailroom);
    WrapOver(c.len + tailroom);
  }

  /** What becomes of an accepted resize that overflows: the tail room loses 4 GiB, or the
      copy leaves the block, or, with nothing to copy, the data starts behind the end. */
  lemma OverflowOutcomes(c: Cut, headroom: nat, tailroom: nat)
    requires c.Ok() && headroom < TWO_TO_32 && tailroom < TWO_TO_32 && CopyTaken(c, headroom, tailroom)
    requires headroom + c.len + tailroom >= TWO_TO_32
    ensures var d := Resized(c, headroom, tailroom);
            if headroom + Wrap(c.len + tailroom) < TWO_TO_32 then
              CopyInside(c, headroom, tailroom) && d.Ok() && d.len - d.b == c.len - c.b + tailroom - TWO_TO_32
            else if c.b > 0 then !CopyInside(c, headroom, tailroom)
            else d.a == d.b == headroom > d.len
  {
    SafeResizeIff(c, headroom, tailroom);
    CopyRoomIsRest(c, headroom, tailroom);
    WrapOver(c.len + tailroom);
    WrapOver(headroom + Wrap(c.len + tailroom));
  }

  /** One input for each: 2^32 - 8 bytes more of tail room leave 8 bytes less of it; as many
      more of head room make 8 bytes of data land outside the block; and with no data they
      leave a data segment that starts outside it. */
  lemma RoomsCanBreak()
    ensures var c := Cut(0, 0, 16);
            CopyTaken(c, 0, TWO_TO_32 - 8) && Resized(c, 0, TWO_TO_32 - 8) == Cut(0, 0, 8)
    ensures var c := Cut(0, 8, 16);
            CopyTaken(c, TWO_TO_32 - 8, 0) && Resized(c, TWO_TO_32 - 8, 0).len == 8 && !CopyInside(c, TWO_TO_32 - 8, 0)
    ensures var c := Cut(0, 0, 16);
            CopyTaken(c, TWO_TO_32 - 8, 0) && Resized(c, TWO_TO_32 - 8, 0) == Cut(TWO_TO_32 - 8, TWO_TO_32 - 8, 8)
  {}

  // ------------------------------------------------- the life of a buffer

  /** What can happen to a buffer, as far as its layout is concerned. */
  datatype Step = Shift(m: Move) | Grow(headroom: nat, tailroom: nat, allocOk: bool) | Absorb(n: nat)

  function Stepped(c: Cut, s: Step): Cut {
    match s
    case Shift(m) => (match Moved(c, m) case Some(d) => d case None => c)
    case Grow(h, t, allocOk) => if allocOk && CopyTaken(c, h, t) then Resized(c, h, t) else c
    case Absorb(n) => if c.b < c.len && c.b + n <= c.len then c.(b := c.b + n) else c
  }

  /** Sizes are uint32_t, and no resize overflows so far that it breaks the layout. */
  predicate InRange(c: Cut, s: Step) {
    match s
    case Shift(m) => m.n < TWO_TO_32
    case Grow(h, t, allocOk) =>
      h < TWO_TO_32 && t < TWO_TO_32
      && (allocOk && CopyTaken(c, h, t) ==> h + Wrap(c.len + t) < TWO_TO_32)
    case Absorb(n) => true
  }

  function Lived(c: Cut, ss: seq<Step>): Cut
    decreases |ss|
  {
    if ss == [] then c else Lived(Stepped(c, ss[0]), ss[1..])
  }

  predicate AllInRange(c: Cut, ss: seq<Step>)
    decreases |ss|
  {
    ss == [] || (InRange(c, ss[0]) && AllInRange(Stepped(c, ss[0]), ss[1..]))
  }

  /** What a resize adds to the length: what was asked, less 4 GiB when the tail overflows. */
  function Gain(c: Cut, s: Step): int {
    if s.Grow? && s.allocOk && CopyTaken(c, s.headroom, s.tailroom) then
      s.headroom + s.tailroom - if c.len + s.tailroom < TWO_TO_32 then 0 else TWO_TO_32
    else 0
  }

  function Gains(c: Cut, ss: seq<Step>): int
    decreases |ss|
  {
    if ss == [] then 0 else Gain(c, ss[0]) + Gains(Stepped(c, ss[0]), ss[1..])
  }

  lemma StepKeepsLayout(c: Cut, s: Step)
    requires c.Ok() && InRange(c, s)
    ensures Stepped(c, s).Ok() && Stepped(c, s).len == c.len + Gain(c, s)
  {
    if s.Grow? && s.allocOk && CopyTaken(c, s.headroom, s.tailroom) {
      SafeResizeIff(c, s.headroom, s.tailroom);
      CopyRoomIsRest(c, s.headroom, s.tailroom);
      WrapOver(c.len + s.tailroom);
    }
  }

  /** Over a whole life the three parts stay in order and within the block, whose length is
      accounted for exactly. */
  lemma {:induction false} LifeKeepsLayout(c: Cut, ss: seq<Step>)
    requires c.Ok() && AllInRange(c, ss)
    ensures Lived(c, ss).Ok() && Lived(c, ss).len == c.len + Gains(c, ss)
    decreases |ss|
  {
    if ss != [] {
      StepKeepsLayout(c, ss[0]);
      LifeKeepsLayout(Stepped(c, ss[0]), ss[1..]);
    }
  }

  // ------------------------------------------------------------- copying

  datatype CopyResult = Copied | Refused | Overran

  /** memcpy_s: refused when the destination is said to have no room, or not enough. What it
      is said to have need not be there. */
  method MemcpyS(dst: array<uint8>, at: nat, destMax: nat, src: array<uint8>, from: nat, count: nat)
    returns (r: CopyResult)
    requires from + count <= src.Length
    requires dst == src ==> from + count <= at
    modifies dst
    ensures r == Refused <==> destMax == 0 || count > destMax
    ensures r == Overran <==> 0 < count <= destMax && at + count > dst.Length
    ensures r == Refused || (r == Copied && count == 0) ==> dst[..] == old(dst[..])
    ensures r == Copied && count > 0 ==>
              dst[..] == old(dst[..at]) + old(src[from..from + count]) + old(dst[at + count..])
  {
    if destMax == 0 || count > destMax {
      return Refused;
    }
    if count == 0 {
      return Copied;
    }
    if at + count > dst.Length {
      return Overran;
    }
    CopyIn(dst, at, src[from..from + count]);
    return Copied;
  }

  /** A zeroed block of `size` bytes with the first `count` bytes of `src` at `at`, if
      memcpy_s takes the copy and it stays inside. */
  method CopyToNewBlock(size: nat, at: nat, src: array<uint8>, count: nat) returns (block: array<uint8>, r: CopyResult)
    requires size < TWO_TO_32 && count <= src.Length
    ensures fresh(block) && block.Length == size
    ensures r == Refused <==> Wrap(size - at) == 0 || count > Wrap(size - at)
    ensures r == Overran <==> 0 < count <= Wrap(size - at) && at + count > size
    ensures r == Copied && at <= size ==> at + count <= size && block[at..at + count] == src[..count]
    ensures r == Copied ==> forall i | 0 <= i < size && (i < at || at + count <= i) :: block[i] == 0
  {
    block := new uint8[size](_ => 0);
    ghost var zeros := block[..];
    r := MemcpyS(block, at, Wrap(size - at), src, 0, count);
    if r == Copied && count > 0 {
      var now := zeros[..at] + src[0..count] + zeros[at + count..];
      assert block[..] == now;
      forall i | 0 <= i < at || at + count <= i < size
        ensures block[i] == 0
      {
        assert block[i] == now[i];
      }
    } else if r == Copied {
      assert forall i | 0 <= i < size :: block[i] == block[..][i];
    }
  }

  /** The bytes between two cuts when one of them is shifted by n. */
  lemma CutBy(m: seq<uint8>, a: nat, b: nat, n: nat)
    requires a <= b <= |m|
    ensures n <= b - a ==> m[a..b][n..] == m[a + n..b] && m[a..b][..b - a - n] == m[a..b - n]
    ensures n <= a ==> m[a - n..a] + m[a..b] == m[a - n..b]
    ensures n <= |m| - b ==> m[a..b] + m[b..b + n] == m[a..b + n]
  {}

  lemma MovedAlong(was: seq<uint8>, now: seq<uint8>, a: nat, b: nat, at: nat)
    requires a <= b <= |was| && at + b <= |now| && now[at..at + b] == was[..b]
    ensures now[at + a..at + b] == was[a..b]
  {
    assert now[at + a..at + b] == now[at..at + b][a..];
  }

  // ------------------------------------------------------- the C object

  /** The link that a NetBuf embeds; `owner` is what CONTAINER_OF computes from it. */
  class DListHead {
    var next: DListHead?
    var prev: DListHead?
    var owner: NetBuf?

    constructor ()
      ensures owner == null
    {
      owner := null;
    }
  }

  class NetBuf {
    const dlist: DListHead
    var mem: array?<uint8>
    var len: nat
    var dataLen: nat
    var head: BufField
    var data: BufField
    var tail: BufField
    ghost var frees: nat

    /** Alive, and the three segments tile the memory. */
    ghost predicate Valid()
      reads this
    {
      && frees == 0
      && mem != null && mem.Length == len < TWO_TO_32
      && dataLen == data.len
      && head.offset == 0
      && data.offset == head.len
      && tail.offset == data.offset + data.len
      && tail.offset + tail.len == len
    }

    ghost function Cuts(): (c: Cut)
      requires Valid()
      reads this
      ensures c.Ok()
    {
      Cut(data.offset, tail.offset, len)
    }

    ghost function Data(): seq<uint8>
      requires Valid()
      reads this, mem
    {
      mem[data.offset..tail.offset]
    }

    /** NetBufAlloc, where the memory allocator succeeds. */
    constructor Alloc(size: nat)
      requires size < TWO_TO_32
      ensures Valid() && fresh(mem) && fresh(dlist) && dlist.owner == this
      ensures Cuts() == Cut(0, 0, size)
      ensures forall i | 0 <= i < size :: mem[i] == 0
    {
      dlist := new DListHead();
      mem := new uint8[size](_ => 0);
      len := size;
      dataLen := 0;
      head := BufField(0, 0);
      data := BufField(0, 0);
      tail := BufField(0, size);
      frees := 0;
      new;
      dlist.owner := this;
    }

    method Free()
      requires frees == 0
      modifies this
      ensures frees == 1 && mem == null
    {
      mem := null;
      frees := frees + 1;
    }

    /** The first n bytes of the data become head room. */
    method HeadGrows(n: nat)
      requires Valid() && n <= data.len
      modifies this
      ensures Valid() && mem == old(mem) && Cuts() == old(Cuts()).(a := old(data.offset) + n)
      ensures Data() == old(Data())[n..]
    {
      CutBy(mem[..], data.offset, tail.offset, n);
      head := head.(len := Wrap(head.len + n));
      data := data.(offset := Wrap(data.offset + n));
      data := data.(len := Wrap(data.len - n));
      dataLen := Wrap(dataLen - n);
    }

    /** The last n bytes of the head room become data. */
    method HeadShrinks(n: nat)
      requires Valid() && n <= head.len
      modifies this
      ensures Valid() && mem == old(mem) && Cuts() == old(Cuts()).(a := old(data.offset) - n)
      ensures Data() == old(mem[head.len - n..head.len]) + old(Data())
    {
      CutBy(mem[..], data.offset, tail.offset, n);
      head := head.(len := Wrap(head.len - n));
      data := data.(offset := Wrap(data.offset - n));
      data := data.(len := Wrap(data.len + n));
      dataLen := Wrap(dataLen + n);
    }

    /** The last n bytes of the data become tail room. */
    method TailGrows(n: nat)
      requires Valid() && n <= data.len
      modifies this
      ensures Valid() && mem == old(mem) && Cuts() == old(Cuts()).(b := old(tail.offset) - n)
      ensures Data() == old(Data())[..|old(Data())| - n]
    {
      CutBy(mem[..], data.offset, tail.offset, n);
      data := data.(len := Wrap(data.len - n));
      dataLen := Wrap(dataLen - n);
      tail := tail.(offset := Wrap(tail.offset - n));
      tail := tail.(len := Wrap(tail.len + n));
    }

    /** The first n bytes of the tail room become data. */
    method TailShrinks(n: nat)
      requires Valid() && n <= tail.len
      modifies this
      ensures Valid() && mem == old(mem) && Cuts() == old(Cuts()).(b := old(tail.offset) + n)
      ensures Data() == old(Data()) + old(mem[tail.offset..tail.offset + n])
    {
      CutBy(mem[..], data.offset, tail.offset, n);
      dataLen := Wrap(dataLen + n);
      data := data.(len := Wrap(data.len + n));
      tail := tail.(offset := Wrap(tail.offset + n));
      tail := tail.(len := Wrap(tail.len - n));
    }

    /** The address handed back is relative to `mem`. */
    method NetBufPush(id: nat, n: nat) returns (address: Option<nat>)
      requires Valid() && n < TWO_TO_32
      modifies this
      ensures Valid() && mem == old(mem) && len == old(len)
      ensures address != None <==>
                n <= if id == HEAD_BUF || id == TAIL_BUF then |old(Data())| else if id == DATA_BUF then old(tail.len)
                     else n
      ensures address == None ==> unchanged(this)
      ensures address != None ==> address == Some(data.offset)
      ensures address != None && id == HEAD_BUF ==>
                head.len == old(head.len) + n && tail.len == old(tail.len) && Data() == old(Data())[n..]
      ensures address != None && id == DATA_BUF ==>
                && head.len == old(head.len) && tail.len == old(tail.len) - n
                && Data() == old(Data()) + old(mem[tail.offset..tail.offset + n])
      ensures address != None && id == TAIL_BUF ==>
                && head.len == old(head.len) && tail.len == old(tail.len) + n
                && Data() == old(Data())[..|old(Data())| - n]
      ensures id > TAIL_BUF ==> unchanged(this)
      ensures Moved(old(Cuts()), Push(id, n)) == None ==> address == None
      ensures Moved(old(Cuts()), Push(id, n)) != None ==>
                Some(Cuts()) == Moved(old(Cuts()), Push(id, n)) && address == Some(Cuts().a)
    {
      if id == HEAD_BUF {
        if data.len < n || dataLen < n {
          return None;
        }
        HeadGrows(n);
      } else if id == DATA_BUF {
        if tail.len < n {
          return None;
        }
        TailShrinks(n);
      } else if id == TAIL_BUF {
        if data.len < n || dataLen < n || tail.offset < n {
          return None;
        }
        TailGrows(n);
      }
      return Some(data.offset);
    }

    method NetBufPop(id: nat, n: nat) returns (address: Option<nat>)
      requires Valid() && n < TWO_TO_32
      modifies this
      ensures Valid() && mem == old(mem) && len == old(len)
      ensures address != None <==>
                n <= if id == HEAD_BUF then old(head.len) else if id == DATA_BUF then |old(Data())|
                     else if id == TAIL_BUF then old(tail.len) else n
      ensures address == None ==> unchanged(this)
      ensures address != None ==> address == Some(data.offset)
      ensures address != None && id == HEAD_BUF ==>
                && head.len == old(head.len) - n && tail.len == old(tail.len)
                && Data() == old(mem[head.len - n..head.len]) + old(Data())
      ensures address != None && id == DATA_BUF ==>
                head.len == old(head.len) + n && tail.len == old(tail.len) && Data() == old(Data())[n..]
      ensures address != None && id == TAIL_BUF ==>
                && head.len == old(head.len) && tail.len == old(tail.len) - n
                && Data() == old(Data()) + old(mem[tail.offset..tail.offset + n])
      ensures id > TAIL_BUF ==> unchanged(this)
      ensures Moved(old(Cuts()), Pop(id, n)) == None ==> address == None
      ensures Moved(old(Cuts()), Pop(id, n)) != None ==>
                Some(Cuts()) == Moved(old(Cuts()), Pop(id, n)) && address == Some(Cuts().a)
    {
      if id == HEAD_BUF {
        if head.len < n || data.offset < n {
          return None;
        }
        HeadShrinks(n);
      } else if id == DATA_BUF {
        if dataLen < n || data.len < n {
          return None;
        }
        HeadGrows(n);
      } else if id == TAIL_BUF {
        if tail.len < n {
          return None;
        }
        TailShrinks(n);
      }
      return Some(data.offset);
    }

    /** The larger block, with head room and data copied to it. */
    method LargerBlock(headroom: nat, tailroom: nat) returns (block: array<uint8>, r: CopyResult)
      requires Valid() && headroom < TWO_TO_32 && tailroom < TWO_TO_32
      ensures fresh(block) && block.Length == Resized(Cuts(), headroom, tailroom).len
      ensures r == Refused <==> !CopyTaken(Cuts(), headroom, tailroom)
      ensures r == Overran <==> CopyTaken(Cuts(), headroom, tailroom) && !CopyInside(Cuts(), headroom, tailroom)
      ensures r == Copied && headroom <= block.Length ==>
                && headroom + tail.offset <= block.Length
                && block[headroom..headroom + tail.offset] == mem[..tail.offset]
                && block[headroom + data.offset..headroom + tail.offset] == Data()
                && forall i | 0 <= i < headroom || headroom + tail.offset <= i < block.Length :: block[i] == 0
    {
      var size := Wrap(headroom + len + tailroom);
      block, r := CopyToNewBlock(size, headroom, mem, tail.offset);
      if r == Copied && headroom <= size {
        MovedAlong(mem[..], block[..], data.offset, tail.offset, headroom);
      }
    }

    /** The new block takes the place of the old one, and the segments move along. */
    method MoveInto(block: array<uint8>, headroom: nat, tailroom: nat)
      requires Valid() && headroom < TWO_TO_32 && tailroom < TWO_TO_32
      requires CopyTaken(Cuts(), headroom, tailroom) && CopyInside(Cuts(), headroom, tailroom)
      requires block.Length == Resized(Cuts(), headroom, tailroom).len
      modifies this
      ensures mem == block && len == block.Length
      ensures Valid() <==> headroom <= len
      ensures headroom <= len ==> Cuts() == Resized(old(Cuts()), headroom, tailroom)
      ensures headroom <= len ==>
                data.offset == old(data.offset) + headroom && tail.offset == old(tail.offset) + headroom
      ensures headroom > len ==> data.offset == tail.offset == headroom && dataLen == 0
    {
      if headroom <= block.Length {
        TailAgrees(Cuts(), headroom, tailroom);
      }
      var offset := head.len;
      mem := block;
      len := block.Length;
      head := BufField(0, Wrap(offset + headroom));
      data := BufField(Wrap(offset + headroom), dataLen);
      tail := tail.(offset := Wrap(tail.offset + headroom));
      tail := tail.(len := Wrap(tail.len + tailroom));
    }

    /** `allocOk` is the allocator's answer. The new block is leaked when the copy is refused. */
    method ResizeRoom(headroom: nat, tailroom: nat, allocOk: bool) returns (r: Status, ghost leaked: bool)
      requires Valid() && headroom < TWO_TO_32 && tailroom < TWO_TO_32
      modifies this
      ensures r == Success <==>
                allocOk && CopyTaken(old(Cuts()), headroom, tailroom) && CopyInside(old(Cuts()), headroom, tailroom)
      ensures r == Overrun <==>
                allocOk && CopyTaken(old(Cuts()), headroom, tailroom) && !CopyInside(old(Cuts()), headroom, tailroom)
      ensures r == Failure ==> unchanged(this)
      ensures r == Failure <==>
                !allocOk || Wrap(old(len) + tailroom) == 0 || old(tail.offset) > Wrap(old(len) + tailroom)
      ensures leaked <==> r == Failure && allocOk
      ensures r != InvalidParam
      ensures r == Success ==> fresh(mem) && mem.Length == len == Resized(old(Cuts()), headroom, tailroom).len
      ensures r == Success ==> (Valid() <==> headroom <= len)
      ensures r == Success && headroom <= len ==>
                && Cuts() == Resized(old(Cuts()), headroom, tailroom)
                && Data() == old(Data())
                && mem[headroom..Cuts().b] == old(mem[..Cuts().b])
                && forall i | 0 <= i < headroom || Cuts().b <= i < Cuts().len :: mem[i] == 0
      ensures r == Success && headroom > len ==> data.offset == tail.offset == headroom && dataLen == 0
    {
      CopyRoomIsRest(Cuts(), headroom, tailroom);
      if !allocOk {
        return Failure, false;
      }
      var block, copy := LargerBlock(headroom, tailroom);
      if copy == Refused {
        return Failure, true;
      }
      if copy == Overran {
        return Overrun, false;
      }
      MoveInto(block, headroom, tailroom);
      return Success, false;
    }
  }

  /** NetBufAlloc; `objOk` and `dataOk` answer for the two allocations. */
  method NetBufAlloc(size: nat, objOk: bool, dataOk: bool) returns (nb: NetBuf?)
    requires size < TWO_TO_32
    ensures nb != null <==> objOk && dataOk
    ensures nb != null ==> fresh(nb) && nb.Valid() && fresh(nb.mem) && fresh(nb.dlist) && nb.dlist.owner == nb
    ensures nb != null ==> nb.Cuts() == Cut(0, 0, size) && forall i | 0 <= i < size :: nb.mem[i] == 0
  {
    if !objOk || !dataOk {
      return null;
    }
    nb := new NetBuf.Alloc(size);
  }

  lemma Spliced(was: seq<uint8>, now: seq<uint8>, s: seq<uint8>, a: nat, b: nat)
    requires a <= b && b + |s| <= |was|
    requires now == was[..b] + s + was[b + |s|..]
    ensures now[..b] == was[..b] && now[b + |s|..] == was[b + |s|..]
    ensures now[..a] == was[..a] && now[a..b + |s|] == was[a..b] + s
  {}

  /** Copies count bytes behind what lies in dst[a..b]. */
  method CopyUp(dst: array<uint8>, a: nat, b: nat, src: array<uint8>, from: nat, count: nat)
    returns (copy: CopyResult)
    requires a <= b && b + count <= dst.Length && from + count <= src.Length
    requires dst == src ==> from + count <= b
    modifies dst
    ensures copy == (if b == dst.Length then Refused else Copied)
    ensures copy == Refused ==> dst[..] == old(dst[..])
    ensures dst[..a] == old(dst[..a]) && dst[b + count..] == old(dst[b + count..])
    ensures dst[a..b + count] == old(dst[a..b]) + old(src[from..from + count])
  {
    ghost var was, s := dst[..], src[from..from + count];
    copy := MemcpyS(dst, b, dst.Length - b, src, from, count);
    if count == 0 {
      assert was == was[..b] + s + was[b + |s|..];
    }
    Spliced(was, dst[..], s, a, b);
  }

  /** Copies the data of `cnb` behind the data of `nb`. */
  method CopyBehind(nb: NetBuf, cnb: NetBuf) returns (copy: CopyResult)
    requires nb.Valid() && cnb.Valid() && (nb != cnb ==> nb.mem != cnb.mem)
    requires cnb.dataLen <= nb.tail.len
    modifies nb.mem
    ensures copy == (if nb.tail.len == 0 then Refused else Copied)
    ensures copy == Refused ==> nb.mem[..] == old(nb.mem[..])
    ensures var a, b, n := nb.data.offset, nb.tail.offset, cnb.dataLen;
            && nb.mem[..a] == old(nb.mem[..a])
            && nb.mem[a..b + n] == old(nb.Data()) + old(cnb.Data())
            && nb.mem[b + n..] == old(nb.mem[b + n..])
  {
    copy := CopyUp(nb.mem, nb.data.offset, nb.tail.offset, cnb.mem, cnb.data.offset, cnb.dataLen);
  }

  /** Appends the data of `cnb` to `nb` and frees `cnb`, also when that is `nb` itself. */
  method NetBufConcat(nb: NetBuf?, cnb: NetBuf?) returns (r: Status)
    requires nb != null ==> nb.Valid()
    requires cnb != null ==> cnb.Valid()
    requires nb != null && cnb != null && nb != cnb ==> nb.mem != cnb.mem
    modifies nb, cnb, if nb == null then {} else {nb.mem}
    ensures r == InvalidParam <==> nb == null || cnb == null
    ensures r == Success <==>
              nb != null && cnb != null && 0 < old(nb.tail.len) && old(cnb.dataLen) <= old(nb.tail.len)
    ensures r == Success || r == Failure || r == InvalidParam
    ensures r != Success ==>
              && (nb != null ==> unchanged(nb) && nb.mem[..] == old(nb.mem[..]))
              && (cnb != null ==> unchanged(cnb))
    ensures r == Success ==> cnb.frees == 1 && cnb.mem == null
    ensures r == Success && nb != cnb ==>
              && nb.Valid() && nb.mem == old(nb.mem)
              && nb.Data() == old(nb.Data()) + old(cnb.Data())
              && Some(nb.Cuts()) == Moved(old(nb.Cuts()), Push(DATA_BUF, old(cnb.dataLen)))
              && nb.mem[..nb.Cuts().a] == old(nb.mem[..nb.Cuts().a])
              && nb.mem[nb.Cuts().b..] == old(nb.mem[nb.Cuts().b + cnb.dataLen..])
  {
    if nb == null || cnb == null {
      return InvalidParam;
    }
    var tailroom := nb.tail.len;
    if tailroom < cnb.dataLen {
      return Failure;
    }
    if nb.mem != null {
      var copy := CopyBehind(nb, cnb);
      if copy != Copied {
        return Failure;
      }
      var _ := nb.NetBufPush(DATA_BUF, cnb.dataLen);
    }
    cnb.Free();
    return Success;
  }

  // -------------------------------------------------- runs on the C object

  datatype Op = DoMove(m: Move) | DoResize(headroom: nat, tailroom: nat, allocOk: bool) | DoConcat(cnb: NetBuf)

  ghost function StepOf(op: Op): Step
    reads if op.DoConcat? then {op.cnb} else {}
  {
    match op
    case DoMove(m) => Shift(m)
    case DoResize(h, t, allocOk) => Grow(h, t, allocOk)
    case DoConcat(cnb) => Absorb(cnb.dataLen)
  }

  /** A buffer to be concatenated is alive, and shares nothing with `nb`. */
  ghost predicate Apart(nb: NetBuf, op: Op)
    reads nb, if op.DoConcat? then {op.cnb} else {}
  {
    op.DoConcat? ==> op.cnb.Valid() && op.cnb != nb && op.cnb.mem != nb.mem
  }

  /** No buffer is concatenated twice. */
  ghost predicate EachOnce(ops: seq<Op>) {
    forall i, j | 0 <= i < j < |ops| && ops[i].DoConcat? && ops[j].DoConcat? :: ops[i].cnb != ops[j].cnb
  }

  method Grown(nb: NetBuf, headroom: nat, tailroom: nat, allocOk: bool)
    requires nb.Valid() && InRange(nb.Cuts(), Grow(headroom, tailroom, allocOk))
    modifies nb
    ensures nb.Valid() && nb.Cuts() == Stepped(old(nb.Cuts()), Grow(headroom, tailroom, allocOk))
    ensures nb.mem == old(nb.mem) || fresh(nb.mem)
  {
    ghost var c := nb.Cuts();
    if allocOk && CopyTaken(c, headroom, tailroom) {
      SafeResizeIff(c, headroom, tailroom);
    }
    var _, _ := nb.ResizeRoom(headroom, tailroom, allocOk);
  }

  method Perform(nb: NetBuf, op: Op)
    requires nb.Valid() && Apart(nb, op) && InRange(nb.Cuts(), StepOf(op))
    modifies nb, nb.mem, if op.DoConcat? then {op.cnb} else {}
    ensures nb.Valid() && nb.Cuts() == Stepped(old(nb.Cuts()), old(StepOf(op)))
    ensures nb.mem == old(nb.mem) || fresh(nb.mem)
  {
    match op {
      case DoMove(Push(id, n)) => var _ := nb.NetBufPush(id, n);
      case DoMove(Pop(id, n)) => var _ := nb.NetBufPop(id, n);
      case DoResize(h, t, allocOk) => Grown(nb, h, t, allocOk);
      case DoConcat(cnb) => var _ := NetBufConcat(nb, cnb);
    }
  }

  /** Any sequence of operations, refused ones included, is the same life of the two cuts. */
  method Session(nb: NetBuf, ops: seq<Op>, ghost steps: seq<Step>)
    requires nb.Valid() && EachOnce(ops) && forall op <- ops :: Apart(nb, op)
    requires |steps| == |ops| && forall i | 0 <= i < |ops| :: steps[i] == StepOf(ops[i])
    requires AllInRange(nb.Cuts(), steps)
    modifies nb, nb.mem, set op | op in ops && op.DoConcat? :: op.cnb
    ensures nb.Valid() && nb.Cuts() == Lived(old(nb.Cuts()), steps)
  {
    for i := 0 to |ops|
      invariant nb.Valid() && (nb.mem == old(nb.mem) || fresh(nb.mem))
      invariant forall j | i <= j < |ops| :: Apart(nb, ops[j]) && StepOf(ops[j]) == steps[j]
      invariant AllInRange(nb.Cuts(), steps[i..])
      invariant Lived(old(nb.Cuts()), steps) == Lived(nb.Cuts(), steps[i..])
    {
      assert steps[i..][1..] == steps[i + 1..];
      Perform(nb, ops[i]);
    }
  }
}
