/** The message buffer both sides of a call share, as a stream of typed items. A read of
    another type than was written fails and moves nothing; a failed number read yields 0. */
module Parcel {
  import opened Common

  type uint32 = n: int | 0 <= n < 0x1_0000_0000
  type uint16 = n: int | 0 <= n < 0x1_0000
  type int32 = n: int | -0x8000_0000 <= n < 0x8000_0000

  datatype Item = U32(u32: uint32) | U16(u16: uint16) | I32(i32: int32) | Str(str: string)

  class HdfSBuf {
    var items: seq<Item>
    var pos: nat
    const capacity: nat    // writes beyond it fail

    constructor (capacity: nat)
      ensures items == [] && pos == 0 && this.capacity == capacity
    {
      items, pos, this.capacity := [], 0, capacity;
    }

    ghost predicate Valid()
      reads this
    {
      pos <= |items| <= capacity
    }

    /** What is there to be read. */
    ghost function Rest(): seq<Item>
      requires Valid()
      reads this
    {
      items[pos..]
    }

    method Write(i: Item) returns (ok: bool)
      requires Valid()
      modifies this`items
      ensures Valid()
      ensures ok <==> old(|items|) < capacity
      ensures items == old(items) + if ok then [i] else []
    {
      ok := |items| < capacity;
      if ok {
        items := items + [i];
      }
    }

    method ReadString() returns (s: Option<string>)
      requires Valid()
      modifies this`pos
      ensures Valid()
      ensures s.Some? ==> pos == old(pos) + 1 && old(Rest()) == [Str(s.value)] + Rest()
      ensures s.None? ==> pos == old(pos) && (old(Rest()) == [] || !old(Rest())[0].Str?)
    {
      if pos < |items| && items[pos].Str? {
        s := Some(items[pos].str);
        pos := pos + 1;
      } else {
        s := None;
      }
    }

    method ReadUint32() returns (ok: bool, v: uint32)
      requires Valid()
      modifies this`pos
      ensures Valid()
      ensures ok ==> pos == old(pos) + 1 && old(Rest()) == [U32(v)] + Rest()
      ensures !ok ==> v == 0 && pos == old(pos) && (old(Rest()) == [] || !old(Rest())[0].U32?)
    {
      ok := pos < |items| && items[pos].U32?;
      v := 0;
      if ok {
        v := items[pos].u32;
        pos := pos + 1;
      }
    }

    method ReadUint16() returns (ok: bool, v: uint16)
      requires Valid()
      modifies this`pos
      ensures Valid()
      ensures ok ==> pos == old(pos) + 1 && old(Rest()) == [U16(v)] + Rest()
      ensures !ok ==> v == 0 && pos == old(pos) && (old(Rest()) == [] || !old(Rest())[0].U16?)
    {
      ok := pos < |items| && items[pos].U16?;
      v := 0;
      if ok {
        v := items[pos].u16;
        pos := pos + 1;
      }
    }

    method ReadInt32() returns (ok: bool, v: int32)
      requires Valid()
      modifies this`pos
      ensures Valid()
      ensures ok ==> pos == old(pos) + 1 && old(Rest()) == [I32(v)] + Rest()
      ensures !ok ==> v == 0 && pos == old(pos) && (old(Rest()) == [] || !old(Rest())[0].I32?)
    {
      ok := pos < |items| && items[pos].I32?;
      v := 0;
      if ok {
        v := items[pos].i32;
        pos := pos + 1;
      }
    }
  }
}
