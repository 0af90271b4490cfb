/** Device attributes on their way between the device manager and a host. */
module DeviceAttribute {
  import opened Common
  import opened Parcel

  const LENGTH_NULL: uint32 := 0
  const LENGTH_NORMAL: uint32 := 1

  datatype Attribute = Attribute(
    deviceId: uint32,
    policy: uint16,
    svcName: string,
    moduleName: string,
    deviceMatchAttr: Option<string>)

  function Encode(a: Attribute): seq<Item> {
    [U32(a.deviceId), U16(a.policy), Str(a.svcName), Str(a.moduleName)]
    + if a.deviceMatchAttr.Some? then [U32(1), Str(a.deviceMatchAttr.value)] else [U32(0)]
  }

  function EncodeAll(attrs: seq<Attribute>): seq<Item> {
    if attrs == [] then [] else Encode(attrs[0]) + EncodeAll(attrs[1..])
  }

  /** DeviceAttributeSerialize. */
  method Serialize(attribute: Attribute, sbuf: HdfSBuf) returns (ok: bool)
    requires sbuf.Valid()
    modifies sbuf`items
    ensures sbuf.Valid()
    ensures ok <==> old(|sbuf.items|) + |Encode(attribute)| <= sbuf.capacity
    ensures ok ==> sbuf.items == old(sbuf.items) + Encode(attribute)
  {
    var w := sbuf.Write(U32(attribute.deviceId));
    if w {
      w := sbuf.Write(U16(attribute.policy));
    }
    if w {
      w := sbuf.Write(Str(attribute.svcName));
    }
    if w {
      w := sbuf.Write(Str(attribute.moduleName));
    }
    if !w {
      return false;
    }
    if attribute.deviceMatchAttr.Some? {
      var w1 := sbuf.Write(U32(LENGTH_NORMAL));
      var w2 := sbuf.Write(Str(attribute.deviceMatchAttr.value));
      ok := w1 && w2;
    } else {
      ok := sbuf.Write(U32(LENGTH_NULL));
    }
  }

  /** The streams that yield an attribute; any length but 1 means: no match attribute. */
  predicate Readable(s: seq<Item>) {
    && |s| >= 5 && s[0].U32? && s[1].U16? && s[2].Str? && s[3].Str? && s[4].U32?
    && (s[4].u32 == 1 ==> |s| >= 6 && s[5].Str?)
  }

  /** The attribute at the front of a stream, and what follows it. */
  function Decode(s: seq<Item>): (Attribute, seq<Item>)
    requires Readable(s)
  {
    if s[4].u32 == 1
    then (Attribute(s[0].u32, s[1].u16, s[2].str, s[3].str, Some(s[5].str)), s[6..])
    else (Attribute(s[0].u32, s[1].u16, s[2].str, s[3].str, None), s[5..])
  }

  /** A serialized attribute reads back as itself, whatever follows it. */
  lemma DecodeEncode(a: Attribute, suffix: seq<Item>)
    ensures Readable(Encode(a) + suffix) && Decode(Encode(a) + suffix) == (a, suffix)
  {
    var s := Encode(a) + suffix;
    assert s[4].u32 == if a.deviceMatchAttr.Some? then 1 else 0;
    assert s[|Encode(a)|..] == suffix;
  }

  /** DeviceAttributeDeserialize. The first `allocs` allocations succeed: the record, two
      names and the match attribute, whose loss goes unnoticed. */
  method Deserialize(sbuf: HdfSBuf, allocs: nat) returns (r: Option<Attribute>)
    requires sbuf.Valid()
    modifies sbuf`pos
    ensures sbuf.Valid()
    ensures r.Some? <==> Readable(old(sbuf.Rest())) && allocs >= 3
    ensures r.Some? ==>
              var (a, rest) := Decode(old(sbuf.Rest()));
              sbuf.Rest() == rest && r.value == if allocs >= 4 then a else a.(deviceMatchAttr := None)
  {
    if allocs < 1 {
      return None;
    }
    var ok, id, policy := false, 0, 0;
    ok, id := sbuf.ReadUint32();
    if ok {
      ok, policy := sbuf.ReadUint16();
    }
    if !ok {
      return None;
    }
    var svcName := sbuf.ReadString();
    if svcName.None? {
      return None;
    }
    if allocs < 2 {
      return None;
    }
    var moduleName := sbuf.ReadString();
    if moduleName.None? {
      return None;
    }
    if allocs < 3 {
      return None;
    }
    var length;
    ok, length := sbuf.ReadUint32();
    if !ok {
      return None;
    }
    var matchAttr := None;
    if length == LENGTH_NORMAL {
      matchAttr := sbuf.ReadString();
      if matchAttr.None? {
        return None;
      }
      if allocs < 4 {
        matchAttr := None;
      }
    }
    return Some(Attribute(id, policy, svcName.value, moduleName.value, matchAttr));
  }

  /** A buffer full of attributes decodes to one list only. */
  lemma {:induction false} UniqueList(a: seq<Attribute>, b: seq<Attribute>)
    requires EncodeAll(a) == EncodeAll(b)
    ensures a == b
    decreases |a|
  {
    if a != [] && b != [] {
      DecodeEncode(a[0], EncodeAll(a[1..]));
      DecodeEncode(b[0], EncodeAll(b[1..]));
      UniqueList(a[1..], b[1..]);
    }
  }

  /** What a whole list of attributes was written to is read back as that list, with memory
      enough. */
  method DeserializeAll(sbuf: HdfSBuf, ghost attrs: seq<Attribute>) returns (r: seq<Attribute>)
    requires sbuf.Valid() && sbuf.Rest() == EncodeAll(attrs)
    modifies sbuf`pos
    ensures r == attrs && sbuf.Valid() && sbuf.Rest() == []
  {
    r := [];
    while sbuf.pos < |sbuf.items|
      invariant sbuf.Valid() && |r| <= |attrs| && r == attrs[..|r|]
      invariant sbuf.Rest() == EncodeAll(attrs[|r|..])
      decreases |sbuf.items| - sbuf.pos
    {
      DecodeEncode(attrs[|r|], EncodeAll(attrs[|r|..][1..]));
      var a := Deserialize(sbuf, 4);
      assert attrs[|r|..][1..] == attrs[|r| + 1..];
      r := r + [a.value];
    }
  }
}
