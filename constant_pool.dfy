/** One constant-pool entry (`CPInfo` and its seventeen `CPInfoImpl` kinds):
    a tag byte selects the kind, and the kind's loader reads its fixed
    fields (or, for Utf8, a length and that many bytes). */
module ConstantPoolDecoder {
  import opened DecodeResult
  import opened ByteReader

  const CONSTANT_Utf8: uint8 := 1
  const CONSTANT_Integer: uint8 := 3
  const CONSTANT_Float: uint8 := 4
  const CONSTANT_Long: uint8 := 5
  const CONSTANT_Double: uint8 := 6
  const CONSTANT_Class: uint8 := 7
  const CONSTANT_String: uint8 := 8
  const CONSTANT_Fieldref: uint8 := 9
  const CONSTANT_Methodref: uint8 := 10
  const CONSTANT_InterfaceMethodref: uint8 := 11
  const CONSTANT_NameAndType: uint8 := 12
  const CONSTANT_MethodHandle: uint8 := 15
  const CONSTANT_MethodType: uint8 := 16
  const CONSTANT_Dynamic: uint8 := 17
  const CONSTANT_InvokeDynamic: uint8 := 18
  const CONSTANT_Module: uint8 := 19
  const CONSTANT_Package: uint8 := 20

  /** The tags with a `case` in the dispatch. */
  const ValidTags: set<uint8> := {1, 3, 4, 5, 6, 7, 8, 9, 10, 11, 12, 15, 16, 17, 18, 19, 20}

  /** The payload objects, with the fields the C++ classes keep. */
  datatype CPInfoImpl =
    | ConstantClassInfo(nameIndex: uint16)
    | ConstantFieldrefInfo(classIndex: uint16, nameAndTypeIndex: uint16)
    | ConstantMethodrefInfo(classIndex: uint16, nameAndTypeIndex: uint16)
    | ConstantInterfaceMethodrefInfo(classIndex: uint16, nameAndTypeIndex: uint16)
    | ConstantStringInfo(stringIndex: uint16)
    | ConstantIntegerInfo(bytes: uint32)
    | ConstantFloatInfo(bytes: uint32)
    | ConstantLongInfo(highBytes: uint32, lowBytes: uint32)
    | ConstantDoubleInfo(highBytes: uint32, lowBytes: uint32)
    | ConstantNameAndTypeInfo(nameIndex: uint16, descriptorIndex: uint16)
    | ConstantUtf8Info(length: uint16, utf8Bytes: seq<uint8>, bytesStr: string)
    | ConstantMethodHandleInfo(referenceKind: uint8, referenceIndex: uint16)
    | ConstantMethodTypeInfo(descriptorIndex: uint16)
    | ConstantDynamicInfo(bootstrapMethodAttrIndex: uint16, nameAndTypeIndex: uint16)
    | ConstantInvokeDynamicInfo(bootstrapMethodAttrIndex: uint16, nameAndTypeIndex: uint16)
    | ConstantModuleInfo(nameIndex: uint16)
    | ConstantPackageInfo(nameIndex: uint16)

  /** An entry: its tag and the payload object built for it. */
  datatype CPInfo = CPInfo(tag: uint8, info: CPInfoImpl)

  /** `info` is of the kind the dispatch builds for `tag`.  Tag 15
      (MethodHandle) builds a Methodref object, so no decoded entry is ever
      a `ConstantMethodHandleInfo`. */
  predicate KindFor(tag: uint8, info: CPInfoImpl)
  {
    match info
    case ConstantClassInfo(_) => tag == CONSTANT_Class
    case ConstantFieldrefInfo(_, _) => tag == CONSTANT_Fieldref
    case ConstantMethodrefInfo(_, _) => tag == CONSTANT_Methodref || tag == CONSTANT_MethodHandle
    case ConstantInterfaceMethodrefInfo(_, _) => tag == CONSTANT_InterfaceMethodref
    case ConstantStringInfo(_) => tag == CONSTANT_String
    case ConstantIntegerInfo(_) => tag == CONSTANT_Integer
    case ConstantFloatInfo(_) => tag == CONSTANT_Float
    case ConstantLongInfo(_, _) => tag == CONSTANT_Long
    case ConstantDoubleInfo(_, _) => tag == CONSTANT_Double
    case ConstantNameAndTypeInfo(_, _) => tag == CONSTANT_NameAndType
    case ConstantUtf8Info(_, _, _) => tag == CONSTANT_Utf8
    case ConstantMethodHandleInfo(_, _) => false
    case ConstantMethodTypeInfo(_) => tag == CONSTANT_MethodType
    case ConstantDynamicInfo(_, _) => tag == CONSTANT_Dynamic
    case ConstantInvokeDynamicInfo(_, _) => tag == CONSTANT_InvokeDynamic
    case ConstantModuleInfo(_) => tag == CONSTANT_Module
    case ConstantPackageInfo(_) => tag == CONSTANT_Package
  }

  /** A Utf8 payload keeps exactly `length` bytes and their string. */
  predicate Utf8Consistent(info: CPInfoImpl)
  {
    info.ConstantUtf8Info? ==> |info.utf8Bytes| == info.length as nat && info.bytesStr == ToStdString(info.utf8Bytes)
  }

  /** Number of payload bytes after the tag, as the JVM class-file format lays
      them out: an index is 2 bytes, a 4-byte word 4, a Long or Double 8, and a
      Utf8 entry its 2-byte length plus that many bytes. */
  function InfoSize(tag: uint8, buf: seq<uint8>, pos: nat): nat
  {
    if tag == CONSTANT_Utf8 then 2 + (if pos + 2 <= |buf| then U16At(buf, pos) as nat else 0)
    else if tag in {CONSTANT_Class, CONSTANT_String, CONSTANT_MethodType, CONSTANT_Module, CONSTANT_Package} then 2
    else if tag in {CONSTANT_Long, CONSTANT_Double} then 8
    else 4
  }

  /** `ConstantUtf8Info::load`: a u16 length, then that many bytes, and the
      string of those bytes. */
  function ParseUtf8Info(buf: seq<uint8>, pos: nat): (r: Result<Parsed<CPInfoImpl>>)
    ensures r.Ok? <==> pos + InfoSize(CONSTANT_Utf8, buf, pos) <= |buf|
    ensures r.Ok? ==> r.value.next == pos + InfoSize(CONSTANT_Utf8, buf, pos)
    ensures r.Ok? ==> r.value.item.ConstantUtf8Info? && Utf8Consistent(r.value.item)
    ensures r.Ok? ==> r.value.item.utf8Bytes == buf[pos + 2 .. r.value.next]
  {
    var len :- ReadUInt16(buf, pos);
    var bytes :- ReadBytes(buf, len.next, len.item as nat);
    Ok(Parsed(ConstantUtf8Info(len.item, bytes.item, ToStdString(bytes.item)), bytes.next))
  }

  /** The `switch` of `CPInfo::load` together with the selected loader:
      the payload object for `tag`, read at `pos`. */
  function ParseInfo(tag: uint8, buf: seq<uint8>, pos: nat): (r: Result<Parsed<CPInfoImpl>>)
    ensures tag !in ValidTags ==> r == Err(InvalidConstantTag(tag as int))
    ensures tag in ValidTags ==> (r.Ok? <==> pos + InfoSize(tag, buf, pos) <= |buf|)
    ensures r.Ok? ==> r.value.next == pos + InfoSize(tag, buf, pos)
    ensures r.Ok? ==> KindFor(tag, r.value.item) && Utf8Consistent(r.value.item)
  {
    if tag == CONSTANT_Class then
      var a :- ReadUInt16(buf, pos);
      Ok(Parsed(ConstantClassInfo(a.item), a.next))
    else if tag == CONSTANT_Fieldref then
      var a :- ReadUInt16(buf, pos);
      var b :- ReadUInt16(buf, a.next);
      Ok(Parsed(ConstantFieldrefInfo(a.item, b.item), b.next))
    else if tag == CONSTANT_Methodref || tag == CONSTANT_MethodHandle then
      // tag 15 builds the Methodref object too, and so reads its two u16 fields
      var a :- ReadUInt16(buf, pos);
      var b :- ReadUInt16(buf, a.next);
      Ok(Parsed(ConstantMethodrefInfo(a.item, b.item), b.next))
    else if tag == CONSTANT_InterfaceMethodref then
      var a :- ReadUInt16(buf, pos);
      var b :- ReadUInt16(buf, a.next);
      Ok(Parsed(ConstantInterfaceMethodrefInfo(a.item, b.item), b.next))
    else if tag == CONSTANT_String then
      var a :- ReadUInt16(buf, pos);
      Ok(Parsed(ConstantStringInfo(a.item), a.next))
    else if tag == CONSTANT_Integer then
      var w :- ReadUInt32(buf, pos);
      Ok(Parsed(ConstantIntegerInfo(w.item), w.next))
    else if tag == CONSTANT_Float then
      var w :- ReadUInt32(buf, pos);
      Ok(Parsed(ConstantFloatInfo(w.item), w.next))
    else if tag == CONSTANT_Long then
      var h :- ReadUInt32(buf, pos);
      var l :- ReadUInt32(buf, h.next);
      Ok(Parsed(ConstantLongInfo(h.item, l.item), l.next))
    else if tag == CONSTANT_Double then
      var h :- ReadUInt32(buf, pos);
      var l :- ReadUInt32(buf, h.next);
      Ok(Parsed(ConstantDoubleInfo(h.item, l.item), l.next))
    else if tag == CONSTANT_NameAndType then
      var a :- ReadUInt16(buf, pos);
      var b :- ReadUInt16(buf, a.next);
      Ok(Parsed(ConstantNameAndTypeInfo(a.item, b.item), b.next))
    else if tag == CONSTANT_Utf8 then
      ParseUtf8Info(buf, pos)
    else if tag == CONSTANT_MethodType then
      var a :- ReadUInt16(buf, pos);
      Ok(Parsed(ConstantMethodTypeInfo(a.item), a.next))
    else if tag == CONSTANT_Dynamic then
      var a :- ReadUInt16(buf, pos);
      var b :- ReadUInt16(buf, a.next);
      Ok(Parsed(ConstantDynamicInfo(a.item, b.item), b.next))
    else if tag == CONSTANT_InvokeDynamic then
      var a :- ReadUInt16(buf, pos);
      var b :- ReadUInt16(buf, a.next);
      Ok(Parsed(ConstantInvokeDynamicInfo(a.item, b.item), b.next))
    else if tag == CONSTANT_Module then
      var a :- ReadUInt16(buf, pos);
      Ok(Parsed(ConstantModuleInfo(a.item), a.next))
    else if tag == CONSTANT_Package then
      var a :- ReadUInt16(buf, pos);
      Ok(Parsed(ConstantPackageInfo(a.item), a.next))
    else
      Err(InvalidConstantTag(tag as int))
  }

  /** `CPInfo::load`: the tag byte, then its payload.  An unknown tag is the
      only failure the source reports; running out of bytes is the model's. */
  function ParseCPInfo(buf: seq<uint8>, pos: nat): (r: Result<Parsed<CPInfo>>)
    ensures r.Ok? <==>
      pos < |buf| && buf[pos] in ValidTags && pos + 1 + InfoSize(buf[pos], buf, pos + 1) <= |buf|
    ensures pos < |buf| && buf[pos] !in ValidTags ==> r == Err(InvalidConstantTag(buf[pos] as int))
    ensures r.Ok? ==> r.value.item.tag == buf[pos] && r.value.next == pos + 1 + InfoSize(buf[pos], buf, pos + 1)
    ensures r.Ok? ==> KindFor(r.value.item.tag, r.value.item.info) && Utf8Consistent(r.value.item.info)
  {
    var t :- ReadUInt8(buf, pos);
    var info :- ParseInfo(t.item, buf, t.next);
    Ok(Parsed(CPInfo(t.item, info.item), info.next))
  }

  /** `ConstantUtf8Info::load` as written: one `push_back` per byte. */
  method LoadUtf8Info(buf: seq<uint8>, pos: nat) returns (r: Result<Parsed<CPInfoImpl>>)
    ensures r == ParseUtf8Info(buf, pos)
  {
    var len := ReadUInt16(buf, pos);
    if len.Err? {
      return Err(len.error);
    }
    var length := len.value.item;
    var start := len.value.next;
    var p := start;
    var bytes: seq<uint8> := [];
    var i: nat := 0;
    while i < length as nat
      invariant i <= length as nat
      invariant p == start + i && p <= |buf|
      invariant bytes == buf[start..p]
    {
      var b := ReadUInt8(buf, p);
      if b.Err? {
        // the run of `length` bytes does not fit in the buffer
        return Err(OutOfBounds(start, length as nat));
      }
      bytes := bytes + [b.value.item];
      p := b.value.next;
      i := i + 1;
    }
    return Ok(Parsed(ConstantUtf8Info(length, bytes, ToStdString(bytes)), p));
  }

  /** `CPInfo::load`, with the Utf8 loader's loop. */
  method LoadCPInfo(buf: seq<uint8>, pos: nat) returns (r: Result<Parsed<CPInfo>>)
    ensures r == ParseCPInfo(buf, pos)
  {
    var t := ReadUInt8(buf, pos);
    if t.Err? {
      return Err(t.error);
    }
    var tag := t.value.item;
    var info: Result<Parsed<CPInfoImpl>>;
    if tag == CONSTANT_Utf8 {
      info := LoadUtf8Info(buf, t.value.next);
    } else {
      info := ParseInfo(tag, buf, t.value.next);
    }
    if info.Err? {
      return Err(info.error);
    }
    return Ok(Parsed(CPInfo(tag, info.value.item), info.value.next));
  }

  /** `ConstantMethodHandleInfo::load`, which the dispatch never reaches: it
      reads two u16 values and stores the first in the 8-bit `referenceKind_`,
      keeping only its low byte. */
  function ParseMethodHandleInfo(buf: seq<uint8>, pos: nat): (r: Result<Parsed<CPInfoImpl>>)
    ensures r.Ok? <==> pos + 4 <= |buf|
    ensures r.Ok? ==> r.value.next == pos + 4 && r.value.item.ConstantMethodHandleInfo?
    ensures r.Ok? ==> r.value.item.referenceKind == buf[pos + 1]
    ensures r.Ok? ==> r.value.item.referenceIndex == U16At(buf, pos + 2)
  {
    var k :- ReadUInt16(buf, pos);
    var i :- ReadUInt16(buf, k.next);
    assert buf[pos..pos + 2] == [buf[pos], buf[pos + 1]];
    BigEndianTwo(buf[pos], buf[pos + 1]);
    Ok(Parsed(ConstantMethodHandleInfo((k.item as int % 0x100) as uint8, i.item), i.next))
  }

  // ---- The class-file layout of an entry, the inverse of the decoder. ----

  function EncodeInfo(info: CPInfoImpl): seq<uint8>
  {
    match info
    case ConstantClassInfo(n) => EncodeUInt16(n)
    case ConstantFieldrefInfo(c, nt) => EncodeUInt16(c) + EncodeUInt16(nt)
    case ConstantMethodrefInfo(c, nt) => EncodeUInt16(c) + EncodeUInt16(nt)
    case ConstantInterfaceMethodrefInfo(c, nt) => EncodeUInt16(c) + EncodeUInt16(nt)
    case ConstantStringInfo(s) => EncodeUInt16(s)
    case ConstantIntegerInfo(w) => EncodeUInt32(w)
    case ConstantFloatInfo(w) => EncodeUInt32(w)
    case ConstantLongInfo(h, l) => EncodeUInt32(h) + EncodeUInt32(l)
    case ConstantDoubleInfo(h, l) => EncodeUInt32(h) + EncodeUInt32(l)
    case ConstantNameAndTypeInfo(n, d) => EncodeUInt16(n) + EncodeUInt16(d)
    case ConstantUtf8Info(len, bs, _) => EncodeUInt16(len) + bs
    case ConstantMethodHandleInfo(k, i) => [k] + EncodeUInt16(i)
    case ConstantMethodTypeInfo(d) => EncodeUInt16(d)
    case ConstantDynamicInfo(b, nt) => EncodeUInt16(b) + EncodeUInt16(nt)
    case ConstantInvokeDynamicInfo(b, nt) => EncodeUInt16(b) + EncodeUInt16(nt)
    case ConstantModuleInfo(n) => EncodeUInt16(n)
    case ConstantPackageInfo(n) => EncodeUInt16(n)
  }

  function EncodeCPInfo(e: CPInfo): seq<uint8>
  {
    [e.tag] + EncodeInfo(e.info)
  }

  lemma {:induction false} TwoU16Encode(pre: seq<uint8>, a: uint16, b: uint16, post: seq<uint8>)
    ensures ReadUInt16(pre + (EncodeUInt16(a) + EncodeUInt16(b)) + post, |pre|) == Ok(Parsed(a, |pre| + 2))
    ensures ReadUInt16(pre + (EncodeUInt16(a) + EncodeUInt16(b)) + post, |pre| + 2) == Ok(Parsed(b, |pre| + 4))
  {
    var buf := pre + (EncodeUInt16(a) + EncodeUInt16(b)) + post;
    assert buf == pre + EncodeUInt16(a) + (EncodeUInt16(b) + post);
    ReadUInt16Encode(pre, a, EncodeUInt16(b) + post);
    assert buf == (pre + EncodeUInt16(a)) + EncodeUInt16(b) + post;
    ReadUInt16Encode(pre + EncodeUInt16(a), b, post);
  }

  lemma {:induction false} TwoU32Encode(pre: seq<uint8>, a: uint32, b: uint32, post: seq<uint8>)
    ensures ReadUInt32(pre + (EncodeUInt32(a) + EncodeUInt32(b)) + post, |pre|) == Ok(Parsed(a, |pre| + 4))
    ensures ReadUInt32(pre + (EncodeUInt32(a) + EncodeUInt32(b)) + post, |pre| + 4) == Ok(Parsed(b, |pre| + 8))
  {
    var buf := pre + (EncodeUInt32(a) + EncodeUInt32(b)) + post;
    assert buf == pre + EncodeUInt32(a) + (EncodeUInt32(b) + post);
    ReadUInt32Encode(pre, a, EncodeUInt32(b) + post);
    assert buf == (pre + EncodeUInt32(a)) + EncodeUInt32(b) + post;
    ReadUInt32Encode(pre + EncodeUInt32(a), b, post);
  }

  lemma {:induction false} Utf8At(buf: seq<uint8>, pos: nat, info: CPInfoImpl)
    requires info.ConstantUtf8Info? && Utf8Consistent(info)
    requires At(buf, pos, EncodeInfo(info))
    ensures ParseUtf8Info(buf, pos) == Ok(Parsed(info, pos + |EncodeInfo(info)|))
  {
    var len, bs := info.length, info.utf8Bytes;
    AtSplit(buf, pos, EncodeUInt16(len), bs);
    ReadUInt16At(buf, pos, len);
    Utf8Reads(buf, pos, len, bs);
  }

  /** The Utf8 loader's two steps, each already known to succeed. */
  lemma {:induction false} Utf8Reads(buf: seq<uint8>, pos: nat, len: uint16, bs: seq<uint8>)
    requires ReadUInt16(buf, pos) == Ok(Parsed(len, pos + 2))
    requires |bs| == len as nat && At(buf, pos + 2, bs)
    ensures ParseUtf8Info(buf, pos) == Ok(Parsed(ConstantUtf8Info(len, bs, ToStdString(bs)), pos + 2 + |bs|))
  {
    AtIsSlice(buf, pos + 2, bs);
  }

  lemma {:induction false} Utf8Encode(pre: seq<uint8>, info: CPInfoImpl, post: seq<uint8>)
    requires info.ConstantUtf8Info? && Utf8Consistent(info)
    ensures ParseUtf8Info(pre + EncodeInfo(info) + post, |pre|) == Ok(Parsed(info, |pre| + |EncodeInfo(info)|))
  {
    AtConcat(pre, EncodeInfo(info), post);
    Utf8At(pre + EncodeInfo(info) + post, |pre|, info);
  }

  /** `ParseInfoEncode` for the kinds whose payload is one u16 index. */
  lemma {:induction false} ParseIndexInfoEncode(tag: uint8, pre: seq<uint8>, info: CPInfoImpl, post: seq<uint8>)
    requires KindFor(tag, info)
    requires info.ConstantClassInfo? || info.ConstantStringInfo? || info.ConstantMethodTypeInfo? ||
             info.ConstantModuleInfo? || info.ConstantPackageInfo?
    ensures ParseInfo(tag, pre + EncodeInfo(info) + post, |pre|) == Ok(Parsed(info, |pre| + |EncodeInfo(info)|))
  {
    match info
    case ConstantClassInfo(n) => ReadUInt16Encode(pre, n, post);
    case ConstantStringInfo(s) => ReadUInt16Encode(pre, s, post);
    case ConstantMethodTypeInfo(d) => ReadUInt16Encode(pre, d, post);
    case ConstantModuleInfo(n) => ReadUInt16Encode(pre, n, post);
    case ConstantPackageInfo(n) => ReadUInt16Encode(pre, n, post);
  }

  /** `ParseInfoEncode` for the kinds whose payload is two u16 indices. */
  lemma {:induction false} ParsePairInfoEncode(tag: uint8, pre: seq<uint8>, info: CPInfoImpl, post: seq<uint8>)
    requires KindFor(tag, info)
    requires info.ConstantFieldrefInfo? || info.ConstantMethodrefInfo? || info.ConstantInterfaceMethodrefInfo? ||
             info.ConstantNameAndTypeInfo? || info.ConstantDynamicInfo? || info.ConstantInvokeDynamicInfo?
    ensures ParseInfo(tag, pre + EncodeInfo(info) + post, |pre|) == Ok(Parsed(info, |pre| + |EncodeInfo(info)|))
  {
    match info
    case ConstantFieldrefInfo(c, nt) => TwoU16Encode(pre, c, nt, post);
    case ConstantMethodrefInfo(c, nt) => TwoU16Encode(pre, c, nt, post);
    case ConstantInterfaceMethodrefInfo(c, nt) => TwoU16Encode(pre, c, nt, post);
    case ConstantNameAndTypeInfo(n, d) => TwoU16Encode(pre, n, d, post);
    case ConstantDynamicInfo(b, nt) => TwoU16Encode(pre, b, nt, post);
    case ConstantInvokeDynamicInfo(b, nt) => TwoU16Encode(pre, b, nt, post);
  }

  /** `ParseInfoEncode` for the numeric kinds: one or two u32 words. */
  lemma {:induction false} ParseNumericInfoEncode(tag: uint8, pre: seq<uint8>, info: CPInfoImpl, post: seq<uint8>)
    requires KindFor(tag, info)
    requires info.ConstantIntegerInfo? || info.ConstantFloatInfo? || info.ConstantLongInfo? || info.ConstantDoubleInfo?
    ensures ParseInfo(tag, pre + EncodeInfo(info) + post, |pre|) == Ok(Parsed(info, |pre| + |EncodeInfo(info)|))
  {
    match info
    case ConstantIntegerInfo(w) => ReadUInt32Encode(pre, w, post);
    case ConstantFloatInfo(w) => ReadUInt32Encode(pre, w, post);
    case ConstantLongInfo(h, l) => TwoU32Encode(pre, h, l, post);
    case ConstantDoubleInfo(h, l) => TwoU32Encode(pre, h, l, post);
  }

  /** Decoding the layout of a payload object the dispatch can build, wherever
      it sits in a buffer, rebuilds that object and consumes exactly its bytes. */
  lemma {:induction false} ParseInfoEncode(tag: uint8, pre: seq<uint8>, info: CPInfoImpl, post: seq<uint8>)
    requires KindFor(tag, info) && Utf8Consistent(info)
    ensures ParseInfo(tag, pre + EncodeInfo(info) + post, |pre|) == Ok(Parsed(info, |pre| + |EncodeInfo(info)|))
  {
    if info.ConstantUtf8Info? {
      Utf8Encode(pre, info, post);
    } else if info.ConstantIntegerInfo? || info.ConstantFloatInfo? || info.ConstantLongInfo? || info.ConstantDoubleInfo? {
      ParseNumericInfoEncode(tag, pre, info, post);
    } else if info.ConstantFieldrefInfo? || info.ConstantMethodrefInfo? || info.ConstantInterfaceMethodrefInfo? ||
              info.ConstantNameAndTypeInfo? || info.ConstantDynamicInfo? || info.ConstantInvokeDynamicInfo? {
      ParsePairInfoEncode(tag, pre, info, post);
    } else {
      ParseIndexInfoEncode(tag, pre, info, post);
    }
  }

  /** Round trip: an entry of a kind its tag builds decodes from its own layout. */
  lemma {:induction false} ParseCPInfoEncode(pre: seq<uint8>, e: CPInfo, post: seq<uint8>)
    requires KindFor(e.tag, e.info) && Utf8Consistent(e.info)
    ensures ParseCPInfo(pre + EncodeCPInfo(e) + post, |pre|) == Ok(Parsed(e, |pre| + |EncodeCPInfo(e)|))
  {
    var buf := pre + EncodeCPInfo(e) + post;
    assert buf == pre + [e.tag] + (EncodeInfo(e.info) + post);
    ReadUInt8Encode(pre, e.tag, EncodeInfo(e.info) + post);
    assert buf == (pre + [e.tag]) + EncodeInfo(e.info) + post;
    ParseInfoEncode(e.tag, pre + [e.tag], e.info, post);
  }

  /** Re-encoding two u16 (u32) values read back to back gives their bytes. */
  lemma {:induction false} TwoU16Exact(buf: seq<uint8>, pos: nat)
    requires pos + 4 <= |buf|
    ensures EncodeUInt16(ReadUInt16(buf, pos).value.item) + EncodeUInt16(ReadUInt16(buf, pos + 2).value.item)
            == buf[pos..pos + 4]
  {
    ReadUInt16Exact(buf, pos);
    ReadUInt16Exact(buf, pos + 2);
    assert buf[pos..pos + 4] == buf[pos..pos + 2] + buf[pos + 2..pos + 4];
  }

  lemma {:induction false} TwoU32Exact(buf: seq<uint8>, pos: nat)
    requires pos + 8 <= |buf|
    ensures EncodeUInt32(ReadUInt32(buf, pos).value.item) + EncodeUInt32(ReadUInt32(buf, pos + 4).value.item)
            == buf[pos..pos + 8]
  {
    ReadUInt32Exact(buf, pos);
    ReadUInt32Exact(buf, pos + 4);
    assert buf[pos..pos + 8] == buf[pos..pos + 4] + buf[pos + 4..pos + 8];
  }

  lemma {:induction false} Utf8Exact(buf: seq<uint8>, pos: nat)
    requires ParseUtf8Info(buf, pos).Ok?
    ensures EncodeInfo(ParseUtf8Info(buf, pos).value.item) == buf[pos..ParseUtf8Info(buf, pos).value.next]
  {
    var p := ParseUtf8Info(buf, pos).value;
    ReadUInt16Exact(buf, pos);
    assert buf[pos..p.next] == buf[pos..pos + 2] + buf[pos + 2..p.next];
  }

  /** Re-encoding a decoded payload gives back exactly the bytes it consumed. */
  lemma {:induction false} ParseInfoExact(tag: uint8, buf: seq<uint8>, pos: nat)
    requires ParseInfo(tag, buf, pos).Ok?
    ensures EncodeInfo(ParseInfo(tag, buf, pos).value.item) == buf[pos..ParseInfo(tag, buf, pos).value.next]
  {
    if tag == CONSTANT_Utf8 {
      Utf8Exact(buf, pos);
    } else if tag in {CONSTANT_Class, CONSTANT_String, CONSTANT_MethodType, CONSTANT_Module, CONSTANT_Package} {
      ReadUInt16Exact(buf, pos);
    } else if tag in {CONSTANT_Integer, CONSTANT_Float} {
      ReadUInt32Exact(buf, pos);
    } else if tag in {CONSTANT_Long, CONSTANT_Double} {
      TwoU32Exact(buf, pos);
    } else {
      TwoU16Exact(buf, pos);
    }
  }

  /** The decoder loses nothing: re-encoding a decoded entry gives back
      exactly the bytes it consumed. */
  lemma {:induction false} ParseCPInfoExact(buf: seq<uint8>, pos: nat)
    ensures ParseCPInfo(buf, pos).Ok? ==>
      var p := ParseCPInfo(buf, pos).value;
      EncodeCPInfo(p.item) == buf[pos..p.next]
  {
    var r := ParseCPInfo(buf, pos);
    if r.Ok? {
      var info := ParseInfo(buf[pos], buf, pos + 1);
      ParseInfoExact(buf[pos], buf, pos + 1);
      assert buf[pos..r.value.next] == [buf[pos]] + buf[pos + 1..r.value.next];
    }
  }
}
