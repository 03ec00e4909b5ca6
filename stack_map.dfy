/** StackMapTable frames and their verification types (`StackMapFrame`,
    the seven `FrameImpl` kinds and `VerificationTypeInfo`), as the loaders
    read them: including the second frame-type byte `StackMapFrame::load`
    reads, and the chop-frame branch no type can reach. */
module StackMapDecoder {
  import opened DecodeResult
  import opened ByteReader

  const ITEM_Top: uint8 := 0
  const ITEM_Integer: uint8 := 1
  const ITEM_Float: uint8 := 2
  const ITEM_Double: uint8 := 3
  const ITEM_Long: uint8 := 4
  const ITEM_Null: uint8 := 5
  const ITEM_UninitializedThis: uint8 := 6
  const ITEM_Object: uint8 := 7
  const ITEM_Uninitialized: uint8 := 8

  /** `moreInfo` is the u16 that follows an Object or Uninitialized tag, and
      stays 0 (the value-initialised member) for every other tag. */
  datatype VerificationTypeInfo = VerificationTypeInfo(tag: uint8, moreInfo: uint16)

  datatype Frame =
    | SameFrame
    | SameLocals1StackItemFrame(stack: VerificationTypeInfo)
    | SameLocals1StackItemFrameExtended(offsetDelta: uint16, stack: VerificationTypeInfo)
    | ChopFrame(offsetDelta: uint16)
    | SameFrameExtended(offsetDelta: uint16)
    | AppendFrame(frameType: uint8, offsetDelta: uint16, locals: seq<VerificationTypeInfo>)
    | FullFrame(offsetDelta: uint16, locals: seq<VerificationTypeInfo>, stackItems: seq<VerificationTypeInfo>)

  /** `frameType` is the byte stored in `frameType_`: the SECOND byte read. */
  datatype StackMapFrame = StackMapFrame(frameType: uint8, frame: Frame)

  predicate HasMoreInfo(tag: uint8)
  {
    tag == ITEM_Object || tag == ITEM_Uninitialized
  }

  /** `VerificationTypeInfo::load`: a tag byte, and a u16 only after
      Object and Uninitialized.  No tag is rejected. */
  function ParseVerificationTypeInfo(buf: seq<uint8>, pos: nat): (r: Result<Parsed<VerificationTypeInfo>>)
    ensures r.Ok? <==> pos < |buf| && pos + (if HasMoreInfo(buf[pos]) then 3 else 1) <= |buf|
    ensures r.Ok? ==> r.value.item.tag == buf[pos]
    ensures r.Ok? ==> r.value.next == pos + (if HasMoreInfo(buf[pos]) then 3 else 1)
    ensures r.Ok? ==> if HasMoreInfo(buf[pos]) then r.value.item.moreInfo == U16At(buf, pos + 1)
                      else r.value.item.moreInfo == 0
  {
    var t :- ReadUInt8(buf, pos);
    if HasMoreInfo(t.item) then
      var m :- ReadUInt16(buf, t.next);
      Ok(Parsed(VerificationTypeInfo(t.item, m.item), m.next))
    else
      Ok(Parsed(VerificationTypeInfo(t.item, 0), t.next))
  }

  function ParseVerificationTypeInfos(buf: seq<uint8>, pos: nat, n: nat): (r: Result<Parsed<seq<VerificationTypeInfo>>>)
    ensures r.Ok? ==> |r.value.item| == n
    ensures pos <= |buf| ==> Advanced(r, pos, |buf|)
  {
    ReadList(buf, pos, n, ParseVerificationTypeInfo)
  }

  /** Which frame kind the dispatch of `StackMapFrame::load` picks for the
      first byte `t`, following the type ranges of a stack map frame in the
      JVM class-file format except that 248-250 (chop) has no kind. */
  predicate RoutedTo(t: uint8, f: Frame)
  {
    match f
    case SameFrame => t <= 63
    case SameLocals1StackItemFrame(_) => 64 <= t <= 127
    case SameLocals1StackItemFrameExtended(_, _) => t == 247
    case ChopFrame(_) => false
    case SameFrameExtended(_) => t == 251
    case AppendFrame(ft, _, _) => 252 <= t <= 254 && ft == t
    case FullFrame(_, _, _) => t == 255
  }

  /** The first bytes the dispatch accepts. */
  predicate KnownFrameType(t: uint8)
  {
    t <= 127 || t == 247 || 251 <= t
  }

  /** `SameLocals1StackItemFrame::load`: one verification type. */
  function ParseSameLocals1StackItemFrame(buf: seq<uint8>, pos: nat): (r: Result<Parsed<Frame>>)
    ensures pos <= |buf| ==> Advanced(r, pos, |buf|)
    ensures r.Ok? ==> r.value.item.SameLocals1StackItemFrame?
    ensures r.Ok? <==> ParseVerificationTypeInfo(buf, pos).Ok?
    ensures r.Ok? ==> ParseVerificationTypeInfo(buf, pos) == Ok(Parsed(r.value.item.stack, r.value.next))
  {
    var v :- ParseVerificationTypeInfo(buf, pos);
    Ok(Parsed(SameLocals1StackItemFrame(v.item), v.next))
  }

  /** `SameLocals1StackItemFrameExtended::load`: a u16 offset_delta, then one verification type. */
  function ParseSameLocals1StackItemFrameExtended(buf: seq<uint8>, pos: nat): (r: Result<Parsed<Frame>>)
    ensures pos <= |buf| ==> Advanced(r, pos, |buf|)
    ensures r.Ok? ==> r.value.item.SameLocals1StackItemFrameExtended? && pos + 3 <= r.value.next <= |buf|
    ensures r.Ok? <==> pos + 2 <= |buf| && ParseVerificationTypeInfo(buf, pos + 2).Ok?
    ensures r.Ok? ==> r.value.item.offsetDelta == U16At(buf, pos)
    ensures r.Ok? ==> ParseVerificationTypeInfo(buf, pos + 2) == Ok(Parsed(r.value.item.stack, r.value.next))
  {
    var off :- ReadUInt16(buf, pos);
    var v :- ParseVerificationTypeInfo(buf, off.next);
    Ok(Parsed(SameLocals1StackItemFrameExtended(off.item, v.item), v.next))
  }

  /** `SameFrameExtended::load`: a u16 offset_delta. */
  function ParseSameFrameExtended(buf: seq<uint8>, pos: nat): (r: Result<Parsed<Frame>>)
    ensures r.Ok? <==> pos + 2 <= |buf|
    ensures r.Ok? ==> r.value.next == pos + 2 && r.value.item.SameFrameExtended?
    ensures r.Ok? ==> r.value.item.offsetDelta == U16At(buf, pos)
  {
    var off :- ReadUInt16(buf, pos);
    Ok(Parsed(SameFrameExtended(off.item), off.next))
  }

  /** `AppendFrame::load` for an AppendFrame built with `frameType`: a u16
      offset_delta, then `frameType - 251` verification types (the
      subtraction is on `uint8_t`, so it wraps below 251). */
  function ParseAppendFrame(frameType: uint8, buf: seq<uint8>, pos: nat): (r: Result<Parsed<Frame>>)
    ensures pos <= |buf| ==> Advanced(r, pos, |buf|)
    ensures r.Ok? ==> r.value.item.AppendFrame? && r.value.item.frameType == frameType && pos + 2 <= |buf|
    ensures r.Ok? ==> |r.value.item.locals| == (frameType as int - 251) % 0x100
    ensures r.Ok? ==> r.value.item.offsetDelta == U16At(buf, pos)
  {
    var off :- ReadUInt16(buf, pos);
    var locals :- ParseVerificationTypeInfos(buf, off.next, (frameType as int - 251) % 0x100);
    Ok(Parsed(AppendFrame(frameType, off.item, locals.item), locals.next))
  }

  /** A u16 count followed by that many verification types: the locals and
      the stack of a full frame. */
  function ParseCountedTypes(buf: seq<uint8>, pos: nat): (r: Result<Parsed<seq<VerificationTypeInfo>>>)
    ensures pos <= |buf| ==> Advanced(r, pos, |buf|)
    ensures r.Ok? ==> pos + 2 <= |buf| && pos + 2 <= r.value.next && |r.value.item| == U16At(buf, pos) as nat
  {
    var n :- ReadUInt16(buf, pos);
    ParseVerificationTypeInfos(buf, n.next, n.item as nat)
  }

  /** `FullFrame::load`: a u16 offset_delta, a u16-counted list of locals,
      then a u16-counted list of stack items. */
  function ParseFullFrame(buf: seq<uint8>, pos: nat): (r: Result<Parsed<Frame>>)
    ensures pos <= |buf| ==> Advanced(r, pos, |buf|)
    ensures r.Ok? ==> r.value.item.FullFrame? && pos + 6 <= r.value.next <= |buf|
    ensures r.Ok? ==> r.value.item.offsetDelta == U16At(buf, pos)
    ensures r.Ok? ==> |r.value.item.locals| == U16At(buf, pos + 2) as nat
    ensures r.Ok? ==> (var locals := ParseCountedTypes(buf, pos + 2);
      locals.Ok? && locals.value.item == r.value.item.locals &&
      ParseCountedTypes(buf, locals.value.next) == Ok(Parsed(r.value.item.stackItems, r.value.next)))
  {
    var off :- ReadUInt16(buf, pos);
    var locals :- ParseCountedTypes(buf, off.next);
    var stack :- ParseCountedTypes(buf, locals.next);
    Ok(Parsed(FullFrame(off.item, locals.item, stack.item), stack.next))
  }

  /** The dispatch of `StackMapFrame::load` on its first byte `t`, and the
      selected kind's loader. */
  function ParseFrame(t: uint8, buf: seq<uint8>, pos: nat): (r: Result<Parsed<Frame>>)
    ensures !KnownFrameType(t) ==> r == Err(InvalidFrameType(t as int))
    ensures r.Ok? ==> RoutedTo(t, r.value.item)
    ensures pos <= |buf| ==> Advanced(r, pos, |buf|)
    ensures r.Ok? && t <= 63 ==> r.value.next == pos
    ensures r.Ok? && r.value.item.AppendFrame? ==> |r.value.item.locals| == t as int - 251
  {
    if t <= 63 then Ok(Parsed(SameFrame, pos))
    else if t <= 127 then ParseSameLocals1StackItemFrame(buf, pos)
    else if t == 247 then ParseSameLocals1StackItemFrameExtended(buf, pos)
    // the chop-frame branch sits here, guarded by `248 <= type && type <= 127`,
    // which no byte satisfies; it would have built a SameLocals1StackItemFrame
    else if t == 251 then ParseSameFrameExtended(buf, pos)
    else if 252 <= t <= 254 then ParseAppendFrame(t, buf, pos)
    else if t == 255 then ParseFullFrame(buf, pos)
    else Err(InvalidFrameType(t as int))  // 128-246 and 248-250
  }

  /** `ChopFrame::load`, which no frame type reaches: a u16 offset_delta. */
  function ParseChopFrame(buf: seq<uint8>, pos: nat): (r: Result<Parsed<Frame>>)
    ensures r.Ok? <==> pos + 2 <= |buf|
    ensures r.Ok? ==> r.value.next == pos + 2 && r.value.item.ChopFrame?
    ensures r.Ok? ==> r.value.item.offsetDelta == U16At(buf, pos)
  {
    var off :- ReadUInt16(buf, pos);
    Ok(Parsed(ChopFrame(off.item), off.next))
  }

  /** `StackMapFrame::load`: the routing byte, a second byte kept as
      `frameType_`, then the frame the routing byte selects. */
  function ParseStackMapFrame(buf: seq<uint8>, pos: nat): (r: Result<Parsed<StackMapFrame>>)
    ensures pos + 2 <= |buf| && !KnownFrameType(buf[pos]) ==> r == Err(InvalidFrameType(buf[pos] as int))
    ensures r.Ok? ==> pos + 2 <= r.value.next <= |buf|
    ensures r.Ok? ==> r.value.item.frameType == buf[pos + 1] && RoutedTo(buf[pos], r.value.item.frame)
  {
    var t :- ReadUInt8(buf, pos);
    var ft :- ReadUInt8(buf, t.next);
    var f :- ParseFrame(t.item, buf, ft.next);
    Ok(Parsed(StackMapFrame(ft.item, f.item), f.next))
  }

  /** The entries of a StackMapTable attribute. */
  function ParseStackMapFrames(buf: seq<uint8>, pos: nat, n: nat): (r: Result<Parsed<seq<StackMapFrame>>>)
    ensures r.Ok? ==> |r.value.item| == n
    ensures pos <= |buf| ==> Advanced(r, pos, |buf|)
    ensures r == ReadList(buf, pos, n, ParseStackMapFrame)
  {
    ReadList(buf, pos, n, ParseStackMapFrame)
  }

  // ---- Consequences of the dispatch as written. ----

  /** A same_frame (one byte in the class-file format) consumes two bytes,
      and the second becomes its `frameType`. */
  lemma {:induction false} SameFrameReadsTwoBytes(buf: seq<uint8>, pos: nat)
    requires pos + 2 <= |buf| && buf[pos] <= 63
    ensures ParseStackMapFrame(buf, pos) == Ok(Parsed(StackMapFrame(buf[pos + 1], SameFrame), pos + 2))
  {
  }

  /** No frame decodes as a chop frame, whatever the bytes. */
  lemma {:induction false} NoChopFrame(buf: seq<uint8>, pos: nat)
    ensures ParseStackMapFrame(buf, pos).Ok? ==> !ParseStackMapFrame(buf, pos).value.item.frame.ChopFrame?
  {
  }

  // ---- The layout the loaders read, and the round trip. ----

  function EncodeVerificationTypeInfo(v: VerificationTypeInfo): seq<uint8>
  {
    [v.tag] + (if HasMoreInfo(v.tag) then EncodeUInt16(v.moreInfo) else [])
  }

  function EncodeVerificationTypeInfos(vs: seq<VerificationTypeInfo>): seq<uint8>
  {
    if vs == [] then [] else EncodeVerificationTypeInfo(vs[0]) + EncodeVerificationTypeInfos(vs[1..])
  }

  /** A frame's bytes after the two type bytes. */
  function EncodeFrame(f: Frame): seq<uint8>
    requires WellFormedFrame(f)
  {
    match f
    case SameFrame => []
    case SameLocals1StackItemFrame(v) => EncodeVerificationTypeInfo(v)
    case SameLocals1StackItemFrameExtended(off, v) => EncodeUInt16(off) + EncodeVerificationTypeInfo(v)
    case ChopFrame(off) => EncodeUInt16(off)
    case SameFrameExtended(off) => EncodeUInt16(off)
    case AppendFrame(_, off, locals) => EncodeUInt16(off) + EncodeVerificationTypeInfos(locals)
    case FullFrame(off, locals, stack) => EncodeFullFrame(off, locals, stack)
  }

  /** The bytes `StackMapFrame::load` consumes: routing byte `t`, the stored
      `frameType` byte, then the frame. */
  function EncodeStackMapFrame(t: uint8, s: StackMapFrame): seq<uint8>
    requires WellFormedFrame(s.frame)
  {
    [t, s.frameType] + EncodeFrame(s.frame)
  }

  /** A verification type the loader can produce (no stray `moreInfo`). */
  predicate WellFormedVerificationTypeInfo(v: VerificationTypeInfo)
  {
    !HasMoreInfo(v.tag) ==> v.moreInfo == 0
  }

  predicate WellFormedFrame(f: Frame)
  {
    (forall v | v in FrameTypes(f) :: WellFormedVerificationTypeInfo(v))
    && (f.FullFrame? ==> |f.locals| < 0x1_0000 && |f.stackItems| < 0x1_0000)
  }

  function FrameTypes(f: Frame): seq<VerificationTypeInfo>
  {
    match f
    case SameLocals1StackItemFrame(v) => [v]
    case SameLocals1StackItemFrameExtended(_, v) => [v]
    case AppendFrame(_, _, locals) => locals
    case FullFrame(_, locals, stack) => locals + stack
    case _ => []
  }

  lemma {:induction false} VerificationTypeInfoAt(buf: seq<uint8>, pos: nat, v: VerificationTypeInfo)
    requires WellFormedVerificationTypeInfo(v) && At(buf, pos, EncodeVerificationTypeInfo(v))
    ensures ParseVerificationTypeInfo(buf, pos) == Ok(Parsed(v, pos + |EncodeVerificationTypeInfo(v)|))
  {
    var more := if HasMoreInfo(v.tag) then EncodeUInt16(v.moreInfo) else [];
    AtSplit(buf, pos, [v.tag], more);
    ReadUInt8At(buf, pos, v.tag);
    if HasMoreInfo(v.tag) {
      ReadUInt16At(buf, pos + 1, v.moreInfo);
    }
  }

  lemma {:induction false} VerificationTypeInfosAt(buf: seq<uint8>, pos: nat, vs: seq<VerificationTypeInfo>)
    requires (forall v | v in vs :: WellFormedVerificationTypeInfo(v)) && At(buf, pos, EncodeVerificationTypeInfos(vs))
    ensures ParseVerificationTypeInfos(buf, pos, |vs|) == Ok(Parsed(vs, pos + |EncodeVerificationTypeInfos(vs)|))
    decreases |vs|
  {
    if vs != [] {
      var head := EncodeVerificationTypeInfo(vs[0]);
      AtSplit(buf, pos, head, EncodeVerificationTypeInfos(vs[1..]));
      VerificationTypeInfoAt(buf, pos, vs[0]);
      VerificationTypeInfosAt(buf, pos + |head|, vs[1..]);
      assert [vs[0]] + vs[1..] == vs;
    }
  }

  lemma {:induction false} AppendFrameAt(buf: seq<uint8>, pos: nat, f: Frame)
    requires f.AppendFrame? && 252 <= f.frameType <= 254 && |f.locals| == f.frameType as int - 251
    requires WellFormedFrame(f) && At(buf, pos, EncodeFrame(f))
    ensures ParseAppendFrame(f.frameType, buf, pos) == Ok(Parsed(f, pos + |EncodeFrame(f)|))
  {
    var e0, e1 := EncodeUInt16(f.offsetDelta), EncodeVerificationTypeInfos(f.locals);
    AtSplit(buf, pos, e0, e1);
    ReadUInt16At(buf, pos, f.offsetDelta);
    VerificationTypeInfosAt(buf, pos + 2, f.locals);
  }

  /** The bytes of a full frame, part by part. */
  function EncodeFullFrame(off: uint16, locals: seq<VerificationTypeInfo>, stack: seq<VerificationTypeInfo>): seq<uint8>
    requires |locals| < 0x1_0000 && |stack| < 0x1_0000
  {
    EncodeUInt16(off) + EncodeCountedTypes(locals) + EncodeCountedTypes(stack)
  }

  function EncodeCountedTypes(vs: seq<VerificationTypeInfo>): seq<uint8>
    requires |vs| < 0x1_0000
  {
    EncodeUInt16(|vs| as uint16) + EncodeVerificationTypeInfos(vs)
  }

  lemma {:induction false} CountedTypesAt(buf: seq<uint8>, pos: nat, vs: seq<VerificationTypeInfo>)
    requires |vs| < 0x1_0000 && (forall v | v in vs :: WellFormedVerificationTypeInfo(v))
    requires At(buf, pos, EncodeCountedTypes(vs))
    ensures ParseCountedTypes(buf, pos) == Ok(Parsed(vs, pos + |EncodeCountedTypes(vs)|))
  {
    AtSplit(buf, pos, EncodeUInt16(|vs| as uint16), EncodeVerificationTypeInfos(vs));
    ReadUInt16At(buf, pos, |vs| as uint16);
    VerificationTypeInfosAt(buf, pos + 2, vs);
  }

  /** A full frame decodes from its three parts decoded one after another. */
  lemma {:induction false} FullFrameReads(buf: seq<uint8>, pos: nat, off: uint16, locals: seq<VerificationTypeInfo>,
                       stack: seq<VerificationTypeInfo>, q1: nat, q2: nat, q3: nat)
    requires ReadUInt16(buf, pos) == Ok(Parsed(off, q1))
    requires ParseCountedTypes(buf, q1) == Ok(Parsed(locals, q2))
    requires ParseCountedTypes(buf, q2) == Ok(Parsed(stack, q3))
    ensures ParseFullFrame(buf, pos) == Ok(Parsed(FullFrame(off, locals, stack), q3))
  {
  }

  /** A full frame decodes from its three parts laid out one after another. */
  lemma {:induction false} FullFramePartsAt(buf: seq<uint8>, pos: nat, off: uint16,
                         locals: seq<VerificationTypeInfo>, stack: seq<VerificationTypeInfo>)
    requires |locals| < 0x1_0000 && |stack| < 0x1_0000
    requires forall v | v in locals :: WellFormedVerificationTypeInfo(v)
    requires forall v | v in stack :: WellFormedVerificationTypeInfo(v)
    requires At(buf, pos, EncodeFullFrame(off, locals, stack))
    ensures ParseFullFrame(buf, pos) == Ok(Parsed(FullFrame(off, locals, stack), pos + |EncodeFullFrame(off, locals, stack)|))
  {
    var e0, e1, e2 := EncodeUInt16(off), EncodeCountedTypes(locals), EncodeCountedTypes(stack);
    var q1, q2, q3 := pos + 2, pos + 2 + |e1|, pos + 2 + |e1| + |e2|;
    assert ReadUInt16(buf, pos) == Ok(Parsed(off, q1)) by {
      AtSplit(buf, pos, e0 + e1, e2);
      AtSplit(buf, pos, e0, e1);
      ReadUInt16At(buf, pos, off);
    }
    assert ParseCountedTypes(buf, q1) == Ok(Parsed(locals, q2)) by {
      AtSplit(buf, pos, e0 + e1, e2);
      AtSplit(buf, pos, e0, e1);
      CountedTypesAt(buf, q1, locals);
    }
    assert ParseCountedTypes(buf, q2) == Ok(Parsed(stack, q3)) by {
      AtSplit(buf, pos, e0 + e1, e2);
      CountedTypesAt(buf, q2, stack);
    }
    FullFrameReads(buf, pos, off, locals, stack, q1, q2, q3);
  }

  lemma {:induction false} FullFrameAt(buf: seq<uint8>, pos: nat, f: Frame)
    requires f.FullFrame? && WellFormedFrame(f) && At(buf, pos, EncodeFrame(f))
    ensures ParseFullFrame(buf, pos) == Ok(Parsed(f, pos + |EncodeFrame(f)|))
  {
    WellFormedFullFrameParts(f);
    assert f == FullFrame(f.offsetDelta, f.locals, f.stackItems);
    assert EncodeFrame(f) == EncodeFullFrame(f.offsetDelta, f.locals, f.stackItems);
    FullFramePartsAt(buf, pos, f.offsetDelta, f.locals, f.stackItems);
  }

  lemma {:induction false} WellFormedFullFrameParts(f: Frame)
    requires f.FullFrame? && WellFormedFrame(f)
    ensures forall v | v in f.locals :: WellFormedVerificationTypeInfo(v)
    ensures forall v | v in f.stackItems :: WellFormedVerificationTypeInfo(v)
  {
    assert forall v | v in f.locals :: v in FrameTypes(f);
    assert forall v | v in f.stackItems :: v in FrameTypes(f);
  }

  lemma {:induction false} FrameAt(t: uint8, buf: seq<uint8>, pos: nat, f: Frame)
    requires RoutedTo(t, f) && WellFormedFrame(f) && At(buf, pos, EncodeFrame(f))
    requires f.AppendFrame? ==> |f.locals| == t as int - 251
    ensures ParseFrame(t, buf, pos) == Ok(Parsed(f, pos + |EncodeFrame(f)|))
  {
    match f
    case SameFrame =>
    case SameLocals1StackItemFrame(v) =>
      assert v in FrameTypes(f);
      VerificationTypeInfoAt(buf, pos, v);
    case SameLocals1StackItemFrameExtended(off, v) =>
      assert v in FrameTypes(f);
      AtSplit(buf, pos, EncodeUInt16(off), EncodeVerificationTypeInfo(v));
      ReadUInt16At(buf, pos, off);
      VerificationTypeInfoAt(buf, pos + 2, v);
    case ChopFrame(_) =>
    case SameFrameExtended(off) =>
      ReadUInt16At(buf, pos, off);
    case AppendFrame(_, _, _) =>
      AppendFrameAt(buf, pos, f);
    case FullFrame(_, _, _) =>
      FullFrameAt(buf, pos, f);
  }

  /** Round trip: a frame the dispatch can build for routing byte `t`
      decodes, wherever it sits in a buffer, from `t`, its stored type byte
      and its payload. */
  lemma {:induction false} StackMapFrameEncode(t: uint8, pre: seq<uint8>, s: StackMapFrame, post: seq<uint8>)
    requires RoutedTo(t, s.frame) && WellFormedFrame(s.frame)
    requires s.frame.AppendFrame? ==> |s.frame.locals| == t as int - 251
    ensures ParseStackMapFrame(pre + EncodeStackMapFrame(t, s) + post, |pre|)
         == Ok(Parsed(s, |pre| + |EncodeStackMapFrame(t, s)|))
  {
    AtConcat(pre, EncodeStackMapFrame(t, s), post);
    StackMapFrameBytesAt(t, pre + EncodeStackMapFrame(t, s) + post, |pre|, s);
  }

  /** The same round trip, for bytes found at `pos` of any buffer. */
  lemma {:induction false} StackMapFrameBytesAt(t: uint8, buf: seq<uint8>, pos: nat, s: StackMapFrame)
    requires RoutedTo(t, s.frame) && WellFormedFrame(s.frame)
    requires s.frame.AppendFrame? ==> |s.frame.locals| == t as int - 251
    requires At(buf, pos, EncodeStackMapFrame(t, s))
    ensures ParseStackMapFrame(buf, pos) == Ok(Parsed(s, pos + |EncodeStackMapFrame(t, s)|))
  {
    AtSplit(buf, pos, [t, s.frameType], EncodeFrame(s.frame));
    assert [t, s.frameType] == [t] + [s.frameType];
    AtSplit(buf, pos, [t], [s.frameType]);
    ReadUInt8At(buf, pos, t);
    ReadUInt8At(buf, pos + 1, s.frameType);
    FrameAt(t, buf, pos + 2, s.frame);
  }

  // ---- Lists of frames: the round trip ----

  /** A routing byte for each frame kind the dispatch builds: the first of
      its range (an append frame's own type byte). */
  function RouteByte(f: Frame): uint8
  {
    match f
    case SameFrame => 0
    case SameLocals1StackItemFrame(_) => 64
    case SameLocals1StackItemFrameExtended(_, _) => 247
    case ChopFrame(_) => 248
    case SameFrameExtended(_) => 251
    case AppendFrame(ft, _, _) => ft
    case FullFrame(_, _, _) => 255
  }

  /** A frame the dispatch can build from its routing byte. */
  predicate Encodable(s: StackMapFrame)
  {
    RoutedTo(RouteByte(s.frame), s.frame) && WellFormedFrame(s.frame)
    && (s.frame.AppendFrame? ==> |s.frame.locals| == s.frame.frameType as int - 251)
  }

  /** One table entry as written with `RouteByte`. */
  function EncodeEntry(s: StackMapFrame): seq<uint8>
  {
    if WellFormedFrame(s.frame) then EncodeStackMapFrame(RouteByte(s.frame), s) else []
  }

  /** Each encodable frame reads back wherever it sits. */
  lemma {:induction false} FramesReadBack(buf: seq<uint8>, frames: seq<StackMapFrame>)
    requires forall s | s in frames :: Encodable(s)
    ensures ReadsBack(buf, ParseStackMapFrame, EncodeEntry, frames)
  {
    forall p: nat, i | 0 <= i < |frames|
      ensures ReadsBackAt(buf, ParseStackMapFrame, EncodeEntry, frames[i], p)
    {
      if At(buf, p, EncodeEntry(frames[i])) {
        assert Encodable(frames[i]) by { assert frames[i] in frames; }
        StackMapFrameBytesAt(RouteByte(frames[i].frame), buf, p, frames[i]);
      }
    }
  }

  /** Round trip of the entries of a StackMapTable. */
  lemma {:induction false} StackMapFramesAt(buf: seq<uint8>, pos: nat, frames: seq<StackMapFrame>)
    requires (forall s | s in frames :: Encodable(s)) && At(buf, pos, Concat(EncodeEntry, frames))
    ensures ParseStackMapFrames(buf, pos, |frames|) == Ok(Parsed(frames, pos + |Concat(EncodeEntry, frames)|))
  {
    FramesReadBack(buf, frames);
    FrameListAt(buf, pos, frames);
  }

  lemma {:induction false} FrameListAt(buf: seq<uint8>, pos: nat, frames: seq<StackMapFrame>)
    requires ReadsBack(buf, ParseStackMapFrame, EncodeEntry, frames) && At(buf, pos, Concat(EncodeEntry, frames))
    ensures ReadList(buf, pos, |frames|, ParseStackMapFrame) == Ok(Parsed(frames, pos + |Concat(EncodeEntry, frames)|))
  {
    ReadListAt(buf, pos, frames, ParseStackMapFrame, EncodeEntry);
  }
}
