/** Annotations and their element values (`ElementValue`, `EnumConstValue`,
    `ArrayValue`, `ElementValuePair`, `Annotation`, `ParameterAnnotation`),
    and type annotations with their targets and type paths
    (`TypeAnnotation`, the ten `TargetImpl` kinds, `TypePath`, `Path`).

    ElementValue, ArrayValue, ElementValuePair and Annotation load one
    another, so their decoders are mutually recursive; every one of them
    consumes at least one byte before it recurses, which is what ends the
    recursion. */
module AnnotationDecoder {
  import opened DecodeResult
  import opened ByteReader

  // ---- Records ----

  /** What `value_` holds: the u16 itself for the constant and class tags,
      or the object the case allocated. */
  datatype ElementValueItem =
    | IndexValue(index: uint16)
    | EnumConstValue(typeNameIndex: uint16, constNameIndex: uint16)
    | AnnotationValue(annotation: Annotation)
    | ArrayValue(values: seq<ElementValue>)

  datatype ElementValue = ElementValue(tag: uint8, value: ElementValueItem)

  datatype ElementValuePair = ElementValuePair(elementNameIndex: uint16, value: ElementValue)

  datatype Annotation = Annotation(typeIndex: uint16, elementValuePairs: seq<ElementValuePair>)

  datatype ParameterAnnotation = ParameterAnnotation(annotations: seq<Annotation>)

  datatype Localvar = Localvar(startPC: uint16, length: uint16, index: uint16)

  /** `TypeArgumentTarget` keeps a `typeArgumentIndex_` that its loader never
      reads; the value-initialised member is 0. */
  datatype TargetInfo =
    | TypeParameterTarget(typeParameterIndex: uint8)
    | SupertypeTarget(supertypeIndex: uint16)
    | TypeParameterBoundTarget(typeParameterIndex: uint8, boundIndex: uint8)
    | EmptyTarget
    | FormalParameterTarget(formalParameterIndex: uint8)
    | ThrowsTarget(throwsTypeIndex: uint16)
    | LocalvarTarget(table: seq<Localvar>)
    | CatchTarget(exceptionTableIndex: uint16)
    | OffsetTarget(offset: uint16)
    | TypeArgumentTarget(offset: uint16, typeArgumentIndex: uint8)

  datatype Path = Path(typePathKind: uint8, typeArgumentIndex: uint8)

  datatype TypeAnnotation = TypeAnnotation(
    targetType: uint8,
    targetInfo: TargetInfo,
    typePath: seq<Path>,
    typeIndex: uint16,
    elementValuePairs: seq<ElementValuePair>)

  // ---- Element value tags ----

  /** The character a tag byte stands for. */
  function TagChar(t: uint8): char
  {
    t as int as char
  }

  /** The tags whose value is a single u16 index: the primitive and string
      constants `B C D F I J S Z s`, and the class tag `c`. */
  predicate IsIndexTag(t: uint8)
  {
    TagChar(t) in "BCDFIJSZsc"
  }

  predicate IsKnownTag(t: uint8)
  {
    IsIndexTag(t) || TagChar(t) in "e@["
  }

  // ---- Decoders of the recursive family ----

  /** `ElementValue::load`.  The `@` case loads an annotation and then,
      having no `return`, runs into the `[` case: the annotation is dropped
      and the value becomes the array read after it. */
  function ParseElementValue(buf: seq<uint8>, pos: nat): (r: Result<Parsed<ElementValue>>)
    ensures r.Ok? ==> pos < r.value.next <= |buf| && r.value.item.tag == buf[pos]
    ensures r.Ok? ==> !r.value.item.value.AnnotationValue?
    decreases |buf| - pos, 0, 0
  {
    var t :- ReadUInt8(buf, pos);
    var c := TagChar(t.item);
    if IsIndexTag(t.item) then
      var v :- ReadUInt16(buf, t.next);
      Ok(Parsed(ElementValue(t.item, IndexValue(v.item)), v.next))
    else if c == 'e' then
      var e :- ParseEnumConstValue(buf, t.next);
      Ok(Parsed(ElementValue(t.item, e.item), e.next))
    else if c == '@' then
      var ann :- ParseAnnotation(buf, t.next);
      var arr :- ParseArrayValue(buf, ann.next);
      Ok(Parsed(ElementValue(t.item, arr.item), arr.next))
    else if c == '[' then
      var arr :- ParseArrayValue(buf, t.next);
      Ok(Parsed(ElementValue(t.item, arr.item), arr.next))
    else
      Err(InvalidElementValueTag(t.item as int))
  }

  /** `EnumConstValue::load`: the type name index, then the constant name index. */
  function ParseEnumConstValue(buf: seq<uint8>, pos: nat): (r: Result<Parsed<ElementValueItem>>)
    ensures r.Ok? <==> pos + 4 <= |buf|
    ensures r.Ok? ==> r.value.next == pos + 4 && r.value.item.EnumConstValue?
    ensures r.Ok? ==> (r.value.item.typeNameIndex == U16At(buf, pos) &&
                       r.value.item.constNameIndex == U16At(buf, pos + 2))
  {
    var a :- ReadUInt16(buf, pos);
    var b :- ReadUInt16(buf, a.next);
    Ok(Parsed(EnumConstValue(a.item, b.item), b.next))
  }

  /** `ArrayValue::load`: a u16 count, then that many element values. */
  function ParseArrayValue(buf: seq<uint8>, pos: nat): (r: Result<Parsed<ElementValueItem>>)
    ensures r.Ok? ==> pos + 2 <= r.value.next <= |buf| && r.value.item.ArrayValue?
    decreases |buf| - pos, 2, 0
  {
    var n :- ReadUInt16(buf, pos);
    var vs :- ParseElementValues(buf, n.next, n.item as nat);
    Ok(Parsed(ArrayValue(vs.item), vs.next))
  }

  function ParseElementValues(buf: seq<uint8>, pos: nat, n: nat): (r: Result<Parsed<seq<ElementValue>>>)
    ensures r.Ok? ==> |r.value.item| == n && pos <= r.value.next
    ensures r.Ok? && n > 0 ==> r.value.next <= |buf|
    decreases |buf| - pos, 1, n
  {
    if n == 0 then Ok(Parsed([], pos))
    else
      var v :- ParseElementValue(buf, pos);
      var rest :- ParseElementValues(buf, v.next, n - 1);
      Ok(Parsed([v.item] + rest.item, rest.next))
  }

  /** `ElementValuePair::load`: the element name index, then its value. */
  function ParseElementValuePair(buf: seq<uint8>, pos: nat): (r: Result<Parsed<ElementValuePair>>)
    ensures r.Ok? ==> pos + 3 <= r.value.next <= |buf|
    decreases |buf| - pos, 2, 0
  {
    var name :- ReadUInt16(buf, pos);
    var v :- ParseElementValue(buf, name.next);
    Ok(Parsed(ElementValuePair(name.item, v.item), v.next))
  }

  function ParseElementValuePairs(buf: seq<uint8>, pos: nat, n: nat): (r: Result<Parsed<seq<ElementValuePair>>>)
    ensures r.Ok? ==> |r.value.item| == n && pos <= r.value.next
    ensures r.Ok? && n > 0 ==> r.value.next <= |buf|
    decreases |buf| - pos, 3, n
  {
    if n == 0 then Ok(Parsed([], pos))
    else
      var p :- ParseElementValuePair(buf, pos);
      var rest :- ParseElementValuePairs(buf, p.next, n - 1);
      Ok(Parsed([p.item] + rest.item, rest.next))
  }

  /** `Annotation::load`: the type index, a u16 count, then that many pairs. */
  function ParseAnnotation(buf: seq<uint8>, pos: nat): (r: Result<Parsed<Annotation>>)
    ensures r.Ok? ==> pos + 4 <= r.value.next <= |buf|
    decreases |buf| - pos, 4, 0
  {
    var ty :- ReadUInt16(buf, pos);
    var n :- ReadUInt16(buf, ty.next);
    var pairs :- ParseElementValuePairs(buf, n.next, n.item as nat);
    Ok(Parsed(Annotation(ty.item, pairs.item), pairs.next))
  }

  /** What the tag byte decides in `ElementValue::load`: an index tag reads
      one u16, `e` two, `@` and `[` yield an array, and any other tag fails. */
  lemma {:induction false} ElementValueByTag(buf: seq<uint8>, pos: nat)
    requires pos < |buf|
    ensures var r := ParseElementValue(buf, pos);
      (IsIndexTag(buf[pos]) ==> (r.Ok? <==> pos + 3 <= |buf|)) &&
      (r.Ok? && IsIndexTag(buf[pos]) ==> r.value.next == pos + 3 && r.value.item.value == IndexValue(U16At(buf, pos + 1))) &&
      (TagChar(buf[pos]) == 'e' ==> (r.Ok? <==> pos + 5 <= |buf|)) &&
      (r.Ok? && TagChar(buf[pos]) == 'e' ==> r.value.next == pos + 5 && r.value.item.value.EnumConstValue?) &&
      (r.Ok? && TagChar(buf[pos]) in "@[" ==> r.value.item.value.ArrayValue?) &&
      (!IsKnownTag(buf[pos]) ==> r == Err(InvalidElementValueTag(buf[pos] as int)))
  {
  }

  /** The counts and indices the records read first. */
  lemma {:induction false} RecordHeads(buf: seq<uint8>, pos: nat)
    ensures ParseArrayValue(buf, pos).Ok? ==> |ParseArrayValue(buf, pos).value.item.values| == U16At(buf, pos) as nat
    ensures ParseElementValuePair(buf, pos).Ok? ==> ParseElementValuePair(buf, pos).value.item.elementNameIndex == U16At(buf, pos)
    ensures ParseAnnotation(buf, pos).Ok? ==>
      ParseAnnotation(buf, pos).value.item.typeIndex == U16At(buf, pos) &&
      |ParseAnnotation(buf, pos).value.item.elementValuePairs| == U16At(buf, pos + 2) as nat
  {
  }

  // ---- Lists of annotations ----

  /** A u16 count, then that many annotations: the body of
      `Runtime(In)VisibleAnnotationsAttribute::load` and of
      `ParameterAnnotation::load`. */
  function ParseAnnotations(buf: seq<uint8>, pos: nat): (r: Result<Parsed<seq<Annotation>>>)
    ensures r.Ok? ==> pos + 2 <= r.value.next <= |buf|
    ensures r.Ok? ==> |r.value.item| == U16At(buf, pos) as nat
    ensures r == ParseCounted(buf, pos, ParseAnnotation)
  {
    var n :- ReadUInt16(buf, pos);
    ReadList(buf, n.next, n.item as nat, ParseAnnotation)
  }

  /** `ParameterAnnotation::load`: one parameter's u16-counted annotations. */
  function ParseParameterAnnotation(buf: seq<uint8>, pos: nat): (r: Result<Parsed<ParameterAnnotation>>)
    ensures r.Ok? ==> pos + 2 <= r.value.next <= |buf|
    ensures r.Ok? ==> |r.value.item.annotations| == U16At(buf, pos) as nat
    ensures r.Ok? ==> ParseAnnotations(buf, pos) == Ok(Parsed(r.value.item.annotations, r.value.next))
    ensures r.Err? ==> ParseAnnotations(buf, pos) == Err(r.error)
  {
    var anns :- ParseAnnotations(buf, pos);
    Ok(Parsed(ParameterAnnotation(anns.item), anns.next))
  }

  /** A u8 count, then that many parameter annotations: the body of
      `Runtime(In)VisibleParameterAnnotationsAttribute::load`. */
  function ParseParameterAnnotations(buf: seq<uint8>, pos: nat): (r: Result<Parsed<seq<ParameterAnnotation>>>)
    ensures r.Ok? ==> pos + 1 <= r.value.next <= |buf|
    ensures r.Ok? ==> |r.value.item| == buf[pos] as nat
    ensures pos + 1 <= |buf| ==> r == ReadList(buf, pos + 1, buf[pos] as nat, ParseParameterAnnotation)
    ensures pos + 1 > |buf| ==> r == Err(OutOfBounds(pos, 1))
  {
    var n :- ReadUInt8(buf, pos);
    ReadList(buf, n.next, n.item as nat, ParseParameterAnnotation)
  }

  // ---- Type annotations ----

  /** The target types with a `case` in `TypeAnnotation::load`. */
  predicate KnownTargetType(t: uint8)
  {
    t <= 0x01 || 0x10 <= t <= 0x17 || 0x40 <= t <= 0x4b
  }

  /** The target kind each accepted target type selects. */
  predicate TargetFor(t: uint8, target: TargetInfo)
  {
    match target
    case TypeParameterTarget(_) => t <= 0x01
    case SupertypeTarget(_) => t == 0x10
    case TypeParameterBoundTarget(_, _) => t == 0x11 || t == 0x12
    case EmptyTarget => 0x13 <= t <= 0x15
    case FormalParameterTarget(_) => t == 0x16
    case ThrowsTarget(_) => t == 0x17
    case LocalvarTarget(_) => t == 0x40 || t == 0x41
    case CatchTarget(_) => t == 0x42
    case OffsetTarget(_) => 0x43 <= t <= 0x46
    case TypeArgumentTarget(_, _) => 0x47 <= t <= 0x4b
  }

  /** `Localvar::load`, one 6-byte row of a localvar target's table. */
  function LocalvarRow(buf: seq<uint8>, p: nat): Localvar
  {
    Localvar(U16At(buf, p), U16At(buf, p + 2), U16At(buf, p + 4))
  }

  /** `LocalvarTarget::load`: a u16 count, then that many 6-byte rows. */
  function ParseLocalvarTarget(buf: seq<uint8>, pos: nat): (r: Result<Parsed<TargetInfo>>)
    ensures r.Ok? <==> pos + 2 <= |buf| && RowStart(pos + 2, U16At(buf, pos) as nat, 6) <= |buf|
    ensures r.Ok? ==> r.value.item.LocalvarTarget? && |r.value.item.table| == U16At(buf, pos) as nat
    ensures r.Ok? ==> r.value.next == RowStart(pos + 2, U16At(buf, pos) as nat, 6)
    ensures r.Ok? ==> forall i :: 0 <= i < |r.value.item.table| ==>
      RowStart(pos + 2, i, 6) + 6 <= |buf| &&
      r.value.item.table[i] == LocalvarRow(buf, RowStart(pos + 2, i, 6))
  {
    var n :- ReadUInt16(buf, pos);
    var rows :- ReadRows(buf, n.next, n.item as nat, 6, LocalvarRow);
    Ok(Parsed(LocalvarTarget(rows.item), rows.next))
  }

  /** The fields of `target` are the bytes at `pos`, as the class-file
      format lays out each kind of target: u1 indices, u2 indices, and for
      a localvar target a u2 count of 6-byte rows.  A type-argument target
      holds its offset; its `typeArgumentIndex` is 0, since its loader does
      not read that byte. */
  predicate TargetAt(target: TargetInfo, buf: seq<uint8>, pos: nat)
  {
    match target
    case TypeParameterTarget(i) => i == U8At(buf, pos)
    case SupertypeTarget(i) => i == U16At(buf, pos)
    case TypeParameterBoundTarget(i, b) => i == U8At(buf, pos) && b == U8At(buf, pos + 1)
    case EmptyTarget => true
    case FormalParameterTarget(i) => i == U8At(buf, pos)
    case ThrowsTarget(i) => i == U16At(buf, pos)
    case LocalvarTarget(table) =>
      |table| == U16At(buf, pos) as nat &&
      forall i :: 0 <= i < |table| ==> table[i] == LocalvarRow(buf, RowStart(pos + 2, i, 6))
    case CatchTarget(i) => i == U16At(buf, pos)
    case OffsetTarget(o) => o == U16At(buf, pos)
    case TypeArgumentTarget(o, a) => o == U16At(buf, pos) && a == 0
  }

  /** The `switch` of `TypeAnnotation::load` and the selected target's loader. */
  function ParseTargetInfo(t: uint8, buf: seq<uint8>, pos: nat): (r: Result<Parsed<TargetInfo>>)
    ensures !KnownTargetType(t) ==> r == Err(InvalidTargetType(t as int))
    ensures r.Ok? ==> TargetFor(t, r.value.item) && pos <= r.value.next
    ensures pos <= |buf| ==> Advanced(r, pos, |buf|)
    ensures r.Ok? && !r.value.item.LocalvarTarget? ==> r.value.next == pos + TargetSize(r.value.item)
    ensures r.Ok? ==> TargetAt(r.value.item, buf, pos)
    ensures KnownTargetType(t) && !(t == 0x40 || t == 0x41) && pos <= |buf| ==>
      (r.Ok? <==> pos + FixedTargetSize(t) <= |buf|)
  {
    if t <= 0x01 then
      var i :- ReadUInt8(buf, pos);
      Ok(Parsed(TypeParameterTarget(i.item), i.next))
    else if t == 0x10 then
      var i :- ReadUInt16(buf, pos);
      Ok(Parsed(SupertypeTarget(i.item), i.next))
    else if t == 0x11 || t == 0x12 then
      var i :- ReadUInt8(buf, pos);
      var b :- ReadUInt8(buf, i.next);
      Ok(Parsed(TypeParameterBoundTarget(i.item, b.item), b.next))
    else if 0x13 <= t <= 0x15 then
      Ok(Parsed(EmptyTarget, pos))
    else if t == 0x16 then
      var i :- ReadUInt8(buf, pos);
      Ok(Parsed(FormalParameterTarget(i.item), i.next))
    else if t == 0x17 then
      var i :- ReadUInt16(buf, pos);
      Ok(Parsed(ThrowsTarget(i.item), i.next))
    else if t == 0x40 || t == 0x41 then
      ParseLocalvarTarget(buf, pos)
    else if t == 0x42 then
      var i :- ReadUInt16(buf, pos);
      Ok(Parsed(CatchTarget(i.item), i.next))
    else if 0x43 <= t <= 0x46 then
      var o :- ReadUInt16(buf, pos);
      Ok(Parsed(OffsetTarget(o.item), o.next))
    else if 0x47 <= t <= 0x4b then
      // only the offset is read; type_argument_index stays in the buffer
      var o :- ReadUInt16(buf, pos);
      Ok(Parsed(TypeArgumentTarget(o.item, 0), o.next))
    else
      Err(InvalidTargetType(t as int))
  }

  /** Bytes the loader of a target type other than localvar reads. */
  function FixedTargetSize(t: uint8): nat
  {
    if t <= 0x01 || t == 0x16 then 1
    else if 0x13 <= t <= 0x15 then 0
    else 2
  }

  /** Bytes a fixed-size target occupies, as its loader reads it. */
  function TargetSize(target: TargetInfo): nat
  {
    match target
    case TypeParameterTarget(_) => 1
    case SupertypeTarget(_) => 2
    case TypeParameterBoundTarget(_, _) => 2
    case EmptyTarget => 0
    case FormalParameterTarget(_) => 1
    case ThrowsTarget(_) => 2
    case LocalvarTarget(table) => 2 + 6 * |table|
    case CatchTarget(_) => 2
    case OffsetTarget(_) => 2
    case TypeArgumentTarget(_, _) => 2
  }

  /** `Path::load`, one 2-byte entry of a type path. */
  function PathRow(buf: seq<uint8>, p: nat): Path
  {
    Path(U8At(buf, p), U8At(buf, p + 1))
  }

  /** `TypePath::load`: a u8 count, then that many 2-byte entries. */
  function ParseTypePath(buf: seq<uint8>, pos: nat): (r: Result<Parsed<seq<Path>>>)
    ensures r.Ok? <==> pos < |buf| && RowStart(pos + 1, buf[pos] as nat, 2) <= |buf|
    ensures r.Ok? ==> |r.value.item| == buf[pos] as nat && r.value.next == RowStart(pos + 1, buf[pos] as nat, 2)
    ensures r.Ok? ==> forall i :: 0 <= i < |r.value.item| ==>
      RowStart(pos + 1, i, 2) + 2 <= |buf| &&
      r.value.item[i] == Path(buf[RowStart(pos + 1, i, 2)], buf[RowStart(pos + 1, i, 2) + 1])
  {
    var n :- ReadUInt8(buf, pos);
    var rows :- ReadRows(buf, n.next, n.item as nat, 2, PathRow);
    Ok(Parsed(rows.item, rows.next))
  }

  /** `TypeAnnotation::load`: target type, target, type path, type index,
      then u16-counted element/value pairs. */
  function ParseTypeAnnotation(buf: seq<uint8>, pos: nat): (r: Result<Parsed<TypeAnnotation>>)
    ensures pos < |buf| && !KnownTargetType(buf[pos]) ==> r == Err(InvalidTargetType(buf[pos] as int))
    ensures r.Ok? ==> pos + 6 <= r.value.next <= |buf|
    ensures r.Ok? ==> r.value.item.targetType == buf[pos] && TargetFor(buf[pos], r.value.item.targetInfo)
    ensures r.Ok? ==>
      var target := ParseTargetInfo(buf[pos], buf, pos + 1);
      target.Ok? && target.value.item == r.value.item.targetInfo &&
      var path := ParseTypePath(buf, target.value.next);
      path.Ok? && path.value.item == r.value.item.typePath &&
      var q := path.value.next;
      q + 4 <= |buf| && r.value.item.typeIndex == U16At(buf, q) &&
      |r.value.item.elementValuePairs| == U16At(buf, q + 2) as nat &&
      ParseElementValuePairs(buf, q + 4, U16At(buf, q + 2) as nat) ==
        Ok(Parsed(r.value.item.elementValuePairs, r.value.next))
  {
    var t :- ReadUInt8(buf, pos);
    var target :- ParseTargetInfo(t.item, buf, t.next);
    var path :- ParseTypePath(buf, target.next);
    var ty :- ReadUInt16(buf, path.next);
    var n :- ReadUInt16(buf, ty.next);
    var pairs :- ParseElementValuePairs(buf, n.next, n.item as nat);
    Ok(Parsed(TypeAnnotation(t.item, target.item, path.item, ty.item, pairs.item), pairs.next))
  }

  /** A u16 count, then that many type annotations: the body of
      `Runtime(In)VisibleTypeAnnotationsAttribute::load`. */
  function ParseTypeAnnotations(buf: seq<uint8>, pos: nat): (r: Result<Parsed<seq<TypeAnnotation>>>)
    ensures r.Ok? ==> pos + 2 <= r.value.next <= |buf|
    ensures r.Ok? ==> |r.value.item| == U16At(buf, pos) as nat
    ensures r == ParseCounted(buf, pos, ParseTypeAnnotation)
  {
    var n :- ReadUInt16(buf, pos);
    ReadList(buf, n.next, n.item as nat, ParseTypeAnnotation)
  }

  // ---- Encoding: the layout the decoders read ----

  /** Values the decoder can reproduce: the tag selects the item's kind,
      arrays hold fewer than 65536 values, and no `AnnotationValue` occurs,
      since the `@` case never yields one. */
  predicate WellFormedValue(v: ElementValue)
  {
    match v.value
    case IndexValue(_) => IsIndexTag(v.tag)
    case EnumConstValue(_, _) => TagChar(v.tag) == 'e'
    case AnnotationValue(_) => false
    case ArrayValue(vs) => TagChar(v.tag) == '[' && |vs| < 0x1_0000 && WellFormedValues(vs)
  }

  predicate WellFormedValues(vs: seq<ElementValue>)
  {
    vs == [] || (WellFormedValue(vs[0]) && WellFormedValues(vs[1..]))
  }

  predicate WellFormedPairs(ps: seq<ElementValuePair>)
  {
    ps == [] || (WellFormedValue(ps[0].value) && WellFormedPairs(ps[1..]))
  }

  predicate WellFormedAnnotation(a: Annotation)
  {
    |a.elementValuePairs| < 0x1_0000 && WellFormedPairs(a.elementValuePairs)
  }

  function EncodeElementValue(v: ElementValue): seq<uint8>
  {
    [v.tag] + EncodeItem(v.value)
  }

  function EncodeItem(item: ElementValueItem): seq<uint8>
  {
    match item
    case IndexValue(i) => EncodeUInt16(i)
    case EnumConstValue(t, c) => EncodeUInt16(t) + EncodeUInt16(c)
    case AnnotationValue(a) => EncodeAnnotation(a)
    case ArrayValue(vs) => EncodeUInt16(Count16(|vs|)) + EncodeElementValues(vs)
  }

  function EncodeElementValues(vs: seq<ElementValue>): seq<uint8>
  {
    if vs == [] then [] else EncodeElementValue(vs[0]) + EncodeElementValues(vs[1..])
  }

  function EncodeAnnotation(a: Annotation): seq<uint8>
  {
    EncodeUInt16(a.typeIndex) + EncodeUInt16(Count16(|a.elementValuePairs|)) + EncodePairs(a.elementValuePairs)
  }

  function EncodePair(p: ElementValuePair): seq<uint8>
  {
    EncodeUInt16(p.elementNameIndex) + EncodeElementValue(p.value)
  }

  function EncodePairs(ps: seq<ElementValuePair>): seq<uint8>
  {
    if ps == [] then [] else EncodePair(ps[0]) + EncodePairs(ps[1..])
  }

  // ---- Round trips ----

  /** A well-formed element value, wherever it sits in the buffer, decodes
      to itself and the cursor lands just after its encoding. */
  lemma {:induction false} ElementValueAt(buf: seq<uint8>, pos: nat, v: ElementValue)
    requires WellFormedValue(v) && At(buf, pos, EncodeElementValue(v))
    ensures ParseElementValue(buf, pos) == Ok(Parsed(v, pos + |EncodeElementValue(v)|))
    decreases v, 0
  {
    AtSplit(buf, pos, [v.tag], EncodeItem(v.value));
    ReadUInt8At(buf, pos, v.tag);
    match v.value
    case IndexValue(i) =>
      ReadUInt16At(buf, pos + 1, i);
    case EnumConstValue(t, c) =>
      AtSplit(buf, pos + 1, EncodeUInt16(t), EncodeUInt16(c));
      ReadUInt16At(buf, pos + 1, t);
      ReadUInt16At(buf, pos + 3, c);
    case ArrayValue(vs) =>
      ArrayValueAt(buf, pos + 1, vs);
  }

  lemma {:induction false} ArrayValueAt(buf: seq<uint8>, pos: nat, vs: seq<ElementValue>)
    requires |vs| < 0x1_0000 && WellFormedValues(vs)
    requires At(buf, pos, EncodeUInt16(Count16(|vs|)) + EncodeElementValues(vs))
    ensures ParseArrayValue(buf, pos) == Ok(Parsed(ArrayValue(vs), pos + 2 + |EncodeElementValues(vs)|))
    decreases vs, 1
  {
    AtSplit(buf, pos, EncodeUInt16(Count16(|vs|)), EncodeElementValues(vs));
    ReadUInt16At(buf, pos, Count16(|vs|));
    ElementValuesAt(buf, pos + 2, vs);
  }

  lemma {:induction false} ElementValuesAt(buf: seq<uint8>, pos: nat, vs: seq<ElementValue>)
    requires WellFormedValues(vs) && At(buf, pos, EncodeElementValues(vs))
    ensures ParseElementValues(buf, pos, |vs|) == Ok(Parsed(vs, pos + |EncodeElementValues(vs)|))
    decreases vs, 0
  {
    if vs != [] {
      var next := pos + |EncodeElementValue(vs[0])|;
      AtSplit(buf, pos, EncodeElementValue(vs[0]), EncodeElementValues(vs[1..]));
      ElementValueAt(buf, pos, vs[0]);
      ElementValuesAt(buf, next, vs[1..]);
      ValuesCons(buf, pos, vs[0], vs[1..], next, next + |EncodeElementValues(vs[1..])|);
      assert [vs[0]] + vs[1..] == vs;
    }
  }

  /** One more value in front of a decoded run of values. */
  lemma {:induction false} ValuesCons(buf: seq<uint8>, pos: nat, v: ElementValue, vs: seq<ElementValue>, mid: nat, next: nat)
    requires ParseElementValue(buf, pos) == Ok(Parsed(v, mid))
    requires ParseElementValues(buf, mid, |vs|) == Ok(Parsed(vs, next))
    ensures ParseElementValues(buf, pos, |vs| + 1) == Ok(Parsed([v] + vs, next))
  {
  }

  lemma {:induction false} PairAt(buf: seq<uint8>, pos: nat, p: ElementValuePair)
    requires WellFormedValue(p.value) && At(buf, pos, EncodePair(p))
    ensures ParseElementValuePair(buf, pos) == Ok(Parsed(p, pos + |EncodePair(p)|))
  {
    AtSplit(buf, pos, EncodeUInt16(p.elementNameIndex), EncodeElementValue(p.value));
    ReadUInt16At(buf, pos, p.elementNameIndex);
    ElementValueAt(buf, pos + 2, p.value);
  }

  lemma {:induction false} PairsAt(buf: seq<uint8>, pos: nat, ps: seq<ElementValuePair>)
    requires WellFormedPairs(ps) && At(buf, pos, EncodePairs(ps))
    ensures ParseElementValuePairs(buf, pos, |ps|) == Ok(Parsed(ps, pos + |EncodePairs(ps)|))
    decreases ps
  {
    if ps != [] {
      var next := pos + |EncodePair(ps[0])|;
      AtSplit(buf, pos, EncodePair(ps[0]), EncodePairs(ps[1..]));
      PairAt(buf, pos, ps[0]);
      PairsAt(buf, next, ps[1..]);
      PairsCons(buf, pos, ps[0], ps[1..], next, next + |EncodePairs(ps[1..])|);
      assert [ps[0]] + ps[1..] == ps;
    }
  }

  /** One more pair in front of a decoded run of pairs. */
  lemma {:induction false} PairsCons(buf: seq<uint8>, pos: nat, p: ElementValuePair, ps: seq<ElementValuePair>, mid: nat, next: nat)
    requires ParseElementValuePair(buf, pos) == Ok(Parsed(p, mid))
    requires ParseElementValuePairs(buf, mid, |ps|) == Ok(Parsed(ps, next))
    ensures ParseElementValuePairs(buf, pos, |ps| + 1) == Ok(Parsed([p] + ps, next))
  {
  }

  /** A well-formed annotation decodes to itself. */
  lemma {:induction false} AnnotationAt(buf: seq<uint8>, pos: nat, a: Annotation)
    requires WellFormedAnnotation(a) && At(buf, pos, EncodeAnnotation(a))
    ensures ParseAnnotation(buf, pos) == Ok(Parsed(a, pos + |EncodeAnnotation(a)|))
  {
    var n := Count16(|a.elementValuePairs|);
    AtSplit(buf, pos, EncodeUInt16(a.typeIndex) + EncodeUInt16(n), EncodePairs(a.elementValuePairs));
    AtSplit(buf, pos, EncodeUInt16(a.typeIndex), EncodeUInt16(n));
    ReadUInt16At(buf, pos, a.typeIndex);
    ReadUInt16At(buf, pos + 2, n);
    PairsAt(buf, pos + 4, a.elementValuePairs);
  }

  /** Whole-buffer form of the element value round trip. */
  lemma {:induction false} ElementValueRoundTrip(v: ElementValue, rest: seq<uint8>)
    requires WellFormedValue(v)
    ensures ParseElementValue(EncodeElementValue(v) + rest, 0) == Ok(Parsed(v, |EncodeElementValue(v)|))
  {
    AtConcat([], EncodeElementValue(v), rest);
    assert [] + EncodeElementValue(v) + rest == EncodeElementValue(v) + rest;
    ElementValueAt(EncodeElementValue(v) + rest, 0, v);
  }

  // ---- The `@` case ----

  /** Tag 0x40 is `@`.  Its case loads the annotation and then goes on into
      the `[` case: the bytes after the annotation are read as an array, the
      value becomes that array and the annotation is lost. */
  lemma {:induction false} AnnotationTagReadsArray(buf: seq<uint8>, pos: nat, a: Annotation, vs: seq<ElementValue>)
    requires WellFormedAnnotation(a) && |vs| < 0x1_0000 && WellFormedValues(vs)
    requires At(buf, pos, [0x40]) && At(buf, pos + 1, EncodeAnnotation(a))
    requires At(buf, pos + 1 + |EncodeAnnotation(a)|, EncodeUInt16(Count16(|vs|)) + EncodeElementValues(vs))
    ensures ParseElementValue(buf, pos) ==
            Ok(Parsed(ElementValue(0x40, ArrayValue(vs)), pos + 1 + |EncodeAnnotation(a)| + 2 + |EncodeElementValues(vs)|))
  {
    var annEnd := pos + 1 + |EncodeAnnotation(a)|;
    ReadUInt8At(buf, pos, 0x40);
    AnnotationAt(buf, pos + 1, a);
    ArrayValueAt(buf, annEnd, vs);
    AnnotationCaseReads(buf, pos, a, annEnd, ArrayValue(vs), annEnd + 2 + |EncodeElementValues(vs)|);
  }

  /** The `@` case's steps, each already known to succeed. */
  lemma {:induction false} AnnotationCaseReads(buf: seq<uint8>, pos: nat, a: Annotation, annEnd: nat, arr: ElementValueItem, next: nat)
    requires ReadUInt8(buf, pos) == Ok(Parsed(0x40, pos + 1))
    requires ParseAnnotation(buf, pos + 1) == Ok(Parsed(a, annEnd))
    requires ParseArrayValue(buf, annEnd) == Ok(Parsed(arr, next))
    ensures ParseElementValue(buf, pos) == Ok(Parsed(ElementValue(0x40, arr), next))
  {
    assert TagChar(0x40) == '@';
  }

  /** An element value laid out as the class-file format defines `@`, the tag
      followed by the annotation alone, is rejected when nothing follows it. */
  lemma {:induction false} AnnotationTagAloneFails(a: Annotation)
    requires WellFormedAnnotation(a)
    ensures ParseElementValue([0x40] + EncodeAnnotation(a), 0) == Err(OutOfBounds(1 + |EncodeAnnotation(a)|, 2))
  {
    var buf := [0x40] + EncodeAnnotation(a);
    AtConcat([0x40], EncodeAnnotation(a), []);
    assert [0x40] + EncodeAnnotation(a) + [] == buf;
    ReadUInt8At(buf, 0, 0x40);
    assert TagChar(0x40) == '@';
    AnnotationAt(buf, 1, a);
  }

  // ---- Lists of annotations: the round trip ----

  /** The bytes `ParseAnnotations` reads: a u16 count, then the annotations. */
  function EncodeCountedAnnotations(anns: seq<Annotation>): seq<uint8>
  {
    EncodeUInt16(Count16(|anns|)) + Concat(EncodeAnnotation, anns)
  }

  predicate WellFormedAnnotations(anns: seq<Annotation>)
  {
    |anns| < 0x1_0000 && forall a | a in anns :: WellFormedAnnotation(a)
  }

  /** Consecutive well-formed annotations decode, one after another, to themselves. */
  lemma {:induction false} AnnotationListAt(buf: seq<uint8>, pos: nat, anns: seq<Annotation>)
    requires (forall a | a in anns :: WellFormedAnnotation(a)) && At(buf, pos, Concat(EncodeAnnotation, anns))
    ensures ReadList(buf, pos, |anns|, ParseAnnotation) == Ok(Parsed(anns, pos + |Concat(EncodeAnnotation, anns)|))
  {
    AnnotationsReadBack(buf, anns);
    AnnotationReadListAt(buf, pos, anns);
  }

  lemma {:induction false} AnnotationReadListAt(buf: seq<uint8>, pos: nat, anns: seq<Annotation>)
    requires ReadsBack(buf, ParseAnnotation, EncodeAnnotation, anns) && At(buf, pos, Concat(EncodeAnnotation, anns))
    ensures ReadList(buf, pos, |anns|, ParseAnnotation) == Ok(Parsed(anns, pos + |Concat(EncodeAnnotation, anns)|))
  {
    ReadListAt(buf, pos, anns, ParseAnnotation, EncodeAnnotation);
  }

  /** Each well-formed annotation reads back wherever it sits. */
  lemma {:induction false} AnnotationsReadBack(buf: seq<uint8>, anns: seq<Annotation>)
    requires forall a | a in anns :: WellFormedAnnotation(a)
    ensures ReadsBack(buf, ParseAnnotation, EncodeAnnotation, anns)
  {
    forall p: nat, i | 0 <= i < |anns|
      ensures ReadsBackAt(buf, ParseAnnotation, EncodeAnnotation, anns[i], p)
    {
      if At(buf, p, EncodeAnnotation(anns[i])) {
        AnnotationAt(buf, p, anns[i]);
      }
    }
  }

  /** Round trip of a u16-counted annotation list, the payload of
      Runtime(In)VisibleAnnotations. */
  lemma {:induction false} AnnotationsAt(buf: seq<uint8>, pos: nat, anns: seq<Annotation>)
    requires WellFormedAnnotations(anns) && At(buf, pos, EncodeCountedAnnotations(anns))
    ensures ParseAnnotations(buf, pos) == Ok(Parsed(anns, pos + |EncodeCountedAnnotations(anns)|))
  {
    AtSplit(buf, pos, EncodeUInt16(Count16(|anns|)), Concat(EncodeAnnotation, anns));
    ReadUInt16At(buf, pos, Count16(|anns|));
    AnnotationListAt(buf, pos + 2, anns);
    Count16Small(|anns|);
    assert ParseAnnotations(buf, pos) == ReadList(buf, pos + 2, |anns|, ParseAnnotation);
  }

  /** The bytes `ParseParameterAnnotation` reads: the parameter's u16-counted annotations. */
  function EncodeParameterAnnotation(p: ParameterAnnotation): seq<uint8>
  {
    EncodeCountedAnnotations(p.annotations)
  }

  /** Round trip of one parameter's entry: its u16-counted annotations. */
  lemma {:induction false} ParameterAnnotationAt(buf: seq<uint8>, pos: nat, p: ParameterAnnotation)
    requires WellFormedAnnotations(p.annotations) && At(buf, pos, EncodeParameterAnnotation(p))
    ensures ParseParameterAnnotation(buf, pos) == Ok(Parsed(p, pos + |EncodeParameterAnnotation(p)|))
  {
    AnnotationsAt(buf, pos, p.annotations);
  }

  /** Round trip of the entries of a Runtime(In)VisibleParameterAnnotations
      table: consecutive parameter entries decode, one after another, to
      themselves (`ParseParameterAnnotations` reads them after its u8 count). */
  lemma {:induction false} ParameterListAt(buf: seq<uint8>, pos: nat, ps: seq<ParameterAnnotation>)
    requires (forall p | p in ps :: WellFormedAnnotations(p.annotations)) && At(buf, pos, Concat(EncodeParameterAnnotation, ps))
    ensures ReadList(buf, pos, |ps|, ParseParameterAnnotation) == Ok(Parsed(ps, pos + |Concat(EncodeParameterAnnotation, ps)|))
  {
    ParametersReadBack(buf, ps);
    ParameterReadListAt(buf, pos, ps);
  }

  lemma {:induction false} ParameterReadListAt(buf: seq<uint8>, pos: nat, ps: seq<ParameterAnnotation>)
    requires ReadsBack(buf, ParseParameterAnnotation, EncodeParameterAnnotation, ps)
    requires At(buf, pos, Concat(EncodeParameterAnnotation, ps))
    ensures ReadList(buf, pos, |ps|, ParseParameterAnnotation) == Ok(Parsed(ps, pos + |Concat(EncodeParameterAnnotation, ps)|))
  {
    ReadListAt(buf, pos, ps, ParseParameterAnnotation, EncodeParameterAnnotation);
  }

  /** Each well-formed parameter entry reads back wherever it sits. */
  lemma {:induction false} ParametersReadBack(buf: seq<uint8>, ps: seq<ParameterAnnotation>)
    requires forall p | p in ps :: WellFormedAnnotations(p.annotations)
    ensures ReadsBack(buf, ParseParameterAnnotation, EncodeParameterAnnotation, ps)
  {
    forall p: nat, i | 0 <= i < |ps|
      ensures ReadsBackAt(buf, ParseParameterAnnotation, EncodeParameterAnnotation, ps[i], p)
    {
      if At(buf, p, EncodeParameterAnnotation(ps[i])) {
        ParameterAnnotationAt(buf, p, ps[i]);
      }
    }
  }
}
