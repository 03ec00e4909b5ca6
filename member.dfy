/** Fields and methods: `FieldInfo::load` and `MethodInfo::load`.

    The two loaders are the same code over the same layout (three u16
    header fields, then a u16-counted list of attributes), so one datatype
    and one decoder model both.  The attribute list loop is shared with
    `ClassFile::loadAttributes`. */
module MemberDecoder {
  import opened DecodeResult
  import opened ByteReader
  import opened AttributeDecoder

  /** A `field_info` or `method_info` record. */
  datatype MemberInfo = MemberInfo(
    accessFlags: uint16,
    nameIndex: uint16,
    descriptorIndex: uint16,
    attributes: seq<AttributeInfo>)

  /** A u16 attributes_count, then that many attributes. */
  function ParseAttributeTable(pool: ConstantPool, buf: seq<uint8>, pos: nat): (r: Result<Parsed<seq<AttributeInfo>>>)
    ensures r.Ok? <==> pos + 2 <= |buf| && ParseAttributes(pool, buf, pos + 2, U16At(buf, pos) as nat).Ok?
    ensures r.Ok? ==> ParseAttributes(pool, buf, pos + 2, U16At(buf, pos) as nat) == r
    ensures r.Ok? ==> |r.value.item| == U16At(buf, pos) as nat && pos + 2 <= r.value.next <= |buf|
    ensures pos + 2 > |buf| ==> r == Err(OutOfBounds(pos, 2))
  {
    var count :- ReadUInt16(buf, pos);
    ParseAttributes(pool, buf, count.next, count.item as nat)
  }

  /** `FieldInfo::load` / `MethodInfo::load`: access_flags, name_index and
      descriptor_index, then the attribute table right after them. */
  function ParseMemberInfo(pool: ConstantPool, buf: seq<uint8>, pos: nat): (r: Result<Parsed<MemberInfo>>)
    ensures r.Ok? <==> pos + 6 <= |buf| && ParseAttributeTable(pool, buf, pos + 6).Ok?
    ensures r.Ok? ==>
      r.value.item.accessFlags == U16At(buf, pos) &&
      r.value.item.nameIndex == U16At(buf, pos + 2) &&
      r.value.item.descriptorIndex == U16At(buf, pos + 4) &&
      ParseAttributeTable(pool, buf, pos + 6) == Ok(Parsed(r.value.item.attributes, r.value.next))
    ensures r.Ok? ==> |r.value.item.attributes| == U16At(buf, pos + 6) as nat && pos + 8 <= r.value.next <= |buf|
    ensures pos + 6 <= |buf| && ParseAttributeTable(pool, buf, pos + 6).Err? ==>
      r == Err(ParseAttributeTable(pool, buf, pos + 6).error)
  {
    var accessFlags :- ReadUInt16(buf, pos);
    var nameIndex :- ReadUInt16(buf, accessFlags.next);
    var descriptorIndex :- ReadUInt16(buf, nameIndex.next);
    var attributes :- ParseAttributeTable(pool, buf, descriptorIndex.next);
    Ok(Parsed(MemberInfo(accessFlags.item, nameIndex.item, descriptorIndex.item, attributes.item), attributes.next))
  }

  /** `FieldInfo::load` / `MethodInfo::load` as written: three cursor
      reads, the count, then the loop. */
  method LoadMemberInfo(pool: ConstantPool, buf: seq<uint8>, pos: nat) returns (r: Result<Parsed<MemberInfo>>)
    ensures r == ParseMemberInfo(pool, buf, pos)
  {
    var accessFlags := ReadUInt16(buf, pos);
    if accessFlags.Err? {
      return Err(accessFlags.error);
    }
    var nameIndex := ReadUInt16(buf, accessFlags.value.next);
    if nameIndex.Err? {
      return Err(nameIndex.error);
    }
    var descriptorIndex := ReadUInt16(buf, nameIndex.value.next);
    if descriptorIndex.Err? {
      return Err(descriptorIndex.error);
    }
    var count := ReadUInt16(buf, descriptorIndex.value.next);
    if count.Err? {
      return Err(count.error);
    }
    var attributes := LoadList(buf, count.value.next, count.value.item as nat, AttributeParser(pool));
    AttributesAreList(pool, buf, count.value.next, count.value.item as nat);
    if attributes.Err? {
      return Err(attributes.error);
    }
    var m := MemberInfo(accessFlags.value.item, nameIndex.value.item, descriptorIndex.value.item, attributes.value.item);
    return Ok(Parsed(m, attributes.value.next));
  }

  /** `FieldInfo::load` / `MethodInfo::load` against a fixed pool, as a
      record decoder: what `ClassFile::loadFields` and `ClassFile::loadMethods`
      call for each record. */
  function MemberParser(pool: ConstantPool): (seq<uint8>, nat) -> Result<Parsed<MemberInfo>>
  {
    (b: seq<uint8>, q: nat) => ParseMemberInfo(pool, b, q)
  }
}
