/** The class file as a whole: `ClassFile::load` and its stages, the
    constant-pool table loop with its two-slot rule for Long and Double,
    and the class access-flag string.

    `ParseClassFile` is the decode as a function of the bytes; the
    `ClassFile` class holds the fields the C++ object fills in place, and
    its loaders are proved to leave exactly that decode in them. */
module ClassFileDecoder {
  import opened DecodeResult
  import opened ByteReader
  import opened ConstantPoolDecoder
  import opened AttributeDecoder
  import opened MemberDecoder

  /** `ClassFile::MAGIC`.  `load` never compares the magic it reads with it. */
  const MAGIC: uint32 := 0xcafebabe

  const ACC_PUBLIC: uint16 := 0x0001
  const ACC_FINAL: uint16 := 0x0010
  const ACC_SUPER: uint16 := 0x0020
  const ACC_INTERFACE: uint16 := 0x0200
  const ACC_ABSTRACT: uint16 := 0x0400
  /** Spelled as in the source, which also prints it this way. */
  const ACC_SYSTHETIC: uint16 := 0x1000
  const ACC_ANNOTATION: uint16 := 0x2000
  const ACC_ENUM: uint16 := 0x4000
  const ACC_MODULE: uint16 := 0x8000

  // ---------------------------------------------------------------------
  // The constant-pool table
  // ---------------------------------------------------------------------

  /** Long and Double entries take two slots of the table. */
  predicate IsWide(tag: uint8) {
    tag == CONSTANT_Long || tag == CONSTANT_Double
  }

  /** What `loadConstantPool` pushes for one entry: the entry, and a null
      slot after it when it is wide. */
  function EntrySlots(e: CPInfo): (s: ConstantPool)
    ensures |s| == (if IsWide(e.tag) then 2 else 1)
  {
    if IsWide(e.tag) then [Some(e), None] else [Some(e)]
  }

  /** The logical index after `index += step` on the source's `uint16_t`. */
  function NextIndex(index: uint16, step: nat): (k: uint16)
    ensures index as int + step < 0x1_0000 ==> k as int == index as int + step
  {
    ((index as int + step) % 0x1_0000) as uint16
  }

  /** The slots the table loop pushes while its logical `index` is below
      `count`; the index advances by the number of slots just pushed. */
  function ParsePoolSlots(buf: seq<uint8>, pos: nat, index: uint16, count: uint16): (r: Result<Parsed<ConstantPool>>)
    ensures pos <= |buf| ==> Advanced(r, pos, |buf|)
    ensures index >= count ==> r == Ok(Parsed([], pos))
    ensures index < count && ParseCPInfo(buf, pos).Err? ==> r == Err(ParseCPInfo(buf, pos).error)
    decreases |buf| - pos
  {
    if index >= count then Ok(Parsed([], pos))
    else
      var e :- ParseCPInfo(buf, pos);
      var slots := EntrySlots(e.item);
      var rest :- ParsePoolSlots(buf, e.next, NextIndex(index, |slots|), count);
      Ok(Parsed(slots + rest.item, rest.next))
  }

  /** `loadConstantPool`: the null placeholder in slot 0, then the slots of
      the entries from logical index 1. */
  function ParseConstantPool(buf: seq<uint8>, pos: nat, count: uint16): (r: Result<Parsed<ConstantPool>>)
    ensures r.Ok? <==> ParsePoolSlots(buf, pos, 1, count).Ok?
    ensures r.Ok? ==> r.value.item == [None] + ParsePoolSlots(buf, pos, 1, count).value.item
    ensures r.Err? ==> r.error == ParsePoolSlots(buf, pos, 1, count).error
  {
    Prepend([None], ParsePoolSlots(buf, pos, 1, count))
  }

  /** Slot `i` holds a Long or Double entry. */
  predicate WideAt(s: ConstantPool, i: int) {
    0 <= i < |s| && s[i].Some? && IsWide(s[i].value.tag)
  }

  /** The slot discipline of the table loop: the first slot is an entry,
      a slot is null exactly when the slot before it is wide, and the last
      slot is never wide (its null partner always follows it). */
  predicate SlotsLaidOut(s: ConstantPool) {
    (|s| > 0 ==> s[0].Some?) &&
    (forall i :: 0 < i < |s| ==> (s[i].None? <==> WideAt(s, i - 1))) &&
    !WideAt(s, |s| - 1)
  }

  /** Every entry in the table was decoded from one of the 17 known tags
      into the shape that tag selects. */
  predicate EntriesDecoded(s: ConstantPool) {
    forall i :: 0 <= i < |s| && s[i].Some? ==>
      s[i].value.tag in ValidTags && KindFor(s[i].value.tag, s[i].value.info)
  }

  /** The whole table: the placeholder, then the slot discipline. */
  predicate PoolLaidOut(p: ConstantPool) {
    |p| > 0 && p[0].None? && SlotsLaidOut(p[1..]) && EntriesDecoded(p)
  }

  lemma {:induction false} EntrySlotsLaidOut(e: CPInfo, t: ConstantPool)
    requires SlotsLaidOut(t)
    requires !IsWide(e.tag) ==> |t| == 0 || t[0].Some?
    ensures SlotsLaidOut(EntrySlots(e) + t)
  {
    var h := EntrySlots(e);
    var s := h + t;
    forall i | 0 < i < |s|
      ensures s[i].None? <==> WideAt(s, i - 1)
    {
      if i >= |h| + 1 {
        assert s[i] == t[i - |h|] && s[i - 1] == t[i - 1 - |h|];
        assert WideAt(s, i - 1) <==> WideAt(t, i - 1 - |h|);
      }
    }
    if |t| > 0 {
      assert s[|s| - 1] == t[|t| - 1];
    }
  }

  lemma {:induction false} EntrySlotsDecoded(e: CPInfo, t: ConstantPool)
    requires e.tag in ValidTags && KindFor(e.tag, e.info)
    requires EntriesDecoded(t)
    ensures EntriesDecoded(EntrySlots(e) + t)
  {
    var h := EntrySlots(e);
    forall i | 0 <= i < |h + t| && (h + t)[i].Some?
      ensures (h + t)[i].value.tag in ValidTags && KindFor((h + t)[i].value.tag, (h + t)[i].value.info)
    {
      if i >= |h| {
        assert (h + t)[i] == t[i - |h|];
      }
    }
  }

  /** The table loop keeps the slot discipline, and each slot it fills
      holds a decoded entry. */
  lemma {:induction false} PoolSlotsLaidOut(buf: seq<uint8>, pos: nat, index: uint16, count: uint16)
    ensures var r := ParsePoolSlots(buf, pos, index, count);
      r.Ok? ==> SlotsLaidOut(r.value.item) && EntriesDecoded(r.value.item)
    decreases |buf| - pos
  {
    if index < count {
      var e := ParseCPInfo(buf, pos);
      if e.Ok? {
        var slots := EntrySlots(e.value.item);
        var k := NextIndex(index, |slots|);
        var rest := ParsePoolSlots(buf, e.value.next, k, count);
        if rest.Ok? {
          PoolSlotsLaidOut(buf, e.value.next, k, count);
          if k < count && !IsWide(e.value.item.tag) && |rest.value.item| > 0 {
            assert rest.value.item[0].Some?;
          }
          EntrySlotsLaidOut(e.value.item, rest.value.item);
          EntrySlotsDecoded(e.value.item, rest.value.item);
        }
      }
    }
  }

  /** Slot 0 is null, every other slot is null exactly when a Long or
      Double sits right before it, and all entries are decoded ones. */
  lemma {:induction false} ConstantPoolLaidOut(buf: seq<uint8>, pos: nat, count: uint16)
    ensures var r := ParseConstantPool(buf, pos, count);
      r.Ok? ==> PoolLaidOut(r.value.item)
  {
    var s := ParsePoolSlots(buf, pos, 1, count);
    if s.Ok? {
      PoolSlotsLaidOut(buf, pos, 1, count);
      var p := [None] + s.value.item;
      assert p[1..] == s.value.item;
      forall i | 0 <= i < |p| && p[i].Some?
        ensures p[i].value.tag in ValidTags && KindFor(p[i].value.tag, p[i].value.info)
      {
        assert p[i] == s.value.item[i - 1];
      }
    }
  }

  /** Slot `i` of the table is logical index `i`: the loop stops once the
      slots reach `count`, or one past it when the last entry is wide and
      starts at logical index `count - 1`.  (Without the 16-bit wrap, that
      is for `count < 0xFFFF`.) */
  lemma {:induction false} PoolSlotsCount(buf: seq<uint8>, pos: nat, index: uint16, count: uint16)
    requires index <= count < 0xFFFF
    ensures var r := ParsePoolSlots(buf, pos, index, count);
      r.Ok? ==>
        index as int + |r.value.item| == count as int ||
        (index as int + |r.value.item| == count as int + 1 && WideAt(r.value.item, |r.value.item| - 2))
    decreases |buf| - pos
  {
    if index < count {
      var e := ParseCPInfo(buf, pos);
      if e.Ok? {
        var slots := EntrySlots(e.value.item);
        var k := NextIndex(index, |slots|);
        var rest := ParsePoolSlots(buf, e.value.next, k, count);
        if rest.Ok? {
          var s := slots + rest.value.item;
          if k < count {
            PoolSlotsCount(buf, e.value.next, k, count);
            if index as int + |s| == count as int + 1 {
              assert s[|s| - 2] == rest.value.item[|rest.value.item| - 2];
            }
          } else {
            assert rest.value.item == [];
            assert s == slots;
          }
        }
      }
    }
  }

  /** The table has `constant_pool_count` slots (one, the placeholder, for
      a count of 0), or one more when a Long or Double is the entry at
      index `count - 1`. */
  lemma {:induction false} ConstantPoolSize(buf: seq<uint8>, pos: nat, count: uint16)
    requires count < 0xFFFF
    ensures var r := ParseConstantPool(buf, pos, count);
      r.Ok? ==>
        (count == 0 ==> |r.value.item| == 1) &&
        (count > 0 ==> |r.value.item| == count as int ||
                       (|r.value.item| == count as int + 1 && WideAt(r.value.item, count as int - 1)))
  {
    if count > 0 {
      PoolSlotsCount(buf, pos, 1, count);
      var s := ParsePoolSlots(buf, pos, 1, count);
      if s.Ok? && |s.value.item| == count as int {
        var p := [None] + s.value.item;
        assert p[count as int - 1] == s.value.item[count as int - 2];
      }
    }
  }

  /** The source's logical index is a `uint16_t`: with a declared count of
      0xFFFF and a Long or Double at index 0xFFFE, `index += 2` wraps to 0
      and the loop goes on decoding entries from index 0 again. */
  lemma {:induction false} PoolIndexWraps(buf: seq<uint8>, pos: nat, e: Parsed<CPInfo>)
    requires ParseCPInfo(buf, pos) == Ok(e) && IsWide(e.item.tag)
    ensures ParsePoolSlots(buf, pos, 0xFFFE, 0xFFFF) ==
            Prepend([Some(e.item), None], ParsePoolSlots(buf, e.next, 0, 0xFFFF))
  {
    assert NextIndex(0xFFFE, 2) == 0;
  }

  /** One pass of the table loop, as the loop's invariant needs it. */
  lemma {:induction false} PoolSlotsStep(buf: seq<uint8>, pos: nat, index: uint16, count: uint16,
                                         done: ConstantPool, e: Parsed<CPInfo>)
    requires index < count && ParseCPInfo(buf, pos) == Ok(e)
    ensures Prepend(done, ParsePoolSlots(buf, pos, index, count)) ==
            Prepend(done + EntrySlots(e.item),
                    ParsePoolSlots(buf, e.next, NextIndex(index, |EntrySlots(e.item)|), count))
  {
    PrependPrepend(done, EntrySlots(e.item),
                   ParsePoolSlots(buf, e.next, NextIndex(index, |EntrySlots(e.item)|), count));
  }

  /** When the logical index reaches the count, the slots pushed so far
      after the placeholder are the whole pool. */
  lemma PoolFinished(buf: seq<uint8>, pos: nat, count: uint16, done: ConstantPool, p: nat, index: uint16)
    requires index >= count
    requires Prepend(done, ParsePoolSlots(buf, p, index, count)) == ParsePoolSlots(buf, pos, 1, count)
    ensures ParseConstantPool(buf, pos, count) == Ok(Parsed([None] + done, p))
  {
    assert done + [] == done;
  }

  // ---------------------------------------------------------------------
  // The whole class file
  // ---------------------------------------------------------------------

  /** The four header fields `ClassFile::load` reads before the pool. */
  datatype Header = Header(
    magic: uint32,
    minorVersion: uint16,
    majorVersion: uint16,
    constantPoolCount: uint16)

  /** magic, minor_version, major_version and constant_pool_count. */
  function ParseHeader(buf: seq<uint8>): (r: Result<Parsed<Header>>)
    ensures r.Ok? <==> 10 <= |buf|
    ensures r.Ok? ==>
      r.value.next == 10 &&
      r.value.item == Header(U32At(buf, 0), U16At(buf, 4), U16At(buf, 6), U16At(buf, 8))
    ensures r.Err? ==> r.error.OutOfBounds?
  {
    var magic :- ReadUInt32(buf, 0);
    var minor :- ReadUInt16(buf, magic.next);
    var major :- ReadUInt16(buf, minor.next);
    var count :- ReadUInt16(buf, major.next);
    Ok(Parsed(Header(magic.item, minor.item, major.item, count.item), count.next))
  }

  /** What `ClassFile::load` reads after the pool. */
  datatype ClassBody = ClassBody(
    accessFlags: uint16,
    thisClass: uint16,
    superClass: uint16,
    interfaces: seq<uint16>,
    fields: seq<MemberInfo>,
    methods: seq<MemberInfo>,
    attributes: seq<AttributeInfo>)

  /** access_flags, this_class, super_class, the interface table, then
      the field, method and attribute tables, each record decoded by
      `decodeMember` or `decodeAttribute` where the previous one ended. */
  function ParseClassBody(buf: seq<uint8>, pos: nat, decodeMember: Decoder<MemberInfo>,
                          decodeAttribute: Decoder<AttributeInfo>): (r: Result<Parsed<ClassBody>>)
    ensures r.Ok? ==>
      pos + 6 <= |buf| &&
      r.value.item.accessFlags == U16At(buf, pos) &&
      r.value.item.thisClass == U16At(buf, pos + 2) &&
      r.value.item.superClass == U16At(buf, pos + 4)
    ensures r.Ok? ==>
      |r.value.item.interfaces| < 0x1_0000 && |r.value.item.fields| < 0x1_0000 &&
      |r.value.item.methods| < 0x1_0000 && |r.value.item.attributes| < 0x1_0000
    ensures pos + 6 > |buf| ==> r.Err? && r.error.OutOfBounds?
  {
    var accessFlags :- ReadUInt16(buf, pos);
    var thisClass :- ReadUInt16(buf, accessFlags.next);
    var superClass :- ReadUInt16(buf, thisClass.next);
    var interfaces :- ParseCounted(buf, superClass.next, U16Parser());
    var fields :- ParseCounted(buf, interfaces.next, decodeMember);
    var methods :- ParseCounted(buf, fields.next, decodeMember);
    var attributes :- ParseCounted(buf, methods.next, decodeAttribute);
    Ok(Parsed(ClassBody(accessFlags.item, thisClass.item, superClass.item,
                        interfaces.item, fields.item, methods.item, attributes.item),
              attributes.next))
  }

  /** Everything `ClassFile::load` stores.  `constantPool` holds the slots
      this load pushed (its slot 0 is the placeholder). */
  datatype ClassFileData = ClassFileData(
    magic: uint32,
    minorVersion: uint16,
    majorVersion: uint16,
    constantPoolCount: uint16,
    constantPool: ConstantPool,
    accessFlags: uint16,
    thisClass: uint16,
    superClass: uint16,
    interfaces: seq<uint16>,
    fields: seq<MemberInfo>,
    methods: seq<MemberInfo>,
    attributes: seq<AttributeInfo>)

  /** `ClassFile::load` on the bytes `buf` of the file, into an object
      whose constant pool already holds `prior` (empty for a fresh object),
      with the record decoders given as functions of the pool.  Fields,
      methods and attributes are decoded against the whole pool, `prior`
      first; the stages run in the source's order and the first failing
      one aborts the load. */
  function ParseClassFileWith(prior: ConstantPool, buf: seq<uint8>,
                              decodeMember: ConstantPool -> Decoder<MemberInfo>,
                              decodeAttribute: ConstantPool -> Decoder<AttributeInfo>): (r: Result<ClassFileData>)
    ensures r.Ok? ==>
      r.value.magic == U32At(buf, 0) && r.value.minorVersion == U16At(buf, 4) &&
      r.value.majorVersion == U16At(buf, 6) && r.value.constantPoolCount == U16At(buf, 8)
    ensures r.Ok? ==>
      10 <= |buf| && ParseConstantPool(buf, 10, U16At(buf, 8)).Ok? &&
      r.value.constantPool == ParseConstantPool(buf, 10, U16At(buf, 8)).value.item
    ensures r.Ok? ==>
      |r.value.interfaces| < 0x1_0000 && |r.value.fields| < 0x1_0000 &&
      |r.value.methods| < 0x1_0000 && |r.value.attributes| < 0x1_0000
    ensures |buf| < 10 ==> r.Err? && r.error.OutOfBounds?
    ensures 10 <= |buf| && ParseConstantPool(buf, 10, U16At(buf, 8)).Err? ==>
      r == Err(ParseConstantPool(buf, 10, U16At(buf, 8)).error)
  {
    var header :- ParseHeader(buf);
    var pool :- ParseConstantPool(buf, header.next, header.item.constantPoolCount);
    var cp := prior + pool.item;
    var body :- ParseClassBody(buf, pool.next, decodeMember(cp), decodeAttribute(cp));
    Ok(ClassFileData(header.item.magic, header.item.minorVersion, header.item.majorVersion,
                     header.item.constantPoolCount, pool.item,
                     body.item.accessFlags, body.item.thisClass, body.item.superClass,
                     body.item.interfaces, body.item.fields, body.item.methods, body.item.attributes))
  }

  /** `ClassFile::load` with its own record decoders: `FieldInfo::load` and
      `MethodInfo::load` for fields and methods, `AttributeInfo::load` for
      the class attributes, all of them against the pool as loaded so far.
      Once the header and the pool are read, the load fails exactly when
      the body fails, with its error; otherwise it stores the body. */
  function ParseClassFile(prior: ConstantPool, buf: seq<uint8>): (r: Result<ClassFileData>)
    ensures var pool := ParseConstantPool(buf, 10, U16At(buf, 8));
      10 <= |buf| && pool.Ok? ==>
        (var cp := prior + pool.value.item;
         var body := ParseClassBody(buf, pool.value.next, MemberParser(cp), AttributeParser(cp));
         (body.Err? ==> r == Err(body.error)) &&
         (body.Ok? ==>
           r.Ok? && r.value.constantPool == pool.value.item &&
           r.value.accessFlags == body.value.item.accessFlags &&
           r.value.thisClass == body.value.item.thisClass &&
           r.value.superClass == body.value.item.superClass &&
           r.value.interfaces == body.value.item.interfaces &&
           r.value.fields == body.value.item.fields &&
           r.value.methods == body.value.item.methods &&
           r.value.attributes == body.value.item.attributes))
  {
    ParseClassFileWith(prior, buf, MemberParser, AttributeParser)
  }

  /** After super_class the body reads, in order, the interface indices,
      the fields, the methods and the attributes, each a u16 count and
      that many records starting where the previous list ended; the first
      list that fails fails the body with its error. */
  lemma {:induction false} ClassBodyStages(buf: seq<uint8>, pos: nat, decodeMember: Decoder<MemberInfo>,
                                           decodeAttribute: Decoder<AttributeInfo>)
    ensures var r := ParseClassBody(buf, pos, decodeMember, decodeAttribute);
      pos + 6 <= |buf| ==>
        (var i := ParseIndexTable(buf, pos + 6);
         (i.Err? ==> r == Err(i.error)) &&
         (i.Ok? ==>
           (var f := ParseCounted(buf, i.value.next, decodeMember);
            (f.Err? ==> r == Err(f.error)) &&
            (f.Ok? ==>
              (var m := ParseCounted(buf, f.value.next, decodeMember);
               (m.Err? ==> r == Err(m.error)) &&
               (m.Ok? ==>
                 (var a := ParseCounted(buf, m.value.next, decodeAttribute);
                  (a.Err? ==> r == Err(a.error)) &&
                  (a.Ok? ==>
                    r == Ok(Parsed(ClassBody(U16At(buf, pos), U16At(buf, pos + 2), U16At(buf, pos + 4),
                                             i.value.item, f.value.item, m.value.item, a.value.item),
                                   a.value.next))))))))))
  {
    if pos + 6 <= |buf| {
      ClassInterfacesAreTable(buf, pos + 6);
      assert ReadUInt16(buf, pos) == Ok(Parsed(U16At(buf, pos), pos + 2));
      assert ReadUInt16(buf, pos + 2) == Ok(Parsed(U16At(buf, pos + 2), pos + 4));
      assert ReadUInt16(buf, pos + 4) == Ok(Parsed(U16At(buf, pos + 4), pos + 6));
    }
  }

  /** The class attribute table is read as `FieldInfo::load` and
      `MethodInfo::load` read theirs: a u16 count, then that many attributes. */
  lemma {:induction false} ClassAttributesAreTable(pool: ConstantPool, buf: seq<uint8>, pos: nat)
    ensures ParseCounted(buf, pos, AttributeParser(pool)) == ParseAttributeTable(pool, buf, pos)
  {
    if pos + 2 <= |buf| {
      AttributesAreList(pool, buf, pos + 2, U16At(buf, pos) as nat);
    }
  }

  /** The class's interface table, read one index at a time, is the
      u16-counted row of indices. */
  lemma ClassInterfacesAreTable(buf: seq<uint8>, pos: nat)
    ensures ParseCounted(buf, pos, U16Parser()) == ParseIndexTable(buf, pos)
  {
    if pos + 2 <= |buf| {
      IndicesAreList(buf, pos + 2, U16At(buf, pos) as nat);
    }
  }

  /** A decoded class file's table obeys the slot discipline. */
  lemma {:induction false} ClassFilePoolLaidOut(prior: ConstantPool, buf: seq<uint8>)
    ensures var r := ParseClassFile(prior, buf);
      r.Ok? ==> PoolLaidOut(r.value.constantPool)
  {
    if 10 <= |buf| {
      ConstantPoolLaidOut(buf, 10, U16At(buf, 8));
    }
  }

  /** Every list the load fills came with a u16 count, so the accessors'
      16-bit counts are the true sizes. */
  lemma {:induction false} ClassFileCountsFit(prior: ConstantPool, buf: seq<uint8>)
    ensures var r := ParseClassFile(prior, buf);
      r.Ok? ==>
        |r.value.interfaces| < 0x1_0000 && |r.value.fields| < 0x1_0000 &&
        |r.value.methods| < 0x1_0000 && |r.value.attributes| < 0x1_0000
  {
  }

  /** Twenty-four zero bytes are a class file: magic 0, an empty pool and
      empty lists.  The magic is stored, never checked. */
  lemma ZeroBytesDecode()
    ensures var r := ParseClassFile([], seq(24, _ => 0 as uint8));
      r.Ok? && r.value.magic == 0 && r.value.magic != MAGIC && r.value.constantPool == [None]
  {
    var buf := seq(24, _ => 0 as uint8);
    assert U32At(buf, 0) == 0 by { U32AtIsBigEndian(buf, 0); }
    forall i: nat | i + 2 <= 24 ensures U16At(buf, i) == 0 {
      U16AtIsBigEndian(buf, i);
    }
    var placeholder: ConstantPool := [None];
    assert placeholder + [] == placeholder;
    assert ParseConstantPool(buf, 10, 0) == Ok(Parsed([None], 10));
    assert ParseCounted(buf, 16, U16Parser()) == Ok(Parsed([], 18));
    assert ParseCounted(buf, 18, MemberParser([None])) == Ok(Parsed([], 20));
    assert ParseCounted(buf, 20, MemberParser([None])) == Ok(Parsed([], 22));
    assert ParseCounted(buf, 22, AttributeParser([None])) == Ok(Parsed([], 24));
  }

  // ---------------------------------------------------------------------
  // The class access-flag string
  // ---------------------------------------------------------------------

  /** The bit is set in the flags (`flags & bit` is non-zero). */
  predicate HasFlag(flags: uint16, bit: uint16) {
    (flags as bv16) & (bit as bv16) != 0
  }

  /** The name `getAccessFlagsStr` contributes for `bit`: `name` when the
      bit is set, nothing otherwise. */
  function Named(flags: uint16, bit: uint16, name: string): seq<string> {
    if HasFlag(flags, bit) then [name] else []
  }

  /** The names of the set flags, in the order `getAccessFlagsStr` tests them. */
  function FlagNames(flags: uint16): seq<string> {
    Named(flags, ACC_PUBLIC, "ACC_PUBLIC") +
    Named(flags, ACC_FINAL, "ACC_FINAL") +
    Named(flags, ACC_SUPER, "ACC_SUPER") +
    Named(flags, ACC_INTERFACE, "ACC_INTERFACE") +
    Named(flags, ACC_ABSTRACT, "ACC_ABSTRACT") +
    Named(flags, ACC_SYSTHETIC, "ACC_SYSTHETIC") +
    Named(flags, ACC_ANNOTATION, "ACC_ANNOTATION") +
    Named(flags, ACC_ENUM, "ACC_ENUM") +
    Named(flags, ACC_MODULE, "ACC_MODULE")
  }

  /** The names separated by `|`. */
  function Join(names: seq<string>): string {
    if |names| == 0 then ""
    else if |names| == 1 then names[0]
    else Join(names[..|names| - 1]) + "|" + names[|names| - 1]
  }

  /** `getAccessFlagsStr`: the names of the set flags, in the fixed order,
      joined by `|`. */
  function FlagsString(flags: uint16): string {
    Join(FlagNames(flags))
  }

  /** Each name followed by `|`: what the appends build before `pop_back`. */
  function Terminated(names: seq<string>): string {
    if |names| == 0 then "" else Terminated(names[..|names| - 1]) + names[|names| - 1] + "|"
  }

  /** Appending `"|"` after each name and dropping the last character is
      joining with `|`. */
  lemma {:induction false} TerminatedIsJoin(names: seq<string>)
    requires names != []
    ensures Terminated(names) == Join(names) + "|"
    decreases |names|
  {
    if |names| > 1 {
      TerminatedIsJoin(names[..|names| - 1]);
    } else {
      assert names[..0] == [];
    }
  }

  /** One `if` of `getAccessFlagsStr`. */
  lemma {:induction false} FlagStep(flags: uint16, before: seq<string>, bit: uint16, name: string)
    ensures Terminated(before + Named(flags, bit, name)) ==
      Terminated(before) + (if HasFlag(flags, bit) then name + "|" else "")
  {
    if HasFlag(flags, bit) {
      assert (before + [name])[..|before|] == before;
    } else {
      assert before + [] == before;
    }
  }

  /** The nine tests of `getAccessFlagsStr` together test the bits of 0xF631. */
  lemma {:induction false} FlagMask(flags: uint16)
    ensures (flags as bv16) & 0xF631 == 0 <==> !HasFlag(flags, ACC_PUBLIC) && !HasFlag(flags, ACC_FINAL) && !HasFlag(flags, ACC_SUPER) && !HasFlag(flags, ACC_INTERFACE) && !HasFlag(flags, ACC_ABSTRACT) && !HasFlag(flags, ACC_SYSTHETIC) && !HasFlag(flags, ACC_ANNOTATION) && !HasFlag(flags, ACC_ENUM) && !HasFlag(flags, ACC_MODULE)
  {
  }

  /** None of the names is empty or contains `|`. */
  predicate PlainNames(names: seq<string>) {
    forall i :: 0 <= i < |names| ==> |names[i]| > 0 && '|' !in names[i]
  }

  lemma {:induction false} PlainConcat(a: seq<string>, b: seq<string>)
    requires PlainNames(a) && PlainNames(b)
    ensures PlainNames(a + b)
  {
    forall i | 0 <= i < |a + b| ensures |(a + b)[i]| > 0 && '|' !in (a + b)[i] {
      if i >= |a| {
        assert (a + b)[i] == b[i - |a|];
      }
    }
  }

  lemma {:induction false} NamedPlain(flags: uint16, bit: uint16, name: string)
    requires |name| > 0 && '|' !in name
    ensures PlainNames(Named(flags, bit, name))
  {
  }

  lemma {:induction false} FlagNamesPlain(flags: uint16)
    ensures PlainNames(FlagNames(flags))
  {
    NamedPlain(flags, ACC_PUBLIC, "ACC_PUBLIC");
    NamedPlain(flags, ACC_FINAL, "ACC_FINAL");
    NamedPlain(flags, ACC_SUPER, "ACC_SUPER");
    NamedPlain(flags, ACC_INTERFACE, "ACC_INTERFACE");
    NamedPlain(flags, ACC_ABSTRACT, "ACC_ABSTRACT");
    NamedPlain(flags, ACC_SYSTHETIC, "ACC_SYSTHETIC");
    NamedPlain(flags, ACC_ANNOTATION, "ACC_ANNOTATION");
    NamedPlain(flags, ACC_ENUM, "ACC_ENUM");
    NamedPlain(flags, ACC_MODULE, "ACC_MODULE");
    PlainConcat(Named(flags, ACC_PUBLIC, "ACC_PUBLIC"), Named(flags, ACC_FINAL, "ACC_FINAL"));
    PlainConcat(Named(flags, ACC_PUBLIC, "ACC_PUBLIC") + Named(flags, ACC_FINAL, "ACC_FINAL"), Named(flags, ACC_SUPER, "ACC_SUPER"));
    PlainConcat(Named(flags, ACC_PUBLIC, "ACC_PUBLIC") + Named(flags, ACC_FINAL, "ACC_FINAL") + Named(flags, ACC_SUPER, "ACC_SUPER"), Named(flags, ACC_INTERFACE, "ACC_INTERFACE"));
    PlainConcat(Named(flags, ACC_PUBLIC, "ACC_PUBLIC") + Named(flags, ACC_FINAL, "ACC_FINAL") + Named(flags, ACC_SUPER, "ACC_SUPER") + Named(flags, ACC_INTERFACE, "ACC_INTERFACE"), Named(flags, ACC_ABSTRACT, "ACC_ABSTRACT"));
    PlainConcat(Named(flags, ACC_PUBLIC, "ACC_PUBLIC") + Named(flags, ACC_FINAL, "ACC_FINAL") + Named(flags, ACC_SUPER, "ACC_SUPER") + Named(flags, ACC_INTERFACE, "ACC_INTERFACE") + Named(flags, ACC_ABSTRACT, "ACC_ABSTRACT"), Named(flags, ACC_SYSTHETIC, "ACC_SYSTHETIC"));
    PlainConcat(Named(flags, ACC_PUBLIC, "ACC_PUBLIC") + Named(flags, ACC_FINAL, "ACC_FINAL") + Named(flags, ACC_SUPER, "ACC_SUPER") + Named(flags, ACC_INTERFACE, "ACC_INTERFACE") + Named(flags, ACC_ABSTRACT, "ACC_ABSTRACT") + Named(flags, ACC_SYSTHETIC, "ACC_SYSTHETIC"), Named(flags, ACC_ANNOTATION, "ACC_ANNOTATION"));
    PlainConcat(Named(flags, ACC_PUBLIC, "ACC_PUBLIC") + Named(flags, ACC_FINAL, "ACC_FINAL") + Named(flags, ACC_SUPER, "ACC_SUPER") + Named(flags, ACC_INTERFACE, "ACC_INTERFACE") + Named(flags, ACC_ABSTRACT, "ACC_ABSTRACT") + Named(flags, ACC_SYSTHETIC, "ACC_SYSTHETIC") + Named(flags, ACC_ANNOTATION, "ACC_ANNOTATION"), Named(flags, ACC_ENUM, "ACC_ENUM"));
    PlainConcat(Named(flags, ACC_PUBLIC, "ACC_PUBLIC") + Named(flags, ACC_FINAL, "ACC_FINAL") + Named(flags, ACC_SUPER, "ACC_SUPER") + Named(flags, ACC_INTERFACE, "ACC_INTERFACE") + Named(flags, ACC_ABSTRACT, "ACC_ABSTRACT") + Named(flags, ACC_SYSTHETIC, "ACC_SYSTHETIC") + Named(flags, ACC_ANNOTATION, "ACC_ANNOTATION") + Named(flags, ACC_ENUM, "ACC_ENUM"), Named(flags, ACC_MODULE, "ACC_MODULE"));
  }

  /** Joining non-empty names gives the empty string only for no names. */
  lemma {:induction false} JoinEmpty(names: seq<string>)
    requires PlainNames(names)
    ensures Join(names) == "" <==> names == []
  {
    if |names| > 1 {
      assert |Join(names)| >= |names[|names| - 1]|;
    }
  }

  /** The string is empty exactly when none of the nine flags is set, that
      is when `flags & 0xF631` is zero. */
  lemma {:induction false} FlagsStringEmpty(flags: uint16)
    ensures FlagsString(flags) == "" <==> (flags as bv16) & 0xF631 == 0
  {
    FlagNamesPlain(flags);
    JoinEmpty(FlagNames(flags));
    FlagMask(flags);
  }

  /** Joining plain names neither starts nor ends with `|`. */
  lemma {:induction false} JoinEnds(names: seq<string>)
    requires PlainNames(names) && names != []
    ensures Join(names)[0] == names[0][0]
    ensures Join(names)[|Join(names)| - 1] == names[|names| - 1][|names[|names| - 1]| - 1]
    decreases |names|
  {
    if |names| > 1 {
      var init := names[..|names| - 1];
      assert PlainNames(init) by {
        forall i | 0 <= i < |init| ensures |init[i]| > 0 && '|' !in init[i] {
          assert init[i] == names[i];
        }
      }
      JoinEnds(init);
      assert names[0] == init[0];
      JoinEmpty(init);
    }
  }

  /** The flag string has no leading and no trailing `|`. */
  lemma {:induction false} FlagsStringNoStraySeparator(flags: uint16)
    ensures var s := FlagsString(flags);
      s != "" ==> s[0] != '|' && s[|s| - 1] != '|'
  {
    var names := FlagNames(flags);
    FlagNamesPlain(flags);
    if names != [] {
      JoinEnds(names);
      var last := names[|names| - 1];
      assert names[0][0] in names[0];
      assert last[|last| - 1] in last;
    }
  }

  /** A name is in the `Named` part exactly when it is that flag's name and the flag is set. */
  lemma {:induction false} InNamed(before: seq<string>, flags: uint16, bit: uint16, name: string, x: string)
    ensures x in before + Named(flags, bit, name) <==> x in before || (x == name && HasFlag(flags, bit))
  {
    assert x in before + Named(flags, bit, name) <==> x in before || x in Named(flags, bit, name);
  }

  /** The listed names are exactly the names of the set flags. */
  lemma {:induction false} FlagListed(flags: uint16, x: string)
    ensures x in FlagNames(flags) <==>
      (x == "ACC_PUBLIC" && HasFlag(flags, ACC_PUBLIC)) ||
      (x == "ACC_FINAL" && HasFlag(flags, ACC_FINAL)) ||
      (x == "ACC_SUPER" && HasFlag(flags, ACC_SUPER)) ||
      (x == "ACC_INTERFACE" && HasFlag(flags, ACC_INTERFACE)) ||
      (x == "ACC_ABSTRACT" && HasFlag(flags, ACC_ABSTRACT)) ||
      (x == "ACC_SYSTHETIC" && HasFlag(flags, ACC_SYSTHETIC)) ||
      (x == "ACC_ANNOTATION" && HasFlag(flags, ACC_ANNOTATION)) ||
      (x == "ACC_ENUM" && HasFlag(flags, ACC_ENUM)) ||
      (x == "ACC_MODULE" && HasFlag(flags, ACC_MODULE))
  {
    assert x in Named(flags, ACC_PUBLIC, "ACC_PUBLIC") <==> x == "ACC_PUBLIC" && HasFlag(flags, ACC_PUBLIC);
    InNamed(Named(flags, ACC_PUBLIC, "ACC_PUBLIC"), flags, ACC_FINAL, "ACC_FINAL", x);
    InNamed(Named(flags, ACC_PUBLIC, "ACC_PUBLIC") + Named(flags, ACC_FINAL, "ACC_FINAL"), flags, ACC_SUPER, "ACC_SUPER", x);
    InNamed(Named(flags, ACC_PUBLIC, "ACC_PUBLIC") + Named(flags, ACC_FINAL, "ACC_FINAL") + Named(flags, ACC_SUPER, "ACC_SUPER"), flags, ACC_INTERFACE, "ACC_INTERFACE", x);
    InNamed(Named(flags, ACC_PUBLIC, "ACC_PUBLIC") + Named(flags, ACC_FINAL, "ACC_FINAL") + Named(flags, ACC_SUPER, "ACC_SUPER") + Named(flags, ACC_INTERFACE, "ACC_INTERFACE"), flags, ACC_ABSTRACT, "ACC_ABSTRACT", x);
    InNamed(Named(flags, ACC_PUBLIC, "ACC_PUBLIC") + Named(flags, ACC_FINAL, "ACC_FINAL") + Named(flags, ACC_SUPER, "ACC_SUPER") + Named(flags, ACC_INTERFACE, "ACC_INTERFACE") + Named(flags, ACC_ABSTRACT, "ACC_ABSTRACT"), flags, ACC_SYSTHETIC, "ACC_SYSTHETIC", x);
    InNamed(Named(flags, ACC_PUBLIC, "ACC_PUBLIC") + Named(flags, ACC_FINAL, "ACC_FINAL") + Named(flags, ACC_SUPER, "ACC_SUPER") + Named(flags, ACC_INTERFACE, "ACC_INTERFACE") + Named(flags, ACC_ABSTRACT, "ACC_ABSTRACT") + Named(flags, ACC_SYSTHETIC, "ACC_SYSTHETIC"), flags, ACC_ANNOTATION, "ACC_ANNOTATION", x);
    InNamed(Named(flags, ACC_PUBLIC, "ACC_PUBLIC") + Named(flags, ACC_FINAL, "ACC_FINAL") + Named(flags, ACC_SUPER, "ACC_SUPER") + Named(flags, ACC_INTERFACE, "ACC_INTERFACE") + Named(flags, ACC_ABSTRACT, "ACC_ABSTRACT") + Named(flags, ACC_SYSTHETIC, "ACC_SYSTHETIC") + Named(flags, ACC_ANNOTATION, "ACC_ANNOTATION"), flags, ACC_ENUM, "ACC_ENUM", x);
    InNamed(Named(flags, ACC_PUBLIC, "ACC_PUBLIC") + Named(flags, ACC_FINAL, "ACC_FINAL") + Named(flags, ACC_SUPER, "ACC_SUPER") + Named(flags, ACC_INTERFACE, "ACC_INTERFACE") + Named(flags, ACC_ABSTRACT, "ACC_ABSTRACT") + Named(flags, ACC_SYSTHETIC, "ACC_SYSTHETIC") + Named(flags, ACC_ANNOTATION, "ACC_ANNOTATION") + Named(flags, ACC_ENUM, "ACC_ENUM"), flags, ACC_MODULE, "ACC_MODULE", x);
  }

  // ---------------------------------------------------------------------
  // The object
  // ---------------------------------------------------------------------

  /** A list record loader for the u16 interface indices. */
  function U16Parser(): (seq<uint8>, nat) -> Result<Parsed<uint16>>
  {
    (b: seq<uint8>, q: nat) => ReadUInt16(b, q)
  }

  /** The interface table read one u16 at a time is the row read. */
  lemma {:induction false} IndicesAreList(buf: seq<uint8>, pos: nat, n: nat)
    ensures ReadUInt16s(buf, pos, n) == ReadList(buf, pos, n, U16Parser())
    decreases n
  {
    if n > 0 {
      assert U16Parser()(buf, pos) == ReadUInt16(buf, pos);
      var rest := ReadRows(buf, pos + 2, n - 1, 2, U16At);
      if pos + 2 <= |buf| {
        IndicesAreList(buf, pos + 2, n - 1);
        assert ReadRows(buf, pos, n, 2, U16At) == Prepend([U16At(buf, pos)], rest);
        ReadListHead(buf, pos, n, U16Parser(), Parsed(U16At(buf, pos), pos + 2));
      }
    } else {
      assert ReadRows(buf, pos, n, 2, U16At) == Ok(Parsed([], pos));
    }
  }

  /** A loader that pushes onto a list ended as the decode `spec` says:
      it fails exactly when `spec` does, with the same error, and on success
      the list grew by the decoded items and `r` is where they ended. */
  ghost predicate Extends<T>(r: Result<nat>, now: seq<T>, before: seq<T>, spec: Result<Parsed<seq<T>>>) {
    (r.Ok? <==> spec.Ok?) &&
    (r.Ok? ==> now == before + spec.value.item && r.value == spec.value.next) &&
    (r.Err? ==> r.error == spec.error)
  }

  /** `ClassFile`: the decoded class, filled in place by `Load`. */
  class ClassFile {
    var magic: uint32
    var minorVersion: uint16
    var majorVersion: uint16
    var constantPoolCount: uint16
    var constantPool: ConstantPool
    var accessFlags: uint16
    var thisClass: uint16
    var superClass: uint16
    var interfaces: seq<uint16>
    var fields: seq<MemberInfo>
    var methods: seq<MemberInfo>
    var attributes: seq<AttributeInfo>

    /** A fresh object: every list empty. */
    constructor()
      ensures constantPool == [] && interfaces == [] && fields == [] && methods == [] && attributes == []
    {
      magic := 0;
      minorVersion := 0;
      majorVersion := 0;
      constantPoolCount := 0;
      constantPool := [];
      accessFlags := 0;
      thisClass := 0;
      superClass := 0;
      interfaces := [];
      fields := [];
      methods := [];
      attributes := [];
    }

    /** The object holds `d` after a load that started from the lists
        `pool0`, `interfaces0`, `fields0`, `methods0` and `attributes0`. */
    predicate Holds(d: ClassFileData, pool0: ConstantPool, interfaces0: seq<uint16>,
                    fields0: seq<MemberInfo>, methods0: seq<MemberInfo>, attributes0: seq<AttributeInfo>)
      reads this
    {
      magic == d.magic && minorVersion == d.minorVersion && majorVersion == d.majorVersion &&
      constantPoolCount == d.constantPoolCount && constantPool == pool0 + d.constantPool &&
      accessFlags == d.accessFlags && thisClass == d.thisClass && superClass == d.superClass &&
      interfaces == interfaces0 + d.interfaces && fields == fields0 + d.fields &&
      methods == methods0 + d.methods && attributes == attributes0 + d.attributes
    }

    /** One entry of `loadConstantPool`'s loop: push it, and a null slot
        after a Long or Double; the 16-bit logical index advances by the
        number of slots pushed. */
    method PushEntry(e: CPInfo, index: uint16) returns (next: uint16)
      modifies this`constantPool
      ensures constantPool == old(constantPool) + EntrySlots(e)
      ensures next == NextIndex(index, |EntrySlots(e)|)
    {
      constantPool := constantPool + [Some(e)];
      if e.tag == CONSTANT_Long || e.tag == CONSTANT_Double {
        constantPool := constantPool + [None];
        next := ((index as int + 2) % 0x1_0000) as uint16;
      } else {
        next := ((index as int + 1) % 0x1_0000) as uint16;
      }
    }

    /** One pass of `loadConstantPool`'s loop: decode the entry at `p`,
        return on failure, push its slots and advance the logical index.
        `done` is what the earlier passes pushed. */
    method LoadPoolEntry(buf: seq<uint8>, p: nat, index: uint16, ghost done: ConstantPool)
      returns (r: Result<Parsed<uint16>>, ghost slots: ConstantPool)
      modifies this`constantPool
      requires index < constantPoolCount
      ensures r.Err? ==> Prepend(done, ParsePoolSlots(buf, p, index, constantPoolCount)) == Err(r.error)
      ensures r.Ok? ==>
        constantPool == old(constantPool) + slots && p < r.value.next &&
        Prepend(done, ParsePoolSlots(buf, p, index, constantPoolCount)) ==
        Prepend(done + slots, ParsePoolSlots(buf, r.value.next, r.value.item, constantPoolCount))
    {
      var e := LoadCPInfo(buf, p);
      if e.Err? {
        return Err(e.error), [];
      }
      PoolSlotsStep(buf, p, index, constantPoolCount, done, e.value);
      var next := PushEntry(e.value.item, index);
      return Ok(Parsed(next, e.value.next)), EntrySlots(e.value.item);
    }

    /** `loadConstantPool`: push the placeholder, then one entry (and a null
        slot after a Long or Double) while the 16-bit logical index is
        below the declared count. */
    method LoadConstantPool(buf: seq<uint8>, pos: nat) returns (r: Result<nat>)
      modifies this`constantPool
      ensures Extends(r, constantPool, old(constantPool), ParseConstantPool(buf, pos, constantPoolCount))
    {
      constantPool := constantPool + [None];
      ghost var start := constantPool;
      ghost var done: ConstantPool := [];
      var index: uint16 := 1;
      var p := pos;
      PrependNothing(ParsePoolSlots(buf, pos, 1, constantPoolCount));
      while index < constantPoolCount
        invariant constantPool == start + done
        invariant Prepend(done, ParsePoolSlots(buf, p, index, constantPoolCount)) ==
                  ParsePoolSlots(buf, pos, 1, constantPoolCount)
        decreases |buf| - p
      {
        var e, slots := LoadPoolEntry(buf, p, index, done);
        if e.Err? {
          assert ParseConstantPool(buf, pos, constantPoolCount) == Err(e.error);
          return Err(e.error);
        }
        AppendAssoc(start, done, slots);
        done := done + slots;
        index := e.value.item;
        p := e.value.next;
      }
      PoolFinished(buf, pos, constantPoolCount, done, p, index);
      AppendAssoc(old(constantPool), [None], done);
      return Ok(p);
    }

    /** The interface loop inside `load`: a u16 count, then that many u16
        indices pushed one by one. */
    method LoadInterfaces(buf: seq<uint8>, pos: nat) returns (r: Result<nat>)
      modifies this`interfaces
      ensures Extends(r, interfaces, old(interfaces), ParseCounted(buf, pos, U16Parser()))
    {
      var count := ReadUInt16(buf, pos);
      if count.Err? {
        return Err(count.error);
      }
      var n := count.value.item;
      var start := count.value.next;
      ghost var done: seq<uint16> := [];
      var p := start;
      var i: uint16 := 0;
      PrependNothing(ReadList(buf, start, n as nat, U16Parser()));
      while i < n
        invariant i <= n
        invariant interfaces == old(interfaces) + done
        invariant Prepend(done, ReadList(buf, p, (n - i) as nat, U16Parser())) == ReadList(buf, start, n as nat, U16Parser())
      {
        var x := ReadUInt16(buf, p);
        assert U16Parser()(buf, p) == x;
        if x.Err? {
          return Err(x.error);
        }
        ReadListStep(buf, p, (n - i) as nat, U16Parser(), done, x.value);
        interfaces := interfaces + [x.value.item];
        done := done + [x.value.item];
        p := x.value.next;
        i := i + 1;
      }
      assert done + [] == done;
      return Ok(p);
    }

    /** `loadFields`: a u16 count, then that many fields, each decoded by
        `decode` where the previous one ended and pushed as soon as it is
        decoded; the first failure aborts.  `Load` passes the `FieldInfo::load`
        decoder bound to the current pool. */
    method LoadFields(buf: seq<uint8>, pos: nat, decode: Decoder<MemberInfo>) returns (r: Result<nat>)
      modifies this`fields
      ensures Extends(r, fields, old(fields), ParseCounted(buf, pos, decode))
    {
      var count := ReadUInt16(buf, pos);
      if count.Err? {
        return Err(count.error);
      }
      var n := count.value.item;
      var start := count.value.next;
      ghost var done: seq<MemberInfo> := [];
      var p := start;
      var i: uint16 := 0;
      PrependNothing(ReadList(buf, start, n as nat, decode));
      while i < n
        invariant i <= n
        invariant fields == old(fields) + done
        invariant Prepend(done, ReadList(buf, p, (n - i) as nat, decode)) == ReadList(buf, start, n as nat, decode)
      {
        var x := decode(buf, p);
        if x.Err? {
          return Err(x.error);
        }
        ReadListStep(buf, p, (n - i) as nat, decode, done, x.value);
        fields := fields + [x.value.item];
        done := done + [x.value.item];
        p := x.value.next;
        i := i + 1;
      }
      assert done + [] == done;
      return Ok(p);
    }

    /** `loadMethods`: a u16 count, then that many methods, each decoded by
        `decode` where the previous one ended and pushed as soon as it is
        decoded; the first failure aborts.  `Load` passes the `MethodInfo::load`
        decoder bound to the current pool. */
    method LoadMethods(buf: seq<uint8>, pos: nat, decode: Decoder<MemberInfo>) returns (r: Result<nat>)
      modifies this`methods
      ensures Extends(r, methods, old(methods), ParseCounted(buf, pos, decode))
    {
      var count := ReadUInt16(buf, pos);
      if count.Err? {
        return Err(count.error);
      }
      var n := count.value.item;
      var start := count.value.next;
      ghost var done: seq<MemberInfo> := [];
      var p := start;
      var i: uint16 := 0;
      PrependNothing(ReadList(buf, start, n as nat, decode));
      while i < n
        invariant i <= n
        invariant methods == old(methods) + done
        invariant Prepend(done, ReadList(buf, p, (n - i) as nat, decode)) == ReadList(buf, start, n as nat, decode)
      {
        var x := decode(buf, p);
        if x.Err? {
          return Err(x.error);
        }
        ReadListStep(buf, p, (n - i) as nat, decode, done, x.value);
        methods := methods + [x.value.item];
        done := done + [x.value.item];
        p := x.value.next;
        i := i + 1;
      }
      assert done + [] == done;
      return Ok(p);
    }

    /** `loadAttributes`: a u16 count, then that many attributes, each decoded by
        `decode` where the previous one ended and pushed as soon as it is
        decoded; the first failure aborts.  `Load` passes the `AttributeInfo::load`
        decoder bound to the current pool. */
    method LoadAttributes(buf: seq<uint8>, pos: nat, decode: Decoder<AttributeInfo>) returns (r: Result<nat>)
      modifies this`attributes
      ensures Extends(r, attributes, old(attributes), ParseCounted(buf, pos, decode))
    {
      var count := ReadUInt16(buf, pos);
      if count.Err? {
        return Err(count.error);
      }
      var n := count.value.item;
      var start := count.value.next;
      ghost var done: seq<AttributeInfo> := [];
      var p := start;
      var i: uint16 := 0;
      PrependNothing(ReadList(buf, start, n as nat, decode));
      while i < n
        invariant i <= n
        invariant attributes == old(attributes) + done
        invariant Prepend(done, ReadList(buf, p, (n - i) as nat, decode)) == ReadList(buf, start, n as nat, decode)
      {
        var x := decode(buf, p);
        if x.Err? {
          return Err(x.error);
        }
        ReadListStep(buf, p, (n - i) as nat, decode, done, x.value);
        attributes := attributes + [x.value.item];
        done := done + [x.value.item];
        p := x.value.next;
        i := i + 1;
      }
      assert done + [] == done;
      return Ok(p);
    }

    /** The four header reads at the start of `load`. */
    method LoadHeader(buf: seq<uint8>) returns (r: Result<nat>)
      modifies this`magic, this`minorVersion, this`majorVersion, this`constantPoolCount
      ensures var h := ParseHeader(buf);
        (r.Ok? <==> h.Ok?) && (r.Err? ==> r.error == h.error) &&
        (r.Ok? ==> r.value == h.value.next &&
                   Header(magic, minorVersion, majorVersion, constantPoolCount) == h.value.item)
    {
      var m := ReadUInt32(buf, 0);
      if m.Err? {
        return Err(m.error);
      }
      magic := m.value.item;
      var minor := ReadUInt16(buf, m.value.next);
      if minor.Err? {
        return Err(minor.error);
      }
      minorVersion := minor.value.item;
      var major := ReadUInt16(buf, minor.value.next);
      if major.Err? {
        return Err(major.error);
      }
      majorVersion := major.value.item;
      var count := ReadUInt16(buf, major.value.next);
      if count.Err? {
        return Err(count.error);
      }
      constantPoolCount := count.value.item;
      return Ok(count.value.next);
    }

    /** The start of `load`: the header, then `loadConstantPool` with the
        declared count; the new pool slots obey the slot discipline. */
    method LoadPrefix(buf: seq<uint8>) returns (r: Result<nat>)
      modifies this`magic, this`minorVersion, this`majorVersion, this`constantPoolCount, this`constantPool
      ensures ParseHeader(buf).Err? ==> r == Err(ParseHeader(buf).error)
      ensures ParseHeader(buf).Ok? ==>
        Header(magic, minorVersion, majorVersion, constantPoolCount) == ParseHeader(buf).value.item &&
        Extends(r, constantPool, old(constantPool), ParseConstantPool(buf, 10, constantPoolCount))
      ensures r.Ok? ==> PoolLaidOut(constantPool[|old(constantPool)|..])
    {
      r := LoadHeader(buf);
      if r.Err? {
        return;
      }
      r := LoadConstantPool(buf, r.value);
      if r.Ok? {
        ConstantPoolLaidOut(buf, 10, constantPoolCount);
        assert constantPool[|old(constantPool)|..] == ParseConstantPool(buf, 10, constantPoolCount).value.item;
      }
    }

    /** The object holds the body `b` after a load that started from the
        lists `interfaces0`, `fields0`, `methods0` and `attributes0`. */
    predicate HoldsBody(b: ClassBody, interfaces0: seq<uint16>, fields0: seq<MemberInfo>,
                        methods0: seq<MemberInfo>, attributes0: seq<AttributeInfo>)
      reads this
    {
      accessFlags == b.accessFlags && thisClass == b.thisClass && superClass == b.superClass &&
      interfaces == interfaces0 + b.interfaces && fields == fields0 + b.fields &&
      methods == methods0 + b.methods && attributes == attributes0 + b.attributes
    }

    /** The part of `load` after the pool: the three class indices, the
        interface loop, then `loadFields`, `loadMethods` and
        `loadAttributes` with the given record decoders. */
    method LoadBody(buf: seq<uint8>, pos: nat, decodeMember: Decoder<MemberInfo>,
                    decodeAttribute: Decoder<AttributeInfo>) returns (r: Result<nat>)
      modifies this`accessFlags, this`thisClass, this`superClass, this`interfaces,
        this`fields, this`methods, this`attributes
      ensures var b := ParseClassBody(buf, pos, decodeMember, decodeAttribute);
        (r.Ok? <==> b.Ok?) && (r.Err? ==> r.error == b.error) &&
        (r.Ok? ==> r.value == b.value.next &&
                   HoldsBody(b.value.item, old(interfaces), old(fields), old(methods), old(attributes)))
    {
      var flags := ReadUInt16(buf, pos);
      if flags.Err? {
        return Err(flags.error);
      }
      accessFlags := flags.value.item;
      var thisIndex := ReadUInt16(buf, flags.value.next);
      if thisIndex.Err? {
        return Err(thisIndex.error);
      }
      thisClass := thisIndex.value.item;
      var superIndex := ReadUInt16(buf, thisIndex.value.next);
      if superIndex.Err? {
        return Err(superIndex.error);
      }
      superClass := superIndex.value.item;
      r := LoadInterfaces(buf, superIndex.value.next);
      if r.Err? {
        return;
      }
      r := LoadFields(buf, r.value, decodeMember);
      if r.Err? {
        return;
      }
      r := LoadMethods(buf, r.value, decodeMember);
      if r.Err? {
        return;
      }
      r := LoadAttributes(buf, r.value, decodeAttribute);
    }

    /** `ClassFile::load` with the record decoders as functions of the
        pool: header, pool, the three class indices, interfaces, fields,
        methods, attributes; the first failing stage makes it fail.  On
        success the object holds exactly the decode of `buf`, appended to
        what it held before, and its new pool slots obey the slot
        discipline. */
    method LoadWith(buf: seq<uint8>, decodeMember: ConstantPool -> Decoder<MemberInfo>,
                    decodeAttribute: ConstantPool -> Decoder<AttributeInfo>) returns (failure: Option<DecodeError>)
      modifies this
      ensures var d := ParseClassFileWith(old(constantPool), buf, decodeMember, decodeAttribute);
        (failure.None? <==> d.Ok?) && (failure.Some? ==> failure.value == d.error) &&
        (failure.None? ==> Holds(d.value, old(constantPool), old(interfaces), old(fields), old(methods), old(attributes)))
      ensures failure.None? ==> PoolLaidOut(constantPool[|old(constantPool)|..])
    {
      var r := LoadPrefix(buf);
      if r.Err? {
        return Some(r.error);
      }
      r := LoadBody(buf, r.value, decodeMember(constantPool), decodeAttribute(constantPool));
      if r.Err? {
        return Some(r.error);
      }
      return None;
    }

    /** `ClassFile::load` on the file's bytes, each field and method decoded
        by `FieldInfo::load` / `MethodInfo::load` and each class attribute
        by `AttributeInfo::load`, all against the pool as loaded so far. */
    method Load(buf: seq<uint8>) returns (failure: Option<DecodeError>)
      modifies this
      ensures var d := ParseClassFile(old(constantPool), buf);
        (failure.None? <==> d.Ok?) && (failure.Some? ==> failure.value == d.error) &&
        (failure.None? ==> Holds(d.value, old(constantPool), old(interfaces), old(fields), old(methods), old(attributes)))
      ensures failure.None? ==> PoolLaidOut(constantPool[|old(constantPool)|..])
    {
      failure := LoadWith(buf, MemberParser, AttributeParser);
    }

    /** One line of `getAccessFlagsStr`: when `bit` is set, append `name`
        and a `|`, so the text stays the terminated list of the names so far. */
    static method AppendIfSet(decoded: string, ghost names: seq<string>, flags: uint16, bit: uint16, name: string) returns (r: string)
      requires decoded == Terminated(names)
      ensures r == Terminated(names + Named(flags, bit, name))
    {
      FlagStep(flags, names, bit, name);
      r := decoded;
      if HasFlag(flags, bit) {
        r := r + name + "|";
      }
    }

    /** `getAccessFlagsStr`: append each set flag's name and a `|`, then
        drop the last character if anything was appended. */
    method AccessFlagsStr() returns (s: string)
      ensures s == FlagsString(accessFlags)
    {
      var decoded := "";
      ghost var names: seq<string> := [];
      decoded := AppendIfSet(decoded, names, accessFlags, ACC_PUBLIC, "ACC_PUBLIC");
      assert names + Named(accessFlags, ACC_PUBLIC, "ACC_PUBLIC") == Named(accessFlags, ACC_PUBLIC, "ACC_PUBLIC");
      names := Named(accessFlags, ACC_PUBLIC, "ACC_PUBLIC");
      decoded := AppendIfSet(decoded, names, accessFlags, ACC_FINAL, "ACC_FINAL");
      names := names + Named(accessFlags, ACC_FINAL, "ACC_FINAL");
      decoded := AppendIfSet(decoded, names, accessFlags, ACC_SUPER, "ACC_SUPER");
      names := names + Named(accessFlags, ACC_SUPER, "ACC_SUPER");
      decoded := AppendIfSet(decoded, names, accessFlags, ACC_INTERFACE, "ACC_INTERFACE");
      names := names + Named(accessFlags, ACC_INTERFACE, "ACC_INTERFACE");
      decoded := AppendIfSet(decoded, names, accessFlags, ACC_ABSTRACT, "ACC_ABSTRACT");
      names := names + Named(accessFlags, ACC_ABSTRACT, "ACC_ABSTRACT");
      decoded := AppendIfSet(decoded, names, accessFlags, ACC_SYSTHETIC, "ACC_SYSTHETIC");
      names := names + Named(accessFlags, ACC_SYSTHETIC, "ACC_SYSTHETIC");
      decoded := AppendIfSet(decoded, names, accessFlags, ACC_ANNOTATION, "ACC_ANNOTATION");
      names := names + Named(accessFlags, ACC_ANNOTATION, "ACC_ANNOTATION");
      decoded := AppendIfSet(decoded, names, accessFlags, ACC_ENUM, "ACC_ENUM");
      names := names + Named(accessFlags, ACC_ENUM, "ACC_ENUM");
      decoded := AppendIfSet(decoded, names, accessFlags, ACC_MODULE, "ACC_MODULE");
      names := names + Named(accessFlags, ACC_MODULE, "ACC_MODULE");
      assert names == FlagNames(accessFlags);
      if names != [] {
        TerminatedIsJoin(names);
      }
      if |decoded| != 0 {
        decoded := decoded[..|decoded| - 1];
      }
      s := decoded;
    }

    /** `getCPAt`: slot `index` of the pool, unchecked in the source.  On a
        pool laid out by the loader, slot 0 and the slot after a Long or
        Double are null, and every other slot holds an entry of the kind its
        tag builds. */
    function CPAt(index: uint16): (r: Option<CPInfo>)
      reads this
      requires index as int < |constantPool|
      ensures PoolLaidOut(constantPool) ==>
        (r.None? <==> index == 0 || WideAt(constantPool, index as int - 1)) &&
        (r.Some? ==> r.value.tag in ValidTags && KindFor(r.value.tag, r.value.info))
    {
      constantPool[index]
    }

    /** `getInterfacesCount`: the list size as a `uint16_t`. */
    function InterfacesCount(): (n: uint16)
      reads this
      ensures |interfaces| < 0x1_0000 ==> n as int == |interfaces|
    {
      Count16(|interfaces|)
    }

    /** `getFieldsCount`: the list size as a `uint16_t`. */
    function FieldsCount(): (n: uint16)
      reads this
      ensures |fields| < 0x1_0000 ==> n as int == |fields|
    {
      Count16(|fields|)
    }

    /** `getMethodsCount`: the list size as a `uint16_t`. */
    function MethodsCount(): (n: uint16)
      reads this
      ensures |methods| < 0x1_0000 ==> n as int == |methods|
    {
      Count16(|methods|)
    }

    /** `getAttributesCount`: the list size as a `uint16_t`. */
    function AttributesCount(): (n: uint16)
      reads this
      ensures |attributes| < 0x1_0000 ==> n as int == |attributes|
    {
      Count16(|attributes|)
    }
  }
}
