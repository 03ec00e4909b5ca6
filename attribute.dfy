/** Attributes: the `attribute_info` envelope (`AttributeInfo::load`), the
    table of the 28 attribute names it accepts, and the payload loader each
    name selects.

    `Code` holds attributes of its own, so the envelope, the payload
    dispatch, the Code loader and the counted attribute list are mutually
    recursive; every step of that cycle reads bytes before it recurses. */
module AttributeDecoder {
  import opened DecodeResult
  import opened ByteReader
  import opened ConstantPoolDecoder
  import opened StackMapDecoder
  import opened AnnotationDecoder

  /** The constant pool as the class-file loader leaves it: slot 0, and the
      slot after each Long or Double entry, hold no entry. */
  type ConstantPool = seq<Option<CPInfo>>

  // ---- The attribute names ----

  /** `AttributeType`: one variant per accepted attribute name, in the
      order of the enum. */
  datatype AttributeType =
    | ConstantValue | Code | StackMapTable | Exceptions | InnerClasses
    | EnclosingMethod | Synthetic | Signature | SourceFile | SourceDebugExtension
    | LineNumberTable | LocalVariableTable | LocalVariableTypeTable | Deprecated
    | RuntimeVisibleAnnotations | RuntimeInvisibleAnnotations
    | RuntimeVisibleParameterAnnotations | RuntimeInvisibleParameterAnnotations
    | RuntimeVisibleTypeAnnotations | RuntimeInvisibleTypeAnnotations
    | AnnotationDefault | BootstrapMethods | MethodParameters | Module
    | ModulePackages | ModuleMainClass | NestHost | NestMembers

  /** The name that selects each type. */
  function AttributeName(t: AttributeType): string
  {
    match t
    case ConstantValue => "ConstantValue"
    case Code => "Code"
    case StackMapTable => "StackMapTable"
    case Exceptions => "Exceptions"
    case InnerClasses => "InnerClasses"
    case EnclosingMethod => "EnclosingMethod"
    case Synthetic => "Synthetic"
    case Signature => "Signature"
    case SourceFile => "SourceFile"
    case SourceDebugExtension => "SourceDebugExtension"
    case LineNumberTable => "LineNumberTable"
    case LocalVariableTable => "LocalVariableTable"
    case LocalVariableTypeTable => "LocalVariableTypeTable"
    case Deprecated => "Deprecated"
    case RuntimeVisibleAnnotations => "RuntimeVisibleAnnotations"
    case RuntimeInvisibleAnnotations => "RuntimeInvisibleAnnotations"
    case RuntimeVisibleParameterAnnotations => "RuntimeVisibleParameterAnnotations"
    case RuntimeInvisibleParameterAnnotations => "RuntimeInvisibleParameterAnnotations"
    case RuntimeVisibleTypeAnnotations => "RuntimeVisibleTypeAnnotations"
    case RuntimeInvisibleTypeAnnotations => "RuntimeInvisibleTypeAnnotations"
    case AnnotationDefault => "AnnotationDefault"
    case BootstrapMethods => "BootstrapMethods"
    case MethodParameters => "MethodParameters"
    case Module => "Module"
    case ModulePackages => "ModulePackages"
    case ModuleMainClass => "ModuleMainClass"
    case NestHost => "NestHost"
    case NestMembers => "NestMembers"
  }

  /** The types in the order `AttributeInfo::load` tests their names. */
  const AttributeTypes: seq<AttributeType> := [
    ConstantValue, Code, StackMapTable, Exceptions,
    InnerClasses, EnclosingMethod, Synthetic, Signature,
    SourceFile, SourceDebugExtension, LineNumberTable, LocalVariableTable,
    LocalVariableTypeTable, Deprecated, RuntimeVisibleAnnotations, RuntimeInvisibleAnnotations,
    RuntimeVisibleParameterAnnotations, RuntimeInvisibleParameterAnnotations, RuntimeVisibleTypeAnnotations, RuntimeInvisibleTypeAnnotations,
    AnnotationDefault, BootstrapMethods, MethodParameters, Module,
    ModulePackages, ModuleMainClass, NestHost, NestMembers
  ]

  /** The `if`/`else if` chain of `AttributeInfo::load`: the resolved name
      is compared exactly with each known name in turn and the first equal
      one selects the type. */
  function AttributeTypeOf(name: string): (t: Option<AttributeType>)
  {
    FindAttributeType(name, AttributeTypes)
  }

  function FindAttributeType(name: string, ts: seq<AttributeType>): (t: Option<AttributeType>)
  {
    if ts == [] then None
    else if name == AttributeName(ts[0]) then Some(ts[0])
    else FindAttributeType(name, ts[1..])
  }

  /** A type the chain selects is one whose name equals the resolved name. */
  lemma {:induction false} FindMatchesName(name: string, ts: seq<AttributeType>)
    ensures FindAttributeType(name, ts).Some? ==> AttributeName(FindAttributeType(name, ts).value) == name
  {
    if ts != [] && name != AttributeName(ts[0]) {
      FindMatchesName(name, ts[1..]);
    }
  }

  lemma {:induction false} AttributeTypesComplete(t: AttributeType)
    ensures t in AttributeTypes
  {
  }

  /** Length of each name and its next-to-last character: no two types
      agree on both, which is what keeps the names apart. */
  function NameLength(t: AttributeType): nat
  {
    match t
    case ConstantValue => 13
    case Code => 4
    case StackMapTable => 13
    case Exceptions => 10
    case InnerClasses => 12
    case EnclosingMethod => 15
    case Synthetic => 9
    case Signature => 9
    case SourceFile => 10
    case SourceDebugExtension => 20
    case LineNumberTable => 15
    case LocalVariableTable => 18
    case LocalVariableTypeTable => 22
    case Deprecated => 10
    case RuntimeVisibleAnnotations => 25
    case RuntimeInvisibleAnnotations => 27
    case RuntimeVisibleParameterAnnotations => 34
    case RuntimeInvisibleParameterAnnotations => 36
    case RuntimeVisibleTypeAnnotations => 29
    case RuntimeInvisibleTypeAnnotations => 31
    case AnnotationDefault => 17
    case BootstrapMethods => 16
    case MethodParameters => 16
    case Module => 6
    case ModulePackages => 14
    case ModuleMainClass => 15
    case NestHost => 8
    case NestMembers => 11
  }

  function NamePenultimate(t: AttributeType): char
  {
    match t
    case ConstantValue => 'u'
    case Code => 'd'
    case StackMapTable => 'l'
    case Exceptions => 'n'
    case InnerClasses => 'e'
    case EnclosingMethod => 'o'
    case Synthetic => 'i'
    case Signature => 'r'
    case SourceFile => 'l'
    case SourceDebugExtension => 'o'
    case LineNumberTable => 'l'
    case LocalVariableTable => 'l'
    case LocalVariableTypeTable => 'l'
    case Deprecated => 'e'
    case RuntimeVisibleAnnotations => 'n'
    case RuntimeInvisibleAnnotations => 'n'
    case RuntimeVisibleParameterAnnotations => 'n'
    case RuntimeInvisibleParameterAnnotations => 'n'
    case RuntimeVisibleTypeAnnotations => 'n'
    case RuntimeInvisibleTypeAnnotations => 'n'
    case AnnotationDefault => 'l'
    case BootstrapMethods => 'd'
    case MethodParameters => 'r'
    case Module => 'l'
    case ModulePackages => 'e'
    case ModuleMainClass => 's'
    case NestHost => 's'
    case NestMembers => 'r'
  }

  /** The type with a given length and next-to-last character, if any. */
  function TypeOfKey(len: nat, c: char): Option<AttributeType>
  {
    match len
    case 4 => if c == 'd' then Some(Code) else None
    case 6 => if c == 'l' then Some(Module) else None
    case 8 => if c == 's' then Some(NestHost) else None
    case 9 => if c == 'i' then Some(Synthetic) else if c == 'r' then Some(Signature) else None
    case 10 => if c == 'n' then Some(Exceptions) else if c == 'l' then Some(SourceFile) else if c == 'e' then Some(Deprecated) else None
    case 11 => if c == 'r' then Some(NestMembers) else None
    case 12 => if c == 'e' then Some(InnerClasses) else None
    case 13 => if c == 'u' then Some(ConstantValue) else if c == 'l' then Some(StackMapTable) else None
    case 14 => if c == 'e' then Some(ModulePackages) else None
    case 15 => if c == 'o' then Some(EnclosingMethod) else if c == 'l' then Some(LineNumberTable) else if c == 's' then Some(ModuleMainClass) else None
    case 16 => if c == 'd' then Some(BootstrapMethods) else if c == 'r' then Some(MethodParameters) else None
    case 17 => if c == 'l' then Some(AnnotationDefault) else None
    case 18 => if c == 'l' then Some(LocalVariableTable) else None
    case 20 => if c == 'o' then Some(SourceDebugExtension) else None
    case 22 => if c == 'l' then Some(LocalVariableTypeTable) else None
    case 25 => if c == 'n' then Some(RuntimeVisibleAnnotations) else None
    case 27 => if c == 'n' then Some(RuntimeInvisibleAnnotations) else None
    case 29 => if c == 'n' then Some(RuntimeVisibleTypeAnnotations) else None
    case 31 => if c == 'n' then Some(RuntimeInvisibleTypeAnnotations) else None
    case 34 => if c == 'n' then Some(RuntimeVisibleParameterAnnotations) else None
    case 36 => if c == 'n' then Some(RuntimeInvisibleParameterAnnotations) else None
    case _ => None
  }

  lemma {:induction false} NameLengthIs(t: AttributeType)
    ensures |AttributeName(t)| == NameLength(t)
  {
  }

  lemma {:induction false} NamePenultimateIs(t: AttributeType)
    ensures |AttributeName(t)| >= 2 && AttributeName(t)[|AttributeName(t)| - 2] == NamePenultimate(t)
  {
    NameLengthIs(t);
    var n := AttributeName(t);
    assert n[NameLength(t) - 2] == NamePenultimate(t);
  }

  lemma {:induction false} KeySelects(t: AttributeType)
    ensures TypeOfKey(NameLength(t), NamePenultimate(t)) == Some(t)
  {
  }

  /** No two attribute types share a name. */
  lemma {:induction false} AttributeNamesDistinct(a: AttributeType, b: AttributeType)
    requires a != b
    ensures AttributeName(a) != AttributeName(b)
  {
    NameLengthIs(a);
    NameLengthIs(b);
    NamePenultimateIs(a);
    NamePenultimateIs(b);
    KeySelects(a);
    KeySelects(b);
  }

  lemma {:induction false} FindSelects(t: AttributeType, ts: seq<AttributeType>)
    requires t in ts
    requires forall a :: a in ts && a != t ==> AttributeName(a) != AttributeName(t)
    ensures FindAttributeType(AttributeName(t), ts) == Some(t)
  {
    if ts[0] != t {
      assert ts[0] in ts;
      assert forall a :: a in ts[1..] ==> a in ts;
      FindSelects(t, ts[1..]);
    }
  }

  /** Every attribute type is selected by its own name. */
  lemma {:induction false} AttributeNameSelects(t: AttributeType)
    ensures AttributeTypeOf(AttributeName(t)) == Some(t)
  {
    AttributeTypesComplete(t);
    forall a | a in AttributeTypes && a != t
      ensures AttributeName(a) != AttributeName(t)
    {
      AttributeNamesDistinct(a, t);
    }
    FindSelects(t, AttributeTypes);
  }

  /** A name is accepted exactly when it is the name of one of the 28 types. */
  lemma {:induction false} AttributeNameKnown(name: string)
    ensures AttributeTypeOf(name).Some? <==> exists t :: AttributeName(t) == name
  {
    FindMatchesName(name, AttributeTypes);
    if t :| AttributeName(t) == name {
      AttributeNameSelects(t);
    }
  }

  /** The enum has 28 variants, each listed once. */
  lemma {:induction false} AttributeTypeCount()
    ensures |AttributeTypes| == 28
    ensures forall i, j :: 0 <= i < j < |AttributeTypes| ==> AttributeTypes[i] != AttributeTypes[j]
  {
  }

  // ---- Records of the payloads ----

  datatype Exception = Exception(startPC: uint16, endPC: uint16, handlerPC: uint16, catchType: uint16)

  /** One row of `InnerClasses` (the source's `Class`). */
  datatype InnerClass = InnerClass(
    innerClassInfoIndex: uint16, outerClassInfoIndex: uint16,
    innerNameIndex: uint16, innerClassAccessFlags: uint16)

  datatype LineNumber = LineNumber(startPC: uint16, lineNumber: uint16)

  datatype LocalVariable = LocalVariable(
    startPC: uint16, length: uint16, nameIndex: uint16, descriptorIndex: uint16, index: uint16)

  datatype LocalVariableType = LocalVariableType(
    startPC: uint16, length: uint16, nameIndex: uint16, signatureIndex: uint16, index: uint16)

  datatype BootstrapMethod = BootstrapMethod(bootstrapMethodRef: uint16, bootstrapArguments: seq<uint16>)

  datatype Parameter = Parameter(nameIndex: uint16, accessFlags: uint16)

  datatype Requires = Requires(requiresIndex: uint16, requiresFlags: uint16, requiresVersionIndex: uint16)

  datatype Exports = Exports(exportsIndex: uint16, exportsFlags: uint16, exportsToIndex: seq<uint16>)

  datatype Opens = Opens(opensIndex: uint16, opensFlags: uint16, opensToIndex: seq<uint16>)

  datatype Provides = Provides(providesIndex: uint16, providesWithIndex: seq<uint16>)

  /** A decoded attribute: the envelope's fields, the resolved name, the type
      that name selected and the payload its loader read. */
  datatype AttributeInfo = AttributeInfo(
    attributeType: AttributeType,
    attributeNameIndex: uint16,
    attributeLength: uint32,
    attributeName: string,
    info: AttributeInfoImpl)

  /** The payload, one variant per `*Attribute` class. */
  datatype AttributeInfoImpl =
    | ConstantValueAttribute(constantValueIndex: uint16)
    | CodeAttribute(maxStack: uint16, maxLocals: uint16, code: seq<uint8>,
                    exceptionTable: seq<Exception>, attributes: seq<AttributeInfo>)
    | StackMapTableAttribute(entries: seq<StackMapFrame>)
    | ExceptionsAttribute(exceptionIndexTable: seq<uint16>)
    | InnerClassesAttribute(classes: seq<InnerClass>)
    | EnclosingMethodAttribute(classIndex: uint16, methodIndex: uint16)
    | SyntheticAttribute
    | SignatureAttribute(signatureIndex: uint16)
    | SourceFileAttribute(sourceFileIndex: uint16)
    | SourceDebugExtensionAttribute(debugExtension: seq<uint8>, debugExtensionStr: string)
    | LineNumberTableAttribute(lineNumberTable: seq<LineNumber>)
    | LocalVariableTableAttribute(localVariableTable: seq<LocalVariable>)
    | LocalVariableTypeTableAttribute(localVariableTypeTable: seq<LocalVariableType>)
    | DeprecatedAttribute
    | RuntimeVisibleAnnotationsAttribute(annotations: seq<Annotation>)
    | RuntimeInvisibleAnnotationsAttribute(annotations: seq<Annotation>)
    | RuntimeVisibleParameterAnnotationsAttribute(parameterAnnotations: seq<ParameterAnnotation>)
    | RuntimeInvisibleParameterAnnotationsAttribute(parameterAnnotations: seq<ParameterAnnotation>)
    | RuntimeVisibleTypeAnnotationsAttribute(typeAnnotations: seq<TypeAnnotation>)
    | RuntimeInvisibleTypeAnnotationsAttribute(typeAnnotations: seq<TypeAnnotation>)
    | AnnotationDefaultAttribute(defaultValue: ElementValue)
    | BootstrapMethodsAttribute(bootstrapMethods: seq<BootstrapMethod>)
    | MethodParametersAttribute(parameters: seq<Parameter>)
    | ModuleAttribute(moduleNameIndex: uint16, moduleFlags: uint16, moduleVersionIndex: uint16,
                      moduleRequires: seq<Requires>, moduleExports: seq<Exports>, moduleOpens: seq<Opens>,
                      usesIndex: seq<uint16>, moduleProvides: seq<Provides>)
    | ModulePackagesAttribute(packageIndex: seq<uint16>)
    | ModuleMainClassAttribute(mainClassIndex: uint16)
    | NestHostAttribute(hostClassIndex: uint16)
    | NestMembersAttribute(memberClasses: seq<uint16>)

  /** `info` is the payload kind the loader of type `t` builds. */
  predicate PayloadOfType(t: AttributeType, info: AttributeInfoImpl)
  {
    match t
    case ConstantValue => info.ConstantValueAttribute?
    case Code => info.CodeAttribute?
    case StackMapTable => info.StackMapTableAttribute?
    case Exceptions => info.ExceptionsAttribute?
    case InnerClasses => info.InnerClassesAttribute?
    case EnclosingMethod => info.EnclosingMethodAttribute?
    case Synthetic => info.SyntheticAttribute?
    case Signature => info.SignatureAttribute?
    case SourceFile => info.SourceFileAttribute?
    case SourceDebugExtension => info.SourceDebugExtensionAttribute?
    case LineNumberTable => info.LineNumberTableAttribute?
    case LocalVariableTable => info.LocalVariableTableAttribute?
    case LocalVariableTypeTable => info.LocalVariableTypeTableAttribute?
    case Deprecated => info.DeprecatedAttribute?
    case RuntimeVisibleAnnotations => info.RuntimeVisibleAnnotationsAttribute?
    case RuntimeInvisibleAnnotations => info.RuntimeInvisibleAnnotationsAttribute?
    case RuntimeVisibleParameterAnnotations => info.RuntimeVisibleParameterAnnotationsAttribute?
    case RuntimeInvisibleParameterAnnotations => info.RuntimeInvisibleParameterAnnotationsAttribute?
    case RuntimeVisibleTypeAnnotations => info.RuntimeVisibleTypeAnnotationsAttribute?
    case RuntimeInvisibleTypeAnnotations => info.RuntimeInvisibleTypeAnnotationsAttribute?
    case AnnotationDefault => info.AnnotationDefaultAttribute?
    case BootstrapMethods => info.BootstrapMethodsAttribute?
    case MethodParameters => info.MethodParametersAttribute?
    case Module => info.ModuleAttribute?
    case ModulePackages => info.ModulePackagesAttribute?
    case ModuleMainClass => info.ModuleMainClassAttribute?
    case NestHost => info.NestHostAttribute?
    case NestMembers => info.NestMembersAttribute?
  }

  /** Payload bytes of the kinds whose loader reads a fixed number of bytes. */
  function FixedPayloadSize(t: AttributeType): Option<nat>
  {
    match t
    case ConstantValue => Some(2)
    case EnclosingMethod => Some(4)
    case Synthetic => Some(0)
    case Signature => Some(2)
    case SourceFile => Some(2)
    case Deprecated => Some(0)
    case ModuleMainClass => Some(2)
    case NestHost => Some(2)
    case _ => None
  }

  // ---- Tables with fixed-width rows ----

  function ExceptionRow(buf: seq<uint8>, p: nat): Exception
  {
    Exception(U16At(buf, p), U16At(buf, p + 2), U16At(buf, p + 4), U16At(buf, p + 6))
  }

  function InnerClassRow(buf: seq<uint8>, p: nat): InnerClass
  {
    InnerClass(U16At(buf, p), U16At(buf, p + 2), U16At(buf, p + 4), U16At(buf, p + 6))
  }

  function LineNumberRow(buf: seq<uint8>, p: nat): LineNumber
  {
    LineNumber(U16At(buf, p), U16At(buf, p + 2))
  }

  function LocalVariableRow(buf: seq<uint8>, p: nat): LocalVariable
  {
    LocalVariable(U16At(buf, p), U16At(buf, p + 2), U16At(buf, p + 4), U16At(buf, p + 6), U16At(buf, p + 8))
  }

  function LocalVariableTypeRow(buf: seq<uint8>, p: nat): LocalVariableType
  {
    LocalVariableType(U16At(buf, p), U16At(buf, p + 2), U16At(buf, p + 4), U16At(buf, p + 6), U16At(buf, p + 8))
  }

  function ParameterRow(buf: seq<uint8>, p: nat): Parameter
  {
    Parameter(U16At(buf, p), U16At(buf, p + 2))
  }

  function RequiresRow(buf: seq<uint8>, p: nat): Requires
  {
    Requires(U16At(buf, p), U16At(buf, p + 2), U16At(buf, p + 4))
  }

  /** A u16 count, then that many `width`-byte rows, row `i` decoded at
      its start. */
  function ParseTable<T>(buf: seq<uint8>, pos: nat, width: nat, row: (seq<uint8>, nat) -> T): (r: Result<Parsed<seq<T>>>)
    ensures r.Ok? <==> pos + 2 <= |buf| && RowStart(pos + 2, U16At(buf, pos) as nat, width) <= |buf|
    ensures r.Ok? ==> (|r.value.item| == U16At(buf, pos) as nat &&
                       r.value.next == RowStart(pos + 2, |r.value.item|, width))
    ensures r.Ok? ==> forall i :: 0 <= i < |r.value.item| ==>
      RowStart(pos + 2, i, width) + width <= |buf| &&
      r.value.item[i] == row(buf, RowStart(pos + 2, i, width))
  {
    var n :- ReadUInt16(buf, pos);
    ReadRows(buf, n.next, n.item as nat, width, row)
  }

  /** A u16 count, then that many u16 indices. */
  function ParseIndexTable(buf: seq<uint8>, pos: nat): (r: Result<Parsed<seq<uint16>>>)
    ensures r.Ok? <==> pos + 2 <= |buf| && RowStart(pos + 2, U16At(buf, pos) as nat, 2) <= |buf|
    ensures r.Ok? ==> (|r.value.item| == U16At(buf, pos) as nat &&
                       r.value.next == RowStart(pos + 2, |r.value.item|, 2))
    ensures r.Ok? ==> forall i :: 0 <= i < |r.value.item| ==>
      RowStart(pos + 2, i, 2) + 2 <= |buf| &&
      r.value.item[i] == U16At(buf, RowStart(pos + 2, i, 2))
  {
    var n :- ReadUInt16(buf, pos);
    ReadUInt16s(buf, n.next, n.item as nat)
  }

  // ---- Payloads with nested records ----

  /** `BootstrapMethod::load`: the method reference, then a u16-counted
      list of argument indices. */
  function ParseBootstrapMethod(buf: seq<uint8>, pos: nat): (r: Result<Parsed<BootstrapMethod>>)
    ensures r.Ok? <==> pos + 2 <= |buf| && ParseIndexTable(buf, pos + 2).Ok?
    ensures r.Ok? ==> pos + 4 <= r.value.next <= |buf|
    ensures r.Ok? ==> (r.value.item.bootstrapMethodRef == U16At(buf, pos) &&
                       |r.value.item.bootstrapArguments| == U16At(buf, pos + 2) as nat &&
                       ParseIndexTable(buf, pos + 2) == Ok(Parsed(r.value.item.bootstrapArguments, r.value.next)))
  {
    var ref :- ReadUInt16(buf, pos);
    var args :- ParseIndexTable(buf, ref.next);
    Ok(Parsed(BootstrapMethod(ref.item, args.item), args.next))
  }

  /** `Exports::load`: index, flags, then a u16-counted list of target modules. */
  function ParseExports(buf: seq<uint8>, pos: nat): (r: Result<Parsed<Exports>>)
    ensures r.Ok? <==> pos + 4 <= |buf| && ParseIndexTable(buf, pos + 4).Ok?
    ensures r.Ok? ==> pos + 6 <= r.value.next <= |buf|
    ensures r.Ok? ==> (r.value.item.exportsIndex == U16At(buf, pos) &&
                       r.value.item.exportsFlags == U16At(buf, pos + 2) &&
                       |r.value.item.exportsToIndex| == U16At(buf, pos + 4) as nat &&
                       ParseIndexTable(buf, pos + 4) == Ok(Parsed(r.value.item.exportsToIndex, r.value.next)))
  {
    var index :- ReadUInt16(buf, pos);
    var flags :- ReadUInt16(buf, index.next);
    var to :- ParseIndexTable(buf, flags.next);
    Ok(Parsed(Exports(index.item, flags.item, to.item), to.next))
  }

  /** `Opens::load`: index, flags, then a u16-counted list of target modules. */
  function ParseOpens(buf: seq<uint8>, pos: nat): (r: Result<Parsed<Opens>>)
    ensures r.Ok? <==> pos + 4 <= |buf| && ParseIndexTable(buf, pos + 4).Ok?
    ensures r.Ok? ==> pos + 6 <= r.value.next <= |buf|
    ensures r.Ok? ==> (r.value.item.opensIndex == U16At(buf, pos) &&
                       r.value.item.opensFlags == U16At(buf, pos + 2) &&
                       |r.value.item.opensToIndex| == U16At(buf, pos + 4) as nat &&
                       ParseIndexTable(buf, pos + 4) == Ok(Parsed(r.value.item.opensToIndex, r.value.next)))
  {
    var index :- ReadUInt16(buf, pos);
    var flags :- ReadUInt16(buf, index.next);
    var to :- ParseIndexTable(buf, flags.next);
    Ok(Parsed(Opens(index.item, flags.item, to.item), to.next))
  }

  /** `Provides::load`: the service index, then a u16-counted list of providers. */
  function ParseProvides(buf: seq<uint8>, pos: nat): (r: Result<Parsed<Provides>>)
    ensures r.Ok? <==> pos + 2 <= |buf| && ParseIndexTable(buf, pos + 2).Ok?
    ensures r.Ok? ==> pos + 4 <= r.value.next <= |buf|
    ensures r.Ok? ==> (r.value.item.providesIndex == U16At(buf, pos) &&
                       |r.value.item.providesWithIndex| == U16At(buf, pos + 2) as nat &&
                       ParseIndexTable(buf, pos + 2) == Ok(Parsed(r.value.item.providesWithIndex, r.value.next)))
  {
    var index :- ReadUInt16(buf, pos);
    var with :- ParseIndexTable(buf, index.next);
    Ok(Parsed(Provides(index.item, with.item), with.next))
  }

  /** `ModuleAttribute::load`: name, flags and version indices, then the
      requires rows, exports, opens, uses indices and provides, each list
      preceded by its u16 count. */
  function ParseModule(buf: seq<uint8>, pos: nat): (r: Result<Parsed<AttributeInfoImpl>>)
    ensures r.Ok? ==> r.value.item.ModuleAttribute? && pos + 16 <= r.value.next <= |buf|
  {
    var name :- ReadUInt16(buf, pos);
    var flags :- ReadUInt16(buf, name.next);
    var version :- ReadUInt16(buf, flags.next);
    var tables :- ParseModuleTables(buf, version.next);
    var (requiresRows, exports, opens, uses, providesList) := tables.item;
    Ok(Parsed(ModuleAttribute(name.item, flags.item, version.item, requiresRows,
                              exports, opens, uses, providesList), tables.next))
  }

  /** The five counted tables after the Module header: requires, exports,
      opens, uses and provides, in that order, each read where the previous
      one ended. */
  function ParseModuleTables(buf: seq<uint8>, pos: nat)
    : (r: Result<Parsed<(seq<Requires>, seq<Exports>, seq<Opens>, seq<uint16>, seq<Provides>)>>)
    ensures r.Ok? ==> pos + 10 <= r.value.next <= |buf| && |r.value.item.0| == U16At(buf, pos) as nat
    ensures var req := ParseTable(buf, pos, 6, RequiresRow);
      r.Ok? ==>
        (req.Ok? && r.value.item.0 == req.value.item &&
         var ex := ParseCounted(buf, req.value.next, ParseExports);
         ex.Ok? && r.value.item.1 == ex.value.item &&
         var op := ParseCounted(buf, ex.value.next, ParseOpens);
         op.Ok? && r.value.item.2 == op.value.item &&
         var us := ParseIndexTable(buf, op.value.next);
         us.Ok? && r.value.item.3 == us.value.item &&
         ParseCounted(buf, us.value.next, ParseProvides) == Ok(Parsed(r.value.item.4, r.value.next)))
  {
    var requiresRows :- ParseTable(buf, pos, 6, RequiresRow);
    assert StaysIn(buf, ParseExports);
    var exports :- ParseCounted(buf, requiresRows.next, ParseExports);
    assert StaysIn(buf, ParseOpens);
    var opens :- ParseCounted(buf, exports.next, ParseOpens);
    var uses :- ParseIndexTable(buf, opens.next);
    assert StaysIn(buf, ParseProvides);
    var providesList :- ParseCounted(buf, uses.next, ParseProvides);
    Ok(Parsed((requiresRows.item, exports.item, opens.item, uses.item, providesList.item), providesList.next))
  }

  /** The fixed header of a Module payload: name, flags, version, and the
      count of `requires` rows. */
  lemma {:induction false} ModuleHeader(buf: seq<uint8>, pos: nat)
    requires ParseModule(buf, pos).Ok?
    ensures var m := ParseModule(buf, pos).value.item;
      m.moduleNameIndex == U16At(buf, pos) && m.moduleFlags == U16At(buf, pos + 2) &&
      m.moduleVersionIndex == U16At(buf, pos + 4) && |m.moduleRequires| == U16At(buf, pos + 6) as nat &&
      ParseModuleTables(buf, pos + 6) ==
        Ok(Parsed((m.moduleRequires, m.moduleExports, m.moduleOpens, m.usesIndex, m.moduleProvides),
                  ParseModule(buf, pos).value.next))
  {
  }

  /** `SourceDebugExtensionAttribute::load`: exactly `attribute_length` bytes,
      kept verbatim and as a string. */
  function ParseSourceDebugExtension(length: uint32, buf: seq<uint8>, pos: nat): (r: Result<Parsed<AttributeInfoImpl>>)
    ensures r.Ok? <==> pos + length as nat <= |buf|
    ensures r.Ok? ==> (r.value.next == pos + length as nat &&
                       r.value.item == SourceDebugExtensionAttribute(buf[pos..pos + length as nat],
                                                                     ToStdString(buf[pos..pos + length as nat])))
  {
    var bytes :- ReadBytes(buf, pos, length as nat);
    Ok(Parsed(SourceDebugExtensionAttribute(bytes.item, ToStdString(bytes.item)), bytes.next))
  }

  /** A payload that is one u16, wrapped by `make`. */
  function ParseIndexPayload(buf: seq<uint8>, pos: nat, make: uint16 -> AttributeInfoImpl): (r: Result<Parsed<AttributeInfoImpl>>)
    ensures r.Ok? <==> pos + 2 <= |buf|
    ensures r.Ok? ==> r.value.next == pos + 2 && r.value.item == make(U16At(buf, pos))
  {
    var i :- ReadUInt16(buf, pos);
    Ok(Parsed(make(i.item), i.next))
  }

  /** `StackMapTableAttribute::load`: a u16 count, then that many frames. */
  function ParseStackMapTable(buf: seq<uint8>, pos: nat): (r: Result<Parsed<seq<StackMapFrame>>>)
    ensures r.Ok? ==> pos + 2 <= r.value.next <= |buf| && |r.value.item| == U16At(buf, pos) as nat
    ensures r == ParseCounted(buf, pos, ParseStackMapFrame)
  {
    var n :- ReadUInt16(buf, pos);
    ParseStackMapFrames(buf, n.next, n.item as nat)
  }

  /** `BootstrapMethodsAttribute::load`: a u16 count, then that many methods. */
  function ParseBootstrapMethods(buf: seq<uint8>, pos: nat): (r: Result<Parsed<seq<BootstrapMethod>>>)
    ensures r.Ok? ==> pos + 2 <= r.value.next <= |buf| && |r.value.item| == U16At(buf, pos) as nat
    ensures r == ParseCounted(buf, pos, ParseBootstrapMethod)
  {
    var n :- ReadUInt16(buf, pos);
    assert StaysIn(buf, ParseBootstrapMethod);
    ReadList(buf, n.next, n.item as nat, ParseBootstrapMethod)
  }

  /** `MethodParametersAttribute::load`: a u8 count, then that many 4-byte rows. */
  function ParseMethodParameters(buf: seq<uint8>, pos: nat): (r: Result<Parsed<seq<Parameter>>>)
    ensures r.Ok? <==> pos < |buf| && RowStart(pos + 1, buf[pos] as nat, 4) <= |buf|
    ensures r.Ok? ==> |r.value.item| == buf[pos] as nat && r.value.next == RowStart(pos + 1, buf[pos] as nat, 4)
    ensures r.Ok? ==> forall i :: 0 <= i < |r.value.item| ==>
      RowStart(pos + 1, i, 4) + 4 <= |buf| &&
      r.value.item[i] == ParameterRow(buf, RowStart(pos + 1, i, 4))
  {
    var n :- ReadUInt8(buf, pos);
    ReadRows(buf, n.next, n.item as nat, 4, ParameterRow)
  }

  /** The kinds whose payload belongs to the annotation family. */
  predicate IsAnnotationKind(t: AttributeType)
  {
    t.RuntimeVisibleAnnotations? || t.RuntimeInvisibleAnnotations? ||
    t.RuntimeVisibleParameterAnnotations? || t.RuntimeInvisibleParameterAnnotations? ||
    t.RuntimeVisibleTypeAnnotations? || t.RuntimeInvisibleTypeAnnotations? ||
    t.AnnotationDefault?
  }

  /** The loaders of every kind but `Code`; `length` is the envelope's
      `attribute_length`, which only SourceDebugExtension looks at. */
  function ParseSimplePayload(t: AttributeType, length: uint32, buf: seq<uint8>, pos: nat): (r: Result<Parsed<AttributeInfoImpl>>)
    requires t != Code
    ensures r.Ok? ==> PayloadOfType(t, r.value.item) && pos <= r.value.next
    ensures pos <= |buf| ==> Advanced(r, pos, |buf|)
    ensures pos <= |buf| && FixedPayloadSize(t).Some? ==> (r.Ok? <==> pos + FixedPayloadSize(t).value <= |buf|)
    ensures r.Ok? && FixedPayloadSize(t).Some? ==> r.value.next == pos + FixedPayloadSize(t).value
  {
    if t == SourceDebugExtension then ParseSourceDebugExtension(length, buf, pos)
    else if FixedPayloadSize(t).Some? then ParseFixedPayload(t, buf, pos)
    else if IsAnnotationKind(t) then ParseAnnotationPayload(t, buf, pos)
    else ParseTablePayload(t, buf, pos)
  }

  /** The kinds whose loader reads a fixed number of bytes. */
  function ParseFixedPayload(t: AttributeType, buf: seq<uint8>, pos: nat): (r: Result<Parsed<AttributeInfoImpl>>)
    requires FixedPayloadSize(t).Some?
    ensures r.Ok? ==> PayloadOfType(t, r.value.item)
    ensures pos <= |buf| ==> (r.Ok? <==> pos + FixedPayloadSize(t).value <= |buf|)
    ensures r.Ok? ==> r.value.next == pos + FixedPayloadSize(t).value
    ensures r.Ok? ==> match t
      case ConstantValue => r.value.item == ConstantValueAttribute(U16At(buf, pos))
      case EnclosingMethod => r.value.item == EnclosingMethodAttribute(U16At(buf, pos), U16At(buf, pos + 2))
      case Signature => r.value.item == SignatureAttribute(U16At(buf, pos))
      case SourceFile => r.value.item == SourceFileAttribute(U16At(buf, pos))
      case ModuleMainClass => r.value.item == ModuleMainClassAttribute(U16At(buf, pos))
      case NestHost => r.value.item == NestHostAttribute(U16At(buf, pos))
      case _ => true
  {
    match t
    case ConstantValue => ParseIndexPayload(buf, pos, i => ConstantValueAttribute(i))
    case EnclosingMethod =>
      var c :- ReadUInt16(buf, pos);
      var m :- ReadUInt16(buf, c.next);
      Ok(Parsed(EnclosingMethodAttribute(c.item, m.item), m.next))
    case Synthetic => Ok(Parsed(SyntheticAttribute, pos))
    case Signature => ParseIndexPayload(buf, pos, i => SignatureAttribute(i))
    case SourceFile => ParseIndexPayload(buf, pos, i => SourceFileAttribute(i))
    case Deprecated => Ok(Parsed(DeprecatedAttribute, pos))
    case ModuleMainClass => ParseIndexPayload(buf, pos, i => ModuleMainClassAttribute(i))
    case NestHost => ParseIndexPayload(buf, pos, i => NestHostAttribute(i))
  }

  /** The annotation, parameter annotation, type annotation and default
      value attributes. */
  function ParseAnnotationPayload(t: AttributeType, buf: seq<uint8>, pos: nat): (r: Result<Parsed<AttributeInfoImpl>>)
    requires IsAnnotationKind(t)
    ensures r.Ok? ==> PayloadOfType(t, r.value.item) && pos < r.value.next <= |buf|
  {
    match t
    case RuntimeVisibleAnnotations =>
      var anns :- ParseAnnotations(buf, pos);
      Ok(Parsed(RuntimeVisibleAnnotationsAttribute(anns.item), anns.next))
    case RuntimeInvisibleAnnotations =>
      var anns :- ParseAnnotations(buf, pos);
      Ok(Parsed(RuntimeInvisibleAnnotationsAttribute(anns.item), anns.next))
    case RuntimeVisibleParameterAnnotations =>
      var ps :- ParseParameterAnnotations(buf, pos);
      Ok(Parsed(RuntimeVisibleParameterAnnotationsAttribute(ps.item), ps.next))
    case RuntimeInvisibleParameterAnnotations =>
      var ps :- ParseParameterAnnotations(buf, pos);
      Ok(Parsed(RuntimeInvisibleParameterAnnotationsAttribute(ps.item), ps.next))
    case RuntimeVisibleTypeAnnotations =>
      var anns :- ParseTypeAnnotations(buf, pos);
      Ok(Parsed(RuntimeVisibleTypeAnnotationsAttribute(anns.item), anns.next))
    case RuntimeInvisibleTypeAnnotations =>
      var anns :- ParseTypeAnnotations(buf, pos);
      Ok(Parsed(RuntimeInvisibleTypeAnnotationsAttribute(anns.item), anns.next))
    case AnnotationDefault =>
      var v :- ParseElementValue(buf, pos);
      Ok(Parsed(AnnotationDefaultAttribute(v.item), v.next))
  }

  /** The kinds made of counted tables and lists. */
  function ParseTablePayload(t: AttributeType, buf: seq<uint8>, pos: nat): (r: Result<Parsed<AttributeInfoImpl>>)
    requires t != Code && t != SourceDebugExtension && FixedPayloadSize(t).None? && !IsAnnotationKind(t)
    ensures r.Ok? ==> PayloadOfType(t, r.value.item) && pos <= r.value.next
    ensures pos <= |buf| ==> Advanced(r, pos, |buf|)
  {
    match t
    case StackMapTable =>
      var es :- ParseStackMapTable(buf, pos);
      Ok(Parsed(StackMapTableAttribute(es.item), es.next))
    case Exceptions =>
      var xs :- ParseIndexTable(buf, pos);
      Ok(Parsed(ExceptionsAttribute(xs.item), xs.next))
    case InnerClasses =>
      var cs :- ParseTable(buf, pos, 8, InnerClassRow);
      Ok(Parsed(InnerClassesAttribute(cs.item), cs.next))
    case LineNumberTable =>
      var rs :- ParseTable(buf, pos, 4, LineNumberRow);
      Ok(Parsed(LineNumberTableAttribute(rs.item), rs.next))
    case LocalVariableTable =>
      var rs :- ParseTable(buf, pos, 10, LocalVariableRow);
      Ok(Parsed(LocalVariableTableAttribute(rs.item), rs.next))
    case LocalVariableTypeTable =>
      var rs :- ParseTable(buf, pos, 10, LocalVariableTypeRow);
      Ok(Parsed(LocalVariableTypeTableAttribute(rs.item), rs.next))
    case BootstrapMethods =>
      var ms :- ParseBootstrapMethods(buf, pos);
      Ok(Parsed(BootstrapMethodsAttribute(ms.item), ms.next))
    case MethodParameters =>
      var ps :- ParseMethodParameters(buf, pos);
      Ok(Parsed(MethodParametersAttribute(ps.item), ps.next))
    case Module => ParseModule(buf, pos)
    case ModulePackages =>
      var xs :- ParseIndexTable(buf, pos);
      Ok(Parsed(ModulePackagesAttribute(xs.item), xs.next))
    case NestMembers =>
      var xs :- ParseIndexTable(buf, pos);
      Ok(Parsed(NestMembersAttribute(xs.item), xs.next))
  }

  // ---- The envelope and its name ----

  /** `cp[attribute_name_index]` and the check that it is a Utf8 entry.  The
      source indexes the pool without a range check and dereferences the
      slot without a null check; the model rejects both. */
  function ResolveName(pool: ConstantPool, index: uint16): (r: Result<string>)
    ensures r.Ok? <==> (index as nat < |pool| && pool[index].Some? &&
                        pool[index].value.tag == CONSTANT_Utf8 && pool[index].value.info.ConstantUtf8Info?)
    ensures r.Ok? ==> r.value == pool[index].value.info.bytesStr
    ensures r.Err? ==> (r.error == InvalidNameIndex(index as int) <==> index as nat >= |pool| || pool[index].None?)
  {
    if index as nat >= |pool| || pool[index].None? then Err(InvalidNameIndex(index as int))
    else
      var e := pool[index].value;
      if e.tag != CONSTANT_Utf8 || !e.info.ConstantUtf8Info? then Err(NameNotUtf8(index as int))
      else Ok(e.info.bytesStr)
  }

  /** The six bytes in front of every payload, with the name they resolve
      to and the type that name selects. */
  datatype Envelope = Envelope(nameIndex: uint16, length: uint32, name: string, attributeType: AttributeType)

  /** The first half of `AttributeInfo::load`: name index, length, the
      name's pool entry and the type the name selects. */
  function ParseEnvelope(pool: ConstantPool, buf: seq<uint8>, pos: nat): (r: Result<Parsed<Envelope>>)
    ensures r.Ok? <==> (pos + 6 <= |buf| && ResolveName(pool, U16At(buf, pos)).Ok? &&
                        AttributeTypeOf(ResolveName(pool, U16At(buf, pos)).value).Some?)
    ensures r.Ok? ==> (r.value.next == pos + 6 &&
                       r.value.item.nameIndex == U16At(buf, pos) &&
                       r.value.item.length == U32At(buf, pos + 2) &&
                       ResolveName(pool, r.value.item.nameIndex) == Ok(r.value.item.name) &&
                       AttributeTypeOf(r.value.item.name) == Some(r.value.item.attributeType))
    ensures pos + 6 > |buf| ==> r.Err? && r.error.OutOfBounds?
    ensures pos + 6 <= |buf| && ResolveName(pool, U16At(buf, pos)).Err? ==>
      r == Err(ResolveName(pool, U16At(buf, pos)).error)
    ensures pos + 6 <= |buf| && ResolveName(pool, U16At(buf, pos)).Ok? &&
            AttributeTypeOf(ResolveName(pool, U16At(buf, pos)).value).None? ==>
      r == Err(UnknownAttributeName(ResolveName(pool, U16At(buf, pos)).value))
  {
    var nameIndex :- ReadUInt16(buf, pos);
    var length :- ReadUInt32(buf, nameIndex.next);
    var name :- ResolveName(pool, nameIndex.item);
    match AttributeTypeOf(name)
    case None => Err(UnknownAttributeName(name))
    case Some(t) => Ok(Parsed(Envelope(nameIndex.item, length.item, name, t), length.next))
  }

  /** `AttributeInfo::load`: the envelope, then the payload of the type its
      name selects. */
  function ParseAttributeInfo(pool: ConstantPool, buf: seq<uint8>, pos: nat): (r: Result<Parsed<AttributeInfo>>)
    ensures r.Ok? ==> pos + 6 <= r.value.next <= |buf|
    decreases |buf| - pos, 2
  {
    var e :- ParseEnvelope(pool, buf, pos);
    var payload :- ParsePayload(e.item.attributeType, e.item.length, pool, buf, e.next);
    Ok(Parsed(AttributeInfo(e.item.attributeType, e.item.nameIndex, e.item.length, e.item.name, payload.item),
              payload.next))
  }

  /** A decoded attribute carries its envelope's fields and the payload the
      selected loader reads right after the envelope; a failing envelope
      fails the attribute. */
  lemma {:induction false} AttributeInfoDecodes(pool: ConstantPool, buf: seq<uint8>, pos: nat)
    ensures ParseEnvelope(pool, buf, pos).Err? ==>
      ParseAttributeInfo(pool, buf, pos) == Err(ParseEnvelope(pool, buf, pos).error)
    ensures ParseAttributeInfo(pool, buf, pos).Ok? ==>
      ParseEnvelope(pool, buf, pos).Ok? &&
      var r := ParseAttributeInfo(pool, buf, pos).value;
      var e := ParseEnvelope(pool, buf, pos).value.item;
      r.item.attributeType == e.attributeType && r.item.attributeNameIndex == e.nameIndex &&
      r.item.attributeLength == e.length && r.item.attributeName == e.name &&
      PayloadOfType(e.attributeType, r.item.info) &&
      ParsePayload(e.attributeType, e.length, pool, buf, pos + 6) == Ok(Parsed(r.item.info, r.next))
  {
  }

  /** `info_->load(...)`: the loader of the selected type. */
  function ParsePayload(t: AttributeType, length: uint32, pool: ConstantPool, buf: seq<uint8>, pos: nat)
    : (r: Result<Parsed<AttributeInfoImpl>>)
    ensures r.Ok? ==> PayloadOfType(t, r.value.item) && pos <= r.value.next
    ensures pos <= |buf| ==> Advanced(r, pos, |buf|)
    ensures t == SourceDebugExtension ==> r == ParseSourceDebugExtension(length, buf, pos)
    decreases |buf| - pos, 1
  {
    if t == Code then ParseCode(pool, buf, pos) else ParseSimplePayload(t, length, buf, pos)
  }

  /** `CodeAttribute::load`: max_stack, max_locals, a u32 code_length and
      that many code bytes, a u16-counted table of 8-byte exception rows
      (start_pc, end_pc, handler_pc, catch_type) right after the code, then
      a u16 count and that many attributes decoded against the same pool,
      ending the payload. */
  function ParseCode(pool: ConstantPool, buf: seq<uint8>, pos: nat): (r: Result<Parsed<AttributeInfoImpl>>)
    ensures r.Ok? ==> r.value.item.CodeAttribute? && pos + 12 <= r.value.next <= |buf|
    decreases |buf| - pos, 0
  {
    var maxStack :- ReadUInt16(buf, pos);
    var maxLocals :- ReadUInt16(buf, maxStack.next);
    var codeLength :- ReadUInt32(buf, maxLocals.next);
    var code :- ReadBytes(buf, codeLength.next, codeLength.item as nat);
    var exceptionTable :- ParseTable(buf, code.next, 8, ExceptionRow);
    var count :- ReadUInt16(buf, exceptionTable.next);
    var attributes :- ParseAttributes(pool, buf, count.next, count.item as nat);
    Ok(Parsed(CodeAttribute(maxStack.item, maxLocals.item, code.item, exceptionTable.item, attributes.item),
              attributes.next))
  }

  /** A decoded Code payload: max_stack, max_locals, then a u32 code_length
      and exactly that many bytes of code, kept verbatim; then the exception
      table read right after the code, and the u16-counted attributes read
      right after that table, which end the payload. */
  lemma {:induction false} CodeHeader(pool: ConstantPool, buf: seq<uint8>, pos: nat)
    requires ParseCode(pool, buf, pos).Ok?
    ensures var c := ParseCode(pool, buf, pos).value.item;
      c.maxStack == U16At(buf, pos) && c.maxLocals == U16At(buf, pos + 2) &&
      |c.code| == U32At(buf, pos + 4) as nat && pos + 8 + |c.code| <= |buf| &&
      c.code == buf[pos + 8..pos + 8 + |c.code|]
    ensures var r := ParseCode(pool, buf, pos).value;
      var x := ParseTable(buf, pos + 8 + U32At(buf, pos + 4) as nat, 8, ExceptionRow);
      x.Ok? && r.item.exceptionTable == x.value.item &&
      x.value.next + 2 <= |buf| && |r.item.attributes| == U16At(buf, x.value.next) as nat &&
      ParseAttributes(pool, buf, x.value.next + 2, U16At(buf, x.value.next) as nat) ==
        Ok(Parsed(r.item.attributes, r.next))
  {
  }

  /** `n` attributes one after another; the first failure aborts the list.
      This is the loop of `CodeAttribute::load`, `FieldInfo::load`,
      `MethodInfo::load` and `ClassFile::loadAttributes`. */
  function ParseAttributes(pool: ConstantPool, buf: seq<uint8>, pos: nat, n: nat): (r: Result<Parsed<seq<AttributeInfo>>>)
    ensures r.Ok? ==> |r.value.item| == n && pos <= r.value.next
    ensures pos <= |buf| ==> Advanced(r, pos, |buf|)
    ensures n > 0 && ParseAttributeInfo(pool, buf, pos).Err? ==> r == Err(ParseAttributeInfo(pool, buf, pos).error)
    decreases |buf| - pos, 3, n
  {
    if n == 0 then Ok(Parsed([], pos))
    else
      var a :- ParseAttributeInfo(pool, buf, pos);
      var rest :- ParseAttributes(pool, buf, a.next, n - 1);
      Ok(Parsed([a.item] + rest.item, rest.next))
  }

  /** `AttributeInfo::load` against a fixed pool, as a record loader. */
  function AttributeParser(pool: ConstantPool): (seq<uint8>, nat) -> Result<Parsed<AttributeInfo>>
  {
    (b: seq<uint8>, q: nat) => ParseAttributeInfo(pool, b, q)
  }

  /** `ParseAttributes` over a fixed pool and buffer, as a reading of counted lists. */
  function AttributeLists(pool: ConstantPool, buf: seq<uint8>): (nat, nat) -> Result<Parsed<seq<AttributeInfo>>>
  {
    (p: nat, k: nat) => ParseAttributes(pool, buf, p, k)
  }

  /** The attribute list is the generic counted list over the attribute
      loader, so a loop over `ReadList` decodes it. */
  lemma {:induction false} AttributesAreList(pool: ConstantPool, buf: seq<uint8>, pos: nat, n: nat)
    ensures ParseAttributes(pool, buf, pos, n) == ReadList(buf, pos, n, AttributeParser(pool))
  {
    forall p: nat, k: nat {:trigger ListUnfold(buf, AttributeParser(pool), AttributeLists(pool, buf), p, k)}
      ensures AttributeLists(pool, buf)(p, k) == ListUnfold(buf, AttributeParser(pool), AttributeLists(pool, buf), p, k)
    {
      AttributesUnfold(pool, buf, p, k);
    }
    FollowsReadList(buf, pos, n, AttributeParser(pool), AttributeLists(pool, buf));
  }

  /** `ParseAttributes` takes the steps of `ReadList` over the attribute loader. */
  lemma {:induction false} AttributesUnfold(pool: ConstantPool, buf: seq<uint8>, pos: nat, n: nat)
    ensures AttributeLists(pool, buf)(pos, n) == ListUnfold(buf, AttributeParser(pool), AttributeLists(pool, buf), pos, n)
  {
  }

  // ---- What the envelope does with attribute_length ----

  /** Only SourceDebugExtension reads the declared length: for every other
      type the payload, and so where the cursor ends, is the same whatever
      length the envelope declared. */
  lemma {:induction false} PayloadIgnoresLength(t: AttributeType, l1: uint32, l2: uint32, pool: ConstantPool, buf: seq<uint8>, pos: nat)
    requires t != SourceDebugExtension
    ensures ParsePayload(t, l1, pool, buf, pos) == ParsePayload(t, l2, pool, buf, pos)
  {
    if t != Code {
      assert ParseSimplePayload(t, l1, buf, pos) == ParseSimplePayload(t, l2, buf, pos);
    }
  }

  /** The payload of a decoded SourceDebugExtension attribute is what its
      own loader reads at the end of the envelope with the declared length. */
  lemma {:induction false} SourceDebugExtensionPayload(pool: ConstantPool, buf: seq<uint8>, pos: nat, a: Parsed<AttributeInfo>)
    requires ParseAttributeInfo(pool, buf, pos) == Ok(a)
    requires a.item.attributeType == SourceDebugExtension
    ensures ParseSourceDebugExtension(a.item.attributeLength, buf, pos + 6) == Ok(Parsed(a.item.info, a.next))
  {
    AttributeInfoDecodes(pool, buf, pos);
    var e := ParseEnvelope(pool, buf, pos).value.item;
    assert e.attributeType == SourceDebugExtension && e.length == a.item.attributeLength;
  }

  /** SourceDebugExtension is the one type whose payload is exactly the
      declared `attribute_length` bytes after the envelope. */
  lemma SourceDebugExtensionSpansLength(pool: ConstantPool, buf: seq<uint8>, pos: nat, a: Parsed<AttributeInfo>)
    requires ParseAttributeInfo(pool, buf, pos) == Ok(a)
    requires a.item.attributeType == SourceDebugExtension
    ensures a.next == pos + 6 + a.item.attributeLength as nat
    ensures a.item.info == SourceDebugExtensionAttribute(buf[pos + 6..a.next], ToStdString(buf[pos + 6..a.next]))
  {
    SourceDebugExtensionPayload(pool, buf, pos, a);
  }

  /** A pool whose slot 1 is the Utf8 entry "Synthetic". */
  function SyntheticPool(): ConstantPool
  {
    [None, Some(CPInfo(CONSTANT_Utf8, ConstantUtf8Info(9, [83, 121, 110, 116, 104, 101, 116, 105, 99], "Synthetic")))]
  }

  /** The six bytes 00 01 00 00 00 09 name pool slot 1 and declare 9
      payload bytes. */
  lemma {:induction false} SyntheticEnvelope()
    ensures ParseEnvelope(SyntheticPool(), [0, 1, 0, 0, 0, 9], 0) == Ok(Parsed(Envelope(1, 9, "Synthetic", Synthetic), 6))
  {
    var buf: seq<uint8> := [0, 1, 0, 0, 0, 9];
    BigEndianTwo(0, 1);
    BigEndianFour(0, 0, 0, 9);
    assert buf[0..2] == [0, 1] && buf[2..6] == [0, 0, 0, 9];
    assert ReadUInt16(buf, 0) == Ok(Parsed(1, 2));
    assert ReadUInt32(buf, 2) == Ok(Parsed(9, 6));
    assert ResolveName(SyntheticPool(), 1) == Ok("Synthetic");
    assert AttributeName(Synthetic) == "Synthetic";
    AttributeNameSelects(Synthetic);
  }

  /** A Synthetic payload is empty, whatever length the envelope declared. */
  lemma {:induction false} SyntheticReadsNothing(length: uint32, pool: ConstantPool, buf: seq<uint8>, pos: nat)
    requires pos <= |buf|
    ensures ParsePayload(Synthetic, length, pool, buf, pos) == Ok(Parsed(SyntheticAttribute, pos))
  {
    assert ParseFixedPayload(Synthetic, buf, pos) == Ok(Parsed(SyntheticAttribute, pos));
  }

  /** An envelope declaring 9 payload bytes for a Synthetic attribute, which
      has none: the decode succeeds and the cursor stops right after the
      envelope, 9 bytes short of where the declared length ends. */
  lemma {:induction false} DeclaredLengthNotSkipped()
    ensures ParseAttributeInfo(SyntheticPool(), [0, 1, 0, 0, 0, 9], 0) ==
            Ok(Parsed(AttributeInfo(Synthetic, 1, 9, "Synthetic", SyntheticAttribute), 6))
  {
    SyntheticEnvelope();
    SyntheticReadsNothing(9, SyntheticPool(), [0, 1, 0, 0, 0, 9], 6);
  }
}
