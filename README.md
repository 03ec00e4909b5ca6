# cls2json class-file decoder, modelled in Dafny

This project models the decoding half of cls2json: the code that turns the
bytes of a Java `.class` file into a tree of objects (magic and version,
constant pool, access flags, class indices, interfaces, fields, methods and
attributes), following chapter 4 of the Java Virtual Machine Specification.
The model is stated over an immutable `seq<uint8>` and a cursor position.

- `decode_result.dfy` (module `DecodeResult`) defines:
  - the decode result `Result<Parsed<T>>`, which is a value and the position after it, or a `DecodeError`;
  - `Prepend`, which relates a counted loop's partial list to the whole decode.
- `byte_reader.dfy` (module `ByteReader`) holds:
  - `readUInt8`, `readUInt16` and `readUInt32`, big-endian and advancing the cursor by 1, 2 or 4;
  - the two shapes of the counted `for` loops: fixed-width rows (`ReadRows`) and variable-width records (`ReadList`, with the loop `LoadList`);
  - the encoders used by the round-trip lemmas.
- `constant_pool.dfy` (module `ConstantPoolDecoder`) holds:
  - `CPInfo::load`: the tag byte, the `switch`, and the 17 payload loaders;
  - the imperative Utf8 byte loop;
  - round trips in both directions: decoding an encoded entry gives the entry back, and re-encoding a decoded entry gives back the bytes it consumed.
- `attribute.dfy` (module `AttributeDecoder`) holds:
  - `AttributeInfo::load`: the envelope, the name lookup in the pool, the 28-way name chain, and every payload loader;
  - Code's recursive nested attribute list.
- `stack_map.dfy` (module `StackMapDecoder`) holds the StackMapFrame and VerificationTypeInfo family.
- `annotation.dfy` (module `AnnotationDecoder`) holds:
  - the mutually recursive ElementValue, Annotation and ArrayValue family;
  - the TypeAnnotation targets and type path.
- `member.dfy` (module `MemberDecoder`) holds `FieldInfo::load` and `MethodInfo::load`, which are the same code over the same layout.
- `class_file.dfy` (module `ClassFileDecoder`) holds:
  - `ClassFile::load` as a class whose fields the loaders fill in place: `loadConstantPool`, the interface loop, `loadFields`, `loadMethods` and `loadAttributes`;
  - `getAccessFlagsStr` and the count accessors.

The loaders of `ClassFile.cpp`, `FieldInfo.cpp` and `MethodInfo.cpp`, and
the Utf8 byte loop of `CPInfo.cpp`, are `method`s whose loops are proved
against specification functions (`LoadConstantPool` against
`ParseConstantPool`, `LoadFields` against `ParseCounted`, `Load` against
`ParseClassFile`, `LoadUtf8Info` against `ParseUtf8Info`, and so on). The
`AttributeInfo.cpp` loaders and the fixed-shape `Constant*Info::load`
loaders are functions over (buffer, position); their counted `for` loops
are `ReadRows` and `ReadList`, and `LoadList` is the push_back loop proved
equal to `ReadList`. The properties are proved about the specification
functions.

The model follows the code as written, including where the code departs
from the class-file format:

- Tag 15 (MethodHandle) builds a Methodref object, so it reads two u16 values (4 bytes), not a u1 and a u2.
- `StackMapFrame::load` reads two bytes: the first routes, the second is kept as `frameType_`.
- The 248–250 range test is empty, so `ChopFrame` is never selected, and frame types 248–250 are rejected.
- The `@` element value loads an annotation and then falls into the `[` case. The annotation is dropped, and an array read after it becomes the value.
- `TypeArgumentTarget::load` never reads `type_argument_index`.

The model also does not do some things the class-file format asks for,
because the code does not do them:

- **magic:** the magic number is stored and never compared with `0xcafebabe`.
- **attribute_length:** the declared `attribute_length` is never used to skip or to check a payload.
- **pool index wrap:** the pool loop's logical index is a 16-bit `uint16_t`. With a count of 0xFFFF and a Long or Double at index 0xFFFE, `index += 2` wraps to 0 and the loop keeps going (`PoolIndexWraps`).

Where the code reads past the buffer, indexes the pool out of range, or
follows a null pool slot, it has undefined behaviour. The model instead
returns an error: `OutOfBounds` or `InvalidNameIndex`.

`Load` decodes into the object's current lists. A fresh object's lists are
empty, so for a fresh object the result is exactly the decode. The fields
and methods are decoded against the whole pool as loaded so far, which is
what the source's `getConstantPool()` passes.

## Model

| member | source | states |
|---|---|---|
| ByteReader.ReadUInt8 | src/ByteReader.cpp:4-8 | succeeds exactly when one byte is left; gives `buf[pos]` and advances the cursor by exactly one; otherwise fails with `OutOfBounds(pos, 1)` |
| ByteReader.ReadUInt16 | src/ByteReader.cpp:10-14 | succeeds exactly when two bytes are left; gives the big-endian u16 at `pos` and advances by exactly two; otherwise `OutOfBounds(pos, 2)` |
| ByteReader.ReadUInt32 | src/ByteReader.cpp:16-20 | succeeds exactly when four bytes are left; gives the big-endian u32 at `pos` and advances by exactly four; otherwise `OutOfBounds(pos, 4)` |
| ByteReader.U16AtIsBigEndian | src/ByteReader.cpp:11 | the byte-swapped u16 load equals the reference base-256 reading of `buf[i..i+2]`, most significant byte first |
| ByteReader.U32AtIsBigEndian | src/ByteReader.cpp:17 | the byte-swapped u32 load equals the reference base-256 reading of `buf[i..i+4]` |
| ByteReader.ReadUInt8Encode | src/ByteReader.cpp:4-8 | round trip: a byte placed anywhere in a buffer is read back, and the cursor lands right after it |
| ByteReader.ReadUInt16Encode | src/ByteReader.cpp:10-14 | round trip: a u16 encoded big-endian anywhere in a buffer is read back, and the cursor advances by two |
| ByteReader.ReadUInt32Encode | src/ByteReader.cpp:16-20 | round trip: a u32 encoded big-endian anywhere in a buffer is read back, and the cursor advances by four |
| ByteReader.ReadUInt16Exact | src/ByteReader.cpp:10-14 | the other direction: re-encoding the u16 read at `pos` gives exactly `buf[pos..pos+2]` |
| ByteReader.ReadUInt32Exact | src/ByteReader.cpp:16-20 | re-encoding the u32 read at `pos` gives exactly `buf[pos..pos+4]` |
| ByteReader.ReadBytes | src/CPInfo.cpp:85-87 | the value the byte-by-byte copy loop computes: succeeds exactly when `n` bytes remain; the copy is `buf[pos..pos+n]` in order, and the cursor advances by `n` |
| ByteReader.ToStdString | src/CPInfo.cpp:89 | the string built from the bytes has one character per byte, with the same code, in order |
| ByteReader.ReadRows | src/AttributeInfo.cpp:387-399 | `n` fixed-width records: succeeds exactly when all of them fit; gives `n` items, item `i` decoded at `pos + i*width`; ends after the last record |
| ByteReader.ReadUInt16s | src/ClassFile.cpp:31-34 | `n` u16 values: succeeds exactly when they fit; item `i` is the big-endian u16 at `pos + 2i` |
| ByteReader.ReadList | src/ClassFile.cpp:84-90 | `n` variable-width records, each read where the previous one ended: a success has exactly `n` items; if the first record fails, the list fails with that record's error; the cursor stays inside the buffer when every record's does |
| ByteReader.ReadListHead | src/ClassFile.cpp:84-90 | a list of `n > 0` records is its first record followed by a list of `n - 1` starting where the first ended |
| ByteReader.ReadListStep | src/ClassFile.cpp:84-90 | one pass of a counted loop: the records pushed so far plus the rest of the list equal the pushed records plus the new one, plus the shorter rest |
| ByteReader.LoadList | src/FieldInfo.cpp:15-23 | the counted `for` loop (decode, return on failure, `push_back`) returns exactly the list decode `ReadList` |
| ByteReader.ParseCounted | src/ClassFile.cpp:81-93 | a u16 count, then that many records: it is the list decode of `U16At(pos)` records from `pos + 2`; on success the number of items is the count; with fewer than two bytes it fails with `OutOfBounds(pos, 2)` |
| ConstantPoolDecoder.ParseUtf8Info | src/CPInfo.cpp:83-94 | succeeds exactly when the u16 length and that many bytes fit; the cursor ends right after the bytes; the entry holds the declared length, the bytes `buf[pos+2..next]` in order, and the string of those bytes |
| ConstantPoolDecoder.LoadUtf8Info | src/CPInfo.cpp:83-94 | the `push_back` loop decodes exactly what `ParseUtf8Info` specifies |
| ConstantPoolDecoder.ParseInfo | src/CPInfo.cpp:8-32 | a tag outside {1,3..12,15..20} fails with `InvalidConstantTag(tag)`; for a known tag it succeeds exactly when that tag's payload fits; it consumes exactly that payload's size (4 bytes for tag 15), and it builds the object the `switch` builds (Methodref for tag 15) |
| ConstantPoolDecoder.ParseCPInfo | src/CPInfo.cpp:6-35 | succeeds exactly when a tag byte is present, the tag is known and its payload fits; an unknown tag fails with `InvalidConstantTag`; the entry keeps the tag byte, and the cursor ends after tag and payload |
| ConstantPoolDecoder.LoadCPInfo | src/CPInfo.cpp:6-35 | `CPInfo::load` with the Utf8 byte loop decodes exactly what `ParseCPInfo` specifies |
| ConstantPoolDecoder.ParseMethodHandleInfo | src/CPInfo.cpp:96-99 | the loader the dispatch never reaches: it reads 4 bytes, keeps only the low byte of the first u16 as `referenceKind`, and keeps the second u16 as `referenceIndex` |
| ConstantPoolDecoder.Utf8Encode | src/CPInfo.cpp:83-94 | round trip: a consistent Utf8 entry laid out anywhere in a buffer decodes to itself and consumes exactly its encoding |
| ConstantPoolDecoder.ParseIndexInfoEncode | src/CPInfo.cpp:37-39 | round trip for Class, String, MethodType, Module and Package: the payload is exactly one u16 and decodes to the same object |
| ConstantPoolDecoder.ParsePairInfoEncode | src/CPInfo.cpp:41-54 | round trip for Fieldref, Methodref, InterfaceMethodref, NameAndType, Dynamic and InvokeDynamic: exactly two u16 values, decoded to the same object |
| ConstantPoolDecoder.ParseNumericInfoEncode | src/CPInfo.cpp:60-76 | round trip for Integer and Float (one u32 of raw bits) and for Long and Double (high word, then low word) |
| ConstantPoolDecoder.ParseInfoEncode | src/CPInfo.cpp:8-32 | round trip: every payload object the `switch` can build for a tag decodes, from its own layout anywhere in a buffer, to itself, and consumes exactly that layout |
| ConstantPoolDecoder.ParseCPInfoEncode | src/CPInfo.cpp:6-35 | round trip for whole entries: tag byte plus payload decode to the same entry and consume exactly their bytes |
| ConstantPoolDecoder.ParseInfoExact | src/CPInfo.cpp:37-121 | the other direction: re-encoding a decoded payload gives back exactly the bytes it consumed |
| ConstantPoolDecoder.ParseCPInfoExact | src/CPInfo.cpp:6-35 | the decoder loses nothing: re-encoding a decoded entry gives back exactly the bytes between `pos` and where it ended |
| AttributeDecoder.AttributeTypeCount | src/AttributeInfo.h:9-38 | `AttributeType` has 28 variants, each listed once |
| AttributeDecoder.AttributeTypesComplete | src/AttributeInfo.h:9-38 | every variant of the enum is in the table the name chain searches |
| AttributeDecoder.AttributeNamesDistinct | src/AttributeInfo.cpp:18-133 | no two attribute types have the same name |
| AttributeDecoder.FindMatchesName | src/AttributeInfo.cpp:18-133 | a type the name chain selects is one whose name equals the resolved name |
| AttributeDecoder.AttributeNameSelects | src/AttributeInfo.cpp:18-133 | every attribute type is selected by its own name |
| AttributeDecoder.AttributeNameKnown | src/AttributeInfo.cpp:18-133 | a name is accepted exactly when it is the name of one of the 28 types; any other name is rejected |
| AttributeDecoder.ResolveName | src/AttributeInfo.cpp:10-17 | the name resolves exactly when the slot exists, is filled and holds a Utf8 entry, and then it is that entry's string; a missing or null slot gives `InvalidNameIndex` (undefined behaviour in the source), and a non-Utf8 entry gives the source's error |
| AttributeDecoder.ParseEnvelope | src/AttributeInfo.cpp:7-133 | succeeds exactly when the six envelope bytes fit, the name resolves and the name is one of the known names; it gives the u16 name index, the u32 length, the name and the selected type, with the cursor at `pos + 6`; each failure carries its own error |
| AttributeDecoder.ParseAttributeInfo | src/AttributeInfo.cpp:6-140 | a decoded attribute consumes at least its six envelope bytes and stays inside the buffer |
| AttributeDecoder.AttributeInfoDecodes | src/AttributeInfo.cpp:6-140 | a failing envelope fails the attribute with the same error; a decoded attribute carries the envelope's index, length, name and type, and its payload is what the selected loader reads right after the envelope |
| AttributeDecoder.ParsePayload | src/AttributeInfo.cpp:135-137 | the selected loader builds a payload of the selected type; the cursor never moves backwards or past the end; SourceDebugExtension's payload is its own loader's result |
| AttributeDecoder.PayloadIgnoresLength | src/AttributeInfo.cpp:135-137 | for every type except SourceDebugExtension, the payload (and so where the cursor ends) does not depend on the declared `attribute_length` |
| AttributeDecoder.SyntheticEnvelope | src/AttributeInfo.cpp:42-45 | a concrete envelope: the bytes 00 01 00 00 00 09 resolve pool slot 1 to "Synthetic" and declare 9 bytes |
| AttributeDecoder.SyntheticReadsNothing | src/AttributeInfo.cpp:354-356 | a Synthetic payload reads nothing, whatever length was declared |
| AttributeDecoder.DeclaredLengthNotSkipped | src/AttributeInfo.cpp:6-140 | a Synthetic attribute declaring 9 payload bytes decodes, and its cursor stops right after the envelope, 9 bytes short of the declared end |
| AttributeDecoder.ParseSimplePayload | src/AttributeInfo.cpp:135-137 | the loaders of every type but Code: the payload has the selected type; the cursor stays in the buffer; a fixed-size payload succeeds exactly when its size fits and consumes exactly that size |
| AttributeDecoder.ParseFixedPayload | src/AttributeInfo.cpp:347-356 | the fixed-size loaders (ConstantValue, EnclosingMethod, Synthetic, Deprecated, Signature, SourceFile, ModuleMainClass, NestHost): the payload has the selected type, succeeds exactly when its size fits, and consumes exactly that size; a one-index payload holds the u16 at `pos`, and EnclosingMethod holds the class index at `pos` and the method index at `pos + 2` |
| AttributeDecoder.ParseIndexPayload | src/AttributeInfo.cpp:142-146 | a one-index payload succeeds exactly when two bytes remain, consumes two, and wraps the u16 at `pos` |
| AttributeDecoder.ParseSourceDebugExtension | src/AttributeInfo.cpp:370-378 | succeeds exactly when `attribute_length` bytes remain; consumes exactly those bytes and keeps them verbatim, and as a string |
| AttributeDecoder.SourceDebugExtensionPayload | src/AttributeInfo.cpp:370-378 | in a decoded SourceDebugExtension attribute, the payload is what its loader reads right after the envelope with the declared length |
| AttributeDecoder.SourceDebugExtensionSpansLength | src/AttributeInfo.cpp:370-378 | the one type whose payload is exactly the declared `attribute_length` bytes: it ends at `pos + 6 + length`, and holds these bytes |
| AttributeDecoder.ParseCode | src/AttributeInfo.cpp:157-186 | a decoded Code payload is a Code attribute of at least 12 bytes, inside the buffer |
| AttributeDecoder.CodeHeader | src/AttributeInfo.cpp:157-186 | max_stack and max_locals are the two u16 values at the start; the code array has exactly `code_length` (the u32 at `pos + 4`) bytes, copied verbatim from right after it; the exception table is the u16-counted table of 8-byte rows (start_pc, end_pc, handler_pc, catch_type) read right after the code; then a u16 count and exactly that many attributes decoded against the same pool, read right after the table and ending the payload |
| AttributeDecoder.ParseAttributes | src/AttributeInfo.cpp:175-183 | `n` attributes in a row: a success has exactly `n` of them and never moves the cursor backwards or out of the buffer; a failing first attribute fails the list with its error |
| AttributeDecoder.AttributesAreList | src/FieldInfo.cpp:15-23 | the recursive attribute list is the generic counted-loop list over `AttributeInfo::load`, so the loops built on `LoadList` decode it |
| AttributeDecoder.ParseTable | src/AttributeInfo.cpp:387-399 | a u16 count, then that many fixed-width rows: succeeds exactly when all rows fit; the row count is the u16, and row `i` is decoded at `pos + 2 + i*width` |
| AttributeDecoder.ParseIndexTable | src/AttributeInfo.cpp:315-322 | a u16 count, then that many u16 indices: succeeds exactly when they fit; index `i` is the u16 at `pos + 2 + 2i` |
| AttributeDecoder.ParseTablePayload | src/AttributeInfo.cpp:315-345 | the table-shaped loaders: the payload has the selected type, and the cursor stays in the buffer |
| AttributeDecoder.ParseAnnotationPayload | src/AttributeInfo.cpp:562-626 | the annotation-shaped loaders: the payload has the selected type, and it consumes at least one byte inside the buffer |
| AttributeDecoder.ParseStackMapTable | src/AttributeInfo.cpp:300-313 | a u16 count, then exactly that many frames, entry i being the frame `StackMapFrame::load` decodes where entry i-1 ended (`ParseCounted` over `ParseStackMapFrame`) |
| AttributeDecoder.ParseBootstrapMethods | src/AttributeInfo.cpp:819-830 | a u16 count, then exactly that many bootstrap methods, each the record `ParseBootstrapMethod` decodes where the previous one ended |
| AttributeDecoder.ParseBootstrapMethod | src/AttributeInfo.cpp:808-816 | succeeds exactly when the method reference and the argument table fit; the reference is the first u16; the arguments are the u16-counted index table read right after it, ending the record |
| AttributeDecoder.ParseMethodParameters | src/AttributeInfo.cpp:839-850 | a u8 count, then that many 4-byte rows: succeeds exactly when they fit; row `i` is read at `pos + 1 + 4i` |
| AttributeDecoder.ParseExports | src/AttributeInfo.cpp:860-870 | succeeds exactly when the header and the target table fit; the package index and the flags are the first two u16 values; the target modules are the u16-counted index table after them |
| AttributeDecoder.ParseOpens | src/AttributeInfo.cpp:872-882 | succeeds exactly when the header and the target table fit; the package index and the flags are the first two u16 values; the target modules are the u16-counted index table after them |
| AttributeDecoder.ParseProvides | src/AttributeInfo.cpp:884-893 | succeeds exactly when the service index and the provider table fit; the providers are the u16-counted index table after the service index |
| AttributeDecoder.ParseModule | src/AttributeInfo.cpp:895-942 | a decoded Module payload is a Module attribute of at least 16 bytes, inside the buffer |
| AttributeDecoder.ParseModuleTables | src/AttributeInfo.cpp:905-941 | the requires rows, exports, opens, uses indices and provides, each a u16-counted table read where the previous one ended: the requires rows (exactly their count) and the uses indices are fixed-width tables, and the exports, opens and provides are counted record lists |
| AttributeDecoder.ModuleHeader | src/AttributeInfo.cpp:895-942 | the name, flags and version indices are the first three u16 values; the requires count is the fourth; the five tables of the payload are what `ParseModuleTables` reads right after the header, ending the payload |
| StackMapDecoder.ParseVerificationTypeInfo | src/AttributeInfo.cpp:188-196 | one tag byte, then a u16 exactly when the tag is Object (7) or Uninitialized (8); no tag is rejected; it succeeds exactly when those bytes fit |
| StackMapDecoder.ParseVerificationTypeInfos | src/AttributeInfo.cpp:240-245 | `n` verification types: exactly `n` items, and the cursor stays in the buffer |
| StackMapDecoder.ParseSameLocals1StackItemFrame | src/AttributeInfo.cpp:202-209 | one verification type, which is the frame's stack item; succeeds exactly when it decodes |
| StackMapDecoder.ParseSameLocals1StackItemFrameExtended | src/AttributeInfo.cpp:211-220 | a u16 offset_delta, then one verification type at `pos + 2` that is the stack item; succeeds exactly when both fit |
| StackMapDecoder.ParseSameFrameExtended | src/AttributeInfo.cpp:227-231 | exactly a u16 offset_delta |
| StackMapDecoder.ParseChopFrame | src/AttributeInfo.cpp:221-225 | the loader no frame type reaches: exactly a u16 offset_delta |
| StackMapDecoder.ParseAppendFrame | src/AttributeInfo.cpp:233-248 | the offset_delta, then `frameType - 251` verification types, counted on `uint8_t`, so it wraps below 251; the frame keeps the type it was built with |
| StackMapDecoder.ParseCountedTypes | src/AttributeInfo.cpp:250-276 | a u16 count, then exactly that many verification types |
| StackMapDecoder.ParseFullFrame | src/AttributeInfo.cpp:250-276 | the offset_delta, then the u16-counted locals, then the u16-counted stack read where the locals ended |
| StackMapDecoder.ParseFrame | src/AttributeInfo.cpp:282-296 | the routing table: ≤63 same, ≤127 same-locals-1, 247 extended, 251 same-extended, 252–254 append with `t - 251` locals, and 255 full; anything else (248–250 included) fails with `InvalidFrameType` |
| StackMapDecoder.ParseStackMapFrame | src/AttributeInfo.cpp:278-298 | reads a routing byte and a second byte kept as `frameType`; an unknown routing byte fails; the frame is the one the routing byte selects |
| StackMapDecoder.ParseStackMapFrames | src/AttributeInfo.cpp:305-311 | exactly `n` frames, each the frame `ParseStackMapFrame` decodes where the previous one ended, with the first failure returned; the cursor stays in the buffer |
| StackMapDecoder.SameFrameReadsTwoBytes | src/AttributeInfo.cpp:279-280 | a same_frame, one byte in the class-file format, consumes two bytes, and the second byte becomes its `frameType` |
| StackMapDecoder.NoChopFrame | src/AttributeInfo.cpp:285 | no input decodes to a chop frame |
| StackMapDecoder.VerificationTypeInfoAt | src/AttributeInfo.cpp:188-196 | round trip: a well-formed verification type laid out in a buffer decodes to itself and consumes exactly its bytes |
| StackMapDecoder.VerificationTypeInfosAt | src/AttributeInfo.cpp:240-245 | round trip for a run of verification types |
| StackMapDecoder.AppendFrameAt | src/AttributeInfo.cpp:233-248 | round trip for an append frame of type 252–254 with `type - 251` locals |
| StackMapDecoder.CountedTypesAt | src/AttributeInfo.cpp:255-274 | round trip for a u16-counted list of verification types |
| StackMapDecoder.FullFramePartsAt | src/AttributeInfo.cpp:250-276 | round trip for a full frame laid out as offset, locals and stack |
| StackMapDecoder.FullFrameAt | src/AttributeInfo.cpp:250-276 | round trip for a well-formed full frame |
| StackMapDecoder.FrameAt | src/AttributeInfo.cpp:282-296 | round trip: each frame the routing byte can select decodes from its own layout |
| StackMapDecoder.StackMapFrameEncode | src/AttributeInfo.cpp:278-298 | round trip for a whole stack-map entry: the routing byte, the stored type byte and the payload decode back to the same entry |
| StackMapDecoder.StackMapFramesAt | src/AttributeInfo.cpp:305-311 | round trip for the entries of a StackMapTable: consecutive encodable frames decode, one after another, back to the same list, ending right after the last |
| AnnotationDecoder.ParseElementValue | src/AttributeInfo.cpp:492-536 | a decoded element value keeps its tag byte and consumes at least one byte in the buffer; it never holds an annotation, because the `@` case falls through into `[` |
| AnnotationDecoder.ElementValueByTag | src/AttributeInfo.cpp:492-536 | the tag decides: `B C D F I J S Z s c` read exactly one u16; `e` reads exactly two; `@` and `[` yield an array; any other tag fails |
| AnnotationDecoder.ParseEnumConstValue | src/AttributeInfo.cpp:451-456 | exactly two u16 values: the type name index, then the constant name index |
| AnnotationDecoder.ParseArrayValue | src/AttributeInfo.cpp:458-469 | a u16 count, then the values; the result is an array value inside the buffer |
| AnnotationDecoder.ParseElementValues | src/AttributeInfo.cpp:462-467 | exactly `n` element values, with the cursor not moving backwards |
| AnnotationDecoder.ParseElementValuePair | src/AttributeInfo.cpp:538-546 | the element name index, then a value: at least three bytes inside the buffer |
| AnnotationDecoder.ParseElementValuePairs | src/AttributeInfo.cpp:551-557 | exactly `n` pairs, with the cursor not moving backwards |
| AnnotationDecoder.ParseAnnotation | src/AttributeInfo.cpp:548-560 | the type index, the count, then that many pairs: at least four bytes inside the buffer |
| AnnotationDecoder.RecordHeads | src/AttributeInfo.cpp:458-560 | an array holds exactly its u16 count of values; a pair's name index is its first u16; an annotation's type index is its first u16, and it has exactly the count of pairs in the second |
| AnnotationDecoder.ParseAnnotations | src/AttributeInfo.cpp:562-573 | a u16 count, then exactly that many annotations, each the one `ParseAnnotation` decodes where the previous one ended |
| AnnotationDecoder.ParseParameterAnnotation | src/AttributeInfo.cpp:588-599 | the annotations are exactly what `ParseAnnotations` decodes at the same position, and its error on failure |
| AnnotationDecoder.ParseParameterAnnotations | src/AttributeInfo.cpp:601-613 | a u8 count, then exactly that many parameter annotations, each the one `ParseParameterAnnotation` decodes where the previous one ended; OutOfBounds without the count byte |
| AnnotationDecoder.ParseLocalvarTarget | src/AttributeInfo.cpp:663-682 | a u16 count, then that many 6-byte rows: succeeds exactly when they fit, ends after the last row, and row `i` holds start_pc, length and index read at `pos + 2 + 6i` |
| AnnotationDecoder.ParseTargetInfo | src/AttributeInfo.cpp:628-771 | only target types 0x00–0x01, 0x10–0x17 and 0x40–0x4b are accepted, and others fail with `InvalidTargetType`; a fixed target succeeds exactly when its size fits and consumes exactly that size; each target's fields are the u1 or u2 values at `pos` (localvar rows as in `ParseLocalvarTarget`); a type-argument target never reads `type_argument_index`, which stays 0 |
| AnnotationDecoder.ParseTypePath | src/AttributeInfo.cpp:702-720 | a u8 count, then that many 2-byte entries: succeeds exactly when they fit; entry `i` is the two bytes at `pos + 1 + 2i` |
| AnnotationDecoder.ParseTypeAnnotation | src/AttributeInfo.cpp:722-771 | an unknown target type fails; the annotation keeps the target type byte; the target is the one its loader reads after that byte; the type path is read where the target ends; type_index is the u16 after the path, and the pairs are exactly the u16-counted element/value pairs after it, ending the annotation |
| AnnotationDecoder.ParseTypeAnnotations | src/AttributeInfo.cpp:773-784 | a u16 count, then exactly that many type annotations, each the one `ParseTypeAnnotation` decodes where the previous one ended |
| AnnotationDecoder.AnnotationsAt | src/AttributeInfo.cpp:562-573 | round trip for a Runtime(In)VisibleAnnotations payload: a u16 count and well-formed annotations decode back to the same list, consuming exactly their bytes |
| AnnotationDecoder.ParameterAnnotationAt | src/AttributeInfo.cpp:588-599 | round trip for one parameter's u16-counted annotations |
| AnnotationDecoder.ParameterListAt | src/AttributeInfo.cpp:601-613 | round trip for the entries of a Runtime(In)VisibleParameterAnnotations table (read after its u8 count): consecutive parameter entries decode back to the same list, ending right after the last |
| AnnotationDecoder.ElementValueAt | src/AttributeInfo.cpp:492-536 | round trip: a well-formed element value laid out in a buffer decodes to itself, and the cursor lands right after it |
| AnnotationDecoder.ArrayValueAt | src/AttributeInfo.cpp:458-469 | round trip for an array value |
| AnnotationDecoder.ElementValuesAt | src/AttributeInfo.cpp:462-467 | round trip for a run of element values |
| AnnotationDecoder.PairAt | src/AttributeInfo.cpp:538-546 | round trip for an element/value pair |
| AnnotationDecoder.PairsAt | src/AttributeInfo.cpp:551-557 | round trip for a run of pairs |
| AnnotationDecoder.AnnotationAt | src/AttributeInfo.cpp:548-560 | round trip for an annotation |
| AnnotationDecoder.ElementValueRoundTrip | src/AttributeInfo.cpp:492-536 | whole-buffer round trip: decoding the encoding of a well-formed value, followed by anything, gives the value back |
| AnnotationDecoder.AnnotationTagReadsArray | src/AttributeInfo.cpp:519-531 | tag `@`: after the annotation, the bytes are read as an array; the value is that array, and the annotation is lost |
| AnnotationDecoder.AnnotationTagAloneFails | src/AttributeInfo.cpp:519-531 | an `@` value laid out as the class-file format defines it (the tag, then the annotation alone) is rejected when nothing follows it |
| MemberDecoder.ParseAttributeTable | src/FieldInfo.cpp:15-23 | a u16 attributes_count, then that many attributes: succeeds exactly when the count fits and the list decodes; exactly `attributes_count` attributes, in order |
| MemberDecoder.ParseMemberInfo | src/FieldInfo.cpp:10-26 | access_flags, name_index and descriptor_index are the three u16 values in order; then the attribute table, whose failure fails the member with the same error |
| MemberDecoder.LoadMemberInfo | src/MethodInfo.cpp:10-26 | the loader as written (three reads, the count, the loop) decodes exactly what `ParseMemberInfo` specifies |
| ClassFileDecoder.EntrySlots | src/ClassFile.cpp:67-75 | one entry fills two slots when it is a Long or Double, and one otherwise |
| ClassFileDecoder.NextIndex | src/ClassFile.cpp:72-74 | the logical index advances by the number of slots pushed, on 16 bits |
| ClassFileDecoder.ParsePoolSlots | src/ClassFile.cpp:60-76 | the loop stops, with nothing more, once the index reaches the count; an entry that fails aborts with its error; the cursor stays in the buffer |
| ClassFileDecoder.ParseConstantPool | src/ClassFile.cpp:54-79 | slot 0 is the null placeholder, then the slots of the loop; any failure is the loop's own |
| ClassFileDecoder.PoolSlotsLaidOut | src/ClassFile.cpp:60-76 | every slot the loop fills after a Long or Double is null, every other slot holds an entry, and each entry is of a kind its tag builds |
| ClassFileDecoder.ConstantPoolLaidOut | src/ClassFile.cpp:54-79 | slot 0 is null; any other slot is null exactly when a Long or Double sits right before it; every entry is decoded |
| ClassFileDecoder.PoolSlotsCount | src/ClassFile.cpp:60-76 | without the 16-bit wrap, slot `i` is logical index `i`: the loop stops exactly at the count, or one past it when the last entry is wide |
| ClassFileDecoder.ConstantPoolSize | src/ClassFile.cpp:54-79 | the pool has `constant_pool_count` slots (one when the count is 0); it has one more when a Long or Double is the entry at index `count - 1` |
| ClassFileDecoder.PoolIndexWraps | src/ClassFile.cpp:70-72 | with a count of 0xFFFF and a wide entry at index 0xFFFE, the index wraps to 0 and the loop goes on decoding |
| ClassFileDecoder.ParseHeader | src/ClassFile.cpp:17-20 | magic u32, minor u16, major u16 and constant_pool_count u16, in that order; it succeeds exactly when ten bytes are present, and ends at 10 |
| ClassFileDecoder.ParseClassBody | src/ClassFile.cpp:27-49 | access_flags, this_class and super_class are the three u16 values after the pool; every list came with a u16 count; fewer than six bytes is a bounds error |
| ClassFileDecoder.ClassBodyStages | src/ClassFile.cpp:31-48 | after super_class the body reads the interface index table, then the fields, the methods and the attributes, each u16-counted list starting where the previous one ended; the first list that fails fails the body with its error, and otherwise the body holds exactly these lists |
| ClassFileDecoder.ParseClassFileWith | src/ClassFile.cpp:7-52 | the header values are the bytes at 0, 4, 6 and 8; the pool is the pool decode from offset 10 with the declared count; every list has fewer than 0x10000 entries; fewer than 10 bytes is a bounds error; a failing pool fails the whole load with its error |
| ClassFileDecoder.ParseClassFile | src/ClassFile.cpp:22-48 | once the header and the pool are read, the load with `FieldInfo::load`, `MethodInfo::load` and `AttributeInfo::load` against the old pool plus the new slots fails exactly when the class body fails, with its error, and otherwise stores the new pool slots and every part of the body |
| ClassFileDecoder.ClassInterfacesAreTable | src/ClassFile.cpp:31-34 | the interface loop reads exactly the u16-counted row of indices |
| ClassFileDecoder.ClassAttributesAreTable | src/ClassFile.cpp:111-125 | `loadAttributes` reads the class attributes exactly as `FieldInfo::load` reads its own table |
| ClassFileDecoder.ClassFilePoolLaidOut | src/ClassFile.cpp:22-25 | the pool of a decoded class file follows the slot rule |
| ClassFileDecoder.ClassFileCountsFit | src/ClassFile.h:60-98 | after a decode, every list holds fewer than 0x10000 entries, so the `uint16_t` count accessors give the true sizes |
| ClassFileDecoder.ZeroBytesDecode | src/ClassFile.cpp:17-20 | twenty-four zero bytes decode as a class file whose magic 0 is not `MAGIC`: the magic is stored, never checked |
| ClassFileDecoder.TerminatedIsJoin | src/ClassFile.cpp:140-142 | appending `\|` after each name and then dropping the last character is joining the names with `\|` |
| ClassFileDecoder.FlagStep | src/ClassFile.cpp:130-138 | one `if`: the text grows by the name and a `\|` exactly when the bit is set |
| ClassFileDecoder.FlagMask | src/ClassFile.h:112-120 | a flags value has no bit of 0xF631 exactly when none of the nine named flags (including the source's `ACC_SYSTHETIC`, 0x1000) is set |
| ClassFileDecoder.FlagNamesPlain | src/ClassFile.cpp:130-138 | every listed name is non-empty and contains no `\|` |
| ClassFileDecoder.FlagListed | src/ClassFile.cpp:130-138 | a name is listed exactly when it is the name of one of the nine flags and that flag is set |
| ClassFileDecoder.FlagsStringEmpty | src/ClassFile.cpp:127-145 | the string is empty exactly when none of the nine flags is set |
| ClassFileDecoder.FlagsStringNoStraySeparator | src/ClassFile.cpp:127-145 | a non-empty flag string neither starts nor ends with `\|` |
| ClassFileDecoder.IndicesAreList | src/ClassFile.cpp:31-34 | reading the interface indices one u16 at a time gives the row read |
| ClassFileDecoder.ClassFile.constructor | src/ClassFile.h:20 | a fresh object has every list empty |
| ClassFileDecoder.ClassFile.CPAt | src/ClassFile.h:45-47 | on a pool laid out by the loader, slot `index` is null exactly when it is slot 0 or follows a Long or Double, and otherwise holds an entry of a known tag with the payload kind that tag builds |
| ClassFileDecoder.ClassFile.PushEntry | src/ClassFile.cpp:67-75 | pushes the entry, and a null slot after a Long or Double; the index advances by the number of slots pushed |
| ClassFileDecoder.ClassFile.LoadPoolEntry | src/ClassFile.cpp:62-75 | one pass of the loop: a failing entry fails the pool with its error; otherwise the pushed slots extend the pool and the cursor moves forward |
| ClassFileDecoder.ClassFile.LoadConstantPool | src/ClassFile.cpp:54-79 | succeeds exactly when `ParseConstantPool` does, with the same error on failure; on success the pool is the old pool plus exactly the decoded slots, and the cursor is where the decode ends |
| ClassFileDecoder.ClassFile.LoadInterfaces | src/ClassFile.cpp:31-34 | the interface list grows by exactly the counted u16 indices, in order; it fails exactly when they do not fit |
| ClassFileDecoder.ClassFile.LoadFields | src/ClassFile.cpp:81-93 | the field list grows by exactly the counted records, in order; the first failure aborts with its error |
| ClassFileDecoder.ClassFile.LoadMethods | src/ClassFile.cpp:95-109 | the method list grows by exactly the counted records, in order; the first failure aborts with its error |
| ClassFileDecoder.ClassFile.LoadAttributes | src/ClassFile.cpp:111-125 | the attribute list grows by exactly the counted records, in order; the first failure aborts with its error |
| ClassFileDecoder.ClassFile.LoadHeader | src/ClassFile.cpp:17-20 | the four header fields hold the decoded header, and the cursor is at 10 |
| ClassFileDecoder.ClassFile.LoadPrefix | src/ClassFile.cpp:17-25 | the header, then the pool with the declared count, each stage matching its decode; the new slots follow the slot rule |
| ClassFileDecoder.ClassFile.LoadBody | src/ClassFile.cpp:27-49 | the three indices and the four lists hold exactly the decoded body, appended to the old lists; it fails exactly when the body decode does, with the same error |
| ClassFileDecoder.ClassFile.LoadWith | src/ClassFile.cpp:7-52 | the object load succeeds exactly when the decode does, with the same error; on success every field holds the decode, appended to what the object held before, and the new pool slots follow the slot rule |
| ClassFileDecoder.ClassFile.Load | src/ClassFile.cpp:7-52 | `ClassFile::load` with `FieldInfo::load`, `MethodInfo::load` and `AttributeInfo::load`: succeeds exactly when `ParseClassFile` does, and then holds exactly its result |
| ClassFileDecoder.ClassFile.AppendIfSet | src/ClassFile.cpp:130-138 | one `if` of `getAccessFlagsStr`: after it, the text is the set flags' names so far, each followed by `\|` |
| ClassFileDecoder.ClassFile.AccessFlagsStr | src/ClassFile.cpp:127-145 | the result is the names of the set flags, in the fixed order, joined with `\|` |
| ClassFileDecoder.ClassFile.InterfacesCount | src/ClassFile.h:60-62 | the size of the interface list, when it fits in 16 bits |
| ClassFileDecoder.ClassFile.FieldsCount | src/ClassFile.h:72-74 | the size of the field list, when it fits in 16 bits |
| ClassFileDecoder.ClassFile.MethodsCount | src/ClassFile.h:84-86 | the size of the method list, when it fits in 16 bits |
| ClassFileDecoder.ClassFile.AttributesCount | src/ClassFile.h:96-98 | the size of the attribute list, when it fits in 16 bits |

## Left out

- Opening and mapping the file (`Mmapper`, the `mmap` call in `ClassFile::load`) is file I/O. The model takes the file's bytes as a `seq<uint8>`.
- `Main.cpp` is command-line parsing and output, so it is not modelled.
- Every `toString` and `fmt` is the JSON renderer, not decoding.
- `isNan`, `getFloatValue` and `getDoubleValue` are floating point. Float and Double entries keep their raw bits only.
- The `ElementValue` destructor and its raw `void*` ownership are manual memory management. A datatype needs neither.
- Getters that only return a field are not modelled: `getMagic`, `getThisClass`, the per-entry getters, and the `FieldInfo.h` and `MethodInfo.h` accessors. Only the count accessors and `getCPAt` carry logic.
- ClassFileDecoder.ClassFile.CPAt: requires the index to be in range. The source indexes without a check, which is undefined behaviour out of range.
- Reads past the end of the buffer, an out-of-range pool index and a null pool slot are undefined behaviour in the source. The model returns `OutOfBounds` or `InvalidNameIndex` for them.
- Objects other than `ClassFile` (CPInfo, FieldInfo, MethodInfo, AttributeInfo and the payloads) are modelled as values built once by their loader. They are never updated after their `load` returns.
- ClassFileDecoder.ClassFile.Load: on failure the contract does not say what the object holds. The source keeps every entry it pushed before the failing stage.
- ClassFileDecoder.ClassFile.LoadWith: on failure, same as `Load`: the partially filled object is not described.
- ClassFileDecoder.ClassFile.LoadBody: on failure only the error is stated.
- ClassFileDecoder.ClassFile.LoadFields: on failure only the error is stated, not the fields pushed before the failing one.
- ClassFileDecoder.ClassFile.LoadMethods: on failure only the error is stated, not the methods pushed before the failing one.
- ClassFileDecoder.ClassFile.LoadAttributes: on failure only the error is stated, not the attributes pushed before the failing one.
- ClassFileDecoder.ClassFile.LoadInterfaces: on failure only the error is stated, not the indices pushed before the end of the buffer.
- ClassFileDecoder.ClassFile.LoadConstantPool: on failure only the error is stated, not the slots pushed before the failing entry.
- ClassFileDecoder.ClassFile.LoadFields, LoadMethods and LoadAttributes take the record decoder as a parameter. `Load` binds `FieldInfo::load`, `MethodInfo::load` and `AttributeInfo::load`, each closed over the pool as loaded so far.
- ClassFileDecoder.ClassFile.InterfacesCount: exact only while the list has fewer than 0x10000 entries. Above that the source truncates the size to 16 bits, and the contract says nothing. `ClassFileCountsFit` shows that a decode of a file into a fresh object stays below that size.
- ClassFileDecoder.ClassFile.FieldsCount: exact only below 0x10000 entries, as for `InterfacesCount`.
- ClassFileDecoder.ClassFile.MethodsCount: exact only below 0x10000 entries, as for `InterfacesCount`.
- ClassFileDecoder.ClassFile.AttributesCount: exact only below 0x10000 entries, as for `InterfacesCount`.
- ClassFileDecoder.NextIndex: its contract covers only the case without wrap-around. `PoolIndexWraps` states the wrap.
- ClassFileDecoder.PoolSlotsCount: stated for counts below 0xFFFF, where the 16-bit index cannot wrap.
- ClassFileDecoder.ConstantPoolSize: stated for counts below 0xFFFF, as for `PoolSlotsCount`.
- ClassFileDecoder.ParseClassBody: its contract states the three class indices and the list bounds. `ClassBodyStages` states where each list is read and how a failing list fails the body.
- AttributeDecoder.ParseCode: its contract states only that the result is a Code payload inside the buffer. `CodeHeader` states every field of a decoded payload (max_stack, max_locals, the code bytes, the exception table and the nested attributes); the model states no exact condition under which a Code payload fails, only the error propagation that `ParseAttributes` and `ParseTable` give.
- AttributeDecoder.ParseModule: its contract states only that the result is a Module payload inside the buffer. `ModuleHeader` states the header fields and ties the rest to `ParseModuleTables`, whose contract states each of the five tables.
- AttributeDecoder.ParseAttributeInfo: its contract states only the bytes consumed. `AttributeInfoDecodes` states the rest.
- AttributeDecoder.ParseTablePayload: its contract states only the payload type and the cursor range. The per-loader functions state the contents.
- AttributeDecoder.ParseAnnotationPayload: its contract states only the payload type and the cursor range, as for `ParseTablePayload`.
- The class-file format requires the magic 0xCAFEBABE and defines `attribute_length` as the payload's size. The code checks neither, and a failed load leaves the members already read in the object. The model follows the code on all three.
