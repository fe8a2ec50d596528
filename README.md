# javaser.js in Dafny

This project models `javaser.js`, a JavaScript writer for the Java Object
Serialization Stream Protocol (chapter 6 of the Java Object Serialization
Specification). `writeObject` is meant to turn a tree of JavaScript values
into the byte stream that `java.io.ObjectInputStream` reads. The paths the
source completes are:

- `null`;
- strings, when they are ASCII and at most 0xFFFF characters long;
- non-proxy class descriptors (`ObjectStreamClass`);
- ordinary objects whose fields `defaultWriteFields` writes. Primitives and
  primitive arrays appear only as the values of primitive fields, and
  there they are written without `TC_ARRAY` framing.

Other values reach code that throws, and the model proves that too:

- a top-level primitive reaches `writeOrdinaryObject` without a descriptor
  and throws a TypeError;
- a top-level array reaches `writeArray`, which throws at `desc.forClass()`;
- classes and enum constants throw as soon as they are reached.

The model is split along the source's own entities:

- `wire.dfy` (`Wire`): the protocol constants (`TC_*`, `SC_*`,
  `baseWireHandle`), the exceptions the writer throws, and the outcome types
  `Result`, `Option` and `Run`. A `Run` is the bytes a write appended plus
  what it threw, if anything.
- `sink.dfy` (`Sink`): `DataOutput`, the byte sink, as a class whose `out`
  and `written` fields its methods update.
- `primitives.dfy` (`Primitives`): the primitive writers `Boolean` to
  `Double` and the primitive `Array`. There are two kinds of members:
  - encodings written as functions, with read-back functions `Unsigned` and
    `Signed` that give round-trip lemmas;
  - the `write` loops, written as methods over a `DataOutput`.
- `jsstrings.dfy` (`JsStrings`): JavaScript strings as UTF-16 code units,
  and the length of their UTF-8 encoding.
- `descriptors.dfy` (`ClassDescriptors`): `ObjectStreamField` and
  `ObjectStreamClass`, the flag byte, `getClassDataLayout`,
  `getObjectFieldDescriptors` and the default values `writePrimitives`
  uses.
- `values.dfy` (`Values`): the values `writeObject` accepts, JS `in` on a
  plain object (which also finds the properties of `Object.prototype`), and
  `writePrimitives`.
- `handles.dfy` (`Handles`): `ObjectHandles`, both as functions on the table
  and as a class with `assign` and `lookup`.
- `blockdata.dfy` (`BlockData`): block-data headers and how the buffered
  bytes are flushed.
- `streams.dfy` (`Streams`): for every `ObjectOutput` writer, a function that
  says what it puts on the wire. Each one starts from a handle table and
  returns the bytes, the new table and the exception thrown, if any.
- `growth.dfy` (`TableGrowth`): how the handle table evolves while a value
  is written.
- `objectoutput.dfy` (`ObjectOutputs`): `ObjectOutput` as a class.
  - Its fields are the sink, `blockMode`, `blockBuf`, `depth`, the handle
    table and `protocol`.
  - Every writer is a method proved against the `Streams` function for it.

JavaScript numbers are unbounded `int`s. The 32-bit truncation of `>>` is
written out in `ShiftMask`. A sink holds `int`s, not bytes, because the
writer pushes whatever numbers it is given. `Byte(v)`, for example, pushes
`v` unchanged.

## Model

| member | source | states |
|---|---|---|
| Sink.DataOutput.constructor | javaser.js:291-293 | a new sink holds the given array and has written nothing |
| Sink.DataOutput.WriteByte | javaser.js:295-298 | the byte is appended and the count grows by one |
| Sink.DataOutput.WriteBytes | javaser.js:300-303 | the bytes are appended in order and the count grows by their number |
| Sink.DataOutput.Written | javaser.js:291-303 | the counter always equals the number of bytes appended since construction |
| Primitives.EncodeWidth | javaser.js:16-111 | every primitive except Float and Double encodes, to exactly its Java width (1, 2, 4 or 8 bytes), each byte in 0..255 except a Byte's own value; Float and Double throw "Unimplemented" |
| Primitives.Int16RoundTrip | javaser.js:40-60 | the two bytes of a Short or Char read back as the value modulo 2^16 |
| Primitives.Int32RoundTrip | javaser.js:62-73 | the four bytes of an Integer read back as the value modulo 2^32 |
| Primitives.ShortRoundTrip | javaser.js:40-49 | every Java short reads back as itself in two's complement |
| Primitives.SignedWraps16 | javaser.js:40-49 | reducing a Java short modulo 2^16 and reading it as signed gives it back |
| Primitives.CharRoundTrip | javaser.js:51-60 | every Java char reads back as itself |
| Primitives.IntegerRoundTrip | javaser.js:62-73 | every Java int reads back as itself in two's complement |
| Primitives.SignedWraps32 | javaser.js:62-73 | reducing a Java int modulo 2^32 and reading it as signed gives it back |
| Primitives.LongRoundTrip | javaser.js:75-90 | the eight bytes of `Long(high, low)` read back as the 64-bit value `high * 2^32 + low` |
| Primitives.SignedHalves | javaser.js:81-90 | the unsigned halves of a Long read as a signed 64-bit number give `high * 2^32 + low` |
| Primitives.UnsignedAfterWord | javaser.js:81-90 | bytes followed by a 4-byte word read back as the first part shifted by 32 bits plus the word |
| Primitives.UnsignedAppend | javaser.js:81-90 | big-endian reading of a concatenation: the first part scaled by 256 per byte of the second, plus the second |
| Primitives.WritePrimitive | javaser.js:16-111 | `p.write(out)` appends exactly the encoding of `p`, or throws "Unimplemented" and appends nothing |
| Primitives.ElementsRunSpec | javaser.js:121-123 | the element loop completes exactly when no element is a Float or Double; it then writes all encodings in order, otherwise it throws "Unimplemented" |
| Primitives.OneByteRoundTrip | javaser.js:16-38 | a Byte writes one byte that reads back as its own number, unmasked; a Boolean writes one byte, nonzero exactly when it is true |
| Primitives.EncodeAllSnoc | javaser.js:121-123 | the encodings of a list with one more element are the old encodings followed by the new element's |
| Primitives.EncodeAllLength | javaser.js:121-123 | the element encodings are as long as the elements' widths added up |
| Primitives.ArrayRunSpec | javaser.js:119-124 | an array writes its length as an Integer that reads back as the length, then the element encodings, `4 + widths` bytes in all; it completes exactly when no element is floating |
| Primitives.ElementsRunStep | javaser.js:121-123 | one more element appends its encoding, or throws its error after the earlier bytes |
| Primitives.ElementsRunPrefixFails | javaser.js:121-123 | after the first element that throws, later elements add nothing |
| Primitives.WriteArray | javaser.js:119-124 | the array `write` loop appends exactly the array's run and throws what it throws |
| JsStrings.CodeUnits | javaser.js:132-133 | a character is one or two UTF-16 code units, each below 2^16 |
| JsStrings.Utf8VersusUtf16 | javaser.js:486-506 | the UTF-8 length is never below `str.length`, and the two are equal exactly when the string is ASCII; then the code units are the characters |
| JsStrings.LowUnitsAt | javaser.js:131-135 | byte `i` of `writeBytes` is code unit `i` masked to its low 8 bits |
| JsStrings.LowBytes | javaser.js:131-135 | `writeBytes` writes one byte per code unit |
| JsStrings.AsciiLowBytes | javaser.js:131-135 | for an ASCII string `writeBytes` writes the characters themselves, all below 0x80, and they read back as the string |
| ClassDescriptors.FlagsSpec | javaser.js:197-213 | exactly one of serializable and externalizable is set; block data is set exactly for externalizable classes outside protocol 1; write-method and enum follow the descriptor; no other bit is set |
| ClassDescriptors.LayoutShape | javaser.js:233-240 | the layout has one entry per class of the superclass chain, starts at the root, ends with the class itself, and each entry's superclass is the one before it |
| ClassDescriptors.ObjectFieldsSpec | javaser.js:274-282 | the selected fields are exactly those with a type string, and the selection keeps declared order |
| ClassDescriptors.DefaultPrimitive | javaser.js:251-266 | corrected (Findings 262-263): a default exists exactly for the type codes `IZBSCJ`; it has the field's own type code and can be written |
| ClassDescriptors.DefaultsAreZero | javaser.js:251-266 | every default encodes as zero bytes only, as many as its type is wide |
| Values.AbsentDefaultAsWritten | javaser.js:245-268 | for a primitive field the object does not have, with a name not inherited: a `'J'` field throws "Missing primitive value" as written but stages eight zero bytes corrected, and a `'L'` field gets a long as written but throws corrected |
| ClassDescriptors.DefaultAsWrittenMismatch | javaser.js:262-263 | as written, an absent `'J'` field has no default and a `'L'` field gets a long, whose type code differs from the field's; the other codes agree with the corrected table |
| Values.WriteValue | javaser.js:21-124 | `v.write(out)` for a field value appends exactly its run; values without a byte-sink `write` throw TypeError before writing |
| Values.StagePrimitive | javaser.js:245-268 | corrected (Findings 262-263): one primitive field stages the value JS `in` finds for its name: the object's own, or a property inherited from `Object.prototype`, which has no `write` and throws TypeError. Failing that it stages the default for its type code, or throws "Missing primitive value" with the field's name |
| Values.PrimitivesOutAppend | javaser.js:244-270 | the primitives of two field lists in a row are those of the first followed by those of the second, and the first exception wins |
| Values.PrimitivesOutStops | javaser.js:244-270 | after the first primitive field that throws, later fields are not looked at |
| Values.PrimitivesOutSingle | javaser.js:245-269 | an object field stages nothing; a primitive field stages its own bytes |
| Values.AbsentFieldBytes | javaser.js:247-268 | corrected (Findings 262-263): a field the object does not set stages zero bytes of its width. If its name is inherited from `Object.prototype` it throws TypeError, and if its type code has no default it throws an error naming the field |
| Values.AbsentPrimitivesSucceed | javaser.js:244-270 | corrected (Findings 262-263): for an object that sets none of its primitive fields, staging succeeds exactly when every primitive field has a default and a name that is not inherited; otherwise the error is the one such a field throws |
| Values.AbsentPrimitivesAreZero | javaser.js:244-271 | for such an object the staged bytes are all zero, as many as the defaults are wide |
| Handles.IndexOf | javaser.js:318-320 | `lookup` answers -1 or a position in the table |
| Handles.IndexOfSpec | javaser.js:318-320 | `lookup` answers -1 exactly for an entry not in the table, otherwise the first position holding it |
| Handles.AssignKeepsLookups | javaser.js:311-316 | `assign` never changes what `lookup` answers for any entry, and leaves an empty table empty |
| Handles.NothingFoundMeansEmpty | javaser.js:318-320 | a table is empty exactly when `lookup` finds nothing in it |
| Handles.GrowsTrans | javaser.js:311-316 | growth by duplicates composes |
| Handles.AssignedGrows | javaser.js:311-316 | `assign` only appends an entry the table already holds |
| Handles.GrowsKeepsLookups | javaser.js:311-320 | a table grown by duplicates answers every lookup as before |
| Handles.GrowsFromEmpty | javaser.js:311-316 | an empty table cannot grow by duplicates |
| Handles.ObjectHandles.constructor | javaser.js:306-307 | a new table is empty |
| Handles.ObjectHandles.Assign | javaser.js:311-316 | the table becomes what `assign` makes it |
| Handles.ObjectHandles.Lookup | javaser.js:318-320 | the answer is -1 exactly when the entry is absent, otherwise its first position |
| BlockData.BlockHeader | javaser.js:390-398 | a short header is 2 bytes (up to 0xFF) and a long one 5 bytes |
| BlockData.BlockRoundTrip | javaser.js:390-398 | a non-empty block behind its header parses back as exactly the block, leaving what follows |
| BlockData.LongBlockAsWrittenIsEmpty | javaser.js:396 | as written, the long header of a block over 0xFF bytes announces length 0, so a reader gets an empty block and takes the data as stream content |
| BlockData.AppendAsWrittenMismatch | javaser.js:411 | as written, `blockBuf += [65]` turns the buffer into the string "65", whose length is not the number of bytes appended |
| Streams.UtfRoundTrip | javaser.js:496-511 | `writeUTF` completes exactly for an ASCII string of at most 0xFFFF characters, and then parses back as the string; over 0xFFFF UTF-8 bytes it throws "Length exceeded" having written nothing; otherwise it writes the length and throws the non-ASCII error |
| Streams.AsciiUtfParses | javaser.js:500-511 | for an ASCII string the frame is its length as a Short followed by its characters, and it parses back |
| Streams.UtfFrameParses | javaser.js:505-507 | a length-prefixed frame of bytes below 0x80 parses back as those characters, leaving what follows |
| Streams.StringOutSpec | javaser.js:484-494 | `writeString` completes exactly for an ASCII string of at most 0xFFFF characters, writing `TC_STRING` and its frame; a string over 0xFFFF UTF-8 bytes starts with `TC_LONGSTRING` and throws |
| Streams.HandleRoundTrip | javaser.js:422-425 | a handle is `TC_REFERENCE` and four bytes that read back as the handle plus `0x7E0000` |
| Streams.DescHeadReads | javaser.js:196-215 | the fixed part of a descriptor is 11 bytes: the serial version reading back as a signed 64-bit value, the flag byte, and the field count |
| Streams.ObjectOutBackReference | javaser.js:557-559 | an object already in the table goes out as five bytes reading back as the first position `lookup` finds it at; the table is unchanged |
| Streams.FieldsOutStep | javaser.js:217-230 | one more field writes its own bytes after the earlier ones, unless an earlier one threw |
| Streams.FieldsOutStops | javaser.js:217-230 | after the first field that throws, later fields write nothing |
| Streams.SerialOutStep | javaser.js:598-608 | one more class of the layout writes its data after the earlier classes' |
| Streams.SerialOutStops | javaser.js:598-608 | after the first class whose data throws, later classes write nothing |
| Streams.ObjFieldsOutStep | javaser.js:648-655 | one more object field is written by `writeObject0` after the earlier ones |
| Streams.ObjFieldsOutStops | javaser.js:648-655 | after the first object field that throws, later fields write nothing |
| Streams.FieldValue | javaser.js:650-654 | an object field's value is the object's own value for its name, else the property `Object.prototype` gives that name, else null |
| Streams.InheritedFieldThrows | javaser.js:650-651 | an unset object field whose name `Object.prototype` has is written as `TC_OBJECT TC_NULL` and then throws TypeError, leaving the table unchanged |
| TableGrowth.StringOutGrows | javaser.js:484-485 | `writeString` only grows the table by duplicates |
| TableGrowth.TypeStringOutGrows | javaser.js:658-666 | `writeTypeString` only grows the table by duplicates |
| TableGrowth.FieldOutGrows | javaser.js:218-229 | writing one field only grows the table by duplicates |
| TableGrowth.FieldsOutGrows | javaser.js:217-230 | writing the fields only grows the table by duplicates |
| TableGrowth.DescBodyOutGrows | javaser.js:194-231 | `ObjectStreamClass.write` only grows the table by duplicates |
| TableGrowth.ClassDescOutGrows | javaser.js:433-444 | `writeClassDesc` only grows the table by duplicates |
| TableGrowth.NonProxyDescOutGrows | javaser.js:468-482 | `writeNonProxyDesc` only grows the table by duplicates |
| TableGrowth.ArrayOutGrows | javaser.js:530-534 | `writeArray` only grows the table by duplicates |
| TableGrowth.ObjectOutGrows | javaser.js:550-583 | `writeObject0` only grows the table by duplicates |
| TableGrowth.OrdinaryOutGrows | javaser.js:585-594 | `writeOrdinaryObject` only grows the table by duplicates |
| TableGrowth.SerialOutGrows | javaser.js:596-609 | `writeSerialData` only grows the table by duplicates |
| TableGrowth.SlotOutGrows | javaser.js:599-607 | one class of `writeSerialData` only grows the table by duplicates |
| TableGrowth.DefaultFieldsOutGrows | javaser.js:639-656 | `defaultWriteFields` only grows the table by duplicates |
| TableGrowth.ObjFieldsOutGrows | javaser.js:647-655 | writing the object fields only grows the table by duplicates |
| TableGrowth.ClassDescChain | javaser.js:433-482 | from an empty table, `writeClassDesc` completes exactly when every class up the superclass chain is non-proxy and has a writable body. It then writes one record per class, `TC_CLASSDESC`, the body and `TC_ENDBLOCKDATA`, starting with the class itself, then `TC_NULL`; the table stays empty |
| TableGrowth.ChainEndsInNull | javaser.js:433-482 | the bytes of such a chain are not empty. They start with `TC_CLASSDESC`, or are just `TC_NULL` when there is no descriptor, and the last byte is `TC_NULL` |
| TableGrowth.ObjectOutKeepsLookups | javaser.js:550-583 | writing any value leaves every `lookup` answer unchanged, and a table that starts empty stays empty, so no back-reference is ever written to something written before |
| ObjectOutputs.ExtendedChain | javaser.js:400-416 | two writes in a row append their bytes in order, in either block mode |
| ObjectOutputs.ObjectOutput.constructor | javaser.js:345-356 | a new writer is in block mode with an empty buffer, depth 0, protocol 2 unless `opts` says otherwise, and the handle table from `opts` or an empty one |
| ObjectOutputs.ObjectOutput.WriteHeader | javaser.js:358-361 | the header `AC ED 00 05` goes straight to the sink |
| ObjectOutputs.ObjectOutput.WriteBlockHeader | javaser.js:390-398 | the corrected block header for the length goes straight to the sink |
| ObjectOutputs.ObjectOutput.Flush | javaser.js:373-384 | corrected (Findings 396): the buffered bytes reach the sink, behind a block header in block mode, and the buffer empties; mode and depth are kept |
| ObjectOutputs.ObjectOutput.SetBlockMode | javaser.js:363-371 | corrected (Findings 396): returns the old mode; switching flushes the buffer, keeping the mode changes nothing |
| ObjectOutputs.ObjectOutput.WriteByte | javaser.js:400-407 | the byte goes to the buffer in block mode and to the sink otherwise |
| ObjectOutputs.ObjectOutput.WriteBytes | javaser.js:409-416 | the bytes are appended in order, to the buffer in block mode and to the sink otherwise |
| ObjectOutputs.ObjectOutput.Emit | javaser.js:400-407 | a byte sequence written one `writeByte` at a time is appended in order |
| ObjectOutputs.ObjectOutput.WriteNull | javaser.js:418-420 | `TC_NULL` is appended |
| ObjectOutputs.ObjectOutput.WriteStringBytes | javaser.js:131-135 | `writeBytes` through the writer appends the low byte of every code unit |
| ObjectOutputs.ObjectOutput.WriteUTFLen | javaser.js:500-511 | appends and throws exactly what `UtfLenRun` says |
| ObjectOutputs.ObjectOutput.WriteUTF | javaser.js:496-498 | appends and throws exactly what `UtfRun` says, whose round trip is `Streams.UtfRoundTrip` |
| ObjectOutputs.ObjectOutput.WriteLongUTF | javaser.js:513-520 | appends the length as a Long whose missing low half shifts to zeros, then throws: TypeError for an ASCII string (a primitive string has no `writeBytes`), the non-ASCII error otherwise |
| ObjectOutputs.ObjectOutput.WriteString | javaser.js:484-494 | appends, updates the table and throws exactly as `StringOut` says |
| ObjectOutputs.ObjectOutput.WriteHandle | javaser.js:422-425 | `TC_REFERENCE` through the writer, then the wire handle straight to the sink |
| ObjectOutputs.ObjectOutput.WriteTypeString | javaser.js:658-666 | a handle when the type string is in the table, else the string |
| ObjectOutputs.ObjectOutput.WriteField | javaser.js:218-229 | a field's type code, name and, for an object field, type string |
| ObjectOutputs.ObjectOutput.WriteDescBody | javaser.js:194-231 | `ObjectStreamClass.write`: name, serial version, flags, field count and fields, as `DescBodyOut` says |
| ObjectOutputs.ObjectOutput.WriteDescHead | javaser.js:196-215 | the serial version, flag byte and field count go to the sink |
| ObjectOutputs.ObjectOutput.WriteFields | javaser.js:217-230 | the field loop writes the fields in order up to the first that throws |
| ObjectOutputs.ObjectOutput.WriteClassDesc | javaser.js:433-444 | `TC_NULL`, a handle, a proxy or a non-proxy descriptor, as `ClassDescOut` says; from an empty table that is the whole chain `TableGrowth.ClassDescChain` spells out, ending in `TC_NULL` |
| ObjectOutputs.ObjectOutput.WriteProxyDesc | javaser.js:446-450 | `TC_PROXYCLASSDESC`, the assignment, then TypeError |
| ObjectOutputs.ObjectOutput.WriteNonProxyDesc | javaser.js:468-482 | `TC_CLASSDESC`, the body, `TC_ENDBLOCKDATA` and the superclass descriptor, whose recursion ends in `TC_NULL` (`TableGrowth.ChainEndsInNull`) |
| ObjectOutputs.ObjectOutput.WriteObject | javaser.js:546-548 | corrected (Findings 396): flushes what is pending, then writes exactly what `ObjectOut` says, restoring mode and depth |
| ObjectOutputs.ObjectOutput.WriteObject0 | javaser.js:550-583 | corrected (Findings 396): flushes what is pending, writes exactly what `ObjectOut` says in non-block mode, and restores block mode and depth even when it throws |
| ObjectOutputs.ObjectOutput.WriteObjectBody | javaser.js:554-578 | the dispatch of `writeObject0` on the value's kind |
| ObjectOutputs.ObjectOutput.WriteClass | javaser.js:427-431 | `TC_CLASS`, then ReferenceError |
| ObjectOutputs.ObjectOutput.WriteEnum | javaser.js:522-528 | `TC_ENUM`, then TypeError |
| ObjectOutputs.ObjectOutput.WriteArray | javaser.js:530-534 | `TC_ARRAY`, the descriptor and the assignment, then TypeError |
| ObjectOutputs.ObjectOutput.WriteOrdinaryObject | javaser.js:585-594 | `TC_OBJECT`, the descriptor, the assignment, then the external or the serial data |
| ObjectOutputs.ObjectOutput.WriteExternalData | javaser.js:611-619 | the caller's data under protocol 1, else a lone `TC_ENDBLOCKDATA` |
| ObjectOutputs.ObjectOutput.WriteSerialData | javaser.js:596-609 | each class of the layout, root first, as `SerialOut` says |
| ObjectOutputs.ObjectOutput.WriteSlots | javaser.js:598-608 | the slot loop writes the classes in order up to the first that throws |
| ObjectOutputs.ObjectOutput.WriteNextSlot | javaser.js:599-607 | one more class of the layout extends the output by its own data |
| ObjectOutputs.ObjectOutput.WriteSlot | javaser.js:599-607 | corrected (Findings 396): a class with its own `writeObject` writes its data as one block and `TC_ENDBLOCKDATA`; the others write their fields |
| ObjectOutputs.ObjectOutput.DefaultWriteObject | javaser.js:633-637 | corrected (Findings 396): flushes, writes the fields as `DefaultFieldsOut` says, and ends in block mode unless a field throws |
| ObjectOutputs.ObjectOutput.DefaultWriteFields | javaser.js:639-656 | the primitive fields at once, then each object field by `writeObject0` |
| ObjectOutputs.ObjectOutput.WriteObjectFields | javaser.js:647-655 | the object fields in declared order, using the value JS `in` finds for each name (own or inherited), absent ones as null |
| ObjectOutputs.ObjectOutput.WritePrimitives | javaser.js:242-272 | corrected (Findings 262-263): nothing reaches the writer when a primitive field throws; otherwise the staged primitives are appended in declared order |

## Left out

- Float and Double have no encoding in the source: their `write` throws "Unimplemented", and that is all the model has of them.
- `String.writeChars` (javaser.js:137-141) calls `out.writeChar`, which no sink has. It is not modelled.
- `ObjectHandles.clear` and `ObjectOutput.clear` (javaser.js:309-310, 386-388) do nothing, and nothing calls them. They are not modelled.
- The `opts` loops (javaser.js:182-186, 352-356) copy arbitrary properties onto the object. The model takes only some of them from `opts`:
  - for a descriptor: its superclass, `proxy`, `enum`, `writeObject` and `writeExternal`;
  - for the writer: `protocol` and `handles`. The writer's `blockMode`, `blockBuf`, `blockPos` and `depth` always start at their defaults, even though `opts` could overwrite them.
- Caller hooks are reduced to the bytes they write:
  - `slotDesc.writeObject` and `desc.writeExternal` write the descriptor's `customData`, one `writeByte` per value;
  - `annotateClass` and `annotateProxyClass` are absent;
  - hooks that write objects or throw are not modelled.
- `writeClass`, `writeEnum` and `writeArray` (javaser.js:427-431, 522-528, 530-544) use names the file never defines (`cl`, `desc.forClass`, `getSuperDesc`, `objs`). They are modelled up to the ReferenceError or TypeError they reach. The same goes for `writeProxyDesc` after its assignment (javaser.js:450).
- `writeFatalException` (javaser.js:621-631) is not modelled: its first statement calls `clear`, which is not defined as a plain function, so it throws a ReferenceError before doing anything.
- The `ClassCastException` check of `defaultWriteFields` (javaser.js:640-643) reads `desc.clazz`, which a descriptor never has, so the branch is dead. It is not modelled.
- UTF-8 transcoding is modelled by its length only (`Utf8Length`). That length is all the writer uses before it throws the non-ASCII error.
- Lone surrogates are not modelled: a Dafny `string` cannot hold them. In the source they make `encodeURIComponent` throw a URIError.
- `obj.values` is taken to be a plain object whose prototype is `Object.prototype`. The model knows the standard names that prototype holds (`Values.InheritedNames`), but not properties a program adds to it, and not objects with another prototype.
- Values are finite trees, so a cyclic object graph cannot be represented. In the source, `assign` never creates a handle (javaser.js:312), so a cycle recurses through `writeObject0` without end and fails with a stack overflow.
- Object identity is modelled as structural equality of values. Two equal but distinct JavaScript objects share a handle-table entry in the model, but not in the source.
- `writeTypeString` with a null type (javaser.js:659-660) is not modelled: a field's type string is a non-empty string in the model.
- ObjectOutputs.ObjectOutput.WriteTypeString, WriteField, WriteDescBody, WriteDescHead, WriteFields, WriteClassDesc, WriteNonProxyDesc, WriteArray, WriteObjectBody, WriteOrdinaryObject, WriteExternalData, WriteSerialData, WriteSlots, WriteSlot, DefaultWriteFields and WriteObjectFields all require non-block mode. These methods mix `this.writeByte` with direct writes to the sink, and the model covers only the mode `writeObject0` calls them in.
- Values.StagePrimitive, Values.AbsentFieldBytes, Values.AbsentPrimitivesSucceed and ObjectOutputs.ObjectOutput.WritePrimitives follow the corrected default table of Findings 262-263, not the source. For a primitive field the object lacks, with a name not inherited, the source differs on two inputs. A `'J'` field throws "Missing primitive value" in the source, but the model stages eight zero bytes. A field with type code `'L'` gets eight zero bytes in the source, but the model throws. `Values.AbsentDefaultAsWritten` states both.
- The long block header is corrected (Findings 396). For a block over 0xFF bytes, the source writes `7A 00 00 00 00` and then the data, while the model writes `7A` and the block's length as an Integer. These members flush through that header and follow the corrected form:
  - ObjectOutputs.ObjectOutput.Flush: a pending block over 0xFF bytes in block mode.
  - ObjectOutputs.ObjectOutput.SetBlockMode: the flush when block mode is switched off with over 0xFF bytes buffered.
  - ObjectOutputs.ObjectOutput.WriteObject: the flush of what is pending before the object.
  - ObjectOutputs.ObjectOutput.WriteObject0: the flush on entry.
  - ObjectOutputs.ObjectOutput.WriteSlot: a class whose own `writeObject` writes more than 0xFF bytes of custom data.
  - ObjectOutputs.ObjectOutput.DefaultWriteObject: the flush on entry.
- Primitive payloads are Dafny values, not JavaScript ones. `Boolean` holds a `bool`, so the source's loose `val == true` is not modelled: `new Boolean("true")` writes 0 in the source. Numbers are integers, so the non-integer numbers that the source's shifts truncate are not representable. Array elements are primitives only. In the source, `Array.write` calls `write` on any element: a nested `Array` writes its own run, and a `String` element throws a TypeError.
- Streams.StringOutSpec: for a string over 0xFFFF UTF-8 bytes it states only the leading `TC_LONGSTRING` byte and that an exception follows.

## Findings

| source | as written | input that shows it | evidently intended | confidence | as-written member | corrected member |
|---|---|---|---|---|---|---|
| javaser.js:396 | the long block header writes `new Integer()`, the four bytes of an undefined length, which are all zero | flushing a 256-byte block: header `7A 00 00 00 00` | the block length as an Integer, as in section 6.4.1 of the Java Object Serialization Specification | not executed | BlockData.LongBlockAsWrittenIsEmpty | BlockData.BlockRoundTrip |
| javaser.js:411 | `blockBuf += bs` turns the buffer array into a string | `writeBytes([65])` on an empty buffer in block mode gives the string "65" | appending the bytes to the buffer | not executed | BlockData.AppendAsWrittenMismatch | ObjectOutputs.ObjectOutput.WriteBytes |
| javaser.js:262-263 | the default for an absent primitive field is keyed on `'L'`, the object type code | an absent field with type code `'J'` throws "Missing primitive value" | type code `'J'`, a long's, gets zero | not executed | Values.AbsentDefaultAsWritten | Values.AbsentFieldBytes |
