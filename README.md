# A verified model of the nbt-rust readers and writers

nbt-rust reads and writes NBT, the tagged binary tree format of Minecraft.
The repository holds several generations of the same reader. This project
models the reading (and, for shen-nbt5, the writing) core of each one in
Dafny and proves what each promises:

- **shen-nbt6**, the newest reader:
  - the bounds-checked byte cursor `NbtReader` (`reader.rs`), with its
    fixed-width, varint and zigzag reads;
  - the borrow parser `java_from_reader` (`borrow/impls/java_read.rs`),
    an explicit-stack loop proved equal to a recursive-descent statement
    of what it yields;
  - the error type and its messages (`error.rs`);
  - the tag names and SNBT `Display` (`traits.rs`);
  - the plain-ASCII test of the modified-UTF-8 decoder (`mutf8.rs`).
- **shen-nbt5**:
  - `NbtReader` and `NbtWriter` for the four dialects (Java, Java network,
    Bedrock disk, Bedrock network);
  - a round trip for every layout that keeps its lengths and codes zigzag
    numbers exactly;
  - the places where the writer and its own reader disagree.
- **cpp/na_nbt_impl.hpp**:
  - the in-place byte swappers;
  - the goto-driven `read_write::read`, as a machine and as a parser object
    over an array, proved to do the same thing;
  - that the corrected bound-checked read stays inside the source and the
    mark array and always ends;
  - the iterators and lookups on the document it returns, tied back to the
    file.
- **The prototypes**:
  - `shen-nbt2/src/lib.rs`: `NbtData` and `Value::read_*`;
  - `src/data.rs` and `v1/src/data.rs`: the value reads over
    `Cursor<&[u8]>`;
  - `src/read.rs`: the array and List reads.

Conventions:

- Every integer is an unbounded `int` with its Rust or C++ range stated.
  Wrap-around and `as` casts are written out.
- Floats are their bit patterns.
- Strings are byte sequences.
- A Rust panic or a C++ overrun is an outcome of its own (`Panic`,
  `SlicePanic`, `Undefined`, `MarkOverran`), never a precondition. The
  exception is where the source's own callers rule it out.
- Where the source disagrees with itself or with the format, the model
  keeps two versions: the code as written, and the evidently intended
  code, selected by a `variant` or `Config` parameter. "## Findings" lists
  each pair.
- `shen-nbt6/src/error.rs` declares `UnknownType(NbtTypeId)` and
  `LenNegative(NbtTypeId, i32)`, but `java_read.rs` builds both with one
  more field, the offset (java_read.rs:176, 124-153). The model follows
  the parser. The messages do not show the offset.

## Model

| member | source | states |
|---|---|---|
| NbtBase.ToSigned | shen-nbt6/src/reader.rs:147 | the `as i8`-style cast of a bit pattern yields a value in the signed range that is the pattern or the pattern minus the modulus |
| NbtBase.ToUnsigned | shen-nbt5/src/writer.rs:12 | the `as u8`-style cast of a signed value yields a pattern below the modulus that is the value or the value plus the modulus |
| NbtBase.SignedRoundTrip | shen-nbt6/src/reader.rs:147 | casting a signed value to its bit pattern and back gives the value |
| NbtBase.LeIsReversedBe | shen-nbt6/src/reader.rs:281-297 | reading little-endian is reading big-endian the reversed bytes |
| NbtBase.LeSignedIsReversedBe | shen-nbt6/src/reader.rs:168-179 | the same for signed reads (`read_le_i16` against `read_be_i16`) |
| NbtBase.BeRoundTrip | shen-nbt5/src/writer.rs:37 | `to_be_bytes` of an unsigned value in `n` bytes reads back with `from_be_bytes` |
| NbtBase.LeRoundTrip | shen-nbt5/src/writer.rs:222-230 | `to_le_bytes` of an unsigned value in `n` bytes reads back with `from_le_bytes` |
| NbtBase.BeSignedRoundTrip | shen-nbt5/src/writer.rs:15-23 | a signed value written big-endian reads back as the same value |
| NbtBase.LeSignedRoundTrip | shen-nbt5/src/writer.rs:222-230 | a signed value written little-endian reads back as the same value |
| NbtBase.WidthRanges | shen-nbt6/src/reader.rs:137-224 | the widths 1, 2, 4 and 8 bytes give exactly the ranges of u8, u16, u32 and u64 |
| VarInt.ShiftIn | shen-nbt6/src/reader.rs:230 | OR-ing the seven payload bits of a byte in at `size * 7` keeps the value inside the shifted type's width |
| VarInt.Wrap | shen-nbt6/src/reader.rs:230 | truncation to a type with `m` values lands below `m` and leaves values that already fit unchanged |
| VarInt.ReadVarRange | shen-nbt6/src/reader.rs:225-262 | a value `read_var_i32` / `read_var_i64` returns fits the signed type it was read into |
| VarInt.ReadVarContinue | shen-nbt6/src/reader.rs:228-237 | a byte with bit 7 set inside the size limit makes the loop go on to the next byte |
| VarInt.ReadVarShape | shen-nbt6/src/reader.rs:225-262 | the read stops right after the first byte with bit 7 clear, within `limit` bytes; it reports too big exactly when `limit` continuation bytes are followed by another byte; it fails at end of input only after continuation bytes |
| VarInt.VarBytes | shen-nbt5/src/writer.rs:352-367 | the encoding is non-empty, its last byte has bit 7 clear and every other byte has it set |
| VarInt.ReadVarBytes | shen-nbt6/src/reader.rs:225-262 | reading the encoding of a value below 2^bits gives the value, read as signed, and the position just past the encoding |
| VarInt.ReadVarI32OfVarBytes | shen-nbt6/src/reader.rs:225-240 | `read_var_i32` reads back any value below 2^32 that the encoder wrote, as its `i32` reinterpretation, whatever follows |
| VarInt.ReadVarI64OfVarBytes | shen-nbt6/src/reader.rs:247-262 | `read_var_i64` reads back any value below 2^64 that the encoder wrote |
| VarInt.NegativeNeverReachesZero | shen-nbt5/src/writer.rs:352-367 | from a negative value the arithmetic `value >>= 7` never reaches 0, so the loop of `var_i32_to_bytes` never exits |
| VarInt.NonNegativeReachesZero | shen-nbt5/src/writer.rs:352-367 | from a non-negative value the loop reaches 0 after exactly as many turns as the encoding has bytes, and not before |
| VarInt.VarBytesAt | shen-nbt5/src/writer.rs:355-362 | the k-th byte emitted is the low seven bits of the value shifted k times, plus 0x80 while bits remain |
| VarInt.VarBytesShort | shen-nbt5/src/writer.rs:352-367 | a value below 2^(7k) takes at most k bytes |
| VarInt.VarBytesOf64 | shen-nbt5/src/writer.rs:369-384 | every 64-bit pattern takes at most ten bytes, so the reader's limit of ten admits it |
| VarInt.VarToBytes | shen-nbt5/src/writer.rs:352-418 | the encoding loop, run for a bounded number of turns, finishes exactly for non-negative values and then returns the encoding; for a negative value it is still running, having emitted a byte every turn |
| VarInt.ZigZagRoundTrip | shen-nbt6/src/reader.rs:267-278 | un-zigzagging the zigzag number of any integer gives the integer back |
| VarInt.ZigDecodeSignedAgrees | shen-nbt6/src/reader.rs:267-278 | the readers' `(value >> 1) ^ (-(value & 1))` agrees with the logical decoding on non-negative input and maps 0, 1, 2, 3 to 0, -1, 1, -2 |
| VarInt.ZigEncodeI32Sign | shen-nbt5/src/writer.rs:386-389 | the writer's `(value << 1) ^ (value >> 31)` is non-negative exactly when -2^30 <= value < 2^30 |
| VarInt.ZigEncodeI64Sign | shen-nbt5/src/writer.rs:403-406 | the 64-bit form is non-negative exactly when -2^62 <= value < 2^62 |
| VarInt.ReadVarI32 | shen-nbt6/src/reader.rs:225-246 | `read_var_i32`: at most 5 bytes into an `i32`; ReadVarRange, ReadVarShape and ReadVarI32OfVarBytes state it |
| VarInt.ReadVarI64 | shen-nbt6/src/reader.rs:247-266 | `read_var_i64`: at most 10 bytes into an `i64`; ReadVarRange, ReadVarShape and ReadVarI64OfVarBytes state it |
| Decimal.NatText | shen-nbt6/src/error.rs:69 | the `{}` text of a natural number is non-empty, all digits, with no leading zero |
| Decimal.IntTextRoundTrip | shen-nbt6/src/error.rs:69 | the `{}` text of every integer reads back as that integer |
| Decimal.IntTextChars | shen-nbt6/src/error.rs:87 | the text is a leading minus for negative numbers and otherwise digits only |
| Decimal.IntTextInjective | shen-nbt6/src/error.rs:69 | two different integers never print the same text |
| Decimal.NumberThenText | shen-nbt6/src/error.rs:75 | a number followed by a text that does not start with a digit splits back into the number and the text |
| Decimal.NumberBetweenText | shen-nbt6/src/error.rs:81 | the number printed between a known prefix and suffix is recovered from the message |
| Nbt6Mutf8.PlainAsciiIffAllLow | shen-nbt6/src/mutf8.rs:5-12 | `is_plain_ascii` answers true exactly when every byte is at most 0x7F, and false exactly when some byte has bit 7 set |
| Nbt6Mutf8.EmptyIsPlainAscii | shen-nbt6/src/mutf8.rs:5-12 | the empty slice is plain ASCII |
| Nbt6Mutf8.PlainAsciiAppend | shen-nbt6/src/mutf8.rs:5-12 | a concatenation is plain ASCII exactly when both halves are |
| Nbt6Error.FromUtf8 | shen-nbt6/src/error.rs:98-100 | `From<Utf8Error>` wraps the cause in `Mutf8Error` and its message is the m-utf8 prefix followed by the cause |
| Nbt6Error.WrongRootMessage | shen-nbt6/src/error.rs:51-61 | the Bedrock hint is printed for a List root (id 9) and for no other id; every other root id is read back from its message |
| Nbt6Error.UnknownTypeMessage | shen-nbt6/src/error.rs:65-71 | the End tag (id 0) gets its own message and no other id does; every other id is read back from its message |
| Nbt6Error.VarIntTooBigMessage | shen-nbt6/src/error.rs:81 | the varint message carries the size and the limit 5 |
| Nbt6Error.VarlongTooBigMessage | shen-nbt6/src/error.rs:82 | the varlong message carries the size and the limit 10 |
| Nbt6Error.LenNegativeMessage | shen-nbt6/src/error.rs:86-88 | the negative-length message opens with the tag's `as_nbt_type_name` and carries the length |
| Nbt6Error.DepthMessage | shen-nbt6/src/error.rs:93 | the depth message carries the limit |
| Nbt6Error.CursorOverflowMessage | shen-nbt6/src/error.rs:73-80 | two overflow messages are equal only when cursor, width and data length are equal |
| Nbt6Error.IncorrectTypeMessage | shen-nbt6/src/error.rs:89-91 | two incorrect-type messages are equal only when both ids are equal |
| Nbt6Error.Message | shen-nbt6/src/error.rs:47-96 | `Display::fmt` of an error, arm by arm; the *Message lemmas prove each message carries its fields and that the arms can be told apart |
| Nbt6Traits.TypeNameShape | shen-nbt6/src/traits.rs:18-39 | every `as_nbt_type_name` is a label followed by the id itself in parentheses, for valid and unknown ids alike |
| Nbt6Traits.TypeNameMarksValidity | shen-nbt6/src/traits.rs:18-40 | a name starts with "NBT_" exactly for the ids `is_valid_nbt_type` accepts (0 to 12) |
| Nbt6Traits.DataTypeIsNonEndType | shen-nbt6/src/traits.rs:40-41 | `is_valid_nbt_data_type` holds exactly for valid ids other than End |
| Nbt6Traits.ListParts | shen-nbt6/src/traits.rs:115-124 | a list prints one text per element |
| Nbt6Traits.MemberParts | shen-nbt6/src/traits.rs:131-136 | a compound prints one "key: value" text per member |
| Nbt6Traits.NamedCompoundText | shen-nbt6/src/traits.rs:125-138 | a named compound prints as its name and ": " in front of the unnamed compound's text |
| Nbt6Traits.ItemsTextRoundTrip | shen-nbt6/src/traits.rs:84-89 | the numbers of an array, each with its suffix and separated by ", ", are read back from the text |
| Nbt6Traits.ByteArrayTextRoundTrip | shen-nbt6/src/traits.rs:82-91 | the text of a byte array, `[B; 1b, 2b]`, gives back its numbers |
| Nbt6Traits.IntArrayTextRoundTrip | shen-nbt6/src/traits.rs:92-101 | the text of an int array, `[I; 1, 2]`, gives back its numbers |
| Nbt6Traits.LongArrayTextRoundTrip | shen-nbt6/src/traits.rs:102-111 | the text of a long array, `[L; 1l, 2l]`, gives back its numbers |
| Nbt6Traits.ByteArrayExample | shen-nbt6/src/traits.rs:168-173 | the byte array 1, 2, 3 prints as `[B; 1b, 2b, 3b]` |
| Nbt6Traits.IntArrayExample | shen-nbt6/src/traits.rs:175-180 | the int array 1, 2, 3 prints as `[I; 1, 2, 3]` |
| Nbt6Traits.LongArrayExample | shen-nbt6/src/traits.rs:182-187 | the long array 1, 2, 3 prints as `[L; 1l, 2l, 3l]` |
| Nbt6Traits.Formatter.constructor | shen-nbt6/src/traits.rs:72 | a fresh formatter holds no text |
| Nbt6Traits.Formatter.Write | shen-nbt6/src/traits.rs:74 | `write!` appends its text to what the formatter holds |
| Nbt6Traits.Formatter.FmtItems | shen-nbt6/src/traits.rs:84-89 | the array loop appends the numbers with ", " before every one but the first |
| Nbt6Traits.Formatter.FmtArray | shen-nbt6/src/traits.rs:82-111 | an array case appends its header, its numbers and the closing bracket |
| Nbt6Traits.Formatter.Fmt | shen-nbt6/src/traits.rs:72-140 | `Display::fmt` appends exactly the value's text, case by case |
| Nbt6Traits.Formatter.FmtList | shen-nbt6/src/traits.rs:115-124 | the list case appends the elements' own texts, separated by ", ", in brackets |
| Nbt6Traits.Formatter.FmtMember | shen-nbt6/src/traits.rs:135 | one member appends "key: " and the value's text |
| Nbt6Traits.Formatter.FmtMembers | shen-nbt6/src/traits.rs:131-136 | the member loop appends the members' texts separated by ", " |
| Nbt6Traits.Formatter.FmtCompound | shen-nbt6/src/traits.rs:125-138 | the compound case appends the optional name, then the members in braces |
| Nbt6Traits.TypeName | shen-nbt6/src/traits.rs:18-39 | `as_nbt_type_name`: the label of the id and the id in parentheses; TypeNameShape and TypeNameMarksValidity state it |
| Nbt6Traits.Show | shen-nbt6/src/traits.rs:72-140 | `Display::fmt` of a value, with float text a parameter; ListParts, MemberParts, NamedCompoundText and the array round trips state it, and Formatter.Fmt appends it |
| Nbt6Reader.ArrayAt | shen-nbt6/src/reader.rs:564-626 | the unchecked array readers yield one element per `w`-byte chunk, `n` in all |
| Nbt6Reader.FixedReadOutcome | shen-nbt6/src/reader.rs:158-224 | a checked read fails exactly when fewer than `w` bytes remain, with `CursorOverflow(cursor, w, data.len())`; otherwise its value lies in the range of the signed or unsigned type read |
| Nbt6Reader.LittleIsReversedBig | shen-nbt6/src/reader.rs:281-297 | `read_le_*` is `read_be_*` of the same bytes in reverse order |
| Nbt6Reader.FixedReadOfEncoded | shen-nbt6/src/reader.rs:206-224 | reading back what `to_be_bytes` / `to_le_bytes` wrote gives the value, whatever bytes surround it |
| Nbt6Reader.FixedReadPrefix | shen-nbt6/src/reader.rs:206-224 | bytes past the ones a read needs do not change what it returns |
| Nbt6Reader.U8IsFixedRead | shen-nbt6/src/reader.rs:137-144 | `read_u8` is the one-byte unsigned read, with the same overflow error |
| Nbt6Reader.RollDownBack | shen-nbt6/src/reader.rs:51-68 | `roll_back(n)` undoes a successful `roll_down(n)`, and the reverse |
| Nbt6Reader.RollsStayInside | shen-nbt6/src/reader.rs:51-76 | every successful seek stays inside the data; `roll_to` succeeds exactly for targets up to the data's length, the end included |
| Nbt6Reader.ArrayElementIsCheckedRead | shen-nbt6/src/reader.rs:564-626 | the i-th element of an unchecked array read is what a checked read at offset `i * w` returns, and the array covers exactly `n * w` bytes |
| Nbt6Reader.BytesReadOutcome | shen-nbt6/src/reader.rs:468-475 | `read_u8_array(n)` fails exactly when fewer than `n` bytes remain and otherwise returns exactly the next `n` bytes |
| Nbt6Reader.VarCursorBounds | shen-nbt6/src/reader.rs:225-262 | a varint read leaves the cursor inside the data, and after a success within `limit` bytes of where it started |
| Nbt6Reader.NbtReader.constructor | shen-nbt6/src/reader.rs:48 | `NbtReader::new` starts at position 0 |
| Nbt6Reader.NbtReader.CheckCursor | shen-nbt6/src/reader.rs:134 | `check_cursor` holds exactly when `read_u8` would succeed |
| Nbt6Reader.NbtReader.RollBack | shen-nbt6/src/reader.rs:51-57 | moves back `len` or fails with the overflow error, leaving the cursor where it was |
| Nbt6Reader.NbtReader.RollDown | shen-nbt6/src/reader.rs:62-68 | moves forward `len` or fails with the overflow error, leaving the cursor where it was |
| Nbt6Reader.NbtReader.RollTo | shen-nbt6/src/reader.rs:70-76 | moves to `pos` or fails, reporting the target as the width |
| Nbt6Reader.NbtReader.RollTop | shen-nbt6/src/reader.rs:78 | moves to position 0 |
| Nbt6Reader.NbtReader.RollBottom | shen-nbt6/src/reader.rs:80 | moves to the end of the data |
| Nbt6Reader.NbtReader.ReadU8 | shen-nbt6/src/reader.rs:137-144 | returns the byte at the cursor and advances by one, or fails without moving |
| Nbt6Reader.NbtReader.ReadI8 | shen-nbt6/src/reader.rs:147 | the byte reinterpreted as `i8`, with `read_u8`'s error and movement |
| Nbt6Reader.NbtReader.ReadFixed | shen-nbt6/src/reader.rs:158-414 | the shared checked read returns the decoded value and advances by the width, or fails without moving |
| Nbt6Reader.NbtReader.ReadBeI16 | shen-nbt6/src/reader.rs:158-166 | the big-endian `i16` at the cursor, or the overflow error |
| Nbt6Reader.NbtReader.ReadLeI16 | shen-nbt6/src/reader.rs:168-176 | the little-endian `i16` at the cursor, or the overflow error |
| Nbt6Reader.NbtReader.ReadBeU16 | shen-nbt6/src/reader.rs:180-192 | the big-endian `u16` at the cursor, or the overflow error |
| Nbt6Reader.NbtReader.ReadLeU16 | shen-nbt6/src/reader.rs:194-204 | the little-endian `u16` at the cursor, or the overflow error |
| Nbt6Reader.NbtReader.ReadBeI32 | shen-nbt6/src/reader.rs:206-222 | the big-endian `i32` at the cursor, or the overflow error |
| Nbt6Reader.NbtReader.ReadLeI32 | shen-nbt6/src/reader.rs:281-296 | the little-endian `i32` at the cursor, or the overflow error |
| Nbt6Reader.NbtReader.ReadBeU32 | shen-nbt6/src/reader.rs:298-313 | the big-endian `u32` at the cursor, or the overflow error |
| Nbt6Reader.NbtReader.ReadLeU32 | shen-nbt6/src/reader.rs:315-330 | the little-endian `u32` at the cursor, or the overflow error |
| Nbt6Reader.NbtReader.ReadBeI64 | shen-nbt6/src/reader.rs:332-351 | the big-endian `i64` at the cursor, or the overflow error |
| Nbt6Reader.NbtReader.ReadLeI64 | shen-nbt6/src/reader.rs:353-372 | the little-endian `i64` at the cursor, or the overflow error |
| Nbt6Reader.NbtReader.ReadBeU64 | shen-nbt6/src/reader.rs:374-393 | the big-endian `u64` at the cursor, or the overflow error |
| Nbt6Reader.NbtReader.ReadLeU64 | shen-nbt6/src/reader.rs:395-414 | the little-endian `u64` at the cursor, or the overflow error |
| Nbt6Reader.NbtReader.ReadFloatBits | shen-nbt6/src/reader.rs:416-425 | a float read gives the bit pattern of the unsigned read of the same width |
| Nbt6Reader.NbtReader.ReadVar | shen-nbt6/src/reader.rs:225-262 | the varint loop returns what the read function gives, the error built from the partial value, and leaves the cursor where the read stopped |
| Nbt6Reader.NbtReader.ReadVarI32 | shen-nbt6/src/reader.rs:225-240 | `read_var_i32`: at most 5 bytes, `VarIntTooBig` past them |
| Nbt6Reader.NbtReader.ReadVarI64 | shen-nbt6/src/reader.rs:247-262 | `read_var_i64`: at most 10 bytes, `VarlongTooBig` past them |
| Nbt6Reader.NbtReader.ReadZigzagVarI32 | shen-nbt6/src/reader.rs:267-270 | the varint's errors, or its zigzag decoding |
| Nbt6Reader.NbtReader.ReadZigzagVarI64 | shen-nbt6/src/reader.rs:275-278 | the varlong's errors, or its zigzag decoding |
| Nbt6Reader.NbtReader.ReadU8Array | shen-nbt6/src/reader.rs:468-475 | the next `len` bytes, advancing by `len`, or the overflow error without moving |
| Nbt6Reader.NbtReader.ReadString | shen-nbt6/src/reader.rs:634-642 | the next `len` bytes, decoded, or the overflow error without moving |
| Nbt6Reader.NbtReader.ReadI8Array | shen-nbt6/src/reader.rs:493-497 | panics exactly when fewer than `len` bytes remain; otherwise the next `len` bytes as `i8`, advancing by `len` |
| Nbt6Reader.NbtReader.ReadArray | shen-nbt6/src/reader.rs:564-632 | panics exactly when the `len * w`-byte slice passes the end; otherwise `len` elements of `w` bytes, advancing by `len * w` |
| Nbt6Reader.NbtReader.ReadBeI32Array | shen-nbt6/src/reader.rs:564-571 | the same for big-endian `i32` elements |
| Nbt6Reader.NbtReader.ReadBeI64Array | shen-nbt6/src/reader.rs:578-585 | the same for big-endian `i64` elements |
| Nbt6Reader.NbtReader.ReadLeI16Array | shen-nbt6/src/reader.rs:592-599 | the same for little-endian `i16` elements |
| Nbt6Reader.NbtReader.ReadLeI32Array | shen-nbt6/src/reader.rs:606-613 | the same for little-endian `i32` elements |
| Nbt6Reader.NbtReader.ReadLeI64Array | shen-nbt6/src/reader.rs:620-627 | the same for little-endian `i64` elements |
| Nbt6Borrow.AddMember | shen-nbt6/src/borrow/impls/java_read.rs:84 | pushing a member keeps the Compound's offset and name length |
| Nbt6Borrow.AddItem | shen-nbt6/src/borrow/impls/java_read.rs:431 | pushing a child keeps the List's header and adds one child |
| Nbt6Borrow.U16At | shen-nbt6/src/borrow/impls/java_read.rs:68 | a name or string length is `read_be_u16` at the cursor, with its overflow error |
| Nbt6Borrow.Sized | shen-nbt6/src/borrow/impls/java_read.rs:118-169 | an array or string member records the offset after its length prefix and its length, and the cursor skips exactly `len * element width` bytes, inside the data |
| Nbt6Borrow.SizedItems | shen-nbt6/src/borrow/impls/java_read.rs:285-370 | a list of arrays or strings gets one childless element per declared count, read in order, and stays inside the data |
| Nbt6Borrow.InlineList | shen-nbt6/src/borrow/impls/java_read.rs:193-372 | a list read in place (End, scalar, array or string elements) ends inside the data |
| Nbt6Borrow.ListHeader | shen-nbt6/src/borrow/impls/java_read.rs:170-192 | a list header moves the cursor forward inside the data; a List of Lists or Compounds becomes an empty frame to fill |
| Nbt6Borrow.MemberPayload | shen-nbt6/src/borrow/impls/java_read.rs:78-389 | a member's payload moves the cursor inside the data; a container member becomes an empty frame |
| Nbt6Borrow.Open | shen-nbt6/src/borrow/impls/java_read.rs:40-44 | a frame filled from `at` ends inside the data, keeps the container's header, and a Compound reads at least its End tag |
| Nbt6Borrow.Members | shen-nbt6/src/borrow/impls/java_read.rs:60-67 | the member loop ends past its End tag, inside the data, keeping the Compound's header |
| Nbt6Borrow.MemberValue | shen-nbt6/src/borrow/impls/java_read.rs:68-389 | a member after its name ends inside the data and keeps the Compound's header |
| Nbt6Borrow.AfterMember | shen-nbt6/src/borrow/impls/java_read.rs:186-191 | a Compound resumed after a pushed child ends past the child |
| Nbt6Borrow.Items | shen-nbt6/src/borrow/impls/java_read.rs:392-399 | a List of containers pops exactly when it has all declared children, ending inside the data |
| Nbt6Borrow.AfterItem | shen-nbt6/src/borrow/impls/java_read.rs:422-433 | a List resumed after a pushed child ends at or past the child |
| Nbt6Borrow.JavaParse | shen-nbt6/src/borrow/impls/java_read.rs:8-40 | a root other than a Compound fails with `WrongRootType` of its tag; a parsed root is a Compound at offset 0 that keeps its name length exactly when `root_with_name`, read big-endian after the tag |
| Nbt6Borrow.InlineListSound | shen-nbt6/src/borrow/impls/java_read.rs:193-283 | a list read in place is finished and records the offset it was given |
| Nbt6Borrow.PayloadSound | shen-nbt6/src/borrow/impls/java_read.rs:78-389 | every member value records the offset just after its name and its own header, and values read in place are finished |
| Nbt6Borrow.HeaderSound | shen-nbt6/src/borrow/impls/java_read.rs:406-614 | the children of a nested list read in place are finished |
| Nbt6Borrow.OpenSound | shen-nbt6/src/borrow/impls/java_read.rs:40-44 | whatever a frame finishes nests within the depth budget, has every List full and every member laid out after its name |
| Nbt6Borrow.MembersSound | shen-nbt6/src/borrow/impls/java_read.rs:60-390 | the same for the rest of a Compound |
| Nbt6Borrow.ItemsSound | shen-nbt6/src/borrow/impls/java_read.rs:392-628 | the same for the rest of a List of containers |
| Nbt6Borrow.ParseSound | shen-nbt6/src/borrow/impls/java_read.rs:8-44 | every tree `java_from_reader` returns nests at most `RECURSE_LIMIT` frames deep, has every List holding its declared count and every member laid out after its name |
| Nbt6Borrow.ScalarListOffsets | shen-nbt6/src/borrow/impls/java_read.rs:205-283 | a scalar list has one child per element, `width` bytes apart after the count (a member List records the offset of its count, 4 bytes before its first child), and the cursor passes all of them |
| Nbt6Borrow.HelloWorld | shen-nbt6/src/borrow/impls/read_tests.rs:5-16 | the hello-world document parses to `Compound(0, Some(11), [(17, 4, String(23, 9))])` |
| Nbt6Borrow.NegativeArrayLength | shen-nbt6/src/borrow/impls/java_read.rs:118-129 | a negative array length fails with the tag, the length and the offset after it |
| Nbt6Borrow.UnknownListElement | shen-nbt6/src/borrow/impls/java_read.rs:170-177 | a list element tag past 12 fails with `UnknownType` of that tag and the offset after it |
| Nbt6Borrow.RootOverLimit | shen-nbt6/src/borrow/impls/java_read.rs:40-44 | with a depth limit of 0 even the root frame is refused with `NbtDepthTooBig` |
| Nbt6Borrow.Attach | shen-nbt6/src/borrow/impls/java_read.rs:186-191 | attaching a finished child to its parent frame leaves the stack below unchanged and keeps it well formed |
| Nbt6Borrow.ReadSized | shen-nbt6/src/borrow/impls/java_read.rs:118-169 | the reads of an array or string member do what `Sized` says, and leave the cursor at its end |
| Nbt6Borrow.ReadSizedItems | shen-nbt6/src/borrow/impls/java_read.rs:285-370 | the `for _ in 0..lst_len` loops do what `SizedItems` says |
| Nbt6Borrow.ReadInlineList | shen-nbt6/src/borrow/impls/java_read.rs:193-372 | the in-place list reads do what `InlineList` says |
| Nbt6Borrow.ReadListHeader | shen-nbt6/src/borrow/impls/java_read.rs:170-192 | the list header reads do what `ListHeader` says |
| Nbt6Borrow.ReadMemberPayload | shen-nbt6/src/borrow/impls/java_read.rs:78-389 | the member payload reads do what `MemberPayload` says |
| Nbt6Borrow.CompoundStep | shen-nbt6/src/borrow/impls/java_read.rs:56-391 | a Compound frame's turn fails as the descent fails, pops with the finished Compound, or pushes a child whose finish resumes the descent |
| Nbt6Borrow.MemberTurn | shen-nbt6/src/borrow/impls/java_read.rs:60-390 | one pass of the member loop pops on End, pushes a container, or adds a member in place, each agreeing with the descent |
| Nbt6Borrow.ListStep | shen-nbt6/src/borrow/impls/java_read.rs:392-628 | a List frame's turn pops when full, otherwise reads one child in place or pushes its frame, agreeing with the descent |
| Nbt6Borrow.FinishPush | shen-nbt6/src/borrow/impls/java_read.rs:190 | pushing a child frame keeps what the stack finishes to |
| Nbt6Borrow.TurnKeepsFinish | shen-nbt6/src/borrow/impls/java_read.rs:40-636 | one turn keeps what the stack finishes to, and a turn that reads nothing leaves less pending |
| Nbt6Borrow.TopTurn | shen-nbt6/src/borrow/impls/java_read.rs:55-635 | one turn of the top frame, by its kind, keeps the promise of `Turned` |
| Nbt6Borrow.RunStack | shen-nbt6/src/borrow/impls/java_read.rs:40-636 | the explicit-stack loop returns exactly what the recursive descent gives from the root frame, error for error, and leaves the cursor where the descent ends |
| Nbt6Borrow.JavaFromReader | shen-nbt6/src/borrow/impls/java_read.rs:8-640 | `java_from_reader` returns exactly what `JavaParse` gives, error for error, and leaves the cursor where the parse ends |
| Nbt5Value.Tag | shen-nbt5/src/lib.rs:4-31 | each variant's tag id is one of 1 to 12, never End |
| Nbt5Decode.U8At | shen-nbt5/src/reader.rs:381-386 | `read_u8` panics exactly at or past the end of the data; otherwise it gives the byte under the cursor and moves one byte on |
| Nbt5Decode.FixedAt | shen-nbt5/src/reader.rs:401-633 | a fixed-width read panics exactly when `w` bytes are not left; otherwise it moves `w` bytes on and gives a value in the signed or unsigned range of that width |
| Nbt5Decode.VarAt | shen-nbt5/src/reader.rs:451-491 | a varint read takes at most 5 (or 10) bytes, gives an `i32` (or `i64`), and fails only with VarIntTooBig (or VarlongTooBig) |
| Nbt5Decode.ZigDecode | shen-nbt5/src/reader.rs:493-507 | zigzag decoding keeps the value in the range of its width |
| Nbt5Decode.ZigAt | shen-nbt5/src/reader.rs:493-507 | a zigzag varint read moves on by at least one byte and gives a value of its width |
| Nbt5Decode.Usize | shen-nbt5/src/reader.rs:20 | `as usize` keeps a non-negative value and takes a negative one to 2^63 or more |
| Nbt5Decode.StringAt | shen-nbt5/src/reader.rs:790-797 | `read_string` gives exactly the `len` bytes at the cursor when they are in the data, and fails with CursorOverflow(cursor, len, data length) when they are not |
| Nbt5Decode.SliceEnd | shen-nbt5/src/reader.rs:719-728 | a slice ends at `at + span` when that is inside the data, and never outside it |
| Nbt5Decode.ByteArrayAt | shen-nbt5/src/reader.rs:719-728 | `read_i8_array` gives one element per byte it passes, and passes exactly `len` bytes when they are in the data |
| Nbt5Decode.AsI8s | shen-nbt5/src/reader.rs:720 | every byte is reinterpreted as the signed byte of the same bits |
| Nbt5Decode.Chunks | shen-nbt5/src/reader.rs:746-788 | `chunks_exact(w)` gives one signed `w`-byte element per whole chunk |
| Nbt5Decode.WordsAt | shen-nbt5/src/reader.rs:746-788 | `read_i32_array` / `read_i64_array` give `len` elements of their width and pass `len * w` bytes when those are in the data |
| Nbt5Decode.StringLengthAt | shen-nbt5/src/reader.rs:19-22 | reading a string length moves the cursor on and stays inside the data |
| Nbt5Decode.NbtStringAt | shen-nbt5/src/reader.rs:19-22 | `read_nbt_string` moves the cursor on and stays inside the data |
| Nbt5Decode.LengthAt | shen-nbt5/src/reader.rs:24-41 | an array or list length is below 2^31, or 2^63 or more when the `i32` on the wire was negative |
| Nbt5Decode.ScalarAt | shen-nbt5/src/reader.rs:50-56 | each scalar arm gives a value of the tag it was asked for |
| Nbt5Decode.Payload | shen-nbt5/src/reader.rs:50-63 | the payload read for a tag has that tag; tag 0 or a tag above 12 fails with UnknownType |
| Nbt5Decode.ArrayAt | shen-nbt5/src/reader.rs:24-41 | an array payload has the array tag it was asked for |
| Nbt5Decode.CompoundAt | shen-nbt5/src/reader.rs:42-69 | a nested Compound has no name of its own |
| Nbt5Decode.ListAt | shen-nbt5/src/reader.rs:70-94 | `read_list` gives a List and moves the cursor on |
| Nbt5Decode.Items | shen-nbt5/src/reader.rs:74-92 | the rest of a list is a List inside the data |
| Nbt5Decode.Members | shen-nbt5/src/reader.rs:44-67 | the rest of a Compound ends inside the data, past its End tag |
| Nbt5Decode.Root | shen-nbt5/src/reader.rs:95-104 | the root is a Compound, or a List only on the two Bedrock dialects; the root Compound is unnamed exactly on the Java network dialect; any other first tag fails with WrongRootType |
| Nbt5Decode.FromReader | shen-nbt5/src/reader.rs:225-244 | each dialect's `from_reader` reads the root with that dialect's read layout; Nbt5RoundTrip.RootRoundTrip and the Nbt5Findings lemmas state what it gives back |
| Nbt5Encode.Then | shen-nbt5/src/writer.rs:72-73 | appending after a finished write concatenates; after a write that stopped (`?`), nothing more is appended |
| Nbt5Encode.SignedBytes | shen-nbt5/src/writer.rs:63-65 | `to_be_bytes` / `to_le_bytes` of a `w`-byte integer is `w` bytes long |
| Nbt5Encode.UnsignedBytes | shen-nbt5/src/writer.rs:66-67 | the bytes of an unsigned value or a float's bits are `w` bytes long |
| Nbt5Encode.AsI32 | shen-nbt5/src/writer.rs:10 | `len as i32` keeps every length below 2^31 |
| Nbt5Encode.PlainVarBytes | shen-nbt5/src/writer.rs:352-367 | `var_i32_to_bytes` hangs exactly on a negative value; a non-negative value gives its 7-bit groups, low first |
| Nbt5Encode.ZigVarBytes | shen-nbt5/src/writer.rs:386-418 | `zigzag_var_*_to_bytes` gives the varint of the zigzag-mapped value whenever it returns, and nothing when it hangs |
| Nbt5Encode.StringLengthBytes | shen-nbt5/src/writer.rs:35-40 | a string length field finishes for every length the layout can express, unless the mapped zigzag value hangs the loop |
| Nbt5Encode.NbtString | shen-nbt5/src/writer.rs:35-40 | `write_nbt_string` is the length field followed by exactly the string's bytes |
| Nbt5Encode.LengthBytes | shen-nbt5/src/writer.rs:10 | an array or list length field finishes for every length below 2^31 |
| Nbt5Encode.ByteBytes | shen-nbt5/src/writer.rs:12 | `x as u8` writes one byte per element, the element's bit pattern |
| Nbt5Encode.Words | shen-nbt5/src/writer.rs:19-21 | the concatenated elements take `w` bytes each |
| Nbt5Encode.ScalarBytes | shen-nbt5/src/writer.rs:99-104 | a scalar payload always finishes unless Ints and Longs go through the hanging varint loop |
| Nbt5Encode.ArrayBytes | shen-nbt5/src/writer.rs:7-33 | an array payload finishes whenever its length fits |
| Nbt5Encode.NestedCompound | shen-nbt5/src/writer.rs:79-118 | a Compound that may sit inside another has members that fit without a forced key |
| Nbt5Encode.Payload | shen-nbt5/src/writer.rs:98-113 | every value that fits a coherent layout is written to the end |
| Nbt5Encode.Tags | shen-nbt5/src/writer.rs:53 | `ListTypeNotSame` reports each child's tag, in order |
| Nbt5Encode.ListBytes | shen-nbt5/src/writer.rs:42-77 | a list that fits is written to the end; children of differing tags fail with ListTypeNotSame before a byte is appended |
| Nbt5Encode.ItemsBytes | shen-nbt5/src/writer.rs:60-75 | the children of a list that fits are all written |
| Nbt5Encode.CompoundBytes | shen-nbt5/src/writer.rs:79-118 | a Compound whose name and members fit is written to the end, and its last byte is the End tag |
| Nbt5Encode.MembersBytes | shen-nbt5/src/writer.rs:88-113 | the members of a Compound that fits are all written |
| Nbt5Encode.MemberBytes | shen-nbt5/src/writer.rs:89-112 | one member that fits is written to the end |
| Nbt5Encode.WriteTo | shen-nbt5/src/writer.rs:119-129 | a root other than a Compound (or, on Bedrock, a List) fails with WrongRootType and writes nothing; a Compound root starts with tag 10 |
| Nbt5Encode.WithNameLayout | shen-nbt5/src/writer.rs:130-140 | `write_to_with_name` writes tag 10, the name, then tag 10 again from `write_to`; on the Java network it is `write_to` itself |
| Nbt5Reader.NbtReader.constructor | shen-nbt5/src/reader.rs:372 | a new reader stands at the first byte of its data |
| Nbt5Reader.NbtReader.ReadU8 | shen-nbt5/src/reader.rs:381-386 | reads as `U8At` says and moves the cursor only on success |
| Nbt5Reader.NbtReader.ReadFixed | shen-nbt5/src/reader.rs:401-633 | reads as `FixedAt` says and moves the cursor only on success |
| Nbt5Reader.NbtReader.ReadVar | shen-nbt5/src/reader.rs:451-491 | the byte loop gives what `VarAt` says, and leaves the cursor after the varint |
| Nbt5Reader.NbtReader.ReadZigZag | shen-nbt5/src/reader.rs:493-507 | gives what `ZigAt` says |
| Nbt5Reader.NbtReader.ReadString | shen-nbt5/src/reader.rs:790-797 | gives what `StringAt` says; on CursorOverflow the cursor stays put |
| Nbt5Reader.NbtReader.ReadI8Array | shen-nbt5/src/reader.rs:719-728 | gives what `ByteArrayAt` says |
| Nbt5Reader.NbtReader.ReadWords | shen-nbt5/src/reader.rs:746-788 | gives what `WordsAt` says |
| Nbt5Reader.NbtReader.ReadStringLength | shen-nbt5/src/reader.rs:19-22 | gives what `StringLengthAt` says |
| Nbt5Reader.NbtReader.ReadNbtString | shen-nbt5/src/reader.rs:19-22 | gives what `NbtStringAt` says |
| Nbt5Reader.NbtReader.ReadLength | shen-nbt5/src/reader.rs:24-41 | gives what `LengthAt` says |
| Nbt5Reader.NbtReader.ReadScalar | shen-nbt5/src/reader.rs:50-56 | gives what `ScalarAt` says |
| Nbt5Reader.NbtReader.ReadArray | shen-nbt5/src/reader.rs:24-41 | gives what `ArrayAt` says |
| Nbt5Reader.NbtReader.ReadPayload | shen-nbt5/src/reader.rs:50-63 | gives what `Payload` says |
| Nbt5Reader.NbtReader.ReadCompound | shen-nbt5/src/reader.rs:42-69 | the member loop gives what `Members` says |
| Nbt5Reader.NbtReader.ReadList | shen-nbt5/src/reader.rs:70-94 | the `for` loop gives what `ListAt` says |
| Nbt5Reader.NbtReader.ReadRoot | shen-nbt5/src/reader.rs:95-104 | gives what `Root` says |
| Nbt5Reader.FromReader | shen-nbt5/src/reader.rs:225-244 | a fresh reader gives what the dialect's `from_reader` function says |
| Nbt5Reader.DecodeChunks | shen-nbt5/src/reader.rs:748-750 | the chunk loop decodes what `Chunks` says |
| Nbt5Reader.ChunksStep | shen-nbt5/src/reader.rs:748-750 | `chunks_exact` takes the first chunk, then the chunks of the rest |
| Nbt5Writer.NbtWriter.constructor | shen-nbt5/src/writer.rs:206 | a new buffer is empty |
| Nbt5Writer.NbtWriter.WriteVar | shen-nbt5/src/writer.rs:352-367 | appends what `PlainVarBytes` says |
| Nbt5Writer.NbtWriter.WriteZigVar | shen-nbt5/src/writer.rs:386-418 | appends what `ZigVarBytes` says |
| Nbt5Writer.NbtWriter.WriteStringLength | shen-nbt5/src/writer.rs:35-40 | appends what `StringLengthBytes` says |
| Nbt5Writer.NbtWriter.WriteNbtString | shen-nbt5/src/writer.rs:35-40 | appends what `NbtString` says |
| Nbt5Writer.NbtWriter.WriteLength | shen-nbt5/src/writer.rs:10 | appends what `LengthBytes` says |
| Nbt5Writer.NbtWriter.WriteBytes | shen-nbt5/src/writer.rs:12 | the byte loop appends what `ByteBytes` says |
| Nbt5Writer.NbtWriter.WriteWords | shen-nbt5/src/writer.rs:19-21 | the element loop appends what `Words` says |
| Nbt5Writer.NbtWriter.WriteArray | shen-nbt5/src/writer.rs:7-33 | appends what `ArrayBytes` says |
| Nbt5Writer.NbtWriter.WriteScalar | shen-nbt5/src/writer.rs:99-104 | appends what `ScalarBytes` says |
| Nbt5Writer.NbtWriter.WritePayload | shen-nbt5/src/writer.rs:98-113 | appends what `Payload` says |
| Nbt5Writer.NbtWriter.WriteList | shen-nbt5/src/writer.rs:42-77 | appends what `ListBytes` says |
| Nbt5Writer.NbtWriter.WriteItems | shen-nbt5/src/writer.rs:60-75 | the child loop appends what `ItemsBytes` says and stops at the first failure |
| Nbt5Writer.NbtWriter.WriteCompound | shen-nbt5/src/writer.rs:79-118 | appends what `CompoundBytes` says |
| Nbt5Writer.NbtWriter.WriteMembers | shen-nbt5/src/writer.rs:88-113 | the member loop appends what `MembersBytes` says and stops at the first failure |
| Nbt5Writer.NbtWriter.WriteMember | shen-nbt5/src/writer.rs:89-112 | appends what `MemberBytes` says |
| Nbt5Writer.NbtWriter.WriteTo | shen-nbt5/src/writer.rs:119-129 | appends what `WriteTo` says |
| Nbt5Writer.NbtWriter.WriteToWithName | shen-nbt5/src/writer.rs:130-140 | appends what `WriteToWithName` says |
| Nbt5Writer.AllTagsAre | shen-nbt5/src/writer.rs:52 | `all(|x| x.tag() == tag)` holds exactly when every child has the first child's tag |
| Nbt5Writer.ToBytes | shen-nbt5/src/writer.rs:205-209 | `to_bytes` gives the buffer exactly when `write_to` finishes |
| Nbt5Writer.ArrayElements | shen-nbt5/src/writer.rs:7-33 | an array payload is its length field followed by its elements |
| Nbt5Writer.ItemsGrow | shen-nbt5/src/writer.rs:60-75 | one more child appends its payload (a Compound child without a name) |
| Nbt5Writer.ItemsStuck | shen-nbt5/src/writer.rs:72 | after a child fails, the remaining children append nothing |
| Nbt5Writer.MembersStuck | shen-nbt5/src/writer.rs:109-111 | after a member fails, the remaining members append nothing |
| Nbt5RoundTrip.SignedBytesDecode | shen-nbt5/src/writer.rs:63-65 | `from_*_bytes` undoes `to_*_bytes` for every value of the width |
| Nbt5RoundTrip.VarRead | shen-nbt5/src/reader.rs:451-491 | the varint of a value reads back as that value reinterpreted as signed, passing exactly its bytes |
| Nbt5RoundTrip.ZigRead | shen-nbt5/src/reader.rs:493-507 | with exact zigzag coding every value reads back |
| Nbt5RoundTrip.StringLengthRead | shen-nbt5/src/reader.rs:19-22 | every string length the layout can express reads back |
| Nbt5RoundTrip.NbtStringRead | shen-nbt5/src/reader.rs:19-22 | every string whose length fits reads back, passing exactly its bytes |
| Nbt5RoundTrip.LengthRead | shen-nbt5/src/reader.rs:24-41 | every length below 2^31 reads back |
| Nbt5RoundTrip.ScalarRead | shen-nbt5/src/reader.rs:50-56 | every scalar reads back in a coherent layout |
| Nbt5RoundTrip.WordsRoundTrip | shen-nbt5/src/reader.rs:746-788 | `chunks_exact` decoding gives back the elements `write_i32_array` / `write_i64_array` wrote |
| Nbt5RoundTrip.BytesRoundTrip | shen-nbt5/src/reader.rs:719-728 | `as u8` then `as i8` gives back every element |
| Nbt5RoundTrip.PayloadRead | shen-nbt5/src/reader.rs:50-63 | every payload that fits reads back as itself, ending where it was written to end |
| Nbt5RoundTrip.ListRead | shen-nbt5/src/reader.rs:70-94 | every list that fits reads back with its children, an empty list as empty |
| Nbt5RoundTrip.ItemsRead | shen-nbt5/src/reader.rs:74-92 | the children from the `k`-th on read back after the first `k` |
| Nbt5RoundTrip.MembersRead | shen-nbt5/src/reader.rs:42-69 | the members of a Compound written without its name read back, up to and past the End tag |
| Nbt5RoundTrip.Readback | shen-nbt5/src/reader.rs:132-140 | what comes back keeps the root's tag |
| Nbt5RoundTrip.RootRoundTrip | shen-nbt5/src/reader.rs:95-104 | with one coherent layout on both sides, `write_to` finishes and `from_reader` gives the root back (unnamed on the Java network), consuming every byte |
| Nbt5Findings.JavaRoundTrip | shen-nbt5/src/writer.rs:119-129 | the Java dialect reads back every root it writes in which no Compound holds a Compound |
| Nbt5Findings.JavaNetRoundTrip | shen-nbt5/src/writer.rs:163-198 | the Java network dialect reads back every root it writes, less the root name |
| Nbt5Findings.JavaNestedKeyLost | shen-nbt5/src/writer.rs:93-96 | the Java writer leaves out the key of an unnamed nested Compound, and the Java reader panics on the result |
| Nbt5Findings.BedrockEmptyListLost | shen-nbt5/src/writer.rs:247-252 | both Bedrock writers give an empty list no length, and both readers panic on the result |
| Nbt5Findings.BedrockDiskArraySwapped | shen-nbt5/src/reader.rs:160-170 | the Bedrock disk writer writes IntArray [1] little-endian and the reader gives [2^24] |
| Nbt5Findings.BedrockNetIntFixed | shen-nbt5/src/writer.rs:466-467 | the Bedrock network writer writes Int 1 as four fixed bytes, which its reader takes as the zigzag varint of -1 |
| Nbt5Findings.BedrockNetStringLength | shen-nbt5/src/writer.rs:441-444 | the Bedrock network writer gives a string length as a zigzag varint that its reader takes as a plain one, failing with CursorOverflow |
| Nbt5Findings.NegativeVarHangs | shen-nbt5/src/writer.rs:352-367 | `var_i32_to_bytes(-1)` never stops, whatever number of turns it is given |
| Nbt5Findings.ZigZagVarHangs | shen-nbt5/src/writer.rs:386-401 | `zigzag_var_i32_to_bytes(2^30)` maps to `i32::MIN` and never stops |
| Nbt5Findings.ZigZagDecodeSign | shen-nbt5/src/reader.rs:493-499 | the readers' arithmetic-shift zigzag decoding takes the coding of 2^30 back to -2^30 |
| Nbt5Findings.IntendedRoundTrip | shen-nbt5/src/writer.rs:5-546 | with the layout each dialect evidently intends on both sides, every root that fits is written to the end and read back |
| Nbt5Findings.ExactVarRoundTrip | shen-nbt5/src/writer.rs:352-367 | encoding an `i32`'s bit pattern as unsigned always ends, and `read_var_i32` gives the value back |
| Nbt5Findings.ExactZigZagRoundTrip | shen-nbt5/src/writer.rs:386-418 | zigzag coding with the mapped value taken as unsigned always ends and reads back |
| Nbt5Encode.ToBytes | shen-nbt5/src/writer.rs:205-209 | each dialect's `to_bytes` writes the root with that dialect's write layout; Nbt5Writer.ToBytes runs it and the Nbt5Findings lemmas state what reads back |
| CppSwap.Swapped | cpp/na_nbt_impl.hpp:1131-1145 | a swap keeps the buffer's length |
| CppSwap.SwappedOutside | cpp/na_nbt_impl.hpp:1131-1145 | `endian_make_native` touches only the `w` bytes of its value |
| CppSwap.SwappedSlice | cpp/na_nbt_impl.hpp:1131-1145 | within its bytes a swap reverses them |
| CppSwap.SwapTwice | cpp/na_nbt_impl.hpp:1131-1145 | swapping the same value twice restores the bytes |
| CppSwap.SwapsCommute | cpp/na_nbt_impl.hpp:1131-1145 | swaps of disjoint values commute |
| CppSwap.SwapReadsNative | cpp/na_nbt_impl.hpp:1098-1112 | after the swap the host, reading in its own order, sees the value the file stored in NBT order |
| CppSwap.SwapRun | cpp/na_nbt_impl.hpp:1212-1216 | an element loop passes exactly when all its elements lie inside the buffer, and then ends after the last |
| CppSwap.RunAfterSwap | cpp/na_nbt_impl.hpp:1206-1217 | swapping a length before an element loop after it commutes with the loop |
| CppSwap.SwapRunTwice | cpp/na_nbt_impl.hpp:1212-1216 | running the same element loop again restores the bytes |
| CppSwap.Count | cpp/na_nbt_impl.hpp:1212 | the loop `for (_index = 0; _index < len; _index++)` runs `len` times, and not at all for a negative `len` |
| CppSwap.Width | cpp/na_nbt_impl.hpp:1149-1183 | exactly the scalar tags 1 to 6 have a payload width, at most 8 |
| CppSwap.ElementWidth | cpp/na_nbt_impl.hpp:1184-1234 | array elements are 1, 4 or 8 bytes |
| CppSwap.ReadSwap | cpp/na_nbt_impl.hpp:1147-1235 | `default_read_swapper` keeps the buffer's length |
| CppSwap.WriteSwap | cpp/na_nbt_impl.hpp:1237-1312 | `default_write_swapper` keeps the buffer's length |
| CppSwap.ReadThenWrite | cpp/na_nbt_impl.hpp:1237-1312 | the write swapper undoes the corrected read swapper for every payload tag: the file's bytes come back and both stop at the same place |
| CppSwap.ArrayReadThenWrite | cpp/na_nbt_impl.hpp:1294-1311 | the same for IntArray and LongArray |
| CppSwap.SwappedArrayReadThenWrite | cpp/na_nbt_impl.hpp:1200-1234 | the read handler swaps the length then the elements; the write handler swaps the length back and the elements back |
| CppSwap.RunKeepsBefore | cpp/na_nbt_impl.hpp:1212-1216 | an element loop leaves the bytes before it alone |
| CppSwap.SwapRunIdentity | cpp/na_nbt_impl.hpp:1203-1206 | when the file's order is the host's, the element loop changes nothing but the cursor |
| CppSwap.LongArrayOverrun | cpp/na_nbt_impl.hpp:1219-1221 | as written, the LongArray read handler stops 4 bytes after the array when the file's order is the host's, for every length |
| CppSwap.LongArrayMisread | cpp/na_nbt_impl.hpp:1219-1233 | as written, reading a one-element LongArray swaps the 8 bytes 4 bytes past its element and stops 4 bytes past the array |
| CppSwap.LongArrayRead | cpp/na_nbt_impl.hpp:1219-1233 | the corrected handler swaps the element itself and stops after it |
| CppSwap.LongArrayWriteBack | cpp/na_nbt_impl.hpp:1300-1311 | the write handler stops after the array, so writing back what the as-written read handler gave does not restore the file |
| CppSwap.MakeNative | cpp/na_nbt_impl.hpp:1131-1145 | `endian_make_native` reverses the value's bytes in place exactly when the NBT order is not the host's |
| CppSwap.MakeNativeGet | cpp/na_nbt_impl.hpp:1098-1112 | `endian_make_native_get` swaps in place and returns the value the file stated |
| CppSwap.GetMakeNative | cpp/na_nbt_impl.hpp:1114-1129 | `endian_get_make_native` swaps in place and returns the value as it stood in host order before the swap |
| CppSwap.SwapElements | cpp/na_nbt_impl.hpp:1212-1216 | the element loop swaps what `SwapRun` says, and reports an element outside the buffer |
| CppSwap.ReadSwapper | cpp/na_nbt_impl.hpp:41-58 | dispatching on the tag swaps what `ReadSwap` says |
| CppSwap.ReadScalarSwapper | cpp/na_nbt_impl.hpp:1149-1183 | the scalar handlers swap what `ReadSwap` says |
| CppSwap.ReadStringSwapper | cpp/na_nbt_impl.hpp:1191-1197 | the String handler swaps the length and skips the string, as `ReadSwap` says |
| CppSwap.ReadArraySwapper | cpp/na_nbt_impl.hpp:1184-1234 | the array handlers swap the length, then the elements, as `ReadSwap` says |
| CppSwap.WriteSwapper | cpp/na_nbt_impl.hpp:1237-1312 | dispatching on the tag swaps what `WriteSwap` says |
| CppRead.Add | cpp/na_nbt_impl.hpp:1346 | `readed_length +=` wraps at 2^64 and is exact below it |
| CppRead.Bound | cpp/na_nbt_impl.hpp:1320-1324 | `bound_check_return` goes on exactly when the count is within `source_len`, and throws `end_of_file` otherwise |
| CppRead.ByteAt | cpp/na_nbt_impl.hpp:1524 | reading a byte is defined exactly inside the buffer |
| CppRead.Get | cpp/na_nbt_impl.hpp:1085-1096 | `endian_get` is defined exactly when its bytes are inside the buffer, and gives the value they state in NBT order |
| CppRead.CheckPayload | cpp/na_nbt_impl.hpp:1544-1660 | the bound check in front of a payload either passes, throws, or reads outside the buffer |
| CppRead.Payload | cpp/na_nbt_impl.hpp:1544-1660 | a payload changes only the buffer (same length), the position and the count |
| CppRead.ChainKept | cpp/na_nbt_impl.hpp:1669-1687 | the chain of open frames depends only on the frames up to its head |
| CppRead.ChainHeadReplaced | cpp/na_nbt_impl.hpp:1711-1717 | filling in the head frame with the same parent offset keeps the chain |
| CppRead.ListHeader | cpp/na_nbt_impl.hpp:1712-1757 | `list_general_begin` fills in only the current frame, with its parent offset, element type, total and a zero count, and moves on to `list_item_begin` |
| CppRead.Push | cpp/na_nbt_impl.hpp:1493-1516 | `comp_begin` / `list_begin` append one frame, child of `current`, and grow `alc_len` by half when full; as written the frame lands outside the allocation exactly when the array was full |
| CppRead.Close | cpp/na_nbt_impl.hpp:1669-1687 | `comp_end` / `list_end` store the current frame's end and span; the read finishes exactly at the root, with every frame stored, and otherwise returns to the parent |
| CppRead.MemberValue | cpp/na_nbt_impl.hpp:1537-1666 | handling a member's value keeps the frames consistent and the buffer's length |
| CppRead.MemberName | cpp/na_nbt_impl.hpp:1530-1540 | the member name keeps the frames consistent and the buffer's length |
| CppRead.CompoundMember | cpp/na_nbt_impl.hpp:1517-1667 | one `comp_item_begin` step keeps the frames consistent and the buffer's length |
| CppRead.ListElement | cpp/na_nbt_impl.hpp:1758-1865 | one `list_item_begin` step keeps the frames consistent and the buffer's length |
| CppRead.Step | cpp/na_nbt_impl.hpp:1517-1865 | every step keeps the frames consistent and the buffer's length |
| CppRead.RootValue | cpp/na_nbt_impl.hpp:1362-1490 | the root value ends the read or opens exactly one frame |
| CppRead.Start | cpp/na_nbt_impl.hpp:1318-1490 | the code before `general_start` leaves a consistent machine with one frame and `alc_len` of `source_len / 32 + 4` |
| CppRead.Run | cpp/na_nbt_impl.hpp:1517-1890 | any number of steps keeps the frames consistent |
| CppRead.RunStep | cpp/na_nbt_impl.hpp:1517-1890 | a run that takes a step goes on from where the step leads |
| CppRead.Read | cpp/na_nbt_impl.hpp:1318-1890 | `read` with at most `fuel` steps: the start, then a run of steps; CppReadSafety.ReadEnds and ReadDefined prove the corrected read ends and stays in bounds, and CppReadImpl.Read runs it on the mark array |
| CppReadFindings.Unswapped | cpp/na_nbt_impl.hpp:1131-1145 | when the host order is the NBT order, the swap of any run of bytes leaves the buffer unchanged |
| CppReadFindings.ZeroBytes | cpp/na_nbt_impl.hpp:1085-1096 | zero bytes read as 0 in either byte order, signed or unsigned |
| CppReadFindings.CompoundRoot | cpp/na_nbt_impl.hpp:1318-1490 | a source that starts with a Compound tag and an empty root name starts the parser at byte 3 with one open Compound frame and 4 + length/32 marks allocated |
| CppReadFindings.EmptyName | cpp/na_nbt_impl.hpp:1517-1540 | a member with an empty name consumes its type byte and the 2-byte name length and goes straight to the value handler |
| CppReadFindings.EndTag | cpp/na_nbt_impl.hpp:1517-1530 | a type byte 0 inside a Compound closes it after counting the one byte |
| CppReadFindings.EmptyLongArrayRead | cpp/na_nbt_impl.hpp:1219-1233 | an empty LongArray member leaves the cursor at 14 in the as-written parser and at 10 in the corrected one; both count 10 bytes read |
| CppReadFindings.LongArraySkipsPastEnd | cpp/na_nbt_impl.hpp:1219-1221 | as written, the 11-byte source `{ LongArray [] }` is never finished: the second step reads its next tag outside the buffer |
| CppReadFindings.LongArrayReadWhole | cpp/na_nbt_impl.hpp:1219-1233 | corrected, the same source is read to a document with the one closed Compound frame in two steps |
| CppReadFindings.Chain | cpp/na_nbt_impl.hpp:1493-1516 | the frames of `depth` nested open Compounds number `depth` |
| CppReadFindings.ChainOpen | cpp/na_nbt_impl.hpp:1493-1516 | those frames form an open chain from the innermost back to the root, and every one is an open Compound |
| CppReadFindings.NestedOpens | cpp/na_nbt_impl.hpp:1517-1667 | in the nested source, a Compound member with an empty name pushes the next frame |
| CppReadFindings.NestedPush | cpp/na_nbt_impl.hpp:1493-1516 | a push below the allocation adds the frame in place; the corrected push at the allocation grows it by half first |
| CppReadFindings.ThreeOpen | cpp/na_nbt_impl.hpp:1472-1516 | both parsers reach the fourth open frame of the nested source with 4 marks allocated after the same steps |
| CppReadFindings.MarkArrayOverrun | cpp/na_nbt_impl.hpp:1496 | as written, the fifth nested Compound is pushed to index 4 of a 4-mark allocation: the mark is written outside it |
| CppReadFindings.MarkArrayGrows | cpp/na_nbt_impl.hpp:1493-1516 | corrected, the allocation grows to 6 marks and the fifth frame is pushed |
| CppReadFindings.MinusSeven | cpp/na_nbt_impl.hpp:1609-1610 | the stated ByteArray length in the sample source reads as -7 |
| CppReadFindings.NegativeLengthStalls | cpp/na_nbt_impl.hpp:1603-1614 | as written, a ByteArray of stated length -7 moves the count and the cursor back to the member's own type byte: the step returns the machine it started from |
| CppReadFindings.NegativeLengthNeverEnds | cpp/na_nbt_impl.hpp:1603-1614 | so the as-written read of that source is still running after any number of steps |
| CppReadFindings.StalledRun | cpp/na_nbt_impl.hpp:1517-1890 | a machine whose step returns itself is still that machine after any number of steps |
| CppReadFindings.NegativeLengthRefused | cpp/na_nbt_impl.hpp:1603-1614 | corrected, the same source is refused as invalid at its first step |
| CppReadSafety.PayloadSafe | cpp/na_nbt_impl.hpp:1544-1660 | in the corrected parser a checked payload either throws or moves the cursor to the new byte count, which stays inside the source and grows; a List's scalar element moves the cursor by its width inside bytes already counted |
| CppReadSafety.StringPayloadSafe | cpp/na_nbt_impl.hpp:1616-1628 | a String payload with its bound check throws or ends with the cursor at the new count, inside the source and past the old one |
| CppReadSafety.ArrayPayloadSafe | cpp/na_nbt_impl.hpp:1603-1662 | the same for a ByteArray, IntArray or LongArray payload, including a negative stated length |
| CppReadSafety.ListHeaderSafe | cpp/na_nbt_impl.hpp:1712-1757 | the List header moves the cursor 5 bytes and counts the bytes of all its scalar elements ahead, inside the source |
| CppReadSafety.PushCompoundSafe | cpp/na_nbt_impl.hpp:1493-1516 | a corrected push of a Compound frame always succeeds and keeps the invariant with nothing newly counted |
| CppReadSafety.PushListSafe | cpp/na_nbt_impl.hpp:1688-1757 | a corrected push of a List frame throws or keeps the invariant with more bytes counted |
| CppReadSafety.CloseSafe | cpp/na_nbt_impl.hpp:1669-1687 | closing a finished frame ends the read or keeps the invariant with one frame fewer open |
| CppReadSafety.MemberValueSafe | cpp/na_nbt_impl.hpp:1541-1666 | a member's value ends the read, throws, or keeps the invariant without moving the count back |
| CppReadSafety.CompoundMemberSafe | cpp/na_nbt_impl.hpp:1517-1667 | a step at a Compound member ends, throws, or keeps the invariant and makes progress |
| CppReadSafety.MemberNameSafe | cpp/na_nbt_impl.hpp:1530-1540 | a member's name and value end, throw, or keep the invariant with more bytes counted |
| CppReadSafety.ElementCounted | cpp/na_nbt_impl.hpp:1758-1770 | counting one more element of the current List keeps the frames consistent, leaves one element fewer to read and one element width fewer pending |
| CppReadSafety.ListElementSafe | cpp/na_nbt_impl.hpp:1758-1865 | a step at a List element ends, throws, or keeps the invariant and makes progress |
| CppReadSafety.StepSafe | cpp/na_nbt_impl.hpp:1517-1890 | every step of the corrected parser from a machine that keeps the invariant ends with a document or an exception, or keeps the invariant and makes progress |
| CppReadSafety.StartSafe | cpp/na_nbt_impl.hpp:1318-1490 | the corrected start refuses the root, reads it whole, or leaves a machine that keeps the invariant |
| CppReadSafety.RootValueSafe | cpp/na_nbt_impl.hpp:1362-1490 | the root value ends the read, throws, or opens its frame keeping the invariant |
| CppReadSafety.RunEnds | cpp/na_nbt_impl.hpp:1517-1890 | from a machine that keeps the invariant some number of steps ends the read with a document or an exception |
| CppReadSafety.RunDefined | cpp/na_nbt_impl.hpp:1320-1324 | whatever the number of steps, the corrected parser never reads outside the source nor writes a mark outside its allocation |
| CppReadSafety.ReadEnds | cpp/na_nbt_impl.hpp:1318-1890 | the corrected `read` of every source below 2^63 bytes ends, with a document or an exception |
| CppReadSafety.ReadDefined | cpp/na_nbt_impl.hpp:1318-1890 | the corrected `read` of every such source never reads outside it nor writes outside the mark allocation |
| CppReadImpl.Parser.constructor | cpp/na_nbt_impl.hpp:1472-1490 | the parser after the root name holds the configuration, buffer, cursor and count it is given, a fresh array of `capacity` marks with none in use, and rests at a Compound item |
| CppReadImpl.Parser.Check | cpp/na_nbt_impl.hpp:1544-1660 | the bound checks on the parser's buffer decide as the model's `CheckPayload` does |
| CppReadImpl.Parser.Payload | cpp/na_nbt_impl.hpp:1147-1235 | swapping one payload in the array leaves the marks untouched and moves the parser to the machine the model's payload step gives, or reports its exception |
| CppReadImpl.Parser.ListHeader | cpp/na_nbt_impl.hpp:1712-1757 | `list_general_begin` on the parser's fields ends where the model's List header ends, keeping the mark array |
| CppReadImpl.Parser.Grow | cpp/na_nbt_impl.hpp:1498-1512 | the reallocation gives a fresh array half as long again, with the marks in use copied and nothing else changed |
| CppReadImpl.Parser.Push | cpp/na_nbt_impl.hpp:1493-1516 | `comp_begin` / `list_begin` on the mark array follow the model's push, growing the array into a fresh one when needed |
| CppReadImpl.Parser.Close | cpp/na_nbt_impl.hpp:1669-1687 | `comp_end` / `list_end` follow the model's close in the same array |
| CppReadImpl.Parser.MemberValue | cpp/na_nbt_impl.hpp:1541-1666 | the switch on a member's type follows the model's member value |
| CppReadImpl.Parser.CompoundMember | cpp/na_nbt_impl.hpp:1517-1530 | `comp_item_begin` follows the model's step at a Compound member |
| CppReadImpl.Parser.MemberName | cpp/na_nbt_impl.hpp:1530-1540 | the name length swap and skip follow the model's member name |
| CppReadImpl.Parser.ListElement | cpp/na_nbt_impl.hpp:1758-1865 | `list_item_begin` follows the model's step at a List element |
| CppReadImpl.Parser.Step | cpp/na_nbt_impl.hpp:1517-1865 | one step from the label the parser rests at follows the model's step |
| CppReadImpl.Parser.Run | cpp/na_nbt_impl.hpp:1517-1890 | the parser's loop returns the outcome of the model's run of the same number of steps, and a finished document is the parser's own buffer |
| CppReadImpl.Parser.RootValue | cpp/na_nbt_impl.hpp:1362-1490 | the root value on the parser follows the model's root value |
| CppReadImpl.Read | cpp/na_nbt_impl.hpp:1318-1340 | `read` returns the model's outcome for the source as it was; a copying read leaves the caller's source unchanged, an in-place read leaves the document in it |
| CppReadImpl.ReadIn | cpp/na_nbt_impl.hpp:1341-1490 | the root tag, the root name and the loop on a buffer return the model's `read` of its old contents, the document being the buffer as swapped |
| CppReadImpl.PushOpens | cpp/na_nbt_impl.hpp:1493-1516 | once the new frame fits, the model's push appends the child frame and makes it current, and for a List goes on with the header |
| CppIter.Load | cpp/na_nbt_impl.hpp:1079-1083 | `byte_as_type` is defined exactly when its `w` bytes lie inside the document, and reads them in host order |
| CppIter.Bytes | cpp/na_nbt_impl.hpp:289-293 | a string view is defined exactly when its `n` bytes lie inside the document, and has `n` bytes |
| CppIter.Elements | cpp/na_nbt_impl.hpp:283-287 | a span of `count` elements, when defined, has `count` elements |
| CppIter.Closed | cpp/na_nbt_impl.hpp:95-99 | the `store` view of a mark exists exactly when the mark is inside the mark array and closed, and is that mark |
| CppIter.CompoundBegin | cpp/na_nbt_impl.hpp:465-470 | the first member is at the Compound's source, with the next mark |
| CppIter.CompoundEnd | cpp/na_nbt_impl.hpp:471-477 | the end iterator exists exactly when the Compound's mark is closed, and sits one byte before the end it records (the End tag) |
| CppIter.Walk | cpp/na_nbt_impl.hpp:560-570 | the members passed from `it` to `end` number at most the fuel |
| CppIter.WalkFirst | cpp/na_nbt_impl.hpp:562 | the walk is empty exactly when it starts at `end`, and otherwise starts at `it` |
| CppIter.WalkCons | cpp/na_nbt_impl.hpp:562-564 | a member before `end` has a key and a successor, and the walk is that member followed by the walk from its successor |
| CppIter.WalkAt | cpp/na_nbt_impl.hpp:562-564 | each member of a walk has a key, is not `end`, and `nbt_compound_iterator_next` takes it to the next member, or to `end` from the last |
| CppIter.CompoundIterator.constructor | cpp/na_nbt_impl.hpp:562 | the iterator starts at the member it is given |
| CppIter.CompoundIterator.Next | cpp/na_nbt_impl.hpp:478-536 | the iterator moves to the successor `nbt_compound_iterator_next` computes |
| CppIter.FindFrom | cpp/na_nbt_impl.hpp:560-570 | the result is `end` exactly when no member passed is named `key`, and otherwise is the first member so named |
| CppIter.Find | cpp/na_nbt_impl.hpp:572-577 | over the whole Compound: the End iterator exactly when no member is named `key`, otherwise the first member so named |
| CppIter.ListBegin | cpp/na_nbt_impl.hpp:580-591 | index 0 at the List's first element, with the next mark |
| CppIter.ListEnd | cpp/na_nbt_impl.hpp:592-598 | the end iterator exists exactly when the List's mark is closed, at the end it records, with index `length` |
| CppIter.ElementValue | cpp/na_nbt_impl.hpp:750-762 | the element's tag has the iterator's mark and source |
| CppIter.ListIterator.constructor | cpp/na_nbt_impl.hpp:766 | the iterator starts at the element it is given |
| CppIter.ListIterator.Next | cpp/na_nbt_impl.hpp:600-742 | the iterator moves to the successor the `next` of its element type computes |
| CppIter.Advance | cpp/na_nbt_impl.hpp:764-772 | from an index of 0 or more the loop makes exactly `index` steps; from a negative index the `int32_t` counter runs into overflow, which is undefined |
| CppIter.FindElementAsWritten | cpp/na_nbt_impl.hpp:894-906 | an index at least the length gives the end iterator, an index inside the List gives the element after `index` steps, and a negative index is undefined |
| CppIter.FindElement | cpp/na_nbt_impl.hpp:894-906 | every index outside the List gives the end iterator, and an index inside it gives the element after `index` steps |
| CppIter.ElementsFrame | cpp/na_nbt_impl.hpp:283-287 | the elements of a span depend only on the bytes it covers |
| CppIter.ElementsOfBytes | cpp/na_nbt_impl.hpp:286 | single-byte elements read the same in either byte order |
| CppIter.RunTail | cpp/na_nbt_impl.hpp:1209-1213 | swapping the first element of a run leaves the later elements as they were |
| CppIter.RunHead | cpp/na_nbt_impl.hpp:1209-1213 | after the element loop, the first element read in host order is the file's first element read in NBT order |
| CppIter.ElementsAfterRun | cpp/na_nbt_impl.hpp:1209-1213 | after the element loop, every element read in host order is the file's element read in NBT order |
| CppIter.ScalarAgrees | cpp/na_nbt_impl.hpp:1150-1183 | a scalar the read handler passed advances by its width, and `any_tag_get_*` reads it in host order as the file states it in NBT order |
| CppIter.StringAgrees | cpp/na_nbt_impl.hpp:1192-1197 | a string the read handler passed reads through `any_tag_get_string` as the file's string |
| CppIter.ArrayPass | cpp/na_nbt_impl.hpp:1185-1234 | the corrected array handler swaps the length to host order, stops at 4 + length × element width, and swaps the elements exactly when the orders differ and the elements are wider than a byte |
| CppIter.ArrayAgrees | cpp/na_nbt_impl.hpp:283-287 | an array the corrected handler passed reads through `any_tag_get_*_array` with the file's length and elements |
| CppIter.ElementsDefined | cpp/na_nbt_impl.hpp:283-287 | a span that lies inside the document is defined |
| CppIter.PayloadEndAgrees | cpp/na_nbt_impl.hpp:504-521 | where the iterators step past a string or an array is where the corrected read handler stopped |
| CppIter.DocumentRootKeyAsWritten | cpp/na_nbt_impl.hpp:216-225 | `nbt_document_root_key` as written: no name for an End root, otherwise a view as long as the name that starts at byte 1, on the name's length field; RootKeyAsWrittenShifted and RootKeyReadsLength state what it returns |
| CppIter.DocumentRootKey | cpp/na_nbt_impl.hpp:216-225 | the root key as intended: no name for an End root, otherwise the bytes after the tag and the 2-byte length; CppViews.RootReadsAsFile proves it is the file's root name |
| CppIter.RootKeyAsWrittenShifted | cpp/na_nbt_impl.hpp:216-225 | as written, the root key is as long as the name but starts with the two length bytes and leaves out the name's last two bytes |
| CppIter.RootKeyReadsLength | cpp/na_nbt_impl.hpp:216-225 | for the root `{"ab": …}` on a big-endian host the key as written is the length bytes `[0, 2]`, and the intended key is `ab` |
| CppIter.DocumentRootValue | cpp/na_nbt_impl.hpp:227-235 | `nbt_document_root_value` is the payload after the root tag, the name length and the name, with the first mark; CppViews.RootReadsAsFile proves it starts where the file's root payload starts |
| CppIter.GetScalar | cpp/na_nbt_impl.hpp:247-282 | `any_tag_get_byte` … `_double` read the tag's width at its source in host order, signed for the integers; ScalarAgrees proves the value is the one the file states |
| CppIter.GetString | cpp/na_nbt_impl.hpp:289-294 | `any_tag_get_string` is the bytes after the host-order 2-byte length; StringAgrees proves it is the file's string |
| CppIter.GetArray | cpp/na_nbt_impl.hpp:283-288 | `any_tag_get_*_array` is the elements after the signed 4-byte length, undefined for a negative length; ArrayAgrees proves the length and elements are the file's |
| CppIter.GetListScalars | cpp/na_nbt_impl.hpp:302-355 | `any_tag_get_list_byte` … `_list_double` give the elements after the List's type byte and signed count, undefined when the type byte is not the one asked for or the count is negative |
| CppIter.GetList | cpp/na_nbt_impl.hpp:356-433 | `any_tag_get_list_*` for non-scalar elements give the stated count, the List's mark and its first element after the 5-byte header, undefined when the type byte is not the one asked for |
| CppIter.CompoundNext | cpp/na_nbt_impl.hpp:478-536 | `nbt_compound_iterator_next` passes the tag, name length and name, then a scalar's width, a string's or array's stated length, or a nested List or Compound up to its recorded end with the mark moved past its marks; CppViews.MemberAt, WalkAt and CppViews.MemberIterates state where it lands |
| CppIter.Key | cpp/na_nbt_impl.hpp:538-544 | `nbt_compound_iter_key` is the name after the member's tag and 2-byte length, undefined at End; CppViews.MemberIterates proves it is the file's name |
| CppIter.Value | cpp/na_nbt_impl.hpp:545-557 | `nbt_compound_iter_value` is the payload after the member's name, with the iterator's mark, undefined at End; CppViews.MemberIterates proves it starts right after the file's name |
| CppIter.ListNext | cpp/na_nbt_impl.hpp:600-742 | `nbt_list_iterator_next_*` add one to the `int32_t` index (undefined past its maximum) and pass one element: nothing for End, a scalar's width, a string's or array's stated length, or a nested container up to its recorded end; ListIterator.Next, Advance and FindElement are stated with it |
| CppViews.SwappedTouches | cpp/na_nbt_impl.hpp:1132-1145 | `endian_make_native` changes only the bytes of the value it swaps |
| CppViews.RunTouches | cpp/na_nbt_impl.hpp:1209-1213 | the element loop of an array handler changes only the elements it passes |
| CppViews.ReadSwapTouches | cpp/na_nbt_impl.hpp:1150-1234 | a read handler of the corrected parser changes only the payload it passes, and never moves the cursor back |
| CppViews.PayloadKept | cpp/na_nbt_impl.hpp:1544-1660 | a payload the corrected parser passes changes only bytes at or after the cursor and no closed frame |
| CppViews.ListHeaderKept | cpp/na_nbt_impl.hpp:1712-1757 | `list_general_begin` changes only the List's count ahead of the cursor and no closed frame |
| CppViews.PushKept | cpp/na_nbt_impl.hpp:1493-1516 | opening a frame changes no byte and no closed frame |
| CppViews.CloseKept | cpp/na_nbt_impl.hpp:1669-1687 | closing a frame writes only that frame, which was open, so the bytes and the other closed frames stay, also in the document a last close returns |
| CppViews.MemberValueKept | cpp/na_nbt_impl.hpp:1541-1666 | reading a member's value keeps the bytes behind the cursor and the closed frames |
| CppViews.MemberNameKept | cpp/na_nbt_impl.hpp:1530-1540 | swapping a member's name length and passing its name keeps the bytes behind the cursor and the closed frames |
| CppViews.CompoundMemberKept | cpp/na_nbt_impl.hpp:1517-1687 | a step at `comp_item_begin` keeps the bytes behind the cursor and the closed frames, into the next machine or the finished document |
| CppViews.ListElementKept | cpp/na_nbt_impl.hpp:1758-1885 | a step at `list_item_begin` keeps the bytes behind the cursor and the closed frames, into the next machine or the finished document |
| CppViews.StepKept | cpp/na_nbt_impl.hpp:1517-1885 | any step of the corrected parser keeps the bytes behind the cursor and the closed frames |
| CppViews.RunKept | cpp/na_nbt_impl.hpp:1517-1890 | so does any number of steps, up to the document `read` returns |
| CppViews.StartKept | cpp/na_nbt_impl.hpp:1341-1490 | a read that starts has a root tag other than End and a 2-byte name length; the root's payload starts after the name, and only bytes from there to the cursor differ from the file with the length swapped |
| CppViews.StartTouched | cpp/na_nbt_impl.hpp:1341-1490 | before the first step only bytes from the root name's length up to the cursor differ from the file |
| CppViews.ReadRuns | cpp/na_nbt_impl.hpp:1318-1340 | the steps of a read are a run from the machine the start leaves |
| CppRead.RunSplit | cpp/na_nbt_impl.hpp:1517-1890 | `n` steps and then `k` more are `n + k` steps |
| CppViews.Reached | cpp/na_nbt_impl.hpp:1318-1890 | a machine the corrected read reaches on the way to its document still holds the file's bytes from its cursor on, and the rest of the read from it ends in that document |
| CppViews.ReachedFrom | cpp/na_nbt_impl.hpp:1517-1890 | the same for a run from any machine that holds the file's bytes from its cursor on |
| CppViews.StepThenDone | cpp/na_nbt_impl.hpp:1517-1890 | the document a run ends in keeps the bytes and closed frames its first step left behind |
| CppViews.ReachedStep | cpp/na_nbt_impl.hpp:1318-1890 | after one more step on the way, the document keeps the bytes behind that step's cursor |
| CppViews.FileFrom | cpp/na_nbt_impl.hpp:247-451 | the `any_tag_get_*` views of two files of one length that agree from a payload on are the same |
| CppViews.HandledReadsAsFile | cpp/na_nbt_impl.hpp:1150-1234 | a payload the corrected handler passed in a buffer that was the file from there on reads, in a document that keeps it, as the file states it |
| CppViews.RunInv | cpp/na_nbt_impl.hpp:1517-1890 | every machine a run reaches from a safe machine is safe |
| CppViews.ReadInv | cpp/na_nbt_impl.hpp:1318-1890 | every machine the corrected read of a source below 2^63 bytes reaches is safe |
| CppViews.MemberNamed | cpp/na_nbt_impl.hpp:1517-1540 | a step at a Compound member that is not End swaps its 2-byte name length in place, passes the name, and reads the value after it |
| CppViews.MemberPayload | cpp/na_nbt_impl.hpp:1544-1665 | a member value of a scalar, String or array type that keeps the read running is one pass of its read handler, after a bound check that refused a negative array length |
| CppViews.MemberPassed | cpp/na_nbt_impl.hpp:1517-1665 | one step at such a member swaps the name length and runs the payload's read handler after the name |
| CppViews.NamedReadsAsFile | cpp/na_nbt_impl.hpp:1517-1665 | the payload of such a member reads in the finished document as the file states it |
| CppViews.MemberAt | cpp/na_nbt_impl.hpp:478-557 | over a member whose tag, name length and payload end are known, the Compound iterator gives the name, the value after it, and the next member at the payload's end |
| CppViews.NamedIterates | cpp/na_nbt_impl.hpp:478-557 | for a member the parser passed, the iterator's key is the file's name, the value follows it, and the next member is where the parser stopped |
| CppViews.MemberReadsAsFile | cpp/na_nbt_impl.hpp:1517-1665 | every scalar, String or array member the corrected read passes on its way to a document reads there, in host order, as the file states it in NBT order |
| CppViews.MemberIterates | cpp/na_nbt_impl.hpp:478-557 | for every such member, `nbt_compound_iter_key` gives the name the file states, `nbt_compound_iter_value` starts right after it, and `nbt_compound_iterator_next` goes to where the parser's step for the member ended |
| CppViews.RootReadsAsFile | cpp/na_nbt_impl.hpp:216-235 | in the document the corrected read returns, an End root has no name, and any other root's intended key is the name the file gives it, with its value starting right after that name |
| Nbt2.ByteAt | shen-nbt2/src/lib.rs:22-26 | `read_byte` panics exactly when the head is at or past the end; otherwise it returns the byte there as an `i8` and moves one byte on |
| Nbt2.BeAt | shen-nbt2/src/lib.rs:27-55 | `read_short`/`read_int`/`read_long` panic exactly when fewer than `w` bytes are left; otherwise they return a signed `w`-byte value and move `w` bytes on |
| Nbt2.BitsAt | shen-nbt2/src/lib.rs:56-79 | `read_float`/`read_double` panic exactly when fewer than `w` bytes are left; otherwise they return a `w`-byte bit pattern and move `w` bytes on |
| Nbt2.BytesAt | shen-nbt2/src/lib.rs:80-84 | `read_bytes(n)` panics exactly when fewer than `n` bytes are left; otherwise it returns those `n` bytes, in order, and moves `n` bytes on |
| Nbt2.Usize | shen-nbt2/src/lib.rs:224 | `length as usize` keeps a non-negative length and turns a negative one into a number of at least 2^64 - 2^63 |
| Nbt2.SliceAsByteArray | shen-nbt2/src/lib.rs:93-97 | `slice_as_byte_array` keeps the length, and each element is the byte at its place read as an `i8` |
| Nbt2.SliceAs | shen-nbt2/src/lib.rs:98-160 | `slice_as_*_array` fails exactly when the slice is not a whole number of `w`-byte values; otherwise it holds `len / w` values |
| Nbt2.SliceAsRoundTrip | shen-nbt2/src/lib.rs:98-160 | reading the bytes of values written in the slice's own order gives those values back |
| Nbt2.WordsRoundTrip | shen-nbt2/src/lib.rs:98-160 | the chunking under `slice_as_*` gives back every value written in the same order |
| Nbt2.TextAt | shen-nbt2/src/lib.rs:222-226 | a String read ends after its length prefix and as many bytes as the string holds, inside the input |
| Nbt2.ByteArrayAt | shen-nbt2/src/lib.rs:368-374 | a Byte Array read ends after its `i32` length and its bytes, inside the input |
| Nbt2.WordArrayAt | shen-nbt2/src/lib.rs:375-387 | `read_int_array` gives an Int Array and `read_long_array` a Long Array, ending inside the input after the length |
| Nbt2.Primitives | shen-nbt2/src/lib.rs:234-263 | a list of tag 1 to 6 holds one element per `width` bytes of its raw data |
| Nbt2.Collect | shen-nbt2/src/lib.rs:264-323 | a list of tag 7 to 12 holds exactly the elements collected for it |
| Nbt2.ListAt | shen-nbt2/src/lib.rs:227-326 | a list read ends inside the input, after at least its tag and `i32` length |
| Nbt2.Items | shen-nbt2/src/lib.rs:264-323 | the element loops read exactly `length` elements more, every one of the list's tag, ending inside the input |
| Nbt2.ElementAt | shen-nbt2/src/lib.rs:264-323 | one element of a list of tag 7 to 12 takes at least one byte and is of the list's tag |
| Nbt2.PayloadAt | shen-nbt2/src/lib.rs:342-357 | the value read for a member of tag `t` takes at least one byte and is of tag `t` |
| Nbt2.Members | shen-nbt2/src/lib.rs:327-367 | `read_compound` takes at least its end tag and keeps, in order, the members read before |
| Nbt2.FromVec | shen-nbt2/src/lib.rs:474-480 | `from_vec` returns a Compound when it returns |
| Nbt2.BeAtReadsBack | shen-nbt2/src/lib.rs:27-55 | a value written big-endian in `w` bytes reads back, and the head moves `w` bytes |
| Nbt2.TextReadsBack | shen-nbt2/src/lib.rs:222-226 | a string behind a length that holds its size reads back whole, and the head moves past it |
| Nbt2.BytesAtSlice | shen-nbt2/src/lib.rs:80-84 | `read_bytes` of the bytes that are there returns them |
| Nbt2.ListCount | shen-nbt2/src/lib.rs:227-326 | a list read whole holds exactly as many elements as its `i32` length says |
| Nbt2.BadListTypePanics | shen-nbt2/src/lib.rs:227-326 | an element tag of 0 or outside 1..12 makes `read_list` panic |
| Nbt2.NegativeListPanics | shen-nbt2/src/lib.rs:227-326 | a negative length makes `read_list` panic for every element tag |
| Nbt2.FromVecSkipsHeader | shen-nbt2/src/lib.rs:474-480 | `from_vec` skips the root tag byte, whatever it says, and the root name, then reads the Compound after them |
| Nbt2.HostOrderMisread | shen-nbt2/src/lib.rs:375-381 | as written on a little-endian host, the Int Array [1] reads as [16777216] while `read_int` reads the same bytes as 1 |
| Nbt2.WordArrayReadsBack | shen-nbt2/src/lib.rs:375-387 | with big-endian slices, an Int Array or Long Array written as the format lays it out reads back |
| Nbt2.ListStringLengthMisread | shen-nbt2/src/lib.rs:272-281 | as written, a list holding the one String "a" with its 2-byte length panics |
| Nbt2.StringItemsRead | shen-nbt2/src/lib.rs:272-281 | the corrected element loop reads back String elements written behind 2-byte lengths, one by one |
| Nbt2.ListStringsReadBack | shen-nbt2/src/lib.rs:227-326 | the corrected `read_list` reads back a list of Strings written as the format lays it out |
| Nbt2.ListOfItems | shen-nbt2/src/lib.rs:264-323 | a list of tag 7 to 12 holds the `length` elements read after its header, or panics when they do |
| Nbt2.ItemsStep | shen-nbt2/src/lib.rs:264-323 | one turn of the element loop adds one element of the list's tag and moves the head past it |
| Nbt2.As | shen-nbt2/src/lib.rs:388-473 | an accessor returns the value exactly when it is of the accessor's variant |
| Nbt2.PayloadAccessor | shen-nbt2/src/lib.rs:342-473 | a value read for tag `t` is seen by the accessor of `t` and by no other |
| Nbt2.NbtData.constructor | shen-nbt2/src/lib.rs:13 | `NbtData::new` holds the bytes it is given, with the head at the first byte |
| Nbt2.NbtData.PushHead | shen-nbt2/src/lib.rs:18-21 | `push_head` moves the head forward by `length`, unchecked, and returns the new head |
| Nbt2.NbtData.ReadByte | shen-nbt2/src/lib.rs:22-26 | `read_byte` on the buffer returns what `ByteAt` says and leaves the head after the byte |
| Nbt2.NbtData.ReadBe | shen-nbt2/src/lib.rs:27-55 | `read_short`/`read_int`/`read_long` on the buffer return what `BeAt` says and leave the head after the value |
| Nbt2.NbtData.ReadBits | shen-nbt2/src/lib.rs:56-79 | `read_float`/`read_double` on the buffer return what `BitsAt` says and leave the head after the value |
| Nbt2.NbtData.ReadBytes | shen-nbt2/src/lib.rs:80-84 | `read_bytes` on the buffer returns what `BytesAt` says and leaves the head after the bytes |
| Nbt2.ReadText | shen-nbt2/src/lib.rs:222-226 | `read_string` on the buffer returns what `TextAt` says and leaves the head after the string |
| Nbt2.ReadByteArray | shen-nbt2/src/lib.rs:368-374 | `read_byte_array` on the buffer returns what `ByteArrayAt` says |
| Nbt2.ReadWordArray | shen-nbt2/src/lib.rs:375-387 | `read_int_array`/`read_long_array` on the buffer return what `WordArrayAt` says |
| Nbt2.ReadPayload | shen-nbt2/src/lib.rs:342-357 | the `match type_id` of `read_compound` on the buffer returns what `PayloadAt` says |
| Nbt2.ReadElement | shen-nbt2/src/lib.rs:264-323 | one element loop body on the buffer returns what `ElementAt` says |
| Nbt2.ReadList | shen-nbt2/src/lib.rs:227-326 | `read_list` on the buffer returns what `ListAt` says and leaves the head after the list |
| Nbt2.ReadItems | shen-nbt2/src/lib.rs:264-323 | the element loops on the buffer return what `Items` says |
| Nbt2.ReadCompound | shen-nbt2/src/lib.rs:327-367 | `read_compound`'s loop on the buffer returns what `Members` says and leaves the head after the end tag |
| Nbt2.FromVecRead | shen-nbt2/src/lib.rs:474-480 | `Value::from_vec` returns what `FromVec` says |
| StdCursor.Available | src/data.rs:159-165 | one `read` into a buffer of `n` copies at most `n` bytes, all `n` when they are there, none at or past the end, and never reads past the end |
| StdCursor.FillIndex | src/data.rs:159-165 | each byte of the buffer after one `read` is the input's byte at that place, or zero past the end |
| StdCursor.BeValue | src/data.rs:156-166 | `read_data!` of a `w`-byte integer gives a signed `w`-byte value, and the cursor moves by the bytes copied |
| StdCursor.BitsValue | src/data.rs:156-166 | `read_data!` of a float gives a `w`-byte bit pattern, and the cursor moves by the bytes copied |
| StdCursor.TextValue | src/data.rs:198-206 | `from_string` never moves the cursor back, and ends inside the input unless it moved not at all |
| StdCursor.TextLength | src/data.rs:198-206 | the string `from_string` reads is as long as its `i32` length cast to `u32` |
| StdCursor.SignedBits | src/data.rs:199 | casting a signed read to the unsigned type of its width gives the unsigned read of the same bytes |
| StdCursor.Cursor.constructor | src/data.rs:15 | a new `Cursor` holds the input, at position 0 |
| StdCursor.Cursor.Read | src/data.rs:159-165 | one `read` returns the zero-filled buffer `Fill` says and moves the position by the bytes copied |
| StdCursor.Cursor.SeekBack | src/data.rs:224-228 | `seek(SeekFrom::Current(-1))` fails exactly at position 0, otherwise moves one byte back |
| StdCursor.ReadBe | src/data.rs:156-166 | `from_i16`/`from_i32`/`from_i64` on the cursor return what `BeValue` says and leave the position there |
| StdCursor.ReadBits | src/data.rs:156-166 | `from_f32`/`from_f64` on the cursor return what `BitsValue` says and leave the position there |
| StdCursor.ReadText | src/data.rs:198-206 | `from_string` on the cursor returns what `TextValue` says and leaves the position there |
| StdCursor.FillWhole | src/data.rs:159-165 | a read that fits in the input returns its bytes |
| StdCursor.ShortReadZeroFills | src/data.rs:159-165 | a short read leaves the missing bytes zero: `from_i32` of the single byte 0x12 reads 0x12000000 and moves one byte |
| StdCursor.BeValueReadsBack | src/data.rs:156-166 | a value written big-endian in `w` bytes reads back, and the cursor moves `w` bytes |
| StdCursor.TextReadsBack | src/data.rs:198-206 | a string behind a length that holds its size reads back whole, and the cursor moves past it |
| StdCursor.TextPartsReadBack | src/data.rs:198-206 | the same, with the length and the string given apart |
| StdCursor.LengthReadsBack | src/data.rs:199 | a length written big-endian reads back whole |
| SrcData.AsValue | src/data.rs:58-65 | `as_value` returns the value exactly when the item is a Value, and it is that item's value |
| SrcData.AsArray | src/data.rs:66-73 | `as_array` returns the list exactly when the item is an Array, and it is that item's list |
| SrcData.As | src/data.rs:134-182 | `as_end`, `as_bool` ... `as_string` return the value exactly when it is of the accessor's variant |
| SrcData.EndAt | src/data.rs:184-188 | `from_end` gives End and passes the one byte it can copy |
| SrcData.BoolAt | src/data.rs:147-154 | `from_bool` gives a Byte that is true exactly when there is a byte and it is not zero, and passes what it copied |
| SrcData.StringAt | src/data.rs:198-206 | `from_string` gives a String and never moves the cursor back |
| SrcData.StringLength | src/data.rs:198-206 | the String read is as long as its `i32` length cast to `u32` |
| SrcData.ValueAt | src/data.rs:190-206 | the reader for a known tag gives a value of that tag and never moves the cursor back |
| SrcData.TagAt | src/data.rs:210-211 | the tag read is the byte at the cursor and passes it; at the end of the input it is 0 and nothing is passed |
| SrcData.TryValueAt | src/data.rs:209-227 | `try_read_value` fails exactly on a tag byte that is not 0 to 6 or 8, and then it puts the cursor back on the tag |
| SrcData.TryNamedValueAt | src/data.rs:229-268 | `try_read_value_with_name` fails exactly on a tag byte that is not 0 to 6 or 8, and then it puts the cursor back on the tag |
| SrcData.FromEnd | src/data.rs:184-188 | `from_end` on the cursor gives what `EndAt` says |
| SrcData.FromBool | src/data.rs:147-154 | `from_bool` on the cursor gives what `BoolAt` says |
| SrcData.FromString | src/data.rs:198-206 | `from_string` on the cursor gives what `StringAt` says |
| SrcData.ReadValue | src/data.rs:190-206 | the reader of a known tag on the cursor gives what `ValueAt` says |
| SrcData.TryReadValue | src/data.rs:209-227 | `try_read_value` on the cursor gives what `TryValueAt` says |
| SrcData.TryReadValueWithName | src/data.rs:229-268 | `try_read_value_with_name` on the cursor gives what `TryNamedValueAt` says |
| SrcData.EndOfInputIsEnd | src/data.rs:209-268 | at the end of the input both readers see a zero tag and return End without moving |
| SrcData.ValueReadsBack | src/data.rs:190-206 | the payload of a value that fits its type reads back through the reader of its tag |
| SrcData.TryValueReadsBack | src/data.rs:209-227 | a tag and payload read back through `try_read_value` |
| SrcData.TryNamedValueReadsBack | src/data.rs:229-268 | a tag, a name and a payload read back through `try_read_value_with_name` |
| SrcData.StringBytes | src/data.rs:198-206 | a string is written as its length in four bytes, then its bytes |
| SrcData.TaggedValueOf | src/data.rs:209-227 | `try_read_value` of a known tag is the tag byte followed by what the reader of that tag reads |
| SrcData.NamedValueOf | src/data.rs:229-268 | `try_read_value_with_name` of a known tag is the tag byte, the name string, then what the reader of that tag reads |
| V1Data.AsValue | v1/src/data.rs:57-63 | `as_value` returns the value exactly when the item is a Value, and it is that item's value |
| V1Data.AsArray | v1/src/data.rs:65-71 | `as_array` returns the list exactly when the item is an Array, and it is that item's list |
| V1Data.As | v1/src/data.rs:137-185 | `as_end`, `as_i8` ... `as_string` return the value exactly when it is of the accessor's variant |
| V1Data.StringAt | v1/src/data.rs:200-211 | `from_string` gives a String and never moves the cursor back |
| V1Data.ValueAt | v1/src/data.rs:186-211 | the reader for a known tag gives a value of that tag and never moves the cursor back |
| V1Data.TryValueAt | v1/src/data.rs:214-232 | `try_read_value` fails exactly on a tag byte that is not 0 to 6 or 8, and then it puts the cursor back on the tag |
| V1Data.TryNamedValueAt | v1/src/data.rs:234-273 | `try_read_value_with_name` fails exactly on a tag byte that is not 0 to 6 or 8, and then it puts the cursor back on the tag |
| V1Data.FromString | v1/src/data.rs:200-211 | `from_string` on the cursor gives what `StringAt` says |
| V1Data.ReadValue | v1/src/data.rs:186-211 | the reader of a known tag on the cursor gives what `ValueAt` says |
| V1Data.TryReadValue | v1/src/data.rs:214-232 | `try_read_value` on the cursor gives what `TryValueAt` says |
| V1Data.TryReadValueWithName | v1/src/data.rs:234-273 | `try_read_value_with_name` on the cursor gives what `TryNamedValueAt` says |
| V1Data.EndOfInputIsEnd | v1/src/data.rs:214-273 | at the end of the input both readers see a zero tag and return End without moving |
| V1Data.ByteIsSigned | v1/src/data.rs:150-157 | the byte 0xFF reads as the `i8` -1 here, where the later prototype reads it as `true` |
| V1Data.LengthIsUnsigned | v1/src/data.rs:200-211 | a length of 0xFFFF, -1 as an `i16`, is cast to `u16` and asks for 65535 bytes |
| V1Data.StringLength | v1/src/data.rs:200-211 | the String read is as long as its `i16` length cast to `u16` |
| V1Data.StringBytes | v1/src/data.rs:200-211 | a string is written as its length in two bytes, then its bytes |
| V1Data.ValueReadsBack | v1/src/data.rs:186-211 | the payload of a value that fits its type reads back through the reader of its tag |
| V1Data.TryValueReadsBack | v1/src/data.rs:214-232 | a tag and payload read back through `try_read_value` |
| V1Data.TryNamedValueReadsBack | v1/src/data.rs:234-273 | a tag, a name and a payload read back through `try_read_value_with_name` |
| V1Data.TaggedValueOf | v1/src/data.rs:214-232 | `try_read_value` of a known tag is the tag byte followed by what the reader of that tag reads |
| V1Data.NamedValueOf | v1/src/data.rs:234-273 | `try_read_value_with_name` of a known tag is the tag byte, the name string, then what the reader of that tag reads |
| SrcRead.ElementTag | src/read.rs:24-62 | the elements of each array are read with a reader of a known value tag (`from_bool`, `from_i32`, `from_i64`) |
| SrcRead.ValuesAt | src/read.rs:79-120 | the `for _ in 0..len` loops read exactly `len` values and never move the cursor back |
| SrcRead.ValuesTags | src/read.rs:79-120 | every value such a loop reads has the tag it was read as |
| SrcRead.ValuesStep | src/read.rs:79-120 | `len + 1` values are the value read first, then `len` more read from where it ended |
| SrcRead.ArraysAt | src/read.rs:108-142 | the loops reading arrays give exactly `len` arrays unless one of them panics, and never move the cursor back |
| SrcRead.ArraysStep | src/read.rs:108-142 | `len + 1` arrays are one array, then `len` more; a panic of the first ends the read |
| SrcRead.ReadValues | src/read.rs:79-120 | the value loop on the cursor reads what `ValuesAt` says |
| SrcRead.ReadArray | src/read.rs:24-62 | `from_bool_array`, `from_i32_array` and `from_i64_array` on the cursor read what `ArrayAt` says and leave the cursor after the array |
| SrcRead.ReadArrays | src/read.rs:108-142 | the array loop on the cursor reads what `ArraysAt` says |
| SrcRead.ReadElements | src/read.rs:74-153 | the `match` on the element type, on the cursor, reads what `ElementsAt` says |
| SrcRead.ReadNbtList | src/read.rs:65-155 | `read_nbt_list` on the cursor reads what `NbtListAt` says |
| SrcRead.ArrayCount | src/read.rs:24-62 | an array read panics exactly when its count is negative, and otherwise holds as many elements as the count says |
| SrcRead.ListElements | src/read.rs:74-153 | type End panics, an unknown type panics, a List of Lists or of Compounds is empty and passes nothing, a value type gives `len` values of that type, an array type gives `len` arrays |
| SrcRead.NegativeCountPanics | src/read.rs:65-70 | a negative count panics in `with_capacity` before the element type is read, in every array read and in `read_nbt_list` |
| SrcRead.ValuesReadBack | src/read.rs:79-120 | values of one known tag, written one after the other, read back through the value loop |
| SrcRead.ListReadsBack | src/read.rs:65-155 | with the type read before the count, a List of values written as NBT lays it out reads back whole |
| SrcRead.CountReadsBack | src/read.rs:66-69 | a count written big-endian in four bytes reads back |
| SrcRead.CountBeforeTypeMisread | src/read.rs:65-77 | as written, an empty List of Ints laid out as NBT lays it out (type 3, count 0) is read as count 0x03000000 then type End, and panics; read type first it is the empty List |
| SrcRead.ArrayAt | src/read.rs:24-62 | `from_bool_array`, `from_i32_array` and `from_i64_array`: a big-endian count, a panic in `with_capacity` for a negative count, then that many values; ArrayCount states its outcome |
| SrcRead.ElementsAt | src/read.rs:74-153 | the `match` on the element type: End and unknown types panic, Lists and Compounds of Lists are empty, value types give `len` values and array types `len` arrays; ListElements states its outcome |
| SrcRead.NbtListAt | src/read.rs:65-155 | `read_nbt_list` reads the count, then the element type as written, or the type first as corrected; a negative count panics in `with_capacity`; CountBeforeTypeMisread and ListReadsBack state what each order gives |

## Left out

- Nbt6Reader.NbtReader.ReadString: `String::from_utf8_lossy` is not modelled. The string stays the bytes read, so invalid UTF-8 is not replaced by U+FFFD (shen-nbt6/src/reader.rs:634-642).
- Nbt5Decode.StringAt: as for the newest reader, `from_utf8_lossy` is not modelled and the string is the raw bytes (shen-nbt5/src/reader.rs:790-797). Nbt5Reader.NbtReader.ReadString inherits this.
- Nbt2.TextAt: `from_utf8(..).unwrap()` panics on invalid UTF-8, and the model does not check UTF-8. The same holds for SrcData.StringAt and V1Data.StringAt (`String::from_utf8(buff).unwrap()`) and for the compound names of Nbt2.Members.
- VarInt.ShiftIn: the sixth group of `read_var_i32` is shifted by 35 on an `i32`. The model takes the release build's masked shift (35 mod 32 = 3); a debug build panics there instead (shen-nbt6/src/reader.rs:225-262, shen-nbt5/src/reader.rs:451-491).
- Nbt5Decode.Usize: an allocation below 2^63 bytes is taken to succeed. Only a negative length cast to `usize` (at least 2^63, `CAPACITY_LIMIT`) panics in `Vec::with_capacity`. A huge allocation that the allocator refuses (an abort) is not modelled.
- Nbt2.ListAt: the same holds for `Vec::with_capacity(length as usize)` (shen-nbt2/src/lib.rs:265-315). A negative length panics, as modelled. A huge positive length that the allocator refuses (an abort) is not modelled.
- SrcRead.ArrayAt: the same for `Vec::with_capacity(len as usize)` in the array readers (src/read.rs:29-57). A negative count panics, as modelled. A refused huge allocation is not modelled.
- SrcRead.NbtListAt: the same for its `Vec::with_capacity(len as usize)` (src/read.rs:70).
- Nbt6Borrow.ListHeader: `Vec::with_capacity(lst_len)` and `(0..lst_len).collect()` run before `roll_down` checks the length against the input (java_read.rs:184, 206-208, 424). On a huge declared count the source can abort in the allocator before the model's `CursorOverflow`. The model reports `CursorOverflow`.
- Nbt5Decode.CompoundAt: the earlier reader recurses once per nesting level, with no depth bound. Its stack overflow on deep nesting is not modelled; the model's recursion is bounded only by the input length.
- Nbt6Traits.Formatter.Fmt: the ten-member compound `Display` example of shen-nbt6/src/traits.rs:148-166 is not restated as a lemma. Its long expected text is too costly to compare character by character. The three array examples are kept.
- `show_cursor_fancy` of the newest reader (shen-nbt6/src/reader.rs:94-133) is a debugging display and is not modelled.
- Nbt6Reader.NbtReader.ReadArray: the `*_unsafe` readers (shen-nbt6/src/reader.rs:21-46, 432-465, 482-491, 504-562) are not modelled on their own. They do the same reads without the check, and their callers check first. The checked readers that wrap them are modelled.
- Nbt2.NbtData.PushHead: `head += length` can overflow `usize`. The model's head is unbounded.
- `NbtData::get_mut` of the first prototype (shen-nbt2/src/lib.rs:14-17) returns a mutable view of the rest of the buffer and is not modelled.
- V1Data.StringAt: the `core_debug` `println!` of each string (v1/src/data.rs:208-209) is I/O and is left out.
- The `From` conversions into `NbtItem`/`NbtList` and the `Rc<RefCell<..>>` sharing (src/data.rs:75-131, v1/src/data.rs:76-135) are constructors with no logic and are not modelled. `impl From<Cursor<&[u8]>> for NbtItem` is `todo!()` (src/read.rs:162-165).
- SrcRead.NbtListAt: a List of Lists or of Compounds reads nothing and returns an empty vector, as the source does (src/read.rs:121-128). Nested containers of the prototype are therefore not modelled further.
- CppViews.MemberReadsAsFile: the link from the finished C++ document back to the file covers Compound members of scalar, String and array type. Members of List or Compound type and the elements of a List are not traced back to the file.
- Floating point: floats and doubles are carried as bit patterns. Rust's `{}` of an `f32`/`f64` in the SNBT display is a parameter (`FloatText`) of Nbt6Traits.Show.
- I/O: files, compression and network streams are outside the core. Every reader takes the whole input as a byte sequence.

## Findings

| source | as written | input that shows it | evidently intended | confidence | as-written member | corrected member |
|---|---|---|---|---|---|---|
| shen-nbt5/src/writer.rs:93-96 | the Java writer leaves out the key of a member whose value is a Compound | root `{"": {}}` is written as `[10, 0, 0, 10, 0, 0]`, and the Java reader panics on it | every member is written with its key | not executed | Nbt5Findings.JavaNestedKeyLost | Nbt5Findings.IntendedRoundTrip |
| shen-nbt5/src/writer.rs:247-252 | both Bedrock writers give an empty List its End tag and no length | the empty List is written as `[9, 0]`; both Bedrock readers read a length after it and panic | an empty List carries its length 0 | not executed | Nbt5Findings.BedrockEmptyListLost | Nbt5Findings.IntendedRoundTrip |
| shen-nbt5/src/reader.rs:160-170 | the Bedrock disk writer puts Int array elements little-endian; the reader decodes them big-endian | a List holding the Int array `[1]` reads back as `[16777216]` | both sides use little-endian elements | not executed | Nbt5Findings.BedrockDiskArraySwapped | Nbt5Findings.IntendedRoundTrip |
| shen-nbt5/src/writer.rs:466-467 | the Bedrock network writer puts an Int as four little-endian bytes; the reader takes a zigzag varint | a List holding `Int(1)` reads back as `Int(-1)` with three bytes left over | an Int is a zigzag varint on both sides | not executed | Nbt5Findings.BedrockNetIntFixed | Nbt5Findings.IntendedRoundTrip |
| shen-nbt5/src/writer.rs:441-444 | the Bedrock network writer gives a string length as a zigzag varint; the reader takes a plain varint | a List holding the string "a" is written `[9, 8, 2, 2, 97]`; the reader asks for 2 bytes where 1 is left | a plain varint length on both sides | not executed | Nbt5Findings.BedrockNetStringLength | Nbt5Findings.IntendedRoundTrip |
| shen-nbt5/src/writer.rs:352-367 | `var_i32_to_bytes` shifts the signed value arithmetically, so a negative value never reaches zero | `var_i32_to_bytes(-1)` never returns | the bit pattern is shifted as unsigned | not executed | Nbt5Findings.NegativeVarHangs | Nbt5Findings.ExactVarRoundTrip |
| shen-nbt5/src/writer.rs:386-401 | the zigzag-mapped value is kept in an `i32`, so a value of 2^30 or more maps to a negative number and the varint loop never ends | `zigzag_var_i32_to_bytes(2^30)` never returns | the mapped value is taken as unsigned | not executed | Nbt5Findings.ZigZagVarHangs | Nbt5Findings.ExactZigZagRoundTrip |
| shen-nbt5/src/reader.rs:493-499 | the zigzag decoding shifts the signed `i32` arithmetically | the varint `[0x80, 0x80, 0x80, 0x80, 0x08]` (zigzag of 2^30) decodes to -2^30 | a logical shift, giving 2^30 | not executed | Nbt5Findings.ZigZagDecodeSign | Nbt5Findings.ExactZigZagRoundTrip |
| cpp/na_nbt_impl.hpp:1219-1221 | `tag_long_array` of the read swapper moves past the length twice | the bytes `[0, 0, 0, 1, 1, ..., 12]` (a Long array of one element, then four more bytes) read on a little-endian host: bytes 5 to 12 are swapped instead of the element's 1 to 8 | the cursor passes the length once, as the write swapper does | not executed | CppSwap.LongArrayMisread | CppSwap.LongArrayRead |
| cpp/na_nbt_impl.hpp:1219-1221 | the same extra step in the whole reader | after an empty Long array the cursor lands 4 bytes past the source and the next read is outside the buffer | the source is read whole | not executed | CppReadFindings.LongArraySkipsPastEnd | CppReadFindings.LongArrayReadWhole |
| cpp/na_nbt_impl.hpp:1496 | the mark array grows only when `use_end > mark_end`, so the mark at `use_end == mark_end` is written outside the allocation | five nested Compounds in a 4-mark array write the fifth mark out of bounds | grow when `use_end >= mark_end` | not executed | CppReadFindings.MarkArrayOverrun | CppReadFindings.MarkArrayGrows |
| cpp/na_nbt_impl.hpp:1603-1614 | a negative Byte array length is added to `readed_length` and to the cursor as it is | on a host whose byte order is the NBT order, a Byte array of length -7 sends the cursor back to its own member and the read never ends | a negative length is refused as invalid | not executed | CppReadFindings.NegativeLengthNeverEnds | CppReadFindings.NegativeLengthRefused |
| cpp/na_nbt_impl.hpp:764-772 | `while (index--)` with a negative index runs until the `int32_t` wraps | `nbt_list_find_value_*(list, -1)` walks past the end of the List | a negative index is answered like one past the end | not executed | CppIter.FindElementAsWritten | CppIter.FindElement |
| shen-nbt2/src/lib.rs:116-132 | `slice_as_int_array` reinterprets the bytes in the host's order, while `read_int` reads big-endian | on a little-endian host the Int array `[1]` reads as `[16777216]` | elements are read big-endian | not executed | Nbt2.HostOrderMisread | Nbt2.WordArrayReadsBack |
| shen-nbt2/src/lib.rs:272-281 | the strings of a List are read behind a 4-byte length | the List holding the one string "a" (`[8, 0, 0, 0, 1, 0, 1, 97]`) panics | a 2-byte length, as for any string | not executed | Nbt2.ListStringLengthMisread | Nbt2.ListStringsReadBack |
| src/read.rs:65-73 | `read_nbt_list` reads the count before the element type | the empty List of Ints `[3, 0, 0, 0, 0]` is read as count 0x03000000, then type End, and panics | the type first, then the count | not executed | SrcRead.CountBeforeTypeMisread | SrcRead.ListReadsBack |
| cpp/na_nbt_impl.hpp:216-225 | `nbt_document_root_key` starts its view at `source + 1`, on the root name's 2-byte length, not after it | on a big-endian host the root `{"ab": …}` (bytes `[10, 0, 2, 97, 98, …]`) gets the key `[0, 2]` instead of `ab` | the key starts at `source + 3`, as `nbt_compound_iter_key` and `nbt_document_root_value` count | not executed | CppIter.RootKeyReadsLength | CppViews.RootReadsAsFile |
