# A verified model of goserde's generated codecs

goserde compiles Go struct declarations into four methods, `Size`, `Marshal`, `Append` and
`Unmarshal`. This project models that compiler, the programs it emits, the primitives they
call and the wire format they share, and proves that the parts agree: the emitted decoder
computes the reference decoder, decoding undoes encoding, and safe mode withstands any input.

## How the model is laid out

- `Bytes`, `Words`, `Varint`: bytes and machine words, the fixed-width readers and writers,
  and unsigned LEB128 (section 7.6 of DWARF Version 5). Shifts and bitwise OR are written out.
- `Schema`: the type language (`Ty`), a generation run (`Gen`: the target structs, their
  by-value nesting rank, the mode) and Go values (`Val`). A slice carries the stale part of
  its backing array, a struct the raw memory it stands on, a map its entries in one
  iteration order. `Clean` is what the wire can see of a value; `Norm` also turns empty
  collections into nil.
- `Memory`: native memory with either byte order, and struct layouts as arbitrary disjoint
  field ranges.
- `Codec`: the reference encoder `Enc` (both modes) and the reference safe decoder `Dec`,
  with the offset at which each error is returned.
- `Reuse`: `DecInto`, decoding into a destination that already holds a value, in both modes,
  with the partial result an error leaves behind.
- `Program`, `Places`, `EmitCorrect`: the statements the generator emits, an interpreter over
  the registers `i`, `nn`, `cc`, the temporaries and the receiver, the emission as a function,
  and the proof that running the emission is `DecInto`.
- `Encoders`, `EncodeCorrect`: the same for the emitted Size, Marshal and Append: their
  statements, an interpreter over a total, a buffer or a growing slice, and the proof that
  they compute `Enc`.
- `Format`: the wire format against facts the codec's definitions do not enter: Go's ranges
  of the basic kinds, bytes written out, null bytes for zero values.
- `Declarations`: Go declarations as the generator inspects them, and the tests that decide
  which codec each target gets. `Targets`: the raw copy by what the fields' types are.
- `Generator`: the emission of all four methods as it happens, on an object with one name
  counter and two import flags. `Imports`: which packages the emitted code names, and which
  files get the imports they need; packages stand for import paths. `Temporaries`: no two
  temporaries of a file share a number. `References`: references as text, and `addrOf`.
- `Unmarshal`: what the emitted methods promise, end to end.
- `Maps`: the last of several pairs with one key wins. `Padding`: raw-copied structs are
  handed on byte by byte, what lies between their fields included.
- `Strict`: decoding that stops at the first error, over the mode's own wire format, raw
  copies and either byte order included, and how the code, which in fast mode drops nested
  errors, relates to it. `Tags`: where each mode reports unknown union tags.
- `Stability`, `RoundTrip`, `Guarantees`, `Narrow`, `Bounded`, `Destination`, `Agreement`,
  `Orders`, `Content`: properties of the reference codec and of reuse. `Ways`: ways through a
  schema, by which conditions on what occurs in a type are stated.
- `Marshal`: Size, Marshal and Append as imperative methods with the generator's branches.
  `Encoders` has the same cascades as code that is emitted and then run; these methods take
  them on the value at hand, and are where a buffer is updated in place.
- `Shapes`, `FastShapes`, `Record`: generated safe-mode and fast-mode methods and the
  hand-written ones, as classes that update heap objects and raw memory in place.

Facts about the code that the theorems make precise:

- Safe mode's length guard assumes that an element takes at least one byte. `SafeRoundTrip`
  gives the exact condition under which one encoding is accepted back, `EveryValueRoundTrips`
  the exact condition on a schema: every value of a target round-trips before every suffix
  if and only if no slice or map below it is starved, that is, has elements or entries that
  take no byte and too few bytes behind it (for a map, none: its keys are then all equal).
  `NarrowSliceRefused` and `NarrowMapRefused` are the smallest cases.
- The documentation of `ErrUnknownUnionTag` (codec/primitives.go:53-58) says that both modes
  report an unknown tag, and the comment emitted at cmd/goserdegen/emit.go:654 says that fast
  mode's error is always nil. The code does neither. Let strict decoding hand every nested
  error on, over the mode's own wire format. `FastReportsOwnTags`, for every fast run: where
  strict decoding does not stop at a tag read below the target's own method, fast Unmarshal
  returns an unknown tag at an offset if and only if strict decoding stops there at one; where
  it does, fast Unmarshal drops that tag and ends further on. `ReportedExactly`: fast
  Unmarshal returns every tag that strict decoding stops at, exactly for targets with no union
  below a nested struct or member. `FastDropsNestedTag` is a schema on which one is lost, and
  an input on which another tag is reported in its place.
- The two modes' methods can be compared on the same bytes only where the modes share a wire
  format: `OwnTagsLikeSafe` and `ModesReportAlike` assume that no struct in reach is copied
  whole. A copied struct takes the bytes between its fields too, so that past it the two
  modes read different tags.
- The flag for importing package time is set for time.Time only, while the emitted code also
  writes the names of other packages' types, in conversions (`time.Duration`) and in makes,
  news and variables (`http.Header`). `ImportsSuffice` is the exact condition under which a
  file gets the imports it needs; `DurationNotImported` and `HeaderNotImported` are schemas on
  which it does not.
- Empty collections decode to nil in generated code; the hand-written `Record.Blob` decodes to
  a non-nil empty slice.
- The decoder accepts overlong varints, any non-zero flag and repeated map keys, the last of
  which wins (`MethodLastWins`), so it is not injective on bytes; `MethodNormalises` says what
  it is instead.

## Model

| member | source | states |
|---|---|---|
| `Varint.UvarintExact` | codec/primitives.go:147-162 | the count is positive exactly when the first byte below 0x80 is at index at most 9, and at most 1 there at index 9; it is 0 exactly when there is none; a positive count comes with the sum of the 7-bit groups |
| `Varint.ReadUvarint` | codec/primitives.go:147-162 | the loop, with 64-bit shifts that lose bits past the top, computes that value and count on every buffer |
| `Varint.PutUvarint` | codec/primitives.go:132-141 | the loop writes the minimal LEB128 form at its place, changes nothing else, and returns its length |
| `Varint.AppendUvarint` | codec/primitives.go:194-201 | appends the same bytes |
| `Varint.UvarintInvertsLeb` | codec/primitives.go:132-162 | reading undoes writing for every 64-bit value and suffix |
| `Varint.UvarintExtends` | codec/primitives.go:147-162 | a decided read (success or overflow) does not depend on later bytes |
| `Varint.LebIsMinimal` | codec/primitives.go:132-162 | no byte string that decodes to v is shorter than what is written for v |
| `Varint.UvarintSizeIsLength` | codec/primitives.go:164-169 | the branch-free bit-length formula is the written length |
| `Varint.UvarintLen` | cmd/goserdegen/emit.go:978-987 | the generator's loop gives the same length, between 1 and 10 |
| `Words.PutU16` | codec/primitives.go:75-79 | writes the two little-endian bytes at its place and nothing else |
| `Words.PutU32` | codec/primitives.go:83-89 | writes the four little-endian bytes at its place and nothing else |
| `Words.PutU64` | codec/primitives.go:93-103 | writes the eight little-endian bytes at its place and nothing else |
| `Words.AppendsLE` | codec/primitives.go:174-190 | the three appenders add the same little-endian bytes |
| `Words.ReadsLE` | codec/primitives.go:107-125 | the OR of shifted bytes is the number the little-endian bytes stand for |
| `Schema.ScalarRoundTrip` | cmd/goserdegen/emit.go:684-706 | conversion to a word, little-endian bytes and back restores every value of every basic kind, signed ones included |
| `Schema.ScalarOfBytes` | cmd/goserdegen/emit.go:684-706 | and back: but for bools, the value read from bytes is written as those bytes |
| `Format.KindRange` | cmd/goserdegen/emit.go:158-172 | a kind's values are Go's, by literal bounds |
| `Format.KindOnWire` | cmd/goserdegen/emit.go:252-262 | but for bools, a kind has 256 to the power of its width on the wire many values, and its bytes are the value modulo that number, least significant first; a bool is one byte 0 or 1 |
| `Format.KindFromWire` | cmd/goserdegen/emit.go:684-706 | reading takes as many bytes, or is a short buffer at offset 0; a bool is true for any byte but 0, every other value is the one written in those bytes |
| `Format.CollectionsWritten` | cmd/goserdegen/emit.go:369-485 | a string, slice, array, map and pointer written out byte by byte, and their nils |
| `Format.MembersWritten` | cmd/goserdegen/emit.go:486-498 | a struct with a skipped field and a union's second member written out byte by byte |
| `Format.AnyFlag` | cmd/goserdegen/emit.go:802-813 | a pointer's flag may be any byte but 0, and the pointee and its errors follow one byte later |
| `Format.ZeroIsNull` | cmd/goserdegen/emit.go:808-809 | Go's zero value of every type, as made by new and make, is written as nothing but null bytes |
| `Memory.LoadRaw` | cmd/goserdegen/emit.go:1101-1124 | reading the raw memory of a fixed-width value gives it back, in either byte order |
| `Memory.MemmoveRestores` | cmd/goserdegen/emit.go:1126-1196 | for every layout with disjoint field ranges and all padding bytes, copying a blittable struct out and back restores every field |
| `Memory.PaddingCopied` | cmd/goserdegen/emit.go:1161-1181 | a byte between fields is copied out as it is, whatever the fields hold |
| `Memory.ImageOfLoaded` | cmd/goserdegen/emit.go:1161-1196 | for memory whose bools are 0 or 1, copying a struct in and out gives the same bytes, padding included, in either byte order |
| `Padding.DecodedIsEncoded` | cmd/goserdegen/emit.go:1161-1196 | so encoding what was decoded from a raw-copied struct gives the bytes read |
| `Padding.CopiedIsWritten` | cmd/goserdegen/emit.go:420-430 | and writing a backing array of them gives the bytes that filled it |
| `Padding.ReceivedIsSent` | cmd/goserdegen/emit.go:1173-1196 | the emitted Append of a raw-copied struct sends the bytes its emitted Unmarshal received |
| `Padding.PaddingWritten` | cmd/goserdegen/emit.go:1161-1168 | a struct of a uint8 and a uint32 written out, with the bytes between them |
| `Content.SkippedNeverWritten` | cmd/goserdegen/emit.go:131-155 | in both modes, raw copies included, values that differ only in skipped fields and stale capacity have the same encoding |
| `Declarations.FieldsOf` | cmd/goserdegen/emit.go:131-155 | the loop returns the fields at increasing places, exactly those exported and not excluded, and fails exactly when one of these has an unsupported type |
| `Declarations.SupportedExactly` | cmd/goserdegen/emit.go:158-207 | a type is supported exactly when no way into its elements, pointees, keys and values leads to something without a codec |
| `Declarations.LowerAt` | cmd/goserdegen/emit.go:673-683 | the schema's type has, at the end of every way, what the declared type has there, declared alike |
| `Declarations.SkippedInPlace` | cmd/goserdegen/emit.go:139-145 | a field that is unexported or excluded is skipped in place, whatever its type |
| `Declarations.Blittable` | cmd/goserdegen/emit.go:1136-1148 | the loop accepts exactly a non-empty field list as long as the struct's, all fixed-width |
| `Declarations.EmitTarget` | cmd/goserdegen/emit.go:62-92 | which codec a target gets: the user's own exactly when there is one, whatever the fields; none exactly when an exported, not excluded field is unsupported; otherwise the raw copy or field by field |
| `Declarations.BlitElem` | cmd/goserdegen/emit.go:1065-1089 | the separate test before a slice or array is copied whole succeeds exactly for named target structs whose emitted codec is the raw copy |
| `Declarations.BlitHasNoSkippedField` | cmd/goserdegen/emit.go:1131-1139 | a struct the raw copy is emitted for has no skipped field: the counts agree exactly when none is dropped |
| `Declarations.EmissionIsBlittable` | cmd/goserdegen/emit.go:76-86 | on the package's schema, the raw copy is emitted exactly where the codec model copies |
| `Targets.ConstantExactly` | cmd/goserdegen/emit.go:946-974 | the generator knows a type's size exactly for basics other than strings and arrays of them |
| `Targets.FixedExactly` | cmd/goserdegen/emit.go:1105-1124 | fixed-width is what has a generator-time size and no time.Time in it |
| `Targets.MemCopyableExactly` | cmd/goserdegen/emit.go:1031-1058 | memcopyable are the basics that are equally wide on every platform, and arrays of them |
| `Targets.CopiedExactly` | cmd/goserdegen/emit.go:1131-1148 | the emission is the raw copy in fast mode exactly for targets with a field, none skipped, all of a generator-time size and without a time.Time |
| `Stability.DecExtends` | cmd/goserdegen/emit.go:831-903 | a success, and an unknown tag at any depth, are the same whatever bytes follow |
| `Stability.DecTyped` | cmd/goserdegen/emit.go:667-867 | a decoded value has its type, distinct map keys included, and every empty collection in it is nil |
| `Reuse.ReuseIndependent` | cmd/goserdegen/emit.go:734-737 | whatever the destination held, decoding into it gives the content, offset and error of the reference decoder; in fast mode the same on little-endian memory with no reachable struct copied whole, whenever the reference decoder succeeds |
| `Reuse.FixedDec` | cmd/goserdegen/emit.go:739-750 | loading a memcopyable type from raw little-endian memory is decoding it |
| `Reuse.BackingKept` | cmd/goserdegen/emit.go:716-737 | a backing array that is large enough stays, with its tail |
| `RoundTrip.RawIsLoop` | cmd/goserdegen/emit.go:407-418 | on little-endian memory one copy of a memcopyable slice or array writes what the element loop writes |
| `RoundTrip.RoundTrips` | cmd/goserdegen/emit.go:369-499 | in both modes, into any destination and before any suffix, decoding an encoding consumes it exactly and gives the value back with empty collections nil; safe mode does so exactly when its length guards pass, and otherwise reports a short buffer |
| `Guarantees.SafeRoundTrip` | cmd/goserdegen/emit.go:667-867 | the same for the reference decoder, both directions |
| `Guarantees.WideRoundTrip` | cmd/goserdegen/emit.go:732-736 | where every slice element and map entry has wire width at least 1, every value round-trips |
| `Narrow.EveryValueRoundTrips` | cmd/goserdegen/emit.go:732-818 | the exact condition on a schema: the emitted methods give every value of a target back before every suffix if and only if no way from it leads to a starved slice or map; a starved one yields a value that is refused |
| `Narrow.MinIsLeast` | cmd/goserdegen/emit.go:242-350 | the least size a type's values take, which that condition counts behind a field |
| `Guarantees.NothingEncoded` | cmd/goserdegen/emit.go:734-734 | a type that need not take a byte on the wire takes none, for every value |
| `Guarantees.NarrowSliceRefused` | cmd/goserdegen/emit.go:734-734 | so a slice of one such element is encoded and then refused, whatever the value |
| `Guarantees.NarrowMapRefused` | cmd/goserdegen/emit.go:818-818 | and so is a map of one entry whose key and value take none |
| `Guarantees.TruncationDetected` | cmd/goserdegen/emit.go:869-903 | every strict prefix of every encoding is a short buffer, never a success and never an unknown tag |
| `Guarantees.ReencodeShrinks` | codec/primitives.go:147-162 | encoding what was decoded takes at most the bytes read, overlong counts and repeated keys included |
| `Guarantees.DecodeNormalises` | cmd/goserdegen/emit.go:683-830 | and, with element and entry widths at least 1, decoding that encoding gives the same value again |
| `Bounded.ReadsAreBounded` | cmd/goserdegen/emit.go:815-825 | where every slice element and map entry has wire width at least 1, the elements and entries read at all depths are at most the bytes consumed, or at most the bytes there were when decoding fails |
| `Bounded.HeldWasRead` | cmd/goserdegen/emit.go:815-825 | that count leaves nothing out: a decoded value holds no more elements and entries than were counted |
| `Maps.AssignedKey` | cmd/goserdegen/emit.go:829-829 | after an assignment its key has the value assigned and nothing else, and every other key has what it had |
| `Maps.LastWins` | cmd/goserdegen/emit.go:823-829 | a decoded map has at every key the value of the last pair read with that key, and no other keys |
| `Maps.MethodLastWins` | cmd/goserdegen/emit.go:823-829 | so has every map field after a successful emitted Unmarshal, in either mode and into any receiver |
| `Maps.RepeatedKey` | cmd/goserdegen/emit.go:829-829 | of two pairs with key 1 the second one stays |
| `Destination.DestinationKept` | cmd/goserdegen/emit.go:806-830 | after any decode, failed ones included, skipped fields in everything reused are as they were, and in safe mode the destination is still a value of its type |
| `Destination.SkippedInside` | cmd/goserdegen/emit.go:131-155 | at every place in a decoded value, through elements, pointees, fields and members, a skipped field shared with the destination is as it was |
| `Agreement.WireAgrees` | cmd/goserdegen/emit.go:399-472 | on little-endian memory, if no reachable struct is copied whole, both modes write the same bytes |
| `Agreement.DecodesAgree` | cmd/goserdegen/emit.go:716-801 | and both modes read those bytes to the same content and offset, into any destinations, wherever safe mode's length guards accept them |
| `Agreement.BigEndianDiffers` | cmd/goserdegen/emit.go:407-418 | on a big-endian machine they write different bytes |
| `Marshal.SizeConstIsExact` | cmd/goserdegen/emit.go:946-974 | every value of a type with a generator-time size takes exactly that many bytes, in both modes |
| `Marshal.StructImagesAreLoop` | cmd/goserdegen/emit.go:420-430 | one copy of a backing array of raw-copied structs writes what the Marshal loop would |
| `Marshal.BytesAreElems` | cmd/goserdegen/emit.go:402-405 | copying a byte slice or array writes its elements, in every mode and byte order |
| `Marshal.SizeExpr` | cmd/goserdegen/emit.go:242-350 | the accumulated size is the encoded length whatever branch each cascade picks |
| `Marshal.SizeElems` | cmd/goserdegen/emit.go:265-312 | constant, raw and looping element sizes all equal the encoded length |
| `Marshal.Size` | cmd/goserdegen/emit.go:228-239 | a target's Size is the length of what its Marshal writes |
| `Marshal.MarshalExpr` | cmd/goserdegen/emit.go:369-499 | on any buffer with room, exactly the encoding is written at the offset, every other byte is unchanged, and the offset advances by its length |
| `Marshal.MarshalElems` | cmd/goserdegen/emit.go:399-472 | the same for the elements of a slice or array, whichever copy or loop is emitted |
| `Marshal.Marshal` | cmd/goserdegen/emit.go:353-366 | a target's Marshal changes exactly the first Size bytes and returns that count |
| `Marshal.AppendExpr` | cmd/goserdegen/emit.go:522-641 | extends the buffer by exactly the encoding |
| `Marshal.Append` | cmd/goserdegen/emit.go:504-517 | a target's Append returns the buffer followed by the bytes Marshal writes |
| `Encoders.LoopsInPlace` | cmd/goserdegen/emit.go:1005-1018 | the loop over a slice visits structs, time.Time and arrays by index and copies none of them |
| `EncodeCorrect.EncodeIsCorrect` | cmd/goserdegen/emit.go:242-641 | for every schema, mode, reference and value, running the code emitted for a type adds the encoded length to the total, writes exactly the encoding at the offset, or appends it |
| `EncodeCorrect.ElemsCode` | cmd/goserdegen/emit.go:265-312 | each branch for a slice's elements puts out their encoding: by constant size or raw memory, over an index or a range variable |
| `EncodeCorrect.ArrayCode` | cmd/goserdegen/emit.go:446-472 | each branch for an array puts out its encoding |
| `EncodeCorrect.UnionCode` | cmd/goserdegen/emit.go:487-498 | the type switch puts out the member's tag and then its method's output, or the nil tag |
| `EncodeCorrect.EncodersAreCorrect` | cmd/goserdegen/emit.go:228-641 | the emitted Size returns the encoded length, the emitted Marshal changes exactly that many bytes, and the emitted Append returns the buffer followed by the same bytes |
| `EncodeCorrect.ProgramsRoundTrip` | cmd/goserdegen/emit.go:504-664 | what the emitted Append wrote, before any suffix, the emitted Unmarshal reads back into any destination |
| `Orders.LengthAnyOrder` | cmd/goserdegen/emit.go:317-325 | Size is exact even when the Size and Marshal walks see map entries in different orders, at every depth |
| `Orders.AnyWalk` | cmd/goserdegen/emit.go:478-484 | any two walks over the same entries are related in the sense of the previous row |
| `Places.PutPut` | cmd/goserdegen/emit.go:806-806 | a second write through a reference replaces the first, through any nesting of fields, elements and pointees |
| `Places.AgreePut` | cmd/goserdegen/emit.go:995-1003 | a reference built before a temporary was named means the same whatever that temporary holds |
| `EmitCorrect.EmitIsCorrect` | cmd/goserdegen/emit.go:667-867 | for every schema, mode, reference, destination and input, running the code emitted for a type has the result, offset and error of decoding into that place, although nested code overwrites nn and cc and only distinct names keep temporaries apart |
| `EmitCorrect.LoopCode` | cmd/goserdegen/emit.go:765-769 | the emitted element loop decodes the elements in order into the places they occupy |
| `EmitCorrect.BlockCode` | cmd/goserdegen/emit.go:739-763 | the emitted raw copy of elements does what the element loop would |
| `EmitCorrect.FillCode` | cmd/goserdegen/emit.go:808-830 | the emitted map code decodes as many entries as were announced, the count kept in a temporary |
| `EmitCorrect.SwitchCode` | cmd/goserdegen/emit.go:839-866 | the emitted switch reuses the member of the tagged type, makes one otherwise, and rejects other tags |
| `EmitCorrect.InvokeCode` | cmd/goserdegen/emit.go:831-838 | a delegated Unmarshal hands its error on in safe mode and drops it in fast mode, and its bytes are counted |
| `EmitCorrect.MethodCode` | cmd/goserdegen/emit.go:645-664 | a whole emitted method decodes the receiver's fields in order, within a call depth linear in the input |
| `Unmarshal.SafeUnmarshal` | cmd/goserdegen/emit.go:645-867 | a safe Unmarshal on any bytes and any destination ends with the reference decoder's offset, error and serialized content |
| `Unmarshal.SafeTotal` | cmd/goserdegen/emit.go:802-903 | it terminates, reads no byte outside the buffer, makes no slice or map longer than the bytes left, returns an offset within the buffer, and fails only with the two errors, for recursive schemas too |
| `Unmarshal.ReceiverKept` | cmd/goserdegen/emit.go:131-155 | however it ends, the receiver is still a value of its type with its skipped fields untouched |
| `Unmarshal.SkippedUntouched` | cmd/goserdegen/emit.go:139-145 | in either mode, however it ends, a skipped field of the receiver is the same afterwards |
| `Unmarshal.MethodRoundTrip` | cmd/goserdegen/emit.go:353-664 | the emitted Unmarshal reads back what Marshal wrote before any suffix, in both modes; in safe mode exactly when the guards pass |
| `Unmarshal.MethodTruncated` | cmd/goserdegen/emit.go:869-903 | on a strict prefix it returns the short-buffer error |
| `Unmarshal.MethodExtends` | cmd/goserdegen/emit.go:831-903 | its successes and unknown tags do not depend on later bytes |
| `Unmarshal.MethodNormalises` | cmd/goserdegen/emit.go:683-830 | with element and entry widths at least 1, a receiver it filled encodes to at most the bytes read, and that encoding decodes to the same content into any destination |
| `Unmarshal.EncOfView` | cmd/goserdegen/emit.go:131-155 | safe Marshal sees only the serialized content: no skipped field, no stale capacity |
| `Unmarshal.ReceiversAgree` | cmd/goserdegen/emit.go:737-855 | in either mode and byte order, on any bytes, two receivers make no difference to whether and how the method ends, its offset and its error; nor to the content, wherever strict decoding meets no error |
| `Strict.ScanFollows` | cmd/goserdegen/emit.go:831-866 | for every type, mode, byte order, destination and input, decoding ends as strict decoding does, but that fast mode goes on past an unknown tag of a nested method, and can only end further on |
| `Strict.StrictIsSafe` | cmd/goserdegen/emit.go:869-903 | in safe mode strict decoding has the reference decoder's offset and error on every input |
| `Strict.DestinationsAgree` | cmd/goserdegen/emit.go:737-855 | for every type and mode, two destinations give the same offset and error, and the same content where strict decoding meets no error |
| `Tags.MethodStops` | cmd/goserdegen/emit.go:645-664 | the same of every emitted method, raw-copied receivers included |
| `Tags.FastReportsOwnTags` | cmd/goserdegen/emit.go:831-866 | for every fast run, either byte order and raw copies included: where strict decoding drops no tag, the method returns an unknown tag at an offset if and only if strict decoding stops there with a tag the method reads itself; where it does, the method ends past that tag |
| `Tags.StopsExactly` | cmd/goserdegen/emit.go:836-860 | in either mode, some input stops strict decoding at a tag that is not the target's own if and only if a way from its fields reaches a union through a nested struct or member, and at one that is if and only if a way reaches one through none; the inputs are built from the ways |
| `Tags.ReportedExactly` | codec/primitives.go:53-58 | for every fast run, the method returns every unknown tag at which strict decoding stops exactly for the targets without a way through a nested struct or member |
| `Tags.OwnTagsLikeSafe` | codec/primitives.go:53-58 | where no struct in reach is copied whole, in either byte order: on the same bytes, an unknown tag reported by the safe method is reported by the fast one, at the same offset, if and only if no method below the target's own read it |
| `Tags.ModesReportAlike` | codec/primitives.go:53-58 | under the same hypothesis, the fast method reports whatever unknown tag the safe one does on every input exactly for the targets without a way through a nested struct or member |
| `Tags.FastDropsNestedTag` | cmd/goserdegen/emit.go:836-836 | an input on which safe mode reports the unknown tag and fast mode returns success, with the old member in place whatever it was, and one on which fast mode reports a later tag instead |
| `Generator.Generator.FreshIdx` | cmd/goserdegen/emit.go:995-1003 | each call names a temporary no earlier call named |
| `Generator.Generator.UnmarshalExpr` | cmd/goserdegen/emit.go:667-867 | writing code while bumping the counter yields the emission the correctness proof is about; the time flag is set exactly for types with a time.Time in them, the unsafe flag exactly for types decoded by raw copies |
| `Generator.Generator.EncodeExpr` | cmd/goserdegen/emit.go:242-641 | the same for the sizing and the writing cascade, whose flags differ from each other: sizes known to the generator visit no element |
| `Generator.Generator.EmitUnmarshal` | cmd/goserdegen/emit.go:645-664 | the loop over the fields writes the target's method |
| `Generator.Generator.EmitEncoder` | cmd/goserdegen/emit.go:228-239 | the same for Size, Marshal and Append |
| `Generator.Generator.Generate` | cmd/goserdegen/emit.go:58-128 | every target gets its four methods, the temporaries of the file have all the numbers drawn, each once, the flags are set exactly by some target's types, the file imports every package its methods name exactly when the import condition holds, and neither time nor unsafe is imported unused |
| `Temporaries.EmitFresh` | cmd/goserdegen/emit.go:995-1003 | a type's decoding declares every number drawn between the counter before and after, each once |
| `Temporaries.EncodeFresh` | cmd/goserdegen/emit.go:995-1003 | and so are those of its sizing and of its encoding |
| `Imports.EmitUses` | cmd/goserdegen/emit.go:680-830 | the decoding of a type names a package, and copies raw memory, exactly when the type says so: a conversion, a make, a new or a variable writes the type as declared, whose name hides what is inside it; a raw copy into an array writes none |
| `Imports.TextNamesExactly` | cmd/goserdegen/emit.go:907-915 | a type's text names a package exactly when a way through types written in full leads to one declared there, or to time.Time for package time |
| `Imports.KindNamed` | cmd/goserdegen/emit.go:684-706 | for every basic type declared in another package, the read names that package exactly for integers |
| `Imports.ShapeNamed` | cmd/goserdegen/emit.go:737-826 | so do slices, arrays behind pointers, map values and map keys |
| `Imports.ShapeNotNamed` | cmd/goserdegen/emit.go:704-735 | strings, byte slices, byte arrays and pointer types do not |
| `Imports.EncodeMethodUses` | cmd/goserdegen/emit.go:270-312 | a Size, Marshal or Append copies raw memory exactly when its cascade says so, which for Size includes arrays of length 0 |
| `Imports.ImportsSuffice` | cmd/goserdegen/emit.go:94-107 | for every set of targets, with the flags as they are set, every package the file's methods name is imported exactly when no decoding writes a type of another package, but for codec's, and for time's in a file with a time.Time |
| `Imports.DurationNotImported` | cmd/goserdegen/emit.go:700-701 | a time.Duration field makes the emitted method name package time, and no flag is set |
| `Imports.HeaderNotImported` | cmd/goserdegen/emit.go:822-822 | an http.Header field makes the emitted method name package http, which is never imported |
| `References.AddrOfIsAddress` | cmd/goserdegen/emit.go:1019-1029 | for every reference the emitter builds, the prefix and suffix test fires exactly when the outermost step is a dereference, and the text returned is its address |
| `References.TextIdentifies` | cmd/goserdegen/emit.go:995-1003 | two references with the same text are the same reference, so names from one counter never collide with each other or with a field |
| `Shapes.Ping.Unmarshal` | test/data/safeshapes/goserde_gen.go:701-714 | the guarded read updates the receiver as the reference decoder says |
| `Shapes.Pong.Unmarshal` | test/data/safeshapes/goserde_gen.go:743-756 | the same for the other member |
| `Shapes.Frame.Unmarshal` | test/data/safeshapes/goserde_gen.go:569-615 | the heap decoder of a union field equals the reference decoder, decodes in place into the member held when its type matches, makes a new one otherwise, and leaves the interface alone on an error |
| `Shapes.Frame.SwitchSig` | test/data/safeshapes/goserde_gen.go:586-612 | the same for the switch on the tag |
| `Shapes.Numbers.Unmarshal` | test/data/safeshapes/goserde_gen.go:260-283 | the heap decoder of an []int32 field equals the reference decoder, refills the backing array in place when its capacity allows, and keeps the stale part |
| `Shapes.Numbers.Fill` | test/data/safeshapes/goserde_gen.go:276-282 | the element loop stores what the reference decoder reads, elements before a failure included |
| `FastShapes.Inner.Unmarshal` | test/data/shapes/goserde_gen.go:459-463 | copying the input over the receiver's memory is what decoding a raw-copied struct means |
| `FastShapes.Path.Unmarshal` | test/data/shapes/goserde_gen.go:768-781 | the heap decoder of a slice of raw-copied structs equals the reference decoder, for every layout, refilling the backing memory in place when its capacity allows |
| `FastShapes.Path.Refill` | test/data/shapes/goserde_gen.go:773-780 | reslicing or making, then one copy, leaves the new elements, and the stale ones past them as they were |
| `FastShapes.SplitStructs` | cmd/goserdegen/emit.go:1060-1064 | memory holding structs side by side can be cut at any element: the stride is the struct's size |
| `Record.Record.Size` | codec/record.go:43-49 | the length of the encoding |
| `Record.Record.MarshalTo` | codec/record.go:53-80 | writes exactly the encoding at the front of the buffer and nothing past it |
| `Record.Record.Append` | codec/record.go:84-105 | the buffer followed by the same bytes |
| `Record.Record.UnmarshalFrom` | codec/record.go:111-146 | on input a fast generated codec would accept, the same fields and offset, with Tags' backing array reused, but for an empty Blob, which is non-nil |
| `Record.WireIsGenerated` | codec/record.go:27-31 | the hand-written bytes are those of a generated fast-mode codec for the same fields, in either byte order |
| `Record.RecordRoundTrip` | codec/record.go:53-146 | what MarshalTo wrote, before any suffix, UnmarshalFrom accepts, and it leaves exactly the fields written in any record, with empty Tags nil and Blob never nil |

## Left out

- Integers are 64-bit `int` and `uint` platforms only, and the emitted program's own offset arithmetic is unbounded: offsets stay within the buffer, whose length is a Go int.
- Size: the sum is not reduced to Go's int, so an encoding longer than the largest int is not distinguished.
- EmitIsCorrect: in fast mode, input past what fast mode checks is one outcome (`Crash`, `Unchecked`), whether Go would panic there, read short or return an offset past the buffer; it is documented as unsupported.
- ReuseIndependent: destinations are trees, so pointees, backing arrays, maps and union members that alias each other or the input are not modelled; `Shapes` and `FastShapes` show in-place reuse on the heap for a union member and for slices.
- EncodeIsCorrect: a buffer without room for the encoding is a panic; Go's `copy` would instead write what fits.
- Append: Go's growth of the buffer and of backing arrays (spare capacity, allocation) is not modelled; `append(r[:0], s...)` keeps the old backing array exactly when it is large enough.
- Numbers: one of the fifteen fields of the generated `All`; the other fields follow the emission that EmitIsCorrect covers.
- Map keys are bools, integers, strings and arrays of these. Float, time, pointer and struct keys are not modelled, because equal keys can then differ on the wire or distinct ones collapse.
- Declared floats and strings (`type F float32`) are covered although the field-by-field code emitted for them does not compile.
- Floats are bit patterns and `time.Time` is its int64 of Unix nanoseconds; time zones and float arithmetic do not occur.
- Fast-mode strings are values; the `unsafe` string conversions and the lifetime of the input buffer are not modelled.
- User-owned codecs (but for the tests of `Declarations`), typed-nil or unregistered union members (which panic) and values with cyclic pointers are not modelled.
- A run is a type-checked one: package loading, flags, formatting and file output are not part of this model.
- Each method's first temporary is a parameter of the proofs about emitted code; Generate is where the counter's values come from.
- The zigzag transform and the `Bytes`, `Into` and `From` wrappers would only add easy members.
