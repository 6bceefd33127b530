# A verified model of syzkaller's program representation and executor protocol

The project models the hard core of syzkaller in Dafny: the program representation of `prog/`
(argument trees with def/use links, the text form, the exec format, squashing, minimization,
allocation, enabled-call analysis, weighted choice) and the part of `executor/` that runs the
exec format (memory writes, checksums, the thread protocol, publication of results).

Conventions shared by the modules:

- **Programs as values** (`Ir`). A result argument is identified by where it stands: call number
  and ordinal among the result arguments of the call (0 is the return value). A reference is the
  location of its referent, so "isomorphic including links" is plain equality, and `uses` is the set
  of locations somebody refers to. `ArgGraph`, `ArgClone` and `ArgSplice` model the same links as a
  mutable heap graph, because the operations they model edit it in place.
- **Types.** A pointer type names its pointee by index in the target. Required pointers lead to
  earlier entries, since only optional pointers may close a recursive description
  (`pkg/compiler/check.go:695-712`).
- **Imperative code is imperative.** Each such method is proved against a function on values, and
  the laws are proved about that function: `ExecBuffer` and `ExecDecoder` against `ExecFormat`,
  `TextSerializer` against `TextPrint`, `TextParser` against `TextParse`, `SquashBuilder` against
  `Squash`, `MinimizeRun` against `Sizes` and `ArgEdit`, `Validator` against `Defaults`.
  `TextParser` keeps the source's sticky error: it goes on after an error and throws the result
  away.
- **Nondeterminism.** Random draws, map iteration order, interleavings and timeouts are arbitrary
  choices or inputs. The predicate given to the minimizer is a function. The host is little-endian.
- **Meaning.** Functions that both sides of a law share are tied to what they compute by laws of
  their own: `Values` says what arguments stand for in memory and in calls, `Traversal` where they
  lie, `DefaultValues` what defaults hold, `Removal` what removed results leave, `PseudoHeaders`
  what checksums sum, `ThreadRecords` where records come from, `TextInput` what text means that no
  serializer writes.

Results that differ from what one might expect of the code:

- *Text.* The round trip is an equivalence: the text of a valid program parses back to it if and
  only if the program is `Canonical` and no line is a megabyte long. `validate` accepts programs
  whose text loses something: an ordinary pointer to nothing (`TextProgram.ValidIsNotEnough`), a
  result that refers to itself, a result with both a value and a reference, unaligned memory
  ranges, ranges whose 64-bit end wraps around (`TextRoundTrip.WrappingRange`), strings outside
  their list, data cut to the size of memory, non-zero padding. `Canonical` lists them and asks
  nothing of what is left out of the text as default.
- *Clone and Minimize.* `validate` accepts a result argument that refers to itself; `Clone` of a
  valid program dereferences a missing referent exactly when there is one (`ArgClone.Clone`,
  `ArgClone.SelfReferenceIsValid`). `Minimize` clones before anything else, and what it tries keeps
  cloning possible, so it fails for exactly those programs (`MinimizeRun.MinimizeProgram`,
  `Cloning.ValidClonable`). Every program it gives to the predicate is valid.
- *Exec.* A reference to a result of the same call is valid, but that result has no index yet. If
  it is an argument of the call itself, the compiler panics ("no copyout index"); if it lies in
  memory, writeCopyin has entered its address with index 0, and the reference silently names
  whichever result has index 0. Both are exact: `CopyoutLaws.PanicsIff` and
  `CopyoutLaws.CompileIsStatic`, with a valid program for each (`CopyoutLaws.SameCallPanics`,
  `CopyoutLaws.SameCallMisses`). The decoder takes what the compiler emits if and only if the last
  index handed out is referred to by an argument that is emitted (`ExecProgram.ProgramRoundTrip`);
  a result used by output arguments alone is not (`ExecProgram.OutputOnlyIsRefused`).
- *Squash.* For every tree without checksums and text integers, the copyins before and after
  squashing leave the same memory if and only if every bit ends up the same: what the tree stores
  there last, and what the squashed tree means there (`SquashMemory.SquashKeepsMemoryIff`). Three
  differences have a valid program in `SquashFails`. Padding, output data and the tails of unions
  have no copyin, but a squashed tree fills them with zeros, over another object if objects overlap.
  The replacing types have another default and native byte order, so a result that was not
  produced, or is big-endian, changes. A bitfield whose unit starts before its storage is shifted
  out of it. Without bitfields the condition is one on the last byte laid out at each address
  (`SquashExact.SquashKeepsOverlappingIff`); for disjoint objects in zeroed memory, with bitfields
  in units that start with their storage, it is one on each leaf
  (`SquashExact.SquashKeepsDisjointIff`): constants, pointers and data meet it, a result meets it
  if it was produced or its default is all ones (`SquashExact.ResultKept`), and output scalars
  and values that depend on the process meet it when their bytes are the same anyway.
- *Publication.* The reader takes the address of the first word of a signal or coverage array even
  when the array is empty. It panics if and only if it is asked for records that reach the end of
  memory and the last of them has neither coverage nor comparisons (`Publication.Output.ReaderSees`,
  `Publication.FullMemoryPanics`); otherwise it gets exactly what was published.
- *Checksums.* The accumulator bound of 65536 words per update is tight
  (`Checksum.UpdateBoundIsTight`); the length in the IPv4 pseudo-header is the packet size exactly
  below 64K. After the copyins of a call all its regions sum to all ones at once
  (`CallChecksums.RunCall`) if each field lies in the object it covers, at an even offset, away from
  the addresses of the header, if other fields of its region lie at higher addresses, and if nothing
  else is copied over it.
- *Page allocator.* No random choice panics if and only if the request is non-empty and leaves
  three pages (`Alloc.NeverPanicsIff`).
- *Rotator.* With no resource at all the first round takes the head of an empty queue
  (`Rotator.State.Select`). The last resort of the constructor selection repeats the precise
  constructors where the comments speak of imprecise ones (`prog/rotation.go:178,212`); the model
  follows the code.
- *Choice table.* Drawing panics if and only if every enabled call of the row has weight zero
  (`ChoiceTable.Choose`).

## Model

| member | source | states |
|---|---|---|
| `Defaults.DefaultIsDefaultArg` | prog/types.go:434-587 | a valid argument that isDefault accepts equals the DefaultArg of its type, for every type and depth |
| `Defaults.DefaultArgIsDefault` | prog/types.go:186-194 | the DefaultArg of any type is accepted by isDefault wherever nothing uses its results |
| `Defaults.DefaultUnused` | prog/types.go:190-194 | no result inside a default argument is used, so leaving it out of the text loses no variable |
| `DefaultValues.DefaultHolds` | prog/types.go:267-587 | at every depth of a default each part is what its type prescribes: the declared value of a constant, all ones for a value that depends on the process, the value of an unset resource, zeros, no object but a required one, no elements but a fixed number |
| `DefaultValues.Determined` | prog/types.go:267-587 | nothing else is so at every depth |
| `DefaultValues.DefaultIff` | prog/types.go:271-587 | isDefault accepts a valid argument whose results nobody uses if and only if it is so at every depth |
| `DefaultValues.ArgumentsLeftOut` | prog/encoding.go:230-313 | a call whose text gives no arguments is parsed to that call with what the types of its parameters prescribe |
| `DefaultValues.FieldsLeftOut` | prog/encoding.go:563-600 | so are the fields that the text of a struct or a call stops before |
| `DefaultValues.ElementsLeftOut` | prog/encoding.go:602-630 | and the elements of an array of fixed length |
| `DefaultValues.PartLeftOut` | prog/encoding.go:446-507 | and a pointee or an option without text |
| `Validator.Validate` | prog/validation.go:29-56 | validate, with its context of the results seen so far, accepts exactly the valid programs |
| `Validator.ValidCtx.ValidateArg` | prog/validation.go:98-267 | one argument is accepted exactly if it is valid and its references go to results seen before it or to itself |
| `TextLex.DataRoundTrip` | prog/encoding.go:779-927 | any bytes come back from their literal, escaped or hexadecimal, whatever follows it |
| `TextLex.UnescapeOf` | prog/encoding.go:796-843 | the escape decoder undoes the escape encoder for all data, up to the closing quote |
| `TextLex.HexDataRoundTrip` | prog/encoding.go:779-783 | hexadecimal data decodes to the bytes it was made from |
| `TextLex.DigitsRoundTrip` | prog/encoding.go:93-95 | printed digits in any base from 2 to 16 denote the number |
| `TextLex.ParseDec` | prog/encoding.go:190-196 | decimal numbers are read as decimal although the reader takes a leading zero for octal |
| `TextLex.NameInjective` | prog/encoding.go:61-66 | different variable numbers have different names |
| `TextPrint.StripZeros` | prog/encoding.go:121-128 | padding the stripped data with zeros to its old length gives the data back |
| `TextPrint.StripsAll` | prog/encoding.go:125-128 | exactly the trailing zeros but one are dropped |
| `TextPrint.ShownData` | prog/encoding.go:121-131 | padding what is printed with zeros to the old length gives the data back |
| `TextPrint.CutWhen` | prog/encoding.go:121-131 | fixed-size data is cut when it ends with two zeros, other data when more than eight bytes are saved, and then by all zeros but one |
| `TextRoundTrip.ArgBack` | prog/encoding.go:85-197 | parsing a printed argument, in a state where serializer and parser agree on variables, returns that argument, the same rest and agreeing states if the argument is canonical, and fails or returns another one if it is not |
| `TextRoundTrip.ResultBack` | prog/encoding.go:178-197 | the same for results: names, references with operations, values, and the self-reference that is lost |
| `TextRoundTrip.InDataBack` | prog/encoding.go:509-561 | the same for input data: zero stripping, sizes, clamping to memory, listed strings |
| `TextRoundTrip.VmaBack` | prog/encoding.go:723-777 | the same for memory ranges: exactly those that are page-aligned and do not wrap around survive the clamping of parseAddr |
| `TextRoundTrip.WrappingRange` | prog/validation.go:255-262 | a page-aligned range that validate accepts and that does not survive: its 64-bit end wraps around |
| `TextRoundTrip.MembersBack` | prog/encoding.go:137-167 | the same for members of structs, arrays and calls, with padding left out and trailing defaults trimmed |
| `TextRoundTrip.GroupBack` | prog/encoding.go:563-630 | the same for structs and arrays |
| `TextRoundTrip.UnionBack` | prog/encoding.go:632-663 | the same for unions, with or without an elided option |
| `TextRoundTrip.PointerBack` | prog/encoding.go:446-507 | the same for pointers, with or without an elided pointee |
| `TextProgram.CallBack` | prog/encoding.go:68-83 | a printed call line parses to the call, with all variables known for the next call, exactly when it is canonical |
| `TextProgram.CallsFine` | prog/encoding.go:178-191 | the "no result" panic of the serializer is unreachable on valid programs |
| `TextProgram.ArgPlain` | prog/encoding.go:85-197 | printed arguments hold only printable characters, so a call is one line |
| `TextProgram.RoundTrip` | prog/encoding.go:35-228 | for every valid program Serialize does not panic, and Deserialize(Serialize(p)) is p if and only if p is canonical and its lines fit; verbose or not |
| `TextProgram.SerializeInjective` | prog/encoding.go:27-47 | canonical programs with the same text are equal |
| `TextProgram.ValidIsNotEnough` | prog/validation.go:230-263 | a concrete valid program that does not survive the round trip |
| `TextSerializer.Serialize` | prog/encoding.go:35-47 | the buffer-appending serializer computes the printed text, or panics exactly when the function says so |
| `TextSerializer.Serializer.LastShown` | prog/encoding.go:149-156 | the backward scan finds the last member that is not default |
| `TextSerializer.Serializer.Items` | prog/encoding.go:157-166 | the member loop appends the separated members and moves the variables on |
| `TextSerializer.Serializer.Arg_` | prog/encoding.go:85-91 | the buffer grows by exactly the text of the argument |
| `TextParser.Deserialize` | prog/encoding.go:206-313 | the parser that records its first error and goes on ends, never panics, accepts the same texts and returns the same programs as the parsing function |
| `TextParser.Parser.Members` | prog/encoding.go:563-630 | the loops over fields, elements and call arguments, with defaults added after them; after an error only padding is still made |
| `TextParser.Parser.Argument` | prog/encoding.go:315-340 | cursor, variables and result as the parsing function says, an error exactly when it fails; without an error return the cursor has moved |
| `TextParser.Parser.Readable` | prog/encoding.go:885-925 | the loop of consume and escapes reads exactly one literal, or leaves an error |
| `TextParser.Parser.Address` | prog/encoding.go:723-777 | address, old offset notation, range clamping |
| `TextParser.Parser.Identifier` | prog/encoding.go:1095-1112 | the longest run of identifier characters, and the cursor moves even when an error is recorded already |
| `TextInput.OffsetRead` | prog/encoding.go:734-752 | the old offset notation adds or subtracts in 64 bits |
| `TextInput.RangeForced` | prog/encoding.go:753-775 | whatever its address and size, a range is forced to whole pages inside memory: as many as cover the size, at least one and no more than there are, where it was unless that is past the end |
| `TextInput.SpecialRead` | prog/encoding.go:394-399 | a number in place of a pointer selects a special pointer of the target |
| `TextInput.DataMade` | prog/encoding.go:521-558 | data is cut or padded with zeros to its size, and a string outside its list becomes the first of the list |
| `TextInput.SizeRead` | prog/encoding.go:521-533 | the size after a literal is cut to the size of memory |
| `TextInput.FormChosen` | prog/encoding.go:779-787 | data is printed with escapes exactly if its type holds strings or file names or all of it is readable, else in hexadecimal |
| `TextInput.ScalarRead` | prog/encoding.go:378-393 | a number is kept, but that of an output scalar, which becomes what its type prescribes |
| `TextInput.VariableRead` | prog/encoding.go:414-444 | a variable stands for its result, and an undefined one for the default of the type |
| `TextInput.NilRead` | prog/encoding.go:342-376 | so does nil |
| `TextInput.LinesSkipped` | prog/encoding.go:230-250 | empty lines and comments are passed over, and so is a carriage return |
| `ExecRoundTrip.RoundTrip` | prog/decodeexec.go:71-247 | decoding any buffer that starts with the words of a call list, garbage in the padding included, returns the same calls with copyins and copyouts on the right call if the largest referenced index is the last one assigned, and fails with the variable mismatch otherwise |
| `ExecRoundTrip.EncodingInjective` | prog/encodingexec.go:219-292 | two call lists that encode into the same buffer are equal |
| `ExecRoundTrip.ReadArgEnc` | prog/decodeexec.go:137-197 | readArg undoes writeArg for all argument kinds with fields in range |
| `ExecFormat.OrIsSum` | prog/encodingexec.go:287-292 | packing with or is the sum of the parts and the masks recover them |
| `ExecBuffer.SerializeForExec` | prog/encodingexec.go:59-76 | for the calls that the compiler emits: succeeds exactly when the full encoding fits; then the length is the encoding length, the buffer starts with it, and no byte past it is touched |
| `ExecBuffer.ExecContext.WriteBlob` | prog/encodingexec.go:259-279 | a blob is written with its padding or the end-of-buffer flag is raised; later writes may go on |
| `ExecBuffer.SerializeThenDecode` | prog/decodeexec.go:71-96 | what SerializeForExec writes is decoded to the same calls |
| `ExecDecoder.DeserializeExec` | prog/decodeexec.go:71-96 | the decoder with its cursor and sticky error computes the decoding function, a chunk count too large for a slice included |
| `ExecDecoder.Decoder.Parse` | prog/decodeexec.go:98-135 | the instruction loop consumes the data as the decoding function does |
| `ExecDecoder.Decoder.ReadArg` | prog/decodeexec.go:137-197 | one argument, with references noted; a checksum with more chunks than a slice can hold is a case of its own |
| `ExecDecoder.Decoder.Commit` | prog/decodeexec.go:233-247 | the pending call moves to the list and raises the variable count |
| `CopyoutIndices.CompileIsPass` | prog/encodingexec.go:78-103 | what the one-pass compiler emits for any program with backward references, or that it panics: an earlier referent has its rank for an index, one of the same call 0 if it is in memory and none otherwise |
| `CopyoutLaws.PanicsIff` | prog/encodingexec.go:241-248 | with nothing else wrong, "no copyout index" is reached if and only if some emitted reference is to a result of its own call that is not behind a pointer |
| `CopyoutLaws.CompileIsStatic` | prog/encodingexec.go:78-103 | the pass emits what a compiler that knows all indices in advance emits if and only if every emitted reference is to an earlier call, or to the result of rank 0 in memory |
| `CopyoutLaws.ValidCompiles` | prog/encodingexec.go:241-286 | no other panic of the compiler is reachable from a valid program whose call arguments are not groups or output data |
| `CopyoutLaws.ValidLaws` | prog/validation.go:84-99 | both laws for all such programs |
| `CopyoutLaws.ReferencesCarry` | prog/encodingexec.go:241-256 | the result words of the compiled calls carry, in order, the ranks of the referents, and 0 for referents of the same call |
| `CopyoutLaws.SameCallPanics` | prog/encodingexec.go:245-248 | a valid program on which the compiler panics |
| `CopyoutLaws.SameCallMisses` | prog/encodingexec.go:122-128 | a valid program that is compiled with a reference to the wrong result |
| `Traversal.CopyinsInOrder` | prog/encodingexec.go:122-144 | writeCopyins emits the copyins of the arguments themselves, in the order of the traversal, and nothing else |
| `Traversal.CallLeads` | prog/analysis.go:113-156 | the object of a pointer is laid out from the address that the pointer holds on, an option where its union lies, members one after the other |
| `Values.CopyinsDeliver` | executor/executor.cc:600-626 | the copyins of a compiled call copy exactly the arguments that lie in memory and go in, in order, each to where it lies: integers as their bytes in either byte order or as text, bitfields as bits, data as it is; constants, lengths and flags hold their value, checksums 0, per-process values start + value + stride times process or 0, results the result divided and then increased, or the default of the type, pointers the address of their object; the executor fails exactly for the sizes and formats it has no store for |
| `Values.CallPasses` | executor/executor.cc:1222-1290 | the call instruction has the number of the call and the index of its return value, and the executor reads from it the values of the arguments, big-endian ones turned; it fails exactly for bitfields, for integers printed as text, and for big-endian results and big-endian integers of another size than 2, 4 or 8 |
| `Values.ScalarCarries` | prog/prog.go:60-140 | what the compiler writes for a scalar is what the scalar stands for |
| `ExecProgram.ProgramRoundTrip` | prog/decodeexec.go:71-96 | what the compiler emits is decoded to the same calls if the last index is referred to by an emitted argument, and refused for its number of variables otherwise |
| `ExecProgram.SerializeProgram` | prog/encodingexec.go:59-76 | the same from the program through the buffer to the decoder: it panics exactly with the compiler, fails exactly when the encoding does not fit, and what is in the buffer decodes as said |
| `ExecProgram.OutputOnlyIsRefused` | prog/decodeexec.go:71-80 | a valid program that compiles and whose code the decoder refuses for its number of variables |
| `CopyoutIndices.RankStrict` | prog/encodingexec.go:200-217 | indices of different results differ and follow program order |
| `CopyoutIndices.RankOnto` | prog/encodingexec.go:200-217 | indices are dense from 0 |
| `CopyoutIndices.RankBound` | prog/encodingexec.go:200-217 | indices are below the number of used results |
| `SquashKeeps.PtrKeeps` | prog/any.go:210-227 | squashPtr of every tree of the law succeeds, keeps the size of the object ("squash changed size" is unreachable), and the squashed tree means in memory what the tree means once its leaves have the types of any |
| `SquashKeeps.ImplKeeps` | prog/any.go:229-272 | appending an argument to the element list appends the bytes of its leaves, at its offset, and its pointees, in order |
| `SquashKeeps.FieldsKeep` | prog/any.go:329-369 | the same for struct fields, with bitfields, wherever they lie in their unit, collected until their storage ends |
| `SquashKeeps.ConstBytes` | prog/any.go:371-398 | the bytes of the squashed value are those the executor would store for the value of process 0, in both byte orders |
| `SquashKeeps.ChecksumMarked` | prog/any.go:371-381 | a checksum is squashed to the low bytes of the marker value |
| `SquashKeeps.SwapBytes` | prog/mutation.go:784-825 | the swapped value has the bytes of the value in reverse order |
| `SquashKeeps.AddDataKeeps` | prog/any.go:400-412 | growing the last blob, or adding one, means the same bytes at the same addresses |
| `SquashKeeps.ImplResults` | prog/any.go:304-327 | whatever the tree, the result arguments after squashing are those before it, in the same order, equal but for their types |
| `Bits.FieldStored` | executor/executor.cc:1136-1146 | the read-modify-write of a bitfield, in either byte order, sets the bits of the field to those of the value and changes no others |
| `Bits.FieldSets` | executor/executor.cc:1136-1146 | for little-endian units this is one store of bits, wherever the field lies in its unit |
| `SquashMemory.TreePuts` | executor/executor.cc:1136-1170 | over any memory where all their addresses are mapped, the copyins of a tree leave at each bit the value stored there last, and nothing else changed |
| `SquashMemory.ListCopied` | prog/any.go:229-302 | a squashed tree, pointees included, is copied in completely: what it stores is what it means |
| `SquashMemory.SquashKeepsMemoryIff` | prog/any.go:210-412 | for every tree and memory: the copyins before and after leave the same memory if and only if every bit that the tree stores last equals what the squashed tree means there |
| `SquashExact.SquashKeepsOverlappingIff` | prog/any.go:210-412 | without bitfields, objects overlapping or not: if and only if the byte laid out last at each address has not changed, or is a fill equal to what it hides |
| `SquashExact.SquashKeepsDisjointIff` | prog/any.go:210-412 | for disjoint objects in zeroed memory, with bitfields in units that start with their storage: if and only if every leaf keeps its bytes and every bitfield its bits |
| `SquashExact.ConstKept` | prog/any.go:371-398 | constants that are the same for every process keep their bytes, in both byte orders |
| `SquashExact.PointerKept` | prog/any.go:229-272 | pointers that go in and data keep theirs |
| `SquashExact.ResultKept` | prog/any.go:304-327 | a native-endian result keeps its bytes if and only if it was produced or its default has the bytes of the default of the any types |
| `SquashExact.BigEndianResultKept` | prog/any.go:304-327 | a big-endian result does if and only if it was produced and its bytes are a palindrome, or was not and its default has those bytes |
| `SquashFails.OverlapMatters` | prog/any.go:267-271 | a valid program whose memory changes because a fill hides another object |
| `SquashFails.UnproducedMatters` | prog/encodingexec.go:241-256 | a valid program whose memory changes because the call that makes the result it stores did not produce it |
| `SquashFails.UnitOffsetMatters` | prog/any.go:342-360 | a valid program whose memory changes because the unit of a bitfield starts before its storage |
| `SquashBuilder.SquashPointer` | prog/any.go:210-227 | the in-place version computes the squashed pointer or panics exactly when the function says so |
| `SquashBuilder.Builder.SquashGroup` | prog/any.go:329-369 | the field loop with its bitfield accumulator |
| `SquashBuilder.Builder.EnsureDataElem` | prog/any.go:400-412 | afterwards the last element holds data and nothing else changed |
| `SquashBuilder.CutBytes` | prog/any.go:283-287 | the shifting loop yields the little-endian bytes |
| `Checksum.Update` | executor/common.h:364-378 | the accumulator stays 16-bit and congruent to the word sum, with no 32-bit overflow up to 65536 words |
| `Checksum.UpdateBoundIsTight` | executor/common.h:364-378 | one word more can overflow |
| `Checksum.ChunksAreConcatenation` | executor/executor.cc:627-672 | updates over even-length chunks and a last one give the RFC 1071 checksum of the concatenation |
| `Checksum.RunOne` | executor/executor.cc:627-672 | after one instruction its region sums to all ones and no other byte changed |
| `Checksum.RunChecksums` | executor/executor.cc:627-672 | after nested instructions over zeroed fields every region with its pseudo-header sums to all ones at once, and no other byte changed |
| `ChecksumWriter.WriteChecksums` | prog/encodingexec.go:155-198 | one instruction for each checksum field, with its chunks, in descending order of the addresses |
| `ChecksumWriter.WrittenNested` | prog/encodingexec.go:86-88 | if regions hold other fields only at higher addresses, that order makes the instructions nested |
| `ChecksumWriter.CsumCopyin` | prog/prog.go:72-74 | the copyin of a checksum field writes zero |
| `ChecksumWriter.FieldIsZero` | prog/encodingexec.go:122-144 | after the copyins a field holds zeros if nothing was copied over it |
| `ChecksumWriter.RunCallChecksums` | executor/executor.cc:627-672 | copyins, emission and execution together: every region of the call sums to all ones |
| `CallChecksums.CalcChecksums` | prog/checksum.go:29-114 | the passes over the fields find for each checksum field the chunks it covers, or panic, exactly as specified field by field |
| `CallChecksums.NamedNearest` | prog/checksum.go:116-131 | a field that names a struct covers the nearest one of that name around it, and there is none exactly when the search fails |
| `CallChecksums.ParentFound` | prog/checksum.go:116-121 | a field that names its parent covers the struct that it is a field of |
| `Traversal.CallParents` | prog/checksum.go:50-58 | the structs noted for an argument are the one that has it as a field, behind pointers, the one that has that one, and so on |
| `CallChecksums.FieldInside` | prog/checksum.go:50-58 | the struct that a field covers encloses the field unless a pointer lies between |
| `CallChecksums.FieldCovered` | prog/checksum.go:63-70 | in such a layout the region of each field holds the field exactly once, at an even offset, inside memory |
| `PseudoHeaders.HeaderFound` | prog/checksum.go:77-94 | the addresses are the first fields named src_ip and dst_ip of the last group whose template is an IP header; there are none if there is no such group, and the search panics if one has no such fields |
| `PseudoHeaders.PseudoRegion` | prog/checksum.go:96-151 | the region of a pseudo-header field is source, destination, protocol and size in the form of IPv4 for addresses of 4 bytes and of IPv6 for 16, and the packet |
| `PseudoHeaders.PlainRegion` | prog/checksum.go:63-70 | that of any other field is the struct that it covers |
| `CallChecksums.TopCopied` | prog/encodingexec.go:122-144 | every checksum field of the call has a copyin of zero at its address |
| `CallChecksums.RunCall` | prog/checksum.go:29-114 | from the arguments of a call to memory: after its copyins, the instructions for the fields that calcChecksumsCall finds make every region sum to all ones at once and change only the fields |
| `CallChecksums.WrittenPlain` | prog/encodingexec.go:155-198 | the instructions that writeChecksums emits refer to no result, which is what the laws of the compiler ask of them |
| `Checksum.PseudoHeaderIPv4` | prog/checksum.go:133-141 | zero, protocol and length in network order; the length is the packet size exactly below 64K |
| `Checksum.PseudoHeaderIPv6` | prog/checksum.go:143-151 | 32-bit length, three zeros, next header |
| `ArgGraph.ReplaceResultArg` | prog/prog.go:346-362 | all fields but the uses are taken over and the link of the referent moves |
| `ArgGraph.RemoveResult` | prog/prog.go:364-383 | "broken tree" happens exactly when the referent does not list the argument as its user; otherwise the users hold type defaults, and in symmetric trees the result is unlinked both ways and nothing else changes |
| `ArgGraph.Prog.RemoveCall` | prog/prog.go:385-395 | removing any call from a valid program leaves a valid one; former users hold defaults; "broken tree" is unreachable |
| `ArgGraph.RemovedLinked` | prog/validation.go:132-159 | deleting a block of results keeps symmetric links, in-tree references and definition before use |
| `ArgClone.Clone` | prog/clone.go:10-84 | succeeds exactly when no result refers to itself; the result arguments of the clone are fresh and isomorphic to the original's, links and users included |
| `ArgClone.CopiedIsomorphic` | prog/clone.go:34-84 | the uses of each clone are exactly the images of the original's uses |
| `ArgClone.SelfReferenceIsValid` | prog/validation.go:84-99 | a valid program on which Clone dereferences a missing referent |
| `Cloning.CloneProg` | prog/clone.go:10-84 | on values: the copy loop fails exactly when a result refers to one that is not copied before it, and returns the same program otherwise |
| `Cloning.ValidClonable` | prog/validation.go:84-99 | for valid programs that is the self-reference |
| `Cloning.SelfReferenceFails` | prog/clone.go:34-84 | such a program, valid and not clonable |
| `Cloning.RemoveCallClonable` | prog/prog.go:385-395 | removing a call leaves every reference to an earlier result |
| `Cloning.RewriteClonable` | prog/prog.go:364-383 | so do rewrites that take a subtree out |
| `ArgSplice.CloneIsValid` | prog/clone.go:10-32 | the clone of a valid program is valid |
| `ArgSplice.InsertValid` | prog/prog.go:301-316 | inserting the calls of one valid program into another keeps validity |
| `ArgSplice.Truncate` | prog/mutation.go:78-80 | removing calls from the end leaves a valid program of the first ncalls calls; their results keep their values and references |
| `ArgSplice.Splice` | prog/mutation.go:69-83 | the first ncalls calls of the program with the clone inserted before the chosen call, still valid; it fails exactly where Clone does; every result that is left has the value and reference it had before, or those of the result it is the clone of, led to the clones |
| `Sizes.AssignIsFunction` | prog/size.go:17-141 | arguments that differ only in the assigned lengths get the same lengths |
| `Sizes.AssignIdempotent` | prog/size.go:118-141 | assigning sizes twice is assigning them once |
| `Sizes.AssignKeepsClean` | prog/size.go:17-39 | nothing but the length fields of structs and calls is written |
| `Sizes.OutlineResolve` | prog/size.go:41-88 | the value found along a path does not depend on any length value |
| `Sizes.LengthOfMember` | prog/size.go:92-116 | a length that names a member measures it behind its pointers: elements of an array, extent of a memory range, bytes of anything else, in the unit of the type; 0 behind null |
| `Sizes.OffsetOfMember` | prog/size.go:92-98 | an offset is the size of the members before, in the unit of the type |
| `Sizes.LengthOfParent` | prog/size.go:62-70 | a length of its parent measures the innermost struct around it |
| `Sizes.LengthOfStruct` | prog/size.go:71-83 | a length that names a struct around it measures the innermost one of that template |
| `Sizes.LengthOfArgument` | prog/size.go:32-33 | a length of an argument of the call measures that argument, wherever the length stands |
| `Sizes.PathThroughMember` | prog/size.go:45-61 | a longer path goes on among the fields of the member, behind pointers, that its first name leads to |
| `Sizes.PathThroughStruct` | prog/size.go:62-83 | or among those of the struct around it |
| `Sizes.AllLengths` | prog/size.go:118-141 | after assignment every length field, at every depth, has the value its path gives in the assigned tree itself |
| `ArgEdit.RenumberedReferent` | prog/prog.go:364-383 | after a subtree is gone, a renumbered reference leads to the same result argument, and exactly the references into the subtree are dropped |
| `ArgEdit.RemovedElement` | prog/minimization.go:164-168 | removing an array element removes its results and keeps the others in order |
| `ArgEdit.RewriteWeight` | prog/minimization.go:141-146 | a rewrite loses at least the weight it takes from the argument, references elsewhere included |
| `Removal.RemoveCallResults` | prog/prog.go:385-395 | after removeCall each result that referred to the call is the default of its type, and each other one has its operations, its value and its referent, wherever that stands now |
| `Removal.RemoveCallKeeps` | prog/prog.go:385-395 | nothing else of the other calls changes |
| `Removal.RewriteResults` | prog/prog.go:364-383 | the same after a subtree is gone from a call |
| `Removal.RewriteKeeps` | prog/prog.go:364-383 | nothing else changes but the argument put in its place and the lengths of the call |
| `Removal.UnsetIsDefault` | prog/prog.go:377-380 | what such a result holds is its DefaultArg |
| `Minimize.DataStep` | prog/minimization.go:251-262 | undoing a cut and assigning sizes again restores exactly the program that was accepted, however often data was cut before |
| `MinimizeRun.Ctx.Do` | prog/minimization.go:94-116 | either the iteration goes on with the committed program untouched and the path tried, or it restarts with a lighter accepted program or one more path tried; an argument whose path was untried was changed as its type says, or all its parts were tried; the "shared program committed" and "iterating over stale program" panics are unreachable |
| `MinimizeRun.Ctx.MinimizeStruct` | prog/minimization.go:122-130 | the same as for an argument; if nothing changed every member was tried |
| `MinimizeRun.Ctx.MinimizePointer` | prog/minimization.go:136-152 | an untried pointee is removed, and committed exactly if the predicate accepts that; if nothing changed the pointee was tried |
| `MinimizeRun.Ctx.MinimizeArray` | prog/minimization.go:154-178 | the last element goes first if it may and was not tried; if nothing changed every element was tried, and so was every removal that is allowed |
| `MinimizeRun.Ctx.MinimizeElem` | prog/minimization.go:157-176 | an untried element that the length range allows to go is removed, and committed exactly if the predicate accepts that |
| `MinimizeRun.Ctx.MinimizeInt` | prog/minimization.go:200-220 | changed exactly if the predicate accepts the default in place of another value; otherwise undone exactly |
| `MinimizeRun.Ctx.MinimizeResult` | prog/minimization.go:222-241 | a reference is replaced by the default of its type, and committed exactly if the predicate accepts that |
| `MinimizeRun.Ctx.MinimizeBuffer` | prog/minimization.go:243-272 | data of the two blob kinds that is not output is cut to the length the search ends with, and committed exactly if that is shorter; other data is left alone |
| `MinimizeRun.Pass` | prog/minimization.go:46-51 | a pass restarts or has tried every argument of the call; and as long as nothing lighter was committed, the tried paths of the arguments themselves tell that the predicate rejected their change |
| `MinimizeRun.Ctx.Shorten` | prog/minimization.go:243-272 | terminates; what is left is what was accepted last; without crash mode the length is the minimum or one byte less was rejected, with it the minimum if that was accepted and otherwise the whole |
| `MinimizeRun.RemoveCalls` | prog/minimization.go:63-81 | the result is the original or accepted, the index names the same call, and exactly the calls are gone whose removal was accepted when they were tried, the last one first; it fails exactly when there is another call and the program cannot be cloned |
| `MinimizeRun.NothingRemovedIff` | prog/minimization.go:63-81 | call removal leaves the program as it is exactly if the predicate rejects the removal of every single call but the named one |
| `MinimizeRun.AllRemoved` | prog/minimization.go:63-81 | a predicate that accepts everything leaves nothing but the named call |
| `MinimizeRun.MinimizeCall` | prog/minimization.go:35-52 | terminates by the lexicographic measure of weight and untried paths; keeps all calls; the result is lighter, or it is the given program and the predicate rejects the first change of every argument; fails exactly when the program cannot be cloned, and panics in no other way |
| `MinimizeRun.MinimizeProgram` | prog/minimization.go:14-61 | Clone's dereference of a missing referent is reached if and only if the given program has a reference that is not to an earlier result; otherwise the result is the original program or accepted by the predicate in exactly that state, its index names the original call, it is lighter than what call removal left or the predicate rejects the first change of every argument of every call, and no panic but the one for a bad argument is reachable; every program the predicate is asked about is valid |
| `ValidEdits.IsValid` | prog/validation.go:34-159 | the shapes of arguments and the links of results together are what validate checks |
| `ValidEdits.RemoveCallGood` | prog/prog.go:385-395 | removing a call keeps shapes and links |
| `ValidEdits.NullGood` | prog/minimization.go:141-146 | so does making a pointer null |
| `ValidEdits.ElemGood` | prog/minimization.go:157-176 | so does removing an element that the length range of the array allows to go |
| `ValidEdits.PutGood` | prog/minimization.go:200-241 | so does another argument of the same type that is no larger, has as many results and brings no references |
| `ValidEdits.CutGood` | prog/minimization.go:251-262 | so does cutting data within its range and assigning sizes |
| `Threads.Safety` | executor/executor.cc:804-839 | under every interleaving no "bad thread state", "event already set" or negative running count is reachable, and the invariant holds in every reachable state |
| `Threads.StepKeeps` | executor/executor.cc:885-901 | every step of scheduler and workers keeps: each created slot is idle, scheduled, running or finished with the matching flags, and running counts the executing slots |
| `Threads.JobsChangeOnlyWhileIdle` | executor/executor.cc:820-834 | the arguments of a slot change only while it is idle |
| `Threads.CompletedCallWasScheduled` | executor/executor.cc:885-893 | a completion handles the call the slot was given |
| `Threads.OneRecordPerCall` | executor/executor.cc:755-801 | every run that completes the first pass has exactly one record per call |
| `Threads.CollideAddsNothing` | executor/executor.cc:885-896 | the collide pass adds no records |
| `ThreadRecords.StepAdds` | executor/executor.cc:885-901 | a step writes a finished record exactly when it completes a slot outside the collide pass, whose worker is done with that very call, an unfinished one exactly for a slot that executes when the program is over, extra coverage with these and at the end of the first pass, and nothing else |
| `ThreadRecords.RecordOrigin` | executor/executor.cc:755-801 | every record of every run was written so |
| `ThreadRecords.AllCallsFinished` | executor/executor.cc:755-801 | a first pass without a final write has exactly one record for each call, and it is finished |
| `ThreadRecords.WaitedFor` | executor/executor.cc:725-749 | every call is waited for or run in place, but for every second one of the collide pass |
| `ThreadRecords.ScanCompletes` | executor/executor.cc:736-741 | looking for calls that have completed, the scheduler completes exactly the slots it finds done and passes over the others |
| `ThreadRecords.FinalWaits` | executor/executor.cc:764-786 | the first pass waits exactly as long as a call is executing and time is left, and then writes what is unfinished |
| `ThreadRecords.GivenMarked` | executor/executor.cc:821-827 | in every run a slot that is given a call is marked as colliding exactly in the collide pass |
| `ThreadRecords.FinishedRun` | executor/executor.cc:797-801 | a run that finishes has given out all calls, and did so again if and only if the collide pass is on |
| `Publication.Output.WriteCallOutput` | executor/executor.cc:935-1002 | a record becomes visible only as a whole: a reader that looks after any store but the last gets the records without it, and after the last those with it; on overflow it never appears |
| `Publication.Output.WriteExtraOutput` | executor/executor.cc:1004-1028 | the same for the record of extra coverage, and nothing is stored when there is none |
| `Publication.Output.WriteSignal` | executor/executor.cc:842-882 | the signals kept, in order, and their number; readers see no change after any store |
| `Publication.Output.Publish` | executor/executor.cc:1300-1352 | the one store that raises the counter makes exactly the record in front of the cursor visible |
| `Publication.Output.ReaderSees` | executor/executor.cc:1310-1313 | a reader of the first completed records gets exactly the published ones, refuses one for its head, or panics, which it does exactly if they reach the end of memory and the last has neither coverage nor comparisons; the methods above establish it after each of their stores |
| `Publication.ReadRecordsEnc` | pkg/ipc/ipc.go:323-374 | the reader recovers exactly the written records if it accepts their heads, and panics if and only if it does, nothing follows them and the last has neither coverage nor comparisons |
| `Publication.FullMemoryPanics` | pkg/ipc/ipc.go:457-466 | a full memory, one record without signal, on which the reader panics |
| `Publication.AcceptsIff` | pkg/ipc/ipc.go:323-374 | it accepts them if and only if indices are in range, numbers match and no call is reported twice |
| `Alloc.MemAlloc.Set` | prog/alloc.go:97-103 | exactly one granule is added to the set the two-level bitmap stands for |
| `Alloc.MemAlloc.NoteAlloc` | prog/alloc.go:46-52 | exactly the granules the range touches are added |
| `Alloc.MemAlloc.Bankruptcy` | prog/alloc.go:78-87 | every granule of program memory becomes free |
| `Alloc.MemAlloc.Alloc` | prog/alloc.go:54-76 | the lowest free aligned window; bankruptcy only when none exists; at most one recursion |
| `Alloc.TouchedBytes` | prog/alloc.go:46-52 | a granule is noted if and only if it shares a byte with the range |
| `Alloc.NoOverlap` | prog/alloc.go:54-76 | over any run, an allocation overlaps nothing noted or handed out since the last bankruptcy |
| `Alloc.MemAlloc.PerformAll` | prog/alloc.go:46-76 | any list of operations on the bitmap is such a run, so its allocations are apart |
| `Alloc.NeverPanicsIff` | prog/alloc.go:136-164 | with wrap-around: no choice of the random source panics if and only if the size is at least 1 and leaves three pages |
| `Alloc.VmaAlloc.Alloc` | prog/alloc.go:136-164 | the range lies in memory and is noted; the used list stays duplicate-free and equal to the key set |
| `Alloc.VmaAlloc.NoteAlloc` | prog/alloc.go:126-134 | the pages of the range are added, each listed once |
| `Resources.TransitivelyEnabled` | prog/resources.go:165-195 | the least set closed under "all inputs creatable by supported calls", for every iteration order |
| `Resources.LeastUnique` | prog/resources.go:165-195 | the result does not depend on the order |
| `Resources.LeastSelfSupporting` | prog/resources.go:165-195 | every call of the result has its inputs created within the result |
| `Resources.LeastMonotone` | prog/resources.go:165-195 | more enabled calls never support fewer |
| `Resources.LeastIdempotent` | prog/resources.go:165-195 | the analysis of its result is its result |
| `Resources.TransitivelyEnabledCalls` | prog/resources.go:197-226 | supported and disabled calls split the enabled ones, each disabled one has an input nobody creates, and "lost syscalls" is unreachable |
| `Rotator.State.Select` | prog/rotation.go:141-216 | a returned set is closed, within the given calls and at least goal-sized; "top queue already handled" is unreachable; the index panic happens exactly without resources |
| `Rotator.State.AddCall` | prog/rotation.go:218-230 | one call is added; a new one queues exactly those of its resources that were not handled, each once, and marks them |
| `Rotator.State.SelectCalls` | prog/rotation.go:232-240 | only calls of the list are added, and one for sure when forced |
| `Rotator.State.HandleDependency` | prog/rotation.go:160-181 | a queued resource is taken off and gets a constructor, a precise one if there is any |
| `Rotator.State.HandleTop` | prog/rotation.go:191-213 | the first resource of the queue is handled once, and gets a constructor and a user, precise ones if there are any |
| `ChoiceTable.BuildRow` | prog/prio.go:225-241 | the row holds the prefix sums of the enabled weights |
| `ChoiceTable.ExactWeight` | prog/prio.go:253-259 | exactly as many draws select a call as it has weight |
| `ChoiceTable.Choose` | prog/prio.go:245-260 | the first draw hits an enabled call of positive weight; the draw panics exactly when all weights are zero |
| `ChoiceTable.SearchInts` | prog/prio.go:255-255 | the first entry that reaches the draw |

## Left out

- TextParser.Deserialize: ANY pointers, AUTO values, strict mode, the recovery of eatExcessive and comments kept with programs are left out; the parser of the model reports an error where they would occur, and when a fixed-size array has too many elements. Numbers are hexadecimal, octal with a leading zero, or decimal.
- Sizes of arguments are summed without 64-bit wrap-around.
- Sizes: values are computed on values, not written through pointers; a path that leads nowhere, an offset of what is no member and an offset without a unit give 0 where the source panics.
- ExecCompile: the "bad group arg size" check of the argument traversal.
- ExecBuffer: the word list of a whole program is written by one method, which takes the list from the encoding function.
- ExecCompile: the checksum instructions of a call are an input of the compiler, any list that refers to no result; `CallChecksums` and `ChecksumWriter` say which list a call has.
- CallChecksums.RunCall: the layout conditions are those listed above; a region of odd offset, or one that wraps around, is outside them.
- Squash: checksums, for which squashing writes a marker, and integers and resources printed as text, whose executor form also writes a terminator; the field name kept by squashPtr; pages and faults of real memory.
- SquashExact.SquashKeepsDisjointIff: bitfields in units that start before their storage are covered by the law bit by bit only, in `SquashMemory`.
- ArgClone.Clone: says only of result arguments that they are not shared with the original, because other arguments are values there.
- ArgGraph, ArgClone and ArgSplice: arguments other than results are values there, so aliasing of constants, data and groups is not modelled; validate is the link invariant without the checks per argument kind, which are in `Defaults`.
- MinimizeRun.MinimizeProgram: validity of what is asked is for targets with a special pointer, which all have, and for programs whose objects do not wrap around the address space and whose blobs of fixed size have the ranges that the description compiler gives them; validate checks neither. That the first change of every argument is rejected is claimed of a result that is as heavy as what call removal left; after a commit, changes that were rejected before it are not tried again, and they are those of the arguments themselves, not of what they point to.
- Threads: result copyout, fault injection and signals; a timed wait is a free choice. Publication: running out of output space ends the process; error numbers, call flags and which signals are duplicates are inputs.
- Alloc.MemAlloc.Alloc: requests larger than program memory are excluded; the recursion of the source would not end well for them.
- Rotator: MakeRotator, whose lists are an input with the properties it establishes; the unbounded selection loop is cut after a given number of rounds.
- ChoiceTable: floating-point priorities and their normalisation; weights are natural numbers.
- prog/rand.go, the random parts of prog/mutation.go, prog/hints.go, prog/parse.go and fallback signals: heuristics and small scanning code.
- The fork server, control pipes, sandboxes, coverage collection and operating-system headers of the executor.
- syz-hub, syz-ci, the dashboard and the manager: process and network management.
