# Verification of the Protocol Buffers codec and the asynchronous logger

This project models two stateful parts of the repository in Dafny and proves what they are for.

**The codec** (`lualib-src/pbc/src`). Bytes are numbers below 256, machine words are ranges of
the integers, and a 64-bit word is kept as two halves as the C does it. From the bottom up:

* `Words`, `Varints`, `Wire`, `Contexts`: base-128 varints and ZigZag, the record format, and the
  parser that splits a message into atoms, proved equal to a recursive reference parser.
* `Chains`, `Copies`, `StringMaps`, `FixedTables`, `IdMaps`: the three coalesced-chain tables of
  `map.c`, proved equal to finite maps for any hash function, keys that are entered twice included.
  A chain is described by the home slot that opened it and a rational rank along it, so that a slot
  can be linked in between two others. `Enums` puts the names of an enum into two of them.
* `Reals`: doubles and floats as their bits, the numbers that they stand for, and the two
  conversions between them.
* `Vectors`, `VectorMaps`, `Pools`: the vector that does not store its capacity, vectors filed under
  keys, the string pool and the page heap.
* `Schemas`, `Writers`, `WMessages`, `PackedTables`: message types, the growing byte buffer of a
  message, and the forest of messages on one heap. A message is known by its place in the order of
  creation; what was written directly is tracked as a list of records. `PackedTables` is the hash
  table of vectors that holds the packed fields. `TypeTables` are the tables in which the names that
  callers give are looked up.
* `PackedArrays`, `NumberTrips`, `Indexes`, `RMessages`, `RoundTrip`: the reader, whose index is a
  hash table of values and vectors, and the theorem that it gives back what the writers were given,
  packed fields and sub-messages included. `Calls` states it from the list of the calls.
* `Patterns`, `PatternTrips`: packing and unpacking the members of a C struct, with the exact
  room that packing needs and the exact condition under which the struct comes back.
* `Spelling`, `PatternSpelling`: what a round trip cannot show: the bytes that each write adds, and
  when it adds none, and what each reader makes of the words it finds, for every type in numerals.
* `Registers`, `Extensions`: loading schema files in an order that respects their dependencies,
  and keeping the two tables of a message type up to date when it is extended.

**The logger** (`lualib-src/lua-log.c`). `LogMachine` is a machine whose steps are the regions
under the mutex and the worker's steps between them; any enabled step may come next.
`LogBuffers` describes the memory behind a state of the machine (which buffers live, how they are
linked, who owns each), and the methods of `Logger`, on pointers, each refine one step. Following
a pointer demands that its buffer is allocated, so no method touches NULL or freed memory, and the
assertions in the C are assertions here.

I/O, clocks, threads and hash values are parameters or left out. Where the C reads memory that no
contract describes (the tail of a scratch buffer, the bytes around a message), the model takes
arbitrary bytes; it is proved that the result does not depend on them, or exactly when it does.

`dafny verify dfyconfig.toml` checks the project with Dafny 4.11.

## Results that say where the code falls short

For each the exact condition is proved, where nothing else is said.

* `Wire.TakenWrongly`, `Wire.TakenAsFormatted`, `Wire.LengthOfFourGigabytes`: `wiretype_decode` adds
  a length and its own width in 32 bits, so that a record can be taken that ends gigabytes behind the
  buffer. `Contexts.Context.Open` goes by the format exactly on messages that do not reach such a
  record. On others the parser goes on behind the message, or takes the message as finished.
* `Wire.ScratchDecides`, `Wire.EndsWithTag`, `Wire.SixBytes`: the length of such a record may be cut
  short, and then the scratch buffer completes it, with what it held before or with bytes of the same
  record. The reader and the unpacker are described on all messages of which the same comes whatever
  the scratch buffer holds, as long as the parser is not lost (`Wire.Tame`); `Wire.PlainlyRefused`
  gives nearly all messages that are cut short.
* `PackedArrays.PackedOutside`, `PackedArrays.PackedStaysInside`: a packed field is read without a
  look at its wire type. All reading stays in the message exactly under `PackedSafe` with nothing
  behind the message, which `RMessages.SafeToRead` asks of every atom of a packed field, with what
  really lies there.
* `StringMaps.NullCompared`, `TypeTables.NoFieldNamed`: a query compares with a NULL key exactly when
  the hash of the key is zero and its home slot empty. The hash of the empty name is zero, so writers
  must not be given it for a type whose table has no field in its first slot, nor getters when the
  index does not have it; both demand `CanAsk` of the tables they query.
* `Registers.DescriptorWanted`, `Registers.DescriptorInput`: a file that is held with NULL counts as
  unknown, and a new environment holds the file `descriptor` like that. Registering a file of that name
  succeeds without making it known, and files that depend on it are refused.
  `Registers.Registry.Register` is exact when the names held with NULL do not get in the way
  (`Registers.Untangled`) or the table need not grow (`Registers.Roomy`); otherwise the outcome hangs on
  where the hashes put the names, and only soundness is proved.
* `Extensions.GivenIfApart`, `Extensions.SharedName`: names and ids lead to every field, and agree,
  exactly when no two fields of a message share a name or an id.
* `Reals.NarrowWiden`, `Reals.WidenNarrow`: a float comes back from a double unless it is a signalling
  NaN, and a double from a float exactly if it is one.
* `StringMaps.StringMap.InsertHash`, `StringMaps.TwinsLoop`: a key that is inserted twice stays in
  the table twice; which value a query gives depends on whether the key sits in its home slot, and
  iterating may never end. `RMessages.Integer` shows what that means for a field given twice.
* `Varints.Dezigzag32HighWord`, `Varints.Dezigzag32HighWordOfMinusOne`: the high word of
  `_pbcV_dezigzag32` is the sign extension only for some numbers.
* `Writers.StridedExact`, `Writers.StridedInside`: `_pack_packed_32` of `wmessage.c` stores numbers
  eight bytes apart and announces four bytes for each; this is right exactly for at most one number,
  and inside the buffer for certain exactly for at most three.
* `Patterns.NeedIsTight`, `Patterns.SevenForSix`: `_pack_packed_fixed` of `pattern.c` takes the
  length header off the room twice; the exact room it asks for is proved, and when that is tight.
* `PatternTrips.StructRoundTrip`, `PatternTrips.SInt64Rejected`, `PatternTrips.HighByteStays`: a
  sint64 member outside a packed field is never unpacked, of an int16 member only the low byte is
  stored, and a zero that is elided takes the sign of the default; the round trip is proved to hold
  exactly without them.
* `LogMachine.CompleteWithoutCuts`, `LogMachine.LostAtExit`: lines get lost exactly when a batch is
  cut, or when the worker ends and no swap has followed their append.

## Model

| member | source | states |
|---|---|---|
| `Varints.Encode32` | lualib-src/pbc/src/varint.c:7-32 | writes exactly the shortest base-128 form of the word at its place and no other byte |
| `Varints.Encode64` | lualib-src/pbc/src/varint.c:34-48 | the same for 64 bits, by the loop that shifts seven bits out at a time |
| `Varints.Decode` | lualib-src/pbc/src/varint.c:50-80 | length and both words are those of a reference decoder over ten bytes: value modulo 2^64, ten continuation bytes giving a ten-byte zero |
| `Varints.LengthOfVarint` | lualib-src/pbc/src/varint.c:7-48 | the length of a varint counts the seven-bit groups of the number, from both sides |
| `Varints.VarintBytes` | lualib-src/pbc/src/varint.c:7-48 | byte k of the encoding holds the seven bits from bit 7k on, and has its top bit set exactly if another byte follows |
| `Varints.VarintMinimal` | lualib-src/pbc/src/varint.c:7-48 | no byte string that ends at its first clear continuation bit spells the number in fewer bytes |
| `Varints.Widths` | lualib-src/pbc/src/varint.c:7-48 | no 64-bit number takes more than ten bytes, no 32-bit number more than five |
| `Varints.DecodeEncoded` | lualib-src/pbc/src/varint.c:34-80 | decoding the encoding of any 64-bit number, whatever follows, gives its two words and consumes exactly the encoding |
| `Varints.ReadEncoded` | lualib-src/pbc/src/varint.c:34-80 | the same for a reader that is told how many bytes there are |
| `Varints.DecodedInNumerals` | lualib-src/pbc/src/varint.c:50-80 | what is decoded of any bytes, in the shortest form or not: the sum of the groups of seven bits modulo 2^64, zero for ten bytes that go on, and nothing of fewer bytes that go on to the end |
| `Varints.ScratchCopy` | lualib-src/pbc/src/context.c:18-30 | decoding a short input through a ten-byte scratch copy either runs past the input or does not depend on the undefined tail |
| `Varints.ZigZagMeaning` | lualib-src/pbc/src/varint.c:82-94 | ZigZag sends 0, -1, 1, -2, ... to 0, 1, 2, 3, ... in both widths |
| `Varints.DezigzagZigzag64` | lualib-src/pbc/src/varint.c:89-102 | word-wise dezigzag64 undoes zigzag on every 64-bit number |
| `Varints.DezigzagZigzag32` | lualib-src/pbc/src/varint.c:82-110 | the low word of dezigzag32 undoes zigzag32 on every 32-bit number, whatever the high word was |
| `Varints.Dezigzag32HighWord` | lualib-src/pbc/src/varint.c:104-110 | the high word that dezigzag32 makes up is the sign extension exactly for numbers in 0 .. 2^30-1 or below -2^30 |
| `Varints.Dezigzag32HighWordOfMinusOne` | lualib-src/pbc/src/varint.c:104-110 | an input for which it is not: minus one comes back with high word zero |
| `Reals.NarrowWiden` | lualib-src/pbc/src/pattern.c:477-502 | a float survives the way to a double and back exactly if it is no signalling NaN |
| `Reals.WidenNarrow` | lualib-src/pbc/src/pattern.c:499-505 | a double survives the way to a float and back exactly if it is a float, and no signalling NaN |
| `Reals.NarrowIsNearest` | lualib-src/pbc/src/wmessage.c:221-228 | the float for a double that is a number has its sign and is as near to it as any float, infinity counting as 2^128, and of two that are as near the even one |
| `Reals.NarrowSpecial` | lualib-src/pbc/src/wmessage.c:221-228 | the float for an infinity is that infinity, and for a NaN a NaN |
| `Reals.WidenIsExact` | lualib-src/pbc/src/rmessage.c:94-98 | the double for a float that is finite has its sign and is the same number |
| `Reals.SameRealIs` | lualib-src/pbc/src/wmessage.c:216-219 | doubles compare equal exactly if neither is a NaN and they are the same number, so that the two zeros do |
| `Reals.SameFloatIs` | lualib-src/pbc/src/pattern.c:742-743 | the same for floats |
| `Wire.GoodRecordsCountsAll` | lualib-src/pbc/src/context.c:217-270 | an accepted message has as many good records as atoms, and at least one unless it is empty |
| `Wire.SlicesInside` | lualib-src/pbc/src/context.c:61-72 | every length-delimited slice of a message that the format allows lies inside it and is at least two bytes shorter |
| `Wire.RecordsTile` | lualib-src/pbc/src/context.c:217-270 | the records of a message that the format allows tile the buffer: each begins where the one before ends, and the last ends with the buffer |
| `Wire.TakenWrongly` | lualib-src/pbc/src/context.c:61-72 | what the parser takes of one record is what the format allows, or a record that moves past the end of the buffer; the latter exactly when a length and its own width add up to 2^32 or more and the sum modulo 2^32 fits |
| `Wire.TakenAsFormatted` | lualib-src/pbc/src/context.c:217-270 | atoms, count and refusal are those of the format exactly on the messages in which no record runs away |
| `Wire.FirstBadDecides` | lualib-src/pbc/src/context.c:217-270 | of a message that the format does not allow, the first bad record and what the scratch buffer holds then decide whether one runs away |
| `Wire.PlainlyRefused` | lualib-src/pbc/src/context.c:217-270 | a message whose first bad record is cut short, also right behind its tag, or is bad otherwise, is refused behind its good records, whatever the scratch buffer holds; left out are only lengths whose first byte is F6 or above or 76 to 7F, and two kinds of tags |
| `Wire.AllowedIsTame` | lualib-src/pbc/src/context.c:217-270 | no record of a message that the format allows runs away, whatever the scratch buffer holds |
| `Wire.LengthOfFourGigabytes` | lualib-src/pbc/src/context.c:68 | 0A FF FF FF FF 0F: a record of six bytes is taken, four gigabytes are passed over, and the parser goes on there |
| `Wire.EndsWithTag` | lualib-src/pbc/src/context.c:18-71 | a message that is a length-delimited tag and nothing more is refused, whatever the scratch buffer holds, unless the tag takes all ten bytes, when the scratch buffer decides, or is FFFFFFFA in six bytes, when one atom is taken |
| `Wire.SixBytes` | lualib-src/pbc/src/context.c:18-71 | FA FF FF FF 8F 00 is that message: it is taken as one atom whose slice ends before it begins |
| `Wire.ScratchDecides` | lualib-src/pbc/src/context.c:57-68 | 0A FB FF and 0A FD FF: the first is refused or loses the parser, and the second is refused or taken as one atom, as the scratch buffer has it |
| `Wire.ParseEncoded` | lualib-src/pbc/src/context.c:15-85 | the parser reads one encoded record back, whatever follows |
| `Wire.ParseEncodedAll` | lualib-src/pbc/src/context.c:217-270 | the encoding of any list of valid records is accepted, with one atom for each |
| `Wire.AtomsMatchRecords` | lualib-src/pbc/src/context.c:217-270 | each atom has the id, wire type and number of its record, and its slice holds the record's bytes |
| `Wire.RecordInNumerals` | lualib-src/pbc/src/context.h:12-15 | the bytes of a record in numerals: the varint of eight times the id plus 0, 1, 2 or 5, and then a varint, eight bytes, a length and bytes, or four bytes, words with the lowest byte first |
| `Wire.TakenInNumerals` | lualib-src/pbc/src/context.c:44-84 | the parser goes by the tag modulo eight: for 0, 1, 2 and 5 it takes the varint, eight bytes, the slice or four bytes that are there, and for 3, 4, 6 and 7 it takes nothing |
| `Contexts.DecodeBounded` | lualib-src/pbc/src/context.c:21-30 | a varint that may be cut short is read as the reference reader reads it, although the scratch buffer holds anything behind the copy; what the buffer holds afterwards |
| `Contexts.WiretypeDecode` | lualib-src/pbc/src/context.c:15-85 | one record is taken, with this atom and this distance to the next, exactly as a reference function on all inputs says: there is one scratch buffer for both varints, and a length and its width are added modulo 2^32 |
| `Contexts.Context.Open` | lualib-src/pbc/src/context.c:217-270 | for every message and every contents of the scratch buffers: the atom array and its count, minus the number of good records on failure, or no result, because the parser goes on four gigabytes behind the message; all as a recursive reference has it; up to 19 atoms lie in the inline array, and more in a block of the least multiple of 64 |
| `Contexts.Context.FillInner` | lualib-src/pbc/src/context.c:229-245 | the first loop fills the inline array with the first atoms or fails at the first bad record |
| `Contexts.Context.FillHeap` | lualib-src/pbc/src/context.c:247-266 | the second loop continues on the heap, in a block that grows by 64 as far as is needed, without losing an atom |
| `Chains.InsertAtHome` | lualib-src/pbc/src/map.c:277-283 | a key put in its empty home slot keeps every chain intact |
| `Chains.InsertBehind` | lualib-src/pbc/src/map.c:284-295 | a key put in a borrowed slot, linked in behind any slot of the chain of its home slot, keeps every chain intact |
| `Chains.WalkFromHome` | lualib-src/pbc/src/map.c:334-341 | following links from a home slot stays in its chain |
| `Chains.WalkStep` | lualib-src/pbc/src/map.c:376-394 | a step along a chain either finds the key, proves it absent, or comes strictly closer to it |
| `Chains.InDegreeAtMostOne` | lualib-src/pbc/src/map.c:247-394 | no two slots link to the same slot |
| `Chains.Acyclic` | lualib-src/pbc/src/map.c:247-394 | following links from a slot never leads back to it |
| `Chains.KeyReachable` | lualib-src/pbc/src/map.c:247-394 | every key is reached from its home slot by following links |
| `Chains.KeyCount` | lualib-src/pbc/src/map.c:247-394 | as many slots are occupied as there are keys |
| `Chains.EmptySlotExists` | lualib-src/pbc/src/map.c:274-301 | while there are fewer keys than slots, one slot is empty, so that probing ends |
| `Copies.EnterAtHome` | lualib-src/pbc/src/map.c:277-283 | a key put in its empty home slot was in no slot before, and is its own first entry |
| `Copies.EnterBehind` | lualib-src/pbc/src/map.c:284-295 | a key that is there already may be entered again, right behind its home slot; the new entry comes before all others of the key but that of the home slot |
| `Copies.WalkFurther` | lualib-src/pbc/src/map.c:376-394 | the walk for a key meets its first entry before any other one, or proves that there is none |
| `StringMaps.StringMap.constructor` | lualib-src/pbc/src/map.c:247-261 | an empty table whose capacity is the power of two reached by doubling |
| `StringMaps.StringMap.Mask` | lualib-src/pbc/src/map.c:274-301 | masking with the capacity less one is the remainder |
| `StringMaps.StringMap.FindEmpty` | lualib-src/pbc/src/map.c:285-288 | probing goes round the table, ends, and finds the first empty slot behind the home slot |
| `StringMaps.StringMap.InsertHash` | lualib-src/pbc/src/map.c:274-301 | the entry joins those stored, also when the key is there already; other keys keep their values, and the key gets the new one, unless its home slot holds it already: then a query goes on giving the old one; the table doubles exactly when it is full; where there is room, the entry lies in its home slot or in the next empty one, to which the home slot now leads |
| `StringMaps.StringMap.Rehash` | lualib-src/pbc/src/map.c:303-319 | the table has twice the slots and the same entries, and stands for the same map if no key is held twice |
| `StringMaps.StringMap.Query` | lualib-src/pbc/src/map.c:376-394 | the answer is the map's, and the walk ends; the key must be one that is not compared with NULL on the way |
| `StringMaps.NullCompared` | lualib-src/pbc/src/map.c:385 | exactly when the walk for a key hands a NULL key to the comparison: its hash is zero and its home slot empty |
| `StringMaps.NullInEmptyTable` | lualib-src/pbc/src/map.c:376-394 | an input: the empty key, whose hash is zero, in the table of a message without fields |
| `StringMaps.StringMap.Insert` | lualib-src/pbc/src/map.c:364-368 | the same for the key alone, across rehashes |
| `StringMaps.StringMap.WalkToEnd` | lualib-src/pbc/src/map.c:334-341 | the walk from an occupied home slot ends at the key, or proves it absent and ends in its chain |
| `StringMaps.StringMap.PlaceBehind` | lualib-src/pbc/src/map.c:345-357 | an entry is added in an empty slot linked in behind a slot of the chain of its key; which value the key then has, and that all slots taken keep their keys |
| `StringMaps.StringMap.QueryInsertHash` | lualib-src/pbc/src/map.c:321-362 | a slot for the key: the one it has, or a new one that holds NULL, at home or at the end of its chain, across rehashes |
| `StringMaps.StringMap.QueryInsert` | lualib-src/pbc/src/map.c:370-374 | the same from the key alone |
| `StringMaps.StringMap.Store` | lualib-src/pbc/src/map.c:321-362 | storing through the pointer handed out changes what that key maps to and nothing else |
| `StringMaps.StringMap.Next` | lualib-src/pbc/src/map.c:418-474 | the entry in slot order behind the one that a query for the key finds, or the first one, or the end |
| `StringMaps.StringMap.Traverse` | lualib-src/pbc/src/map.c:418-474 | iterating from NULL shows the entries with a pointer in slot order, and stops, when no key is held twice |
| `StringMaps.TwinsLoop` | lualib-src/pbc/src/map.c:418-474 | when a key is held twice in a row, the step from the key leads to the key again, so that the iteration never ends |
| `StringMaps.EntriesAreTheMap` | lualib-src/pbc/src/map.c:418-474 | those entries are exactly the keys that map to a pointer, each once, when no key is held twice |
| `StringMaps.StoreBehind` | lualib-src/pbc/src/map.c:284-295 | the slot array after a collision keeps the table's invariant, with the key at the borrowed slot |
| `TypeTables.FindField` | lualib-src/pbc/src/wmessage.c:137 | the query for a field by the key of a caller gives the field of that name or none; the key must be one that is not compared with NULL |
| `TypeTables.GetMessage` | lualib-src/pbc/src/proto.c:19-22 | the query for a message type gives it if and only if there is one of the name |
| `TypeTables.NoFieldNamed` | lualib-src/pbc/src/wmessage.c:137 | an input: the empty name, whose hash is zero, for any type without fields; and for every type exactly when: no field has taken the first slot of the table |
| `FixedTables.FixedTable.constructor` | lualib-src/pbc/src/map.c:105-134 | n entries in n slots: the table stands for the association list; of entries with one key the first counts if it got its home slot and the last otherwise |
| `FixedTables.FixedTable.Add` | lualib-src/pbc/src/map.c:44-78 | one more entry, for a new key or one that is there already, in its home slot or in the next empty one from the cursor on, which only moves forward |
| `FixedTables.FixedTable.FindEmpty` | lualib-src/pbc/src/map.c:65-67 | the forward cursor never runs off the table |
| `FixedTables.FixedTable.Query` | lualib-src/pbc/src/map.c:86-103 | the answer is the map's, and the walk ends |
| `FixedTables.MapOfMeaning` | lualib-src/pbc/src/map.c:44-134 | an association list with distinct keys as a map has just its entries, whichever of equal keys counts |
| `FixedTables.MapsFromList` | lualib-src/pbc/src/map.c:44-134 | with repeated keys, too, the map has the keys of the list, each with one of its values |
| `FixedTables.FullSlots` | lualib-src/pbc/src/map.c:175-195 | in a table with as many entries as slots every slot holds one |
| `IdMaps.IdMap.Hash` | lualib-src/pbc/src/map.c:105-134 | the hash form of an id table stands for the association list, repeated ids included |
| `IdMaps.IdMap.Direct` | lualib-src/pbc/src/map.c:148-163 | so does the array form, for which the last of repeated ids counts |
| `IdMaps.New` | lualib-src/pbc/src/map.c:136-163 | whichever form is chosen, the table stands for the list; the array is chosen exactly when all ids lie between zero and twice the count |
| `IdMaps.Query` | lualib-src/pbc/src/map.c:210-231 | every id is answered as the association list answers it, in both forms and for NULL |
| `IdMaps.IdMap.Inject` | lualib-src/pbc/src/map.c:175-195 | listing a table whose ids are distinct gives its entries, each once |
| `IdMaps.EntriesOnce` | lualib-src/pbc/src/map.c:175-195 | without repeated keys what the slots hold is the map |
| `IdMaps.Combine` | lualib-src/pbc/src/map.c:197-208 | the combination of two tables has the ids of both; for an id of both it gives the value of the second, or of the first if that sits in its home slot; without a common id it is their union |
| `IdMaps.UnionTable` | lualib-src/pbc/src/map.c:197-208 | the joined lists have distinct keys and stand for the union |
| `Enums.EnumType.constructor` | lualib-src/pbc/src/proto.c:76-91 | the values of an enum go into both tables |
| `Enums.EnumType.IdOf` | lualib-src/pbc/src/wmessage.c:298-313 | a name has a number if and only if some value has the name, and then one of such a value |
| `Enums.EnumType.NameOf` | lualib-src/pbc/src/rmessage.c:99-103 | a number has a name if and only if some value has the number, and then one of such a value |
| `Enums.EnumType.AnswersTrue` | lualib-src/pbc/src/proto.c:76-91 | both tables answer for just the names and numbers of the values, and each answer belongs to the same value |
| `Enums.EnumType.NameThere` | lualib-src/pbc/src/wmessage.c:298-313 | a name that is sent as a number and read comes back, or another name of its number; without aliases just the name |
| `Enums.EnumType.NumberThere` | lualib-src/pbc/src/rmessage.c:99-103 | a number read as a name and sent again is the number, when no two values share a name |
| `LogMachine.StepConserves` | lualib-src/lua-log.c:165-354 | every step keeps all lines that are not dropped, whole, once, and in the order of the calls |
| `LogMachine.RunConserves` | lualib-src/lua-log.c:165-354 | so does every run, however front-end threads and the worker interleave |
| `LogMachine.AppendAtEnd` | lualib-src/lua-log.c:165-213 | an append adds the line at the very end of file, batch, pending list and current buffer |
| `LogMachine.RemoveMiddle` | lualib-src/lua-log.c:280-306 | cutting a batch removes just the lines of the dropped buffers and keeps the order of the others |
| `LogMachine.CompleteWithoutCuts` | lualib-src/lua-log.c:225-354 | after any run from the start, file, batch, pending list and current buffer together are exactly the appended lines if and only if no batch was ever cut |
| `LogMachine.CutMeansMany` | lualib-src/lua-log.c:245-306 | in every run the worker logs a notice and cuts a batch if and only if its last swap took 26 buffers or more; a cut leaves just the first two, and drops the lines of the others |
| `LogMachine.CompleteWhenFew` | lualib-src/lua-log.c:245-306 | in every run in which no swap finds more than 24 buffers pending, no line is lost |
| `LogMachine.BuffersFilled` | lualib-src/lua-log.c:165-213 | in every run no buffer holds 4194304 bytes, and a buffer is only left for the next one when the next line would have made it as many or more |
| `LogMachine.StepKeepsFullBlocks` | lualib-src/lua-log.c:165-306 | buffers before the last of a batch are never empty, so that a cut always loses lines and nothing else does |
| `LogMachine.LostAtExit` | lualib-src/lua-log.c:227-354 | when the worker has ended after a run, a line that was not dropped is in the file if and only if a swap followed its append |
| `LogBuffers.InitiallyOk` | lualib-src/lua-log.c:370-415 | the memory picture holds at the start |
| `LogBuffers.StoreOk` | lualib-src/lua-log.c:168-173 | storing a line keeps the memory picture: one owner for each live buffer, list sizes, tail linked to the current buffer |
| `LogBuffers.RotateOk` | lualib-src/lua-log.c:174-205 | so does moving a full buffer to the pending list |
| `LogBuffers.SwapOk` | lualib-src/lua-log.c:246-274 | so does the swap |
| `LogBuffers.CutOk` | lualib-src/lua-log.c:294-305 | so does dropping all but two buffers |
| `LogBuffers.WriteOk` | lualib-src/lua-log.c:307-315 | so does writing one buffer |
| `LogBuffers.RecycleOk` | lualib-src/lua-log.c:323-351 | so does keeping one or two buffers as reserves and freeing the others |
| `LogBuffers.LiveBuffers` | lualib-src/lua-log.c:165-354 | allocated less freed is owned: the live buffers are the current one, the spare, the reserves and the two lists, and their numbers add up |
| `LogBuffers.FileIsBeginning` | lualib-src/lua-log.c:307-315 | after any run without a cut, the bytes in the file are a prefix of the text of all lines that were logged, in the order of the calls |
| `Logger.Logger.Append` | lualib-src/lua-log.c:165-213 | one append on pointers is one append of the machine; its C assertions hold |
| `Logger.Logger.Rotate` | lualib-src/lua-log.c:174-205 | the pointer work of the full-buffer branch, with the assertions on the tail |
| `Logger.Logger.Swap` | lualib-src/lua-log.c:227-278 | the worker's locked region is the swap of the machine; the assertions before and after hold |
| `Logger.Logger.Notice` | lualib-src/lua-log.c:280-292 | the notice is an append, made only for a batch of more than 25 buffers |
| `Logger.Logger.Cut` | lualib-src/lua-log.c:294-305 | freeing the batch from its third buffer on touches only live memory and is the cut of the machine |
| `Logger.Logger.FreeAll` | lualib-src/lua-log.c:296-302 | a loop that frees a list frees each node once and no other |
| `Logger.Logger.Proceed` | lualib-src/lua-log.c:280-308 | a batch of at most 25 buffers is written whole |
| `Logger.Logger.Write` | lualib-src/lua-log.c:308-315 | one turn of the writing loop appends one buffer to the file |
| `Logger.Logger.Recycle` | lualib-src/lua-log.c:323-351 | the worker gets its reserves back and frees the rest; the assertions on the size hold |
| `Writers.Writer.Expand` | lualib-src/pbc/src/wmessage.c:64-79 | there is room for the bytes asked for, and what was written stays, in place or in a copy |
| `Writers.Writer.PackFixed64` | lualib-src/pbc/src/wmessage.c:346-369 | appends length and numbers of eight bytes each |
| `Writers.Writer.PackVarint` | lualib-src/pbc/src/wmessage.c:396-465 | appends exactly the length of the payload and the payload, for every array and whatever the first guess of the length; earlier bytes stay |
| `Writers.Writer.PutElement` | lualib-src/pbc/src/wmessage.c:411-443 | one number of a packed field, with room made for it first |
| `Writers.Writer.FixHeader` | lualib-src/pbc/src/wmessage.c:451-464 | a header that was only a guess becomes the true length, and the payload moves when the header changes its width |
| `Writers.Writer.PackFixed32` | lualib-src/pbc/src/wmessage.c:371-394 | appends the length, and the words sent (a double is cut to a float) eight bytes apart in what the buffer held before; for every array, as long as its last number lies inside the buffer |
| `Writers.StridedExact` | lualib-src/pbc/src/wmessage.c:383-389 | the bytes announced for numbers of 32 bits come out right, whatever was in the buffer, exactly when there is at most one number |
| `Writers.StridedInside` | lualib-src/pbc/src/wmessage.c:371-392 | with the room that is made, all stores lie inside the buffer for certain exactly when there are at most three numbers |
| `Writers.PayloadWidth` | lualib-src/pbc/src/wmessage.c:396-465 | a packed payload has between one and ten bytes for each number |
| `Writers.Writer.PutPacked` | lualib-src/pbc/src/wmessage.c:467-489 | appends the record of a packed field |
| `Writers.Writer.PutNumber` | lualib-src/pbc/src/wmessage.c:158-200 | appends the record of a number by the type of the field, or nothing for types that hold no number |
| `Writers.Writer.PutReal` | lualib-src/pbc/src/wmessage.c:222-238 | appends the record of a double, cut to a float for a field of that type, or nothing for other types |
| `Writers.Writer.PutText` | lualib-src/pbc/src/wmessage.c:317-325 | appends the record of a string |
| `Writers.Writer.PutSub` | lualib-src/pbc/src/wmessage.c:504-511 | appends the record of a finished sub-message |
| `WMessages.MessageTree.constructor` | lualib-src/pbc/src/wmessage.c:48-55 | a heap with one empty message |
| `WMessages.NewMessage` | lualib-src/pbc/src/wmessage.c:48-55 | NULL for an unknown type, and else an empty message on a new heap |
| `WMessages.MessageTree.Integer` | lualib-src/pbc/src/wmessage.c:135-203 | asks the table of names for the key, which must be one that is not compared with NULL; an unknown key is refused; a number joins its packed field or adds one record; an optional number equal to its default adds nothing; all other messages stay as they are |
| `WMessages.MessageTree.Real` | lualib-src/pbc/src/wmessage.c:205-241 | the same for doubles; one equal to the default as doubles compare adds nothing, zeros of either sign included |
| `WMessages.MessageTree.Text` | lualib-src/pbc/src/wmessage.c:243-329 | the same for strings and bytes, with the length conventions of the call, and for the names of enums, packed ones included: the name is looked up in the table of the enum, one that is not there is refused, and the name of the default adds nothing |
| `WMessages.MessageTree.SubMessage` | lualib-src/pbc/src/wmessage.c:331-344 | after the same query: a new empty message that belongs to this one; keeps the messages a forest |
| `PackedTables.AddNumber` | lualib-src/pbc/src/wmessage.c:81-105 | a number goes to the table of one message, which is made if need be; the tables of the other messages stay |
| `PackedTables.PackedTable.Add` | lualib-src/pbc/src/wmessage.c:81-105 | the hash table of vectors takes a number: it joins the vector of its key, or one is made and the slots come in the order of the table, across rehashes |
| `PackedTables.PackedTable.List` | lualib-src/pbc/src/wmessage.c:492-495 | listing the table in slot order gives the list of packed fields |
| `PackedTables.AddedNew` | lualib-src/pbc/src/wmessage.c:81-105 | what the table lists after a new key went in is the list before with one field more, in another order |
| `WMessages.MessageTree.Finish` | lualib-src/pbc/src/wmessage.c:491-517 | the bytes are the encoding of direct writes, packed fields and sub-messages, these recursively; only this message and those under it change |
| `WMessages.MessageTree.FinishPacked` | lualib-src/pbc/src/wmessage.c:492-495 | all packed fields join the buffer in slot order |
| `WMessages.MessageTree.FinishSub` | lualib-src/pbc/src/wmessage.c:498-512 | one sub-message is finished and joins the buffer |
| `WMessages.SiblingsApart` | lualib-src/pbc/src/wmessage.c:331-344 | nothing is under two different sub-messages of one message |
| `WMessages.FinalDepends` | lualib-src/pbc/src/wmessage.c:491-517 | what a message comes to depends only on itself and the messages under it |
| `WMessages.NextUntouched` | lualib-src/pbc/src/wmessage.c:498-512 | finishing earlier sub-messages does not change what the next one comes to |
| `PackedArrays.UnpackPacked` | lualib-src/pbc/src/pattern.c:140-281 | pushes exactly the numbers of a reference reading of the slice and returns their count or -1, whatever lies behind the slice |
| `PackedArrays.UnpackFixed` | lualib-src/pbc/src/pattern.c:146-209 | the loops over words of fixed width |
| `PackedArrays.UnpackVarints` | lualib-src/pbc/src/pattern.c:210-278 | the loops over varints, and what stays pushed when the last one is cut short |
| `PackedArrays.DecodeLoose` | lualib-src/pbc/src/pattern.c:219-227 | decoding at the end of a slice, with however little memory behind it |
| `PackedArrays.ReachIsSize` | lualib-src/pbc/src/pattern.c:210-278 | nothing behind a slice is read if and only if its varints end with it |
| `PackedArrays.ReachIsNear` | lualib-src/pbc/src/pattern.c:219-227 | otherwise at most nine bytes behind it are read |
| `PackedArrays.StaysInside` | lualib-src/pbc/src/pattern.c:140-281 | exactly when all reading for a slice, whatever its place and size, stays in the memory |
| `PackedArrays.PackedStaysInside` | lualib-src/pbc/src/rmessage.c:162-180 | for any atom of a packed field, also one that is no slice, all reading stays in the message if and only if the signed size is such that nothing is read, or the two words make a slice of the message whose varints end with it |
| `PackedArrays.PackedOutside` | lualib-src/pbc/src/rmessage.c:164 | an input: 08 F6 FF FF FF 0F with a packed int32 field reads ten bytes before the message |
| `PackedArrays.UnpackedCount` | lualib-src/pbc/src/pattern.c:140-281 | a result that is not negative is the number of numbers pushed |
| `NumberTrips.PayloadComesBack` | lualib-src/pbc/src/wmessage.c:158-200 | a number written by type and read by type comes back, both words or the low word as the type has it |
| `NumberTrips.ElementComesBack` | lualib-src/pbc/src/wmessage.c:411-443 | one packed number comes back, whatever follows |
| `NumberTrips.SignWordIs` | lualib-src/pbc/src/varint.c:104-110 | the high word that a sint32 gets on the way, in closed form |
| `NumberTrips.ValueComesBack` | lualib-src/pbc/src/pattern.c:445-529 | the same with floats, which are cut from doubles when they are written and widened when they are read |
| `NumberTrips.PackedComesBack` | lualib-src/pbc/src/wmessage.c:346-489 | all numbers of a packed field come back in order, for every type and array |
| `RMessages.ReadMessage` | lualib-src/pbc/src/rmessage.c:245-308 | the index, a hash table of vectors built by insertion and array pushes, is, key by key, what the atoms hold in wire order; the recursion ends because slices get shorter; it is never rehashed |
| `RMessages.IndexStep` | lualib-src/pbc/src/rmessage.c:266-305 | filing one atom takes the index of the atoms before it to the index with it |
| `RMessages.FileAtom` | lualib-src/pbc/src/rmessage.c:266-305 | one atom is filed in the table as the reference index has it |
| `RMessages.PackedNothing` | lualib-src/pbc/src/rmessage.c:162-180 | 08 05 with a packed int32 field is safe to read, and nothing is filed |
| `Indexes.FieldIndex.FileMany` | lualib-src/pbc/src/rmessage.c:272-295 | a repeated or packed field: the vector is found or made, the values are pushed, and NULL takes the place of an empty one |
| `Indexes.FieldIndex.FileOne` | lualib-src/pbc/src/rmessage.c:296-303 | a field that stands alone: one more entry, also when the key is there already |
| `Indexes.OneMore` | lualib-src/pbc/src/rmessage.c:296-303 | of several values of such a field the table gives the first if it sits in its home slot and the last otherwise, as each of the insertions leaves it |
| `Indexes.FieldIndex.Get` | lualib-src/pbc/src/rmessage.c:337-442 | what a query gives for a key: nothing, the value at a place of the array, or the first or last value of a field that stands alone |
| `RMessages.ReadValue` | lualib-src/pbc/src/rmessage.c:84-160 | the value of one atom by type, or none |
| `RMessages.ReadElement` | lualib-src/pbc/src/rmessage.c:182-243 | the element of one atom by type; a sub-message that cannot be read is left out |
| `RMessages.UnpackField` | lualib-src/pbc/src/rmessage.c:162-180 | the numbers of one packed atom, which need not be a slice |
| `RMessages.New` | lualib-src/pbc/src/rmessage.c:310-328 | asks the table of types for the name; an unknown type or a message that cannot be read gives NULL, and every other input that is safe to read the message |
| `RMessages.RefusedSafely` | lualib-src/pbc/src/rmessage.c:245-328 | a message that is plainly bad, cut short for instance, may be given to the reader, which refuses it |
| `RMessages.TagReadAsMessage` | lualib-src/pbc/src/rmessage.c:245-308 | an input: FA FF FF FF 8F 00 is no message by the format and is read as one without fields |
| `RMessages.Integer` | lualib-src/pbc/src/rmessage.c:370-397 | asks the index and, when that does not have the key, the table of names, neither with a key that is compared with NULL; the number at an index; of a field that stands alone the first number if its key is at home and the last otherwise; the default of the schema; zero for an unknown key |
| `RMessages.Real` | lualib-src/pbc/src/rmessage.c:399-413 | the same for doubles, for fields that are no enums |
| `RMessages.GetText` | lualib-src/pbc/src/rmessage.c:337-368 | the same for the bytes of a string |
| `RMessages.GetName` | lualib-src/pbc/src/rmessage.c:353-358 | for the name of an enum: a name of the number that is picked, read as a signed word, and NULL exactly if no value of the enum has the number; for a key that is absent the name of the default |
| `RMessages.NameIsTrue` | lualib-src/pbc/src/rmessage.c:99-103 | the same of the values of the enum themselves |
| `RMessages.SubMessage` | lualib-src/pbc/src/rmessage.c:415-442 | a sub-message that was read, or for a key that is absent one that equals what reading no bytes at all gives; either can be asked for its own fields |
| `RMessages.SizeCounts` | lualib-src/pbc/src/rmessage.c:444-455 | the size of a message that was read counts, for an array, the values that its atoms hold, and is one for any positive number of values of a field that stands alone |
| `RMessages.NumericEntries` | lualib-src/pbc/src/rmessage.c:84-308 | the entries of numeric fields hold numbers only, and at least one |
| `RoundTrip.OccurrencesAreValues` | lualib-src/pbc/src/rmessage.c:245-308 | what is filed under a key is what the records with its id hold, in order |
| `RoundTrip.ReadsRecords` | lualib-src/pbc/src/rmessage.c:245-308 | reading the encoding of any fitting list of records succeeds and gives every key its own records' values in order |
| `RoundTrip.NumberComesBack` | lualib-src/pbc/src/wmessage.c:135-241 | a number written to a field that is not packed comes back as one value |
| `RoundTrip.TreeComesBack` | lualib-src/pbc/src/wmessage.c:491-517 | for every forest of messages built by the writers, the bytes of a message are accepted by the reader and give back the message, packed fields and sub-messages included, at every depth |
| `RoundTrip.SendAndReceive` | lualib-src/pbc/src/wmessage.c:491-517 | the same for the calls themselves: finishing a message and reading its bytes gives back what was written |
| `RoundTrip.WrittenOnce` | lualib-src/pbc/src/rmessage.c:370-413 | a number written once is given back by the getter, also when it equals the default and nothing is emitted; a double comes back bit by bit, or as the default that compares equal, and in a float field as the double of the nearest float |
| `RoundTrip.WrittenText` | lualib-src/pbc/src/rmessage.c:337-368 | a string written once is given back byte by byte, or, when it was not emitted, as the default, which has the same length and is the same C string |
| `RoundTrip.WrittenName` | lualib-src/pbc/src/rmessage.c:370-397 | a name written once is given back as the number that the table of the enum has for it, or as the number of the default when it is the name of the default |
| `RoundTrip.NameThereAndBack` | lualib-src/pbc/src/rmessage.c:337-358 | a name written once and read as a name comes back as a name of the same number, and as itself without aliases or when it is that of the default |
| `RoundTrip.NameOfInteger` | lualib-src/pbc/src/rmessage.c:337-397 | the name that is given for a key and place is one of the number that is given for them, and there is none exactly if no value has the number |
| `RoundTrip.WrittenRepeatedly` | lualib-src/pbc/src/rmessage.c:182-243 | numbers written to a repeated field are given back in the order of writing |
| `RoundTrip.WrittenPacked` | lualib-src/pbc/src/rmessage.c:162-180 | numbers pushed to a packed field are given back in order |
| `RoundTrip.OwnAfterNumber` | lualib-src/pbc/src/wmessage.c:135-241 | a write of a number adds its records to its own field and nothing to any other field of any message |
| `RoundTrip.OwnAfterText` | lualib-src/pbc/src/wmessage.c:243-329 | so does a write of a string |
| `Calls.HeldIsTold` | lualib-src/pbc/src/wmessage.c:135-344 | after any number of calls, writes of integers, doubles and strings, packed or not, and new sub-messages on any of the messages, each message holds for each field just what the calls for it have told, in their order |
| `Calls.MeaningIsTold` | lualib-src/pbc/src/wmessage.c:135-344 | after all of the calls each message stands for what they have told, down to the last sub-message |
| `Calls.Play` | lualib-src/pbc/src/wmessage.c:48-344 | making the calls of any list that the program may make, on a new message and those made on the way, is such a run |
| `Calls.Deliver` | lualib-src/pbc/src/wmessage.c:491-517 | finishing the message that the calls were made on and reading its bytes gives what the calls have told |
| `Calls.Tell` | lualib-src/pbc/src/wmessage.c:48-517 | end to end from a list of calls: a message is made, the calls are made on it, it is finished and its bytes are read; the reader gets what the calls have told, whatever order the hash tables give |
| `RoundTrip.SafeMore` | lualib-src/pbc/src/rmessage.c:245-308 | a message that is safe to read is so with more memory behind it |
| `Spelling.IntegerSpelled` | lualib-src/pbc/src/wmessage.c:136-205 | an integer written to a field adds nothing exactly if the field is optional and it is the default (both words, of an enum the low one), or the type holds no integers; else one record, whose bytes are given for each type in numerals |
| `Spelling.RealSpelled` | lualib-src/pbc/src/wmessage.c:207-244 | the same for a double: only doubles and floats are written, in eight and in four bytes, and the default of an optional field is left out exactly if it is the same number |
| `Spelling.TextSpelled` | lualib-src/pbc/src/wmessage.c:277-330 | the same for a text: a string is left out if it has the length of the default and is the same C string, bytes if there are none, and an enum if it has the name of the default or none at all; else tag, length and bytes, or the number that the enum has for the name |
| `Spelling.LengthSpelled` | lualib-src/pbc/src/wmessage.c:257-261 | how much of a text is written: as much as is said, or what comes before the first zero byte and so many bytes more |
| `Spelling.NameSpelled` | lualib-src/pbc/src/wmessage.c:262-315 | a name written to an enum field, packed or not: the call fails exactly for a name that the enum does not have and that is no default left out, and then changes nothing; else the number of the name is sent or joins the packed ones |
| `Spelling.PackedSpelled` | lualib-src/pbc/src/wmessage.c:389-457 | the bytes of a packed field: tag, length and the bytes of all numbers in order, by type in numerals; an int32 is its low word there |
| `Spelling.SubSpelled` | lualib-src/pbc/src/wmessage.c:490-518 | a finished message: the records written directly, the packed fields, and each sub-message as tag, length and its own finished bytes |
| `Spelling.HeardIs` | lualib-src/pbc/src/rmessage.c:84-137 | the number that a reader makes of two words, by type in numerals, alone and in a packed field |
| `Spelling.AtomHeard` | lualib-src/pbc/src/rmessage.c:84-160 | what one atom gives a field that is not packed: a number whatever its wire type, a text or a message only if it is length-delimited; a message that cannot be read leaves no gap in an array |
| `Spelling.WordsUnpacked` | lualib-src/pbc/src/pattern.c:140-229 | the numbers of a packed slice of words: all of them, or, if they do not fill the slice, none and a result of -1 |
| `Spelling.VarintsUnpacked` | lualib-src/pbc/src/pattern.c:230-281 | the numbers of a packed slice of varints, up to the first that is cut short, for which the result is -1 |
| `PatternSpelling.DefaultIs` | lualib-src/pbc/src/pattern.c:734-774 | a member holds the default as a number of its width or kind, as a truth value, or as a text, by cases in numerals |
| `PatternSpelling.MemberSpelled` | lualib-src/pbc/src/pattern.c:532-574 | a member that stands alone adds nothing exactly if it is optional and holds the default; else one record, whose bytes are given in numerals |
| `PatternSpelling.BytesHeld` | lualib-src/pbc/src/pattern.c:532-574 | the bytes of a text: as its length says, or what comes before the first zero byte and so many bytes more |
| `PatternSpelling.ItemSpelled` | lualib-src/pbc/src/pattern.c:615-630 | a repeated member adds the bytes of its elements in order |
| `PatternSpelling.ArraySpelled` | lualib-src/pbc/src/pattern.c:632-732 | a packed member adds nothing for an empty array, and else tag, length and the bytes of its numbers in order; for words it asks for room for the length twice |
| `PatternSpelling.NumberHeard` | lualib-src/pbc/src/pattern.c:231-331 | what unpacking stores of two words in a member of a C type, by types in numerals; a sint64 is refused unless it is length-delimited |
| `PatternSpelling.ElementHeard` | lualib-src/pbc/src/pattern.c:283-343 | what unpacking makes an element or a slice of; texts must be length-delimited |
| `PatternSpelling.DefaultSpelled` | lualib-src/pbc/src/pattern.c:18-63 | what a member gets that no atom is for |
| `Patterns.Slice.PackWiretype` | lualib-src/pbc/src/pattern.c:363-378 | a varint is written if it fits and otherwise nothing, by way of a scratch buffer when fewer than ten bytes are left |
| `Patterns.Slice.PackVarint64` | lualib-src/pbc/src/pattern.c:380-395 | the same for 64 bits |
| `Patterns.Slice.PackNumber` | lualib-src/pbc/src/pattern.c:445-529 | the bytes of a number by type, written exactly when they fit |
| `Patterns.Slice.PackField` | lualib-src/pbc/src/pattern.c:531-613 | the record of a value, written exactly when it fits; nothing outside the slice is touched |
| `Patterns.Slice.PackText` | lualib-src/pbc/src/pattern.c:579-599 | tag, length and bytes of a string |
| `Patterns.Slice.PackRepeated` | lualib-src/pbc/src/pattern.c:615-629 | the records of all elements, or failure |
| `Patterns.Slice.PackPackedFixed` | lualib-src/pbc/src/pattern.c:631-647 | length and numbers of fixed width, written exactly when there is room for them and for the length once more |
| `Patterns.Slice.PackPackedVarint` | lualib-src/pbc/src/pattern.c:649-685 | length and payload, written exactly when they fit, whatever the guess of the length |
| `Patterns.Slice.FixHeader` | lualib-src/pbc/src/pattern.c:669-684 | a wrong guess is put right by moving the payload inside the slice |
| `Patterns.Slice.PackPacked` | lualib-src/pbc/src/pattern.c:687-732 | the record of a packed field; nothing for an empty array |
| `Patterns.Slice.PackMember` | lualib-src/pbc/src/pattern.c:776-801 | one member by label, a default elided |
| `Patterns.Pack` | lualib-src/pbc/src/pattern.c:776-808 | succeeds exactly in slices of at least the needed size, with the same bytes in all of them; used and unused make up the capacity; on failure the header is unchanged; nothing outside the slice is written |
| `Patterns.StepThen` | lualib-src/pbc/src/pattern.c:776-808 | two steps over a slice make one: what they write, what they need and what they leave alone |
| `Patterns.NeedIsTight` | lualib-src/pbc/src/pattern.c:631-647 | a slice of just the size of the result is enough exactly when behind every packed field of fixed width as many bytes follow as its length takes |
| `Patterns.SevenForSix` | lualib-src/pbc/src/pattern.c:639-640 | a struct whose six bytes do not fit a slice of six bytes |
| `PatternTrips.Search` | lualib-src/pbc/src/pattern.c:72-90 | the binary search finds the field with the id, or there is none |
| `PatternTrips.UnpackField` | lualib-src/pbc/src/pattern.c:283-350 | the new contents of a member, or failure |
| `PatternTrips.ReadAtom` | lualib-src/pbc/src/pattern.c:832-856 | one atom of the message: an array is emptied when its field is first seen |
| `PatternTrips.ReadAtoms` | lualib-src/pbc/src/pattern.c:828-857 | the members after all atoms, which fields were seen, or the first atom that could not be unpacked |
| `PatternTrips.SetDefaults` | lualib-src/pbc/src/pattern.c:859-865 | members never seen get their defaults, the others stay; the default of a message is a slice of no buffer |
| `PatternTrips.Unpack` | lualib-src/pbc/src/pattern.c:810-867 | the result code and the members are those of feeding the atoms one after the other and then filling in defaults |
| `PatternTrips.RefusedSafely` | lualib-src/pbc/src/pattern.c:810-823 | a message that is plainly bad may be given to the unpacker, which refuses it |
| `PatternTrips.BadIsFirst` | lualib-src/pbc/src/pattern.c:825-867 | an unpacking that fails does so at the first atom whose member cannot take it, with all atoms before that in their members |
| `PatternTrips.PatternComesBack` | lualib-src/pbc/src/pattern.c:649-685 | the numbers of a packed field come back from what a pattern packs, and the unpacker reports no error |
| `PatternTrips.MemberFed` | lualib-src/pbc/src/pattern.c:776-867 | all records of a member, numbers or text, fed to the unpacker, change that member only, to what comes back |
| `PatternTrips.CanUnpack` | lualib-src/pbc/src/pattern.c:776-867 | what was packed is safe to unpack: no record runs away, and nothing outside the message is read for packed fields, whatever lies there |
| `PatternTrips.ComesBack` | lualib-src/pbc/src/pattern.c:776-867 | unpacking what was packed succeeds exactly when every member comes back, and gives what comes back |
| `PatternTrips.DefaultIsSlot` | lualib-src/pbc/src/pattern.c:734-774 | a member elided as default is what the default refills |
| `PatternTrips.KeepsIsBack` | lualib-src/pbc/src/pattern.c:108-131 | a member comes back alike exactly when: it is no sint64 outside a packed field, its high word need not be sent, it is no float that is a signalling NaN nor a double that its type cuts, no zero of another sign was elided, for an int16 the high byte in memory is right already, and a text that was elided as the default has a length or the bytes of the default |
| `PatternTrips.StructRoundTrip` | lualib-src/pbc/src/pattern.c:776-867 | packing and unpacking a struct of integers, floats, doubles, texts and arrays of them succeeds and gives an alike struct if and only if every member meets that condition |
| `PatternTrips.SInt64Rejected` | lualib-src/pbc/src/pattern.c:283-350 | a required sint64 member of any value: the message packed is rejected |
| `PatternTrips.HighByteStays` | lualib-src/pbc/src/pattern.c:122-124 | an int16 of 0x0102 unpacked to memory that holds 0x0300 is 0x0302 there |
| `Registers.Registry.constructor` | lualib-src/pbc/src/bootstrap.c:281 | a new environment knows no file, and holds the name descriptor with NULL in the only slot of its table |
| `Registers.Registry.CheckFileName` | lualib-src/pbc/src/register.c:255-275 | known already (that is, held with a pool), ready, or missing a dependency |
| `Registers.Registry.Enter` | lualib-src/pbc/src/register.c:292-298 | a file is entered once more under a name that is held already: what queries then give depends on whether the home slot holds the name, and a table of one slot goes on giving what it gave |
| `Registers.Registry.RegisterNoDependency` | lualib-src/pbc/src/register.c:277-303 | one pass: every file is entered after its dependencies or counted; the count is of files that were neither known nor ready |
| `Registers.Registry.Register` | lualib-src/pbc/src/register.c:305-342 | ends, and on success has loaded only what could be loaded, whatever the table is like; as long as names held with NULL do not get in the way, or the table need not grow, it succeeds exactly when every file of a non-empty set is in the least set closed under known or all dependencies known (or has such dependencies although its own name stays unknown), loads in an order that respects dependencies, and what is known in the end is what could be loaded |
| `Registers.DescriptorWanted` | lualib-src/pbc/src/register.c:305-342 | an input: in a new environment the file descriptor and a file that depends on it are refused |
| `Registers.DescriptorAlone` | lualib-src/pbc/src/register.c:305-342 | the file descriptor alone is accepted and its name is unknown afterwards |
| `Registers.DescriptorInput` | lualib-src/pbc/src/register.c:305-342 | the same for any set of a file descriptor and files that depend on it: nothing gets known, and the set is refused exactly when it has such a file |
| `Registers.DeadBlocks` | lualib-src/pbc/src/register.c:266-271 | a file that depends on a name that is held with NULL at home cannot be loaded, whatever else is in the set |
| `Registers.DeadIdle` | lualib-src/pbc/src/register.c:305-342 | such names make no difference when no file of the set bears one |
| `Registers.OneMore` | lualib-src/pbc/src/register.c:292-298 | loading a ready file keeps the order of loading sound |
| `Registers.ClosedIsLeast` | lualib-src/pbc/src/register.c:305-342 | once the loaded names are closed they are the least closed set |
| `Registers.StuckIsClosed` | lualib-src/pbc/src/register.c:327-335 | a pass that counts as many files as the one before has loaded nothing, and the loaded names are closed |
| `Extensions.ProtoEnv.PushMessage` | lualib-src/pbc/src/proto.c:92-112 | a field goes to its message, which is made if need be, and nothing else changes; every name of a field of the message gives one of the fields of that name |
| `Extensions.ProtoEnv.InitMessage` | lualib-src/pbc/src/proto.c:134-163 | the id index of one message is of the fields that it has now: every id gives one of the fields with the id |
| `Extensions.ProtoEnv.RegisterExtension` | lualib-src/pbc/src/register.c:148-178 | for any order of extendees, and names or ids that come again, all messages end with id indexes of the fields that they have, although reindexing runs only when the extendee changes and at the end, and every message has just its old fields and its extensions |
| `Extensions.SwitchSync` | lualib-src/pbc/src/register.c:166-176 | a push to one message and the indexing of the one before leave only the first to be indexed |
| `Extensions.GivenIfApart` | lualib-src/pbc/src/proto.c:107-163 | names and ids give every field, and agree field by field, exactly when no two fields share a name or an id |
| `Extensions.SharedName` | lualib-src/pbc/src/proto.c:107-163 | an input: of two fields with one name, the id of one leads to a field that its name does not give |
| `Extensions.TableOfNames` | lualib-src/pbc/src/proto.c:150-160 | the list made from the table of names has all fields, each under its id |
| `Extensions.Message.Push` | lualib-src/pbc/src/proto.c:107-112 | a field goes into the table of names, and its name gives it from now on, unless the home slot has the name for another field; the id table stays |
| `Extensions.Message.MakeIndex` | lualib-src/pbc/src/proto.c:146-160 | the id table is made anew of the fields in slot order, and of fields that share an id gives the last, or in the hash form the first if that is at home |
| `Vectors.XorCarry` | lualib-src/pbc/src/array.c:57 | ((n+1) ^ n) > n exactly when n+1 is a power of two |
| `Vectors.FullButOne` | lualib-src/pbc/src/array.c:55-66 | the test on the count finds out exactly when the storage is full but for one |
| `Vectors.Vector.Push` | lualib-src/pbc/src/array.c:41-71 | the vector is the sequence of the values pushed, every write in bounds; up to two of them lie in the object itself, and for more the capacity is the least power of two above the count |
| `Vectors.Vector.MakeRoom` | lualib-src/pbc/src/array.c:46-67 | there is room for one more and nothing is lost |
| `Vectors.Vector.Index` | lualib-src/pbc/src/array.c:73-78 | the value pushed at that place |
| `StringPools.StringPool.Build` | lualib-src/pbc/src/stringpool.c:32-60 | the string lies where it was put, disjoint from all others, which stay as they are although nodes trade their pages; a page of 256 bytes is added exactly when less is left than the string needs, and one of its own for a longer string |
| `StringPools.StringPool.Delete` | lualib-src/pbc/src/stringpool.c:23-30 | every page is freed once |
| `StringPools.WrittenBehind` | lualib-src/pbc/src/stringpool.c:35-40 | writing behind what the page holds overwrites no string |
| `StringPools.PagesTraded` | lualib-src/pbc/src/stringpool.c:50-59 | a new node takes over the full page and the pool the new one, and all strings stay |
| `PageHeaps.Heap.constructor` | lualib-src/pbc/src/alloc.c:36-48 | an empty heap with one page of the least power of two from 1024 on that is not below the size asked for |
| `PageHeaps.Heap.Alloc` | lualib-src/pbc/src/alloc.c:64-83 | a block of the size asked for, rounded up to four, inside one page and disjoint from all others; behind the last one exactly if it fits the current page, and else at the start of a new page |
| `PageHeaps.Heap.Delete` | lualib-src/pbc/src/alloc.c:50-62 | every page is freed once |

## Left out

- Writers.Writer.PackFixed32: numbers that are stored behind the buffer, which only happens beyond the room of `Writers.StaysIn`.
- Writers.Writer.PutPacked: packed fields of 32-bit numbers with two or more elements, which the source does not write correctly (see `Writers.StridedExact`); `Writers.PackedFits` keeps them out of messages that are finished.
- Writers.Writer.PackVarint: takes lengths in unbounded integers; ten bytes for each number must fit 32 bits.
- WMessages.MessageTree.Finish: finishing a message a second time, which would append its packed fields and sub-messages again, is not described, nor are packed 32-bit fields of two or more numbers.
- PackedTables.PackedTable.Add: keys are values; the source keeps the pointer to the key that the caller gave first, which must stay valid until the message is finished.
- RMessages.ReadMessage: demands that what comes of the message does not hang on the scratch buffer and that reading its packed fields and slices stays in memory, since the source does not check it; the difference of the two words of an atom is taken as a signed number of 32 bits, as it is with wrap-around.
- RMessages.Look: is the query of the index, for a key that is not compared with NULL there (`RMessages.CanLook`); that of the table of names comes after it and has its own condition (`RMessages.CanName`).
- RMessages.GetText: the sign that marks copied strings in arrays is not kept; the names of enums are in `RMessages.GetName`.
- RMessages.GetName: packed enums, whose names the source files for the first numbers of the array only when the field comes in several pieces; asking for the size of a name that is NULL.
- RMessages.SubMessage: is described for fields that hold messages; for others the source takes something else for a message.
- Contexts.Context.Open: messages are shorter than 2^31 bytes, and nothing is said about memory once a message has gone astray.
- StringMaps.StringMap.Traverse: is described for tables that hold no key twice.
- FixedTables.FixedTable.constructor: lists without entries, for which the source would divide by zero or read an entry that is not there.
- IdMaps.IdMap.Inject: is described for tables that were given no id twice, for the source would list entries that are not there; pointers in the lists are not NULL.
- Patterns.Pack: packed fields that hold texts or messages are not modelled; members do not overlap; doubles and floats are converted as IEEE 754 has it.
- PatternTrips.StructRoundTrip: texts come back as slices of the message, which are compared by what they hold.
- Registers.Registry.Register: the contents of a file besides its name and dependencies are not modelled, nor is reading the descriptor set; names asked for are not compared with NULL (`Registers.MayAsk`). When a name is held with NULL and with a pool, the set wants it and the table must grow, which of its entries a query finds afterwards depends on the hashes of all names; then it is only proved that loading ends and loads nothing that cannot be loaded. In a new environment these are the sets with a file `descriptor`, a file that depends on it or another one of that name, and in all two or more files whose dependencies can be had.
- Extensions.ProtoEnv.PushMessage: the name of a message is not compared with NULL (`Extensions.ProtoEnv.MayAsk`).
- Extensions.ProtoEnv.InitMessage: a message that is known and has no fields, for which the source would read an entry of an empty list, is not described.
- Extensions.Message.Push: when the table grows, which of several fields of one name a query gives is left open.
- Extensions.Message.MakeIndex: a message without fields, as for InitMessage.
- Logger.Logger.Append: lines are shorter than a buffer, as the callers see to, and an append is one atomic step.
- Logger.Logger.Write: the file is the sequence of bytes handed to it; it is taken to be open, and rolling and flushing it are not modelled, nor are log levels and time stamps.
- `struct buffer` keeps only the used part of its array; the rest of its four megabytes is not modelled.
- RMessages.Real: of an enum the source gives the words of its number and of a pointer as a double, which is not described.
- The reader finds the field of an id in a map; that the id table is one is proved in `IdMaps` and, for types that are extended, in `Extensions`.
- `_pbcC_open_packed` of context.c is not called by the code modelled, and decode.c repeats the packed loops of pattern.c.
- Default values parsed from text (`_set_default`) and name concatenation: they would only add simple members.
- The schema of schemas that the bootstrap loads: of it only the name of its file is modelled, as `Registers.Registry` holds it.
- `calc_hash`: tables are proved for any hash function.
- The parsing of pattern format strings and the sorting of pattern fields: patterns are taken sorted by id.
- The Lua bindings, the services and the Lua parts of the repository are not modelled.
