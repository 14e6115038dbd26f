# karbonit archives, modelled and proved in Dafny

karbonit turns a JSON document into a columnar form, gives every string an id in a dictionary,
writes both into an archive of offsets and markers, and reads strings back through a cache. This
project models that pipeline and the base64 coder beside it, and proves what each part is for.

The components, with the files that hold them:

* **The archive** (`Bytes`, `Memfile`, `ColumnDoc`, `Format`, `Writer`, `Scan`, `Reader`,
  `Limits`, `Index`, `Roundtrip`, `ReadLimits`, `Misreads`, `Lookup`, `Chain`, `Shift`, `Layout`). `Memfile`
  is the block of bytes with its cursor. `Writer` is the recursive serialiser, with the source's seeks, skips and
  patches; it is proved to write exactly the bytes that `Format` defines. `Reader` is the
  sequential reader, which builds a tree where the source prints; it is proved to compute what
  `Scan` defines. An object has 26 slots, in the order of the flag bits. Bytes that the writer copies
  from behind a vector come from memory, which can hold anything there. The main results are that
  the reader gives an object back, whatever memory holds, if and only if its numbers and counts fit
  their fields and it has no uint8 array elements (`Misreads.RoundTrips`), that every stored offset is
  where the scan meets its item (`Roundtrip.ObjReads`), and that the flags lead to the offset of each
  slot (`Lookup.SlotFound`). `Layout` says the markers, widths, flags and header fields of the format
  in numbers, without the names that writer and reader share.
* **Archive files** (`StringTable`, `Archive`, `Query`). The string table, the whole file,
  opening it again, the iterator over its strings and fetching a string by its id.
* **The dictionaries** (`Dictionary`, `SyncDict`, `GlobalId`, `Assignment`, `Scatter`,
  `Carriers`, `AsyncDict`). `Dictionary` says on values what the sequential dictionary does and proves its
  invariants over all runs; class `SyncDict` is the dictionary in place, with the Bloom filter.
  `Carriers` says what the carriers of the parallel dictionary amount to as one map; class
  `AsyncDict` works with threads whose steps are interleaved in any order.
* **The cache** (`Lru`, `Cache`, `StringCache`). `Lru` says which ids a bucket holds after a run
  of requests and when a request hits; class `LruList` is the linked list threaded through the entries, rewired in
  place; class `StringCache` is the cache with its counters.
* **Columns** (`Document`, `Columns`, `Rows`, `Faults`, `Lossless`, `Growth`, `Sizes`, `Importer`). What a
  document says is a multiset of facts: its scalars, arrays and objects, and of an array of objects every
  cell and the number of rows. `Columns` defines the columnar form of a document, class
  `ColumnDocObj` builds it step by step, and `Lossless.ImportLossless` says exactly when nothing is
  lost. `Sizes.FitsDoc` says of a document that its numbers and counts fit their fields.
* **The read-optimising sort** (`QuickSort`, `Reorder`, `Ordering`, `Sorter`). The index
  quicksort with its explicit stack, and the recursive sort of an object, which keeps what the object says.
* **Base64** (`Base64`, `Base64Laws`, `Base64Coder`). The resumable coders against section 4 of
  RFC 4648.
* **Numbers of nulls** (`NullWords`, `NullCopy`, `CopyFacts`). A number of nulls has 2 bytes in
  memory, and the writer copies 4. `Copied` relates the columns to everything that can be written
  of them: first the numbers, then the bytes behind them, which are zero as far as the vector was
  made to hold more numbers, and can be anything further on.
* **The whole way** (`TextDocs`, `Reading`, `Pipeline`). From a document with its strings to the
  bytes of an archive and back. `Reading` is what an archive says to its reader; the rows of an
  object array are the ids that the reader met. `Pipeline.StoredFacts` says exactly when the
  archive gives back what was written and says what the document said, whatever memory holds.

Integers are unbounded in the model; fields of the archive cut a number off to their width, as a
copy of a machine integer does. Bytes of an archive are little-endian. The base64 coders work on
8-bit vectors, and a negative signed character is one with its top bit set.

## Where the code does not do what it is for

The model follows the code, and the results say exactly where it falls short:

* Of a uint8 array 8 bytes are written for each value, the values and then what memory holds behind
  them, and 1 byte is read for each. Whether such an array comes back depends on memory: with zeros
  behind the values it does not (`Misreads.Uint8Misreads`), and `{"a":[1,2]}` comes back when a
  closing brace lies behind them (`Misreads.LoneArrayReads`).
* The number of object arrays of an object is written into 8 bits, so an object with more than 255 is
  never read back, from whatever bytes (`ReadLimits.OnlyFitting`).
* Slot 0 of a dictionary is handed out like any other, but extracting it gives the reserved
  string (`Dictionary.SlotZeroIsLost`, `Dictionary.ExtractInserted`).
* The string index does not implement removal, so a removed string keeps its index entry
  (`Dictionary.RemovedThenInserted`). The model has a switch, `forgets`, that says whether it
  does; the results say what holds with it and what without.
* Import loses something of a document that is not tidy (`Lossless.ImportLossless`): a key without
  values in a row of an object array is stored as one value, empty objects at the end of an object
  array are lost (`Rows.LengthKept`), and two object arrays of an object under one key run together.
  A number of nulls of 2^16 or more is cut off.
* Numbers of nulls, in arrays of more than one null and in nulls in the rows of object arrays, are
  vectors of 2-byte numbers of which 4 bytes each are copied. Two arrays of nulls in one object never
  come back right (`CopyFacts.TwoNeverKept`); a single null in a row comes back by chance, since its
  vector has just 2 bytes (`Pipeline.CopiesSay`). `{"a":[null,null],"b":[null,null]}` reads back 131074 first
  (`NullCopy.TwoNullArrays`), `{"a":[null,null]}` always comes back (`Pipeline.NullsComeBack`), and
  `{"r":[{"x":null},{"x":null}]}` need not (`Pipeline.NullRowsComeBack`).
* The number of keys that the parallel dictionary does not find includes the counters of carriers
  without work, which nobody has set (`AsyncDict.AsyncDict.LocateSafe`).
* The cache never serves id 0 while its bucket has an empty cell (`Lru.ServableExactly`).
* The iterator over the strings of an archive without strings meets the record header and fails
  (`Archive.OpenStrings`).
* Scanning for a string looks at the wrong flag, so of a text that goes over the end of the file it gives
  zeros for what is missing, where the index refuses it (`Query.IndexAgrees`).
* Arrays are compared position by position as far as both go, which is no order
  (`Ordering.PointwiseIsNoOrder`); the sort then keeps the values, but in no particular order.

## Model

| member | source | states |
|---|---|---|
| `Memory.Memfile.Write` | src/karbonit/mem/memfile.h:51-75 | the bytes land at the cursor, the cursor moves behind them, the block grows when it must, and no byte outside them changes |
| `Memory.Memfile.Skip` | src/karbonit/mem/memfile.h:319-341 | the cursor moves on over a gap whose bytes are arbitrary; everything in front stays |
| `Memory.Memfile.Seek` | src/karbonit/mem/memfile.h:202-219 | the cursor moves to any place, and a block that ends in front of it grows with zeros; otherwise nothing changes |
| `Memory.Memfile.Read` | src/karbonit/mem/memfile.h:290-295 | the n bytes at the cursor, or nothing when they pass the end; the cursor moves in both cases |
| `Memory.Memfile.Shrink` | src/karbonit/mem/memfile.h:275-288 | the block is cut off behind the last byte that was written |
| `Memory.Memfile.Patch` | src/karbonit/archive.c:513-520 | going back to a reserved slot, writing it and returning changes the slot only and leaves the cursor at the end |
| `Writer.Serialize` | src/karbonit/archive.c:1288-1341 | writes exactly the bytes of EncObj between the entry and the exit cursor and changes no other byte, after all seeks and patches; returns the place of the next field |
| `Writer.SkipPropOffsets` | src/karbonit/archive.c:1203-1286 | reserves one offset slot per flag that is set |
| `Writer.WriteProps` | src/karbonit/archive.c:836-942 | the property lists of all 26 slots in slot order, and the offset of each from the root |
| `Writer.WriteFixed` | src/karbonit/archive.c:774-798 | header, keys and fixed-width values of one slot |
| `Writer.WriteArrays` | src/karbonit/archive.c:642-668 | header, keys, lengths and values of the arrays of one slot; of uint8 arrays also the bytes behind them |
| `Writer.WriteArrayValues` | src/karbonit/archive.c:41-53 | what is copied of all arrays one after the other: values in the width of the slot, and of a uint8 array of n values these in n bytes and then the 7n bytes that memory holds behind them |
| `Writer.WriteLengths` | src/karbonit/archive.c:575-603 | the lengths of the arrays as 32-bit fields |
| `Writer.WriteNested` | src/karbonit/archive.c:805-834 | the nested objects behind an offset column that is filled in afterwards, each offset where its object starts |
| `Writer.WriteObjects` | src/karbonit/archive.c:559-573 | objects one after the other, and where each starts from the root |
| `Writer.WriteTable` | src/karbonit/archive.c:1019-1097 | the object arrays of an object: header, keys, offsets and column groups |
| `Writer.WriteGroups` | src/karbonit/archive.c:1041-1091 | every group behind the one before it, its offset patched into the reserved column |
| `Writer.FillSlot` | src/karbonit/archive.c:1070-1073 | patching one slot of a reserved offset column keeps what is around it |
| `Writer.WriteGroupHead` | src/karbonit/archive.c:1046-1068 | the number of objects is the largest position plus one, in 32 bits, and that many ids follow |
| `Writer.LargestPosition` | src/karbonit/archive.c:1047-1055 | the largest position of any column of the group |
| `Writer.WriteGroupColumns` | src/karbonit/archive.c:1075-1089 | the columns of a group behind their offset column |
| `Writer.WriteColumns` | src/karbonit/archive.c:1078-1089 | every column behind the one before it, its offset patched into the reserved column |
| `Writer.WriteColumn` | src/karbonit/archive.c:988-1017 | header, entry offsets, positions and entries of a column |
| `Writer.WriteEntries` | src/karbonit/archive.c:1005-1015 | every entry behind the one before it, its offset patched into the reserved column |
| `Writer.WriteEntry` | src/karbonit/archive.c:944-986 | element count and values; objects as a chain |
| `Writer.WriteChain` | src/karbonit/archive.c:965-980 | the next field of each object of a column entry holds the offset of the one after it, that of the last 0 |
| `Writer.Link` | src/karbonit/archive.c:969-975 | setting a next field changes that field only |
| `Writer.NextField` | src/karbonit/archive.c:1300-1302 | two serialisations of an object that differ in the next field differ in those eight bytes only |
| `Lookup.FlagBit` | src/karbonit/archive.c:2276-2307 | bit k of the flags is set if and only if slot k holds something, and the bits below it count the offsets stored in front of its own |
| `Lookup.SlotFound` | src/karbonit/archive/internal.c:24-106 | in the header of a written object bit k says whether slot k holds something, and then the offset behind those of the lower bits leads to the property list of slot k, which reads back from there |
| `Reader.ReadObj` | src/karbonit/archive.c:1754-2152 | the sequential reader over a cursor computes ScanObj, or fails where it fails |
| `Reader.ReadPropOffsets` | src/karbonit/archive/internal.c:24-106 | reads one offset per flag that is set, in slot order |
| `Reader.ReadItems` | src/karbonit/archive.c:1783-2147 | property lists until the end marker; any other byte is an error |
| `Reader.ReadHeadAndKeys` | src/karbonit/archive/internal.c:108-114 | a property header and its keys |
| `Reader.ReadNested` | src/karbonit/archive/internal.c:116-123 | keys and offsets, then objects for as long as the next byte opens one |
| `Reader.ReadLists` | src/karbonit/archive/internal.c:132-139 | keys, lengths, then that many values per array |
| `Reader.ReadTable` | src/karbonit/archive.c:1588-1669 | an object array: keys, offsets and column groups |
| `Reader.ReadGroup` | src/karbonit/archive.c:1621-1667 | a column group: ids, offsets and columns |
| `Reader.ReadColumn` | src/karbonit/archive.c:1472-1586 | a column: type marker, offsets, positions and entries |
| `Reader.ReadEntry` | src/karbonit/archive.c:1513-1584 | an entry of plain values, or of objects one after the other |
| `Roundtrip.ObjReads` | src/karbonit/archive.c:1288-1341 | reading the bytes of a typed and counted object gives it back, consumes exactly those bytes, every offset in them, at any depth, added to the root is where the scan met the item with its marker, and each object array has as many ids as rows |
| `Roundtrip.ItemReads` | src/karbonit/archive.c:774-834 | one property list reads back as it is |
| `Roundtrip.RowReads` | src/karbonit/archive.c:805-834 | a row of nested objects reads back, each at its stored offset |
| `Roundtrip.TableReads` | src/karbonit/archive.c:1019-1097 | the object arrays read back, every group, column and entry at its stored offset |
| `Roundtrip.ChainReads` | src/karbonit/archive.c:965-980 | the objects of a column entry read back and are linked in order |
| `Misreads.RoundTrips` | src/karbonit/archive.c:1288-1341 | the reader gives an object back from its bytes at any place, whatever memory holds behind vectors, if and only if every number fits its type, every count its field (8 bits for groups, 32 for the others), and no uint8 array has an element, at any depth |
| `ReadLimits.OnlyFitting` | src/karbonit/archive.c:1754-2152 | an object that is read back, from whatever bytes, has only numbers and counts that fit their fields, at any depth |
| `Misreads.Uint8Misreads` | src/karbonit/archive.c:605-640 | with zeros behind uint8 values their arrays are never read back right with a marker behind them: all bytes in front of the place where the reader stops, but those of the first array, are zero, and so is the byte there |
| `Misreads.LoneArrayReads` | src/karbonit/archive.c:41-53 | an object with just one uint8 array comes back when the first byte behind the values in memory is the end marker of an object, and reading it fails when that byte is no marker, as zero is |
| `Misreads.TableMisreads` | src/karbonit/archive.c:1025-1026 | more than 255 groups, or a misread column, is not read back, with zeros behind vectors |
| `Chain.FollowVisits` | src/karbonit/archive.c:965-980 | following the next fields from the first object of a column entry visits the objects in order and stops at the last, whatever is nested in them |
| `Chain.EntryChain` | src/karbonit/archive.c:944-986 | it visits exactly as many objects as the stored element count |
| `Shift.ObjMoves` | src/karbonit/archive.c:1288-1341 | the bytes of an object do not depend on where in the file it lies |
| `Layout.LittleEndian` | src/karbonit/archive.c:41-53 | byte k of a number is the number divided by 256^k, modulo 256 |
| `Layout.ListBytes` | src/karbonit/archive/internal.h:54-57 | a property list starts with the marker byte of its slot, the number of its entries and their keys; values are as wide as their type |
| `Layout.ArrayBytes` | src/karbonit/archive.c:612-640 | the values of arrays, uint8 excepted, are as wide as their type |
| `Layout.TableBytes` | src/karbonit/archive/internal.h:77-80 | the object arrays start with their marker, their number in one byte, and their keys |
| `Layout.GroupBytes` | src/karbonit/archive/internal.h:82-86 | a column group starts with its marker and the numbers of columns and rows, and for each row comes the id that was drawn for it |
| `Layout.ColumnBytes` | src/karbonit/archive/internal.h:88-93 | a column starts with its marker, its name, the marker byte of its type and the number of its entries; the rows come behind the offsets |
| `Layout.EntryBytes` | src/karbonit/archive.c:944-986 | an entry of a column has the number of its values and values as wide as their type |
| `Layout.ObjectBytes` | src/karbonit/archive/internal.h:48-52 | an object lies between braces; its id, its flags and its next field are where the header says |
| `Layout.FlagOfSlot` | src/karbonit/archive/internal.h:95-147 | bit k of the flags stands for slot k |
| `Layout.OneValue` | src/karbonit/stdinc.h:207-220 | all bytes of a document with one entry of one value, for each type but null and object: flag, marker, key and the value in the width of the type |
| `Layout.ObjectId` | src/karbonit/archive.c:1288-1341 | the id that is read of an object is the one drawn for it |
| `Layout.RowIds` | src/karbonit/archive.c:1060-1068 | the ids that are read of the rows of an object array are those drawn for them, in order |
| `Layout.ScanMarker` | src/karbonit/stdinc.h:205-232 | the reader takes a list for that of the slot whose marker byte it starts with, and refuses every other byte |
| `Layout.ScanColumnType` | src/karbonit/stdinc.h:220-232 | the reader takes a column for one of the type whose marker byte it names |
| `StringTable.WriteStringTable` | src/karbonit/archive.c:1389-1453 | writes exactly the bytes of EncTable for any packer that only appends, the header, with the packer flags, filled in last |
| `StringTable.EntryParts` | src/karbonit/archive/internal.h:379-384 | a string entry has the marker, the next field, the id, the length and the packed bytes at the places of its header |
| `StringTable.WriteStrs` | src/karbonit/archive.c:1422-1445 | every entry holds the offset of the one after it, the last one 0 |
| `StringTable.StridIter.Open` | src/karbonit/archive/strid_it.c:24-36 | the iterator starts at the first entry |
| `StringTable.StridIter.Next` | src/karbonit/archive/strid_it.c:38-70 | one call reports the next entries, as many as the buffer holds; none after the last one or at a byte that opens no entry |
| `StringTable.NextInfosRight` | src/karbonit/archive/strid_it.c:38-70 | on a written table one call reports the right ids, lengths and places, and stops where the following call starts |
| `StringTable.StridIter.VisitAll` | src/karbonit/archive/strid_it.c:38-70 | calling it until it stops, on any file on which it stops, gathers what the calls report |
| `StringTable.TableReported` | src/karbonit/archive/strid_it.c:38-70 | on a written table with strings it stops, and the calls report every string once, in table order, whatever room a call has |
| `Archive.FromModel` | src/karbonit/archive.c:370-413 | the whole archive: file header, string table, record header and root object, each offset and size right, nothing behind it; when asked to, with an index behind it and its place in the header |
| `Archive.BakedOpens` | src/karbonit/archive.c:296-368 | a baked-in index changes nothing that opening the archive finds and no byte behind the file header, which says where it lies |
| `Archive.OpenParts` | src/karbonit/archive.c:2319-2400 | what was written is found where the headers say, with the magic bytes, the version, the markers and both flag bytes as numbers; the place of an index is 0 |
| `Archive.OpenReads` | src/karbonit/archive.c:2486-2539 | the record block of a written archive, read on its own, gives a counted document back, with the index right from the start of the block, and with zeros behind vectors no other; the archive opens if and only if there is a packer for its table flags, and says the table and record flags that were written |
| `Archive.OpenFlags` | src/karbonit/archive.c:2448-2539 | opening an archive, with an index or without one, works if and only if there is a packer for its table flags, and gives the flags that were written |
| `Archive.OpenExactly` | src/karbonit/archive.c:2319-2400 | exactly which files open: magic bytes, version, table marker, a packer for the table flags, and a record that lies in the file |
| `Archive.AlwaysReturned` | src/karbonit/archive.c:2486-2539 | the record of a written archive gives a document back, whatever memory holds behind vectors, if and only if it is typed and counted and there is a packer for the flags of its string table |
| `Archive.OpenStrings` | src/karbonit/archive.c:2486-2512 | the iterator opened on a written archive finds the table and, called until it stops, reports its strings; if and only if there are none it meets the record header instead and fails |
| `Query.FetchByScan` | src/karbonit/archive/query.c:199-244 | on any file where that comes to an end, by an entry with the id or by the end of the entries, scanning finds the first entry with the id, in whatever portions the iterator reports |
| `Query.CreateIndex` | src/karbonit/archive/query.c:90-129 | on any file whose entries end, one scan builds the index of the last entry per id |
| `Query.FetchesOwnText` | src/karbonit/archive/query.c:246-295 | with distinct ids the scan and the index both give a string its own text |
| `Query.FetchesNothingElse` | src/karbonit/archive/query.c:246-295 | neither finds an id that is not in the table |
| `Query.IndexAgrees` | src/karbonit/archive/query.c:199-272 | on entries with distinct ids scan and index find the same for an id if and only if the text of its entry starts in front of the end of the file and does not go over it; otherwise the index refuses it and the scan gives zeros for what is missing |
| `Dictionary.CreateOk` | src/karbonit/archive/encode_sync.c:118-138 | a new dictionary has all slots on the free list and knows nothing |
| `Dictionary.InsertAllOk` | src/karbonit/archive/encode_sync.c:197-301 | a batch with repeated keys keeps the slots right and the index exact, changes no earlier id or string, adds the keys and nothing else, and reports for each key the id the index then has for it |
| `Dictionary.RemoveOneOk` | src/karbonit/archive/encode_sync.c:303-341 | removal keeps every live string findable under its own slot; the index stays in step exactly when it forgets the string or the slot was unused |
| `Dictionary.RemoveAllOk` | src/karbonit/archive/encode_sync.c:303-341 | over a batch with repeated ids the index stays in step if and only if it forgets removed strings or no id was in use |
| `Dictionary.RemoveAllForgets` | src/karbonit/archive/encode_sync.c:303-341 | what the index still knows after a batch of removals |
| `Dictionary.RemoveAllShrinks` | src/karbonit/std/str_hash/mem.c:330-349 | a removal teaches the index nothing |
| `Dictionary.RemovedThenInserted` | src/karbonit/std/str_hash/mem.c:330-349 | the index of this repository does not drop removed strings: inserting one again reports a slot that is not in use |
| `Dictionary.RunOk` | src/karbonit/archive/encode_sync.c:197-341 | over all runs: the free list is duplicate-free and holds exactly the unused slots, free plus live is the contents length, live strings are found under their own slot; the index is the bijection between live strings and used slots if and only if it forgets removed strings or no live one was removed |
| `Dictionary.Injective` | src/karbonit/archive/encode_sync.c:197-301 | strings share an id if and only if they are equal |
| `Dictionary.ExtractInserted` | src/karbonit/archive/encode_sync.c:378-404 | extracting a reported id gives the string back if and only if the id is not 0, or the string is the one 0 stands for |
| `Dictionary.SlotZeroIsLost` | src/karbonit/archive/encode_sync.c:396-399 | the string that gets slot 0 is lost on extraction |
| `Dictionary.FreshIds` | src/karbonit/archive/encode_sync.c:123-164 | a new dictionary of n slots gives new strings the ids n - 1, n - 2 and so on |
| `Dictionary.GrownId` | src/karbonit/archive/encode_sync.c:146-164 | when no slot is free, a new string gets the last slot of the grown vector |
| `Dictionary.LastFreed` | src/karbonit/archive/encode_sync.c:146-172 | the slot that was freed last is used first |
| `SyncDict.SyncDict.constructor` | src/karbonit/archive/encode_sync.c:118-138 | the new object is the new dictionary |
| `SyncDict.SyncDict.FreelistPop` | src/karbonit/archive/encode_sync.c:146-164 | takes the last free slot; slots and free list grow first when there is none |
| `SyncDict.SyncDict.Insert` | src/karbonit/archive/encode_sync.c:197-301 | for any bit positions of the Bloom filter and any batch, skipping the index lookup on a negative answer gives the same dictionary and ids as always looking up |
| `SyncDict.SyncDict.Remove` | src/karbonit/archive/encode_sync.c:303-341 | frees the slots that are in use and tells the index, as RemoveAll does |
| `SyncDict.SyncDict.LocateSafe` | src/karbonit/std/str_hash/mem.c:190-222 | per key whether it is known and its id, all bits set for an unknown one and 0 for a null key; the count is the number of keys that are not found |
| `SyncDict.SyncDict.Extract` | src/karbonit/archive/encode_sync.c:378-404 | the strings of the ids, in order, with the reserved string for id 0 |
| `SyncDict.SyncDict.GetContents` | src/karbonit/archive/encode_sync.c:434-447 | the live strings with their ids, in slot order |
| `SyncDict.ListingOk` | src/karbonit/archive/encode_sync.c:434-447 | every live string is listed exactly once with its id, and nothing else is |
| `SyncDict.ListingDistinct` | src/karbonit/archive/encode_sync.c:434-447 | no string is listed twice |
| `GlobalId.PartsBack` | src/karbonit/archive/encode_async.c:80-87 | an id made of an owner and a local id gives them back if and only if they fit 10 and 54 bits |
| `GlobalId.PartsMake` | src/karbonit/archive/encode_async.c:80-87 | every 64-bit id is made of the parts it gives |
| `GlobalId.Distinct` | src/karbonit/archive/encode_async.c:80-87 | different parts that fit give different ids |
| `GlobalId.InNumbers` | src/karbonit/archive/encode_async.c:80-87 | an id is the owner times 2^54 plus the local id, for 1024 owners and local ids below 2^54 |
| `Assignment.ChunksPartition` | src/karbonit/std/async.c:179-215 | every string lies in the chunk of one worker and in no other |
| `Assignment.ChunksEven` | src/karbonit/std/async.c:179-215 | every worker but the calling thread has the same number of strings, the largest that one more worker than there are threads can each have |
| `Assignment.Workers.Step` | src/karbonit/archive/encode_async.c:342-362 | one atomic step of any worker keeps the partial counts right and brings the end nearer |
| `Assignment.Workers.Run` | src/karbonit/archive/encode_async.c:309-377 | for every interleaving the mapping of each string is its hash modulo the thread count, each counter is the number of strings mapped to its carrier, and the counters sum to the batch size |
| `Assignment.SharesAddUp` | src/karbonit/archive/encode_async.c:309-377 | the carriers' counts add up to the strings counted |
| `Scatter.Spread` | src/karbonit/archive/encode_async.c:379-510 | each carrier's list is its share of the batch in order, and each element's place in it is noted |
| `Scatter.ShareAt` | src/karbonit/archive/encode_async.c:379-510 | an element is found in its carrier's share at the noted place |
| `Scatter.ShareHolds` | src/karbonit/archive/encode_async.c:379-510 | a share holds its carrier's elements and nothing else |
| `Carriers.InsertedOk` | src/karbonit/archive/encode_async.c:379-510 | a batch acts on one map: it adds the batch's strings and nothing else, changes no id, and reports each string's id at the string's position |
| `Carriers.RemovedOk` | src/karbonit/archive/encode_async.c:512-573 | a batch of removals acts on one map: exactly the removed strings go when the carriers' indexes forget them, and the carriers stay in step if and only if they forget or nothing live was removed |
| `Carriers.RemovedSound` | src/karbonit/archive/encode_async.c:512-573 | in step or not, removal keeps every carrier sound, gives no string another id, and ends in step if and only if it began so and the indexes forget or nothing live was removed |
| `Carriers.RunOk` | src/karbonit/archive/encode_async.c:379-573 | over every run of batches the carriers stay sound, no batch gives a string another id, and they are one exact map if and only if their indexes forget removed strings or no batch removed a live one |
| `Carriers.IdsDiffer` | src/karbonit/archive/encode_async.c:80-87 | known strings share an id if and only if they are equal |
| `Carriers.IdParts` | src/karbonit/archive/encode_async.c:80-87 | an id leads back to the carrier and the slot of its string |
| `Carriers.IdInNumbers` | src/karbonit/archive/encode_async.c:80-87 | the id of a known string is its hash code modulo the number of carriers, times 2^54, plus its slot there |
| `Carriers.KnownReadsBack` | src/karbonit/archive/encode_async.c:720-798 | the id of a known string reads back as the string if and only if its local part is not 0, or the string is the one 0 stands for |
| `Carriers.ContentsKnown` | src/karbonit/archive/encode_async.c:826-865 | what is listed is known under the listed id |
| `Carriers.ContentsDistinct` | src/karbonit/archive/encode_async.c:826-865 | no string is listed twice over all carriers |
| `Carriers.KnownListed` | src/karbonit/archive/encode_async.c:826-865 | every known string is listed with its id |
| `AsyncDict.AsyncDict.constructor` | src/karbonit/archive/encode_async.c:931-959 | the carriers start empty and sound |
| `AsyncDict.AsyncDict.AssignCarriers` | src/karbonit/archive/encode_async.c:364-377 | every key is mapped by the workers to its hash code modulo the number of carriers |
| `AsyncDict.AsyncDict.Insert` | src/karbonit/archive/encode_async.c:379-510 | for every interleaving of the carriers' threads a batch has the effect of InsertedOk, ids in input order, and is a step of the runs of RunOk; above the lower 54 bits each id says the hash code of its key modulo the number of carriers |
| `AsyncDict.AsyncDict.RunInserts` | src/karbonit/archive/encode_async.c:203-235 | threads interleaved string by string leave each carrier as if it had inserted its share alone |
| `AsyncDict.AsyncDict.Remove` | src/karbonit/archive/encode_async.c:512-573 | for every interleaving a batch acts on one map: exactly the removed strings go when the indexes forget them, no id changes, and the map stays in step if and only if they forget or nothing live was removed; it is a step of the runs of RunOk |
| `AsyncDict.AsyncDict.LocateSafe` | src/karbonit/archive/encode_async.c:575-698 | found if and only if known, and then with the one id, in input order; the number of keys not found is that of the false flags but for the counters of carriers without work, which hold whatever memory held |
| `Scatter.SharesMiss` | src/karbonit/archive/encode_async.c:664-667 | every key not found is counted in the share of one carrier |
| `AsyncDict.IdleCarriers` | src/karbonit/archive/encode_async.c:664-667 | the counters that are added without having been set are those of the carriers without a key, each once |
| `AsyncDict.AsyncDict.Extract` | src/karbonit/archive/encode_async.c:720-798 | the strings of the ids, in input order |
| `AsyncDict.AsyncDict.GetContents` | src/karbonit/archive/encode_async.c:826-865 | the live strings of all carriers with their compound ids |
| `Cache.LruList.InitList` | src/karbonit/archive/cache.c:46-56 | a new bucket is one list of 1024 empty cells |
| `Cache.LruList.MakeMostRecent` | src/karbonit/archive/cache.c:93-110 | moving an entry to the front keeps one acyclic list that visits all 1024 entries once, next and prev inverse for all but the head, whose prev may be stale |
| `Cache.LruList.Search` | src/karbonit/archive/cache.c:117-125 | the first entry with the id, or the end of the list |
| `Cache.LruList.Reuse` | src/karbonit/archive/cache.c:128-133 | the least recent entry is given to the id and becomes the most recent one |
| `Cache.AllOnList` | src/karbonit/archive/cache.c:46-56 | every entry is on the list |
| `Cache.MovedLinked` | src/karbonit/archive/cache.c:93-110 | the rewired pointers form the list with the entry moved to the front |
| `Cache.MovedCells` | src/karbonit/archive/cache.c:93-110 | so do the ids and strings |
| `Lru.RequestHolds` | src/karbonit/archive/cache.c:112-136 | one more request keeps the bucket holding the most recent ids in order |
| `Lru.RunHolds` | src/karbonit/archive/cache.c:112-136 | after every run of requests that can be served a bucket holds exactly the most recently requested distinct ids, at most 1024, in order of last request, then empty cells |
| `Lru.ServableExactly` | src/karbonit/archive/cache.c:117-128 | a request can be served if and only if its id is not 0 or the bucket is full: id 0 otherwise meets an empty cell |
| `Lru.HitExactly` | src/karbonit/archive/cache.c:112-136 | a request hits if and only if its id was requested before and fewer than 1024 distinct other ids have been since |
| `StringCache.BucketRuns` | src/karbonit/archive/cache.c:112-117 | each bucket lives through its own requests only |
| `StringCache.Transparent` | src/karbonit/archive/cache.c:112-136 | after every run a get returns what the archive holds for the id |
| `StringCache.Conserved` | src/karbonit/archive/cache.c:112-148 | over every run hits plus misses is the number of gets, and misses is evictions plus occupied cells over all buckets |
| `StringCache.StringCache.CreateLru` | src/karbonit/archive/cache.c:66-85 | as many buckets as the capacity, at least one, all of empty cells, counters 0 |
| `StringCache.CacheHits` | src/karbonit/archive/cache.c:112-136 | over the whole cache of n buckets a get is counted as a hit, and otherwise as a miss, if and only if its id was requested before and fewer than 1024 distinct ids whose hash codes differ from its own by a multiple of n have been requested since; a hit evicts nothing |
| `StringCache.StringCache.Get` | src/karbonit/archive/cache.c:112-136 | one get does what Serve does and returns what Answer says; only the bucket with the number of the hash code modulo the number of buckets changes, and the id is then at its front |
| `Importer.ColumnDocObj.Setup` | src/karbonit/archive/column_doc.c:1072-1158 | an object without properties |
| `Importer.ColumnDocObj.ImportObject` | src/karbonit/archive/column_doc.c:1421-1433 | putting the entries one by one gives ImportDoc |
| `Importer.ColumnDocObj.PutEntry` | src/karbonit/archive/column_doc.c:1385-1419 | an entry counts as null without values, as a property with one, as an array with more |
| `Importer.ColumnDocObj.PutOne` | src/karbonit/archive/column_doc.c:1160-1231 | one value goes to the slot of its type, an object becomes a nested object |
| `Importer.ColumnDocObj.PutSeveral` | src/karbonit/archive/column_doc.c:1248-1383 | several values go to the array slot of their type, objects into columns |
| `Importer.ColumnDocObj.PutRows` | src/karbonit/archive/column_doc.c:1354-1376 | every pair of every row goes to the column of its name and type |
| `Importer.ColumnDocObj.PutPair` | src/karbonit/archive/column_doc.c:960-1070 | a value and its row are pushed onto the column that was found or made, and nothing else changes |
| `Importer.ColumnDocObj.FindGroup` | src/karbonit/archive/column_doc.c:967-989 | the first group of the key |
| `Importer.ColumnDocObj.FindColumn` | src/karbonit/archive/column_doc.c:972-980 | the first column of the name and type |
| `Importer.ColumnDocObj.ColumnEntry` | src/karbonit/archive/column_doc.c:1011-1068 | what a column stores of a pair, 1 of a pair without values |
| `Lossless.ImportFilled` | src/karbonit/archive/column_doc.c:1011-1028 | a pair without values is stored as the value 1: the columns of a document are those of the document with 1, or one null, in every such pair, at any depth |
| `Growth.ImportGrows` | src/karbonit/archive/column_doc.c:1160-1433 | importing only appends: after more entries all keys, values, arrays, objects, groups, columns, rows and cells are still in the same places |
| `Importer.AddCellAt` | src/karbonit/archive/column_doc.c:960-1070 | pushing into the found group and column is the whole effect |
| `Rows.LengthKept` | src/karbonit/archive.c:1046-1058 | an object array whose key has no group yet gets one, and keeps its length, found by the writer as the largest row plus one, if and only if its last object is not empty |
| `Rows.EntriesSound` | src/karbonit/archive/column_doc.c:960-1070 | an object has one group per key, no group without a cell, and only for the keys of its object arrays |
| `Rows.SameRows` | src/karbonit/archive.c:1046-1058 | columns with the same cells have the same number of rows |
| `Faults.DocFaults` | src/karbonit/archive/column_doc.c:1002-1070 | a document says something that columns or archives cannot hold if and only if it is not tidy (a key without values in a row, an empty last row, two object arrays under one key) or, for the other faults, has a number of nulls of w or more, a single null in a row, two arrays of nulls in one object, or an array of uint8 values, at any depth |
| `Document.DocsSay` | src/karbonit/archive/column_doc.c:1421-1433 | what the entries of a document say adds up |
| `Document.EntrySays` | src/karbonit/archive/column_doc.c:1385-1419 | what one entry says: its key, its type, its value or values, or an object |
| `Document.RowsSay` | src/karbonit/archive/column_doc.c:1344-1378 | what an object array says: a cell for each pair, with the number of its row, and the number of rows |
| `Document.PairSays` | src/karbonit/archive/column_doc.c:1002-1070 | what a pair of a row says: its values, its number of nulls, or its objects |
| `Faults.RaggedExactly` | src/karbonit/archive/column_doc.c:1344-1378 | what the entries of an object say lacks a cell in a last row, or has two numbers of rows for one key, if and only if a last row is empty or two object arrays share a key |
| `Lossless.ImportKeeps` | src/karbonit/archive/column_doc.c:1421-1433 | import keeps every fact, the number of rows of each object array included, of a tidy document whose numbers of nulls have 16 bits |
| `Lossless.ImportFaultless` | src/karbonit/archive/column_doc.c:1002-1070 | the columnar form never has an empty cell, a last row without cells or two object arrays under one key, and no number of nulls over 16 bits |
| `Lossless.ImportLossless` | src/karbonit/archive/column_doc.c:1160-1433 | the columnar form says what the document says, cells and numbers of rows, at any depth, if and only if the document is tidy and each of its numbers of nulls has 16 bits |
| `Lossless.SoundNotRagged` | src/karbonit/archive.c:1046-1058 | the row that the writer counts up to has a cell, and a key has one number of rows |
| `QuickSort.Partition` | src/karbonit/utils/sort.h:48-63 | what is at most the pivot lies in front of it, the rest behind it, and nothing moves out of or into the span |
| `QuickSort.SortIndices` | src/karbonit/utils/sort.c:21-55 | whatever the comparator answers the result is a permutation, the work ends, and the stack of one cell per index is not overrun; if the comparator is a total order of the indices they end up in it |
| `QuickSort.StackFits` | src/karbonit/utils/sort.c:29-34 | pending spans never need more stack cells than there are indices |
| `QuickSort.OrderedSplit` | src/karbonit/utils/sort.c:36-51 | elements that no pending span holds both of are in order after a partition too |
| `Ordering.PickOrdered` | src/karbonit/archive/doc.c:865-895 | when the indices are in order, so are the elements they pick |
| `Ordering.PointwiseIsNoOrder` | src/karbonit/archive/doc.c:778-792 | the comparison of arrays, position by position as far as both go, is neither total nor transitive |
| `Ordering.PointwiseOrders` | src/karbonit/archive/doc.c:778-792 | on arrays of one element each it is a total order |
| `Reorder.SumPermuted` | src/karbonit/archive/doc.c:865-895 | the sum of what the elements say does not depend on their order |
| `Reorder.FixedPermuted` | src/karbonit/archive/doc.c:865-895 | keys and values picked by the same permutation say the same |
| `Reorder.ArraysPermuted` | src/karbonit/archive/doc.c:935-964 | keys and arrays picked by the same permutation say the same |
| `Reorder.CellsPermuted` | src/karbonit/archive/doc.c:1102-1137 | positions and entries picked by the same permutation say the same |
| `Reorder.ColumnsPermuted` | src/karbonit/archive/doc.c:1139-1188 | columns in any order say the same |
| `Reorder.GroupsPermuted` | src/karbonit/archive/doc.c:1139-1188 | groups in any order say the same |
| `Sorter.SortScalars` | src/karbonit/archive/doc.c:865-895 | the object says the same, no other slot changes, and the values are sorted wherever the comparator is an order |
| `Sorter.SortArrays` | src/karbonit/archive/doc.c:935-964 | the same for arrays |
| `Sorter.SortColumn` | src/karbonit/archive/doc.c:1102-1137 | a column keeps its (position, values) pairs, name and type, and its entries are sorted wherever the comparator is an order |
| `Sorter.SortColumnArrays` | src/karbonit/archive/doc.c:1139-1188 | the object arrays say the same, groups are sorted by key, the columns of each by name and type, and the entries of each column that holds no objects by their values, wherever the comparators are orders |
| `Sorter.SortValues` | src/karbonit/archive/doc.c:1190-1273 | every slot is sorted and the object says the same |
| `Sorter.SortEntries` | src/karbonit/archive/doc.c:1275-1282 | the recursive sort keeps all facts of an object, at any depth, what fits its fields still fits, and it leaves every list in it, at any depth, in the order of its comparator wherever that is an order |
| `Ordering.OrderedMeans` | src/karbonit/archive/doc.c:1190-1282 | what is in order in a sorted object: scalars, arrays, object arrays, columns, the entries of columns, and all of these in the objects in it |
| `Sorter.SortNestedInArrays` | src/karbonit/archive/doc.c:835-863 | sorting the objects in columns keeps the order of groups and columns |
| `Base64.EncodeRanges` | libs/libb64/cencode.c:20-27 | the encoding table is the alphabet of section 4 of RFC 4648 |
| `Base64.DecodeRanges` | libs/libb64/cdecode.c:18-33 | exactly the characters of the alphabet have a value, for all 256 characters, with the wrapping subtraction of the table lookup |
| `Base64.DecodeEncode` | libs/libb64/cdecode.c:18-33 | decoding the digit of a value gives the value |
| `Base64.EncodeDecode` | libs/libb64/cdecode.c:18-33 | encoding the value of a digit gives the digit |
| `Base64Laws.EncSplit` | libs/libb64/cencode.c:37-98 | a block in two parts is encoded as in one |
| `Base64Laws.DecSplit` | libs/libb64/cdecode.c:42-105 | a block in two parts is decoded as in one |
| `Base64Laws.EncodesRfc4648` | libs/libb64/cencode.c:37-124 | block and end together are section 4 of RFC 4648, from any group boundary |
| `Base64Laws.StreamIsRfc4648` | libs/libb64/cencode.c:37-124 | for any split into blocks the encoder writes section 4 of RFC 4648 of the joined bytes |
| `Base64Laws.Rfc4648Examples` | libs/libb64/cencode.c:37-124 | the reference encoding gives three examples of section 10 of RFC 4648 |
| `Base64Laws.EncodedLengths` | libs/libb64/cencode.c:37-124 | floor(4k/3) characters after k bytes, 4*ceil(k/3) after the end |
| `Base64Laws.DecodedLength` | libs/libb64/cdecode.c:42-105 | floor(3k/4) bytes after k characters of the alphabet |
| `Base64Laws.OnlyDigits` | libs/libb64/cdecode.c:56-64 | output and state depend on the characters of the alphabet only |
| `Base64Laws.DecodesRfc4648` | libs/libb64/cdecode.c:42-105 | decoding section 4 of RFC 4648 gives the bytes back |
| `Base64Laws.RoundTrip` | libs/libb64/cdecode.c:42-105 | bytes encoded in any blocks, with any other characters put in and decoded in any blocks, come back |
| `Base64Laws.Reencodes` | libs/libb64/cdecode.c:42-105 | encoding what characters decode to gives their digits back if and only if the last group is not a single digit and its spare bits are zero |
| `Base64Coder.Encoder.EncodeBlock` | libs/libb64/cencode.c:37-98 | writes exactly the characters of the block at the front of the buffer, changes nothing behind them, and keeps the state for the next call |
| `Base64Coder.Encoder.EncodeBlockEnd` | libs/libb64/cencode.c:100-124 | writes the last digit and the padding |
| `Base64Coder.Decoder.DecodeBlock` | libs/libb64/cdecode.c:42-105 | writes exactly the bytes of the block at the front of the buffer, changes nothing past the index it returns, and keeps the state for the next call |
| `Base64Coder.CleanBlock` | libs/libb64/cdecode.c:52-64 | what the buffer held at a group boundary does not matter to later blocks |
| `Reading.ScanSays` | src/karbonit/archive.c:1588-1669 | what the reader meets in an archive whose index is right, each object array with as many rows as it has ids, is what the rebuilt object says |
| `NullWords.WrittenBytes` | src/karbonit/archive.c:41-45 | of n numbers of nulls in memory the archive gets their 2n bytes and then the 2n bytes behind them |
| `NullWords.FrontWord` | src/karbonit/archive.c:605-611 | a number in the front half is made of two numbers of nulls |
| `NullWords.OneWord` | src/karbonit/std/vec.c:68-76 | a single number of nulls comes back, below 2^16, from a vector that was made for two |
| `NullWords.LastWordZero` | src/karbonit/archive.c:605-611 | with zeros in memory the last of several numbers of nulls becomes 0 |
| `NullWords.OneBehind` | src/karbonit/archive/column_doc.c:1011-1028 | with ones in memory a single number of nulls in a vector made for one becomes too large |
| `NullCopy.FiveArrays` | src/karbonit/archive/column_doc.c:1129 | up to five numbers of null arrays are written the same whatever memory holds, and six to ten are not |
| `NullCopy.CopyKeeps` | src/karbonit/archive.c:605-611 | a copy is valid and as long as the object, and fits its fields if the object does |
| `NullCopy.TwoNullArrays` | src/karbonit/archive.c:605-611 | of two arrays of two nulls the archive says 131074 first, whatever lies in memory |
| `CopyFacts.CrowdedSlot` | src/karbonit/archive/column_doc.c:1256-1262 | an object says that it has more than one array of nulls if and only if it has more than one |
| `CopyFacts.OneCopy` | src/karbonit/archive.c:944-955 | an object without two arrays of nulls and without numbers over 16 bits, at any depth, is a copy of itself, and its only one if no row has a single null |
| `CopyFacts.CopySays` | src/karbonit/archive.c:944-955 | of an object with two arrays of nulls, at any depth, there is a copy that says of an array that it has no nulls, and of one with a single null in a row a copy that says a number over 16 bits |
| `CopyFacts.TwoNeverKept` | src/karbonit/archive.c:605-611 | of two arrays of nulls, the second with a number that 16 bits do not make 0, every copy says a number over 16 bits, whatever memory holds |
| `Sizes.ImportFits` | src/karbonit/archive/column_doc.c:1421-1433 | the columns of a document whose numbers and counts fit have only numbers and counts that fit, at any depth: keys, groups, columns, entries and values |
| `Sizes.CountedExactly` | src/karbonit/archive.c:605-640 | columns whose numbers and counts fit are typed, and counted if and only if they say nothing of an array of uint8 values, at any depth; counted columns never do |
| `TextDocs.EncodeTyped` | src/karbonit/archive/doc.c:1284-1314 | whether a document is typed does not depend on its ids |
| `TextDocs.EncodedEntry` | src/karbonit/archive/doc.c:1284-1314 | entry by entry keys and texts are replaced by their ids and all else stays |
| `TextDocs.StringsInOrder` | src/karbonit/archive/doc.c:1284-1314 | keys and texts are inserted in the order of the entries |
| `TextDocs.StringsWithin` | src/karbonit/archive/doc.c:1284-1314 | the key of an entry comes before the keys of the documents in it |
| `TextDocs.EncodeDiffers` | src/karbonit/archive/doc.c:1284-1314 | under ids that tell strings apart different documents stay different |
| `Pipeline.Store` | src/karbonit/archive.c:208-292 | the strings of a document go into the dictionary in two batches, the keys first; the document is turned into columns under its ids, sorted if asked to, and written with the contents of that dictionary: the columns say what the import says, fit if the document does, are in order when sorted, what is written is a copy of them, and the archive that it opens as says sorted if and only if it was asked to be |
| `Pipeline.CopiesSay` | src/karbonit/archive.c:605-611 | every copy of the columns says what the document says if and only if the document is tidy, its numbers of nulls have 16 bits, and, at any depth, no object has two arrays of more than one null and no row of an object array a single null; and then the columns have just one copy, themselves |
| `Pipeline.NullsComeBack` | src/karbonit/archive/column_doc.c:1256-1262 | an array of 2 to 65535 nulls alone comes back whatever lies in memory |
| `Pipeline.NullRowsComeBack` | src/karbonit/archive/column_doc.c:1011-1028 | two rows with a key of n nulls come back whatever lies in memory if and only if n is not one |
| `Pipeline.LoneImported` | src/karbonit/archive/column_doc.c:1302-1307 | the columns of a document with just a uint8 array are those of Misreads.LoneArrayReads |
| `Pipeline.StoredFacts` | src/karbonit/archive.c:208-292 | the record of a stored document, sorted or not, gives back what was written and says what the document said, rows counted by ids, whatever memory holds behind numbers of nulls and uint8 values, if and only if the columns fit their fields, the document is tidy, its numbers of nulls have 16 bits, and, at any depth, no object has two arrays of more than one null, no row of an object array a single null, and no object an array of uint8 values |
| `Pipeline.DocumentsApart` | src/karbonit/archive/doc.c:1284-1314 | documents whose strings a dictionary knows are encoded alike only if they are the same |
| `Pipeline.TableFits` | src/karbonit/archive/doc.c:63-80 | the table of all known strings has distinct ids that fit their fields |
| `Pipeline.StoredStrings` | src/karbonit/archive/query.c:275-295 | in an archive whose table is a dictionary's contents every known string is fetched by its id, by scan and by index |
| `Pipeline.StringsApart` | src/karbonit/archive/query.c:275-295 | known strings fetch the same text by their ids only if they are the same |

## Left out

- Pipeline.StoredFacts: stated for archives of less than 2^64 bytes. That the columns fit, part of its condition, is what `Pipeline.Store` promises for documents whose numbers and counts do (`Sizes.FitsDoc`).
- Pipeline.Store: the parallel dictionary; the program can also use the sequential one. Strings are stored as they are.
- Query.FetchByScan: stated for files where the scan comes to an end, by an entry with the id or by the end of the entries; on a cycle of entries without the id the source's scan does not.
- Query.CreateIndex: stated for files whose entries end, since it visits all of them.
- StringTable.StridIter.VisitAll: the same.
- Importer.ColumnDocObj.PutPair: not stated for an object-typed pair without values, of which the source copies the bytes of an object out of a 4-byte variable.
- Importer.ColumnDocObj.ColumnEntry: the same.
- StringCache.StringCache.Get: not stated for id 0 while the bucket has an empty cell, where the source duplicates a null string; `Lru.ServableExactly` says which requests these are.
- AsyncDict.AsyncDict.Insert: threads are interleaved string by string; a carrier's own dictionary is locked during a step.
- Assignment.Workers.Run: the two atomic additions of a string are separate steps; anything finer is not modelled.
- StringCache.Transparent: stated for runs of requests that can be served; `Lru.ServableExactly` says which those are.
- NullCopy.CopyEntry: a cell of 65537 nulls, or 65536 more, stores 1 like a cell of one null, but in a vector with more place; the model gives it the place of one null, and `Pipeline.CopiesSay` leaves numbers of nulls over 16 bits out either way.
- Writer.WriteArrayValues: the byte behind the values of a uint8 array is an arbitrary function of the place it is written to; that vectors next to each other in memory share bytes is not modelled.
- A pair without values in a column: for types wider than 4 bytes the source copies more than the number 1; the model stores the number.
- The ids of a document's strings are looked up in the dictionary as a function, after both batches are in, where the source asks for a few at a time.
- Nested objects of a column are built apart and then stored, where the source builds them in the vector.
- Object ids are an arbitrary function of the place they are written at; how they are drawn is not modelled.
- Bloom filter: each string has an arbitrary set of bit positions; the bitmap itself, and its shifts past 32 bits, are not modelled.
- Hash functions are arbitrary functions; the buckets inside a string index are a map.
- Packers other than the one that stores strings as they are: only that they append bytes; the Huffman packer does not decode in the source.
- The base64 line wrapping that a compile switch turns on, and the counter it uses.
- `carbon/binary.c`, which calls the base64 encoder on two bytes more than it has and sends the end of the stream to the wrong place.
- The hash table that a string id index is stored as: its bytes are a parameter of `Archive.FromModel`.
- Choosing a number type when JSON is imported, where unsigned numbers can be narrowed; JSON parsing, traversal, revision and visitors.
- The counter of distinct strings, which counts slots.
- That a record block starts with an opening brace: the source sets a status for it that it does not use, so opening does not depend on it.
- Files, temporary files, printing, callbacks, the command-line tool, allocation failure, freeing, locks, timing.
