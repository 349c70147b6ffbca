# Dolt storage core in Dafny

A Dafny 4.11 model of the storage core of Dolt (`go/store`) and proofs about it. `dafny verify dfyconfig.toml` checks
the whole project.

The model has five parts.

**Table files.** A table is a sequence of encoded chunks followed by an index. `TableWriter` and `MemTable` write one
into a byte array; `OffsetsReader` and `TableIndex` parse the index in place, turning 4-byte lengths into 8-byte running
offsets inside the buffer they are read from; `TableReader` and `ReadBatches` look chunks up, by binary search and by
merge scans, and read them in batches; `ConjoinPlan`, `Conjoin` and `Upload` merge several tables into one without
decoding a chunk. `RoundTrip` puts writing, conjoining, parsing and reading together. Bytes are numbers below 256,
arrays are arrays, and 32- and 64-bit wrap-around is written out where it can matter.

**The manifest protocol.** `ManifestProtocol` is a state machine. Any number of stores in any number of processes put
chunks, flush, rebase, commit, conjoin and add tables. Every step makes at most one access to what stores share: the
persisted manifest, the table files, and the cache and fetch lock of a process. `ManifestRuns` has the theorems about
every run; `ManifestProgress` says when operations end and that those left alone do what they are for. `BlockStore` is
the same store as a class, on a manifest nobody else writes meanwhile, and shows that its loops end; `Conjoiner` chooses
the tables to conjoin; `ManifestCache` is the cache with its size budget. `StoredTables` ties the two parts together:
what the protocol takes a table file to hold is what the bytes written, conjoined and read back hold.

**The commit graph and dataset heads.** `CommitGraph` has commits, heights and the height-ordered queue;
`AncestorSearch` the searches for a common ancestor by parents and by closures; `CommitClosures` the eager, the lazy and
the stored closure of a commit; `Datasets` the edits of dataset heads and every run of clients that make them through an
optimistically updated root; `Database` the update loop as code; `DatasetProgress` shows that a client left alone is
that loop.

**Three-way merge.** `ThreeWayMerge` co-iterates the diffs of two candidates against their parent. What that computes is
given key by key, and compared with the merge one would expect; `ListMerge` merges lists by splices with a wrapping
offset. `StructDiffs` is the diff of two structs, with the fields it loses.

**Diff and patch.** `DiffPatch` lists the differences between two values and says what applying them leads to;
`ApplyPatch` is the stack machine that applies them.

`Bytes`, `Options`, `Sorting`, `TableFile`, `TableSets` and `Values` hold what these share.

## Assumptions

- Hashes are injective. Chunk addresses, table names, manifest locks, root hashes and key hashes are values that carry
  what they are the hash of, or are left uninterpreted; `StoredTables` needs only that the chunks of one table and the
  one asked for have different hashes. The bytes hashed for a lock are not themselves prefix-free
  (`go/store/nbs/manifest.go:500-507`), so this is an assumption about the hash and its input together.
- Snappy never needs more than 32 + n + n/6 bytes for n bytes and decoding inverts encoding; the checksum is any
  function.
- A table file is durable once written, and replacing the manifest file is atomic.
- The clock is monotone; every step of a run takes a positive time.
- A table has fewer than 2^28 chunks. From there on the 32-bit slice bounds of the parser are wrong
  (`TableIndex.SliceBoundsExact`).

## Where the code and its documentation differ

- `maxTableSize` does not always leave room for the index when encodings come out at their worst case
  (`MemTable.RunsOutOfRoom`); `MemTable.IndexFitsExactly` says when it does. The room for each chunk is always there.
- `chooseConjoinees` sums chunk counts in 32 bits, and so does not always take the documented prefix
  (`Conjoiner.TotalMayWrap`); it does exactly when no total on the way to it wraps too low (`Conjoiner.ShortestPrefix`),
  in particular with fewer than 2^32 chunks in all (`Conjoiner.FewChunks`).
- The diff of two structs is expected to send every change. Of the fields that come after all fields of the other
  struct it sends only the first, as often as there are such fields, or it fails (`StructDiffs.StructDiff`); it is right
  exactly if there is at most one (`StructDiffs.FieldReportExact`). Diff, patch and merge of structs inherit this.
- Merging with an unchanged side, and merging identical candidates, lose such fields (`ThreeWayMerge.FieldIsLost`,
  `ThreeWayMerge.UnchangedSide`); `ThreeWayMerge.MergeExact` says when a merge is not affected.
- Identical candidates of a three-way merge are documented to merge to themselves. A struct that both candidates renamed
  keeps the parent's name (`ThreeWayMerge.RenameIsLost`, `ThreeWayMerge.IdenticalCandidates`).
- Two list splices that do exactly the same are documented not to be in conflict. They are, if an earlier splice moved
  one of them (`ListMerge.SameOperationMayConflict`, `ListMerge.SameOperation`).
- `Apply(a1, Diff(a1, a2)) == a2` fails exactly when a struct that is compared field by field was renamed, or when one
  of two such structs has two fields after all fields of the other (`ApplyPatch.DiffThenApply`,
  `ApplyPatch.RenameIsLost`, `ApplyPatch.FieldIsLost`).
- A commit counts a manifest that another client wrote as its own if it has the same lock.
  `ManifestRuns.CommitIsDurable` says what success means then; what each write replaces is `ManifestRuns.SwapIsLinear`.
- `calcReads` ignores its block size argument and uses the reader's; `ReadBatches.CalcReads` follows the code.

## Model

| member | source | states |
|---|---|---|
| Bytes.ValueOfBigEndian | go/store/nbs/table_writer.go:97-121 | reading back the big-endian bytes of a number that fits the width gives the number |
| Bytes.WrapIsModulo | go/store/nbs/index_transformer.go:81-88 | the running 64-bit offset is the true sum modulo 2^64 |
| OffsetsReader.OffsetsAt | go/store/nbs/index_transformer.go:78-90 | cell i of the offsets written for a list of lengths holds the (wrapped) sum of the lengths up to and including i |
| OffsetsReader.ByteReader.Read | go/store/nbs/index_transformer.go:68-74 | the source reader hands out the next unread bytes, at most as many as asked for |
| OffsetsReader.OffsetsReader.Rewrite | go/store/nbs/index_transformer.go:78-90 | walking lengths that lie in the second half of a buffer and writing offsets from its front never overwrites an unread length, and leaves the rest of the buffer alone |
| OffsetsReader.OffsetsReader.Read | go/store/nbs/index_transformer.go:56-91 | one read turns the unread lengths into offsets continuing the running sum, even when the lengths are read from the very buffer that is written; end of input and a broken length are reported and change no offset |
| TableIndex.SliceBoundsExact | go/store/nbs/table_index.go:209-214 | the 32-bit slice bounds of the lengths are the true ones exactly if there are fewer than 2^28 chunks |
| TableIndex.ReadFull | go/store/nbs/table_index.go:216-230 | reading until a half is full gives all its offsets |
| TableIndex.ConvertLengths | go/store/nbs/table_index.go:209-230 | both halves of the offsets are right although the second half is written over the lengths, for odd and even counts, and tuples and suffixes stay as they were |
| TableIndex.NewOnHeapTableIndex | go/store/nbs/table_index.go:209-245 | after the conversion in place offsetAt(i) is the sum of the first i+1 lengths that were in the buffer, for every i |
| TableIndex.OffsetsInPlace | go/store/nbs/table_index.go:361-373 | offsetAt picks the right half for every ordinal |
| TableIndex.OnHeapTableIndex.EntryIsExact | go/store/nbs/table_index.go:276-289 | the entry of an ordinal is the exact start and length of its record |
| TableIndex.OnHeapTableIndex.PrefixIdx | go/store/nbs/table_index.go:322-337 | the binary search returns the first position whose prefix is not less than the one sought |
| TableIndex.OnHeapTableIndex.LookupOrdinal | go/store/nbs/table_index.go:304-320 | an ordinal is found exactly for the addresses in the table, also when many share a prefix, and it is the ordinal of that address |
| TableIndex.OnHeapTableIndex.Lookup | go/store/nbs/table_index.go:291-302 | looking up an address succeeds iff the table has it and gives the byte range of a record written for it |
| TableIndex.OnHeapTableIndex.Ordinals | go/store/nbs/table_index.go:375-382 | the ordinals in index order |
| TableIndex.OnHeapTableIndex.Prefixes | go/store/nbs/table_index.go:384-391 | the prefixes in index order |
| TableIndex.OnHeapTableIndex.TableFileSizeIsExact | go/store/nbs/table_index.go:521-528 | the file size computed from the index is the size of data, index and footer |
| TableIndex.ParseTableIndex | go/store/nbs/table_index.go:110-160 | parsing fails exactly for a buffer that is too short, has no magic number or has the wrong size for its count, and then leaves it as it was; otherwise the index answers for whatever records the raw index described |
| TableFile.RecordAt | go/store/nbs/table_reader.go:226-262 | the byte range given by the summed lengths holds the record |
| TableWriter.TableWriter.AddChunk | go/store/nbs/table_writer.go:91-125 | a chunk is appended as its encoding and checksum and gets the next ordinal |
| TableWriter.TableWriter.WriteIndex | go/store/nbs/table_writer.go:155-195 | the bytes written behind the data are an index of all records: tuples sorted by prefix, lengths and suffixes by ordinal |
| TableWriter.TableWriter.WriteSorted | go/store/nbs/table_writer.go:163-195 | placing each sorted record's tuple, length and suffix fills the index |
| TableWriter.PlacedIsIndex | go/store/nbs/table_writer.go:163-195 | once every record is placed the bytes are an index of them |
| TableWriter.TuplesAreSorted | go/store/nbs/table_writer.go:151-175 | the written tuples are in prefix order and name every ordinal |
| TableWriter.TableWriter.Finish | go/store/nbs/table_writer.go:127-149 | the finished buffer is a table of exactly the chunks added, and its name is the hash of its suffixes |
| MemTable.EncodeRoom | go/store/nbs/table_writer.go:59-65 | whatever the encodings so far, as long as each keeps to the worst case, the next chunk still has its worst-case room although the budget uses the floored average |
| MemTable.BudgetBound | go/store/nbs/table_writer.go:59-65 | the budget is at least thirty bytes a chunk and seven sixths of the data |
| MemTable.IndexFitsExactly | go/store/nbs/table_writer.go:59-65 | the table of the unmarked chunks fits the buffer whatever a codec within snappy's bound makes of them exactly if their worst-case encodings fit; a codec that reaches the bound on every chunk is given |
| MemTable.WithinBudget | go/store/nbs/table_writer.go:59-65 | the unmarked chunks fit if the worst cases of all the chunks are no more than those of so many chunks of the average size |
| MemTable.RunsOutOfRoom | go/store/nbs/table_writer.go:59-65 | a memtable of two chunks of one and two bytes, written with a codec within snappy's bound: the write runs out of room for the index |
| MemTable.OrderRestored | go/store/nbs/mem_table.go:187-196 | sorting the requests by prefix, marking the ones already held and sorting back by number restores insertion order |
| MemTable.UnheldMembers | go/store/nbs/mem_table.go:198-204 | an address is among those written iff it was requested and not marked |
| MemTable.MemTable.AddChunk | go/store/nbs/mem_table.go:80-100 | a chunk is refused exactly if it is new and would exceed the capacity; sizes and order are kept |
| MemTable.MemTable.MarkHeld | go/store/nbs/mem_table.go:187-196 | exactly the chunks the other store has are marked |
| MemTable.MemTable.WriteAll | go/store/nbs/mem_table.go:198-204 | every unmarked chunk is added to the writer in insertion order, and there is always room for its encoding |
| MemTable.MemTable.MakeTable | go/store/nbs/mem_table.go:178-219 | out of room exactly if the encoded chunks, the index and the footer together are larger than the buffer allocated; otherwise what is written is a table of exactly the unmarked chunks |
| MemTable.MemTable.Write | go/store/nbs/mem_table.go:178-219 | fails for an empty memtable, and for lack of room exactly if the table is larger than the buffer, never if the worst cases fit; otherwise the data is a table of the chunks the other store does not have |
| TableReader.DecodeInverts | go/store/nbs/table_reader.go:55-77 | decoding the record of a chunk passes the checksum and gives the chunk |
| TableReader.DecodeRefuses | go/store/nbs/table_reader.go:55-77 | a record is refused exactly if it is shorter than a checksum, its checksum is wrong or its data is no encoding |
| TableReader.TableReader.HasMany | go/store/nbs/table_reader.go:161-204 | the merge scan marks exactly the requested addresses that the table has and reports whether any is left |
| TableReader.TableReader.CollectOffsets | go/store/nbs/table_reader.go:484-533 | the scan finds the entries of exactly the addresses in the table that were not found before |
| TableReader.TableReader.FindOffsets | go/store/nbs/table_reader.go:484-535 | the same, sorted by offset, with the requests marked and a right answer on whether any is left |
| TableReader.TableReader.Get | go/store/nbs/table_reader.go:226-262 | a read returns the written chunk for exactly the addresses of the table |
| ReadBatches.ToReadBatches | go/store/nbs/table_reader.go:416-440 | the loop forms the batches of the recursive definition; for records that lie one behind the other these are maximal: within a batch every record is close enough to be read with those before it, and the first of the next is not |
| ReadBatches.BatchesPartition | go/store/nbs/table_reader.go:401-440 | batches partition the sorted records in order, and each spans less than the maximum read, one block and one record |
| ReadBatches.BatchesMaximal | go/store/nbs/table_reader.go:401-440 | the batches are a maximal grouping, in terms of offsets and lengths alone |
| ReadBatches.MaximalUnique | go/store/nbs/table_reader.go:401-440 | there is only one maximal grouping of the records in their order |
| ReadBatches.GoodExtended | go/store/nbs/table_reader.go:537-556 | a record that may be read ahead keeps a batch within its bounds |
| ReadBatches.CalcReads | go/store/nbs/table_reader.go:558-597 | marks the requests as findOffsets does; the records found have a maximal grouping, and the number of reads computed is the number of its batches |
| ReadBatches.CountReads | go/store/nbs/table_reader.go:571-597 | counting reads without building batches gives the number of batches of any maximal grouping |
| ReadBatches.ReadAtOffsets | go/store/nbs/table_reader.go:313-346 | one buffer read for a batch yields every record's exact bytes |
| ReadBatches.ReadBatch | go/store/nbs/table_reader.go:295-311 | each reply of a batch is the chunk stored under its address |
| ReadBatches.GetMany | go/store/nbs/table_reader.go:348-399 | the chunks delivered are, each once, those of the requested addresses that the table has, with their bytes |
| ReadBatches.GetManyAtOffsets | go/store/nbs/table_reader.go:384-399 | reading batch by batch delivers every record once |
| RoundTrip.OpenTable | go/store/nbs/table_reader.go:145-159 | opening the bytes of a table gives a reader of exactly its records |
| RoundTrip.ReadBack | go/store/nbs/table_reader.go:226-262 | a table parsed from its bytes gives the chunk written for an address, and absence for every other address |
| RoundTrip.WriteAndRead | go/store/nbs/mem_table.go:178-219 | a memtable that is not empty and whose table fits is written, and read back it gives the chunks not marked as held with their bytes, and no others |
| RoundTrip.LookupRecord | go/store/nbs/table_index.go:291-302 | the index finds an address iff the table has it and selects the bytes of a record stored under it |
| RoundTrip.LookupConjoined | go/store/nbs/table_persister.go:155-272 | sources are conjoined, the bytes opened and an address looked up: it is found iff some source has it, and the bytes its entry selects are the record of a source that has it |
| ConjoinPlan.CopyOnHeap | go/store/nbs/table_persister.go:223-239 | the branch for an index on the heap writes all lengths and suffixes of the source, by ordinal, and nothing else |
| ConjoinPlan.CopyEntries | go/store/nbs/table_persister.go:240-255 | the entry-by-entry branch leaves the very same bytes |
| ConjoinPlan.CopySource | go/store/nbs/table_persister.go:223-255 | either branch copies a source's lengths and suffixes |
| ConjoinPlan.MeasureSources | go/store/nbs/table_persister.go:155-183 | data lengths of the sources, and the sums of their chunk counts, in 32 bits, and of their uncompressed data |
| ConjoinPlan.CounterExact | go/store/nbs/table_persister.go:155-205 | the 32-bit count makes room for an index of all records exactly below 2^32 chunks, and the parser finds its parts exactly below 2^28 |
| ConjoinPlan.MergeSources | go/store/nbs/table_persister.go:185-256 | the merged index has the lengths and suffixes of all sources, and the gathered records name every address |
| ConjoinPlan.MergedIsIndex | go/store/nbs/table_persister.go:258-266 | with the sorted tuples in front the bytes are an index of all records of all sources |
| ConjoinPlan.MergeInto | go/store/nbs/table_persister.go:185-271 | the merged index and footer describe the concatenation of the sources |
| ConjoinPlan.PlanConjoin | go/store/nbs/table_persister.go:155-272 | the plan takes every source once, in order of falling data length, ties by name, and its index is one of all their records in that order |
| Conjoin.PlanIsTable | go/store/nbs/file_table_persister.go:115-182 | the sources' data in plan order followed by the merged index is a table |
| Conjoin.ConjoinAll | go/store/nbs/file_table_persister.go:115-182 | the file written is a table of all records of all sources, as many as they have together; no file is written exactly if there are none |
| Conjoin.ConjoinPreserves | go/store/nbs/table_persister.go:155-272 | the concatenation in plan order has an address iff some source has it, and each record under it is that of a source |
| Upload.NumPartsBounds | go/store/nbs/aws_table_persister.go:528-533 | the number of parts is the least that keeps every part within the maximum |
| Upload.SplitOnMaxSize | go/store/nbs/aws_table_persister.go:528-544 | the parts sum to the input, none exceeds the maximum, and with max at least twice min none falls below the minimum |
| Upload.CopySourceParts | go/store/nbs/aws_table_persister.go:476-508 | the ranges copied from one source cover its data in order, each within the size limits |
| Upload.DividePlan | go/store/nbs/aws_table_persister.go:469-526 | the sources up to the first below the minimum are copied; copied ranges followed by the remaining bytes are all data in plan order and the merged index; refused exactly if max is less than twice min |
| Upload.NumberParts | go/store/nbs/aws_table_persister.go:392-419 | parts numbered in order concatenate to the copied ranges and the remaining bytes |
| Upload.GetNumParts | go/store/nbs/aws_table_persister.go:268-274 | as many parts as fit whole into the data, and one if none does |
| Upload.ArrivalOrderIrrelevant | go/store/nbs/aws_table_persister.go:428-456 | whatever order the uploads finish in, sorting by number gives the same bytes |
| Upload.AssembleTable | go/store/nbs/aws_table_persister.go:330-456 | the uploaded parts are a table of all the sources' records; refused exactly for too many sources or impossible part sizes |
| TableSets.ReachElem | go/store/nbs/table_set.go:49-76 | a chunk is reachable through table names iff one of the named tables holds it |
| TableSets.FindReads | go/store/nbs/table_set.go:106-134 | asking the tables in order gives the chunk's bytes iff some table holds it |
| TableSets.HasFinds | go/store/nbs/table_set.go:49-76 | has answers yes exactly for the chunks that get finds |
| TableSets.TablesHaveMany | go/store/nbs/table_set.go:78-104 | asking tables in order, and stopping when no request remains, marks exactly the requests whose chunk one of the tables holds; true without any table, else iff a request remains |
| TableSets.TableSetHasMany | go/store/nbs/table_set.go:78-104 | novel tables first and upstream tables only for what remains: exactly the chunks held by either are marked |
| TableSets.LockDetermines | go/store/nbs/manifest.go:498-512 | the lock of a manifest determines its root and the chunks it reaches |
| TableSets.DedupReach | go/store/nbs/table_set.go:449-457 | filtering duplicate specs keeps what is reachable |
| TableSets.NonEmptyReach | go/store/nbs/table_set.go:398-420 | dropping empty tables keeps what is reachable |
| ManifestProtocol.PrependKeeps | go/store/nbs/table_set.go:362-374 | compacting the memtable against the tables in front of it makes a durable table and loses nothing |
| ManifestProtocol.RebaseKeeps | go/store/nbs/table_set.go:424-537 | rebasing onto a manifest that reaches at least as much keeps every accepted chunk readable |
| ManifestProtocol.FetchKeeps | go/store/nbs/store.go:239-313 | what a store does with a fetched manifest keeps it consistent, on its old manifest or on one that reaches what the fetched one reaches; what a rebase follows is ManifestRuns.RebaseFollows |
| ManifestProtocol.RetryConjoin | go/store/nbs/conjoiner.go:142-160 | when all conjoinees are still upstream, the conjoined table with the recomputed keepers reaches at least what the new upstream reaches |
| ManifestProtocol.UpdateKeeps | go/store/nbs/store.go:1100-1177 | every continuation of an update (committed, root moved, tables changed, conjoin retried or given up) keeps the store consistent |
| ManifestProtocol.ConjoinKeeps | go/store/nbs/conjoiner.go:164-238 | the conjoined file holds exactly the bytes of the conjoinees' chunks |
| ManifestProtocol.AttemptKeeps | go/store/nbs/store.go:1055-1160 | one pass of updateManifest up to its write keeps the store consistent and prepares a write that loses no table |
| ManifestProtocol.SwapGrows | go/store/nbs/file_manifest.go:401-518 | a swap that finds the expected lock replaces a manifest by one that reaches at least as much |
| ManifestProtocol.ActKeeps | go/store/nbs/store.go:239-313 | every step keeps the invariant of the acting store and its process and changes shared state only as its neighbours can bear |
| ManifestRuns.StepKeepsInv | go/store/nbs/store.go:973-1177 | every step of any store keeps the invariant of all stores and processes |
| ManifestRuns.RunKeepsInv | go/store/nbs/store.go:973-1177 | the invariant holds in every state of every run |
| ManifestRuns.ReachNeverShrinks | go/store/nbs/store.go:1055-1177 | over every run the chunks reachable from the persisted manifest never shrink |
| ManifestRuns.SwapIsLinear | go/store/nbs/store.go:1055-1177 | in every run the manifest changes only in a swap; updateManifest(current, last) then replaces a manifest with root last by one with root current, conjoin and UpdateManifest keep the root |
| ManifestProtocol.GetReads | go/store/nbs/store.go:659-704 | Get gives a chunk's bytes, and Has says yes, iff memtable, novel or upstream tables hold it |
| ManifestRuns.PutStaysReadable | go/store/nbs/store.go:629-704 | a chunk accepted by Put is had by that store and can be read from it, with the same bytes, in every later state of every run |
| ManifestRuns.CommitIsDurable | go/store/nbs/store.go:1157-1177 | when in a run a commit reports success, a manifest with its lock and root has been persisted, nothing novel is left, and all chunks the store ever accepted are in the persisted tables in every later state |
| ManifestRuns.WonSwapIsReported | go/store/nbs/store.go:1035-1046 | a commit that has replaced the manifest reports success, so one that reports failure wrote nothing |
| ManifestRuns.UpdateIsDurable | go/store/nbs/store.go:239-313 | when in a run UpdateManifest succeeds, the chunks of the tables it adds are in the persisted tables in every later state |
| ManifestRuns.FetchIsFresh | go/store/nbs/manifest.go:304-343 | what a Fetch of a run delivers, cached or not, was the persisted manifest in a state between the one in which it began and the one in which it returns |
| ManifestRuns.RebaseFollows | go/store/nbs/store.go:936-965 | in every run a rebase that is delivered a manifest has its lock, root and tables afterwards, and every chunk that was reachable when the rebase began is then read by Get with its bytes |
| ManifestRuns.CacheNeverGoesBack | go/store/nbs/manifest.go:304-384 | over every run a process's cached manifest never goes back in the history of the manifest |
| ManifestProgress.RebaseAlone | go/store/nbs/store.go:936-1046 | a rebase that is left alone ends after four steps on the persisted manifest, unchanged if that is the one it follows; a commit with nothing to commit is a rebase |
| ManifestProgress.UpdateAlone | go/store/nbs/store.go:239-313 | adding tables, left alone, changes nothing if the persisted manifest has them all, and else appends the missing ones to it, root kept, and follows it |
| ManifestProgress.CommitAlone | go/store/nbs/store.go:973-1177 | a commit that is left alone succeeds, however far the store and its cache are behind, if no manifest it can come upon has another root or names an empty table; the persisted tables then hold what they held and the pending chunks, no more |
| ManifestProgress.ConjoinAlone | go/store/nbs/conjoiner.go:73-162 | a conjoin on the way of a commit, left alone, replaces the conjoinees in the persisted manifest, keeps its root and what it reaches, and the commit goes on from there |
| ManifestProgress.FlushWrites | go/store/nbs/store.go:645-657 | in every run a flush leaves an empty memtable and tables that hold the same chunks, and changes nothing else |
| ManifestProgress.CommitEnds | go/store/nbs/store.go:1035-1177 | in every run a commit goes on until it succeeds or comes upon a manifest with another root, which the store then follows; it ends with an error exactly on an empty upstream table or a lost manifest file |
| ManifestProgress.AnsweredGoesOn | go/store/nbs/store.go:1060-1080 | in every run an update of the manifest that lost is taken up on the manifest it was answered with: tables from a new fetch, a conjoin on the new tables if all conjoinees are there and else given up, a commit if the root is the expected one |
| Conjoiner.ChooseConjoinees | go/store/nbs/conjoiner.go:240-281 | conjoinees and kept tables are the upstream tables, ordered by chunk count, ties by hash, so that no conjoinee is larger than a kept table; the split is the first at which the 32-bit total is no more than the next count, and the documented one exactly if no total on the way to it wraps around too low |
| Conjoiner.Partition | go/store/nbs/conjoiner.go:251-278 | the loop stops at the first prefix, of at least two, that satisfies its test |
| Conjoiner.ShortestPrefix | go/store/nbs/conjoiner.go:239-281 | the choice is the documented shortest prefix exactly if no total of a prefix that the documented choice has to extend wraps to one that is no more than the next count |
| Conjoiner.TotalWraps | go/store/nbs/conjoiner.go:264-278 | the 32-bit total of a prefix is its true total modulo 2^32 |
| Conjoiner.FewChunks | go/store/nbs/conjoiner.go:239-281 | with fewer than 2^32 chunks in all tables together nothing wraps |
| Conjoiner.TotalMayWrap | go/store/nbs/conjoiner.go:264-278 | eighteen tables of 2^28 - 1 chunks: the total of seventeen wraps and the scan stops one table early |
| BlockStore.ManifestManager.Update | go/store/nbs/manifest.go:349-384 | compare-and-swap of the manifest, answered from the cache when that rules it out, with the cache following |
| BlockStore.ConjoinTables | go/store/nbs/conjoiner.go:164-238 | the table written holds what the conjoinees hold; conjoinees and keepers are the upstream tables |
| BlockStore.ConjoinManifest | go/store/nbs/conjoiner.go:73-162 | the retry loop ends; root and reachable chunks are kept, if it started from the current manifest the tables become fewer, and it fails exactly if there is no manifest where one was expected |
| BlockStore.NomsBlockStore.Prepend | go/store/nbs/table_set.go:362-374 | the memtable becomes a novel table of the chunks not held elsewhere; the chunks of the store stay the same |
| BlockStore.KeepsOrder | go/store/nbs/table_set.go:362-374 | the compaction keeps the chunks in the order of the memtable |
| BlockStore.NomsBlockStore.AddChunk | go/store/nbs/store.go:645-657 | adding a chunk adds exactly it to the chunks of the store; the memtable is flushed first exactly if the chunk does not fit it; it fails only for a chunk larger than a memtable |
| BlockStore.NomsBlockStore.GetChunk | go/store/nbs/store.go:659-704 | a read gives the bytes of exactly the chunks of the store |
| BlockStore.NomsBlockStore.HasChunk | go/store/nbs/store.go:831-869 | says yes for exactly the chunks of the store |
| BlockStore.NomsBlockStore.HasMany | go/store/nbs/store.go:871-917 | memtable, novel and upstream tables are asked for what remains; the absent chunks are exactly those the store does not have |
| BlockStore.NomsBlockStore.RebaseTables | go/store/nbs/table_set.go:424-537 | rebasing adds the manifest's chunks and loses none |
| BlockStore.NomsBlockStore.RebaseStore | go/store/nbs/store.go:936-965 | Rebase follows the manifest and loses no chunk |
| BlockStore.NomsBlockStore.ConjoinUpstream | go/store/nbs/store.go:1100-1124 | conjoining and rebasing always succeeds, keeps all chunks, follows the manifest and, from an up-to-date store, makes the upstream tables fewer |
| BlockStore.NomsBlockStore.Publish | go/store/nbs/store.go:1126-1177 | the write of a commit: what each outcome says about the persisted root and tables, the chunks and how far behind the store was; it fails exactly if an upstream table is empty |
| BlockStore.NomsBlockStore.UpdateManifest | go/store/nbs/store.go:1055-1177 | each outcome of one pass, that it fails only on an empty upstream table, that a pass asking for another one makes progress, and that an up-to-date store with the expected root asks for another one exactly if there are too many tables and two to conjoin |
| BlockStore.NomsBlockStore.CommitRoot | go/store/nbs/store.go:973-1047 | without another writer the retry loop ends; if the root is last in the store, the cache and the manifest and no manifest names an empty table, it succeeds; it fails with an error only on an empty upstream table, success makes all chunks durable, and failure leaves the root alone |
| StoredTables.GetStored | go/store/nbs/table_reader.go:226-262 | a reader of the bytes stored for a table name answers for every chunk as the protocol's file of that name does |
| StoredTables.FlushStored | go/store/nbs/mem_table.go:178-219 | writing a memtable implements the protocol's flush: the bytes store exactly the chunks it takes, those in none of the store's tables |
| StoredTables.ConjoinStored | go/store/nbs/file_table_persister.go:115-182 | conjoining table files implements the protocol's conjoin: the bytes store a table that holds exactly what the conjoinees hold, and none is written if that is nothing |
| ManifestCache.Cache.Get | go/store/nbs/manifest_cache.go:57-79 | a hit becomes the most recently used entry |
| ManifestCache.Cache.Put | go/store/nbs/manifest_cache.go:86-116 | total size stays the sum of the entries and within the budget; the entry put is kept, and exactly as many least recently used ones go as the budget demands |
| ManifestCache.Cache.Insert | go/store/nbs/manifest_cache.go:96-113 | the eviction loop stops before the entry just put |
| CommitGraph.AncestorFacts | go/store/datas/commit.go:157-181 | ancestors lie strictly lower, and an ancestor's ancestors are ancestors |
| CommitGraph.CommitByHeightHeap.Push | go/store/datas/commit.go:704-728 | the queue stays in order of falling height, ties by address |
| CommitGraph.CommitByHeightHeap.PopCommitsOfHeight | go/store/datas/commit.go:738-744 | exactly the commits of the greatest height leave the queue |
| CommitGraph.ParentsToQueue | go/store/datas/commit.go:589-607 | exactly the parents of the given commits enter the queue |
| AncestorSearch.FrontierStep | go/store/datas/ref_closure.go:57-68 | replacing commits of a frontier by their parents loses just those commits |
| AncestorSearch.Expand | go/store/datas/commit.go:589-607 | one level of a search: queue heights fall and no ancestor is lost |
| AncestorSearch.FindCommonCommit | go/store/datas/commit.go:609-625 | a shared commit is found iff there is one |
| AncestorSearch.FindCommonAncestorUsingParentsList | go/store/datas/commit.go:330-361 | the search ends and returns a common ancestor with no other of greater height, or None iff there is none |
| AncestorSearch.IteratedAncestors | go/store/datas/commit_closure.go:31-64 | a commit and its stored closure iterate all its ancestors from the greatest key down |
| AncestorSearch.FindCommonAncestor | go/store/datas/commit.go:371-407 | the search over two closure iterators, or over parents when a closure is missing, also returns a best common ancestor or None iff there is none |
| CommitClosures.SearchesAgree | go/store/datas/commit.go:330-436 | the searches by parents, by stored closures and by a lazy closure, run on the same commits, agree on whether a common ancestor exists and on its height |
| CommitClosures.TransitiveClosure | go/store/datas/ref_closure.go:52-71 | the eager closure is the set of all ancestors |
| CommitClosures.LazyCommitClosure.TraverseBelowDepth | go/store/datas/ref_closure.go:101-114 | traversal moves everything of the given height or more to the seen set and keeps the closure |
| CommitClosures.LazyCommitClosure.Contains | go/store/datas/ref_closure.go:91-98 | after any queries the lazy closure answers as the eager one |
| CommitClosures.FindClosureCommonAncestor | go/store/datas/commit.go:412-436 | the best common ancestor of the closure's commit and another commit |
| CommitClosures.ClosureEditor.Add | go/store/prolly/commit_closure.go:134-136 | adding a key keeps the key order and adds just that key |
| CommitClosures.WriteCommitParentClosure | go/store/datas/commit_closure.go:386-445 | the closure written holds the parents and everything in their closures, in key order |
| CommitClosures.NewCommit | go/store/datas/commit.go:190-224 | a new commit has one more than the greatest height of its parents and a closure made from theirs |
| CommitClosures.CommitExact | go/store/datas/commit_closure.go:386-445 | committing keeps every stored closure exact |
| CommitClosures.HistoryExact | go/store/datas/commit_closure.go:386-445 | over every history the stored closure of each commit is exactly its strict ancestors keyed by height and address |
| Datasets.FastForwardTest | go/store/datas/database_common.go:389-402 | the best common ancestor is the current head iff the current head is an ancestor of, or is, the new one |
| Datasets.CanFastForward | go/store/datas/database_common.go:362-409 | the fast-forward test passes exactly if there is no head or the head is an ancestor-or-self of the new head |
| Datasets.BothParentsNeverFail | go/store/datas/database_common.go:625-636 | a commit with a working set always has the head among its parents |
| Datasets.NextKeepsInv | go/store/datas/database_common.go:730-789 | every step of every client keeps the invariant: pending edits lead from the expected head to a descendant of it |
| Datasets.Serializable | go/store/datas/database_common.go:730-789 | a successful call is one root transition equal to its edit applied to the immediately preceding datasets; nothing else changes the root |
| Datasets.RunIsSerial | go/store/datas/database_common.go:730-789 | over every run of any number of clients the datasets are the initial ones with the edits of the successful calls applied one after the other |
| Datasets.SuccessMoves | go/store/datas/database_common.go:439-610 | in every run a call that succeeds finds the head it expects and leaves its own, and no other entry changes: a commit or fast-forward, a working set update over the expected address, a tag where there was none, a delete of the head first seen |
| Datasets.RefusedExactly | go/store/datas/database_common.go:439-610 | which error a call ends with, exactly, by the heads it meets: merge needed, already committed, optimistic lock failed, tag exists |
| Datasets.LoadRefuses | go/store/datas/database_common.go:730-789 | in every run a call that loads the datasets ends there exactly if one of those errors applies to the heads it sees, and then leaves the storage alone |
| Datasets.EditsAreLocal | go/store/datas/database_common.go:439-493 | over every run the entry of a dataset stays as it is unless a call that edits that dataset succeeds |
| Datasets.BothTogether | go/store/datas/database_common.go:612-723 | in every run a commit with its working set that succeeds finds both expected heads and replaces both in one step |
| Datasets.HeadMovesToDescendant | go/store/datas/database_common.go:439-493 | in one step a branch head stays, appears, is deleted or moves to a descendant |
| Datasets.BranchOnlyDescends | go/store/datas/database_common.go:362-493 | over every run without a delete of the branch, a later head descends from an earlier one |
| Datasets.DeleteRemovesFirstSeen | go/store/datas/database_common.go:791-829 | in every run a delete that succeeds, after any retries and whatever others do, removes the head it saw first and nothing else |
| Database.MemoryStorage.Update | go/store/chunks/memory_store.go:105-119 | the root is replaced iff it is the expected one |
| Database.MemoryStoreView.Commit | go/store/chunks/memory_store.go:220-233 | a view commits iff both it and the storage have the expected root, and follows the storage |
| Database.ResultMeans | go/store/datas/database_common.go:730-789 | the result of the loop in terms of heads: what it finds and leaves in the storage, or the error that applies to the heads first seen or to those in the storage |
| Database.Update | go/store/datas/database_common.go:730-789 | without interference the loop ends: the edit has moved the stored heads from the expected to its own, or the error is the one that applies to the heads first seen or, if they differ, to the stored ones |
| Database.DeletesWhatItSaw | go/store/datas/database_common.go:791-829 | a delete that succeeds after a retry removes the head it saw first |
| DatasetProgress.EditAlone | go/store/datas/database_common.go:730-789 | a call of the state machine that is left alone ends after at most two passes, does to the storage what the update loop does, succeeds exactly if the loop does, and changes nothing else |
| DatasetProgress.RefreshedAlone | go/store/datas/database_common.go:730-789 | after refreshing its view a call that no stored head refuses succeeds in one pass |
| DatasetProgress.LostGoesOn | go/store/datas/database_common.go:730-789 | in every run a commit of the root that loses leaves the storage alone and its call tries the same edit again, on another root than the one it lost with |
| DatasetProgress.BeginAlone | go/store/datas/database_common.go:362-433 | every commit, commit with working set, fast-forward and other edit of a run can begin; with which parents the commit is written, and which edit, or none, it turns into |
| Values.Diff | go/store/types/ordered_sequences_diff.go:54-257 | the changes between two maps or sets, in key order, one for each key under which they differ |
| StructDiffs.StructDiff | go/store/types/struct.go:446-548 | walks the fields of two structs; fields after all fields of the other struct are all reported under the name of the first of them, and the diff fails exactly if reading on from the wrong place does |
| StructDiffs.Trailing | go/store/types/struct.go:514-545 | the loops after the walk never clear the name, so they repeat the first leftover field or fail |
| StructDiffs.FieldReportExact | go/store/types/struct.go:446-548 | what is reported is one change for each field that differs, in order, exactly if neither struct has more than one field after all fields of the other |
| StructDiffs.SecondFieldLost | go/store/types/struct.go:446-548 | no fields against two: the first is reported twice and the second not at all |
| StructDiffs.Report | go/store/merge/candidate.go:52-113 | the diff of two collections of one kind: right for maps and sets, for structs as reported above |
| ThreeWayMerge.MergeChanges | go/store/merge/three_way_ordered_sequence.go:172-263 | a key that both candidates changed: the same change is taken, collections of one kind are merged in turn, and what cannot be reconciled is a conflict without a preference and else the preferred side's entry or absence |
| ThreeWayMerge.OrderedSequenceMerge | go/store/merge/three_way_ordered_sequence.go:36-170 | co-iterating what the two diffs report gives, key by key, the merge of what they report: a field that a diff loses counts as unchanged and the side that repeats a field has the last word; the first key that does not merge decides the error |
| ThreeWayMerge.MergeValues | go/store/merge/three_way.go:226-296 | recursively, for maps, sets and structs; whenever the structs it gets to are diffed rightly it is the pointwise merge, a conflict exactly if the three values conflict, and else holds under every key what the three values say |
| ThreeWayMerge.MergeExact | go/store/merge/three_way_ordered_sequence.go:36-170 | the merge is the pointwise one, a conflict iff some key has one, whatever a misread gives, exactly if no struct that it gets to has two fields after all fields of its base or the other way round |
| ThreeWayMerge.StructlessReadable | go/store/merge/three_way_ordered_sequence.go:36-170 | maps and sets without structs are always merged pointwise |
| ThreeWayMerge.CoMergedAt | go/store/merge/three_way_ordered_sequence.go:36-170 | what a successful merge holds under a key is what the reports settle there |
| ThreeWayMerge.MergedAt | go/store/merge/three_way_ordered_sequence.go:36-170 | what a successful pointwise merge holds under a key is the outcome of the three-way merge at that key |
| ThreeWayMerge.ConflictExactly | go/store/merge/three_way.go:226-296 | the pointwise merge conflicts exactly if, in terms of the three values, the shapes or struct names do not match, or without a preference a key was changed in two irreconcilable ways, or a nested collection conflicts |
| ThreeWayMerge.MergeHolds | go/store/merge/three_way_ordered_sequence.go:172-263 | a successful merge holds under every key: the changed side's entry, the common one, the nested merge, or under an irreconcilable key the entry, or absence, of the preferred side |
| ThreeWayMerge.OutcomeAt | go/store/merge/three_way_ordered_sequence.go:172-263 | what the merge does at one key, by what the three values hold there |
| ThreeWayMerge.Symmetric | go/store/merge/three_way.go:226-395 | exchanging the candidates, and with them the preference, gives the same pointwise merge and the same conflict |
| ThreeWayMerge.CoSymmetric | go/store/merge/three_way.go:226-395 | the same of what the co-iteration computes, lost and repeated fields included |
| ThreeWayMerge.UnchangedSide | go/store/merge/three_way.go:226-395 | merging with a side that did not change gives the other side exactly if that side and the parent do not have two fields after all fields of each other |
| ThreeWayMerge.FieldIsLost | go/store/merge/three_way.go:364-395 | an empty parent, one side unchanged and the other with two fields: the merge has one field or fails |
| ThreeWayMerge.LossMadeGood | go/store/merge/three_way_ordered_sequence.go:36-170 | if the other side has the lost field too, the merge is right exactly if the misread does not fail |
| ThreeWayMerge.SetsMerge | go/store/merge/three_way.go:325-362 | sets never conflict; an element stays unless a side removed it and comes if a side added it |
| ThreeWayMerge.IdenticalCandidates | go/store/merge/three_way.go:91-158 | identical candidates merge to themselves exactly if they and the parent are collections of one kind and one struct name and the structs do not have two fields after all fields of the parent or the other way round |
| ThreeWayMerge.RenameIsLost | go/store/merge/three_way.go:364-395 | a struct renamed by both candidates keeps the parent's name |
| ListMerge.OverlapExact | go/store/merge/three_way_list.go:142-148 | the overlap test on wrapping sums is the true one |
| ListMerge.PositionExact | go/store/merge/three_way_list.go:192-213 | a splice's place plus the wrapped offset is its place in the merged list |
| ListMerge.PatchStep | go/store/merge/three_way_list.go:192-213 | splicing at the moved place is patching the parent with one more splice |
| ListMerge.Apply | go/store/merge/three_way_list.go:192-213 | applying a splice keeps the merged list and the wrapped offset in step with the parent |
| ListMerge.ThreeWayListMerge | go/store/merge/three_way_list.go:34-140 | success gives the parent with all splices of both sides applied at once, shared ones once; it refuses exactly if two splices that are not identical overlap or start at one index |
| ListMerge.MergeIsDetermined | go/store/merge/three_way_list.go:34-140 | the splices determine the merged list |
| ListMerge.SameOperation | go/store/merge/three_way_list.go:151-185 | two splices that do the same are merged exactly if they take their elements from the same index |
| ListMerge.SameOperationMayConflict | go/store/merge/three_way.go:145-157 | both sides append the same element and one also inserts in front: the merge is refused |
| DiffPatch.SetAllBelow | go/store/diff/apply_patch.go:60-128 | a patch below a collection acts on each child by itself, whatever the order of its differences |
| DiffPatch.DiffOrdered | go/store/diff/diff.go:377-454 | the differences emitted for two collections are those their diffs report, deeper ones under the child they are in, named by field, by key or, for keys that cannot be written, by hash; it fails exactly if the diff of two structs on the way does |
| DiffPatch.DiffValues | go/store/diff/diff.go:124-154 | the differences between two values, none for equal ones and one for values that are replaced as a whole; with at most one leftover field in every struct on the way it does not fail |
| DiffPatch.DifferencesAreLeaves | go/store/diff/diff.go:326-375 | no difference turns a collection into another of its kind: such changes are given by deeper differences |
| DiffPatch.PatchLeads | go/store/diff/apply_patch.go:32-46 | the differences reported between two values, applied one by one in any order, all fit and lead to the second value with the struct names of the first and without the changes that were lost |
| DiffPatch.PatchPermuted | go/store/diff/patch.go:50-80 | a reordered patch is a patch for the same two values |
| DiffPatch.PatchInvertsDiff | go/store/diff/apply_patch.go:32-46 | applying the differences gives the second value exactly if, of the structs on the way, none was renamed and none has two fields after all fields of the other |
| ApplyPatch.PathsOrdered | go/store/diff/patch.go:59-80 | different paths are ordered one way or the other, never both |
| ApplyPatch.PathsTransitive | go/store/diff/patch.go:59-80 | the path order is transitive |
| ApplyPatch.PathOrder | go/store/diff/patch.go:59-80 | the order of paths by the first part in which they differ |
| ApplyPatch.SortPatch | go/store/diff/patch.go:40-57 | sorting gives the same differences in patch order: by the first part in which two paths differ, a path before those it leads to, and at one path removals before changes before additions |
| ApplyPatch.CommonPrefixCount | go/store/diff/apply_patch.go:297-314 | the length of the common prefix of two paths |
| ApplyPatch.PatchStack.Pop | go/store/diff/apply_patch.go:353-368 | popping folds the node into its parent |
| ApplyPatch.FoldedPop | go/store/diff/apply_patch.go:353-368 | popping does not change the value the stack stands for |
| ApplyPatch.FoldedPush | go/store/diff/apply_patch.go:98-121 | pushing the node that is there does not change it either |
| ApplyPatch.FoldedSet | go/store/diff/apply_patch.go:98-128 | changing the top node is changing the whole value at the path on the stack |
| ApplyPatch.UpdateIsSet | go/store/diff/apply_patch.go:147-291 | folding a changed leaf into a map, set or struct makes that change there |
| ApplyPatch.PopTo | go/store/diff/apply_patch.go:86-97 | popping to the common prefix leaves just those nodes, all changes folded in |
| ApplyPatch.PushTail | go/store/diff/apply_patch.go:98-128 | pushing the rest of the path with the change on top is making the change at that path |
| ApplyPatch.ApplyOne | go/store/diff/apply_patch.go:60-128 | one difference: the stack then holds its path and stands for the changed value |
| ApplyPatch.ApplyBelow | go/store/diff/apply_patch.go:47-141 | the stack machine applies the differences one after the other |
| ApplyPatch.PatchUnnested | go/store/diff/apply_patch.go:64-84 | no difference leads through the place of the one before it; repeated ones are at the same place |
| ApplyPatch.Apply | go/store/diff/apply_patch.go:47-141 | applying what was reported between two values to the first leads to the second, up to struct names and lost fields |
| ApplyPatch.DiffThenApply | go/store/diff/apply_patch.go:32-141 | diff then apply gives the second value exactly if, of the structs on the way, none was renamed and none has two fields after all fields of the other; what it gives otherwise, and when it fails |
| ApplyPatch.RenameIsLost | go/store/diff/diff.go:326-347 | two structs that differ only in name: the patch is empty and the new name is lost |
| ApplyPatch.FieldIsLost | go/store/types/struct.go:514-545 | no fields against two under the same name: applying the differences gives one field |

## Left out

- Files, memory maps, S3, DynamoDB and other blob stores, file locks, rate limits, metrics and logging: input and output. What the model needs of them is under Assumptions.
- Appendix specs of a manifest: conjoin can drop them when it gives up or when one is added meanwhile (`go/store/nbs/conjoiner.go:126-150`), and a manifest file does not store them.
- Garbage collection, generations and OverwriteStoreManifest: swapTables does not check that the root it marked is still the root, so nothing about reachable chunks holds across it.
- The lock that makes updates of one process wait for each other (`go/store/nbs/manifest.go:287-293`): runs without it include all runs with it.
- Chunk counts beside the table names in a manifest, the format version and errors of opening a table: they do not bear on what is reachable.
- ManifestProtocol.ActKeeps: which tables a conjoin takes and when it is required is any choice here; Conjoiner and BlockStore have the choice the code makes.
- Conjoining and appending to the memtable in the protocol write their table in the step that starts them; the compaction that runs beside the store in the code yields the same table.
- ManifestProgress.CommitAlone: for passes without a conjoin, which is ManifestProgress.ConjoinAlone; on a manifest with another root or an empty table the commit ends (ManifestProgress.CommitEnds).
- BlockStore.NomsBlockStore.CommitRoot: says nothing under interference; there the loop need not end. With an empty upstream table it may fail or succeed, depending on whether a conjoin takes that table first.
- TableIndex.ParseTableIndex: for buffers of fewer than 2^28 chunks; memory quotas, reference counts and the memory-mapped index are not modelled.
- MemTable.MemTable.constructor: for memtables below 3.6 GB, so that the worst-case length of a record fits its 32-bit field.
- RoundTrip.LookupConjoined: for sources with fewer than 2^28 chunks together, exactly those whose conjoined index the parser cuts rightly (`ConjoinPlan.CounterExact`).
- StoredTables.FlushStored: the code hashes the suffixes of a table in index order for its name; here a name lists the addresses in table order.
- ConjoinPlan.PlanConjoin: for sources with fewer than 2^32 chunks together; from there on the counter wraps and the buffer is too small (`ConjoinPlan.CounterExact`), and which of its writes then panics or is cut short is not modelled.
- Upload.AssembleTable: uploads succeed; what a failed upload aborts is not modelled.
- CommitGraph.CommitByHeightHeap.Push: the queue is an ordered sequence, not the binary heap behind it; it gives out the same commits in the same order.
- AncestorSearch.FindCommonAncestorUsingParentsList: queues the parents of a level before it compares the levels, which changes no result.
- The closure writer of the older format: its loop looks at the second parent for every further parent (`go/store/datas/commit_closure.go:354-360`), so its closures are exact for at most two parents.
- SetHead, which moves a head anywhere, and dataset ids outside their namespaces: a branch would not keep to descendants.
- StructDiffs.StructDiff: whether reading a value at a wrong place fails is a parameter; the value read there is never used. A panic counts as a failure.
- ThreeWayMerge.OrderedSequenceMerge: if a diff fails and there is a conflict too, the code returns whichever error comes first in time; here a diff of the same two values counts first.
- ThreeWayMerge.MergeValues: lists and refs inside the recursion; keys are numbers in the order of the values they stand for, and a resolver is none, ours or theirs.
- ListMerge.ThreeWayListMerge: the splices are given, in order and disjoint; the edit distance that finds them is not modelled, and the merged list is shorter than 2^64 - 1.
- DiffPatch.DiffOrdered: lists, whose additions, removals and modifications are sorted by old and new index together, and values of JSON kind.
- ApplyPatch.Apply: for patches made from two values; paths into keys are not modelled, and a difference of the root replaces it without the stack.
- ManifestCache.Cache.Put: the size of an entry is given with it.
- Short-hash lookup, table extraction, the parser of type definitions, marshalling, the text form of addresses and the SQL layers above the store.
