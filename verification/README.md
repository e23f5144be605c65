# Hydra: erasure-coded remote memory

Hydra keeps a block device in the memory of remote servers. Each page is split over `NDATAS` data shards, `NDISKS - NDATAS`
parity shards are added, and each shard lives in a 1 GB slab of a different server. This project models the parts that
must be right for a read to return what was written, and proves that they are. `k` stands for `NDATAS`, `m` for `NDISKS`
and `w` for the page size divided by `NDATAS`; all three are parameters.

## Layers

- `GaloisField`, `GfTables`, `GflogTable`: GF(2^8) modulo x^8+x^4+x^3+x^2+1 as polynomial products, and the literal log/antilog
  tables that compute it. The layers above use the polynomial product `Mul`, which `TableMulIsMul` says `gf_mul` returns.
- `Matrices`, `GaussJordan`, `Cauchy`: linear algebra over that field, the in-place inversion, and the encoding matrix.
- `MulTables`, `Encode`: the 32-byte nibble tables and the scalar encode and update loops.
- `Simd`, `MadKernels`, `DotKernels`: the vector kernels, with a register as a sequence of bytes, refined to the scalar loops.
- `Decode`, `Recovery`: the decode matrix, and the round trip through matrices, tables and kernels (`RestoreLost`).
- `SlabMap`, `Placement`: the mapping tables with the order of their stores, and the choice of servers.
- `Striping`, `ShardIo`, `WriteAck`, `Pages`, `ShardStore`, `ReadPath`, `BlockDevice`: address translation, the choice of shards
  that a read fetches, when requests complete, the slabs by server and slot, the read and write paths, evictions, disconnects.
- `DeviceRuns`: whole runs of requests by byte address, disconnects and evictions (`RunOps`, `ReadableThroughout`).
- `System`: placement, device and run put together (`PlaceAndRun`).
- `Monitor`, `Eviction` (with `Counting`): the slab accounting of the resource monitor and its choice of victims.
- `Agreement`: a client and the monitors of its servers as a protocol, with the messages between them (`RunLinked`).
- `Mersenne`: the 64-bit Mersenne Twister.

The device runs in the erasure-coding configuration with one coding group, as in every configuration of
`resilience_manager/infiniswap.h`. The calls that build the matrices stand in comments in the repository
(`resilience_manager/is_main.c:701-711` and `1734-1740`); they are composed here as those lines spell out.

## Where the code keeps less than one might expect

- The comment at `resilience_manager/is_main.c:1736-1737` says that the Cauchy matrix is always invertible. Row numbers are
  truncated to bytes, so this holds up to 256 rows and fails beyond (`Cauchy.CauchyLimit`).
- `send_single_mr` counts a slab even when it found none, and `send_mr` with size 0 hands out every free slab while counting
  none; `recv_done` trusts the count in the message and indexes with -1 for a slab that is not held; a 33rd client is counted
  without a slot. `Monitor.StepBalanced` gives the exact condition under which the books stay balanced, and
  `BindWithoutSlab`, `DoneWithoutFlag`, `DoneForNothing` and `ThirtyThirdClient` reach moments at which they do not.
- After such a bind the monitor reports a negative amount of free memory. `IS_single_chunk_map` tests the NDISKS-th largest
  report against 0 only: `Placement.AcceptsIs` says when it passes, `ChosenHaveMemory` when all chosen servers have memory, and
  `NegativeReportPasses` is a case where the two differ.
- With fewer than NDATAS mapped shards the search for a parity in `IS_rdma_read` runs past its array: `ShardIo.PostReads` and
  `NoGoodParity`.
- `IS_disconnect_handler` reads `cb_state_list[j]` before it tests `j < 0`, so for an unmapped shard it reads the word before
  the list. `BlockDevice.ScanErrors` says exactly when, and that the lists do not depend on that word; `ScanLeavesList` is a
  case.
- `evict_handler` unmaps shards without rebuilding the error lists. `BlockDevice.Readable` is the exact condition under which a
  read is right (`Device.Read`, `Device.StaleRead`); `BlockDevice.EvictDataShard` is a case where it fails, and
  `DeviceRuns.ReadableThroughout` says after which disconnects and evictions it holds.
- A write is acknowledged at its NDATAS-th completion, whether or not more shards are mapped, and never with fewer
  (`WriteAck.AcknowledgeWrite`). What has been written by then determines the data (`AckedShardsDetermine`), but the next read
  may fetch other shards (`ReadAfterAck`).
- `IS_single_chunk_init` takes whatever slot an answer names, and `evict_handler` whatever slots a STOP marks.
  `SlabMap.MapNeedsFreeSlot` says that the slot must be free; `Agreement.NextMessage` says why the monitors' messages are right
  at the moment at which they are taken in, although the counters of the monitors may be wrong.
- `mk_gf_field` writes slot 1 of the logarithm table twice, first 0 and then 255.

## Model

| member | source | states |
|---|---|---|
| `GaloisField.MulXor` | resilience_manager/erasure_code/ec_base.c:303-318 | multiplication modulo 0x11d distributes over XOR, the reason why every code below is linear |
| `GaloisField.MulXtime` | resilience_manager/erasure_code/gf_vect_dot_prod_1tbl.c:66-77 | multiplying by x commutes with doubling the other factor |
| `GaloisField.MulComm` | resilience_manager/erasure_code/ec_base.c:48-60 | the product does not depend on the order of its factors |
| `GaloisField.MulAssoc` | resilience_manager/erasure_code/ec_base.c:48-60 | products may be regrouped |
| `GaloisField.MulOne` | resilience_manager/erasure_code/ec_base.c:48-60 | 1 is neutral on both sides |
| `GfTables.GffMatchesHeader` | resilience_manager/erasure_code/ec_base.h:35-62 | the 256 literal bytes of gff_base are the successive powers of x |
| `GfTables.PowersCover` | resilience_manager/erasure_code/ec_base.h:35-62 | every nonzero byte is a power of x with exponent between 1 and 255 |
| `GfTables.GflogGff` | resilience_manager/erasure_code/gf_vect_dot_prod_1tbl.c:66-77 | the logarithm inverts the antilogarithm on 1..255 |
| `GfTables.GffGflog` | resilience_manager/erasure_code/gf_vect_dot_prod_1tbl.c:66-77 | the antilogarithm inverts the logarithm on every nonzero byte |
| `GfTables.MkGfField` | resilience_manager/erasure_code/gf_vect_dot_prod_1tbl.c:66-77 | the loop leaves the power table in gff and, although it writes one slot twice, the inverse of it in gflog |
| `GflogTable.GflogMatchesHeader` | resilience_manager/erasure_code/ec_base.h:64-91 | the 256 literal bytes of gflog_base are the logarithms: the table that the loop of mk_gf_field builds |
| `GflogTable.TableMulIsMul` | resilience_manager/erasure_code/ec_base.c:48-60 | look-up in the literal tables with one conditional subtraction of 255 is polynomial multiplication modulo 0x11d, for all 65536 pairs |
| `GflogTable.TableInvIsInverse` | resilience_manager/erasure_code/ec_base.c:62-72 | the look-up in the literal tables gives the multiplicative inverse of every nonzero byte, and 0 for 0 |
| `GfTables.MulCancel` | resilience_manager/erasure_code/ec_base.c:48-72 | a nonzero factor can be cancelled |
| `Matrices.DotPlus` | resilience_manager/erasure_code/ec_base.c:303-318 | dot products of any length distribute over XOR |
| `Matrices.DotTimes` | resilience_manager/erasure_code/ec_base.c:303-318 | a scalar factor moves out of a dot product of any length |
| `Matrices.DotComb` | resilience_manager/erasure_code/ec_base.c:303-318 | combining rows first or multiplying first gives the same: associativity of the matrix product |
| `GaussJordan.SwapSound` | resilience_manager/erasure_code/ec_base.c:135-143 | swapping two rows in both matrices keeps `out * start == in` and the kernel |
| `GaussJordan.ScaleSound` | resilience_manager/erasure_code/ec_base.c:146-150 | scaling a row by the inverse of its pivot keeps both |
| `GaussJordan.AddRowSound` | resilience_manager/erasure_code/ec_base.c:156-160 | adding a multiple of the pivot row to another row keeps both |
| `GaussJordan.DeadColumn` | resilience_manager/erasure_code/ec_base.c:125-133 | a column without pivot below the diagonal yields a nonzero kernel vector |
| `GaussJordan.LeftInverse` | resilience_manager/erasure_code/ec_base.c:111-164 | an output that still tracks the start while the input has become the identity undoes the start |
| `GaussJordan.RightInverse` | resilience_manager/erasure_code/ec_base.c:111-164 | the left inverse of a nonsingular matrix is its right inverse |
| `GaussJordan.FinishedIsInverse` | resilience_manager/erasure_code/ec_base.c:111-164 | when the input has become the identity, the output is a two-sided inverse of what it was |
| `GaussJordan.FindPivot` | resilience_manager/erasure_code/ec_base.c:125-133 | finds the first nonzero entry below the diagonal, or reports that there is none |
| `GaussJordan.SwapRowsOf` | resilience_manager/erasure_code/ec_base.c:135-143 | swaps two rows in place and nothing else |
| `GaussJordan.ScaleRowOf` | resilience_manager/erasure_code/ec_base.c:147-150 | multiplies one row in place and nothing else |
| `GaussJordan.AddRowOf` | resilience_manager/erasure_code/ec_base.c:157-160 | adds a multiple of one row to another in place and nothing else |
| `GaussJordan.EliminateColumn` | resilience_manager/erasure_code/ec_base.c:152-161 | clears one column except for its pivot and keeps the progress made |
| `GaussJordan.GfInvertMatrix` | resilience_manager/erasure_code/ec_base.c:111-164 | returns 0 exactly for nonsingular input; then the input array is the identity and the output a two-sided inverse; on -1 there is a nonzero kernel vector |
| `Cauchy.FractionIdentity` | resilience_manager/erasure_code/ec_base.c:103-107 | the identity on 1/(r+a) and 1/(r+b) that lets one column of a Cauchy system be eliminated |
| `Cauchy.EliminatedVanishes` | resilience_manager/erasure_code/ec_base.c:103-107 | one elimination step leaves a scaled smaller Cauchy system |
| `Cauchy.CauchyTrivialKernel` | resilience_manager/erasure_code/ec_base.c:103-107 | a square Cauchy system over distinct bytes has only the zero solution |
| `Cauchy.KernelSolvesCauchy` | resilience_manager/erasure_code/ec_base.c:93-109 | a kernel vector of chosen rows solves the Cauchy system of the missing columns and the chosen parities |
| `Cauchy.AnyRowsNonsingular` | resilience_manager/erasure_code/ec_base.c:93-109 | for m <= 256 any k distinct rows of the encoding matrix form a nonsingular matrix |
| `Cauchy.RepeatedByteIsSingular` | resilience_manager/erasure_code/ec_base.c:103-107 | when a parity row number and a data row number agree as bytes, one replacement is singular |
| `Cauchy.CauchyLimit` | resilience_manager/erasure_code/ec_base.c:93-109 | for every k <= m: every choice of k rows is nonsingular if and only if m <= 256, or there are no data rows, or no parity rows |
| `Cauchy.GfGenCauchy1Matrix` | resilience_manager/erasure_code/ec_base.c:93-109 | on top the identity; below, entry (i,j) times i XOR j, as bytes, is 1, or both are 0 |
| `Cauchy.ParityEntryInverts` | resilience_manager/erasure_code/ec_base.c:103-107 | the same of the encoding matrix: a parity entry is the inverse of the XOR of its row and column number |
| `MulTables.NibbleLookup` | resilience_manager/erasure_code/ec_base.c:166-168 | two look-ups in a 32-byte table and one XOR multiply any byte |
| `MulTables.SecondEntry` | resilience_manager/erasure_code/ec_base.c:338-339 | byte 1 of a table is the coefficient it was made for |
| `MulTables.ByteTableIsMulTable` | resilience_manager/erasure_code/ec_base.c:207-272 | the byte-by-byte branch builds the product table |
| `MulTables.PackedTableIsMulTable` | resilience_manager/erasure_code/ec_base.c:176-205 | the branch with four 64-bit words writes the same 32 bytes |
| `MulTables.GfVectMulInit` | resilience_manager/erasure_code/ec_base.c:169-275 | writes the table at its place and leaves all other bytes alone |
| `MulTables.EcInitTables` | resilience_manager/erasure_code/ec_base.c:36-46 | table (l,j) stands at offset 32*(l*k+j), for every matrix |
| `MulTables.CoefficientInTable` | resilience_manager/erasure_code/ec_base.c:36-46 | coefficient (l,j) stands at offset 32*(l*k+j)+1 |
| `MulTables.TablesMultiply` | resilience_manager/erasure_code/ec_base.c:36-46 | two look-ups in the 32 bytes from 32*(l*k+j) on multiply any byte by coefficient (l,j) |
| `Encode.EncodeLinear` | resilience_manager/erasure_code/ec_base.c:303-318 | encoding the XOR of two data sets gives the XOR of their codes, for every number of shards and every length |
| `Encode.UpdateIsReencode` | resilience_manager/erasure_code/ec_base.c:320-334 | updating with a difference gives the code of the data with that difference added |
| `Encode.UpdateReplaces` | resilience_manager/erasure_code/ec_base.c:320-334 | updating with old XOR new turns the parity of the old data into that of the new |
| `Encode.UpdatesComplete` | resilience_manager/erasure_code/ec_base.c:320-334 | updates for the missing sources, in any order, complete a partial code |
| `Encode.UpdatesFromZero` | resilience_manager/erasure_code/ec_base.c:320-334 | one update per source, in any order, on zeroed outputs equals one full encode |
| `Encode.EncodeRowBase` | resilience_manager/erasure_code/ec_base.c:310-316 | one output shard is the dot product of its row with each byte column; bytes beyond len are kept |
| `Encode.EcEncodeDataBase` | resilience_manager/erasure_code/ec_base.c:303-318 | all output shards are the code of the data shards |
| `Encode.GfVectDotProdBase` | resilience_manager/erasure_code/ec_base.c:277-289 | the one-row form computes one encoded row |
| `Encode.GfVectMadBase` | resilience_manager/erasure_code/ec_base.c:291-301 | adds the multiple of one source to the output; bytes beyond len are kept |
| `Encode.EcEncodeDataUpdateBase` | resilience_manager/erasure_code/ec_base.c:320-334 | all outputs move by the contribution of one source |
| `Simd.ProductsMultiply` | resilience_manager/erasure_code/gf_2vect_mad_avx.asm:187-193 | masking, shifting 16-bit words, two shuffles and an XOR multiply every lane of a register by the coefficient |
| `MadKernels.BlockStep` | resilience_manager/erasure_code/gf_2vect_mad_avx.asm:181-206 | accumulating one block extends the finished prefix by 16 bytes |
| `MadKernels.Gf2VectMadAvx` | resilience_manager/erasure_code/gf_2vect_mad_avx.asm:160-226 | for every length of at least 16 both outputs end as the scalar loop leaves them: the restored tail block is accumulated once; shorter lengths return 1 and change nothing |
| `MadKernels.TailMask` | resilience_manager/erasure_code/gf_2vect_mad_avx512.asm:204-209 | the arithmetic shift of 1<<63 sets exactly the lanes that are not yet accumulated |
| `MadKernels.MaskedTail` | resilience_manager/erasure_code/gf_2vect_mad_avx512.asm:210-211 | one more masked block finishes the output without touching finished bytes |
| `MadKernels.Gf2VectMadAvx512` | resilience_manager/erasure_code/gf_2vect_mad_avx512.asm:153-216 | for every length of at least 64 both outputs end as the scalar loop leaves them |
| `DotKernels.DotBlock` | resilience_manager/erasure_code/gf_3vect_dot_prod_avx.asm:282-341 | the loop over sources computes 16 bytes of every row |
| `DotKernels.GfVectDotProdAvx` | resilience_manager/erasure_code/gf_3vect_dot_prod_avx.asm:264-357 | for any number of rows and every length of at least 16 each row is encoded, including the overlapped tail; shorter lengths return 1 |
| `DotKernels.NextGroup` | resilience_manager/erasure_code/ec_highlevel_func.c:75-77 | the table pointer advances in step with the rows |
| `DotKernels.EcEncodeDataAvx` | resilience_manager/erasure_code/ec_highlevel_func.c:65-93 | for every length, every k >= 1 and every number of rows the result is the code of the data, as for the scalar loop |
| `Decode.DataShards` | resilience_manager/erasure_code/ec_base.c:98-101 | the code is systematic: the first k shards are the data |
| `Decode.EnoughSurvivors` | resilience_manager/is_main.c:86-95 | with at most m-k errors at least k shards survive |
| `Decode.NextSurvivor` | resilience_manager/is_main.c:88-89 | skips lost rows and stops at the next surviving one |
| `Decode.TakeSurvivors` | resilience_manager/is_main.c:86-95 | collects the first k surviving rows and their numbers |
| `Decode.DataRowRecovers` | resilience_manager/is_main.c:121-125 | a row of the inverse gives back a lost data shard |
| `Decode.ParityRowRecovers` | resilience_manager/is_main.c:126-136 | an encoding row times the inverse gives back a lost parity shard |
| `Decode.ParityEntry` | resilience_manager/is_main.c:129-134 | the inner loop is a dot product of an encoding row and a column of the inverse |
| `Decode.CombineParityRows` | resilience_manager/is_main.c:126-136 | fills the rows of the decode matrix that belong to parities |
| `Decode.GfGenDecodeMatrix` | resilience_manager/is_main.c:73-138 | from proper error lists: always returns 0 for the Cauchy matrix; decode_index lists the first k survivors; the result restores every lost shard of every data set from them |
| `Decode.RoundTrip` | resilience_manager/is_main.c:1159-1179 | a matrix that recovers every byte column restores whole shards, of any contents and length |
| `Recovery.RestoreLost` | resilience_manager/is_main.c:86-136 | encode, lose any at most m-k shards, build the decode matrix and tables, recover: every data and parity shard is back, for all k <= m <= 256, contents, lengths, losses and leftovers in the buffers |
| `Striping.PageNumber` | resilience_manager/is_mq.c:113-136 | a page-aligned address is one page of one slab, and the address can be rebuilt from both |
| `Striping.RequestFits` | resilience_manager/is_main.c:389-391 | a page-aligned request inside one slab stays inside every chunk |
| `Striping.PagesDisjoint` | resilience_manager/is_main.c:389-391 | different pages lie in different slabs or in disjoint ranges of every chunk |
| `Striping.SplitByte` | resilience_manager/is_main.c:437-446 | byte j of strip i of page t is byte t*w+j of shard i |
| `Striping.JoinOfSplit` | resilience_manager/is_main.c:1202-1209 | joining what was split gives the pages back, for any number of pages |
| `Striping.SplitOfJoin` | resilience_manager/is_main.c:1202-1209 | splitting what was joined gives the shards back, so nothing in a shard is lost |
| `ShardIo.PostReads` | resilience_manager/is_main.c:305-332 | the search for parities stays inside cb_index if and only if at least k shards are mapped; the posted shards are then exactly the first k survivors, the rows of decode_index |
| `ShardIo.GoodParity` | resilience_manager/is_main.c:307 | finds the next mapped parity, or passes the end of the list when there is none |
| `ShardIo.NoGoodParity` | resilience_manager/is_main.c:307 | an index list with which the search leaves the list |
| `ShardIo.WaitForReads` | resilience_manager/is_main.c:334-343 | visits each posted shard once, and the countdown started at NDATAS reaches zero exactly at the last one |
| `WriteAck.AcknowledgeWrite` | resilience_manager/is_main.c:1228-1245 | a write is acknowledged at its NDATAS-th completion and only then: at all if and only if NDATAS shards are mapped, and after all of them are written if and only if no more are |
| `WriteAck.ReadAfterAck` | resilience_manager/is_main.c:363-364 | in whatever order completions come in, the next read fetches written shards only, if and only if exactly NDATAS shards are mapped |
| `WriteAck.AckedShardsDetermine` | resilience_manager/is_main.c:363-364 | the NDATAS shards written by then determine all the data |
| `Pages.DataByte` | resilience_manager/is_main.c:437-446 | a data shard holds the page's own bytes |
| `Pages.CodewordByte` | resilience_manager/is_main.c:437-451 | what a shard holds at a byte depends on the same byte of the page's strips only |
| `Pages.RecoveredByte` | resilience_manager/is_main.c:1159-1179 | recovery is right byte by byte, also where the rest of the shards holds no code word |
| `Pages.SplitInto` | resilience_manager/is_main.c:437-446 | the copy loops put strip i of every page into buffer i |
| `Pages.EncodePages` | resilience_manager/is_main.c:416-451 | the write path up to the posts yields all shards of the code word of the pages |
| `Pages.RecoverShards` | resilience_manager/is_main.c:1158-1180 | lost shards are encoded in place from the survivors, the other buffers keep their bytes |
| `Pages.JoinPages` | resilience_manager/is_main.c:1202-1209 | the copy loops put the pages together from the data buffers |
| `BlockDevice.ScanErrors` | resilience_manager/is_main.c:685-699 | finds exactly the lost shards before the (m-k)-th one, as proper error lists, whatever the word before cb_state_list holds; reads that word if and only if some scanned shard is unmapped; misses nothing while k shards are left |
| `BlockDevice.ScanLeavesList` | resilience_manager/is_main.c:690-691 | an index list with which the scan reads before cb_state_list |
| `ShardStore.PublishedApart` | resilience_manager/is_mq.c:115-134 | the mapping tables never lead two shards to the same slot of the same server |
| `ShardStore.PostWrites` | resilience_manager/is_main.c:455-478 | each mapped shard's slab gets its strips in one range; no other byte of any server changes |
| `ShardStore.PostedGroup` | resilience_manager/is_main.c:455-478 | seen by shards, a write puts each strip into its own shard |
| `ShardStore.Receive` | resilience_manager/is_main.c:305-332 | each fetched buffer comes from its shard's server and slot, the others keep their leftovers |
| `ShardStore.RemappedStored` | resilience_manager/is_main.c:714-723 | shards that stay mapped keep their bytes when others are unmapped |
| `ShardStore.WriteKeepsStored` | resilience_manager/is_main.c:349-489 | after a write every mapped shard holds the right bytes of every page written so far |
| `ReadPath.SourceFetched` | resilience_manager/is_main.c:305-343 | a source of the recovery that is still mapped is among the fetched shards, also when the error lists are out of date |
| `ReadPath.ReadByte` | resilience_manager/is_main.c:1143-1209 | after recovery each data buffer holds the bytes of the last written page |
| `ReadPath.ReadGroup` | resilience_manager/is_main.c:239-347 | posts, waits, recovery and copies compute ReadResult; the posts stay inside the list if and only if k shards are mapped |
| `ReadPath.ReadIsRight` | resilience_manager/is_main.c:1143-1209 | where every shard that the read needs is mapped, it returns every written page |
| `ReadPath.SourceMatters` | resilience_manager/is_main.c:121-136 | every parity that the decode matrix uses has a nonzero share in some lost data shard |
| `ReadPath.ReadIsWrong` | resilience_manager/is_main.c:1143-1209 | where such a shard is missing, there are leftovers with which the first page comes back wrong: the condition is exact |
| `BlockDevice.BuildDecoder` | resilience_manager/is_main.c:685-711 | error lists, decode matrix and decode tables fit together after a disconnect |
| `BlockDevice.Device.constructor` | resilience_manager/is_main.c:1732-1742 | matrices and tables as those lines spell out; chunks may hold anything |
| `BlockDevice.Device.Write` | resilience_manager/is_main.c:349-489 | exactly the given run of pages is replaced, and what every operation keeps is kept |
| `BlockDevice.Device.Read` | resilience_manager/is_main.c:239-347 | stays inside its lists if and only if k shards are mapped; the result as a function of the slabs, the tables and the leftovers; the written pages where nothing that is needed is missing |
| `BlockDevice.Device.StaleRead` | resilience_manager/is_main.c:1143-1209 | and otherwise, for some leftovers in the buffers, a wrong first page |
| `BlockDevice.ReadableIs` | resilience_manager/is_main.c:1143-1209 | what a read needs, in terms of the error lists and the mapping tables alone |
| `BlockDevice.Device.Evict` | resilience_manager/is_main.c:925-959 | exactly the stopped chunks become unmapped and all others keep their bytes; the error lists are not rebuilt |
| `BlockDevice.EvictedDataShard` | resilience_manager/is_main.c:925-959 | with a data shard gone from an otherwise complete group and no error known, k shards are left to fetch, but a read is not right |
| `BlockDevice.EvictDataShard` | resilience_manager/is_main.c:896-959 | a device, a complete group and the eviction of one data shard, after which a read with these leftovers returns a wrong first page |
| `BlockDevice.Device.Disconnect` | resilience_manager/is_main.c:649-723 | the server has failed in every case; exactly its shards become unmapped, and the error lists are made anew unless it had no chunks |
| `BlockDevice.RequestRange` | resilience_manager/is_main.c:389-391 | offset and length of a request divided by NDATAS are the range of its pages in every chunk |
| `DeviceRuns.OneLostAtMost` | resilience_manager/is_main.c:714-723 | a disconnect or an eviction costs a group on distinct servers at most one shard |
| `DeviceRuns.RememberWrite` | resilience_manager/is_mq.c:92-145 | a write by byte address changes the bytes of its range and no others |
| `DeviceRuns.ReturnsAnswers` | resilience_manager/is_mq.c:92-145 | right pages are right bytes at every address of a read |
| `DeviceRuns.DoWrite` | resilience_manager/is_mq.c:92-145 | a write of bytes: the chunk offset is an NDATAS-th of the slab offset |
| `DeviceRuns.DoRead` | resilience_manager/is_mq.c:92-145 | a read of bytes: the last write at each address, where the tables make it readable |
| `DeviceRuns.DoEvict` | resilience_manager/is_main.c:896-959 | a STOP for the slabs of any of the shards that a server holds: exactly those shards become unmapped |
| `DeviceRuns.DoOp` | resilience_manager/is_main.c:649-1209 | one event: its effect on the bytes, on the tables and on the error lists |
| `DeviceRuns.RunOps` | resilience_manager/is_main.c:649-1209 | over any sequence of writes, reads, disconnects and evictions, every read returns the last byte written at each of its addresses whenever the tables of its moment, a function of the events so far, make it readable |
| `DeviceRuns.StatesAfterRun` | resilience_manager/is_main.c:671-674 | after any events exactly the servers that have disconnected have failed; all other states are as before |
| `DeviceRuns.ShardsAfterRun` | resilience_manager/is_main.c:649-959 | after any events exactly the shards that no disconnect and no eviction takes away are mapped, where they were |
| `DeviceRuns.LastWriteIs` | resilience_manager/is_mq.c:92-145 | the last write at an address is the byte of a write that no later write covers |
| `DeviceRuns.DisconnectKept` | resilience_manager/is_main.c:685-723 | a disconnect brings the error lists up to date while at most NDISKS-NDATAS shards are lost |
| `DeviceRuns.RunKept` | resilience_manager/is_main.c:649-959 | after any events at most as many shards are lost as there were disconnects and evictions; the lists are up to date if a disconnect came after the last eviction |
| `DeviceRuns.ReadableThroughout` | resilience_manager/is_main.c:649-959 | so a complete group on distinct servers is readable after any NDISKS-NDATAS disconnects and evictions of which no eviction comes last |
| `DeviceRuns.NoEvictions` | resilience_manager/is_main.c:649-723 | without evictions that last condition always holds |
| `SlabMap.FreeCountsUnmapped` | resilience_manager/is_mq.c:369 | free_chunk_index + 1 is the number of session chunks that no server holds |
| `SlabMap.MapSteps` | resilience_manager/is_mq.c:369-371 | no store before the last one exposes a chunk to readers |
| `SlabMap.MapSettled` | resilience_manager/is_mq.c:369-376 | the last store publishes it and all tables agree again |
| `SlabMap.MapNeedsFreeSlot` | resilience_manager/is_mq.c:364-376 | readers stay safe if and only if the slot that is taken was free: naming a slot in use would cut off its chunk |
| `SlabMap.CutPublished` | resilience_manager/is_main.c:715-723 | readers stay safe as long as index entries go before the other tables' entries |
| `SlabMap.CutSettled` | resilience_manager/is_main.c:758-766 | after a server has lost slots all tables agree again |
| `SlabMap.Session.constructor` | resilience_manager/is_main.c:2121-2131 | all chunks unmapped and counted as free |
| `SlabMap.Session.Do` | resilience_manager/is_mq.c:369-376 | one store: the history of all moments grows by it and stays safe for readers |
| `SlabMap.Session.SingleChunkInit` | resilience_manager/is_mq.c:358-380 | takes the first offered slot, publishes last; the whole new state |
| `SlabMap.Session.RetractAll` | resilience_manager/is_main.c:714-723 | index entries of the server go first |
| `SlabMap.Session.ReleaseAll` | resilience_manager/is_main.c:758-766 | then its chunks are counted as free and its slots are cleared |
| `SlabMap.Session.Unmap` | resilience_manager/is_main.c:714-766 | both loops of a disconnect: exactly the server's chunks are unmapped, and every moment is safe |
| `SlabMap.Session.Evict` | resilience_manager/is_main.c:925-959 | exactly the stopped slots are given up, and every moment is safe |
| `Placement.Available` | resilience_manager/is_main.c:1994-2008 | exactly the servers that are idle, connected or mapped, each once |
| `Placement.Probe` | resilience_manager/is_main.c:2011-2016 | the cyclic search ends at the first available server from its random number on that is not taken |
| `Placement.OneLeft` | resilience_manager/is_main.c:2010-2019 | while more servers are available than taken, one is left to find |
| `Placement.SelectServers` | resilience_manager/is_main.c:1994-2019 | all available servers in order, or NDISKS+1 distinct ones drawn at random; all of them idle, connected or mapped |
| `Placement.QueryFreeMem` | resilience_manager/is_main.c:2029-2057 | each selected server's answer stands beside its number; idle servers become connected |
| `Placement.SwapReports` | resilience_manager/is_main.c:2062-2069 | exchanging two entries of both arrays keeps each answer beside its server and loses none |
| `Placement.NthLargest` | resilience_manager/is_main.c:2059-2073 | the n-th entry of the sorted list is above a bound if and only if n reports are |
| `Placement.SortFreeMem` | resilience_manager/is_main.c:2059-2071 | the exchanges by addition and subtraction permute the servers so that the NDISKS largest come first, in order, and change no count; reports may be negative |
| `Placement.TopAre` | resilience_manager/is_main.c:2059-2078 | the first NDISKS servers are distinct, in descending order, and have at least as much memory as any that is passed over |
| `Placement.AcceptsIs` | resilience_manager/is_main.c:2073-2077 | the test against 0 passes if and only if NDISKS reports are positive, or fewer than NDISKS are at least 0 |
| `Placement.ChosenHaveMemory` | resilience_manager/is_main.c:2073-2077 | all chosen servers report memory if and only if NDISKS of the queried ones do |
| `Placement.HonestReports` | resilience_manager/is_main.c:2073-2077 | while no report is negative, passing the test and having memory everywhere are the same |
| `Placement.NegativeReportPasses` | resilience_manager/is_main.c:2073-2077 | a negative report with which the test passes and a server without memory is chosen |
| `Placement.ChooseServers` | resilience_manager/is_main.c:1972-2078 | selection, query and sort together, and the exact outcome of the test |
| `Placement.BindGroup` | resilience_manager/is_main.c:2079-2096 | each chunk of the group is bound to its own server, or stays unmapped if that server has no slab |
| `Placement.SingleChunkMap` | resilience_manager/is_main.c:1972-2098 | whom it asks and chooses, when it goes on to bind, every server state afterwards, and each chunk of the group with its own server if that has a slab, never with one that is evicting or has failed; on -1 nothing is mapped |
| `Placement.NextNamesFree` | resilience_manager/is_mq.c:364-376 | while no server names a slot twice, each answer names slots that are free on this side |
| `Placement.UsedStep` | resilience_manager/is_mq.c:364-376 | and only named slots come into use |
| `Placement.AnsweredIsMapped` | resilience_manager/is_main.c:1637-1648 | if every bind is answered with a slab, every chunk of the placed groups is mapped |
| `Placement.OneAttempt` | resilience_manager/is_main.c:1644-1646 | one call: what it found and did, and the groups before it untouched |
| `Placement.RdmaTrigger` | resilience_manager/is_main.c:1637-1648 | each attempt's choice and outcome, chained from the first chunk and the states at the start; each placed group bound to its attempt's servers, distinct and neither evicting nor failed; with NDISKS available servers that have memory enough attempts place every group |
| `Agreement.OneTaken` | resource_monitor/rdma-common.c:658-683 | a bind of one slab names at most one |
| `Agreement.TakenUnlisted` | resource_monitor/rdma-common.c:658-683 | and none that is in its client's map |
| `Agreement.AnswerAgrees` | resource_monitor/rdma-common.c:658-683 | an answer under way accounts for the slab that the monitor has entered and the client has not yet |
| `Agreement.StopAgrees` | resource_monitor/rdma-common.c:725-736 | a STOP under way accounts for the slabs that the client still uses |
| `Agreement.TakeAgrees` | resilience_manager/is_mq.c:358-380 | taking in the next message keeps both sides in agreement |
| `Agreement.DoneAgrees` | resource_monitor/rdma-common.c:482-497 | so does a DONE message, whatever count it carries; all its flags are on slabs that are held |
| `Agreement.ForeignAgrees` | resource_monitor/rdma-common.c:517-573 | and so does everything that a monitor does for other clients or with its memory |
| `Agreement.NextMessage` | resilience_manager/is_mq.c:358-380 | the next message is what its handler relies on: an answer finds its chunk unmapped and names free slots, a STOP marks slots in use |
| `Agreement.HandledRows` | resilience_manager/is_main.c:925-959 | what handling a message does to the client's tables |
| `Agreement.MoveLinked` | resource_monitor/rdma-common.c:517-573 | every move of the protocol keeps all connections in agreement up to the messages under way |
| `Agreement.RunLinked` | resource_monitor/rdma-common.c:517-573 | so every moment of every run does, with any number of servers, other clients, evictions, disconnects from either side and reconnections |
| `Agreement.RunSameSlots` | resource_monitor/rdma-common.c:517-573 | whenever no message of a connection is under way, the client uses exactly the slabs that the monitor has entered for it |
| `Agreement.OthersStay` | resource_monitor/rdma-common.c:517-573 | a move changes the books, the connection and the slots of its own server only |
| `Agreement.ElsewhereSteps` | resource_monitor/rdma-common.c:517-573 | what a monitor does for others changes its own books only |
| `Agreement.JoinStarts` | resource_monitor/rdma-common.c:109-122 | a new connection takes the first idle client slot and starts with no message under way |
| `Agreement.BindCompletes` | resilience_manager/is_mq.c:358-380 | a bind that is answered and taken in maps its chunk in a slab that the monitor has entered for the client, if and only if the monitor had one |
| `Agreement.NamesOne` | resource_monitor/rdma-common.c:658-683 | a bind of one slab names one if and only if there is an unowned one |
| `Agreement.EvictionCompletes` | resilience_manager/is_main.c:896-959 | a STOP that is taken in and answered takes its slabs from the client and frees them, and no others |
| `Agreement.ClientDropsFirst` | resilience_manager/is_main.c:649-766 | when the client drops a connection and then the monitor, neither has anything left of the other |
| `Agreement.ServerDropsFirst` | resource_monitor/rdma-common.c:173-206 | nor when the monitor drops it first |
| `Agreement.AnswersNameFree` | resource_monitor/rdma-common.c:658-683 | when no message is under way, all monitors' next answers meet what the placement of a group relies on |
| `Agreement.GivenOnce` | resource_monitor/rdma-common.c:658-683 | a slab is named in two answers only if its client has returned it in between |
| `System.PlaceGroup` | resilience_manager/is_main.c:1972-2098 | the group of an empty session is placed if and only if the attempt succeeds and every chosen server has a slab, each chunk on its own live server; which is so with enough available servers that have memory and slabs |
| `System.PlaceAndRun` | resilience_manager/is_main.c:649-2098 | placement, device and run together: every read returns the last byte written at each address while the tables make it readable, which they do for NDISKS-NDATAS disconnects and evictions of which no eviction comes last |
| `Monitor.InitialSize` | resource_monitor/rdma-common.c:225-234 | no slab up to 10 GB of free memory, then all above 10, from 21 on all above 15, and at most 32 |
| `Monitor.ReportedIsFree` | resource_monitor/rdma-common.c:715-723 | size_gb - mapped_size, the memory reported to clients, is the number of free slabs |
| `Monitor.MappedSizeIsTotal` | resource_monitor/rdma-common.c:704-705 | mapped_size is the sum of the clients' mapped_chunk_size |
| `Monitor.ConnectBalanced` | resource_monitor/rdma-common.c:83-128 | a new connection keeps the accounting invariant if and only if a client slot is idle |
| `Monitor.DisconnectBalanced` | resource_monitor/rdma-common.c:173-206 | a destroyed connection keeps it |
| `Monitor.BindBalanced` | resource_monitor/rdma-common.c:684-713 | a bind keeps it if and only if it finds as many free slabs as it is for, and a bind for none comes from a client that holds some |
| `Monitor.DoneBalanced` | resource_monitor/rdma-common.c:482-514 | a DONE message keeps it if and only if it flags slabs that its client holds and its count is the number of its flags |
| `Monitor.ExpandBalanced` | resource_monitor/rdma-common.c:456-472 | expanding keeps it and allocates exactly the amount that is added to size_gb |
| `Monitor.FreeUnmappedBalanced` | resource_monitor/rdma-common.c:272-288 | freeing unowned slabs keeps it |
| `Monitor.ConnectEffect` | resource_monitor/rdma-common.c:109-122 | a connection takes the first idle slot and starts with nothing; without one only the number of clients grows |
| `Monitor.DisconnectEffect` | resource_monitor/rdma-common.c:186-199 | the slabs that the client's own map lists become free, if its counter is positive |
| `Monitor.BindEffect` | resource_monitor/rdma-common.c:684-713 | the lowest unowned slabs go to the client, as many as asked for, or all for 0 or when there are fewer |
| `Monitor.DoneEffect` | resource_monitor/rdma-common.c:482-513 | exactly the flagged slabs of the client are freed; it is only connected when its counter has come down to 0 |
| `Monitor.ExpandEffect` | resource_monitor/rdma-common.c:456-472 | the lowest empty slabs are allocated, up to free memory minus 20 more, and at most 32 in all |
| `Monitor.FreeUnmappedEffect` | resource_monitor/rdma-common.c:272-288 | the lowest unowned slabs are freed, as many as asked for or all, and size_gb falls by their number |
| `Monitor.StepBalanced` | resource_monitor/rdma-common.c:517-573 | any one step keeps it if and only if the event is honest in this sense |
| `Monitor.RunBalanced` | resource_monitor/rdma-common.c:517-573 | over a whole run the books balance at every moment if and only if every event was honest |
| `Monitor.InitialSound` | resource_monitor/rdma-common.c:213-252 | at the start all maps agree |
| `Monitor.StepSound` | resource_monitor/rdma-common.c:517-573 | every event, honest or not, keeps the maps of connected clients and of the monitor in agreement, whatever the counters say |
| `Monitor.OneLister` | resource_monitor/rdma-common.c:658-683 | no two connected clients' maps list the same slab |
| `Monitor.StaysListed` | resource_monitor/rdma-common.c:482-497 | a slab stays with its client until that client returns it or leaves |
| `Monitor.BindWithoutSlab` | resource_monitor/rdma-common.c:658-683 | a reachable moment at which a bind unbalances the books, and the monitor then reports -1 GB |
| `Monitor.DoneWithoutFlag` | resource_monitor/rdma-common.c:482-514 | a reachable moment at which a DONE message with a wrong count does |
| `Monitor.DoneForNothing` | resource_monitor/rdma-common.c:490-496 | a reachable moment at which a flag on a slab that is not held leaves the arrays |
| `Monitor.ThirtyThirdClient` | resource_monitor/rdma-common.c:113-122 | the 33rd client is counted without a slot |
| `Monitor.RdmaSession.constructor` | resource_monitor/rdma-common.c:213-252 | the number of slabs for every amount of free memory; the whole initial state, which is balanced |
| `Monitor.RdmaSession.BuildConnection` | resource_monitor/rdma-common.c:109-122 | takes the first idle client slot; without one the client is counted all the same |
| `Monitor.RdmaSession.DestroyConnection` | resource_monitor/rdma-common.c:187-206 | exactly the slabs that the client's own map lists become free, if its counter is positive |
| `Monitor.RdmaSession.SendMr` | resource_monitor/rdma-common.c:684-713 | takes the first free slabs up to the size asked for; a size of 0 takes all of them |
| `Monitor.RdmaSession.SendSingleMr` | resource_monitor/rdma-common.c:658-683 | takes the first free slab, and counts one even if there is none |
| `Monitor.RdmaSession.RecvDone` | resource_monitor/rdma-common.c:482-514 | exactly the flagged slabs that the client holds are freed; other flags leave the arrays; the counters move by the message's count |
| `Monitor.RdmaSession.ExpandBy` | resource_monitor/rdma-common.c:456-472 | allocates the first empty slabs up to the amount |
| `Monitor.RdmaSession.FreeUnmappedSlabs` | resource_monitor/rdma-common.c:272-288 | frees the lowest unowned slabs up to the amount, lowers size_gb by their number, and reports what is still to be evicted |
| `Eviction.Probe` | resource_monitor/rdma-common.c:327-331 | the cyclic search ends at the first slab from its random number on that may be selected |
| `Eviction.DrawSlabs` | resource_monitor/rdma-common.c:326-334 | as many distinct owned slabs as asked for, drawn at random, and exactly their owners are on the send list |
| `Eviction.SelectClients` | resource_monitor/rdma-common.c:289-338 | the eviction count is capped by what is owned; all mapped clients are asked when that leaves fewer than two slabs, otherwise exactly the owners of two more than needed |
| `Eviction.CountCandidates` | resource_monitor/rdma-common.c:341-350 | the sum of the asked clients' counters is the number of their slabs |
| `Eviction.CollectReports` | resource_monitor/rdma-common.c:359-374 | the list holds every slab of every asked client once, and fills its array exactly |
| `Eviction.SwapLists` | resource_monitor/rdma-common.c:382-389 | an exchange of two entries keeps what the list holds |
| `Eviction.MoveLeast` | resource_monitor/rdma-common.c:381-390 | one round puts the least active remaining slab in place |
| `Eviction.ChooseVictims` | resource_monitor/rdma-common.c:380-399 | the STOP marks are the first evict_g entries, and exactly their owners are marked as losing slabs |
| `Eviction.VictimsAreLeastActive` | resource_monitor/rdma-common.c:380-399 | no slab that stays is less active than one that is stopped, and exactly evict_g slabs of asked clients are stopped |
| `Eviction.EvictMem` | resource_monitor/rdma-common.c:254-412 | the lowest unowned slabs are freed first; what is missing is taken from the least active slabs of the asked clients, as many as are needed and there are; whom it asks; the books stay balanced |
| `Mersenne.SeedStep` | resilience_manager/mt19937-64.c:63-67 | each word of the initial state is 6364136223846793005 times the scrambled word before it, plus its number |
| `Mersenne.SeedZero` | resilience_manager/mt19937-64.c:63-67 | seed 0 leads to 1 and 6364136223846793007 |
| `Mersenne.TwistLinear` | resilience_manager/mt19937-64.c:84-95 | the recurrence is linear over XOR in all three words |
| `Mersenne.TwistBit` | resilience_manager/mt19937-64.c:84-95 | and its images of every single bit in each of the three |
| `Mersenne.TemperLinear` | resilience_manager/mt19937-64.c:100-103 | tempering is linear over XOR |
| `Mersenne.TemperBits0` | resilience_manager/mt19937-64.c:100-103 | its images of the words with one of the bits 0 to 7 |
| `Mersenne.TemperBits1` | resilience_manager/mt19937-64.c:100-103 | its images of the words with one of the bits 8 to 15 |
| `Mersenne.TemperBits2` | resilience_manager/mt19937-64.c:100-103 | its images of the words with one of the bits 16 to 23 |
| `Mersenne.TemperBits3` | resilience_manager/mt19937-64.c:100-103 | its images of the words with one of the bits 24 to 31 |
| `Mersenne.TemperBits4` | resilience_manager/mt19937-64.c:100-103 | its images of the words with one of the bits 32 to 39 |
| `Mersenne.TemperBits5` | resilience_manager/mt19937-64.c:100-103 | its images of the words with one of the bits 40 to 47 |
| `Mersenne.TemperBits6` | resilience_manager/mt19937-64.c:100-103 | its images of the words with one of the bits 48 to 55 |
| `Mersenne.TemperBits7` | resilience_manager/mt19937-64.c:100-103 | its images of the words with one of the bits 56 to 63 |
| `Mersenne.TemperBijective` | resilience_manager/mt19937-64.c:100-103 | tempering is a bijection on 64-bit words, with its inverse given |
| `Mersenne.NextBlock` | resilience_manager/mt19937-64.c:84-95 | the three in-place segments turn a block of recurrence terms into the next block |
| `Mersenne.MTRand64.InitGenrand64` | resilience_manager/mt19937-64.c:63-67 | the first word is the seed, and each of the other 311 follows from the one before it by the literal multiplier and its number |
| `Mersenne.MTRand64.Genrand64Uint64` | resilience_manager/mt19937-64.c:72-106 | for every seed and every n the n-th call returns the tempered n-th term; an unseeded state behaves as seed 4357 |

## Left out

- `gf_gen_rs_matrix`: never called, and its matrix has no such guarantee for every size.
- The literal digits of `gf_mul_table_base` and `gf_inv_table_base`, another build's form of `gf_mul` and `gf_inv`.
- `mk_gf_mul_table` and `gf_vect_dot_prod_ref`: generators for tests of the same products.
- Row-major flattening: matrices are two-dimensional arrays, except for the table buffers, whose offsets are modelled.
- The retry loop of `gf_gen_decode_matrix`: unreachable, because inversion cannot fail for a choice of Cauchy rows.
- The one- and four-row AVX kernels are not spelled out one by one: `GfVectDotProdAvx` has the number of rows as a parameter
  and follows the two- and three-row code. The 32-bit paths, and the SSE, AVX2 and AVX-512 dot products, repeat it.
- BlockDevice.Device.Read: for reads without injected faults. When the search for a parity leaves its array, nothing is said
  about what follows.
- BlockDevice.Device.Disconnect: taken when no request is in flight; the sweep and retry of in-flight requests are not modelled.
- BlockDevice.Device: queue pairs, work requests, completion polling and the kernel block layer are steps that copy bytes.
- `REP` branches: they choose copies by the fault flag only.
- Placement.SingleChunkMap: one atomic step; server states do not change between selection and query. Reports are integers of
  any sign and size, so the additions of the exchange cannot overflow. The servers' answers are a parameter, with the named
  hypothesis `NamesFree`; `Agreement.AnswersNameFree` derives it from the monitors.
- Placement.RdmaTrigger: covers as many attempts as are given; `rdma_trigger` itself retries without limit. The answers have the
  named hypothesis `NeverTwice`; a server that is not asked in an attempt names nothing in it.
- SlabMap.Session.Evict: for STOP marks on slots in use, the named hypothesis `Named`; a mark on an empty slot is index -1 of
  the index map in the code. `Agreement.NextMessage` says that every STOP of the protocol meets it.
- Agreement: each message is taken in as one step, in the order in which it was sent; when a connection is lost, what is under way
  on it is lost too. At most one STOP of a connection is unanswered, as `send_stop` waits.
- WriteAck.AcknowledgeWrite: the order of completions is a parameter. `Device.Write` is one step that ends when all posted writes
  are in, so runs of the device do not interleave a read with an unfinished write.
- `IS_chunk_list_init`, the contents of `unmapped_chunk_list`, `remote_mapped`, `chunk_size_g` and `mapped_cb_num`; remapping
  after an eviction, and the activity report of `IS_send_activity`, which sends no activity.
- Monitor.RdmaSession: connection records are rows of the session's tables rather than separate objects. What a store outside
  an array overwrites is not modelled, only that it happens; nor is what a client without a slot sends later. Slab memory,
  registration and messages are not modelled, nor are the hit counters and the smoothing of free memory with floats, whose
  result is an input.
- Eviction.EvictMem: assumes that asked clients report every slab they own with a nonzero activity; the per-client STOP counts
  of `resource_monitor/rdma-common.c:403-409` are not modelled, since each uses the counter of the last victim's client.
- Fault injection, `einj/`, the deployment scripts and the 32-bit Mersenne Twister.
- Mersenne.MTRand64.Genrand64Uint64: seeding, state and tempering are modelled; the use of the numbers is not.
