# A verified model of qcow2, AES, the hash table, ARM constant pools and byte-level block access

This project models, in Dafny, five parts of the repository and proves what they promise:

* **qcow2** (`qemu/block-qcow2.c`): a copy-on-write disk image with two-level address tables, reference
  counts, snapshots, compressed clusters and encryption. `Layout`, `Refcounts` and `Invariant` define an image
  without caches and the invariant that `check_refcounts` checks. `GuestWrite`, `DataWrite`, `L1Grow`, `Walk`,
  `Snapshots`, `SnapshotCreate`, `SnapshotGoto`, `SnapshotDelete` and `TableMoves` define the operations on that
  image as functions and prove what each keeps. `Runs` proves that every run refines a flat disk that can save
  and restore copies of itself; `Fresh` starts runs from a created image. `Progress` and `OperationProgress`
  say exactly when an operation goes through. `Driver` is the class with all the caches (`Storage`, `L2Cache`,
  `Compressed`, `ClusterCache` hold what its invariant is made of); each method is proved against the
  cache-free operation. `Sessions` states the result for whole sessions. `ByteAlloc` is the byte allocator for
  compressed data; `HostBytes`, `Packing` and `Conversion` are compressed writes on the cache-free image,
  `CompressProgress` says when they go through, `PackCache` what they mean for the cluster cache, and
  `ConvertSessions` states the result for images filled that way. `Descriptor` holds the packed 64-bit words,
  `SnapTable` the snapshot table format, `SnapIds` the ids of snapshots created without one.
* **AES** (`qemu/aes.c`): `Rijndael` (the field, the S-boxes, the round steps), `Cipher` (cipher, inverse,
  equivalent inverse), `AesTables` (the lookup tables), `Aes` (key schedules and block functions), `Cbc`,
  `DiskCrypt` (CBC on buffers) and `SectorCrypt` (`encrypt_sectors`).
* **Hash table** (`qemu/hash.c`): `Bits`, `HashTable` and `HashRuns`.
* **ARM constant pools** (`qemu/dyngen.h`): `ArmPool`.
* **Byte access over sectors** (`qemu/block.c`): `ByteAccess`.

`Basics` and `Arith` hold what all of them share.

How the model reads the source:

* A cluster is its number, and what was last written to it is a tagged block: data sectors, an L2 table, part
  of an L1 table, reference counts, or other metadata. Every place that reads a cluster is proved to find the
  kind it expects.
* Division by a cluster, table or block size is `Row` and remainder is `Col`, for any positive size.
* The host file reads and writes successfully; the inflater is a parameter (`Env.inflate`), as are the deflater
  of a conversion and the sector cipher (`Env.enc`, `Env.dec`), which `SectorCrypt` instantiates with AES. Of
  zlib only this is used: inflating from where a deflated cluster starts gives the cluster back (`Zlib`).
* An operation that would leave the range where the source keeps its own invariant returns `None`: the refcount
  table would have to grow, a new refcount block would lie outside the range it describes, a count would leave
  0..0xffff, a snapshot has another L1 size, or an empty L1 table would have to grow, where the size loop of the
  source never ends. `OperationProgress.StepExact` proves these the only reasons.
* The literal T-tables are taken by the defining equations in the comment above them; the S-boxes are the literal
  tables.
* Memory allocation in the hash table is a parameter of each call, so that failed allocations are covered.

## Model

| member | source | states |
|---|---|---|
| Runs.RunRefines | qemu/block-qcow2.c:496-631 | For every run of writes, snapshot create, goto and delete on an image satisfying the invariant: the invariant (exact reference counts, COPIED exactly on count 1, tables stored where the header says) holds afterwards, and the active disk and every snapshot show what a flat disk with saved copies shows after the same requests. This contains snapshot isolation and refinement of a flat sector array. |
| Fresh.CreatedInv | qemu/block-qcow2.c:1050-1140 | The image laid out by qcow_create satisfies the whole invariant. |
| Fresh.CreatedShows | qemu/block-qcow2.c:1050-1140 | A new image shows its backing file, and zeros past its end. |
| Fresh.CreatedRun | qemu/block-qcow2.c:2147-2198 | After every run from a new image the invariant that check_refcounts checks holds and the image shows the flat disk of the same run over the backing file. |
| Runs.ChunksWrite | qemu/block-qcow2.c:759-792 | Cutting a request at cluster boundaries, as the write loop does, changes exactly sectors sn .. sn+|buf| of a flat disk and none of its saved copies. |
| Runs.ChunkCorrect | qemu/block-qcow2.c:759-792 | One turn of the write loop, L1 growth included, writes exactly its sectors in the guest view, keeps the invariant and keeps the view of every snapshot. |
| Runs.CreateShows | qemu/block-qcow2.c:1548-1616 | Creating a snapshot adds a copy of the active view under the new id and changes no other view. |
| Runs.GotoShows | qemu/block-qcow2.c:1619-1659 | Going to a snapshot makes the active view the saved one and changes no saved view; an unknown name changes nothing. |
| Runs.DeleteShows | qemu/block-qcow2.c:1661-1694 | Deleting a snapshot removes exactly that saved view; an unknown name changes nothing. |
| Sessions.Serve | qemu/block-qcow2.c:714-792 | Through the L2 cache, the refcount block cache and the cluster cache, every read of every session returns what a flat disk returns, and the session goes through exactly when the cache-free image goes through all its changes, ending in that image. |
| Sessions.ServeNew | qemu/block-qcow2.c:1050-1140 | The same from a newly created image, with the backing file as the flat disk. |
| Sessions.Perform | qemu/block-qcow2.c:1548-1694 | One change through the caches succeeds exactly when the cache-free image step does, ends in that image, and shows the flat step. |
| EncryptedSessions.ServeEncrypted | qemu/block-qcow2.c:347-367 | Sessions on an image encrypted with a 128, 192 or 256 bit AES key answer like the flat disk of plain text. |
| Refcounts.FirstFitSpec | qemu/block-qcow2.c:1799-1824 | The allocator finds the first run of n clusters with count 0 at or after its position. |
| Refcounts.UpdGrown | qemu/block-qcow2.c:1947-2008 | Adding a reference adds one to the count of that cluster; the only other change is at most one new refcount block, which was free, lies at or after the allocator position, and ends with count 1. |
| Refcounts.AllocSpec | qemu/block-qcow2.c:1799-1833 | alloc_clusters returns a contiguous run whose counts were 0 and are 1; all other counts stay, except new refcount blocks, which go from 0 to 1 and never fall inside the run; nothing else on disk changes. |
| Refcounts.FreeSpec | qemu/block-qcow2.c:1875-1879 | Freeing a run lowers exactly its counts by one and never moves the allocator past a cluster it freed. |
| Refcounts.FreeSucceeds | qemu/block-qcow2.c:2010-2029 | Freeing a run of counted clusters never fails. |
| Progress.AllocExact | qemu/block-qcow2.c:1947-2008 | alloc_clusters goes through if and only if the run it finds lies inside the refcount table and each of its clusters has a refcount block or shares its range with the cluster after the run. |
| OperationProgress.FullRange | qemu/block-qcow2.c:1964-1986 | For every geometry: on a new image whose L1 table fills the range of the first refcount block everything after it is free, yet a run as long as the second range cannot be allocated, because the block that would count it would leave that range; one cluster less can. |
| OperationProgress.AllocStuck | qemu/block-qcow2.c:1964-1986 | Such an image exists with 512-byte clusters, the smallest qcow_open accepts: 256 clusters cannot be allocated, 255 can. |
| Progress.WalkL1Exact | qemu/block-qcow2.c:1250-1363 | Walking a well-formed tree with -1, 0 or +1 goes through if and only if every count stays between 0 and 0xffff after all of its references are applied. |
| DataWrite.OwnL2Correct | qemu/block-qcow2.c:513-574 | Giving the active tree its own L2 table, new or copied from a shared one, keeps the invariant and every view, and leaves the slot unshared. |
| DataWrite.WriteCorrect | qemu/block-qcow2.c:575-630 | Writing sectors of one cluster, in place or copy-on-write, with the old data copied around them, keeps the invariant and all snapshot views and changes the active view at exactly those sectors. |
| DataWrite.FreeEntrySpec | qemu/block-qcow2.c:580-593 | Freeing the storage of an L2 entry lowers by one exactly the counts of the clusters the entry covers, all of them for a compressed one. |
| ClusterCache.PrepareFinish | qemu/block-qcow2.c:594-612 | Freeing, allocating, copying head and tail and then writing the data in two steps, as the code does, yields the same image as writing a fully composed cluster. |
| ClusterCache.MidReads | qemu/block-qcow2.c:369-392 | After the old storage was freed and a new cluster allocated, reading the cluster through the cluster cache still gives its old data, for uncompressed and compressed entries. |
| ClusterCache.ReadsAfterPut | qemu/block-qcow2.c:676-697 | Once part of the new cluster is written, even over the freed compressed data, a read still gives the old data, because a compressed cluster has been read into the cluster cache. |
| ClusterCache.CacheReads | qemu/block-qcow2.c:676-697 | With a coherent cluster cache every read of a cluster returns the guest data, cached or not. |
| Compressed.StepPacked | qemu/block-qcow2.c:676-697 | No write or snapshot request creates a compressed entry or changes the stored stream of one that stays reachable, so the cluster cache can be keyed by byte offset alone. |
| L1Grow.GrowCorrect | qemu/block-qcow2.c:427-481 | Growing the L1 table moves it to new clusters, frees the old ones, keeps the invariant and every view, and makes the table at least as long as asked. |
| Walk.WalkL1Spec | qemu/block-qcow2.c:1250-1363 | The tree walk adds a to the count of every cluster once per reference the tree makes, sets each COPIED flag to whether the final count is 1, and changes nothing else in any table. |
| Snapshots.WalkActiveSpec | qemu/block-qcow2.c:1250-1363 | The walk over the active table, written back to disk, has these effects on the whole image and leaves the L1 table stored at its offset. |
| SnapshotCreate.AddSnapCorrect | qemu/block-qcow2.c:1548-1616 | Saving the active tree keeps the invariant, the active view and all older snapshots, and the new snapshot views exactly the active disk. |
| SnapshotGoto.GotoCorrect | qemu/block-qcow2.c:1619-1659 | Going to a snapshot of equal L1 size keeps the invariant and every saved view, and the active view becomes the view of that snapshot. |
| SnapshotDelete.DropCorrect | qemu/block-qcow2.c:1661-1694 | Dropping a snapshot keeps the invariant, the active view and the views of all other snapshots, which move up by one. |
| TableMoves.WriteSnapsCorrect | qemu/block-qcow2.c:1435-1502 | Rewriting the snapshot table into new clusters and freeing the old ones keeps the invariant and every view. |
| OperationProgress.DropSucceeds | qemu/block-qcow2.c:1661-1694 | On an exact image with 16-bit counts all references of a snapshot can always be dropped. |
| OperationProgress.GotoExact | qemu/block-qcow2.c:1619-1659 | Going to a snapshot of equal size goes through if and only if no count would exceed 0xffff. |
| OperationProgress.AddSnapExact | qemu/block-qcow2.c:1548-1616 | Saving the active tree goes through if and only if no count would exceed 0xffff and the copy of the L1 table can be allocated. |
| OperationProgress.CreateExact | qemu/block-qcow2.c:1548-1616 | Creating a snapshot goes through if and only if additionally the new snapshot table can then be allocated. |
| OperationProgress.DeleteExact | qemu/block-qcow2.c:1661-1694 | Deleting a snapshot goes through if and only if the new snapshot table can be allocated. |
| OperationProgress.WriteSnapsExact | qemu/block-qcow2.c:1435-1502 | Rewriting the snapshot table fails only for lack of room. |
| OperationProgress.GrowExact | qemu/block-qcow2.c:427-481 | Growing the L1 table goes through if and only if it is long enough already, or it is not empty (the size loop would never end) and the longer table can be allocated. |
| OperationProgress.OwnExact | qemu/block-qcow2.c:513-574 | Taking an L2 table of its own needs a cluster exactly when the table is missing or shared. |
| OperationProgress.WriteSlotExact | qemu/block-qcow2.c:575-630 | A write within a cluster fails if and only if it needs a new cluster and none fits, counting the storage it has just freed. |
| OperationProgress.WriteClusterExact | qemu/block-qcow2.c:496-631 | One turn of the write loop goes through if and only if the L1 table can grow, then an L2 table of its own can be had, and then the cluster, counting the storage the write has just freed. |
| OperationProgress.StepExact | qemu/block-qcow2.c:1548-1694 | Every request, write or snapshot, goes through if and only if it fits: the conditions above are the only reasons for it not to. |
| OperationProgress.RunFitsExact | qemu/block-qcow2.c:759-792 | A whole run goes through if and only if each of its requests fits the image it meets. |
| OperationProgress.StepStored | qemu/block-qcow2.c:1947-2008 | Every request keeps every reference count within the 16 bits it is stored in. |
| ByteAlloc.AllocBytesSpec | qemu/block-qcow2.c:1837-1873 | A call adds one reference to each cluster its range touches and none elsewhere (new refcount blocks aside), and the range is disjoint from all ranges handed out before. |
| ByteAlloc.RunHanded | qemu/block-qcow2.c:1837-1873 | Over any run of calls without frees the ranges have the sizes asked for, are pairwise disjoint, lie in allocated clusters, and the count of each such cluster is the number of ranges touching it. |
| ByteAlloc.MoveStep | qemu/block-qcow2.c:1848-1871 | Case by case what alloc_bytes does; after freeByte moves to a new cluster the request fits, so the jump back always ends in the first branch. |
| HostBytes.PutBytesAt | qemu/block-qcow2.c:1220-1224 | After a write of bytes the bytes written read back and every other byte of a data cluster is unchanged, across sector and cluster boundaries. |
| HostBytes.PackedTouches | qemu/block-qcow2.c:616-623 | The sectors of a compressed entry lie in exactly the clusters its bytes touch, so freeing the entry drops exactly the references alloc_bytes added. |
| Packing.SharedLoose | qemu/block-qcow2.c:1837-1873 | A cluster that holds part of a compressed stream is referenced by compressed entries only. |
| Packing.LinkedInv | qemu/block-qcow2.c:615-630 | Entering a compressed word whose clusters were counted keeps the whole invariant. |
| Conversion.PackFiles | qemu/block-qcow2.c:615-630 | Storing a compressed cluster keeps the invariant, all streams stored before byte for byte, and the byte allocator in step with the reference counts. |
| Conversion.CompressCorrect | qemu/block-qcow2.c:1164-1229 | qcow_write_compressed of an unallocated cluster keeps the invariant and changes the guest view at exactly the sectors of that cluster, given that inflating a deflated cluster gives it back whatever bytes follow. |
| Conversion.ConvertRefines | qemu/block-qcow2.c:1164-1229 | Every run of compressed writes refines writing the same clusters to a flat disk, although streams share sectors and clusters. |
| Conversion.ConvertThenRun | qemu/block-qcow2.c:1164-1229 | After filling a new image with compressed clusters, every run of writes and snapshot requests still keeps the invariant and shows the flat disk. |
| CompressProgress.AllocBytesExact | qemu/block-qcow2.c:1837-1873 | alloc_bytes goes through if and only if the current cluster has room and its count can go up, or a cluster can be allocated. |
| CompressProgress.CompressExact | qemu/block-qcow2.c:1164-1229 | A compressed write of an unallocated cluster goes through if and only if the L1 table, the L2 table and then the bytes fit. |
| CompressProgress.FirstPacked | qemu/block-qcow2.c:615-630 | On a new image with two clusters to spare the first compressed write goes through and leaves a compressed word in an image that satisfies the invariant. |
| PackCache.PacksOnce | qemu/block-qcow2.c:676-697 | Compressed clusters are named by the byte their stream starts at: no two start at the same byte. |
| PackCache.StaleExact | qemu/block-qcow2.c:676-697 | After a compressed write the cluster cache is coherent if and only if it does not stand for the place just written or holds the data written there. |
| PackCache.KnownStays | qemu/block-qcow2.c:676-697 | It stays coherent whenever it is empty or stands for a compressed cluster of the image. |
| ConvertSessions.ConvertAll | qemu/block-qcow2.c:1164-1229 | Through the caches a conversion goes through exactly when it does without them, and ends in the same image. |
| ConvertSessions.ConvertAndServe | qemu/block-qcow2.c:714-792 | Every read of every session on a converted image returns what the flat disk with the converted clusters returns. |
| Descriptor.PackDecode | qemu/block-qcow2.c:616-623 | For cluster_bits 9..16 a packed descriptor decodes to its offset and to the minimal number of sectors covering the data, never touches the flag bits, and needs at most cluster_size + 512 bytes of buffer. |
| Descriptor.WordRoundTrip | qemu/block-qcow2.c:55-58 | The 64-bit word of every L1 or L2 entry decodes to that entry: empty, plain with its COPIED flag, or compressed. |
| SnapTable.ReadBack | qemu/block-qcow2.c:1379-1432 | A snapshot record reads back as the snapshot and ends at its own size. |
| SnapTable.AlignAt | qemu/block-qcow2.c:421-425 | Aligning offsets from an aligned start agrees with aligning sizes from 0. |
| SnapTable.WriteTable | qemu/block-qcow2.c:1435-1502 | Writing puts every record at its aligned offset, ends at the size computed in the first pass, and changes no byte outside the table. |
| SnapTable.ReadTable | qemu/block-qcow2.c:1379-1432 | Reading is the record-by-record parse, failing exactly when a record leaves the file. |
| SnapTable.WriteThenRead | qemu/block-qcow2.c:1379-1502 | What was written reads back as the same list of snapshots and the same snapshots_size, for every list of storable snapshots. |
| Driver.Qcow2.constructor | qemu/block-qcow2.c:1050-1140 | A new driver has empty, coherent caches and stands for the created image. |
| Driver.Qcow2.GetRefcount | qemu/block-qcow2.c:1776-1796 | Through table, blocks and the one-block cache, returns the count the plain map holds, 0 where there is no block. |
| Driver.Qcow2.AllocClustersNoref | qemu/block-qcow2.c:1799-1824 | The scan loop with its restart stops at the first fit of the plain map. |
| Driver.Qcow2.CreateBlock | qemu/block-qcow2.c:1964-1986 | Creates the missing refcount block, counts it, and enters it in the table, or gives up exactly when it would lie outside its own range. |
| Driver.Qcow2.UpdateClusterRefcount | qemu/block-qcow2.c:1947-2008 | Refines the update of the plain map of counts, new refcount block included, and returns the new count. |
| Driver.Qcow2.UpdateRefcount | qemu/block-qcow2.c:2010-2029 | The loop over clusters refines updating each count of the run. |
| Driver.Qcow2.AllocClusters | qemu/block-qcow2.c:1826-1833 | Refines the allocation on the plain map. |
| Driver.Qcow2.AllocBytes | qemu/block-qcow2.c:1837-1873 | Refines alloc_bytes on the plain map; the jump back to its label is taken at most once. |
| Driver.Qcow2.PackCluster | qemu/block-qcow2.c:615-630 | Refines storing a compressed cluster: bytes for the stream, the new L2 word in cache and on disk, then the stream, in clusters no cached table and no refcount block uses. |
| Driver.Qcow2.WriteCompressed | qemu/block-qcow2.c:1164-1229 | Goes through exactly when the cache-free compressed write does, ends in that image, keeps the driver valid with a coherent cluster cache, and falls back to an ordinary write when the cluster does not get smaller. |
| Driver.Qcow2.L2CacheReset | qemu/block-qcow2.c:394-401 | Leaves an empty coherent cache. |
| Driver.Qcow2.L2CacheNewEntry | qemu/block-qcow2.c:403-419 | Picks a slot of least count, given counts below 0xffffffff. |
| Driver.Qcow2.CountHit | qemu/block-qcow2.c:552-560 | Counts a hit and halves all counts when one reaches 0xffffffff. |
| L2Cache.HitSmall | qemu/block-qcow2.c:552-560 | Hit counts stay below 0xffffffff. |
| Driver.Qcow2.FindL2 | qemu/block-qcow2.c:551-574 | Hit or miss, returns a slot holding the L2 table on disk, and keeps the cache coherent with distinct live tables. |
| Driver.Qcow2.Lookup | qemu/block-qcow2.c:496-577 | The cached lookup returns the uncached L2 word, empty outside the L1 table. |
| Driver.Qcow2.DecompressCluster | qemu/block-qcow2.c:676-697 | The cluster cache afterwards holds the data at this offset, kept or newly inflated. |
| Driver.Qcow2.ReadBacking | qemu/block-qcow2.c:700-712 | Returns backing sectors, zeros past the end. |
| Driver.Qcow2.ReadPart | qemu/block-qcow2.c:714-757 | One turn of the read loop returns the guest sectors as the cluster cache and the disk give them, and says what the cache holds afterwards. |
| Driver.Qcow2.Read | qemu/block-qcow2.c:714-757 | Returns exactly the guest sectors asked for and keeps the driver valid. |
| Driver.Qcow2.CopySectors | qemu/block-qcow2.c:369-392 | Copies old guest sectors into the new cluster, sealed for storage, and a second copy still reads the old data. |
| Driver.Qcow2.NewCluster | qemu/block-qcow2.c:580-597 | Frees the old storage and allocates a cluster, which no cached table and no refcount block uses. |
| Driver.Qcow2.PrepareCluster | qemu/block-qcow2.c:575-630 | Refines the cluster preparation of get_cluster_offset with all caches. |
| Driver.Qcow2.OwnTable | qemu/block-qcow2.c:513-574 | Refines giving the active tree its own L2 table and returns the cache slot that holds it. |
| Driver.Qcow2.GrowTable | qemu/block-qcow2.c:427-481 | Refines L1 growth. |
| Driver.Qcow2.PickSize | qemu/block-qcow2.c:439-441 | The size loop computes the grown table size. |
| Driver.Qcow2.WritePart | qemu/block-qcow2.c:759-792 | One turn of the write loop refines the write of one cluster and keeps the driver valid. |
| Driver.Qcow2.Write | qemu/block-qcow2.c:759-792 | The whole loop goes through exactly when the cache-free run of its chunks does, ends in that image, and keeps the driver valid. |
| Driver.Qcow2.UpdateSnapshotRefcount | qemu/block-qcow2.c:1250-1363 | The double loop over L1 and L2 entries refines the tree walk, resets the L2 cache and writes the table back. |
| Driver.Qcow2.WriteSnapshots | qemu/block-qcow2.c:1435-1502 | Refines rewriting the snapshot table. |
| Driver.Qcow2.FindByIdOrName | qemu/block-qcow2.c:1532-1545 | First match by id, else first match by name. |
| Driver.Qcow2.FindNewId | qemu/block-qcow2.c:1504-1518 | The loop computes one more than the largest number among the ids. |
| SnapIds.ReadPrint | qemu/block-qcow2.c:1504-1518 | A printed int reads back through strtoul as itself. |
| SnapIds.NewIdFree | qemu/block-qcow2.c:1504-1518 | The computed id is free if and only if the largest number taken is below INT_MAX or the wrapped one is not taken. |
| Driver.Qcow2.SnapshotCreate | qemu/block-qcow2.c:1548-1616 | Computes an id if none is given and refuses exactly a taken id; otherwise goes through exactly when the cache-free step does, ends in that image, and keeps the driver valid. |
| Driver.Qcow2.SnapshotGoto | qemu/block-qcow2.c:1619-1659 | Refuses exactly an unknown name; otherwise refines the cache-free step and keeps the driver valid. |
| Driver.Qcow2.SnapshotDelete | qemu/block-qcow2.c:1661-1694 | Refuses exactly an unknown name; otherwise refines the cache-free step and keeps the driver valid. |
| Rijndael.SBox | qemu/aes.c:328-393 | Every entry of the S-box is the affine image of the inverse in GF(2^8), section 5.1.1 of FIPS 197. |
| Rijndael.SiS | qemu/aes.c:659-724 | The inverse S-box table undoes the S-box. |
| Rijndael.InvMixMix | qemu/aes.c:49-61 | InvMixColumns undoes MixColumns on every column. |
| AesTables.TeRoundIs | qemu/aes.c:983-1039 | A table-driven round equals SubBytes, ShiftRows, MixColumns and AddRoundKey, section 5.1 of FIPS 197. |
| AesTables.TdRoundIs | qemu/aes.c:1174-1230 | A table-driven decryption round equals InvSubBytes, InvShiftRows, InvMixColumns and AddRoundKey. |
| AesTables.TeFinalIs | qemu/aes.c:1041-1072 | The final round equals SubBytes, ShiftRows and AddRoundKey. |
| AesTables.TdFinalIs | qemu/aes.c:1232-1263 | The final decryption round equals InvSubBytes, InvShiftRows and AddRoundKey. |
| Cipher.DecipherEncipher | qemu/aes.c:1079-1264 | For any round keys, the equivalent inverse cipher under the transformed keys undoes the cipher. |
| Cipher.EqDecipherIs | qemu/aes.c:835-881 | The equivalent inverse cipher of section 5.3.5 of FIPS 197 equals the straightforward inverse cipher of section 5.3. |
| Aes.DecEnc | qemu/aes.c:888-1264 | For every key of the three sizes and every block, decryption undoes encryption. |
| Aes.KeyNext | qemu/aes.c:734-830 | The word recurrence of the three expansion loops is KeyExpansion of section 5.2 of FIPS 197. |
| Aes.AesKey.SetEncryptKey | qemu/aes.c:734-830 | Rejects other key lengths; otherwise the schedule holds the expanded round keys. |
| Aes.AesKey.SetDecryptKey | qemu/aes.c:835-881 | The reversal loop and the in-place column transform leave the round keys of the equivalent inverse cipher. |
| Aes.EncryptState | qemu/aes.c:983-1073 | The two-rounds-per-turn loop computes the cipher for exactly Nr rounds. |
| Aes.DecryptState | qemu/aes.c:1174-1264 | The loop computes the equivalent inverse cipher. |
| Aes.Encrypt | qemu/aes.c:888-1073 | Encrypts one block, in place or not, and changes no other byte. |
| Aes.Decrypt | qemu/aes.c:1079-1264 | Decrypts one block, in place or not, and changes no other byte. |
| Cbc.CbcRoundTrip | qemu/aes.c:1268-1317 | CBC decryption undoes CBC encryption for every length, section 6.2 of NIST SP 800-38A for whole blocks; a partial last block is stretched to a whole one. |
| Cbc.OpenSeal | qemu/block-qcow2.c:347-367 | Decrypting a sector at its own number undoes encrypting it. |
| DiskCrypt.CbcEncrypt | qemu/aes.c:1279-1296 | The in-place loops compute CBC encryption, the padded last block included. |
| DiskCrypt.CbcDecrypt | qemu/aes.c:1297-1316 | The loops compute CBC decryption, in place or not. |
| SectorCrypt.EncryptSectors | qemu/block-qcow2.c:347-367 | Every sector of the range is encrypted or decrypted under the IV of its own number; other bytes stay. |
| SectorCrypt.SubRange | qemu/block-qcow2.c:347-367 | Encrypting any number of sectors and decrypting any sub-range at its own sector numbers gives exactly that sub-range of the plain text. |
| HashTable.Init | qemu/hash.c:29-46 | Fails exactly when the buckets cannot be allocated; otherwise an empty valid table of four buckets. |
| HashTable.Table.Find | qemu/hash.c:136-139 | Returns the element equal to the key, if there is one. |
| HashTable.Table.Rehash | qemu/hash.c:356-417 | Keeps the contents with every element in its own bucket and a power of two >= 4 of buckets; when memory lasts, elem_cnt < 4 * bucket_cnt, and at least 2 elements per bucket above the minimum size. |
| HashTable.Table.PickCount | qemu/hash.c:368-378 | Turning off least bits leaves the power of two the resize asks for. |
| HashTable.Table.Insert | qemu/hash.c:103-114 | Adds the element unless an equal one is there, which is returned. |
| HashTable.Table.Replace | qemu/hash.c:119-131 | The new element takes the place of an equal one, which is returned. |
| HashTable.Table.Delete | qemu/hash.c:149-158 | Removes and returns the equal element. |
| HashRuns.Serve | qemu/hash.c:103-158 | Every run of inserts, replaces, lookups and deletes is a run of a finite map, resizing and failed allocations included. |
| HashRuns.MapRunOnce | qemu/hash.c:103-158 | The finite map determines every answer and every intermediate contents, whatever the hash function and whichever allocations fail. |
| HashRuns.Cursor.Next | qemu/hash.c:223-239 | Returns the next element in bucket order, or nothing exactly at the end. |
| HashRuns.Visit | qemu/hash.c:186-239 | Iterating visits every element exactly once. |
| Bits.TurnOffZero | qemu/hash.c:334-344 | A positive number with its least bit turned off is 0 exactly for powers of two. |
| Bits.TurnOffTop | qemu/hash.c:334-337 | Turning off the least bit of a number that is no power of two keeps its top bit. |
| ArmPool.RelocLands | qemu/dyngen.h:161-164 | For word-aligned targets within 24 bits the branch word goes exactly to its target and keeps its opcode. |
| ArmPool.PatchAddresses | qemu/dyngen.h:194-241 | A patched ldr, ldc or add addresses the copy of its own constant. |
| ArmPool.PatchKeeps | qemu/dyngen.h:194-241 | A patched instruction keeps all bits outside the offset field and the up bit. |
| ArmPool.CodeBuffer.PatchAll | qemu/dyngen.h:194-241 | The loop stops exactly at an entry out of range; otherwise every entry is served and no other word changes. |
| ArmPool.CodeBuffer.FlushLdr | qemu/dyngen.h:166-245 | The pool is copied, the branch lands at the returned pointer, every instruction addresses its own constant, and no other word before the branch or from the returned pointer on changes. |
| ByteAccess.Device.PRead | qemu/block.c:568-610 | Succeeds exactly when the range is on the device, and returns exactly that slice of the flattened device, for every offset and count. |
| ByteAccess.Device.PWrite | qemu/block.c:612-658 | Succeeds exactly when the range is on the device, replaces exactly that slice, and even when it fails changes no byte outside it. |

## Left out

- Growing the refcount table (qemu/block-qcow2.c:1881-1943): the stored offset of the grown table is never updated, so the invariants do not carry through it.
- A refcount block outside the range it describes: the code goes on with the wrong block in its cache; the model stops there, and `Progress.AllocExact` says exactly when.
- Snapshot goto between tables of different sizes: the header keeps the old size.
- Conversion.Compress: covers unallocated clusters of an image without snapshots. Over an allocated cluster the source frees the old storage first, and free_byte_offset survives that free, so its byte allocator can hand out bytes of a cluster it no longer counts.
- Driver.Qcow2.WriteCompressed: has the same limits, and after a failure only the refcount structure is promised.
- Driver.Qcow2.CreateBlock: gives up where the source would go on with another block in its cache.
- Driver.Qcow2.UpdateClusterRefcount: gives up where the refcount table would have to grow.
- Asynchronous reads and writes, I/O errors and the rollback paths they take.
- qcow_open and header parsing; images start from what qcow_create lays out, or from any image that satisfies the invariant.
- zlib itself.
- The snapshot table inside an image run: its clusters are opaque there, and its byte format is `SnapTable`, whose l1 offset field is the model's cluster number.
- Driver.Qcow2.SnapshotGoto: ends in `Stuck` for a snapshot of another L1 size, and after `Stuck` only the refcount structure is promised.
- Driver.Qcow2.SnapshotCreate: after `Stuck` only the refcount structure is promised.
- Driver.Qcow2.SnapshotDelete: after `Stuck` only the refcount structure is promised.
- hash_clear, hash_destroy, hash_apply and the hash functions; bucket lists are sequences, so pointer manipulation is not modelled.
- The fully unrolled variant of the AES loops.
- qemu/block-qcow.c and the other image formats, the dynamic translator around arm_flush_ldr, and the IA-64 and Alpha helpers.
