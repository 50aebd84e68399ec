# CyxCloud, modelled and proved in Dafny

CyxCloud is an object store: a gateway cuts objects into chunks, erasure-codes each chunk into shards,
places the shards on storage nodes that keep bytes under their hash, and reads objects back from any k
shards of each chunk. Around that it keeps a table of nodes and their health, pays nodes per epoch, and
offers an S3-style interface. This project models those mechanisms and proves what they keep.

| files | what they model |
|---|---|
| `Fields`, `LinearMaps`, `Gf256`, `Codec` | the contract of the erasure library, and a Reed-Solomon code over GF(2^8) that meets it |
| `Erasure`, `Chunking` | padding, cutting, encoding, decoding, splitting and reassembling |
| `Cluster` | the content-addressed nodes and their store, repair, transfer and delete steps |
| `Placement` | the choice of nodes for shards |
| `Retrieval`, `Upload`, `Gateway`, `Durability` | `put_object` and `get_object` on database tables and nodes, and which losses of nodes an object survives |
| `MemoryStore` | the in-memory buckets |
| `Markup`, `Listing`, `ListingReader`, `ListingTags`, `ListingFields` | the XML of a listing and the client that reads it |
| `Lifecycle`, `NodeHistory`, `NodeTables` | node states, the monitor's cycle and chunk evacuation |
| `Payout`, `Epochs`, `EpochFaults`, `EpochHistory`, `PaymentDaemons` | weights, shares, uptime, slashing and epochs, with and without errors |
| `Sequences`, `Sorting`, `Orders`, `Histories`, `Bytes`, `Wrappers` | cutting and joining sequences, insertion sort, listing sets, latest events, bytes and integer widths, options and results |
| `Quorum`, `CircuitBreaker`, `BatchStream` | quorum reads and writes, the circuit breaker, the batch streamer |

`dafny verify dfyconfig.toml` checks everything.

Conventions. Code that changes state is a class or a method with loops, proved equal to a function on
values; what the code is for is proved of that function, for all inputs or over all runs. Clocks, network
failures, database failures, scores, hashes and the order of query results are parameters. The hash is any
function with 32-byte results; where a result needs it, the data at hand must not collide. Peer, chunk and
bucket names that are only compared are numbers. Bytes are eight bits. Weights are exact fractions rounded
down.

## Where the code falls short of what it says

Each of these is stated as a lemma; the model follows the code.

- The column `chunk_id` is unique over all files and a refused insert is only logged, so equal shards, and
  second copies of an object, lose their records: `Upload.RepeatedContentUnreadable`,
  `Upload.SecondCopyUnreadable`, `Upload.ConstantObjectUnreadable`. The exact condition for reading back is
  `Upload.RoundTrip`.
- The acceptance test counts shards over all chunks together, which says something about each chunk if and
  only if there is one: `Gateway.AcceptanceGuarantee`, `Gateway.AcceptedButUnreadable`.
- A path may be uploaded twice, and a read then returns either file: `Gateway.PutThenGetObject`. The new file is
  the only candidate if and only if the path was unused: `Gateway.OnlyCandidateIff`.
- Records that name a shard twice make the fetch loop stop early: `Retrieval.ReadExact` has the exact condition.
- The limits on shards per datacenter and rack apply to the replicas of one shard. When they hold for the
  shards of a chunk: `Placement.DcLimitIff`, `Placement.RackLimitIff`.
- Repair jobs refer to nodes and are never deleted, so an evacuated node is never removed, although the
  monitor promises removal after the threshold: `Lifecycle.EvacuatedNeverRemoved`; the exact condition for
  removal is `Lifecycle.RemovedByMonitor`.
- Registration leaves the heartbeat of a new node empty, so that the first phase takes it offline at once:
  `Lifecycle.MarkedOfflineIff` says exactly when. Promotion after quarantine needs no further heartbeat:
  `Lifecycle.PromotedIff`.
- An interrupted end of epoch slashes again: `EpochFaults.SlashedTwiceIff`. An error between creating the next
  epoch and initializing it leaves the daemon in the old one until a restart: `Epochs.StuckUntilRestart`. An
  error after paying and before creating it, followed by a restart, stops the epochs for good:
  `EpochFaults.DeadAfterRestart`. When a check opens the next epoch: `EpochFaults.OpensNextIff`; when the daemon
  is stopped for good: `EpochFaults.StoppedForGood`, `EpochFaults.StillOpens`.
- A half-open circuit is documented to admit limited requests and admits all: `CircuitBreaker.HalfOpenAdmitsAll`.
- `validate` does not ask quorums to overlap: `Quorum.ValidWithoutOverlap`.
- `is_last` and `total_batches` can be wrong if files are missing: `BatchStream.UnmarkedStream`; the exact
  conditions are `BatchStream.EndIsMarked` and `BatchStream.AnnouncedIff`.
- The state-level `delete_bucket` does not account for the bytes it drops: `MemoryStore.UnguardedRemoval`.
- The 64-bit sum of weights can wrap: `Payout.NeverOverpaysIff`, `Payout.ConservesIff`.
- Listings are printed without escaping, so keys with `</Key>` or `</Contents>` are lost: `ListingTags.LostObject`.
  Which keys the client holds: `ListingTags.KeyReadIff`, `ListingTags.KeysReadIff`.
- Chunk positions are 32-bit: `Chunking.ReassembleSplit`.

## Model

| member | source | states |
|---|---|---|
| `Gf256Field.GfIsField` | cyxcloud-core/src/erasure.rs:109-113 | the byte arithmetic the code works over, GF(2^8), satisfies the field laws the interpolation argument needs |
| `ReedSolomon.ReconstructsCodeword` | cyxcloud-core/src/erasure.rs:224-231 | any k or more shards that agree with a codeword reconstruct all of it, data and parity |
| `ReedSolomon.ByteCodecIsErasureCode` | cyxcloud-core/src/erasure.rs:36-52 | for all positive k and m with k + m at most 256, polynomial evaluation over GF(2^8) meets the contract asked of the erasure library, so the contract is not vacuous |
| `Erasure.ShardsUniform` | cyxcloud-core/src/erasure.rs:249-252 | all k + m shards have the same length, the data length divided by k and rounded up, and none is empty |
| `Erasure.Encode` | cyxcloud-core/src/erasure.rs:122-152 | the padded, cut and parity-extended shards, numbered in order with the parity flag on the last m |
| `Erasure.Decode` | cyxcloud-core/src/erasure.rs:196-246 | the checks on count and number of present shards, then reconstruction, joining and truncation, equal to the specification `Decoded` |
| `Erasure.DecodeShards` | cyxcloud-core/src/erasure.rs:196-246 | of any subset of an object's shards decoding returns the original bytes if and only if at least k are present; otherwise it is an error |
| `Erasure.DecodeDemands` | cyxcloud-core/src/erasure.rs:196-215 | any list of shards: the wrong number of places, and too few filled ones, are reported with their numbers, and a result is never longer than asked |
| `Erasure.DecodePrefix` | cyxcloud-core/src/erasure.rs:224-246 | asked for fewer bytes than the chunk has, decoding returns its first bytes |
| `Chunking.SplitAt` | cyxcloud-core/src/chunk.rs:203-230 | splitting always succeeds: how many chunks there are, that all but the last are full and none is empty, that together they are the data, and the 32-bit index and count each carries |
| `Chunking.SizeUsed` | cyxcloud-core/src/chunk.rs:208-208 | a requested size is used as it is from 256 KB to 64 MB, and the nearer of these two otherwise |
| `Chunking.ChunkMade` | cyxcloud-core/src/chunk.rs:167-190 | more than 64 MB is refused as a chunk; any other bytes are kept with position and count modulo 2^32 |
| `Chunking.ReassembleChunks` | cyxcloud-core/src/chunk.rs:233-269 | the sort by index and the loop that rejects gaps, equal to the specification `Reassembled` |
| `Chunking.ReassembleSplit` | cyxcloud-core/src/chunk.rs:203-269 | every permutation of the chunks of any data reassembles to that data exactly when there are fewer than 2^32 chunks |
| `Chunking.AcceptedIsComplete` | cyxcloud-core/src/chunk.rs:233-269 | an accepted non-empty list holds the indices 0 to n-1, each exactly once, and the result is the payloads in index order |
| `Chunking.RejectedBecause` | cyxcloud-core/src/chunk.rs:233-269 | why a list is rejected: its length differs from the count that a chunk of least index states, or some index is not the next one; with the numbers reported |
| `Cluster.Nodes.HandleStore` | cyxcloud-network/src/grpc_server.rs:133-178 | a chunk is stored exactly if the id has 32 bytes, the data is not empty and hashes to the id and the disk accepts it; and which of these failed is the refusal returned |
| `Cluster.Nodes.HandleGet` | cyxcloud-network/src/grpc_server.rs:180-213 | the caller gets bytes exactly if the node is a holder, the bytes held, and in a content-addressed store bytes that hash to the id asked for; repair fetches through it |
| `Cluster.Nodes.HandleDelete` | cyxcloud-network/src/grpc_server.rs:215-242 | the node no longer holds the chunk, every other holder and entry is as before, and it reports whether the chunk was there; a refused delete changes nothing |
| `Cluster.Nodes.HandleVerify` | cyxcloud-network/src/grpc_server.rs:293-330 | in a content-addressed store the check passes exactly on holders, with a positive size |
| `Cluster.RunVerified` | cyxcloud-network/src/grpc_server.rs:293-330 | after any run of store, repair, transfer and delete steps an integrity check passes exactly on the nodes that hold the chunk, with the size of the bytes held |
| `Cluster.StoreThenGet` | cyxcloud-network/src/grpc_server.rs:133-213 | an accepted store, then any steps but a delete of that chunk on that node: the node still returns the bytes stored |
| `Cluster.Nodes.FetchFromSources` | cyxcloud-node/src/command_executor.rs:351-392 | the bytes of the first listed source that answers and holds the chunk, else an error |
| `Cluster.Nodes.ExecuteRepair` | cyxcloud-node/src/command_executor.rs:125-210 | stores the fetched bytes under the id without hashing them again; a chunk already present is left alone |
| `Cluster.Nodes.ExecuteTransfer` | cyxcloud-node/src/command_executor.rs:266-349 | sends the local bytes to the target's store handler |
| `Cluster.RunAddressed` | cyxcloud-node/src/command_executor.rs:125-210 | over every run of store, repair, transfer and delete steps every entry's id is the hash of its data, although repair does not re-hash |
| `Cluster.RunProvenance` | cyxcloud-network/src/grpc_server.rs:133-178 | over every run all bytes held were there at the start or were submitted in a store step |
| `Cluster.HoldersAgree` | cyxcloud-node/src/command_executor.rs:125-349 | any two holders of an id, at any two moments of a run, have the same bytes |
| `Cluster.FetchAgrees` | cyxcloud-node/src/command_executor.rs:351-392 | fetching an id from any list of sources gives the bytes every holder has, or nothing |
| `Cluster.RepairHolders` | cyxcloud-node/src/command_executor.rs:125-349 | repair and transfer never take a chunk from a holder |
| `Cluster.TransferDelivers` | cyxcloud-node/src/command_executor.rs:266-349 | a successful transfer makes the target a holder and leaves the sender one |
| `Cluster.KeptUntilDeleted` | cyxcloud-node/src/command_executor.rs:212-264 | over every run a holder stays one, with the same bytes, until a delete of that id on that node |
| `Cluster.ApplyTouches` | cyxcloud-node/src/command_executor.rs:125-349 | every command changes the entry of one chunk on one node at most |
| `Cluster.HeldIff` | cyxcloud-node/src/command_executor.rs:125-349 | after any run a node holds a chunk if and only if a step wrote it there (an accepted store, a repair with an answering holder, a transfer that arrives), or it was there at the start, and no accepted delete came since |
| `Cluster.DeletedUntilWritten` | cyxcloud-node/src/command_executor.rs:212-264 | after an accepted delete the node holds the chunk again if and only if a later step wrote it there and none deleted it since |
| `Placement.SelectForShard` | cyxcloud-metadata/src/topology.rs:205-270 | the loop with its two per-shard usage maps equals the greedy choice over the nodes sorted by score |
| `Placement.RecordUsage` | cyxcloud-metadata/src/topology.rs:176-184 | the cross-shard usage maps stay equal to the true counts of placed nodes |
| `Placement.SelectNodes` | cyxcloud-metadata/src/topology.rs:140-201 | one decision per shard, none without eligible nodes, each made under usage maps equal to the counts of the nodes placed before |
| `Placement.SelectionSound` | cyxcloud-metadata/src/topology.rs:205-270 | distinct listed nodes within the datacenter and rack limits; a short selection means every node left out is in a full datacenter or rack |
| `Placement.DecisionSound` | cyxcloud-metadata/src/topology.rs:140-201 | the same for every decision of a placement: eligible nodes, all of them as listed if that many replicas are wanted, otherwise within the limits and short only if every eligible node left out is in a full datacenter or rack |
| `Placement.BetterLeftOutIsBlocked` | cyxcloud-metadata/src/topology.rs:217-266 | a node passed over for a worse-scored one sits in a full datacenter or rack |
| `Placement.SingleReplica` | cyxcloud-metadata/src/topology.rs:205-270 | one replica asked for: exactly one listed node is chosen |
| `Placement.EligibleMembers` | cyxcloud-metadata/src/topology.rs:151-156 | the nodes considered are exactly those whose total exceeds their used storage by the minimum |
| `Placement.EachPlacesOne` | cyxcloud-metadata/src/topology.rs:140-201 | with one replica each shard gets exactly one eligible node |
| `Placement.OneDatacenter` | cyxcloud-metadata/src/topology.rs:229-256 | an instance of `DcLimitIff`: with one datacenter, all shards of a chunk land in it whatever the limit |
| `Placement.DcLimitIff` | cyxcloud-metadata/src/topology.rs:205-320 | with one replica per shard and the source's terms for diversity: no datacenter gets more shards of a chunk than its limit, whatever the nodes' utilization, distance and bandwidth add to the score, if and only if the chunk has no more shards than the limit or no eligible node states its datacenter; then it holds under any score |
| `Placement.RackLimitIff` | cyxcloud-metadata/src/topology.rs:205-320 | the same for racks |
| `Placement.DiversityAdvantage` | cyxcloud-metadata/src/topology.rs:295-315 | what the diversity terms are worth between two nodes: 10 points for each shard in the datacenter and 50 for the first, 5 for each in the rack and 25 for the first |
| `Placement.SpreadOverDcs` | cyxcloud-metadata/src/topology.rs:205-320 | between nodes with equal scores of their own and no racks, the numbers of a chunk's shards in any two datacenters differ by at most one, after every shard |
| `Placement.SpreadOverRacks` | cyxcloud-metadata/src/topology.rs:205-320 | the same over the racks of one datacenter |
| `Retrieval.ReadChunkExact` | cyxcloud-gateway/src/state.rs:1094-1206 | reading one chunk returns its bytes if and only if k in-range records are fetchable and the first k of them in order stand for different shards; otherwise an error |
| `Retrieval.ReadSound` | cyxcloud-gateway/src/state.rs:1094-1214 | for any failed fetches and any missing, duplicated or out-of-range records of an uploaded object, the result is the original bytes or an error |
| `Retrieval.ReadExact` | cyxcloud-gateway/src/state.rs:1094-1214 | the original bytes come back if and only if every chunk has k usable records whose first k stand for different shards, whatever duplicates there are |
| `Retrieval.ReadWithoutDuplicates` | cyxcloud-gateway/src/state.rs:1094-1214 | for records without duplicates: if and only if every chunk has k fetchable shards |
| `Retrieval.ChunkFailure` | cyxcloud-gateway/src/state.rs:1094-1206 | a chunk without records is reported as such, one with fewer than k fetchable records with their number, and no other chunk is |
| `Retrieval.ObjectFailure` | cyxcloud-gateway/src/state.rs:1094-1214 | a failed read reports the first chunk that cannot be read |
| `Upload.RoundTrip` | cyxcloud-gateway/src/state.rs:814-983 | after an upload the object reads back if and only if every chunk has k registered and fetchable shards, where a second record with an id already in the table is refused |
| `Upload.DistinctAllRegistered` | cyxcloud-gateway/src/state.rs:895-920 | if all shard ids are new and different, every stored shard gets its record |
| `Upload.DistinctRoundTrip` | cyxcloud-gateway/src/state.rs:772-1214 | for such objects: readable if and only if k stored shards per chunk can still be fetched |
| `Upload.RepeatedContentUnreadable` | cyxcloud-metadata/migrations/001_initial.sql:94-94 | a chunk with fewer than k different shard contents can never be read, whichever shards were stored, all of them included |
| `Upload.SecondCopyUnreadable` | cyxcloud-metadata/migrations/001_initial.sql:94-94 | an object whose shards are already recorded, such as a second copy, reads back as an error |
| `Upload.EqualDataShardsUnreadable` | cyxcloud-metadata/migrations/001_initial.sql:94-94 | so a chunk whose k data shards are all equal can never be read if m + 1 < k |
| `Upload.ConstantObjectUnreadable` | cyxcloud-metadata/migrations/001_initial.sql:94-94 | so an object of one repeated byte, of any length and number of chunks, can never be read if m + 3 < k, or m + 1 < k when k divides its first chunk |
| `Gateway.ObjectStore.TryStore` | cyxcloud-gateway/src/state.rs:873-923 | one attempt on one node: bytes, record and location appear together or not at all, on that node and nowhere else |
| `Gateway.ObjectStore.StoreShard` | cyxcloud-gateway/src/state.rs:869-978 | the bytes go to the primary node if it accepts, else to the first other listed node that does, with the location recorded, and no other node's store changes; stored if and only if some node accepts |
| `Gateway.LocationAdded` | cyxcloud-metadata/src/postgres.rs:831-845 | recording a location adds that one and never a node twice |
| `Gateway.ObjectStore.StoreOneShard` | cyxcloud-gateway/src/state.rs:849-980 | the log of attempted shards grows by this shard, its outcome and the node it went to, the one decided for it if that accepts |
| `Gateway.ObjectStore.StoreShards` | cyxcloud-gateway/src/state.rs:849-982 | stored plus failed shards are all shards of the chunk when some node is eligible, and none otherwise |
| `Gateway.ObjectStore.StoreOneChunk` | cyxcloud-gateway/src/state.rs:818-982 | encoding, a placement of the chunk's shards, and storage by its decisions, with the same accounting |
| `Gateway.ObjectStore.StoreChunks` | cyxcloud-gateway/src/state.rs:814-983 | over all chunks: stored plus failed equals chunks times total shards |
| `Gateway.ObjectStore.PutObject` | cyxcloud-gateway/src/state.rs:671-1018 | the file record, the shard records, one placement per chunk with every shard where its decision and the nodes' answers put it and nothing else stored, and the acceptance test on the total |
| `Gateway.ObjectStore.GetObject` | cyxcloud-gateway/src/state.rs:1026-1214 | no file under the path is an error; of several files any one of the candidates is read, from its own records |
| `Gateway.ObjectStore.ReadFile` | cyxcloud-gateway/src/state.rs:1051-1214 | grouping, fetching, decoding and joining equal the specification `ReadObject`, errors included |
| `Gateway.ObjectStore.ReadOneChunk` | cyxcloud-gateway/src/state.rs:1094-1206 | the retrieve loop that stops at k counted shards, and the length of the last chunk |
| `Gateway.GroupByChunk` | cyxcloud-gateway/src/state.rs:1071-1078 | every record in the group of its chunk, in order |
| `Gateway.FetchIsGenuine` | cyxcloud-gateway/src/state.rs:1104-1160 | content addressing makes every fetch the right shard or nothing, whatever the location table says |
| `Gateway.PutThenGet` | cyxcloud-gateway/src/state.rs:772-1214 | upload, any later change that keeps the stores content-addressed and the file's records, then read: the object exactly when every chunk keeps k registered shards on listed answering nodes, else an error |
| `Gateway.UploadRows` | cyxcloud-metadata/src/postgres.rs:726-766 | the records of an upload, no others, are found under its file id |
| `Gateway.ReadAfterUpload` | cyxcloud-gateway/src/state.rs:772-1214 | with all nodes answering, readable if and only if every chunk has k registered shards |
| `Gateway.AcceptedIsHeld` | cyxcloud-gateway/src/state.rs:985-998 | after any upload, whatever the ids: at most m failures in total, or an accepted single chunk, leave k shards of every chunk held on recorded nodes; and at most m failures mean acceptance |
| `Gateway.AcceptanceGuarantee` | cyxcloud-gateway/src/state.rs:985-998 | acceptance guarantees k stored shards of every chunk, over all outcomes of the object's upload, if and only if the object has at most one chunk |
| `Gateway.AcceptedButUnreadable` | cyxcloud-gateway/src/state.rs:985-998 | for every object of two chunks or more: an upload whose nodes refuse m + 1 shards of the first chunk is accepted and can never be read |
| `Gateway.AcceptedIsReadable` | cyxcloud-gateway/src/state.rs:985-1214 | with new and different ids: an accepted one-chunk object, or any object with at most m failures, is readable |
| `Durability.FetchedIff` | cyxcloud-gateway/src/state.rs:1104-1160 | a shard is fetched if and only if a node that is recorded for it, online and answering holds it |
| `Durability.StoredAsDecided` | cyxcloud-gateway/src/state.rs:841-978 | if all nodes accept, shard j of every chunk is on the eligible node of decision j of a placement of that chunk, and recorded there |
| `Durability.NothingElseStored` | cyxcloud-gateway/src/state.rs:841-978 | and a node holds nothing new but shards decided for it |
| `Durability.SurvivesLosses` | cyxcloud-gateway/src/state.rs:772-1214 | an object with ids of its own is read back after losing any nodes, as long as each chunk has at most m shards that were not stored or were stored on lost nodes |
| `Durability.SurvivesDecidedLosses` | cyxcloud-gateway/src/state.rs:772-1214 | the same in terms of the placement: losing any nodes that were decided for at most m shards of each chunk |
| `Gateway.PutThenGetObject` | cyxcloud-gateway/src/state.rs:671-1214 | the two requests one after the other on the class itself, used paths, no nodes and empty objects included: the new object exactly when it is readable, else an error; or, under a used path, possibly an older file read from its own records |
| `Gateway.OnlyCandidateIff` | cyxcloud-gateway/src/state.rs:1041-1049 | the new file is the only one a read of its path may find if and only if the path was not in use |
| `Gateway.DefaultScheme` | cyxcloud-core/src/erasure.rs:25-32 | 10 data and 4 parity shards and 4 MB chunks satisfy everything asked of the parameters |
| `MemoryStore.Memory.constructor` | cyxcloud-gateway/src/state.rs:182-183 | an empty store with the counter at 0 |
| `MemoryStore.Memory.CreateBucket` | cyxcloud-gateway/src/state.rs:544-571 | the plain store's answer and state, with the limit on buckets |
| `MemoryStore.Memory.RemoveBucket` | cyxcloud-gateway/src/state.rs:599-605 | removes the bucket and all it holds without touching the counter |
| `MemoryStore.Memory.DeleteBucket` | cyxcloud-gateway/src/s3_api.rs:283-303 | with the handler's guards the counter stays right |
| `MemoryStore.Memory.PutObject` | cyxcloud-gateway/src/state.rs:678-731 | the counter moves by the difference in size, never below 0, and refuses what would exceed 256 MB, the overwritten object counted in |
| `MemoryStore.Memory.GetObject` | cyxcloud-gateway/src/state.rs:1027-1039 | the bytes of the plain map or the right error |
| `MemoryStore.Memory.DeleteObject` | cyxcloud-gateway/src/state.rs:1292-1309 | removes the object and its bytes from the counter; a missing key is no error |
| `MemoryStore.RunSane` | cyxcloud-gateway/src/state.rs:544-731 | over every run of requests the total stays within 256 MB, the buckets within 1000, and every object's bucket exists |
| `MemoryStore.ObjectStays` | cyxcloud-gateway/src/s3_api.rs:283-303 | requests that do not write an object leave it readable, since its bucket cannot be deleted |
| `MemoryStore.GetAfterPut` | cyxcloud-gateway/src/state.rs:678-1039 | read your writes, over any requests in between that do not write the object |
| `MemoryStore.GetAfterDelete` | cyxcloud-gateway/src/state.rs:1292-1309 | after an accepted delete and any requests that do not write the object, a get does not find it |
| `MemoryStore.HoldsLastSaved` | cyxcloud-gateway/src/state.rs:678-1309 | over every run an object holds exactly the bytes of the latest accepted request that changed it, and none after a delete |
| `MemoryStore.BucketIff` | cyxcloud-gateway/src/state.rs:544-605 | over every run a bucket exists if and only if an accepted request made it and none removed it since |
| `MemoryStore.ReplyExact` | cyxcloud-gateway/src/s3_api.rs:283-303 | every request is answered with success exactly if it takes effect, else with the reason, and then changes nothing |
| `MemoryStore.UnguardedRemoval` | cyxcloud-gateway/src/state.rs:599-605 | the bare `delete_bucket` keeps the counter right if and only if the bucket holds no bytes |
| `Listings.PrintHead` | cyxcloud-gateway/src/s3_api.rs:192-202 | the head of the listing as a sequence of tags and texts |
| `Listings.PrintObject` | cyxcloud-gateway/src/s3_api.rs:210-222 | one object block |
| `Listings.PrintObjects` | cyxcloud-gateway/src/s3_api.rs:209-223 | the object blocks in order |
| `Listings.PrintPrefixes` | cyxcloud-gateway/src/s3_api.rs:225-229 | the common prefixes in order |
| `Listings.ToXml` | cyxcloud-gateway/src/s3_api.rs:191-240 | the whole listing, equal to the specification `Xml` |
| `Listings.ParseNatText` | cyxcloud-cli/src/client.rs:709-709 | a printed 64-bit size is parsed back |
| `Listings.ParseExact` | cyxcloud-cli/src/client.rs:709-709 | a size is accepted if and only if it is digits, after a plus sign or not, of a value below 2^64 |
| `ListingFields.FieldsReadBack` | cyxcloud-gateway/src/s3_api.rs:191-240 | of a listing whose texts have no angle bracket, searching the printed text for an element gives exactly the listing's values for it, in order, and one group for each common prefix |
| `ListingFields.PrintingLosesNothing` | cyxcloud-gateway/src/s3_api.rs:191-240 | two such listings that print the same are the same in every field |
| `Markup.ExtractField` | cyxcloud-cli/src/client.rs:741-749 | substring extraction finds the value of the first element of that name cut at its first closing tag, so the whole value if and only if it does not contain that tag |
| `ListingReader.ScanLines` | cyxcloud-cli/src/client.rs:666-695 | the first pass over the lines, which stops at the first object it can read |
| `ListingReader.CollectBlocks` | cyxcloud-cli/src/client.rs:697-731 | the scan over object blocks terminates and skips keys already taken |
| `ListingReader.ParseListResponse` | cyxcloud-cli/src/client.rs:662-738 | both passes, equal to the specification `Parsed` |
| `ListingReader.TakenIff` | cyxcloud-cli/src/client.rs:705-727 | a block is taken if and only if it has a size and a key that is not held yet; a size that is no number counts as 0 |
| `ListingReader.SizeDefault` | cyxcloud-cli/src/client.rs:676-678 | a first object without a size counts as empty |
| `ListingReader.ReadsPrinted` | cyxcloud-cli/src/client.rs:662-738 | of any listing whose texts contain none of the tags the client looks for it holds the first object of each key, in order, and the truncation flag; the first pass adds nothing |
| `ListingReader.ListingRoundTrip` | cyxcloud-cli/src/client.rs:662-738 | for such listings it holds exactly the printed objects if and only if keys are distinct and no etag begins or ends with a quote; the flag is always right |
| `ListingTags.BlocksFree` | cyxcloud-cli/src/client.rs:697-731 | from any text whatever, the second pass adds only keys that contain neither their own closing tag nor that of a block |
| `ListingTags.Held` | cyxcloud-cli/src/client.rs:697-731 | the second pass over printed objects with any keys takes every key that contains neither of the two tags, whatever the keys before it contain |
| `ListingTags.KeyReadIff` | cyxcloud-cli/src/client.rs:662-738 | of a printed listing whose keys are any texts, the client holds a printed key if and only if it contains neither `</Key>` nor `</Contents>`, or it is the first key cut at its first `</Key>` |
| `ListingTags.FirstKeyReadIff` | cyxcloud-cli/src/client.rs:666-695 | the first key is held if and only if it does not contain `</Key>`, since the first pass takes it |
| `ListingTags.KeysReadIff` | cyxcloud-cli/src/client.rs:662-738 | the truncation flag is right whatever the keys are; if the first key contains neither tag, the client holds the printed keys in order if and only if none of them does and they are distinct |
| `ListingTags.LostObject` | cyxcloud-cli/src/client.rs:699-703 | keys `a` and `x</Contents>y`: the client does not hold the second |
| `Lifecycle.RunKeepsRows` | cyxcloud-metadata/src/postgres.rs:151-440 | in every reachable state an online node has no first_offline_at, an offline one has, and no time lies in the future |
| `Lifecycle.OfflineSince` | cyxcloud-metadata/src/postgres.rs:366-383 | first_offline_at is the moment the monitor took the node offline, and it was registered and not online at any state since |
| `Lifecycle.NotOnlineSince` | cyxcloud-metadata/src/postgres.rs:366-440 | the same by the clock: not online at any moment later than first_offline_at |
| `Lifecycle.RemovedByMonitor` | cyxcloud-gateway/src/node_monitor.rs:171-190 | a row disappears exactly in the third phase, for a removable node that no repair job names |
| `Lifecycle.RemovedWasOffline` | cyxcloud-metadata/src/postgres.rs:330-345 | each removed node was not online during the whole remove threshold before |
| `Lifecycle.DrainedWasOffline` | cyxcloud-metadata/src/postgres.rs:312-327 | each drained node was not online during the whole drain threshold before |
| `Lifecycle.CycleSparesOnline` | cyxcloud-gateway/src/node_monitor.rs:119-190 | a node online when a cycle starts is neither drained nor removed by it, as long as the cycle takes no longer than the threshold |
| `Lifecycle.RecoveringSince` | cyxcloud-metadata/src/postgres.rs:509-548 | a recovering node entered quarantine with a heartbeat at status_changed_at and has been recovering since |
| `Lifecycle.HeartbeatStatus` | cyxcloud-metadata/src/postgres.rs:538-555 | over every run a heartbeat of a registered node leaves it recovering if and only if it was offline, draining or recovering, and online if and only if it was online |
| `Lifecycle.RemovedSinceHeartbeat` | cyxcloud-gateway/src/node_monitor.rs:171-190 | a node is removed only if after each of its heartbeats it was taken offline or drained again |
| `Lifecycle.PromotedAfterQuarantine` | cyxcloud-gateway/src/node_monitor.rs:192-209 | each promotion follows an unbroken recovering spell longer than the quarantine |
| `Lifecycle.PromotedIff` | cyxcloud-metadata/src/postgres.rs:348-362 | a node that entered quarantine at some state and stayed in it is promoted if and only if more than the quarantine has passed and its update succeeds, whatever heartbeats lie between |
| `Lifecycle.SilentPromotion` | cyxcloud-metadata/src/postgres.rs:348-362 | a run that promotes a node silent since its first heartbeat |
| `Lifecycle.NoHeartbeatIff` | cyxcloud-metadata/src/postgres.rs:151-187 | over every run a registered node has no heartbeat if and only if it was inserted and neither registered again nor heard of since |
| `Lifecycle.MarkedOfflineIff` | cyxcloud-metadata/src/postgres.rs:295-309 | over every run the first phase takes an online node offline if and only if its update succeeds and its heartbeat is too old, or it was inserted and has not been heard of since |
| `Lifecycle.NewNodeGoesOffline` | cyxcloud-metadata/src/postgres.rs:151-187 | an instance: insert, any wait, first phase |
| `NodeHistory.ChangedAtIs` | cyxcloud-metadata/src/postgres.rs:245-440 | over every run status_changed_at is the time of the latest change of status, but for registrations and operator drains of known nodes, which leave it |
| `NodeHistory.LastHeartbeatIs` | cyxcloud-metadata/src/postgres.rs:151-568 | over every run last_heartbeat is the time the node was last heard of since its insertion, a promotion included |
| `NodeHistory.FirstOfflineIs` | cyxcloud-metadata/src/postgres.rs:366-440 | over every run first_offline_at is the time the node last fell offline, and empty once it has been online again |
| `NodeHistory.RequestedStatus` | cyxcloud-metadata/src/postgres.rs:151-252 | after a registration a node is online, after an operator's drain draining |
| `NodeHistory.Transitions` | cyxcloud-metadata/src/postgres.rs:151-568 | no other step changes a status but a heartbeat that starts a quarantine and the monitor's three moves, each from one status to one other |
| `NodeHistory.DrainedIff` | cyxcloud-gateway/src/node_monitor.rs:148-169 | the second phase drains an offline node if and only if its update succeeds and it fell offline longer ago than the threshold |
| `NodeHistory.RemovedIff` | cyxcloud-gateway/src/node_monitor.rs:171-190 | the third phase removes a node if and only if it is offline or draining, fell offline longer ago than the threshold and was not online since, no job names it and its deletion succeeds |
| `NodeHistory.LocatedIff` | cyxcloud-metadata/src/postgres.rs:831-920 | over every run a chunk is recorded on a node if and only if a step recorded it and neither the record nor the node was removed since |
| `Lifecycle.JobsPinNodes` | cyxcloud-metadata/migrations/001_initial.sql:202-220 | repair jobs are never lost and their source and target are never removed, over every run |
| `Lifecycle.EvacuatedNeverRemoved` | cyxcloud-gateway/src/node_monitor.rs:148-190 | a node drained with a target and a chunk whose job is accepted is never removed, whatever the remove threshold and whichever other jobs are refused |
| `Lifecycle.EvacuationExact` | cyxcloud-gateway/src/node_monitor.rs:245-322 | the jobs of a draining node: one for each chunk in order, targets in turn |
| `NodeHistory.EvacuatedIff` | cyxcloud-gateway/src/node_monitor.rs:245-322 | a chunk of a draining node gets a job if and only if its insert is not refused and some node is online |
| `Lifecycle.EvacuationCovers` | cyxcloud-gateway/src/node_monitor.rs:245-322 | every stored chunk of a draining node gets exactly one job, in every run |
| `Lifecycle.EvacuationBalanced` | cyxcloud-gateway/src/node_monitor.rs:286-289 | the numbers of jobs per online node differ by at most one |
| `Lifecycle.EvacuationTargets` | cyxcloud-gateway/src/node_monitor.rs:128-169 | each target differs from the source, is online, and has a heartbeat no older than the threshold before phase 1, unless it was inserted after that phase |
| `NodeTables.NodeTable.CreateNode` | cyxcloud-metadata/src/postgres.rs:151-187 | the register step: insert or conflict update |
| `NodeTables.NodeTable.UpdateHeartbeat` | cyxcloud-metadata/src/postgres.rs:509-568 | the heartbeat step and the status it answers |
| `NodeTables.NodeTable.DrainNode` | cyxcloud-metadata/src/postgres.rs:245-252 | the operator's drain changes the status alone |
| `NodeTables.NodeTable.MarkStaleNodes` | cyxcloud-gateway/src/node_monitor.rs:128-147 | phase 1 as a loop of single updates, some of which may fail, and its count |
| `NodeTables.NodeTable.TriggerChunkEvacuation` | cyxcloud-gateway/src/node_monitor.rs:245-322 | the round-robin loop and its two counters |
| `NodeTables.NodeTable.DrainOne` | cyxcloud-gateway/src/node_monitor.rs:161-168 | one update and, only if it succeeds, the evacuation |
| `NodeTables.NodeTable.StartDrainingNodes` | cyxcloud-gateway/src/node_monitor.rs:148-169 | phase 2 and its count |
| `NodeTables.NodeTable.RemoveNodes` | cyxcloud-gateway/src/node_monitor.rs:171-190 | phase 3: deletes of nodes named by a job fail |
| `NodeTables.NodeTable.PromoteRecovered` | cyxcloud-gateway/src/node_monitor.rs:192-209 | phase 4 and its count |
| `NodeTables.NodeTable.RunCheckCycle` | cyxcloud-gateway/src/node_monitor.rs:119-227 | the four phases in order, each on what the earlier ones left, and the four counts |
| `Payout.PayEach` | cyxcloud-gateway/src/payment_daemon.rs:733-750 | the payment loop passes over empty rewards and adds up the others |
| `Payout.Pay` | cyxcloud-gateway/src/payment_daemon.rs:718-750 | what each node is paid, how many are paid and the sum |
| `Payout.ShareIsExact` | cyxcloud-metadata/src/models.rs:493-498 | no share exceeds the pool, so the narrowing to 64 bits loses nothing |
| `Payout.SharesConserve` | cyxcloud-metadata/src/models.rs:493-498 | when the total is positive and fits 64 bits the shares add up to at most the pool and fall short by less than the number of nodes |
| `Payout.NoWeightNoPay` | cyxcloud-metadata/src/models.rs:494-496 | with a total of zero nobody is paid |
| `Payout.SharesMonotone` | cyxcloud-metadata/src/models.rs:493-498 | a heavier node never gets less |
| `Payout.NeverOverpaysIff` | cyxcloud-gateway/src/payment_daemon.rs:718-718 | for any 64-bit weights: the shares stay within every pool if and only if the sum of the weights fits 64 bits or wraps to zero |
| `Payout.UsesPoolIff` | cyxcloud-metadata/src/models.rs:493-498 | in these cases less than one unit a node remains of every pool if and only if the total is positive, or there are 2^64 nodes |
| `Payout.ConservesIff` | cyxcloud-metadata/src/models.rs:493-498 | both together if and only if the sum is positive and fits, or nobody is paid and there are 2^64 nodes |
| `Payout.ShortfallUnlessNarrowed` | cyxcloud-metadata/src/models.rs:497-497 | of a single pool less than one unit a node remains whenever no share exceeds 64 bits, even if the total wraps |
| `Payout.WrappedTotalOverpays` | cyxcloud-gateway/src/payment_daemon.rs:718-718 | two weights whose total wraps: one node is promised more than the pool |
| `Payout.NarrowedShareLosesPool` | cyxcloud-metadata/src/models.rs:497-497 | the same weights and a pool of which most is lost, because a share is narrowed |
| `Payout.WeightMonotone` | cyxcloud-metadata/src/models.rs:466-476 | more storage, uptime or reputation never lowers the weight |
| `Payout.WeightExact` | cyxcloud-metadata/src/models.rs:466-476 | the weight is storage times the part of the epoch the node was up times the reputation factor, rounded down, and the largest 64-bit number where that does not fit |
| `Payout.FullUptimeWeight` | cyxcloud-metadata/src/models.rs:466-476 | with full uptime the weight is the storage times the reputation factor |
| `Payout.WeightBound` | cyxcloud-metadata/src/models.rs:468-476 | the weight never exceeds one and a half times the storage |
| `Epochs.SecondsAreTicks` | cyxcloud-metadata/src/postgres.rs:1159-1235 | online plus offline seconds of a registered node in an epoch are the interval times the ticks that reached it, over every run, restarts and errors included |
| `Epochs.UptimeIsTicks` | cyxcloud-gateway/src/payment_daemon.rs:227-238 | over every run a registered node's online seconds in an epoch are the interval times the ticks that reached it online or recovering, its offline seconds the interval times the other ticks that reached it |
| `Epochs.CreditedOnce` | cyxcloud-gateway/src/payment_daemon.rs:198-257 | over all epochs a node is credited one interval for each tick: no tick counts in two epochs |
| `Epochs.SlashedExactly` | cyxcloud-gateway/src/payment_daemon.rs:438-495 | without restart or error a registered node is slashed at most once per epoch, when it has ended, exactly if the ticks that found it neither online nor recovering add up to more than the threshold |
| `Epochs.EpochsConsecutive` | cyxcloud-gateway/src/payment_daemon.rs:260-328 | without restart or error the epochs are 1, 2, 3, ..., a full duration apart, and a check opens the next exactly when the duration has elapsed |
| `EpochFaults.SlashesCounted` | cyxcloud-gateway/src/payment_daemon.rs:438-495 | over every run, errors and restarts included, a registered node's slashing rows of an epoch are as many as the checks that reached it when the ticks that found it down added up to more than the threshold |
| `EpochFaults.SlashedTwiceIff` | cyxcloud-gateway/src/payment_daemon.rs:296-305 | so it is slashed more than once for an epoch if and only if two checks of the epoch did so |
| `Epochs.InterruptedCheckSlashesTwice` | cyxcloud-gateway/src/payment_daemon.rs:296-305 | two checks whose payment fails slash the same node twice |
| `EpochFaults.OpensNextIff` | cyxcloud-gateway/src/payment_daemon.rs:260-328 | over every run a check moves to the next epoch if and only if it meets no error, the epoch has lasted long enough and it is the latest in the table |
| `EpochFaults.InLatestIff` | cyxcloud-gateway/src/payment_daemon.rs:165-328 | after which steps the daemon is in the latest epoch: exactly which errors and restarts take it out and bring it back |
| `EpochFaults.RestartHelpsIff` | cyxcloud-gateway/src/payment_daemon.rs:165-195 | a restart brings the daemon back to the latest epoch if and only if that epoch is not finalized |
| `EpochFaults.StoppedForGood` | cyxcloud-gateway/src/payment_daemon.rs:165-328 | a daemon outside a finalized latest epoch never opens an epoch again, restarts included |
| `EpochFaults.StillOpens` | cyxcloud-gateway/src/payment_daemon.rs:165-328 | any other daemon can: after a restart if needed, and some time |
| `EpochFaults.StepDead` | cyxcloud-gateway/src/payment_daemon.rs:165-181 | a daemon without an epoch whose epochs are all finalized stays so under every step, since epoch 1 cannot be created again |
| `EpochFaults.DeadAfterRestart` | cyxcloud-gateway/src/payment_daemon.rs:165-181 | a run that ends so, and in a state from which no step opens another epoch: an error after paying and before creating the next epoch, then a restart |
| `Epochs.StuckUntilRestart` | cyxcloud-gateway/src/payment_daemon.rs:307-318 | an error between creating and initializing the next epoch keeps the daemon in the old one until a restart |
| `EpochHistory.RecordIff` | cyxcloud-metadata/src/postgres.rs:1531-1570 | over every run a registered node has an uptime record in an epoch if and only if a tick came to it there or the epoch opened while it was not in maintenance |
| `EpochHistory.FinalizedIff` | cyxcloud-metadata/src/postgres.rs:1427-1460 | over every run an epoch is finalized if and only if a check of it came past the payment while it had uptime records |
| `EpochHistory.StartedWhenMade` | cyxcloud-metadata/src/postgres.rs:1389-1412 | an epoch's start is the time its row was made, and stays so |
| `EpochHistory.RunRemembers` | cyxcloud-gateway/src/payment_daemon.rs:165-195 | over every run the daemon's start time is that of its epoch in the table, and it has none outside an epoch |
| `PaymentDaemons.PaymentDaemon.CurrentPaymentEpoch` | cyxcloud-metadata/src/postgres.rs:1416-1423 | the latest epoch that is not finalized |
| `PaymentDaemons.PaymentDaemon.EnsureCurrentEpoch` | cyxcloud-gateway/src/payment_daemon.rs:165-195 | resumes that epoch or creates epoch 1, stopped at any point by an error |
| `PaymentDaemons.PaymentDaemon.AccumulateUptime` | cyxcloud-gateway/src/payment_daemon.rs:198-257 | one tick, possibly cut short by an error |
| `PaymentDaemons.PaymentDaemon.CheckAndSlashNodes` | cyxcloud-gateway/src/payment_daemon.rs:438-495 | one slashing row for each node offline too long |
| `PaymentDaemons.PaymentDaemon.FinalizePaymentEpoch` | cyxcloud-gateway/src/payment_daemon.rs:687-768 | an epoch without uptime rows is not finalized |
| `PaymentDaemons.PaymentDaemon.StartNextEpoch` | cyxcloud-gateway/src/payment_daemon.rs:307-318 | the next epoch, unless its row exists or the database fails |
| `PaymentDaemons.PaymentDaemon.CheckEpochEnd` | cyxcloud-gateway/src/payment_daemon.rs:260-328 | the whole end-of-epoch work, stopped at any point by an error |
| `Quorum.NodesPartitioned` | cyxcloud-metadata/src/quorum.rs:213-216 | successes and failures partition the nodes, and their results all replies |
| `Quorum.ReadExact` | cyxcloud-metadata/src/quorum.rs:157-232 | a read fails exactly without nodes or past the deadline; otherwise it is achieved if and only if as many nodes as the quorum answered, or all |
| `Quorum.WriteExact` | cyxcloud-metadata/src/quorum.rs:237-330 | a write succeeds if and only if in time as many nodes as the quorum confirmed, or all; otherwise it says how many did and how many were needed |
| `Quorum.QuorumsMeet` | cyxcloud-metadata/src/quorum.rs:157-330 | if the quorums overlap, every achieved read shares a replica with every acknowledged write |
| `Quorum.QuorumsMayMiss` | cyxcloud-metadata/src/quorum.rs:157-330 | if they do not, some achieved read misses some acknowledged write altogether |
| `Quorum.StrictOverlaps` | cyxcloud-metadata/src/quorum.rs:64-72 | `strict(n)` overlaps on k nodes if and only if k is below two majorities, so on its n replicas and on fewer |
| `Quorum.MajorityLeast` | cyxcloud-metadata/src/quorum.rs:64-72 | a majority is the least quorum that overlaps with itself on all replicas |
| `Quorum.ValidateExact` | cyxcloud-metadata/src/quorum.rs:85-99 | `validate` accepts exactly positive quorums with no more confirmations than replicas, and reports the first demand not met |
| `Quorum.ValidWithoutOverlap` | cyxcloud-metadata/src/quorum.rs:85-99 | `validate` accepts configurations without overlap |
| `Quorum.ReadsLatest` | cyxcloud-metadata/src/quorum.rs:157-330 | over any run of versioned writes with partial failures an achieved read contains an answer with the latest acknowledged version or a later one |
| `Quorum.VersionExact` | cyxcloud-metadata/src/quorum.rs:237-330 | a replica's version is the number of the latest write it stored |
| `Quorum.LatestExact` | cyxcloud-metadata/src/quorum.rs:237-330 | the latest acknowledged version is the number of the latest write that was acknowledged |
| `CircuitBreaker.Breaker.constructor` | cyxcloud-core/src/circuit_breaker.rs:57-65 | a closed circuit |
| `CircuitBreaker.Breaker.AllowRequest` | cyxcloud-core/src/circuit_breaker.rs:68-89 | the admission and the step to half-open |
| `CircuitBreaker.Breaker.RecordSuccess` | cyxcloud-core/src/circuit_breaker.rs:92-105 | a success closes a half-open circuit and resets the counter, but does nothing while open |
| `CircuitBreaker.Breaker.RecordFailure` | cyxcloud-core/src/circuit_breaker.rs:108-129 | the counter, the time, and the two ways to open |
| `CircuitBreaker.Breaker.Call` | cyxcloud-core/src/circuit_breaker.rs:147-165 | one call without overlap |
| `CircuitBreaker.ClosedCounts` | cyxcloud-core/src/circuit_breaker.rs:92-129 | closed: the counter is the number of failures since the last success, below the threshold, and the circuit opens exactly when it reaches it |
| `CircuitBreaker.HalfOpenDecides` | cyxcloud-core/src/circuit_breaker.rs:92-129 | half-open: the next recorded outcome of any call decides |
| `CircuitBreaker.OpenAdmits` | cyxcloud-core/src/circuit_breaker.rs:68-89 | open: a request is admitted if and only if the timeout has passed since the latest recorded failure |
| `CircuitBreaker.StaysOpen` | cyxcloud-core/src/circuit_breaker.rs:68-129 | whatever calls overlap, an open circuit stays open until the timeout |
| `CircuitBreaker.RejectsUntilTimeout` | cyxcloud-core/src/circuit_breaker.rs:68-89 | and rejects every request until then |
| `CircuitBreaker.HalfOpenAdmitsAll` | cyxcloud-core/src/circuit_breaker.rs:87-87 | half-open admits any number of requests |
| `CircuitBreaker.SuccessesCounted` | cyxcloud-core/src/circuit_breaker.rs:93-93 | the success counter is the number of recorded successes |
| `BatchStream.StreamBatches` | cyxcloud-gateway/src/datastream.rs:216-283 | the loop sends the specified stream for a batch size of at least one, or its first batches up to the one before which the client hangs up |
| `BatchStream.DeliversAll` | cyxcloud-gateway/src/datastream.rs:216-283 | every retrieved item exactly once and in order, in consecutively numbered full batches, the last one possibly shorter, each with its hashes |
| `BatchStream.RetrievedExact` | cyxcloud-gateway/src/datastream.rs:246-256 | each file's data is delivered as often as it is among the files, and empty data never |
| `BatchStream.EndIsMarked` | cyxcloud-gateway/src/datastream.rs:258-275 | only the final batch can be marked last, and it is if and only if the last file has data or the items do not fill the batches |
| `BatchStream.CompleteStream` | cyxcloud-gateway/src/datastream.rs:216-283 | if every file has data the announced number of batches is right and exactly the final one is marked last |
| `BatchStream.AnnouncedIff` | cyxcloud-gateway/src/datastream.rs:216-216 | the announced number of batches is right if and only if the files with data fill as many batches as all files would |
| `BatchStream.UnmarkedStream` | cyxcloud-gateway/src/datastream.rs:216-283 | a missing last file can leave the stream without a last batch and with a wrong count |

## Left out

- gRPC, HTTP, WebSocket, libp2p, TLS, command-line handling and configuration loading: plumbing around libraries.
- Authentication, tokens, wallets, encryption, dataset manifests and trust levels.
- Blake3 and MD5 (any hash function) and the internals of the erasure library (a contract, with one code proved to meet it).
- Erasure.Encode: requires non-empty data, since the original panics on a shard length of zero; `encode_parallel` computes the same shards and is not modelled.
- Upload.RoundTrip: states the round trip for non-empty objects; an empty object leaves no shard records and reading it is an error.
- Gateway.ObjectStore.PutObject: does not model the bucket check, the narrowing of sizes and counts to 32 and 64-bit columns for objects beyond 2^53 bytes, or two nodes that share an address; the records of a stored shard are inserted unless the id is taken.
- Gateway.ObjectStore.GetObject: does not model deleted files, `get_object_range` and the content-hash check of `get_object_verified`, which only turn a result into another or into an error.
- Placement.SelectNodes: the floating-point score is any real function of the node and the usage maps; ties keep their order and there is no NaN.
- Placement.DcLimitIff: what utilization, distance and bandwidth add to the score is any real number of the node; the witness needs about 1500 Mbit/s of bandwidth per shard, within 32 bits below two million shards.
- Lifecycle.RunKeepsRows: covers register, heartbeat by peer id, operator drain, the clock, chunk locations and the monitor; the legacy `update_node_heartbeat`, which sets online without clearing first_offline_at, and races inside one phase are not modelled.
- Lifecycle.CycleSparesOnline: assumes the cycle takes no longer than the threshold, which the code does not enforce.
- Epochs.SlashedExactly: payments change no column it speaks of; the on-chain calls and the payment columns of the uptime rows are not modelled, the amounts are those of `Payout.Pay`.
- Payout.ShortfallUnlessNarrowed: for a total that wraps to a positive number the shortfall bound alone is shown for the pools whose shares are not narrowed; beyond that it depends on the remainders.
- Quorum.ReadsLatest: writes happen one after the other and a late write does not arrive after a newer one; `select_fastest_nodes` is not modelled.
- CircuitBreaker.ClosedCounts: the 64-bit counter does not overflow; each method is one step.
- BatchStream.StreamBatches: what is fetched for each file and the shuffled order of the files are parameters.
- ListingReader.ReadsPrinted: texts that contain none of the eleven tags the client looks for. For keys with such tags `ListingTags` settles which keys are held, not the sizes, dates and etags read with them, nor the order if the first key contains `</Contents>` alone; tags in the other texts, which the gateway makes itself or takes from names and prefixes, are not covered.
- ListingReader.ListingRoundTrip: the same listings. White space is any predicate true of a blank and false of angle brackets.
- MemoryStore.RunSane: requests one after the other; content types, etags, dates and events are not modelled.
- The rebalancer, the RocksDB backend, Redis caching and locks, and rate limiting.
