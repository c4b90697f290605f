# Blobcast in Dafny

Blobcast derives a chain from the blobs of a Celestia namespace: every node that reads the same Celestia blocks must
end with the same blocks, state roots and stored files. This project models that derivation in Dafny and proves what
the design relies on: that the incremental Merkle Mountain Range is the range defined directly on the list of leaves,
that inclusion proofs are complete and sound, that Merkle roots bind, that a node's database is a pure function of its
height whatever fails and restarts on the way, that a database copied from another node is determined by the blocks it
holds in whatever order they arrived, that header subscribers get no gaps, and that an uploaded file is downloaded
unchanged.

`dafny verify dfyconfig.toml` checks everything.

## How it is modelled

| file | what it holds |
|---|---|
| `Octets.dfy`, `Division.dfy` | octets, fixed-width integers, the hash; facts about division |
| `Bits.dfy`, `Positions.dfy` | binary counters and the position arithmetic of the mountain range |
| `Mmr.dfy`, `Proofs.dfy`, `Snapshot.dfy` | the mountain range, its inclusion proofs, its byte snapshot |
| `Merkle.dfy` | the indexed Merkle root |
| `Codec.dfy` | identifiers, headers, bodies and blocks as bytes |
| `Content.dfy` | which blobs of a Celestia block are accepted |
| `Chain.dfy` | the chain as a pure function of Celestia: what belongs to each height |
| `Store.dfy`, `Keys.dfy` | the database with its transactions and hash cache; its flat byte keys |
| `Resync.dfy`, `Remake.dfy` | making a block over content from later heights, or over any blocks that are stored |
| `Node.dfy` | the node: produce, apply, finalize, with faults |
| `HeaderFeed.dfy` | header subscriptions as interleaved events |
| `Arrival.dfy` | the orders in which a pool of workers delivers a range, cut into batches |
| `Copies.dfy`, `RemoteSync.dfy` | databases that hold any blocks of the chain; copying a range from another node |
| `History.dfy` | whole histories of processes that sync from Celestia or copy, fail and stop |
| `Submitter.dfy`, `Files.dfy` | batching of submissions; upload and download |

Decisions that carry the model:

- **Hash.** An octet is a literal byte or octet `i` of the digest of a byte string. A digest is 32 such octets, so
  buffers, slices and concatenations are exact, the hash is collision-free on byte strings and never zero, and nothing
  is postulated. The code uses the zero hash as its empty marker.
- **Celestia** is a fixed function from heights to blocks, and a commitment determines the data of its blob.
- **uint64.** Sizes are natural numbers with up to 2^62 leaves and heights up to 2^60. Where the code can overflow on a
  caller's value it is modelled modulo 2^64: the position of a leaf index, the parent and sibling of a position, and the
  upper bound of the snapshot scan. The search with `math.Log2` is the exact integer search that its comment describes.
- **Faults.** Calls to Celestia, disk commits and submissions may fail at any point; a process may stop between any two
  transactions, also between two batches of a copy. A returned Go error is `None` or a false `ok`.
- **Specification and code.** A method that updates variables or fields is proved against a function of its inputs or
  of the old state; lemmas then prove what that function means. `Represents(leaves)` says that all fields of a range are
  those of the declarative range over `leaves`; `DbAt(cfg, f)` is the database that belongs to height `f`; `Holds(cfg, db)`
  says that `db` has complete blocks of the chain and nothing else, whichever blocks these are.

## What the code does that one might not expect

Each of these is proved; where a property fails, with the exact condition under which it holds.

- An accepted inclusion proof with a sibling is genuine exactly when its leaf index is below 2^63; the doubling of a
  larger index overflows (`Proofs.Soundness`, `Proofs.OverflowedIndexIsAccepted`). A proof without siblings shows only
  that its hash is a peak (`Proofs.SoundnessNeedsSiblings`). The size a proof claims need not be one that a range ever has
  (`Proofs.AcceptsExactly`, `Proofs.OddSizeIsAccepted`).
- The index map of a range survives a snapshot exactly when no leaf was added twice (`Snapshot.IndexRoundTrip`). In the
  chain's own state no leaf ever is (`Chain.LeavesDistinct`).
- A chain whose first block has an empty body stops at height 1: no snapshot has been stored for block 2 to extend
  (`Node.EmptyFirstBlockStopsTheChain`, `Node.ReachableNext`).
- A header subscription from one above the finalized height is sent a lower height if the last block is committed but
  not yet published (`HeaderFeed.AlwaysGapFree`, `HeaderFeed.PendingPublishBreaksTheInterval`).
- A copy with w workers (twice the number of processors) and batches of n ends at the source's finalized height in every
  order in which its blocks can arrive exactly when its range fits one batch or w is at most the size of the last batch,
  (end - next) mod n + 1; otherwise the finalized height can lag although all blocks are there
  (`Arrival.AlwaysFinalized`). A node one block behind fetches nothing (`RemoteSync.SyncChainFromGrpc`).
- A copy that is stopped between two batches can leave missing blocks below the finalized height, and never does exactly
  when its range fits one batch or there is one worker (`Arrival.NeverHoles`). Over what it leaves the next block is made as
  it is on the chain exactly when no block with a body is missing above the nearest snapshot and every blob is accepted as
  on the chain (`Remake.MadeExactly`).
- A node whose finalized height lags makes the blocks above it again over later content. A block comes out as it was
  exactly when none of its manifests was rejected in its place and is satisfied later (`Resync.ResyncExactly`,
  `Resync.LateManifestExists`). So a history with copies is canonical if every copy fits one batch (`History.RunNode`),
  and determined by two heights if no manifest comes late (`History.RunLagging`).
- A file whose content is `chk:` followed by a chunk's hash shares its upload record with that chunk
  (`Files.PutFileData`, `Files.ChunkNameIsTakenForComplete`).
- At height 2^64 - 1 the upper bound of the snapshot scan wraps and the scan is empty (`Keys.ScanFindsNearest`).

## Model

| member | source | states |
|---|---|---|
| Octets.HashInjective | pkg/crypto/crypto.go:32-42 | different byte strings have different digests |
| Octets.HashPairInjective | pkg/crypto/crypto.go:32-42 | the digest of a 32-byte part followed by another part determines both parts |
| Octets.LE32RoundTrip | pkg/util/uint.go:5-7 | reading four little-endian bytes gives back every uint32 written |
| Octets.LE64RoundTrip | pkg/util/uint.go:9-11 | reading eight little-endian bytes gives back every uint64 written |
| Octets.BE64RoundTrip | pkg/util/uint.go:13-15 | reading eight big-endian key bytes gives back every uint64 written |
| Octets.LittleEndianDigit | pkg/util/uint.go:5-11 | byte i of a little-endian number is its i-th digit to the base 256 |
| Octets.BigEndianDigit | pkg/util/uint.go:13-15 | byte i of a big-endian number of k bytes is its digit k - 1 - i to the base 256 |
| Positions.CountOnes | pkg/crypto/mmr/proofs.go:163-170 | the loop that clears the lowest bit counts the set bits |
| Positions.LeafIndexToMmrIndex | pkg/crypto/mmr/proofs.go:159-161 | leaf k is at position 2k - ones(k) modulo 2^64, and without wrap-around below 2^63 |
| Positions.PeakMapHeight | pkg/crypto/mmr/proofs.go:172-189 | the greedy descent returns the coordinates (leaf p, height h) of the position; with CoordUnique, the only pair with pos = 2p - ones(p) + h and h at most the trailing ones of p |
| Positions.CoordUnique | pkg/crypto/mmr/proofs.go:172-189 | no position has two pairs of coordinates |
| Positions.CoordExists | pkg/crypto/mmr/proofs.go:172-189 | every position has coordinates |
| Positions.CoordWithin | pkg/crypto/mmr/proofs.go:44-51 | with n leaves exactly the positions below 2n - ones(n) exist |
| Positions.IsLeaf | pkg/crypto/mmr/proofs.go:191-194 | true exactly at height 0 |
| Positions.LeafPositions | pkg/crypto/mmr/proofs.go:191-194 | height 0 is exactly where some leaf p has its position 2p - ones(p) |
| Positions.Family | pkg/crypto/mmr/proofs.go:196-211 | the parent and the sibling of the node at a position, modulo 2^64 |
| Positions.FamilyDistances | pkg/crypto/mmr/proofs.go:196-211 | the distances added and subtracted lead to the parent and the sibling, on both sides |
| Positions.SiblingsAgree | pkg/crypto/mmr/proofs.go:196-211 | a node and its sibling have the same parent, each is the sibling of the other, exactly one is the right one, and they are the two children of that parent |
| Positions.NoOverflow | pkg/crypto/mmr/proofs.go:196-211 | for positions of a range of at most 2^62 leaves nothing wraps around |
| Positions.IsLeftSibling | pkg/crypto/mmr/proofs.go:213-217 | true exactly for a left child |
| Positions.PeakPositionsAtSize | pkg/crypto/mmr/proofs.go:139-157 | the loop computes the greedy decomposition of a size |
| Positions.GreedyFindsPeaks | pkg/crypto/mmr/proofs.go:139-157 | for every n, the greedy decomposition of the size 2n - ones(n) is the list of positions of the peaks of the binary counter n |
| Positions.PeaksHaveNoParent | pkg/crypto/mmr/proofs.go:44-61 | the peaks of n leaves are exactly the nodes whose parent does not exist yet |
| Mmr.MMR.constructor | pkg/crypto/mmr/mmr.go:18-26 | a new range represents the empty list |
| Mmr.MMR.AddLeaf | pkg/crypto/mmr/mmr.go:56-103 | the carry loop turns the range over a list into the range over the list with one more leaf: all peaks, nodes, size and count as defined directly on the list; it returns the root of the new list and records the index of the leaf |
| Mmr.CarryMerges | pkg/crypto/mmr/mmr.go:72-99 | one turn of the carry: merging with the peak of height h gives node h + 1 of the new leaf |
| Mmr.CarryStops | pkg/crypto/mmr/mmr.go:72-99 | where the carry stops, the peak array is that of one more leaf |
| Mmr.PeakIsZero | pkg/crypto/mmr/mmr.go:72-99 | slot h is non-zero exactly when bit h of the number of leaves is set |
| Mmr.StoredNode | pkg/crypto/mmr/mmr.go:56-103 | every node of the range is stored at its position with its declared hash |
| Mmr.LeafPreimage | pkg/crypto/mmr/mmr.go:105-110 | the node at the position of leaf i is the digest of the position followed by the digest of the leaf |
| Mmr.ParentPreimage | pkg/crypto/mmr/mmr.go:105-110 | an inner node is the digest of its position, its left child 2^h before it and its right child just before it, in this order |
| Mmr.NodePersists | pkg/crypto/mmr/mmr.go:56-103 | later leaves never change a node |
| Mmr.TreeIsNode | pkg/crypto/mmr/mmr.go:72-99 | a perfect subtree over a slice of the leaves hashes to the stored node above that slice |
| Mmr.MMR.Root | pkg/crypto/mmr/mmr.go:49-54 | the root is the one defined by recursion over the list of leaves, zero for none |
| Mmr.MMR.PeaksLR | pkg/crypto/mmr/mmr.go:140-148 | the non-zero peaks from left to right |
| Mmr.MMR.LeafIndex | pkg/crypto/mmr/mmr.go:40-47 | exactly the leaves that were added are found, each with the index of its last occurrence |
| Mmr.BagPeaks | pkg/crypto/mmr/mmr.go:121-138 | the accumulator loop folds the peaks from the right |
| Mmr.BagPeaksWithSize | pkg/crypto/mmr/mmr.go:112-117 | the bagged peaks hashed with the size |
| Mmr.BaggedPeaksAreTheRoot | pkg/crypto/mmr/mmr.go:112-138 | bagging the peaks gives the root defined directly on the list of leaves |
| Mmr.RootPreimage | pkg/crypto/mmr/mmr.go:112-138 | the root is the digest of the size followed by the peaks folded from the right, each peak before what is to its right |
| Mmr.RootBinding | pkg/crypto/mmr/mmr.go:49-54 | two lists with the same root are the same list, also across lengths |
| Proofs.GenerateInclusionProof | pkg/crypto/mmr/proofs.go:21-70 | fails exactly when the index is out of range; otherwise the proof names the index, carries the node stored at the position of that leaf, the size and the peaks of the range, and on every level up to the peak the node stored at the position of the sibling |
| Proofs.CollectSiblings | pkg/crypto/mmr/proofs.go:40-61 | the upward walk collects exactly the siblings below the peak |
| Proofs.PathStored | pkg/crypto/mmr/proofs.go:40-61 | the siblings are the nodes stored beside each ancestor, and end below the first ancestor whose parent does not exist |
| Proofs.VerifyInclusionProof | pkg/crypto/mmr/proofs.go:72-137 | accepts exactly when peaks, size and the recomputed top agree with the stored nodes |
| Proofs.Completeness | pkg/crypto/mmr/proofs.go:21-137 | for every leaf i of every list, the generated proof is one of leaf i: index i, the stored hash of that leaf, the size of the list; and it is accepted by the range over that list followed by any further leaves |
| Proofs.AcceptedHashIsStored | pkg/crypto/mmr/proofs.go:72-137 | whatever size and peaks an accepted proof with a sibling carries and whichever positions the size leads to, its leaf hash is the node stored at the position computed from its index |
| Proofs.Soundness | pkg/crypto/mmr/proofs.go:72-137 | an accepted proof with a sibling names a leaf of the range with its hash, exactly when its index is below 2^63; whichever positions the verifier computes from the size |
| Proofs.AcceptsExactly | pkg/crypto/mmr/proofs.go:72-137 | below index 2^63 a proof with siblings is accepted exactly when it names a leaf with its hash, its siblings are the first ones of the path, and its peaks are the stored nodes at the peak positions of its size and contain the node reached |
| Proofs.OddSizeIsAccepted | pkg/crypto/mmr/proofs.go:108-137 | every range of at least four leaves accepts a proof that claims five nodes, a size that no range has |
| Proofs.OverflowedIndexIsAccepted | pkg/crypto/mmr/proofs.go:159-161 | the proof of leaf 0 is accepted as one for index 2^63 + 1 |
| Proofs.SoundnessNeedsSiblings | pkg/crypto/mmr/proofs.go:72-137 | for proofs with k siblings, all accepted ones are genuine exactly when k is at least 1 |
| Proofs.SiblingFreeAcceptance | pkg/crypto/mmr/proofs.go:72-137 | for every non-empty range, an accepted proof without siblings for an index that does not exist |
| Snapshot.TakeSnapshot | pkg/crypto/mmr/snapshot.go:21-83 | the buffer filled at moving offsets is the encoding of peaks, nodes and leaves |
| Snapshot.SnapshotLayout | pkg/crypto/mmr/snapshot.go:21-83 | peaks by height, nodes by position, leaf hashes by index: each count and each hash at its offset |
| Snapshot.SortedByIndex | pkg/crypto/mmr/snapshot.go:62-80 | the entries of the index map ordered by index, independent of map order |
| Snapshot.Restore | pkg/crypto/mmr/snapshot.go:85-154 | overwrites all fields with what the bytes say, or leaves the range unchanged: with an error, or with a panic exactly when the bytes end between the nodes and the end of the leaf count |
| Snapshot.DecodesExactly | pkg/crypto/mmr/snapshot.go:85-154 | any byte string decodes exactly when three counted lists of hashes can be read one after the other, bytes behind them ignored; zero nodes are left out and a repeated leaf has its last index |
| Snapshot.PanicsExactly | pkg/crypto/mmr/snapshot.go:111-132 | reading panics exactly when peaks and nodes can be read and fewer than eight bytes are left |
| Snapshot.TakeAll | pkg/crypto/mmr/snapshot.go:85-154 | reads a counted list of hashes, failing exactly when the buffer is too short |
| Snapshot.NewMmrFromSnapshot | pkg/crypto/mmr/snapshot.go:13-19 | a fresh range with the decoded fields exactly when the bytes decode; a panic exactly when they end between the nodes and the end of the leaf count |
| Snapshot.DecodeEncode | pkg/crypto/mmr/snapshot.go:21-154 | decoding an encoded snapshot gives back its lists and counts |
| Snapshot.RoundTrip | pkg/crypto/mmr/snapshot.go:21-154 | for every range and index map, decoding the snapshot gives the same peaks, nodes, size and count |
| Snapshot.IndexRoundTrip | pkg/crypto/mmr/snapshot.go:21-154 | the index map is restored exactly when no leaf was added twice |
| Snapshot.RestoredSnapshotIsStable | pkg/crypto/mmr/snapshot.go:21-154 | the snapshot of a restored range has the same leaf list again |
| Snapshot.RestoredRange | pkg/crypto/mmr/snapshot.go:85-154 | a restored range represents the same leaves, so every further append and root agrees with the original, and its snapshot is the same bytes |
| Merkle.CalculateMerkleRoot | pkg/crypto/merkle/merkle.go:15-45 | zero for the empty list; otherwise node 0 of the level that covers the list, where a leaf is hashed after its index, a node over its left and then its right child, and a missing right child is the left one again |
| Merkle.RootOverList | pkg/crypto/merkle/merkle.go:15-45 | the level-by-level root is the one by direct recursion over the list |
| Merkle.MerkleBinding | pkg/crypto/merkle/merkle.go:15-45 | equal roots mean equal lists, lengths included, for leaves of any widths but 56 bytes |
| Merkle.NextLevelInjective | pkg/crypto/merkle/merkle.go:30-42 | for levels without repetition, doubling the odd node loses nothing: one level determines the level below, its length included |
| Merkle.RootZeroMeansEmpty | pkg/crypto/merkle/merkle.go:15-45 | the root is zero exactly for the empty list |
| Codec.IdRoundTrip | pkg/types/blob.go:47-72 | reading the 40 bytes of an identifier gives it back |
| Codec.IdParts | pkg/types/blob.go:70-72 | the height in the first eight bytes, then the commitment |
| Codec.TimeRoundTrip | pkg/util/bytes.go:26-30 | whole seconds survive, negative Unix times included |
| Codec.HeaderRoundTrip | pkg/types/block.go:99-203 | reading a header gives it back at whole seconds and with exactly the first 255 bytes of its chain id, written out |
| Codec.HeaderBytesInjective | pkg/types/block.go:99-112 | equal bytes mean equal headers up to the sub-second part of the time and the bytes of a chain id beyond 255 |
| Codec.HeaderSurvives | pkg/types/block.go:99-203 | at whole seconds and with chain ids of at most 255 bytes, reading gives the header itself, and equal bytes mean equal headers; of a longer chain id exactly the first 255 bytes survive |
| Codec.HeaderLayout | pkg/types/block.go:99-112 | every field of a header at its offset, counts and heights least significant byte first |
| Codec.StoredHeaderBytes | pkg/types/block.go:99-203 | writing a header that was read gives the same bytes, hence the same hash |
| Codec.BodyRoundTrip | pkg/types/block.go:114-238 | a body survives exactly when each list has fewer than 2^32 identifiers |
| Codec.BlockRoundTrip | pkg/types/block.go:136-153 | a block survives, at whole seconds and with the first 255 bytes of its chain id, exactly when each list has fewer than 2^32 identifiers |
| Codec.BlockSurvives | pkg/types/block.go:136-153 | a block with a chain id of at most 255 bytes and whole seconds is read back as itself exactly when each list has fewer than 2^32 identifiers |
| Codec.BlockLayout | pkg/types/block.go:136-143 | the size of the header, the header, the body |
| Codec.BodyLayout | pkg/types/block.go:114-134 | the three counts, then each identifier of the directories, files and chunks at its offset |
| Codec.EncodeIds | pkg/types/block.go:114-134 | the append loop adds the bytes of all identifiers |
| Codec.EncodeBlock | pkg/types/block.go:136-143 | the block bytes: header size, header, body |
| Codec.ReadIds | pkg/types/block.go:205-238 | the offset loop reads the identifiers that the specification decoder reads |
| Codec.ReadBlock | pkg/types/block.go:145-153 | the decoder of the round trip, with malformed bytes as an error |
| Content.SyncKeepsClosed | pkg/sync/chain.go:359-573 | syncing a block keeps every reference satisfied: chunks of stored files with matching hashes, files of stored directories with the right Merkle root (written out by AcceptedFileIsWhole and AcceptedDirIsRooted); nothing stored is lost and what is listed is stored |
| Content.SyncAddsBodyOnly | pkg/sync/chain.go:359-404 | everything stored was there before or is listed by the block |
| Content.AcceptedExtends | pkg/sync/chain.go:421-573 | what is accepted stays acceptable when content grows |
| Content.AcceptedFileIsWhole | pkg/sync/chain.go:421-514 | a file manifest is accepted exactly when there are stored chunks with the listed hashes whose concatenation has the declared size and hash |
| Content.AcceptedDirIsRooted | pkg/sync/chain.go:516-573 | a directory manifest is accepted exactly when all its files are stored and its hash is the Merkle root of the list of digests of path followed by stored file hash |
| Content.ListsInOrder | pkg/sync/chain.go:359-404 | each list of a block is the chunks, the files whole at their turn, the directories rooted in what was committed before the block, in the order of the blobs |
| Content.SyncedExactly | pkg/sync/chain.go:359-404 | a block fails exactly when one of its blobs is garbage |
| Content.ChunksBefore | pkg/sync/chain.go:406-419 | the chunks there when a blob has its turn are those committed before the block and those of earlier blobs |
| Chain.ContentIsClosed | pkg/sync/chain.go:359-573 | the content at every height is referentially closed, and every stored blob is what its commitment opens to |
| Chain.ContentGrows | pkg/sync/chain.go:359-404 | content is never lost |
| Chain.ContentIsListed | pkg/sync/chain.go:359-404 | every stored chunk, file and directory is listed by some block |
| Chain.BodyIsListed | pkg/sync/chain.go:359-404 | the identifiers of a block carry its Celestia height and name stored content of their kind |
| Chain.BodyInOrder | pkg/sync/chain.go:359-404 | block h of the chain has a body exactly when no blob is garbage, and its lists are the accepted blobs of each kind in the order of the blobs |
| Chain.DirListedExactly | pkg/sync/chain.go:516-573 | a blob is listed as a directory exactly when it is one, its files were committed before the block and its hash is the Merkle root of their digests |
| Chain.StoredManifestsHold | pkg/sync/chain.go:406-573 | in every committed database every chunk has its hash, every file its chunks, size and hash, every directory its files and the Merkle root of their path-and-hash digests |
| Chain.LeavesAdded | pkg/sync/chain.go:283-308 | the leaves that block h adds to the state are its directories root, then its files root, then its chunks root, each exactly when its list is not empty |
| Chain.IdsRootBinding | pkg/types/blob.go:85-91 | equal roots mean equal identifier lists |
| Chain.LeavesDistinct | pkg/sync/chain.go:283-313 | the same root never enters the state twice |
| Chain.HashAtInjective | pkg/types/block.go:68-83 | headers of different heights have different hashes |
| Chain.DbBlocks | pkg/sync/chain.go:261-336 | the database at height F has exactly the blocks 0 to F |
| Chain.DbHashIndex | pkg/state/transaction.go:62-71 | the hash index maps exactly the hashes of blocks 0 to F to their heights |
| Chain.DbMmrs | pkg/sync/chain.go:283-313 | snapshots are stored exactly at the heights of blocks with a body, each of all leaves up to there |
| Chain.LeavesUnchanged | pkg/sync/chain.go:283-313 | blocks without a body leave the state as it was |
| Chain.StoredChainIsLinked | pkg/sync/chain.go:261-336 | stored block h decodes to version 1, the first 255 bytes of the chain id, height h, Celestia height h + offset, its time in seconds and its body; its parent hash is the hash of the stored block before it, its roots are those of its body and of all leaves so far, and its hash leads back to h |
| Chain.ChainBinding | pkg/types/block.go:68-112 | two chains that share one block hash share every block up to it |
| Chain.StateRootBinding | pkg/sync/chain.go:283-313 | a state root stands for one sequence of body roots |
| Store.HashCache.Hash | pkg/types/block.go:68-83 | the cached hash of the height if there is one, else the computed one, then cached |
| Store.ChainState.BeginTransaction | pkg/state/chain.go:88-96 | refused while another one is open; a new one sees the database unchanged |
| Store.ChainState.GetBlock | pkg/state/chain.go:141-153 | the decoded block at a height |
| Store.ChainState.GetBlockByHash | pkg/state/chain.go:155-168 | the block that the hash index leads to |
| Store.ChainState.GetStateMmr | pkg/state/chain.go:188-235 | the range of the nearest snapshot at or below the height, an error exactly when there is none or it does not decode; the empty range at 0 |
| Store.NearestIsGreatest | pkg/state/chain.go:211-224 | the snapshot found is the greatest one at or below the height |
| Store.ChainStateTransaction.constructor | pkg/state/transaction.go:30-38 | a new transaction would commit the database as it is |
| Store.ChainStateTransaction.SetFinalizedHeight | pkg/state/transaction.go:40-42 | a commit would set the finalized height and nothing else |
| Store.ChainStateTransaction.PutStateMmrRaw | pkg/state/transaction.go:53-60 | a commit would store the snapshot; nothing at height 0 |
| Store.ChainStateTransaction.PutBlock | pkg/state/transaction.go:62-71 | a commit would store the block and index its hash, cached or not |
| Store.ChainStateTransaction.PutChunk | pkg/state/transaction.go:73-86 | a commit would store chunk and hash, and reads see them at once |
| Store.ChainStateTransaction.GetChunk | pkg/state/transaction.go:88-94 | what a commit would leave: the transaction reads its own writes |
| Store.ChainStateTransaction.GetChunkHash | pkg/state/transaction.go:96-102 | what a commit would leave: the transaction reads its own writes |
| Store.ChainStateTransaction.PutFileManifest | pkg/state/transaction.go:104-113 | a commit would store the manifest; the pending map is keyed by pointer |
| Store.ChainStateTransaction.GetFileManifest | pkg/state/transaction.go:115-121 | the pending manifest under this very pointer, else the committed one |
| Store.ChainStateTransaction.PutDirectoryManifest | pkg/state/transaction.go:123-131 | a commit would store the manifest |
| Store.ChainStateTransaction.Commit | pkg/state/transaction.go:133-155 | all writes or none; fails when finished already; closes the transaction |
| Store.ChainStateTransaction.Abort | pkg/state/transaction.go:157-174 | drops all writes; fails when finished already; closes the transaction |
| Node.SyncChunk | pkg/sync/chain.go:406-419 | stores the chunk with its hash |
| Node.SyncFileManifest | pkg/sync/chain.go:421-514 | stores the manifest exactly when all chunks are there with the listed hashes and together have the declared size and hash (WholeFile, written out) |
| Node.SyncDirectoryManifest | pkg/sync/chain.go:516-573 | stores the manifest exactly when all files were committed before the block and the declared hash is the Merkle root of the digests of path and stored file hash (RootedDir, written out) |
| Node.SyncBlobsInto | pkg/sync/chain.go:359-404 | the loop over the blobs of a block leaves the content and the three lists of the specification, or fails on garbage |
| Node.NearestSnapshotIsReplay | pkg/state/chain.go:188-235 | a snapshot at or below h exists exactly when some block in 1 to h has a body, and it is the replay of all non-zero roots of blocks 1 to h |
| Node.RestoreState | pkg/state/chain.go:188-235 | a snapshot of the leaves of some height restores their range, index map included |
| Node.GetStoredState | pkg/state/chain.go:188-235 | on any database that holds blocks of the chain: the range of the leaves of the nearest stored snapshot, an error exactly when there is none |
| Node.GetStateMmrAt | pkg/state/chain.go:188-235 | on every committed database: succeeds exactly when h is 0 or some block in 1 to h has a body, and has peaks, nodes, size and index map of a fresh range fed every root of blocks 1 to h |
| Node.MerkleRootOfIds | pkg/types/blob.go:85-91 | the Merkle root of the identifiers of a list |
| Node.NewBlock | pkg/types/block.go:44-66 | version 1 and the roots of the three lists |
| Node.AddRoots | pkg/sync/chain.go:283-308 | the range then represents the old leaves, the directories root, the files root and the chunks root, each only if non-zero; the root is that of the longer list; changed exactly when the body is not empty |
| Node.BlobcastChain.CreateGenesisBlock | pkg/sync/chain.go:219-240 | writes block 0, also over an earlier genesis |
| Node.BlobcastChain.ProduceBlock | pkg/sync/chain.go:242-259 | over any stored content: the block with the body that syncing over that content gives, unless Celestia fails or the block holds garbage |
| Node.ProducedAt | pkg/sync/chain.go:242-259 | over the content of the height before, or of a later height at which the block would be made as it was, syncing gives the body of the chain |
| Node.BlobcastChain.LinkBlock | pkg/sync/chain.go:261-308 | over any database that holds the block before, also with holes, and for any body: linked to the hash of that block and to the root of the nearest snapshot with the new roots; the same whether that block comes from memory or from disk and whether its hash is cached |
| Node.BlobcastChain.ApplyBlock | pkg/sync/chain.go:261-331 | a commit would leave the database of the next height but for the finalized height; fails exactly when there is no range to extend |
| Node.BlobcastChain.StoreApplied | pkg/sync/chain.go:304-331 | a commit would leave the next database, or the same one when the block is written again |
| Node.SameBlockAgain | pkg/sync/chain.go:304-331 | writing a block of the chain again changes nothing |
| Node.BlobcastChain.FinalizeBlock | pkg/sync/chain.go:333-336 | a commit would set the finalized height |
| Node.BlobcastChain.WriteBlock | pkg/sync/chain.go:126-146 | produce, apply and finalize in one transaction would leave the database of the height |
| Node.BlobcastChain.SyncHeight | pkg/sync/chain.go:121-157 | one block is committed as a whole or not at all; without faults exactly when its height is reachable; also when the finalized height lags behind the content |
| Node.BlobcastChain.SyncGenesis | pkg/sync/chain.go:76-97 | genesis is committed or the database is unchanged |
| Node.BlobcastChain.SyncChain | pkg/sync/chain.go:53-217 | for any faults, latest heights and stopping point the database stays the one determined by its finalized height and the height of its content, the finalized height never falls, never passes the latest Celestia height, and every cached hash equals the uncached one; without faults and with enough rounds no further block can be made |
| Node.CaughtUpIsGreatest | pkg/sync/chain.go:53-217 | no further block can be made exactly when the height is the greatest reachable one whose Celestia height is not above the latest |
| Node.SameHeightSameDb | pkg/sync/chain.go:53-217 | two histories with the same finalized height past genesis have the same database |
| History.RunNode | pkg/sync/chain.go:53-217 | over any sequence of process lives, syncing from Celestia or copying ranges that fit one batch from any sound sources, with faults and stops anywhere, the database is the pure function of its finalized height, the offset and the Celestia data |
| History.RunLocal | pkg/sync/chain.go:53-217 | one process life of SyncChain calls, started with an empty hash cache |
| History.RunRemote | cmd/node/sync.go:33-70 | one copying process between any two databases that hold reachable blocks, also with holes: complete, or fitting one batch, it leaves a receiver without holes as the database of the later height or as it was |
| History.RunLagging | pkg/sync/chain.go:53-217 | with copies of any size on a chain without late manifests, the database is a pure function of its finalized height and the height of its content, until a copy that does not fit one batch fails after it has stored some of its batches |
| History.OrderlySettles | pkg/sync/chain.go:53-217 | without late manifests every lagging database can be synced on |
| History.SyncRepeatedly | pkg/sync/grpc.go:38-67 | copying again from the state that a copy left completes: the blocks are complete from the first time on, and past genesis the finalized height rises until at most the last block is missing |
| History.CopyIsLag | pkg/sync/grpc.go:38-67 | a receiver that had the blocks below the range and now has the range is the database of the later height |
| Node.ReachableNext | pkg/sync/chain.go:261-313 | one more height is reachable exactly when its block holds no garbage and there is a range to extend |
| Node.EmptyFirstBlockStopsTheChain | pkg/state/chain.go:222-224 | no node passes height 1 if the first Celestia block holds no blobs |
| Node.StoredHash | pkg/types/block.go:68-89 | the hash of a block read from disk is the one it had in memory |
| Node.GoodHashesNext | pkg/types/block.go:68-89 | reading or setting the cached hash of a height keeps every cached hash the uncached one of its block |
| Resync.ResyncExactly | pkg/sync/chain.go:359-404 | a block is made again over later content as it was exactly when none of its manifests was rejected in its place and would be accepted at the later height |
| Resync.SameBodyExactly | pkg/sync/chain.go:359-404 | over any two genuine contents a block lists the same blobs exactly when each blob is accepted over both or over neither |
| Resync.LateChangesTheBlock | pkg/sync/chain.go:359-404 | with such a manifest the block made again has another files or directories root |
| Resync.LateManifestExists | pkg/sync/chain.go:421-514 | a chain in which a manifest comes one block before its chunk: at every later height the block would be made differently |
| Remake.MadeExactly | pkg/sync/chain.go:242-313 | over any blocks of the chain that are stored, with holes or without, the next block is made as it is on the chain exactly when it holds no garbage, no block with a body is missing between the nearest snapshot and the block before, and each of its blobs is accepted over the stored content as on the chain |
| Remake.StoredLeavesExactly | pkg/state/chain.go:188-235 | the nearest stored snapshot is that of all leaves exactly when no block with a body is missing above it |
| Remake.LinkedExactly | pkg/sync/chain.go:261-308 | two bodies over two states give the same linked block exactly when both are the same |
| Remake.SameLeaves | pkg/sync/chain.go:283-313 | the state is the same at two heights exactly when no block between them has a body |
| HeaderFeed.DeliveryShape | pkg/sync/chain.go:577-661 | in every interleaving the headers sent are a run of history from the start height, then the published heights from the first live one on, and the channel continues them |
| HeaderFeed.StepKeepsInv | pkg/sync/chain.go:577-661 | every step of publisher, server and client keeps that invariant |
| HeaderFeed.RepeatsAreOld | pkg/grpc/rollup/server.go:126-198 | only heights up to the finalized height read at subscription can be sent twice |
| HeaderFeed.GapFreeExactly | pkg/grpc/rollup/server.go:126-198 | what was sent is an interval from the start height exactly when no live header came yet or the first live height is not below the start |
| HeaderFeed.FirstLiveIsFixed | pkg/sync/chain.go:577-592 | the first live height is decided when the subscriber registers |
| HeaderFeed.AlwaysGapFree | pkg/grpc/rollup/server.go:126-198 | every continuation gives an interval exactly when, at subscription, the start height is finalized, or is the next one and no committed block still waits to be published |
| HeaderFeed.NothingIsMissed | pkg/grpc/rollup/server.go:126-198 | a registered subscriber that has drained its channel while nothing is being published has every height from its start to the finalized one |
| HeaderFeed.PendingPublishBreaksTheInterval | pkg/sync/chain.go:611-661 | for every height, a run in which a client that starts one above the finalized height is sent the finalized one |
| RemoteSync.StreamBlock | pkg/grpc/sync/server.go:39-127 | from any database that holds blocks of the chain: the message that the chain determines, exactly for the heights it holds |
| RemoteSync.StreamBlocks | pkg/grpc/sync/server.go:23-137 | the messages of the range in order up to the first missing height; served as a whole exactly when the range is not empty and without holes; end 0 stands for the finalized height |
| RemoteSync.ServeSnapshot | pkg/grpc/sync/server.go:48-64 | a snapshot exactly for heights above 0 whose block has a body |
| RemoteSync.ServeChunks | pkg/grpc/sync/server.go:70-91 | the chunks and hashes in the order of the block, failing exactly when one is missing |
| RemoteSync.ServeFiles | pkg/grpc/sync/server.go:93-103 | the file manifests in the order of the block, failing exactly when one is missing |
| RemoteSync.ServeDirs | pkg/grpc/sync/server.go:105-115 | the directory manifests in the order of the block, failing exactly when one is missing |
| RemoteSync.ServeBody | pkg/grpc/sync/server.go:66-115 | all chunks, hashes and manifests of a held block, as their commitments open |
| RemoteSync.ProcessStreamedBlock | pkg/sync/grpc.go:163-239 | fails exactly when the number of chunks, files or directories is not that of the block; otherwise pairs the data with the identifiers of the block |
| RemoteSync.Work | pkg/sync/grpc.go:138-161 | a worker makes of a message what the chain determines and keeps the hash cache right |
| RemoteSync.Receive | pkg/sync/grpc.go:245-262 | the committer takes one result and commits when the batch is full; a failed commit leaves the database unchanged |
| RemoteSync.CommitRest | pkg/sync/grpc.go:264-271 | what is left is committed too; the finalized height is then the greatest of the last batch |
| RemoteSync.SyncWithStream | pkg/sync/grpc.go:69-136 | workers and committer in any interleaving, with failing commits, a broken stream and a stop at any point: what is stored is the blocks that were there and the first batches of what arrived, in an order that the workers can produce; on completion everything |
| RemoteSync.EndOfStream | pkg/sync/grpc.go:125-136 | when all results are in, what is left is committed, unless the stream broke off |
| RemoteSync.CommitBatch | pkg/sync/grpc.go:273-338 | one batch in one transaction, as a whole or not at all; the finalized height becomes its greatest height, and the headers are published in ascending order |
| RemoteSync.SortHeights | pkg/sync/grpc.go:273-274 | ascending, and a permutation |
| RemoteSync.WriteBatch | pkg/sync/grpc.go:284-318 | the blocks of the batch merged in order |
| RemoteSync.PutChunks | pkg/sync/grpc.go:287-292 | all chunks of a block, in any order of the map |
| RemoteSync.PutFiles | pkg/sync/grpc.go:294-298 | all file manifests of a block, in any order of the map |
| RemoteSync.PutDirs | pkg/sync/grpc.go:300-304 | all directory manifests of a block, in any order of the map |
| RemoteSync.SyncChainFromGrpc | pkg/sync/grpc.go:38-136 | between any two databases that hold blocks of the chain, also with holes or a lagging finalized height: completes without failures exactly when the source has the whole range; then the receiver has its own blocks and the range, from genesis or above its finalized height to that of the source, and the finalized height is the greatest of the last batch; a range that fits one batch is stored as a whole or not at all; with the same blocks it has the same database as the source |
| Arrival.PoolProduces | pkg/sync/grpc.go:79-123 | a pool of w workers who take the messages in order produces exactly the orders in which a height overtakes fewer than w smaller ones |
| Arrival.AlwaysFinalized | pkg/sync/grpc.go:241-338 | in every order that w workers can produce the finalized height ends at the end of the range exactly when the range fits one batch or w is at most the size of the last batch |
| Arrival.NeverHoles | pkg/sync/grpc.go:241-338 | wherever a copy stops, in every order that w workers can produce no height below the finalized one is missing, exactly when the range fits one batch or there is one worker |
| Copies.HeldIsDetermined | pkg/sync/grpc.go:241-338 | the set of stored blocks determines the database, but for the finalized height: holes allowed, any order of arrival |
| Copies.HeldIsCanonical | pkg/sync/grpc.go:241-338 | a database that holds the blocks up to f is the one that the chain assigns to f, but for the finalized height |
| Copies.CanonicalHolds | pkg/sync/grpc.go:38-67 | every database of the chain, and with EmptyHolds an empty one, is one that a sync may start from or serve |
| Copies.MergeHolds | pkg/sync/grpc.go:284-318 | writing a block keeps the database one that holds complete blocks of the chain and nothing else, with one block more |
| Copies.MergeWithin | pkg/sync/grpc.go:284-318 | writing a block of the chain adds nothing that the chain does not have |
| Copies.MergeCovers | pkg/sync/grpc.go:284-318 | it adds everything that belongs to the block and loses nothing |
| Keys.FamiliesAreDisjoint | pkg/state/chain.go:71-81 | keys of different record families are never equal, although two prefixes begin others |
| Keys.KeyInjective | pkg/state/state.go:23-32 | different records have different keys |
| Keys.BigEndianOrder | pkg/util/bytes.go:20-24 | lexicographic order of fixed-width big-endian numbers is numeric order |
| Keys.HeightOrder | pkg/state/state.go:30-32 | byte order on block and snapshot keys is the order of heights |
| Keys.ScanSees | pkg/state/chain.go:211-216 | the scan range holds the snapshot keys up to the height and no key of another family |
| Keys.ScanFindsNearest | pkg/state/chain.go:211-224 | the last key of the scan is that of the greatest stored height up to h, and the scan is empty exactly when there is none; it is always empty at 2^64 - 1 |
| Keys.OtherKeysKeep | pkg/state/state.go:23-32 | a write to one key leaves every other record of every family unchanged |
| Keys.WriteRefines | pkg/state/transaction.go:40-131 | each write on the flat store is the write on the separate map of its family |
| Keys.BatchRefines | pkg/state/transaction.go:139-155 | a batch on the flat store is the same batch on the separate maps |
| Keys.MetaWriteRefines | pkg/state/chain.go:107-126 | setting the chain id or the offset touches none of the maps |
| Keys.StoreRefines | pkg/state/chain.go:60-126 | from an empty disk on, after any committed batches and first-start records, the flat store holds what the separate maps hold |
| Keys.GetChunk | pkg/state/chain.go:237-252 | the lookup under the byte key finds exactly the chunk of the chunk map |
| Keys.GetChunkHash | pkg/state/chain.go:254-265 | the lookup under the byte key finds exactly the hash of the chunk hash map |
| Keys.GetDirectoryManifest | pkg/state/chain.go:267-289 | the lookup under the byte key finds exactly the manifest of the directory map |
| Keys.GetFileManifest | pkg/state/chain.go:291-313 | the lookup under the byte key finds exactly the manifest of the file map |
| Keys.FinalizedHeight | pkg/state/chain.go:128-139 | the decoded record is the finalized height, 0 without a record |
| Keys.GetBlock | pkg/state/chain.go:141-153 | the lookup under the byte key decodes exactly the block of the block map |
| Keys.GetBlockByHash | pkg/state/chain.go:155-168 | the two lookups, through the big-endian height, find exactly the block that the hash index leads to |
| Keys.HasStateMmrAtHeight | pkg/state/chain.go:171-186 | true exactly when the snapshot map has this very height, never at 0 |
| Keys.IterLast | pkg/state/chain.go:211-224 | the greatest key within the bounds in byte order, if there is one |
| Keys.GetStateMmr | pkg/state/chain.go:188-235 | the exact lookup and then the scan find the nearest snapshot at or below the height; at 2^64 - 1 only the exact lookup can |
| Submitter.Run | pkg/sync/submit.go:110-167 | for every sequence of events the batches are those of Batches, whose turns EndsExactly describes: what was taken is the submitted batches followed by the current one; on return every item taken has exactly one answer on its own closed channel and no other channel was used; a batch of two or more items has estimated size at most MaxTxSize, and a batch that an item ended never fits together with the next one |
| Submitter.TakeItem | pkg/sync/submit.go:121-153 | an item joins the batch exactly when the estimated size of the batch and its payload length plus 100 are together at most MaxTxSize; else the batch is submitted and the item starts the next one |
| Submitter.EndsExactly | pkg/sync/submit.go:119-166 | at every turn of every run: an arriving item ends the batch exactly when it does not fit; a timer, a closed queue and a cancellation end what is there and leave nothing; a closed priority queue ends nothing; the batch is all that was taken and not yet submitted, with the outcome of this turn |
| Submitter.NeighboursDoNotFit | pkg/sync/submit.go:119-166 | a batch that an item ended is followed by one that starts with this item, and the two together exceed MaxTxSize |
| Submitter.BatchesInOrder | pkg/sync/submit.go:119-166 | batches are submitted at ascending turns, and none of two or more items is too large |
| Submitter.SizeOfPayloads | pkg/sync/submit.go:126-133 | the estimated size of a batch is the length of its payloads joined and 100 for each |
| Submitter.AnswersInPlace | pkg/sync/submit.go:179-199 | item j of batch i is answered by its own commitment at the height of that batch, or by its failure |
| Submitter.Flush | pkg/sync/submit.go:169-200 | the batch is answered and every other channel keeps its state |
| Submitter.SubmitBatch | pkg/sync/submit.go:169-200 | every item gets its own commitment at the height of the batch, or the failure, as the only result on its channel, which is closed; no send blocks or panics |
| Submitter.StoreBatch | pkg/celestia/celestia.go:62-85 | one commitment for each message, in order; an empty batch is refused |
| Files.Split | pkg/fileutil/fileutil.go:12-23 | the pieces joined are the data; all have the limit as length but the last, which is shorter and not empty if it differs |
| Files.SplitIsUnique | pkg/fileutil/fileutil.go:12-23 | these properties leave only one result |
| Files.PutFileData | pkg/sync/sync.go:19-204 | the returned id opens to a manifest of exactly this data unless the data is the name of an already recorded chunk; the records stay truthful unless it is the name of a chunk not yet recorded |
| Files.PutChunks | pkg/sync/sync.go:85-161 | submits what has no record, records what comes back; on success every chunk has a truthful record, on failure the records stay truthful |
| Files.ListChunks | pkg/sync/sync.go:163-179 | the references open to the pieces, in order |
| Files.RecordFile | pkg/sync/sync.go:196-201 | recording a file under its hash keeps the records truthful exactly when its content is not the name of a chunk |
| Files.RecordChunk | pkg/sync/sync.go:145-157 | saving the id of a submitted chunk keeps all records truthful |
| Files.RecordedChunk | pkg/sync/sync.go:163-175 | the record of a chunk holds an id that opens to this chunk |
| Files.RecordedFile | pkg/sync/sync.go:34-54 | the record of a file holds an id of a manifest of this file exactly when its content is not the name of a chunk |
| Files.ChunkNameIsTakenForComplete | pkg/sync/sync.go:34-54 | records with one chunk in which the file made of the name of the chunk counts as complete |
| Files.GetFileData | pkg/api/node/file.go:14-63 | the result is exactly the stored chunks of the stored manifest joined, if these have the declared size and hash; an error exactly otherwise |
| Files.DownloadsExactly | pkg/api/node/file.go:14-63 | a download gives some data exactly when the manifest is stored, all its chunks are, they join to this data, and size and hash are the declared ones |
| Files.StoredFilesDownload | pkg/api/node/file.go:14-63 | on every committed database a download succeeds exactly for the stored manifests, with the declared size and hash |
| Files.DescribedIsAccepted | pkg/sync/chain.go:421-514 | a manifest of a file is accepted exactly where all its chunks are stored, and stands for the data of the file |
| Files.UploadedIsAccepted | pkg/sync/chain.go:421-514 | an uploaded manifest is accepted where it stands on the chain exactly when all its chunks precede it |
| Files.UploadedFileDownloads | pkg/api/node/file.go:14-63 | if all chunks of an uploaded file precede its manifest on the chain, every node at that height or above returns exactly the uploaded bytes |

## Left out

- BLAKE3, AES-GCM, base36 identifiers, protobuf and the inside of Pebble: foreign code. Messages are datatypes, the store
  is a map with atomic batches.
- Celestia RPC, retries with backoff, gRPC transport, CLI, explorer, gateway, REST handlers and the Postgres indexer:
  input, output and presentation.
- Encryption of files, MIME detection and the upload of directory manifests: they would add only easy members.
- Wall-clock time: the send timeout of a subscriber and the batch timer of the submitter are events that may happen at
  any time.
- Ranges of more than 2^62 leaves, heights from 2^60 on, Celestia blocks of 2^32 or more blobs, and the rounding of
  `math.Log2` for very large sizes.
- Malformed messages that make the program panic (missing ids, short commitments): message fields have their proper
  widths.
- Snapshot.Restore: a peak count too large to allocate, which makes the program panic, is an error here.
- Snapshot.NewMmrFromSnapshot: as above for a peak count too large to allocate.
- Codec.ReadBlock: truncated block bytes make the program panic; here they give no block.
- Proofs.VerifyInclusionProof: for a proof with size 2^64 - 1 the program takes the logarithm of 0, whose conversion to an
  integer depends on the platform, and for sizes above 2^53 the logarithm rounds; here the decomposition is exact.
  `Proofs.Soundness` holds for whatever positions come out.
- Positions.PeakPositionsAtSize: as above for sizes above 2^53.
- Update in place of a block: the program sets header fields through a pointer while a block is produced and applied;
  here each step returns the new block. Aliasing is modelled where it matters, for the pointer-keyed pending manifests.
- Read-your-writes for file manifests: the pending map is keyed by pointer, so only chunks and chunk hashes are read
  back within a transaction.
- RemoteSync.SyncWithStream: a worker error cannot occur, because no source that holds blocks of the chain sends a message
  whose counts do not match (`RemoteSync.ProcessStreamedBlock` has the error). The channels are unbounded, so the deadlock
  of workers on a full channel after the committer has given up is one of the stops.
- RemoteSync.StreamBlocks: the source's database does not change while it streams.
- History.RunNode: stops before a copy that does not fit one batch; `History.RunLagging` goes on where no manifest comes
  late. Of local syncing over holes, `Remake.MadeExactly` covers the next block; what follows a block that came out
  differently is not followed.
- Node.BlobcastChain.SyncChain: stops at height 2^60, the bound of the model.
- Store.ChainState.GetStateMmr: walks down the heights; the lookup and the iterator that the program uses are in
  `Keys.GetStateMmr`, which finds the same snapshot.
- HeaderFeed.DeliveryShape: follows one subscriber; the others share no state with it but the publisher's turn.
- Submitter.Run: items left in a queue when the loop returns are not answered by the program, and nothing is claimed of
  them.
- Files.PutFileData: upload records are kept as a map of completed ids, because the program never saves a record that is
  not completed.
