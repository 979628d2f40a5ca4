# Alpha entanglement: encoder, repair, trees and collaborative repair

This project models, in Dafny, the core of a system that makes files on IPFS repairable by alpha entanglement, and
proves what the system is for.

- **Encoder.** A stream of data blocks is woven into three families (strands) of XOR parity chains. A cache holds the
  end of every chain; after the stream, the first parity of every chain is rewritten ("wrapped").
  Modules `Bytes`, `Geometry`, `Chains`, `Emission`, `Entangling`.
- **Lattice and repair.** The same graph as linked, mutable blocks, and a depth-bounded recursive search that rebuilds
  a block from a pair of neighbours, with blocks on the call stack marked as pending and everything obtained kept.
  `LatticeGraph`, `RecoverySearch` and `RecoveryTheorems` hold the graph, the search as a function of the state, and
  the theorems; `LatticeTriples` says which pairs a block has; `StrandLoss` is the search over a getter that gives strands
  up on the way, and `GetterFeed` ties it to the getter; `Blocks` and `Lattices` hold the classes whose methods are
  proved equal to those functions.
- **Trees and getter.** The file tree and the parity trees are rebuilt from a few numbers, content identifiers are
  learnt lazily from the root downwards, and parity blocks are cut out of leaves of another size.
  Modules `TreeShape`, `TreeLabels`, `Trees`, `TreeWalks`, `TreeBuild`, `ParityTree`, `LazyResolve`, `BlockGetting`,
  `Reslicing`.
- **Stored strands.** When the merged parities of a strand are read back right, and when a strand regenerated from
  repaired data is the uploaded one. Modules `ParityStorage`, `Regeneration` and `RepairPadding`.
- **Collaborative repair.** A coordinator lists the failed leaves, splits them over peers and folds asynchronous
  reports into a verdict; coordinator, peers and a network that loses messages are one state machine.
  `RepairWalk`, `MissedLeaves`, `FailedLeaves`, `FileWalk` and `FileReach` hold the listing, `LeafRepair` the work of a peer,
  `CollabRepair` and `CollabProtocol` the protocol, and `RepairOutcome` what a successful job means.

Code that updates objects is modelled by classes and methods on the heap. Each such method is specified by a function
of the old state, and the theorems are lemmas about that function. Objects carry constant identities (`Block.index`,
the ghost `TreeNode.place`), and a ghost map `at` says which object stands at which place of the abstract graph or tree.

The domain is the one the program is used on: s = p >= 2 (`Geometry.Square`) and two or three strands. Where the code
is right only for some numbers or sizes of blocks, a lemma says exactly for which.

`dafny verify dfyconfig.toml` checks everything.

## Findings

- The constructor accepts all 1 <= s <= p. A forward step stays on the chain given by the chain-number function, for all
  blocks and strands, if and only if s = p, or s = 1 and p = 2 (`Geometry.ForwardStaysOnChainIff`); it is the next block of
  the chain if and only if s = p >= 2, or s = 1, p = 2 and there are two strands (`Geometry.ForwardIsNextIff`).
- Over a store of true parities, recover pairs, and with them repair, are right if and only if there are two full
  columns, n >= 2s (`LatticeGraph.PairsSoundIffTwoColumns`, `RecoveryTheorems.SafeIffTwoColumns`). For s <= n < 2s the
  last block of column 0 is "rebuilt" from one parity and itself, as zeros (`RecoveryTheorems.LoneBlockZeroed`).
- The getter cuts a merged strand at multiples of 262158 bytes, but parities of any size are merged without padding. With
  two full columns and no larger block, every parity of a strand is read back if and only if each of the strand's chains
  has a block of that size among its first two (`ParityStorage.StoredStrandServed`); then repair through the getter works
  on a true store (`Regeneration.ReadBackHonest`). A file of exactly 2s blocks with a short root and a short last leaf
  fails: the parity of block 1 is read with the first bytes of the next one behind it, right only if those bytes are all
  zero (`ParityStorage.TwoShortBlocks`, `ParityStorage.ShortParityRead`).
- Padding added by repair stays in a regenerated strand. The strand is byte for byte the uploaded one if and only if no
  parity's longest covered block has become longer (`Regeneration.RegeneratedIdenticalIff`). For a file that has lost one
  block of the first column, repair fills the block with zeros up to the longest block of its horizontal chain, and a
  strand regenerated from that is the uploaded one if and only if one of the first two blocks on its own chain is as long
  (`RepairPadding.LostBlockStrandIff`); `RepairPadding.StrandLengthened` gives an input where it is not.
- With fewer than s blocks the wrapping step meets a chain without a block, and the program panics as soon as one strand
  is enabled (`Entangling.Entangler.Entangle`, `Chains.AllChainsStartedIff`): it looks up block 0 on the horizontal and
  left-handed strands, and on the right-handed one the held-back parity of block s, which was never set
  (`Geometry.EmptySlotStart`).
- "Does trimming zero always works?", asked in client/repair.go:309: exactly for chunks that neither start nor end with
  a zero byte (`Bytes.TrimRestores`, `RecoveryTheorems.RunRestores`).
- swapUnflattenedTree is meant to move inner nodes away from their children. It exchanges the label of the node numbered
  one less, so a node changes its label exactly when its first child is an inner node whose swap finds a leaf
  (`TreeLabels.InnerMovesIff`); a node whose children are leaves never moves (`TreeLabels.ParentOfLeavesStays`).
- A parity is sent with a right index beyond the last block if and only if it is the last one of a chain of two or more
  blocks (`Emission.EmittedBeyondIff`).
- The walk that lists failed leaves lists a leaf if and only if it is neither in the network nor held when visited
  (`RepairWalk.ListedIff`). If no inner node is lost, or the depth is at most two, these are exactly the missing leaves
  (`FileWalk.FileWalkExact`). Otherwise a leaf may be rebuilt while an inner node is repaired; it is then held, not listed
  and not uploaded again, and the job ends as SUCCESS while the leaf is missing: so for a file that has lost just its root,
  the root's horizontal parity and the leaf behind the root, with depth four or more (`FileWalk.MissingLeafUnlisted`). For
  files whose leaves are all children of the root, the list is exact for every loss if and only if the depth is at most
  three or the root's chunk has a zero end (`FileWalk.OneLevelFileExactIff`).
- In a job stored as SUCCESS every leaf was reported repaired by a peer working for that job, but a leaf that had to be
  rebuilt is restored if and only if its chunk has non-zero ends: what is uploaded is the trimmed chunk, and its
  identifier is not checked (`RepairOutcome.SuccessRestoresIff`; `RepairOutcome.SuccessUnrestored` is a run of the other
  kind).
- A job can still be decided if and only if no message of a peer it waits for has been lost
  (`CollabProtocol.DecidableIff`); after such a loss it is pending for ever and blocks every new start for its file
  (`CollabProtocol.StuckForever`).

## Model

| member | source | states |
|---|---|---|
| Bytes.PaddingData | entangler/block.go:241-252 | both chunks get the length of the longer one and only zeros are added |
| Bytes.XorChunkData | entangler/block.go:222-238 | the bytewise XOR of the zero-extended chunks; the shorter one is padded, none is cut |
| Bytes.TrimRestores | client/repair.go:306-311 | trimming zeros off a padded copy returns the chunk if and only if its first and last bytes are non-zero |
| Geometry.ChainIndexesMeaning | entangler/entangler.go:264-277 | the three chain numbers computed inside an s-by-p window are the numbers of the horizontal, right-handed and left-handed chains defined by row and column alone |
| Geometry.PositionMeaning | entangler/entangler.go:253-261 | the position classes are the first row, the last row and the rest |
| Geometry.ForwardIsNextOnChain | entangler/entangler.go:321-347 | the forward neighbour is the least later block with the same chain number, on every strand |
| Geometry.ForwardMeaning | entangler/entangler.go:321-347 | the forward neighbour is the member of the same chain in the next column |
| Geometry.ColumnBijection | entangler/entangler.go:264-277 | on every strand each chain has exactly one block in each column |
| Geometry.ChainStartUnique | entangler/entangler.go:280-287 | the chain start is the one and only block of column 0 on the block's chain |
| Geometry.EmptySlotStart | entangler/entangler.go:230-250 | for a cache slot no block has passed the start looked up is block 0 on the horizontal and left-handed strands and block s on the right-handed one |
| Geometry.ForwardStaysOnChainIff | entangler/entangler.go:63-91 | over all accepted parameters 1 <= s <= p with two or three strands, forward steps stay on the chain for all blocks and strands if and only if s = p, or s = 1 and p = 2 |
| Geometry.ForwardIsNextIff | entangler/entangler.go:63-91 | over the same parameters, the forward neighbour is always the least later block of the chain if and only if s = p >= 2, or s = 1, p = 2 and there are two strands |
| Geometry.FirstBlockLeavesChain | entangler/entangler.go:321-347 | over the same parameters, block 1 keeps its right-handed chain if and only if s = p, or s = 1 and p = 2 |
| Chains.ParityClosedForm | entangler/entangler.go:205-250 | on a chain d1..dn the parity of dj is d1^..^dj for j >= 2; the wrapped first parity is d2^..^dn up to padding, and byte for byte unless d1 is longer |
| Chains.ParityTriple | entangler/entangler.go:205-250 | block, entering and leaving value XOR to nothing around the whole cycle; behind the wrapped first parity the entering value is the data block itself |
| Chains.NextPrevInverse | entangler/lattice.go:195-220 | right and left neighbours on a strand are inverse permutations of the blocks |
| Chains.WalkVisitsChain | entangler/lattice.go:195-220 | following right links from a chain's start visits its members column by column and returns to the start after exactly the chain's length |
| Chains.CyclesPartitionBlocks | entangler/lattice.go:195-220 | every block lies on the cycle of its own chain and on no other cycle of the strand |
| Chains.ParityNonEmpty | entangler/entangler.go:205-250 | parities of non-empty blocks are non-empty |
| Chains.AllChainsStartedIff | entangler/entangler.go:230-250 | on every strand, all chains have a block if and only if there are at least s blocks |
| Entangling.Entangler.Entangle | entangler/entangler.go:143-167 | ends without a crash if and only if there are at least s blocks or no strand is enabled; then the channel has received, in order, exactly the output defined by closed-form parities: the cache loop refines the prefix XOR of each chain |
| Entangling.Entangler.EntangleSingleBlock | entangler/entangler.go:205-227 | one block advances every enabled strand: its parity is sent, or held back when the block starts its chain |
| Entangling.Entangler.WrapLattice | entangler/entangler.go:230-250 | with at least s blocks the first parities of all chains of all enabled strands are sent, rebuilt from the chain ends, once each |
| Emission.EachParityOnce | entangler/entangler.go:205-250 | for every enabled strand and every index up to the block count exactly one parity with that left index is sent, and nothing else |
| Emission.EmissionGenuine | entangler/entangler.go:205-250 | whatever is sent has the value, strand and indices of one block's parity |
| Emission.EmittedBeyondIff | entangler/entangler.go:205-250 | a parity's right index lies beyond the last block if and only if it is the last of a chain of two or more blocks |
| Emission.EmissionIndexed | client/repair.go:108-119 | the parity of a given index sits at exactly one position of the output |
| Emission.CollectStrand | client/repair.go:108-119 | for every arrival order, writing by left index fills every cell exactly once with that block's parity |
| Emission.SingleStrandRegeneration | client/repair.go:77-119 | a run with one strand enabled sends the same parities, in the same order, as a run with all strands sends on that strand |
| Regeneration.AnswersPadded | client/repair.go:96-106 | if a new lattice over true stores answers the requests for all data blocks in order, at any depths and with any losses between them, what is fed to the entangler is the data with only zeros appended |
| Regeneration.ParityPadded | client/repair.go:77-119 | parities of such data are the original parities with only zeros appended |
| Regeneration.RegeneratedIdenticalIff | client/repair.go:121-126 | the regenerated strand, merged, is byte for byte the uploaded one if and only if for every parity the longest block it covers has kept its length |
| Regeneration.FullStrandRegenerates | client/repair.go:121-126 | in particular if each chain of the strand has a full-size block among its first two |
| RepairPadding.RebuiltLength | client/repair.go:96-106 | a block of the first column rebuilt from its horizontal strand is as long as the longest block of that chain |
| RepairPadding.LostBlockStrandIff | client/repair.go:77-126 | for a file that has lost one block of the first column, requested in order from a new lattice: the whole stream fed to the entangler, and that a strand regenerated from it is the uploaded one if and only if one of the first two blocks of the strand's chain is as long as the filled block |
| RepairPadding.StrandLengthened | client/repair.go:77-126 | with two columns, the first block lost and the block behind it longer than the first and the last one, the regenerated left-handed strand differs from the uploaded one |
| LatticeGraph.ChainsLong | entangler/lattice.go:195-220 | with two full columns every chain has two blocks, and the wrap mark is on exactly the parities leaving a chain's first block |
| LatticeGraph.PairsSound | entangler/block.go:181-219 | every pair returned for any data or parity block XORs to the block's value as sent by the encoder, wrapped, second and last in chain included |
| LatticeGraph.PairsSoundIffTwoColumns | entangler/block.go:181-219 | for data without all-zero blocks, all pairs are sound if and only if n >= 2s |
| LatticeGraph.PairsLong | entangler/block.go:147-164 | what a pair gives is at least as long as the block's value: repair adds zeros and never cuts |
| LatticeGraph.LoneBlock | entangler/lattice.go:355-360 | below two columns the sequential code offers a pair of one parity with itself |
| LatticeTriples.PairedIffMeeting | entangler/block.go:180-219 | the pairs are complete and nothing else: l and r are a pair of b if and only if the three are the data block, the leaving parity and what enters at some block of some strand, a rebuilt first parity replaced by its data block |
| LatticeTriples.PairsInOrder | entangler/block.go:180-219 | pairs come strand by strand, the block's own parity first; for a parity the pair behind it before the pair in front |
| LatticeTriples.TwoGiveThird | entangler/lattice.go:248-322 | any two blocks that meet, held or downloadable, give the third, data or parity, with depth two |
| LatticeTriples.FirstColumnLostIff | entangler/lattice.go:248-322 | a block of the first column lost with all its own parities is obtained with depth two if and only if on some strand the next block and its parity are held or downloadable |
| RecoverySearch.SearchGrows | entangler/lattice.go:248-322 | a search never loses an available block, never changes its content, leaves blocks already pending exactly as they are, and leaves no new one pending |
| RecoverySearch.SearchQuiet | entangler/block.go:90-132 | at every nested call of a request the pending blocks are exactly the blocks on the call stack, each once, all with the request's id, and stack and remaining depth add up to the request's depth; afterwards nothing is pending |
| RecoveryTheorems.DerivableAvoids | entangler/lattice.go:282-322 | marking a block as pending destroys no derivation lower than the block's own |
| RecoveryTheorems.SearchComplete | entangler/lattice.go:248-322 | from any state, depth d obtains every block with a repair derivation of height at most d |
| RecoveryTheorems.ObtainableIffDerivable | entangler/lattice.go:124-153 | a block can be obtained with some depth if and only if it has some derivation from what is held or downloadable |
| RecoveryTheorems.UploadHonest | entangler/entangler.go:143-167 | any surviving part of what one encoder run sent is an honest store |
| RecoveryTheorems.SearchCorrect | entangler/lattice.go:248-322 | a search over an honest store keeps every held block true up to trailing zeros |
| RecoveryTheorems.RunSafe | entangler/lattice.go:92-115 | over any sequence of calls with any depths and changing losses, every held block and every answer is true up to trailing zeros and nothing stays pending |
| RecoveryTheorems.RunKeeps | entangler/block.go:135-144 | available is never left and its content never changes during a run |
| RecoveryTheorems.IdsDistinct | entangler/lattice.go:238-245 | fewer than 2^64 requests in a row all have different ids |
| RecoveryTheorems.RunIds | entangler/lattice.go:238-245 | the requests of a run take consecutive ids |
| RecoveryTheorems.RunRestores | client/repair.go:306-311 | an answer trimmed by the caller is the original chunk if and only if that chunk has non-zero ends |
| RecoveryTheorems.SafeIffTwoColumns | entangler/lattice.go:248-322 | for data without all-zero blocks, repair never stores a wrong value if and only if n >= 2s |
| RecoveryTheorems.LoneBlockZeroed | entangler/lattice.go:248-322 | below two columns there is an honest store for which depth 2 stores zeros for a block |
| RecoveryTheorems.OneStrandSuffices | entangler/lattice.go:248-322 | if all parities of one strand survive, depth 3 obtains every data block from any state, depth 2 all but second-in-chain blocks |
| RecoveryTheorems.DepthTwoExact | entangler/lattice.go:248-322 | with only one strand left on a fresh lattice, depth 2 obtains a block if and only if it is not second on its chain |
| StrandLoss.LossIsSmallerStore | ipfs-connector/blockgetter.go:366-388 | a search during which the getter gives strands up is the search over one unchanging store that holds all that cannot be lost this way and nothing that was not there at first |
| StrandLoss.GivenUpIff | ipfs-connector/blockgetter.go:366-388 | a search gives an available strand up if and only if it asks for one of its parities under a lost node; a strand given up stays so, and none of its parities is obtained by download |
| StrandLoss.AsksFirst | entangler/lattice.go:282-300 | a search of a block neither held nor pending asks for it, and is refused it exactly if the block is missing or its strand has been given up |
| StrandLoss.RunRefuses | ipfs-connector/blockgetter.go:385-388 | the same for every later request of a run |
| GetterFeed.DownloadParity | entangler/lattice.go:223-235 | for the feed given by the parity trees and the network, the getter delivers a parity, with its bytes, exactly when the feed does, and its available strands afterwards are those the feed leaves |
| StrandLoss.LossSafeComplete | ipfs-connector/blockgetter.go:366-388 | such a search keeps every held block true, and obtains every block that has a derivation of that height from what cannot be lost |
| StrandLoss.LossJustified | ipfs-connector/blockgetter.go:366-388 | and it obtains nothing without a derivation from what there was at first |
| StrandLoss.LossyRun | ipfs-connector/blockgetter.go:366-388 | a whole run with strands given up on the way is a run of the same requests over such stores |
| StrandLoss.LossyRunSafe | ipfs-connector/blockgetter.go:366-388 | so every answer of such a run is true up to trailing zeros |
| Blocks.Block.StartRepair | entangler/block.go:90-114 | a free block becomes pending for the request; an available one or one pending for the same request is refused; exactly for one pending for another request the call has to wait, and the block is as it was |
| Blocks.Block.FinishRepair | entangler/block.go:117-132 | only a pending block changes, to available or back to no data |
| Blocks.Block.SetData | entangler/block.go:135-144 | data is stored once; an available block keeps its content and its repaired flag |
| Blocks.Block.Recover | entangler/block.go:147-164 | the block gets the XOR of two non-empty chunks and is marked repaired; empty input is an error and changes nothing |
| Blocks.Block.GetRecoverPairs | entangler/block.go:167-219 | the linked blocks of exactly the abstract pairs, in order, cached; which these are is stated by LatticeTriples.PairedIffMeeting |
| Blocks.NeighborsInverse | entangler/lattice.go:195-220 | left and right neighbour fields are inverse on every strand, with exactly one parity between consecutive data blocks |
| Lattices.Lattice.Init | entangler/lattice.go:52-59 | the constructed blocks are linked as the abstract lattice, all empty |
| Lattices.Lattice.InitLinks | entangler/lattice.go:195-220 | the nested loops set every neighbour field and every wrap mark of the abstract lattice and nothing else |
| Lattices.Lattice.GetChunkDepth | entangler/lattice.go:92-98 | answer, block states and request counter are those of the abstract request |
| Lattices.Lattice.GetChunk | entangler/lattice.go:101-107 | the same with the lattice's own depth |
| Lattices.Lattice.GetParity | entangler/lattice.go:109-115 | the same for a parity block |
| Lattices.Lattice.GetDataFromBlock | entangler/lattice.go:124-140 | depth 0 fails even for a block held; otherwise the search runs under a new request id |
| Lattices.Lattice.GetRequestID | entangler/lattice.go:238-245 | the old counter value; the counter wraps at 64 bits |
| Lattices.Lattice.SequentialRecoverHelper | entangler/lattice.go:282-322 | the states of all blocks after the call are those of the search function |
| Lattices.Lattice.SequentialRepair | entangler/lattice.go:248-279 | the states after trying the pairs, and success, are those of the function that tries pairs in order with one unit of depth less |
| Lattices.Lattice.DownloadBlock | entangler/lattice.go:223-235 | the block is available with the store's content if the store has it; otherwise nothing changes |
| TreeShape.SizeClosedForm | ipfs-connector/treenode.go:251-277 | level t of the bottom-up build has ceil(l / k^t) nodes |
| TreeShape.SingleIff | ipfs-connector/treenode.go:251-281 | a level is a single node if and only if k^t >= l |
| TreeShape.LevelShrinks | ipfs-connector/treenode.go:321-343 | grouping by at least two makes a level of at least two nodes smaller, so the parity tree's loop ends |
| TreeShape.PreContains | ipfs-connector/treenode.go:234-249 | the preorder from a node lists exactly the nodes at and below it |
| TreeShape.PreNoRepeat | ipfs-connector/treenode.go:234-249 | the preorder lists no node twice |
| TreeShape.PreLength | ipfs-connector/treenode.go:284-289 | the preorder has as many entries as all levels together, the number compared with N |
| TreeShape.FirstChildFollows | ipfs-connector/treenode.go:234-249 | the node numbered one more than an inner node is its first child |
| TreeLabels.PassPermutes | ipfs-connector/treenode.go:158-173 | after any number of swaps the labels are a permutation of 0..N-1 |
| TreeLabels.InnerMovesIff | ipfs-connector/treenode.go:158-173 | an inner node's label changes if and only if its first child is inner and that child's swap finds a leaf outside the window |
| TreeLabels.ParentOfLeavesStays | ipfs-connector/treenode.go:108-110 | a node whose children are leaves keeps its label, so it is not moved away from them |
| TreeLabels.SwapTargetLeast | ipfs-connector/treenode.go:160-173 | a swap is made with the least leaf at a preorder number window + m*s outside a window's distance of the node's children, or not at all |
| TreeLabels.ReachesRoot | ipfs-connector/treenode.go:218-232 | following the parent map from any label reaches the root's label in at most D-1 steps |
| TreeLabels.RootOnlyFixedPoint | ipfs-connector/treenode.go:298-299 | the root's label is the only fixed point of the parent map |
| TreeWalks.AssignPreOrderIndex | ipfs-connector/treenode.go:234-249 | the nodes under a node get consecutive numbers in preorder, all others keep theirs |
| TreeWalks.MapNodes | ipfs-connector/treenode.go:218-232 | every label under a node is mapped to its node and every child's label to its parent's |
| TreeBuild.MeetsIff | ipfs-connector/treenode.go:279-289 | the code's own tests succeed if and only if D-1 is the least t with k^t >= l, l >= 1, and N is the sum of the level sizes |
| TreeBuild.SwapUnflattenedTree | ipfs-connector/treenode.go:126-174 | the labels are exchanged exactly as the swap pass over the preorder says; nothing else changes |
| TreeBuild.ConstructTree | ipfs-connector/treenode.go:215-302 | succeeds exactly for arguments that describe a tree; then children, parents, numbers and labels are right, the node map has exactly the keys 0..N-1, and the parent map follows the parents |
| ParityTree.CreateParityTree | ipfs-connector/treenode.go:304-346 | terminates; the least tree over leaves 0..l-1 in order, with consistent parent pointers, indices level by level and exactly the leaves in the map; for a group size below 1 several leaves get one common parent |
| ParityTree.GroupParityLevel | ipfs-connector/treenode.go:324-342 | closing a group at the given number of nodes or at the end of the level gives the same level as cutting it every k nodes |
| Reslicing.CalculateNewBlocks | ipfs-connector/blockgetter.go:278-308 | the slices are non-empty, in order, inside their chunks, and together exactly the bytes of the block |
| BlockGetting.SizesOfLeaf | ipfs-connector/blockgetter.go:391-392 | the chunk size is 256 KiB, and the block size is that of a data leaf with one such chunk in its Protocol Buffers and UnixFS encoding |
| Reslicing.ReslicingRoundTrip | ipfs-connector/blockgetter.go:381-410 | cut the concatenated blocks into chunks and glue the slices computed for every index: every block comes back if and only if all blocks have the size the slices are computed with |
| Reslicing.FirstShortBlock | ipfs-connector/blockgetter.go:381-410 | for the first block that is shorter, the answer is its bytes followed by the next ones; it is right up to padding if and only if those are zero |
| ParityStorage.ParityLength | entangler/entangler.go:205-250 | a parity is as long as the longest block it covers: those of its chain up to its own, or the whole chain for a wrapped first parity |
| ParityStorage.FullParitiesIff | client/upload.go:238-249 | with two columns and no block above a size, all parities of a strand have that size if and only if each of its chains has a block of that size among its first two |
| ParityStorage.StoredStrandServed | client/upload.go:238-249 | under the same condition, and only then, the slices of every index of the merged strand give exactly the parity of that index |
| ParityStorage.TwoShortBlocks | client/upload.go:238-249 | with n = 2s and short first and last blocks two parities of the left-handed strand are short, and the condition fails |
| ParityStorage.ShortParityRead | ipfs-connector/blockgetter.go:381-410 | then the answer for block 1 is right, up to padding, if and only if the bytes following its parity are all zero |
| Regeneration.ReadBackHonest | ipfs-connector/blockgetter.go:381-410 | if the condition holds on all strands, a store of original chunks and parities read back from the merged strands is honest, so the repair theorems apply to it |
| Reslicing.ChunkInRange | client/repair.go:39-43 | the leaf count given to the parity tree is the number of chunks |
| Reslicing.TilesUnique | ipfs-connector/blockgetter.go:278-308 | no other list of slices does so |
| Reslicing.TilesTouch | ipfs-connector/blockgetter.go:278-308 | the slices use exactly the chunks that hold bytes of the block |
| LazyResolve.ResolveIffAlive | ipfs-connector/blockgetter.go:95-179 | whatever is cached, a node is obtained if and only if it and all nodes above it are in the network and not masked |
| LazyResolve.AnswersDoNotDependOnCache | ipfs-connector/blockgetter.go:95-179 | the same after every sequence of earlier requests on a newly opened tree |
| LazyResolve.FilledTrue | ipfs-connector/blockgetter.go:139-155 | storing a fetched object keeps: known identifiers are true, data is the node's own, and a node with data has given all its children their identifiers |
| BlockGetting.OpenTree | client/repair.go:31-31 | a built tree whose root gets its identifier is the state the getter's theorems start from |
| BlockGetting.IPFSGetter.GetData | ipfs-connector/blockgetter.go:95-179 | answer and cache are those of the abstract request, never another node's content; the loop runs at most twice and the recursion at most the tree's depth |
| BlockGetting.IPFSGetter.GetParityHelper | ipfs-connector/blockgetter.go:310-379 | the same along parent pointers; the strand is given up if and only if the node above could not be obtained |
| BlockGetting.IPFSGetter.GetParity | ipfs-connector/blockgetter.go:381-410 | the answer is the bytes at that multiple of the block size, and the parity block itself if all blocks of the strand have that size; it is given if and only if the strand is available, all leaves holding those bytes can be reached, and the bytes exist; the strand is given up if and only if the first leaf that cannot be reached lies under a node that cannot, and no other strand changes |
| FailedLeaves.RetrieveFailedLeaves | client/repair.go:193-286 | the list, the error, the lattice and what can be downloaded afterwards are those of the abstract walk over the nodes in preorder |
| FailedLeaves.VisitInner | client/repair.go:220-245 | an inner node is repaired with the lattice's depth; if it was rebuilt, the trimmed chunk must be uploaded and be what the node's identifier stands for; and the content must name all children |
| FailedLeaves.VisitLeaf | client/repair.go:207-218 | a leaf is asked for with depth 1 and listed if that fails |
| RepairWalk.VisitOkIff | client/repair.go:220-245 | in a true network an inner node that has been obtained passes if and only if it was downloaded or its chunk has non-zero ends |
| RepairWalk.InnersSeenTo | client/repair.go:220-245 | after a walk without error every visited inner node is held, its content names all children, and what was rebuilt was uploaded and is what its identifier stands for |
| FileReach.GainIff | ipfs-connector/blockgetter.go:95-179 | with a node's identifier exactly the nodes at or below it become downloadable that are reached through nodes of the network |
| FileReach.DownloadableIff | client/repair.go:247-253 | after a walk, with or without error, a data block can be downloaded if and only if it is that of a visited node in the network or is reached from one |
| FileReach.ReachesIffAlive | ipfs-connector/blockgetter.go:95-179 | from the root, being reached in the network is being fetchable with all nodes above |
| FileReach.StartStoreIsGetter | client/repair.go:176-182 | what the walk's store holds at the start is what a getter answers, whatever it was asked before |
| FileReach.InnerNodeObtained | client/repair.go:220-234 | an inner node of the first column, even with all its own parities lost, passes with depth two when on some strand the next block is reached from a visited node and that block's parity is in the network |
| RepairWalk.ListedOnce | client/repair.go:193-286 | only visited leaves are listed, none twice |
| RepairWalk.ListedIff | client/repair.go:193-286 | in a walk without error a leaf is listed if and only if it is not in the network and not held when it is visited |
| RepairWalk.ListedMissing | client/repair.go:193-286 | also in a walk that ends with an error every listed leaf is missing from the network and was not held at the start |
| RepairWalk.UnlistedIff | client/repair.go:193-286 | an unlisted leaf is held: with its content from the network, or rebuilt, and then it could not be downloaded at the start |
| RepairWalk.ExactWalk | client/repair.go:193-286 | if all inner nodes are in the network, or repair has depth two at most, and no missing leaf is held at the start, a walk without error lists exactly the missing leaves |
| MissedLeaves.OneLevelExactIff | client/repair.go:193-286 | the exact depth for a walk over a root and its leaves, over all losses, by visits |
| FileWalk.FileWalkExact | client/repair.go:193-286 | on the tree built for the file, from its root and with a new lattice: if no inner node is lost, or the depth is two at most, the walk ends with an error or lists exactly the missing leaves |
| FileWalk.MissingLeafUnlisted | client/repair.go:193-286 | on such a tree whose root's block lies in the first column before a leaf and whose inner nodes have non-zero ends: if just the root, its horizontal parity and that leaf are lost, the walk with depth four or more ends without error and lists nothing, and the job is stored as SUCCESS |
| FileWalk.OneLevelFileExactIff | client/repair.go:193-286 | on a tree of one level, for all losses: every walk without error lists exactly the missing leaves if and only if the depth is at most three or the root's chunk has a zero end |
| FileWalk.ListingVerdict | Server/repair.go:99-131 | the verdict stored is FAILURE if and only if the walk ended with an error, or leaves were listed and the peers could not be looked up; SUCCESS if and only if it listed nothing without error |
| FileWalk.SuccessIffNoneMissing | Server/repair.go:99-120 | if no inner node is lost, or the depth is two at most, and the walk ends without error, SUCCESS is stored if and only if no leaf is missing |
| LeafRepair.RepairFailedLeaves | client/repair.go:292-341 | the result has exactly the requested leaves as keys, all false without a lattice; otherwise true means obtained and, if rebuilt, the trimmed chunk uploaded; the uploads, in order, are those chunks |
| LeafRepair.RepairedIsCorrect | client/repair.go:292-341 | a leaf reported repaired is held with its original content, up to trailing zeros |
| LeafRepair.UploadRestoresIff | client/repair.go:306-314 | a leaf reported repaired is held and, if rebuilt, its trimmed chunk was uploaded; that chunk is the leaf's own if and only if it has non-zero ends |
| LeafRepair.DerivableReported | client/repair.go:304-315 | if all uploads succeed, every leaf with a derivation no higher than the depth is reported repaired |
| LeafRepair.StartUnitRepair | Server/repair.go:234-285 | one request is answered by one report, for the same file, about exactly the requested leaves |
| CollabRepair.SharesPartition | Server/repair.go:153-185 | the peers' slices concatenate to the list, none is empty, all but the last have floor(len / numPeers) leaves |
| CollabRepair.SharesDisjoint | Server/repair.go:153-185 | distinct leaves never go to two peers |
| CollabRepair.StartVerdict | Server/repair.go:69-131 | for a file that is not busy: FAILURE if and only if the listing failed, or there are leaves and the peer lookup failed; SUCCESS if and only if there are none; PENDING otherwise; other files are untouched |
| CollabRepair.StartRequests | Server/repair.go:135-226 | as many requests as the number wanted, the peers and the leaves allow, to different peers, for the new job, together with exactly the leaves and none without one |
| CollabRepair.AllocatedAlways | Server/repair.go:187-226 | also if a peer is listed twice: every peer asked is pending with exactly the leaves of its requests, none marked |
| CollabRepair.Server.StartCollabRepair | Server/repair.go:62-231 | the new job table and the requests sent are those of the start function; a busy file is left alone |
| CollabRepair.Server.ReportUnitRepair | Server/repair.go:337-441 | one report changes exactly its job: the peer's verdict, its repaired leaves, and the job's verdict once no peer is pending |
| CollabRepair.ReportMarks | Server/repair.go:337-410 | after any report a leaf is marked if and only if it was before or the report says so, the peer's verdict is that of the report, and nobody else's marks change; an unknown file or peer changes nothing |
| CollabRepair.FoldReport | Server/repair.go:376-385 | in whatever order the leaves come, the repaired ones are marked and success means all were repaired |
| CollabRepair.PeerVerdicts | Server/repair.go:396-401 | whether no peer is pending and whether all succeeded, in whatever order the peers come |
| CollabProtocol.AllocatedPeers | Server/repair.go:187-226 | after the send loop exactly the chosen peers are in the record, pending, each with its own share unrepaired |
| CollabProtocol.StepKeepsInv | Server/repair.go:62-441 | every step of coordinator, peers and lossy network keeps the protocol invariant |
| CollabProtocol.RunSafe | Server/repair.go:62-441 | in every run a job is pending if and only if some peer is, and a job stored as SUCCESS has every leaf it was started for repaired |
| CollabProtocol.NoStaleReport | Server/repair.go:337-363 | a delivered report always answers a request of the file's current job, from a peer still pending, about exactly its leaves |
| CollabProtocol.DeliverMarks | Server/repair.go:376-393 | after a report, whatever its verdict, the peer's marks are the report leaf by leaf; other peers and jobs are unchanged |
| CollabProtocol.DrainedDecided | Server/repair.go:396-410 | without loss, once no message is in flight every job whose pending peers all had a message in flight is decided, SUCCESS if and only if all peers succeeded |
| CollabProtocol.LossSticks | Server/repair.go:337-363 | losing any message, request or report, leaves its peer pending with nothing in flight for it |
| CollabProtocol.StuckForever | Server/repair.go:62-72 | after that, in every continuation, the job stays pending, waits for the same peer, and every start request for its file changes nothing |
| CollabProtocol.DecidableIff | Server/repair.go:337-441 | some continuation decides a job if and only if every peer it waits for still has its message in flight |
| CollabProtocol.RunFromEmpty | Server/repair.go:62-441 | the invariant, the condition for deciding a job and the verdict hold in every run from the empty system |
| RepairOutcome.SuccessFound | Server/repair.go:337-441 | in every run from the empty system each leaf of a job stored as SUCCESS was found repaired, in that run, by a peer working for that very job |
| RepairOutcome.MarkedIffFound | Server/repair.go:376-385 | in every run from the empty system a peer that has reported has a leaf marked if and only if it found the leaf repaired in that run for that job |
| RepairOutcome.SuccessRestoresIff | client/repair.go:292-341 | if peers report what their lattices over true stores give, each leaf of a job stored as SUCCESS is held by such a peer and uploaded if rebuilt; it is restored if and only if it was not rebuilt or has non-zero ends |
| RepairOutcome.SuccessUnrestored | client/repair.go:306-314 | for every leaf whose chunk starts or ends with a zero byte there is a run whose job for the leaf is stored as SUCCESS although another chunk was uploaded |

## Left out

- IPFS, HTTP, JSON, protobuf decoding, pinning, the cluster connector, discovery, command line and logging: the network is a map of what can be fetched; uploads and content that cannot be parsed are sets given as parameters.
- Locks and waiting in entangler/block.go, and the unused parallel repair path: the model is one thread, in which no call waits.
- s different from p, s = 1 and alpha = 1 beyond the findings above.
- GetAllData, GetRepairedParities and UpdateParity of the lattice are plain reads and writes of block fields and would only add easy members.
- Entangling.Entangler.Entangle: channels are sequences in the order of sending; blocking and closing are not modelled.
- BlockGetting.IPFSGetter.GetData: the counters, and a network that changes between two fetches of one call, are not modelled.
- BlockGetting.IPFSGetter.GetParityHelper: a parity object's data is its decoded content; an object that cannot be decoded counts as missing.
- BlockGetting.IPFSGetter.GetParity: the built parity tree is taken to have the shape of the stored one; if parities are so short that the merged strand has fewer chunks than NumBlocks parities of full size, the links do not match and the program's loop need not end.
- BlockGetting.IPFSGetter.ReadSlices: a slice beyond the end of a leaf is reported as out of bounds, where the program panics or, if the buffer behind the leaf happens to be larger, reads on.
- Lattices.Lattice.DownloadBlock: the class asks a store that is the same during one search; a getter that gives strands up in the middle of a search is covered on values, in `StrandLoss`.
- One class, `Trees.TreeNode`, stands for EmptyTreeNode and ParityTreeNode, which differ in the index fields only.
- FailedLeaves.RetrieveFailedLeaves: an identifier is represented by the content it stands for; what can be reached from a node (`World.below`) is handed to the method, and `FileReach.BelowRight` ties it to the tree and the network; that the children's identifiers are those named by the parent's content is part of it.
- GetFlattenedTree and swapFlattenedTree: their agreement with the labels of the download side, which holds only where swaps do not overlap.
- ParityTree.CreateParityTree: requires a leaf, and not groups of one node over several leaves, where the program fails or does not end.
- CollabRepair.Server.StartCollabRepair: the send loop's retries; every request is accepted on its first send, and the shuffled peer list is a parameter. A request that reaches the division of the leaves needs at least one peer, as the program divides by that number.
- CollabRepair.Server.ReportUnitRepair: the verdict posted to a job's origin, which carries the last reporter's result instead of the stored status.
- Strand repair scheduling, timers, monitoring, metrics, viewing and the simulation programs: bookkeeping or liveness without a hard property.
