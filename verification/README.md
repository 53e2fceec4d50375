# SynapseFS, verified

SynapseFS stores model checkpoints as commits of tensors.  A tensor is kept whole or as a delta against its parent commit: the rows (and, through other
tensors, the columns) of the base are permuted so that neurons line up, and only a compressed residual is stored.  This project models the parts of the
system where correctness is not obvious and proves what they promise:

* **Assignment** (`LsapSpec`, `Lsap`, `LsapSolve`, `Lap`, `Auction`, `SparseMatch`, `Forest`, `UnionFind`, `Finalize`): the shortest-augmenting-path solver
  is optimal; the auction keeps epsilon-complementary slackness and its leftovers can always be repaired to a bijection; permutation groups are exactly the
  classes of the unite calls.
* **Delta storage** (`Gather`, `Runs`, `Frames` and below, `Encoder`, `GroupEncoder`, `Adapt`, `Planner`, `PlanWrite`, `Downgrade`, `Reader`, `ReadBack`,
  `PlannedReads`, `Depth`, `History`, `StFiles`, `Repository`): whatever sequence of checkpoints is committed, every range of every tensor of every commit
  reads back byte for byte.
* **Mount** (`CacheModel`, `CacheProofs`, `CacheRuns`, `CacheHistory`, `FrameCache`, `Intervals`, `MountedFile`, `CachedReads`): the single-flight LRU cache
  under any interleaving, least recently used first out, and the mounted file against the streamed one in any run of it.
* **History and storage** (`Dag`, `Gc`, `Lifecycle`, `Collection`, `Tampering`, `Container`, `ObjectReads`, `LooseStore`): ancestry, merge bases, pruning that
  changes no read, the chunk-digested object container, and all of it together: every commit of a branch, checked out or mounted, before or after garbage
  collection, is the file that was committed, and over a damaged store a delta gives the committed bytes or an error.

`dafny verify dfyconfig.toml` checks everything.  Loops over buffers, maps and queues are methods proved against functions or predicates; lookups and
recursion are functions.  The reader's recursion takes a hop budget; `Depth` shows that the recorded chain depth is always enough and that a larger budget
changes nothing.  Compression, digests, addresses, the size of the JSON header and the parsers of file headers and topologies are parameters
(`Records.Prims`); the laws used are that decompression undoes compression and that addresses tell objects apart (`Tampering` and `LooseStore` also use that
digests and hashes do).  The iteration order of hash maps is a parameter too.

What the byte-exact history theorem asks of its inputs is in `Repository.Consistent` and `Repository.Compatible`: the topology validates against the
checkpoint and is the same at every commit (its listing order may differ), rows are bound once, the first column binding is axis 1, a moved column group
has an owner, groups with evidence are in the parent as a whole and unchanged in shape or not at all, the file was opened (`StSource` accepted its
layout, and a tensor of rank one or more has the bytes its shape and type call for), and its header and the topology stored beside it parse to its shapes
and to the topology planned with. Pins and leniency given on the command line are not stored in a commit, so they are covered where the stored topology
parses to the planned one.

Two things the code does not do as one would expect.  A commit that aligns with a parent fails on every checkpoint with a scalar tensor: the full pass
asks for one row, and `read_units` refuses a tensor without a first axis (`PlanWrite.StoreFulls`, `Repository.ScalarIsRefused`).  `finalize` lets a block factor
wrap (`Finalize.BlockCanWrap`).  Both are stated with their exact condition.

Where code and comments disagree the code is followed: `buffer[0].off` is the header length, not 0; `merge_base` is nearest by hops, not lowest; a
zero-length `chunks_covering` names chunk 0 although a read of nothing verifies no chunk.

## Model

| member | source | states |
|---|---|---|
| `LsapSolve.Solve` | modules/align/src/rectangular_lsap.cpp:129-240 | the result code is Invalid iff the matrix holds a NaN or the infinity that would be best; Solved means the returned pairs saturate the smaller side at the least total cost, or the greatest when maximising, among all finite saturating assignments, rows ascending; Infeasible means every saturating assignment uses an infinite cost; wide, tall, empty and negative matrices included |
| `LsapSolve.MaximizeMeaning` | modules/align/src/rectangular_lsap.cpp:159-164 | minimising the negated matrix maximises the original one over all finite saturating assignments |
| `LsapSolve.Transpose` | modules/align/src/rectangular_lsap.cpp:146-153 | the copy loop leaves the transposed matrix |
| `LsapSolve.SwapOptimal` | modules/align/src/rectangular_lsap.cpp:224-231 | an optimum of the transposed problem, with pairs swapped, is an optimum of the original |
| `LsapSolve.ArgSort` | modules/align/src/rectangular_lsap.cpp:50-57 | the result lists every index once, in ascending order of the values |
| `LsapSpec.WeakDuality` | modules/align/src/rectangular_lsap.cpp:198-210 | feasible duals bound the cost of every finite saturating assignment from below, with equality when it is tight and free columns have price 0 |
| `LsapSpec.MatchedIsOptimal` | modules/align/src/rectangular_lsap.cpp:187-222 | a complete matching that is tight under feasible duals is a minimum-cost saturating assignment |
| `LsapSpec.BlockedIsInfeasible` | modules/align/src/rectangular_lsap.cpp:112-115 | when the search is stuck at infinity, no saturating assignment is finite (a Hall violator) |
| `Lsap.LabelIsAttained` | modules/align/src/rectangular_lsap.cpp:92-113 | the label of every settled column is the length of an alternating walk to it |
| `Lsap.SettledIsShortest` | modules/align/src/rectangular_lsap.cpp:84-127 | when the search ends, the label of every settled column, the sink included, is the minimum length over all alternating walks to it, columns settled in ascending distance, and no walk to another column is shorter than the final distance |
| `Lsap.AugmentingPath` | modules/align/src/rectangular_lsap.cpp:59-127 | returns either a free sink with the complete search invariant (distances, tree links, settle order) or -1 with a certificate of infeasibility |
| `Lsap.DualStep` | modules/align/src/rectangular_lsap.cpp:198-210 | the dual update keeps reduced costs non-negative on processed rows, zero on matched pairs, v at most 0, and v = 0 on free columns |
| `Lsap.UpdateDuals` | modules/align/src/rectangular_lsap.cpp:198-210 | the two loops compute exactly the new duals |
| `Lsap.Augment` | modules/align/src/rectangular_lsap.cpp:212-222 | the walk from the sink ends at the current row (settle positions strictly fall) and leaves row4col and col4row mutually inverse with exactly one more row matched |
| `Lsap.MatchRow` | modules/align/src/rectangular_lsap.cpp:188-222 | one turn of the row loop extends matching and duals by one row, or proves infeasibility |
| `Lsap.AssignRows` | modules/align/src/rectangular_lsap.cpp:176-222 | after the row loop all rows are matched under feasible, tight duals, or no finite saturating assignment exists |
| `Lap.SolveJv` | modules/align/src/lap.cpp:14-43 | errors exactly on a wrong size, a NaN or -inf, or an infeasible matrix; otherwise the assignment is a bijection of minimum total cost and costRaw is that cost |
| `Auction.TopTwo` | modules/align/src/auction.cpp:44-57 | best net benefit of one bidder with a candidate that attains it, and the best elsewhere or of the null object, attained too |
| `Auction.KeyOrder` | modules/align/src/auction.cpp:78-81 | composite keys order bids by price, then by lowest bidder index, and decode to the price |
| `Auction.ScatterMax` | modules/align/src/auction.cpp:82-83 | per object, the highest key offered for it this round |
| `Auction.WinnerIsUnique` | modules/align/src/auction.cpp:84-86 | no two bidders win the same object in one round |
| `Auction.SomeoneWins` | modules/align/src/auction.cpp:84-86 | every object bid on in a round is won |
| `Auction.WinsByKey` | modules/align/src/auction.cpp:78-86 | the winners are exactly the highest bids on their object, the lowest bidder among equals |
| `Auction.CollectBids` | modules/align/src/auction.cpp:37-67 | drops exactly the unassigned bidders whose every candidate is worth less than null, every other one bids, and each bid raises its object by at least eps while keeping epsilon-complementary slackness |
| `Auction.Award` | modules/align/src/auction.cpp:75-101 | afterwards the highest bidder on each contested object, the lowest index among equals, holds it at its bid, objects without a bid keep owner and price, assign and owner stay mutually inverse, and the price total rises by at least eps |
| `Auction.Round` | modules/align/src/auction.cpp:36-104 | keeps the phase invariant (inverse maps, each assigned bidder within eps of its best candidate and of its null), lowers no price, and raises the price total by at least eps unless nobody is left unassigned |
| `Auction.Phase` | modules/align/src/auction.cpp:30-104 | a phase not cut by the guard leaves nobody unassigned except those that prefer null; with non-negative costs the number of rounds is bounded by the price rise that is possible |
| `Auction.RunAuction` | modules/align/src/auction.cpp:8-109 | whenever epsilon reaches 1 (eps_shrink above 1 or negative, or no cost above 7) it ends; its phases start at a quarter of the largest cost, each next epsilon is the last one divided by eps_shrink, each keeps the prices of the one before and leaves a book within its epsilon, cut only by the guard; no object is given away twice; the final book satisfies the invariant at eps = 1; with non-negative costs of at most c and a guard above n * (null cost + max(c / 4, 1)) no phase is cut and every bidder without an object prefers null to all its candidates |
| `SparseMatch.LeftoversBalance` | modules/align/src/sparse_match.cpp:162-182 | in any partial matching the unassigned bidders and unclaimed objects are equal in number, so the unbalanced error cannot occur |
| `SparseMatch.RepairCompletes` | modules/align/src/sparse_match.cpp:212-215 | filling the free bidders with a bijection onto the free objects gives a bijection on [0, n) |
| `SparseMatch.SparseNullRepair` | modules/align/src/sparse_match.cpp:148-217 | never fails, changes no pair the auction made, completes the assignment to a bijection; the reported cost is what the patched bidders pay, and no bijection that keeps those pairs is cheaper |
| `SparseMatch.CheapestCompletion` | modules/align/src/sparse_match.cpp:184-216 | the optimum of the leftover block is the least cost over all completions of the partial matching |
| `SparseMatch.AuctionGivesMatching` | modules/align/src/auction.cpp:78-101 | whatever the auction returns, guard cuts included, is a partial matching |
| `SparseMatch.MatchGroupSparse` | modules/align/src/sparse_match.cpp:244-278 | whenever the auction ends it succeeds: the attempt that settles is the first whose share of unassigned bidders is within the widening rate, or the last; each attempt leaves a book within 1 of complementary slackness for its costs; the result keeps what the settling book assigned, is a permutation, and no other completion costs the free bidders less |
| `Forest.Halve` | modules/align/src/graph.cpp:25-28 | one path-halving step moves no root and keeps ranks rising towards the root |
| `Forest.LinkRoots` | modules/align/src/graph.cpp:37-40 | hanging one root under the other merges those two classes and leaves all others |
| `UnionFind.AxisUnionFind.Add` | modules/align/src/graph.cpp:14-20 | a known axis keeps its handle; a new one becomes a class of its own |
| `UnionFind.AxisUnionFind.Find` | modules/align/src/graph.cpp:22-30 | terminates, returns the root of the class, changes nothing but parents, moves no root |
| `UnionFind.AxisUnionFind.Unite` | modules/align/src/graph.cpp:32-42 | changes no key or length and keeps the invariant that two axes share a root iff a chain of unite calls links them, and that a class is marked iff one of its axes was pinned |
| `UnionFind.AxisUnionFind.PinAxis` | modules/align/src/graph.cpp:44-46 | marks the class of the axis, keeping the invariant |
| `UnionFind.MergedPartition` | modules/align/src/graph.cpp:32-42 | adding one edge to the unite calls merges exactly the two classes it joins, both directions |
| `Finalize.FinalizeGroups` | modules/align/src/graph.cpp:48-89 | moves no root, and succeeds iff every axis length is a multiple of its class size (the shortest member, cut to 32 bits); same group iff linked, pinned iff some linked axis was pinned, block = quotient cut to 32 bits; size times block is the length exactly for the axes whose quotient by the shortest linked length is below 2^32 |
| `Finalize.MinLenIs` | modules/align/src/graph.cpp:60-67 | the class size is attained by a member and undercut by none |
| `Finalize.BlockIsExact` | modules/align/src/graph.cpp:83-84 | length = size * block iff the length divided by the shortest length of the class, cut to 32 bits, is below 2^32 |
| `Finalize.BlockCanWrap` | modules/align/src/graph.cpp:83-84 | two linked axes of lengths 1 and 2^32: accepted, and every grouping returned for them has block factor 0, so length != size * block |
| `Finalize.WrappedBlock` | modules/align/src/graph.cpp:48-89 | add, add, unite and finalize reach that grouping |
| `Permutations.IsValidPermutation` | modules/core/src/topology.cpp:54-62 | accepts exactly the bijections on [0, n) |
| `Permutations.InvertPermutation` | modules/core/src/topology.cpp:64-68 | the result undoes the permutation on both sides |
| `Permutations.ExpandPermutation` | modules/core/src/topology.cpp:45-52 | the nested loop builds the block expansion |
| `Permutations.ExpandIsPermutation` | modules/core/src/topology.cpp:45-52 | the expansion of a bijection is a bijection |
| `Transforms.PlanesRoundTrip` | modules/codec/src/compress.cpp:62-94 | join undoes split for every length, ragged tails included, and every element width |
| `Transforms.BytePlaneSplit` | modules/codec/src/compress.cpp:62-77 | the loops compute the plane split |
| `Transforms.BytePlaneJoin` | modules/codec/src/compress.cpp:79-94 | the loops compute the plane join |
| `BitPlanes.BitsRoundTrip` | modules/codec/src/compress.cpp:96-166 | unshuffle undoes shuffle for every length and element width |
| `BitPlanes.BitShuffle` | modules/codec/src/compress.cpp:96-131 | the bit loops compute the shuffle |
| `BitPlanes.BitUnshuffle` | modules/codec/src/compress.cpp:133-166 | zero, then or bit by bit, computes the unshuffle |
| `Residual.ZigzagRoundTrip` | modules/codec/src/diff_encoder.cpp:29-53 | applying a zigzag residual to its base gives back the target, modulo 2^w, for widths 1, 2, 4 and 8 |
| `Residual.XorRoundTrip` | modules/codec/src/kernels/residual_scalar.cpp:13-24 | xor of base and residual gives back the target |
| `Kernels.XorScalar` | modules/codec/src/kernels/residual_scalar.cpp:13-26 | the byte loop computes the xor |
| `Kernels.ZigzagDispatch` | modules/codec/src/kernels/residual_scalar.cpp:41-75 | the dispatched kernel computes the frame function for every width and length |
| `Kernels.ZigzagBlocked16` | modules/codec/src/kernels/residual_avx2.cpp:52-71 | sixteen lanes a step plus scalar tail equals the scalar kernel for every length |
| `Kernels.XorBlocked` | modules/codec/src/kernels/residual_avx2.cpp:21-36 | 32 bytes a step plus tail equals the byte-wise xor for every length |
| `Kernels.LaneIsScalar` | modules/codec/src/kernels/residual_avx2.cpp:52-71 | the lane formula with its negated low bit decodes as the scalar formula does |
| `Frames.FrameRoundTrip` | modules/codec/src/residual_codec.cpp:15-64 | decoding a frame against the base it was encoded against gives the target, for all residual kinds and transforms |
| `Frames.ApplyResidualInto` | modules/codec/src/residual_codec.cpp:15-64 | through the kernels: the applied bytes, or exactly the reported size errors |
| `Frames.ZigzagEncodeInto` | modules/codec/src/diff_encoder.cpp:29-53 | the element loop computes the zigzag residual and leaves a partial element alone |
| `Gather.PermuteInto` | modules/codec/src/permute.cpp:10-18 | dst becomes the units perm[0], perm[1], ... of src |
| `Gather.PermutedRow` | modules/codec/src/permute.cpp:10-18 | unit i of the result is unit perm[i] of the source |
| `Runs.CollapseRuns` | modules/core/src/tensor.cpp:25-42 | the one-pass loop computes the run list |
| `Runs.RunsSpell` | modules/core/src/tensor.cpp:25-42 | the runs spell out the index list in order and none is empty |
| `Runs.RunsApart` | modules/core/src/tensor.cpp:25-42 | no two neighbouring runs could have been one |
| `Runs.RunsReadOnce` | modules/codec/src/permute.cpp:20-32 | the dependency runs read exactly the units the slice names, once each when it repeats none |
| `Runs.GatherIsDirect` | modules/codec/src/reconstruct.cpp:36-82 | sorted coalesced runs plus a scratch map gather out[i] = base[perm[i]]; the missing-unit error cannot occur |
| `Runs.GatherLoop` | modules/codec/src/diff_encoder.cpp:61-87 | the run, index and copy loops compute that gather, errors included |
| `Gather.RowsAndColumnsCommute` | modules/codec/src/reconstruct.cpp:236-254 | row gather then column permutation equals column permutation then row gather, for any trailing block |
| `Gather.PermuteColumnsInPlace` | modules/store/src/commit_planner.cpp:67-73 | the in-place row loop permutes the columns of every row |
| `ColumnSources.ThisTensor` | modules/store/src/commit_planner.cpp:50-75 | the adapter yields the tensor with every row permuted, for every range of rows |
| `ColumnSources.OtherTensors` | modules/store/src/commit_planner.cpp:50-53 | tensors of another name pass through unchanged |
| `StoredPerm.PermutationRoundTrip` | modules/format/src/residual_hdr.cpp:285-315 | a permutation written at any payload offset reads back and passes the bijection check, whatever follows it |
| `StoredPerm.WritePermutation` | modules/codec/src/diff_encoder.cpp:91-123 | no bytes and kind identity iff it is the identity; otherwise two bytes an entry up to 65536 entries, four beyond |
| `StoredPerm.ReadPermutationLoop` | modules/format/src/residual_hdr.cpp:285-315 | the loop reads the entries and rejects every list that is not a bijection |
| `GroupEncoder.TilingCheck` | modules/format/src/residual_hdr.cpp:136-150 | with no frame running backwards, the check accepts exactly the tilings of [0, size) |
| `Encoder.EncodeFrames` | modules/codec/src/diff_encoder.cpp:197-265 | the frame loop ends with frames that tile the axis, each of which decodes to its own slice of the target; each holds at most frame_bytes unless it is a single unit, and none but the last could take one more unit |
| `Encoder.WrittenStep` | modules/codec/src/diff_encoder.cpp:197-265 | appending a frame keeps every earlier frame decodable |
| `GroupEncoder.EncodeTensor` | modules/codec/src/diff_encoder.cpp:166-269 | one tensor: unit size, axis check, frames, tiling check; the entry records shape, type, residual and transform as asked, and its frames have the size asked for |
| `GroupEncoder.EncodeGroup` | modules/codec/src/diff_encoder.cpp:125-286 | given sources that hold base and target, it succeeds, the permutation reads back, and every member tensor decodes; the artifact names the group and lists exactly its members in order, each cut as the options ask; the full size is that of the members together |
| `Reader.GatherBaseBytes` | modules/codec/src/reconstruct.cpp:36-82 | identity read or gather through runs, errors included |
| `Reader.ReadTensorRange` | modules/codec/src/reconstruct.cpp:181-286 | the checks and the frame loop compute the reader function, errors included |
| `Reader.ReconstructFrame` | modules/codec/src/reconstruct.cpp:224-283 | gather, column permutation, decompression, residual and digest check of one frame |
| `Reader.PlanSize` | modules/codec/src/reconstruct.cpp:181-205 | when the checks pass, the axis is where the last frame ends and units of it share the bytes of the tensor out evenly |
| `ReadBack.ReadTensorIs` | modules/codec/src/reconstruct.cpp:181-286 | a tensor encoded against a base reads, over that base, as exactly the target slice for every offset and length, past the end included |
| `ReadBack.DeltaServes` | modules/codec/src/reconstruct.cpp:304-338 | one hop: if the base group reads back, so does the delta |
| `ReadBack.FullServes` | modules/codec/src/reconstruct.cpp:340-359 | a full group reads back as its block |
| `Locality.ReadAgree` | modules/codec/src/reconstruct.cpp:107-359 | two stores that agree on a closed set of objects give the same reads, values and errors alike |
| `Depth.ChainLength` | modules/store/src/verify.cpp:157-181 | under the depth check the recorded depth is the exact number of hops: each is one shallower and the last entry is full |
| `Depth.DepthSuffices` | modules/codec/src/reconstruct.cpp:304-359 | a read has the same answer for every hop budget of at least the recorded depth |
| `Depth.PolicyBoundsRuns` | modules/codec/src/snapshot_policy.cpp:16-35 | over any run of snapshots of a group, each on the one before: no chain exceeds the depth bound, any stretch of more snapshots than the bound holds a full one, and all of them cost at most max(alpha, 1) times storing each in full |
| `Downgrade.DowngradeAll` | modules/store/src/commit_planner.cpp:289-316 | terminates with the greatest subset of the initial deltas closed under dependencies on candidates |
| `Downgrade.GreatestIsUnique` | modules/store/src/commit_planner.cpp:297-316 | there is one such subset, whatever order the hash map yields the candidates in |
| `Planner.DowngradeRecovers` | modules/store/src/commit_planner.cpp:172-184 | after the downgrade, a delta whose columns moved with another group finds that group stored as a delta too |
| `Adapt.AdaptBase` | modules/store/src/commit_planner.cpp:224-247 | the chain of adapters yields every member with its columns in target order |
| `Planner.PlanGroup` | modules/store/src/commit_planner.cpp:213-286 | phase A: the policy is asked with the depth of the deepest parent of a member, zero if there is none, the size of the artifact and the size of its members; the artifact lists exactly the members, as the options ask; the dependencies are the groups that move their columns; with a base the artifact encodes every member |
| `PlanWrite.PlanCommitGroups` | modules/store/src/commit_planner.cpp:201-366 | succeeds when every group with evidence has its base and no tensor is a scalar; fails when a tensor is a scalar or a member of a group with evidence cannot be read from the base; the groups tried are exactly those that are unpinned, alignable and own rows, identity or not; each tensor gets a raw block or a delta entry that decodes; the deltas are the greatest closed set of what the policy accepts; the store only grows |
| `PlanWrite.StoredAsDelta` | modules/store/src/commit_planner.cpp:201-366 | a group worth trying becomes a delta exactly when a member has a parent, no parent is at the depth limit, the artifact is at most alpha times the members, and every group that moves its columns becomes one too; then each member is stored one hop above its parent, and otherwise in full |
| `PlanSpec.EligibleIs` | modules/store/src/commit_planner.cpp:129-136 | the groups not skipped are exactly those that are unpinned, reported, alignable and own the rows of a tensor: whether the permutation is the identity plays no part |
| `PlanSpec.Dependencies` | modules/store/src/commit_planner.cpp:172-184 | exactly the groups with a permutation that moves something to which a member has columns bound |
| `PlanWrite.StoreFulls` | modules/store/src/commit_planner.cpp:341-363 | stores every tensor without a delta as its raw bytes, and fails iff one of them is a scalar |
| `PlannedReads.SecondaryResolved` | modules/codec/src/reconstruct.cpp:107-171 | the reader finds, in whatever tensor it picks as owner, a column permutation that moves the base exactly as the writer did; an owner stored full means nothing moved |
| `PlannedReads.EntryServes` | modules/codec/src/reconstruct.cpp:304-338 | every planned delta entry decodes its tensor from the parent version |
| `Planned.WrittenEncodes` | modules/codec/src/reconstruct.cpp:181-286 | an artifact entry written for a tensor is one the reader decodes, identity permutations included |
| `History.CommitSupplies` | apps/sfs/commit_tensor_source.hpp:56-85 | the parent commit, read through its own delta chains, is a faithful tensor source |
| `History.NewRepresents` | apps/sfs/cmd/commit.cpp:212-366 | a commit built from planned entries holds exactly the committed checkpoint |
| `History.RepresentsGrows` | modules/store/src/loose.cpp:27-45 | writing more objects changes no commit that could be read |
| `StFiles.ValidateLayout` | modules/format/src/st_header.cpp:110-127 | accepts exactly the layouts that run from the header to the end of the file without gap, overlap or empty entry |
| `StFiles.OpenedIsWellLaid` | apps/sfs/cmd/commit.cpp:195-207 | the manifest of an opened file validates iff the file holds a tensor, and names no group twice |
| `Repository.StoreRaw` | apps/sfs/cmd/commit.cpp:300-332 | without alignment every entry of the file, scalars included, becomes a raw block of its bytes, and nothing can fail |
| `Repository.Repo.CommitFile` | apps/sfs/cmd/commit.cpp:98-365 | keeps the branch invariant over every sequence of commits; on success the branch grows by one commit holding the file, whose object names the commit before it, a topology object holding the topology given, and the time given; aligned on a tip its entries are those the snapshot policy chooses over that tip, otherwise all are full; on failure the branch is unchanged; with residuals against the base it succeeds iff the file holds a tensor and, when it aligns with a parent, no scalar and no group with evidence that the parent lacks |
| `Repository.ScalarIsRefused` | apps/sfs/cmd/commit.cpp:209-296 | a file of one scalar is taken by a first commit and refused when committed again with alignment |
| `Repository.EveryReadIsExact` | modules/codec/src/reconstruct.cpp:340-366 | for every linear history of planned commits, every commit, tensor, offset and length: the read, with the topology loaded from the commit itself, is exactly that slice of the bytes committed there |
| `StFiles.TopologyLoads` | apps/sfs/header_only_source.hpp:74-89 | the topology object a commit names, parsed against its header block, is the topology of the branch, and the header gives the shapes of the file |
| `Repository.DepthsAreBounded` | modules/store/src/verify.cpp:157-181 | planned commits pass the depth check and no depth exceeds the configured bound |
| `Manifests.Validate` | modules/format/src/manifest.cpp:11-46 | accepts exactly the manifests whose entries are non-empty, contiguous, end at total_bytes and name known groups |
| `CacheRuns.RunKeeps` | modules/mount/src/blockcache.cpp:206-360 | the cache invariant holds after every step of every interleaving from the empty cache |
| `CacheRuns.StepKeeps` | modules/mount/src/blockcache.cpp:206-360 | each atomic section, by any thread, keeps it |
| `CacheRuns.RefcountIsUsers` | modules/mount/src/blockcache.cpp:183-204 | an entry's refcount is its live leases plus its pinned waiters |
| `CacheRuns.LeaseIsSound` | modules/mount/src/blockcache.cpp:112-119 | a leased entry is ready, in the map under its key, and shows what its one fill wrote |
| `CacheRuns.LeaseIsStable` | modules/mount/src/blockcache.cpp:112-119 | no step of any thread changes what a held lease shows |
| `CacheRuns.WaiterIsKept` | modules/mount/src/blockcache.cpp:229-263 | a pinned waiter's entry stays in the map |
| `CacheRuns.SingleFlight` | modules/mount/src/blockcache.cpp:280-296 | at most one fill per key is in progress |
| `CacheRuns.FailedIsGone` | modules/mount/src/blockcache.cpp:298-325 | a failed placeholder is gone once its filler has cleaned up and its last waiter has released |
| `CacheRuns.Accounting` | modules/mount/src/blockcache.cpp:137-145 | resident bytes are those of the ready entries; the LRU list holds each key of the map once |
| `CacheRuns.PublishMakesRoom` | modules/mount/src/blockcache.cpp:344-353 | after the eviction pass the total is within budget, or every remaining entry is pinned or filling |
| `CacheProofs.EvictKeeps` | modules/mount/src/blockcache.cpp:153-175 | the eviction pass removes only unpinned ready entries and leaves the rest as they were |
| `CacheRuns.HonestRun` | modules/mount/src/blockcache.cpp:206-360 | if every published fill is true of its key, so is what every lease shows, in every state of every run, whatever was evicted and filled again |
| `CacheRuns.JustRun` | modules/mount/src/blockcache.cpp:296-325 | if fills report failure only where they cannot succeed, no entry of any other key is ever marked failed |
| `CacheHistory.RunByRecency` | modules/mount/src/blockcache.cpp:142-145 | in every state of every run the list is in descending order of last use, where a frame is used when it is put in, found ready or woken to |
| `CacheHistory.OldestGoFirst` | modules/mount/src/blockcache.cpp:153-175 | in any run each frame a publication evicts is, when it goes, the free frame with the oldest last use; it goes only while the total is over budget; the pass ends within budget or with nothing free |
| `CacheHistory.RunShowsLastWrite` | modules/mount/src/blockcache.cpp:280-296 | in every state of every run an entry holds what its fill last wrote, or zeros of the size asked for |
| `FrameCache.Cache.Lookup` | modules/mount/src/blockcache.cpp:206-296 | the first section of get_or_fill makes exactly the hit, failed, wait or miss step; a hit or a miss puts the frame first in the list; a miss puts in an empty frame of the size asked for |
| `FrameCache.Cache.WriteFrame` | modules/mount/src/blockcache.cpp:294-296 | what the callback writes is what the entry holds |
| `FrameCache.Cache.EvictIfNeeded` | modules/mount/src/blockcache.cpp:153-175 | the tail scan with restarts computes the eviction pass, of which `CacheHistory` says what it takes |
| `FrameCache.Cache.PublishFrame` | modules/mount/src/blockcache.cpp:344-353 | pins, publishes and makes room in one step |
| `FrameCache.Cache.RemoveFailed` | modules/mount/src/blockcache.cpp:314-323 | the failed filler's clean-up step |
| `FrameCache.Cache.MarkFailed` | modules/mount/src/blockcache.cpp:301-307 | the failure report step |
| `FrameCache.Cache.WakeUp` | modules/mount/src/blockcache.cpp:268-277 | a waiter's pin becomes a lease, and its frame comes first in the list |
| `FrameCache.Cache.Drop` | modules/mount/src/blockcache.cpp:189-204 | the release step, taking away a failed placeholder with its last pin |
| `FrameCache.Cache.LeaseView` | modules/mount/src/blockcache.cpp:112-115 | a lease shows the bytes its entry was filled with |
| `Intervals.Build` | modules/mount/src/inode.cpp:32-109 | succeeds iff the manifest validates; the table covers [0, total) without gap or overlap, in order, with each group numbered once |
| `Intervals.Find` | modules/mount/src/inode.cpp:111-127 | the one interval holding the offset; none exactly past the end |
| `Intervals.OffsetsAreZero` | modules/mount/src/inode.cpp:84-103 | every entry starts its group at 0 iff no group occurs twice |
| `MountedFile.ReconstructFile` | modules/codec/src/reconstruct.cpp:368-400 | the header and chunk loops give exactly the stream function, errors included |
| `MountedFile.StreamEntry` | modules/codec/src/reconstruct.cpp:383-397 | one entry is read in pieces of the chunk size, the last one shorter, that add up to it |
| `MountedFile.StreamIs` | modules/codec/src/reconstruct.cpp:368-400 | with readable groups that stream is the header and then each entry from the start of its group |
| `MountedFile.Read` | modules/mount/src/fs.cpp:104-182 | with distinct groups and a matching header length, a successful read is exactly the slice of that stream, tail frames and header boundary included, and it fails only if the cache refuses a frame that holds a byte of that slice |
| `MountedFile.RepeatedGroupDiffers` | modules/mount/src/inode.cpp:84-103 | a manifest with one group twice whose second byte the mount serves as 2 and the stream as 1 |
| `CachedReads.RunIsTruthful` | modules/mount/src/blockcache.cpp:206-360 | in any run of the cache whose published fills hold what their callback read, whatever a live lease shows is the frame of its key |
| `CachedReads.RunRefusesNothing` | modules/mount/src/fs.cpp:104-182 | over a readable file no call for a frame that a read needs is ever answered with an error |
| `CachedReads.ReadThroughCache` | modules/mount/src/fs.cpp:104-182 | over any such run every mounted read succeeds with the slice of the stream, whatever was shared, evicted and filled again |
| `Dag.IsAncestor` | modules/store/src/dag.cpp:44-60 | true iff a parent path exists; fails only on an unreadable ancestor |
| `Dag.MergeBase` | modules/store/src/dag.cpp:62-92 | none iff the histories are disjoint, otherwise a common ancestor of least hop distance from the second argument |
| `Gc.WalkCommits` | modules/store/src/dag.cpp:10-42 | visits every reachable commit exactly once, each when it is a tip or the parent of one visited, and no commit then waiting carries a later time |
| `Gc.ReachableObjects` | modules/store/src/dag.cpp:94-119 | exactly the commit, manifest, topology, header, raw and diff objects of the reachable commits |
| `Gc.CheckAncestorInvariant` | modules/store/src/verify.cpp:9-24 | passes iff every delta base is an ancestor, on a readable history |
| `Gc.Prune` | modules/store/src/gc.cpp:104-158 | keeps exactly the objects that reachable commits name and deletes the rest; nothing happens without tips or on failure, and it fails only when a reachable commit or manifest cannot be read |
| `Gc.PruneKeepsReads` | modules/store/src/gc.cpp:134-156 | given the ancestor invariant, pruning changes no manifest, header or ranged read of any reachable commit, through all hops and column lookups |
| `Gc.PruneKeepsStream` | modules/store/src/gc.cpp:134-156 | nor what reconstructing its file gives, bytes or error |
| `Lifecycle.BranchMeetsInvariant` | modules/store/src/verify.cpp:9-24 | planned branches satisfy the ancestor invariant |
| `Lifecycle.PruneKeepsHistory` | modules/store/src/gc.cpp:104-158 | after a prune from the tip every range of every tensor of every commit, read with the topology loaded from the commit, still reads back as committed |
| `Lifecycle.CheckoutIsExact` | modules/codec/src/reconstruct.cpp:368-400 | for every commit of every planned branch, reconstructing its file with the topology loaded from the commit gives the committed file byte for byte |
| `Lifecycle.CheckoutSurvivesPrune` | modules/store/src/gc.cpp:104-158 | and still does after a prune from the tip |
| `Lifecycle.MountCommit` | modules/mount/src/fs.cpp:77-95 | a commit can be mounted iff its manifest can be read and validates; the mount has the topology loaded from the commit |
| `Lifecycle.BranchMounts` | modules/mount/src/fs.cpp:77-95 | every commit of a planned branch can |
| `Lifecycle.MountIsSound` | modules/mount/src/fs.cpp:77-95 | a mounted commit of the branch meets everything a mounted read needs, and its file is the committed one |
| `Lifecycle.ReadMounted` | modules/mount/src/fs.cpp:104-182 | every read of every mounted commit, in any run of the cache, succeeds with that slice of the committed file |
| `Tampering.TensorReadsAgree` | modules/codec/src/reconstruct.cpp:181-286 | two successful reads of one tensor description agree, whatever artifact bytes, base, manifest and topology each is made over: every frame is checked against its digest |
| `Tampering.NoWrongBytes` | modules/codec/src/reconstruct.cpp:304-366 | however a store has been damaged, a read of a delta tensor of a commit that can still be loaded gives the committed slice or an error, and so does one of a full tensor unless its own raw block was changed |
| `Tampering.NoWrongCheckout` | modules/codec/src/reconstruct.cpp:368-400 | so does checkout, as long as no raw block the manifest names was changed |
| `Collection.PruneKeepsBranch` | modules/store/src/gc.cpp:104-158 | the whole branch invariant, tensors and files alike, holds of the pruned store |
| `Collection.CollectGarbage` | modules/store/src/gc.cpp:104-158 | collecting garbage on a valid repository always succeeds, keeps exactly the reachable objects, and leaves a valid repository with the same commits, so committing goes on |
| `Container.HeaderRoundTrip` | modules/format/src/object.cpp:10-37 | a header decodes from the front of any file it starts, fields in range |
| `Container.HeaderAccepted` | modules/format/src/object.cpp:23-37 | a header is accepted iff it has 40 bytes and the magic, and encoding what was decoded gives its fields again |
| `Container.HeaderLayout` | modules/format/src/object.cpp:10-21 | where each field lies, little-endian, with reserved bytes zero |
| `Container.OpenedHasKind` | modules/store/src/loose.cpp:88-97 | a ranged read goes on only with an object of the kind asked for, stored uncompressed |
| `Endian.LoadDigit` | modules/core/include/synapsefs/core/endian.hpp:32-43 | the byte at position i of a number counts 256 to the power i |
| `Container.ComputeDigests` | modules/format/src/object.cpp:39-53 | one digest per chunk in order |
| `Container.DigestAt` | modules/format/src/object.cpp:39-53 | entry i of the table is the digest of chunk i |
| `Container.Directory.Store` | modules/store/src/loose.cpp:27-45 | one-shot put: address of kind, length and payload; an existing file stays |
| `Container.StreamingWriter.Write` | modules/store/src/block_store.cpp:104-129 | any piece of data extends the file, the hash input and the chunk digests consistently |
| `Container.StreamingWriter.Commit` | modules/store/src/block_store.cpp:131-236 | the same address and file as a one-shot put of everything written, or an error and no file when the length differs from the declared one |
| `Container.StreamParts` | modules/store/src/block_store.cpp:104-251 | however a payload is split, streaming it equals putting it |
| `Container.ExtentIsChunk` | modules/codec/include/synapsefs/codec/chunk.hpp:32-36 | an extent names its chunk |
| `ObjectReads.ReadObject` | modules/store/src/loose.cpp:77-133 | a ranged read of a put object is exactly the payload slice and verifies exactly the covering chunks, each once; when anything behind the header and the digest table has been changed it is still that slice, or an error |
| `LooseStore.PutAllThenRead` | modules/store/src/loose.cpp:27-133 | with hashes that do not collide, after any sequence of puts every object reads back, in whole and in part, at the address its put returned |
| `LooseStore.PutsAreKept` | modules/store/src/loose.cpp:27-45 | the directory holds exactly the addresses that were put, each with the file of its first put |
| `LooseStore.Get` | modules/store/src/loose.cpp:47-75 | whatever the file holds, a payload handed out hashes to its address; a file as written gives its payload; no file is not found |
| `Records.ClipIs` | modules/codec/src/reconstruct.cpp:340-366 | what a ranged read of the right bytes is: each byte that exists is copied to its place, the rest of the buffer stays |
| `Records.PutGrows` | modules/store/src/loose.cpp:27-45 | content addressing: a write never changes what an address means |

## Left out

- JSON, safetensors header text, time stamps and group names: records start parsed, a time stamp is its rank.
- BLAKE3, SHA-256 and zstd internals; collisions of addresses, and where it is said of digests, are excluded.
- Matching features, fingerprints, confidence, the propagation sweep and the greedy solver: numerical heuristics.
- Merged manifests: they keep one side's file record and may mix permutations of two commits, so they are outside the history theorem.
- Journal, refs, lock file, network sync, FUSE adapter, daemon and command line: file-system and network effects.
- Damage: in the commit-level theorems a raw block is read as stored; that its chunks are checked is proved of the object file (`ObjectReads`). `sfs verify` as a walk is not modelled, only its depth and ancestor checks.
- Sizes are unbounded integers: 64-bit overflow of byte counts, a trailing block of 2^32 bytes and axes of 2^32 positions are not modelled; block factors in `Finalize` are.
- RunAuction: with eps_shrink between 0 and 1 and some cost above 7 epsilon never falls and the loop does not end (`Shrinks` is what termination needs); 64-bit overflow of composite keys is not modelled, and costs enter as the integers after scaling.
- Solve: costs are reals (with infinities and NaN), so floating-point rounding is not modelled.
- SparseNullRepair: the cost of a bidder and an object is a function parameter, not computed from tensor rows.
- MatchGroupSparse: like `RunAuction` it is stated for runs that end; the widening candidate lists are a parameter; the reported cost and confidence are not computed.
- ReadTensorRange: a frame that runs backwards or past the axis is an error in the model and undefined in the code.
- CommitFile: one branch, one writer; a file header is parsed by a parameter; the exact success condition is for residuals against the base, which is what the command always asks for, and with plain residuals only one direction is given.
- ReadThroughCache: that a fill callback publishes the frame it read, and reports a failure only when that read failed, is a hypothesis on the run; the order of a read's own calls among the steps of other threads is left open.
- GatherLoop: a short read of the base is an error in the model, as in the reader; the writer's gather does not look at the count.
- WakeUp: memory ordering is replaced by atomic sections, entry ids are never reused, and the error a waiter reads after releasing a failed entry is not modelled.
- StreamParts: chunk sizes are powers of two; with any other size put refuses and the streaming writer does not.
- Temp-file sweep, mount marker and counters of gc; chunk attribution and counters of verify.
