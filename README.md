# zchain — a Dafny model of the merge engine

`zchain` builds one pseudo-blockchain out of many append-only logs, one per
writer (a ZeroNet auth address). Each writer's `.zchain` file is a map from
a block hash to `[prev, datab64]`. A block is admitted only when its hash is
sha256 of `prev + ":" + owner + ":" + datab64`. Every admitted block goes
into one store. The blocks form a forest: each block hangs under the block
its `prev` names, and a block whose parent is not stored is a *start*.
Every block is given a *trust* weight that favours long chains and owner
diversity before a fork. `build` then walks the forest from the starts. At
each step it ranks the frontier (most trusted first, greatest hash on a
tie), takes the first block the check callbacks accept, runs the process
callbacks on it, and moves on to that block's children.

The model follows `zchain/zchain.js` module by module:

| file | module | what it holds |
|---|---|---|
| `blocks.dfy` | `Wrappers`, `Blocks` | entries, blocks, `hash_block`, the admission check, what the `:` separator guarantees |
| `pipeline.dfy` | `Pipeline` | the check, process and build callbacks as function values; what running them in order amounts to |
| `ledger.dfy` | `Ledger` | the reconciliation of a writer's ledger with a reloaded log, as pure functions, and the store invariant it keeps |
| `graph.dfy` | `Graph` | parents, children and starts; the invariant of the linking loop of `buildGraph`; root paths and subtrees |
| `trust.dfy` | `Ponderation` | the trust `recursive_ponderate` computes (a recursive specification) and the recursive methods that compute it |
| `order.dfy` | `Order` | the frontier order (JavaScript string `<`, trust, hash), the sort and reverse, and the comparator as written |
| `linear.dfy` | `Linearize` | the greedy chain `build` produces, its uniqueness, and the invariants of its loops |
| `logedit.dfy` | `LogEdit` | the log edits of `push` and `cleanup` |
| `zchain.dfy` | `Chain` | the `zchain` object as a class `ZChain<S>` whose methods update its fields as the source does |

Blocks live in an arena keyed by hash (`blocks: map<Hash, Block>`). The
links the source hangs on block objects are maps keyed by hash, held as
fields of `ZChain`: `prev_block` becomes `prevBlock`, `next_blocks` becomes
`nextBlocks`, and `block.trust` becomes `trust`. The application state is a
type parameter `S`. A callback returns the next state instead of mutating
it. The digest is a function `sha: string -> Hash` given to the
constructor, and so is the predicate `decodes` that says whether a block's
payload decodes. A reload whose log holds a valid new entry with a payload
that does not decode stops there, as the source's decoding throws: the
writer's ledger is left partly rebuilt and the blocks it no longer holds
stay in the store.

## Model

| member | source | states |
|---|---|---|
| Blocks.MakeBlockAuthentic | zchain/zchain.js:88-102 | a block built from an entry (a missing `prev` read as `""`) is authentic under its hash exactly when the entry passed the hash check |
| Blocks.PreimageInjective | zchain/zchain.js:18 | with colon-free `prev` and owner, the hashed string determines prev, owner and payload |
| Blocks.HashBindsInputs | zchain/zchain.js:15-20 | with a collision-free digest and colon-free prev/owner, equal block hashes mean equal prev, owner and payload |
| Blocks.PreimageAmbiguousWithColons | zchain/zchain.js:18 | without the no-colon condition, two different (prev, owner) pairs hash the same string |
| Pipeline.AcceptsWithBase | zchain/zchain.js:23-26 | with the base check first, `checkBlock` accepts exactly what every later check accepts |
| Pipeline.NoChecksRejects | zchain/zchain.js:126 | with no check callback, every block is rejected |
| Pipeline.AcceptsAppend | zchain/zchain.js:402-408 | a newly registered check narrows acceptance to the blocks it accepts too (both directions) |
| Pipeline.ProcessAllAppend | zchain/zchain.js:410-415 | a newly registered process callback runs last, on the state the earlier ones produced |
| Pipeline.RunHooksAppend | zchain/zchain.js:417-423 | a newly registered build callback runs last, on the state the earlier ones produced |
| Pipeline.ReplayAppend | zchain/zchain.js:237-241 | processing a longer chain continues from the state its prefix produced |
| Pipeline.ReplayWithoutProcessors | zchain/zchain.js:137-141 | with no process callback, processing any chain leaves the state unchanged |
| Ledger.ReconciledContents | zchain/zchain.js:86-110 | the reloaded ledger holds exactly the log's valid entries; known ones keep their existing block, new ones get a fresh block |
| Ledger.RebuildIffHashesChange | zchain/zchain.js:104-116 | a reload adds or removes a block exactly when the writer's set of block hashes changes |
| Ledger.ReloadSameLogIsNoOp | zchain/zchain.js:81-116 | reloading the same log again keeps the ledger, adds nothing and removes nothing |
| Ledger.AddedRemovedDisjoint | zchain/zchain.js:86-116 | added and removed hashes never overlap |
| Ledger.ReloadedInTwoPasses | zchain/zchain.js:104-116 | storing the added blocks and then deleting the removed ones gives the reloaded store |
| Ledger.ReloadKeepsStoreConsistent | zchain/zchain.js:79-116 | a reload that runs to the end (every new payload decodes) keeps every stored block authentic, under its own hash, and equal to its owner's ledger entry |
| Ledger.ConsistentIsSound | zchain/zchain.js:79-116 | a consistent store is sound: stored and ledger blocks are authentic and under their own hash, ledger blocks owned by their writer |
| Ledger.SoundKeyed | zchain/zchain.js:175-203 | a sound store keeps every block under its own hash, which the linking of `buildGraph` relies on |
| Ledger.ReconciledFresh | zchain/zchain.js:96-108 | the blocks of the reconciled ledger that the old ledger lacked are exactly the added blocks |
| Ledger.ReloadKeepsStoreSound | zchain/zchain.js:79-116 | installing any part of the reconciled ledger, storing its new blocks and evicting any blocks keeps the store sound, so an interrupted reload does too |
| Ledger.InterruptedReloadLeavesStale | zchain/zchain.js:83-116 | when the reload stops before the eviction at lines 113-116, a block the log no longer holds stays stored although no ledger holds it: the store is no longer consistent |
| Ledger.PreservedBlocksMatchLog | zchain/zchain.js:91-95 | with a collision-free digest, a preserved block is the block the entry would have produced anyway |
| LogEdit.PushedEntry | zchain/zchain.js:299-316 | the pushed entry passes the hash check and points at the chain head (or `""`); the other entries are unchanged |
| LogEdit.PushThenReload | zchain/zchain.js:314-325 | reloading the pushed log stores a block that is a child of the head |
| LogEdit.CleanedContents | zchain/zchain.js:352-374 | cleanup keeps exactly the valid entries, minus orphans under `force_purge`, unchanged |
| LogEdit.CleanedChangedIff | zchain/zchain.js:349-376 | the cleaned log differs from the log read exactly when some entry was dropped |
| LogEdit.CleanedIdempotent | zchain/zchain.js:356-374 | cleaning a cleaned log changes nothing |
| LogEdit.CleanupInvisibleToReload | zchain/zchain.js:356-374 | without `force_purge`, the reload of a cleaned log gives the same ledger as the reload of the original |
| LogEdit.PurgeKeepsBuilt | zchain/zchain.js:362-367 | with `force_purge`, a valid entry whose block is on the built chain is kept |
| LogEdit.PushedSurvivesCleanup | zchain/zchain.js:356-373 | a freshly pushed entry survives a cleanup without `force_purge` |
| Graph.LinkLoopInit | zchain/zchain.js:177-185 | cleared links and an empty start list satisfy the linking invariant with every block pending |
| Graph.LinkStart | zchain/zchain.js:189-190 | listing a block without a stored parent as a start keeps the linking invariant |
| Graph.LinkChild | zchain/zchain.js:191-202 | linking a block under its stored parent keeps the linking invariant |
| Graph.ParentRecorded | zchain/zchain.js:192 | recording the parent link keeps the parent half of the invariant |
| Graph.KidsRecorded | zchain/zchain.js:194-201 | adding the block to its parent's children (creating the set when absent) keeps the children half of the invariant |
| Graph.LinkLoopDone | zchain/zchain.js:185-203 | once every block is visited, every parent, every child set and every start (once each) is recorded |
| Graph.PermutationKeepsLinked | zchain/zchain.js:227-232 | sorting `starts` in place keeps it a duplicate-free list of exactly the starts |
| Graph.RootPathChildren | zchain/zchain.js:151-168 | a block's children extend its root path, and none is already on it |
| Graph.SubDisjoint | zchain/zchain.js:163-168 | the subtrees of two children of a fork are disjoint |
| Order.LtTransitive | zchain/zchain.js:229-230 | the intended frontier order is transitive |
| Order.LtTotal | zchain/zchain.js:229-230 | the intended order ranks any two distinct hashes one way or the other |
| Order.InsertSorted | zchain/zchain.js:230 | inserting into an ascending list keeps it ascending and adds exactly the element |
| Order.SortAscendingCorrect | zchain/zchain.js:229-230 | the sort returns a permutation of the frontier in ascending (trust, hash) order |
| Order.ReverseDescending | zchain/zchain.js:231-232 | reversing an ascending list gives a descending one |
| Order.RankedCorrect | zchain/zchain.js:229-232 | the ranked frontier is a permutation of the frontier, most trusted first, greatest hash first on a tie |
| Order.RankedStrictlyBelow | zchain/zchain.js:229-232 | a distinct node ranked later is strictly below the earlier one |
| Order.ComparatorAsWrittenInconsistent | zchain/zchain.js:230 | the boolean comparator answers "after" one way and "equal" the other way for two equally trusted nodes |
| Order.SortAsWrittenKeepsOrder | zchain/zchain.js:230 | with the comparator as written, which never answers negative, the sort moves no element |
| Order.RankedAsWrittenReversed | zchain/zchain.js:229-232 | with the comparator as written, the ranked frontier is the frontier in reverse order, whatever the trusts |
| Order.RankedPair | zchain/zchain.js:229-232 | the intended ranking of two nodes puts the more trusted one first |
| Order.RankedAsWrittenLeastTrustedFirst | zchain/zchain.js:229-232 | for the frontier ["b", "a"] with "b" trusted more, the code ranks "a" first while the intended ranking puts "b" first |
| Ponderation.Trust | zchain/zchain.js:144-173 | every trust is at least 1, and exactly 1 when the block has no child |
| Ponderation.MaxTrust | zchain/zchain.js:162-168 | the fork's running maximum is 0 exactly when there is no child |
| Ponderation.MaxTrustIsMax | zchain/zchain.js:162-168 | the maximum bounds every child's trust and is reached by one child |
| Ponderation.TrustLeaf | zchain/zchain.js:150-151 | a block without children has trust 1 |
| Ponderation.TrustSingleChild | zchain/zchain.js:152-158 | a single-child block has 1 plus its child's trust, and the child continues the same owner set |
| Ponderation.TrustFork | zchain/zchain.js:160-171 | a fork has 1 plus the largest child trust (children weighed with fresh owner sets) times the number of distinct owners on its line up to the fork |
| Ponderation.ForkMax | zchain/zchain.js:162-170 | any bound that some child reaches is the fork's maximum |
| Ponderation.TrustStraightLine | zchain/zchain.js:152-158 | an n-block straight chain weighs n, n-1, ..., 1 whoever its owners are |
| Ponderation.ForkOfLeaves | zchain/zchain.js:160-171 | a fork of leaves weighs 1 + the owners on its line; a start forking into leaves weighs 2 |
| Ponderation.ForkBelowSingleChild | zchain/zchain.js:146-171 | a single-child block over a fork of leaves weighs 2 + the number of distinct owners of the two blocks |
| Ponderation.PonderedKeptBySibling | zchain/zchain.js:163-168 | ponderating one child of a fork leaves a sibling's pondered subtree intact |
| Ponderation.PonderedLeaf | zchain/zchain.js:150 | storing trust 1 for a block without children ponders it |
| Ponderation.PonderedSingle | zchain/zchain.js:157-158 | storing 1 + the child's trust ponders a single-child block whose child is pondered |
| Ponderation.PonderedFork | zchain/zchain.js:162-170 | storing 1 + max times owners ponders a fork whose children are pondered |
| Ponderation.ForkLoopStep | zchain/zchain.js:163-168 | one iteration of the fork loop keeps its children pondered and `max` the largest trust so far |
| Ponderation.StartsPonderedStep | zchain/zchain.js:206-207 | ponderating the next start keeps the earlier starts pondered |
| Ponderation.AllStartsPondered | zchain/zchain.js:205-207 | after the loop, every start's tree holds its trust |
| Ponderation.Ponderate | zchain/zchain.js:144-173 | `recursive_ponderate` stores the specified trust for every block under the given one and changes nothing outside that subtree |
| Ponderation.PonderateFork | zchain/zchain.js:160-171 | the fork loop ponders every child with a fresh owner set and returns the largest child trust |
| Linearize.Enumerate | zchain/zchain.js:247-248 | the listed children are exactly the child set, each listed once |
| Linearize.GreedyPrefixExtend | zchain/zchain.js:237-241 | appending the best frontier block extends a greedy chain, and the state advances by processing it |
| Linearize.BestUnique | zchain/zchain.js:229-239 | the walk's choice among the frontier is unique |
| Linearize.GreedyChainUnique | zchain/zchain.js:226-260 | `build` is deterministic: exactly one chain is greedy at every step and stops where nothing passes |
| Linearize.StopsBefore | zchain/zchain.js:257-259 | a greedy chain never stops where a longer greedy chain continues |
| Linearize.GreedyChainIsPath | zchain/zchain.js:243-249 | the built chain walks down the forest and is no longer than the store |
| Linearize.RootPathBounded | zchain/zchain.js:243-249 | a root path visits distinct stored blocks, so it is no longer than the store |
| Linearize.ScannedStep | zchain/zchain.js:237-255 | one more refused frontier node extends the refused prefix |
| Linearize.WalkInit | zchain/zchain.js:227 | the walk starts from the starts, with an empty chain, in the initial state |
| Linearize.RankedIn | zchain/zchain.js:230-232 | ranking keeps the frontier's length and membership in the store |
| Linearize.PickIsBest | zchain/zchain.js:237-241 | the first accepted node of the ranked frontier is ranked above every other accepted node |
| Linearize.NoneAccepted | zchain/zchain.js:257-259 | with no ranked node accepted, no frontier block passes |
| Linearize.WalkStep | zchain/zchain.js:237-252 | taking the first accepted node, processing it and moving to its children keeps the walk invariant |
| Linearize.WalkStop | zchain/zchain.js:257-259 | with nothing accepted the walk ends with an empty frontier, keeping its invariant |
| Chain.StoreSkip | zchain/zchain.js:88-90 | an entry failing the hash check is skipped, keeping the storing invariant |
| Chain.StoreKnown | zchain/zchain.js:91-95 | a valid entry already in the ledger moves its block to `new_blocks`, keeping the invariant |
| Chain.StoreNew | zchain/zchain.js:96-108 | a valid new entry becomes a block in `new_blocks` and in the store, keeping the invariant |
| Chain.StoredAllEntries | zchain/zchain.js:86-110 | after the storing loop: the reconciled ledger, the blocks to drop, and the store plus the added blocks |
| Chain.StoreLoopFresh | zchain/zchain.js:86-110 | at any point of the storing loop, `new_blocks` is part of the reconciled ledger and the store is the old store plus the new blocks created so far |
| Chain.StoreAbort | zchain/zchain.js:96-99 | a valid entry new to the ledger whose payload does not decode is one of the reload's undecodable entries |
| Chain.NoneUndecodable | zchain/zchain.js:96-108 | when every added block's payload decoded, no entry of the log is undecodable |
| Chain.PathOfBlocks | zchain/zchain.js:226-260 | a non-empty root path of stored blocks starts at a start, each block's parent is the block before it, and no block repeats |
| Chain.ChainStep | zchain/zchain.js:228-260 | one round of the walk keeps its invariant and either appends a block or ends the walk |
| Chain.ChainDone | zchain/zchain.js:226-260 | when the walk ends, the chain is the greedy chain and the state is its replay |
| Chain.BuiltIsPath | zchain/zchain.js:226-260 | the built chain begins at a start, each block's parent is the block before it, and no block repeats |
| Chain.ZChain.constructor | zchain/zchain.js:28-44 | empty store, ledgers, links and chain; rebuild flagged; the base check is registered and accepts every block; the store is consistent |
| Chain.ZChain.AddCheckCallback | zchain/zchain.js:405-408 | appends the check and changes nothing else |
| Chain.ZChain.AddProcessCallback | zchain/zchain.js:412-415 | appends the process callback and changes nothing else |
| Chain.ZChain.AddBuildCallback | zchain/zchain.js:420-423 | appends the build callback and changes nothing else |
| Chain.ZChain.CheckBlock | zchain/zchain.js:124-134 | accepts exactly when there are checks and all accept; calls at least one check when there is one, and stops after the first rejection |
| Chain.ZChain.ProcessBlock | zchain/zchain.js:137-141 | the new state is the process callbacks applied in registration order |
| Chain.ZChain.RunBuildCallbacks | zchain/zchain.js:222-224 | the new state is the build callbacks applied in order with the `pre` flag (also lines 262-264) |
| Chain.ZChain.Push | zchain/zchain.js:294-316 | nothing is written when not logged in or when the file cannot be decoded (line 312 throws); otherwise the log read (empty if missing) plus the entry on top of the head |
| Chain.ZChain.Cleanup | zchain/zchain.js:340-376 | nothing is written when not logged in or when the file cannot be decoded; otherwise a log is written exactly when some entry is dropped, and it is the cleaned log |
| Chain.ZChain.LoadUserLog | zchain/zchain.js:79-116 | a missing or undecodable file changes nothing; when every new payload decodes, the ledger and store become the reconciled ones, a rebuild is flagged exactly when hashes were added or removed, and the store stays consistent; when one does not, the writer's ledger is a part of the reconciled one, the store gains just its new blocks and nothing is evicted; the store stays sound either way |
| Chain.ZChain.StoreEntries | zchain/zchain.js:85-110 | the storing loop stops exactly when some new valid payload does not decode; otherwise it yields the reconciled ledger and the blocks to drop; either way it stores exactly the new blocks of the ledger it built, and flags a rebuild when it stored one |
| Chain.ZChain.DropBlocks | zchain/zchain.js:112-116 | the removal loop deletes exactly the given blocks and flags a rebuild when there was one |
| Chain.ZChain.BuildGraph | zchain/zchain.js:175-208 | afterwards links are recorded and every start's tree is pondered |
| Chain.ZChain.LinkBlocks | zchain/zchain.js:177-203 | the links are built afresh: every parent, every child set and every start (once each) is recorded |
| Chain.ZChain.PonderateStarts | zchain/zchain.js:205-207 | every start's tree holds the specified trust |
| Chain.ZChain.Build | zchain/zchain.js:211-270 | returns whether a rebuild was flagged and clears the flag; when rebuilt, the graph is linked and pondered, the starts are sorted, the chain is the greedy chain and the state is the post-build hooks over its replay; otherwise nothing changes |
| Chain.ZChain.BuildChain | zchain/zchain.js:219-264 | the state is reset, pre-build hooks run, the greedy chain is built, post-build hooks run |
| Chain.ZChain.WalkForest | zchain/zchain.js:226-260 | the chain built from the starts is the greedy chain, the state is its replay, and `starts` ends sorted |
| Chain.ZChain.NextFrontier | zchain/zchain.js:229-259 | ranks the frontier; either the first accepted node is processed and appended and its children are the next frontier, or nothing changes and the frontier empties |

## Left out

- File access, `frame.cmd`, signing, publishing and notifications. `load`, `handleSiteInfo` and the callbacks of `push`/`cleanup` are not modelled. `push` and `cleanup` are modelled as the log they write, given the file read and whether a user is logged in. `loadUserFile` is modelled from the decoded log on.
- The `cert_user_id` lookups (`cert_user_ids`, `getCertUserId`) and the `name` and `frame` fields are not modelled.
- base64, pako and msgpack decoding and encoding are left out. The file read is a `LogFile`: `Missing` (no data), `Unreadable` (present but its decoding throws or yields nothing) or `Read(log)`. A block's payload is kept as the hashed `datab64` text. Whether a payload decodes is the predicate `decodes` given to the constructor, and the decoded `data` itself is not modelled.
- Chain.ZChain.LoadUserLog: installs the writer's new ledger after the storing loop instead of before it (line 83). Nothing reads the ledger during the loop, so the state reached, including after an interrupted reload, is the same.
- sha256 is a function parameter: nothing is assumed about it except where a lemma says so (collision-freedom in `Blocks.HashBindsInputs` and `Ledger.PreservedBlocksMatchLog`).
- Callbacks are modelled as pure functions that return the next state, where the source passes one mutable state object. A callback that throws, keeps references or mutates blocks is not modelled.
- Block objects are values identified by their fields. Object identity, the clearing of stale `prev_block`/`next_blocks` properties on reused objects, and `built.indexOf` by reference are modelled by hash-keyed maps and value equality. The clearing at lines 177-182 is modelled by resetting the maps.
- JavaScript prototype keys, numeric-looking keys and the iteration order of `for ... in` are left open. The loops choose their next key with `:|`, and `Linearize.Enumerate` lists a set in an unspecified order.
- Ponderation.Ponderate: returns the trust map rather than writing `block.trust` on shared objects. JavaScript's unbounded recursion depth is not modelled.
- Ponderation.Trust: is a ghost specification. It has the same branches as `recursive_ponderate`, but the children it recurses into are restricted to blocks not already on the path. For blocks reachable from a start this restriction changes nothing (`Graph.RootPathChildren`). Blocks on a `prev` cycle are never reachable from a start.
- The in-place `nodes.sort(...); nodes.reverse()` is modelled as the value `Order.Ranked` computed by insertion sort under the intended comparator (see Findings). The first round's sort reorders `starts` in place, and `Chain.ZChain.WalkForest` assigns the ranked list back to `starts`.
- loadUserFile, buildGraph and build each have several loops. Each loop is a method of its own (`StoreEntries`/`DropBlocks`, `LinkBlocks`/`PonderateStarts`, `WalkForest`/`NextFrontier`), and the callback loops are `CheckBlock`, `ProcessBlock` and `RunBuildCallbacks`.
- Asynchronous interleaving of callbacks, such as a reload landing during a build, is not modelled: every operation runs to completion.
- Integers are unbounded, whereas trust values in the source are JavaScript numbers (doubles). Precision loss on huge trusts is not modelled.
- JavaScript string `<` is modelled as lexicographic comparison of characters (`Order.LexLess`). UTF-16 code units are not distinguished from characters.
- Admission pre-checks on writers, a rolling digest of the built chain, per-owner usage counters and build statistics are not part of `zchain/zchain.js`, so they are not modelled.
- Ponderation.ForkOfLeaves: a start with two leaf children by two other owners gets trust 2, not 3. The multiplier counts the owners on the line down to and including the fork block, and the children are not on that line. The model follows the code.

## Findings

| source | as written | input that shows it | evidently intended | confidence | as-written member | corrected member |
|---|---|---|---|---|---|---|
| zchain/zchain.js:230 | the sort comparator returns a boolean, which the sort reads as 1 or 0, never a negative number. Its sign is reversed: it answers "a after b" exactly when a ranks below b, and it is inconsistent (for two equally trusted nodes it answers 1 one way and 0 the other). A sort that moves an element only on a negative answer, as the run detection and binary insertion of V8's TimSort do, leaves the frontier as it is, so after the reverse the frontier comes in reverse enumeration order, whatever the trusts | the frontier ["b", "a"] with trust 2 for "b" and 1 for "a": the code ranks "a" first; and two nodes "a" and "b" of trust 1: compare(a, b) = 1 but compare(b, a) = 0 | a consistent comparator: trust ascending, then hash ascending, so after the reverse the most trusted node comes first and the greatest hash wins a tie | not executed | Order.RankedAsWrittenLeastTrustedFirst | Order.RankedCorrect |
