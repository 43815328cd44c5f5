/** The `zchain` object: a pseudo-blockchain assembled from the append-only
    logs of many writers.

    Blocks are kept in an arena keyed by hash (`blocks`); the graph links,
    start list and trust weights that the source hangs on the block objects
    are maps keyed by hash. The application state is of type `S`; the site
    name, the frame and the certificate-name cache are not modelled. */
module Chain {
  import opened Wrappers
  import opened Blocks
  import opened Graph
  import opened Order
  import opened Ponderation
  import opened Ledger
  import opened Pipeline
  import opened Linearize
  import opened LogEdit

  /** The entry under `h` was visited (it is not pending any more) and
      passed the hash check. */
  predicate Seen(sha: string -> Hash, owner: Owner, log: Log, pending: set<Hash>, h: Hash) {
    h in log && h !in pending && Authentic(sha, h, log[h], owner)
  }

  /** The invariant of the storing loop of `loadUserFile`, with `pending`
      the hashes not visited yet: `newBlocks` holds the visited valid
      entries, `oldBlocks` the ledger blocks not (yet) seen valid, `created`
      the visited valid entries new to the ledger, which the store `after`
      has gained over `before`. */
  ghost predicate StoreLoop(sha: string -> Hash, owner: Owner, log: Log, book: Book, pending: set<Hash>,
                            newBlocks: Book, oldBlocks: Book, created: set<Hash>, before: Store, after: Store)
  {
    && pending <= log.Keys
    && (forall h :: h in newBlocks <==> Seen(sha, owner, log, pending, h))
    && (forall h :: h in newBlocks ==>
          newBlocks[h] == if h in book then book[h] else MakeBlock(h, log[h], owner))
    && (forall h :: h in oldBlocks <==> h in book && !Seen(sha, owner, log, pending, h))
    && (forall h :: h in oldBlocks ==> oldBlocks[h] == book[h])
    && (forall h :: h in created <==> Seen(sha, owner, log, pending, h) && h !in book)
    && (forall k :: k in after <==> k in before || k in created)
    && (forall k :: k in after ==>
          after[k] == if k in created then MakeBlock(k, log[k], owner) else before[k])
  }

  /** An entry failing the hash check is skipped, keeping the invariant of
      the storing loop. */
  lemma StoreSkip(sha: string -> Hash, owner: Owner, log: Log, book: Book, pending: set<Hash>,
                  newBlocks: Book, oldBlocks: Book, created: set<Hash>, before: Store, after: Store, h: Hash)
    requires StoreLoop(sha, owner, log, book, pending, newBlocks, oldBlocks, created, before, after)
    requires h in pending && !Authentic(sha, h, log[h], owner)
    ensures StoreLoop(sha, owner, log, book, pending - {h}, newBlocks, oldBlocks, created, before, after)
  {
    assert forall g :: Seen(sha, owner, log, pending - {h}, g) <==> Seen(sha, owner, log, pending, g);
  }

  /** A valid entry already in the ledger moves its block from `oldBlocks`
      to `newBlocks`, keeping the invariant of the storing loop. */
  lemma StoreKnown(sha: string -> Hash, owner: Owner, log: Log, book: Book, pending: set<Hash>,
                   newBlocks: Book, oldBlocks: Book, created: set<Hash>, before: Store, after: Store, h: Hash)
    requires StoreLoop(sha, owner, log, book, pending, newBlocks, oldBlocks, created, before, after)
    requires h in pending && Authentic(sha, h, log[h], owner) && h in oldBlocks
    ensures StoreLoop(sha, owner, log, book, pending - {h}, newBlocks[h := oldBlocks[h]], oldBlocks - {h}, created, before, after)
  {
    assert forall g :: Seen(sha, owner, log, pending - {h}, g) <==> Seen(sha, owner, log, pending, g) || g == h;
  }

  /** A valid entry new to the ledger becomes a new block, stored in
      `newBlocks` and in the store, keeping the invariant of the storing
      loop. */
  lemma StoreNew(sha: string -> Hash, owner: Owner, log: Log, book: Book, pending: set<Hash>,
                 newBlocks: Book, oldBlocks: Book, created: set<Hash>, before: Store, after: Store, h: Hash)
    requires StoreLoop(sha, owner, log, book, pending, newBlocks, oldBlocks, created, before, after)
    requires h in pending && Authentic(sha, h, log[h], owner) && h !in oldBlocks
    ensures var nb := MakeBlock(h, log[h], owner);
      StoreLoop(sha, owner, log, book, pending - {h}, newBlocks[h := nb], oldBlocks, created + {h}, before, after[h := nb])
  {
    assert forall g :: Seen(sha, owner, log, pending - {h}, g) <==> Seen(sha, owner, log, pending, g) || g == h;
  }

  /** What the storing loop has built once every entry of the log was
      visited: the reconciled ledger, the blocks it drops, and the store with
      the added blocks. */
  lemma StoredAllEntries(sha: string -> Hash, owner: Owner, book: Book, log: Log,
                         newBlocks: Book, oldBlocks: Book, created: set<Hash>, before: Store, after: Store)
    requires StoreLoop(sha, owner, log, book, {}, newBlocks, oldBlocks, created, before, after)
    ensures newBlocks == Reconciled(sha, owner, book, log)
    ensures oldBlocks.Keys == Removed(sha, owner, book, log)
    ensures after == before + AddedBlocks(sha, owner, book, log)
    ensures created == Added(sha, owner, book, log)
  {
    StoredLedger(sha, owner, book, log, newBlocks, oldBlocks, created, before, after);
    StoredStore(sha, owner, book, log, newBlocks, oldBlocks, created, before, after);
  }

  lemma StoredLedger(sha: string -> Hash, owner: Owner, book: Book, log: Log,
                     newBlocks: Book, oldBlocks: Book, created: set<Hash>, before: Store, after: Store)
    requires StoreLoop(sha, owner, log, book, {}, newBlocks, oldBlocks, created, before, after)
    ensures newBlocks == Reconciled(sha, owner, book, log)
    ensures oldBlocks.Keys == Removed(sha, owner, book, log)
    ensures created == Added(sha, owner, book, log)
  {
    assert forall h :: Seen(sha, owner, log, {}, h) <==> h in ValidKeys(sha, owner, log);
  }

  lemma StoredStore(sha: string -> Hash, owner: Owner, book: Book, log: Log,
                    newBlocks: Book, oldBlocks: Book, created: set<Hash>, before: Store, after: Store)
    requires StoreLoop(sha, owner, log, book, {}, newBlocks, oldBlocks, created, before, after)
    requires created == Added(sha, owner, book, log)
    ensures after == before + AddedBlocks(sha, owner, book, log)
  {
  }

  /** At any point of the storing loop, `newBlocks` is part of the
      reconciled ledger, and the store has gained exactly its blocks that
      are new to the ledger. */
  lemma StoreLoopFresh(sha: string -> Hash, owner: Owner, log: Log, book: Book, pending: set<Hash>,
                       newBlocks: Book, oldBlocks: Book, created: set<Hash>, before: Store, after: Store)
    requires StoreLoop(sha, owner, log, book, pending, newBlocks, oldBlocks, created, before, after)
    ensures SubLedger(newBlocks, Reconciled(sha, owner, book, log))
    ensures created == FreshBlocks(newBlocks, book).Keys
    ensures after == before + FreshBlocks(newBlocks, book)
  {
  }

  /** A valid entry new to the ledger whose payload does not decode, met by
      the storing loop, is one of the reload's undecodable entries. */
  lemma StoreAbort(sha: string -> Hash, decodes: string -> bool, owner: Owner, log: Log, book: Book, pending: set<Hash>,
                   newBlocks: Book, oldBlocks: Book, created: set<Hash>, before: Store, after: Store, h: Hash)
    requires StoreLoop(sha, owner, log, book, pending, newBlocks, oldBlocks, created, before, after)
    requires h in pending && Authentic(sha, h, log[h], owner) && h !in oldBlocks && !decodes(log[h].payload)
    ensures h in Undecodable(sha, decodes, owner, book, log)
  {
    assert !Seen(sha, owner, log, pending, h);
  }

  /** A storing loop that visited every entry without meeting an
      undecodable payload leaves none behind. */
  lemma NoneUndecodable(sha: string -> Hash, decodes: string -> bool, owner: Owner, log: Log, book: Book,
                        created: set<Hash>)
    requires created == Added(sha, owner, book, log)
    requires forall h :: h in created ==> decodes(log[h].payload)
    ensures Undecodable(sha, decodes, owner, book, log) == {}
  {
  }

  /** The invariant of the walk of `build`, from state `s0`: the walk's
      own invariant, the links kept, and the starts sorted once the first
      round is over. */
  ghost predicate ChainLoop<S>(checks: seq<(S, Block) -> bool>, procs: seq<(S, Block) -> S>, s0: S,
                               blocks: Store, prevBlock: map<Hash, Hash>, nextBlocks: map<Hash, set<Hash>>,
                               trust: map<Hash, int>, built: seq<Block>, nodes: seq<Hash>, s: S, starts: seq<Hash>)
  {
    && KeyedByHash(blocks)
    && Walk(checks, procs, s0, blocks, trust, built, nodes, s)
    && Linked(blocks, prevBlock, nextBlocks, starts)
    && (built == [] && nodes != [] ==> nodes == starts)
    && (built != [] || nodes == [] ==> Descending(trust, starts))
  }

  /** One round of the walk keeps its invariant; it either appends a block
      or ends the walk. */
  lemma ChainStep<S>(checks: seq<(S, Block) -> bool>, procs: seq<(S, Block) -> S>, s0: S,
                     blocks: Store, prevBlock: map<Hash, Hash>, nextBlocks: map<Hash, set<Hash>>, trust: map<Hash, int>,
                     built: seq<Block>, nodes: seq<Hash>, s: S, starts: seq<Hash>,
                     ranked: seq<Hash>, i: nat, built': seq<Block>, next: seq<Hash>, s': S, starts': seq<Hash>)
    requires ChainLoop(checks, procs, s0, blocks, prevBlock, nextBlocks, trust, built, nodes, s, starts) && nodes != []
    requires ranked == Ranked(trust, nodes) && i <= |ranked|
    requires Scanned(checks, s, blocks, ranked, i)
    requires i < |ranked| ==>
      && ranked[i] in blocks
      && Accepts(checks, s, blocks[ranked[i]])
      && built' == built + [blocks[ranked[i]]]
      && s' == ProcessAll(procs, s, blocks[ranked[i]])
      && Nodes(next) == Children(blocks, ranked[i])
    requires i == |ranked| ==> built' == built && s' == s && next == []
    requires starts' == if built == [] then ranked else starts
    ensures ChainLoop(checks, procs, s0, blocks, prevBlock, nextBlocks, trust, built', next, s', starts')
    ensures |built'| == |built| + 1 || (built' == built && next == [])
  {
    if i < |ranked| {
      WalkStep(checks, procs, s0, blocks, trust, built, nodes, s, i, next, built', s');
    } else {
      WalkStop(checks, procs, s0, blocks, trust, built, nodes, s);
    }
    if built == [] {
      RankedCorrect(trust, starts);
      PermutationKeepsLinked(blocks, prevBlock, nextBlocks, starts, ranked);
    }
  }

  /** The walk's invariant at its end: the chain is the greedy chain. */
  lemma ChainDone<S>(checks: seq<(S, Block) -> bool>, procs: seq<(S, Block) -> S>, s0: S,
                     blocks: Store, prevBlock: map<Hash, Hash>, nextBlocks: map<Hash, set<Hash>>, trust: map<Hash, int>,
                     built: seq<Block>, s: S, starts: seq<Hash>)
    requires ChainLoop(checks, procs, s0, blocks, prevBlock, nextBlocks, trust, built, [], s, starts)
    ensures GreedyChain(checks, procs, s0, blocks, trust, built) && s == Replay(procs, s0, built)
  {
  }

  /** The chain `build` leaves is a single path down the forest: it begins
      at a listed start, each block's parent is the block before it, no
      block repeats, and it is no longer than the store. */
  lemma BuiltIsPath<S>(checks: seq<(S, Block) -> bool>, procs: seq<(S, Block) -> S>, s0: S,
                       blocks: Store, prevBlock: map<Hash, Hash>, nextBlocks: map<Hash, set<Hash>>,
                       trust: map<Hash, int>, starts: seq<Hash>, built: seq<Block>)
    requires Linked(blocks, prevBlock, nextBlocks, starts)
    requires GreedyChain(checks, procs, s0, blocks, trust, built)
    ensures built != [] ==> built[0].hash in starts
    ensures forall i :: 0 < i < |built| ==> built[i].prev == built[i - 1].hash
    ensures forall i, j :: 0 <= i < j < |built| ==> built[i] != built[j]
    ensures forall i :: 0 <= i < |built| ==> built[i].hash in blocks && blocks[built[i].hash] == built[i]
    ensures |built| <= |blocks|
  {
    GreedyChainIsPath(checks, procs, s0, blocks, trust, built);
    if built != [] {
      PathOfBlocks(blocks, starts, built);
    }
  }

  /** A chain of stored blocks whose hashes form a root path begins at a
      listed start, links each block to the one before, and repeats none. */
  lemma PathOfBlocks(blocks: Store, starts: seq<Hash>, built: seq<Block>)
    requires built != [] && RootPath(blocks, Hashes(built)) && Nodes(starts) == StartSet(blocks)
    requires forall i :: 0 <= i < |built| ==> built[i].hash in blocks && blocks[built[i].hash] == built[i]
    ensures built[0].hash in starts
    ensures forall i :: 0 < i < |built| ==> built[i].prev == built[i - 1].hash
    ensures forall i, j :: 0 <= i < j < |built| ==> built[i] != built[j]
  {
    var line := Hashes(built);
    assert line[0] in StartSet(blocks);
    assert line[0] in Nodes(starts);
    forall i | 0 < i < |built| ensures built[i].prev == built[i - 1].hash {
      assert blocks[line[i]].prev == line[i - 1];
    }
    forall i, j | 0 <= i < j < |built| ensures built[i] != built[j] {
      assert line[i] != line[j];
    }
  }

  class ZChain<S> {
    /** sha256 as a hex string; supplied, not modelled. */
    const sha: string -> Hash
    /** Whether `msgpack.decode(b64toa(datab64))` returns rather than throws;
        supplied, not modelled. */
    const decodes: string -> bool
    /** The value the state is reset to at every rebuild (`{}`). */
    const emptyState: S

    var state: S
    var blocks: Store
    var users: Users
    var toBuild: bool
    var checkCallbacks: seq<(S, Block) -> bool>
    var processCallbacks: seq<(S, Block) -> S>
    var buildCallbacks: seq<(S, bool) -> S>
    var starts: seq<Hash>
    var built: seq<Block>
    var prevBlock: map<Hash, Hash>
    var nextBlocks: map<Hash, set<Hash>>
    var trust: map<Hash, int>

    /** Stored and ledger blocks are authentic and sit under their own hash
        (the store and the ledgers agree fully only as long as no reload
        was interrupted). */
    ghost predicate Valid()
      reads this
    {
      StoreSound(sha, blocks, users)
    }

    constructor(sha: string -> Hash, decodes: string -> bool, emptyState: S)
      ensures this.sha == sha && this.decodes == decodes && this.emptyState == emptyState
      ensures state == emptyState && blocks == map[] && users == map[] && toBuild
      ensures processCallbacks == [] && buildCallbacks == []
      ensures |checkCallbacks| == 1 && forall s, b :: Accepts(checkCallbacks, s, b)
      ensures starts == [] && built == [] && prevBlock == map[] && nextBlocks == map[] && trust == map[]
      ensures Valid() && StoreConsistent(sha, blocks, users)
    {
      this.sha := sha;
      this.decodes := decodes;
      this.emptyState := emptyState;
      state := emptyState;
      blocks := map[];
      users := map[];
      toBuild := true;
      checkCallbacks := [];
      processCallbacks := [];
      buildCallbacks := [];
      starts := [];
      built := [];
      prevBlock := map[];
      nextBlocks := map[];
      trust := map[];
      new;
      AddCheckCallback(BaseCheck);
    }

    method AddCheckCallback(c: (S, Block) -> bool)
      modifies this`checkCallbacks
      ensures checkCallbacks == old(checkCallbacks) + [c]
    {
      checkCallbacks := checkCallbacks + [c];
    }

    method AddProcessCallback(p: (S, Block) -> S)
      modifies this`processCallbacks
      ensures processCallbacks == old(processCallbacks) + [p]
    {
      processCallbacks := processCallbacks + [p];
    }

    method AddBuildCallback(h: (S, bool) -> S)
      modifies this`buildCallbacks
      ensures buildCallbacks == old(buildCallbacks) + [h]
    {
      buildCallbacks := buildCallbacks + [h];
    }

    /** `checkBlock`: runs the checks in order and stops at the first
        rejection; `calls` counts the checks it ran. */
    method CheckBlock(b: Block) returns (valid: bool, ghost calls: nat)
      ensures valid == Accepts(checkCallbacks, state, b)
      ensures calls <= |checkCallbacks|
      ensures forall j :: 0 <= j < calls - 1 ==> checkCallbacks[j](state, b)
      ensures !valid && calls > 0 ==> !checkCallbacks[calls - 1](state, b)
      ensures valid ==> calls == |checkCallbacks|
      ensures |checkCallbacks| > 0 ==> calls > 0
    {
      valid := |checkCallbacks| > 0;
      var i := 0;
      while valid && i < |checkCallbacks|
        invariant 0 <= i <= |checkCallbacks|
        invariant valid ==> |checkCallbacks| > 0 && forall j :: 0 <= j < i ==> checkCallbacks[j](state, b)
        invariant !valid ==> !Accepts(checkCallbacks, state, b)
        invariant !valid && i > 0 ==> !checkCallbacks[i - 1](state, b)
        invariant forall j :: 0 <= j < i - 1 ==> checkCallbacks[j](state, b)
        invariant i == 0 ==> valid == (|checkCallbacks| > 0)
      {
        valid := checkCallbacks[i](state, b);
        i := i + 1;
      }
      calls := i;
    }

    /** `processBlock` */
    method ProcessBlock(b: Block)
      modifies this`state
      ensures state == ProcessAll(processCallbacks, old(state), b)
    {
      var i := 0;
      while i < |processCallbacks|
        invariant 0 <= i <= |processCallbacks|
        invariant state == ProcessAll(processCallbacks[..i], old(state), b)
      {
        assert processCallbacks[..i + 1][..i] == processCallbacks[..i];
        state := processCallbacks[i](state, b);
        i := i + 1;
      }
      assert processCallbacks[..i] == processCallbacks;
    }

    /** The pre-build (`pre`) or post-build (`!pre`) callbacks of `build`. */
    method RunBuildCallbacks(pre: bool)
      modifies this`state
      ensures state == RunHooks(buildCallbacks, old(state), pre)
    {
      var i := 0;
      while i < |buildCallbacks|
        invariant 0 <= i <= |buildCallbacks|
        invariant state == RunHooks(buildCallbacks[..i], old(state), pre)
      {
        assert buildCallbacks[..i + 1][..i] == buildCallbacks[..i];
        state := buildCallbacks[i](state, pre);
        i := i + 1;
      }
      assert buildCallbacks[..i] == buildCallbacks;
    }

    /** The log `push` writes for the logged-in writer `owner`, given the
        writer's current file; nothing is written when no user is logged
        in or the file cannot be read. */
    method Push(loggedIn: bool, owner: Owner, file: LogFile, payload: string) returns (written: Option<Log>)
      ensures !loggedIn || file.Unreadable? ==> written == None
      ensures loggedIn && !file.Unreadable? ==>
        written == Some(Pushed(sha, StartLog(file).value, ChainHead(built), owner, payload))
    {
      var head: Option<Block> := None;
      if |built| > 0 {
        head := Some(built[|built| - 1]);
      }
      if loggedIn && !file.Unreadable? {
        var log := if file.Read? then file.log else map[];
        var prev := if head.Some? then head.value.hash else "";
        log := log[HashBlock(sha, prev, owner, payload) := Entry(Some(prev), payload)];
        written := Some(log);
      } else {
        written := None;
      }
    }

    /** The log `cleanup` writes for the logged-in writer `owner`: written
        only when some entry was dropped, and never when no user is logged in
        or the file cannot be read. */
    method Cleanup(loggedIn: bool, owner: Owner, file: LogFile, forcePurge: bool) returns (written: Option<Log>)
      ensures !loggedIn || file.Unreadable? ==> written == None
      ensures loggedIn && !file.Unreadable? ==>
        var log := StartLog(file).value;
        (written.Some? <==> exists h :: h in log && Dropped(sha, owner, log, forcePurge, blocks, built, h))
      ensures written.Some? ==> written.value == Cleaned(sha, owner, StartLog(file).value, forcePurge, blocks, built)
    {
      if !loggedIn || file.Unreadable? {
        return None;
      }
      var log := if file.Read? then file.log else map[];
      assert log == StartLog(file).value;
      var changed := false;
      var kept := log;
      var pending := log.Keys;
      while pending != {}
        invariant pending <= log.Keys
        invariant forall h :: h in kept <==> h in log && (h in pending || !Dropped(sha, owner, log, forcePurge, blocks, built, h))
        invariant forall h :: h in kept ==> kept[h] == log[h]
        invariant changed <==> exists h :: h in log && h !in pending && Dropped(sha, owner, log, forcePurge, blocks, built, h)
        decreases |pending|
      {
        var h :| h in pending;
        var e := log[h];
        var valid := HashBlock(sha, PrevOrEmpty(e), owner, e.payload) == h;
        var purge := false;
        if forcePurge {
          purge := h in blocks && blocks[h] !in built;
        }
        if !valid || purge {
          changed := true;
          kept := kept - {h};
        }
        pending := pending - {h};
      }
      if changed {
        written := Some(kept);
      } else {
        written := None;
      }
    }
  
    /** The reconciliation of `loadUserFile` once the writer's file is
        read; a missing or unreadable file changes nothing. The writer's
        ledger is replaced by the new one (the source installs the new,
        still empty ledger before the storing loop; nothing reads it in
        between). When a valid new entry's payload does not decode, the
        reload stops inside the storing loop: the ledger keeps the entries
        visited so far, the blocks stored so far stay, and the removal loop
        does not run. */
    method LoadUserLog(owner: Owner, file: LogFile)
      requires Valid()
      modifies this`blocks, this`users, this`toBuild
      ensures Valid()
      ensures !file.Read? ==> blocks == old(blocks) && users == old(users) && toBuild == old(toBuild)
      ensures file.Read? && Undecodable(sha, decodes, owner, LedgerOf(old(users), owner), file.log) == {} ==>
        var book := LedgerOf(old(users), owner);
        && users == old(users)[owner := Reconciled(sha, owner, book, file.log)]
        && blocks == Reloaded(sha, old(blocks), owner, book, file.log)
        && toBuild == (old(toBuild) || Added(sha, owner, book, file.log) != {}
                                    || Removed(sha, owner, book, file.log) != {})
        && (old(StoreConsistent(sha, blocks, users)) ==> StoreConsistent(sha, blocks, users))
      ensures file.Read? && Undecodable(sha, decodes, owner, LedgerOf(old(users), owner), file.log) != {} ==>
        var book := LedgerOf(old(users), owner);
        && owner in users && users == old(users)[owner := users[owner]]
        && SubLedger(users[owner], Reconciled(sha, owner, book, file.log))
        && blocks == old(blocks) + FreshBlocks(users[owner], book)
        && toBuild == (old(toBuild) || FreshBlocks(users[owner], book) != map[])
    {
      if !file.Read? {
        return;
      }
      var log := file.log;
      var book := LedgerOf(users, owner);
      var newBlocks, oldBlocks, aborted := StoreEntries(owner, log, book);
      users := users[owner := newBlocks];
      if !aborted {
        DropBlocks(oldBlocks.Keys);
        ReconciledFresh(sha, owner, book, log);
        ReloadedInTwoPasses(sha, old(blocks), owner, book, log);
        if old(StoreConsistent(sha, blocks, users)) {
          ReloadKeepsStoreConsistent(sha, old(blocks), old(users), owner, log);
        }
        ReloadKeepsStoreSound(sha, old(blocks), old(users), owner, log, newBlocks, Removed(sha, owner, book, log));
      } else {
        ReloadKeepsStoreSound(sha, old(blocks), old(users), owner, log, newBlocks, {});
        assert old(blocks) - {} == old(blocks);
      }
    }

    /** The storing loop of `loadUserFile`: walks the log, keeps the known
        valid blocks (`new_blocks`, taking them out of `old_blocks`), and
        creates and stores the new valid ones. It stops (`aborted`) at the
        first valid new entry whose payload does not decode; otherwise it
        visits every entry. */
    method StoreEntries(owner: Owner, log: Log, book: Book) returns (newBlocks: Book, oldBlocks: Book, aborted: bool)
      modifies this`blocks, this`toBuild
      ensures aborted <==> Undecodable(sha, decodes, owner, book, log) != {}
      ensures SubLedger(newBlocks, Reconciled(sha, owner, book, log))
      ensures !aborted ==> newBlocks == Reconciled(sha, owner, book, log)
      ensures !aborted ==> oldBlocks.Keys == Removed(sha, owner, book, log)
      ensures blocks == old(blocks) + FreshBlocks(newBlocks, book)
      ensures toBuild == (old(toBuild) || FreshBlocks(newBlocks, book) != map[])
    {
      ghost var created: set<Hash> := {};
      oldBlocks := book;
      newBlocks := map[];
      aborted := false;
      var pending := log.Keys;
      while pending != {}
        invariant StoreLoop(sha, owner, log, book, pending, newBlocks, oldBlocks, created, old(blocks), blocks)
        invariant forall h :: h in created ==> decodes(log[h].payload)
        invariant toBuild == (old(toBuild) || created != {})
        decreases |pending|
      {
        var h :| h in pending;
        var e := log[h];
        if HashBlock(sha, PrevOrEmpty(e), owner, e.payload) == h {
          if h in oldBlocks {
            StoreKnown(sha, owner, log, book, pending, newBlocks, oldBlocks, created, old(blocks), blocks, h);
            newBlocks := newBlocks[h := oldBlocks[h]];
            oldBlocks := oldBlocks - {h};
          } else if !decodes(e.payload) {
            // decoding the payload throws: the reload stops here
            StoreAbort(sha, decodes, owner, log, book, pending, newBlocks, oldBlocks, created, old(blocks), blocks, h);
            StoreLoopFresh(sha, owner, log, book, pending, newBlocks, oldBlocks, created, old(blocks), blocks);
            aborted := true;
            return;
          } else {
            StoreNew(sha, owner, log, book, pending, newBlocks, oldBlocks, created, old(blocks), blocks, h);
            var nb := MakeBlock(h, e, owner);
            newBlocks := newBlocks[h := nb];
            blocks := blocks[h := nb];
            toBuild := true;
            created := created + {h};
          }
        } else {
          StoreSkip(sha, owner, log, book, pending, newBlocks, oldBlocks, created, old(blocks), blocks, h);
        }
        pending := pending - {h};
      }
      StoredAllEntries(sha, owner, book, log, newBlocks, oldBlocks, created, old(blocks), blocks);
      StoreLoopFresh(sha, owner, log, book, {}, newBlocks, oldBlocks, created, old(blocks), blocks);
      NoneUndecodable(sha, decodes, owner, log, book, created);
    }

    /** The removal loop of `loadUserFile`: deletes the given blocks from the
        store, flagging a rebuild for each. */
    method DropBlocks(gone: set<Hash>)
      modifies this`blocks, this`toBuild
      ensures blocks == old(blocks) - gone
      ensures toBuild == (old(toBuild) || gone != {})
    {
      var rest := gone;
      while rest != {}
        invariant rest <= gone
        invariant forall k :: k in blocks <==> k in old(blocks) && (k !in gone || k in rest)
        invariant forall k :: k in blocks ==> blocks[k] == old(blocks)[k]
        invariant toBuild == (old(toBuild) || rest != gone)
        decreases |rest|
      {
        var h :| h in rest;
        blocks := blocks - {h};
        toBuild := true;
        rest := rest - {h};
      }
    }
  
    /** `buildGraph`: relinks every stored block to its parent and children,
        lists the starts, and ponderates the forest from each start. */
    method BuildGraph()
      modifies this`prevBlock, this`nextBlocks, this`starts, this`trust
      ensures Linked(blocks, prevBlock, nextBlocks, starts)
      ensures forall s :: s in StartSet(blocks) ==> Pondered(blocks, trust, [s], {})
    {
      LinkBlocks();
      PonderateStarts();
    }

    /** The linking loop of `buildGraph`: builds the links afresh (the old
        ones are dropped), visiting every stored block once, listing it as a
        start when its parent is not stored and linking it below its parent
        otherwise. */
    method LinkBlocks()
      modifies this`prevBlock, this`nextBlocks, this`starts
      ensures Linked(blocks, prevBlock, nextBlocks, starts)
    {
      var store := blocks;
      var parents: map<Hash, Hash> := map[];
      var kids: map<Hash, set<Hash>> := map[];
      var found: seq<Hash> := [];
      var pending := store.Keys;
      LinkLoopInit(store);
      while pending != {}
        invariant LinkLoop(store, pending, parents, kids, found)
        decreases |pending|
      {
        var h :| h in pending;
        var p := store[h].prev;
        if p !in store {
          LinkStart(store, pending, parents, kids, found, found + [h], h);
          found := found + [h];
        } else {
          var siblings := if p in kids then kids[p] else {};
          LinkChild(store, pending, parents, kids, parents[h := p], kids[p := siblings + {h}], found, h);
          parents, kids := parents[h := p], kids[p := siblings + {h}];
        }
        pending := pending - {h};
      }
      LinkLoopDone(store, parents, kids, found);
      prevBlock, nextBlocks, starts := parents, kids, found;
    }

    /** The last loop of `buildGraph`: `recursive_ponderate` from every
        start, in the order of `starts`. */
    method PonderateStarts()
      requires Linked(blocks, prevBlock, nextBlocks, starts)
      modifies this`trust
      ensures forall s :: s in StartSet(blocks) ==> Pondered(blocks, trust, [s], {})
    {
      var i := 0;
      while i < |starts|
        invariant 0 <= i <= |starts|
        invariant StartsPondered(blocks, trust, starts, i)
      {
        StartPath(blocks, starts[i]);
        ghost var before := trust;
        trust := Ponderate(blocks, nextBlocks, trust, starts[i], {}, [starts[i]]);
        StartsPonderedStep(blocks, before, trust, starts, i);
        i := i + 1;
      }
      AllStartsPondered(blocks, trust, starts);
    }
  
    /** `build`: when a rebuild is flagged, rebuilds the graph, resets the
        state, runs the pre-build callbacks, walks the forest greedily from
        the starts, then runs the post-build callbacks. */
    method Build() returns (rebuilt: bool)
      requires Valid()
      modifies this`toBuild, this`built, this`prevBlock, this`nextBlocks, this`starts, this`trust, this`state
      ensures rebuilt == old(toBuild) && !toBuild
      ensures !rebuilt ==> built == old(built) && starts == old(starts) && trust == old(trust) && state == old(state)
                           && prevBlock == old(prevBlock) && nextBlocks == old(nextBlocks)
      ensures rebuilt ==>
        var s0 := RunHooks(buildCallbacks, emptyState, true);
        && Linked(blocks, prevBlock, nextBlocks, starts)
        && (forall s :: s in StartSet(blocks) ==> Pondered(blocks, trust, [s], {}))
        && Descending(trust, starts)
        && GreedyChain(checkCallbacks, processCallbacks, s0, blocks, trust, built)
        && state == RunHooks(buildCallbacks, Replay(processCallbacks, s0, built), false)
    {
      if !toBuild {
        return false;
      }
      toBuild := false;
      built := [];
      BuildGraph();
      SoundKeyed(sha, blocks, users);
      BuildChain();
      return true;
    }

    /** The state-building part of `build`: clears the state, runs the
        pre-build callbacks, walks the forest, and runs the post-build
        callbacks. */
    method BuildChain()
      requires built == []
      requires KeyedByHash(blocks) && Linked(blocks, prevBlock, nextBlocks, starts)
      modifies this`state, this`built, this`starts
      ensures Linked(blocks, prevBlock, nextBlocks, starts)
      ensures Descending(trust, starts)
      ensures GreedyChain(checkCallbacks, processCallbacks, RunHooks(buildCallbacks, emptyState, true), blocks, trust, built)
      ensures state == RunHooks(buildCallbacks, Replay(processCallbacks, RunHooks(buildCallbacks, emptyState, true), built), false)
    {
      state := emptyState;
      RunBuildCallbacks(true);
      WalkForest(RunHooks(buildCallbacks, emptyState, true));
      RunBuildCallbacks(false);
    }

    /** The walk of `build` from the starts, in state `s0`: each round ranks
        the frontier, processes the first block the checks accept and moves
        to its children; ranking the first frontier sorts `starts` itself. */
    method WalkForest(ghost s0: S)
      requires state == s0 && built == []
      requires KeyedByHash(blocks) && Linked(blocks, prevBlock, nextBlocks, starts)
      modifies this`state, this`built, this`starts
      ensures Linked(blocks, prevBlock, nextBlocks, starts)
      ensures Descending(trust, starts)
      ensures GreedyChain(checkCallbacks, processCallbacks, s0, blocks, trust, built)
      ensures state == Replay(processCallbacks, s0, built)
    {
      var nodes := starts;
      WalkInit(checkCallbacks, processCallbacks, s0, blocks, trust, starts);
      while |nodes| > 0
        invariant ChainLoop(checkCallbacks, processCallbacks, s0, blocks, prevBlock, nextBlocks, trust, built, nodes, state, starts)
        decreases |blocks| - |built|, |nodes|
      {
        ghost var nodes0, built0, state0, starts0 := nodes, built, state, starts;
        var first := |built| == 0;
        var ranked, i;
        ranked, i, nodes := NextFrontier(nodes);
        if first {
          // the first frontier is `starts` itself, sorted in place
          starts := ranked;
        }
        ChainStep(checkCallbacks, processCallbacks, s0, blocks, prevBlock, nextBlocks, trust,
                  built0, nodes0, state0, starts0, ranked, i, built, nodes, state, starts);
      }
      ChainDone(checkCallbacks, processCallbacks, s0, blocks, prevBlock, nextBlocks, trust, built, state, starts);
    }

    /** One round of the walk of `build`: ranks the frontier and checks its
        blocks in that order; the first accepted one, at index `i`, is
        processed and appended to the chain, and its children are the next
        frontier. With none accepted, `i` is past the end and the next
        frontier is empty. */
    method NextFrontier(nodes: seq<Hash>) returns (ranked: seq<Hash>, i: nat, next: seq<Hash>)
      requires ChildLinks(blocks, nextBlocks) && KeyedByHash(blocks)
      requires forall k :: 0 <= k < |nodes| ==> nodes[k] in blocks
      modifies this`state, this`built
      ensures ranked == Ranked(trust, nodes) && i <= |ranked|
      ensures Scanned(checkCallbacks, old(state), blocks, ranked, i)
      ensures i < |ranked| ==>
        && ranked[i] in blocks
        && Accepts(checkCallbacks, old(state), blocks[ranked[i]])
        && built == old(built) + [blocks[ranked[i]]]
        && state == ProcessAll(processCallbacks, old(state), blocks[ranked[i]])
        && Nodes(next) == Children(blocks, ranked[i])
      ensures i == |ranked| ==> built == old(built) && state == old(state) && next == []
    {
      ranked := Ranked(trust, nodes);
      RankedIn(trust, nodes, blocks.Keys);
      i := 0;
      while i < |ranked|
        invariant 0 <= i <= |ranked|
        invariant built == old(built) && state == old(state)
        invariant Scanned(checkCallbacks, state, blocks, ranked, i)
      {
        var b := blocks[ranked[i]];
        var valid, _ := CheckBlock(b);
        if valid {
          ProcessBlock(b);
          built := built + [b];
          if b.hash in nextBlocks {
            next := Enumerate(nextBlocks[b.hash]);
          } else {
            next := [];
          }
          return;
        }
        ScannedStep(checkCallbacks, state, blocks, ranked, i);
        i := i + 1;
      }
      next := [];
    }
}
}
