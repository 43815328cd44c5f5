/** What `loadUserFile` does with a writer's decoded log.

    Every writer (`owner`, an auth address) has a ledger: the blocks of the
    global store that came from the writer's log, keyed by hash. Reloading
    the log reconciles the ledger with it:
    - an entry that fails the hash check is ignored;
    - an entry whose hash is already in the ledger keeps the existing block
      (the existing object is preserved, not rebuilt);
    - any other valid entry becomes a new block, added to the ledger and to
      the global store, and flags a rebuild;
    - a ledger block whose hash is not among the valid entries any more is
      deleted from the global store and flags a rebuild.
    Decoding the payload of a valid new entry can throw. The reload then
    stops where it is: the writer's ledger keeps only the entries visited so
    far, the blocks stored so far stay, and nothing is deleted. */
module Ledger {
  import opened Wrappers
  import opened Blocks
  import opened Graph

  /** One writer's blocks, by hash. */
  type Book = map<Hash, Block>

  /** Every writer's ledger. */
  type Users = map<Owner, Book>

  /** `this.users[auth_address]`, an absent ledger read as an empty one. */
  function LedgerOf(users: Users, owner: Owner): Book {
    if owner in users then users[owner] else map[]
  }

  /** The hashes of `log` that pass the hash check for `owner`. */
  function ValidKeys(sha: string -> Hash, owner: Owner, log: Log): set<Hash> {
    set h | h in log && Authentic(sha, h, log[h], owner)
  }

  /** The writer's ledger after the reload (`new_blocks`). */
  function Reconciled(sha: string -> Hash, owner: Owner, book: Book, log: Log): Book {
    map h | h in ValidKeys(sha, owner, log) ::
      if h in book then book[h] else MakeBlock(h, log[h], owner)
  }

  /** Valid entries that are new to the ledger. */
  function Added(sha: string -> Hash, owner: Owner, book: Book, log: Log): set<Hash> {
    set h | h in ValidKeys(sha, owner, log) && h !in book
  }

  /** Ledger blocks that are not among the valid entries any more. */
  function Removed(sha: string -> Hash, owner: Owner, book: Book, log: Log): set<Hash> {
    set h | h in book && h !in ValidKeys(sha, owner, log)
  }

  /** The blocks the reload creates. */
  function AddedBlocks(sha: string -> Hash, owner: Owner, book: Book, log: Log): Store {
    map h | h in Added(sha, owner, book, log) :: MakeBlock(h, log[h], owner)
  }

  /** The global store after the reload. */
  function Reloaded(sha: string -> Hash, blocks: Store, owner: Owner, book: Book, log: Log): Store {
    (blocks - Removed(sha, owner, book, log)) + AddedBlocks(sha, owner, book, log)
  }

  /** The invariant the loader keeps between the global store and the
      ledgers: every stored block sits under its own hash, is authentic, and
      is the very block its owner's ledger holds under that hash; every
      ledger block sits under its own hash, names the ledger's owner and is
      authentic. */
  predicate StoreConsistent(sha: string -> Hash, blocks: Store, users: Users) {
    && (forall h :: h in blocks ==>
          && blocks[h].hash == h
          && BlockAuthentic(sha, blocks[h])
          && h in LedgerOf(users, blocks[h].owner)
          && LedgerOf(users, blocks[h].owner)[h] == blocks[h])
    && (forall o, h :: o in users && h in users[o] ==>
          && users[o][h].hash == h
          && users[o][h].owner == o
          && BlockAuthentic(sha, users[o][h]))
  }

  /** The weaker invariant that survives an interrupted reload: stored and
      ledger blocks sit under their own hash and are authentic, and ledger
      blocks name the ledger's owner. */
  predicate StoreSound(sha: string -> Hash, blocks: Store, users: Users) {
    && (forall h :: h in blocks ==> blocks[h].hash == h && BlockAuthentic(sha, blocks[h]))
    && (forall o, h :: o in users && h in users[o] ==>
          && users[o][h].hash == h
          && users[o][h].owner == o
          && BlockAuthentic(sha, users[o][h]))
  }

  /** A consistent store is sound. */
  lemma ConsistentIsSound(sha: string -> Hash, blocks: Store, users: Users)
    requires StoreConsistent(sha, blocks, users)
    ensures StoreSound(sha, blocks, users)
  {
  }

  /** A sound store keeps every block under its own hash. */
  lemma SoundKeyed(sha: string -> Hash, blocks: Store, users: Users)
    requires StoreSound(sha, blocks, users)
    ensures KeyedByHash(blocks)
  {
  }

  /** Every entry of `a` is the entry of `b` under the same hash. */
  predicate SubLedger(a: Book, b: Book) {
    forall h :: h in a ==> h in b && a[h] == b[h]
  }

  /** Valid entries new to the ledger whose payload does not decode
      (`decodes` says whether `msgpack.decode(b64toa(·))` returns): reaching
      one of them throws out of the reload. */
  function Undecodable(sha: string -> Hash, decodes: string -> bool, owner: Owner, book: Book, log: Log): set<Hash> {
    set h | h in Added(sha, owner, book, log) && !decodes(log[h].payload)
  }

  /** The blocks of the (possibly partial) new ledger `partial` that the old
      ledger `book` did not have: the blocks the reload stored. */
  function FreshBlocks(partial: Book, book: Book): Store {
    map h | h in partial && h !in book :: partial[h]
  }

  /** A completed reload stores exactly the added blocks. */
  lemma ReconciledFresh(sha: string -> Hash, owner: Owner, book: Book, log: Log)
    ensures FreshBlocks(Reconciled(sha, owner, book, log), book) == AddedBlocks(sha, owner, book, log)
  {
  }

  /** The reloaded ledger holds exactly the valid entries of the log: new
      ones as freshly built blocks, known ones as the blocks it already had. */
  lemma ReconciledContents(sha: string -> Hash, owner: Owner, book: Book, log: Log)
    ensures forall h :: h in Reconciled(sha, owner, book, log) <==> h in log && Authentic(sha, h, log[h], owner)
    ensures forall h :: h in Reconciled(sha, owner, book, log) && h in book ==>
      Reconciled(sha, owner, book, log)[h] == book[h]
    ensures forall h :: h in Reconciled(sha, owner, book, log) && h !in book ==>
      Reconciled(sha, owner, book, log)[h] == Block(h, PrevOrEmpty(log[h]), owner, log[h].payload)
  {
  }

  /** A reload flags a rebuild exactly when the set of the writer's block
      hashes changes. */
  lemma RebuildIffHashesChange(sha: string -> Hash, owner: Owner, book: Book, log: Log)
    ensures Added(sha, owner, book, log) == {} && Removed(sha, owner, book, log) == {}
        <==> Reconciled(sha, owner, book, log).Keys == book.Keys
  {
    var r := Reconciled(sha, owner, book, log);
    if Added(sha, owner, book, log) == {} && Removed(sha, owner, book, log) == {} {
      forall h ensures h in r <==> h in book {
        assert h !in Added(sha, owner, book, log) && h !in Removed(sha, owner, book, log);
      }
    }
    if r.Keys == book.Keys {
      forall h | h in ValidKeys(sha, owner, log) ensures h in book {
        assert h in r;
      }
    }
  }

  /** Loading the same log twice: the second reload keeps the ledger as it
      is, adds and removes nothing, so it flags no rebuild. */
  lemma ReloadSameLogIsNoOp(sha: string -> Hash, owner: Owner, book: Book, log: Log)
    ensures var r := Reconciled(sha, owner, book, log);
      && Reconciled(sha, owner, r, log) == r
      && Added(sha, owner, r, log) == {}
      && Removed(sha, owner, r, log) == {}
  {
    var r := Reconciled(sha, owner, book, log);
    assert Added(sha, owner, r, log) == {} by {
      forall h | h in ValidKeys(sha, owner, log) ensures h in r { }
    }
    assert Removed(sha, owner, r, log) == {} by {
      forall h | h in r ensures h in ValidKeys(sha, owner, log) { }
    }
  }

  /** Added and removed hashes never overlap, so deleting and adding commute
      (the loader adds first and deletes afterwards). */
  lemma AddedRemovedDisjoint(sha: string -> Hash, owner: Owner, book: Book, log: Log)
    ensures Added(sha, owner, book, log) !! Removed(sha, owner, book, log)
    ensures Reloaded(sha, map[], owner, book, log).Keys == Added(sha, owner, book, log)
  {
  }

  /** The loader's two passes, storing the added blocks and then deleting
      the removed ones, produce the reloaded store. */
  lemma ReloadedInTwoPasses(sha: string -> Hash, blocks: Store, owner: Owner, book: Book, log: Log)
    ensures (blocks + AddedBlocks(sha, owner, book, log)) - Removed(sha, owner, book, log)
         == Reloaded(sha, blocks, owner, book, log)
  {
    AddedRemovedDisjoint(sha, owner, book, log);
  }

  /** The reload keeps the store consistent with the ledgers, whatever the
      log contains. */
  lemma ReloadKeepsStoreConsistent(sha: string -> Hash, blocks: Store, users: Users, owner: Owner, log: Log)
    requires StoreConsistent(sha, blocks, users)
    ensures var book := LedgerOf(users, owner);
      StoreConsistent(sha, Reloaded(sha, blocks, owner, book, log),
                      users[owner := Reconciled(sha, owner, book, log)])
  {
    var book := LedgerOf(users, owner);
    var r := Reconciled(sha, owner, book, log);
    var blocks' := Reloaded(sha, blocks, owner, book, log);
    var users' := users[owner := r];
    forall h | h in blocks'
      ensures && blocks'[h].hash == h
              && BlockAuthentic(sha, blocks'[h])
              && h in LedgerOf(users', blocks'[h].owner)
              && LedgerOf(users', blocks'[h].owner)[h] == blocks'[h]
    {
      if h in Added(sha, owner, book, log) {
        MakeBlockAuthentic(sha, h, log[h], owner);
      } else {
        assert h in blocks && h !in Removed(sha, owner, book, log);
        if blocks[h].owner == owner {
          assert h in book;
        }
      }
    }
    forall o, h | o in users' && h in users'[o]
      ensures && users'[o][h].hash == h
              && users'[o][h].owner == o
              && BlockAuthentic(sha, users'[o][h])
    {
      if o == owner && h !in book {
        MakeBlockAuthentic(sha, h, log[h], owner);
      }
    }
  }

  /** A reload keeps the store sound, whether it completes (`partial` is the
      whole reconciled ledger and `gone` the removed blocks) or is
      interrupted (`partial` is part of it and nothing is deleted). */
  lemma ReloadKeepsStoreSound(sha: string -> Hash, blocks: Store, users: Users, owner: Owner, log: Log,
                              partial: Book, gone: set<Hash>)
    requires StoreSound(sha, blocks, users)
    requires SubLedger(partial, Reconciled(sha, owner, LedgerOf(users, owner), log))
    ensures StoreSound(sha, (blocks - gone) + FreshBlocks(partial, LedgerOf(users, owner)), users[owner := partial])
  {
    var book := LedgerOf(users, owner);
    forall h | h in partial
      ensures partial[h].hash == h && partial[h].owner == owner && BlockAuthentic(sha, partial[h])
    {
      if h !in book {
        MakeBlockAuthentic(sha, h, log[h], owner);
      }
    }
  }

  /** An interrupted reload leaves in the store a block the writer's log no
      longer holds, while the writer's ledger has dropped it: the store is no
      longer consistent with the ledgers, and no later reload of that writer
      deletes the block, since it is not in the ledger any more. */
  lemma InterruptedReloadLeavesStale(sha: string -> Hash, blocks: Store, users: Users, owner: Owner, log: Log,
                                     partial: Book, h: Hash)
    requires SubLedger(partial, Reconciled(sha, owner, LedgerOf(users, owner), log))
    requires h in Removed(sha, owner, LedgerOf(users, owner), log) && h in blocks && blocks[h].owner == owner
    ensures var after := blocks + FreshBlocks(partial, LedgerOf(users, owner));
      && h in after && after[h] == blocks[h]
      && h !in partial
      && !StoreConsistent(sha, after, users[owner := partial])
  {
    var after := blocks + FreshBlocks(partial, LedgerOf(users, owner));
    assert h !in partial;
    assert LedgerOf(users[owner := partial], after[h].owner) == partial;
  }

  /** With a collision-free digest and colon-free hashes and owners,
      preserving a known block loses nothing: it is the block the entry
      would have produced anyway. */
  lemma PreservedBlocksMatchLog(sha: string -> Hash, owner: Owner, book: Book, log: Log)
    requires Injective(sha) && NoColon(owner)
    requires forall h :: h in book ==>
      book[h].hash == h && book[h].owner == owner && BlockAuthentic(sha, book[h]) && NoColon(book[h].prev)
    requires forall h :: h in log ==> NoColon(PrevOrEmpty(log[h]))
    ensures Reconciled(sha, owner, book, log)
         == map h | h in ValidKeys(sha, owner, log) :: MakeBlock(h, log[h], owner)
  {
    forall h | h in ValidKeys(sha, owner, log) && h in book
      ensures book[h] == MakeBlock(h, log[h], owner)
    {
      HashBindsInputs(sha, book[h].prev, owner, book[h].payload,
                      PrevOrEmpty(log[h]), owner, log[h].payload);
    }
  }
}
