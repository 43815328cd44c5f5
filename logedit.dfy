/** The edits `push` and `cleanup` make to the current writer's own log
    before it is written back (the file access, signing and publishing are
    not modelled).

    `push` appends an entry on top of the chain head: the last built block,
    or nothing (the empty hash) when the built chain is empty. `cleanup`
    drops every entry that fails the hash check and, with `force_purge`,
    every entry whose stored block exists but is not part of the built
    chain. */
module LogEdit {
  import opened Wrappers
  import opened Blocks
  import opened Graph
  import opened Ledger

  /** The log `push` and `cleanup` start from: a missing file is an empty
      log; an unreadable one stops them before anything is written. */
  function StartLog(file: LogFile): Option<Log> {
    match file
    case Missing => Some(map[])
    case Unreadable => None
    case Read(log) => Some(log)
  }

  /** The chain head `push` builds on: the last built block, if any. */
  function ChainHead(built: seq<Block>): Option<Block> {
    if built == [] then None else Some(built[|built| - 1])
  }

  /** The hash the new block points back to. */
  function HeadHash(head: Option<Block>): Hash {
    if head.Some? then head.value.hash else ""
  }

  /** The hash under which `push` stores the new entry. */
  function PushedHash(sha: string -> Hash, head: Option<Block>, owner: Owner, payload: string): Hash {
    HashBlock(sha, HeadHash(head), owner, payload)
  }

  /** The log `push` writes back. */
  function Pushed(sha: string -> Hash, log: Log, head: Option<Block>, owner: Owner, payload: string): Log {
    log[PushedHash(sha, head, owner, payload) := Entry(Some(HeadHash(head)), payload)]
  }

  /** `purge` of the cleanup loop: the hash names a stored block that is not
      on the built chain. */
  predicate Orphan(blocks: Store, built: seq<Block>, h: Hash) {
    h in blocks && blocks[h] !in built
  }

  /** Whether `cleanup` drops the entry stored under `h`. */
  predicate Dropped(sha: string -> Hash, owner: Owner, log: Log, forcePurge: bool, blocks: Store, built: seq<Block>, h: Hash)
    requires h in log
  {
    !Authentic(sha, h, log[h], owner) || (forcePurge && Orphan(blocks, built, h))
  }

  /** The log `cleanup` writes back. */
  function Cleaned(sha: string -> Hash, owner: Owner, log: Log, forcePurge: bool, blocks: Store, built: seq<Block>): Log {
    map h | h in log && !Dropped(sha, owner, log, forcePurge, blocks, built, h) :: log[h]
  }

  /** The pushed entry is there, passes the hash check, and points at the
      head; every other entry is kept as it was. */
  lemma PushedEntry(sha: string -> Hash, log: Log, head: Option<Block>, owner: Owner, payload: string)
    ensures var h := PushedHash(sha, head, owner, payload);
      var r := Pushed(sha, log, head, owner, payload);
      && h in r
      && Authentic(sha, h, r[h], owner)
      && PrevOrEmpty(r[h]) == HeadHash(head)
      && r.Keys == log.Keys + {h}
      && (forall g :: g in log && g != h ==> r[g] == log[g])
  {
  }

  /** Reloading the pushed log (when the entry is new to the ledger) stores
      a block that is a child of the head: the next build can extend the
      chain with it. */
  lemma PushThenReload(sha: string -> Hash, blocks: Store, book: Book, log: Log, head: Option<Block>, owner: Owner, payload: string)
    requires PushedHash(sha, head, owner, payload) !in book
    ensures var h := PushedHash(sha, head, owner, payload);
      var after := Reloaded(sha, blocks, owner, book, Pushed(sha, log, head, owner, payload));
      && h in after
      && after[h] == Block(h, HeadHash(head), owner, payload)
      && (head.Some? ==> h in Children(after, head.value.hash))
  {
    var h := PushedHash(sha, head, owner, payload);
    var r := Pushed(sha, log, head, owner, payload);
    assert h in Added(sha, owner, book, r);
  }

  /** The entries `cleanup` keeps: those that pass the hash check and, with
      `force_purge`, are not orphans. Kept entries are unchanged. */
  lemma CleanedContents(sha: string -> Hash, owner: Owner, log: Log, forcePurge: bool, blocks: Store, built: seq<Block>)
    ensures var c := Cleaned(sha, owner, log, forcePurge, blocks, built);
      && (forall h :: h in c <==>
            h in log && Authentic(sha, h, log[h], owner) && !(forcePurge && Orphan(blocks, built, h)))
      && (forall h :: h in c ==> c[h] == log[h])
  {
  }

  /** The `changed` flag: the cleaned log differs from the log read exactly
      when some entry was dropped. */
  lemma CleanedChangedIff(sha: string -> Hash, owner: Owner, log: Log, forcePurge: bool, blocks: Store, built: seq<Block>)
    ensures Cleaned(sha, owner, log, forcePurge, blocks, built) != log
        <==> exists h :: h in log && Dropped(sha, owner, log, forcePurge, blocks, built, h)
  {
    var c := Cleaned(sha, owner, log, forcePurge, blocks, built);
    if c != log {
      var h :| h in log && h !in c;
    }
  }

  /** Cleaning twice is cleaning once. */
  lemma CleanedIdempotent(sha: string -> Hash, owner: Owner, log: Log, forcePurge: bool, blocks: Store, built: seq<Block>)
    ensures var c := Cleaned(sha, owner, log, forcePurge, blocks, built);
      Cleaned(sha, owner, c, forcePurge, blocks, built) == c
  {
  }

  /** Without `force_purge` cleanup only drops entries a reload ignores
      anyway: the writer's ledger after reloading is the same. */
  lemma CleanupInvisibleToReload(sha: string -> Hash, owner: Owner, book: Book, log: Log, blocks: Store, built: seq<Block>)
    ensures Reconciled(sha, owner, book, Cleaned(sha, owner, log, false, blocks, built))
         == Reconciled(sha, owner, book, log)
  {
    var c := Cleaned(sha, owner, log, false, blocks, built);
    assert ValidKeys(sha, owner, c) == ValidKeys(sha, owner, log);
  }

  /** With `force_purge`, an authentic entry whose block is on the built
      chain is never dropped. */
  lemma PurgeKeepsBuilt(sha: string -> Hash, owner: Owner, log: Log, blocks: Store, built: seq<Block>, k: nat)
    requires k < |built| && built[k].hash in log && Authentic(sha, built[k].hash, log[built[k].hash], owner)
    requires built[k].hash in blocks ==> blocks[built[k].hash] == built[k]
    ensures built[k].hash in Cleaned(sha, owner, log, true, blocks, built)
  {
  }

  /** A freshly pushed entry survives a cleanup without `force_purge`. */
  lemma PushedSurvivesCleanup(sha: string -> Hash, log: Log, head: Option<Block>, owner: Owner, payload: string, blocks: Store, built: seq<Block>)
    ensures PushedHash(sha, head, owner, payload)
         in Cleaned(sha, owner, Pushed(sha, log, head, owner, payload), false, blocks, built)
  {
  }
}
