/** Optional values, used for a log entry's missing predecessor and for a
    selection that may find nothing. */
module Wrappers {
  datatype Option<+T> = None | Some(value: T) {
    function GetOr(default: T): T {
      match this
      case Some(v) => v
      case None => default
    }
  }
}

/** Blocks, log entries and the content-address check that binds them.

    A writer's log file decodes to a map from a block's hex hash to the pair
    [prev, datab64]. A block is admitted only when its claimed hash equals
    sha256(prev + ":" + owner + ":" + datab64). The digest function itself is
    not modelled: every operation takes it as a parameter `sha`. */
module Blocks {
  import opened Wrappers

  type Hash = string
  type Owner = string

  /** One decoded log entry `[prev, datab64]`; `prev` may be missing (`None`),
      which the loader reads as the empty string. */
  datatype Entry = Entry(prev: Option<Hash>, payload: string)

  /** A decoded log: block hash to entry. */
  type Log = map<Hash, Entry>

  /** A writer's `.zchain` file as read: missing (no data), unreadable
      (inflating or decoding it throws, or it decodes to nothing), or a
      decoded log. */
  datatype LogFile = Missing | Unreadable | Read(log: Log)

  /** A loaded block. `payload` is the base-64 text the hash covers; the
      decoded application data is not modelled separately. */
  datatype Block = Block(hash: Hash, prev: Hash, owner: Owner, payload: string)

  /** `block[0] || ""` */
  function PrevOrEmpty(e: Entry): Hash {
    e.prev.GetOr("")
  }

  /** The string the hash is computed over. */
  function Preimage(prev: Hash, owner: Owner, payload: string): string {
    prev + ":" + owner + ":" + payload
  }

  /** `hash_block(prev_hash, owner, datab64)` */
  function HashBlock(sha: string -> Hash, prev: Hash, owner: Owner, payload: string): Hash {
    sha(Preimage(prev, owner, payload))
  }

  /** The admission check applied to a log entry read from `owner`'s file. */
  predicate Authentic(sha: string -> Hash, hash: Hash, e: Entry, owner: Owner) {
    HashBlock(sha, PrevOrEmpty(e), owner, e.payload) == hash
  }

  /** The block the loader builds from an authentic entry. */
  function MakeBlock(hash: Hash, e: Entry, owner: Owner): Block {
    Block(hash, PrevOrEmpty(e), owner, e.payload)
  }

  /** The store invariant: an admitted block's hash is the hash of its own
      predecessor, owner and payload. */
  predicate BlockAuthentic(sha: string -> Hash, b: Block) {
    HashBlock(sha, b.prev, b.owner, b.payload) == b.hash
  }

  /** A block built from an entry is authentic exactly when the entry passed
      the admission check. */
  lemma MakeBlockAuthentic(sha: string -> Hash, hash: Hash, e: Entry, owner: Owner)
    ensures BlockAuthentic(sha, MakeBlock(hash, e, owner)) <==> Authentic(sha, hash, e, owner)
  {
  }

  predicate NoColon(s: string) {
    forall i :: 0 <= i < |s| ==> s[i] != ':'
  }

  ghost predicate Injective(sha: string -> Hash) {
    forall x, y :: sha(x) == sha(y) ==> x == y
  }

  /** The separator makes the pre-image unambiguous as long as neither the
      predecessor hash nor the owner contains a colon (hex digests and
      auth addresses do not). */
  lemma {:induction false} PreimageInjective(p1: Hash, o1: Owner, d1: string, p2: Hash, o2: Owner, d2: string)
    requires NoColon(p1) && NoColon(p2) && NoColon(o1) && NoColon(o2)
    requires Preimage(p1, o1, d1) == Preimage(p2, o2, d2)
    ensures p1 == p2 && o1 == o2 && d1 == d2
  {
    assert Preimage(p1, o1, d1) == p1 + ":" + (o1 + ":" + d1);
    assert Preimage(p2, o2, d2) == p2 + ":" + (o2 + ":" + d2);
    SplitAtColon(p1, o1 + ":" + d1, p2, o2 + ":" + d2);
    SplitAtColon(o1, d1, o2, d2);
  }

  lemma {:induction false} SplitAtColon(a1: string, b1: string, a2: string, b2: string)
    requires NoColon(a1) && NoColon(a2)
    requires a1 + ":" + b1 == a2 + ":" + b2
    ensures a1 == a2 && b1 == b2
  {
    var s := a1 + ":" + b1;
    var k := if |a1| < |a2| then |a1| else |a2|;
    assert s[k] == ':';
    assert a1 == s[..|a1|] && a2 == s[..|a2|];
    assert b1 == s[|a1| + 1..] && b2 == s[|a2| + 1..];
  }

  /** With a collision-free digest, changing the predecessor, the owner or
      the payload changes the hash. */
  lemma HashBindsInputs(sha: string -> Hash, p1: Hash, o1: Owner, d1: string, p2: Hash, o2: Owner, d2: string)
    requires Injective(sha)
    requires NoColon(p1) && NoColon(p2) && NoColon(o1) && NoColon(o2)
    requires HashBlock(sha, p1, o1, d1) == HashBlock(sha, p2, o2, d2)
    ensures p1 == p2 && o1 == o2 && d1 == d2
  {
    PreimageInjective(p1, o1, d1, p2, o2, d2);
  }

  /** Without the no-colon condition the pre-image is ambiguous: two
      different (prev, owner) pairs give the same hashed string. */
  lemma PreimageAmbiguousWithColons()
    ensures Preimage("a:b", "c", "d") == Preimage("a", "b:c", "d")
  {
  }
}
