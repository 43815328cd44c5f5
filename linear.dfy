/** The chain `build` linearizes out of the block forest.

    The frontier starts as the start blocks. At each step the frontier is
    ranked (most trusted first, the greater hash first on a tie), the first
    block that the check callbacks accept in the current state is processed
    and appended to the chain, and the frontier becomes its children. The
    walk stops when no frontier block is accepted or the frontier is empty.

    `GreedyChain` states this step by step as a property of the built chain;
    the lemmas show it determines the chain uniquely and that the chain is a
    path down the forest. */
module Linearize {
  import opened Blocks
  import opened Graph
  import opened Order
  import opened Pipeline

  /** The blocks the walk may take after the chain `bs`. */
  function Frontier(blocks: Store, bs: seq<Block>): set<Hash> {
    if bs == [] then StartSet(blocks) else Children(blocks, bs[|bs| - 1].hash)
  }

  /** `p` is the block the walk takes from `cands` in state `s`: an accepted
      candidate ranked above every other accepted candidate. */
  ghost predicate Best<S>(checks: seq<(S, Block) -> bool>, s: S, blocks: Store, trust: map<Hash, int>, cands: set<Hash>, p: Hash)
  {
    && p in cands && p in blocks
    && Accepts(checks, s, blocks[p])
    && forall q :: q in cands && q in blocks && q != p && Accepts(checks, s, blocks[q]) ==> Lt(trust, q, p)
  }

  /** No candidate is accepted in state `s`: the walk stops. */
  ghost predicate NonePass<S>(checks: seq<(S, Block) -> bool>, s: S, blocks: Store, cands: set<Hash>)
  {
    forall q :: q in cands && q in blocks ==> !Accepts(checks, s, blocks[q])
  }

  /** The hashes of a chain of blocks. */
  function Hashes(bs: seq<Block>): (hs: seq<Hash>)
    ensures |hs| == |bs|
    ensures forall i :: 0 <= i < |bs| ==> hs[i] == bs[i].hash
  {
    if bs == [] then [] else Hashes(bs[..|bs| - 1]) + [bs[|bs| - 1].hash]
  }

  /** Each block of `built[..n]` is the best of its frontier, in the state
      the blocks before it produced. */
  ghost predicate GreedyPrefix<S>(checks: seq<(S, Block) -> bool>, procs: seq<(S, Block) -> S>, s0: S,
                                  blocks: Store, trust: map<Hash, int>, built: seq<Block>, n: nat)
    requires n <= |built|
  {
    forall k :: 0 <= k < n ==>
      && built[k].hash in blocks
      && blocks[built[k].hash] == built[k]
      && Best(checks, Replay(procs, s0, built[..k]), blocks, trust, Frontier(blocks, built[..k]), built[k].hash)
  }

  /** The chain `build` produces from state `s0`: greedy at every step, and
      nothing of the final frontier accepted. */
  ghost predicate GreedyChain<S>(checks: seq<(S, Block) -> bool>, procs: seq<(S, Block) -> S>, s0: S,
                                 blocks: Store, trust: map<Hash, int>, built: seq<Block>)
  {
    && GreedyPrefix(checks, procs, s0, blocks, trust, built, |built|)
    && NonePass(checks, Replay(procs, s0, built), blocks, Frontier(blocks, built))
  }

  /** Appending the best block of the frontier extends a greedy prefix. */
  lemma GreedyPrefixExtend<S>(checks: seq<(S, Block) -> bool>, procs: seq<(S, Block) -> S>, s0: S,
                              blocks: Store, trust: map<Hash, int>, built: seq<Block>, b: Block)
    requires GreedyPrefix(checks, procs, s0, blocks, trust, built, |built|)
    requires b.hash in blocks && blocks[b.hash] == b
    requires Best(checks, Replay(procs, s0, built), blocks, trust, Frontier(blocks, built), b.hash)
    ensures GreedyPrefix(checks, procs, s0, blocks, trust, built + [b], |built| + 1)
    ensures Replay(procs, s0, built + [b]) == ProcessAll(procs, Replay(procs, s0, built), b)
  {
    var nb := built + [b];
    forall k | 0 <= k < |nb|
      ensures && nb[k].hash in blocks
              && blocks[nb[k].hash] == nb[k]
              && Best(checks, Replay(procs, s0, nb[..k]), blocks, trust, Frontier(blocks, nb[..k]), nb[k].hash)
    {
      if k < |built| {
        assert nb[..k] == built[..k] && nb[k] == built[k];
      } else {
        assert nb[..k] == built;
      }
    }
    assert nb[..|built|] == built;
  }

  /** The walk's choice is determined: two best candidates are the same. */
  lemma BestUnique<S>(checks: seq<(S, Block) -> bool>, s: S, blocks: Store, trust: map<Hash, int>, cands: set<Hash>, p1: Hash, p2: Hash)
    requires Best(checks, s, blocks, trust, cands, p1) && Best(checks, s, blocks, trust, cands, p2)
    ensures p1 == p2
  {
    if p1 != p2 {
      LtAsymmetric(trust, p1, p2);
      assert false;
    }
  }

  /** Build is deterministic: one chain satisfies GreedyChain. */
  lemma GreedyChainUnique<S>(checks: seq<(S, Block) -> bool>, procs: seq<(S, Block) -> S>, s0: S,
                             blocks: Store, trust: map<Hash, int>, b1: seq<Block>, b2: seq<Block>)
    requires GreedyChain(checks, procs, s0, blocks, trust, b1)
    requires GreedyChain(checks, procs, s0, blocks, trust, b2)
    ensures b1 == b2
  {
    var n := if |b1| < |b2| then |b1| else |b2|;
    SamePrefix(checks, procs, s0, blocks, trust, b1, b2, n);
    if |b1| < |b2| {
      StopsBefore(checks, procs, s0, blocks, trust, b1, b2);
      assert false;
    } else if |b2| < |b1| {
      StopsBefore(checks, procs, s0, blocks, trust, b2, b1);
      assert false;
    } else {
      assert b1 == b1[..n] && b2 == b2[..n];
    }
  }

  /** Two greedy chains agree on their common length. */
  lemma {:induction false} SamePrefix<S>(checks: seq<(S, Block) -> bool>, procs: seq<(S, Block) -> S>, s0: S,
                                         blocks: Store, trust: map<Hash, int>, b1: seq<Block>, b2: seq<Block>, n: nat)
    requires n <= |b1| && n <= |b2|
    requires GreedyPrefix(checks, procs, s0, blocks, trust, b1, |b1|)
    requires GreedyPrefix(checks, procs, s0, blocks, trust, b2, |b2|)
    ensures b1[..n] == b2[..n]
    decreases n
  {
    if n > 0 {
      var k := n - 1;
      SamePrefix(checks, procs, s0, blocks, trust, b1, b2, k);
      var s, cands := Replay(procs, s0, b1[..k]), Frontier(blocks, b1[..k]);
      assert Best(checks, s, blocks, trust, cands, b1[k].hash);
      assert Best(checks, Replay(procs, s0, b2[..k]), blocks, trust, Frontier(blocks, b2[..k]), b2[k].hash);
      BestUnique(checks, s, blocks, trust, cands, b1[k].hash, b2[k].hash);
      assert b1[k] == blocks[b1[k].hash] == b2[k];
      PrefixGrows(b1, b2, k);
    }
  }

  /** Two sequences agreeing up to `k` and at `k` agree up to `k + 1`. */
  lemma PrefixGrows<T>(a: seq<T>, b: seq<T>, k: nat)
    requires k < |a| && k < |b| && a[..k] == b[..k] && a[k] == b[k]
    ensures a[..k + 1] == b[..k + 1]
  {
    assert a[..k + 1] == a[..k] + [a[k]];
    assert b[..k + 1] == b[..k] + [b[k]];
  }

  /** A greedy chain cannot be a proper prefix of another: the longer one's
      next block would have been accepted where the shorter one stopped. */
  lemma StopsBefore<S>(checks: seq<(S, Block) -> bool>, procs: seq<(S, Block) -> S>, s0: S,
                       blocks: Store, trust: map<Hash, int>, short: seq<Block>, long: seq<Block>)
    requires |short| < |long| && short == long[..|short|]
    requires GreedyPrefix(checks, procs, s0, blocks, trust, long, |long|)
    ensures !NonePass(checks, Replay(procs, s0, short), blocks, Frontier(blocks, short))
  {
    var n := |short|;
    assert Best(checks, Replay(procs, s0, long[..n]), blocks, trust, Frontier(blocks, long[..n]), long[n].hash);
  }

  /** The chain walks down the forest: its hashes form a root path, so no
      block is processed twice and the chain is no longer than the store. */
  lemma GreedyChainIsPath<S>(checks: seq<(S, Block) -> bool>, procs: seq<(S, Block) -> S>, s0: S,
                             blocks: Store, trust: map<Hash, int>, built: seq<Block>)
    requires GreedyPrefix(checks, procs, s0, blocks, trust, built, |built|)
    ensures built != [] ==> RootPath(blocks, Hashes(built))
    ensures |built| <= |blocks|
  {
    if built != [] {
      GreedyPrefixPath(checks, procs, s0, blocks, trust, built, |built|);
      assert built[..|built|] == built;
      RootPathBounded(blocks, Hashes(built));
    }
  }

  lemma {:induction false} GreedyPrefixPath<S>(checks: seq<(S, Block) -> bool>, procs: seq<(S, Block) -> S>, s0: S,
                                               blocks: Store, trust: map<Hash, int>, built: seq<Block>, n: nat)
    requires 0 < n <= |built|
    requires GreedyPrefix(checks, procs, s0, blocks, trust, built, n)
    ensures RootPath(blocks, Hashes(built[..n]))
    decreases n
  {
    var k := n - 1;
    assert Best(checks, Replay(procs, s0, built[..k]), blocks, trust, Frontier(blocks, built[..k]), built[k].hash);
    if k == 0 {
      assert Hashes(built[..n]) == [built[0].hash];
    } else {
      GreedyPrefixPath(checks, procs, s0, blocks, trust, built, k);
      var line := Hashes(built[..k]);
      assert Last(line) == built[k - 1].hash;
      assert built[k].hash in Children(blocks, Last(line));
      RootPathChildren(blocks, line);
      assert Hashes(built[..n]) == line + [built[k].hash];
    }
  }

  /** A root path visits distinct stored blocks, so it is no longer than the
      store. */
  lemma RootPathBounded(blocks: Store, line: seq<Hash>)
    requires RootPath(blocks, line)
    ensures |line| <= |blocks|
  {
    DistinctCard(line);
    SubsetCard(Nodes(line), blocks.Keys);
  }

  lemma {:induction false} SubsetCard(a: set<Hash>, b: set<Hash>)
    requires a <= b
    ensures |a| <= |b|
    decreases |a|
  {
    if a != {} {
      var x :| x in a;
      SubsetCard(a - {x}, b - {x});
    }
  }

  lemma {:induction false} DistinctCard(line: seq<Hash>)
    requires forall i, j :: 0 <= i < j < |line| ==> line[i] != line[j]
    ensures |Nodes(line)| == |line|
    decreases |line|
  {
    if line != [] {
      var n := |line| - 1;
      DistinctCard(line[..n]);
      assert Nodes(line) == Nodes(line[..n]) + {line[n]};
      assert line[n] !in Nodes(line[..n]);
    }
  }

  // ---------------------------------------------------------------------
  // The loops of `build`
  // ---------------------------------------------------------------------

  /** `for (var hash in next_blocks) nodes.push(next_blocks[hash])`: lists
      a set of hashes, each once, in an order the model leaves open. */
  method Enumerate(s: set<Hash>) returns (xs: seq<Hash>)
    ensures Nodes(xs) == s
    ensures |xs| == |s|
  {
    xs := [];
    var rest := s;
    while rest != {}
      invariant rest <= s
      invariant forall x :: x in xs <==> x in s && x !in rest
      invariant |xs| + |rest| == |s|
      decreases |rest|
    {
      var x :| x in rest;
      xs := xs + [x];
      rest := rest - {x};
    }
  }

  /** The first `i` ranked nodes were checked and refused in state `s`. */
  ghost predicate Scanned<S>(checks: seq<(S, Block) -> bool>, s: S, blocks: Store, ranked: seq<Hash>, i: nat)
    requires i <= |ranked|
  {
    forall k :: 0 <= k < i ==> ranked[k] in blocks && !Accepts(checks, s, blocks[ranked[k]])
  }

  /** One more ranked node checked and refused. */
  lemma ScannedStep<S>(checks: seq<(S, Block) -> bool>, s: S, blocks: Store, ranked: seq<Hash>, i: nat)
    requires i < |ranked| && Scanned(checks, s, blocks, ranked, i)
    requires ranked[i] in blocks && !Accepts(checks, s, blocks[ranked[i]])
    ensures Scanned(checks, s, blocks, ranked, i + 1)
  {
  }

  /** The invariant of the outer loop of `build`: the chain so far is
      greedy, the state is its replay, and `nodes` is its frontier, or empty
      once nothing in the frontier is accepted. */
  ghost predicate Walk<S>(checks: seq<(S, Block) -> bool>, procs: seq<(S, Block) -> S>, s0: S,
                          blocks: Store, trust: map<Hash, int>, built: seq<Block>, nodes: seq<Hash>, s: S)
  {
    && GreedyPrefix(checks, procs, s0, blocks, trust, built, |built|)
    && s == Replay(procs, s0, built)
    && |built| <= |blocks|
    && (forall k :: 0 <= k < |nodes| ==> nodes[k] in blocks)
    && (nodes != [] ==> Nodes(nodes) == Frontier(blocks, built))
    && (nodes == [] ==> NonePass(checks, s, blocks, Frontier(blocks, built)))
  }

  /** The walk starts from the start blocks, in the initial state. */
  lemma WalkInit<S>(checks: seq<(S, Block) -> bool>, procs: seq<(S, Block) -> S>, s0: S,
                    blocks: Store, trust: map<Hash, int>, starts: seq<Hash>)
    requires Nodes(starts) == StartSet(blocks)
    ensures Walk(checks, procs, s0, blocks, trust, [], starts, s0)
  {
    forall k | 0 <= k < |starts| ensures starts[k] in blocks {
      assert starts[k] in Nodes(starts);
    }
  }

  /** Ranking keeps the length and the nodes' membership in `keys`. */
  lemma RankedIn(trust: map<Hash, int>, nodes: seq<Hash>, keys: set<Hash>)
    requires forall k :: 0 <= k < |nodes| ==> nodes[k] in keys
    ensures |Ranked(trust, nodes)| == |nodes|
    ensures forall k :: 0 <= k < |nodes| ==> Ranked(trust, nodes)[k] in keys
  {
    RankedCorrect(trust, nodes);
    var r := Ranked(trust, nodes);
    assert |r| == |multiset(r)| == |multiset(nodes)| == |nodes|;
    forall k | 0 <= k < |nodes| ensures r[k] in keys {
      assert r[k] in multiset(nodes);
    }
  }

  /** The first accepted node of the ranked frontier is the best one. */
  lemma PickIsBest<S>(checks: seq<(S, Block) -> bool>, s: S, blocks: Store, trust: map<Hash, int>, nodes: seq<Hash>, i: nat)
    requires i < |Ranked(trust, nodes)| && Ranked(trust, nodes)[i] in blocks
    requires Scanned(checks, s, blocks, Ranked(trust, nodes), i)
    requires Accepts(checks, s, blocks[Ranked(trust, nodes)[i]])
    ensures Best(checks, s, blocks, trust, Nodes(nodes), Ranked(trust, nodes)[i])
  {
    var r := Ranked(trust, nodes);
    RankedCorrect(trust, nodes);
    assert r[i] in multiset(r);
    forall q | q in Nodes(nodes) && q in blocks && q != r[i] && Accepts(checks, s, blocks[q])
      ensures Lt(trust, q, r[i])
    {
      assert q in multiset(r);
      var k :| 0 <= k < |r| && r[k] == q;
      if k > i {
        RankedStrictlyBelow(trust, nodes, i, k);
      }
    }
  }

  /** With no ranked node accepted, nothing in the frontier passes. */
  lemma NoneAccepted<S>(checks: seq<(S, Block) -> bool>, s: S, blocks: Store, trust: map<Hash, int>, nodes: seq<Hash>)
    requires Scanned(checks, s, blocks, Ranked(trust, nodes), |Ranked(trust, nodes)|)
    ensures NonePass(checks, s, blocks, Nodes(nodes))
  {
    var r := Ranked(trust, nodes);
    RankedCorrect(trust, nodes);
    forall q | q in Nodes(nodes) && q in blocks ensures !Accepts(checks, s, blocks[q]) {
      assert q in multiset(r);
      var k :| 0 <= k < |r| && r[k] == q;
    }
  }

  /** Taking the `i`-th ranked node, the first accepted one, and moving to
      its children keeps the walk's invariant (`built'` and `s'` are the
      chain and the state after processing it). */
  lemma WalkStep<S>(checks: seq<(S, Block) -> bool>, procs: seq<(S, Block) -> S>, s0: S,
                    blocks: Store, trust: map<Hash, int>, built: seq<Block>, nodes: seq<Hash>, s: S,
                    i: nat, children: seq<Hash>, built': seq<Block>, s': S)
    requires KeyedByHash(blocks)
    requires Walk(checks, procs, s0, blocks, trust, built, nodes, s) && nodes != []
    requires i < |Ranked(trust, nodes)| && Ranked(trust, nodes)[i] in blocks
    requires Scanned(checks, s, blocks, Ranked(trust, nodes), i)
    requires Accepts(checks, s, blocks[Ranked(trust, nodes)[i]])
    requires Nodes(children) == Children(blocks, Ranked(trust, nodes)[i])
    requires built' == built + [blocks[Ranked(trust, nodes)[i]]]
    requires s' == ProcessAll(procs, s, blocks[Ranked(trust, nodes)[i]])
    ensures Walk(checks, procs, s0, blocks, trust, built', children, s')
  {
    var p := Ranked(trust, nodes)[i];
    var b := blocks[p];
    PickIsBest(checks, s, blocks, trust, nodes, i);
    GreedyPrefixExtend(checks, procs, s0, blocks, trust, built, b);
    GreedyChainIsPath(checks, procs, s0, blocks, trust, built + [b]);
    assert Frontier(blocks, built + [b]) == Children(blocks, p);
    forall k | 0 <= k < |children| ensures children[k] in blocks {
      assert children[k] in Nodes(children);
    }
  }

  /** No ranked node accepted: the walk stops with an empty frontier. */
  lemma WalkStop<S>(checks: seq<(S, Block) -> bool>, procs: seq<(S, Block) -> S>, s0: S,
                    blocks: Store, trust: map<Hash, int>, built: seq<Block>, nodes: seq<Hash>, s: S)
    requires Walk(checks, procs, s0, blocks, trust, built, nodes, s) && nodes != []
    requires Scanned(checks, s, blocks, Ranked(trust, nodes), |Ranked(trust, nodes)|)
    ensures Walk(checks, procs, s0, blocks, trust, built, [], s)
  {
    NoneAccepted(checks, s, blocks, trust, nodes);
  }
}
