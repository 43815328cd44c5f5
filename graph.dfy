/** The block graph that `buildGraph` derives from the global block map.

    Blocks are kept in an arena keyed by hash; a block's parent is the block
    stored under its `prev` hash, and its children are the blocks whose `prev`
    is its hash. A block whose parent is absent is a start. Because a block
    has at most one parent, the part of the graph reachable from the starts is
    a forest; `RootPath` names a path from a start down that forest. */
module Graph {
  import opened Blocks

  type Store = map<Hash, Block>

  /** The hashes `buildGraph` links under `next_blocks` of the block `p`. */
  function Children(blocks: Store, p: Hash): set<Hash> {
    set c | c in blocks && blocks[c].prev == p
  }

  /** Every stored block sits under its own hash. */
  predicate KeyedByHash(blocks: Store) {
    forall h :: h in blocks ==> blocks[h].hash == h
  }

  predicate IsStart(blocks: Store, h: Hash) {
    h in blocks && blocks[h].prev !in blocks
  }

  /** The blocks `buildGraph` records in `starts`. */
  function StartSet(blocks: Store): set<Hash> {
    set h | h in blocks && blocks[h].prev !in blocks
  }

  function Last(line: seq<Hash>): Hash
    requires line != []
  {
    line[|line| - 1]
  }

  function Nodes(line: seq<Hash>): set<Hash> {
    set x | x in line
  }

  /** A path that starts at a start block and follows child links, visiting
      each block once. */
  ghost predicate RootPath(blocks: Store, line: seq<Hash>) {
    && line != []
    && (forall i :: 0 <= i < |line| ==> line[i] in blocks)
    && IsStart(blocks, line[0])
    && (forall i :: 0 < i < |line| ==> blocks[line[i]].prev == line[i - 1])
    && (forall i, j :: 0 <= i < j < |line| ==> line[i] != line[j])
  }

  /** The blocks a descent along `line` has not visited yet (the termination
      measure of every recursion over the forest). */
  function Unvisited(blocks: Store, line: seq<Hash>): set<Hash> {
    blocks.Keys - Nodes(line)
  }

  /** The children of the last block of `line` that are not on `line`. On a
      root path these are all its children (RootPathChildren). */
  function ChildrenOff(blocks: Store, line: seq<Hash>): set<Hash>
    requires line != []
  {
    set c | c in blocks && blocks[c].prev == Last(line) && c !in line
  }

  lemma DescendShrinks(blocks: Store, line: seq<Hash>, c: Hash)
    requires line != [] && c in ChildrenOff(blocks, line)
    ensures Unvisited(blocks, line + [c]) < Unvisited(blocks, line)
  {
    assert c in Unvisited(blocks, line) && c !in Unvisited(blocks, line + [c]);
  }

  /** Visiting one more stored block shrinks the unvisited set. */
  lemma VisitShrinks(blocks: Store, line: seq<Hash>, c: Hash)
    requires c in blocks && c !in line
    ensures Unvisited(blocks, line + [c]) < Unvisited(blocks, line)
  {
    assert c in Unvisited(blocks, line) && c !in Unvisited(blocks, line + [c]);
  }

  lemma DescendAllShrink(blocks: Store, line: seq<Hash>)
    requires line != []
    ensures forall c :: c in ChildrenOff(blocks, line) ==> Unvisited(blocks, line + [c]) < Unvisited(blocks, line)
  {
    forall c | c in ChildrenOff(blocks, line) {
      DescendShrinks(blocks, line, c);
    }
  }

  /** On a root path no child of the last block lies on the path, so the
      path extended by any child is again a root path. */
  lemma RootPathChildren(blocks: Store, line: seq<Hash>)
    requires RootPath(blocks, line)
    ensures ChildrenOff(blocks, line) == Children(blocks, Last(line))
    ensures forall c :: c in Children(blocks, Last(line)) ==> RootPath(blocks, line + [c])
  {
    forall c | c in Children(blocks, Last(line))
      ensures c !in line && RootPath(blocks, line + [c])
    {
      forall i | 0 <= i < |line| ensures line[i] != c {
        if i > 0 {
          assert blocks[line[i]].prev == line[i - 1];
        }
      }
      var l2 := line + [c];
      assert forall i :: 0 < i < |l2| ==> blocks[l2[i]].prev == l2[i - 1] by {
        forall i | 0 < i < |l2| ensures blocks[l2[i]].prev == l2[i - 1] {
          if i < |line| {
            assert l2[i] == line[i] && l2[i - 1] == line[i - 1];
          }
        }
      }
    }
  }

  lemma RootPathPrefix(blocks: Store, line: seq<Hash>, n: nat)
    requires RootPath(blocks, line) && 0 < n <= |line|
    ensures RootPath(blocks, line[..n])
  {
  }

  /** The blocks reached from the last block of `line` by following child
      links off the path: the blocks a recursion started there visits. */
  ghost function Sub(blocks: Store, line: seq<Hash>): set<Hash>
    requires line != []
    decreases Unvisited(blocks, line)
  {
    DescendAllShrink(blocks, line);
    {Last(line)} +
    (set c, d | c in ChildrenOff(blocks, line) && d in Sub(blocks, line + [c]) :: d)
  }

  lemma SubChild(blocks: Store, line: seq<Hash>, c: Hash)
    requires line != [] && c in ChildrenOff(blocks, line)
    ensures Sub(blocks, line + [c]) <= Sub(blocks, line)
  {
  }

  /** Everything a recursion from `line` visits other than its start is a
      stored block off the path, whose parent was visited before it. */
  lemma {:induction false} SubShape(blocks: Store, line: seq<Hash>, d: Hash)
    requires line != [] && d in Sub(blocks, line) && d != Last(line)
    ensures d in blocks && d !in line
    ensures blocks[d].prev in Sub(blocks, line)
    decreases Unvisited(blocks, line)
  {
    var c :| c in ChildrenOff(blocks, line) && d in Sub(blocks, line + [c]);
    DescendShrinks(blocks, line, c);
    SubChild(blocks, line, c);
    if d != c {
      SubShape(blocks, line + [c], d);
    }
  }

  /** Every visited block is the end of a root path through `line`. */
  lemma {:induction false} SubReachedByPath(blocks: Store, line: seq<Hash>, d: Hash) returns (r: seq<Hash>)
    requires RootPath(blocks, line) && d in Sub(blocks, line)
    ensures RootPath(blocks, r) && |line| <= |r| && r[..|line|] == line && Last(r) == d
    decreases Unvisited(blocks, line)
  {
    if d == Last(line) {
      r := line;
    } else {
      var c :| c in ChildrenOff(blocks, line) && d in Sub(blocks, line + [c]);
      DescendShrinks(blocks, line, c);
      RootPathChildren(blocks, line);
      r := SubReachedByPath(blocks, line + [c], d);
      assert r[..|line|] == (r[..|line| + 1])[..|line|];
    }
  }

  /** The end of a root path through `q + [c1]` is not visited from a
      sibling `c2`. */
  lemma {:induction false} NotUnderSibling(blocks: Store, q: seq<Hash>, c1: Hash, c2: Hash, r: seq<Hash>)
    requires RootPath(blocks, q + [c1]) && RootPath(blocks, q + [c2]) && c1 != c2
    requires RootPath(blocks, r) && |q| < |r| && r[..|q| + 1] == q + [c1]
    ensures Last(r) !in Sub(blocks, q + [c2])
    decreases |r|
  {
    var s := q + [c2];
    if Last(r) in Sub(blocks, s) {
      if |r| == |q| + 1 {
        assert Last(r) == c1;
        SubShape(blocks, s, c1);
        if q == [] {
          assert blocks[c1].prev in Sub(blocks, s);
          assert IsStart(blocks, (q + [c1])[0]);
          if blocks[c1].prev != c2 {
            SubShape(blocks, s, blocks[c1].prev);
          }
          assert false;
        } else {
          assert blocks[c1].prev == Last(q) by {
            assert (q + [c1])[|q|] == c1 && (q + [c1])[|q| - 1] == Last(q);
          }
          assert Last(q) != c2 by {
            assert s[|q| - 1] == Last(q) && s[|q|] == c2;
          }
          SubShape(blocks, s, Last(q));
          assert false;
        }
      } else {
        var n := |r| - 1;
        assert r[|q|] == c1;
        assert blocks[r[n]].prev == r[n - 1];
        assert Last(r) != c2 by {
          if q != [] {
            assert blocks[c2].prev == Last(q) by {
              assert s[|q|] == c2 && s[|q| - 1] == Last(q);
            }
            assert r[|q| - 1] == Last(q) by {
              assert (r[..|q| + 1])[|q| - 1] == (q + [c1])[|q| - 1];
            }
          } else {
            assert IsStart(blocks, s[0]);
          }
        }
        SubShape(blocks, s, Last(r));
        var r' := r[..n];
        RootPathPrefix(blocks, r, n);
        assert r'[..|q| + 1] == r[..|q| + 1];
        NotUnderSibling(blocks, q, c1, c2, r');
        assert false;
      }
    }
  }

  /** The recursions started at two distinct children of the same block (or
      at two distinct starts, with `q` empty) visit disjoint sets of blocks. */
  lemma SubDisjoint(blocks: Store, q: seq<Hash>, c1: Hash, c2: Hash)
    requires RootPath(blocks, q + [c1]) && RootPath(blocks, q + [c2]) && c1 != c2
    ensures Sub(blocks, q + [c1]) !! Sub(blocks, q + [c2])
  {
    forall d | d in Sub(blocks, q + [c1])
      ensures d !in Sub(blocks, q + [c2])
    {
      var r := SubReachedByPath(blocks, q + [c1], d);
      assert r[..|q| + 1] == q + [c1];
      NotUnderSibling(blocks, q, c1, c2, r);
    }
  }

  /** The links `buildGraph` records: the parent of every block whose
      parent is stored, the children of every stored block that has any,
      and every start exactly once. */
  ghost predicate Linked(blocks: Store, prevBlock: map<Hash, Hash>, nextBlocks: map<Hash, set<Hash>>, starts: seq<Hash>) {
    && (forall h :: h in prevBlock <==> h in blocks && blocks[h].prev in blocks)
    && (forall h :: h in prevBlock ==> prevBlock[h] == blocks[h].prev)
    && ChildLinks(blocks, nextBlocks)
    && Nodes(starts) == StartSet(blocks)
    && Distinct(starts)
  }

  /** No hash occurs twice. */
  ghost predicate Distinct(hs: seq<Hash>) {
    forall i, j :: 0 <= i < j < |hs| ==> hs[i] != hs[j]
  }

  /** The invariant of the linking loop of `buildGraph`, `pending` being the
      blocks not visited yet: the visited blocks are linked to their parents
      and recorded under them, and the visited starts are listed once. */
  ghost predicate LinkLoop(blocks: Store, pending: set<Hash>, prevBlock: map<Hash, Hash>,
                           nextBlocks: map<Hash, set<Hash>>, starts: seq<Hash>)
  {
    && pending <= blocks.Keys
    && (forall h :: h in prevBlock <==> h in blocks && h !in pending && blocks[h].prev in blocks)
    && (forall h :: h in prevBlock ==> prevBlock[h] == blocks[h].prev)
    && (forall p :: p in nextBlocks <==> p in blocks && LinkedKids(blocks, pending, p) != {})
    && (forall p :: p in nextBlocks ==> nextBlocks[p] == LinkedKids(blocks, pending, p))
    && (forall h :: h in starts <==> h in blocks && h !in pending && blocks[h].prev !in blocks)
    && Distinct(starts)
  }

  /** The visited children of `p`. */
  function LinkedKids(blocks: Store, pending: set<Hash>, p: Hash): set<Hash> {
    set c | c in blocks && c !in pending && blocks[c].prev == p
  }

  /** Nothing is linked before the loop. */
  lemma LinkLoopInit(blocks: Store)
    ensures LinkLoop(blocks, blocks.Keys, map[], map[], [])
  {
  }

  /** A visited block without a stored parent is appended to the starts. */
  lemma LinkStart(blocks: Store, pending: set<Hash>, prevBlock: map<Hash, Hash>,
                  nextBlocks: map<Hash, set<Hash>>, starts: seq<Hash>, starts': seq<Hash>, h: Hash)
    requires LinkLoop(blocks, pending, prevBlock, nextBlocks, starts)
    requires h in pending && blocks[h].prev !in blocks && starts' == starts + [h]
    ensures LinkLoop(blocks, pending - {h}, prevBlock, nextBlocks, starts')
  {
    forall p | p in blocks
      ensures LinkedKids(blocks, pending - {h}, p) == LinkedKids(blocks, pending, p)
    {
      assert h !in LinkedKids(blocks, pending - {h}, p);
    }
  }

  /** A visited block with a stored parent is linked to it and recorded
      among its children, creating the parent's child set when it has
      none. */
  lemma LinkChild(blocks: Store, pending: set<Hash>, prevBlock: map<Hash, Hash>, nextBlocks: map<Hash, set<Hash>>,
                  prevBlock': map<Hash, Hash>, nextBlocks': map<Hash, set<Hash>>, starts: seq<Hash>, h: Hash)
    requires LinkLoop(blocks, pending, prevBlock, nextBlocks, starts)
    requires h in pending && blocks[h].prev in blocks
    requires prevBlock' == prevBlock[h := blocks[h].prev]
    requires nextBlocks' == nextBlocks[blocks[h].prev :=
      (if blocks[h].prev in nextBlocks then nextBlocks[blocks[h].prev] else {}) + {h}]
    ensures LinkLoop(blocks, pending - {h}, prevBlock', nextBlocks', starts)
  {
    KidsRecorded(blocks, pending, nextBlocks, nextBlocks', h);
    ParentRecorded(blocks, pending, prevBlock, prevBlock', h);
    forall g ensures g in starts <==> g in blocks && g !in pending - {h} && blocks[g].prev !in blocks {
    }
  }

  /** The parent-link half of `LinkChild`. */
  lemma ParentRecorded(blocks: Store, pending: set<Hash>, prevBlock: map<Hash, Hash>, prevBlock': map<Hash, Hash>, h: Hash)
    requires forall g :: g in prevBlock <==> g in blocks && g !in pending && blocks[g].prev in blocks
    requires forall g :: g in prevBlock ==> prevBlock[g] == blocks[g].prev
    requires h in pending && h in blocks && blocks[h].prev in blocks
    requires prevBlock' == prevBlock[h := blocks[h].prev]
    ensures forall g :: g in prevBlock' <==> g in blocks && g !in pending - {h} && blocks[g].prev in blocks
    ensures forall g :: g in prevBlock' ==> prevBlock'[g] == blocks[g].prev
  {
  }

  /** The child-set half of `LinkChild`. */
  lemma KidsRecorded(blocks: Store, pending: set<Hash>, nextBlocks: map<Hash, set<Hash>>,
                     nextBlocks': map<Hash, set<Hash>>, h: Hash)
    requires pending <= blocks.Keys
    requires forall p :: p in nextBlocks <==> p in blocks && LinkedKids(blocks, pending, p) != {}
    requires forall p :: p in nextBlocks ==> nextBlocks[p] == LinkedKids(blocks, pending, p)
    requires h in pending && blocks[h].prev in blocks
    requires nextBlocks' == nextBlocks[blocks[h].prev :=
      (if blocks[h].prev in nextBlocks then nextBlocks[blocks[h].prev] else {}) + {h}]
    ensures forall p :: p in nextBlocks' <==> p in blocks && LinkedKids(blocks, pending - {h}, p) != {}
    ensures forall p :: p in nextBlocks' ==> nextBlocks'[p] == LinkedKids(blocks, pending - {h}, p)
  {
    var p := blocks[h].prev;
    KidsGrow(blocks, pending, h);
    assert h in LinkedKids(blocks, pending - {h}, p);
    if p !in nextBlocks {
      assert LinkedKids(blocks, pending, p) == {};
    }
  }

  /** Visiting `h` adds it to the visited children of its parent only. */
  lemma KidsGrow(blocks: Store, pending: set<Hash>, h: Hash)
    requires h in pending && h in blocks
    ensures LinkedKids(blocks, pending - {h}, blocks[h].prev) == LinkedKids(blocks, pending, blocks[h].prev) + {h}
    ensures forall q :: q != blocks[h].prev ==> LinkedKids(blocks, pending - {h}, q) == LinkedKids(blocks, pending, q)
  {
  }

  /** Once every block is visited, the links are those of the whole
      graph. */
  lemma LinkLoopDone(blocks: Store, prevBlock: map<Hash, Hash>, nextBlocks: map<Hash, set<Hash>>, starts: seq<Hash>)
    requires LinkLoop(blocks, {}, prevBlock, nextBlocks, starts)
    ensures Linked(blocks, prevBlock, nextBlocks, starts)
  {
    forall p ensures LinkedKids(blocks, {}, p) == Children(blocks, p) {
    }
    assert Nodes(starts) == StartSet(blocks) by {
      forall h ensures h in Nodes(starts) <==> h in StartSet(blocks) {
      }
    }
  }

  /** `next_blocks`: recorded exactly for the stored blocks that have
      children, and holding those children. */
  ghost predicate ChildLinks(blocks: Store, nextBlocks: map<Hash, set<Hash>>) {
    && (forall p :: p in nextBlocks <==> p in blocks && Children(blocks, p) != {})
    && (forall p :: p in nextBlocks ==> nextBlocks[p] == Children(blocks, p))
  }

  /** A list has no duplicate exactly when no hash occurs in it twice. */
  lemma {:induction false} DistinctCount(hs: seq<Hash>)
    ensures Distinct(hs) <==> forall x :: multiset(hs)[x] <= 1
    decreases |hs|
  {
    if hs != [] {
      var n := |hs| - 1;
      var init := hs[..n];
      DistinctCount(init);
      assert hs == init + [hs[n]];
      assert multiset(hs) == multiset(init) + multiset{hs[n]};
      if Distinct(hs) {
        assert Distinct(init);
        assert hs[n] !in init;
      } else {
        var i, j :| 0 <= i < j < |hs| && hs[i] == hs[j];
        if j < n {
          assert init[i] == init[j];
          var x :| multiset(init)[x] > 1;
          assert multiset(hs)[x] > 1;
        } else {
          assert hs[i] in init;
          assert multiset(hs)[hs[n]] >= 2;
        }
      }
    }
  }

  /** Reordering the start list keeps the links recorded. */
  lemma PermutationKeepsLinked(blocks: Store, prevBlock: map<Hash, Hash>, nextBlocks: map<Hash, set<Hash>>,
                               starts: seq<Hash>, starts': seq<Hash>)
    requires Linked(blocks, prevBlock, nextBlocks, starts)
    requires multiset(starts') == multiset(starts)
    ensures Linked(blocks, prevBlock, nextBlocks, starts')
  {
    DistinctCount(starts);
    DistinctCount(starts');
    assert Nodes(starts') == Nodes(starts) by {
      forall x ensures x in Nodes(starts') <==> x in Nodes(starts) {
        assert x in starts' <==> x in multiset(starts');
        assert x in starts <==> x in multiset(starts);
      }
    }
  }
}
