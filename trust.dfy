/** The trust weight `recursive_ponderate` gives every block reachable from a
    start.

    A block's trust is 1 plus:
    - nothing, when it has no child;
    - its child's trust, when it has exactly one child; the owner set is
      shared down such a straight line;
    - the largest trust among its children times the number of distinct
      owners seen on its line (from the line's first block down to and
      including the fork block), when it has several children; every child of
      a fork starts a new line with an empty owner set.

    `line` is the root path that leads to the block (its last element);
    `seen` is the set of owners of the earlier blocks of the block's line. */
module Ponderation {
  import opened Blocks
  import opened Graph

  /** The value `recursive_ponderate(block, user_dict)` stores in
      `block.trust`. */
  ghost function Trust(blocks: Store, line: seq<Hash>, seen: set<Owner>): (t: nat)
    requires line != [] && Last(line) in blocks
    decreases Unvisited(blocks, line), 1, 0
    ensures t >= 1
    ensures t == 1 <==> ChildrenOff(blocks, line) == {}
  {
    var owners := seen + {blocks[Last(line)].owner};
    var kids := ChildrenOff(blocks, line);
    if kids == {} then 1
    else if |kids| == 1 then
      var c :| c in kids;
      DescendShrinks(blocks, line, c);
      1 + Trust(blocks, line + [c], owners)
    else
      var m := MaxTrust(blocks, line, kids);
      MulAtLeastOne(m, |owners|);
      1 + m * |owners|
  }

  /** The largest trust among the children `kids` of a fork (0 for none),
      each child weighed with a fresh owner set: the `max` of the fork loop. */
  ghost function MaxTrust(blocks: Store, line: seq<Hash>, kids: set<Hash>): (m: nat)
    requires line != [] && Last(line) in blocks && kids <= ChildrenOff(blocks, line)
    decreases Unvisited(blocks, line), 0, |kids|
    ensures kids == {} <==> m == 0
  {
    if kids == {} then 0
    else
      var c :| c in kids;
      DescendShrinks(blocks, line, c);
      var here := Trust(blocks, line + [c], {});
      var rest := MaxTrust(blocks, line, kids - {c});
      if here >= rest then here else rest
  }

  /** MaxTrust is the maximum: it bounds every child's trust and is the
      trust of one of them. */
  lemma {:induction false} MaxTrustIsMax(blocks: Store, line: seq<Hash>, kids: set<Hash>)
    requires line != [] && Last(line) in blocks && kids <= ChildrenOff(blocks, line)
    ensures forall c :: c in kids ==> Trust(blocks, line + [c], {}) <= MaxTrust(blocks, line, kids)
    ensures kids != {} ==> exists c :: c in kids && Trust(blocks, line + [c], {}) == MaxTrust(blocks, line, kids)
    decreases |kids|
  {
    if kids != {} {
      var c :| c in kids && MaxTrust(blocks, line, kids)
        == (var here := Trust(blocks, line + [c], {});
            var rest := MaxTrust(blocks, line, kids - {c});
            if here >= rest then here else rest);
      MaxTrustIsMax(blocks, line, kids - {c});
    }
  }

  lemma MulAtLeastOne(a: nat, b: nat)
    requires a >= 1 && b >= 1
    ensures a * b >= 1
  {
  }

  /** The owner set passed down to each child: shared along a single-child
      line, fresh below a fork. */
  ghost function ChildSeen(blocks: Store, line: seq<Hash>, seen: set<Owner>): set<Owner>
    requires line != [] && Last(line) in blocks
  {
    if |ChildrenOff(blocks, line)| == 1 then seen + {blocks[Last(line)].owner} else {}
  }

  /** Trust of a block with no child: 1. */
  lemma TrustLeaf(blocks: Store, line: seq<Hash>, seen: set<Owner>)
    requires RootPath(blocks, line) && Children(blocks, Last(line)) == {}
    ensures Trust(blocks, line, seen) == 1
  {
    RootPathChildren(blocks, line);
  }

  /** Trust of a block with a single child: 1 plus the child's trust, the
      child continuing the same line of owners. */
  lemma TrustSingleChild(blocks: Store, line: seq<Hash>, seen: set<Owner>, c: Hash)
    requires RootPath(blocks, line) && Children(blocks, Last(line)) == {c}
    ensures RootPath(blocks, line + [c])
    ensures Trust(blocks, line, seen)
         == 1 + Trust(blocks, line + [c], seen + {blocks[Last(line)].owner})
  {
    RootPathChildren(blocks, line);
    assert ChildrenOff(blocks, line) == {c};
  }

  /** Trust of a fork: 1 plus the largest child trust (each child weighed with
      a fresh owner set) times the number of distinct owners on the line down
      to the fork; the owners below the fork do not count. */
  lemma TrustFork(blocks: Store, line: seq<Hash>, seen: set<Owner>) returns (m: nat)
    requires RootPath(blocks, line) && |Children(blocks, Last(line))| >= 2
    ensures forall c :: c in Children(blocks, Last(line)) ==>
      RootPath(blocks, line + [c]) && Trust(blocks, line + [c], {}) <= m
    ensures exists c :: c in Children(blocks, Last(line)) && Trust(blocks, line + [c], {}) == m
    ensures Trust(blocks, line, seen) == 1 + m * |seen + {blocks[Last(line)].owner}|
  {
    RootPathChildren(blocks, line);
    var kids := ChildrenOff(blocks, line);
    m := MaxTrust(blocks, line, kids);
    MaxTrustIsMax(blocks, line, kids);
  }

  /** Any value that bounds every child's trust and is the trust of one of
      them is the fork's maximum. */
  lemma ForkMax(blocks: Store, line: seq<Hash>, seen: set<Owner>, max: int)
    requires RootPath(blocks, line) && |Children(blocks, Last(line))| >= 2
    requires forall c :: c in Children(blocks, Last(line)) ==> Trust(blocks, line + [c], {}) <= max
    requires exists c :: c in Children(blocks, Last(line)) && Trust(blocks, line + [c], {}) == max
    ensures Trust(blocks, line, seen) == 1 + max * |seen + {blocks[Last(line)].owner}|
  {
    var m := TrustFork(blocks, line, seen);
    var c1 :| c1 in Children(blocks, Last(line)) && Trust(blocks, line + [c1], {}) == max;
    var c2 :| c2 in Children(blocks, Last(line)) && Trust(blocks, line + [c2], {}) == m;
    assert max <= m && m <= max;
    assert m == max;
  }

  /** `StraightLine(blocks, line, n)`: from the last block of `line` hangs a
      single-child chain of exactly `n` blocks, ending in a leaf. */
  ghost predicate StraightLine(blocks: Store, line: seq<Hash>, n: nat)
    requires line != []
    decreases n
  {
    if n <= 1 then n == 1 && Children(blocks, Last(line)) == {}
    else exists c :: Children(blocks, Last(line)) == {c} && StraightLine(blocks, line + [c], n - 1)
  }

  /** An n-block straight chain gets trusts n, n-1, ..., 1 from top to
      bottom, whoever its owners are. */
  lemma {:induction false} TrustStraightLine(blocks: Store, line: seq<Hash>, seen: set<Owner>, n: nat)
    requires RootPath(blocks, line) && StraightLine(blocks, line, n)
    ensures Trust(blocks, line, seen) == n
    decreases n
  {
    if n <= 1 {
      TrustLeaf(blocks, line, seen);
    } else {
      var c :| Children(blocks, Last(line)) == {c} && StraightLine(blocks, line + [c], n - 1);
      TrustSingleChild(blocks, line, seen, c);
      TrustStraightLine(blocks, line + [c], seen + {blocks[Last(line)].owner}, n - 1);
    }
  }

  /** A fork whose children are all leaves weighs 1 + |owners on its line|.
      For a start block this is 2, whoever owns the children: the children's
      owners are not counted. */
  lemma ForkOfLeaves(blocks: Store, line: seq<Hash>, seen: set<Owner>)
    requires RootPath(blocks, line) && |Children(blocks, Last(line))| >= 2
    requires forall c :: c in Children(blocks, Last(line)) ==> Children(blocks, c) == {}
    ensures Trust(blocks, line, seen) == 1 + |seen + {blocks[Last(line)].owner}|
    ensures |line| == 1 && seen == {} ==> Trust(blocks, line, seen) == 2
  {
    var kids := Children(blocks, Last(line));
    forall c | c in kids ensures Trust(blocks, line + [c], {}) == 1 {
      ChildPath(blocks, line, c);
      TrustLeaf(blocks, line + [c], {});
    }
    var c :| c in kids;
    assert Trust(blocks, line + [c], {}) == 1;
    ForkMax(blocks, line, seen, 1);
  }

  /** Owner diversity above a fork multiplies: a single-child block over a
      fork of leaves weighs 2 + |owners of the two blocks|, i.e. 4 when the
      two blocks have different owners. */
  lemma ForkBelowSingleChild(blocks: Store, line: seq<Hash>, b: Hash)
    requires RootPath(blocks, line) && Children(blocks, Last(line)) == {b}
    requires |Children(blocks, b)| >= 2
    requires forall c :: c in Children(blocks, b) ==> Children(blocks, c) == {}
    ensures Trust(blocks, line, {})
         == 2 + |{blocks[Last(line)].owner, blocks[b].owner}|
  {
    TrustSingleChild(blocks, line, {}, b);
    ForkOfLeaves(blocks, line + [b], {blocks[Last(line)].owner});
    assert {} + {blocks[Last(line)].owner} + {blocks[b].owner} == {blocks[Last(line)].owner, blocks[b].owner};
  }

  // ---------------------------------------------------------------------
  // The trust map after ponderation
  // ---------------------------------------------------------------------

  /** Every block of the subtree below `line` holds its trust in `trust`,
      each computed with the owner set of its own line. */
  ghost predicate Pondered(blocks: Store, trust: map<Hash, int>, line: seq<Hash>, seen: set<Owner>)
    requires line != [] && Last(line) in blocks
    decreases Unvisited(blocks, line)
  {
    DescendAllShrink(blocks, line);
    && Last(line) in trust
    && trust[Last(line)] == Trust(blocks, line, seen)
    && forall c :: c in ChildrenOff(blocks, line) ==>
         Pondered(blocks, trust, line + [c], ChildSeen(blocks, line, seen))
  }

  /** Pondered only depends on the entries of the subtree below `line`. */
  lemma {:induction false} PonderedFrame(blocks: Store, t1: map<Hash, int>, t2: map<Hash, int>, line: seq<Hash>, seen: set<Owner>)
    requires line != [] && Last(line) in blocks
    requires Pondered(blocks, t1, line, seen)
    requires forall d :: d in Sub(blocks, line) && d in t1 ==> d in t2 && t2[d] == t1[d]
    ensures Pondered(blocks, t2, line, seen)
    decreases Unvisited(blocks, line)
  {
    forall c | c in ChildrenOff(blocks, line)
      ensures Pondered(blocks, t2, line + [c], ChildSeen(blocks, line, seen))
    {
      DescendShrinks(blocks, line, c);
      SubChild(blocks, line, c);
      PonderedFrame(blocks, t1, t2, line + [c], ChildSeen(blocks, line, seen));
    }
  }

  /** A pondered block's children are pondered with the owner set the
      recursion hands them. */
  lemma PonderedChild(blocks: Store, trust: map<Hash, int>, line: seq<Hash>, seen: set<Owner>, c: Hash)
    requires RootPath(blocks, line) && Pondered(blocks, trust, line, seen)
    requires c in Children(blocks, Last(line))
    ensures RootPath(blocks, line + [c])
    ensures c in trust && Pondered(blocks, trust, line + [c], ChildSeen(blocks, line, seen))
  {
    RootPathChildren(blocks, line);
  }

  /** `t2` differs from `t1` at most on the hashes of `s`. */
  ghost predicate AgreeOutside(t1: map<Hash, int>, t2: map<Hash, int>, s: set<Hash>) {
    forall d :: d !in s ==> (d in t1 <==> d in t2) && (d in t1 ==> t2[d] == t1[d])
  }

  /** Ponderating a sibling subtree, or the block above, keeps a pondered
      subtree pondered. */
  lemma PonderedKeptBySibling(blocks: Store, t1: map<Hash, int>, t2: map<Hash, int>, q: seq<Hash>, c: Hash, c2: Hash, seen: set<Owner>)
    requires RootPath(blocks, q + [c]) && RootPath(blocks, q + [c2]) && c != c2
    requires Pondered(blocks, t1, q + [c], seen)
    requires AgreeOutside(t1, t2, Sub(blocks, q + [c2]))
    ensures Pondered(blocks, t2, q + [c], seen)
  {
    SubDisjoint(blocks, q, c, c2);
    PonderedFrame(blocks, t1, t2, q + [c], seen);
  }

  /** The block a recursion starts from is not visited again below a child. */
  lemma ParentNotBelowChild(blocks: Store, line: seq<Hash>, c: Hash)
    requires RootPath(blocks, line) && c in Children(blocks, Last(line))
    ensures Last(line) !in Sub(blocks, line + [c])
  {
    RootPathChildren(blocks, line);
    if Last(line) in Sub(blocks, line + [c]) {
      assert c != Last(line + [c]) || c !in line;
      SubShape(blocks, line + [c], Last(line));
      assert false;
    }
  }

  /** A recursion started at `line` visits the block it starts from. */
  lemma LastInSub(blocks: Store, line: seq<Hash>)
    requires line != []
    ensures Last(line) in Sub(blocks, line)
  {
  }

  /** Setting the trust of the start block, after changes confined to a part
      `s` of the subtree, changes nothing outside the subtree. */
  lemma AgreeAround(blocks: Store, t0: map<Hash, int>, t1: map<Hash, int>, line: seq<Hash>, s: set<Hash>, v: int)
    requires line != [] && s <= Sub(blocks, line)
    requires AgreeOutside(t0[Last(line) := 1], t1, s)
    ensures AgreeOutside(t0, t1[Last(line) := v], Sub(blocks, line))
  {
    LastInSub(blocks, line);
  }

  /** Changes confined to the subtree below a child stay inside the subtree
      of its parent. */
  lemma AgreeBelowChild(blocks: Store, t0: map<Hash, int>, t1: map<Hash, int>, t2: map<Hash, int>, line: seq<Hash>, c: Hash)
    requires RootPath(blocks, line) && c in Children(blocks, Last(line))
    requires AgreeOutside(t0, t1, Sub(blocks, line))
    requires AgreeOutside(t1, t2, Sub(blocks, line + [c]))
    ensures AgreeOutside(t0, t2, Sub(blocks, line))
  {
    RootPathChildren(blocks, line);
    SubChild(blocks, line, c);
  }

  /** A block without children, given trust 1, is pondered. */
  lemma PonderedLeaf(blocks: Store, t: map<Hash, int>, line: seq<Hash>, seen: set<Owner>)
    requires RootPath(blocks, line) && Children(blocks, Last(line)) == {}
    ensures Pondered(blocks, t[Last(line) := 1], line, seen)
  {
    TrustLeaf(blocks, line, seen);
    RootPathChildren(blocks, line);
  }

  /** A single-child block whose child's subtree is pondered with the line's
      owners is pondered once it adds its child's trust to 1. */
  lemma PonderedSingle(blocks: Store, t: map<Hash, int>, line: seq<Hash>, seen: set<Owner>, c: Hash)
    requires RootPath(blocks, line) && Children(blocks, Last(line)) == {c}
    requires Pondered(blocks, t, line + [c], seen + {blocks[Last(line)].owner})
    ensures c in t
    ensures Pondered(blocks, t[Last(line) := 1 + t[c]], line, seen)
  {
    var owners := seen + {blocks[Last(line)].owner};
    assert Last(line + [c]) == c;
    assert c in t && t[c] == Trust(blocks, line + [c], owners);
    TrustSingleChild(blocks, line, seen, c);
    ParentNotBelowChild(blocks, line, c);
    var t' := t[Last(line) := 1 + t[c]];
    PonderedFrame(blocks, t, t', line + [c], owners);
    RootPathChildren(blocks, line);
    assert ChildSeen(blocks, line, seen) == owners;
  }

  /** The children in `ks` of the last block of `line` are pondered in `t`,
      each with a fresh owner set. */
  ghost predicate KidsPondered(blocks: Store, t: map<Hash, int>, line: seq<Hash>, ks: set<Hash>)
    requires line != []
  {
    forall d :: d in ks ==> RootPath(blocks, line + [d]) && Pondered(blocks, t, line + [d], {})
  }

  /** Ponderating one more child of a fork keeps the children done before
      pondered. */
  lemma KidsPonderedStep(blocks: Store, t1: map<Hash, int>, t2: map<Hash, int>, line: seq<Hash>, done: set<Hash>, c: Hash)
    requires RootPath(blocks, line) && done <= Children(blocks, Last(line))
    requires c in Children(blocks, Last(line)) && c !in done
    requires KidsPondered(blocks, t1, line, done)
    requires AgreeOutside(t1, t2, Sub(blocks, line + [c])) && Pondered(blocks, t2, line + [c], {})
    ensures KidsPondered(blocks, t2, line, done + {c})
  {
    RootPathChildren(blocks, line);
    forall d | d in done ensures Pondered(blocks, t2, line + [d], {}) {
      PonderedKeptBySibling(blocks, t1, t2, line, d, c, {});
    }
  }

  /** `max` is the largest trust among the children `done` of the last block
      of `line` (0 when there is none). */
  ghost predicate MaxSoFar(blocks: Store, line: seq<Hash>, done: set<Hash>, max: int)
    requires line != []
  {
    && (done == {} ==> max == 0)
    && (forall d :: d in done && d in blocks ==> Trust(blocks, line + [d], {}) <= max)
    && (done != {} ==> exists d :: d in done && d in blocks && Trust(blocks, line + [d], {}) == max)
  }

  /** The `if(nblock.trust > max) max = nblock.trust` step of the fork
      loop. */
  lemma MaxSoFarStep(blocks: Store, line: seq<Hash>, done: set<Hash>, max: int, c: Hash)
    requires line != [] && MaxSoFar(blocks, line, done, max) && max >= 0 && c in blocks
    ensures var tc := Trust(blocks, line + [c], {});
      MaxSoFar(blocks, line, done + {c}, if tc > max then tc else max)
  {
  }

  /** A fork whose children are all pondered, given 1 plus the largest child
      trust times the number of owners on its line, is pondered. */
  lemma PonderedFork(blocks: Store, t: map<Hash, int>, line: seq<Hash>, seen: set<Owner>, max: int)
    requires RootPath(blocks, line) && |Children(blocks, Last(line))| >= 2
    requires KidsPondered(blocks, t, line, Children(blocks, Last(line)))
    requires MaxSoFar(blocks, line, Children(blocks, Last(line)), max)
    ensures Pondered(blocks, t[Last(line) := 1 + max * |seen + {blocks[Last(line)].owner}|], line, seen)
  {
    RootPathChildren(blocks, line);
    ForkMax(blocks, line, seen, max);
    var t' := t[Last(line) := 1 + max * |seen + {blocks[Last(line)].owner}|];
    forall c | c in Children(blocks, Last(line)) ensures Pondered(blocks, t', line + [c], {}) {
      ParentNotBelowChild(blocks, line, c);
      PonderedFrame(blocks, t, t', line + [c], {});
    }
  }

  // ---------------------------------------------------------------------
  // The steps of `recursive_ponderate`, on the trust map before and after
  // ---------------------------------------------------------------------

  /** A child of the last block of a root path extends it, and the descent
      to it terminates. */
  lemma ChildPath(blocks: Store, line: seq<Hash>, c: Hash)
    requires RootPath(blocks, line) && c in Children(blocks, Last(line))
    ensures RootPath(blocks, line + [c]) && Last(line + [c]) == c
    ensures Unvisited(blocks, line + [c]) < Unvisited(blocks, line)
  {
    RootPathChildren(blocks, line);
    DescendShrinks(blocks, line, c);
  }

  /** The block without children: trust 1, nothing changed outside it. */
  lemma LeafDone(blocks: Store, t0: map<Hash, int>, line: seq<Hash>, seen: set<Owner>)
    requires RootPath(blocks, line) && Children(blocks, Last(line)) == {}
    ensures Pondered(blocks, t0[Last(line) := 1], line, seen)
    ensures AgreeOutside(t0, t0[Last(line) := 1], Sub(blocks, line))
  {
    PonderedLeaf(blocks, t0, line, seen);
    AgreeAround(blocks, t0, t0[Last(line) := 1], line, {}, 1);
  }

  /** The single-child block, once its child's subtree is pondered (`t`),
      adds its child's trust to its own 1. */
  lemma SingleDone(blocks: Store, t0: map<Hash, int>, t: map<Hash, int>, line: seq<Hash>, seen: set<Owner>, c: Hash, v: int)
    requires RootPath(blocks, line) && Children(blocks, Last(line)) == {c}
    requires Pondered(blocks, t, line + [c], seen + {blocks[Last(line)].owner})
    requires AgreeOutside(t0[Last(line) := 1], t, Sub(blocks, line + [c]))
    requires Last(line) in t && c in t && v == t[Last(line)] + t[c]
    ensures Pondered(blocks, t[Last(line) := v], line, seen)
    ensures AgreeOutside(t0, t[Last(line) := v], Sub(blocks, line))
  {
    ParentNotBelowChild(blocks, line, c);
    assert t[Last(line)] == 1;
    PonderedSingle(blocks, t, line, seen, c);
    ChildPath(blocks, line, c);
    SubChild(blocks, line, c);
    AgreeAround(blocks, t0, t, line, Sub(blocks, line + [c]), v);
  }

  /** The fork block, once every child is pondered and `max` is the
      largest child trust, adds `max` times the number of owners on its
      line to its own 1. */
  lemma ForkDone(blocks: Store, t0: map<Hash, int>, t: map<Hash, int>, line: seq<Hash>, seen: set<Owner>, max: int, v: int)
    requires RootPath(blocks, line) && |Children(blocks, Last(line))| >= 2
    requires KidsPondered(blocks, t, line, Children(blocks, Last(line)))
    requires MaxSoFar(blocks, line, Children(blocks, Last(line)), max)
    requires AgreeOutside(t0[Last(line) := 1], t, Sub(blocks, line))
    requires Last(line) in t && t[Last(line)] == 1
    requires v == t[Last(line)] + max * |seen + {blocks[Last(line)].owner}|
    ensures Pondered(blocks, t[Last(line) := v], line, seen)
    ensures AgreeOutside(t0, t[Last(line) := v], Sub(blocks, line))
  {
    PonderedFork(blocks, t, line, seen, max);
    AgreeAround(blocks, t0, t, line, Sub(blocks, line), v);
  }

  /** The invariant of the fork loop: the children `done` are pondered,
      `max` is the largest of their trusts, the fork block still holds 1,
      and nothing outside the fork's subtree changed since `t0`. */
  ghost predicate ForkLoop(blocks: Store, line: seq<Hash>, kids: set<Hash>, pending: set<Hash>, done: set<Hash>,
                           max: int, t0: map<Hash, int>, t: map<Hash, int>)
    requires line != []
  {
    && pending + done == kids && pending !! done
    && KidsPondered(blocks, t, line, done)
    && MaxSoFar(blocks, line, done, max) && max >= 0
    && Last(line) in t && t[Last(line)] == 1
    && AgreeOutside(t0, t, Sub(blocks, line))
  }

  /** The fork loop starts with no child done and `max` 0. */
  lemma ForkLoopInit(blocks: Store, line: seq<Hash>, kids: set<Hash>, t: map<Hash, int>)
    requires line != [] && Last(line) in t && t[Last(line)] == 1
    ensures ForkLoop(blocks, line, kids, kids, {}, 0, t, t)
  {
  }

  /** One iteration of the fork loop: child `c` pondered (`before` to
      `after`), and `max` raised to its trust when that is larger. */
  lemma ForkLoopStep(blocks: Store, line: seq<Hash>, kids: set<Hash>, pending: set<Hash>, done: set<Hash>,
                     max: int, t0: map<Hash, int>, before: map<Hash, int>, after: map<Hash, int>, c: Hash)
    requires RootPath(blocks, line) && kids == Children(blocks, Last(line))
    requires ForkLoop(blocks, line, kids, pending, done, max, t0, before)
    requires c in pending
    requires Pondered(blocks, after, line + [c], {})
    requires AgreeOutside(before, after, Sub(blocks, line + [c]))
    ensures c in after
    ensures ForkLoop(blocks, line, kids, pending - {c}, done + {c},
                     if after[c] > max then after[c] else max, t0, after)
  {
    ChildPath(blocks, line, c);
    ParentNotBelowChild(blocks, line, c);
    KidsPonderedStep(blocks, before, after, line, done, c);
    AgreeBelowChild(blocks, t0, before, after, line, c);
    MaxSoFarStep(blocks, line, done, max, c);
    MoveOne(kids, pending, done, c);
  }

  /** Moving one element from `pending` to `done` keeps them a partition
      of `kids`. */
  lemma MoveOne(kids: set<Hash>, pending: set<Hash>, done: set<Hash>, c: Hash)
    requires pending + done == kids && pending !! done && c in pending
    ensures (pending - {c}) + (done + {c}) == kids && (pending - {c}) !! (done + {c})
  {
  }

  /** The starts `starts[..n]` are pondered, each with an empty owner
      set. */
  ghost predicate StartsPondered(blocks: Store, t: map<Hash, int>, starts: seq<Hash>, n: nat)
    requires n <= |starts|
  {
    forall j :: 0 <= j < n ==> starts[j] in blocks && Pondered(blocks, t, [starts[j]], {})
  }

  /** A start block alone is a root path. */
  lemma StartPath(blocks: Store, s: Hash)
    requires s in StartSet(blocks)
    ensures RootPath(blocks, [s]) && Last([s]) == s
  {
  }

  /** Ponderating the next start keeps the earlier (distinct) starts
      pondered. */
  lemma StartsPonderedStep(blocks: Store, t1: map<Hash, int>, t2: map<Hash, int>, starts: seq<Hash>, i: nat)
    requires i < |starts| && Distinct(starts) && Nodes(starts) == StartSet(blocks)
    requires StartsPondered(blocks, t1, starts, i)
    requires starts[i] in blocks && Pondered(blocks, t2, [starts[i]], {})
    requires AgreeOutside(t1, t2, Sub(blocks, [starts[i]]))
    ensures StartsPondered(blocks, t2, starts, i + 1)
  {
    forall j | 0 <= j < i
      ensures starts[j] in blocks && Pondered(blocks, t2, [starts[j]], {})
    {
      assert starts[j] in Nodes(starts) && starts[i] in Nodes(starts);
      assert [] + [starts[j]] == [starts[j]] && [] + [starts[i]] == [starts[i]];
      PonderedKeptBySibling(blocks, t1, t2, [], starts[j], starts[i], {});
    }
    assert starts[i] in Nodes(starts);
  }

  /** All starts listed means every start block pondered. */
  lemma AllStartsPondered(blocks: Store, t: map<Hash, int>, starts: seq<Hash>)
    requires Nodes(starts) == StartSet(blocks) && StartsPondered(blocks, t, starts, |starts|)
    ensures forall s :: s in StartSet(blocks) ==> Pondered(blocks, t, [s], {})
  {
    forall s | s in StartSet(blocks) ensures Pondered(blocks, t, [s], {}) {
      assert s in Nodes(starts);
      var j :| 0 <= j < |starts| && starts[j] == s;
    }
  }

  // ---------------------------------------------------------------------
  // `recursive_ponderate` itself
  // ---------------------------------------------------------------------

  /** `recursive_ponderate(block, user_dict)` on the trust map `t`: returns
      `t` with the trust of every block below `h` (the last block of the
      root path `line`) stored, `seen` being the owners of the earlier
      blocks of its line. Entries outside that subtree are left as they
      were. */
  method Ponderate(blocks: Store, nextBlocks: map<Hash, set<Hash>>, t: map<Hash, int>,
                   h: Hash, seen: set<Owner>, ghost line: seq<Hash>) returns (trust: map<Hash, int>)
    requires RootPath(blocks, line) && Last(line) == h
    requires ChildLinks(blocks, nextBlocks)
    ensures Pondered(blocks, trust, line, seen)
    ensures AgreeOutside(t, trust, Sub(blocks, line))
    decreases Unvisited(blocks, line), 1
  {
    var owners := seen + {blocks[h].owner};
    trust := t[h := 1];
    if h in nextBlocks {
      var kids := nextBlocks[h];
      if |kids| == 1 {
        var c :| c in kids;
        assert kids == {c} by {
          assert |kids - {c}| == 0;
        }
        ChildPath(blocks, line, c);
        ParentNotBelowChild(blocks, line, c);
        trust := Ponderate(blocks, nextBlocks, trust, c, owners, line + [c]);
        var v := trust[h] + trust[c];
        SingleDone(blocks, t, trust, line, seen, c, v);
        trust := trust[h := v];
      } else {
        var max;
        trust, max := PonderateFork(blocks, nextBlocks, trust, h, kids, line);
        var v := trust[h] + max * |owners|;
        ForkDone(blocks, t, trust, line, seen, max, v);
        trust := trust[h := v];
      }
    } else {
      LeafDone(blocks, t, line, seen);
    }
  }

  /** The fork loop of `recursive_ponderate`: ponderates every child of the
      fork `h` with a fresh owner set and returns the largest child trust
      (`max`). */
  method PonderateFork(blocks: Store, nextBlocks: map<Hash, set<Hash>>, t: map<Hash, int>,
                       h: Hash, kids: set<Hash>, ghost line: seq<Hash>) returns (trust: map<Hash, int>, max: int)
    requires RootPath(blocks, line) && Last(line) == h
    requires ChildLinks(blocks, nextBlocks)
    requires kids == Children(blocks, h)
    requires h in t && t[h] == 1
    ensures h in trust && trust[h] == 1
    ensures KidsPondered(blocks, trust, line, kids)
    ensures MaxSoFar(blocks, line, kids, max)
    ensures AgreeOutside(t, trust, Sub(blocks, line))
    decreases Unvisited(blocks, line), 0
  {
    max := 0;
    trust := t;
    var pending := kids;
    ghost var done: set<Hash> := {};
    ForkLoopInit(blocks, line, kids, trust);
    while pending != {}
      invariant ForkLoop(blocks, line, kids, pending, done, max, t, trust)
      decreases |pending|
    {
      var c :| c in pending;
      ChildPath(blocks, line, c);
      ghost var before := trust;
      trust := Ponderate(blocks, nextBlocks, trust, c, {}, line + [c]);
      ForkLoopStep(blocks, line, kids, pending, done, max, t, before, trust, c);
      if trust[c] > max {
        max := trust[c];
      }
      done := done + {c};
      pending := pending - {c};
    }
  }
}
