/** The application callbacks and what running them amounts to.

    The chain's state is opaque to the library: a type parameter `S`. A check
    callback is asked whether a block is valid in a state; a process callback
    turns a state and a block into the next state (the source mutates the
    state object in place); a build callback runs before (`true`) and after
    (`false`) every rebuild. */
module Pipeline {
  import opened Blocks

  /** `checkBlock`: at least one check callback, and every one accepts. */
  predicate Accepts<S>(checks: seq<(S, Block) -> bool>, s: S, b: Block) {
    |checks| > 0 && forall i :: 0 <= i < |checks| ==> checks[i](s, b)
  }

  /** `check_block`, the base check every chain starts with: accepts all. */
  function BaseCheck<S>(s: S, b: Block): bool {
    true
  }

  /** `processBlock`: the process callbacks in registration order. */
  function ProcessAll<S>(procs: seq<(S, Block) -> S>, s: S, b: Block): S
    decreases |procs|
  {
    if procs == [] then s
    else
      var n := |procs| - 1;
      procs[n](ProcessAll(procs[..n], s, b), b)
  }

  /** The build callbacks in registration order, with the `pre` flag. */
  function RunHooks<S>(hooks: seq<(S, bool) -> S>, s: S, pre: bool): S
    decreases |hooks|
  {
    if hooks == [] then s
    else
      var n := |hooks| - 1;
      hooks[n](RunHooks(hooks[..n], s, pre), pre)
  }

  /** The state after processing the blocks `bs` in order, starting at `s0`. */
  function Replay<S>(procs: seq<(S, Block) -> S>, s0: S, bs: seq<Block>): S
    decreases |bs|
  {
    if bs == [] then s0
    else
      var n := |bs| - 1;
      ProcessAll(procs, Replay(procs, s0, bs[..n]), bs[n])
  }

  /** The chain always holds the base check, so `checkBlock` accepts exactly
      what the callbacks registered after it accept. */
  lemma AcceptsWithBase<S>(user: seq<(S, Block) -> bool>, s: S, b: Block)
    ensures Accepts([BaseCheck] + user, s, b) <==> (forall i :: 0 <= i < |user| ==> user[i](s, b))
  {
    var all := [BaseCheck] + user;
    if forall i :: 0 <= i < |user| ==> user[i](s, b) {
      forall i | 0 <= i < |all| ensures all[i](s, b) {
        if i > 0 {
          assert all[i] == user[i - 1];
        }
      }
    } else {
      var i :| 0 <= i < |user| && !user[i](s, b);
      assert all[i + 1] == user[i];
    }
  }

  /** With no check callback at all, every block is rejected. */
  lemma NoChecksRejects<S>(s: S, b: Block)
    ensures !Accepts([], s, b)
  {
  }

  /** `addCheckCallback`: a registered check narrows acceptance to the
      blocks the new callback accepts too. */
  lemma AcceptsAppend<S>(checks: seq<(S, Block) -> bool>, c: (S, Block) -> bool, s: S, b: Block)
    requires |checks| > 0
    ensures Accepts(checks + [c], s, b) <==> Accepts(checks, s, b) && c(s, b)
  {
    var all := checks + [c];
    if Accepts(checks, s, b) && c(s, b) {
      forall i | 0 <= i < |all| ensures all[i](s, b) {
        if i < |checks| {
          assert all[i] == checks[i];
        }
      }
    }
    if Accepts(all, s, b) {
      forall i | 0 <= i < |checks| ensures checks[i](s, b) {
        assert all[i] == checks[i];
      }
      assert all[|checks|] == c;
    }
  }

  /** `addProcessCallback`: a registered process callback runs after all
      earlier ones, on the state they produced. */
  lemma ProcessAllAppend<S>(procs: seq<(S, Block) -> S>, p: (S, Block) -> S, s: S, b: Block)
    ensures ProcessAll(procs + [p], s, b) == p(ProcessAll(procs, s, b), b)
  {
    assert (procs + [p])[..|procs|] == procs;
  }

  /** `addBuildCallback`: a registered build callback runs after all earlier
      ones, on the state they produced. */
  lemma RunHooksAppend<S>(hooks: seq<(S, bool) -> S>, h: (S, bool) -> S, s: S, pre: bool)
    ensures RunHooks(hooks + [h], s, pre) == h(RunHooks(hooks, s, pre), pre)
  {
    assert (hooks + [h])[..|hooks|] == hooks;
  }

  /** Processing a longer chain continues from the state of its prefix. */
  lemma {:induction false} ReplayAppend<S>(procs: seq<(S, Block) -> S>, s0: S, bs: seq<Block>, cs: seq<Block>)
    ensures Replay(procs, s0, bs + cs) == Replay(procs, Replay(procs, s0, bs), cs)
    decreases |cs|
  {
    if cs == [] {
      assert bs + cs == bs;
    } else {
      var n := |cs| - 1;
      assert (bs + cs)[..|bs| + n] == bs + cs[..n];
      ReplayAppend(procs, s0, bs, cs[..n]);
    }
  }

  /** Processing with no process callback leaves the state as it is. */
  lemma {:induction false} ReplayWithoutProcessors<S>(s0: S, bs: seq<Block>)
    ensures Replay([], s0, bs) == s0
    decreases |bs|
  {
    if bs != [] {
      ReplayWithoutProcessors(s0, bs[..|bs| - 1]);
    }
  }
}
