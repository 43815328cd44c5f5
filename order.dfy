/** The frontier order of the linearizer.

    The build loop sorts the frontier by trust ascending, breaking ties by
    ascending hash, and then reverses it, so that the most trusted block comes
    first and, among equally trusted blocks, the greatest hash comes first.
    Hashes are compared as JavaScript compares strings: lexicographically. */
module Order {
  import opened Blocks

  /** JavaScript's `a < b` on strings: lexicographic, a proper prefix first. */
  predicate LexLess(a: string, b: string)
    decreases |a|
  {
    if |a| == 0 then |b| > 0
    else if |b| == 0 then false
    else if a[0] != b[0] then a[0] < b[0]
    else LexLess(a[1..], b[1..])
  }

  lemma {:induction false} LexIrreflexive(a: string)
    ensures !LexLess(a, a)
    decreases |a|
  {
    if |a| > 0 {
      LexIrreflexive(a[1..]);
    }
  }

  lemma {:induction false} LexAsymmetric(a: string, b: string)
    requires LexLess(a, b)
    ensures !LexLess(b, a)
    decreases |a|
  {
    if |a| > 0 && |b| > 0 && a[0] == b[0] {
      LexAsymmetric(a[1..], b[1..]);
    }
  }

  lemma {:induction false} LexTransitive(a: string, b: string, c: string)
    requires LexLess(a, b) && LexLess(b, c)
    ensures LexLess(a, c)
    decreases |a|
  {
    if |a| > 0 && a[0] == b[0] && b[0] == c[0] {
      LexTransitive(a[1..], b[1..], c[1..]);
    }
  }

  /** Two different strings are always ordered one way or the other. */
  lemma {:induction false} LexTotal(a: string, b: string)
    requires a != b
    ensures LexLess(a, b) || LexLess(b, a)
    decreases |a|
  {
    if |a| > 0 && |b| > 0 && a[0] == b[0] {
      assert a == [a[0]] + a[1..] && b == [b[0]] + b[1..];
      LexTotal(a[1..], b[1..]);
    }
  }

  /** The trust a node carries in the sort (every ponderated block has one). */
  function TrustOf(trust: map<Hash, int>, h: Hash): int {
    if h in trust then trust[h] else 0
  }

  /** The ordering the comparator at the sort intends: trust ascending, then
      hash ascending. */
  predicate Lt(trust: map<Hash, int>, a: Hash, b: Hash) {
    TrustOf(trust, a) < TrustOf(trust, b)
    || (TrustOf(trust, a) == TrustOf(trust, b) && LexLess(a, b))
  }

  lemma LtIrreflexive(trust: map<Hash, int>, a: Hash)
    ensures !Lt(trust, a, a)
  {
    LexIrreflexive(a);
  }

  lemma LtAsymmetric(trust: map<Hash, int>, a: Hash, b: Hash)
    requires Lt(trust, a, b)
    ensures !Lt(trust, b, a)
  {
    if TrustOf(trust, a) == TrustOf(trust, b) {
      LexAsymmetric(a, b);
    }
  }

  lemma LtTransitive(trust: map<Hash, int>, a: Hash, b: Hash, c: Hash)
    requires Lt(trust, a, b) && Lt(trust, b, c)
    ensures Lt(trust, a, c)
  {
    if TrustOf(trust, a) == TrustOf(trust, b) == TrustOf(trust, c) {
      LexTransitive(a, b, c);
    }
  }

  /** On distinct hashes the order is total, so a sorted frontier is unique. */
  lemma LtTotal(trust: map<Hash, int>, a: Hash, b: Hash)
    requires a != b
    ensures Lt(trust, a, b) || Lt(trust, b, a)
  {
    LexTotal(a, b);
  }

  /** "not after": the reflexive closure of Lt, which is transitive too. */
  lemma NotLtTransitive(trust: map<Hash, int>, a: Hash, b: Hash, c: Hash)
    requires !Lt(trust, b, a) && !Lt(trust, c, b)
    ensures !Lt(trust, c, a)
  {
    if Lt(trust, c, a) {
      if b == a {
      } else if b == c {
      } else {
        LtTotal(trust, a, b);
        LtTotal(trust, b, c);
        LtTransitive(trust, a, b, c);
        LtAsymmetric(trust, c, a);
      }
    }
  }

  // ---------------------------------------------------------------------
  // Sorting the frontier
  // ---------------------------------------------------------------------

  predicate Ascending(trust: map<Hash, int>, s: seq<Hash>) {
    forall i, j :: 0 <= i < j < |s| ==> !Lt(trust, s[j], s[i])
  }

  predicate Descending(trust: map<Hash, int>, s: seq<Hash>) {
    forall i, j :: 0 <= i < j < |s| ==> !Lt(trust, s[i], s[j])
  }

  function Insert(trust: map<Hash, int>, x: Hash, s: seq<Hash>): seq<Hash> {
    if s == [] then [x]
    else if !Lt(trust, s[0], x) then [x] + s
    else [s[0]] + Insert(trust, x, s[1..])
  }

  /** `nodes.sort(...)` under the intended comparator (insertion sort). */
  function SortAscending(trust: map<Hash, int>, s: seq<Hash>): seq<Hash> {
    if s == [] then [] else Insert(trust, s[0], SortAscending(trust, s[1..]))
  }

  function Reverse(s: seq<Hash>): (r: seq<Hash>)
    ensures |r| == |s|
    ensures forall i :: 0 <= i < |s| ==> r[i] == s[|s| - 1 - i]
  {
    if s == [] then [] else Reverse(s[1..]) + [s[0]]
  }

  /** `nodes.sort(...); nodes.reverse()`: trustables first. */
  function Ranked(trust: map<Hash, int>, nodes: seq<Hash>): seq<Hash> {
    Reverse(SortAscending(trust, nodes))
  }

  lemma {:induction false} InsertMultiset(trust: map<Hash, int>, x: Hash, s: seq<Hash>)
    ensures multiset(Insert(trust, x, s)) == multiset(s) + multiset{x}
    decreases |s|
  {
    if s != [] && Lt(trust, s[0], x) {
      InsertMultiset(trust, x, s[1..]);
      assert s == [s[0]] + s[1..];
    }
  }

  /** Putting in front of an ascending list a node no element is below
      keeps it ascending. */
  lemma ConsAscending(trust: map<Hash, int>, y: Hash, t: seq<Hash>)
    requires Ascending(trust, t)
    requires forall k :: 0 <= k < |t| ==> !Lt(trust, t[k], y)
    ensures Ascending(trust, [y] + t)
  {
    var r := [y] + t;
    forall i, j | 0 <= i < j < |r| ensures !Lt(trust, r[j], r[i]) {
      assert r[j] == t[j - 1];
      if i > 0 {
        assert r[i] == t[i - 1];
      }
    }
  }

  lemma AscendingTail(trust: map<Hash, int>, s: seq<Hash>)
    requires Ascending(trust, s) && s != []
    ensures Ascending(trust, s[1..])
  {
    forall i, j | 0 <= i < j < |s| - 1 ensures !Lt(trust, s[1..][j], s[1..][i]) {
      assert s[1..][j] == s[j + 1] && s[1..][i] == s[i + 1];
    }
  }

  lemma {:induction false} InsertSorted(trust: map<Hash, int>, x: Hash, s: seq<Hash>)
    requires Ascending(trust, s)
    ensures multiset(Insert(trust, x, s)) == multiset(s) + multiset{x}
    ensures Ascending(trust, Insert(trust, x, s))
    decreases |s|
  {
    InsertMultiset(trust, x, s);
    if s == [] {
    } else if !Lt(trust, s[0], x) {
      forall k | 0 <= k < |s| ensures !Lt(trust, s[k], x) {
        if k > 0 {
          NotLtTransitive(trust, x, s[0], s[k]);
        }
      }
      ConsAscending(trust, x, s);
    } else {
      var t := Insert(trust, x, s[1..]);
      AscendingTail(trust, s);
      InsertSorted(trust, x, s[1..]);
      LtAsymmetric(trust, s[0], x);
      forall k | 0 <= k < |t| ensures !Lt(trust, t[k], s[0]) {
        assert t[k] in multiset(s[1..]) + multiset{x};
        if t[k] != x {
          assert t[k] in s[1..];
          var m :| 0 <= m < |s| - 1 && s[1..][m] == t[k];
          assert s[m + 1] == t[k];
        }
      }
      ConsAscending(trust, s[0], t);
    }
  }

  /** The sort returns the same nodes in ascending order. */
  lemma {:induction false} SortAscendingCorrect(trust: map<Hash, int>, s: seq<Hash>)
    ensures multiset(SortAscending(trust, s)) == multiset(s)
    ensures Ascending(trust, SortAscending(trust, s))
    decreases |s|
  {
    if s != [] {
      SortAscendingCorrect(trust, s[1..]);
      InsertSorted(trust, s[0], SortAscending(trust, s[1..]));
      assert s == [s[0]] + s[1..];
    }
  }

  lemma {:induction false} ReverseMultiset(s: seq<Hash>)
    ensures multiset(Reverse(s)) == multiset(s)
    decreases |s|
  {
    if s != [] {
      ReverseMultiset(s[1..]);
      assert s == [s[0]] + s[1..];
    }
  }

  lemma ReverseDescending(trust: map<Hash, int>, a: seq<Hash>)
    requires Ascending(trust, a)
    ensures Descending(trust, Reverse(a))
  {
    var r := Reverse(a);
    forall i, j | 0 <= i < j < |r| ensures !Lt(trust, r[i], r[j]) {
      assert r[i] == a[|a| - 1 - i] && r[j] == a[|a| - 1 - j];
    }
  }

  /** The ranked frontier holds the same nodes, most trusted first and, on a
      trust tie, greatest hash first. */
  lemma RankedCorrect(trust: map<Hash, int>, nodes: seq<Hash>)
    ensures multiset(Ranked(trust, nodes)) == multiset(nodes)
    ensures Descending(trust, Ranked(trust, nodes))
  {
    var a := SortAscending(trust, nodes);
    SortAscendingCorrect(trust, nodes);
    ReverseMultiset(a);
    ReverseDescending(trust, a);
  }

  /** A block ranked after another distinct block is strictly below it. */
  lemma RankedStrictlyBelow(trust: map<Hash, int>, nodes: seq<Hash>, i: nat, j: nat)
    requires i < j < |Ranked(trust, nodes)|
    requires Ranked(trust, nodes)[i] != Ranked(trust, nodes)[j]
    ensures Lt(trust, Ranked(trust, nodes)[j], Ranked(trust, nodes)[i])
  {
    RankedCorrect(trust, nodes);
    LtTotal(trust, Ranked(trust, nodes)[i], Ranked(trust, nodes)[j]);
  }

  // ---------------------------------------------------------------------
  // The comparator as the source writes it
  // ---------------------------------------------------------------------

  /** The comparator passed to `Array.prototype.sort` returns a boolean, which
      the sort converts to the number 1 (true) or 0 (false). Its sign is the
      reverse of the intended one: it answers "a after b" exactly when a ranks
      below b, and it never answers with a negative number. */
  function ComparatorAsWritten(trust: map<Hash, int>, a: Hash, b: Hash): int {
    if Lt(trust, a, b) then 1 else 0
  }

  /** The boolean comparator is not a consistent comparison: for two nodes
      ordered a before b it answers "a after b" (a positive number) one way and
      "equal" (zero) the other way, where a consistent comparator answers with
      opposite signs. Two equally trusted frontier nodes "a" and "b" show it. */
  lemma ComparatorAsWrittenInconsistent()
    ensures var trust := map["a" := 1, "b" := 1];
      ComparatorAsWritten(trust, "a", "b") > 0 && ComparatorAsWritten(trust, "b", "a") == 0
  {
    var trust := map["a" := 1, "b" := 1];
    assert LexLess("a", "b");
    LtAsymmetric(trust, "a", "b");
  }

  /** One step of the sort as the engine runs it on a short array: the next
      element is compared with the sorted prefix from the right, and it moves
      left past an element only when the comparator answers negative. */
  function InsertFromRight(trust: map<Hash, int>, x: Hash, s: seq<Hash>): seq<Hash> {
    if s == [] then [x]
    else if ComparatorAsWritten(trust, x, s[|s| - 1]) < 0 then
      InsertFromRight(trust, x, s[..|s| - 1]) + [s[|s| - 1]]
    else s + [x]
  }

  /** `nodes.sort(...)` with the comparator as written. */
  function SortAsWritten(trust: map<Hash, int>, s: seq<Hash>): seq<Hash> {
    if s == [] then []
    else InsertFromRight(trust, s[|s| - 1], SortAsWritten(trust, s[..|s| - 1]))
  }

  /** `nodes.sort(...); nodes.reverse()` with the comparator as written. */
  function RankedAsWritten(trust: map<Hash, int>, nodes: seq<Hash>): seq<Hash> {
    Reverse(SortAsWritten(trust, nodes))
  }

  /** With no negative answer nothing ever moves: the sort leaves the
      frontier as it found it, whatever the trusts. */
  lemma {:induction false} SortAsWrittenKeepsOrder(trust: map<Hash, int>, s: seq<Hash>)
    ensures SortAsWritten(trust, s) == s
    decreases |s|
  {
    if s != [] {
      var init := s[..|s| - 1];
      SortAsWrittenKeepsOrder(trust, init);
      assert init + [s[|s| - 1]] == s;
    }
  }

  /** So the ranking the code produces is the frontier in reverse order,
      whatever the trusts. */
  lemma RankedAsWrittenReversed(trust: map<Hash, int>, nodes: seq<Hash>)
    ensures RankedAsWritten(trust, nodes) == Reverse(nodes)
  {
    SortAsWrittenKeepsOrder(trust, nodes);
  }

  lemma ReversePair(x: Hash, y: Hash)
    ensures Reverse([x, y]) == [y, x]
  {
    assert [x, y][1..] == [y];
    assert Reverse([y]) == [y];
  }

  /** The intended ranking of a two-node frontier puts the more trusted node
      first, whichever order the frontier came in. */
  lemma RankedPair(trust: map<Hash, int>, x: Hash, y: Hash)
    requires TrustOf(trust, x) < TrustOf(trust, y)
    ensures Ranked(trust, [y, x]) == [y, x]
  {
    assert [y, x][1..] == [x];
    assert SortAscending(trust, [x]) == [x] by {
      assert Insert(trust, x, []) == [x];
    }
    assert Insert(trust, y, [x]) == [x, y] by {
      assert Insert(trust, y, []) == [y];
    }
    ReversePair(x, y);
  }

  /** A frontier ["b", "a"] where "b" is trusted more than "a": the code ranks
      the less trusted "a" first, while the intended ranking puts "b" first. */
  lemma RankedAsWrittenLeastTrustedFirst()
    ensures var trust := map["a" := 1, "b" := 2];
      RankedAsWritten(trust, ["b", "a"]) == ["a", "b"]
      && Ranked(trust, ["b", "a"]) == ["b", "a"]
  {
    var trust := map["a" := 1, "b" := 2];
    RankedAsWrittenReversed(trust, ["b", "a"]);
    ReversePair("b", "a");
    RankedPair(trust, "a", "b");
  }
}
