/** `ORDER BY rank, id`: the rows of a set in strictly ascending (rank, id) order. */
module Ordering {
  predicate Before(rank: map<nat, int>, a: nat, b: nat)
    requires a in rank && b in rank
  {
    rank[a] < rank[b] || (rank[a] == rank[b] && a < b)
  }

  predicate IsFirst(rank: map<nat, int>, ids: set<nat>, m: nat)
    requires ids <= rank.Keys
  {
    m in ids && forall x :: x in ids && x != m ==> Before(rank, m, x)
  }

  lemma FirstExists(rank: map<nat, int>, ids: set<nat>)
    requires ids <= rank.Keys && ids != {}
    ensures exists m :: IsFirst(rank, ids, m)
    decreases |ids|
  {
    var x :| x in ids;
    var rest := ids - {x};
    assert forall z :: z in ids ==> z == x || z in rest;
    if rest == {} {
      assert IsFirst(rank, ids, x);
    } else {
      FirstExists(rank, rest);
      var y :| IsFirst(rank, rest, y);
      assert IsFirst(rank, ids, if Before(rank, x, y) then x else y);
    }
  }

  function First(rank: map<nat, int>, ids: set<nat>): (m: nat)
    requires ids <= rank.Keys && ids != {}
    ensures IsFirst(rank, ids, m)
  {
    FirstExists(rank, ids);
    var m :| m in ids && IsFirst(rank, ids, m);
    m
  }

  ghost predicate Ascending(rank: map<nat, int>, s: seq<nat>)
    requires forall i :: 0 <= i < |s| ==> s[i] in rank
  {
    forall i, j :: 0 <= i < j < |s| ==> Before(rank, s[i], s[j])
  }

  function InOrder(rank: map<nat, int>, ids: set<nat>): (s: seq<nat>)
    requires ids <= rank.Keys
    ensures |s| == |ids|
    ensures forall x :: x in s <==> x in ids
    ensures Ascending(rank, s)
    decreases |ids|
  {
    if ids == {} then []
    else
      var m := First(rank, ids);
      [m] + InOrder(rank, ids - {m})
  }

  /** The order determines the sequence: any ascending listing of the set is this one. */
  lemma {:induction false} InOrderIsUnique(rank: map<nat, int>, ids: set<nat>, s: seq<nat>)
    requires ids <= rank.Keys
    requires forall x :: x in s <==> x in ids
    requires Ascending(rank, s)
    ensures s == InOrder(rank, ids)
    decreases |ids|
  {
    HeadIsIn(s);
    if ids == {} {
      assert s == [];
    } else {
      var m := First(rank, ids);
      InOrderStartsWith(rank, ids, m);
      FirstIsHead(rank, ids, s, m);
      TailOfAscending(rank, s);
      hide First, Ascending, Before, InOrder;
      TailMembers(s);
      InOrderIsUnique(rank, ids - {m}, s[1..]);
      assert s == [m] + s[1..];
    }
  }

  lemma InOrderStartsWith(rank: map<nat, int>, ids: set<nat>, m: nat)
    requires ids <= rank.Keys && ids != {} && m == First(rank, ids)
    ensures InOrder(rank, ids) == [m] + InOrder(rank, ids - {m})
  {
    hide First;
  }

  lemma TailMembers(s: seq<nat>)
    requires s != []
    ensures forall x :: x in s <==> x == s[0] || x in s[1..]
  {
    assert s == [s[0]] + s[1..];
  }

  lemma HeadIsIn(s: seq<nat>)
    ensures s != [] ==> s[0] in s
  {
  }

  lemma FirstIsHead(rank: map<nat, int>, ids: set<nat>, s: seq<nat>, m: nat)
    requires ids <= rank.Keys && (forall x :: x in s <==> x in ids) && Ascending(rank, s) && IsFirst(rank, ids, m)
    ensures s != [] && s[0] == m
  {
    var k :| 0 <= k < |s| && s[k] == m;
    if k > 0 {
      assert Before(rank, s[0], s[k]) && s[0] in ids;
    }
  }

  lemma TailOfAscending(rank: map<nat, int>, s: seq<nat>)
    requires s != [] && (forall x :: x in s ==> x in rank) && Ascending(rank, s)
    ensures Ascending(rank, s[1..]) && s[0] !in s[1..]
  {
    assert forall i :: 0 <= i < |s| - 1 ==> s[1..][i] == s[i + 1] && Before(rank, s[0], s[i + 1]);
  }

  /** `chosen` are the n first of `ids` (all of them when there are fewer). */
  ghost predicate Oldest(rank: map<nat, int>, ids: set<nat>, chosen: set<nat>, n: nat)
    requires ids <= rank.Keys
  {
    && chosen <= ids
    && |chosen| == (if n < |ids| then n else |ids|)
    && forall d, r :: d in chosen && r in ids && r !in chosen ==> Before(rank, d, r)
  }

  /** `ORDER BY rank, id LIMIT n` as a set. */
  function FirstN(rank: map<nat, int>, ids: set<nat>, n: nat): (chosen: set<nat>)
    requires ids <= rank.Keys
    ensures Oldest(rank, ids, chosen, n)
  {
    if n == 0 || ids == {} then {}
    else
      var m := First(rank, ids);
      {m} + FirstN(rank, ids - {m}, n - 1)
  }

  lemma OldestComeFirst(rank: map<nat, int>, ids: set<nat>, chosen: set<nat>, n: nat, d: nat, r: nat)
    requires ids <= rank.Keys && Oldest(rank, ids, chosen, n)
    requires d in chosen && r in ids && r !in chosen
    ensures Before(rank, d, r)
  {
  }

  /** Of two different sets of one size, each holds something the other lacks. */
  lemma SameSizeDiffers(a: set<nat>, b: set<nat>)
    requires |a| == |b|
    ensures a == b || exists x :: x in a && x !in b
  {
    if forall x :: x in a ==> x in b {
      assert a <= b;
      assert |b - a| == |b| - |a|;
    }
  }

  /** Being the oldest n determines the set. */
  lemma OldestIsUnique(rank: map<nat, int>, ids: set<nat>, a: set<nat>, b: set<nat>, n: nat)
    requires ids <= rank.Keys && Oldest(rank, ids, a, n) && Oldest(rank, ids, b, n)
    ensures a == b
  {
    SameSizeDiffers(a, b);
    SameSizeDiffers(b, a);
    if a != b {
      var x :| x in a && x !in b;
      var y :| y in b && y !in a;
      OldestComeFirst(rank, ids, a, n, x, y);
      OldestComeFirst(rank, ids, b, n, y, x);
    }
  }

  lemma SubsetSize(a: set<nat>, b: set<nat>)
    requires a <= b
    ensures |a| <= |b| && |b - a| == |b| - |a|
  {
    assert b == a + (b - a);
  }
}
