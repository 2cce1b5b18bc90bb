/**
 Pages of an ordered selection, and when two selections in two orders have the same pages. A page
 holds as many elements as asked for, in order, and leaves none out that must come before one in it.
 */
module Pages {
  import opened Sensors
  import opened Filters
  import opened Queries
  import opened StoreModel

  type Order = (string, string) -> bool

  /** A total preorder on a set: `r(a, b)` says that `a` may stand before `b`. */
  ghost predicate IsOrder(m: set<string>, r: Order) {
    && (forall a, b | a in m && b in m :: r(a, b) || r(b, a))
    && (forall a, b, c | a in m && b in m && c in m && r(a, b) && r(b, c) :: r(a, c))
  }

  ghost predicate IsPage(m: set<string>, r: Order, k: nat, ids: seq<string>) {
    && NoDuplicates(ids) && |ids| == k
    && (forall i | 0 <= i < |ids| :: ids[i] in m)
    && (forall i, j | 0 <= i < j < |ids| :: r(ids[i], ids[j]))
    && (forall i, other | 0 <= i < |ids| && other in m && other !in ids :: r(ids[i], other))
  }

  /** How many elements a page has. */
  function PageSize(m: set<string>, limit: int): nat {
    if 0 < limit < |m| then limit else |m|
  }

  /** The elements that must come before `x`. */
  function Below(m: set<string>, r: Order, x: string): set<string> {
    set y | y in m && !r(x, y)
  }

  /** The elements that some page of that size holds. */
  function Reach(m: set<string>, r: Order, k: nat): set<string> {
    set x | x in m && |Below(m, r, x)| < k
  }

  // ---- a page depends on what it can reach -----------------------------------------------------

  lemma SubsetSize(a: set<string>, b: set<string>)
    requires a <= b
    ensures |a| <= |b|
  {
    assert |b - a| == |b| - |a|;
  }

  lemma PageMembers(ids: seq<string>)
    requires NoDuplicates(ids)
    ensures |ToSet(ids)| == |ids| && forall x :: x in ToSet(ids) <==> x in ids
  {
    NoDuplicatesSize(ids);
  }

  /** Whatever is on a page is within reach. */
  lemma PageIsInReach(m: set<string>, r: Order, k: nat, ids: seq<string>, i: nat)
    requires IsOrder(m, r) && IsPage(m, r, k, ids) && i < |ids|
    ensures ids[i] in Reach(m, r, k)
  {
    var x := ids[i];
    PageMembers(ids);
    forall y | y in Below(m, r, x)
      ensures y in ToSet(ids) - {x}
    {
      assert r(x, x);
      assert y in ids;
    }
    SubsetSize(Below(m, r, x), ToSet(ids) - {x});
  }

  /** What is out of reach may stand behind whatever is within reach. */
  lemma ReachComesFirst(m: set<string>, r: Order, k: nat, x: string, far: string)
    requires IsOrder(m, r) && x in Reach(m, r, k) && far in m && far !in Reach(m, r, k)
    ensures r(x, far)
  {
    if !r(x, far) {
      forall y | y in Below(m, r, far)
        ensures y in Below(m, r, x)
      {
        assert r(far, x);
      }
      SubsetSize(Below(m, r, far), Below(m, r, x));
    }
  }

  /** Two selections look alike to pages of that size: the same within reach, in the same order. */
  ghost predicate SameReach(m: set<string>, r: Order, n: set<string>, s: Order, k: nat) {
    && Reach(m, r, k) == Reach(n, s, k)
    && forall a, b | a in Reach(m, r, k) && b in Reach(m, r, k) :: r(a, b) == s(a, b)
  }

  lemma SameReachSamePage(m: set<string>, r: Order, n: set<string>, s: Order, k: nat, ids: seq<string>)
    requires IsOrder(m, r) && IsOrder(n, s) && SameReach(m, r, n, s, k)
    requires IsPage(m, r, k, ids)
    ensures IsPage(n, s, k, ids)
  {
    forall i | 0 <= i < |ids|
      ensures ids[i] in Reach(m, r, k)
    {
      PageIsInReach(m, r, k, ids, i);
    }
    forall i, other | 0 <= i < |ids| && other in n && other !in ids
      ensures s(ids[i], other)
    {
      if other !in Reach(n, s, k) {
        ReachComesFirst(n, s, k, ids[i], other);
      }
    }
  }

  // ---- pages exist, and show what is within reach ------------------------------------------------

  /** A non-empty selection has an element that may come first. */
  lemma {:induction false} FirstExists(m: set<string>, r: Order) returns (first: string)
    requires IsOrder(m, r) && m != {}
    ensures first in m && forall x | x in m :: r(first, x)
    decreases |m|
  {
    var x :| x in m;
    if m == {x} {
      first := x;
    } else {
      first := FirstExists(m - {x}, r);
      if !r(first, x) {
        first := x;
      }
    }
  }

  /** A page grows by an element that may come first among those left out. */
  lemma PageGrows(m: set<string>, r: Order, k: nat, ids: seq<string>, next: string)
    requires IsOrder(m, r) && IsPage(m, r, k, ids)
    requires next in m && next !in ids && forall x | x in m && x !in ids :: r(next, x)
    ensures IsPage(m, r, k + 1, ids + [next])
  {
    assert forall i | 0 <= i < |ids| :: ids[i] in ids;
    assert forall other | other !in ids + [next] :: other !in ids && other != next;
  }

  lemma {:induction false} PageExtends(m: set<string>, r: Order, k: nat, ids: seq<string>, size: nat)
    returns (page: seq<string>)
    requires IsOrder(m, r) && IsPage(m, r, k, ids) && k <= size <= |m|
    ensures IsPage(m, r, size, page) && ids <= page
    decreases size - k
  {
    if k == size {
      page := ids;
    } else {
      PageMembers(ids);
      var rest := m - ToSet(ids);
      assert ToSet(ids) <= m && |rest| == |m| - |ToSet(ids)|;
      var next := FirstExists(rest, r);
      PageGrows(m, r, k, ids, next);
      page := PageExtends(m, r, k + 1, ids + [next], size);
      assert ids <= ids + [next];
    }
  }

  lemma EmptyPage(m: set<string>, r: Order)
    ensures IsPage(m, r, 0, [])
  {
  }

  /** An element within reach is on some page, right behind those that must come before it. */
  lemma PageShowing(m: set<string>, r: Order, k: nat, x: string) returns (page: seq<string>, at: nat)
    requires IsOrder(m, r) && k <= |m| && x in Reach(m, r, k)
    ensures IsPage(m, r, k, page) && at < |page| && page[at] == x
    ensures forall i | 0 <= i < at :: page[i] in Below(m, r, x)
  {
    var below := Below(m, r, x);
    EmptyPage(below, r);
    var front := PageExtends(below, r, 0, [], |below|);
    PageMembers(front);
    assert ToSet(front) == below by {
      assert ToSet(front) <= below;
      SubsetOfSameSize(ToSet(front), below);
    }
    assert r(x, x);
    FrontIsPage(m, r, x, front);
    PageGrows(m, r, |front|, front, x);
    page := PageExtends(m, r, |front| + 1, front + [x], k);
    at := |front|;
    assert page[..at + 1] == front + [x];
    assert forall i | 0 <= i < at :: page[i] == page[..at + 1][i] == front[i] && front[i] in front;
    assert page[at] == page[..at + 1][at];
  }

  lemma FrontIsPage(m: set<string>, r: Order, x: string, front: seq<string>)
    requires IsOrder(m, r) && x in m && IsPage(Below(m, r, x), r, |front|, front)
    requires forall y :: y in front <==> y in Below(m, r, x)
    ensures IsPage(m, r, |front|, front)
  {
    forall i, other | 0 <= i < |front| && other in m && other !in front
      ensures r(front[i], other)
    {
      assert front[i] in front && r(x, other) && r(front[i], x);
    }
  }

  // ---- the exact condition -----------------------------------------------------------------------

  ghost predicate SamePages(m: set<string>, r: Order, n: set<string>, s: Order, k: nat) {
    forall ids :: IsPage(m, r, k, ids) <==> IsPage(n, s, k, ids)
  }

  /** If every page of one is a page of the other, what the one reaches the other reaches, in that order. */
  lemma PagesTellReach(m: set<string>, r: Order, n: set<string>, s: Order, k: nat)
    requires IsOrder(m, r) && IsOrder(n, s) && k <= |m|
    requires forall ids | IsPage(m, r, k, ids) :: IsPage(n, s, k, ids)
    ensures Reach(m, r, k) <= Reach(n, s, k)
    ensures forall a, b | a in Reach(m, r, k) && b in Reach(m, r, k) && r(a, b) :: s(a, b)
  {
    forall x | x in Reach(m, r, k)
      ensures x in Reach(n, s, k)
    {
      var page, at := PageShowing(m, r, k, x);
      PageIsInReach(n, s, k, page, at);
    }
    forall a, b | a in Reach(m, r, k) && b in Reach(m, r, k) && r(a, b)
      ensures s(a, b)
    {
      var page, at := PageShowing(m, r, k, a);
      assert b in n;
      if b in page {
        var i :| 0 <= i < |page| && page[i] == b;
        assert i < at ==> b in Below(m, r, a);
      }
      assert s(a, a);
    }
  }

  /** Two ordered selections have the same pages of a size exactly when they are the same within its reach. */
  lemma SamePagesIff(m: set<string>, r: Order, n: set<string>, s: Order, k: nat)
    requires IsOrder(m, r) && IsOrder(n, s) && k <= |m| && k <= |n|
    ensures SamePages(m, r, n, s, k) <==> SameReach(m, r, n, s, k)
  {
    if SameReach(m, r, n, s, k) {
      forall ids
        ensures IsPage(m, r, k, ids) <==> IsPage(n, s, k, ids)
      {
        if IsPage(m, r, k, ids) {
          SameReachSamePage(m, r, n, s, k, ids);
        }
        if IsPage(n, s, k, ids) {
          SameReachSamePage(n, s, m, r, k, ids);
        }
      }
    }
    if SamePages(m, r, n, s, k) {
      PagesTellReach(m, r, n, s, k);
      PagesTellReach(n, s, m, r, k);
    }
  }

  /** Pages of different sizes are different. */
  lemma SizesTellPagesApart(m: set<string>, r: Order, k: nat, n: set<string>, s: Order, j: nat)
    requires IsOrder(m, r) && k <= |m| && k != j
    ensures exists ids :: IsPage(m, r, k, ids) && !IsPage(n, s, j, ids)
  {
    EmptyPage(m, r);
    var page := PageExtends(m, r, 0, [], k);
    assert IsPage(m, r, k, page) && !IsPage(n, s, j, page);
  }

  // ---- the pages of the memory store -----------------------------------------------------------

  /** The order that the memory store sorts by; without one, any element may come first. */
  function MemOrder(st: Store, filter: QueryFilter): Order {
    (a, b) => filter.orderBy == "" || (a in st && b in st && InOrder(filter, st[a], st[b]))
  }

  lemma MemOrderIsOrder(st: Store, filter: QueryFilter)
    ensures IsOrder(MatchSet(st, filter), MemOrder(st, filter))
  {
    var m, r := MatchSet(st, filter), MemOrder(st, filter);
    forall a, b | a in m && b in m
      ensures r(a, b) || r(b, a)
    {
      OrderIsTotal(filter, st[a], st[b]);
    }
    forall a, b, c | a in m && b in m && c in m && r(a, b) && r(b, c)
      ensures r(a, c)
    {
      if filter.orderBy != "" {
        OrderIsTransitive(filter, st[a], st[b], st[c]);
      }
    }
  }

  /** What the memory store may answer are the pages of its matches. */
  lemma AnswersArePages(st: Store, filter: QueryFilter, ids: seq<string>)
    ensures IsAnswer(st, filter, ids) <==>
            IsPage(MatchSet(st, filter), MemOrder(st, filter), PageSize(MatchSet(st, filter), filter.limit), ids)
  {
    hide InOrder, Matches;
    var m, r := MatchSet(st, filter), MemOrder(st, filter);
    assert forall i | 0 <= i < |ids| :: ids[i] in ids;
    if IsPage(m, r, PageSize(m, filter.limit), ids) {
      forall kept, omitted | kept in ids && omitted in m && omitted !in ids
        ensures r(kept, omitted)
      {
        var i :| 0 <= i < |ids| && ids[i] == kept;
      }
    }
  }
}
