// Filtering and paging as the store and the scheduler do it: one pass over the entries in some order.
module Listing {

  /** The entries of `order` that are wanted, in the order they are visited. */
  ghost function Matching<T>(order: seq<T>, wanted: set<T>): seq<T> {
    if order == [] then []
    else
      var n := |order| - 1;
      Matching(order[..n], wanted) + if order[n] in wanted then [order[n]] else []
  }

  /** `order` visits every entry exactly once. */
  ghost predicate Enumerates<T>(order: seq<T>, entries: set<T>) {
    && (forall x | x in entries :: x in order)
    && (forall x | x in order :: x in entries)
    && NoRepeats(order)
  }

  ghost predicate NoRepeats<T>(xs: seq<T>) {
    forall i, j :: 0 <= i < j < |xs| ==> xs[i] != xs[j]
  }

  function Clamp(x: int, low: int, high: int): int {
    if x < low then low else if x > high then high else x
  }

  /** Drop `offset`, then take `limit`; a limit below one still yields one element. */
  function Page<T>(xs: seq<T>, limit: int, offset: int): seq<T> {
    var from := Clamp(offset, 0, |xs|);
    var upto := Clamp(from + if limit < 1 then 1 else limit, from, |xs|);
    xs[from..upto]
  }

  /** The page holds the entries from `offset` on, as many as there are and at most `limit`, but at least one. */
  lemma PageEntries<T>(xs: seq<T>, limit: int, offset: int)
    ensures var page := Page(xs, limit, offset);
            var from, most := if offset < 0 then 0 else offset, if limit < 1 then 1 else limit;
            && |page| == (if |xs| <= from then 0 else if |xs| - from < most then |xs| - from else most)
            && forall k :: 0 <= k < |page| ==> page[k] == xs[from + k]
  {
  }

  lemma {:induction false} MatchingPrefix<T>(order: seq<T>, k: nat, wanted: set<T>)
    requires k <= |order|
    ensures Matching(order[..k], wanted) <= Matching(order, wanted)
  {
    if k < |order| {
      var front := order[..|order| - 1];
      MatchingPrefix(front, k, wanted);
      assert front[..k] == order[..k];
    } else {
      assert order[..k] == order;
    }
  }

  lemma MatchingStep<T>(order: seq<T>, k: nat, wanted: set<T>)
    requires k < |order|
    ensures Matching(order[..k + 1], wanted)
         == Matching(order[..k], wanted) + if order[k] in wanted then [order[k]] else []
  {
    assert order[..k + 1][..k] == order[..k];
  }

  /** The filter neither loses, adds nor repeats an entry. */
  lemma {:induction false} MatchingIsFilter<T>(order: seq<T>, wanted: set<T>)
    requires NoRepeats(order)
    ensures NoRepeats(Matching(order, wanted))
    ensures forall x | x in Matching(order, wanted) :: x in order && x in wanted
    ensures forall x | x in order && x in wanted :: x in Matching(order, wanted)
  {
    if order != [] {
      var n := |order| - 1;
      MatchingIsFilter(order[..n], wanted);
      assert order == order[..n] + [order[n]];
    }
  }

  /** A page cut from a prefix is the page cut from the whole list as soon as the prefix fills it. */
  lemma PageOfPrefix<T>(xs: seq<T>, ys: seq<T>, limit: int, offset: int)
    requires xs <= ys
    requires |Page(xs, limit, offset)| >= limit && Page(xs, limit, offset) != []
    ensures Page(ys, limit, offset) == Page(xs, limit, offset)
  {
    assert ys == xs + ys[|xs|..];
  }

  /** One more entry past the offset is appended to a page that is not yet full. */
  lemma PageAppend<T>(xs: seq<T>, x: T, limit: int, offset: int)
    requires |Page(xs, limit, offset)| < limit || Page(xs, limit, offset) == []
    ensures Page(xs + [x], limit, offset) == Page(xs, limit, offset) + if |xs| < offset then [] else [x]
  {
  }

  /** How one step of the pass changes the page collected so far, and when that page is final. */
  lemma PageStep<T>(order: seq<T>, k: nat, wanted: set<T>, limit: int, offset: int)
    requires k < |order|
    requires var page := Page(Matching(order[..k], wanted), limit, offset); page == [] || |page| < limit
    ensures var seen, next := Matching(order[..k], wanted), Matching(order[..k + 1], wanted);
            var page := Page(next, limit, offset);
            && next == seen + (if order[k] in wanted then [order[k]] else [])
            && page == Page(seen, limit, offset)
                       + (if order[k] in wanted && |seen| >= offset then [order[k]] else [])
            && (page != [] && |page| >= limit ==> Page(Matching(order, wanted), limit, offset) == page)
  {
    var seen, next := Matching(order[..k], wanted), Matching(order[..k + 1], wanted);
    MatchingStep(order, k, wanted);
    if order[k] in wanted {
      PageAppend(seen, order[k], limit, offset);
    }
    MatchingPrefix(order, k + 1, wanted);
    if Page(next, limit, offset) != [] && |Page(next, limit, offset)| >= limit {
      PageOfPrefix(next, Matching(order, wanted), limit, offset);
    }
  }

  /** A page holds wanted entries only; one that starts at the beginning and has room for all holds them all. */
  lemma WholePage<T>(order: seq<T>, wanted: set<T>, limit: int, offset: int)
    requires NoRepeats(order)
    ensures forall x :: x in Page(Matching(order, wanted), limit, offset) ==> x in order && x in wanted
    ensures offset <= 0 && |order| <= limit ==>
              forall x :: x in order && x in wanted ==> x in Page(Matching(order, wanted), limit, offset)
  {
    MatchingIsFilter(order, wanted);
    MatchingLength(order, wanted);
  }

  lemma {:induction false} MatchingLength<T>(order: seq<T>, wanted: set<T>)
    ensures |Matching(order, wanted)| <= |order|
  {
    if order != [] {
      MatchingLength(order[..|order| - 1], wanted);
    }
  }

  /** The concatenation of the first `n` pages of size `limit`. */
  ghost function Pages<T>(xs: seq<T>, limit: int, n: nat): seq<T> {
    if n == 0 then [] else Pages(xs, limit, n - 1) + Page(xs, limit, (n - 1) * limit)
  }

  lemma {:induction false} PagesArePrefix<T>(xs: seq<T>, limit: int, n: nat)
    requires limit >= 1
    ensures Pages(xs, limit, n) == xs[..Clamp(n * limit, 0, |xs|)]
  {
    if n > 0 {
      PagesArePrefix(xs, limit, n - 1);
      assert n * limit == (n - 1) * limit + limit;
      assert 0 <= (n - 1) * limit;
    }
  }

  /** Over one fixed order the pages at 0, L, 2L, ... together are the filtered list, each entry once. */
  lemma PagesCoverListing<T>(order: seq<T>, wanted: set<T>, limit: int, n: nat)
    requires NoRepeats(order) && limit >= 1
    requires n * limit >= |Matching(order, wanted)|
    ensures Pages(Matching(order, wanted), limit, n) == Matching(order, wanted)
    ensures NoRepeats(Pages(Matching(order, wanted), limit, n))
    ensures forall x | x in Pages(Matching(order, wanted), limit, n) :: x in order && x in wanted
    ensures forall x | x in order && x in wanted :: x in Pages(Matching(order, wanted), limit, n)
  {
    PagesArePrefix(Matching(order, wanted), limit, n);
    MatchingIsFilter(order, wanted);
  }

  // Pages across calls that visit the map in different orders

  ghost function ToSet<T>(xs: seq<T>): set<T> {
    set x | x in xs
  }

  function Head<T>(xs: seq<T>, k: int): seq<T> {
    xs[..Clamp(k, 0, |xs|)]
  }

  /** Page k of the k-th list, for the first n lists. */
  ghost function PagesAcross<T>(lists: seq<seq<T>>, limit: int, n: nat): seq<T>
    requires n <= |lists|
  {
    if n == 0 then [] else PagesAcross(lists, limit, n - 1) + Page(lists[n - 1], limit, (n - 1) * limit)
  }

  /** The first m pages are the entries up to there of the list last visited, each once. */
  ghost predicate CoversUpTo<T>(lists: seq<seq<T>>, limit: int, m: nat)
    requires m <= |lists|
  {
    m > 0 ==>
      && NoRepeats(PagesAcross(lists, limit, m))
      && ToSet(PagesAcross(lists, limit, m)) == ToSet(Head(lists[m - 1], m * limit))
  }

  /** Between pages k - 1 and k the order has changed only within the entries already listed, and within those
      not yet listed. */
  ghost predicate SameHead<T>(lists: seq<seq<T>>, limit: int, k: nat)
    requires 0 < k < |lists|
  {
    ToSet(Head(lists[k - 1], k * limit)) == ToSet(Head(lists[k], k * limit))
  }

  lemma PartsAreDisjoint<T>(a: seq<T>, b: seq<T>)
    requires NoRepeats(a + b)
    ensures ToSet(a) !! ToSet(b)
  {
    forall i, j | 0 <= i < |a| && 0 <= j < |b| ensures a[i] != b[j] {
      assert a[i] == (a + b)[i] && b[j] == (a + b)[|a| + j];
    }
  }

  lemma JoinExactlyWhen<T>(a: seq<T>, b: seq<T>, c: seq<T>)
    requires NoRepeats(a) && NoRepeats(c + b)
    ensures NoRepeats(a + b) && ToSet(a + b) == ToSet(c + b) <==> ToSet(a) == ToSet(c)
  {
    assert ToSet(a + b) == ToSet(a) + ToSet(b) && ToSet(c + b) == ToSet(c) + ToSet(b);
    PartsAreDisjoint(c, b);
    if NoRepeats(a + b) {
      PartsAreDisjoint(a, b);
    }
    if ToSet(a) == ToSet(c) {
      NoRepeatsJoin(a, b, c);
    }
  }

  lemma NoRepeatsJoin<T>(a: seq<T>, b: seq<T>, c: seq<T>)
    requires NoRepeats(a) && NoRepeats(c + b) && ToSet(a) == ToSet(c)
    ensures NoRepeats(a + b)
  {
    forall i, j | 0 <= i < j < |a + b| ensures (a + b)[i] != (a + b)[j] {
      if j >= |a| {
        assert (a + b)[j] == (c + b)[|c| + (j - |a|)];
        if i >= |a| {
          assert (a + b)[i] == (c + b)[|c| + (i - |a|)];
        } else {
          assert a[i] in ToSet(c);
          var k :| 0 <= k < |c| && c[k] == a[i];
          assert (c + b)[k] == a[i];
        }
      }
    }
  }

  lemma NextPage<T>(xs: seq<T>, limit: int, m: nat)
    requires limit >= 1
    ensures Head(xs, (m + 1) * limit) == Head(xs, m * limit) + Page(xs, limit, m * limit)
  {
    assert (m + 1) * limit == m * limit + limit && 0 <= m * limit;
  }

  lemma FirstPageCovers<T>(lists: seq<seq<T>>, limit: int)
    requires limit >= 1 && lists != [] && NoRepeats(lists[0])
    ensures CoversUpTo(lists, limit, 1)
  {
    NextPage(lists[0], limit, 0);
    assert PagesAcross(lists, limit, 1) == PagesAcross(lists, limit, 0) + Page(lists[0], limit, 0 * limit);
    assert Head(lists[0], 0 * limit) == [];
  }

  lemma CoversNext<T>(lists: seq<seq<T>>, limit: int, m: nat)
    requires limit >= 1 && 0 < m < |lists| && NoRepeats(lists[m]) && CoversUpTo(lists, limit, m)
    ensures CoversUpTo(lists, limit, m + 1) <==> SameHead(lists, limit, m)
  {
    NextPage(lists[m], limit, m);
    JoinExactlyWhen(PagesAcross(lists, limit, m), Page(lists[m], limit, m * limit), Head(lists[m], m * limit));
  }

  /** Pages fetched one after the other, each over the order of its own call, list every entry up to there
      exactly once, page after page, exactly when for every k the first k pages of the order before and of the
      order after hold the same entries. For two pages: the first L entries of both orders are the same set. */
  lemma {:induction false} PagesAcrossOrdersExactlyWhen<T>(lists: seq<seq<T>>, limit: int, n: nat)
    requires limit >= 1 && n <= |lists| && forall k :: 0 <= k < |lists| ==> NoRepeats(lists[k])
    ensures (forall m: nat :: m <= n ==> CoversUpTo(lists, limit, m))
       <==> (forall k: nat :: 0 < k < n ==> SameHead(lists, limit, k))
  {
    if n == 1 {
      FirstPageCovers(lists, limit);
    } else if n > 1 {
      PagesAcrossOrdersExactlyWhen(lists, limit, n - 1);
      if CoversUpTo(lists, limit, n - 1) {
        CoversNext(lists, limit, n - 1);
      }
    }
  }

  /** Across two calls the map order may change, and then an entry is listed twice and another is missed. */
  lemma PagesAcrossOrdersMayRepeat<T>(one: seq<T>, two: seq<T>, a: T, b: T)
    requires one == [a, b] && two == [b, a] && a != b
    ensures Enumerates(one, {a, b}) && Enumerates(two, {a, b})
    ensures Page(Matching(one, {a, b}), 1, 0) + Page(Matching(two, {a, b}), 1, 1) == [a, a]
  {
    AllMatch(a, b);
    AllMatch(b, a);
    assert {b, a} == {a, b};
  }

  lemma AllMatch<T>(a: T, b: T)
    ensures Matching([a, b], {a, b}) == [a, b]
  {
    assert [a, b][..1] == [a] && [a][..0] == [];
    MatchingStep([a, b], 0, {a, b});
    MatchingStep([a, b], 1, {a, b});
  }
}
