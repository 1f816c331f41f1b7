/** The listings: getEvents' page window over the collection sorted by
    creation time, newest first, and the poster filter of eventsByUser. */
module Paging {
  import opened EventTypes

  /** Events per page. */
  const PerPage: nat := 6

  function Min(a: int, b: int): int {
    if a <= b then a else b
  }

  predicate SortedByCreatedDesc(s: seq<Event>) {
    forall i, j :: 0 <= i < j < |s| ==> s[i].created >= s[j].created
  }

  /** Places `e` before the first event strictly older than it. */
  function Insert(e: Event, s: seq<Event>): (r: seq<Event>)
    requires SortedByCreatedDesc(s)
    ensures SortedByCreatedDesc(r)
    ensures |r| == |s| + 1
    ensures multiset(r) == multiset(s) + multiset{e}
    ensures r[0] == e || (s != [] && r[0] == s[0])
  {
    if s == [] || e.created >= s[0].created then [e] + s
    else
      assert s == [s[0]] + s[1..];
      [s[0]] + Insert(e, s[1..])
  }

  /** `sort({ created: -1 })`. Events with equal timestamps keep the
      collection's order. */
  function SortByCreatedDesc(s: seq<Event>): (r: seq<Event>)
    ensures SortedByCreatedDesc(r)
    ensures |r| == |s|
    ensures multiset(r) == multiset(s)
  {
    if s == [] then []
    else
      assert s == [s[0]] + s[1..];
      Insert(s[0], SortByCreatedDesc(s[1..]))
  }

  /** `skip(skip).limit(limit)`: the elements at positions
      `[skip, skip + limit)` that exist. */
  function Window<T>(s: seq<T>, skip: nat, limit: nat): (r: seq<T>)
    ensures |r| == if skip >= |s| then 0 else Min(limit, |s| - skip)
    ensures forall i :: 0 <= i < |r| ==> r[i] == s[skip + i]
  {
    if skip >= |s| then []
    else if |s| - skip <= limit then s[skip..]
    else s[skip..skip + limit]
  }

  /** getEvents: `page` defaults to 1; a page below 1 makes the skip
      negative, the store refuses the query and no list is answered. */
  function PageOf(all: seq<Event>, page: Option<int>): (r: Option<seq<Event>>)
    ensures r.Some? <==> page.None? || page.value >= 1
    ensures r.Some? ==> |r.value| <= PerPage && SortedByCreatedDesc(r.value)
    ensures r.Some? ==> forall i :: 0 <= i < |r.value| ==> r.value[i] in all
  {
    var p := page.GetOr(1);
    if p < 1 then None
    else
      var sorted := SortByCreatedDesc(all);
      var r := Window(sorted, (p - 1) * PerPage, PerPage);
      assert forall i :: 0 <= i < |r| ==> r[i] in multiset(sorted);
      Some(r)
  }

  /** Page `p` holds the events at positions `[(p-1)*6, (p-1)*6 + 6)` of
      the sorted collection: at most six, none past the end. */
  lemma {:induction false} PageIsSortedSlice(all: seq<Event>, p: int)
    requires p >= 1
    ensures var r := PageOf(all, Some(p)).value;
      var sorted := SortByCreatedDesc(all);
      |sorted| == |all| &&
      |r| == (if (p - 1) * PerPage >= |all| then 0 else Min(PerPage, |all| - (p - 1) * PerPage)) &&
      forall i :: 0 <= i < |r| ==> r[i] == sorted[(p - 1) * PerPage + i]
  {
  }

  /** Without a page the first page is served. */
  lemma DefaultPageIsFirst(all: seq<Event>)
    ensures PageOf(all, None) == PageOf(all, Some(1))
  {
  }

  /** Thirteen events: two full pages, one event on page 3, nothing after. */
  lemma ThirteenEvents(all: seq<Event>)
    requires |all| == 13
    ensures |PageOf(all, Some(1)).value| == 6 && |PageOf(all, Some(2)).value| == 6
    ensures |PageOf(all, Some(3)).value| == 1 && PageOf(all, Some(4)).value == []
  {
    PageIsSortedSlice(all, 1);
    PageIsSortedSlice(all, 2);
    PageIsSortedSlice(all, 3);
    PageIsSortedSlice(all, 4);
  }

  /** The first page opens with the newest event of the collection. */
  lemma {:induction false} FirstPageStartsWithNewest(all: seq<Event>, e: Event)
    requires e in all
    ensures var r := PageOf(all, Some(1)).value;
      |r| > 0 && r[0].created >= e.created
  {
    var sorted := SortByCreatedDesc(all);
    var j := SortedPosition(all, e);
    PageIsSortedSlice(all, 1);
    var r := PageOf(all, Some(1)).value;
    assert r[0] == sorted[0];
    assert sorted[0].created >= sorted[j].created;
  }

  /** Sorting loses no event. */
  lemma SortedPosition(all: seq<Event>, e: Event) returns (j: nat)
    requires e in all
    ensures j < |SortByCreatedDesc(all)| && SortByCreatedDesc(all)[j] == e
  {
    var sorted := SortByCreatedDesc(all);
    assert e in multiset(all);
    assert e in sorted;
    j :| 0 <= j < |sorted| && sorted[j] == e;
  }

  /** Every event on an earlier page is at least as recent as every event
      on a later one. */
  lemma {:induction false} EarlierPagesAreNewer(all: seq<Event>, p: int, q: int, i: nat, j: nat)
    requires 1 <= p < q
    requires i < |PageOf(all, Some(p)).value| && j < |PageOf(all, Some(q)).value|
    ensures PageOf(all, Some(p)).value[i].created >= PageOf(all, Some(q)).value[j].created
  {
    PageIsSortedSlice(all, p);
    PageIsSortedSlice(all, q);
    var sorted := SortByCreatedDesc(all);
    assert (p - 1) * PerPage + i < (q - 1) * PerPage + j by {
      assert (q - 1) * PerPage >= (p - 1) * PerPage + PerPage;
    }
  }

  /** Pages 1 to k of `s`, one after the other. */
  function Pages<T>(s: seq<T>, k: nat): seq<T> {
    if k == 0 then [] else Pages(s, k - 1) + Window(s, (k - 1) * PerPage, PerPage)
  }

  /** A prefix followed by the window that starts where it ends is the
      longer prefix. */
  lemma SliceExtends<T>(s: seq<T>, lo: nat, w: seq<T>)
    requires lo + |w| <= |s|
    requires forall i :: 0 <= i < |w| ==> w[i] == s[lo + i]
    ensures s[..lo] + w == s[..lo + |w|]
  {
  }

  /** Windows of six taken one after the other cover a prefix of the list
      with no gap and no overlap. */
  lemma {:induction false} WindowsTile<T>(s: seq<T>, k: nat)
    ensures Pages(s, k) == s[..Min(k * PerPage, |s|)]
  {
    if k > 0 {
      WindowsTile(s, k - 1);
      var w := Window(s, (k - 1) * PerPage, PerPage);
      SliceExtends(s, Min((k - 1) * PerPage, |s|), w);
    }
  }

  /** Pages 1 to k of getEvents, one after the other. */
  function FirstPages(all: seq<Event>, k: nat): seq<Event> {
    if k == 0 then [] else FirstPages(all, k - 1) + PageOf(all, Some(k)).value
  }

  /** Reading pages 1 to k in turn yields the first `6k` events of the
      sorted collection: the pages neither skip nor repeat an event. */
  lemma {:induction false} PagesTile(all: seq<Event>, k: nat)
    ensures FirstPages(all, k) == SortByCreatedDesc(all)[..Min(k * PerPage, |all|)]
  {
    var sorted := SortByCreatedDesc(all);
    SameAsWindows(all, sorted, k);
    WindowsTile(sorted, k);
  }

  lemma {:induction false} SameAsWindows(all: seq<Event>, sorted: seq<Event>, k: nat)
    requires sorted == SortByCreatedDesc(all)
    ensures FirstPages(all, k) == Pages(sorted, k)
  {
    if k > 0 {
      SameAsWindows(all, sorted, k - 1);
    }
  }

  /** Once the pages reach past the end, together they are a permutation
      of the whole collection. */
  lemma PagesCoverCollection(all: seq<Event>, k: nat)
    requires k * PerPage >= |all|
    ensures multiset(FirstPages(all, k)) == multiset(all)
  {
    PagesTile(all, k);
    var sorted := SortByCreatedDesc(all);
    assert sorted[..|all|] == sorted;
  }

  /** Each page of getEvents is a query of its own, and MongoDB fixes no
      order among events with equal `created`: any order that is sorted
      newest first and holds the collection may come back. */
  predicate ValidSort(all: seq<Event>, s: seq<Event>) {
    SortedByCreatedDesc(s) && multiset(s) == multiset(all)
  }

  /** No two different events of the collection share a `created` value. */
  predicate DistinctCreated(all: seq<Event>) {
    forall a, b :: a in all && b in all && a.created == b.created ==> a == b
  }

  /** Two sorted orders of the same events open with events created at
      the same instant; without ties that is the same event. */
  lemma HeadsAgree(all: seq<Event>, s: seq<Event>, t: seq<Event>)
    requires DistinctCreated(all)
    requires SortedByCreatedDesc(s) && SortedByCreatedDesc(t)
    requires s != [] && multiset(s) == multiset(t) && multiset(s) <= multiset(all)
    ensures t != [] && s[0] == t[0]
  {
    assert s[0] in multiset(s);
    assert t[0] in multiset(t) by {
      assert |t| == |multiset(t)|;
    }
    var j :| 0 <= j < |t| && t[j] == s[0];
    var i :| 0 <= i < |s| && s[i] == t[0];
    assert t[0].created >= t[j].created && s[0].created >= s[i].created;
    assert s[0] in multiset(all) && t[0] in multiset(all);
  }

  /** Without ties there is only one order sorted newest first. */
  lemma {:induction false} SortedUnique(all: seq<Event>, s: seq<Event>, t: seq<Event>)
    requires DistinctCreated(all)
    requires SortedByCreatedDesc(s) && SortedByCreatedDesc(t)
    requires multiset(s) == multiset(t) && multiset(s) <= multiset(all)
    ensures s == t
    decreases |s|
  {
    if s == [] {
      assert |t| == |multiset(t)|;
    } else {
      HeadsAgree(all, s, t);
      Tail(s);
      Tail(t);
      SortedUnique(all, s[1..], t[1..]);
    }
  }

  /** Dropping the first event of a sorted order leaves a sorted order of
      the others. */
  lemma Tail(s: seq<Event>)
    requires s != [] && SortedByCreatedDesc(s)
    ensures s == [s[0]] + s[1..] && SortedByCreatedDesc(s[1..])
    ensures multiset(s[1..]) == multiset(s) - multiset{s[0]}
  {
    assert s == [s[0]] + s[1..];
  }

  /** Pages 1 to k when page p is cut from the order its own query
      returned, `sorts[p - 1]`. */
  function QueriedPages(sorts: seq<seq<Event>>, k: nat): seq<Event>
    requires k <= |sorts|
  {
    if k == 0 then [] else QueriedPages(sorts, k - 1) + Window(sorts[k - 1], (k - 1) * PerPage, PerPage)
  }

  lemma {:induction false} QueriedPagesAreWindows(all: seq<Event>, sorts: seq<seq<Event>>, k: nat)
    requires k <= |sorts| && DistinctCreated(all)
    requires forall p :: 0 <= p < |sorts| ==> ValidSort(all, sorts[p])
    ensures QueriedPages(sorts, k) == Pages(SortByCreatedDesc(all), k)
  {
    if k > 0 {
      QueriedPagesAreWindows(all, sorts, k - 1);
      var sorted := SortByCreatedDesc(all);
      assert ValidSort(all, sorts[k - 1]);
      SortedUnique(all, sorts[k - 1], sorted);
    }
  }

  /** When no two events share a creation time, pages read by separate
      queries still tile the sorted collection: whatever order each query
      used, pages 1 to k are its first `6k` events. */
  lemma {:induction false} PagesTileAcrossQueries(all: seq<Event>, sorts: seq<seq<Event>>, k: nat)
    requires k <= |sorts| && DistinctCreated(all)
    requires forall p :: 0 <= p < |sorts| ==> ValidSort(all, sorts[p])
    ensures QueriedPages(sorts, k) == SortByCreatedDesc(all)[..Min(k * PerPage, |all|)]
  {
    QueriedPagesAreWindows(all, sorts, k);
    WindowsTile(SortByCreatedDesc(all), k);
  }

  /** With ties the separate queries may disagree: seven events created at
      the same instant, page 1 cut from one valid order and page 2 from
      another, serve the sixth event twice and the seventh never. */
  lemma TiedPagesCanRepeat() returns (all: seq<Event>, sorts: seq<seq<Event>>)
    ensures |sorts| == 2 && ValidSort(all, sorts[0]) && ValidSort(all, sorts[1])
    ensures |all| == 7 && QueriedPages(sorts, 2) == all[..6] + [all[5]]
    ensures all[6] !in QueriedPages(sorts, 2)
  {
    var ev := seq(7, i requires 0 <= i < 7 => Event([('a' as int + i) as char], None, None, 0, None, "u", None, [], []));
    all := ev;
    var swapped := ev[..5] + [ev[6], ev[5]];
    assert multiset(swapped) == multiset(ev) by {
      assert ev == ev[..5] + [ev[5], ev[6]];
    }
    sorts := [ev, swapped];
    assert Window(ev, 0, PerPage) == ev[..6];
    assert Window(swapped, PerPage, PerPage) == [ev[5]];
    assert QueriedPages(sorts, 1) == ev[..6] by {
      assert QueriedPages(sorts, 0) == [];
    }
    assert forall i :: 0 <= i < 6 ==> ev[i] != ev[6];
  }

  /** eventsByUser's query `{ postedBy: user }`, in collection order. */
  function FilterByPoster(all: seq<Event>, user: UserId): (r: seq<Event>)
    ensures forall e :: e in r <==> e in all && e.postedBy == user
    ensures |r| <= |all|
  {
    if all == [] then []
    else
      assert all == [all[0]] + all[1..];
      if all[0].postedBy == user then [all[0]] + FilterByPoster(all[1..], user)
      else FilterByPoster(all[1..], user)
  }
}
