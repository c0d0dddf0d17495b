/**
 The users page: five users per page, 1-based page numbers, the Prev/Next
 buttons with their disabled guards, and the table that is handed only the
 current page.
 */
module Paging {
  import opened Users
  import View

  const PageSize: nat := 5

  /** `const { data: users = [] } = useQuery(...)`: while the list is absent
      the page works on no users, and there are no pages. */
  function Loaded(data: Option<seq<User>>): (xs: seq<User>)
    ensures data.None? ==> xs == [] && TotalPages(|xs|) == 0
    ensures data.Some? ==> xs == data.value
  {
    GetOr(data, [])
  }

  /** `Math.ceil(n / pageSize)`. */
  function TotalPages(n: nat): (r: nat)
    ensures n <= r * PageSize
    ensures r == 0 || (r - 1) * PageSize < n
  {
    (n + PageSize - 1) / PageSize
  }

  /** How `Array.prototype.slice` reads an index: a negative index counts from
      the end, and the result is clamped to `0..n`. */
  function SliceIndex(i: int, n: nat): (k: nat)
    ensures k <= n
    ensures 0 <= i <= n ==> k == i
    ensures i > n ==> k == n
  {
    if i < 0 then (if n + i < 0 then 0 else n + i)
    else if i > n then n
    else i
  }

  /** `xs.slice(start, end)`. */
  function Slice<T>(xs: seq<T>, start: int, end: int): seq<T>
  {
    var s := SliceIndex(start, |xs|);
    var e := SliceIndex(end, |xs|);
    if s < e then xs[s..e] else []
  }

  function Min(a: int, b: int): int
  {
    if a < b then a else b
  }

  /** `users.slice((page - 1) * pageSize, page * pageSize)`. */
  function Page(xs: seq<User>, page: int): (r: seq<User>)
    ensures page >= 1 ==>
              (page - 1) * PageSize <= |xs| ==> r == xs[(page - 1) * PageSize .. Min(page * PageSize, |xs|)]
    ensures page >= 1 && (page - 1) * PageSize >= |xs| ==> r == []
    ensures page == 0 ==> r == []
  {
    Slice(xs, (page - 1) * PageSize, page * PageSize)
  }

  /** Pages 1..total are full except possibly the last, which is non-empty;
      page 0 and the pages past the last are empty. */
  lemma PageShape(xs: seq<User>, page: int)
    ensures 1 <= page < TotalPages(|xs|) ==> |Page(xs, page)| == PageSize
    ensures page == TotalPages(|xs|) >= 1 ==> 1 <= |Page(xs, page)| <= PageSize
    ensures (page == 0 || page > TotalPages(|xs|)) ==> Page(xs, page) == []
  {
  }

  /** Pages 1..k put one after the other. */
  function Pages(xs: seq<User>, k: nat): seq<User>
  {
    if k == 0 then [] else Pages(xs, k - 1) + Page(xs, k)
  }

  lemma {:induction false} PagesPrefix(xs: seq<User>, k: nat)
    requires k <= TotalPages(|xs|)
    ensures Pages(xs, k) == xs[..Min(k * PageSize, |xs|)]
  {
    if k > 0 {
      PagesPrefix(xs, k - 1);
      assert xs[..Min(k * PageSize, |xs|)]
          == xs[..(k - 1) * PageSize] + xs[(k - 1) * PageSize .. Min(k * PageSize, |xs|)];
    }
  }

  /** The pages 1..totalPages, put together, are exactly the user list. */
  lemma PagesCoverList(xs: seq<User>)
    ensures Pages(xs, TotalPages(|xs|)) == xs
  {
    PagesPrefix(xs, TotalPages(|xs|));
    assert xs[..|xs|] == xs;
  }

  /** Twelve users make three pages, the third holding two. */
  lemma TwelveUsers(xs: seq<User>)
    requires |xs| == 12
    ensures TotalPages(|xs|) == 3
    ensures |Page(xs, 3)| == 2 && Page(xs, 3) == xs[10..]
  {
  }

  /** Prev is disabled on page 1, Next on the last page. */
  predicate PrevDisabled(page: int)
  {
    page == 1
  }

  predicate NextDisabled(page: int, totalPages: int)
  {
    page == totalPages
  }

  /** Pressing Prev: `setPage(p => Math.max(1, p - 1))` unless disabled. */
  function PressPrev(page: int): (r: int)
    ensures r >= 1
    ensures page > 1 ==> r == page - 1
    ensures page <= 1 ==> r == 1
  {
    if PrevDisabled(page) then page else if page - 1 < 1 then 1 else page - 1
  }

  /** Pressing Next: `setPage(p => Math.min(totalPages, p + 1))` unless disabled. */
  function PressNext(page: int, totalPages: int): (r: int)
    ensures page == totalPages ==> r == page
    ensures page < totalPages ==> r == page + 1
    ensures page > totalPages ==> r == totalPages
  {
    if NextDisabled(page, totalPages) then page
    else if totalPages < page + 1 then totalPages else page + 1
  }

  datatype Button = Prev | Next

  function Press(page: int, totalPages: int, b: Button): int
  {
    match b
    case Prev => PressPrev(page)
    case Next => PressNext(page, totalPages)
  }

  /** The page after pressing the buttons in order, the list staying put. */
  function Browse(page: int, totalPages: int, presses: seq<Button>): int
    decreases |presses|
  {
    if |presses| == 0 then page
    else Browse(Press(page, totalPages, presses[0]), totalPages, presses[1..])
  }

  /** While there is at least one page, the buttons keep the page in range. */
  lemma {:induction false} BrowseStaysInRange(page: int, totalPages: int, presses: seq<Button>)
    requires 1 <= page <= totalPages
    ensures 1 <= Browse(page, totalPages, presses) <= totalPages
    decreases |presses|
  {
    if |presses| > 0 {
      BrowseStaysInRange(Press(page, totalPages, presses[0]), totalPages, presses[1..]);
    }
  }

  /** With no users there are no pages, yet Next is enabled on page 1 and
      moves to page 0, where Next is disabled and Prev leads back to 1. */
  lemma EmptyListNextGoesToZero()
    ensures TotalPages(0) == 0
    ensures !NextDisabled(1, TotalPages(0)) && PressNext(1, TotalPages(0)) == 0
    ensures NextDisabled(0, TotalPages(0)) && !PrevDisabled(0) && PressPrev(0) == 1
  {
  }

  /** Deleting from the last page can leave the current page past the end:
      on page 3 of eleven users, one delete leaves ten users, two pages, and an
      empty page 3 until Next or Prev is pressed. */
  lemma ShrinkLeavesEmptyPage(xs: seq<User>)
    requires |xs| == 10
    ensures TotalPages(11) == 3 && TotalPages(|xs|) == 2
    ensures Page(xs, 3) == []
    ensures !NextDisabled(3, TotalPages(|xs|)) && PressNext(3, TotalPages(|xs|)) == 2
  {
  }

  /** The table's rows: it receives only the current page. */
  function Rows(xs: seq<User>, page: int, ctl: View.Controls): (r: seq<User>)
    ensures forall u :: u in r ==> u in Page(xs, page)
  {
    View.Derive(Page(xs, page), ctl)
  }

  /** A freshly mounted table shows the current page, reordered by email. */
  lemma InitialRowsArePage(xs: seq<User>, page: int)
    ensures multiset(Rows(xs, page, View.Initial)) == multiset(Page(xs, page))
    ensures View.Sorted(Rows(xs, page, View.Initial), true)
  {
  }

  /** Search, filter and sort never reach users on other pages: a matching
      user that is only on page 2 is not found from page 1. */
  lemma SearchStaysOnPage(xs: seq<User>, u: User, ctl: View.Controls)
    requires |xs| >= 6 && xs[5] == u && u !in xs[..5]
    requires View.Matches(u, ctl)
    ensures u in View.Derive(xs, ctl)
    ensures u !in Rows(xs, 1, ctl)
  {
  }
}
