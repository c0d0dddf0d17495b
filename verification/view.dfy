/**
 What the user table derives from the users it is given: the rows that
 match the name search and the company filter, ordered by email, and the
 list of companies offered in the filter.
 */
module View {
  import opened Users
  import Seqs
  import Text

  /** The table's controls: the search box, the company select (`null` until
      something is chosen) and the sort-direction toggle. */
  datatype Controls = Controls(search: string, companyFilter: Option<string>, sortAsc: bool)

  /** The controls a freshly mounted table starts with. */
  const Initial := Controls("", None, true)

  /** `user.name.toLowerCase().includes(search.toLowerCase())`. */
  predicate NameMatches(u: User, search: string)
  {
    Text.Includes(Text.Lower(u.name), Text.Lower(search))
  }

  /** `if (companyFilter)`: only a chosen, non-empty value filters. */
  predicate FilterActive(companyFilter: Option<string>)
  {
    companyFilter.Some? && companyFilter.value != ""
  }

  predicate CompanyMatches(u: User, companyFilter: Option<string>)
  {
    !FilterActive(companyFilter) || u.company.name == companyFilter.value
  }

  predicate Matches(u: User, ctl: Controls)
  {
    NameMatches(u, ctl.search) && CompanyMatches(u, ctl.companyFilter)
  }

  /** The value the company select hands to `setCompanyFilter`; choosing
      "All Companies" hands over that literal string. */
  function Choose(value: string): Option<string>
  {
    Some(value)
  }

  /** The sort comparator's sign: `a.email.localeCompare(b.email)` ascending,
      `b.email.localeCompare(a.email)` descending. */
  function Cmp(a: User, b: User, asc: bool): int
  {
    if asc then Text.Compare(a.email, b.email) else Text.Compare(b.email, a.email)
  }

  /** `a` may stay in front of `b`. */
  predicate Before(a: User, b: User, asc: bool)
  {
    Cmp(a, b, asc) <= 0
  }

  lemma BeforeTotal(a: User, b: User, asc: bool)
    ensures Before(a, b, asc) || Before(b, a, asc)
  {
    Text.CompareAntisymmetric(a.email, b.email);
  }

  lemma BeforeTransitive(a: User, b: User, c: User, asc: bool)
    requires Before(a, b, asc) && Before(b, c, asc)
    ensures Before(a, c, asc)
  {
    if asc {
      Text.CompareTransitive(a.email, b.email, c.email);
    } else {
      Text.CompareTransitive(c.email, b.email, a.email);
    }
  }

  predicate Sorted(xs: seq<User>, asc: bool)
  {
    forall i, j :: 0 <= i < j < |xs| ==> Before(xs[i], xs[j], asc)
  }

  /** Places `x` in front of the first element it may precede; elements equal
      to `x` that come after it in the input stay after it, so the sort is stable. */
  function Insert(x: User, ys: seq<User>, asc: bool): (r: seq<User>)
    requires Sorted(ys, asc)
    ensures multiset(r) == multiset(ys) + multiset{x}
    ensures Sorted(r, asc)
  {
    if |ys| == 0 then [x]
    else if Before(x, ys[0], asc) then
      assert forall j :: 0 <= j < |ys| ==> Before(x, ys[j], asc) by {
        forall j | 0 <= j < |ys| ensures Before(x, ys[j], asc) {
          if j > 0 { BeforeTransitive(x, ys[0], ys[j], asc); }
        }
      }
      [x] + ys
    else
      assert ys == [ys[0]] + ys[1..];
      var rest := Insert(x, ys[1..], asc);
      assert forall j :: 0 <= j < |rest| ==> Before(ys[0], rest[j], asc) by {
        forall j | 0 <= j < |rest| ensures Before(ys[0], rest[j], asc) {
          assert rest[j] in multiset(rest);
          if rest[j] == x {
            BeforeTotal(x, ys[0], asc);
          } else {
            assert rest[j] in multiset(ys[1..]);
            var k :| 0 <= k < |ys[1..]| && ys[1..][k] == rest[j];
            assert ys[k + 1] == rest[j];
          }
        }
      }
      [ys[0]] + rest
  }

  /** `filtered.sort(...)` by email: a stable insertion sort. */
  function SortByEmail(xs: seq<User>, asc: bool): (r: seq<User>)
    ensures multiset(r) == multiset(xs)
    ensures Sorted(r, asc)
  {
    if |xs| == 0 then []
    else
      assert xs == [xs[0]] + xs[1..];
      Insert(xs[0], SortByEmail(xs[1..], asc), asc)
  }

  /** Sorting a sorted list leaves it as it is. */
  lemma {:induction false} SortSorted(xs: seq<User>, asc: bool)
    requires Sorted(xs, asc)
    ensures SortByEmail(xs, asc) == xs
  {
    if |xs| > 0 {
      SortSorted(xs[1..], asc);
      assert xs == [xs[0]] + xs[1..];
    }
  }

  /** Sorting keeps the users that share an email in their input order: the
      stability `Array.prototype.sort` guarantees. */
  lemma {:induction false} InsertStable(x: User, ys: seq<User>, asc: bool, e: string)
    requires Sorted(ys, asc)
    ensures Seqs.Filter(Insert(x, ys, asc), WithEmail(e))
         == (if x.email == e then [x] else []) + Seqs.Filter(ys, WithEmail(e))
  {
    var p := WithEmail(e);
    if |ys| == 0 {
      Seqs.FilterCons(x, [], p);
    } else if Before(x, ys[0], asc) {
      Seqs.FilterCons(x, ys, p);
    } else {
      var mine: seq<User> := if x.email == e then [x] else [];
      var theirs: seq<User> := if ys[0].email == e then [ys[0]] else [];
      var tail := ys[1..];
      var rest := Insert(x, tail, asc);
      Seqs.FilterCons(ys[0], tail, p);
      assert Insert(x, ys, asc) == [ys[0]] + rest;
      InsertStable(x, tail, asc, e);
      Seqs.FilterCons(ys[0], rest, p);
      SwapUnequal(x, ys[0], asc, e);
      Regroup(theirs, mine, Seqs.Filter(tail, p));
    }
  }

  lemma Regroup(t: seq<User>, m: seq<User>, f: seq<User>)
    requires t + m == m + t
    ensures t + (m + f) == m + (t + f)
  {
    assert t + (m + f) == (t + m) + f;
  }

  /** Two users Insert swaps never share an email. */
  lemma SwapUnequal(x: User, y: User, asc: bool, e: string)
    requires !Before(x, y, asc)
    ensures (if y.email == e then [y] else []) + (if x.email == e then [x] else [])
         == (if x.email == e then [x] else []) + (if y.email == e then [y] else [])
  {
  }

  lemma {:induction false} SortStable(xs: seq<User>, asc: bool, e: string)
    ensures Seqs.Filter(SortByEmail(xs, asc), WithEmail(e)) == Seqs.Filter(xs, WithEmail(e))
  {
    if |xs| > 0 {
      SortStable(xs[1..], asc, e);
      InsertStable(xs[0], SortByEmail(xs[1..], asc), asc, e);
    }
  }

  /** `user => user.email === e`. */
  function WithEmail(e: string): User -> bool
  {
    (u: User) => u.email == e
  }

  function NameTest(search: string): User -> bool
  {
    u => NameMatches(u, search)
  }

  function CompanyTest(companyFilter: Option<string>): User -> bool
  {
    u => CompanyMatches(u, companyFilter)
  }

  function Matching(ctl: Controls): User -> bool
  {
    u => Matches(u, ctl)
  }

  function ByName(xs: seq<User>, search: string): seq<User>
  {
    Seqs.Filter(xs, NameTest(search))
  }

  function ByCompany(xs: seq<User>, companyFilter: Option<string>): seq<User>
  {
    Seqs.Filter(xs, CompanyTest(companyFilter))
  }

  /** `filteredUsers`: the matching users, each occurrence kept, ordered by email. */
  function Derive(xs: seq<User>, ctl: Controls): (r: seq<User>)
    ensures Sorted(r, ctl.sortAsc)
    ensures forall u :: u in r <==> u in xs && Matches(u, ctl)
    ensures forall u :: multiset(r)[u] == if Matches(u, ctl) then multiset(xs)[u] else 0
  {
    SortByEmail(ByCompany(ByName(xs, ctl.search), ctl.companyFilter), ctl.sortAsc)
  }

  /** The rows sharing an email are the matching users with that email, in
      the order the table received them. */
  lemma DeriveStable(xs: seq<User>, ctl: Controls, e: string)
    ensures Seqs.Filter(Derive(xs, ctl), WithEmail(e))
         == Seqs.Filter(Seqs.Filter(xs, Matching(ctl)), WithEmail(e))
  {
    var kept := ByCompany(ByName(xs, ctl.search), ctl.companyFilter);
    SortStable(kept, ctl.sortAsc, e);
    Seqs.FilterFilter(xs, NameTest(ctl.search), CompanyTest(ctl.companyFilter), Matching(ctl));
  }

  /** Applying the same controls to the derived rows changes nothing. */
  lemma DeriveIdempotent(xs: seq<User>, ctl: Controls)
    ensures Derive(Derive(xs, ctl), ctl) == Derive(xs, ctl)
  {
    var r := Derive(xs, ctl);
    Seqs.FilterAllPass(r, NameTest(ctl.search));
    Seqs.FilterAllPass(r, CompanyTest(ctl.companyFilter));
    SortSorted(r, ctl.sortAsc);
  }

  /** With an empty search and no company chosen, the rows are a permutation
      of the users. */
  lemma UnfilteredIsPermutation(xs: seq<User>, ctl: Controls)
    requires ctl.search == "" && !FilterActive(ctl.companyFilter)
    ensures multiset(Derive(xs, ctl)) == multiset(xs)
  {
  }

  /** Choosing "All Companies" does not clear the filter: only users of a
      company literally named "All Companies" remain. */
  lemma AllCompaniesIsLiteral(xs: seq<User>, search: string, asc: bool)
    ensures forall u :: u in Derive(xs, Controls(search, Choose("All Companies"), asc)) ==>
              u.company.name == "All Companies"
  {
  }

  function CompanyNames(xs: seq<User>): (names: seq<string>)
    ensures |names| == |xs|
    ensures forall i :: 0 <= i < |xs| ==> names[i] == xs[i].company.name
  {
    seq(|xs|, i requires 0 <= i < |xs| => xs[i].company.name)
  }

  /** `Array.from(new Set(users.map(u => u.company.name)))`. */
  function UniqueCompanies(xs: seq<User>): (r: seq<string>)
    ensures Seqs.NoDup(r)
    ensures forall u :: u in xs ==> u.company.name in r
    ensures forall c :: c in r ==> exists u :: u in xs && u.company.name == c
  {
    var names := CompanyNames(xs);
    var r := Seqs.Dedup(names);
    assert forall u :: u in xs ==> u.company.name in names by {
      forall u | u in xs ensures u.company.name in names {
        var i :| 0 <= i < |xs| && xs[i] == u;
        assert names[i] == u.company.name;
      }
    }
    assert forall c :: c in names ==> exists u :: u in xs && u.company.name == c by {
      forall c | c in names ensures exists u :: u in xs && u.company.name == c {
        var i :| 0 <= i < |names| && names[i] == c;
        assert xs[i] in xs;
      }
    }
    r
  }
}
