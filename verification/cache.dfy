/**
 The optimistic transforms the add/edit and delete dialogs apply to the
 cached `["users"]` list before the remote call is made. The cache may be
 absent (`None`) when the list has not been fetched yet.
 */
module Cache {
  import opened Users
  import Seqs

  type UserCache = Option<seq<User>>

  /** `queryClient.setQueryData(["users"], data)`: the query library ignores
      an `undefined` value, so writing `None` leaves the cache as it is. */
  function Write(current: UserCache, data: UserCache): UserCache
  {
    if data.Some? then data else current
  }

  /** `{...u, ...f, company: {...u.company, name: f.companyName}}`. */
  function Merge(u: User, f: FormData): (r: User)
    ensures Prefill(r) == f
    ensures r.companyName == Some(f.companyName)
    ensures r.(name := u.name, email := u.email, phone := u.phone,
               company := u.company, companyName := u.companyName) == u
    ensures r.company.(name := u.company.name) == u.company
  {
    u.(name := f.name, email := f.email, phone := f.phone,
       company := u.company.(name := f.companyName),
       companyName := Some(f.companyName))
  }

  /** `xs.map(u => u.id === id ? Merge(u, f) : u)`. */
  function EditList(xs: seq<User>, id: int, f: FormData): (r: seq<User>)
    ensures |r| == |xs|
    ensures Ids(r) == Ids(xs)
    ensures forall i :: 0 <= i < |xs| && xs[i].id != id ==> r[i] == xs[i]
    ensures forall i :: 0 <= i < |xs| && xs[i].id == id ==> r[i] == Merge(xs[i], f)
  {
    if |xs| == 0 then []
    else [if xs[0].id == id then Merge(xs[0], f) else xs[0]] + EditList(xs[1..], id, f)
  }

  /** The edit dialog's optimistic write: `old?.map(...)`. */
  function Edit(cache: UserCache, id: int, f: FormData): (r: UserCache)
    ensures r.None? <==> cache.None?
    ensures cache.Some? ==> r == Some(EditList(cache.value, id, f))
  {
    match cache
    case None => None
    case Some(xs) => Some(EditList(xs, id, f))
  }

  /** Editing an id that is not cached changes nothing. */
  lemma EditAbsentId(xs: seq<User>, id: int, f: FormData)
    requires id !in Ids(xs)
    ensures EditList(xs, id, f) == xs
  {
  }

  /** Saving the same form twice has the effect of saving it once. */
  lemma EditIdempotent(cache: UserCache, id: int, f: FormData)
    ensures Edit(Edit(cache, id, f), id, f) == Edit(cache, id, f)
  {
    if cache.Some? {
      var once := EditList(cache.value, id, f);
      var twice := EditList(once, id, f);
      forall i | 0 <= i < |once|
        ensures twice[i] == once[i]
      {
        assert Ids(once)[i] == Ids(cache.value)[i];
      }
      assert twice == once;
    }
  }

  /** Saving an edit dialog that was opened on `u` and left untouched only
      adds the loose `companyName` property. */
  lemma MergeUnchangedForm(u: User)
    ensures Merge(u, Prefill(u)) == u.(companyName := Some(u.company.name))
  {
  }

  /** The record an add appends, with the supplied `Date.now()` as its id. */
  function NewUser(now: int, f: FormData): (r: User)
    ensures r.id == now
    ensures Prefill(r) == f
    ensures r.username == "" && r.website == "" && r.address == Address("", "", "")
    ensures r.company.catchPhrase == "" && r.company.bs == ""
    ensures r.companyName.None?
  {
    User(now, f.name, "", f.email, f.phone, "", Address("", "", ""),
         Company(f.companyName, "", ""), None)
  }

  /** The add dialog's optimistic write: `[...(old || []), NewUser(now, f)]`. */
  function Add(cache: UserCache, now: int, f: FormData): (r: UserCache)
    ensures r.Some?
    ensures |r.value| == |GetOr(cache, [])| + 1
    ensures r.value[..|r.value| - 1] == GetOr(cache, [])
    ensures r.value[|r.value| - 1] == NewUser(now, f)
  {
    Some(GetOr(cache, []) + [NewUser(now, f)])
  }

  /** Ids stay unique after an add exactly when the timestamp is not yet an id. */
  lemma AddKeepsIdsUnique(xs: seq<User>, now: int, f: FormData)
    requires UniqueIds(xs)
    ensures UniqueIds(Add(Some(xs), now, f).value) <==> now !in Ids(xs)
  {
  }

  predicate KeepsOther(id: int, u: User)
  {
    u.id != id
  }

  /** `xs.filter(u => u.id !== id)`. */
  function Remove(xs: seq<User>, id: int): (r: seq<User>)
    ensures id !in Ids(r)
    ensures forall u :: u in r <==> u in xs && u.id != id
    ensures forall u :: multiset(r)[u] == if u.id != id then multiset(xs)[u] else 0
    ensures Seqs.IsSubseq(r, xs)
  {
    var r := Seqs.Filter(xs, u => KeepsOther(id, u));
    assert forall i :: 0 <= i < |r| ==> r[i] in r;
    r
  }

  /** The delete dialog's optimistic write: `old?.filter(u => u.id !== id)`. */
  function Delete(cache: UserCache, id: int): (r: UserCache)
    ensures r.None? <==> cache.None?
    ensures cache.Some? ==> r == Some(Remove(cache.value, id))
  {
    match cache
    case None => None
    case Some(xs) => Some(Remove(xs, id))
  }

  /** Deleting an id that is not cached changes nothing. */
  lemma DeleteAbsentId(xs: seq<User>, id: int)
    requires id !in Ids(xs)
    ensures Remove(xs, id) == xs
  {
    assert forall u :: u in xs ==> u.id in Ids(xs);
    Seqs.FilterAllPass(xs, u => KeepsOther(id, u));
  }

  /** Deleting twice is deleting once. */
  lemma DeleteIdempotent(cache: UserCache, id: int)
    ensures Delete(Delete(cache, id), id) == Delete(cache, id)
  {
    if cache.Some? {
      DeleteAbsentId(Remove(cache.value, id), id);
    }
  }
}
