# User dashboard: optimistic cache, table view and pagination in Dafny

This project models the list logic of a client-rendered user-management
dashboard. The dashboard shows users from a remote REST collection. It edits,
adds and deletes them through optimistic writes to a client-side query cache,
and it filters, sorts and paginates the list.

Three parts are modelled:

- **Optimistic mutations** (`cache.dfy`, `mutation.dfy`).
  - The add/edit dialog and the delete dialog snapshot the cached `User[]`.
  - They then install one of three transforms:
    - edit merges the form into the user with the edited id;
    - add appends a record whose temporary id is `Date.now()`;
    - delete filters the id out.
  - Each mutation appends one activity entry.
  - On failure the snapshot is written back. On settle the list is always invalidated and the dialog closed.
  - The lifecycle is the state machine `Idle -> Optimistic(snapshot) -> Settled(Confirmed | RolledBack)`.
- **The table's view** (`view.dfy`, `text.dfy`).
  - A case-insensitive name search and an exact company filter.
  - A stable sort by email, ascending or descending.
  - The de-duplicated company list and the avatar initials.
- **Pagination** (`paging.dfy`).
  - `ceil(n/5)` pages and the `slice` of the current page.
  - Prev and Next with their disabled guards.
  - The fact that the table is handed only the current page.

`seqs.dfy` holds the generic `filter` and `new Set` de-duplication. `users.dfy` holds the records.

Two behaviours of the code are modelled as written and proved as lemmas.
First, the table receives only the current page (app/users/page.tsx:49), so
search, filter and sort never see users on other pages (`Paging.SearchStaysOnPage`).
Second, with no users there are no pages, yet Next stays enabled on page 1 and moves
the page to 0 (`Paging.EmptyListNextGoesToZero`).

There is also an additional quirk. After a delete shrinks the list, the current page can lie
past the last page and show nothing until a button is pressed
(`Paging.ShrinkLeavesEmptyPage`).

The query library's `setQueryData` ignores an `undefined` value (`Cache.Write`).
So an edit or delete on an absent list changes nothing. A rollback to an absent
snapshot also changes nothing. The Add button works while the list is still
loading (app/users/page.tsx:35-44). An add made then therefore survives its own
failure until the refetch (`Mutation.FailedAddToAbsentList`). Whenever the list
was present, the rollback restores the snapshot exactly.

Choosing "All Companies" in the company select sets the filter to that literal
string instead of clearing it (`View.AllCompaniesIsLiteral`).

The edit transform spreads the whole form into the user record. This copies
a loose `companyName` property onto the cached record as well. The model carries
it as `User.companyName`.

## Model

| member | source | states |
|---|---|---|
| `Seqs.Filter` | app/components/Table.tsx:24-27 | `filter` keeps exactly the elements that pass, every occurrence of each, in their original order (membership iff, multiset counts, subsequence) |
| `Seqs.FilterFilter` | app/components/Table.tsx:24-27 | filtering by the search and then by the company keeps exactly the users that pass both, in order |
| `Seqs.FilterIdempotent` | app/components/DeleteDialog.tsx:28 | filtering twice with one predicate is filtering once |
| `Users.PayloadOf` | app/components/UserForm.tsx:57-60 | the request payload carries the form's four fields unchanged, so different forms send different payloads, and `company.name` equals `companyName` |
| `Cache.Merge` | app/components/UserForm.tsx:79-83 | the edited record reads back in the form as exactly the submitted form; its id, username, website, address, catchPhrase and bs are the old record's; it gains `companyName` |
| `Cache.MergeUnchangedForm` | app/components/UserForm.tsx:79-83 | saving a form pre-filled from a user and left untouched changes nothing but the loose `companyName` property |
| `Cache.EditList` | app/components/UserForm.tsx:77-85 | the edit keeps length, order and every id; entries with another id are unchanged; the entry with the edited id is the merge |
| `Cache.Edit` | app/components/UserForm.tsx:76-86 | an absent cache stays absent; a present one is edited |
| `Cache.EditAbsentId` | app/components/UserForm.tsx:76-85 | editing an id that is not cached leaves the list unchanged |
| `Cache.EditIdempotent` | app/components/UserForm.tsx:76-86 | applying the same edit twice equals applying it once |
| `Cache.NewUser` | app/components/UserForm.tsx:96-109 | the added record has the timestamp as id and reads back as the form; username, website, address, catchPhrase and bs are empty |
| `Cache.Add` | app/components/UserForm.tsx:94-110 | add always yields a list, one longer than the old one; an absent cache counts as empty; the old entries form an unchanged prefix; the new record is last |
| `Cache.AddKeepsIdsUnique` | app/components/UserForm.tsx:97 | on a list with unique ids, ids stay unique after an add if and only if the timestamp is not already an id |
| `Cache.Remove` | app/components/DeleteDialog.tsx:28 | after the delete no entry has the id; the rest are exactly the entries with other ids, every occurrence, in original order |
| `Cache.Delete` | app/components/DeleteDialog.tsx:27-29 | an absent cache stays absent; a present one loses the id |
| `Cache.DeleteAbsentId` | app/components/DeleteDialog.tsx:28 | deleting an id that is not cached leaves the list unchanged |
| `Cache.DeleteIdempotent` | app/components/DeleteDialog.tsx:28 | deleting twice equals deleting once |
| `Mutation.EntryMessage` | app/components/UserForm.tsx:88-116 | (the delete entry is written at app/components/DeleteDialog.tsx:32-36) an edit logs an `edit` entry "Edited user: " + the pre-edit name, an add an `add` entry "Added user: " + the new name, a delete a `delete` entry "Deleted user: " + the name; each is stamped with the supplied time |
| `Mutation.RequestFor` | app/components/UserForm.tsx:56-69 | PUT to `/users/{id}` exactly for an edit, POST to `/users` exactly for an add, otherwise DELETE of `/users/{id}`; the payload holds the form, with `company.name` set to the form's company name, for add and edit only |
| `Mutation.Begin` | app/components/UserForm.tsx:71-120 | `onMutate` installs the optimistic list; writing its snapshot back undoes everything except the one appended log entry, unless the snapshot is absent and the write was an add, in which case the write-back changes nothing |
| `Mutation.Finish` | app/components/UserForm.tsx:122-128 | settling always marks the list stale and closes the dialog and never touches the log; a failure writes back a present snapshot and leaves the cache alone for an absent one; a success keeps the optimistic list |
| `Mutation.RollbackRestoresSnapshot` | app/components/UserForm.tsx:73-124 | a failed mutation leaves the cache exactly as it was before `onMutate`, provided the list was present or the mutation was not an add |
| `Mutation.FailedAddToAbsentList` | app/components/UserForm.tsx:94-124 | an add made while the list is absent keeps its record after its own failure, until the refetch installs the server's list |
| `Mutation.ConfirmKeepsOptimistic` | app/components/UserForm.tsx:125-128 | a successful mutation keeps the optimistic list until the refetch |
| `Mutation.SettleAlways` | app/components/DeleteDialog.tsx:40-46 | for any response the log gains exactly this mutation's entry, the list is stale, the dialog is closed, and the refetch installs the server's list |
| `Mutation.LogCountsAttempts` | app/components/DeleteDialog.tsx:32-42 | after N attempts, rolled back or not, the log has grown by exactly their N entries in call order |
| `Mutation.DeleteThenRollback` | app/components/DeleteDialog.tsx:25-42 | deleting B from [A, B] shows [A] at once and [A, B] again after a failure |
| `Mutation.EditThenConfirm` | app/components/UserForm.tsx:76-128 | editing A in [A, B] shows [A', B] at once and the server's list after success and refetch |
| `Text.IncludesAtPosition` | app/components/Table.tsx:25 | `includes` holds exactly when the search string occurs at some position of the name |
| `Text.Compare` | app/components/Table.tsx:30-31 | the email comparison is negative, zero or positive, and zero exactly for equal strings |
| `Text.CompareAntisymmetric` | app/components/Table.tsx:28-32 | swapping the operands negates the comparison, so the descending comparator is the ascending one reversed |
| `Text.CompareTransitive` | app/components/Table.tsx:28-32 | "not after" is transitive |
| `Text.Split` | app/components/Table.tsx:117 | `split(" ")` yields at least one piece and no piece contains a space |
| `Text.JoinSplit` | app/components/Table.tsx:117 | joining the pieces with single spaces gives back the name |
| `Text.SplitJoin` | app/components/Table.tsx:117 | splitting a join of space-free pieces gives back the pieces |
| `Text.Initials` | app/components/Table.tsx:117 | the initials have one character per non-empty part of the name, that part's first; empty parts contribute nothing |
| `Text.InitialsAreWordStarts` | app/components/Table.tsx:117 | the initials are exactly the non-space characters that begin the name or follow a space |
| `View.BeforeTotal` | app/components/Table.tsx:28-32 | any two users are comparable in either direction |
| `View.BeforeTransitive` | app/components/Table.tsx:28-32 | the sort order is transitive in either direction |
| `View.Insert` | app/components/Table.tsx:28-32 | inserting into a sorted list keeps it sorted and adds exactly the one element |
| `View.SortByEmail` | app/components/Table.tsx:28-32 | the sort is a permutation ordered by email, ascending or descending as toggled |
| `View.InsertStable` | app/components/Table.tsx:28-32 | the inserted user lands in front of the users that share its email, and those keep their order |
| `View.SortStable` | app/components/Table.tsx:28-32 | the sort is stable: for every email, the users with that email come out in their input order |
| `View.SortSorted` | app/components/Table.tsx:28-32 | an already sorted list is left as it is |
| `View.Derive` | app/components/Table.tsx:23-34 | a user is shown iff it is given and matches the search (case-insensitively) and the company filter (exactly, when non-empty); each occurrence is kept; rows are ordered by email |
| `View.DeriveStable` | app/components/Table.tsx:23-34 | for every email, the rows with that email are the matching users with that email in the order the table received them |
| `View.DeriveIdempotent` | app/components/Table.tsx:23-34 | deriving again with the same controls from the derived rows gives the same rows |
| `View.UnfilteredIsPermutation` | app/components/Table.tsx:24-33 | with an empty search and no company filter the rows are a permutation of the users |
| `View.AllCompaniesIsLiteral` | app/components/Table.tsx:50-59 | choosing "All Companies" keeps only users of a company literally named "All Companies" |
| `View.UniqueCompanies` | app/components/Table.tsx:36 | the company list has no duplicates, contains every user's company, and nothing else |
| `Paging.Loaded` | app/users/page.tsx:16 | absent data reads as no users and no pages |
| `Paging.TotalPages` | app/users/page.tsx:29 | the page count is the least number of 5-user pages holding all users |
| `Paging.SliceIndex` | app/users/page.tsx:31 | a slice index within the list is taken as is, one past its end is clamped to its length |
| `Paging.Page` | app/users/page.tsx:31 | page p >= 1 is `users[(p-1)*5 .. min(p*5, n)]` (empty past the end) and page 0 is empty |
| `Paging.PageShape` | app/users/page.tsx:29-31 | pages before the last hold 5 users, the last holds 1 to 5, page 0 and pages past the last are empty |
| `Paging.PagesCoverList` | app/users/page.tsx:29-31 | pages 1..totalPages put together are exactly the user list |
| `Paging.TwelveUsers` | app/users/page.tsx:29-31 | twelve users make three pages and page 3 holds the last two |
| `Paging.PressPrev` | app/users/page.tsx:57 | Prev never goes below 1, steps back by one above page 1 and does nothing on page 1 |
| `Paging.PressNext` | app/users/page.tsx:58 | Next does nothing on the last page, steps forward below it and falls back to the last page above it |
| `Paging.BrowseStaysInRange` | app/users/page.tsx:57-58 | with at least one page, any sequence of presses from a page in range stays in 1..totalPages |
| `Paging.EmptyListNextGoesToZero` | app/components/Pagination.tsx:23 | with no users Next is enabled on page 1 and moves to page 0, where Prev leads back to 1 |
| `Paging.ShrinkLeavesEmptyPage` | app/users/page.tsx:29-31 | on page 3 after eleven users shrink to ten, the page is empty and Next moves back to page 2 |
| `Paging.Rows` | app/users/page.tsx:49 | every row the table shows lies on the current page |
| `Paging.InitialRowsArePage` | app/users/page.tsx:49 | a freshly mounted table shows the current page's users, reordered by email ascending |
| `Paging.SearchStaysOnPage` | app/users/page.tsx:31-49 | a matching user that is only on page 2 is found in the whole list but not among page 1's rows |

## Left out

- Rendering, Radix dialogs and selects, styling, routing and the detail view are not modelled: they are markup with no list logic.
- The query library is not modelled. The refetch that `invalidateQueries` starts (app/components/UserForm.tsx:126, app/components/DeleteDialog.tsx:44) becomes a stale flag plus the explicit `Mutation.Refetch` step, which installs a server list passed in as a parameter.
- `cancelQueries` (app/components/UserForm.tsx:72, app/components/DeleteDialog.tsx:24) is not modelled. The model assumes that no fetch of the list lands between the snapshot and the settle.
- The query library's `setQueryData` is taken to leave the cache alone when handed `undefined` (`Cache.Write`); the library itself is not part of this model.
- The HTTP client is not modelled. A request is the `Mutation.Request` value, and its outcome is the `Response` parameter.
- The endpoint `/users/{id}` is the value `UserItem(id)`; the decimal rendering of the id into the URL is not modelled.
- `Date.now()` and `new Date().toISOString()` are parameters (`now`, `stamp`).
- The activity log is an append-only sequence of emitted entries. The store that holds it is not part of this model, and neither is its persistence.
- Overlapping in-flight mutations are not modelled. `Mutation.RunAll` settles each attempt before the next begins; the interleavings of the event loop are out of scope.
- `Text.Lower`: `toLowerCase` is modelled for ASCII letters only; full Unicode case mapping is not modelled.
- `Text.Initials`: strings are sequences of Unicode code points, while JavaScript's `n[0]` (app/components/Table.tsx:117) takes the first UTF-16 code unit. For a name part that starts outside the Basic Multilingual Plane the source shows a lone surrogate, and the model shows the whole character.
- `Text.Compare`: `localeCompare` is modelled as code-point lexicographic order. The proofs use only that it is antisymmetric, transitive and zero exactly on equal strings; locale collation is not modelled.
- `View.UniqueCompanies`: the contract does not state that names come in order of first appearance. The definition gives that order.
- Fields of server records that no transform touches are not carried, for example the address's suite and geo. Every transform leaves them alone.
- The required-field check of the form inputs happens before a mutation starts and is not modelled.
