/**
 The lifecycle of one optimistic mutation, as the add/edit dialog and the
 delete dialog drive it through the query library's callbacks:

   Idle --onMutate--> Optimistic(snapshot) --onError?; onSettled--> Settled(outcome)

 `onMutate` snapshots the cached list, installs the optimistic list and
 appends one activity entry; `mutationFn` issues the request; on failure
 `onError` writes the snapshot back; `onSettled` always marks the list stale
 (which triggers a refetch) and closes the dialog.
 */
module Mutation {
  import opened Users
  import Cache
  import Seqs

  datatype Kind = Add | Edit | Delete

  /** One entry of the activity log; `timestamp` is `new Date().toISOString()`. */
  datatype Activity = Activity(kind: Kind, message: string, timestamp: string)

  /** What the user asked for: an edit of the user the dialog was opened on,
      an add (the dialog was opened without a user), or a delete. */
  datatype Op =
    | EditUser(target: User, form: FormData)
    | AddUser(form: FormData)
    | DeleteUser(target: User)

  datatype Verb = POST | PUT | DELETE

  /** `/users` or `/users/{id}`. */
  datatype Endpoint = UsersCollection | UserItem(id: int)

  datatype Request = Request(verb: Verb, endpoint: Endpoint, payload: Option<Payload>)

  /** How the remote call ended. */
  datatype Response = Ok | Failed

  datatype Outcome = Confirmed | RolledBack

  datatype Phase = Idle | Optimistic(snapshot: Cache.UserCache) | Settled(outcome: Outcome)

  /** The client-side state a mutation touches: the cached list, the activity
      log, whether the list is marked stale, and whether the dialog is open. */
  datatype Client = Client(cache: Cache.UserCache, log: seq<Activity>, stale: bool, dialogOpen: bool)

  /** One mutation in progress, together with the client state. */
  datatype Flight = Flight(client: Client, phase: Phase)

  /** The optimistic transform `onMutate` installs; `now` is `Date.now()`. */
  function Apply(cache: Cache.UserCache, op: Op, now: int): Cache.UserCache
  {
    match op
    case EditUser(target, form) => Cache.Edit(cache, target.id, form)
    case AddUser(form) => Cache.Add(cache, now, form)
    case DeleteUser(target) => Cache.Delete(cache, target.id)
  }

  function KindOf(op: Op): Kind
  {
    match op
    case EditUser(_, _) => Edit
    case AddUser(_) => Add
    case DeleteUser(_) => Delete
  }

  function Verbed(k: Kind): string
  {
    match k
    case Add => "Added user: "
    case Edit => "Edited user: "
    case Delete => "Deleted user: "
  }

  /** The name the log entry mentions: the name the user had when the dialog
      opened for an edit or a delete, the new name for an add. */
  function Subject(op: Op): string
  {
    match op
    case EditUser(target, _) => target.name
    case AddUser(form) => form.name
    case DeleteUser(target) => target.name
  }

  /** The activity entry `onMutate` emits. */
  function Entry(op: Op, stamp: string): Activity
  {
    Activity(KindOf(op), Verbed(KindOf(op)) + Subject(op), stamp)
  }

  /** The log entry names the action in the past tense, then the user: the
      name the user had for an edit or a delete, the new name for an add. */
  lemma EntryMessage(op: Op, stamp: string)
    ensures op.EditUser? ==> Entry(op, stamp) == Activity(Edit, "Edited user: " + op.target.name, stamp)
    ensures op.AddUser? ==> Entry(op, stamp) == Activity(Add, "Added user: " + op.form.name, stamp)
    ensures op.DeleteUser? ==> Entry(op, stamp) == Activity(Delete, "Deleted user: " + op.target.name, stamp)
  {
  }

  /** `mutationFn`: PUT to the edited user, POST to the collection for an add,
      DELETE of the user for a delete; add and edit send the form as payload. */
  function RequestFor(op: Op): (r: Request)
    ensures r.verb == PUT <==> op.EditUser?
    ensures r.verb == POST <==> op.AddUser?
    ensures r.endpoint == UsersCollection <==> op.AddUser?
    ensures !op.AddUser? ==> r.endpoint == UserItem(op.target.id)
    ensures r.payload.Some? <==> !op.DeleteUser?
    ensures !op.DeleteUser? ==> FormOf(r.payload.value) == op.form
    ensures !op.DeleteUser? ==> r.payload.value.company.name == op.form.companyName
  {
    match op
    case EditUser(target, form) => Request(PUT, UserItem(target.id), Some(PayloadOf(form)))
    case AddUser(form) => Request(POST, UsersCollection, Some(PayloadOf(form)))
    case DeleteUser(target) => Request(DELETE, UserItem(target.id), None)
  }

  /** A rollback can restore the snapshot unless the snapshot is absent while
      the optimistic write installed a list, which only an add does. */
  predicate Restorable(cache: Cache.UserCache, op: Op)
  {
    cache.Some? || !op.AddUser?
  }

  /** `onMutate`: snapshot the cache, install the optimistic list, log the
      action. Writing the snapshot back undoes everything but the log entry,
      except after an add to an absent list, whose record then stays. */
  function Begin(f: Flight, op: Op, now: int, stamp: string): (r: Flight)
    requires f.phase.Idle?
    ensures r.phase.Optimistic?
    ensures r.client.cache == Apply(f.client.cache, op, now)
    ensures Restorable(f.client.cache, op) ==>
              OnError(r).client == f.client.(log := f.client.log + [Entry(op, stamp)])
    ensures !Restorable(f.client.cache, op) ==> OnError(r).client == r.client
  {
    var c := f.client;
    Flight(c.(cache := Cache.Write(c.cache, Apply(c.cache, op, now)), log := c.log + [Entry(op, stamp)]),
           Optimistic(c.cache))
  }

  /** `onError`: write the snapshot back. */
  function OnError(f: Flight): Flight
    requires f.phase.Optimistic?
  {
    f.(client := f.client.(cache := Cache.Write(f.client.cache, f.phase.snapshot)))
  }

  /** `onSettled`: invalidate the list and close the dialog. */
  function OnSettled(f: Flight, outcome: Outcome): Flight
  {
    Flight(f.client.(stale := true, dialogOpen := false), Settled(outcome))
  }

  /** The remote call has answered: roll back on failure, then settle. */
  function Finish(f: Flight, response: Response): (r: Flight)
    requires f.phase.Optimistic?
    ensures r.phase.Settled?
    ensures r.phase.outcome == RolledBack <==> response == Failed
    ensures r.client.log == f.client.log
    ensures r.client.stale && !r.client.dialogOpen
    ensures response == Failed && f.phase.snapshot.Some? ==> r.client.cache == f.phase.snapshot
    ensures response == Failed && f.phase.snapshot.None? ==> r.client.cache == f.client.cache
    ensures response == Ok ==> r.client.cache == f.client.cache
  {
    match response
    case Failed => OnSettled(OnError(f), RolledBack)
    case Ok => OnSettled(f, Confirmed)
  }

  /** The refetch an invalidation triggers: a stale list is replaced by the
      list the server returns. */
  function Refetch(c: Client, server: seq<User>): Client
  {
    if c.stale then c.(cache := Some(server), stale := false) else c
  }

  /** One whole mutation from the client's point of view, up to (not
      including) the refetch. */
  function Run(c: Client, op: Op, now: int, stamp: string, response: Response): Client
  {
    Finish(Begin(Flight(c, Idle), op, now, stamp), response).client
  }

  /** A failed mutation leaves the cache exactly as it was before `onMutate`,
      unless it added to an absent list. */
  lemma RollbackRestoresSnapshot(c: Client, op: Op, now: int, stamp: string)
    requires Restorable(c.cache, op)
    ensures Run(c, op, now, stamp, Failed).cache == c.cache
  {
  }

  /** An add made while the list is absent (the Add button works while the
      list is loading) survives its own failure: the snapshot is `undefined`,
      which the rollback cannot write. Only the refetch removes the record. */
  lemma FailedAddToAbsentList(c: Client, f: FormData, now: int, stamp: string, server: seq<User>)
    requires c.cache.None?
    ensures Run(c, AddUser(f), now, stamp, Failed).cache == Some([Cache.NewUser(now, f)])
    ensures Refetch(Run(c, AddUser(f), now, stamp, Failed), server).cache == Some(server)
  {
  }

  /** A successful mutation keeps the optimistic list until the refetch. */
  lemma ConfirmKeepsOptimistic(c: Client, op: Op, now: int, stamp: string)
    ensures Run(c, op, now, stamp, Ok).cache == Apply(c.cache, op, now)
  {
  }

  /** Whatever the response, the mutation appends exactly its own entry to the
      log, marks the list stale and closes the dialog; after the refetch the
      cache is the server's list. */
  lemma SettleAlways(c: Client, op: Op, now: int, stamp: string, response: Response, server: seq<User>)
    ensures Run(c, op, now, stamp, response).log == c.log + [Entry(op, stamp)]
    ensures Run(c, op, now, stamp, response).stale
    ensures !Run(c, op, now, stamp, response).dialogOpen
    ensures Refetch(Run(c, op, now, stamp, response), server).cache == Some(server)
  {
  }

  /** One mutation attempt with its environment: the clock readings and the
      remote call's response. */
  datatype Attempt = Attempt(op: Op, now: int, stamp: string, response: Response)

  /** Attempts run one after another, each settling before the next begins. */
  function RunAll(c: Client, attempts: seq<Attempt>): Client
    decreases |attempts|
  {
    if |attempts| == 0 then c
    else
      var a := attempts[0];
      RunAll(Run(c, a.op, a.now, a.stamp, a.response), attempts[1..])
  }

  function Entries(attempts: seq<Attempt>): (r: seq<Activity>)
    ensures |r| == |attempts|
  {
    seq(|attempts|, i requires 0 <= i < |attempts| => Entry(attempts[i].op, attempts[i].stamp))
  }

  /** After N attempts, successful or rolled back, the log has grown by exactly
      N entries, in call order. */
  lemma {:induction false} LogCountsAttempts(c: Client, attempts: seq<Attempt>)
    ensures RunAll(c, attempts).log == c.log + Entries(attempts)
    decreases |attempts|
  {
    if |attempts| > 0 {
      var a := attempts[0];
      var c' := Run(c, a.op, a.now, a.stamp, a.response);
      var e := Entry(a.op, a.stamp);
      SettleAlways(c, a.op, a.now, a.stamp, a.response, []);
      assert c'.log == c.log + [e];
      LogCountsAttempts(c', attempts[1..]);
      assert RunAll(c, attempts) == RunAll(c', attempts[1..]);
      assert Entries(attempts) == [e] + Entries(attempts[1..]);
      assert c.log + [e] + Entries(attempts[1..]) == c.log + ([e] + Entries(attempts[1..]));
    }
  }

  /** Delete B from [A, B]: the cache shows [A] at once, and [A, B] again when
      the remote call fails. */
  lemma DeleteThenRollback(c: Client, a: User, b: User, now: int, stamp: string)
    requires c.cache == Some([a, b]) && a.id != b.id
    ensures Begin(Flight(c, Idle), DeleteUser(b), now, stamp).client.cache == Some([a])
    ensures Run(c, DeleteUser(b), now, stamp, Failed).cache == Some([a, b])
  {
    var keep := u => Cache.KeepsOther(b.id, u);
    assert [a, b][1..] == [b] && [b][1..] == [];
    assert Seqs.Filter([b], keep) == [];
    assert Cache.Remove([a, b], b.id) == [a];
  }

  /** Edit A in [A, B]: the cache shows [A', B] at once, and the server's list
      after the success and its refetch. */
  lemma EditThenConfirm(c: Client, a: User, b: User, f: FormData, now: int, stamp: string, server: seq<User>)
    requires c.cache == Some([a, b]) && a.id != b.id
    ensures Begin(Flight(c, Idle), EditUser(a, f), now, stamp).client.cache == Some([Cache.Merge(a, f), b])
    ensures Refetch(Run(c, EditUser(a, f), now, stamp, Ok), server).cache == Some(server)
  {
    var r := Cache.EditList([a, b], a.id, f);
    assert r[0] == Cache.Merge(a, f) && r[1] == b;
    assert r == [Cache.Merge(a, f), b];
  }
}
