/**
 The "users" slice of the application store: an ordered sequence of user
 records and the three reducers that change it. Each reducer is a pure
 function from the old state to the new one.
 */
module UserSlice {
  import opened Users
  import opened Seqs

  datatype UserState = UserState(users: seq<User>)

  /** The state before any action: no users. */
  function Initial(): (s: UserState)
    ensures |s.users| == 0
  {
    UserState([])
  }

  /** `setUsers`: the payload replaces the stored users wholesale. */
  function SetUsers(s: UserState, payload: seq<User>): (r: UserState)
    ensures r.users == payload
  {
    UserState(payload)
  }

  /** `addUser`: the record is appended after all existing ones. */
  function AddUser(s: UserState, u: User): (r: UserState)
    ensures |r.users| == |s.users| + 1
    ensures r.users[|s.users|] == u
    ensures r.users[..|s.users|] == s.users
  {
    UserState(s.users + [u])
  }

  /** The test `removeUser` applies to each record. */
  function KeepsUser(id: string): User -> bool {
    (u: User) => u.id != id
  }

  /** `removeUser`: keeps, in order, every record whose identifier differs from `id`. */
  function RemoveUser(s: UserState, id: string): (r: UserState)
    ensures forall i :: 0 <= i < |r.users| ==> r.users[i].id != id
    ensures forall u :: u in r.users <==> u in s.users && u.id != id
    ensures forall u :: multiset(r.users)[u] == if u.id != id then multiset(s.users)[u] else 0
    ensures |r.users| <= |s.users|
  {
    UserState(Filter(KeepsUser(id), s.users))
  }

  /** `removeUser` never reorders: its result is a subsequence of the old users. */
  lemma RemoveUserIsSubsequence(s: UserState, id: string)
    ensures IsSubsequence(RemoveUser(s, id).users, s.users)
  {
    FilterIsSubsequence(KeepsUser(id), s.users);
  }

  /**
   The result of `removeUser` is pinned down by what it keeps: the only
   subsequence of the old users that holds each record with a different
   identifier as often as before, and no record with identifier `id`.
   */
  lemma RemoveUserCharacterised(s: UserState, id: string, kept: seq<User>)
    requires IsSubsequence(kept, s.users)
    requires forall u :: multiset(kept)[u] == if u.id != id then multiset(s.users)[u] else 0
    ensures RemoveUser(s, id).users == kept
  {
    FilterUnique(KeepsUser(id), s.users, kept);
  }

  /** `removeUser` changes nothing exactly when no stored user has that identifier. */
  lemma RemoveUserNoOp(s: UserState, id: string)
    ensures RemoveUser(s, id) == s <==> forall i :: 0 <= i < |s.users| ==> s.users[i].id != id
  {
    FilterKeepsAll(KeepsUser(id), s.users);
  }

  /** Removing the same identifier twice is the same as removing it once. */
  lemma RemoveUserIdempotent(s: UserState, id: string)
    ensures RemoveUser(RemoveUser(s, id), id) == RemoveUser(s, id)
  {
    FilterIdempotent(KeepsUser(id), s.users);
  }

  /**
   Removing after adding: the added record survives exactly when its
   identifier differs, and it stays behind every surviving older record.
   */
  lemma RemoveAfterAdd(s: UserState, u: User, id: string)
    ensures RemoveUser(AddUser(s, u), id)
              == if u.id == id then RemoveUser(s, id) else AddUser(RemoveUser(s, id), u)
  {
    FilterAppend(KeepsUser(id), s.users, [u]);
  }

  /** The actions the slice's reducer accepts. */
  datatype Action =
    | SetUsersAction(payload: seq<User>)
    | AddUserAction(user: User)
    | RemoveUserAction(id: string)

  /** The slice reducer: dispatches an action to its case reducer. */
  function Reduce(s: UserState, a: Action): (r: UserState)
    ensures a.SetUsersAction? ==> r.users == a.payload
    ensures a.AddUserAction? ==> r.users == s.users + [a.user]
    ensures a.RemoveUserAction? ==>
              && IsSubsequence(r.users, s.users)
              && (forall u :: u in r.users <==> u in s.users && u.id != a.id)
              && (forall u :: multiset(r.users)[u] == if u.id != a.id then multiset(s.users)[u] else 0)
  {
    match a
    case SetUsersAction(p) => SetUsers(s, p)
    case AddUserAction(u) =>
      assert s.users + [u] == AddUser(s, u).users;
      AddUser(s, u)
    case RemoveUserAction(id) =>
      RemoveUserIsSubsequence(s, id);
      RemoveUser(s, id)
  }

  /** Dispatches a history of actions, oldest first. */
  function Run(s: UserState, actions: seq<Action>): UserState
    decreases |actions|
  {
    if actions == [] then s else Run(Reduce(s, actions[0]), actions[1..])
  }

  /** Running two histories one after the other is running their concatenation. */
  lemma {:induction false} RunAppend(s: UserState, xs: seq<Action>, ys: seq<Action>)
    ensures Run(s, xs + ys) == Run(Run(s, xs), ys)
    decreases |xs|
  {
    if xs != [] {
      assert (xs + ys)[1..] == xs[1..] + ys;
      RunAppend(Reduce(s, xs[0]), xs[1..], ys);
    } else {
      assert xs + ys == ys;
    }
  }

  /** The action can put a record with identifier `id` into the store. */
  predicate MayIntroduce(a: Action, id: string) {
    match a
    case SetUsersAction(p) => exists i :: 0 <= i < |p| && p[i].id == id
    case AddUserAction(u) => u.id == id
    case RemoveUserAction(_) => false
  }

  /** No stored user has identifier `id`. */
  predicate HasNoId(s: UserState, id: string) {
    forall i :: 0 <= i < |s.users| ==> s.users[i].id != id
  }

  /** Once absent, an identifier stays absent until some action brings it back. */
  lemma {:induction false} AbsentStaysAbsent(s: UserState, id: string, actions: seq<Action>)
    requires HasNoId(s, id)
    requires forall k :: 0 <= k < |actions| ==> !MayIntroduce(actions[k], id)
    ensures HasNoId(Run(s, actions), id)
    decreases |actions|
  {
    if actions != [] {
      assert !MayIntroduce(actions[0], id);
      AbsentStaysAbsent(Reduce(s, actions[0]), id, actions[1..]);
    }
  }

  /**
   A removed identifier is absent from the final state when none of the
   later actions adds or sets a record with that identifier.
   */
  lemma RemovedIdStaysAbsent(s: UserState, before: seq<Action>, id: string, after: seq<Action>)
    requires forall k :: 0 <= k < |after| ==> !MayIntroduce(after[k], id)
    ensures HasNoId(Run(s, before + [RemoveUserAction(id)] + after), id)
  {
    RunAppend(s, before + [RemoveUserAction(id)], after);
    RunAppend(s, before, [RemoveUserAction(id)]);
    var mid := Run(s, before + [RemoveUserAction(id)]);
    assert mid == RemoveUser(Run(s, before), id);
    AbsentStaysAbsent(mid, id, after);
  }

  /** The record was in a `setUsers` payload or was the argument of an `addUser`. */
  predicate Supplies(a: Action, u: User) {
    match a
    case SetUsersAction(p) => u in p
    case AddUserAction(v) => v == u
    case RemoveUserAction(_) => false
  }

  /**
   Every record in the final state was already stored at the start or was
   supplied by one of the actions: the reducers never invent records.
   */
  lemma {:induction false} RunProvenance(s: UserState, actions: seq<Action>, u: User)
    requires u in Run(s, actions).users
    ensures u in s.users || exists k :: 0 <= k < |actions| && Supplies(actions[k], u)
    decreases |actions|
  {
    if actions != [] {
      var s' := Reduce(s, actions[0]);
      RunProvenance(s', actions[1..], u);
      if u in s'.users && u !in s.users {
        assert Supplies(actions[0], u) by {
          if actions[0].AddUserAction? {
            assert u in s.users + [actions[0].user];
          }
        }
      } else if u !in s'.users {
        var k :| 0 <= k < |actions[1..]| && Supplies(actions[1..][k], u);
        assert Supplies(actions[k + 1], u);
      }
    }
  }
}
