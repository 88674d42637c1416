/** convex/users.ts: the users table keyed by clerkId. */
module Users {
  import opened Wrappers
  import opened Schema
  import Seqs
  import Store

  /** `getUserByClerkId`: the earliest user with that clerkId, found through `byClerk`. */
  function GetUserByClerkId(users: seq<User>, clerkId: string): (r: Option<User>)
    ensures r.Some? ==> r.value in users && r.value.clerkId == clerkId
    ensures r.None? <==> forall u :: u in users ==> u.clerkId != clerkId
  {
    match Seqs.FirstIndex(users, ByClerk(clerkId))
    case Some(i) => Some(users[i])
    case None => None
  }

  /** The lookup answers the earliest user holding the clerkId. */
  lemma LookupIsFirst(users: seq<User>, clerkId: string, i: nat)
    requires i < |users| && users[i].clerkId == clerkId
    requires forall j :: 0 <= j < i ==> users[j].clerkId != clerkId
    ensures GetUserByClerkId(users, clerkId) == Some(users[i])
  {
    Seqs.FirstIndexAt(users, ByClerk(clerkId), i);
  }

  /** With clerkIds unique, the lookup finds exactly the user holding the clerkId. */
  lemma LookupUnique(users: seq<User>, u: User)
    requires UniqueClerkIds(users) && u in users
    ensures GetUserByClerkId(users, u.clerkId) == Some(u)
  {
    var k :| 0 <= k < |users| && users[k] == u;
    Seqs.FirstIndexAt(users, ByClerk(u.clerkId), k);
  }

  /** `getCurrentUser`: null without a signed-in caller, else the caller's user record. */
  function GetCurrentUser(users: seq<User>, identity: Option<Identity>): (r: Option<User>)
    ensures identity.None? ==> r.None?
    ensures r.Some? ==> r.value in users && r.value.clerkId == identity.value.subject
    ensures identity.Some? && (exists u :: u in users && u.clerkId == identity.value.subject) ==> r.Some?
  {
    match identity
    case None => None
    case Some(id) => GetUserByClerkId(users, id.subject)
  }

  /** The users table after `upsertUser(clerkId, role)`, and the id it returns; `freshId`
      is the id an insert would receive. */
  function Upserted(users: seq<User>, clerkId: string, role: Role, freshId: UserId): (r: (seq<User>, UserId))
    // round trip: the lookup now answers the upserted user with the new role
    ensures GetUserByClerkId(r.0, clerkId) == Some(User(r.1, clerkId, role))
    // an existing user keeps its id and its place; otherwise exactly one user is added
    ensures GetUserByClerkId(users, clerkId).Some? ==>
              |r.0| == |users| && r.1 == GetUserByClerkId(users, clerkId).value.id
    ensures GetUserByClerkId(users, clerkId).None? ==>
              r.0 == users + [User(freshId, clerkId, role)] && r.1 == freshId
    // only a role changes, and only for that clerkId
    ensures forall k :: 0 <= k < |users| ==> r.0[k].id == users[k].id && r.0[k].clerkId == users[k].clerkId
    ensures forall k :: 0 <= k < |users| && users[k].clerkId != clerkId ==> r.0[k] == users[k]
    ensures UniqueClerkIds(users) ==> UniqueClerkIds(r.0)
  {
    match Seqs.FirstIndex(users, ByClerk(clerkId))
    case Some(i) =>
      var users' := users[i := users[i].(role := role)];
      Seqs.FirstIndexAt(users', ByClerk(clerkId), i);
      (users', users[i].id)
    case None =>
      var users' := users + [User(freshId, clerkId, role)];
      Seqs.FirstIndexAt(users', ByClerk(clerkId), |users|);
      (users', freshId)
  }

  /** Upserting twice with the same arguments changes nothing the second time and
      returns the same id. */
  lemma UpsertIdempotent(users: seq<User>, clerkId: string, role: Role, freshId: UserId, freshId': UserId)
    ensures var (users', id) := Upserted(users, clerkId, role, freshId);
            Upserted(users', clerkId, role, freshId') == (users', id)
  {
    var (users', id) := Upserted(users, clerkId, role, freshId);
    var i := Seqs.FirstIndex(users', ByClerk(clerkId)).value;
    assert users'[i := users'[i].(role := role)] == users';
  }

  /** An upsert keeps every store invariant, counting the fresh id it may use. */
  lemma UpsertedWellFormed(t: Tables, next: nat, clerkId: string, role: Role)
    requires WellFormed(t, next)
    ensures var users' := Upserted(t.users, clerkId, role, UserId(next)).0;
            WellFormed(t.(users := users'), next + (|users'| - |t.users|))
  {
    var users' := Upserted(t.users, clerkId, role, UserId(next)).0;
    var next' := next + (|users'| - |t.users|);
    forall k | 0 <= k < |users'| ensures users'[k].id.n < next' {
      if k < |t.users| {
        assert t.users[k] in t.users;
      }
    }
    forall i, j | 0 <= i < j < |users'| ensures users'[i].id != users'[j].id {
      if j == |t.users| {
        assert t.users[i] in t.users;
      }
    }
  }

  /** `upsertUser`: patch the role of the user with that clerkId, or insert a new user. */
  method UpsertUser(db: Store.Database, clerkId: string, role: Role) returns (id: UserId)
    requires db.Valid()
    modifies db
    ensures db.Valid()
    ensures (db.users, id) == Upserted(old(db.users), clerkId, role, UserId(old(db.nextId)))
    ensures db.nextId == old(db.nextId) + (|db.users| - |old(db.users)|)
    ensures db.candidates == old(db.candidates) && db.jobs == old(db.jobs) && db.messages == old(db.messages)
  {
    UpsertedWellFormed(db.Snapshot(), db.nextId, clerkId, role);
    var existing := Seqs.FirstIndex(db.users, ByClerk(clerkId));
    if existing.Some? {
      var i := existing.value;
      id := db.users[i].id;
      db.users := db.users[i := db.users[i].(role := role)];
    } else {
      var n := db.NewId();
      id := UserId(n);
      db.users := db.users + [User(id, clerkId, role)];
    }
  }
}
