/** The document store as one object: the four tables are fields that the mutations
    reassign, and `nextId` hands out fresh document ids on insert. */
module Store {
  import opened Schema

  class Database {
    var users: seq<User>
    var candidates: seq<Candidate>
    var jobs: seq<Job>
    var messages: seq<Message>
    var nextId: nat

    /** What a query sees: the four tables as they stand. */
    function Snapshot(): Tables
      reads this
    {
      Tables(users, candidates, jobs, messages)
    }

    ghost predicate Valid()
      reads this
    {
      WellFormed(Snapshot(), nextId)
    }

    constructor ()
      ensures Valid()
      ensures Snapshot() == Tables([], [], [], [])
    {
      users, candidates, jobs, messages := [], [], [], [];
      nextId := 0;
    }

    /** A document id never handed out before. */
    method NewId() returns (n: nat)
      requires Valid()
      modifies this`nextId
      ensures Valid()
      ensures n == old(nextId) && nextId == n + 1
    {
      n := nextId;
      nextId := nextId + 1;
    }
  }
}
