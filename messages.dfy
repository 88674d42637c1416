/** convex/messages.ts: intro requests from a recruiter to a candidate about one job,
    at most one per (job, candidate) thread, and the candidate's inbox. */
module Messages {
  import opened Wrappers
  import opened Schema
  import Seqs
  import Sorting
  import Store
  import Users
  import Candidates
  import Jobs

  // ------------------------------------------------------------ intro request

  /** The checks `requestIntro` runs before inserting, in their order: a recruiter
      caller, a job of theirs, an existing candidate, and no message yet in the thread.
      On success, the recruiter who sends. */
  function IntroGate(t: Tables, identity: Option<Identity>, jobId: JobId, candidateId: CandidateId)
    : (r: Result<User, Error>)
    ensures Jobs.RecruiterGate(t.users, identity).Failure? ==>
              r == Failure(Jobs.RecruiterGate(t.users, identity).error)
    ensures r == Failure(JobNotFoundOrNotAuthorized) <==>
              && Jobs.RecruiterGate(t.users, identity).Success?
              && (GetJob(t.jobs, jobId).None?
                  || GetJob(t.jobs, jobId).value.userId != Jobs.RecruiterGate(t.users, identity).value.id)
    ensures r == Failure(CandidateNotFound) <==>
              && Jobs.RecruiterGate(t.users, identity).Success?
              && GetJob(t.jobs, jobId).Some?
              && GetJob(t.jobs, jobId).value.userId == Jobs.RecruiterGate(t.users, identity).value.id
              && GetCandidate(t.candidates, candidateId).None?
    ensures r == Failure(IntroAlreadySent) <==>
              && Jobs.RecruiterGate(t.users, identity).Success?
              && GetJob(t.jobs, jobId).Some?
              && GetJob(t.jobs, jobId).value.userId == Jobs.RecruiterGate(t.users, identity).value.id
              && GetCandidate(t.candidates, candidateId).Some?
              && !(forall m :: m in t.messages ==> !(m.jobId == jobId && m.candidateId == candidateId))
    ensures r.Success? <==>
              && Jobs.RecruiterGate(t.users, identity).Success?
              && GetJob(t.jobs, jobId).Some?
              && GetJob(t.jobs, jobId).value.userId == Jobs.RecruiterGate(t.users, identity).value.id
              && GetCandidate(t.candidates, candidateId).Some?
              && forall m :: m in t.messages ==> !(m.jobId == jobId && m.candidateId == candidateId)
    ensures r.Success? ==> r.value == Jobs.RecruiterGate(t.users, identity).value
  {
    match Jobs.RecruiterGate(t.users, identity)
    case Failure(e) => Failure(e)
    case Success(user) =>
      var job := GetJob(t.jobs, jobId);
      if job.None? || job.value.userId != user.id then Failure(JobNotFoundOrNotAuthorized)
      else if GetCandidate(t.candidates, candidateId).None? then Failure(CandidateNotFound)
      else if Seqs.FirstIndex(t.messages, InThread(jobId, candidateId)).Some? then Failure(IntroAlreadySent)
      else Success(user)
  }

  /** The message `requestIntro` inserts. */
  function IntroMessage(id: MessageId, jobId: JobId, candidateId: CandidateId, from: User, body: string, now: int)
    : Message
  {
    Message(id, jobId, candidateId, from.id, body, now)
  }

  /** Inserting the message of a request that passed the checks keeps the store
      well-formed: in particular the thread had no message before. */
  lemma IntroKeepsWellFormed(t: Tables, next: nat, identity: Option<Identity>, msg: Message)
    requires WellFormed(t, next)
    requires IntroGate(t, identity, msg.jobId, msg.candidateId).Success?
    requires msg.id == MessageId(next)
    ensures WellFormed(t.(messages := t.messages + [msg]), next + 1)
  {
    var ms := t.messages + [msg];
    forall i, j | 0 <= i < j < |ms|
      ensures ms[i].jobId != ms[j].jobId || ms[i].candidateId != ms[j].candidateId
    {
      if j == |t.messages| {
        assert ms[i] in t.messages;
      }
    }
    forall i, j | 0 <= i < j < |ms|
      ensures ms[i].id != ms[j].id
    {
      if j == |t.messages| {
        assert ms[i] in t.messages;
      }
    }
  }

  /** `requestIntro`: run the checks, then insert the message stamped at `now`. */
  method RequestIntro(db: Store.Database, identity: Option<Identity>, jobId: JobId, candidateId: CandidateId,
                      body: string, now: int)
    returns (r: Result<MessageId, Error>)
    requires db.Valid()
    modifies db
    ensures db.Valid()
    ensures IntroGate(old(db.Snapshot()), identity, jobId, candidateId).Failure? ==>
              && r == Failure(IntroGate(old(db.Snapshot()), identity, jobId, candidateId).error)
              && db.messages == old(db.messages)
    ensures IntroGate(old(db.Snapshot()), identity, jobId, candidateId).Success? ==>
              && r == Success(MessageId(old(db.nextId)))
              && db.messages == old(db.messages)
                   + [IntroMessage(r.value, jobId, candidateId,
                                   IntroGate(old(db.Snapshot()), identity, jobId, candidateId).value, body, now)]
    ensures db.nextId == old(db.nextId) + (|db.messages| - |old(db.messages)|)
    ensures db.users == old(db.users) && db.candidates == old(db.candidates) && db.jobs == old(db.jobs)
  {
    var gate := IntroGate(db.Snapshot(), identity, jobId, candidateId);
    if gate.Failure? {
      return Failure(gate.error);
    }
    var n := db.NewId();
    r := Success(MessageId(n));
    IntroKeepsWellFormed(old(db.Snapshot()), n, identity,
                         IntroMessage(MessageId(n), jobId, candidateId, gate.value, body, now));
    db.messages := db.messages + [IntroMessage(MessageId(n), jobId, candidateId, gate.value, body, now)];
    assert db.Snapshot() == old(db.Snapshot()).(messages := db.messages);
  }

  /** `getMessagesByThread`: the messages of one (job, candidate) thread, oldest first. */
  function MessagesByThread(messages: seq<Message>, jobId: JobId, candidateId: CandidateId)
    : (r: seq<Message>)
    ensures forall m :: m in r <==> m in messages && m.jobId == jobId && m.candidateId == candidateId
  {
    var r := Seqs.Filter(messages, InThread(jobId, candidateId));
    forall m ensures m in r <==> m in messages && InThread(jobId, candidateId)(m) {
      Seqs.FilterMembers(messages, InThread(jobId, candidateId), m);
    }
    r
  }

  /** While the store keeps one message per thread, a thread holds one message at most. */
  lemma ThreadAtMostOne(messages: seq<Message>, jobId: JobId, candidateId: CandidateId)
    requires OneMessagePerThread(messages)
    ensures |MessagesByThread(messages, jobId, candidateId)| <= 1
  {
    Seqs.FilterAtMostOne(messages, InThread(jobId, candidateId));
  }

  /** After a successful request the thread holds exactly the new message. */
  lemma {:induction false} IntroOpensThread(t: Tables, identity: Option<Identity>, jobId: JobId,
                                            candidateId: CandidateId, msg: Message)
    requires IntroGate(t, identity, jobId, candidateId).Success?
    requires msg.jobId == jobId && msg.candidateId == candidateId
    ensures MessagesByThread(t.messages + [msg], jobId, candidateId) == [msg]
  {
    var p := InThread(jobId, candidateId);
    Seqs.FilterNone(t.messages, p);
    Seqs.FilterSnoc(t.messages, msg, p);
  }

  /** Once the first request's message is inserted, a second request for the same
      thread is refused. */
  lemma SecondIntroFails(t: Tables, identity: Option<Identity>, jobId: JobId, candidateId: CandidateId,
                         msg: Message)
    requires IntroGate(t, identity, jobId, candidateId).Success?
    requires msg.jobId == jobId && msg.candidateId == candidateId
    ensures IntroGate(t.(messages := t.messages + [msg]), identity, jobId, candidateId) == Failure(IntroAlreadySent)
  {
    var t' := t.(messages := t.messages + [msg]);
    assert t'.messages[|t.messages|] == msg;
  }

  // ------------------------------------------------------------------- inbox

  /** The guards of `getIntroRequestsForCandidate`: a signed-in caller whose user
      record has the candidate role and who has a candidate record. */
  function IntroRecipient(t: Tables, identity: Option<Identity>): (r: Option<Candidate>)
    ensures identity.None? ==> r.None?
    ensures identity.Some? ==>
              (r.Some? <==> && Users.GetUserByClerkId(t.users, identity.value.subject).Some?
                            && Users.GetUserByClerkId(t.users, identity.value.subject).value.role == CandidateRole
                            && Candidates.GetCandidateByUserId(t.candidates,
                                 Users.GetUserByClerkId(t.users, identity.value.subject).value.id).Some?)
    ensures r.Some? ==> r.value in t.candidates
                        && r.value.userId == Users.GetUserByClerkId(t.users, identity.value.subject).value.id
  {
    match identity
    case None => None
    case Some(id) =>
      match Users.GetUserByClerkId(t.users, id.subject)
      case None => None
      case Some(user) =>
        if user.role != CandidateRole then None
        else Candidates.GetCandidateByUserId(t.candidates, user.id)
  }

  /** In a well-formed store, a candidate-role user who has a candidate record receives
      exactly that record's inbox. */
  lemma IntroRecipientOf(t: Tables, next: nat, u: User, c: Candidate)
    requires WellFormed(t, next)
    requires u in t.users && u.role == CandidateRole && c in t.candidates && c.userId == u.id
    ensures IntroRecipient(t, Some(Identity(u.clerkId))) == Some(c)
  {
    Users.LookupUnique(t.users, u);
    var k :| 0 <= k < |t.candidates| && t.candidates[k] == c;
    Candidates.LookupIsFirst(t.candidates, u.id, k);
  }

  /** An inbox entry: the message with its job and sender, each null when gone. */
  datatype IntroRequest = IntroRequest(message: Message, job: Option<Job>, recruiter: Option<User>)

  function Enrich(m: Message, t: Tables): IntroRequest
  {
    IntroRequest(m, GetJob(t.jobs, m.jobId), GetUser(t.users, m.fromUserId))
  }

  function ToCandidate(candidateId: CandidateId): Message -> bool
  {
    (m: Message) => m.candidateId == candidateId
  }

  function SentAt(r: IntroRequest): real
  {
    r.message.createdAt as real
  }

  /** The entries the enrich loop pushes, in message order. */
  function Enriched(messages: seq<Message>, t: Tables): seq<IntroRequest>
  {
    if messages == [] then []
    else Enriched(messages[..|messages| - 1], t) + [Enrich(messages[|messages| - 1], t)]
  }

  /** Each message is enriched once per occurrence, and nothing else appears. */
  lemma {:induction false} EnrichedCount(messages: seq<Message>, t: Tables, m: Message)
    ensures multiset(Enriched(messages, t))[Enrich(m, t)] == multiset(messages)[m]
  {
    if messages != [] {
      var init := messages[..|messages| - 1];
      var last := messages[|messages| - 1];
      EnrichedCount(init, t, m);
      assert messages == init + [last];
      assert multiset(messages)[m] == multiset(init)[m] + (if last == m then 1 else 0);
      assert Enrich(last, t) == Enrich(m, t) <==> last == m;
    }
  }

  lemma {:induction false} EnrichedSound(messages: seq<Message>, t: Tables)
    ensures forall r :: r in Enriched(messages, t) ==> r.message in messages && r == Enrich(r.message, t)
  {
    if messages != [] {
      var init := messages[..|messages| - 1];
      EnrichedSound(init, t);
      assert forall m :: m in init ==> m in messages;
    }
  }

  /** Soundness and completeness of the sorted inbox of candidate `id`. */
  lemma SortedInbox(t: Tables, id: CandidateId)
    ensures forall r :: r in Sorting.SortDesc(Enriched(Seqs.Filter(t.messages, ToCandidate(id)), t), SentAt) ==>
              r.message in t.messages && r.message.candidateId == id && r == Enrich(r.message, t)
    ensures forall m :: m in t.messages && m.candidateId == id ==>
              multiset(Sorting.SortDesc(Enriched(Seqs.Filter(t.messages, ToCandidate(id)), t), SentAt))[Enrich(m, t)]
                == multiset(t.messages)[m]
  {
    var mine := Seqs.Filter(t.messages, ToCandidate(id));
    var enriched := Enriched(mine, t);
    var sorted := Sorting.SortDesc(enriched, SentAt);
    EnrichedSound(mine, t);
    forall r | r in sorted
      ensures r.message in t.messages && r.message.candidateId == id && r == Enrich(r.message, t)
    {
      assert multiset(sorted)[r] > 0;
      Seqs.FilterMembers(t.messages, ToCandidate(id), r.message);
    }
    forall m | m in t.messages && m.candidateId == id
      ensures multiset(sorted)[Enrich(m, t)] == multiset(t.messages)[m]
    {
      EnrichedCount(mine, t, m);
      Seqs.FilterCount(t.messages, ToCandidate(id), m);
    }
  }

  /** `getIntroRequestsForCandidate`: nothing unless the guards pass; otherwise every
      message to the caller's candidate record with its job and sender, newest first,
      equal timestamps in insertion order. Reads the tables only. */
  method GetIntroRequestsForCandidate(t: Tables, identity: Option<Identity>) returns (requests: seq<IntroRequest>)
    ensures IntroRecipient(t, identity).None? ==> requests == []
    ensures IntroRecipient(t, identity).Some? ==>
              requests == Sorting.SortDesc(
                Enriched(Seqs.Filter(t.messages, ToCandidate(IntroRecipient(t, identity).value.id)), t), SentAt)
    // soundness
    ensures forall r :: r in requests ==>
              && r.message in t.messages
              && r.message.candidateId == IntroRecipient(t, identity).value.id
              && r.job == GetJob(t.jobs, r.message.jobId)
              && r.recruiter == GetUser(t.users, r.message.fromUserId)
    // completeness, counting repetitions
    ensures IntroRecipient(t, identity).Some? ==>
              forall m :: m in t.messages && m.candidateId == IntroRecipient(t, identity).value.id ==>
                multiset(requests)[Enrich(m, t)] == multiset(t.messages)[m]
    // order
    ensures forall i, j :: 0 <= i < j < |requests| ==>
              requests[i].message.createdAt >= requests[j].message.createdAt
  {
    var recipient := IntroRecipient(t, identity);
    if recipient.None? {
      return [];
    }
    var messages := Seqs.Filter(t.messages, ToCandidate(recipient.value.id));
    var enriched: seq<IntroRequest> := [];
    for i := 0 to |messages|
      invariant enriched == Enriched(messages[..i], t)
    {
      var message := messages[i];
      var job := GetJob(t.jobs, message.jobId);
      var recruiter := GetUser(t.users, message.fromUserId);
      enriched := enriched + [IntroRequest(message, job, recruiter)];
      assert messages[..i + 1][..i] == messages[..i];
    }
    assert messages[..|messages|] == messages;
    requests := Sorting.SortDesc(enriched, SentAt);
    SortedInbox(t, recipient.value.id);
    assert Sorting.SortedDesc(requests, SentAt);
  }

  /** With distinct message ids each message to the caller appears exactly once, and
      messages sent at the same instant keep their insertion order. */
  lemma InboxExactlyOnce(t: Tables, next: nat, id: CandidateId, m: Message, k: real)
    requires WellFormed(t, next) && m in t.messages && m.candidateId == id
    ensures multiset(Sorting.SortDesc(Enriched(Seqs.Filter(t.messages, ToCandidate(id)), t), SentAt))[Enrich(m, t)] == 1
    ensures Seqs.Filter(Sorting.SortDesc(Enriched(Seqs.Filter(t.messages, ToCandidate(id)), t), SentAt),
                        Sorting.HasKey(SentAt, k))
         == Seqs.Filter(Enriched(Seqs.Filter(t.messages, ToCandidate(id)), t), Sorting.HasKey(SentAt, k))
  {
    SortedInbox(t, id);
    Seqs.OccursOnce(t.messages, m);
    Sorting.SortStable(Enriched(Seqs.Filter(t.messages, ToCandidate(id)), t), SentAt, k);
  }
}
