/** convex/jobs.ts: recruiters' job postings, the match engine and the filled flag. */
module Jobs {
  import opened Wrappers
  import opened Schema
  import Seqs
  import Sorting
  import Store
  import Users

  /** A candidate matches when its latent score is at least this. */
  const MatchThreshold: real := 60.0
  /** The fixed similarity every match carries in place of a vector comparison. */
  const MockSimilarity: real := 0.85

  /** The gate shared by `createJob`, `getJobsByRecruiter` and `requestIntro`: a
      signed-in caller whose user record has the recruiter role. */
  function RecruiterGate(users: seq<User>, identity: Option<Identity>): (r: Result<User, Error>)
    ensures identity.None? <==> r == Failure(NotAuthenticated)
    ensures identity.Some? && r.Failure? ==> r.error == NotAuthorized
    ensures identity.Some? ==>
              (r.Success? <==> Users.GetUserByClerkId(users, identity.value.subject).Some?
                               && Users.GetUserByClerkId(users, identity.value.subject).value.role == RecruiterRole)
    ensures r.Success? ==> r.value in users && r.value.clerkId == identity.value.subject
                           && r.value.role == RecruiterRole
  {
    match identity
    case None => Failure(NotAuthenticated)
    case Some(id) =>
      match Users.GetUserByClerkId(users, id.subject)
      case None => Failure(NotAuthorized)
      case Some(u) => if u.role != RecruiterRole then Failure(NotAuthorized) else Success(u)
  }

  /** With unique clerkIds, the gate admits exactly the callers whose user record is a
      recruiter. */
  lemma RecruiterGateUnique(users: seq<User>, u: User)
    requires UniqueClerkIds(users) && u in users
    ensures RecruiterGate(users, Some(Identity(u.clerkId))).Success? <==> u.role == RecruiterRole
    ensures u.role == RecruiterRole ==> RecruiterGate(users, Some(Identity(u.clerkId))) == Success(u)
  {
    Users.LookupUnique(users, u);
  }

  /** `createJob`: gate, embed the description (`embedding` is None when the provider
      call threw), then insert an open job owned by the caller. */
  method CreateJob(db: Store.Database, identity: Option<Identity>, title: string, jdText: string,
                   embedding: Option<Embedding>, now: int)
    returns (r: Result<JobId, Error>)
    requires db.Valid()
    modifies db
    ensures db.Valid()
    ensures RecruiterGate(old(db.users), identity).Failure? ==>
              r == Failure(RecruiterGate(old(db.users), identity).error) && db.jobs == old(db.jobs)
    ensures RecruiterGate(old(db.users), identity).Success? && embedding.None? ==>
              r == Failure(UpstreamFailure) && db.jobs == old(db.jobs)
    ensures RecruiterGate(old(db.users), identity).Success? && embedding.Some? ==> r.Success?
    ensures r.Success? ==>
              && r.value == JobId(old(db.nextId))
              && db.jobs == old(db.jobs) + [Job(r.value, RecruiterGate(old(db.users), identity).value.id,
                                               title, jdText, embedding.value, now, false)]
    ensures db.nextId == old(db.nextId) + (|db.jobs| - |old(db.jobs)|)
    ensures db.users == old(db.users) && db.candidates == old(db.candidates) && db.messages == old(db.messages)
  {
    var gate := RecruiterGate(db.users, identity);
    if gate.Failure? {
      return Failure(gate.error);
    }
    if embedding.None? {
      return Failure(UpstreamFailure);
    }
    var n := db.NewId();
    r := Success(JobId(n));
    db.jobs := db.jobs + [Job(JobId(n), gate.value.id, title, jdText, embedding.value, now, false)];
  }

  function OwnedBy(userId: UserId): Job -> bool
  {
    (j: Job) => j.userId == userId
  }

  /** `getJobsByRecruiter`: null unless the caller is a recruiter; otherwise exactly the
      caller's jobs, newest first. */
  function GetJobsByRecruiter(t: Tables, identity: Option<Identity>): (r: Option<seq<Job>>)
    ensures r.None? <==> RecruiterGate(t.users, identity).Failure?
    ensures r.Some? ==>
              forall j :: j in r.value <==> j in t.jobs && j.userId == RecruiterGate(t.users, identity).value.id
    ensures r.Some? ==>
              var own := Seqs.Filter(t.jobs, OwnedBy(RecruiterGate(t.users, identity).value.id));
              |r.value| == |own| && forall i :: 0 <= i < |own| ==> r.value[i] == own[|own| - 1 - i]
  {
    match RecruiterGate(t.users, identity)
    case Failure(_) => None
    case Success(u) =>
      OwnJobs(t.jobs, u.id);
      Some(Seqs.Reverse(Seqs.Filter(t.jobs, OwnedBy(u.id))))
  }

  /** The recruiter's list holds exactly the jobs they own. */
  lemma OwnJobs(jobs: seq<Job>, userId: UserId)
    ensures forall j :: j in Seqs.Reverse(Seqs.Filter(jobs, OwnedBy(userId))) <==> j in jobs && j.userId == userId
  {
    var own := Seqs.Filter(jobs, OwnedBy(userId));
    Seqs.ReverseMembers(own);
    forall j ensures j in own <==> j in jobs && j.userId == userId {
      Seqs.FilterMembers(jobs, OwnedBy(userId), j);
    }
  }

  /** A job `createJob` has just inserted heads the recruiter's list. */
  lemma {:induction false} NewJobListedFirst(t: Tables, identity: Option<Identity>, job: Job)
    requires RecruiterGate(t.users, identity).Success?
    requires job.userId == RecruiterGate(t.users, identity).value.id
    ensures GetJobsByRecruiter(t.(jobs := t.jobs + [job]), identity)
         == Some([job] + GetJobsByRecruiter(t, identity).value)
  {
    var p := OwnedBy(job.userId);
    var own := Seqs.Filter(t.jobs, p);
    Seqs.FilterSnoc(t.jobs, job, p);
    assert Seqs.Filter(t.jobs + [job], p) == own + [job];
    var r := Seqs.Reverse(own + [job]);
    assert r == [job] + Seqs.Reverse(own);
  }

  // ------------------------------------------------------------ match engine

  /** One entry of the match list: the candidate, its user record (null when the user
      is gone) and the similarity. */
  datatype Match = Match(candidate: Candidate, user: Option<User>, similarity: real)

  function MatchOf(c: Candidate, users: seq<User>): Match
  {
    Match(c, GetUser(users, c.userId), MockSimilarity)
  }

  function Score(m: Match): real
  {
    m.candidate.latentScore
  }

  /** The entries the scan pushes, in table order. */
  function Qualified(candidates: seq<Candidate>, users: seq<User>): seq<Match>
  {
    if candidates == [] then []
    else
      var c := candidates[|candidates| - 1];
      Qualified(candidates[..|candidates| - 1], users)
        + (if c.latentScore >= MatchThreshold then [MatchOf(c, users)] else [])
  }

  /** Soundness of the scan: every entry is a stored candidate at or above the
      threshold, with its user and the fixed similarity. */
  lemma {:induction false} QualifiedSound(candidates: seq<Candidate>, users: seq<User>)
    ensures forall m :: m in Qualified(candidates, users) ==>
              m.candidate in candidates && m.candidate.latentScore >= MatchThreshold && m == MatchOf(m.candidate, users)
  {
    if candidates != [] {
      var init := candidates[..|candidates| - 1];
      QualifiedSound(init, users);
      assert forall c :: c in init ==> c in candidates;
    }
  }

  /** Completeness of the scan, with multiplicity: each candidate at or above the
      threshold is listed as often as it is stored, the others not at all. */
  lemma {:induction false} QualifiedCount(candidates: seq<Candidate>, users: seq<User>, c: Candidate)
    ensures multiset(Qualified(candidates, users))[MatchOf(c, users)]
         == if c.latentScore >= MatchThreshold then multiset(candidates)[c] else 0
  {
    if candidates != [] {
      var init := candidates[..|candidates| - 1];
      var last := candidates[|candidates| - 1];
      QualifiedCount(init, users, c);
      assert candidates == init + [last];
    }
  }

  /** Soundness and completeness carry over from the scan to its sorted form. */
  lemma SortedMatches(candidates: seq<Candidate>, users: seq<User>)
    ensures forall m :: m in Sorting.SortDesc(Qualified(candidates, users), Score) ==>
              m.candidate in candidates && m.candidate.latentScore >= MatchThreshold && m == MatchOf(m.candidate, users)
    ensures forall c :: c in candidates && c.latentScore >= MatchThreshold ==>
              multiset(Sorting.SortDesc(Qualified(candidates, users), Score))[MatchOf(c, users)]
                == multiset(candidates)[c]
  {
    var found := Qualified(candidates, users);
    var sorted := Sorting.SortDesc(found, Score);
    QualifiedSound(candidates, users);
    forall m | m in sorted ensures m in found {
      assert multiset(sorted)[m] > 0;
    }
    forall c | c in candidates && c.latentScore >= MatchThreshold
      ensures multiset(sorted)[MatchOf(c, users)] == multiset(candidates)[c]
    {
      QualifiedCount(candidates, users, c);
    }
  }

  /** `getMatchesForJob`: nothing for a missing job; otherwise scan the candidates, keep
      those scoring at least 60 with their user and the fixed similarity, and sort by
      score, highest first, ties in table order. Reads the tables only. */
  method GetMatchesForJob(t: Tables, jobId: JobId) returns (matches: seq<Match>)
    ensures GetJob(t.jobs, jobId).None? ==> matches == []
    ensures GetJob(t.jobs, jobId).Some? ==>
              matches == Sorting.SortDesc(Qualified(t.candidates, t.users), Score)
    // soundness
    ensures forall m :: m in matches ==>
              m.candidate in t.candidates && m.candidate.latentScore >= MatchThreshold
              && m.similarity == MockSimilarity && m.user == GetUser(t.users, m.candidate.userId)
    // completeness, counting repetitions
    ensures GetJob(t.jobs, jobId).Some? ==>
              forall c :: c in t.candidates && c.latentScore >= MatchThreshold ==>
                multiset(matches)[MatchOf(c, t.users)] == multiset(t.candidates)[c]
    // order
    ensures forall i, j :: 0 <= i < j < |matches| ==>
              matches[i].candidate.latentScore >= matches[j].candidate.latentScore
  {
    var job := GetJob(t.jobs, jobId);
    if job.None? {
      return [];
    }
    var all := t.candidates;
    var found: seq<Match> := [];
    for i := 0 to |all|
      invariant found == Qualified(all[..i], t.users)
    {
      var candidate := all[i];
      if candidate.latentScore >= MatchThreshold {
        var user := GetUser(t.users, candidate.userId);
        found := found + [Match(candidate, user, MockSimilarity)];
      }
      assert all[..i + 1][..i] == all[..i];
    }
    assert all[..|all|] == all;
    matches := Sorting.SortDesc(found, Score);
    SortedMatches(all, t.users);
  }

  /** Each stored candidate at or above the threshold appears exactly once in the
      matches of an existing job, and candidates with equal scores keep table order. */
  lemma MatchesExactlyOnce(t: Tables, c: Candidate, k: real)
    requires DistinctCandidateIds(t.candidates) && c in t.candidates && c.latentScore >= MatchThreshold
    ensures multiset(Sorting.SortDesc(Qualified(t.candidates, t.users), Score))[MatchOf(c, t.users)] == 1
    ensures Seqs.Filter(Sorting.SortDesc(Qualified(t.candidates, t.users), Score), Sorting.HasKey(Score, k))
         == Seqs.Filter(Qualified(t.candidates, t.users), Sorting.HasKey(Score, k))
  {
    QualifiedCount(t.candidates, t.users, c);
    Seqs.OccursOnce(t.candidates, c);
    Sorting.SortStable(Qualified(t.candidates, t.users), Score, k);
  }

  // --------------------------------------------------------------- filled flag

  /** The ladder of `markJobFilled`: signed in, then the job exists, then the caller owns
      it. No role is checked. The result is the caller's user record. */
  function FillGate(t: Tables, identity: Option<Identity>, jobId: JobId): (r: Result<User, Error>)
    ensures identity.None? <==> r == Failure(NotAuthenticated)
    ensures identity.Some? ==> (r == Failure(JobNotFound) <==> GetJob(t.jobs, jobId).None?)
    ensures r == Failure(NotAuthorized) <==>
              identity.Some? && GetJob(t.jobs, jobId).Some?
              && (Users.GetUserByClerkId(t.users, identity.value.subject).None?
                  || Users.GetUserByClerkId(t.users, identity.value.subject).value.id != GetJob(t.jobs, jobId).value.userId)
    ensures r.Success? ==> r.value in t.users && r.value.clerkId == identity.value.subject
                           && GetJob(t.jobs, jobId).Some? && GetJob(t.jobs, jobId).value.userId == r.value.id
  {
    match identity
    case None => Failure(NotAuthenticated)
    case Some(id) =>
      match GetJob(t.jobs, jobId)
      case None => Failure(JobNotFound)
      case Some(job) =>
        match Users.GetUserByClerkId(t.users, id.subject)
        case None => Failure(NotAuthorized)
        case Some(u) => if job.userId != u.id then Failure(NotAuthorized) else Success(u)
  }

  /** The jobs table after the patch `{filled: true}` on `jobId`. */
  function MarkedFilled(jobs: seq<Job>, jobId: JobId): (r: seq<Job>)
    ensures |r| == |jobs|
    ensures GetJob(jobs, jobId).Some? ==> GetJob(r, jobId) == Some(GetJob(jobs, jobId).value.(filled := true))
    ensures GetJob(jobs, jobId).None? ==> r == jobs
    ensures forall k :: 0 <= k < |jobs| ==>
              r[k] == jobs[k] || (jobs[k].id == jobId && r[k] == jobs[k].(filled := true))
  {
    match Seqs.FirstIndex(jobs, (j: Job) => j.id == jobId)
    case None => jobs
    case Some(i) =>
      var jobs' := jobs[i := jobs[i].(filled := true)];
      Seqs.FirstIndexAt(jobs', (j: Job) => j.id == jobId, i);
      jobs'
  }

  /** Marking a job filled a second time passes the same gate and changes nothing. */
  lemma MarkFilledIdempotent(t: Tables, identity: Option<Identity>, jobId: JobId)
    requires FillGate(t, identity, jobId).Success?
    ensures var t' := t.(jobs := MarkedFilled(t.jobs, jobId));
            FillGate(t', identity, jobId) == FillGate(t, identity, jobId)
            && MarkedFilled(t'.jobs, jobId) == t'.jobs
  {
    var jobs' := MarkedFilled(t.jobs, jobId);
    var i :| 0 <= i < |t.jobs| && t.jobs[i] == GetJob(t.jobs, jobId).value;
    var found := Seqs.FirstIndex(jobs', (j: Job) => j.id == jobId);
    assert found.Some?;
    assert jobs'[found.value].filled;
    assert jobs'[found.value := jobs'[found.value].(filled := true)] == jobs';
  }

  /** The filled flag is no key: setting it keeps every table invariant. */
  lemma MarkedFilledWellFormed(t: Tables, next: nat, jobId: JobId)
    requires WellFormed(t, next)
    ensures WellFormed(t.(jobs := MarkedFilled(t.jobs, jobId)), next)
  {
    var jobs' := MarkedFilled(t.jobs, jobId);
    forall j | j in jobs' ensures j.id.n < next {
      var k :| 0 <= k < |jobs'| && jobs'[k] == j;
      assert t.jobs[k] in t.jobs;
    }
  }

  /** `markJobFilled`: after the ladder, set `filled` on the job. */
  method MarkJobFilled(db: Store.Database, identity: Option<Identity>, jobId: JobId) returns (r: Result<(), Error>)
    requires db.Valid()
    modifies db
    ensures db.Valid()
    ensures FillGate(old(db.Snapshot()), identity, jobId).Failure? ==>
              r == Failure(FillGate(old(db.Snapshot()), identity, jobId).error) && db.jobs == old(db.jobs)
    ensures FillGate(old(db.Snapshot()), identity, jobId).Success? ==>
              r.Success? && db.jobs == MarkedFilled(old(db.jobs), jobId)
    ensures db.users == old(db.users) && db.candidates == old(db.candidates) && db.messages == old(db.messages)
    ensures db.nextId == old(db.nextId)
  {
    var gate := FillGate(db.Snapshot(), identity, jobId);
    if gate.Failure? {
      return Failure(gate.error);
    }
    MarkedFilledWellFormed(db.Snapshot(), db.nextId, jobId);
    db.jobs := MarkedFilled(db.jobs, jobId);
    r := Success(());
  }
}
