/** The four tables of the document store (convex/schema.ts) as Dafny values, the
    lookups the store answers for them (by document id and through the declared
    indexes), and the invariants the mutations keep. */
module Schema {
  import opened Wrappers
  import Seqs

  // Document ids are typed by their table, as `v.id("users")` and its kin are.
  datatype UserId = UserId(n: nat)
  datatype CandidateId = CandidateId(n: nat)
  datatype JobId = JobId(n: nat)
  datatype MessageId = MessageId(n: nat)
  /** A file reference handed out by the blob storage. */
  datatype StorageId = StorageId(n: nat)

  /** An embedding vector as the provider returns it; the model never inspects it. */
  type Embedding = seq<real>

  /** A user's role is exactly one of the two literals the schema allows. */
  datatype Role = CandidateRole | RecruiterRole

  datatype User = User(id: UserId, clerkId: string, role: Role)

  /** Every field is required except the stored resume file. */
  datatype Candidate = Candidate(
    id: CandidateId,
    userId: UserId,
    resumeText: string,
    embedding: Embedding,
    skills: seq<string>,
    latentScore: real,
    resumeFileId: Option<StorageId>,
    createdAt: int)

  datatype Job = Job(
    id: JobId,
    userId: UserId,
    title: string,
    jdText: string,
    embedding: Embedding,
    createdAt: int,
    filled: bool)

  datatype Message = Message(
    id: MessageId,
    jobId: JobId,
    candidateId: CandidateId,
    fromUserId: UserId,
    body: string,
    createdAt: int)

  /** The four tables, each in insertion (creation-time) order. */
  datatype Tables = Tables(
    users: seq<User>,
    candidates: seq<Candidate>,
    jobs: seq<Job>,
    messages: seq<Message>)

  /** The caller as the sign-in provider reports it; `subject` is the user's clerkId. */
  datatype Identity = Identity(subject: string)

  /** The errors the handlers throw, one constructor per message. */
  datatype Error =
    | NotAuthenticated            // "Not authenticated"
    | NotAuthorized               // "Not authorized"
    | JobNotFound                 // "Job not found"
    | JobNotFoundOrNotAuthorized  // "Job not found or not authorized"
    | CandidateNotFound           // "Candidate not found"
    | IntroAlreadySent            // "Intro request already sent for this job/candidate combination"
    | UserNotFound                // "User not found"
    | ResumeNotParsed             // "Failed to parse resume data"
    | NoResumeText                // "Could not extract text from PDF"
    | DocumentNotFound            // a patch of an id that is not in its table
    | UpstreamFailure             // an external service call threw

  // ---------------------------------------------------------------- lookups

  /** The key of the `byClerk` index. */
  function ByClerk(clerkId: string): User -> bool
  {
    (u: User) => u.clerkId == clerkId
  }

  /** The composite key of the `byThread` index. */
  function InThread(jobId: JobId, candidateId: CandidateId): Message -> bool
  {
    (m: Message) => m.jobId == jobId && m.candidateId == candidateId
  }

  /** `ctx.db.get` on the users table. */
  function GetUser(users: seq<User>, id: UserId): (r: Option<User>)
    ensures r.Some? ==> r.value in users && r.value.id == id
    ensures r.None? <==> forall u :: u in users ==> u.id != id
  {
    match Seqs.FirstIndex(users, (u: User) => u.id == id)
    case Some(i) => Some(users[i])
    case None => None
  }

  /** `ctx.db.get` on the candidates table. */
  function GetCandidate(candidates: seq<Candidate>, id: CandidateId): (r: Option<Candidate>)
    ensures r.Some? ==> r.value in candidates && r.value.id == id
    ensures r.None? <==> forall c :: c in candidates ==> c.id != id
  {
    match Seqs.FirstIndex(candidates, (c: Candidate) => c.id == id)
    case Some(i) => Some(candidates[i])
    case None => None
  }

  /** `ctx.db.get` on the jobs table (the `getJobById` query). */
  function GetJob(jobs: seq<Job>, id: JobId): (r: Option<Job>)
    ensures r.Some? ==> r.value in jobs && r.value.id == id
    ensures r.None? <==> forall j :: j in jobs ==> j.id != id
  {
    match Seqs.FirstIndex(jobs, (j: Job) => j.id == id)
    case Some(i) => Some(jobs[i])
    case None => None
  }

  // ------------------------------------------------------------- invariants

  predicate DistinctUserIds(users: seq<User>)
  {
    forall i, j :: 0 <= i < j < |users| ==> users[i].id != users[j].id
  }

  predicate DistinctCandidateIds(candidates: seq<Candidate>)
  {
    forall i, j :: 0 <= i < j < |candidates| ==> candidates[i].id != candidates[j].id
  }

  predicate DistinctJobIds(jobs: seq<Job>)
  {
    forall i, j :: 0 <= i < j < |jobs| ==> jobs[i].id != jobs[j].id
  }

  predicate DistinctMessageIds(messages: seq<Message>)
  {
    forall i, j :: 0 <= i < j < |messages| ==> messages[i].id != messages[j].id
  }

  /** At most one user per clerkId: what `upsertUser` keeps. */
  predicate UniqueClerkIds(users: seq<User>)
  {
    forall i, j :: 0 <= i < j < |users| ==> users[i].clerkId != users[j].clerkId
  }

  /** At most one candidate per user: what the two candidate upserts keep. */
  predicate OneCandidatePerUser(candidates: seq<Candidate>)
  {
    forall i, j :: 0 <= i < j < |candidates| ==> candidates[i].userId != candidates[j].userId
  }

  /** At most one message per (jobId, candidateId): what `requestIntro` keeps. */
  predicate OneMessagePerThread(messages: seq<Message>)
  {
    forall i, j :: 0 <= i < j < |messages| ==>
      messages[i].jobId != messages[j].jobId || messages[i].candidateId != messages[j].candidateId
  }

  /** Every id handed out so far is below `next`, the next fresh id. */
  predicate IdsBelow(t: Tables, next: nat)
  {
    && (forall u :: u in t.users ==> u.id.n < next)
    && (forall c :: c in t.candidates ==> c.id.n < next)
    && (forall j :: j in t.jobs ==> j.id.n < next)
    && (forall m :: m in t.messages ==> m.id.n < next)
  }

  predicate WellFormed(t: Tables, next: nat)
  {
    && IdsBelow(t, next)
    && DistinctUserIds(t.users)
    && DistinctCandidateIds(t.candidates)
    && DistinctJobIds(t.jobs)
    && DistinctMessageIds(t.messages)
    && UniqueClerkIds(t.users)
    && OneCandidatePerUser(t.candidates)
    && OneMessagePerThread(t.messages)
  }
}
