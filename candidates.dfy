/** convex/candidates.ts: one candidate record per user, written by two upserts (the
    simple upload path and the storage-backed action), plus the score patch. */
module Candidates {
  import opened Wrappers
  import opened Schema
  import Seqs
  import Text
  import Store
  import Users

  /** The fields an upload writes into a candidate record. */
  datatype Resume = Resume(
    resumeText: string,
    embedding: Embedding,
    skills: seq<string>,
    latentScore: real,
    resumeFileId: Option<StorageId>)

  function ByUser(userId: UserId): Candidate -> bool
  {
    (c: Candidate) => c.userId == userId
  }

  /** The record an upload writes for `userId`, stamped at `now`. */
  function Record(id: CandidateId, userId: UserId, resume: Resume, now: int): Candidate
  {
    Candidate(id, userId, resume.resumeText, resume.embedding, resume.skills,
              resume.latentScore, resume.resumeFileId, now)
  }

  /** `getCandidateByUserId`: the earliest candidate of that user, or null. */
  function GetCandidateByUserId(candidates: seq<Candidate>, userId: UserId): (r: Option<Candidate>)
    ensures r.Some? ==> r.value in candidates && r.value.userId == userId
    ensures r.None? <==> forall c :: c in candidates ==> c.userId != userId
  {
    match Seqs.FirstIndex(candidates, ByUser(userId))
    case Some(i) => Some(candidates[i])
    case None => None
  }

  /** The lookup answers the earliest candidate of the user. */
  lemma LookupIsFirst(candidates: seq<Candidate>, userId: UserId, i: nat)
    requires i < |candidates| && candidates[i].userId == userId
    requires forall j :: 0 <= j < i ==> candidates[j].userId != userId
    ensures GetCandidateByUserId(candidates, userId) == Some(candidates[i])
  {
    Seqs.FirstIndexAt(candidates, ByUser(userId), i);
  }

  /** `getCurrentCandidate`: null without a caller or without the caller's user record;
      otherwise the caller's candidate record, if any. No role is checked. */
  function GetCurrentCandidate(t: Tables, identity: Option<Identity>): (r: Option<Candidate>)
    ensures identity.None? ==> r.None?
    ensures Users.GetCurrentUser(t.users, identity).None? ==> r.None?
    ensures r.Some? ==> r.value in t.candidates
    ensures r.Some? ==> exists u :: u in t.users && u.clerkId == identity.value.subject && r.value.userId == u.id
    ensures Users.GetCurrentUser(t.users, identity).Some? ==>
              && (r.None? <==> forall c :: c in t.candidates ==> c.userId != Users.GetCurrentUser(t.users, identity).value.id)
              && (r.Some? ==> r.value.userId == Users.GetCurrentUser(t.users, identity).value.id)
  {
    match Users.GetCurrentUser(t.users, identity)
    case None => None
    case Some(u) => GetCandidateByUserId(t.candidates, u.id)
  }

  /** The candidates table after an upsert for `userId`, and the id returned: the
      existing record is overwritten field by field (its id and userId stay), or a new
      record is appended with id `freshId`. */
  function Upserted(candidates: seq<Candidate>, userId: UserId, resume: Resume, now: int, freshId: CandidateId)
    : (r: (seq<Candidate>, CandidateId))
    // round trip: the user's candidate is now exactly what was uploaded
    ensures GetCandidateByUserId(r.0, userId) == Some(Record(r.1, userId, resume, now))
    ensures GetCandidateByUserId(candidates, userId).Some? ==>
              |r.0| == |candidates| && r.1 == GetCandidateByUserId(candidates, userId).value.id
    ensures GetCandidateByUserId(candidates, userId).None? ==>
              r.0 == candidates + [Record(freshId, userId, resume, now)] && r.1 == freshId
    // ids and owners never change, and other users' records are untouched
    ensures forall k :: 0 <= k < |candidates| ==>
              r.0[k].id == candidates[k].id && r.0[k].userId == candidates[k].userId
    ensures forall k :: 0 <= k < |candidates| && candidates[k].userId != userId ==> r.0[k] == candidates[k]
    ensures OneCandidatePerUser(candidates) ==> OneCandidatePerUser(r.0)
  {
    match Seqs.FirstIndex(candidates, ByUser(userId))
    case Some(i) =>
      var candidates' := candidates[i := Record(candidates[i].id, userId, resume, now)];
      Seqs.FirstIndexAt(candidates', ByUser(userId), i);
      (candidates', candidates[i].id)
    case None =>
      var candidates' := candidates + [Record(freshId, userId, resume, now)];
      Seqs.FirstIndexAt(candidates', ByUser(userId), |candidates|);
      (candidates', freshId)
  }

  /** A second upload for the same user updates the record the first one wrote: the
      table does not grow and the id is the same. */
  lemma ReuploadKeepsRecord(candidates: seq<Candidate>, userId: UserId, first: Resume, second: Resume,
                            now: int, later: int, freshId: CandidateId, freshId': CandidateId)
    ensures var (c1, id1) := Upserted(candidates, userId, first, now, freshId);
            var (c2, id2) := Upserted(c1, userId, second, later, freshId');
            id2 == id1 && |c2| == |c1|
            && GetCandidateByUserId(c2, userId) == Some(Record(id1, userId, second, later))
  {
  }

  /** An upsert keeps every store invariant, counting the fresh id it may use. */
  lemma UpsertedWellFormed(t: Tables, next: nat, userId: UserId, resume: Resume, now: int)
    requires WellFormed(t, next)
    ensures var candidates' := Upserted(t.candidates, userId, resume, now, CandidateId(next)).0;
            WellFormed(t.(candidates := candidates'), next + (|candidates'| - |t.candidates|))
  {
    var candidates' := Upserted(t.candidates, userId, resume, now, CandidateId(next)).0;
    var next' := next + (|candidates'| - |t.candidates|);
    forall k | 0 <= k < |candidates'| ensures candidates'[k].id.n < next' {
      if k < |t.candidates| {
        assert t.candidates[k] in t.candidates;
      }
    }
    forall i, j | 0 <= i < j < |candidates'| ensures candidates'[i].id != candidates'[j].id {
      if j == |t.candidates| {
        assert t.candidates[i] in t.candidates;
      }
    }
  }

  /** Upserting one candidate: shared by both ingestion paths. */
  method UpsertCandidate(db: Store.Database, userId: UserId, resume: Resume, now: int) returns (id: CandidateId)
    requires db.Valid()
    modifies db
    ensures db.Valid()
    ensures (db.candidates, id) == Upserted(old(db.candidates), userId, resume, now, CandidateId(old(db.nextId)))
    ensures db.nextId == old(db.nextId) + (|db.candidates| - |old(db.candidates)|)
    ensures db.users == old(db.users) && db.jobs == old(db.jobs) && db.messages == old(db.messages)
  {
    UpsertedWellFormed(db.Snapshot(), db.nextId, userId, resume, now);
    var existing := Seqs.FirstIndex(db.candidates, ByUser(userId));
    if existing.Some? {
      var i := existing.value;
      id := db.candidates[i].id;
      db.candidates := db.candidates[i := Record(id, userId, resume, now)];
    } else {
      var n := db.NewId();
      id := CandidateId(n);
      db.candidates := db.candidates + [Record(id, userId, resume, now)];
    }
  }

  /** `createCandidate`: upsert keyed on the given user id. The simple upload path passes
      no file reference, so a re-upload through it clears `resumeFileId`, and it passes
      score 0, so every re-upload resets the score. */
  method CreateCandidate(db: Store.Database, userId: UserId, resumeText: string, embedding: Embedding,
                         skills: seq<string>, latentScore: real, resumeFileId: Option<StorageId>, now: int)
    returns (id: CandidateId)
    requires db.Valid()
    modifies db
    ensures db.Valid()
    ensures (db.candidates, id)
         == Upserted(old(db.candidates), userId, Resume(resumeText, embedding, skills, latentScore, resumeFileId),
                     now, CandidateId(old(db.nextId)))
    ensures db.nextId == old(db.nextId) + (|db.candidates| - |old(db.candidates)|)
    ensures db.users == old(db.users) && db.jobs == old(db.jobs) && db.messages == old(db.messages)
  {
    id := UpsertCandidate(db, userId, Resume(resumeText, embedding, skills, latentScore, resumeFileId), now);
  }

  /** `createCandidateInternal`: resolve the user through `byClerk`, then upsert. */
  method CreateCandidateInternal(db: Store.Database, clerkId: string, resumeText: string, embedding: Embedding,
                                 skills: seq<string>, latentScore: real, resumeFileId: StorageId, now: int)
    returns (r: Result<CandidateId, Error>)
    requires db.Valid()
    modifies db
    ensures db.Valid()
    ensures Users.GetUserByClerkId(old(db.users), clerkId).None? ==>
              r == Failure(UserNotFound) && db.candidates == old(db.candidates) && db.nextId == old(db.nextId)
    ensures Users.GetUserByClerkId(old(db.users), clerkId).Some? ==>
              r.Success? &&
              (db.candidates, r.value)
                == Upserted(old(db.candidates), Users.GetUserByClerkId(old(db.users), clerkId).value.id,
                            Resume(resumeText, embedding, skills, latentScore, Some(resumeFileId)),
                            now, CandidateId(old(db.nextId)))
    ensures db.nextId == old(db.nextId) + (|db.candidates| - |old(db.candidates)|)
    ensures db.users == old(db.users) && db.jobs == old(db.jobs) && db.messages == old(db.messages)
  {
    var user := Users.GetUserByClerkId(db.users, clerkId);
    if user.None? {
      return Failure(UserNotFound);
    }
    var id := UpsertCandidate(db, user.value.id,
                              Resume(resumeText, embedding, skills, latentScore, Some(resumeFileId)), now);
    r := Success(id);
  }

  /** What the resume parser returned, once its JSON was read: `fullText` and `skills`
      may be missing. */
  datatype ParsedResume = ParsedResume(fullText: Option<string>, skills: Option<seq<string>>)

  /** The gate of `processResumeWithStorage` after parsing: the resume text and skills to
      store, or the error that ends the action before any candidate write. A missing
      parse result stands for the "no JSON found" and JSON-syntax failures. */
  function ResumeFromParse(parsed: Option<ParsedResume>): (r: Result<(string, seq<string>), Error>)
    ensures parsed.None? <==> r == Failure(ResumeNotParsed)
    ensures parsed.Some? ==>
              (r == Failure(NoResumeText)
               <==> parsed.value.fullText.None? || Text.IsBlank(parsed.value.fullText.value))
    ensures r.Success? ==> parsed.Some? && parsed.value.fullText == Some(r.value.0) && !Text.IsBlank(r.value.0)
    ensures r.Success? ==> r.value.1 == if parsed.value.skills.Some? then parsed.value.skills.value else []
  {
    match parsed
    case None => Failure(ResumeNotParsed)
    case Some(p) =>
      var resumeText := match p.fullText case Some(s) => s case None => "";
      Text.TrimEmpty(resumeText);
      if Text.Trim(resumeText) == [] then Failure(NoResumeText)
      else Success((resumeText, match p.skills case Some(s) => s case None => []))
  }

  /** The model's part of `processResumeWithStorage`: after the file was stored under
      `storageId` and parsed, check the text, embed it, and upsert with score 0. */
  method ProcessResumeWithStorage(db: Store.Database, clerkId: string, storageId: StorageId,
                                  parsed: Option<ParsedResume>, embedding: Option<Embedding>, now: int)
    returns (r: Result<CandidateId, Error>)
    requires db.Valid()
    modifies db
    ensures db.Valid()
    ensures ResumeFromParse(parsed).Failure? ==>
              r == Failure(ResumeFromParse(parsed).error) && db.Snapshot() == old(db.Snapshot())
    ensures ResumeFromParse(parsed).Success? && embedding.None? ==>
              r == Failure(UpstreamFailure) && db.Snapshot() == old(db.Snapshot())
    ensures ResumeFromParse(parsed).Success? && embedding.Some? ==>
              var user := Users.GetUserByClerkId(old(db.users), clerkId);
              var (resumeText, skills) := ResumeFromParse(parsed).value;
              && (user.None? ==> r == Failure(UserNotFound) && db.candidates == old(db.candidates))
              && (user.Some? ==>
                    && r.Success?
                    && (db.candidates, r.value)
                       == Upserted(old(db.candidates), user.value.id,
                                   Resume(resumeText, embedding.value, skills, 0.0, Some(storageId)),
                                   now, CandidateId(old(db.nextId))))
    ensures r.Success? ==>
              var user := Users.GetUserByClerkId(db.users, clerkId);
              var (resumeText, skills) := ResumeFromParse(parsed).value;
              && user.Some?
              && GetCandidateByUserId(db.candidates, user.value.id)
                 == Some(Candidate(r.value, user.value.id, resumeText, embedding.value, skills,
                                   0.0, Some(storageId), now))
    ensures db.users == old(db.users) && db.jobs == old(db.jobs) && db.messages == old(db.messages)
  {
    var gate := ResumeFromParse(parsed);
    if gate.Failure? {
      return Failure(gate.error);
    }
    if embedding.None? {
      return Failure(UpstreamFailure);
    }
    var (resumeText, skills) := gate.value;
    r := CreateCandidateInternal(db, clerkId, resumeText, embedding.value, skills, 0.0, storageId, now);
  }

  /** The candidates table after the patch `{latentScore: score}` on `id`; a patch of an
      id that is not in the table fails and changes nothing. */
  function PatchedScore(candidates: seq<Candidate>, id: CandidateId, score: real)
    : (r: Result<seq<Candidate>, Error>)
    ensures r.Failure? <==> GetCandidate(candidates, id).None?
    ensures r.Failure? ==> r.error == DocumentNotFound
    ensures r.Success? ==>
              && |r.value| == |candidates|
              && GetCandidate(r.value, id) == Some(GetCandidate(candidates, id).value.(latentScore := score))
              && forall k :: 0 <= k < |candidates| ==>
                   r.value[k] == candidates[k]
                   || (candidates[k].id == id && r.value[k] == candidates[k].(latentScore := score))
  {
    match Seqs.FirstIndex(candidates, (c: Candidate) => c.id == id)
    case None => Failure(DocumentNotFound)
    case Some(i) =>
      var candidates' := candidates[i := candidates[i].(latentScore := score)];
      Seqs.FirstIndexAt(candidates', (c: Candidate) => c.id == id, i);
      Success(candidates')
  }

  /** With distinct ids, patching the record at position `i` changes that record only. */
  lemma PatchAt(candidates: seq<Candidate>, i: nat, score: real)
    requires DistinctCandidateIds(candidates) && i < |candidates|
    ensures PatchedScore(candidates, candidates[i].id, score)
         == Success(candidates[i := candidates[i].(latentScore := score)])
  {
    Seqs.FirstIndexAt(candidates, (c: Candidate) => c.id == candidates[i].id, i);
  }

  /** `updateLatentScore`: patch the score of one candidate. */
  method UpdateLatentScore(db: Store.Database, candidateId: CandidateId, latentScore: real)
    returns (r: Result<(), Error>)
    requires db.Valid()
    modifies db
    ensures db.Valid()
    ensures PatchedScore(old(db.candidates), candidateId, latentScore).Failure? ==>
              r == Failure(DocumentNotFound) && db.candidates == old(db.candidates)
    ensures PatchedScore(old(db.candidates), candidateId, latentScore).Success? ==>
              r.Success? && db.candidates == PatchedScore(old(db.candidates), candidateId, latentScore).value
    ensures db.users == old(db.users) && db.jobs == old(db.jobs) && db.messages == old(db.messages)
    ensures db.nextId == old(db.nextId)
  {
    var found := Seqs.FirstIndex(db.candidates, (c: Candidate) => c.id == candidateId);
    if found.None? {
      return Failure(DocumentNotFound);
    }
    var i := found.value;
    db.candidates := db.candidates[i := db.candidates[i].(latentScore := latentScore)];
    r := Success(());
  }
}
