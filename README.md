# JobMosaic record store in Dafny

JobMosaic is a hiring app. Its back end is a set of Convex functions (`convex/`) over four
tables:

- `users`: a Clerk account with the role candidate or recruiter.
- `candidates`: a parsed resume with its embedding, skills and a latent score.
- `jobs`: a recruiter's posting with a `filled` flag.
- `messages`: intro requests from a recruiter to a candidate about one job.

This project models those functions as Dafny code and proves what they promise.

- The tables are `seq` fields of one `Store.Database` object, in insertion order. A
  shared counter `nextId` hands out fresh document ids.
- Mutations are methods that reassign those fields. Each one is stated against a pure
  function of the old tables, and lemmas about that function carry the proofs.
- Queries are functions, or read-only methods where the source builds its answer with a
  loop, over a `Tables` snapshot.
- Several things become parameters: the caller identity (`ctx.auth.getUserIdentity()`),
  the clock (`Date.now()`), and every result of the language-model and embedding
  services.

What is proved:

- The upserts keep one user per `clerkId` and one candidate per user, and lookups
  answer what was just written.
- The gates of `createJob`, `markJobFilled` and `requestIntro` fail with exactly the
  errors of their ladders, in their order, and change nothing on failure.
- `requestIntro` keeps one message per (job, candidate) thread.
- The match list and the candidate inbox are sound and complete (with multiplicity),
  sorted and stable.
- The scoring pass writes only scores in [0, 100], changes nothing else, and isolates
  failures per candidate.

Query forms of the document store:

- `.first()` is the earliest inserted match (`Seqs.FirstIndex`).
- `.filter(...).collect()` keeps insertion order (`Seqs.Filter`).
- `.order("desc")` reverses that order (`Seqs.Reverse`).
- `Array.prototype.sort` with a numeric comparator is a stable sort on a key, highest
  first (`Sorting.SortDesc`).

Both upload paths pass score 0 to the upsert (convex/candidates.ts:192 and
app/api/upload/route.ts:113), so every re-upload resets the candidate's score to 0 until
the next scoring pass. `Candidates.ProcessResumeWithStorage` states the 0.

## Model

| member | source | states |
|---|---|---|
| Seqs.FirstIndex | convex/users.ts:10-13 | `.first()`: the index found satisfies the query, no earlier record does, and None exactly when no record does |
| Seqs.Filter | convex/jobs.ts:68-72 | `.filter(...).collect()`: the result is no longer than the table |
| Seqs.FilterCount | convex/messages.ts:97-100 | a filtered query keeps every matching record as often as it is stored and drops the rest |
| Seqs.FilterMembers | convex/messages.ts:97-100 | a record is in a filtered query's result iff it is stored and matches |
| Seqs.FilterSnoc | convex/jobs.ts:68-72 | inserting a record adds it at the end of every filtered query it matches, and nowhere else |
| Seqs.FilterAtMostOne | convex/messages.ts:38-43 | a filter whose predicate holds at one position at most returns one record at most |
| Seqs.OccursOnce | convex/schema.ts:10-21 | in a table without repeated records (distinct ids), a stored record occurs exactly once |
| Seqs.Reverse | convex/jobs.ts:71 | `.order("desc")`: same length, element `i` is the `i`-th from the end |
| Seqs.ReverseMembers | convex/jobs.ts:71 | reversing keeps exactly the same records |
| Sorting.Insert | convex/jobs.ts:99 | one insertion step of the sort: the result is the input plus the element, as a multiset |
| Sorting.SortDesc | convex/jobs.ts:99 | the sort with a `b.key - a.key` comparator: non-increasing keys, a permutation of the input |
| Sorting.InsertStable | convex/jobs.ts:99 | an insertion step keeps the relative order of elements with equal keys |
| Sorting.SortStable | convex/messages.ts:114 | the sort is stable: for every key, the elements with that key appear in input order |
| Text.Trim | convex/scoring.ts:33 | `String.prototype.trim`: the result is a slice of the input whose cut-off prefix and suffix are blank, and neither of its ends is JavaScript white space |
| Text.TrimEmpty | convex/candidates.ts:174 | trimming leaves nothing exactly when the string is blank |
| Schema.GetUser | convex/jobs.ts:90 | `ctx.db.get` on users: a user with that id, None iff there is none |
| Schema.GetCandidate | convex/messages.ts:32-35 | `ctx.db.get` on candidates: a candidate with that id, None iff there is none |
| Schema.GetJob | convex/jobs.ts:48-53 | `getJobById`: a job with that id, None iff there is none |
| Store.Database.constructor | convex/schema.ts:4-43 | the store starts with four empty tables, well-formed |
| Store.Database.NewId | convex/users.ts:19-22 | an insert receives an id never handed out before, and the invariants survive |
| Users.GetUserByClerkId | convex/users.ts:27-35 | the `byClerk` lookup: a user with that clerkId, None iff there is none |
| Users.LookupIsFirst | convex/users.ts:30-33 | the lookup answers the earliest inserted user with that clerkId |
| Users.LookupUnique | convex/schema.ts:8 | with unique clerkIds, looking up a stored user's clerkId answers that user |
| Users.GetCurrentUser | convex/users.ts:37-48 | null without an identity; otherwise the user whose clerkId is the identity's subject, found whenever one exists |
| Users.Upserted | convex/users.ts:10-23 | round trip: the lookup answers the clerkId with the new role; an existing user keeps its id and place; otherwise exactly one user is appended; other users unchanged; unique clerkIds preserved |
| Users.UpsertIdempotent | convex/users.ts:15-17 | a second identical upsert leaves the table as it is and returns the same id |
| Users.UpsertedWellFormed | convex/users.ts:15-23 | the upsert keeps every store invariant, counting the fresh id an insert uses |
| Users.UpsertUser | convex/users.ts:4-25 | the users table becomes `Upserted` of the old one, with the next fresh id; other tables unchanged; store invariants kept |
| Candidates.GetCandidateByUserId | convex/candidates.ts:49-57 | a candidate of that user, None iff the user has none |
| Candidates.LookupIsFirst | convex/candidates.ts:52-55 | the lookup answers the earliest inserted candidate of the user |
| Candidates.GetCurrentCandidate | convex/candidates.ts:59-77 | null without an identity or user record; otherwise a stored candidate of the caller's user, None iff that user has none; no role checked |
| Candidates.Upserted | convex/candidates.ts:17-45 | round trip: the user's candidate is exactly the upload; an existing record keeps its id and userId with every other field overwritten; otherwise one record appended; other users' records unchanged; one candidate per user preserved |
| Candidates.ReuploadKeepsRecord | convex/candidates.ts:23-33 | a second upload for a user keeps the table size and the id and replaces the contents |
| Candidates.UpsertedWellFormed | convex/candidates.ts:23-45 | the upsert keeps every store invariant, counting the fresh id an insert uses |
| Candidates.UpsertCandidate | convex/candidates.ts:17-45 | the candidates table becomes `Upserted` of the old one; other tables unchanged; store invariants kept |
| Candidates.CreateCandidate | convex/candidates.ts:6-47 | the upsert keyed on the given user id with the given fields, including an absent file reference |
| Candidates.CreateCandidateInternal | convex/candidates.ts:204-254 | UserNotFound and no change when no user has the clerkId; otherwise the upsert for that user with the stored file |
| Candidates.ResumeFromParse | convex/candidates.ts:159-176 | parse failure is ResumeNotParsed; missing or blank text is NoResumeText; otherwise the text and the skills, defaulting to none |
| Candidates.ProcessResumeWithStorage | convex/candidates.ts:172-202 | a rejected parse or a failed embedding changes no table; past those, UserNotFound with no change iff no user has the clerkId, otherwise success with the candidates table the upsert of the text, skills, score 0 and the stored file for that user |
| Candidates.PatchedScore | convex/candidates.ts:79-89 | a patch of a missing id fails; otherwise only that record's `latentScore` changes |
| Candidates.PatchAt | convex/candidates.ts:85-87 | with distinct ids, the patch of a stored record is a point update at its position |
| Candidates.UpdateLatentScore | convex/candidates.ts:79-89 | the candidates table becomes `PatchedScore` of the old one; nothing else changes |
| Jobs.RecruiterGate | convex/jobs.ts:11-23 | NotAuthenticated iff there is no identity; otherwise NotAuthorized unless the caller's user record is a recruiter, which is returned |
| Jobs.RecruiterGateUnique | convex/jobs.ts:16-23 | with unique clerkIds, a stored user passes the gate iff a recruiter |
| Jobs.CreateJob | convex/jobs.ts:5-46 | gate failure or embedding failure inserts nothing; a recruiter whose embedding call succeeds gets one open job appended, owned by them, with the given title and text |
| Jobs.GetJobsByRecruiter | convex/jobs.ts:55-74 | null iff the gate fails; otherwise exactly the caller's jobs, newest first |
| Jobs.OwnJobs | convex/jobs.ts:68-72 | the recruiter's list holds exactly the jobs whose owner is the caller |
| Jobs.NewJobListedFirst | convex/jobs.ts:37-44 | a job just created heads its recruiter's list, followed by the earlier list |
| Jobs.QualifiedSound | convex/jobs.ts:88-96 | every entry of the scan is a stored candidate scoring at least 60, with its user and similarity 0.85 |
| Jobs.QualifiedCount | convex/jobs.ts:88-96 | the scan lists a candidate scoring at least 60 as often as it is stored, any other candidate never |
| Jobs.SortedMatches | convex/jobs.ts:84-99 | soundness and completeness survive the sort |
| Jobs.GetMatchesForJob | convex/jobs.ts:76-101 | nothing for a missing job; otherwise sound, complete with multiplicity, non-increasing by score; only reads |
| Jobs.MatchesExactlyOnce | convex/jobs.ts:84-99 | each stored candidate scoring at least 60 appears exactly once, and equal scores keep table order |
| Jobs.FillGate | convex/jobs.ts:106-123 | NotAuthenticated, then JobNotFound, then NotAuthorized unless the caller owns the job; no role check |
| Jobs.MarkedFilled | convex/jobs.ts:125 | only the job's `filled` becomes true |
| Jobs.MarkFilledIdempotent | convex/jobs.ts:103-127 | after a success the same call passes again and changes nothing |
| Jobs.MarkedFilledWellFormed | convex/jobs.ts:125 | setting the flag keeps every store invariant |
| Jobs.MarkJobFilled | convex/jobs.ts:103-127 | a ladder failure changes nothing; success marks the job filled; other tables unchanged |
| Messages.IntroGate | convex/messages.ts:11-47 | the ladder: the recruiter gate's errors, then JobNotFoundOrNotAuthorized iff the job is missing or not the caller's, then CandidateNotFound iff the candidate is missing, then IntroAlreadySent iff the thread already has a message, success otherwise |
| Messages.IntroKeepsWellFormed | convex/messages.ts:38-56 | inserting after the checks keeps one message per thread and the other invariants |
| Messages.RequestIntro | convex/messages.ts:4-58 | failure leaves messages unchanged; success appends exactly one message with the given job, candidate and body, from the caller |
| Messages.MessagesByThread | convex/messages.ts:60-74 | exactly the messages of that (job, candidate) pair |
| Messages.ThreadAtMostOne | convex/schema.ts:35-41 | while the store keeps its invariant, a thread holds one message at most |
| Messages.IntroOpensThread | convex/messages.ts:49-56 | after a success the thread holds exactly the new message |
| Messages.SecondIntroFails | convex/messages.ts:37-47 | a second request for the same pair fails with IntroAlreadySent |
| Messages.IntroRecipient | convex/messages.ts:79-94 | None without an identity, a candidate-role user record or a candidate record; otherwise that candidate record |
| Messages.IntroRecipientOf | convex/messages.ts:82-94 | in a well-formed store, a candidate-role user's identity selects exactly their candidate record |
| Messages.EnrichedCount | convex/messages.ts:103-112 | the enrich loop emits one entry per message occurrence |
| Messages.EnrichedSound | convex/messages.ts:103-112 | every enriched entry is a listed message with its job and sender |
| Messages.SortedInbox | convex/messages.ts:96-114 | the sorted inbox is sound and complete with multiplicity |
| Messages.GetIntroRequestsForCandidate | convex/messages.ts:76-116 | empty unless the guards pass; otherwise every message to the caller's candidate with its job and sender, newest first |
| Messages.InboxExactlyOnce | convex/messages.ts:97-114 | each message to the caller appears exactly once, and equal timestamps keep insertion order |
| Scoring.ScoreText | convex/scoring.ts:33-34 | never blank and trimmed at both ends; "0" for a missing or blank reply |
| Scoring.AcceptedScore | convex/scoring.ts:33-41 | an accepted score lies in [0, 100], both bounds included; a thrown call or an unparseable or out-of-range number gives none |
| Scoring.BlankReplyScoresZero | convex/scoring.ts:33-34 | a missing or blank reply sets the score to 0 |
| Scoring.Rescored | convex/scoring.ts:36-41 | only the score changes, and only to an accepted score |
| Scoring.Refreshed | convex/scoring.ts:15-45 | same length; candidate `i` gets the accepted score of reply `i` when there is one and is unchanged otherwise, whatever the other replies are; only scores change, and changed scores lie in [0, 100] |
| Scoring.RefreshKeepsWellFormed | convex/scoring.ts:56-66 | the pass keeps every store invariant |
| Scoring.RefreshKeepsScoresInRange | convex/scoring.ts:36-41 | scores within [0, 100] before the pass are within it afterwards |
| Scoring.FailureIsIsolated | convex/scoring.ts:42-44 | a failed call leaves that candidate unchanged, whatever the other replies are |
| Scoring.UpdateCandidateScore | convex/scoring.ts:56-66 | the same patch as `updateLatentScore` |
| Scoring.UpdateAllLatentScores | convex/scoring.ts:6-47 | visits each candidate of the snapshot once, in order, and leaves the table equal to `Refreshed`; other tables unchanged |

## Left out

- `getAllCandidates` and `getAllCandidatesForScoring` are whole-table reads. The model reads the `candidates` field directly wherever they are used.
- `getResumeFileUrl` and `ctx.storage.store` are left out because blob storage is outside the record store. `processResumeWithStorage` takes the stored file's id as a parameter. The file is therefore stored even when the action later fails, and the model does not capture that.
- Fetching the PDF, every language-model call, the embedding service and the regex-plus-`JSON.parse` extraction are external services. Their results are parameters. A None `embedding` stands for a thrown embedding call (UpstreamFailure). A None `parsed` stands for the failed JSON extraction (ResumeNotParsed). The scorer gives one `ScorerReply` per candidate of the snapshot.
- `Candidates.ProcessResumeWithStorage` starts after the file is fetched, stored and sent to the parser. A thrown `fetch`, `openai.files.create` or `openai.responses.create` (convex/candidates.ts:112, 126, 131) ends the action with its own error and no candidate write. The model has no parameter for those errors.
- `Candidates.ParsedResume` types `fullText` as an optional string and `skills` as an optional list of strings. Two JSON replies fall outside those types. A truthy non-string `fullText` makes `.trim()` throw a TypeError (convex/candidates.ts:174). A non-array `skills` is rejected by the argument validator of `createCandidateInternal` (convex/candidates.ts:191, 209). Both end in a throw with no candidate write, under an error the model does not name.
- `Scoring.AcceptedScore`: `parseFloat` is a parameter `string -> Option<real>`, where None stands for NaN. Its prefix parsing is not modelled, so only `Scoring.BlankReplyScoresZero` pins its value, on "0".
- Scores, similarity and embeddings are `real`, not float64. Timestamps are `int` parameters. Vector search is not modelled because the code does not compute it.
- Convex runs each mutation as one transaction, and the scoring action runs one per candidate. The model runs them one after another, so interleaving with other requests is not captured. In particular, the swallowed patch of a candidate deleted in the meantime cannot arise.
- `Scoring.UpdateAllLatentScores` requires one reply per candidate of the snapshot, as the shape of its scorer parameter. The source itself demands nothing of its caller.
- `createCandidate` ignores its `parsedData` argument, so the model omits it.
- Cron scheduling, the React pages, the HTTP routes and the authentication helpers of the web app are not part of this model.
- `Messages.MessagesByThread` states membership, not the ascending order. The result is a filter in insertion order, and `Messages.ThreadAtMostOne` shows a thread holds one message at most.
