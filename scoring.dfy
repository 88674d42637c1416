/** convex/scoring.ts: the periodic pass that asks a language model for a 0-100 score
    of every resume and patches the scores it accepts. */
module Scoring {
  import opened Wrappers
  import opened Schema
  import Text
  import Store
  import Candidates

  /** The scores the pass accepts are within these bounds, both included. */
  const MinScore: real := 0.0
  const MaxScore: real := 100.0

  /** What the scorer gives back for one resume: the call threw, or it returned a
      message whose content may be missing. */
  datatype ScorerReply = ScorerError | Reply(content: Option<string>)

  /** The text handed to `parseFloat`: the trimmed content, or "0" when the content is
      missing or blank. */
  function ScoreText(content: Option<string>): (r: string)
    ensures r != []
    ensures !Text.IsWhiteSpace(r[0]) && !Text.IsWhiteSpace(r[|r| - 1])
    ensures content.None? || Text.IsBlank(content.value) ==> r == "0"
    ensures content.Some? && !Text.IsBlank(content.value) ==> r == Text.Trim(content.value)
  {
    match content
    case None => "0"
    case Some(s) =>
      var trimmed := Text.Trim(s);
      Text.TrimEmpty(s);
      if trimmed == [] then "0" else trimmed
  }

  /** The score patched for one reply, if any. `parseFloat` answers None where
      JavaScript's `parseFloat` answers NaN. */
  function AcceptedScore(reply: ScorerReply, parseFloat: string -> Option<real>): (r: Option<real>)
    ensures r.Some? ==> MinScore <= r.value <= MaxScore
    ensures reply.ScorerError? ==> r.None?
    ensures reply.Reply? ==>
              (r.Some? <==> parseFloat(ScoreText(reply.content)).Some?
                            && MinScore <= parseFloat(ScoreText(reply.content)).value <= MaxScore)
    ensures r.Some? ==> r == parseFloat(ScoreText(reply.content))
  {
    match reply
    case ScorerError => None
    case Reply(content) =>
      var score := parseFloat(ScoreText(content));
      if score.Some? && MinScore <= score.value && score.value <= MaxScore then score else None
  }

  /** A missing or blank reply is read as the text "0" and so resets the score to 0. */
  lemma BlankReplyScoresZero(content: Option<string>, parseFloat: string -> Option<real>)
    requires content.None? || Text.IsBlank(content.value)
    requires parseFloat("0") == Some(0.0)
    ensures AcceptedScore(Reply(content), parseFloat) == Some(0.0)
  {
  }

  /** One candidate after its reply: the accepted score, or unchanged. */
  function Rescored(c: Candidate, reply: ScorerReply, parseFloat: string -> Option<real>): (r: Candidate)
    ensures r == c.(latentScore := r.latentScore)
    ensures AcceptedScore(reply, parseFloat).None? ==> r == c
    ensures AcceptedScore(reply, parseFloat).Some? ==> r.latentScore == AcceptedScore(reply, parseFloat).value
  {
    match AcceptedScore(reply, parseFloat)
    case None => c
    case Some(score) => c.(latentScore := score)
  }

  /** The candidates table after the pass, where `replies[i]` is the scorer's answer
      for the `i`-th candidate of the snapshot the pass read. */
  function Refreshed(candidates: seq<Candidate>, replies: seq<ScorerReply>, parseFloat: string -> Option<real>)
    : (r: seq<Candidate>)
    requires |replies| == |candidates|
    ensures |r| == |candidates|
    ensures forall i :: 0 <= i < |r| ==> r[i] == candidates[i].(latentScore := r[i].latentScore)
    ensures forall i :: 0 <= i < |r| ==>
              r[i].latentScore == candidates[i].latentScore || MinScore <= r[i].latentScore <= MaxScore
    ensures forall i :: 0 <= i < |r| ==>
              && (AcceptedScore(replies[i], parseFloat).None? ==> r[i] == candidates[i])
              && (AcceptedScore(replies[i], parseFloat).Some? ==>
                    r[i] == candidates[i].(latentScore := AcceptedScore(replies[i], parseFloat).value))
  {
    seq(|candidates|, i requires 0 <= i < |candidates| => Rescored(candidates[i], replies[i], parseFloat))
  }

  /** The pass changes scores only, so every invariant of the store still holds. */
  lemma RefreshKeepsWellFormed(t: Tables, next: nat, replies: seq<ScorerReply>,
                               parseFloat: string -> Option<real>)
    requires WellFormed(t, next) && |replies| == |t.candidates|
    ensures WellFormed(t.(candidates := Refreshed(t.candidates, replies, parseFloat)), next)
  {
    var r := Refreshed(t.candidates, replies, parseFloat);
    forall c | c in r ensures c.id.n < next {
      var i :| 0 <= i < |r| && r[i] == c;
      assert t.candidates[i] in t.candidates;
    }
  }

  /** If every score was within 0-100 before the pass, every score is afterwards. */
  lemma RefreshKeepsScoresInRange(candidates: seq<Candidate>, replies: seq<ScorerReply>,
                                  parseFloat: string -> Option<real>)
    requires |replies| == |candidates|
    requires forall c :: c in candidates ==> MinScore <= c.latentScore <= MaxScore
    ensures forall c :: c in Refreshed(candidates, replies, parseFloat) ==> MinScore <= c.latentScore <= MaxScore
  {
    var r := Refreshed(candidates, replies, parseFloat);
    forall c | c in r ensures MinScore <= c.latentScore <= MaxScore {
      var i :| 0 <= i < |r| && r[i] == c;
      assert candidates[i] in candidates;
    }
  }

  /** A failed call for one candidate leaves that candidate as it was, whatever the
      other replies are. */
  lemma FailureIsIsolated(candidates: seq<Candidate>, replies: seq<ScorerReply>,
                          parseFloat: string -> Option<real>, i: nat)
    requires |replies| == |candidates| && i < |candidates| && replies[i] == ScorerError
    ensures Refreshed(candidates, replies, parseFloat)[i] == candidates[i]
  {
  }

  /** `updateCandidateScore`: the same patch as `updateLatentScore`. */
  method UpdateCandidateScore(db: Store.Database, candidateId: CandidateId, latentScore: real)
    returns (r: Result<(), Error>)
    requires db.Valid()
    modifies db
    ensures db.Valid()
    ensures Candidates.PatchedScore(old(db.candidates), candidateId, latentScore).Failure? ==>
              r == Failure(DocumentNotFound) && db.candidates == old(db.candidates)
    ensures Candidates.PatchedScore(old(db.candidates), candidateId, latentScore).Success? ==>
              r.Success? && db.candidates == Candidates.PatchedScore(old(db.candidates), candidateId, latentScore).value
    ensures db.users == old(db.users) && db.jobs == old(db.jobs) && db.messages == old(db.messages)
    ensures db.nextId == old(db.nextId)
  {
    r := Candidates.UpdateLatentScore(db, candidateId, latentScore);
  }

  /** The table after the first `i` candidates of the snapshot were handled. */
  function RefreshedUpTo(candidates: seq<Candidate>, replies: seq<ScorerReply>,
                         parseFloat: string -> Option<real>, i: nat): (r: seq<Candidate>)
    requires |replies| == |candidates| && i <= |candidates|
    ensures |r| == |candidates|
    ensures i == |candidates| ==> r == Refreshed(candidates, replies, parseFloat)
  {
    seq(|candidates|, k requires 0 <= k < |candidates| =>
          if k < i then Rescored(candidates[k], replies[k], parseFloat) else candidates[k])
  }

  /** Handling candidate `i` is a point update at its position. */
  lemma RefreshedStep(candidates: seq<Candidate>, replies: seq<ScorerReply>,
                      parseFloat: string -> Option<real>, i: nat)
    requires |replies| == |candidates| && i < |candidates|
    ensures RefreshedUpTo(candidates, replies, parseFloat, i + 1)
         == RefreshedUpTo(candidates, replies, parseFloat, i)[i := Rescored(candidates[i], replies[i], parseFloat)]
    ensures RefreshedUpTo(candidates, replies, parseFloat, i)[i] == candidates[i]
  {
  }

  /** `updateAllLatentScores`: read all candidates, then for each in turn take the
      scorer's reply and patch the score when it is accepted; a failure for one
      candidate is swallowed and the pass goes on. */
  method UpdateAllLatentScores(db: Store.Database, replies: seq<ScorerReply>, parseFloat: string -> Option<real>)
    requires db.Valid()
    requires |replies| == |db.candidates|
    modifies db
    ensures db.Valid()
    ensures db.candidates == Refreshed(old(db.candidates), replies, parseFloat)
    ensures db.users == old(db.users) && db.jobs == old(db.jobs) && db.messages == old(db.messages)
    ensures db.nextId == old(db.nextId)
  {
    var snapshot := db.candidates;
    for i := 0 to |snapshot|
      invariant db.Valid()
      invariant db.candidates == RefreshedUpTo(snapshot, replies, parseFloat, i)
      invariant db.users == old(db.users) && db.jobs == old(db.jobs) && db.messages == old(db.messages)
      invariant db.nextId == old(db.nextId)
    {
      RefreshedStep(snapshot, replies, parseFloat, i);
      var score := AcceptedScore(replies[i], parseFloat);
      if score.Some? {
        Candidates.PatchAt(db.candidates, i, score.value);
        var _ := UpdateCandidateScore(db, snapshot[i].id, score.value);
      } else {
        assert db.candidates[i := Rescored(snapshot[i], replies[i], parseFloat)] == db.candidates;
      }
    }
  }
}
