/** The decision rule of the content moderator: from the moderation API's
    reply to "is this text safe?". The HTTP request itself is not modelled;
    its outcome is the `ApiReply` value. */
module ContentModeration {

  /** A category is flagged when its score is strictly above this. */
  const Threshold: real := 0.60

  const SuccessStatus := "success"

  /** What the request to the moderation API produced. */
  datatype ApiReply =
    | RequestFailed   // any exception while sending the request or decoding its answer
    | Reply(
        status: string,
        scores: seq<(string, real)>,  // the category scores under `moderation_classes`
        available: seq<string>)       // `moderation_classes.available`

  /** Some score of a listed category is above the threshold. */
  predicate Flagged(scores: seq<(string, real)>, available: seq<string>)
  {
    exists i :: 0 <= i < |scores| && scores[i].0 in available && scores[i].1 > Threshold
  }

  /** What moderate_text answers (true means safe): false when the request
      failed; otherwise false exactly when the status is "success" and some
      listed category scores above the threshold. */
  predicate IsSafe(reply: ApiReply)
  {
    match reply
    case RequestFailed => false
    case Reply(status, scores, available) => status != SuccessStatus || !Flagged(scores, available)
  }

  /** The decision inside moderate_text, after the request: the loop over
      the category scores, returning as soon as one listed category is above
      the threshold. */
  method Decide(reply: ApiReply) returns (safe: bool)
    ensures safe == IsSafe(reply)
    ensures reply.RequestFailed? ==> !safe
    ensures reply.Reply? && reply.status != SuccessStatus ==> safe
  {
    if reply.RequestFailed? {
      return false;
    }
    if reply.status == SuccessStatus {
      var scores := reply.scores;
      var i := 0;
      while i < |scores|
        invariant 0 <= i <= |scores|
        invariant forall j :: 0 <= j < i ==> !(scores[j].0 in reply.available && scores[j].1 > Threshold)
      {
        var (category, score) := scores[i];
        if category in reply.available && score > Threshold {
          return false;
        }
        i := i + 1;
      }
    }
    return true;
  }

  /** The comparison is strict: a score of exactly 0.60 is not flagged, and
      a category missing from `available` is ignored whatever its score. */
  lemma ThresholdIsStrict(category: string, other: string, score: real)
    requires other != category
    ensures IsSafe(Reply(SuccessStatus, [(category, Threshold)], [category]))
    ensures IsSafe(Reply(SuccessStatus, [(other, score)], [category]))
    ensures score > Threshold ==> !IsSafe(Reply(SuccessStatus, [(category, score)], [category]))
  {
    assert [(category, score)][0] == (category, score);
  }

  /** The moderator fails open on an error status: a reply whose status is
      not "success" counts as safe even when it carries a score far above
      the threshold. Only an exception makes it fail closed. */
  lemma FailsOpenOnErrorStatus(status: string, category: string)
    requires status != SuccessStatus
    ensures IsSafe(Reply(status, [(category, 1.0)], [category]))
    ensures !IsSafe(RequestFailed)
  {
  }

  /** The moderator the services hold. `asked` lists the texts it was asked
      about, in order; the reply the API gives for each is a parameter. */
  class ContentModerator {
    var asked: seq<string>

    constructor ()
      ensures asked == []
    {
      asked := [];
    }

    /** moderate_text: true when the text is safe. */
    method ModerateText(text: string, reply: ApiReply) returns (safe: bool)
      modifies this
      ensures safe == IsSafe(reply)
      ensures asked == old(asked) + [text]
    {
      asked := asked + [text];
      safe := Decide(reply);
    }
  }
}
