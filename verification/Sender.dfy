/** Posting one message with retries (publisher/broadcaster.py, send_message). */
module Sender {
  const MAX_RETRIES: nat := 5

  /** What one post leads to.  NetworkError is a timeout or an aiohttp error, while posting or while
      reading the answer; OtherError is any other exception. */
  datatype Response = Status(code: int) | NetworkError | OtherError

  datatype Outcome = Delivered | Refused | Raised

  datatype Sent = Sent(outcome: Outcome, posts: nat)

  predicate IsTransient(r: Response) {
    r == Status(429) || r.NetworkError?
  }

  /** send_message; `answers` gives the response to the post made with that many retries behind it,
      `limit` is PUBLISH_MAX_RETRIES. */
  function SendMessage(answers: nat -> Response, retries: nat, limit: nat): Sent
    decreases limit - retries
  {
    match answers(retries)
    case Status(code) =>
      if code == 429 && retries < limit then
        var rest := SendMessage(answers, retries + 1, limit);
        rest.(posts := 1 + rest.posts)
      else if code == 200 then Sent(Delivered, 1)
      else Sent(Refused, 1)
    case NetworkError =>
      if retries < limit then
        var rest := SendMessage(answers, retries + 1, limit);
        rest.(posts := 1 + rest.posts)
      else Sent(Refused, 1)
    case OtherError => Sent(Raised, 1)
  }

  /** From any retry on: all posts but the last are answered by 429 or a network error, the last one
      decides, and it is only such an answer itself when the retries are used up. */
  lemma {:induction false} SendsFrom(answers: nat -> Response, retries: nat, limit: nat)
    requires retries <= limit
    ensures var s := SendMessage(answers, retries, limit);
            && 1 <= s.posts <= limit + 1 - retries
            && (forall k: nat :: retries <= k < retries + s.posts - 1 ==> IsTransient(answers(k)))
            && (IsTransient(answers(retries + s.posts - 1)) ==> s.posts == limit + 1 - retries)
            && s.outcome == match answers(retries + s.posts - 1)
                            case Status(code) => if code == 200 then Delivered else Refused
                            case NetworkError => Refused
                            case OtherError => Raised
    decreases limit - retries
  {
    if IsTransient(answers(retries)) && retries < limit {
      SendsFrom(answers, retries + 1, limit);
    }
  }

  /** A message is posted until the first answer that is neither 429 nor a network error, at most
      limit + 1 times, and counts as sent exactly when the last answer is 200. */
  lemma {:induction false} PostsUntilSettled(answers: nat -> Response, limit: nat, k: nat)
    requires k <= limit && forall i: nat :: i < k ==> IsTransient(answers(i))
    requires !IsTransient(answers(k)) || k == limit
    ensures SendMessage(answers, 0, limit).posts == k + 1
    ensures SendMessage(answers, 0, limit).outcome.Delivered? <==> answers(k) == Status(200)
    ensures SendMessage(answers, 0, limit).outcome.Raised? <==> answers(k).OtherError?
  {
    SendsFrom(answers, 0, limit);
    var last := SendMessage(answers, 0, limit).posts - 1;
    assert last > k ==> IsTransient(answers(k));
  }

  lemma SixPostsAtMost(answers: nat -> Response)
    ensures 1 <= SendMessage(answers, 0, MAX_RETRIES).posts <= 6
  {
    SendsFrom(answers, 0, MAX_RETRIES);
  }
}
