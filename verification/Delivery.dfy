/** The retry loop around one notification. */
module Delivery {
  import opened Options

  const ATTEMPTS: nat := 3

  /** What one attempt came back with; a delay that is no finite number is None. */
  datatype Delivery = Sent | Retry(delay: Option<real>) | Failure(reason: string)

  predicate Acceptable(d: Delivery) { d.Retry? && d.delay.Some? && 0.0 <= d.delay.value <= 30.0 }

  ghost function AtLeastOne(seconds: real): (r: real)
    ensures r >= seconds && r >= 1.0 && (r == seconds || r == 1.0)
  {
    if seconds < 1.0 then 1.0 else seconds
  }

  /** The time waited behind the first n answers. */
  ghost function Waited(answers: seq<Delivery>, n: nat): (r: real)
    requires n <= |answers| && forall k | 0 <= k < n :: Acceptable(answers[k])
  {
    if n == 0 then 0.0
    else
      assert Acceptable(answers[n - 1]);
      Waited(answers, n - 1) + AtLeastOne(answers[n - 1].delay.value)
  }

  /** The number of attempts made against a transport that answers like this. */
  function AttemptsMade(answers: seq<Delivery>): nat {
    if answers == [] then 0
    else if |answers| > 1 && Acceptable(answers[0]) then 1 + AttemptsMade(answers[1..])
    else 1
  }

  /**
   Tries until the first answer that is final, three times at most, whatever the
   transport says, and waits as long as it was asked to, but at least a second.
   */
  method Deliver(answers: seq<Delivery>) returns (result: string, attempts: nat, waited: real)
    requires |answers| == ATTEMPTS
    ensures 1 <= attempts == AttemptsMade(answers) <= 3
    ensures forall k | 0 <= k < attempts - 1 ::
      answers[k].Retry? && answers[k].delay.Some? && 0.0 <= answers[k].delay.value <= 30.0
    ensures match answers[attempts - 1]
            case Sent => result == "sent"
            case Failure(reason) => result == reason
            case Retry(delay) =>
              result == "rate_limited" && (attempts < 3 ==> !(delay.Some? && 0.0 <= delay.value <= 30.0))
    ensures waited == Waited(answers, attempts - 1)
    ensures attempts == 1 ==> waited == 0.0
    ensures attempts == 2 ==> waited == AtLeastOne(answers[0].delay.value)
    ensures attempts == 3 ==> waited == AtLeastOne(answers[0].delay.value) + AtLeastOne(answers[1].delay.value)
  {
    waited := 0.0;
    attempts := 0;
    while true
      invariant 0 <= attempts < ATTEMPTS
      invariant forall k | 0 <= k < attempts :: Acceptable(answers[k])
      invariant AttemptsMade(answers) == attempts + AttemptsMade(answers[attempts..])
      invariant waited == Waited(answers, attempts)
      decreases ATTEMPTS - attempts
    {
      var answer := answers[attempts];
      assert answers[attempts..][1..] == answers[attempts + 1..];
      attempts := attempts + 1;
      match answer {
        case Sent => return "sent", attempts, waited;
        case Failure(reason) => return reason, attempts, waited;
        case Retry(delay) =>
          if attempts < ATTEMPTS && delay.Some? && 0.0 <= delay.value <= 30.0 {
            waited := waited + if delay.value < 1.0 then 1.0 else delay.value;
          } else {
            return "rate_limited", attempts, waited;
          }
      }
    }
  }
}
