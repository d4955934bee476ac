/** The client's commit loop: one idempotency key, and a check for it on every attempt but the first.
    (mvclient/src/lib.rs) */
module Retry {
  import opened Common

  /** What comes back from one attempt: nothing (a network or server error), a client error, or success. */
  datatype Answer = NoAnswer | ClientError(status: nat) | Accepted(ver: Version, changelog: Option<set<PageNo>>)

  datatype Attempt = Attempt(token: nat, allowSkip: bool)

  /** `Pending` is a loop that has not ended yet. */
  datatype Result = Pending | NoIntents | Conflicted | Failed(status: nat) | Committed(ver: Version,
    changelog: Option<set<PageNo>>)

  function Settled(a: Answer): Result {
    match a
    case NoAnswer => Pending
    case ClientError(status) => if status == 409 then Conflicted else Failed(status)
    case Accepted(ver, changelog) => Committed(ver, changelog)
  }

  /** The first answer of all decides, and none after it is asked for. */
  predicate FirstAnswer(answers: seq<Answer>, n: nat, r: Result) {
    && n <= |answers|
    && (forall i | 0 <= i < n - 1 :: answers[i].NoAnswer?)
    && (if n > 0 then r == Settled(answers[n - 1]) else r == Pending)
    && (r.Pending? ==> n == |answers|)
  }

  /** `answers` are the outcomes of the attempts, as far as they go. */
  method ApplyCommitIntents(intents: nat, token: nat, answers: seq<Answer>) returns (r: Result, sent: seq<Attempt>)
    ensures intents == 0 ==> r == NoIntents && sent == []
    ensures intents > 0 ==> FirstAnswer(answers, |sent|, r)
    ensures forall i | 0 <= i < |sent| :: sent[i] == Attempt(token, i == 0)
    ensures sent != [] ==>
      var last := answers[|sent| - 1];
      && (last.Accepted? ==> r == Committed(last.ver, last.changelog)) && (last.NoAnswer? ==> r == Pending)
      && (last.ClientError? ==> r == if last.status == 409 then Conflicted else Failed(last.status))
  {
    sent := [];
    if intents == 0 { return NoIntents, sent; }
    r := Pending;
    var allowSkip := true;
    while |sent| < |answers|
      invariant |sent| <= |answers| && allowSkip == (sent == []) && r == Pending
      invariant forall i | 0 <= i < |sent| :: answers[i].NoAnswer?
      invariant forall i | 0 <= i < |sent| :: sent[i] == Attempt(token, i == 0)
      decreases |answers| - |sent|
    {
      var a := answers[|sent|];
      sent := sent + [Attempt(token, allowSkip)];
      allowSkip := false;
      if !a.NoAnswer? { return Settled(a), sent; }
    }
  }
}
