/**
 The resolver's answer caches (backend/identity_resolver.py): confirmed answers are
 kept for ever, unconfirmed ones until they expire, sooner when the failure was transient.
 */
module ResolverCache {
  import opened Options
  import opened IdentityResolver

  const NEGATIVE_TTL := 900.0
  const TRANSIENT_TTL := 60.0

  predicate IsTransient(reason: string) {
    "network-error" <= reason || "http-429" <= reason || "http-5" <= reason || "bad-json" <= reason
  }

  function TimeToLive(reason: string): real {
    if IsTransient(reason) then TRANSIENT_TTL else NEGATIVE_TTL
  }

  datatype Caches = Caches(confirmed: map<string, Resolution>, unconfirmed: map<string, (Resolution, real)>)

  /** One request: what its source would answer, and the clock when the caches are read and written. */
  datatype Call = Call(key: string, answer: Resolution, readAt: real, writtenAt: real)

  function Remember(c: Caches, key: string, r: Resolution, now: real): Caches {
    match r
    case Confirmed(_) => Caches(c.confirmed[key := r], c.unconfirmed - {key})
    case Unconfirmed(reason) => c.(unconfirmed := c.unconfirmed[key := (r, now + TimeToLive(reason))])
  }

  function Reply(c: Caches, call: Call): Resolution {
    if call.key in c.confirmed then c.confirmed[call.key]
    else if call.key in c.unconfirmed && call.readAt < c.unconfirmed[call.key].1 then c.unconfirmed[call.key].0
    else call.answer
  }

  function After(c: Caches, call: Call): Caches {
    if call.key in c.confirmed || (call.key in c.unconfirmed && call.readAt < c.unconfirmed[call.key].1) then c
    else Remember(c, call.key, call.answer, call.writtenAt)
  }

  class Resolver {
    var confirmed: map<string, Resolution>
    var unconfirmed: map<string, (Resolution, real)>

    function Contents(): Caches
      reads this
    {
      Caches(confirmed, unconfirmed)
    }

    constructor ()
      ensures Contents() == Caches(map[], map[])
    {
      confirmed, unconfirmed := map[], map[];
    }

    /** `resolve`, from its cache key on; the source is asked only when neither cache answers. */
    method Resolve(call: Call) returns (r: Resolution)
      modifies this
      ensures r == Reply(old(Contents()), call) && Contents() == After(old(Contents()), call)
      // A confirmed answer is repeated and never replaced; the source is heard only when neither cache answers.
      ensures forall k :: k in old(confirmed) ==> k in confirmed && confirmed[k] == old(confirmed)[k]
      ensures r.Confirmed? && call.key !in old(confirmed) && call.key !in old(unconfirmed) ==>
                call.key in confirmed && confirmed[call.key] == r == call.answer
      ensures old(confirmed).Keys !! old(unconfirmed).Keys ==> confirmed.Keys !! unconfirmed.Keys
    {
      if call.key in confirmed {
        return confirmed[call.key];
      }
      if call.key in unconfirmed {
        if call.readAt < unconfirmed[call.key].1 {
          return unconfirmed[call.key].0;
        }
        unconfirmed := unconfirmed - {call.key};
      }
      r := call.answer;
      match r
      case Confirmed(_) =>
        confirmed := confirmed[call.key := r];
        unconfirmed := unconfirmed - {call.key};
        assert Contents().unconfirmed == old(unconfirmed) - {call.key};
      case Unconfirmed(reason) =>
        unconfirmed := unconfirmed[call.key := (r, call.writtenAt + TimeToLive(reason))];
        assert Contents().unconfirmed == old(unconfirmed)[call.key := (r, call.writtenAt + TimeToLive(reason))];
    }
  }

  // ---- Runs ----

  function Run(calls: seq<Call>): Caches {
    if calls == [] then Caches(map[], map[]) else After(Run(calls[..|calls| - 1]), calls[|calls| - 1])
  }

  function ReplyAt(calls: seq<Call>, i: nat): Resolution
    requires i < |calls|
  {
    Reply(Run(calls[..i]), calls[i])
  }

  /** A negative answer some call got, still within its time. */
  ghost predicate GotNegative(calls: seq<Call>, key: string, r: Resolution, expiresAt: real) {
    exists i :: 0 <= i < |calls| && calls[i].key == key && calls[i].answer == r
                && r.Unconfirmed? && expiresAt == calls[i].writtenAt + TimeToLive(r.reason)
  }

  ghost predicate GotConfirmed(calls: seq<Call>, key: string, r: Resolution) {
    exists i :: 0 <= i < |calls| && calls[i].key == key && calls[i].answer == r && r.Confirmed?
  }

  /** The caches hold only answers that sources gave, and never both kinds for one key. */
  ghost predicate Inv(calls: seq<Call>, c: Caches) {
    && c.confirmed.Keys !! c.unconfirmed.Keys
    && (forall k :: k in c.confirmed ==> GotConfirmed(calls, k, c.confirmed[k]))
    && (forall k :: k in c.unconfirmed ==> GotNegative(calls, k, c.unconfirmed[k].0, c.unconfirmed[k].1))
  }

  lemma LaterCallsKeep(calls: seq<Call>, more: Call, key: string, r: Resolution, expiresAt: real)
    ensures GotConfirmed(calls, key, r) ==> GotConfirmed(calls + [more], key, r)
    ensures GotNegative(calls, key, r, expiresAt) ==> GotNegative(calls + [more], key, r, expiresAt)
  {
    assert forall i :: 0 <= i < |calls| ==> (calls + [more])[i] == calls[i];
    if GotConfirmed(calls, key, r) {
      var i :| 0 <= i < |calls| && calls[i].key == key && calls[i].answer == r;
      assert (calls + [more])[i] == calls[i];
    }
    if GotNegative(calls, key, r, expiresAt) {
      var i :| 0 <= i < |calls| && calls[i].key == key && calls[i].answer == r
               && expiresAt == calls[i].writtenAt + TimeToLive(r.reason);
      assert (calls + [more])[i] == calls[i];
    }
  }

  lemma CallKeepsInv(calls: seq<Call>, c: Caches, call: Call)
    requires Inv(calls, c)
    ensures Inv(calls + [call], After(c, call))
  {
    var after, all := After(c, call), calls + [call];
    assert all[|calls|] == call;
    forall k | k in after.confirmed ensures GotConfirmed(all, k, after.confirmed[k]) {
      LaterCallsKeep(calls, call, k, after.confirmed[k], 0.0);
    }
    forall k | k in after.unconfirmed ensures GotNegative(all, k, after.unconfirmed[k].0, after.unconfirmed[k].1) {
      LaterCallsKeep(calls, call, k, after.unconfirmed[k].0, after.unconfirmed[k].1);
    }
  }

  lemma {:induction false} RunKeepsInv(calls: seq<Call>)
    ensures Inv(calls, Run(calls))
  {
    if calls != [] {
      RunKeepsInv(calls[..|calls| - 1]);
      CallKeepsInv(calls[..|calls| - 1], Run(calls[..|calls| - 1]), calls[|calls| - 1]);
      assert calls == calls[..|calls| - 1] + [calls[|calls| - 1]];
    }
  }

  /** Once a key was confirmed, every later request for it gets that same answer. */
  lemma {:induction false} ConfirmedAnswersAreFinal(calls: seq<Call>, i: nat, j: nat)
    requires i < j < |calls| && calls[i].key == calls[j].key && ReplyAt(calls, i).Confirmed?
    ensures ReplyAt(calls, j) == ReplyAt(calls, i)
  {
    RunKeepsInv(calls[..i]);
    ConfirmedStays(calls, i, j);
  }

  lemma {:induction false} ConfirmedStays(calls: seq<Call>, i: nat, j: nat)
    requires i < j <= |calls| && ReplyAt(calls, i).Confirmed? && Inv(calls[..i], Run(calls[..i]))
    ensures calls[i].key in Run(calls[..j]).confirmed && Run(calls[..j]).confirmed[calls[i].key] == ReplyAt(calls, i)
  {
    assert calls[..j][..j - 1] == calls[..j - 1];
    if j > i + 1 {
      ConfirmedStays(calls, i, j - 1);
    }
  }

  /** A negative reply is fresh, or repeats one its source gave and that has not expired. */
  lemma NegativeAnswersExpire(calls: seq<Call>, j: nat)
    requires j < |calls| && ReplyAt(calls, j).Unconfirmed?
    ensures ReplyAt(calls, j) == calls[j].answer
            || exists i :: 0 <= i < j && calls[i].key == calls[j].key && calls[i].answer == ReplyAt(calls, j)
                           && calls[j].readAt < calls[i].writtenAt + TimeToLive(ReplyAt(calls, j).reason)
  {
    var c, key, r := Run(calls[..j]), calls[j].key, ReplyAt(calls, j);
    RunKeepsInv(calls[..j]);
    if r != calls[j].answer {
      assert key !in c.confirmed || GotConfirmed(calls[..j], key, r);
      assert GotNegative(calls[..j], key, r, c.unconfirmed[key].1);
      var i :| 0 <= i < j && calls[..j][i].key == key && calls[..j][i].answer == r
               && c.unconfirmed[key].1 == calls[..j][i].writtenAt + TimeToLive(r.reason);
      assert calls[..j][i] == calls[i];
    }
  }

  // ---- Which requests reach the source ----

  predicate StartsWith(s: string, start: string) {
    |start| <= |s| && s[..|start|] == start
  }

  /** A minute for failures that pass, a quarter of an hour for the others. */
  function Lifetime(reason: string): real {
    if StartsWith(reason, "network-error") || StartsWith(reason, "http-429") || StartsWith(reason, "http-5") || StartsWith(reason, "bad-json")
    then 60.0 else 900.0
  }

  lemma LifetimeMeans(reason: string)
    ensures TimeToLive(reason) == Lifetime(reason)
  {
  }

  /** The last of the first `n` calls for the key that reached its source. */
  function LastHeard(calls: seq<Call>, n: nat, key: string): (i: Option<nat>)
    requires n <= |calls|
    ensures i.Some? ==> i.value < n && calls[i.value].key == key
    decreases n, 0
  {
    if n == 0 then None
    else if calls[n - 1].key == key && IsHeard(calls, n - 1) then Some(n - 1)
    else LastHeard(calls, n - 1, key)
  }

  /** Nothing was heard for the key yet, or what was heard last was negative and has expired. */
  predicate IsHeard(calls: seq<Call>, j: nat)
    requires j < |calls|
    decreases j, 1
  {
    match LastHeard(calls, j, calls[j].key)
    case None => true
    case Some(i) => calls[i].answer.Unconfirmed? && calls[j].readAt >= calls[i].writtenAt + Lifetime(calls[i].answer.reason)
  }

  /** The caches hold, for every key, what its source said last. */
  ghost predicate HoldsLast(calls: seq<Call>, n: nat, c: Caches, key: string)
    requires n <= |calls|
  {
    match LastHeard(calls, n, key)
    case None => key !in c.confirmed && key !in c.unconfirmed
    case Some(i) =>
      match calls[i].answer
      case Confirmed(_) => key in c.confirmed && c.confirmed[key] == calls[i].answer
      case Unconfirmed(reason) =>
        key !in c.confirmed && key in c.unconfirmed && c.unconfirmed[key] == (calls[i].answer, calls[i].writtenAt + Lifetime(reason))
  }

  lemma {:induction false} CachesHoldTheLast(calls: seq<Call>, n: nat, key: string)
    requires n <= |calls|
    ensures HoldsLast(calls, n, Run(calls[..n]), key)
    decreases n
  {
    if n > 0 {
      assert calls[..n][..n - 1] == calls[..n - 1];
      CachesHoldTheLast(calls, n - 1, key);
      if calls[n - 1].answer.Unconfirmed? {
        LifetimeMeans(calls[n - 1].answer.reason);
      }
    }
  }

  /**
   Every request is answered by its source exactly when nothing was heard for its key yet, or what was
   heard last was negative and has expired; otherwise it gets that last answer again.
   */
  lemma RequestsRepeatTheLastAnswer(calls: seq<Call>, j: nat)
    requires j < |calls|
    ensures ReplyAt(calls, j) ==
            if IsHeard(calls, j) then calls[j].answer else calls[LastHeard(calls, j, calls[j].key).value].answer
  {
    CachesHoldTheLast(calls, j, calls[j].key);
  }
}
