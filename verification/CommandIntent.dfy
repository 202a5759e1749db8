/**
 The browser half of exactly-once commands (useCommandMutation): the submitted value and its key are
 kept, in memory and in session storage, until the outcome of the request is known.
 */
module CommandIntent {
  import opened Wrappers

  const MAX_RECOVERY_AGE_MS: int := 23 * 60 * 60 * 1000
  const FUTURE_TOLERANCE_MS: int := 5 * 60 * 1000

  datatype Intent<V> = Intent(value: V, key: nat, createdAt: int)

  /** `stored` is the session-storage entry; `persistent` is false where there is no storage key. */
  datatype Client<V> = Client(
    intent: Option<Intent<V>>,
    inFlight: bool,
    outcomeUnknown: bool,
    expired: bool,
    persistent: bool,
    stored: Option<Intent<V>>)

  /** What a request can fail with: an answer and its status, or no answer at all. */
  datatype Failure = Problem(status: nat) | NoAnswer

  predicate RecoveryExpired(createdAt: int, now: int) {
    now - createdAt >= MAX_RECOVERY_AGE_MS || createdAt > now + FUTURE_TOLERANCE_MS
  }

  /** A fresh page: whatever storage holds is an intent whose outcome is unknown. */
  function Restored<V>(persistent: bool, stored: Option<Intent<V>>, now: int): Client<V> {
    var restored := if persistent then stored else None;
    Client(restored, false, restored.Some?, restored.Some? && RecoveryExpired(restored.value.createdAt, now), persistent, stored)
  }

  function Forget<V>(c: Client<V>, key: nat): Client<V> {
    c.(intent := None,
       stored := if c.persistent && c.stored.Some? && c.stored.value.key == key then None else c.stored)
  }

  function IntentFor<V>(c: Client<V>, value: V, freshKey: nat, now: int): Intent<V> {
    if c.intent.Some? then c.intent.value else Intent(value, freshKey, now)
  }

  /** The request that `Mutated` sends, if it sends one. */
  function Sent<V>(c: Client<V>, value: V, freshKey: nat, now: int): Option<Intent<V>> {
    var intent := IntentFor(c, value, freshKey, now);
    if c.inFlight || RecoveryExpired(intent.createdAt, now) then None else Some(intent)
  }

  function Mutated<V>(c: Client<V>, value: V, freshKey: nat, now: int): Client<V> {
    var intent := IntentFor(c, value, freshKey, now);
    if c.inFlight then c
    else if RecoveryExpired(intent.createdAt, now) then
      c.(intent := Some(intent), expired := true, outcomeUnknown := true)
    else
      c.(intent := Some(intent), inFlight := true, stored := if c.persistent then Some(intent) else c.stored)
  }

  predicate StaysUnknown<V>(c: Client<V>, failure: Failure) {
    c.outcomeUnknown || failure.NoAnswer? || failure.status >= 500
  }

  function AfterError<V>(c: Client<V>, key: nat, failure: Failure): Client<V> {
    if StaysUnknown(c, failure) then c.(inFlight := false, outcomeUnknown := true)
    else Forget(c.(inFlight := false, outcomeUnknown := false), key)
  }

  function AfterSuccess<V>(c: Client<V>, key: nat): Client<V> {
    Forget(c, key).(inFlight := false, outcomeUnknown := false, expired := false)
  }

  function Resolved<V>(c: Client<V>, now: int): Client<V> {
    if c.intent.None? || !RecoveryExpired(c.intent.value.createdAt, now) then c
    else Forget(c, c.intent.value.key).(outcomeUnknown := false, expired := false)
  }

  // ----- What the hook promises -----

  /** Young enough to be sent: less than 23 hours old, and at most five minutes from the future. */
  ghost predicate Young<V>(i: Intent<V>, now: int) {
    now - 82_800_000 < i.createdAt <= now + 300_000
  }

  /** An answer below 500 settles a request, unless an earlier outcome of it is still unknown. */
  ghost predicate Settles<V>(c: Client<V>, failure: Failure) {
    !c.outcomeUnknown && failure.Problem? && failure.status < 500
  }

  /** The pending intent is in storage too, where there is storage. */
  ghost predicate Kept<V>(c: Client<V>, i: Intent<V>) {
    c.intent == Some(i) && (c.persistent ==> c.stored == Some(i))
  }

  /**
   A submission sends the pending intent if there is one, whatever the form says by now, and otherwise what was
   submitted under a fresh key: unless a request is in flight or the intent is no longer young.
   */
  lemma SubmissionLaw<V>(c: Client<V>, value: V, freshKey: nat, now: int)
    ensures var i := if c.intent.Some? then c.intent.value else Intent(value, freshKey, now);
            var after := Mutated(c, value, freshKey, now);
            && Sent(c, value, freshKey, now) == (if !c.inFlight && Young(i, now) then Some(i) else None)
            && (c.inFlight ==> after == c)
            && (!c.inFlight ==> after.intent == Some(i) && after.inFlight == Young(i, now))
            && (!c.inFlight && Young(i, now) ==> Kept(after, i) && after.outcomeUnknown == c.outcomeUnknown)
            && (!c.inFlight && !Young(i, now) ==> after.expired && after.outcomeUnknown && after.stored == c.stored)
  {
  }

  /** An intent survives an error, in memory and in storage, exactly when the error does not settle it. */
  lemma ErrorLaw<V>(c: Client<V>, i: Intent<V>, failure: Failure)
    requires Kept(c, i)
    ensures var after := AfterError(c, i.key, failure);
            && !after.inFlight && (after.outcomeUnknown <==> !Settles(c, failure))
            && after.intent == (if Settles(c, failure) then None else Some(i))
            && (c.persistent ==> after.stored == if Settles(c, failure) then None else Some(i))
  {
  }

  /**
   So the next submission after an error that settles nothing is the same request, also after a reload; after one
   that settles it, a new request.
   */
  lemma ResubmissionLaw<V>(c: Client<V>, i: Intent<V>, failure: Failure, value: V, freshKey: nat, now: int)
    requires Kept(c, i) && Young(i, now)
    ensures var after, anew := AfterError(c, i.key, failure), Intent(value, freshKey, now);
            && Sent(after, value, freshKey, now) == Some(if Settles(c, failure) then anew else i)
            && Sent(Restored(c.persistent, after.stored, now), value, freshKey, now)
               == Some(if Settles(c, failure) || !c.persistent then anew else i)
  {
    ErrorLaw(c, i, failure);
    SubmissionLaw(AfterError(c, i.key, failure), value, freshKey, now);
  }

  /** A success ends an intent, in memory and in storage: what is submitted next is new. */
  lemma SuccessLaw<V>(c: Client<V>, i: Intent<V>, value: V, freshKey: nat, now: int)
    requires Kept(c, i)
    ensures var after, anew := AfterSuccess(c, i.key), Intent(value, freshKey, now);
            && !after.inFlight && !after.outcomeUnknown && !after.expired
            && Sent(after, value, freshKey, now) == Some(anew)
            && Sent(Restored(c.persistent, after.stored, now), value, freshKey, now) == Some(anew)
  {
    SubmissionLaw(AfterSuccess(c, i.key), value, freshKey, now);
  }

  /** Only an intent that is no longer young can be given up; then it is forgotten. */
  lemma GiveUpLaw<V>(c: Client<V>, i: Intent<V>, now: int)
    requires Kept(c, i)
    ensures var after := Resolved(c, now);
            if Young(i, now) then after == c
            else after.intent == None && (c.persistent ==> after.stored == None) && !after.outcomeUnknown && !after.expired
  {
  }

  /**
   A fresh page takes up the stored intent with its outcome unknown, and knows whether it is too old to send; a hook
   that does not persist starts with nothing.
   */
  lemma RestoreLaw<V>(stored: Option<Intent<V>>, now: int)
    ensures var page := Restored(true, stored, now);
            && page.intent == stored && page.stored == stored && !page.inFlight
            && (page.outcomeUnknown <==> stored.Some?) && (page.expired <==> stored.Some? && !Young(stored.value, now))
    ensures var page := Restored(false, stored, now);
            page.intent == None && !page.inFlight && !page.outcomeUnknown && !page.expired
  {
  }

  /** The hook itself: refs, state and session storage, updated by its callbacks. */
  class CommandMutation<V> {
    const persistent: bool
    var intent: Option<Intent<V>>
    var inFlight: bool
    var outcomeUnknown: bool
    var expired: bool
    var stored: Option<Intent<V>>

    function State(): Client<V>
      reads this
    {
      Client(intent, inFlight, outcomeUnknown, expired, persistent, stored)
    }

    constructor (persistent: bool, stored: Option<Intent<V>>, now: int)
      ensures State() == Restored(persistent, stored, now)
    {
      var restored := if persistent then stored else None;
      this.persistent := persistent;
      this.stored := stored;
      intent := restored;
      inFlight := false;
      outcomeUnknown := restored.Some?;
      expired := restored.Some? && RecoveryExpired(restored.value.createdAt, now);
    }

    method Persist(value: Option<Intent<V>>, settledKey: nat)
      modifies this`stored
      ensures value.Some? ==> stored == if persistent then value else old(stored)
      ensures value.None? ==>
                stored == if persistent && old(stored).Some? && old(stored).value.key == settledKey then None else old(stored)
    {
      if !persistent {
        return;
      }
      if value.Some? {
        stored := value;
      } else if stored.Some? && stored.value.key == settledKey {
        stored := None;
      }
    }

    method Mutate(value: V, freshKey: nat, now: int) returns (request: Option<Intent<V>>)
      modifies this
      ensures State() == Mutated(old(State()), value, freshKey, now)
      ensures request == Sent(old(State()), value, freshKey, now)
    {
      if inFlight {
        return None;
      }
      if intent.None? {
        intent := Some(Intent(value, freshKey, now));
      }
      if RecoveryExpired(intent.value.createdAt, now) {
        expired := true;
        outcomeUnknown := true;
        return None;
      }
      Persist(intent, 0);
      inFlight := true;
      request := intent;
    }

    method OnError(failure: Failure, submitted: Intent<V>)
      modifies this
      ensures State() == AfterError(old(State()), submitted.key, failure)
    {
      inFlight := false;
      var unknown := outcomeUnknown || failure.NoAnswer? || failure.status >= 500;
      outcomeUnknown := unknown;
      if !unknown {
        intent := None;
        Persist(None, submitted.key);
      }
    }

    method OnSuccess(submitted: Intent<V>)
      modifies this
      ensures State() == AfterSuccess(old(State()), submitted.key)
    {
      inFlight := false;
      intent := None;
      Persist(None, submitted.key);
      outcomeUnknown := false;
      expired := false;
    }

    method ResolveExpired(now: int)
      modifies this
      ensures State() == Resolved(old(State()), now)
    {
      if intent.None? || !RecoveryExpired(intent.value.createdAt, now) {
        return;
      }
      var key := intent.value.key;
      intent := None;
      Persist(None, key);
      outcomeUnknown := false;
      expired := false;
    }
  }
}
