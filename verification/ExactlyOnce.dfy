/**
 One browser, a network that loses, delays and may repeat messages, and the server's idempotency
 records, run together. Every list of steps is a run: a step that is not enabled changes nothing.
 Values and bodies are opaque numbers; times are milliseconds of the server's clock.
 */
module ExactlyOnce {
  import opened Wrappers
  import opened Idempotency
  import opened CommandIntent

  const HOUR_MS: int := 60 * 60 * 1000

  type Value = nat
  type Body = nat

  /**
   The client's clock reads between `offset` and `offset + skew` ahead of the server's. A request starts
   at most `delay` after it was sent, and more than once only when `repeats`.
   */
  datatype Config = Config(offset: int, skew: nat, delay: nat, repeats: bool)

  datatype Request = Request(intent: Intent<Value>, sentAt: int)

  datatype Answer = Accepted(body: Body) | Rejected(status: nat)

  datatype Response = Response(attempt: nat, answer: Answer)

  /** Work that the server committed for a key of this browser. */
  datatype Commit = Commit(key: nat, body: Body, at: int)

  datatype Birth = Birth(intent: Intent<Value>, at: int)

  /** `flying` is the attempt whose answer the hook awaits; `dropped` maps a key dropped on an error to its attempt. */
  datatype System = System(
    now: int,
    client: Client<Value>,
    flying: Option<nat>,
    requests: seq<Request>,
    responses: seq<Response>,
    records: map<nat, Record<Value, Body>>,
    commits: seq<Commit>,
    births: map<nat, Birth>,
    foreign: set<nat>,
    shown: seq<(nat, Body)>,
    dropped: map<nat, nat>)

  datatype Step =
    | Pass(elapsed: nat)
    | Submit(value: Value, freshKey: nat, clock: int)
    | Reload(clock: int)
    | GiveUp(clock: int)
    | Execute(attempt: nat, work: Option<Body>, failStatus: nat, duration: nat)
    /** The request is executed, but the server or a proxy before it answers with a server error. */
    | ExecuteUnheard(attempt: nat, work: Option<Body>, status: nat, duration: nat)
    | Refuse(attempt: nat, status: nat)
    | Lose
    | Receive(response: nat)
    | OtherCommand(key: nat, value: Value, work: Option<Body>, duration: nat)

  ghost predicate ClockOk(config: Config, s: System, clock: int) {
    config.offset <= clock - s.now <= config.offset + config.skew
  }

  ghost predicate Processed(s: System, attempt: nat) {
    exists i | 0 <= i < |s.responses| :: s.responses[i].attempt == attempt
  }

  ghost predicate Deliverable(config: Config, s: System, attempt: nat) {
    && attempt < |s.requests| && s.now <= s.requests[attempt].sentAt + config.delay
    && (config.repeats || !Processed(s, attempt))
  }

  ghost predicate Enabled(config: Config, s: System, step: Step) {
    match step
    case Pass(_) => true
    case Submit(_, freshKey, clock) => freshKey !in s.births && freshKey !in s.foreign && ClockOk(config, s, clock)
    case Reload(clock) => ClockOk(config, s, clock)
    case GiveUp(clock) => ClockOk(config, s, clock)
    case Execute(attempt, _, failStatus, _) => Deliverable(config, s, attempt) && 400 <= failStatus
    case ExecuteUnheard(attempt, _, status, _) => Deliverable(config, s, attempt) && 500 <= status
    case Refuse(attempt, status) => Deliverable(config, s, attempt) && 400 <= status
    case Lose => s.flying.Some? && s.flying.value < |s.requests|
    case Receive(i) => i < |s.responses| && s.flying == Some(s.responses[i].attempt)
    case OtherCommand(key, _, _, _) => key !in s.births
  }

  ghost function DoSubmit(s: System, value: Value, freshKey: nat, clock: int): System {
    var sent := Sent(s.client, value, freshKey, clock);
    var client := Mutated(s.client, value, freshKey, clock);
    var births :=
      if !s.client.inFlight && s.client.intent.None? then s.births[freshKey := Birth(client.intent.value, s.now)] else s.births;
    var next := s.(client := client, births := births);
    if sent.None? then next
    else next.(flying := Some(|s.requests|), requests := s.requests + [Request(sent.value, s.now)])
  }

  ghost function DoExecute(s: System, attempt: nat, work: Option<Body>, failStatus: nat, end: int): System
    requires attempt < |s.requests|
  {
    var intent := s.requests[attempt].intent;
    var answer := match OutcomeOf(s.records, intent.key, intent.value, work, s.now)
      case Done(body) => Accepted(body)
      case Replayed(body) => Accepted(body)
      case KeyReused => Rejected(409)
      case WorkFailed => Rejected(failStatus);
    var commits := match OutcomeOf(s.records, intent.key, intent.value, work, s.now)
      case Done(body) => s.commits + [Commit(intent.key, body, end)]
      case _ => s.commits;
    s.(now := end,
       records := RecordsAfter(s.records, intent.key, intent.value, work, s.now, end),
       responses := s.responses + [Response(attempt, answer)],
       commits := commits)
  }

  ghost function DoExecuteUnheard(s: System, attempt: nat, work: Option<Body>, status: nat, end: int): System
    requires attempt < |s.requests|
  {
    DoExecute(s, attempt, work, status, end).(responses := s.responses + [Response(attempt, Rejected(status))])
  }

  /** The hook learns of an error of an attempt; if it forgets its intent, that is recorded. */
  ghost function DoError(s: System, attempt: nat, failure: Failure): System
    requires attempt < |s.requests|
  {
    var key := s.requests[attempt].intent.key;
    var client := AfterError(s.client, key, failure);
    s.(client := client, flying := None,
       dropped := if s.client.intent.Some? && client.intent.None? then s.dropped[key := attempt] else s.dropped)
  }

  ghost function DoReceive(s: System, i: nat): System
    requires i < |s.responses| && s.responses[i].attempt < |s.requests|
  {
    var attempt := s.responses[i].attempt;
    var key := s.requests[attempt].intent.key;
    match s.responses[i].answer
    case Accepted(body) =>
      s.(client := AfterSuccess(s.client, key), flying := None, shown := s.shown + [(key, body)])
    case Rejected(status) => DoError(s, attempt, Problem(status))
  }

  ghost function Do(config: Config, s: System, step: Step): System {
    if !Enabled(config, s, step) then s
    else
      match step
      case Pass(elapsed) => s.(now := s.now + elapsed)
      case Submit(value, freshKey, clock) => DoSubmit(s, value, freshKey, clock)
      case Reload(clock) => s.(client := Restored(s.client.persistent, s.client.stored, clock), flying := None)
      case GiveUp(clock) => s.(client := Resolved(s.client, clock))
      case Execute(attempt, work, failStatus, duration) => DoExecute(s, attempt, work, failStatus, s.now + duration)
      case Refuse(attempt, status) => s.(responses := s.responses + [Response(attempt, Rejected(status))])
      case ExecuteUnheard(attempt, work, status, duration) => DoExecuteUnheard(s, attempt, work, status, s.now + duration)
      case Lose => DoError(s, s.flying.value, NoAnswer)
      case Receive(i) => if s.responses[i].attempt < |s.requests| then DoReceive(s, i) else s
      case OtherCommand(key, value, work, duration) =>
        s.(now := s.now + duration, foreign := s.foreign + {key},
           records := RecordsAfter(s.records, key, value, work, s.now, s.now + duration))
  }

  ghost function Run(config: Config, s: System, steps: seq<Step>): System {
    if steps == [] then s else Do(config, Run(config, s, steps[..|steps| - 1]), steps[|steps| - 1])
  }

  /** A page with nothing pending and a server without records. */
  ghost function Initially(persistent: bool): System {
    System(0, Restored(persistent, None, 0), None, [], [], map[], [], map[], {}, [], map[])
  }

  // ----- The invariant -----

  ghost predicate HasCommit(s: System, key: nat, body: Body) {
    exists i | 0 <= i < |s.commits| :: s.commits[i].key == key && s.commits[i].body == body
  }

  ghost predicate Known(s: System, intent: Intent<Value>) {
    intent.key in s.births && s.births[intent.key].intent == intent
  }

  /** An intent keeps its value and creation time, and is sent only in its 23 hours as the client's clock sees them. */
  ghost predicate RequestsOk(config: Config, s: System) {
    && (forall k | k in s.births ::
          s.births[k].intent.key == k && s.births[k].at <= s.now
          && s.births[k].intent.createdAt <= s.births[k].at + config.offset + config.skew)
    && (forall a | 0 <= a < |s.requests| ::
          && Known(s, s.requests[a].intent)
          && s.births[s.requests[a].intent.key].at <= s.requests[a].sentAt <= s.now
          && s.requests[a].sentAt + config.offset < s.requests[a].intent.createdAt + MAX_RECOVERY_AGE_MS)
    && (s.client.intent.Some? ==> Known(s, s.client.intent.value))
    && (s.client.stored.Some? ==> Known(s, s.client.stored.value))
    && (forall k | k in s.foreign :: k !in s.births)
  }

  ghost predicate RecordsOk(s: System) {
    && (forall i | 0 <= i < |s.commits| ::
          && s.commits[i].key in s.births
          && s.births[s.commits[i].key].at <= s.commits[i].at <= s.now
          && (s.now <= s.commits[i].at + RETENTION_MS ==>
                s.commits[i].key in s.records && s.records[s.commits[i].key].expiresAt == s.commits[i].at + RETENTION_MS))
    && (forall k | k in s.records ::
          k in s.foreign || (k in s.births && HasCommit(s, k, s.records[k].body)
                             && s.records[k].fingerprint == s.births[k].intent.value))
  }

  ghost predicate AnswersOk(s: System) {
    && (forall i | 0 <= i < |s.responses| ::
          && s.responses[i].attempt < |s.requests|
          && (s.responses[i].answer.Accepted? ==>
                HasCommit(s, s.requests[s.responses[i].attempt].intent.key, s.responses[i].answer.body)))
    && (forall i | 0 <= i < |s.shown| :: HasCommit(s, s.shown[i].0, s.shown[i].1))
  }

  ghost predicate CommitsUnique(s: System) {
    forall i, j | 0 <= i < j < |s.commits| :: s.commits[i].key != s.commits[j].key
  }

  ghost predicate SystemOk(config: Config, s: System) {
    RequestsOk(config, s) && RecordsOk(s) && AnswersOk(s) && CommitsUnique(s)
  }

  /** The client's two clocks and the network leave the 24-hour record alive for every request of its intent. */
  ghost predicate WithinWindow(config: Config) {
    config.skew + config.delay <= HOUR_MS + 1
  }

  // ----- Steps keep it -----

  lemma CommitsPersist(s: System, after: System)
    requires s.commits <= after.commits
    ensures forall key: nat, body: nat :: HasCommit(s, key, body) ==> HasCommit(after, key, body)
  {
    forall key: nat, body: nat | HasCommit(s, key, body) ensures HasCommit(after, key, body) {
      var i :| 0 <= i < |s.commits| && s.commits[i].key == key && s.commits[i].body == body;
      assert after.commits[i] == s.commits[i];
    }
  }

  lemma AnswersPersist(s: System, after: System)
    requires AnswersOk(s) && after.responses == s.responses && after.shown == s.shown
    requires s.requests <= after.requests && s.commits <= after.commits
    ensures AnswersOk(after)
  {
    CommitsPersist(s, after);
    forall i | 0 <= i < |s.responses| ensures after.requests[s.responses[i].attempt] == s.requests[s.responses[i].attempt] {
    }
  }

  lemma SubmitKeepsRequests(config: Config, s: System, value: Value, freshKey: nat, clock: int)
    requires RequestsOk(config, s) && Enabled(config, s, Submit(value, freshKey, clock))
    ensures RequestsOk(config, DoSubmit(s, value, freshKey, clock))
  {
  }

  lemma MoreBirthsKeepRecords(s: System, after: System)
    requires RecordsOk(s) && after.records == s.records && after.commits == s.commits
    requires after.now == s.now && after.foreign == s.foreign
    requires forall k | k in s.births :: k in after.births && after.births[k] == s.births[k]
    ensures RecordsOk(after)
  {
    CommitsPersist(s, after);
  }

  lemma SubmitKeepsOk(config: Config, s: System, value: Value, freshKey: nat, clock: int)
    requires SystemOk(config, s) && Enabled(config, s, Submit(value, freshKey, clock))
    ensures SystemOk(config, DoSubmit(s, value, freshKey, clock))
  {
    hide RequestsOk, RecordsOk, AnswersOk;
    var after := DoSubmit(s, value, freshKey, clock);
    SubmitKeepsRequests(config, s, value, freshKey, clock);
    AnswersPersist(s, after);
    MoreBirthsKeepRecords(s, after);
  }

  /** A request of a committed key always starts while the record of that commit is alive. */
  lemma CommittedKeyIsLive(config: Config, s: System, attempt: nat)
    requires WithinWindow(config) && SystemOk(config, s) && Deliverable(config, s, attempt)
    ensures forall i | 0 <= i < |s.commits| && s.commits[i].key == s.requests[attempt].intent.key ::
              s.commits[i].key in Live(s.records, s.now)
  {
    var intent := s.requests[attempt].intent;
    forall i | 0 <= i < |s.commits| && s.commits[i].key == intent.key
      ensures s.commits[i].key in Live(s.records, s.now)
    {
      assert s.births[intent.key].intent == intent;
      assert s.now <= s.commits[i].at + RETENTION_MS;
    }
  }

  lemma ExecuteKeepsRecords(config: Config, s: System, attempt: nat, work: Option<Body>, failStatus: nat, end: int)
    requires WithinWindow(config) && SystemOk(config, s) && Deliverable(config, s, attempt) && s.now <= end
    ensures RecordsOk(DoExecute(s, attempt, work, failStatus, end))
    ensures CommitsUnique(DoExecute(s, attempt, work, failStatus, end))
    ensures s.commits <= DoExecute(s, attempt, work, failStatus, end).commits
  {
    var intent := s.requests[attempt].intent;
    var after := DoExecute(s, attempt, work, failStatus, end);
    CommittedKeyIsLive(config, s, attempt);
    CommitsPersist(s, after);
    assert Known(s, intent);
    if OutcomeOf(s.records, intent.key, intent.value, work, s.now).Done? {
      assert after.commits[|s.commits|] == Commit(intent.key, work.value, end);
      assert HasCommit(after, intent.key, work.value);
      assert after.records == Live(s.records, s.now)[intent.key := Record(intent.value, work.value, end + RETENTION_MS)];
    }
  }

  lemma ExecuteKeepsAnswers(config: Config, s: System, attempt: nat, work: Option<Body>, failStatus: nat, end: int)
    requires SystemOk(config, s) && attempt < |s.requests|
    ensures AnswersOk(DoExecute(s, attempt, work, failStatus, end))
  {
    var intent := s.requests[attempt].intent;
    var after := DoExecute(s, attempt, work, failStatus, end);
    CommitsPersist(s, after);
    assert Known(s, intent);
    var last := after.responses[|s.responses|];
    if last.answer.Accepted? {
      assert HasCommit(after, intent.key, last.answer.body) by {
        if OutcomeOf(s.records, intent.key, intent.value, work, s.now).Done? {
          assert after.commits[|s.commits|] == Commit(intent.key, work.value, end);
        } else {
          assert intent.key in s.records && s.records[intent.key].body == last.answer.body;
        }
      }
    }
    assert forall i | 0 <= i < |s.responses| :: after.responses[i] == s.responses[i];
  }

  lemma ExecuteKeepsOk(config: Config, s: System, attempt: nat, work: Option<Body>, failStatus: nat, end: int)
    requires WithinWindow(config) && SystemOk(config, s) && Deliverable(config, s, attempt) && s.now <= end
    ensures SystemOk(config, DoExecute(s, attempt, work, failStatus, end))
  {
    ExecuteKeepsRecords(config, s, attempt, work, failStatus, end);
    ExecuteKeepsAnswers(config, s, attempt, work, failStatus, end);
    ExecuteKeepsRequests(config, s, attempt, work, failStatus, end);
  }

  lemma ExecuteStepKeepsOk(config: Config, s: System, step: Step)
    requires WithinWindow(config) && SystemOk(config, s) && Enabled(config, s, step) && step.Execute?
    ensures SystemOk(config, Do(config, s, step))
  {
    var after := DoExecute(s, step.attempt, step.work, step.failStatus, s.now + step.duration);
    ExecuteIsDo(config, s, step);
    ExecuteKeepsOk(config, s, step.attempt, step.work, step.failStatus, s.now + step.duration);
    assert SystemOk(config, after);
  }

  lemma ExecuteIsDo(config: Config, s: System, step: Step)
    requires Enabled(config, s, step) && step.Execute?
    ensures Do(config, s, step) == DoExecute(s, step.attempt, step.work, step.failStatus, s.now + step.duration)
  {
  }

  lemma UnheardKeepsOk(config: Config, s: System, attempt: nat, work: Option<Body>, status: nat, end: int)
    requires WithinWindow(config) && SystemOk(config, s) && Deliverable(config, s, attempt) && s.now <= end
    ensures SystemOk(config, DoExecuteUnheard(s, attempt, work, status, end))
  {
    hide DoExecute, RecordsOk, CommitsUnique;
    var heard, after := DoExecute(s, attempt, work, status, end), DoExecuteUnheard(s, attempt, work, status, end);
    ExecuteKeepsOk(config, s, attempt, work, status, end);
    SameButResponses(config, heard, after);
    SameShape(s, attempt, work, status, end);
    CommitsPersist(s, after);
    forall i | 0 <= i < |after.responses| && after.responses[i].answer.Accepted?
      ensures HasCommit(after, after.requests[after.responses[i].attempt].intent.key, after.responses[i].answer.body)
    {
      assert after.responses[i] == s.responses[i];
    }
  }

  lemma SameShape(s: System, attempt: nat, work: Option<Body>, status: nat, end: int)
    requires attempt < |s.requests|
    ensures var heard := DoExecute(s, attempt, work, status, end);
            heard.requests == s.requests && heard.shown == s.shown && s.commits <= heard.commits
  {
  }

  /** Responses matter to nothing but what is answered. */
  lemma SameButResponses(config: Config, s: System, after: System)
    requires after == s.(responses := after.responses) && SystemOk(config, s)
    ensures RequestsOk(config, after) && RecordsOk(after) && CommitsUnique(after)
    ensures forall i | 0 <= i < |s.shown| :: HasCommit(after, s.shown[i].0, s.shown[i].1)
  {
    CommitsPersist(s, after);
  }

  lemma ExecuteKeepsRequests(config: Config, s: System, attempt: nat, work: Option<Body>, failStatus: nat, end: int)
    requires RequestsOk(config, s) && attempt < |s.requests| && s.now <= end
    ensures RequestsOk(config, DoExecute(s, attempt, work, failStatus, end))
  {
  }

  lemma OthersKeepOk(config: Config, s: System, key: nat, value: Value, work: Option<Body>, duration: nat)
    requires SystemOk(config, s) && key !in s.births
    ensures SystemOk(config, Do(config, s, OtherCommand(key, value, work, duration)))
  {
    var after := Do(config, s, OtherCommand(key, value, work, duration));
    AnswersPersist(s, after);
    CommitsPersist(s, after);
  }

  lemma ReceiveKeepsOk(config: Config, s: System, i: nat)
    requires SystemOk(config, s) && i < |s.responses|
    ensures SystemOk(config, DoReceive(s, i))
  {
    ReceiveKeepsAnswers(s, i);
    assert RequestsOk(config, DoReceive(s, i));
    CommitsPersist(s, DoReceive(s, i));
  }

  lemma ReceiveKeepsAnswers(s: System, i: nat)
    requires AnswersOk(s) && i < |s.responses|
    ensures AnswersOk(DoReceive(s, i))
  {
    var after := DoReceive(s, i);
    CommitsPersist(s, after);
    forall j | 0 <= j < |after.shown| ensures HasCommit(after, after.shown[j].0, after.shown[j].1) {
      if j < |s.shown| {
        assert after.shown[j] == s.shown[j];
      }
    }
  }

  lemma RefuseKeepsOk(config: Config, s: System, attempt: nat, status: nat)
    requires SystemOk(config, s) && Enabled(config, s, Refuse(attempt, status))
    ensures SystemOk(config, Do(config, s, Refuse(attempt, status)))
  {
    var after := Do(config, s, Refuse(attempt, status));
    CommitsPersist(s, after);
    assert forall i | 0 <= i < |s.responses| :: after.responses[i] == s.responses[i];
  }

  /** Steps that touch only the clock, the page and its storage. */
  lemma PageStepKeepsOk(config: Config, s: System, after: System)
    requires SystemOk(config, s)
    requires after == s.(now := after.now, client := after.client, flying := after.flying) && s.now <= after.now
    requires after.client.intent.None? || after.client.intent in {s.client.intent, s.client.stored}
    requires after.client.stored.None? || after.client.stored == s.client.stored
    ensures SystemOk(config, after)
  {
    AnswersPersist(s, after);
    CommitsPersist(s, after);
  }

  lemma QuietStepKeepsOk(config: Config, s: System, step: Step)
    requires SystemOk(config, s) && Enabled(config, s, step)
    requires step.Pass? || step.Reload? || step.GiveUp? || step.Lose?
    ensures SystemOk(config, Do(config, s, step))
  {
    PageStepKeepsOk(config, s, Do(config, s, step));
  }

  lemma ReceiveStepKeepsOk(config: Config, s: System, i: nat)
    requires SystemOk(config, s) && Enabled(config, s, Receive(i))
    ensures SystemOk(config, Do(config, s, Receive(i)))
  {
    ReceiveKeepsOk(config, s, i);
  }

  lemma SubmitStepKeepsOk(config: Config, s: System, step: Step)
    requires SystemOk(config, s) && Enabled(config, s, step) && step.Submit?
    ensures SystemOk(config, Do(config, s, step))
  {
    SubmitKeepsOk(config, s, step.value, step.freshKey, step.clock);
  }

  lemma StepKeepsOk(config: Config, s: System, step: Step)
    requires WithinWindow(config) && SystemOk(config, s)
    ensures SystemOk(config, Do(config, s, step))
  {
    hide SystemOk, DoSubmit, DoExecute, DoExecuteUnheard, DoError, DoReceive;
    if Enabled(config, s, step) {
      match step
      case Submit(_, _, _) => SubmitStepKeepsOk(config, s, step);
      case Execute(_, _, _, _) => ExecuteStepKeepsOk(config, s, step);
      case ExecuteUnheard(attempt, work, status, duration) =>
        UnheardKeepsOk(config, s, attempt, work, status, s.now + duration);
      case OtherCommand(key, value, work, duration) => OthersKeepOk(config, s, key, value, work, duration);
      case Receive(i) => ReceiveStepKeepsOk(config, s, i);
      case Refuse(attempt, status) => RefuseKeepsOk(config, s, attempt, status);
      case _ => QuietStepKeepsOk(config, s, step);
    } else {
      assert Do(config, s, step) == s;
    }
  }

  lemma {:induction false} RunKeepsOk(config: Config, s: System, steps: seq<Step>)
    requires WithinWindow(config) && SystemOk(config, s)
    ensures SystemOk(config, Run(config, s, steps))
  {
    if steps != [] {
      RunKeepsOk(config, s, steps[..|steps| - 1]);
      StepKeepsOk(config, Run(config, s, steps[..|steps| - 1]), steps[|steps| - 1]);
    }
  }

  /**
   Whatever is lost, delayed, repeated or reloaded, the work of each key commits at most once, and every
   success the browser shows is the body of that commit.
   */
  lemma AtMostOneCommit(config: Config, persistent: bool, steps: seq<Step>)
    requires WithinWindow(config)
    ensures var s := Run(config, Initially(persistent), steps);
            CommitsUnique(s) && forall i | 0 <= i < |s.shown| :: HasCommit(s, s.shown[i].0, s.shown[i].1)
  {
    RunKeepsOk(config, Initially(persistent), steps);
  }

  // ----- The window is exact -----

  lemma RunOneMore(config: Config, s: System, steps: seq<Step>, step: Step)
    ensures Run(config, s, steps + [step]) == Do(config, Run(config, s, steps), step)
  {
    assert (steps + [step])[..|steps|] == steps;
  }

  /** Submit, commit, lose the answer, and resend as late as the client's clock allows. */
  ghost function LateResend(config: Config): seq<Step> {
    var resendAt := MAX_RECOVERY_AGE_MS - 1 + config.skew;
    [Submit(0, 0, config.offset + config.skew), Execute(0, Some(1), 400, 0), Lose, Pass(resendAt),
     Submit(0, 1, config.offset + resendAt), Pass(config.delay), Execute(1, Some(2), 400, 0)]
  }

  /** After the first submission. */
  ghost function Submitted(config: Config): System {
    var intent := Intent(0, 0, config.offset + config.skew);
    System(0, Client(Some(intent), true, false, false, true, Some(intent)), Some(0), [Request(intent, 0)], [], map[], [],
           map[0 := Birth(intent, 0)], {}, [], map[])
  }

  lemma LateResendSubmits(config: Config)
    ensures Run(config, Initially(true), LateResend(config)[..1]) == Submitted(config)
  {
    var steps := LateResend(config);
    assert steps[..0] == [] && steps[..1] == steps[..0] + [steps[0]];
    RunOneMore(config, Initially(true), steps[..0], steps[0]);
  }

  lemma SubmittedCommits(config: Config)
    ensures Do(config, Submitted(config), Execute(0, Some(1), 400, 0))
            == Submitted(config).(responses := [Response(0, Accepted(1))], records := map[0 := Record(0, 1, RETENTION_MS)],
                                  commits := [Commit(0, 1, 0)])
  {
    var s := Submitted(config);
    assert Live(s.records, 0) == map[];
    assert !Processed(s, 0);
  }

  lemma LateResendCommits(config: Config)
    ensures Run(config, Initially(true), LateResend(config)[..2])
            == Do(config, Submitted(config), Execute(0, Some(1), 400, 0))
  {
    var steps := LateResend(config);
    LateResendSubmits(config);
    assert steps[..2] == steps[..1] + [steps[1]];
    RunOneMore(config, Initially(true), steps[..1], steps[1]);
  }

  lemma LateResendFirstHalf(config: Config)
    ensures var s := Run(config, Initially(true), LateResend(config)[..4]);
            var intent := Intent(0, 0, config.offset + config.skew);
            && s.now == MAX_RECOVERY_AGE_MS - 1 + config.skew
            && s.client == Client(Some(intent), false, true, false, true, Some(intent))
            && s.requests == [Request(intent, 0)] && s.responses == [Response(0, Accepted(1))]
            && s.records == map[0 := Record(0, 1, RETENTION_MS)] && s.commits == [Commit(0, 1, 0)]
            && s.births.Keys == {0} && s.foreign == {}
  {
    var steps := LateResend(config);
    var s0 := Initially(true);
    LateResendCommits(config);
    SubmittedCommits(config);
    assert steps[..3] == steps[..2] + [steps[2]] && steps[..4] == steps[..3] + [steps[3]];
    RunOneMore(config, s0, steps[..2], steps[2]);
    RunOneMore(config, s0, steps[..3], steps[3]);
  }

  lemma LateResendCommitsTwice(config: Config)
    requires !WithinWindow(config)
    ensures !CommitsUnique(Run(config, Initially(true), LateResend(config)))
  {
    var steps := LateResend(config);
    var s0 := Initially(true);
    LateResendFirstHalf(config);
    assert steps[..5] == steps[..4] + [steps[4]] && steps[..6] == steps[..5] + [steps[5]] && steps == steps[..6] + [steps[6]];
    RunOneMore(config, s0, steps[..4], steps[4]);
    RunOneMore(config, s0, steps[..5], steps[5]);
    RunOneMore(config, s0, steps[..6], steps[6]);
    var s6 := Run(config, s0, steps[..6]);
    assert s6.requests[1].sentAt == MAX_RECOVERY_AGE_MS - 1 + config.skew && s6.requests[1].intent.key == 0;
    assert !Processed(s6, 1);
    assert s6.now > RETENTION_MS && Live(s6.records, s6.now) == map[];
    var s7 := Run(config, s0, steps);
    assert s7.commits == s6.commits + [Commit(0, 2, s6.now)];
    assert s7.commits[0].key == s7.commits[1].key;
  }

  /** Exactly how much clock skew and request delay the hour between the two windows absorbs. */
  lemma AtMostOneCommitIff(config: Config)
    ensures WithinWindow(config) <==> forall steps :: CommitsUnique(Run(config, Initially(true), steps))
  {
    if WithinWindow(config) {
      forall steps ensures CommitsUnique(Run(config, Initially(true), steps)) {
        AtMostOneCommit(config, true, steps);
      }
    } else {
      LateResendCommitsTwice(config);
    }
  }

  // ----- Dropping an intent on an error -----

  /** While the outcome is not in doubt, the pending intent has been sent once at most, and its answer is awaited. */
  ghost predicate HookOk(s: System) {
    && s.client.inFlight == s.flying.Some?
    && (s.flying.Some? ==> s.flying.value < |s.requests|)
    && (s.flying.Some? && s.client.intent.Some? ==> s.requests[s.flying.value].intent == s.client.intent.value)
    && (s.client.intent.Some? && !s.client.outcomeUnknown ==>
          s.flying.Some? && forall a | 0 <= a < |s.requests| && s.requests[a].intent.key == s.client.intent.value.key ::
                              a == s.flying.value)
  }

  /** An answer that says the work was not done: a server error does not. */
  predicate Refusal(answer: Answer) {
    answer.Rejected? && answer.status < 500
  }

  ghost predicate AnsweredRefused(s: System, attempt: nat) {
    exists i | 0 <= i < |s.responses| :: s.responses[i].attempt == attempt && Refusal(s.responses[i].answer)
  }

  /** A dropped key was sent once, was answered with a refusal, and is not kept anywhere. */
  ghost predicate DropOk(s: System, k: nat)
    requires k in s.dropped
  {
    && k in s.births && s.dropped[k] < |s.requests|
    && (forall a | 0 <= a < |s.requests| && s.requests[a].intent.key == k :: a == s.dropped[k])
    && AnsweredRefused(s, s.dropped[k])
    && (s.client.intent.Some? ==> s.client.intent.value.key != k)
    && (s.client.persistent && s.client.stored.Some? ==> s.client.stored.value.key != k)
  }

  ghost predicate DropsOk(s: System) {
    forall k | k in s.dropped :: DropOk(s, k)
  }

  /** Without repeated delivery an attempt is answered once, and the attempt that committed is not refused. */
  ghost predicate AnswersOnce(s: System) {
    && (forall i, j | 0 <= i < j < |s.responses| :: s.responses[i].attempt != s.responses[j].attempt)
    && (forall i | 0 <= i < |s.commits| :: CommitAnswered(s, s.commits[i].key))
    && (forall i | 0 <= i < |s.responses| :: s.responses[i].attempt < |s.requests|)
  }

  ghost predicate CommitAnswered(s: System, key: nat) {
    exists i | 0 <= i < |s.responses| ::
      && !Refusal(s.responses[i].answer) && s.responses[i].attempt < |s.requests|
      && s.requests[s.responses[i].attempt].intent.key == key
  }

  lemma AnsweredPersists(s: System, after: System)
    requires s.requests <= after.requests && s.responses <= after.responses
    ensures forall key: nat :: CommitAnswered(s, key) ==> CommitAnswered(after, key)
    ensures forall a: nat :: AnsweredRefused(s, a) ==> AnsweredRefused(after, a)
  {
    forall key: nat | CommitAnswered(s, key) ensures CommitAnswered(after, key) {
      var i :| 0 <= i < |s.responses| && !Refusal(s.responses[i].answer) && s.responses[i].attempt < |s.requests|
               && s.requests[s.responses[i].attempt].intent.key == key;
      assert after.responses[i] == s.responses[i] && after.requests[s.responses[i].attempt] == s.requests[s.responses[i].attempt];
    }
    forall a: nat | AnsweredRefused(s, a) ensures AnsweredRefused(after, a) {
      var i :| 0 <= i < |s.responses| && s.responses[i].attempt == a && Refusal(s.responses[i].answer);
      assert after.responses[i] == s.responses[i];
    }
  }

  ghost predicate DropStateOk(config: Config, s: System) {
    RequestsOk(config, s) && HookOk(s) && DropsOk(s) && AnswersOnce(s)
  }

  /** A dropped key stays dropped when nothing is sent and the page keeps at most what it had. */
  lemma DropsPersist(s: System, after: System)
    requires DropsOk(s) && after.dropped == s.dropped
    requires after.requests == s.requests && s.responses <= after.responses && after.births == s.births
    requires after.client.persistent == s.client.persistent
    requires after.client.intent.None? || after.client.intent == s.client.intent
             || (s.client.persistent && after.client.intent == s.client.stored)
    requires after.client.stored.None? || after.client.stored == s.client.stored
    ensures DropsOk(after)
  {
    AnsweredPersists(s, after);
    forall k | k in s.dropped ensures DropOk(after, k) {
      assert DropOk(s, k);
    }
  }

  /** The server's steps touch no page. */
  lemma ServerKeepsPage(config: Config, s: System, after: System)
    requires RequestsOk(config, s) && HookOk(s) && DropsOk(s)
    requires after == s.(now := after.now, records := after.records, responses := after.responses, commits := after.commits)
    requires s.now <= after.now && s.responses <= after.responses
    ensures RequestsOk(config, after) && HookOk(after) && DropsOk(after)
  {
    DropsPersist(s, after);
  }

  /** One answer more, from an attempt not answered before: a commit is not answered with a refusal. */
  lemma OneAnswerMore(s: System, after: System, attempt: nat, answer: Answer)
    requires AnswersOnce(s) && !Processed(s, attempt) && attempt < |s.requests|
    requires after.requests == s.requests && after.responses == s.responses + [Response(attempt, answer)]
    requires after.commits == s.commits
             || (|after.commits| == |s.commits| + 1 && s.commits <= after.commits && !Refusal(answer)
                 && after.commits[|s.commits|].key == s.requests[attempt].intent.key)
    ensures AnswersOnce(after)
  {
    AnsweredPersists(s, after);
    assert after.responses[|s.responses|] == Response(attempt, answer);
    assert forall i | 0 <= i < |s.responses| :: after.responses[i] == s.responses[i];
    forall i | 0 <= i < |after.commits| ensures CommitAnswered(after, after.commits[i].key) {
      if i < |s.commits| {
        assert after.commits[i] == s.commits[i] && CommitAnswered(s, s.commits[i].key);
      }
    }
  }

  lemma ServerAnswersOnce(config: Config, s: System, step: Step)
    requires !config.repeats && DropStateOk(config, s) && Enabled(config, s, step)
    requires step.Execute? || step.ExecuteUnheard? || step.Refuse?
    ensures DropStateOk(config, Do(config, s, step))
  {
    hide RequestsOk, HookOk, DropsOk, AnswersOnce;
    var after := Do(config, s, step);
    ServerKeepsPage(config, s, after);
    OneAnswerMore(s, after, step.attempt, after.responses[|s.responses|].answer);
  }

  /** Appending requests and responses, and committing nothing, keeps what was answered. */
  lemma AnswersOncePersists(s: System, after: System)
    requires AnswersOnce(s) && s.requests <= after.requests
    requires after.responses == s.responses && after.commits == s.commits
    ensures AnswersOnce(after)
  {
    AnsweredPersists(s, after);
    forall i | 0 <= i < |s.commits| ensures CommitAnswered(after, s.commits[i].key) {
      assert CommitAnswered(s, s.commits[i].key);
    }
  }

  lemma SubmitKeepsHook(config: Config, s: System, value: Value, freshKey: nat, clock: int)
    requires RequestsOk(config, s) && HookOk(s) && Enabled(config, s, Submit(value, freshKey, clock))
    ensures HookOk(DoSubmit(s, value, freshKey, clock))
  {
  }

  lemma SubmitKeepsDropped(config: Config, s: System, value: Value, freshKey: nat, clock: int)
    requires RequestsOk(config, s) && DropsOk(s) && Enabled(config, s, Submit(value, freshKey, clock))
    ensures DropsOk(DoSubmit(s, value, freshKey, clock))
  {
    var after := DoSubmit(s, value, freshKey, clock);
    AnsweredPersists(s, after);
    forall k | k in s.dropped ensures AnsweredRefused(after, s.dropped[k]) {
      assert AnsweredRefused(s, s.dropped[k]);
    }
  }

  lemma SubmitKeepsDrops(config: Config, s: System, value: Value, freshKey: nat, clock: int)
    requires DropStateOk(config, s) && Enabled(config, s, Submit(value, freshKey, clock))
    ensures DropStateOk(config, DoSubmit(s, value, freshKey, clock))
  {
    var after := DoSubmit(s, value, freshKey, clock);
    SubmitKeepsRequests(config, s, value, freshKey, clock);
    SubmitKeepsHook(config, s, value, freshKey, clock);
    SubmitKeepsDropped(config, s, value, freshKey, clock);
    AnswersOncePersists(s, after);
  }

  /** A key forgotten on a refusal was sent once, and nothing of it is kept. */
  lemma NewDropIsOk(config: Config, s: System, i: nat)
    requires RequestsOk(config, s) && HookOk(s) && Enabled(config, s, Receive(i)) && s.responses[i].attempt < |s.requests|
    requires DoReceive(s, i).dropped != s.dropped
    ensures var key := s.requests[s.responses[i].attempt].intent.key;
            DoReceive(s, i).dropped == s.dropped[key := s.responses[i].attempt] && DropOk(DoReceive(s, i), key)
  {
    var after := DoReceive(s, i);
    assert Refusal(s.responses[i].answer);
    assert AnsweredRefused(after, s.responses[i].attempt);
  }

  lemma ReceiveKeepsDropped(config: Config, s: System, i: nat)
    requires DropStateOk(config, s) && Enabled(config, s, Receive(i)) && s.responses[i].attempt < |s.requests|
    ensures DropsOk(DoReceive(s, i))
  {
    hide RequestsOk, HookOk, AnswersOnce, DropOk;
    var after := DoReceive(s, i);
    DropsPersist(s, after.(dropped := s.dropped));
    if after.dropped != s.dropped {
      NewDropIsOk(config, s, i);
    }
    forall k | k in after.dropped ensures DropOk(after, k) {
      if k in s.dropped && after.dropped[k] == s.dropped[k] {
        DropIgnoresOthers(after.(dropped := s.dropped), after, k);
      }
    }
  }

  lemma DropIgnoresOthers(s: System, after: System, k: nat)
    requires after == s.(dropped := after.dropped)
    requires k in s.dropped && k in after.dropped && after.dropped[k] == s.dropped[k] && DropOk(s, k)
    ensures DropOk(after, k)
  {
    AnsweredPersists(s, after);
  }

  lemma ReceiveKeepsRequests(config: Config, s: System, i: nat)
    requires RequestsOk(config, s) && Enabled(config, s, Receive(i)) && s.responses[i].attempt < |s.requests|
    ensures RequestsOk(config, DoReceive(s, i))
  {
  }

  lemma ReceiveKeepsHook(config: Config, s: System, i: nat)
    requires HookOk(s) && Enabled(config, s, Receive(i)) && s.responses[i].attempt < |s.requests|
    ensures HookOk(DoReceive(s, i))
  {
  }

  lemma ReceiveKeepsDrops(config: Config, s: System, i: nat)
    requires DropStateOk(config, s) && Enabled(config, s, Receive(i))
    ensures DropStateOk(config, DoReceive(s, i))
  {
    hide RequestsOk, HookOk, DropsOk;
    ReceiveKeepsHook(config, s, i);
    ReceiveKeepsRequests(config, s, i);
    AnswersOncePersists(s, DoReceive(s, i));
    ReceiveKeepsDropped(config, s, i);
  }

  lemma OtherStepsKeepDrops(config: Config, s: System, step: Step)
    requires DropStateOk(config, s) && Enabled(config, s, step)
    requires step.Pass? || step.Reload? || step.GiveUp? || step.Lose? || step.OtherCommand?
    ensures DropStateOk(config, Do(config, s, step))
  {
    DropsPersist(s, Do(config, s, step));
    AnswersOncePersists(s, Do(config, s, step));
  }

  lemma {:induction false} RunKeepsDrops(config: Config, persistent: bool, steps: seq<Step>)
    requires !config.repeats
    ensures DropStateOk(config, Run(config, Initially(persistent), steps))
  {
    if steps != [] {
      var last := |steps| - 1;
      RunKeepsDrops(config, persistent, steps[..last]);
      var s := Run(config, Initially(persistent), steps[..last]);
      if Enabled(config, s, steps[last]) {
        match steps[last]
        case Submit(value, freshKey, clock) => SubmitKeepsDrops(config, s, value, freshKey, clock);
        case Execute(_, _, _, _) => ServerAnswersOnce(config, s, steps[last]);
        case ExecuteUnheard(_, _, _, _) => ServerAnswersOnce(config, s, steps[last]);
        case Refuse(_, _) => ServerAnswersOnce(config, s, steps[last]);
        case Receive(i) => ReceiveKeepsDrops(config, s, i);
        case _ => OtherStepsKeepDrops(config, s, steps[last]);
      }
    }
  }

  /** The one attempt of a dropped key was refused, and so it did not commit. */
  lemma DroppedIsNotAnswered(s: System, k: nat)
    requires DropsOk(s) && AnswersOnce(s) && k in s.dropped
    ensures !CommitAnswered(s, k)
  {
    var r :| 0 <= r < |s.responses| && s.responses[r].attempt == s.dropped[k] && Refusal(s.responses[r].answer);
    forall i | 0 <= i < |s.responses| && s.requests[s.responses[i].attempt].intent.key == k
      ensures Refusal(s.responses[i].answer)
    {
      assert s.responses[i].attempt == s.dropped[k];
      assert i == r;
    }
  }

  /**
   An intent is dropped on an error only if no attempt of it ever commits, before or after, however the
   clocks run: provided no request is delivered twice.
   */
  lemma DroppedOnErrorNeverCommits(config: Config, persistent: bool, steps: seq<Step>)
    requires !config.repeats
    ensures var s := Run(config, Initially(persistent), steps);
            forall i | 0 <= i < |s.commits| :: s.commits[i].key !in s.dropped
  {
    RunKeepsDrops(config, persistent, steps);
    var s := Run(config, Initially(persistent), steps);
    forall k | k in s.dropped ensures !CommitAnswered(s, k) {
      DroppedIsNotAnswered(s, k);
    }
    forall i | 0 <= i < |s.commits| ensures s.commits[i].key !in s.dropped {
      assert CommitAnswered(s, s.commits[i].key);
    }
  }

  /** With repeated delivery it can fail: one copy commits, a guard refuses the other, and that answer arrives. */
  ghost function RepeatedDelivery(config: Config): seq<Step> {
    [Submit(0, 0, config.offset), Execute(0, Some(1), 400, 0), Refuse(0, 429), Receive(1)]
  }

  lemma RepeatedDeliveryAnswers(config: Config)
    ensures var s := Run(config, Initially(true), RepeatedDelivery(config)[..2]);
            var intent := Intent(0, 0, config.offset);
            && s.commits == [Commit(0, 1, 0)] && s.responses == [Response(0, Accepted(1))]
            && s.now == 0 && s.requests == [Request(intent, 0)] && s.flying == Some(0) && s.dropped == map[]
            && s.client == Client(Some(intent), true, false, false, true, Some(intent))
  {
    var steps := RepeatedDelivery(config);
    var s0 := Initially(true);
    assert steps[..0] == [] && steps[..1] == steps[..0] + [steps[0]] && steps[..2] == steps[..1] + [steps[1]];
    RunOneMore(config, s0, steps[..0], steps[0]);
    RunOneMore(config, s0, steps[..1], steps[1]);
    var s1 := Run(config, s0, steps[..1]);
    assert s1.requests == [Request(Intent(0, 0, config.offset), 0)] && s1.responses == [];
  }

  lemma RepeatedDeliveryDropsCommitted(config: Config)
    requires config.repeats
    ensures var s := Run(config, Initially(true), RepeatedDelivery(config));
            s.commits == [Commit(0, 1, 0)] && 0 in s.dropped
  {
    var steps := RepeatedDelivery(config);
    var s0 := Initially(true);
    RepeatedDeliveryAnswers(config);
    assert steps[..3] == steps[..2] + [steps[2]] && steps == steps[..3] + [steps[3]];
    RunOneMore(config, s0, steps[..2], steps[2]);
    RunOneMore(config, s0, steps[..3], steps[3]);
    var s3 := Run(config, s0, steps[..3]);
    assert s3.responses == [Response(0, Accepted(1)), Response(0, Rejected(429))];
  }

  /** So dropping on an error is safe in every run exactly when no request is delivered twice. */
  lemma DropIsSafeIff(config: Config)
    ensures !config.repeats <==>
              forall steps :: var s := Run(config, Initially(true), steps);
                              forall i | 0 <= i < |s.commits| :: s.commits[i].key !in s.dropped
  {
    if config.repeats {
      RepeatedDeliveryDropsCommitted(config);
      var s := Run(config, Initially(true), RepeatedDelivery(config));
      assert s.commits[0].key in s.dropped;
    } else {
      forall steps ensures var s := Run(config, Initially(true), steps);
                           forall i | 0 <= i < |s.commits| :: s.commits[i].key !in s.dropped
      {
        DroppedOnErrorNeverCommits(config, true, steps);
      }
    }
  }
}
