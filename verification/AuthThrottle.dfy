/**
 The sign-in throttle with bounded memory (apps/api/src/auth/auth-throttle.service.ts). A key is the
 normalised pair of e-mail and client address.
 */
module AuthThrottle {
  import opened BoundedMap
  import opened Wrappers
  import Bits

  const MAX_KEYS := 10_000
  const SWEEP_INTERVAL := 256

  datatype Options = Options(limit: nat, windowMs: int, blockMs: int)

  datatype Entry = Entry(failures: seq<int>, blockedUntil: Option<int>)

  const NOTHING := Entry([], None)

  datatype Throttle = Throttle(table: Table<Entry>, callsSinceSweep: nat) {
    ghost predicate Valid() {
      table.Valid() && |table.keys| <= MAX_KEYS
    }
  }

  const EMPTY := Throttle(Table(map[], []), 0)

  /** The failures later than `cutoff`, in order. */
  function After(failures: seq<int>, cutoff: int): seq<int> {
    if failures == [] then []
    else
      var last := failures[|failures| - 1];
      After(failures[..|failures| - 1], cutoff) + (if last > cutoff then [last] else [])
  }

  predicate Blocked(entry: Entry, now: int) {
    entry.blockedUntil.Some? && entry.blockedUntil.value > now
  }

  predicate Alive(options: Options, entry: Entry, now: int) {
    Blocked(entry, now) || exists i | 0 <= i < |entry.failures| :: entry.failures[i] > now - options.windowMs
  }

  function Live(options: Options, now: int): Entry -> bool {
    (entry: Entry) => Alive(options, entry, now)
  }

  /** The latest of a list of times, and zero for an empty one. */
  function Latest(failures: seq<int>): int {
    if failures == [] then 0
    else if |failures| == 1 then failures[0]
    else
      var rest, last := Latest(failures[..|failures| - 1]), failures[|failures| - 1];
      if rest < last then last else rest
  }

  function Activity(): Entry -> int {
    (entry: Entry) =>
      var blocked := if entry.blockedUntil.Some? then entry.blockedUntil.value else 0;
      var latest := Latest(entry.failures);
      if blocked < latest then latest else blocked
  }

  /** What eviction goes by is the latest thing that happened to an entry: its last failure, or the end of its block. */
  lemma {:induction false} LatestIs(failures: seq<int>)
    ensures forall i | 0 <= i < |failures| :: failures[i] <= Latest(failures)
    ensures if failures == [] then Latest(failures) == 0 else Latest(failures) in failures
  {
    if |failures| > 1 {
      LatestIs(failures[..|failures| - 1]);
    }
  }

  lemma ActivityIsLatest(entry: Entry)
    ensures var a := Activity()(entry);
            && (forall i | 0 <= i < |entry.failures| :: entry.failures[i] <= a)
            && (entry.blockedUntil.Some? ==> entry.blockedUntil.value <= a)
            && (a in entry.failures || entry.blockedUntil == Some(a) || (a == 0 && (entry.failures == [] || entry.blockedUntil == None)))
  {
    LatestIs(entry.failures);
  }

  // ----- What one event does -----

  /**
   One call, with every reading of the clock it makes. An attempt that a check lets through ends with a recorded
   failure, with a clear when it succeeds, or with neither when it breaks off.
   */
  datatype Event =
    | Check(key: nat, now: int)
    | Fail(key: nat, now: int, trackAt: int, sweepAt: int)
    | Clear(key: nat, now: int)
    | BreakOff(key: nat, now: int)

  function EndsAt(event: Event): int {
    if event.Fail? then event.sweepAt else event.now
  }

  /** An entry once an attempt at `now` has been let through. */
  function Unblocked(entry: Entry, now: int): Entry {
    if Blocked(entry, now) then entry else entry.(blockedUntil := None)
  }

  /** An entry once a failure at `now` has been counted. */
  function Failed(options: Options, entry: Entry, now: int): Entry {
    var failures := After(entry.failures, now - options.windowMs) + [now];
    if |failures| >= options.limit && !Blocked(entry, now)
    then Entry(failures, Some(now + options.blockMs))
    else entry.(failures := failures)
  }

  function Lookup(t: Throttle, key: nat): Entry {
    if key in t.table.entries then t.table.entries[key] else NOTHING
  }

  function Recorded(options: Options, t: Throttle, event: Event): Throttle
    requires t.Valid() && event.Fail?
  {
    t.(table := Stored(t.table, MAX_KEYS, event.key, Failed(options, Lookup(t, event.key), event.now),
                       Live(options, event.trackAt), Activity()))
  }

  function MaybeSwept(options: Options, t: Throttle, now: int): Throttle {
    if t.callsSinceSweep + 1 >= SWEEP_INTERVAL then Throttle(Swept(t.table, Live(options, now)), 0)
    else t.(callsSinceSweep := t.callsSinceSweep + 1)
  }

  function Next(options: Options, t: Throttle, event: Event): Throttle
    requires t.Valid()
  {
    match event
    case Check(key, now) =>
      if key in t.table.entries
      then t.(table := t.table.(entries := t.table.entries[key := Unblocked(t.table.entries[key], now)]))
      else t
    case Fail(_, _, _, sweepAt) => MaybeSwept(options, Recorded(options, t, event), sweepAt)
    case Clear(key, _) => t.(table := Deleted(t.table, key))
    case BreakOff(_, _) => t
  }

  lemma RecordedValid(options: Options, t: Throttle, event: Event)
    requires t.Valid() && event.Fail?
    ensures Recorded(options, t, event).Valid()
  {
    StoredValid(t.table, MAX_KEYS, event.key, Failed(options, Lookup(t, event.key), event.now),
                Live(options, event.trackAt), Activity());
  }

  /** Memory is bounded. */
  lemma NextValid(options: Options, t: Throttle, event: Event)
    requires t.Valid()
    ensures Next(options, t, event).Valid()
  {
    match event
    case Check(_, _) =>
    case Fail(_, _, _, sweepAt) =>
      RecordedValid(options, t, event);
      SweptValid(Recorded(options, t, event).table, Live(options, sweepAt));
    case Clear(key, _) =>
      DeletedValid(t.table, key);
    case BreakOff(_, _) =>
  }

  // ----- Runs against the history of one pair -----

  ghost function Run(options: Options, events: seq<Event>): (t: Throttle)
    ensures t.Valid()
  {
    if events == [] then EMPTY
    else
      var before := Run(options, events[..|events| - 1]);
      NextValid(options, before, events[|events| - 1]);
      Next(options, before, events[|events| - 1])
  }

  /** The failures of all pairs so far. */
  ghost function AllFailures(events: seq<Event>): nat {
    if events == [] then 0
    else AllFailures(events[..|events| - 1]) + if events[|events| - 1].Fail? then 1 else 0
  }

  /** Something of the entry still counts: a block in force, or a failure within the window. */
  ghost predicate Counting(options: Options, entry: Entry, now: int) {
    || (entry.blockedUntil.Some? && entry.blockedUntil.value > now)
    || exists i | 0 <= i < |entry.failures| :: now - entry.failures[i] < options.windowMs
  }

  lemma OneFailure(options: Options, t: Throttle, event: Event)
    requires t.Valid() && event.Fail? && t.callsSinceSweep < 256
    ensures var after := Next(options, t, event);
            && after.callsSinceSweep == (if t.callsSinceSweep + 1 == 256 then 0 else t.callsSinceSweep + 1)
            && (after.callsSinceSweep == 0 ==>
                  forall k | k in after.table.entries :: Counting(options, after.table.entries[k], event.sweepAt))
  {
    hide Stored, Failed;
    RecordedValid(options, t, event);
    var recorded := Recorded(options, t, event);
    forall k | k in Swept(recorded.table, Live(options, event.sweepAt)).entries
      ensures Counting(options, recorded.table.entries[k], event.sweepAt)
    {
      assert Alive(options, recorded.table.entries[k], event.sweepAt);
    }
  }

  /** Every 256th recorded failure sweeps: then only entries of which something still counts are left. */
  lemma {:induction false} SweepLaw(options: Options, events: seq<Event>)
    ensures var t := Run(options, events);
            && t.callsSinceSweep == AllFailures(events) % 256
            && |t.table.keys| <= 10_000
            && (events != [] && events[|events| - 1].Fail? && AllFailures(events) % 256 == 0 ==>
                  forall k | k in t.table.entries :: Counting(options, t.table.entries[k], events[|events| - 1].sweepAt))
  {
    if events != [] {
      var before, event := events[..|events| - 1], events[|events| - 1];
      SweepLaw(options, before);
      if event.Fail? {
        hide Next;
        Bits.NextModulo(AllFailures(before), 256);
        OneFailure(options, Run(options, before), event);
      }
    }
  }

  /** The specification: an entry for each pair for ever, touched only by the events of that pair. */
  ghost function History(options: Options, events: seq<Event>, key: nat): Entry {
    if events == [] then NOTHING
    else
      var before := History(options, events[..|events| - 1], key);
      var event := events[|events| - 1];
      if event.key != key then before
      else
        match event
        case Check(_, now) => Unblocked(before, now)
        case Fail(_, now, _, _) => Failed(options, before, now)
        case Clear(_, _) => NOTHING
        case BreakOff(_, _) => before
  }

  /** The clock never runs backwards, within an event or from one event to the next. */
  ghost predicate Clocked(events: seq<Event>) {
    events != [] ==>
      var event := events[|events| - 1];
      && Clocked(events[..|events| - 1])
      && (event.Fail? ==> event.now <= event.trackAt <= event.sweepAt)
      && (|events| > 1 ==> EndsAt(events[|events| - 2]) <= event.now)
  }

  ghost predicate NeverEvicted(options: Options, events: seq<Event>, key: nat) {
    events != [] ==>
      var before, event := Run(options, events[..|events| - 1]), events[|events| - 1];
      && NeverEvicted(options, events[..|events| - 1], key)
      && (event.Fail? ==> !Evicts(before.table, MAX_KEYS, event.key, Live(options, event.trackAt), Activity(), key))
  }

  /** At `now`, two entries count the same failures and block alike. */
  ghost predicate SameView(options: Options, a: Entry, b: Entry, now: int) {
    && After(a.failures, now - options.windowMs) == After(b.failures, now - options.windowMs)
    && (Blocked(a, now) || Blocked(b, now) ==> a.blockedUntil == b.blockedUntil)
  }

  lemma {:induction false} AfterAfter(failures: seq<int>, early: int, late: int)
    requires early <= late
    ensures After(After(failures, early), late) == After(failures, late)
  {
    if failures != [] {
      var front, last := failures[..|failures| - 1], failures[|failures| - 1];
      AfterAfter(front, early, late);
      if last > early {
        assert (After(front, early) + [last])[..|After(front, early)|] == After(front, early);
      } else {
        assert After(failures, early) == After(front, early) && After(failures, late) == After(front, late);
      }
    }
  }

  lemma AfterOneMore(failures: seq<int>, at: int, cutoff: int)
    ensures After(failures + [at], cutoff) == After(failures, cutoff) + (if at > cutoff then [at] else [])
  {
    assert (failures + [at])[..|failures|] == failures;
  }

  lemma {:induction false} NothingAfter(failures: seq<int>, cutoff: int)
    ensures After(failures, cutoff) == [] <==> forall i | 0 <= i < |failures| :: failures[i] <= cutoff
  {
    if failures != [] {
      NothingAfter(failures[..|failures| - 1], cutoff);
    }
  }

  lemma LaterSameView(options: Options, a: Entry, b: Entry, now: int, later: int)
    requires SameView(options, a, b, now) && now <= later
    ensures SameView(options, a, b, later)
  {
    SameLater(a.failures, b.failures, now - options.windowMs, later - options.windowMs);
  }

  lemma SameLater(a: seq<int>, b: seq<int>, early: int, late: int)
    requires After(a, early) == After(b, early) && early <= late
    ensures After(a, late) == After(b, late)
  {
    AfterAfter(a, early, late);
    AfterAfter(b, early, late);
  }

  /** A dead entry looks like none at all. */
  lemma DeadLooksEmpty(options: Options, entry: Entry, now: int)
    requires !Live(options, now)(entry)
    ensures SameView(options, NOTHING, entry, now)
  {
    NothingAfter(entry.failures, now - options.windowMs);
  }

  lemma SweptSameView(options: Options, t: Throttle, key: nat, now: int)
    requires t.Valid()
    ensures SameView(options, Lookup(MaybeSwept(options, t, now), key), Lookup(t, key), now)
  {
    if key in t.table.entries && key !in MaybeSwept(options, t, now).table.entries {
      DeadLooksEmpty(options, t.table.entries[key], now);
    }
  }

  /** Recording a failure of one pair disturbs another only by evicting it. */
  lemma RecordedSameView(options: Options, t: Throttle, event: Event, key: nat)
    requires t.Valid() && event.Fail? && event.key != key
    requires !Evicts(t.table, MAX_KEYS, event.key, Live(options, event.trackAt), Activity(), key)
    ensures SameView(options, Lookup(Recorded(options, t, event), key), Lookup(t, key), event.trackAt)
  {
    var failed := Failed(options, Lookup(t, event.key), event.now);
    StoredValid(t.table, MAX_KEYS, event.key, failed, Live(options, event.trackAt), Activity());
    if key in t.table.entries && key !in Recorded(options, t, event).table.entries {
      if Live(options, event.trackAt)(t.table.entries[key]) {
        StoredKeepsLive(t.table, MAX_KEYS, event.key, failed, Live(options, event.trackAt), Activity(), key);
      } else {
        DeadLooksEmpty(options, t.table.entries[key], event.trackAt);
      }
    }
  }

  lemma FailedSameView(options: Options, a: Entry, b: Entry, now: int)
    requires SameView(options, a, b, now)
    ensures SameView(options, Failed(options, a, now), Failed(options, b, now), now)
  {
  }

  lemma OwnEventKeepsView(options: Options, t: Throttle, h: Entry, event: Event)
    requires t.Valid() && SameView(options, Lookup(t, event.key), h, event.now)
    requires event.Fail? ==> event.now <= event.trackAt <= event.sweepAt
    ensures var after := match event
                         case Check(_, now) => Unblocked(h, now)
                         case Fail(_, now, _, _) => Failed(options, h, now)
                         case Clear(_, _) => NOTHING
                         case BreakOff(_, _) => h;
            SameView(options, Lookup(Next(options, t, event), event.key), after, EndsAt(event))
  {
    if event.Fail? {
      var recorded := Recorded(options, t, event);
      StoredValid(t.table, MAX_KEYS, event.key, Failed(options, Lookup(t, event.key), event.now),
                  Live(options, event.trackAt), Activity());
      RecordedValid(options, t, event);
      SweptSameView(options, recorded, event.key, event.sweepAt);
      FailedSameView(options, Lookup(t, event.key), h, event.now);
      LaterSameView(options, Lookup(recorded, event.key), Failed(options, h, event.now), event.now, event.sweepAt);
    }
  }

  lemma OtherEventKeepsView(options: Options, t: Throttle, event: Event, key: nat)
    requires t.Valid() && event.key != key
    requires event.Fail? ==> event.now <= event.trackAt <= event.sweepAt
    requires event.Fail? ==> !Evicts(t.table, MAX_KEYS, event.key, Live(options, event.trackAt), Activity(), key)
    ensures SameView(options, Lookup(Next(options, t, event), key), Lookup(t, key), EndsAt(event))
  {
    if event.Fail? {
      var recorded := Recorded(options, t, event);
      RecordedValid(options, t, event);
      RecordedSameView(options, t, event, key);
      LaterSameView(options, Lookup(recorded, key), Lookup(t, key), event.trackAt, event.sweepAt);
      SweptSameView(options, recorded, key, event.sweepAt);
    }
  }

  /** Sweeping is invisible: as long as a pair is never evicted, the throttle sees what its own history says. */
  lemma {:induction false} RunKeepsView(options: Options, events: seq<Event>, key: nat, now: int)
    requires Clocked(events) && NeverEvicted(options, events, key)
    requires events != [] ==> EndsAt(events[|events| - 1]) <= now
    ensures SameView(options, Lookup(Run(options, events), key), History(options, events, key), now)
  {
    if events != [] {
      var before, event := events[..|events| - 1], events[|events| - 1];
      var t, h := Run(options, before), History(options, before, key);
      RunKeepsView(options, before, key, event.now);
      if event.key == key {
        OwnEventKeepsView(options, t, h, event);
      } else {
        OtherEventKeepsView(options, t, event, key);
        LaterSameView(options, Lookup(t, key), h, event.now, EndsAt(event));
      }
      LaterSameView(options, Lookup(Run(options, events), key), History(options, events, key), EndsAt(event), now);
    }
  }

  /** So a check of a pair that was never evicted is answered as its own history says. */
  lemma AnswersAsHistory(options: Options, events: seq<Event>, key: nat, now: int)
    requires Clocked(events) && NeverEvicted(options, events, key)
    requires events != [] ==> EndsAt(events[|events| - 1]) <= now
    ensures Blocked(Lookup(Run(options, events), key), now) == Blocked(History(options, events, key), now)
  {
    RunKeepsView(options, events, key, now);
  }

  // ----- How many failures fit in a window -----

  /** When the failures of `key` were recorded. */
  ghost function Failures(events: seq<Event>, key: nat): seq<int> {
    if events == [] then []
    else
      var event := events[|events| - 1];
      Failures(events[..|events| - 1], key) + (if event.Fail? && event.key == key then [event.now] else [])
  }

  /** How many attempts of `key` have been let through and have not ended. */
  ghost function InFlight(options: Options, events: seq<Event>, key: nat): int {
    if events == [] then 0
    else
      var before, event := events[..|events| - 1], events[|events| - 1];
      InFlight(options, before, key)
      + (if event.key != key then 0
         else if !event.Check? then -1
         else if Blocked(Lookup(Run(options, before), key), event.now) then 0
         else 1)
  }

  /**
   At most `c` attempts of `key` are in flight at any time, each ends at most once, and none succeeds. With one
   at a time a check and the failure recorded for it are as good as one step.
   */
  ghost predicate AtMostInFlight(options: Options, events: seq<Event>, key: nat, c: nat) {
    events != [] ==>
      var before, event := events[..|events| - 1], events[|events| - 1];
      && AtMostInFlight(options, before, key, c)
      && (event.key == key ==>
            && !event.Clear? && (event.Fail? || event.BreakOff? ==> InFlight(options, before, key) > 0)
            && InFlight(options, events, key) <= c)
  }

  /** The last `limit` failures lie within one window. */
  ghost predicate Armed(options: Options, times: seq<int>) {
    |times| >= options.limit > 0 && times[|times| - 1] - times[|times| - options.limit] < options.windowMs
  }

  /** If the `limit` failures before the n-th lie within one window, that one waits for the block to end. */
  ghost predicate WaitsOut(options: Options, times: seq<int>, n: int)
    requires 0 < options.limit <= n < |times|
  {
    times[n - 1] - times[n - options.limit] < options.windowMs ==> times[n] >= times[n - 1] + options.blockMs
  }

  ghost predicate Spaced(options: Options, times: seq<int>) {
    options.limit > 0 && forall n | options.limit <= n < |times| :: WaitsOut(options, times, n)
  }

  ghost predicate Ascending(times: seq<int>) {
    forall i, j | 0 <= i < j < |times| :: times[i] <= times[j]
  }

  ghost predicate Timely(options: Options, times: seq<int>, now: int) {
    Ascending(times) && Spaced(options, times) && (times != [] ==> times[|times| - 1] <= now)
  }

  /** The entry counts the failures within one window of the last. */
  ghost predicate Counts(options: Options, times: seq<int>, failures: seq<int>) {
    failures == if times == [] then [] else After(times, times[|times| - 1] - options.windowMs)
  }

  /** If the last failure started a block, it is in force or has ended. */
  ghost predicate Blocks(options: Options, times: seq<int>, entry: Entry, now: int) {
    Armed(options, times) ==>
      || entry.blockedUntil == Some(times[|times| - 1] + options.blockMs)
      || now >= times[|times| - 1] + options.blockMs
  }

  ghost predicate TimesOk(options: Options, times: seq<int>, entry: Entry, now: int) {
    && Timely(options, times, now)
    && Counts(options, times, entry.failures)
    && Blocks(options, times, entry, now)
  }

  lemma {:induction false} ManyAfter(times: seq<int>, cutoff: int, m: nat)
    requires m <= |times| && Ascending(times) && (m > 0 ==> times[|times| - m] > cutoff)
    ensures |After(times, cutoff)| >= m
  {
    if m > 0 {
      if m > 1 {
        assert times[|times| - m] == times[..|times| - 1][|times| - 1 - (m - 1)];
      }
      ManyAfter(times[..|times| - 1], cutoff, m - 1);
      assert times[|times| - m] <= times[|times| - 1];
    }
  }

  lemma FailureKeepsTimely(options: Options, times: seq<int>, entry: Entry, now: int)
    requires Timely(options, times, now) && Blocks(options, times, entry, now) && entry.blockedUntil == None
    ensures Timely(options, times + [now], now)
  {
    var more := times + [now];
    forall n | options.limit <= n < |more| ensures WaitsOut(options, more, n) {
      if n < |times| {
        assert WaitsOut(options, times, n);
      }
    }
  }

  lemma FailureKeepsCounts(options: Options, times: seq<int>, failures: seq<int>, now: int)
    requires options.windowMs > 0 && (times != [] ==> times[|times| - 1] <= now) && Counts(options, times, failures)
    ensures Counts(options, times + [now], After(failures, now - options.windowMs) + [now])
  {
    var more, cutoff := times + [now], now - options.windowMs;
    assert more[|more| - 1] == now;
    AfterOneMore(times, now, cutoff);
    CountsLater(options, times, failures, cutoff);
    assert After(more, cutoff) == After(failures, cutoff) + [now];
  }

  lemma CountsLater(options: Options, times: seq<int>, failures: seq<int>, cutoff: int)
    requires Counts(options, times, failures) && (times != [] ==> times[|times| - 1] - options.windowMs <= cutoff)
    ensures After(failures, cutoff) == After(times, cutoff)
  {
    if times == [] {
      assert failures == times;
    } else {
      AfterLater(times, failures, times[|times| - 1] - options.windowMs, cutoff);
    }
  }

  lemma AfterLater(times: seq<int>, failures: seq<int>, early: int, late: int)
    requires failures == After(times, early) && early <= late
    ensures After(failures, late) == After(times, late)
  {
    AfterAfter(times, early, late);
  }

  lemma FailureBlocks(options: Options, times: seq<int>, entry: Entry)
    requires times != [] && Ascending(times) && entry.blockedUntil == None
    requires Counts(options, times, After(entry.failures, times[|times| - 1] - options.windowMs) + [times[|times| - 1]])
    ensures Blocks(options, times, Failed(options, entry, times[|times| - 1]), times[|times| - 1])
  {
    var now := times[|times| - 1];
    var failures := After(entry.failures, now - options.windowMs) + [now];
    if Armed(options, times) {
      ArmedCount(options, times, failures);
      EnoughArms(options, entry, now, failures);
    }
  }

  /** A failure that brings the count to `limit` starts a block. */
  lemma EnoughArms(options: Options, entry: Entry, now: int, failures: seq<int>)
    requires failures == After(entry.failures, now - options.windowMs) + [now]
    requires |failures| >= options.limit && entry.blockedUntil == None
    ensures Failed(options, entry, now).blockedUntil == Some(now + options.blockMs)
  {
  }

  lemma ArmedCount(options: Options, times: seq<int>, failures: seq<int>)
    requires Armed(options, times) && Ascending(times) && Counts(options, times, failures)
    ensures |failures| >= options.limit
  {
    ManyAfter(times, times[|times| - 1] - options.windowMs, options.limit);
  }

  lemma FailedCases(options: Options, entry: Entry, now: int)
    ensures var failures := After(entry.failures, now - options.windowMs) + [now];
            && Failed(options, entry, now).failures == failures
            && (|| Failed(options, entry, now).blockedUntil == entry.blockedUntil
                || (|failures| >= options.limit && Failed(options, entry, now).blockedUntil == Some(now + options.blockMs)))
  {
  }

  lemma OneMoreAscends(times: seq<int>, now: int)
    requires Ascending(times) && (times != [] ==> times[|times| - 1] <= now)
    ensures Ascending(times + [now]) && (times + [now])[|times + [now]| - 1] == now
  {
  }

  lemma FailureKeepsTimes(options: Options, times: seq<int>, entry: Entry, now: int)
    requires options.windowMs > 0 && TimesOk(options, times, entry, now) && entry.blockedUntil == None
    ensures TimesOk(options, times + [now], Failed(options, entry, now), now)
  {
    OneMoreAscends(times, now);
    FailureKeepsTimely(options, times, entry, now);
    FailureKeepsCounts(options, times, entry.failures, now);
    FailedCases(options, entry, now);
    FailureBlocks(options, times + [now], entry);
  }

  lemma CheckKeepsTimes(options: Options, times: seq<int>, entry: Entry, now: int)
    requires TimesOk(options, times, entry, now)
    ensures TimesOk(options, times, Unblocked(entry, now), now)
  {
  }

  lemma LaterTimes(options: Options, times: seq<int>, entry: Entry, now: int, later: int)
    requires TimesOk(options, times, entry, now) && now <= later
    ensures TimesOk(options, times, entry, later)
  {
  }

  lemma {:induction false} InFlightBounds(options: Options, events: seq<Event>, key: nat, c: nat)
    requires AtMostInFlight(options, events, key, c)
    ensures 0 <= InFlight(options, events, key) <= c
  {
    hide Blocked, Lookup;
    if events != [] {
      InFlightBounds(options, events[..|events| - 1], key, c);
    }
  }

  /** While the only attempt of a pair is in flight, the pair is not blocked. */
  lemma {:induction false} AloneIsUnblocked(options: Options, events: seq<Event>, key: nat)
    requires Clocked(events) && NeverEvicted(options, events, key) && AtMostInFlight(options, events, key, 1)
    ensures InFlight(options, events, key) > 0 ==> History(options, events, key).blockedUntil == None
  {
    hide Lookup, Failed;
    if events != [] {
      var before, event := events[..|events| - 1], events[|events| - 1];
      AloneIsUnblocked(options, before, key);
      InFlightBounds(options, before, key, 1);
      AnswersAsHistory(options, before, key, event.now);
    }
  }

  lemma {:induction false} HistoryKeepsTimes(options: Options, events: seq<Event>, key: nat, now: int)
    requires options.limit > 0 && options.windowMs > 0
    requires Clocked(events) && NeverEvicted(options, events, key) && AtMostInFlight(options, events, key, 1)
    requires events != [] ==> EndsAt(events[|events| - 1]) <= now
    ensures TimesOk(options, Failures(events, key), History(options, events, key), now)
  {
    hide TimesOk, Failed, Unblocked, InFlight;
    if events == [] {
      NothingRecorded(options, now);
    } else {
      var before, event := events[..|events| - 1], events[|events| - 1];
      var times, entry := Failures(before, key), History(options, before, key);
      HistoryKeepsTimes(options, before, key, event.now);
      if event.Fail? && event.key == key {
        AloneIsUnblocked(options, before, key);
        FailureKeepsTimes(options, times, entry, event.now);
      } else {
        assert times + [] == times;
        CheckKeepsTimes(options, times, entry, event.now);
      }
      LaterTimes(options, Failures(events, key), History(options, events, key), event.now, now);
    }
  }

  lemma NothingRecorded(options: Options, now: int)
    requires options.limit > 0
    ensures TimesOk(options, [], NOTHING, now)
  {
  }

  lemma {:induction false} BlocksAddUp(options: Options, times: seq<int>, i: nat, j: nat)
    requires Ascending(times) && Spaced(options, times) && i + options.limit - 1 <= j < |times|
    requires times[j] - times[i] < options.windowMs
    ensures times[j] >= times[i + options.limit - 1] + (j - (i + options.limit - 1)) * options.blockMs
    decreases j
  {
    if j > i + options.limit - 1 {
      assert times[i] <= times[j - options.limit] && times[j - 1] <= times[j] && WaitsOut(options, times, j);
      BlocksAddUp(options, times, i, j - 1);
      assert (j - (i + options.limit - 1)) * options.blockMs
             == (j - 1 - (i + options.limit - 1)) * options.blockMs + options.blockMs;
    }
  }

  lemma SpacedPerWindow(options: Options, times: seq<int>, i: nat, j: nat)
    requires Ascending(times) && Spaced(options, times) && i <= j < |times| && times[j] - times[i] < options.windowMs
    requires options.windowMs > 0
    ensures var k := j - i + 1;
            && (k >= options.limit ==> (k - options.limit) * options.blockMs < options.windowMs)
            && (options.blockMs >= options.windowMs ==> k <= options.limit)
  {
    var beyond := j - i + 1 - options.limit;
    if beyond >= 0 {
      BlocksAddUp(options, times, i, j);
      assert times[i] <= times[i + options.limit - 1];
      assert beyond * options.blockMs < options.windowMs;
      if beyond > 0 && options.blockMs >= options.windowMs {
        AtLeastOneBlock(beyond, options.blockMs);
      }
    }
  }

  lemma AtLeastOneBlock(n: int, block: int)
    requires n > 0 && block > 0
    ensures n * block >= block
  {
  }

  /**
   Of the failures within one window, those beyond the limit each wait for a whole block; so a block as long
   as the window leaves no more than the limit.
   */
  lemma FailuresPerWindow(options: Options, events: seq<Event>, key: nat, i: nat, j: nat)
    requires options.limit > 0 && options.windowMs > 0
    requires Clocked(events) && NeverEvicted(options, events, key) && AtMostInFlight(options, events, key, 1)
    requires i <= j < |Failures(events, key)|
    requires Failures(events, key)[j] - Failures(events, key)[i] < options.windowMs
    ensures var k := j - i + 1;
            && (k >= options.limit ==> (k - options.limit) * options.blockMs < options.windowMs)
            && (options.blockMs >= options.windowMs ==> k <= options.limit)
  {
    HistoryKeepsTimes(options, events, key, if events == [] then 0 else EndsAt(events[|events| - 1]));
    SpacedPerWindow(options, Failures(events, key), i, j);
  }

  // ----- Why a pair is blocked -----

  lemma {:induction false} AfterMany(times: seq<int>, cutoff: int, m: nat)
    requires Ascending(times) && 1 <= m <= |After(times, cutoff)|
    ensures m <= |times| && times[|times| - m] > cutoff
  {
    var front := times[..|times| - 1];
    if times[|times| - 1] <= cutoff {
      AfterMany(front, cutoff, m);
    } else if m > 1 {
      AfterMany(front, cutoff, m - 1);
      assert front[|front| - (m - 1)] == times[|times| - m];
    }
  }

  /** The n-th failure was the last of `limit` within one window, and the block it started ends at `until`. */
  ghost predicate Started(options: Options, times: seq<int>, n: int, until: int) {
    && 0 < options.limit <= n <= |times| && times[n - 1] + options.blockMs == until
    && times[n - 1] - times[n - options.limit] < options.windowMs
  }

  ghost predicate HasReason(options: Options, times: seq<int>, blockedUntil: Option<int>) {
    blockedUntil.Some? ==> exists n :: Started(options, times, n, blockedUntil.value)
  }

  lemma ReasonStays(options: Options, times: seq<int>, blockedUntil: Option<int>, now: int)
    requires HasReason(options, times, blockedUntil)
    ensures HasReason(options, times + [now], blockedUntil)
  {
    if blockedUntil.Some? {
      var n :| Started(options, times, n, blockedUntil.value);
      assert Started(options, times + [now], n, blockedUntil.value);
    }
  }

  lemma NewReason(options: Options, times: seq<int>, failures: seq<int>)
    requires times != [] && Ascending(times) && Counts(options, times, failures) && 0 < options.limit <= |failures|
    ensures HasReason(options, times, Some(times[|times| - 1] + options.blockMs))
  {
    AfterMany(times, times[|times| - 1] - options.windowMs, options.limit);
    assert Started(options, times, |times|, times[|times| - 1] + options.blockMs);
  }

  /** What the entry holds is accounted for by the failures recorded so far. */
  ghost predicate Accounted(options: Options, times: seq<int>, entry: Entry, now: int) {
    && Ascending(times) && (times != [] ==> times[|times| - 1] <= now)
    && Counts(options, times, entry.failures) && HasReason(options, times, entry.blockedUntil)
  }

  lemma FailureReason(options: Options, times: seq<int>, before: Option<int>, after: Entry, now: int)
    requires options.limit > 0 && HasReason(options, times, before)
    requires Ascending(times + [now]) && Counts(options, times + [now], after.failures)
    requires after.blockedUntil == before
             || (|after.failures| >= options.limit && after.blockedUntil == Some(now + options.blockMs))
    ensures HasReason(options, times + [now], after.blockedUntil)
  {
    if after.blockedUntil == before {
      ReasonStays(options, times, before, now);
    } else {
      NewReason(options, times + [now], after.failures);
    }
  }

  lemma FailureAccounted(options: Options, times: seq<int>, entry: Entry, now: int)
    requires options.limit > 0 && options.windowMs > 0 && Accounted(options, times, entry, now)
    ensures Accounted(options, times + [now], Failed(options, entry, now), now)
  {
    FailureKeepsCounts(options, times, entry.failures, now);
    FailedCases(options, entry, now);
    OneMoreAscends(times, now);
    FailureReason(options, times, entry.blockedUntil, Failed(options, entry, now), now);
  }

  /** No event forgets the failures of the pair. */
  ghost predicate NeverCleared(events: seq<Event>, key: nat) {
    forall i | 0 <= i < |events| && events[i].Clear? :: events[i].key != key
  }

  lemma {:induction false} HistoryAccounted(options: Options, events: seq<Event>, key: nat, now: int)
    requires options.limit > 0 && options.windowMs > 0 && Clocked(events) && NeverCleared(events, key)
    requires events != [] ==> EndsAt(events[|events| - 1]) <= now
    ensures Accounted(options, Failures(events, key), History(options, events, key), now)
  {
    if events != [] {
      var before, event := events[..|events| - 1], events[|events| - 1];
      HistoryAccounted(options, before, key, event.now);
      if event.Fail? && event.key == key {
        FailureAccounted(options, Failures(before, key), History(options, before, key), event.now);
      } else {
        assert Failures(before, key) + [] == Failures(before, key);
      }
    }
  }

  /** A pair is blocked only because `limit` of its failures fell within one window, and for `blockMs` after the last. */
  lemma BlockedOnlyAfterLimit(options: Options, events: seq<Event>, key: nat, now: int)
    requires options.limit > 0 && options.windowMs > 0
    requires Clocked(events) && NeverEvicted(options, events, key) && NeverCleared(events, key)
    requires events != [] ==> EndsAt(events[|events| - 1]) <= now
    requires Blocked(Lookup(Run(options, events), key), now)
    ensures exists n, until :: Started(options, Failures(events, key), n, until) && until > now
  {
    AnswersAsHistory(options, events, key, now);
    HistoryAccounted(options, events, key, now);
  }

  // ----- The throttle itself -----

  class AuthThrottleService {
    const options: Options
    var entries: map<nat, Entry>
    var keys: seq<nat>
    var callsSinceSweep: nat

    function State(): Throttle
      reads this
    {
      Throttle(Table(entries, keys), callsSinceSweep)
    }

    ghost predicate Valid()
      reads this
    {
      State().Valid()
    }

    constructor (options: Options)
      ensures Valid() && this.options == options && State() == EMPTY
    {
      this.options := options;
      entries, keys, callsSinceSweep := map[], [], 0;
    }

    /** Answers whether the attempt may go on. */
    method CheckAttempt(key: nat, now: int) returns (allowed: bool)
      requires Valid()
      modifies this`entries
      ensures Valid() && State() == Next(options, old(State()), Check(key, now))
      ensures allowed == !Blocked(Lookup(old(State()), key), now)
    {
      if key in entries && entries[key].blockedUntil.Some? {
        if entries[key].blockedUntil.value > now {
          assert entries[key := entries[key]] == entries;
          return false;
        }
        entries := entries[key := entries[key].(blockedUntil := None)];
        return true;
      }
      assert key in entries ==> entries[key := entries[key]] == entries;
      return true;
    }

    method RecordFailure(key: nat, now: int, trackAt: int, sweepAt: int)
      requires Valid()
      modifies this
      ensures Valid() && State() == Next(options, old(State()), Fail(key, now, trackAt, sweepAt))
    {
      ghost var event := Fail(key, now, trackAt, sweepAt);
      NextValid(options, State(), event);
      RecordedValid(options, State(), event);
      var entry := if key in entries then entries[key] else NOTHING;
      entry := Count(entry, now);
      Track(key, entry, trackAt);
      MaybeSweep(sweepAt);
    }

    method Count(before: Entry, now: int) returns (entry: Entry)
      ensures entry == Failed(options, before, now)
    {
      var recent := Recent(before.failures, now - options.windowMs);
      entry := before.(failures := recent + [now]);
      if |entry.failures| >= options.limit && (entry.blockedUntil == None || entry.blockedUntil.value <= now) {
        entry := entry.(blockedUntil := Some(now + options.blockMs));
      }
    }

    method ClearFailures(key: nat, ghost now: int)
      requires Valid()
      modifies this`entries, this`keys
      ensures Valid() && State() == Next(options, old(State()), Clear(key, now))
    {
      DeletedValid(State().table, key);
      entries := entries - {key};
      keys := Without(keys, key);
    }

    static method Recent(failures: seq<int>, cutoff: int) returns (recent: seq<int>)
      ensures recent == After(failures, cutoff)
    {
      recent := [];
      for i := 0 to |failures|
        invariant recent == After(failures[..i], cutoff)
      {
        assert failures[..i + 1][..i] == failures[..i];
        if failures[i] > cutoff {
          recent := recent + [failures[i]];
        }
      }
      assert failures[..|failures|] == failures;
    }

    method Track(key: nat, entry: Entry, now: int)
      requires Valid()
      modifies this`entries, this`keys
      ensures State().table == Stored(old(State()).table, MAX_KEYS, key, entry, Live(options, now), Activity())
    {
      if key in entries {
        entries := entries[key := entry];
        return;
      }
      SweptValid(State().table, Live(options, now));
      if |keys| >= MAX_KEYS {
        SweepExpired(now);
      }
      if |keys| >= MAX_KEYS {
        EvictOldest();
      }
      entries := entries[key := entry];
      keys := keys + [key];
    }

    method MaybeSweep(now: int)
      requires Valid()
      modifies this
      ensures State() == MaybeSwept(options, old(State()), now)
    {
      callsSinceSweep := callsSinceSweep + 1;
      if callsSinceSweep >= SWEEP_INTERVAL {
        callsSinceSweep := 0;
        SweepExpired(now);
      }
    }

    method SweepExpired(now: int)
      requires Valid()
      modifies this`entries, this`keys
      ensures State().table == Swept(old(State()).table, Live(options, now))
    {
      ghost var was := State().table;
      var order := keys;
      keys := [];
      for i := 0 to |order|
        modifies this`entries, this`keys
        invariant keys == Kept(was.entries, order[..i], Live(options, now))
        invariant entries == Remaining(was.entries, order[..i], Live(options, now))
      {
        NextKey(was, i, Live(options, now));
        var key := order[i];
        if Alive(options, entries[key], now) {
          keys := keys + [key];
        } else {
          entries := entries - {key};
        }
      }
      assert order[..|order|] == order;
    }

    method EvictOldest()
      requires State().table.Valid()
      modifies this`entries, this`keys
      ensures State().table == Evicted(old(State()).table, Activity())
    {
      ghost var was := State().table;
      if keys == [] {
        return;
      }
      OldestFirst(was, Activity());
      var oldest := 0;
      for i := 1 to |keys|
        invariant entries == was.entries && keys == was.keys
        invariant IsOldest(was, i, oldest, Activity())
      {
        OldestNext(was, i, oldest, Activity());
        if Activity()(entries[keys[i]]) < Activity()(entries[keys[oldest]]) {
          oldest := i;
        }
      }
      OldestIs(was, oldest, Activity());
      entries := entries - {keys[oldest]};
      keys := keys[..oldest] + keys[oldest + 1..];
    }
  }
}
