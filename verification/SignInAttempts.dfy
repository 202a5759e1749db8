/**
 Sign-in attempts of one pair that run side by side. A login checks the throttle, waits for the database and
 the password hash, and only then records its failure (apps/api/src/auth/auth.service.ts), so attempts that are
 already in flight when the limit is reached still count.
 */
module SignInAttempts {
  import opened AuthThrottle
  import opened Wrappers

  /** The most failures that one window can hold when at most `c` attempts are in flight at a time. */
  function Most(limit: nat, c: nat): int {
    (if limit < c then c else limit) + c - 1
  }

  // ----- No window holds more -----

  /** How many failures an entry holds that are later than `cutoff`. */
  function Since(entry: Entry, cutoff: int): nat {
    |After(entry.failures, cutoff)|
  }

  lemma {:induction false} SinceShrinks(failures: seq<int>, early: int, late: int)
    requires early <= late
    ensures |After(failures, late)| <= |After(failures, early)| <= |failures|
  {
    if failures != [] {
      SinceShrinks(failures[..|failures| - 1], early, late);
    }
  }

  /** A failure adds at most one to what is counted since any time, and nothing since now. */
  lemma FailureAddsOne(options: Options, entry: Entry, now: int, cutoff: int)
    requires options.windowMs > 0
    ensures Since(Failed(options, entry, now), cutoff) <= Since(entry, cutoff) + if now <= cutoff then 0 else 1
  {
    hide Failed, After;
    var early := now - options.windowMs;
    FailedCases(options, entry, now);
    AfterOneMore(After(entry.failures, early), now, cutoff);
    if early <= cutoff {
      AfterAfter(entry.failures, early, cutoff);
    } else {
      SinceShrinks(After(entry.failures, early), cutoff, cutoff);
      SinceShrinks(entry.failures, cutoff, early);
    }
  }

  /** While the pair is blocked: what this window holds, and what was recorded since the block began. */
  ghost predicate BlockedRoom(options: Options, entry: Entry, f: int, c: nat, now: int)
    requires entry.blockedUntil.Some?
  {
    && Since(entry, now - options.windowMs) + f <= Most(options.limit, c)
    && Since(entry, entry.blockedUntil.value - options.blockMs) + f <= c - 1
  }

  /** Whatever `f` attempts are in flight, the window has room for their failures. */
  ghost predicate Room(options: Options, entry: Entry, f: int, c: nat, now: int) {
    && 0 <= f <= c && Since(entry, now) == 0
    && if Blocked(entry, now) then BlockedRoom(options, entry, f, c, now)
       else Since(entry, now - options.windowMs) + c <= Most(options.limit, c)
  }

  lemma LaterRoom(options: Options, entry: Entry, f: int, c: nat, now: int, later: int)
    requires options.blockMs >= options.windowMs > 0 && Room(options, entry, f, c, now) && now <= later
    ensures Room(options, entry, f, c, later)
  {
    hide After;
    SinceShrinks(entry.failures, now, later);
    SinceShrinks(entry.failures, now - options.windowMs, later - options.windowMs);
    if Blocked(entry, now) && !Blocked(entry, later) {
      SinceShrinks(entry.failures, entry.blockedUntil.value - options.blockMs, later - options.windowMs);
    }
  }

  lemma FailureKeepsRoom(options: Options, entry: Entry, f: int, c: nat, now: int)
    requires options.blockMs >= options.windowMs > 0 && options.limit > 0 && Room(options, entry, f, c, now) && f > 0
    ensures Room(options, Failed(options, entry, now), f - 1, c, now)
    ensures |Failed(options, entry, now).failures| <= Most(options.limit, c)
  {
    hide After;
    FailureAddsOne(options, entry, now, now);
    FailureAddsOne(options, entry, now, now - options.windowMs);
    if Blocked(entry, now) {
      FailureAddsOne(options, entry, now, entry.blockedUntil.value - options.blockMs);
    }
  }

  /** Every window that ends at a failure holds at most `m` of them. */
  ghost predicate WindowsHold(options: Options, times: seq<int>, m: int) {
    times != [] ==>
      && WindowsHold(options, times[..|times| - 1], m)
      && |After(times, times[|times| - 1] - options.windowMs)| <= m
  }

  lemma FailureKeepsWindows(options: Options, times: seq<int>, entry: Entry, m: int, now: int, later: int)
    requires WindowsHold(options, times, m) && Accounted(options, times + [now], entry, later) && |entry.failures| <= m
    ensures WindowsHold(options, times + [now], m)
  {
    assert (times + [now])[..|times|] == times;
  }

  lemma {:induction false} InFlightNeverCleared(options: Options, events: seq<Event>, key: nat, c: nat)
    requires AtMostInFlight(options, events, key, c)
    ensures NeverCleared(events, key)
  {
    hide InFlight;
    if events != [] {
      InFlightNeverCleared(options, events[..|events| - 1], key, c);
    }
  }

  lemma {:induction false} HistoryKeepsRoom(options: Options, events: seq<Event>, key: nat, c: nat, now: int)
    requires options.limit > 0 && options.blockMs >= options.windowMs > 0
    requires Clocked(events) && NeverEvicted(options, events, key) && AtMostInFlight(options, events, key, c)
    requires events != [] ==> EndsAt(events[|events| - 1]) <= now
    ensures Room(options, History(options, events, key), InFlight(options, events, key), c, now)
  {
    hide Failed, Unblocked, Room, Lookup, Blocked;
    if events == [] {
      NothingHasRoom(options, c, now);
    } else {
      var before, event := events[..|events| - 1], events[|events| - 1];
      var entry, f := History(options, before, key), InFlight(options, before, key);
      HistoryKeepsRoom(options, before, key, c, event.now);
      if event.key == key {
        AnswersAsHistory(options, before, key, event.now);
        OwnEventKeepsRoom(options, event, entry, f, c, History(options, events, key), InFlight(options, events, key));
      }
      LaterRoom(options, History(options, events, key), InFlight(options, events, key), c, event.now, now);
    }
  }

  lemma OwnEventKeepsRoom(options: Options, event: Event, entry: Entry, f: int, c: nat, after: Entry, g: int)
    requires options.limit > 0 && options.blockMs >= options.windowMs > 0 && Room(options, entry, f, c, event.now)
    requires !event.Clear? && (event.Fail? || event.BreakOff? ==> f > 0) && g <= c
    requires after == match event
                      case Check(_, now) => Unblocked(entry, now)
                      case Fail(_, now, _, _) => Failed(options, entry, now)
                      case _ => entry
    requires g == f + (if !event.Check? then -1 else if Blocked(entry, event.now) then 0 else 1)
    ensures Room(options, after, g, c, event.now)
  {
    hide Failed, Unblocked, Room;
    match event
    case Check(_, now) => CheckKeepsRoom(options, entry, f, c, now);
    case Fail(_, now, _, _) => FailureKeepsRoom(options, entry, f, c, now);
    case _ => BreakOffKeepsRoom(options, entry, f, c, event.now);
  }

  lemma {:induction false} HistoryKeepsWindows(options: Options, events: seq<Event>, key: nat, c: nat)
    requires options.limit > 0 && options.blockMs >= options.windowMs > 0
    requires Clocked(events) && NeverEvicted(options, events, key) && AtMostInFlight(options, events, key, c)
    ensures WindowsHold(options, Failures(events, key), Most(options.limit, c))
  {
    hide Failed, Room, Most, Accounted, Lookup, Blocked, After;
    if events != [] {
      var before, event := events[..|events| - 1], events[|events| - 1];
      HistoryKeepsWindows(options, before, key, c);
      if event.key == key && event.Fail? {
        var entry := History(options, before, key);
        HistoryKeepsRoom(options, before, key, c, event.now);
        FailureKeepsRoom(options, entry, InFlight(options, before, key), c, event.now);
        InFlightNeverCleared(options, events, key, c);
        HistoryAccounted(options, events, key, EndsAt(event));
        FailureKeepsWindows(options, Failures(before, key), Failed(options, entry, event.now), Most(options.limit, c),
                            event.now, EndsAt(event));
      } else {
        assert Failures(events, key) == Failures(before, key);
      }
    }
  }

  lemma NothingHasRoom(options: Options, c: nat, now: int)
    requires options.limit > 0
    ensures Room(options, NOTHING, 0, c, now)
  {
  }

  lemma CheckKeepsRoom(options: Options, entry: Entry, f: int, c: nat, now: int)
    requires Room(options, entry, f, c, now) && (f < c || Blocked(entry, now))
    ensures Room(options, Unblocked(entry, now), f + (if Blocked(entry, now) then 0 else 1), c, now)
  {
  }

  lemma BreakOffKeepsRoom(options: Options, entry: Entry, f: int, c: nat, now: int)
    requires Room(options, entry, f, c, now) && f > 0
    ensures Room(options, entry, f - 1, c, now)
  {
  }

  ghost predicate AtMostPerWindow(options: Options, times: seq<int>, m: int) {
    forall i, j | 0 <= i <= j < |times| && times[j] - times[i] < options.windowMs :: j - i + 1 <= m
  }

  lemma {:induction false} WindowsHoldMeans(options: Options, times: seq<int>, m: int)
    requires WindowsHold(options, times, m) && Ascending(times)
    ensures AtMostPerWindow(options, times, m)
  {
    if times != [] {
      var last := |times| - 1;
      WindowsHoldMeans(options, times[..last], m);
      forall i, j | 0 <= i <= j < |times| && times[j] - times[i] < options.windowMs ensures j - i + 1 <= m {
        if j == last {
          ManyAfter(times, times[last] - options.windowMs, last - i + 1);
        } else {
          assert times[..last][j] - times[..last][i] < options.windowMs;
        }
      }
    }
  }

  /** A run in which `key` keeps its entry, and at most `c` of its attempts are in flight at a time. */
  ghost predicate Legal(options: Options, events: seq<Event>, key: nat, c: nat) {
    Clocked(events) && NeverEvicted(options, events, key) && AtMostInFlight(options, events, key, c)
  }

  /** With at most `c` attempts of a pair in flight, no window holds more of its failures than `Most`. */
  lemma InFlightPerWindow(options: Options, events: seq<Event>, key: nat, c: nat)
    requires options.limit > 0 && options.blockMs >= options.windowMs > 0
    requires Legal(options, events, key, c)
    ensures AtMostPerWindow(options, Failures(events, key), Most(options.limit, c))
  {
    var now := if events == [] then 0 else EndsAt(events[|events| - 1]);
    HistoryKeepsWindows(options, events, key, c);
    InFlightNeverCleared(options, events, key, c);
    HistoryAccounted(options, events, key, now);
    WindowsHoldMeans(options, Failures(events, key), Most(options.limit, c));
  }

  // ----- A run that holds as many -----

  /** A run of one pair whose entry and attempts in flight are known. */
  ghost predicate At(options: Options, events: seq<Event>, key: nat, c: nat, now: int, entry: Entry, f: int) {
    && Legal(options, events, key, c) && (events != [] ==> EndsAt(events[|events| - 1]) <= now)
    && (forall i | 0 <= i < |events| :: events[i].key == key)
    && History(options, events, key) == entry && InFlight(options, events, key) == f
  }

  lemma CheckPasses(options: Options, events: seq<Event>, key: nat, c: nat, now: int, entry: Entry, f: int)
    returns (more: seq<Event>)
    requires At(options, events, key, c, now, entry, f) && !Blocked(entry, now) && f < c
    ensures At(options, more, key, c, now, entry.(blockedUntil := None), f + 1)
  {
    hide Lookup;
    more := events + [Check(key, now)];
    assert more[..|events|] == events && more[|events|] == Check(key, now);
    AnswersAsHistory(options, events, key, now);
  }

  lemma FailureEnds(options: Options, events: seq<Event>, key: nat, c: nat, now: int, entry: Entry, f: int)
    returns (more: seq<Event>)
    requires At(options, events, key, c, now, entry, f) && 0 < f <= c
    ensures At(options, more, key, c, now, Failed(options, entry, now), f - 1)
  {
    hide Lookup, Failed;
    more := events + [Fail(key, now, now, now)];
    assert more[..|events|] == events && more[|events|] == Fail(key, now, now, now);
  }

  /** A failure in a window that reaches back to `cutoff` is one more counted since then. */
  lemma FailureIsCounted(options: Options, entry: Entry, now: int, cutoff: int)
    requires now - options.windowMs <= cutoff < now
    ensures Since(Failed(options, entry, now), cutoff) == Since(entry, cutoff) + 1
  {
    hide Failed, After;
    FailedCases(options, entry, now);
    AfterOneMore(After(entry.failures, now - options.windowMs), now, cutoff);
    AfterAfter(entry.failures, now - options.windowMs, cutoff);
  }

  /** `n` attempts let through together. */
  lemma {:induction false} Checks(
      options: Options, events: seq<Event>, key: nat, c: nat, now: int, entry: Entry, n: nat)
    returns (more: seq<Event>)
    requires At(options, events, key, c, now, entry, 0) && !Blocked(entry, now) && 0 < n <= c
    ensures At(options, more, key, c, now, entry.(blockedUntil := None), n)
  {
    if n == 1 {
      more := CheckPasses(options, events, key, c, now, entry, 0);
    } else {
      more := Checks(options, events, key, c, now, entry, n - 1);
      more := CheckPasses(options, more, key, c, now, entry.(blockedUntil := None), n - 1);
    }
  }

  /** `n` failures recorded together; a block in force stays as it is. */
  lemma {:induction false} Fails(
      options: Options, events: seq<Event>, key: nat, c: nat, now: int, entry: Entry, f: nat, n: nat, cutoff: int)
    returns (more: seq<Event>, after: Entry)
    requires At(options, events, key, c, now, entry, f) && n <= f <= c
    requires now - options.windowMs <= cutoff < now
    ensures At(options, more, key, c, now, after, f - n)
    ensures Since(after, cutoff) == Since(entry, cutoff) + n
    ensures Blocked(entry, now) ==> after.blockedUntil == entry.blockedUntil
  {
    hide At, After;
    more, after := events, entry;
    if n > 0 {
      more, after := Fails(options, events, key, c, now, entry, f, n - 1, cutoff);
      more := FailureEnds(options, more, key, c, now, after, f - (n - 1));
      FailureIsCounted(options, after, now, cutoff);
      after := Failed(options, after, now);
    }
  }

  /** `n` attempts one after another, too few to reach the limit. */
  lemma {:induction false} Pairs(options: Options, events: seq<Event>, key: nat, c: nat, now: int, entry: Entry, n: nat)
    returns (more: seq<Event>, after: Entry)
    requires c > 0 && options.windowMs > 0
    requires At(options, events, key, c, now, entry, 0) && !Blocked(entry, now)
    requires Since(entry, now - options.windowMs) + n < options.limit
    ensures At(options, more, key, c, now, after, 0) && !Blocked(after, now)
    ensures Since(after, now - options.windowMs) == Since(entry, now - options.windowMs) + n
    ensures Since(after, now) <= Since(entry, now)
  {
    hide At, Failed, After;
    more, after := events, entry;
    if n > 0 {
      more, after := Pairs(options, events, key, c, now, entry, n - 1);
      more := CheckPasses(options, more, key, c, now, after, 0);
      after := after.(blockedUntil := None);
      more := FailureEnds(options, more, key, c, now, after, 1);
      FailureIsCounted(options, after, now, now - options.windowMs);
      FailureAddsOne(options, after, now, now);
      BelowLimit(options, after, now);
      after := Failed(options, after, now);
    }
  }

  lemma BelowLimit(options: Options, entry: Entry, now: int)
    requires entry.blockedUntil == None && Since(entry, now - options.windowMs) + 1 < options.limit
    ensures Failed(options, entry, now).blockedUntil == None
  {
  }

  lemma AtLimit(options: Options, entry: Entry, now: int)
    requires entry.blockedUntil == None && Since(entry, now - options.windowMs) + 1 >= options.limit
    ensures Failed(options, entry, now).blockedUntil == Some(now + options.blockMs)
  {
  }

  lemma AtLater(options: Options, events: seq<Event>, key: nat, c: nat, now: int, later: int, entry: Entry, f: int)
    requires At(options, events, key, c, now, entry, f) && now <= later
    ensures At(options, events, key, c, later, entry, f)
  {
  }

  lemma AtStart(options: Options, key: nat, c: nat)
    ensures At(options, [], key, c, 0, NOTHING, 0)
    ensures forall cutoff :: Since(NOTHING, cutoff) == 0
  {
  }

  /** One short of the limit, `c` attempts pass together, and the first of them to fail starts a block. */
  lemma BlockBegins(options: Options, key: nat, c: nat) returns (events: seq<Event>, entry: Entry)
    requires c > 0 && options.limit > 0 && options.blockMs >= options.windowMs > 0
    ensures At(options, events, key, c, 0, entry, c - 1)
    ensures entry.blockedUntil == Some(options.blockMs) && Since(entry, 0) == 0
  {
    hide At, Failed, After;
    AtStart(options, key, c);
    events, entry := Pairs(options, [], key, c, 0, NOTHING, options.limit - 1);
    events := Checks(options, events, key, c, 0, entry, c);
    entry := entry.(blockedUntil := None);
    events := FailureEnds(options, events, key, c, 0, entry, c);
    AtLimit(options, entry, 0);
    FailureAddsOne(options, entry, 0, 0);
    entry := Failed(options, entry, 0);
  }

  /** The other `c - 1` fail just before the block ends. */
  lemma LateFailures(options: Options, key: nat, c: nat) returns (events: seq<Event>, entry: Entry)
    requires c > 0 && options.limit > 0 && options.blockMs >= options.windowMs > 1
    ensures At(options, events, key, c, options.blockMs, entry, 0)
    ensures !Blocked(entry, options.blockMs) && Since(entry, options.blockMs - options.windowMs) == c - 1
  {
    var end := options.blockMs;
    var start;
    events, start := BlockBegins(options, key, c);
    AtLater(options, events, key, c, 0, end - 1, start, c - 1);
    SinceShrinks(start.failures, 0, end - options.windowMs);
    events, entry := Fails(options, events, key, c, end - 1, start, c - 1, c - 1, end - options.windowMs);
    AtLater(options, events, key, c, end - 1, end, entry, 0);
  }

  /** Once it has ended, attempts one at a time fill up to one short of the limit, and `c` more pass and fail together. */
  lemma FullWindow(options: Options, key: nat, c: nat) returns (events: seq<Event>, entry: Entry)
    requires c > 0 && options.limit > 0 && options.blockMs >= options.windowMs > 1
    ensures At(options, events, key, c, options.blockMs, entry, 0)
    ensures |entry.failures| >= Most(options.limit, c)
  {
    hide At, After;
    var now, cutoff := options.blockMs, options.blockMs - options.windowMs;
    events, entry := LateFailures(options, key, c);
    if c < options.limit {
      events, entry := Pairs(options, events, key, c, now, entry, options.limit - c);
    }
    events := Checks(options, events, key, c, now, entry, c);
    events, entry := Fails(options, events, key, c, now, entry.(blockedUntil := None), c, c, cutoff);
    SinceShrinks(entry.failures, cutoff, cutoff);
  }

  lemma FullWindowExceeds(options: Options, key: nat, c: nat, m: int) returns (events: seq<Event>)
    requires c > 0 && options.limit > 0 && options.blockMs >= options.windowMs > 1 && m < Most(options.limit, c)
    ensures Legal(options, events, key, c) && !AtMostPerWindow(options, Failures(events, key), m)
  {
    var entry;
    events, entry := FullWindow(options, key, c);
    InFlightNeverCleared(options, events, key, c);
    HistoryAccounted(options, events, key, options.blockMs);
    var times, most := Failures(events, key), Most(options.limit, c);
    AfterMany(times, times[|times| - 1] - options.windowMs, most);
    var i, j := |times| - most, |times| - 1;
    assert times[j] - times[i] < options.windowMs && j - i + 1 == most;
  }

  /**
   `Most` is exact: `m` bounds the failures of every window in every run with at most `c` attempts in flight just
   when it is at least `Most`. Windows are whole minutes, and so longer than a millisecond.
   */
  lemma MostIsExact(options: Options, key: nat, c: nat, m: int)
    requires c > 0 && options.limit > 0 && options.blockMs >= options.windowMs > 1
    ensures (forall events | Legal(options, events, key, c) :: AtMostPerWindow(options, Failures(events, key), m))
            <==> m >= Most(options.limit, c)
  {
    if m < Most(options.limit, c) {
      var events := FullWindowExceeds(options, key, c, m);
    } else {
      forall events | Legal(options, events, key, c) ensures AtMostPerWindow(options, Failures(events, key), m) {
        InFlightPerWindow(options, events, key, c);
      }
    }
  }

  /** So the limit itself holds per window in every run exactly when attempts of a pair come one at a time. */
  lemma LimitHoldsIffOneAtATime(options: Options, key: nat, c: nat)
    requires c > 0 && options.limit > 0 && options.blockMs >= options.windowMs > 1
    ensures (forall events | Legal(options, events, key, c) ::
               AtMostPerWindow(options, Failures(events, key), options.limit))
            <==> c == 1
  {
    MostIsExact(options, key, c, options.limit);
  }
}
