/**
 The fixed-window rate limiter with bounded memory (apps/api/src/auth/rate-limiter.ts).
 */
module RateLimiter {
  import opened BoundedMap
  import Bits

  datatype Options = Options(windowMs: int, maxWrites: nat, maxBuckets: nat, sweepInterval: nat)

  datatype Bucket = Bucket(count: nat, resetAt: int)

  datatype Answer = Answer(allowed: bool, retryAfterMs: int)

  datatype Limiter = Limiter(table: Table<Bucket>, callsSinceSweep: nat, rejected: nat) {
    ghost predicate Valid(options: Options) {
      table.Valid() && |table.keys| <= Capacity(options.maxBuckets)
    }
  }

  const EMPTY := Limiter(Table(map[], []), 0, 0)

  function Live(now: int): Bucket -> bool {
    (bucket: Bucket) => bucket.resetAt > now
  }

  function Age(): Bucket -> int {
    (bucket: Bucket) => bucket.resetAt
  }

  function Tracked(options: Options, l: Limiter, key: nat, bucket: Bucket, now: int): Limiter
    requires l.table.Valid()
  {
    l.(table := Stored(l.table, options.maxBuckets, key, bucket, Live(now), Age()))
  }

  function MaybeSwept(options: Options, l: Limiter, now: int): Limiter {
    if l.callsSinceSweep + 1 >= options.sweepInterval
    then l.(callsSinceSweep := 0, table := Swept(l.table, Live(now)))
    else l.(callsSinceSweep := l.callsSinceSweep + 1)
  }

  /** One call to consume. The clock is read first for the call, then for each sweep. */
  datatype Call = Call(key: nat, now: int, trackAt: int, sweepAt: int)

  predicate Fresh(buckets: map<nat, Bucket>, call: Call) {
    call.key !in buckets || buckets[call.key].resetAt <= call.now
  }

  /** The bucket a call leaves for its key. */
  function NextBucket(options: Options, buckets: map<nat, Bucket>, call: Call): Bucket {
    if Fresh(buckets, call) then Bucket(1, call.now + options.windowMs)
    else if buckets[call.key].count >= options.maxWrites then buckets[call.key]
    else buckets[call.key].(count := buckets[call.key].count + 1)
  }

  function AnswerFor(options: Options, buckets: map<nat, Bucket>, call: Call): Answer {
    if !Fresh(buckets, call) && buckets[call.key].count >= options.maxWrites
    then Answer(false, buckets[call.key].resetAt - call.now)
    else Answer(true, 0)
  }

  /** The limiter once the call is counted, before the sweep that may follow. */
  function Counted(options: Options, l: Limiter, call: Call): Limiter
    requires l.Valid(options)
  {
    var buckets := l.table.entries;
    var bucket := NextBucket(options, buckets, call);
    if Fresh(buckets, call) then Tracked(options, l, call.key, bucket, call.trackAt)
    else if AnswerFor(options, buckets, call).allowed then l.(table := l.table.(entries := buckets[call.key := bucket]))
    else l.(rejected := l.rejected + 1)
  }

  function Consumed(options: Options, l: Limiter, call: Call): Limiter
    requires l.Valid(options)
  {
    MaybeSwept(options, Counted(options, l, call), call.sweepAt)
  }

  lemma CountedValid(options: Options, l: Limiter, call: Call)
    requires l.Valid(options)
    ensures Counted(options, l, call).Valid(options)
  {
    StoredValid(l.table, options.maxBuckets, call.key, NextBucket(options, l.table.entries, call),
                Live(call.trackAt), Age());
  }

  /** Memory is bounded: by `maxBuckets`, or by one bucket if that is zero, since a new key is always stored. */
  lemma ConsumedValid(options: Options, l: Limiter, call: Call)
    requires l.Valid(options)
    ensures Consumed(options, l, call).Valid(options)
  {
    CountedValid(options, l, call);
    SweptValid(Counted(options, l, call).table, Live(call.sweepAt));
  }

  // ----- Runs -----

  /** The clock never runs backwards, within a call or from one call to the next. */
  ghost predicate Clocked(calls: seq<Call>) {
    && (forall i | 0 <= i < |calls| :: calls[i].now <= calls[i].trackAt <= calls[i].sweepAt)
    && (forall i | 0 <= i < |calls| - 1 :: calls[i].sweepAt <= calls[i + 1].now)
  }

  ghost function After(options: Options, calls: seq<Call>): (l: Limiter)
    ensures l.Valid(options)
  {
    if calls == [] then EMPTY
    else
      var before := After(options, calls[..|calls| - 1]);
      ConsumedValid(options, before, calls[|calls| - 1]);
      Consumed(options, before, calls[|calls| - 1])
  }

  /** The specification: a bucket per key, for ever, neither swept nor evicted. */
  ghost function Unbounded(options: Options, calls: seq<Call>): map<nat, Bucket> {
    if calls == [] then map[]
    else
      var before := Unbounded(options, calls[..|calls| - 1]);
      var call := calls[|calls| - 1];
      before[call.key := NextBucket(options, before, call)]
  }

  ghost predicate Evicts(options: Options, l: Limiter, call: Call, victim: nat)
    requires l.Valid(options)
  {
    BoundedMap.Evicts(l.table, options.maxBuckets, call.key, Live(call.trackAt), Age(), victim)
  }

  ghost predicate NeverEvicted(options: Options, calls: seq<Call>, key: nat) {
    calls != [] ==>
      && NeverEvicted(options, calls[..|calls| - 1], key)
      && !Evicts(options, After(options, calls[..|calls| - 1]), calls[|calls| - 1], key)
  }

  /** At `now`, the two maps know the same live window of `key`. */
  ghost predicate SameWindow(l: map<nat, Bucket>, u: map<nat, Bucket>, key: nat, now: int) {
    (key in l && l[key].resetAt > now) || (key in u && u[key].resetAt > now) ==>
      key in l && key in u && l[key] == u[key]
  }

  lemma SweptSameWindow(options: Options, l: Limiter, key: nat, now: int)
    requires l.Valid(options)
    ensures SameWindow(MaybeSwept(options, l, now).table.entries, l.table.entries, key, now)
  {
  }

  /** A call for another key disturbs a key's live window only by evicting it. */
  lemma OtherCallKeepsWindow(options: Options, l: Limiter, call: Call, key: nat)
    requires l.Valid(options) && call.key != key && !Evicts(options, l, call, key)
    requires call.now <= call.trackAt <= call.sweepAt
    ensures SameWindow(Consumed(options, l, call).table.entries, l.table.entries, key, call.sweepAt)
  {
    var counted := Counted(options, l, call);
    var bucket := NextBucket(options, l.table.entries, call);
    assert SameWindow(counted.table.entries, l.table.entries, key, call.sweepAt) by {
      StoredValid(l.table, options.maxBuckets, call.key, bucket, Live(call.trackAt), Age());
      if key in l.table.entries && l.table.entries[key].resetAt > call.sweepAt {
        StoredKeepsLive(l.table, options.maxBuckets, call.key, bucket, Live(call.trackAt), Age(), key);
      }
    }
    CountedValid(options, l, call);
    SweptSameWindow(options, counted, key, call.sweepAt);
  }

  lemma OwnCallKeepsWindow(options: Options, l: Limiter, u: map<nat, Bucket>, call: Call)
    requires l.Valid(options) && SameWindow(l.table.entries, u, call.key, call.now)
    requires call.now <= call.trackAt <= call.sweepAt
    ensures NextBucket(options, l.table.entries, call) == NextBucket(options, u, call)
    ensures AnswerFor(options, l.table.entries, call) == AnswerFor(options, u, call)
    ensures SameWindow(Consumed(options, l, call).table.entries, u[call.key := NextBucket(options, u, call)], call.key,
                       call.sweepAt)
  {
    StoredValid(l.table, options.maxBuckets, call.key, NextBucket(options, u, call), Live(call.trackAt), Age());
    CountedValid(options, l, call);
    SweptSameWindow(options, Counted(options, l, call), call.key, call.sweepAt);
  }

  lemma LaterSameWindow(l: map<nat, Bucket>, u: map<nat, Bucket>, key: nat, now: int, later: int)
    requires SameWindow(l, u, key, now) && now <= later
    ensures SameWindow(l, u, key, later)
  {
  }

  lemma {:induction false} RunKeepsWindow(options: Options, calls: seq<Call>, key: nat, now: int)
    requires Clocked(calls) && NeverEvicted(options, calls, key)
    requires calls != [] ==> calls[|calls| - 1].sweepAt <= now
    ensures SameWindow(After(options, calls).table.entries, Unbounded(options, calls), key, now)
  {
    if calls != [] {
      var last := |calls| - 1;
      var call := calls[last];
      var l, u := After(options, calls[..last]), Unbounded(options, calls[..last]);
      RunKeepsWindow(options, calls[..last], key, call.now);
      if call.key == key {
        OwnCallKeepsWindow(options, l, u, call);
      } else {
        OtherCallKeepsWindow(options, l, call, key);
        LaterSameWindow(l.table.entries, u, key, call.now, call.sweepAt);
      }
      LaterSameWindow(After(options, calls).table.entries, Unbounded(options, calls), key, call.sweepAt, now);
    }
  }

  /**
   Sweeping is invisible: as long as a key is never evicted, each of its calls gets the answer of the
   unbounded limiter.
   */
  lemma AnswersAsUnbounded(options: Options, calls: seq<Call>, i: nat)
    requires Clocked(calls) && i < |calls| && NeverEvicted(options, calls[..i], calls[i].key)
    ensures AnswerFor(options, After(options, calls[..i]).table.entries, calls[i])
            == AnswerFor(options, Unbounded(options, calls[..i]), calls[i])
  {
    RunKeepsWindow(options, calls[..i], calls[i].key, calls[i].now);
    OwnCallKeepsWindow(options, After(options, calls[..i]), Unbounded(options, calls[..i]), calls[i]);
  }

  // ----- How many calls pass -----

  /** An allowed call: when it came, and when the window it was counted in began. */
  datatype Pass = Pass(at: int, start: int)

  ghost function Passes(options: Options, calls: seq<Call>, key: nat): seq<Pass> {
    if calls == [] then []
    else
      var last := |calls| - 1;
      var before := Unbounded(options, calls[..last]);
      Passes(options, calls[..last], key)
      + (if calls[last].key == key && AnswerFor(options, before, calls[last]).allowed
         then [Pass(calls[last].now, NextBucket(options, before, calls[last]).resetAt - options.windowMs)] else [])
  }

  /** Calls allowed in one window. A window's first call always passes, even with a limit of zero. */
  function PerWindow(options: Options): nat {
    if options.maxWrites == 0 then 1 else options.maxWrites
  }

  /** The last `count` passes belong to the current window, all others to windows that ended before it. */
  ghost predicate WindowsOk(options: Options, passes: seq<Pass>, bucket: Bucket) {
    var start := bucket.resetAt - options.windowMs;
    && 1 <= bucket.count <= PerWindow(options) && bucket.count <= |passes|
    && (forall i | |passes| - bucket.count <= i < |passes| :: passes[i].start == start)
    && (forall i | 0 <= i < |passes| - bucket.count :: passes[i].start <= start - options.windowMs)
    && (forall i | 0 <= i < |passes| :: passes[i].start <= passes[i].at < passes[i].start + options.windowMs)
    && (forall i, j | 0 <= i < j < |passes| :: passes[i].start <= passes[j].start)
    && (forall i | 0 <= i < |passes| - PerWindow(options) ::
          passes[i + PerWindow(options)].start >= passes[i].start + options.windowMs)
  }

  lemma SameWindowPasses(options: Options, passes: seq<Pass>, bucket: Bucket, at: int)
    requires WindowsOk(options, passes, bucket) && bucket.count < PerWindow(options)
    requires bucket.resetAt - options.windowMs <= at < bucket.resetAt
    ensures WindowsOk(options, passes + [Pass(at, bucket.resetAt - options.windowMs)], bucket.(count := bucket.count + 1))
  {
  }

  lemma NewWindowPasses(options: Options, passes: seq<Pass>, bucket: Bucket, at: int)
    requires options.windowMs > 0 && WindowsOk(options, passes, bucket) && bucket.resetAt <= at
    ensures WindowsOk(options, passes + [Pass(at, at)], Bucket(1, at + options.windowMs))
  {
  }

  /** The passes of a key known to the specification have grown with its bucket. */
  ghost predicate PassesOk(options: Options, u: map<nat, Bucket>, passes: seq<Pass>, key: nat, now: int) {
    if key in u then WindowsOk(options, passes, u[key]) && u[key].resetAt <= now + options.windowMs else passes == []
  }

  lemma CallKeepsPasses(options: Options, u: map<nat, Bucket>, passes: seq<Pass>, call: Call, now: int)
    requires options.windowMs > 0 && PassesOk(options, u, passes, call.key, now) && now <= call.now
    ensures var bucket := NextBucket(options, u, call);
            var more := if AnswerFor(options, u, call).allowed then [Pass(call.now, bucket.resetAt - options.windowMs)] else [];
            PassesOk(options, u[call.key := bucket], passes + more, call.key, call.now)
  {
    if call.key in u {
      var bucket := u[call.key];
      if bucket.resetAt <= call.now {
        NewWindowPasses(options, passes, bucket, call.now);
      } else if bucket.count < options.maxWrites {
        SameWindowPasses(options, passes, bucket, call.now);
      } else {
        assert passes + [] == passes;
      }
    }
  }

  /** One more call: the specification's buckets and the passes of `key` grow together. */
  lemma StepKeepsPasses(options: Options, u: map<nat, Bucket>, v: map<nat, Bucket>, passes: seq<Pass>, more: seq<Pass>, key: nat,
                        call: Call, now: int)
    requires options.windowMs > 0 && PassesOk(options, u, passes, key, now) && now <= call.now
    requires v == u[call.key := NextBucket(options, u, call)]
    requires more == if call.key == key && AnswerFor(options, u, call).allowed
                     then [Pass(call.now, NextBucket(options, u, call).resetAt - options.windowMs)] else []
    ensures PassesOk(options, v, passes + more, key, call.now)
  {
    if call.key == key {
      CallKeepsPasses(options, u, passes, call, now);
    } else {
      assert passes + more == passes;
    }
  }

  lemma {:induction false} PassesKeepWindows(options: Options, calls: seq<Call>, key: nat)
    requires options.windowMs > 0 && Clocked(calls) && calls != []
    ensures PassesOk(options, Unbounded(options, calls), Passes(options, calls, key), key, calls[|calls| - 1].now)
  {
    var last := |calls| - 1;
    var before, call := calls[..last], calls[last];
    var u, passes := Unbounded(options, before), Passes(options, before, key);
    var more := if call.key == key && AnswerFor(options, u, call).allowed
                then [Pass(call.now, NextBucket(options, u, call).resetAt - options.windowMs)] else [];
    if last > 0 {
      PassesKeepWindows(options, before, key);
    }
    StepKeepsPasses(options, u, Unbounded(options, calls), passes, more, key, call, if last > 0 then calls[last - 1].now else call.now);
    assert Passes(options, calls, key) == passes + more;
  }

  lemma FarApart(options: Options, calls: seq<Call>, key: nat, i: nat, j: nat)
    requires options.windowMs > 0 && Clocked(calls)
    requires i + 2 * PerWindow(options) <= j < |Passes(options, calls, key)|
    ensures Passes(options, calls, key)[j].at > Passes(options, calls, key)[i].at + options.windowMs
  {
    PassesKeepWindows(options, calls, key);
    var passes := Passes(options, calls, key);
    var m := PerWindow(options);
    assert passes[j - m].start >= passes[j - 2 * m].start + options.windowMs;
    assert passes[j].start >= passes[j - m].start + options.windowMs;
    assert i < j - 2 * m ==> passes[j - 2 * m].start >= passes[i].start;
  }

  /** When the limiter itself let calls of `key` through. */
  ghost function Allowed(options: Options, calls: seq<Call>, key: nat): seq<int> {
    if calls == [] then []
    else
      var last := |calls| - 1;
      Allowed(options, calls[..last], key)
      + (if calls[last].key == key && AnswerFor(options, After(options, calls[..last]).table.entries, calls[last]).allowed
         then [calls[last].now] else [])
  }

  lemma {:induction false} AllowedArePasses(options: Options, calls: seq<Call>, key: nat)
    requires Clocked(calls) && NeverEvicted(options, calls, key)
    ensures |Allowed(options, calls, key)| == |Passes(options, calls, key)|
    ensures forall i | 0 <= i < |Allowed(options, calls, key)| ::
              Allowed(options, calls, key)[i] == Passes(options, calls, key)[i].at
  {
    if calls != [] {
      AllowedArePasses(options, calls[..|calls| - 1], key);
      if calls[|calls| - 1].key == key {
        AnswersAsUnbounded(options, calls, |calls| - 1);
      }
    }
  }

  /**
   Any stretch of time of the window's length lets at most two windows' worth of calls of a key through,
   unless the key was evicted.
   */
  lemma AtMostTwoWindows(options: Options, calls: seq<Call>, key: nat, i: nat, j: nat)
    requires options.windowMs > 0 && Clocked(calls) && NeverEvicted(options, calls, key)
    requires var allowed := Allowed(options, calls, key);
             i < j < |allowed| && allowed[j] - allowed[i] <= options.windowMs
    ensures j - i + 1 <= 2 * PerWindow(options)
  {
    AllowedArePasses(options, calls, key);
    if j - i >= 2 * PerWindow(options) {
      FarApart(options, calls, key, i, j);
    }
  }

  /**
   A call is denied only when its window is full: as many calls as a window lets through passed less than a
   window ago. The answer then says how long the window still lasts.
   */
  lemma DeniedOnlyWhenFull(options: Options, calls: seq<Call>, call: Call)
    requires options.windowMs > 0 && Clocked(calls + [call]) && NeverEvicted(options, calls, call.key)
    requires !AnswerFor(options, After(options, calls).table.entries, call).allowed
    ensures var allowed := Allowed(options, calls, call.key);
            && |allowed| >= PerWindow(options) && allowed[|allowed| - PerWindow(options)] > call.now - options.windowMs
            && 0 < AnswerFor(options, After(options, calls).table.entries, call).retryAfterMs <= options.windowMs
  {
    var all := calls + [call];
    assert all[..|calls|] == calls && forall i | 0 <= i < |calls| :: all[i] == calls[i];
    AnswersAsUnbounded(options, all, |calls|);
    AllowedArePasses(options, calls, call.key);
    if calls != [] {
      PassesKeepWindows(options, calls, call.key);
    }
  }

  // ----- Memory and counters -----

  /** The denied calls so far. */
  ghost function Denied(options: Options, calls: seq<Call>): nat {
    if calls == [] then 0
    else
      var before, last := calls[..|calls| - 1], calls[|calls| - 1];
      Denied(options, before) + if AnswerFor(options, After(options, before).table.entries, last).allowed then 0 else 1
  }

  ghost function Interval(options: Options): nat {
    if options.sweepInterval == 0 then 1 else options.sweepInterval
  }

  /** One call moves the counters, and the one that completes the interval leaves no window that is over. */
  lemma OneCall(options: Options, l: Limiter, call: Call)
    requires l.Valid(options) && l.callsSinceSweep < Interval(options)
    ensures var after := Consumed(options, l, call);
            && after.rejected == l.rejected + (if AnswerFor(options, l.table.entries, call).allowed then 0 else 1)
            && after.callsSinceSweep == (if l.callsSinceSweep + 1 == Interval(options) then 0 else l.callsSinceSweep + 1)
            && (after.callsSinceSweep == 0 ==>
                  forall k | k in after.table.entries :: after.table.entries[k].resetAt > call.sweepAt)
  {
    hide Stored, NextBucket;
    CountedValid(options, l, call);
  }

  /**
   The limiter counts its denials, holds `maxBuckets` buckets at most, or one if that is zero, and after every
   `sweepInterval` calls holds none whose window is over.
   */
  lemma {:induction false} CountersLaw(options: Options, calls: seq<Call>)
    ensures var l := After(options, calls);
            && l.rejected == Denied(options, calls)
            && l.callsSinceSweep == |calls| % Interval(options)
            && |l.table.entries| <= (if options.maxBuckets == 0 then 1 else options.maxBuckets)
            && (calls != [] && |calls| % Interval(options) == 0 ==>
                  forall k | k in l.table.entries :: l.table.entries[k].resetAt > calls[|calls| - 1].sweepAt)
  {
    hide Consumed, AnswerFor, Interval;
    AsManyEntries(After(options, calls).table);
    IntervalIs(options);
    if calls == [] {
      Bits.DivModUnique(0, Interval(options), 0, 0);
    } else {
      var before, last := calls[..|calls| - 1], calls[|calls| - 1];
      CountersLaw(options, before);
      Bits.NextModulo(|before|, Interval(options));
      OneCall(options, After(options, before), last);
    }
  }

  lemma IntervalIs(options: Options)
    ensures Interval(options) > 0
  {
  }

  ghost function KeySet(keys: seq<nat>): set<nat> {
    set k | k in keys
  }

  lemma AsManyEntries(t: Table<Bucket>)
    requires t.Valid()
    ensures |t.entries| == |t.keys|
  {
    KeysAsSet(t.keys);
    assert t.entries.Keys == KeySet(t.keys);
  }

  lemma {:induction false} KeysAsSet(keys: seq<nat>)
    requires Distinct(keys)
    ensures |KeySet(keys)| == |keys|
  {
    if keys == [] {
      assert KeySet(keys) == {};
    } else {
      var front, last := keys[..|keys| - 1], keys[|keys| - 1];
      KeysAsSet(front);
      assert keys == front + [last] && last !in KeySet(front);
      assert KeySet(keys) == KeySet(front) + {last};
    }
  }

  // ----- How long to wait -----

  /** What the limiter answers the call that comes after `calls`. */
  ghost function AnswerNext(options: Options, calls: seq<Call>, call: Call): Answer {
    AnswerFor(options, After(options, calls).table.entries, call)
  }

  lemma NextAsUnbounded(options: Options, calls: seq<Call>, call: Call)
    requires Clocked(calls + [call]) && NeverEvicted(options, calls, call.key)
    ensures AnswerNext(options, calls, call) == AnswerFor(options, Unbounded(options, calls), call)
  {
    var all := calls + [call];
    assert all[..|calls|] == calls && forall i | 0 <= i < |calls| :: all[i] == calls[i];
    AnswersAsUnbounded(options, all, |calls|);
  }

  /** A full bucket is not touched by calls that come before it resets. */
  lemma {:induction false} FullStays(options: Options, calls: seq<Call>, more: seq<Call>, key: nat, bucket: Bucket)
    requires key in Unbounded(options, calls) && Unbounded(options, calls)[key] == bucket && bucket.count >= options.maxWrites
    requires forall i | 0 <= i < |more| :: more[i].now < bucket.resetAt
    ensures key in Unbounded(options, calls + more) && Unbounded(options, calls + more)[key] == bucket
  {
    if more == [] {
      assert calls + more == calls;
    } else {
      var front, last := more[..|more| - 1], more[|more| - 1];
      FullStays(options, calls, front, key, bucket);
      assert (calls + more)[..|calls + more| - 1] == calls + front && (calls + more)[|calls + more| - 1] == last;
    }
  }

  lemma DeniedBucket(options: Options, u: map<nat, Bucket>, call: Call)
    requires !AnswerFor(options, u, call).allowed
    ensures call.key in u && u[call.key].count >= options.maxWrites && u[call.key].resetAt > call.now
    ensures call.now + AnswerFor(options, u, call).retryAfterMs == u[call.key].resetAt
    ensures NextBucket(options, u, call) == u[call.key]
  {
  }

  /**
   The wait that a denied call is told is exact: whatever else is called meanwhile, no later call of its key passes
   before the wait is over, and the first one after it does.
   */
  lemma RetryAfterIsExact(options: Options, calls: seq<Call>, denied: Call, more: seq<Call>, later: Call)
    requires Clocked(calls + [denied] + more + [later]) && later.key == denied.key
    requires NeverEvicted(options, calls, denied.key) && NeverEvicted(options, calls + [denied] + more, denied.key)
    requires !AnswerNext(options, calls, denied).allowed
    requires forall i | 0 <= i < |more| :: more[i].now < denied.now + AnswerNext(options, calls, denied).retryAfterMs
    ensures AnswerNext(options, calls + [denied] + more, later).allowed
            <==> later.now >= denied.now + AnswerNext(options, calls, denied).retryAfterMs
    ensures AnswerNext(options, calls + [denied] + more, later).allowed ==>
              AnswerNext(options, calls + [denied] + more, later).retryAfterMs == 0
  {
    hide AnswerFor, NextBucket;
    ClockedFront(calls, denied, more, later);
    NextAsUnbounded(options, calls, denied);
    NextAsUnbounded(options, calls + [denied] + more, later);
    var u := Unbounded(options, calls);
    DeniedBucket(options, u, denied);
    assert (calls + [denied])[..|calls|] == calls;
    FullStays(options, calls + [denied], more, denied.key, u[denied.key]);
    FullDenies(options, Unbounded(options, calls + [denied] + more), later);
  }

  lemma FullDenies(options: Options, u: map<nat, Bucket>, call: Call)
    requires call.key in u && u[call.key].count >= options.maxWrites
    ensures AnswerFor(options, u, call).allowed <==> call.now >= u[call.key].resetAt
    ensures AnswerFor(options, u, call).allowed ==> AnswerFor(options, u, call).retryAfterMs == 0
  {
  }

  lemma ClockedFront(calls: seq<Call>, call: Call, more: seq<Call>, last: Call)
    requires Clocked(calls + [call] + more + [last])
    ensures Clocked(calls + [call])
  {
    var all, front := calls + [call] + more + [last], calls + [call];
    assert forall i | 0 <= i < |front| :: front[i] == all[i];
  }

  // ----- The limiter itself -----

  class FixedWindowRateLimiter {
    const options: Options
    var buckets: map<nat, Bucket>
    var keys: seq<nat>
    var callsSinceSweep: nat
    var rejectedCount: nat

    function State(): Limiter
      reads this
    {
      Limiter(Table(buckets, keys), callsSinceSweep, rejectedCount)
    }

    ghost predicate Valid()
      reads this
    {
      State().Valid(options)
    }

    constructor (options: Options)
      ensures Valid() && this.options == options && State() == EMPTY
    {
      this.options := options;
      buckets, keys, callsSinceSweep, rejectedCount := map[], [], 0, 0;
    }

    method Consume(call: Call) returns (answer: Answer)
      requires Valid()
      modifies this
      ensures Valid() && State() == Consumed(options, old(State()), call)
      ensures answer == AnswerFor(options, old(buckets), call)
    {
      ConsumedValid(options, State(), call);
      CountedValid(options, State(), call);
      answer := Count(call);
      MaybeSweep(call.sweepAt);
    }

    method Count(call: Call) returns (answer: Answer)
      requires Valid()
      modifies this
      ensures State() == Counted(options, old(State()), call)
      ensures answer == AnswerFor(options, old(buckets), call)
    {
      if call.key !in buckets || buckets[call.key].resetAt <= call.now {
        Track(call.key, Bucket(1, call.now + options.windowMs), call.trackAt);
        return Answer(true, 0);
      }
      var bucket := buckets[call.key];
      if bucket.count >= options.maxWrites {
        rejectedCount := rejectedCount + 1;
        return Answer(false, bucket.resetAt - call.now);
      }
      buckets := buckets[call.key := bucket.(count := bucket.count + 1)];
      return Answer(true, 0);
    }

    method MaybeSweep(now: int)
      requires Valid()
      modifies this
      ensures State() == MaybeSwept(options, old(State()), now)
    {
      callsSinceSweep := callsSinceSweep + 1;
      if callsSinceSweep >= options.sweepInterval {
        callsSinceSweep := 0;
        SweepExpired(now);
      }
    }

    method Track(key: nat, bucket: Bucket, now: int)
      requires Valid()
      modifies this
      ensures State() == Tracked(options, old(State()), key, bucket, now)
    {
      if key in buckets {
        buckets := buckets[key := bucket];
        return;
      }
      SweptValid(State().table, Live(now));
      if |keys| >= options.maxBuckets {
        SweepExpired(now);
      }
      if |keys| >= options.maxBuckets {
        EvictOldestWindow();
      }
      buckets := buckets[key := bucket];
      keys := keys + [key];
    }

    method SweepExpired(now: int)
      requires Valid()
      modifies this`buckets, this`keys
      ensures State().table == Swept(old(State()).table, Live(now))
    {
      ghost var was := State().table;
      var order := keys;
      keys := [];
      for i := 0 to |order|
        modifies this`buckets, this`keys
        invariant keys == Kept(was.entries, order[..i], Live(now))
        invariant buckets == Remaining(was.entries, order[..i], Live(now))
      {
        NextKey(was, i, Live(now));
        var key := order[i];
        if buckets[key].resetAt <= now {
          buckets := buckets - {key};
        } else {
          keys := keys + [key];
        }
      }
      assert order[..|order|] == order;
    }

    method EvictOldestWindow()
      requires State().table.Valid()
      modifies this`buckets, this`keys
      ensures State().table == Evicted(old(State()).table, Age())
    {
      ghost var was := State().table;
      if keys == [] {
        return;
      }
      OldestFirst(was, Age());
      var oldest := 0;
      for i := 1 to |keys|
        invariant buckets == was.entries && keys == was.keys
        invariant IsOldest(was, i, oldest, Age())
      {
        OldestNext(was, i, oldest, Age());
        if buckets[keys[i]].resetAt < buckets[keys[oldest]].resetAt {
          oldest := i;
        }
      }
      OldestIs(was, oldest, Age());
      buckets := buckets - {keys[oldest]};
      keys := keys[..oldest] + keys[oldest + 1..];
    }
  }
}
