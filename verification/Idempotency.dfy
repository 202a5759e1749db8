/**
 The server half of exactly-once commands (executeIdempotent): one record per key, kept for 24 hours,
 and the work of a request done only when its key has no live record.
 */
module Idempotency {
  import opened Wrappers

  const RETENTION_MS: int := 24 * 60 * 60 * 1000

  /** The fingerprint stands for the canonical payload; hashing is taken to be injective. */
  datatype Record<F, B> = Record(fingerprint: F, body: B, expiresAt: int)

  datatype Outcome<B> = Done(body: B) | Replayed(body: B) | KeyReused | WorkFailed

  function Live<F, B>(records: map<nat, Record<F, B>>, now: int): map<nat, Record<F, B>> {
    map k | k in records && records[k].expiresAt >= now :: records[k]
  }

  /**
   The records after a request that took its key's lock at `start` and, if it did its work, wrote its
   record at `end`. A request that throws rolls back, and so keeps even the expired records.
   */
  function RecordsAfter<F(==), B>(records: map<nat, Record<F, B>>, key: nat, fingerprint: F, work: Option<B>, start: int, end: int)
    : map<nat, Record<F, B>>
  {
    var live := Live(records, start);
    if key in live then (if live[key].fingerprint == fingerprint then live else records)
    else if work.None? then records
    else live[key := Record(fingerprint, work.value, end + RETENTION_MS)]
  }

  function OutcomeOf<F(==), B>(records: map<nat, Record<F, B>>, key: nat, fingerprint: F, work: Option<B>, start: int): Outcome<B> {
    var live := Live(records, start);
    if key in live then
      if live[key].fingerprint == fingerprint then Replayed(live[key].body) else KeyReused
    else if work.None? then WorkFailed
    else Done(work.value)
  }

  /**
   A key is answered from its record for the 24 hours after the work that wrote it, the last millisecond
   included, and only to the payload it was written for; then, or without a record, the work is done.
   Only work that is done writes anything, and no request touches a live record of another key; a request that is
   answered purges the records that have run out, one that throws keeps them.
   */
  lemma ExecutionLaw<F, B>(records: map<nat, Record<F, B>>, key: nat, fingerprint: F, work: Option<B>, start: int, end: int)
    ensures var after := RecordsAfter(records, key, fingerprint, work, start, end);
            var outcome := OutcomeOf(records, key, fingerprint, work, start);
            if key in records && start <= records[key].expiresAt then
              && key in after && after[key] == records[key]
              && outcome == if records[key].fingerprint == fingerprint then Replayed(records[key].body) else KeyReused
            else if work.None? then
              after == records && outcome == WorkFailed
            else
              && key in after && after[key] == Record(fingerprint, work.value, end + 86_400_000)
              && outcome == Done(work.value)
    ensures forall other | other != key ::
              var after := RecordsAfter(records, key, fingerprint, work, start, end);
              && (other in after ==> other in records && after[other] == records[other])
              && (other in records && start <= records[other].expiresAt ==> other in after)
              && (other in records && start > records[other].expiresAt ==>
                    (other in after <==> OutcomeOf(records, key, fingerprint, work, start) in {KeyReused, WorkFailed}))
  {
  }

  class IdempotencyRecords<F(==), B> {
    var records: map<nat, Record<F, B>>

    /** `work` is what the request's own transaction would return; None when it throws. */
    method ExecuteIdempotent(key: nat, fingerprint: F, work: Option<B>, start: int, end: int) returns (outcome: Outcome<B>)
      modifies this
      ensures records == RecordsAfter(old(records), key, fingerprint, work, start, end)
      ensures outcome == OutcomeOf(old(records), key, fingerprint, work, start)
    {
      var before := records;
      records := map k | k in records && !(records[k].expiresAt < start) :: records[k];
      if key in records {
        if records[key].fingerprint != fingerprint {
          records := before;
          return KeyReused;
        }
        return Replayed(records[key].body);
      }
      if work.None? {
        records := before;
        return WorkFailed;
      }
      records := records[key := Record(fingerprint, work.value, end + RETENTION_MS)];
      outcome := Done(work.value);
    }
  }
}
