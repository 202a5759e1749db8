/**
 The canonical form behind a payload's fingerprint (canonicalize in apps/api/src/idempotency/idempotency.ts).
 */
module Canonical {
  import opened Wrappers
  import Idempotency

  /** A payload: JSON, plus the two other values the canonical form knows. */
  datatype Json =
    | Undefined
    | Null
    | Bool(truth: bool)
    | Number(number: real)
    | Text(text: string)
    | Date(at: int)
    | Array(items: seq<Json>)
    | Object(entries: seq<Entry>)

  datatype Entry = Entry(key: string, value: Json)

  /** The order of keys that the collation gives, and the text of a date. */
  datatype Locale = Locale(less: (string, string) -> bool, iso: int -> string) {
    ghost predicate Ordered() {
      && (forall a, b :: less(a, b) || less(b, a) || a == b)
      && (forall a, b :: less(a, b) ==> !less(b, a))
      && (forall a, b, c :: less(a, b) && less(b, c) ==> less(a, c))
    }
  }

  /** No object has two entries with the same key. */
  ghost predicate WellFormed(value: Json) {
    match value
    case Array(items) => forall i | 0 <= i < |items| :: WellFormed(items[i])
    case Object(entries) =>
      && (forall i, j | 0 <= i < j < |entries| :: entries[i].key != entries[j].key)
      && (forall i | 0 <= i < |entries| :: WellFormed(entries[i].value))
    case _ => true
  }

  function Insert(l: Locale, entry: Entry, sorted: seq<Entry>): (r: seq<Entry>)
    ensures forall e :: e in r <==> e == entry || e in sorted
  {
    if sorted == [] then [entry]
    else if l.less(entry.key, sorted[0].key) then [entry] + sorted
    else [sorted[0]] + Insert(l, entry, sorted[1..])
  }

  function Sort(l: Locale, entries: seq<Entry>): (sorted: seq<Entry>)
    ensures forall e :: e in sorted <==> e in entries
  {
    if entries == [] then [] else Insert(l, entries[0], Sort(l, entries[1..]))
  }

  function Defined(entries: seq<Entry>): (defined: seq<Entry>)
    ensures forall e :: e in defined <==> e in entries && !e.value.Undefined?
  {
    if entries == [] then []
    else (if entries[0].value.Undefined? then [] else [entries[0]]) + Defined(entries[1..])
  }

  function Canon(l: Locale, value: Json): Json {
    match value
    case Array(items) => Array(seq(|items|, i requires 0 <= i < |items| => Canon(l, items[i])))
    case Date(at) => Text(l.iso(at))
    case Object(entries) =>
      var sorted := Sort(l, Defined(entries));
      Object(seq(|sorted|, i requires 0 <= i < |sorted| =>
        assert sorted[i] in entries;
        Entry(sorted[i].key, Canon(l, sorted[i].value))))
    case _ => value
  }

  // ----- What the canonical form forgets -----

  /** Equal but for the order of keys, undefined entries, and dates written as their text, at any depth. */
  ghost predicate Same(l: Locale, a: Json, b: Json)
    decreases a
  {
    match a
    case Array(items) =>
      && b.Array? && |items| == |b.items|
      && forall i | 0 <= i < |items| :: Same(l, items[i], b.items[i])
    case Object(entries) =>
      && b.Object?
      && (forall i | 0 <= i < |entries| && !entries[i].value.Undefined? ::
            exists j | 0 <= j < |b.entries| :: SameEntry(l, entries[i], b.entries[j]))
      && (forall j | 0 <= j < |b.entries| && !b.entries[j].value.Undefined? ::
            exists i | 0 <= i < |entries| :: SameEntry(l, entries[i], b.entries[j]))
    case Date(at) => (b.Date? && l.iso(b.at) == l.iso(at)) || b == Text(l.iso(at))
    case Text(text) => b == a || (b.Date? && l.iso(b.at) == text)
    case _ => b == a
  }

  ghost predicate SameEntry(l: Locale, e: Entry, f: Entry)
    decreases e
  {
    e.key == f.key && Same(l, e.value, f.value)
  }

  // ----- Sorted entries are determined by their elements -----

  ghost predicate Sorted(l: Locale, entries: seq<Entry>) {
    forall i, j | 0 <= i < j < |entries| :: l.less(entries[i].key, entries[j].key)
  }

  lemma {:induction false} InsertSorted(l: Locale, entry: Entry, sorted: seq<Entry>)
    requires l.Ordered() && Sorted(l, sorted) && forall e | e in sorted :: e.key != entry.key
    ensures Sorted(l, Insert(l, entry, sorted))
  {
    if sorted != [] && !l.less(entry.key, sorted[0].key) {
      var rest := Insert(l, entry, sorted[1..]);
      InsertSorted(l, entry, sorted[1..]);
      forall j | 0 <= j < |rest| ensures l.less(sorted[0].key, rest[j].key) {
        assert rest[j] in rest;
      }
    }
  }

  lemma {:induction false} SortSorted(l: Locale, entries: seq<Entry>)
    requires l.Ordered() && forall i, j | 0 <= i < j < |entries| :: entries[i].key != entries[j].key
    ensures Sorted(l, Sort(l, entries))
  {
    if entries != [] {
      SortSorted(l, entries[1..]);
      InsertSorted(l, entries[0], Sort(l, entries[1..]));
    }
  }

  lemma {:induction false} DefinedDistinct(entries: seq<Entry>)
    requires forall i, j | 0 <= i < j < |entries| :: entries[i].key != entries[j].key
    ensures forall i, j | 0 <= i < j < |Defined(entries)| :: Defined(entries)[i].key != Defined(entries)[j].key
  {
    if entries != [] {
      DefinedDistinct(entries[1..]);
      forall j | 0 <= j < |Defined(entries[1..])| ensures Defined(entries[1..])[j].key != entries[0].key {
        assert Defined(entries[1..])[j] in entries[1..];
      }
    }
  }

  lemma TailSubset(l: Locale, s: seq<Entry>, t: seq<Entry>)
    requires l.Ordered() && Sorted(l, s) && s != [] && t != [] && s[0] == t[0] && forall e | e in s :: e in t
    ensures forall e | e in s[1..] :: e in t[1..]
  {
    forall e | e in s[1..] ensures e in t[1..] {
      var i :| 0 < i < |s| && s[i] == e;
      assert l.less(s[0].key, s[i].key);
      assert e in t && e != t[0] && t == [t[0]] + t[1..];
    }
  }

  lemma {:induction false} SortedUnique(l: Locale, s: seq<Entry>, t: seq<Entry>)
    requires l.Ordered() && Sorted(l, s) && Sorted(l, t) && forall e :: e in s <==> e in t
    ensures s == t
  {
    assert s != [] ==> s[0] in s;
    assert t != [] ==> t[0] in t;
    if s != [] {
      assert s[0] in t && t[0] in s;
      assert s[0] == t[0];
      TailSubset(l, s, t);
      TailSubset(l, t, s);
      SortedUnique(l, s[1..], t[1..]);
    }
  }

  // ----- The canonical form is exact -----

  /** The i-th entry is defined and becomes `e`. */
  ghost predicate Becomes(l: Locale, entries: seq<Entry>, i: int, e: Entry) {
    0 <= i < |entries| && !entries[i].value.Undefined? && e == Entry(entries[i].key, Canon(l, entries[i].value))
  }

  lemma EntryKept(l: Locale, entries: seq<Entry>, i: int, e: Entry)
    requires Becomes(l, entries, i, e)
    ensures e in Canon(l, Object(entries)).entries
  {
    var sorted := Sort(l, Defined(entries));
    assert entries[i] in sorted;
    var k :| 0 <= k < |sorted| && sorted[k] == entries[i];
    assert Canon(l, Object(entries)).entries[k] == e;
  }

  lemma EntryOrigin(l: Locale, entries: seq<Entry>, e: Entry) returns (i: int)
    requires e in Canon(l, Object(entries)).entries
    ensures Becomes(l, entries, i, e)
  {
    var canon, sorted := Canon(l, Object(entries)).entries, Sort(l, Defined(entries));
    var k :| 0 <= k < |canon| && canon[k] == e;
    assert sorted[k] in entries;
    i :| 0 <= i < |entries| && entries[i] == sorted[k];
  }

  lemma CanonObjectSorted(l: Locale, entries: seq<Entry>)
    requires l.Ordered() && WellFormed(Object(entries))
    ensures Sorted(l, Canon(l, Object(entries)).entries)
  {
    DefinedDistinct(entries);
    SortSorted(l, Defined(entries));
  }

  ghost predicate Agree(l: Locale, e: Entry, f: Entry) {
    e.key == f.key && Canon(l, e.value) == Canon(l, f.value)
  }

  /** Each defined entry of `a` has an entry of `b` with the same key and the same canonical value. */
  ghost predicate Covered(l: Locale, a: seq<Entry>, b: seq<Entry>) {
    forall i | 0 <= i < |a| && !a[i].value.Undefined? :: exists j | 0 <= j < |b| :: Agree(l, a[i], b[j])
  }

  lemma CoveredIsSubset(l: Locale, a: seq<Entry>, b: seq<Entry>, e: Entry)
    requires Covered(l, a, b) && e in Canon(l, Object(a)).entries
    ensures e in Canon(l, Object(b)).entries
  {
    var i := EntryOrigin(l, a, e);
    var j :| 0 <= j < |b| && Agree(l, a[i], b[j]);
    EntryKept(l, b, j, e);
  }

  lemma SubsetIsCovered(l: Locale, a: seq<Entry>, b: seq<Entry>)
    requires Canon(l, Object(a)) == Canon(l, Object(b))
    ensures Covered(l, a, b)
  {
    forall i | 0 <= i < |a| && !a[i].value.Undefined? ensures exists j | 0 <= j < |b| :: Agree(l, a[i], b[j]) {
      var e := Entry(a[i].key, Canon(l, a[i].value));
      EntryKept(l, a, i, e);
      var j := EntryOrigin(l, b, e);
      assert Agree(l, a[i], b[j]);
    }
  }

  /** Two objects have the same canonical form exactly when their defined entries pair up. */
  lemma ObjectsAgree(l: Locale, a: seq<Entry>, b: seq<Entry>)
    requires l.Ordered() && WellFormed(Object(a)) && WellFormed(Object(b))
    ensures Canon(l, Object(a)) == Canon(l, Object(b)) <==> Covered(l, a, b) && Covered(l, b, a)
  {
    if Canon(l, Object(a)) == Canon(l, Object(b)) {
      SubsetIsCovered(l, a, b);
      SubsetIsCovered(l, b, a);
    }
    if Covered(l, a, b) && Covered(l, b, a) {
      var x, y := Canon(l, Object(a)).entries, Canon(l, Object(b)).entries;
      forall e ensures e in x <==> e in y {
        if e in x { CoveredIsSubset(l, a, b, e); }
        if e in y { CoveredIsSubset(l, b, a, e); }
      }
      CanonObjectSorted(l, a);
      CanonObjectSorted(l, b);
      SortedUnique(l, x, y);
    }
  }

  lemma SameObjects(l: Locale, a: seq<Entry>, b: seq<Entry>)
    requires forall i, j | 0 <= i < |a| && 0 <= j < |b| ::
               (SameEntry(l, a[i], b[j]) <==> Agree(l, a[i], b[j])) && (Agree(l, a[i], b[j]) <==> Agree(l, b[j], a[i]))
    ensures Same(l, Object(a), Object(b)) <==> Covered(l, a, b) && Covered(l, b, a)
  {
  }

  /** Two payloads have the same canonical form exactly when they are the same up to what it forgets. */
  lemma {:induction false} CanonIsExact(l: Locale, a: Json, b: Json)
    requires l.Ordered() && WellFormed(a) && WellFormed(b)
    ensures Canon(l, a) == Canon(l, b) <==> Same(l, a, b)
    decreases a
  {
    match a
    case Array(items) =>
      if b.Array? && |b.items| == |items| {
        forall i | 0 <= i < |items| ensures Canon(l, items[i]) == Canon(l, b.items[i]) <==> Same(l, items[i], b.items[i]) {
          CanonIsExact(l, items[i], b.items[i]);
        }
        ArraysAgree(l, items, b.items);
      } else if b.Array? {
        assert |Canon(l, a).items| == |items| && |Canon(l, b).items| == |b.items|;
      }
    case Object(entries) =>
      if b.Object? {
        forall i, j | 0 <= i < |entries| && 0 <= j < |b.entries|
          ensures SameEntry(l, entries[i], b.entries[j]) <==> Agree(l, entries[i], b.entries[j])
        {
          CanonIsExact(l, entries[i].value, b.entries[j].value);
        }
        SameObjects(l, entries, b.entries);
        ObjectsAgree(l, entries, b.entries);
      }
    case _ =>
  }

  lemma ArraysAgree(l: Locale, a: seq<Json>, b: seq<Json>)
    requires |a| == |b|
    ensures Canon(l, Array(a)) == Canon(l, Array(b)) <==> forall i | 0 <= i < |a| :: Canon(l, a[i]) == Canon(l, b[i])
  {
    var x, y := Canon(l, Array(a)).items, Canon(l, Array(b)).items;
    assert forall i | 0 <= i < |a| :: x[i] == Canon(l, a[i]) && y[i] == Canon(l, b[i]);
  }

  lemma {:induction false} CanonWellFormed(l: Locale, value: Json)
    requires l.Ordered() && WellFormed(value)
    ensures WellFormed(Canon(l, value))
  {
    match value
    case Array(items) =>
      forall i | 0 <= i < |items| ensures WellFormed(Canon(l, items[i])) {
        CanonWellFormed(l, items[i]);
      }
    case Object(entries) =>
      CanonObjectSorted(l, entries);
      var canon := Canon(l, value).entries;
      forall k | 0 <= k < |canon| ensures WellFormed(canon[k].value) {
        var i := EntryOrigin(l, entries, canon[k]);
        CanonWellFormed(l, entries[i].value);
      }
    case _ =>
  }

  /** The canonical form is one of the payloads it stands for. */
  lemma {:induction false} CanonIsSame(l: Locale, value: Json)
    requires l.Ordered() && WellFormed(value)
    ensures Same(l, value, Canon(l, value))
  {
    match value
    case Array(items) =>
      forall i | 0 <= i < |items| ensures Same(l, items[i], Canon(l, items[i])) {
        CanonIsSame(l, items[i]);
      }
    case Object(entries) =>
      var canon := Canon(l, value).entries;
      forall i, e | Becomes(l, entries, i, e) ensures SameEntry(l, entries[i], e) {
        CanonIsSame(l, entries[i].value);
      }
      CanonObjectIsSame(l, entries);
    case _ =>
  }

  lemma CanonObjectIsSame(l: Locale, entries: seq<Entry>)
    requires forall i, e | Becomes(l, entries, i, e) :: SameEntry(l, entries[i], e)
    ensures Same(l, Object(entries), Canon(l, Object(entries)))
  {
    var canon := Canon(l, Object(entries)).entries;
    forall i | 0 <= i < |entries| && !entries[i].value.Undefined?
      ensures exists j | 0 <= j < |canon| :: SameEntry(l, entries[i], canon[j])
    {
      var e := Entry(entries[i].key, Canon(l, entries[i].value));
      EntryKept(l, entries, i, e);
      var j :| 0 <= j < |canon| && canon[j] == e;
      assert SameEntry(l, entries[i], canon[j]);
    }
    forall j | 0 <= j < |canon| ensures exists i | 0 <= i < |entries| :: SameEntry(l, entries[i], canon[j]) {
      var i := EntryOrigin(l, entries, canon[j]);
      assert SameEntry(l, entries[i], canon[j]);
    }
  }

  /** Canonicalising twice changes nothing. */
  lemma CanonIsIdempotent(l: Locale, value: Json)
    requires l.Ordered() && WellFormed(value)
    ensures Canon(l, Canon(l, value)) == Canon(l, value)
  {
    CanonWellFormed(l, value);
    CanonIsSame(l, value);
    CanonIsExact(l, value, Canon(l, value));
  }

  /**
   A key that has done its work answers a later request, while its record lives, with the recorded body
   exactly when the two payloads are the same up to what the canonical form forgets, and refuses any other.
   */
  lemma RepeatIsRecognised<B>(l: Locale, records: map<nat, Idempotency.Record<Json, B>>, key: nat, a: Json, b: Json, body: B,
                              work: Option<B>, start: int, end: int, again: int)
    requires l.Ordered() && WellFormed(a) && WellFormed(b)
    requires key !in Idempotency.Live(records, start) && start <= end <= again <= end + Idempotency.RETENTION_MS
    ensures var after := Idempotency.RecordsAfter(records, key, Canon(l, a), Some(body), start, end);
            Idempotency.OutcomeOf(after, key, Canon(l, b), work, again)
            == if Same(l, a, b) then Idempotency.Replayed(body) else Idempotency.KeyReused
  {
    CanonIsExact(l, a, b);
  }
}
