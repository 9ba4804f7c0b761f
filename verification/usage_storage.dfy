/**
 * The daily usage ledger: a process-wide map from `identifier:YYYY-MM-DD` to
 * the seconds of call time used that day and the sessions that used them,
 * with a fixed daily allowance.
 *
 * The clock is a parameter: every operation that reads `new Date()` in the
 * original takes the ISO timestamp `isoNow` instead, and the retention sweep
 * takes its cutoff date.
 */
module UsageStorage {
  import opened JsStrings
  import opened IsoDates

  /** `MAX_DAILY_SECONDS`: the allowance per identifier per day. */
  const MAX_DAILY_SECONDS: real := 180.0

  /** One recorded session: the seconds charged and when they were recorded. */
  datatype Session = Session(duration: real, timestamp: string)

  /** What the ledger stores under one key. */
  datatype UsageRecord = UsageRecord(usedSeconds: real, sessions: seq<Session>)

  /** What `getUsage` returns. */
  datatype Usage = Usage(usedSeconds: real, remainingSeconds: real, sessions: seq<Session>)

  /** What `recordSession` returns. */
  datatype Totals = Totals(usedSeconds: real, remainingSeconds: real)

  /** What `reserveTime` returns. */
  datatype Reservation = Reservation(reservedSeconds: real, remainingSeconds: real)

  /** The record taken for a key the ledger does not hold. */
  const EmptyRecord: UsageRecord := UsageRecord(0.0, [])

  /** `getTodayKey`: the identifier, a colon, and the day part of the current ISO timestamp. */
  function TodayKey(identifier: string, isoNow: string): string {
    identifier + [':'] + DayOf(isoNow)
  }

  /** Keys are isolated by day and identifier: distinct (identifier, date) pairs get distinct keys. */
  lemma TodayKeyInjective(id1: string, d1: Date, t1: string, id2: string, d2: Date, t2: string)
    requires ValidDate(d1) && ValidDate(d2)
    requires TodayKey(id1, FormatDate(d1) + "T" + t1) == TodayKey(id2, FormatDate(d2) + "T" + t2)
    ensures id1 == id2 && d1 == d2
  {
    DayOfTimestamp(d1, t1);
    DayOfTimestamp(d2, t2);
    var k := TodayKey(id1, FormatDate(d1) + "T" + t1);
    assert FormatDate(d1) == k[|k| - 10..] == FormatDate(d2);
    if d1 != d2 { FormatDateInjective(d1, d2); }
    assert id1 == k[..|k| - 11] == id2;
  }

  function Min(a: real, b: real): real { if a <= b then a else b }

  /** `Math.max(0, MAX_DAILY_SECONDS - used)`: what is left of today's allowance. */
  function Remaining(used: real): (r: real)
    ensures r >= 0.0
    ensures used <= MAX_DAILY_SECONDS ==> used + r == MAX_DAILY_SECONDS
    ensures used >= MAX_DAILY_SECONDS ==> r == 0.0
  {
    if MAX_DAILY_SECONDS - used > 0.0 then MAX_DAILY_SECONDS - used else 0.0
  }

  /** `usageStore.get(key) || { usedSeconds: 0, sessions: [] }`. */
  function Lookup(entries: map<string, UsageRecord>, key: string): UsageRecord {
    if key in entries then entries[key] else EmptyRecord
  }

  /** The `getUsage` view of a record. */
  function View(rec: UsageRecord): Usage {
    Usage(rec.usedSeconds, Remaining(rec.usedSeconds), rec.sessions)
  }

  /** Total seconds of a session log. */
  function SumDurations(sessions: seq<Session>): real {
    if sessions == [] then 0.0
    else SumDurations(sessions[..|sessions| - 1]) + sessions[|sessions| - 1].duration
  }

  /** The ledger's invariant for one record: the log accounts for the total, and the total is within the allowance. */
  ghost predicate Consistent(rec: UsageRecord) {
    rec.usedSeconds == SumDurations(rec.sessions) && rec.usedSeconds <= MAX_DAILY_SECONDS
  }

  /**
   * The record after `recordSession` charges `duration`: the charge is the
   * request clamped to what remains, added to the total and appended to the log.
   *
   * The original computes the clamp as `Math.min(durationSeconds,
   * usage.remainingSeconds)`, but stored records have no `remainingSeconds`
   * field, so in JavaScript the charge is NaN (see `RecordAsWritten`). This is
   * the evident intent, the same clamp `reserveTime` computes.
   */
  function Charge(rec: UsageRecord, duration: real, isoNow: string): UsageRecord {
    var actual := Min(duration, Remaining(rec.usedSeconds));
    UsageRecord(rec.usedSeconds + actual, rec.sessions + [Session(actual, isoNow)])
  }

  /**
   * A charge appends exactly one session whose duration is what was added,
   * keeps the total equal to the log's sum and within the allowance, and for a
   * non-negative request never lowers the total.
   */
  lemma ChargeKeepsConsistent(rec: UsageRecord, duration: real, isoNow: string)
    requires Consistent(rec)
    ensures var after := Charge(rec, duration, isoNow);
      && Consistent(after)
      && |after.sessions| == |rec.sessions| + 1
      && after.sessions[..|rec.sessions|] == rec.sessions
      && after.sessions[|rec.sessions|].duration == after.usedSeconds - rec.usedSeconds
      && after.sessions[|rec.sessions|].timestamp == isoNow
      && (duration >= 0.0 ==> rec.usedSeconds <= after.usedSeconds)
  {
    var after := Charge(rec, duration, isoNow);
    assert after.sessions[..|after.sessions| - 1] == rec.sessions;
  }

  /** The record after a run of `recordSession` calls; each request carries its duration and timestamp. */
  function ChargeAll(rec: UsageRecord, requests: seq<Session>): UsageRecord
    decreases |requests|
  {
    if requests == [] then rec
    else ChargeAll(Charge(rec, requests[0].duration, requests[0].timestamp), requests[1..])
  }

  function SumRequested(requests: seq<Session>): real {
    if requests == [] then 0.0 else requests[0].duration + SumRequested(requests[1..])
  }

  predicate NonNegative(requests: seq<Session>) {
    forall i :: 0 <= i < |requests| ==> requests[i].duration >= 0.0
  }

  lemma {:induction false} SumRequestedNonNegative(requests: seq<Session>)
    requires NonNegative(requests)
    ensures SumRequested(requests) >= 0.0
  {
    if requests != [] { SumRequestedNonNegative(requests[1..]); }
  }

  /**
   * Non-negative charges are cumulative and capped: starting from a total
   * within the allowance, the total afterwards is the smaller of the old total
   * plus everything requested and the allowance.
   */
  lemma {:induction false} ChargeAllIsCappedSum(rec: UsageRecord, requests: seq<Session>)
    requires 0.0 <= rec.usedSeconds <= MAX_DAILY_SECONDS
    requires NonNegative(requests)
    ensures ChargeAll(rec, requests).usedSeconds == Min(rec.usedSeconds + SumRequested(requests), MAX_DAILY_SECONDS)
    decreases |requests|
  {
    if requests != [] {
      var next := Charge(rec, requests[0].duration, requests[0].timestamp);
      assert next.usedSeconds == Min(rec.usedSeconds + requests[0].duration, MAX_DAILY_SECONDS);
      ChargeAllIsCappedSum(next, requests[1..]);
      SumRequestedNonNegative(requests[1..]);
    }
  }

  /** From a fresh day, the total is the sum of the requests, capped at the allowance. */
  lemma FreshDayTotal(requests: seq<Session>)
    requires NonNegative(requests)
    ensures ChargeAll(EmptyRecord, requests).usedSeconds == Min(SumRequested(requests), MAX_DAILY_SECONDS)
  {
    ChargeAllIsCappedSum(EmptyRecord, requests);
  }

  /**
   * Charging one day's key leaves every other day's view unchanged: usage
   * recorded on one day does not affect what is reported on another.
   */
  lemma ChargeIsolatesDays(entries: map<string, UsageRecord>, identifier: string,
                           duration: real, isoNow: string, isoOther: string, otherId: string)
    requires DayOf(isoNow) != DayOf(isoOther) || identifier != otherId
    requires |DayOf(isoNow)| == |DayOf(isoOther)|
    ensures var key := TodayKey(identifier, isoNow);
      var after := entries[key := Charge(Lookup(entries, key), duration, isoNow)];
      View(Lookup(after, TodayKey(otherId, isoOther))) == View(Lookup(entries, TodayKey(otherId, isoOther)))
  {
    var k1, k2 := TodayKey(identifier, isoNow), TodayKey(otherId, isoOther);
    var n := |DayOf(isoNow)|;
    assert k1[|k1| - n..] == DayOf(isoNow) && k1[..|k1| - n - 1] == identifier;
    assert k2[|k2| - n..] == DayOf(isoOther) && k2[..|k2| - n - 1] == otherId;
    assert k1 != k2;
  }

  /**
   * `key.split(':')[1] < cutoffDate`: the sweep's test as written, on the
   * key's second colon-separated field (see `ColonIdentifierExpiresEarly`).
   */
  predicate Expired(key: string, cutoffDate: string) {
    var fields := Split(key, ':');
    |fields| >= 2 && LexLess(fields[1], cutoffDate)
  }


  /**
   * For an identifier without a colon the sweep's string test is a date
   * comparison: the key of date `d` is expired exactly when `d` is before the
   * cutoff date.
   */
  lemma ExpiredIsChronological(identifier: string, d: Date, time: string, cutoff: Date)
    requires ValidDate(d) && ValidDate(cutoff)
    requires ':' !in identifier
    ensures Expired(TodayKey(identifier, FormatDate(d) + "T" + time), FormatDate(cutoff)) <==> Before(d, cutoff)
  {
    DayOfTimestamp(d, time);
    assert TodayKey(identifier, FormatDate(d) + "T" + time) == Join([identifier, FormatDate(d)], ':');
    SplitJoin([identifier, FormatDate(d)], ':');
    FormatDateOrder(d, cutoff);
  }

  /**
   * As written, an identifier that itself contains colons (an IPv6 address
   * from `x-forwarded-for`) puts part of the address in the second field: for
   * `::1` that field is empty, so the key is swept whatever its date, even
   * today's.
   */
  lemma ColonIdentifierExpiresEarly(d: Date, time: string, cutoff: Date)
    requires ValidDate(d) && ValidDate(cutoff)
    ensures Expired(TodayKey("::1", FormatDate(d) + "T" + time), FormatDate(cutoff))
  {
    DayOfTimestamp(d, time);
    var f := FormatDate(d);
    assert Join(["1", f], ':') == "1" + [':'] + f;
    assert Join(["", "1", f], ':') == "" + [':'] + Join(["1", f], ':');
    assert Join(["", "", "1", f], ':') == "" + [':'] + Join(["", "1", f], ':');
    assert TodayKey("::1", f + "T" + time) == Join(["", "", "1", f], ':');
    SplitJoin(["", "", "1", FormatDate(d)], ':');
  }

  /** ... and for `2001:db8::1` the field is `db8`, which no date precedes, so the key is never swept. */
  lemma ColonIdentifierNeverExpires(d: Date, time: string, cutoff: Date)
    requires ValidDate(d) && ValidDate(cutoff)
    ensures !Expired(TodayKey("2001:db8::1", FormatDate(d) + "T" + time), FormatDate(cutoff))
  {
    DayOfTimestamp(d, time);
    var f := FormatDate(d);
    assert Join(["1", f], ':') == "1" + [':'] + f;
    assert Join(["", "1", f], ':') == "" + [':'] + Join(["1", f], ':');
    assert Join(["db8", "", "1", f], ':') == "db8" + [':'] + Join(["", "1", f], ':');
    assert Join(["2001", "db8", "", "1", f], ':') == "2001" + [':'] + Join(["db8", "", "1", f], ':');
    assert TodayKey("2001:db8::1", f + "T" + time) == Join(["2001", "db8", "", "1", f], ':');
    SplitJoin(["2001", "db8", "", "1", FormatDate(d)], ':');
    assert FormatDate(cutoff)[0] <= '9';
  }

  /** The evidently intended test: compare the key's last colon-separated field, its date. */
  predicate ExpiredByDay(key: string, cutoffDate: string) {
    var fields := Split(key, ':');
    LexLess(fields[|fields| - 1], cutoffDate)
  }

  /**
   * The ledger after the sweep: every key dated before the cutoff removed,
   * every other kept as it was. The date is read with the intended test.
   */
  function Sweep(entries: map<string, UsageRecord>, cutoffDate: string): map<string, UsageRecord> {
    map k | k in entries && !ExpiredByDay(k, cutoffDate) :: entries[k]
  }

  /** The last field of `a:b` is `b` when `b` has no colon, whatever `a` holds. */
  lemma SplitLastField(a: string, b: string, sep: char)
    requires sep !in b
    ensures var fields := Split(a + [sep] + b, sep);
      |fields| >= 2 && fields[|fields| - 1] == b
  {
    var parts := Split(a, sep);
    JoinSnoc(parts, b, sep);
    assert forall i :: 0 <= i < |parts + [b]| ==> sep !in (parts + [b])[i];
    SplitJoin(parts + [b], sep);
  }

  /** With the intended test, every key is swept exactly when its date is before the cutoff. */
  lemma ExpiredByDayIsChronological(identifier: string, d: Date, time: string, cutoff: Date)
    requires ValidDate(d) && ValidDate(cutoff)
    ensures ExpiredByDay(TodayKey(identifier, FormatDate(d) + "T" + time), FormatDate(cutoff)) <==> Before(d, cutoff)
  {
    DayOfTimestamp(d, time);
    SplitLastField(identifier, FormatDate(d), ':');
    FormatDateOrder(d, cutoff);
  }

  /** A JavaScript number as far as `recordSession`'s line 37 needs one: finite, or NaN. */
  datatype JsNumber = Finite(value: real) | NaN

  function JsMin(a: JsNumber, b: JsNumber): JsNumber {
    if a.NaN? || b.NaN? then NaN else Finite(Min(a.value, b.value))
  }

  function JsMax(a: JsNumber, b: JsNumber): JsNumber {
    if a.NaN? || b.NaN? then NaN else Finite(if a.value >= b.value then a.value else b.value)
  }

  function JsAdd(a: JsNumber, b: JsNumber): JsNumber {
    if a.NaN? || b.NaN? then NaN else Finite(a.value + b.value)
  }

  function JsSub(a: JsNumber, b: JsNumber): JsNumber {
    if a.NaN? || b.NaN? then NaN else Finite(a.value - b.value)
  }

  /**
   * `recordSession` as written: `usage.remainingSeconds` is read from a stored
   * record, which never has that field, so it is `undefined`, which `Math.min`
   * converts to NaN. Gives the new `usedSeconds` and `remainingSeconds`.
   */
  function RecordAsWritten(used: JsNumber, duration: real): (JsNumber, JsNumber) {
    var remainingField := NaN;
    var actual := JsMin(Finite(duration), remainingField);
    var newUsed := JsAdd(used, actual);
    (newUsed, JsMax(Finite(0.0), JsSub(Finite(MAX_DAILY_SECONDS), newUsed)))
  }

  /**
   * As written, the first recorded session of a day already turns the total
   * and the remainder into NaN, whatever was asked; since `NaN > 0` is false,
   * `canStartSession` is false for the rest of the day. The intended clamp
   * charges 100 of a fresh day's 180 seconds and leaves 80, so a session can
   * still start.
   */
  lemma RecordAsWrittenIsNaN(duration: real)
    ensures RecordAsWritten(Finite(0.0), duration) == (NaN, NaN)
    ensures var after := Charge(EmptyRecord, 100.0, "");
      after.usedSeconds == 100.0 && Remaining(after.usedSeconds) == 80.0
  {
  }

  /** The ledger: `usageStore`, a map from `identifier:YYYY-MM-DD` to that day's record. */
  class UsageStore {
    var entries: map<string, UsageRecord>

    /** Every stored record is consistent. */
    ghost predicate Valid()
      reads this
    {
      forall k :: k in entries ==> Consistent(entries[k])
    }

    /** `new Map()`: the empty ledger. */
    constructor ()
      ensures Valid() && entries == map[]
    {
      entries := map[];
    }

    /**
     * `getUsage`: today's total, remainder and session log; a missing record
     * reads as a fresh day. Nothing is stored.
     */
    method GetUsage(identifier: string, isoNow: string) returns (u: Usage)
      ensures u == View(Lookup(entries, TodayKey(identifier, isoNow)))
      ensures TodayKey(identifier, isoNow) !in entries ==> u == Usage(0.0, MAX_DAILY_SECONDS, [])
      ensures u.remainingSeconds >= 0.0
      ensures u.usedSeconds <= MAX_DAILY_SECONDS ==> u.usedSeconds + u.remainingSeconds == MAX_DAILY_SECONDS
    {
      var key := TodayKey(identifier, isoNow);
      var usage := if key in entries then entries[key] else UsageRecord(0.0, []);
      u := Usage(usage.usedSeconds, Remaining(usage.usedSeconds), usage.sessions);
    }

    /** `canStartSession`: whether any of today's allowance is left. */
    method CanStartSession(identifier: string, isoNow: string) returns (b: bool)
      ensures b <==> View(Lookup(entries, TodayKey(identifier, isoNow))).remainingSeconds > 0.0
      ensures b <==> Lookup(entries, TodayKey(identifier, isoNow)).usedSeconds < MAX_DAILY_SECONDS
    {
      var usage := GetUsage(identifier, isoNow);
      b := usage.remainingSeconds > 0.0;
    }

    /** `getRemainingTime`: the remainder `getUsage` reports. */
    method GetRemainingTime(identifier: string, isoNow: string) returns (r: real)
      ensures r == View(Lookup(entries, TodayKey(identifier, isoNow))).remainingSeconds
      ensures r >= 0.0
    {
      var usage := GetUsage(identifier, isoNow);
      r := usage.remainingSeconds;
    }

    /**
     * `recordSession` (with the intended clamp, see `Charge`): today's record
     * for the identifier is charged and written back; every other key is
     * untouched. Returns the new total and remainder.
     */
    method RecordSession(identifier: string, durationSeconds: real, isoNow: string) returns (t: Totals)
      requires Valid()
      modifies this
      ensures Valid()
      ensures var key := TodayKey(identifier, isoNow);
        entries == old(entries)[key := Charge(Lookup(old(entries), key), durationSeconds, isoNow)]
      ensures var rec := entries[TodayKey(identifier, isoNow)];
        t == Totals(rec.usedSeconds, Remaining(rec.usedSeconds))
      ensures t.usedSeconds <= MAX_DAILY_SECONDS && t.usedSeconds + t.remainingSeconds == MAX_DAILY_SECONDS
    {
      var key := TodayKey(identifier, isoNow);
      var usage := if key in entries then entries[key] else UsageRecord(0.0, []);
      ChargeKeepsConsistent(usage, durationSeconds, isoNow);
      var actualDuration := Min(durationSeconds, Remaining(usage.usedSeconds));
      usage := UsageRecord(usage.usedSeconds + actualDuration,
                           usage.sessions + [Session(actualDuration, isoNow)]);
      entries := entries[key := usage];
      t := Totals(usage.usedSeconds, Remaining(usage.usedSeconds));
    }

    /**
     * `reserveTime`: how much of a request today's remainder would grant, and
     * what would be left; advisory, nothing is stored.
     */
    method ReserveTime(identifier: string, requestedSeconds: real, isoNow: string) returns (r: Reservation)
      ensures var remaining := View(Lookup(entries, TodayKey(identifier, isoNow))).remainingSeconds;
        && r.reservedSeconds == Min(requestedSeconds, remaining)
        && r.reservedSeconds + r.remainingSeconds == remaining
        && (requestedSeconds >= 0.0 ==> 0.0 <= r.reservedSeconds <= remaining && r.remainingSeconds >= 0.0)
    {
      var key := TodayKey(identifier, isoNow);
      var usage := if key in entries then entries[key] else UsageRecord(0.0, []);
      var remaining := Remaining(usage.usedSeconds);
      var reserved := Min(requestedSeconds, remaining);
      r := Reservation(reserved, remaining - reserved);
    }

    /** `usageStore.delete(key)`: drop one key, keep the rest. */
    method Delete(key: string)
      requires Valid()
      modifies this
      ensures Valid()
      ensures entries == old(entries) - {key}
    {
      entries := entries - {key};
    }

    /**
     * `cleanup`: visit every key and delete those dated before the cutoff,
     * reading the date from the key's last field (see `ExpiredByDay`).
     */
    method Cleanup(cutoffDate: string)
      requires Valid()
      modifies this
      ensures Valid()
      ensures entries == Sweep(old(entries), cutoffDate)
    {
      ghost var original := entries;
      var pending := entries.Keys;
      while pending != {}
        invariant pending <= original.Keys && entries.Keys <= original.Keys
        invariant forall k :: k in pending ==> k in entries
        invariant forall k :: k in original && k !in pending ==> (k in entries <==> !ExpiredByDay(k, cutoffDate))
        invariant forall k :: k in entries ==> entries[k] == original[k]
        decreases pending
      {
        var key :| key in pending;
        if ExpiredByDay(key, cutoffDate) {
          entries := entries - {key};
        }
        pending := pending - {key};
      }
      assert entries.Keys == Sweep(original, cutoffDate).Keys;
    }
  }

  /** Reading twice with no write between gives the same answer, and leaves the ledger as it was. */
  method ReadTwice(store: UsageStore, identifier: string, isoNow: string) returns (first: Usage, second: Usage)
    ensures first == second
  {
    first := store.GetUsage(identifier, isoNow);
    second := store.GetUsage(identifier, isoNow);
  }
}
