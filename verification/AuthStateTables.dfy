/** The auth-state tables of the SQLite store (internal/database/sqlite.go): sessions,
    OAuth states and device authorizations, with expiry checked in two ways. Lookups parse
    the timestamp and compare instants; the cleanup compares timestamps as texts. */
module AuthStateTables {
  import opened Prelude
  import opened ByteStrings
  import opened AuthTime

  /** `kind` is empty in the tables that have none. */
  datatype Row = Row(expiresAt: string, kind: string, payload: string)

  datatype Found = Found(expiresAt: int, payload: string)

  type Rows = map<string, Row>

  /** A zero expiry means none. */
  predicate Expired(row: Row, now: int) {
    var e := ParseAuthTime(row.expiresAt);
    e != ZERO_TIME && now > e
  }

  /** GetSessionByTokenHash, GetDeviceAuthByDeviceCode. */
  function Lookup(rows: Rows, key: string, now: int): Option<Found> {
    if key !in rows || Expired(rows[key], now) then None
    else Some(Found(ParseAuthTime(rows[key].expiresAt), rows[key].payload))
  }

  /** ConsumeOAuthState: read and delete in one statement, then the expiry check. */
  function Consumed(rows: Rows, key: string, kind: string, now: int): (Rows, Option<Found>) {
    if key in rows && rows[key].kind == kind then (rows - {key}, Lookup(rows, key, now)) else (rows, None)
  }

  predicate Deletable(row: Row, now: int)
    requires InRange(now)
  {
    Less(row.expiresAt, FormatAuthTime(now))
  }

  /** What DeleteExpiredSessions and its siblings leave. */
  function Cleaned(rows: Rows, now: int): Rows
    requires InRange(now)
  {
    NotBefore(rows, FormatAuthTime(now))
  }

  function NotBefore(rows: Rows, cutoff: string): Rows {
    map key | key in rows && !Less(rows[key].expiresAt, cutoff) :: rows[key]
  }

  class AuthTable {
    var rows: Rows

    constructor ()
      ensures rows == map[]
    {
      rows := map[];
    }

    method Create(key: string, kind: string, expiresAt: int, payload: string) returns (ok: bool)
      requires InRange(expiresAt)
      modifies this
      ensures ok <==> key != "" && expiresAt != ZERO_TIME && key !in old(rows)
      ensures rows == if ok then old(rows)[key := Row(FormatAuthTime(expiresAt), kind, payload)] else old(rows)
    {
      if key == "" || expiresAt == ZERO_TIME || key in rows {
        return false;
      }
      rows := rows[key := Row(FormatAuthTime(expiresAt), kind, payload)];
      ok := true;
    }

    method Get(key: string, now: int) returns (r: Option<Found>)
      ensures r == Lookup(rows, key, now)
    {
      if key !in rows {
        return None;
      }
      var e := ParseAuthTime(rows[key].expiresAt);
      if e != ZERO_TIME && now > e {
        return None;
      }
      r := Some(Found(e, rows[key].payload));
    }

    method Consume(key: string, kind: string, now: int) returns (r: Option<Found>)
      modifies this
      ensures (rows, r) == Consumed(old(rows), key, kind, now)
    {
      if key !in rows || rows[key].kind != kind {
        return None;
      }
      r := Get(key, now);
      rows := rows - {key};
    }

    /** UpdateDeviceAuth writes back what a lookup has read, with a new payload. */
    method Update(key: string, read: Found, payload: string) returns (ok: bool)
      requires InRange(read.expiresAt)
      modifies this
      ensures ok <==> key in old(rows)
      ensures rows == if ok then old(rows)[key := Row(FormatAuthTime(read.expiresAt), old(rows)[key].kind, payload)]
                      else old(rows)
    {
      if key !in rows {
        return false;
      }
      rows := rows[key := Row(FormatAuthTime(read.expiresAt), rows[key].kind, payload)];
      ok := true;
    }

    method DeleteExpired(now: int) returns (deleted: nat)
      requires InRange(now)
      modifies this
      ensures rows == Cleaned(old(rows), now)
      ensures deleted == |old(rows)| - |rows|
    {
      deleted := DeleteBefore(FormatAuthTime(now));
    }

    /** DELETE ... WHERE expires_at < cutoff. */
    method DeleteBefore(cutoff: string) returns (deleted: nat)
      modifies this
      ensures rows == NotBefore(old(rows), cutoff)
      ensures deleted == |old(rows)| - |rows|
    {
      deleted := 0;
      var rest := rows.Keys;
      ghost var rows0 := rows;
      while rest != {}
        invariant rest <= rows.Keys <= rows0.Keys
        invariant forall key :: key in rows0 ==>
                    && (key in rows <==> key in rest || !Less(rows0[key].expiresAt, cutoff))
                    && (key in rows ==> rows[key] == rows0[key])
        invariant deleted + |rows| == |rows0|
      {
        var key :| key in rest;
        if Less(rows[key].expiresAt, cutoff) {
          assert (rows - {key}).Keys == rows.Keys - {key};
          rows := rows - {key};
          deleted := deleted + 1;
        }
        rest := rest - {key};
      }
    }
  }

  // ----- Reading once -----

  /** A row that has been created is found as it was, its expiry cut to the millisecond,
      until that has passed, and Go's zero time, the start of year 1, never passes. */
  lemma FoundUntilExpiry(rows: Rows, key: string, kind: string, e: int, payload: string, now: int)
    requires InRange(e)
    ensures var created := rows[key := Row(FormatAuthTime(e), kind, payload)];
            var expiry := e / 1_000_000 * 1_000_000;
            var stays := now <= expiry || expiry == 31_622_400_000_000_000;
            var found := if stays then Some(Found(expiry, payload)) else None;
            && Lookup(created, key, now) == found
            && Consumed(created, key, kind, now) == (created - {key}, found)
  {
    ParseUndoesFormat(e);
  }

  /** A state is consumed at most once: when it has been found, or found expired, nobody finds
      it again, of whatever kind, and every other state is still there. */
  lemma ConsumedOnce(rows: Rows, key: string, kind: string, now: int, again: string, later: int)
    requires key in rows && rows[key].kind == kind
    ensures var rest := Consumed(rows, key, kind, now).0;
            && Consumed(rest, key, again, later) == (rest, None) && Lookup(rest, key, later) == None
            && rest.Keys == rows.Keys - {key} && forall k :: k in rest ==> rest[k] == rows[k]
  {
    hide ParseAuthTime;
  }

  /** A state of another kind is neither found nor consumed. */
  lemma OtherKindIsLeft(rows: Rows, key: string, kind: string, now: int)
    requires key !in rows || rows[key].kind != kind
    ensures Consumed(rows, key, kind, now) == (rows, None)
  {
    hide ParseAuthTime;
  }

  // ----- The two expiry checks -----

  /** A deleted row was reported as not found, and would be from then on, exactly when its
      expiry does not truncate to the zero time. */
  lemma CleanupIsExact(row: Row, e: int, now: int)
    requires InRange(e) && InRange(now) && row.expiresAt == FormatAuthTime(e)
    requires Deletable(row, now)
    ensures (forall later :: later >= now ==> Expired(row, later)) <==> TruncateToMillis(e) != ZERO_TIME
  {
    TextOrderIsTimeOrder(e, now);
    ParseUndoesFormat(e);
    if TruncateToMillis(e) == ZERO_TIME {
      assert !Expired(row, now);
    }
  }

  /** Rows as Create and Update make them, with an expiry that is really in use. */
  ghost predicate Written(row: Row) {
    exists e :: InRange(e) && row.expiresAt == FormatAuthTime(e) && TruncateToMillis(e) != ZERO_TIME
  }

  lemma DeletedIsExpired(row: Row, now: int, later: int)
    requires InRange(now) && later >= now && Written(row) && Deletable(row, now)
    ensures Expired(row, later)
  {
    var e :| InRange(e) && row.expiresAt == FormatAuthTime(e) && TruncateToMillis(e) != ZERO_TIME;
    CleanupIsExact(row, e, now);
  }

  lemma LookupUnobserved(rows: Rows, now: int, key: string, later: int)
    requires InRange(now) && later >= now && (key in rows ==> Written(rows[key]))
    ensures Lookup(Cleaned(rows, now), key, later) == Lookup(rows, key, later)
  {
    if key in rows && Deletable(rows[key], now) {
      DeletedIsExpired(rows[key], now, later);
    }
  }

  lemma CleanedWithout(rows: Rows, cutoff: string, key: string)
    ensures NotBefore(rows - {key}, cutoff) == NotBefore(rows, cutoff) - {key}
    ensures key !in NotBefore(rows, cutoff) ==> NotBefore(rows - {key}, cutoff) == NotBefore(rows, cutoff)
  {}

  /** No lookup and no consume, now or later, can tell that the cleanup has run. */
  lemma CleanupUnobservable(rows: Rows, now: int, key: string, kind: string, later: int)
    requires InRange(now) && later >= now
    requires forall k :: k in rows ==> Written(rows[k])
    ensures Lookup(Cleaned(rows, now), key, later) == Lookup(rows, key, later)
    ensures var (cleaned, r) := Consumed(Cleaned(rows, now), key, kind, later);
            var (rows', r') := Consumed(rows, key, kind, later);
            r == r' && cleaned == Cleaned(rows', now)
  {
    hide FormatAuthTime;
    hide ParseAuthTime;
    LookupUnobserved(rows, now, key, later);
    CleanedWithout(rows, FormatAuthTime(now), key);
  }

  lemma TruncateOnce(millis: int)
    ensures millis * NANOS_PER_MILLI / NANOS_PER_MILLI == millis
  {}

  /** Writing back a row that was read keeps its timestamp text. */
  lemma RewriteKeepsText(e: int)
    requires InRange(e)
    ensures InRange(ParseAuthTime(FormatAuthTime(e)))
    ensures FormatAuthTime(ParseAuthTime(FormatAuthTime(e))) == FormatAuthTime(e)
  {
    ParseUndoesFormat(e);
    TruncateOnce(e / NANOS_PER_MILLI);
    assert CivilOf(TruncateToMillis(e)) == CivilOf(e);
  }

  /** An expiry within the first millisecond of year 1 is accepted, never expires for a
      lookup, and is deleted by the cleanup. */
  lemma ZeroExpiryIsObservable(now: int)
    requires InRange(now) && TruncateToMillis(now) > ZERO_TIME
    ensures var e := ZERO_TIME + 1;
            && InRange(e) && e != ZERO_TIME
            && var rows := map["k" := Row(FormatAuthTime(e), "", "p")];
               Lookup(rows, "k", now).Some? && Lookup(Cleaned(rows, now), "k", now).None?
  {
    var e := ZERO_TIME + 1;
    assert InRange(e) by {
      YearStartMonotone(1, 10000);
    }
    assert TruncateToMillis(e) == ZERO_TIME;
    var row := Row(FormatAuthTime(e), "", "p");
    TextOrderIsTimeOrder(e, now);
    ParseUndoesFormat(e);
    assert Deletable(row, now);
  }
}
