/**
 * Session liveness: every API instance remembers live sessions for a few seconds in front of one
 * shared database. Times are milliseconds on one clock.
 */
module Sessions {
  import opened Bytes

  const LIVENESS_CACHE_MS := 10_000
  const ACTIVITY_WRITE_EVERY_MS := 60_000
  const ROTATION_GRACE_MS := 60_000
  const CACHE_MAX := 5_000
  const REFRESH_TTL_MS := 30 * 24 * 3600 * 1000

  /** The idle window: configuration clamps it to between five minutes and seven days. */
  type window = w: int | 5 * 60_000 <= w <= 7 * 24 * 60 * 60_000 witness 60 * 60_000

  datatype Reason = Idle | Expired | Revoked | Logout | Banned | NotFound

  datatype Session = Session(profile: nat, lastActivityAt: int, expiresAt: int, endedAt: Option<int>,
      endedReason: Reason)

  datatype Token = Token(session: nat, expiresAt: int, revokedAt: Option<int>)

  datatype Tables = Tables(sessions: map<nat, Session>, tokens: map<nat, Token>)

  datatype Cached = Cached(profile: nat, idleDeadline: int, expiresAt: int, readAt: int)

  type Cache = map<nat, Cached>

  /** The answer to "is this session usable right now". */
  datatype Check = Live(profile: nat) | Dead(reason: Reason)

  // ── What each operation does to the tables and to one instance's cache ────

  predicate IsIdle(w: window, s: Session, now: int) { now - s.lastActivityAt > w }

  function IdleDeadline(w: window, s: Session): int { s.lastActivityAt + w }

  function Ended(s: Session, now: int, reason: Reason): Session {
    if s.endedAt.None? then s.(endedAt := Some(now), endedReason := reason) else s
  }

  /** `endSession`: end the row once, revoke its tokens, forget it here. */
  function EndTables(t: Tables, sid: nat, reason: Reason, now: int): Tables {
    Tables(
      map id | id in t.sessions :: if id == sid then Ended(t.sessions[id], now, reason) else t.sessions[id],
      map id | id in t.tokens ::
        if t.tokens[id].session == sid && t.tokens[id].revokedAt.None? then t.tokens[id].(revokedAt := Some(now))
        else t.tokens[id])
  }

  /**
   * What ending a session means: a row already ended keeps its time and reason, and one that was not gets
   * these; every token of the session is revoked, an earlier revocation keeping its time; nothing else changes.
   */
  ghost predicate IsEnded(t: Tables, t': Tables, sid: nat, reason: Reason, now: int) {
    && t'.sessions.Keys == t.sessions.Keys && t'.tokens.Keys == t.tokens.Keys
    && (forall id :: id in t.sessions && id != sid ==> t'.sessions[id] == t.sessions[id])
    && (sid in t.sessions && t.sessions[sid].endedAt.Some? ==> t'.sessions[sid] == t.sessions[sid])
    && (sid in t.sessions && t.sessions[sid].endedAt.None? ==>
          var s, s' := t.sessions[sid], t'.sessions[sid];
          && s'.endedAt == Some(now) && s'.endedReason == reason
          && (s'.profile, s'.lastActivityAt, s'.expiresAt) == (s.profile, s.lastActivityAt, s.expiresAt))
    && (forall id :: id in t.tokens && (t.tokens[id].session != sid || t.tokens[id].revokedAt.Some?) ==>
          t'.tokens[id] == t.tokens[id])
    && (forall id :: id in t.tokens && t.tokens[id].session == sid && t.tokens[id].revokedAt.None? ==>
          t'.tokens[id] == Token(sid, t.tokens[id].expiresAt, Some(now)))
  }

  /** That leaves one outcome. */
  lemma EndedOneWay(t: Tables, t': Tables, sid: nat, reason: Reason, now: int)
    ensures IsEnded(t, t', sid, reason, now) <==> t' == EndTables(t, sid, reason, now)
  {
    if IsEnded(t, t', sid, reason, now) {
      var e := EndTables(t, sid, reason, now);
      assert t'.sessions == e.sessions;
      assert t'.tokens == e.tokens;
    }
  }

  /** `remember`: a cache grown past its bound is emptied first. */
  function Remember(c: Cache, sid: nat, entry: Cached): Cache {
    (if |c| > CACHE_MAX then map[] else c)[sid := entry]
  }

  function EntryFor(w: window, s: Session, now: int): Cached {
    Cached(s.profile, IdleDeadline(w, s), s.expiresAt, now)
  }

  predicate Fresh(e: Cached, now: int) {
    now - e.readAt < LIVENESS_CACHE_MS && now < e.idleDeadline && now < e.expiresAt
  }

  function CheckFn(w: window, t: Tables, c: Cache, sid: nat, now: int): (Tables, Cache, Check) {
    if sid in c && Fresh(c[sid], now) then (t, c, Live(c[sid].profile))
    else if sid !in t.sessions then (t, c - {sid}, Dead(NotFound))
    else
      var s := t.sessions[sid];
      if s.endedAt.Some? then (t, c - {sid}, Dead(s.endedReason))
      else if s.expiresAt <= now then (EndTables(t, sid, Expired, now), c - {sid}, Dead(Expired))
      else if IsIdle(w, s, now) then (EndTables(t, sid, Idle, now), c - {sid}, Dead(Idle))
      else (t, Remember(c, sid, EntryFor(w, s, now)), Live(s.profile))
  }

  function TouchFn(w: window, t: Tables, c: Cache, sid: nat, now: int): (Tables, Cache, Check) {
    var (t1, c1, state) := CheckFn(w, t, c, sid, now);
    if state.Dead? then (t1, c1, state)
    else if sid in c1 && now - (c1[sid].idleDeadline - w) < ACTIVITY_WRITE_EVERY_MS then (t1, c1, Live(c1[sid].profile))
    else if sid !in t1.sessions then (t1, c1, Dead(NotFound))
    else
      var s := t1.sessions[sid].(lastActivityAt := now);
      (t1.(sessions := t1.sessions[sid := s]), Remember(c1, sid, EntryFor(w, s, now)), Live(s.profile))
  }

  function RotateFn(w: window, t: Tables, c: Cache, token: nat, now: int): (Tables, Cache, Check) {
    if token !in t.tokens then (t, c, Dead(NotFound))
    else
      var row := t.tokens[token];
      if row.expiresAt < now then (t, c, Dead(NotFound))
      else if row.revokedAt.Some? && now - row.revokedAt.value > ROTATION_GRACE_MS then
        (EndTables(t, row.session, Revoked, now), c - {row.session}, Dead(NotFound))
      else
        var (t1, c1, state) := CheckFn(w, t, c, row.session, now);
        if state.Dead? || row.revokedAt.Some? then (t1, c1, state)
        else (t1.(tokens := t1.tokens[token := row.(revokedAt := Some(now))]), c1, state)
  }

  // ── The nightly job ───────────────────────────────────────────────────────

  /** Idle for longer than the window, or expired. */
  predicate IsStale(w: window, s: Session, now: int) { IsIdle(w, s, now) || s.expiresAt < now }

  /** What the job reads first: stale sessions nobody has ended. */
  function StaleSessions(w: window, t: Tables, now: int): set<nat> {
    set sid | sid in t.sessions && t.sessions[sid].endedAt.None? && IsStale(w, t.sessions[sid], now)
  }

  /** What it then writes for each: unlike `endSession`, whether or not the row has ended meanwhile. */
  function Swept(s: Session, now: int): Session {
    s.(endedAt := Some(now), endedReason := if s.expiresAt < now then Expired else Idle)
  }

  function Retired(k: Token, now: int): Token {
    if k.revokedAt.None? then k.(revokedAt := Some(now)) else k
  }

  function SweepTables(t: Tables, listed: set<nat>, now: int): Tables {
    Tables(
      map id | id in t.sessions :: if id in listed then Swept(t.sessions[id], now) else t.sessions[id],
      map id | id in t.tokens :: if t.tokens[id].session in listed then Retired(t.tokens[id], now) else t.tokens[id])
  }

  // ── The instances ─────────────────────────────────────────────────────────

  class Database {
    var tables: Tables

    constructor ()
      ensures tables == Tables(map[], map[])
    {
      tables := Tables(map[], map[]);
    }
  }

  /** One API instance, with its private cache. */
  class Api {
    const w: window
    const db: Database
    var cache: Cache

    constructor (w: window, db: Database)
      ensures this.w == w && this.db == db && cache == map[]
    {
      this.w, this.db, cache := w, db, map[];
    }

    method EndSession(sid: nat, reason: Reason, now: int)
      modifies this, db
      ensures IsEnded(old(db.tables), db.tables, sid, reason, now)
      ensures sid !in cache && forall id :: id in old(cache) && id != sid ==> id in cache && cache[id] == old(cache)[id]
      ensures cache.Keys <= old(cache).Keys
    {
      EndedOneWay(db.tables, EndTables(db.tables, sid, reason, now), sid, reason, now);
      db.tables := EndTables(db.tables, sid, reason, now);
      cache := cache - {sid};
    }

    /** The two tables and the cache, as the specifications of the routes name them. */
    lemma EndedHere(t: Tables, c: Cache, sid: nat, reason: Reason, now: int)
      requires IsEnded(t, db.tables, sid, reason, now)
      requires sid !in cache && cache.Keys <= c.Keys && forall id :: id in c && id != sid ==>
        id in cache && cache[id] == c[id]
      ensures db.tables == EndTables(t, sid, reason, now) && cache == c - {sid}
    {
      EndedOneWay(t, db.tables, sid, reason, now);
    }

    method CheckSession(sid: nat, now: int) returns (r: Check)
      modifies this, db
      ensures (db.tables, cache, r) == CheckFn(w, old(db.tables), old(cache), sid, now)
    {
      if sid in cache && Fresh(cache[sid], now) {
        return Live(cache[sid].profile);
      }
      if sid !in db.tables.sessions || db.tables.sessions[sid].endedAt.Some? {
        cache := cache - {sid};
        return Dead(if sid in db.tables.sessions then db.tables.sessions[sid].endedReason else NotFound);
      }
      var session := db.tables.sessions[sid];
      if session.expiresAt <= now {
        EndSession(sid, Expired, now);
        EndedHere(old(db.tables), old(cache), sid, Expired, now);
        return Dead(Expired);
      }
      if IsIdle(w, session, now) {
        EndSession(sid, Idle, now);
        EndedHere(old(db.tables), old(cache), sid, Idle, now);
        return Dead(Idle);
      }
      cache := Remember(cache, sid, EntryFor(w, session, now));
      return Live(session.profile);
    }

    method TouchSession(sid: nat, now: int) returns (r: Check)
      modifies this, db
      ensures (db.tables, cache, r) == TouchFn(w, old(db.tables), old(cache), sid, now)
    {
      r := CheckSession(sid, now);
      if r.Dead? {
        return;
      }
      if sid in cache && now - (cache[sid].idleDeadline - w) < ACTIVITY_WRITE_EVERY_MS {
        return Live(cache[sid].profile);
      }
      if sid !in db.tables.sessions {
        return Dead(NotFound);
      }
      var session := db.tables.sessions[sid].(lastActivityAt := now);
      db.tables := db.tables.(sessions := db.tables.sessions[sid := session]);
      cache := Remember(cache, sid, EntryFor(w, session, now));
      return Live(session.profile);
    }

    method RotateRefreshToken(presented: nat, now: int) returns (r: Check)
      modifies this, db
      ensures (db.tables, cache, r) == RotateFn(w, old(db.tables), old(cache), presented, now)
    {
      if presented !in db.tables.tokens {
        return Dead(NotFound);
      }
      var row := db.tables.tokens[presented];
      if row.expiresAt < now {
        return Dead(NotFound);
      }
      if row.revokedAt.Some? && now - row.revokedAt.value > ROTATION_GRACE_MS {
        EndSession(row.session, Revoked, now);
        EndedHere(old(db.tables), old(cache), row.session, Revoked, now);
        return Dead(NotFound);
      }
      r := CheckSession(row.session, now);
      if r.Live? && row.revokedAt.None? {
        db.tables := db.tables.(tokens := db.tables.tokens[presented := row.(revokedAt := Some(now))]);
      }
    }
  }

  /** The job's writes for what it read: the idle rows, then the expired ones, then the tokens of both. */
  method EndListed(db: Database, listed: set<nat>, now: int)
    modifies db
    ensures db.tables == SweepTables(old(db.tables), listed, now)
  {
    var t := db.tables;
    var expired := set sid | sid in listed && sid in t.sessions && t.sessions[sid].expiresAt < now;
    EndMany(db, listed - expired, Idle, now);
    EndMany(db, expired, Expired, now);
    db.tables := db.tables.(tokens := map id | id in db.tables.tokens ::
      if db.tables.tokens[id].session in listed then Retired(db.tables.tokens[id], now) else db.tables.tokens[id]);
    assert db.tables.sessions == SweepTables(t, listed, now).sessions;
    assert db.tables.tokens == SweepTables(t, listed, now).tokens;
  }

  /** `updateMany` on sessions: the rows named, and no others. */
  method EndMany(db: Database, ids: set<nat>, reason: Reason, now: int)
    modifies db
    ensures db.tables.tokens == old(db.tables).tokens && db.tables.sessions.Keys == old(db.tables).sessions.Keys
    ensures forall id :: id in old(db.tables).sessions ==>
      var s := old(db.tables).sessions[id];
      db.tables.sessions[id] == if id in ids then s.(endedAt := Some(now), endedReason := reason) else s
  {
    db.tables := db.tables.(sessions := map id | id in db.tables.sessions ::
      var s := db.tables.sessions[id];
      if id in ids then s.(endedAt := Some(now), endedReason := reason) else s);
  }
}
