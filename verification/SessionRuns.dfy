/** Every run of several API instances over one database. */
module SessionRuns {
  import opened Bytes
  import opened Sessions

  /**
   * What happened and when: `beats` holds each session's last accepted beat, or its start, and `listed` what each
   * running nightly job has read and not yet written.
   */
  datatype World = World(w: window, now: int, tables: Tables, caches: map<nat, Cache>, beats: map<nat, int>,
      listed: map<nat, set<nat>>)

  /** Why a caller ends a session; only the checks and the nightly job end one as idle. */
  type Ending = r: Reason | r != Idle witness Logout

  datatype Step =
    | Tick(ms: nat)
    | Start(sid: nat, profile: nat)
    | Issue(token: nat, sid: nat)
    | Check(instance: nat, sid: nat)
    | Beat(instance: nat, sid: nat)
    | Refresh(instance: nat, token: nat)
    | End(instance: nat, sid: nat, reason: Ending)
    | List(job: nat)
    | Sweep(job: nat)

  function Init(w: window): World { World(w, 0, Tables(map[], map[]), map[], map[], map[]) }

  function CacheOf(x: World, instance: nat): Cache {
    if instance in x.caches then x.caches[instance] else map[]
  }

  /** What a sweep writes to. */
  function SweptBy(x: World, step: Step): set<nat> {
    if step.Sweep? && step.job in x.listed then x.listed[step.job] else {}
  }

  /** The answer a step's caller receives, and the tables and cache it leaves. */
  function Outcome(x: World, step: Step): (Tables, Cache, Sessions.Check) {
    match step
    case Check(i, sid) => CheckFn(x.w, x.tables, CacheOf(x, i), sid, x.now)
    case Beat(i, sid) => TouchFn(x.w, x.tables, CacheOf(x, i), sid, x.now)
    case Refresh(i, token) => RotateFn(x.w, x.tables, CacheOf(x, i), token, x.now)
    case End(i, sid, reason) => (EndTables(x.tables, sid, reason, x.now), CacheOf(x, i) - {sid}, Dead(reason))
    case _ => (x.tables, map[], Dead(NotFound))
  }

  function Next(x: World, step: Step): World {
    match step
    case Tick(ms) => x.(now := x.now + ms)
    case Start(sid, profile) =>
      if sid in x.tables.sessions then x
      else
        var s := Session(profile, x.now, x.now + REFRESH_TTL_MS, None, NotFound);
        x.(tables := x.tables.(sessions := x.tables.sessions[sid := s]), beats := x.beats[sid := x.now])
    case Issue(token, sid) =>
      if token in x.tables.tokens then x
      else x.(tables := x.tables.(tokens := x.tables.tokens[token := Token(sid, x.now + REFRESH_TTL_MS, None)]))
    case List(job) => x.(listed := x.listed[job := StaleSessions(x.w, x.tables, x.now)])
    case Sweep(job) => x.(tables := SweepTables(x.tables, SweptBy(x, step), x.now), listed := x.listed - {job})
    case _ =>
      var (t, c, answer) := Outcome(x, step);
      x.(tables := t, caches := x.caches[step.instance := c],
         beats := if step.Beat? && answer.Live? then x.beats[step.sid := x.now] else x.beats)
  }

  function Run(x: World, steps: seq<Step>): World {
    if steps == [] then x else Next(Run(x, steps[..|steps| - 1]), steps[|steps| - 1])
  }

  /** A session's last accepted beat, or its start. */
  function LastBeat(x: World, sid: nat): int { if sid in x.beats then x.beats[sid] else 0 }

  /** The session a step asks about. */
  function Asked(x: World, step: Step): Option<nat> {
    match step
    case Check(_, sid) => Some(sid)
    case Beat(_, sid) => Some(sid)
    case Refresh(_, token) => if token in x.tables.tokens then Some(x.tables.tokens[token].session) else None
    case _ => None
  }

  // ── The invariant ─────────────────────────────────────────────────────────

  /**
   * What a remembered session may still claim. Once the session has ended, an entry read before
   * the end is left alone; the one beat that re-remembers it stamps its own time as the last
   * activity, which throttles any further one.
   */
  predicate EntryOk(w: window, now: int, s: Session, e: Cached) {
    && e.readAt <= now && e.expiresAt == s.expiresAt && e.profile == s.profile
    && e.idleDeadline - w <= s.lastActivityAt
    && (s.endedAt.Some? && e.readAt > s.endedAt.value ==>
      e.readAt < s.endedAt.value + LIVENESS_CACHE_MS && e.idleDeadline == e.readAt + w)
  }

  ghost predicate CacheOk(w: window, now: int, t: Tables, c: Cache) {
    forall sid :: sid in c ==> sid in t.sessions && EntryOk(w, now, t.sessions[sid], c[sid])
  }

  predicate RowOk(now: int, s: Session, beat: int) {
    && s.lastActivityAt <= now && (s.endedAt.Some? ==> s.endedAt.value <= now)
    && beat - ACTIVITY_WRITE_EVERY_MS < s.lastActivityAt <= beat <= now
  }

  ghost predicate RowsOk(now: int, t: Tables, beats: map<nat, int>) {
    && t.sessions.Keys == beats.Keys
    && forall sid :: sid in t.sessions ==> RowOk(now, t.sessions[sid], beats[sid])
  }

  /** Whatever a job has listed can no longer be used. */
  ghost predicate ListsOk(x: World) {
    forall job, sid :: job in x.listed && sid in x.listed[job] ==> StaleIn(x, sid)
  }

  predicate StaleIn(x: World, sid: nat) { sid in x.tables.sessions && IsStale(x.w, x.tables.sessions[sid], x.now) }

  ghost predicate RowsAndCachesOk(x: World) {
    && RowsOk(x.now, x.tables, x.beats)
    && forall i :: i in x.caches ==> CacheOk(x.w, x.now, x.tables, x.caches[i])
  }

  ghost predicate Inv(x: World) { RowsAndCachesOk(x) && ListsOk(x) }

  /** How one row may change while others' entries for it stay good. */
  predicate RowLater(now: int, s: Session, s': Session) {
    && s'.expiresAt == s.expiresAt && s.lastActivityAt <= s'.lastActivityAt && s'.profile == s.profile
    && (SameEnd(s, s') || s'.endedAt == Some(now))
  }

  predicate SameEnd(s: Session, s': Session) { s'.endedAt == s.endedAt && s'.endedReason == s.endedReason }

  /** Rows that had ended keep the time and the reason. */
  ghost predicate EndsKept(t: Tables, t': Tables, except: set<nat>) {
    forall id :: id in t.sessions && t.sessions[id].endedAt.Some? && id !in except ==>
      id in t'.sessions && SameEnd(t.sessions[id], t'.sessions[id])
  }

  ghost predicate Later(now: int, t: Tables, t': Tables) {
    && t.sessions.Keys <= t'.sessions.Keys
    && forall sid :: sid in t.sessions ==> RowLater(now, t.sessions[sid], t'.sessions[sid])
  }

  lemma CacheKept(w: window, now: int, t: Tables, t': Tables, c: Cache)
    requires CacheOk(w, now, t, c) && Later(now, t, t')
    ensures CacheOk(w, now, t', c)
  {
  }

  /** Rows that have not been touched since. */
  ghost predicate SameActivity(t: Tables, t': Tables, except: set<nat>) {
    forall id :: id in t.sessions && id !in except ==>
      id in t'.sessions && t'.sessions[id].lastActivityAt == t.sessions[id].lastActivityAt
  }

  /** Rows newly ended as idle were idle. */
  ghost predicate IdleRule(w: window, now: int, t: Tables, t': Tables) {
    forall id |
      id in t.sessions && t.sessions[id].endedAt.None? && id in t'.sessions && t'.sessions[id].endedAt.Some? ::
      t'.sessions[id].endedReason == Idle ==> IsIdle(w, t.sessions[id], now)
  }

  /** Everything one operation keeps, for the instance it runs on and for the rows. */
  ghost predicate Kept(w: window, now: int, t: Tables, t': Tables, c': Cache, beats': map<nat, int>, except: set<nat>) {
    RowsOk(now, t', beats') && Later(now, t, t') && CacheOk(w, now, t', c') && SameActivity(t, t', except)
    && IdleRule(w, now, t, t') && EndsKept(t, t', {})
  }

  lemma EndKeeps(w: window, now: int, t: Tables, c: Cache, sid: nat, reason: Reason, beats: map<nat, int>)
    requires RowsOk(now, t, beats) && CacheOk(w, now, t, c)
    requires reason != Idle || (sid in t.sessions && IsIdle(w, t.sessions[sid], now))
    ensures var t' := EndTables(t, sid, reason, now);
      && Kept(w, now, t, t', c - {sid}, beats, {})
      && (sid in t'.sessions ==> t'.sessions[sid].endedAt.Some?)
  {
    EndRows(w, now, t, EndTables(t, sid, reason, now), sid, reason, beats);
    CacheKept(w, now, t, EndTables(t, sid, reason, now), c - {sid});
  }

  /** One row ended, the others as they were. */
  ghost predicate OneEnded(now: int, t: Tables, t': Tables, sid: nat, reason: Reason) {
    && t'.sessions.Keys == t.sessions.Keys
    && forall id :: id in t.sessions ==>
      t'.sessions[id] == if id == sid then Ended(t.sessions[id], now, reason) else t.sessions[id]
  }

  lemma EndRows(w: window, now: int, t: Tables, t': Tables, sid: nat, reason: Reason, beats: map<nat, int>)
    requires RowsOk(now, t, beats) && t' == EndTables(t, sid, reason, now)
    requires reason != Idle || (sid in t.sessions && IsIdle(w, t.sessions[sid], now))
    ensures RowsOk(now, t', beats) && Later(now, t, t')
    ensures SameActivity(t, t', {}) && IdleRule(w, now, t, t') && EndsKept(t, t', {})
    ensures sid in t'.sessions ==> t'.sessions[sid].endedAt.Some?
  {
    assert OneEnded(now, t, t', sid, reason);
    RowsAfterEnd(now, t, t', sid, reason, beats);
    RulesAfterEnd(w, now, t, t', sid, reason);
  }

  lemma RowsAfterEnd(now: int, t: Tables, t': Tables, sid: nat, reason: Reason, beats: map<nat, int>)
    requires RowsOk(now, t, beats) && OneEnded(now, t, t', sid, reason)
    ensures RowsOk(now, t', beats) && Later(now, t, t')
  {
  }

  lemma RulesAfterEnd(w: window, now: int, t: Tables, t': Tables, sid: nat, reason: Reason)
    requires OneEnded(now, t, t', sid, reason)
    requires reason != Idle || (sid in t.sessions && IsIdle(w, t.sessions[sid], now))
    ensures SameActivity(t, t', {}) && IdleRule(w, now, t, t') && EndsKept(t, t', {})
    ensures sid in t'.sessions ==> t'.sessions[sid].endedAt.Some?
  {
  }

  lemma NothingKeeps(w: window, now: int, t: Tables, c: Cache, c': Cache, beats: map<nat, int>)
    requires RowsOk(now, t, beats) && CacheOk(w, now, t, c) && c'.Keys <= c.Keys && forall sid :: sid in c' ==>
      c'[sid] == c[sid]
    ensures Kept(w, now, t, t, c', beats, {})
  {
  }

  lemma CheckKeeps(w: window, now: int, t: Tables, c: Cache, sid: nat, beats: map<nat, int>)
    requires RowsOk(now, t, beats) && CacheOk(w, now, t, c)
    ensures var (t', c', answer) := CheckFn(w, t, c, sid, now);
      && Kept(w, now, t, t', c', beats, {})
      && (answer.Live? ==> t' == t && sid in c' && sid in t.sessions)
      && (answer.Dead? ==> sid !in t'.sessions || t'.sessions[sid].endedAt.Some?)
  {
    if sid in c && Fresh(c[sid], now) {
      NothingKeeps(w, now, t, c, c, beats);
    } else if sid !in t.sessions || t.sessions[sid].endedAt.Some? {
      NothingKeeps(w, now, t, c, c - {sid}, beats);
    } else if t.sessions[sid].expiresAt <= now {
      EndKeeps(w, now, t, c, sid, Expired, beats);
    } else if IsIdle(w, t.sessions[sid], now) {
      EndKeeps(w, now, t, c, sid, Idle, beats);
    } else {
      NothingKeeps(w, now, t, c, c, beats);
      RememberKeeps(w, now, t, c, sid, EntryFor(w, t.sessions[sid], now));
    }
  }

  lemma RememberKeeps(w: window, now: int, t: Tables, c: Cache, sid: nat, e: Cached)
    requires CacheOk(w, now, t, c) && sid in t.sessions && EntryOk(w, now, t.sessions[sid], e)
    ensures CacheOk(w, now, t, Remember(c, sid, e)) && sid in Remember(c, sid, e)
  {
  }

  lemma TouchKeeps(w: window, now: int, t: Tables, c: Cache, sid: nat, beats: map<nat, int>)
    requires RowsOk(now, t, beats) && CacheOk(w, now, t, c)
    ensures var (t', c', answer) := TouchFn(w, t, c, sid, now);
      && Kept(w, now, t, t', c', if answer.Live? then beats[sid := now] else beats, {sid})
      && (answer.Live? ==> sid in t'.sessions && now - ACTIVITY_WRITE_EVERY_MS < t'.sessions[sid].lastActivityAt <= now)
      && (answer.Dead? ==> sid !in t'.sessions || t'.sessions[sid].endedAt.Some?)
  {
    CheckKeeps(w, now, t, c, sid, beats);
    var (t1, c1, state) := CheckFn(w, t, c, sid, now);
    if state.Live? && now - (c1[sid].idleDeadline - w) >= ACTIVITY_WRITE_EVERY_MS {
      WriteKeeps(w, now, t, c1, sid, beats);
    }
  }

  /** The activity write: at most one per stale entry, because it stamps its own time. */
  lemma WriteKeeps(w: window, now: int, t: Tables, c: Cache, sid: nat, beats: map<nat, int>)
    requires RowsOk(now, t, beats) && CacheOk(w, now, t, c) && sid in c && now - c[sid].readAt < LIVENESS_CACHE_MS
    requires now - (c[sid].idleDeadline - w) >= ACTIVITY_WRITE_EVERY_MS
    ensures var s := t.sessions[sid].(lastActivityAt := now);
      var t' := t.(sessions := t.sessions[sid := s]);
      Kept(w, now, t, t', Remember(c, sid, EntryFor(w, s, now)), beats[sid := now], {sid})
  {
    var s := t.sessions[sid].(lastActivityAt := now);
    var t' := t.(sessions := t.sessions[sid := s]);
    WriteMovesOne(now, t, t', sid, beats);
    CacheKept(w, now, t, t', c);
    assert EntryOk(w, now, t.sessions[sid], c[sid]);
    RememberKeeps(w, now, t', c, sid, EntryFor(w, s, now));
  }

  lemma WriteMovesOne(now: int, t: Tables, t': Tables, sid: nat, beats: map<nat, int>)
    requires RowsOk(now, t, beats) && sid in t.sessions
    requires t' == t.(sessions := t.sessions[sid := t.sessions[sid].(lastActivityAt := now)])
    ensures RowsOk(now, t', beats[sid := now]) && Later(now, t, t') && SameActivity(t, t', {sid})
    ensures forall id :: id in t.sessions ==> SameEnd(t.sessions[id], t'.sessions[id])
  {
  }

  lemma RotateKeeps(w: window, now: int, t: Tables, c: Cache, token: nat, beats: map<nat, int>)
    requires RowsOk(now, t, beats) && CacheOk(w, now, t, c)
    ensures var (t', c', answer) := RotateFn(w, t, c, token, now);
      Kept(w, now, t, t', c', beats, {})
  {
    NothingKeeps(w, now, t, c, c, beats);
    if token in t.tokens && t.tokens[token].expiresAt >= now {
      var row := t.tokens[token];
      if row.revokedAt.Some? && now - row.revokedAt.value > ROTATION_GRACE_MS {
        EndKeeps(w, now, t, c, row.session, Revoked, beats);
      } else {
        CheckKeeps(w, now, t, c, row.session, beats);
        var (t1, c1, state) := CheckFn(w, t, c, row.session, now);
        TokensApart(w, now, t, t1, t1.(tokens := t1.tokens[token := row.(revokedAt := Some(now))]), c1, beats);
      }
    }
  }

  lemma TokensApart(w: window, now: int, t: Tables, t1: Tables, t2: Tables, c: Cache, beats: map<nat, int>)
    requires Kept(w, now, t, t1, c, beats, {}) && t2.sessions == t1.sessions
    ensures Kept(w, now, t, t2, c, beats, {})
  {
  }

  /** What every step an instance serves keeps. */
  lemma OutcomeKeeps(x: World, step: Step)
    requires Inv(x) && (step.Check? || step.Beat? || step.Refresh? || step.End?)
    ensures var (t, c, answer) := Outcome(x, step);
      Kept(x.w, x.now, x.tables, t, c, Next(x, step).beats, if step.Beat? then {step.sid} else {})
  {
    assert CacheOk(x.w, x.now, x.tables, CacheOf(x, step.instance));
    match step {
      case Check(i, sid) => CheckKeeps(x.w, x.now, x.tables, CacheOf(x, i), sid, x.beats);
      case Beat(i, sid) => TouchKeeps(x.w, x.now, x.tables, CacheOf(x, i), sid, x.beats);
      case Refresh(i, token) => RotateKeeps(x.w, x.now, x.tables, CacheOf(x, i), token, x.beats);
      case End(i, sid, reason) => EndKeeps(x.w, x.now, x.tables, CacheOf(x, i), sid, reason, x.beats);
    }
  }

  predicate Quiet(step: Step) { step.Tick? || step.Start? || step.Issue? || step.List? }

  lemma NextKeeps(x: World, step: Step)
    requires Inv(x)
    ensures Inv(Next(x, step)) && Later(x.now, x.tables, Next(x, step).tables)
    ensures SameActivity(x.tables, Next(x, step).tables, if step.Beat? then {step.sid} else {})
    ensures EndsKept(x.tables, Next(x, step).tables, SweptBy(x, step))
    ensures forall sid :: StaleIn(x, sid) ==> StaleIn(Next(x, step), sid)
  {
    NextKeepsRows(x, step);
    forall sid | StaleIn(x, sid)
      ensures StaleIn(Next(x, step), sid)
    {
      StaleStays(x, step, sid);
    }
  }

  lemma NextKeepsRows(x: World, step: Step)
    requires Inv(x)
    ensures RowsAndCachesOk(Next(x, step)) && Later(x.now, x.tables, Next(x, step).tables)
    ensures SameActivity(x.tables, Next(x, step).tables, if step.Beat? then {step.sid} else {})
    ensures EndsKept(x.tables, Next(x, step).tables, SweptBy(x, step))
  {
    if Quiet(step) {
      QuietKeeps(x, step);
    } else if step.Sweep? {
      SweepKeeps(x, SweptBy(x, step));
      CachesKept(x, Next(x, step).tables);
    } else {
      OutcomeKeeps(x, step);
      CachesKept(x, Outcome(x, step).0);
    }
  }

  lemma CachesKept(x: World, t: Tables)
    requires Inv(x) && Later(x.now, x.tables, t)
    ensures forall i :: i in x.caches ==> CacheOk(x.w, x.now, t, x.caches[i])
  {
    forall i | i in x.caches
      ensures CacheOk(x.w, x.now, t, x.caches[i])
    {
      CacheKept(x.w, x.now, x.tables, t, x.caches[i]);
    }
  }

  /** A sweep ends what was listed and moves nobody's activity. */
  lemma SweepKeeps(x: World, listed: set<nat>)
    requires Inv(x) && forall sid :: sid in listed ==> StaleIn(x, sid)
    ensures var t' := SweepTables(x.tables, listed, x.now);
      && RowsOk(x.now, t', x.beats) && Later(x.now, x.tables, t') && SameActivity(x.tables, t', {})
      && IdleRule(x.w, x.now, x.tables, t') && EndsKept(x.tables, t', listed)
  {
  }

  /** Nobody comes back to a session once it is idle or expired. */
  lemma StaleStays(x: World, step: Step, sid: nat)
    requires Inv(x) && StaleIn(x, sid)
    ensures StaleIn(Next(x, step), sid)
  {
    NextKeepsRows(x, step);
    if step.Beat? && step.sid == sid {
      StaleIsRefused(x, step.instance, sid);
    }
  }

  lemma StaleIsRefused(x: World, instance: nat, sid: nat)
    requires Inv(x) && StaleIn(x, sid)
    ensures var (t', _, answer) := TouchFn(x.w, x.tables, CacheOf(x, instance), sid, x.now);
      && answer.Dead? && sid in t'.sessions
      && t'.sessions[sid].lastActivityAt == x.tables.sessions[sid].lastActivityAt
    ensures CheckFn(x.w, x.tables, CacheOf(x, instance), sid, x.now).2.Dead?
  {
    assert CacheOk(x.w, x.now, x.tables, CacheOf(x, instance));
  }

  lemma QuietKeeps(x: World, step: Step)
    requires Inv(x) && Quiet(step)
    ensures RowsAndCachesOk(Next(x, step)) && Later(x.now, x.tables, Next(x, step).tables)
    ensures SameActivity(x.tables, Next(x, step).tables, {}) && EndsKept(x.tables, Next(x, step).tables, {})
  {
    var x' := Next(x, step);
    QuietRows(x, step);
    forall i | i in x'.caches
      ensures CacheOk(x'.w, x'.now, x'.tables, x'.caches[i])
    {
      assert CacheOk(x.w, x.now, x.tables, x.caches[i]);
    }
  }

  lemma QuietRows(x: World, step: Step)
    requires Inv(x) && Quiet(step)
    ensures RowsOk(Next(x, step).now, Next(x, step).tables, Next(x, step).beats)
    ensures Later(x.now, x.tables, Next(x, step).tables) && SameActivity(x.tables, Next(x, step).tables, {})
    ensures forall sid :: sid in x.tables.sessions ==>
      sid in Next(x, step).tables.sessions && Next(x, step).tables.sessions[sid] == x.tables.sessions[sid]
  {
    if step.Start? {
      StartRows(x, step);
    } else {
      assert Next(x, step).tables.sessions == x.tables.sessions;
      assert Next(x, step).beats == x.beats;
    }
  }

  lemma StartRows(x: World, step: Step)
    requires Inv(x) && step.Start?
    ensures RowsOk(x.now, Next(x, step).tables, Next(x, step).beats)
    ensures forall sid :: sid in x.tables.sessions ==>
      sid in Next(x, step).tables.sessions && Next(x, step).tables.sessions[sid] == x.tables.sessions[sid]
  {
    var x' := Next(x, step);
    assert x'.tables.sessions.Keys == x'.beats.Keys;
    forall sid | sid in x'.tables.sessions
      ensures RowOk(x.now, x'.tables.sessions[sid], x'.beats[sid])
    {
      assert sid in x.tables.sessions ==> RowOk(x.now, x.tables.sessions[sid], x.beats[sid]);
    }
  }

  lemma {:induction false} RunKeeps(w: window, steps: seq<Step>)
    ensures Inv(Run(Init(w), steps)) && Run(Init(w), steps).w == w
  {
    if steps != [] {
      RunKeeps(w, steps[..|steps| - 1]);
      NextKeeps(Run(Init(w), steps[..|steps| - 1]), steps[|steps| - 1]);
    }
  }

  // ── What holds in every run ───────────────────────────────────────────────

  /**
   * A session answered live is its owner's, and has an un-ended row or one that ended at most 19998 ms before
   * the answer. Not ten seconds: one stale beat may re-remember it, and the write throttle stops a second.
   */
  lemma LiveMeansRecentlyLive(w: window, steps: seq<Step>, step: Step)
    ensures var x := Run(Init(w), steps);
      Outcome(x, step).2.Live? ==>
        && Asked(x, step).Some? && Asked(x, step).value in x.tables.sessions
        && var s := x.tables.sessions[Asked(x, step).value];
        && (s.endedAt.Some? ==> x.now <= s.endedAt.value + 19_998)
        && x.now < s.expiresAt
        && x.now <= LastBeat(x, Asked(x, step).value) + w
        && Outcome(x, step).2 == Live(s.profile)
  {
    RunKeeps(w, steps);
    var x := Run(Init(w), steps);
    if Outcome(x, step).2.Live? {
      LiveEntry(x, step.instance, Asked(x, step).value);
      OwnerIsNamed(x, step);
    }
  }

  /** Whoever is answered live is told the profile on the session's row. */
  lemma OwnerIsNamed(x: World, step: Step)
    requires Inv(x) && Outcome(x, step).2.Live? && Asked(x, step).Some? && Asked(x, step).value in x.tables.sessions
    ensures Outcome(x, step).2 == Live(x.tables.sessions[Asked(x, step).value].profile)
  {
    assert CacheOk(x.w, x.now, x.tables, CacheOf(x, step.instance));
  }

  // ── How much is remembered ────────────────────────────────────────────────

  lemma RememberBounded(c: Cache, sid: nat, e: Cached)
    requires |c| <= CACHE_MAX + 1
    ensures |Remember(c, sid, e)| <= CACHE_MAX + 1
  {
  }

  lemma ForgetBounded(c: Cache, sid: nat)
    ensures |c - {sid}| <= |c|
  {
    assert (c - {sid}).Keys == c.Keys - {sid};
  }

  lemma CheckBounded(w: window, t: Tables, c: Cache, sid: nat, now: int)
    requires |c| <= CACHE_MAX + 1
    ensures |CheckFn(w, t, c, sid, now).1| <= CACHE_MAX + 1
  {
    ForgetBounded(c, sid);
    if sid in t.sessions {
      RememberBounded(c, sid, EntryFor(w, t.sessions[sid], now));
    }
  }

  lemma OutcomeBounded(x: World, step: Step)
    requires step.Check? || step.Beat? || step.Refresh? || step.End?
    requires |CacheOf(x, step.instance)| <= CACHE_MAX + 1
    ensures |Outcome(x, step).1| <= CACHE_MAX + 1
  {
    var c := CacheOf(x, step.instance);
    match step {
      case Check(_, sid) => CheckBounded(x.w, x.tables, c, sid, x.now);
      case Beat(_, sid) => CheckBounded(x.w, x.tables, c, sid, x.now);
      case Refresh(_, token) =>
        if token in x.tables.tokens {
          CheckBounded(x.w, x.tables, c, x.tables.tokens[token].session, x.now);
          ForgetBounded(c, x.tables.tokens[token].session);
        }
      case End(_, sid, _) => ForgetBounded(c, sid);
    }
  }

  /** No instance ever remembers more than 5001 sessions. */
  lemma {:induction false} CachesStaySmall(w: window, steps: seq<Step>, instance: nat)
    ensures |CacheOf(Run(Init(w), steps), instance)| <= 5_001
  {
    if steps != [] {
      var n := |steps| - 1;
      CachesStaySmall(w, steps[..n], instance);
      var x, step := Run(Init(w), steps[..n]), steps[n];
      if !Quiet(step) && !step.Sweep? && step.instance == instance {
        OutcomeBounded(x, step);
      }
    }
  }

  // ── Who is never refused ──────────────────────────────────────────────────

  /** The row says the session may go on. */
  predicate IsUsable(x: World, sid: nat) {
    && sid in x.tables.sessions && x.tables.sessions[sid].endedAt.None?
    && x.now < x.tables.sessions[sid].expiresAt && x.now <= x.tables.sessions[sid].lastActivityAt + x.w
  }

  /** A refresh token known, not expired, and unrevoked or revoked within the last minute. */
  predicate IsAcceptable(x: World, token: nat) {
    && token in x.tables.tokens && x.now <= x.tables.tokens[token].expiresAt
    && (x.tables.tokens[token].revokedAt.Some? ==> x.now <= x.tables.tokens[token].revokedAt.value + 60_000)
  }

  /**
   * Nobody with a usable session is refused: on every instance, whatever it remembers, a check, a beat and an
   * acceptable refresh are answered live, and none of them ends any session or revokes any other token. A token
   * may be accepted twice, for two tabs that refresh at once.
   */
  lemma UsableIsLive(x: World, step: Step)
    requires Asked(x, step).Some? && IsUsable(x, Asked(x, step).value)
    requires step.Refresh? ==> IsAcceptable(x, step.token)
    ensures Outcome(x, step).2.Live?
    ensures match step
      case Check(_, _) => Next(x, step).tables == x.tables
      case Beat(_, sid) => OnlyActive(x.tables, Next(x, step).tables, sid)
      case Refresh(_, token) =>
        Next(x, step).tables == x.tables.(tokens := x.tables.tokens[token := Retired(x.tables.tokens[token], x.now)])
  {
    match step {
      case Check(i, sid) => UsableChecks(x, i, sid);
      case Beat(i, sid) => UsableBeats(x, i, sid);
      case Refresh(i, token) => UsableChecks(x, i, x.tables.tokens[token].session);
    }
  }

  /** At most one session's activity has changed. */
  ghost predicate OnlyActive(t: Tables, t': Tables, sid: nat)
    requires sid in t.sessions
  {
    exists at :: t' == t.(sessions := t.sessions[sid := t.sessions[sid].(lastActivityAt := at)])
  }

  lemma UsableChecks(x: World, instance: nat, sid: nat)
    requires IsUsable(x, sid)
    ensures var (t, _, answer) := CheckFn(x.w, x.tables, CacheOf(x, instance), sid, x.now);
      t == x.tables && answer.Live?
  {
  }

  lemma UsableBeats(x: World, instance: nat, sid: nat)
    requires IsUsable(x, sid)
    ensures var (t, _, answer) := TouchFn(x.w, x.tables, CacheOf(x, instance), sid, x.now);
      OnlyActive(x.tables, t, sid) && answer.Live?
  {
    UsableChecks(x, instance, sid);
    var s := x.tables.sessions[sid];
    assert x.tables == x.tables.(sessions := x.tables.sessions[sid := s.(lastActivityAt := s.lastActivityAt)]);
  }

  /** Two tabs present one token of a usable session within a minute, on any two instances: both are let in. */
  lemma BothTabsAreLetIn(x: World, first: nat, second: nat, token: nat, wait: nat)
    requires IsAcceptable(x, token) && x.tables.tokens[token].revokedAt.None? && wait <= 60_000
    requires IsUsable(x, x.tables.tokens[token].session)
    requires x.now + wait <= x.tables.tokens[token].expiresAt
    requires IsUsable(x.(now := x.now + wait), x.tables.tokens[token].session)
    ensures Outcome(x, Refresh(first, token)).2.Live?
    ensures Outcome(Next(Next(x, Refresh(first, token)), Tick(wait)), Refresh(second, token)).2.Live?
  {
    UsableIsLive(x, Refresh(first, token));
    UsableIsLive(Next(Next(x, Refresh(first, token)), Tick(wait)), Refresh(second, token));
  }

  lemma LiveEntry(x: World, instance: nat, sid: nat)
    requires Inv(x) && CheckFn(x.w, x.tables, CacheOf(x, instance), sid, x.now).2.Live?
    ensures sid in x.tables.sessions
    ensures var s := x.tables.sessions[sid];
      && (s.endedAt.Some? ==> x.now <= s.endedAt.value + 19_998)
      && x.now < s.expiresAt && x.now <= LastBeat(x, sid) + x.w
  {
    assert CacheOk(x.w, x.now, x.tables, CacheOf(x, instance));
  }

  /**
   * A session is never declared dead from the cache: whoever is told so, the database says it too, and for the
   * reason given. A refresh is also refused for a token that is unknown or expired.
   */
  lemma DeadMeansDead(w: window, steps: seq<Step>, step: Step)
    ensures var x := Run(Init(w), steps);
      var current := step.Refresh? && step.token in x.tables.tokens ==> x.now <= x.tables.tokens[step.token].expiresAt;
      Outcome(x, step).2.Dead? && Asked(x, step).Some? && current ==>
        var sid, t := Asked(x, step).value, Outcome(x, step).0;
        && (sid !in t.sessions || t.sessions[sid].endedAt.Some?)
        && (!step.Refresh? ==>
              Outcome(x, step).2 == Dead(if sid in t.sessions then t.sessions[sid].endedReason else NotFound))
  {
    RunKeeps(w, steps);
    var x := Run(Init(w), steps);
    if Asked(x, step).Some? {
      var c, sid := CacheOf(x, step.instance), Asked(x, step).value;
      assert CacheOk(x.w, x.now, x.tables, c);
      ReasonIsRecorded(x.w, x.tables, c, sid, x.now);
      if step.Check? {
        CheckKeeps(x.w, x.now, x.tables, c, sid, x.beats);
      } else if step.Beat? {
        TouchKeeps(x.w, x.now, x.tables, c, sid, x.beats);
      } else if x.now <= x.tables.tokens[step.token].expiresAt {
        RefusedMeansDead(x.w, x.now, x.tables, c, step.token, x.beats);
      }
    }
  }

  lemma ReasonIsRecorded(w: window, t: Tables, c: Cache, sid: nat, now: int)
    ensures var (t', _, answer) := CheckFn(w, t, c, sid, now);
      answer.Dead? ==> answer == Dead(if sid in t'.sessions then t'.sessions[sid].endedReason else NotFound)
  {
  }

  lemma RefusedMeansDead(w: window, now: int, t: Tables, c: Cache, token: nat, beats: map<nat, int>)
    requires RowsOk(now, t, beats) && CacheOk(w, now, t, c) && token in t.tokens && now <= t.tokens[token].expiresAt
    ensures var (t', _, answer) := RotateFn(w, t, c, token, now);
      var sid := t.tokens[token].session;
      answer.Dead? ==> sid !in t'.sessions || t'.sessions[sid].endedAt.Some?
  {
    CheckKeeps(w, now, t, c, t.tokens[token].session, beats);
    EndKeeps(w, now, t, c, t.tokens[token].session, Revoked, beats);
  }

  /** A nightly job has read the session and not yet written. */
  ghost predicate Pending(x: World, sid: nat) { exists job :: job in x.listed && sid in x.listed[job] }

  /** Nobody is ended twice, except by a job that read the row before it ended. */
  lemma EndStays(x: World, step: Step, sid: nat)
    requires Inv(x) && sid in x.tables.sessions && x.tables.sessions[sid].endedAt.Some? && !Pending(x, sid)
    ensures var x' := Next(x, step);
      && sid in x'.tables.sessions && SameEnd(x.tables.sessions[sid], x'.tables.sessions[sid]) && !Pending(x', sid)
  {
    NextKeeps(x, step);
  }

  /**
   * Once ended, a session stays ended, at the moment and for the reason first recorded, unless a nightly
   * job had read it before; and even then a later end is all that is ever recorded.
   */
  lemma {:induction false} EndedForGood(w: window, before: seq<Step>, after: seq<Step>, sid: nat)
    ensures var x, y := Run(Init(w), before), Run(Run(Init(w), before), after);
      sid in x.tables.sessions && x.tables.sessions[sid].endedAt.Some? ==>
        && sid in y.tables.sessions && y.tables.sessions[sid].endedAt.Some?
        && x.tables.sessions[sid].endedAt.value <= y.tables.sessions[sid].endedAt.value
        && (!Pending(x, sid) ==> SameEnd(x.tables.sessions[sid], y.tables.sessions[sid]) && !Pending(y, sid))
  {
    if after != [] {
      var n := |after| - 1;
      EndedForGood(w, before, after[..n], sid);
      RunJoin(Init(w), before, after[..n]);
      RunKeeps(w, before + after[..n]);
      var x, y := Run(Init(w), before), Run(Run(Init(w), before), after[..n]);
      if sid in x.tables.sessions && x.tables.sessions[sid].endedAt.Some? {
        EndMovesOn(y, after[n], sid);
        if !Pending(x, sid) {
          EndStays(y, after[n], sid);
        }
      }
    }
  }

  lemma EndMovesOn(x: World, step: Step, sid: nat)
    requires Inv(x) && sid in x.tables.sessions && x.tables.sessions[sid].endedAt.Some?
    ensures var x' := Next(x, step);
      && sid in x'.tables.sessions && x'.tables.sessions[sid].endedAt.Some?
      && x.tables.sessions[sid].endedAt.value <= x'.tables.sessions[sid].endedAt.value
  {
    NextKeeps(x, step);
    assert RowOk(x.now, x.tables.sessions[sid], x.beats[sid]);
  }

  /** An ended session's record can still change exactly while a job that read it has yet to write. */
  lemma EndChangesExactly(w: window, before: seq<Step>, sid: nat)
    ensures var x := Run(Init(w), before);
      sid in x.tables.sessions && x.tables.sessions[sid].endedAt.Some? ==>
        (Pending(x, sid) <==> exists after: seq<Step> ::
          sid !in Run(x, after).tables.sessions ||
          !SameEnd(x.tables.sessions[sid], Run(x, after).tables.sessions[sid]))
  {
    var x := Run(Init(w), before);
    if sid in x.tables.sessions && x.tables.sessions[sid].endedAt.Some? {
      RunKeeps(w, before);
      if Pending(x, sid) {
        var job :| job in x.listed && sid in x.listed[job];
        SweptAgain(x, job, sid);
        assert !SameEnd(x.tables.sessions[sid], Run(x, [Tick(1), Sweep(job)]).tables.sessions[sid]);
      } else {
        forall after: seq<Step>
          ensures sid in Run(x, after).tables.sessions
          ensures SameEnd(x.tables.sessions[sid], Run(x, after).tables.sessions[sid])
        {
          EndedForGood(w, before, after, sid);
        }
      }
    }
  }

  lemma SweptAgain(x: World, job: nat, sid: nat)
    requires Inv(x) && sid in x.tables.sessions && x.tables.sessions[sid].endedAt.Some?
    requires job in x.listed && sid in x.listed[job]
    ensures var y := Run(x, [Tick(1), Sweep(job)]);
      && sid in y.tables.sessions && y.tables.sessions[sid].endedAt == Some(x.now + 1)
      && (x.now < x.tables.sessions[sid].expiresAt ==> y.tables.sessions[sid].endedReason == Idle)
    ensures x.tables.sessions[sid].endedAt.value <= x.now
  {
    RunTwo(x, Tick(1), Sweep(job));
    assert RowOk(x.now, x.tables.sessions[sid], x.beats[sid]);
  }

  lemma {:induction false} RunJoin(x: World, before: seq<Step>, after: seq<Step>)
    ensures Run(Run(x, before), after) == Run(x, before + after)
  {
    if after == [] {
      assert before + after == before;
    } else {
      var n := |after| - 1;
      RunJoin(x, before, after[..n]);
      assert (before + after)[..|before + after| - 1] == before + after[..n];
    }
  }

  /** An accepted beat leaves the recorded activity within the last minute; nothing else moves it. */
  lemma OnlyBeatsMove(w: window, steps: seq<Step>, step: Step, sid: nat)
    ensures var x := Run(Init(w), steps);
      var x' := Next(x, step);
      sid in x.tables.sessions ==>
        && sid in x'.tables.sessions
        && (step.Beat? && step.sid == sid && Outcome(x, step).2.Live? ==>
          x.now - 60_000 < x'.tables.sessions[sid].lastActivityAt <= x.now)
        && (!(step.Beat? && step.sid == sid) ==>
          x'.tables.sessions[sid].lastActivityAt == x.tables.sessions[sid].lastActivityAt)
  {
    RunKeeps(w, steps);
    var x := Run(Init(w), steps);
    NextKeeps(x, step);
    if step.Beat? {
      TouchKeeps(x.w, x.now, x.tables, CacheOf(x, step.instance), step.sid, x.beats);
    }
  }

  /** The instance knows, if it remembers the session at all, of activity at `at` or later. */
  predicate Noted(x: World, instance: nat, sid: nat, at: int) {
    && sid in x.tables.sessions && x.tables.sessions[sid].lastActivityAt >= at
    && NotedIn(x.w, CacheOf(x, instance), sid, at)
  }

  predicate NotedIn(w: window, c: Cache, sid: nat, at: int) { sid in c ==> c[sid].idleDeadline - w >= at }

  lemma CheckNotes(w: window, t: Tables, c: Cache, asked: nat, now: int, sid: nat, at: int)
    requires NotedIn(w, c, sid, at) && sid in t.sessions && t.sessions[sid].lastActivityAt >= at
    ensures NotedIn(w, CheckFn(w, t, c, asked, now).1, sid, at)
  {
  }

  lemma TouchNotes(w: window, t: Tables, c: Cache, asked: nat, now: int, sid: nat, at: int)
    requires NotedIn(w, c, sid, at) && sid in t.sessions && t.sessions[sid].lastActivityAt >= at && at <= now
    ensures NotedIn(w, TouchFn(w, t, c, asked, now).1, sid, at)
    ensures asked == sid && now < at + ACTIVITY_WRITE_EVERY_MS ==>
      TouchFn(w, t, c, asked, now) == CheckFn(w, t, c, asked, now)
  {
    CheckNotes(w, t, c, asked, now, sid, at);
  }

  lemma OutcomeNotes(x: World, step: Step, sid: nat, at: int)
    requires step.Check? || step.Beat? || step.Refresh? || step.End?
    requires NotedIn(x.w, CacheOf(x, step.instance), sid, at) && at <= x.now
    requires sid in x.tables.sessions && x.tables.sessions[sid].lastActivityAt >= at
    ensures NotedIn(x.w, Outcome(x, step).1, sid, at)
  {
    var c := CacheOf(x, step.instance);
    match step {
      case Check(_, asked) => CheckNotes(x.w, x.tables, c, asked, x.now, sid, at);
      case Beat(_, asked) => TouchNotes(x.w, x.tables, c, asked, x.now, sid, at);
      case Refresh(_, token) =>
        if token in x.tables.tokens {
          CheckNotes(x.w, x.tables, c, x.tables.tokens[token].session, x.now, sid, at);
        }
      case End(_, _, _) =>
    }
  }

  lemma NotedStays(x: World, step: Step, instance: nat, sid: nat, at: int)
    requires Inv(x) && Noted(x, instance, sid, at)
    ensures Noted(Next(x, step), instance, sid, at)
  {
    NextKeepsRows(x, step);
    assert RowOk(x.now, x.tables.sessions[sid], x.beats[sid]);
    assert RowLater(x.now, x.tables.sessions[sid], Next(x, step).tables.sessions[sid]);
    CacheStaysNoted(x, step, instance, sid, at);
  }

  lemma CacheStaysNoted(x: World, step: Step, instance: nat, sid: nat, at: int)
    requires Noted(x, instance, sid, at) && at <= x.now
    ensures NotedIn(x.w, CacheOf(Next(x, step), instance), sid, at) && Next(x, step).w == x.w
  {
    if !Quiet(step) && !step.Sweep? && step.instance == instance {
      OutcomeNotes(x, step, sid, at);
    }
  }

  lemma {:induction false} NotedForGood(w: window, before: seq<Step>, after: seq<Step>, instance: nat, sid: nat,
                                        at: int)
    requires Noted(Run(Init(w), before), instance, sid, at)
    ensures Noted(Run(Run(Init(w), before), after), instance, sid, at)
  {
    if after != [] {
      var n := |after| - 1;
      NotedForGood(w, before, after[..n], instance, sid, at);
      RunJoin(Init(w), before, after[..n]);
      RunKeeps(w, before + after[..n]);
      NotedStays(Run(Run(Init(w), before), after[..n]), after[n], instance, sid, at);
    }
  }

  /** The beat writes the row: its activity becomes now. */
  predicate Writes(x: World, instance: nat, sid: nat) {
    && sid in x.tables.sessions && sid in Next(x, Beat(instance, sid)).tables.sessions
    && x.tables.sessions[sid].lastActivityAt != Next(x, Beat(instance, sid)).tables.sessions[sid].lastActivityAt
  }

  /** One instance writes a session's activity at most once a minute, whatever happens between two of its beats. */
  lemma WritesAreThrottled(w: window, before: seq<Step>, between: seq<Step>, instance: nat, sid: nat)
    ensures var x := Run(Init(w), before);
      var y := Run(Next(x, Beat(instance, sid)), between);
      Writes(x, instance, sid) && Writes(y, instance, sid) ==> y.now >= x.now + 60_000
  {
    var x, steps := Run(Init(w), before), before + [Beat(instance, sid)];
    var y := Run(Next(x, Beat(instance, sid)), between);
    assert steps[..|steps| - 1] == before;
    if Writes(x, instance, sid) && Writes(y, instance, sid) {
      RunKeeps(w, before);
      WrittenIsNoted(x, instance, sid);
      NotedForGood(w, steps, between, instance, sid, x.now);
      RunJoin(Init(w), steps, between);
      RunKeeps(w, steps + between);
      assert RowOk(y.now, y.tables.sessions[sid], y.beats[sid]);
      TouchNotes(w, y.tables, CacheOf(y, instance), sid, y.now, sid, x.now);
      CheckKeeps(y.w, y.now, y.tables, CacheOf(y, instance), sid, y.beats);
    }
  }

  lemma WrittenIsNoted(x: World, instance: nat, sid: nat)
    requires Inv(x) && Writes(x, instance, sid)
    ensures Noted(Next(x, Beat(instance, sid)), instance, sid, x.now)
  {
    assert CacheOk(x.w, x.now, x.tables, CacheOf(x, instance));
    CheckKeeps(x.w, x.now, x.tables, CacheOf(x, instance), sid, x.beats);
  }

  /** Nobody is ended as idle sooner than the window, less the write throttle, after their last accepted beat. */
  lemma IdleMeansIdle(w: window, steps: seq<Step>, step: Step, sid: nat)
    ensures var x := Run(Init(w), steps);
      var x' := Next(x, step);
      && sid in x.tables.sessions && x.tables.sessions[sid].endedAt.None?
      && sid in x'.tables.sessions && x'.tables.sessions[sid].endedAt.Some?
      && x'.tables.sessions[sid].endedReason == Idle ==>
        x.now > LastBeat(x, sid) + w - 60_000
  {
    RunKeeps(w, steps);
    var x := Run(Init(w), steps);
    if step.Sweep? {
      SweepKeeps(x, SweptBy(x, step));
    } else if !Quiet(step) {
      OutcomeKeeps(x, step);
    }
  }

  /** A session asked about after its time is over as expired, or else, after its window, as idle. */
  function OverReason(w: window, s: Session, now: int): Option<Reason> {
    if s.expiresAt <= now then Some(Expired) else if now > s.lastActivityAt + w then Some(Idle) else None
  }

  /** What a step ends a session for, if it does. */
  function EndReason(x: World, step: Step, sid: nat): Option<Reason>
    requires sid in x.tables.sessions
  {
    var s := x.tables.sessions[sid];
    match step
    case End(_, asked, reason) => if asked == sid then Some(reason) else None
    case Check(_, asked) => if asked == sid then OverReason(x.w, s, x.now) else None
    case Beat(_, asked) => if asked == sid then OverReason(x.w, s, x.now) else None
    case Refresh(_, token) =>
      if Asked(x, step) != Some(sid) then None
      else if IsReplay(x, token) then Some(Revoked)
      else if IsAcceptable(x, token) then OverReason(x.w, s, x.now)
      else None
    case Sweep(_) => if sid in SweptBy(x, step) then Some(if s.expiresAt < x.now then Expired else Idle) else None
    case _ => None
  }

  /** A row as it was, but for an end at this moment or none. */
  predicate EndsFor(s: Session, s': Session, reason: Option<Reason>, now: int) {
    if reason.None? then s'.endedAt.None? else s' == s.(endedAt := Some(now), endedReason := reason.value)
  }

  lemma CheckEndsFor(w: window, t: Tables, c: Cache, asked: nat, now: int, sid: nat)
    requires CacheOk(w, now, t, c) && sid in t.sessions && t.sessions[sid].endedAt.None?
    ensures var t' := CheckFn(w, t, c, asked, now).0;
      var reason := if asked == sid then OverReason(w, t.sessions[sid], now) else None;
      sid in t'.sessions && EndsFor(t.sessions[sid], t'.sessions[sid], reason, now)
  {
  }

  lemma TouchEndsFor(w: window, t: Tables, c: Cache, asked: nat, now: int, sid: nat)
    requires CacheOk(w, now, t, c) && sid in t.sessions && t.sessions[sid].endedAt.None?
    ensures var t' := TouchFn(w, t, c, asked, now).0;
      var reason := if asked == sid then OverReason(w, t.sessions[sid], now) else None;
      sid in t'.sessions && EndsFor(t.sessions[sid], t'.sessions[sid], reason, now)
  {
    CheckEndsFor(w, t, c, asked, now, sid);
  }

  lemma RotateEndsFor(x: World, step: Step, sid: nat)
    requires Inv(x) && step.Refresh? && sid in x.tables.sessions && x.tables.sessions[sid].endedAt.None?
    ensures var t' := Outcome(x, step).0;
      sid in t'.sessions && EndsFor(x.tables.sessions[sid], t'.sessions[sid], EndReason(x, step, sid), x.now)
  {
    assert CacheOk(x.w, x.now, x.tables, CacheOf(x, step.instance));
    if step.token in x.tables.tokens {
      CheckEndsFor(x.w, x.tables, CacheOf(x, step.instance), x.tables.tokens[step.token].session, x.now, sid);
    }
  }

  /** A session ends exactly so, at that moment and for that reason: nothing else ever ends one. */
  lemma EndsExactlyFor(w: window, steps: seq<Step>, step: Step, sid: nat)
    ensures var x := Run(Init(w), steps);
      sid in x.tables.sessions && x.tables.sessions[sid].endedAt.None? ==>
        && sid in Next(x, step).tables.sessions
        && EndsFor(x.tables.sessions[sid], Next(x, step).tables.sessions[sid], EndReason(x, step, sid), x.now)
  {
    RunKeeps(w, steps);
    var x := Run(Init(w), steps);
    if sid in x.tables.sessions && x.tables.sessions[sid].endedAt.None? {
      match step {
        case Check(i, asked) =>
          assert CacheOk(x.w, x.now, x.tables, CacheOf(x, i));
          CheckEndsFor(x.w, x.tables, CacheOf(x, i), asked, x.now, sid);
        case Beat(i, asked) =>
          assert CacheOk(x.w, x.now, x.tables, CacheOf(x, i));
          TouchEndsFor(x.w, x.tables, CacheOf(x, i), asked, x.now, sid);
        case Refresh(_, _) => RotateEndsFor(x, step, sid);
        case _ =>
      }
    }
  }

  ghost predicate RecordedAs(x: World, sid: nat, reason: Reason) {
    sid in x.tables.sessions && x.tables.sessions[sid].endedAt.Some? && x.tables.sessions[sid].endedReason == reason
  }

  /** A ban that falls between the nightly job's read and its writes is on record as an idle session afterwards. */
  lemma BanIsOverwritten(w: window)
    ensures exists before: seq<Step>, after: seq<Step> ::
      RecordedAs(Run(Init(w), before), 7, Banned) && RecordedAs(Run(Run(Init(w), before), after), 7, Idle)
  {
    var idle := [Start(7, 1), Tick(w + 1)];
    var ban := [List(0), End(1, 7, Banned)];
    var after := [Tick(1), Sweep(0)];
    RunTwo(Init(w), Start(7, 1), Tick(w + 1));
    RunTwo(Run(Init(w), idle), List(0), End(1, 7, Banned));
    RunJoin(Init(w), idle, ban);
    RunKeeps(w, idle + ban);
    BannedWhileListed(Run(Init(w), idle), w);
    var x := Run(Init(w), idle + ban);
    SweptAgain(x, 0, 7);
    assert RecordedAs(x, 7, Banned) && RecordedAs(Run(x, after), 7, Idle);
  }

  lemma BannedWhileListed(x: World, w: window)
    requires x == Next(Next(Init(w), Start(7, 1)), Tick(w + 1))
    ensures var y := Next(Next(x, List(0)), End(1, 7, Banned));
      && RecordedAs(y, 7, Banned) && 0 in y.listed && 7 in y.listed[0]
      && y.now < y.tables.sessions[7].expiresAt
  {
    assert x.tables.sessions == map[7 := Session(1, 0, REFRESH_TTL_MS, None, NotFound)];
    assert 7 in StaleSessions(x.w, x.tables, x.now);
  }

  // ── Refresh tokens over a run ─────────────────────────────────────────────

  /** A token keeps its session and expiry, and a revocation, once made, its time. */
  predicate TokenLater(now: int, k: Token, k': Token) {
    && k'.session == k.session && k'.expiresAt == k.expiresAt
    && (if k.revokedAt.Some? then k'.revokedAt == k.revokedAt else k'.revokedAt.Some? ==> k'.revokedAt.value == now)
  }

  ghost predicate TokensLater(now: int, t: Tables, t': Tables) {
    && (forall id :: id in t.tokens ==> id in t'.tokens && TokenLater(now, t.tokens[id], t'.tokens[id]))
    && (forall id :: id in t'.tokens && id !in t.tokens ==> t'.tokens[id].revokedAt.None?)
  }

  lemma EndTokens(t: Tables, sid: nat, reason: Reason, now: int)
    ensures TokensLater(now, t, EndTables(t, sid, reason, now))
  {
  }

  lemma CheckTokens(w: window, t: Tables, c: Cache, sid: nat, now: int)
    ensures TokensLater(now, t, CheckFn(w, t, c, sid, now).0)
  {
    EndTokens(t, sid, Expired, now);
    EndTokens(t, sid, Idle, now);
  }

  lemma TouchTokens(w: window, t: Tables, c: Cache, sid: nat, now: int)
    ensures TokensLater(now, t, TouchFn(w, t, c, sid, now).0)
  {
    CheckTokens(w, t, c, sid, now);
  }

  lemma RotateTokens(w: window, t: Tables, c: Cache, token: nat, now: int)
    ensures TokensLater(now, t, RotateFn(w, t, c, token, now).0)
  {
    if token in t.tokens {
      CheckTokens(w, t, c, t.tokens[token].session, now);
      EndTokens(t, t.tokens[token].session, Revoked, now);
      CheckRevokesAll(w, t, c, token, now);
    }
  }

  /** A check leaves a token of the session as it is, unless it ends the session. */
  lemma CheckRevokesAll(w: window, t: Tables, c: Cache, token: nat, now: int)
    requires token in t.tokens
    ensures var (t', _, answer) := CheckFn(w, t, c, t.tokens[token].session, now);
      answer.Live? ==> t' == t
  {
  }

  lemma TokensKept(x: World, step: Step)
    ensures TokensLater(x.now, x.tables, Next(x, step).tables)
  {
    match step {
      case Tick(ms) =>
      case Start(sid, profile) =>
      case Issue(token, sid) =>
      case Check(i, sid) => CheckTokens(x.w, x.tables, CacheOf(x, i), sid, x.now);
      case Beat(i, sid) => TouchTokens(x.w, x.tables, CacheOf(x, i), sid, x.now);
      case Refresh(i, token) => RotateTokens(x.w, x.tables, CacheOf(x, i), token, x.now);
      case End(i, sid, reason) => EndTokens(x.tables, sid, reason, x.now);
      case List(job) =>
      case Sweep(job) =>
    }
  }

  predicate IsOverIn(t: Tables, sid: nat) { sid in t.sessions ==> t.sessions[sid].endedAt.Some? }

  lemma EndRevokes(t: Tables, sid: nat, reason: Reason, now: int, token: nat)
    requires token in t.tokens && t.tokens[token].revokedAt.None?
    ensures var t' := EndTables(t, sid, reason, now);
      token in t'.tokens && (t'.tokens[token].revokedAt.Some? ==> IsOverIn(t', t.tokens[token].session))
  {
  }

  lemma CheckRevokes(w: window, t: Tables, c: Cache, asked: nat, now: int, token: nat)
    requires token in t.tokens && t.tokens[token].revokedAt.None?
    ensures var t' := CheckFn(w, t, c, asked, now).0;
      token in t'.tokens && (t'.tokens[token].revokedAt.Some? ==> IsOverIn(t', t.tokens[token].session))
  {
    EndRevokes(t, asked, Expired, now, token);
    EndRevokes(t, asked, Idle, now, token);
  }

  lemma TouchRevokes(w: window, t: Tables, c: Cache, asked: nat, now: int, token: nat)
    requires token in t.tokens && t.tokens[token].revokedAt.None?
    ensures var t' := TouchFn(w, t, c, asked, now).0;
      token in t'.tokens && (t'.tokens[token].revokedAt.Some? ==> IsOverIn(t', t.tokens[token].session))
  {
    CheckRevokes(w, t, c, asked, now, token);
  }

  lemma RotateRevokes(w: window, t: Tables, c: Cache, given: nat, now: int, token: nat)
    requires token in t.tokens && t.tokens[token].revokedAt.None?
    ensures var (t', _, answer) := RotateFn(w, t, c, given, now);
      && token in t'.tokens
      && (t'.tokens[token].revokedAt.Some? ==>
            IsOverIn(t', t.tokens[token].session) || (given == token && answer.Live?))
  {
    if given in t.tokens {
      EndRevokes(t, t.tokens[given].session, Revoked, now, token);
      CheckRevokes(w, t, c, t.tokens[given].session, now, token);
    }
  }

  /** A token is revoked only as it is accepted itself, or with its session. */
  lemma RevokedOnlyFor(x: World, step: Step, token: nat)
    requires token in x.tables.tokens && x.tables.tokens[token].revokedAt.None?
    ensures var t' := Next(x, step).tables;
      && token in t'.tokens
      && (t'.tokens[token].revokedAt.Some? ==>
            IsOverIn(t', x.tables.tokens[token].session) ||
            (step.Refresh? && step.token == token && Outcome(x, step).2.Live?))
  {
    match step {
      case Check(i, sid) => CheckRevokes(x.w, x.tables, CacheOf(x, i), sid, x.now, token);
      case Beat(i, sid) => TouchRevokes(x.w, x.tables, CacheOf(x, i), sid, x.now, token);
      case Refresh(i, given) => RotateRevokes(x.w, x.tables, CacheOf(x, i), given, x.now, token);
      case End(_, sid, reason) => EndRevokes(x.tables, sid, reason, x.now, token);
      case _ =>
    }
  }

  ghost predicate RevokedInTime(x: World, token: nat) {
    token in x.tables.tokens && x.tables.tokens[token].revokedAt.Some? ==>
      x.tables.tokens[token].revokedAt.value <= x.now
  }

  lemma RevokedInTimeKept(x: World, step: Step, token: nat)
    requires RevokedInTime(x, token)
    ensures RevokedInTime(Next(x, step), token) && x.now <= Next(x, step).now
  {
    TokensKept(x, step);
    ClockRuns(x, step);
  }

  lemma ClockRuns(x: World, step: Step)
    ensures x.now <= Next(x, step).now
  {
  }

  lemma {:induction false} NeverRevokedAhead(x: World, steps: seq<Step>, token: nat)
    requires RevokedInTime(x, token)
    ensures RevokedInTime(Run(x, steps), token)
  {
    if steps != [] {
      NeverRevokedAhead(x, steps[..|steps| - 1], token);
      RevokedInTimeKept(Run(x, steps[..|steps| - 1]), steps[|steps| - 1], token);
    }
  }

  /** A revocation is for good. */
  lemma {:induction false} RevokedForGood(x: World, steps: seq<Step>, token: nat)
    requires token in x.tables.tokens && x.tables.tokens[token].revokedAt.Some?
    ensures token in Run(x, steps).tables.tokens && Run(x, steps).tables.tokens[token] == x.tables.tokens[token]
  {
    if steps != [] {
      RevokedForGood(x, steps[..|steps| - 1], token);
      TokensKept(Run(x, steps[..|steps| - 1]), steps[|steps| - 1]);
    }
  }

  /** Accepting a token revokes it, unless it was revoked within the last minute. */
  lemma AcceptedIsRevoked(x: World, instance: nat, token: nat)
    ensures Outcome(x, Refresh(instance, token)).2.Live? ==>
      var t := Next(x, Refresh(instance, token)).tables;
      && token in t.tokens && x.now <= t.tokens[token].expiresAt
      && t.tokens[token].revokedAt.Some? && x.now <= t.tokens[token].revokedAt.value + 60_000
  {
  }

  /** A refresh token that was accepted once is accepted again, on any instance, for a minute at most. */
  lemma RefreshMeansUsable(w: window, before: seq<Step>, after: seq<Step>, first: nat, second: nat, token: nat)
    ensures var x := Run(Init(w), before);
      var y := Run(Next(x, Refresh(first, token)), after);
      Outcome(x, Refresh(first, token)).2.Live? && Outcome(y, Refresh(second, token)).2.Live? ==>
        y.now <= x.now + 60_000 && y.now <= x.tables.tokens[token].expiresAt
  {
    var x := Run(Init(w), before);
    var x' := Next(x, Refresh(first, token));
    var y := Run(x', after);
    if Outcome(x, Refresh(first, token)).2.Live? && Outcome(y, Refresh(second, token)).2.Live? {
      AcceptedIsRevoked(x, first, token);
      AcceptedIsRevoked(y, second, token);
      NeverRevokedAhead(Init(w), before, token);
      TokensKept(x, Refresh(first, token));
      RevokedForGood(x', after, token);
      TokensKept(y, Refresh(second, token));
    }
  }

  /** A token revoked more than a minute ago, not yet expired. */
  predicate IsReplay(x: World, token: nat) {
    && token in x.tables.tokens && x.now <= x.tables.tokens[token].expiresAt
    && x.tables.tokens[token].revokedAt.Some? && x.now > x.tables.tokens[token].revokedAt.value + 60_000
  }

  /**
   * Replaying a token revoked more than a minute ago ends its session and revokes its whole chain for good:
   * from 19998 ms later nothing is answered live for that session, whatever happens in between.
   */
  lemma ReplayEndsSession(w: window, before: seq<Step>, instance: nat, token: nat, after: seq<Step>, step: Step)
    ensures var x := Run(Init(w), before);
      var y := Run(Next(x, Refresh(instance, token)), after);
      IsReplay(x, token) ==>
        var sid := x.tables.tokens[token].session;
        && Outcome(x, Refresh(instance, token)).2.Dead?
        && (sid in x.tables.sessions ==> sid in y.tables.sessions && y.tables.sessions[sid].endedAt.Some?)
        && (forall id :: id in x.tables.tokens && x.tables.tokens[id].session == sid ==>
              id in y.tables.tokens && y.tables.tokens[id].revokedAt.Some?)
        && (sid in x.tables.sessions && Asked(y, step) == Some(sid) && Outcome(y, step).2.Live? ==>
              y.now <= x.now + 19_998)
  {
    var x := Run(Init(w), before);
    if IsReplay(x, token) {
      var sid, x' := x.tables.tokens[token].session, Next(x, Refresh(instance, token));
      ReplayNow(x, instance, token);
      var steps := before + [Refresh(instance, token)];
      assert steps[..|steps| - 1] == before;
      assert Run(Init(w), steps) == x';
      RunKeeps(w, steps);
      EndedForGood(w, steps, after, sid);
      forall id | id in x.tables.tokens && x.tables.tokens[id].session == sid
        ensures id in Run(x', after).tables.tokens && Run(x', after).tables.tokens[id].revokedAt.Some?
      {
        RevokedForGood(x', after, id);
      }
      RunJoin(Init(w), steps, after);
      LiveMeansRecentlyLive(w, steps + after, step);
      if Asked(Run(x', after), step) == Some(sid) && Outcome(Run(x', after), step).2.Live? {
        LiveIsNotPending(w, steps, after, step, sid);
      }
    }
  }

  /** Whoever is answered live was in no job's list before. */
  lemma LiveIsNotPending(w: window, before: seq<Step>, after: seq<Step>, step: Step, sid: nat)
    requires var y := Run(Run(Init(w), before), after);
      Asked(y, step) == Some(sid) && Outcome(y, step).2.Live?
    ensures !Pending(Run(Init(w), before), sid)
  {
    var x := Run(Init(w), before);
    RunKeeps(w, before);
    if Pending(x, sid) {
      StaleForGood(w, before, after, sid);
      RunJoin(Init(w), before, after);
      RunKeeps(w, before + after);
      StaleIsRefused(Run(x, after), step.instance, sid);
      assert false;
    }
  }

  lemma {:induction false} StaleForGood(w: window, before: seq<Step>, after: seq<Step>, sid: nat)
    requires StaleIn(Run(Init(w), before), sid)
    ensures StaleIn(Run(Run(Init(w), before), after), sid)
  {
    if after != [] {
      var n := |after| - 1;
      StaleForGood(w, before, after[..n], sid);
      RunJoin(Init(w), before, after[..n]);
      RunKeeps(w, before + after[..n]);
      NextKeeps(Run(Run(Init(w), before), after[..n]), after[n]);
    }
  }

  lemma ReplayNow(x: World, instance: nat, token: nat)
    requires IsReplay(x, token)
    ensures var (t, _, answer) := Outcome(x, Refresh(instance, token));
      var sid := x.tables.tokens[token].session;
      && answer.Dead? && Next(x, Refresh(instance, token)).tables == t && Next(x, Refresh(instance, token)).now == x.now
      && (sid in x.tables.sessions ==> sid in t.sessions && t.sessions[sid].endedAt.Some?)
      && forall id :: id in x.tables.tokens && x.tables.tokens[id].session == sid ==>
        id in t.tokens && t.tokens[id].revokedAt.Some?
  {
  }

  // ── The bound is attained ─────────────────────────────────────────────────

  ghost predicate LiveThoughEnded(x: World, instance: nat, sid: nat, since: int) {
    && Outcome(x, Check(instance, sid)).2.Live? && sid in x.tables.sessions
    && x.tables.sessions[sid].endedAt == Some(x.now - since)
  }

  /** A session ended on one instance can still be answered live on another 19998 ms later. */
  lemma StalenessAttained(w: window)
    ensures exists steps: seq<Step> :: LiveThoughEnded(Run(Init(w), steps), 0, 7, 19_998)
  {
    var steps := CachedThenEnded(w);
    var more := StaleBeat(Run(Init(w), steps));
    RunJoin(Init(w), steps, more);
    assert LiveThoughEnded(Run(Init(w), steps + more), 0, 7, 19_998);
  }

  /**
   * Session 7 started at 0, was remembered by instance 0 a minute later, and ended on instance 1 in the same
   * millisecond.
   */
  ghost predicate EndedWhileCached(x: World) {
    && x.now == ACTIVITY_WRITE_EVERY_MS
    && 0 in x.caches && x.caches[0] == map[7 := Cached(1, x.w, REFRESH_TTL_MS, x.now)]
    && 7 in x.tables.sessions && x.tables.sessions[7] == Session(1, 0, REFRESH_TTL_MS, Some(x.now), Logout)
  }

  lemma CachedThenEnded(w: window) returns (steps: seq<Step>)
    ensures EndedWhileCached(Run(Init(w), steps)) && Run(Init(w), steps).w == w
  {
    var s := Session(1, 0, REFRESH_TTL_MS, None, NotFound);
    var x2 := World(w, ACTIVITY_WRITE_EVERY_MS, Tables(map[7 := s], map[]), map[], map[7 := 0], map[]);
    RunTwo(Init(w), Start(7, 1), Tick(ACTIVITY_WRITE_EVERY_MS));
    assert Run(Init(w), [Start(7, 1), Tick(ACTIVITY_WRITE_EVERY_MS)]) == x2;
    RememberedThenEnded(x2);
    RunJoin(Init(w), [Start(7, 1), Tick(ACTIVITY_WRITE_EVERY_MS)], [Check(0, 7), End(1, 7, Logout)]);
    steps := [Start(7, 1), Tick(ACTIVITY_WRITE_EVERY_MS)] + [Check(0, 7), End(1, 7, Logout)];
  }

  lemma RememberedThenEnded(x: World)
    requires x.tables == Tables(map[7 := Session(1, 0, REFRESH_TTL_MS, None, NotFound)], map[])
    requires x.now == ACTIVITY_WRITE_EVERY_MS && x.caches == map[]
    ensures EndedWhileCached(Run(x, [Check(0, 7), End(1, 7, Logout)]))
    ensures Run(x, [Check(0, 7), End(1, 7, Logout)]).w == x.w
  {
    RunTwo(x, Check(0, 7), End(1, 7, Logout));
    var y := x.(caches := map[0 := map[7 := Cached(1, x.w, REFRESH_TTL_MS, x.now)]]);
    CheckRemembers(x, y);
    EndsElsewhere(y);
  }

  lemma CheckRemembers(x: World, y: World)
    requires x.tables == Tables(map[7 := Session(1, 0, REFRESH_TTL_MS, None, NotFound)], map[])
    requires x.now == ACTIVITY_WRITE_EVERY_MS && x.caches == map[]
    requires y == x.(caches := map[0 := map[7 := Cached(1, x.w, REFRESH_TTL_MS, x.now)]])
    ensures Next(x, Check(0, 7)) == y
  {
    assert Remember(map[], 7, EntryFor(x.w, x.tables.sessions[7], x.now)) == y.caches[0];
  }

  lemma EndsElsewhere(y: World)
    requires y.tables == Tables(map[7 := Session(1, 0, REFRESH_TTL_MS, None, NotFound)], map[])
    requires y.now == ACTIVITY_WRITE_EVERY_MS && y.caches == map[0 := map[7 := Cached(1, y.w, REFRESH_TTL_MS, y.now)]]
    ensures EndedWhileCached(Next(y, End(1, 7, Logout))) && Next(y, End(1, 7, Logout)).w == y.w
  {
  }

  lemma StaleBeat(x: World) returns (steps: seq<Step>)
    requires EndedWhileCached(x)
    ensures LiveThoughEnded(Run(x, steps), 0, 7, 19_998)
  {
    var late := Tick(LIVENESS_CACHE_MS - 1);
    RunTwo(x, late, Beat(0, 7));
    var y := x.(now := x.now + LIVENESS_CACHE_MS - 1);
    assert Next(x, late) == y;
    BeatRemembers(x, y);
    var z := Next(y, Beat(0, 7));
    assert Run(z, []) == z && [late][..0] == [];
    assert Run(z, [late]) == Next(z, late);
    RunJoin(x, [late, Beat(0, 7)], [late]);
    steps := [late, Beat(0, 7)] + [late];
  }

  lemma BeatRemembers(x: World, y: World)
    requires EndedWhileCached(x) && y == x.(now := x.now + LIVENESS_CACHE_MS - 1)
    ensures var z := Next(y, Beat(0, 7));
      && z.now == y.now && z.w == y.w && 0 in z.caches && 7 in z.caches[0]
      && z.caches[0][7] == Cached(1, y.now + x.w, REFRESH_TTL_MS, y.now)
      && 7 in z.tables.sessions && z.tables.sessions[7].endedAt == Some(x.now)
  {
  }

  lemma RunTwo(x: World, a: Step, b: Step)
    ensures Run(x, [a, b]) == Next(Next(x, a), b)
  {
    assert [a, b][..1] == [a] && [a][..0] == [];
    assert Run(x, []) == x && Run(x, [a]) == Next(x, a);
  }
}
