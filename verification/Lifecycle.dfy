/** Remote objects from upload ticket to deletion, with a crash possible between any two database writes. */
module Lifecycle {
  import opened Bytes

  const MAX_DELETE_ATTEMPTS := 8
  const ABANDONED_UPLOAD_MS := 86400000

  datatype Adapter = S3 | Gdrive

  /** What the customer's storage calls a file: S3 by the key we chose, Drive by the id it gave. */
  datatype Address = ByKey(key: nat) | ById(id: nat)

  /** A key we minted, or the name reconciliation gives a file it has no record of. */
  datatype Key = Minted(key: nat) | OrphanOf(id: nat)

  datatype Object = Object(remoteId: Option<nat>, course: Option<nat>, committed: bool, createdAt: int)

  datatype Deletion = Deletion(key: Key, remoteId: Option<nat>, attempts: nat, nextTryAt: int)

  datatype Ref = Ref(key: nat, remoteId: Option<nat>)

  /** What a route still has to do after a write that has already happened. */
  datatype Task = Attach(course: nat, key: nat) | Release(ref: Ref)

  datatype State = State(
    adapter: Adapter, objects: map<nat, Object>, queue: map<nat, Deletion>, courses: map<nat, Ref>, tasks: set<Task>,
    present: set<Address>, names: map<nat, Option<nat>>)

  /** The remote id given with each key; nothing for S3. */
  function AddressOf(s: State, key: nat): Address
    requires key in s.names
  {
    if s.names[key].Some? then ById(s.names[key].value) else ByKey(key)
  }

  /** What a queued deletion deletes: a Drive row without an id has nothing left to delete. */
  function Target(adapter: Adapter, d: Deletion): Option<Address> {
    match adapter
    case Gdrive => if d.remoteId.Some? then Some(ById(d.remoteId.value)) else None
    case S3 => if d.key.Minted? then Some(ByKey(d.key.key)) else None
  }

  /** Twice as long after every failure, a day at most. */
  function BackoffMs(attempts: nat): int { Min(60000 * Pow2(attempts), 86400000) }

  function Pow2(n: nat): nat { if n == 0 then 1 else 2 * Pow2(n - 1) }

  predicate Due(d: Deletion, now: int) { d.nextTryAt <= now && d.attempts < MAX_DELETE_ATTEMPTS }

  /** The queue row `deletionOpsFor` and the other releases create. */
  function Queued(key: nat, remoteId: Option<nat>, now: int): Deletion { Deletion(Minted(key), remoteId, 0, now) }

  /** An object nothing points at: its course is gone, or its ticket was never used for a day. */
  predicate Orphaned(s: State, key: nat, now: int)
    requires key in s.objects
  {
    match s.objects[key].course
    case Some(c) => c !in s.courses
    case None => s.objects[key].createdAt < now - ABANDONED_UPLOAD_MS
  }

  datatype Event =
    | Ticket(key: nat, remoteId: Option<nat>, now: int)
    | Write(key: nat)
    | Commit(key: nat)
    | Refuse(key: nat, row: nat, now: int)
    | Create(course: nat, key: nat)
    | Revise(course: nat, key: nat)
    | Delete(course: nat, row: nat, now: int)
    | DoAttach(course: nat, key: nat)
    | DoRelease(ref: Ref, row: nat, now: int)
    | Crash(task: Task)
    | Collect(key: nat, row: nat, now: int)
    | DeleteRemote(row: nat, now: int)
    | Finish(row: nat, now: int)
    | Retry(row: nat, now: int)
    | Reconcile(id: nat, row: nat, now: int)

  predicate Enabled(s: State, e: Event) {
    match e
    // keys and Drive ids are fresh, and only Drive gives ids
    case Ticket(key, remoteId, _) =>
      key !in s.names && (remoteId.Some? <==> s.adapter.Gdrive?) && (remoteId.Some? ==> remoteId !in s.names.Values)
    // the browser writes only before commit
    case Write(key) => key in s.objects && !s.objects[key].committed
    case Commit(key) =>
      key in s.objects && s.objects[key].course.None? && key in s.names && AddressOf(s, key) in s.present
    case Refuse(key, row, _) =>
      key in s.objects && s.objects[key].course.None? && !s.objects[key].committed && row !in s.queue
    case Create(course, key) => course !in s.courses && key in s.objects && s.objects[key].course.None?
    case Revise(course, key) =>
      course in s.courses && key in s.objects
      && (s.objects[key].course == None || s.objects[key].course == Some(course))
    case Delete(course, row, _) => course in s.courses && row !in s.queue
    case DoAttach(course, key) => Attach(course, key) in s.tasks && key in s.objects
    case DoRelease(ref, row, _) => Release(ref) in s.tasks && row !in s.queue
    case Crash(task) => task in s.tasks
    case Collect(key, row, now) => key in s.objects && Orphaned(s, key, now) && row !in s.queue
    case DeleteRemote(row, now) => row in s.queue && Due(s.queue[row], now)
    case Finish(row, now) => row in s.queue && Due(s.queue[row], now) && Gone(s, s.queue[row])
    case Retry(row, now) => row in s.queue && Due(s.queue[row], now)
    case Reconcile(id, row, _) => s.adapter.Gdrive? && ById(id) in s.present && !Known(s, id) && row !in s.queue
  }

  predicate Known(s: State, id: nat) { exists k :: k in s.objects && s.objects[k].remoteId == Some(id) }

  predicate Gone(s: State, d: Deletion) { Target(s.adapter, d).None? || Target(s.adapter, d).value !in s.present }

  function Next(s: State, e: Event): State
    requires Enabled(s, e)
  {
    match e
    case Ticket(key, remoteId, now) =>
      s.(objects := s.objects[key := Object(remoteId, None, false, now)], names := s.names[key := remoteId])
    case Write(key) => if key in s.names then s.(present := s.present + {AddressOf(s, key)}) else s
    case Commit(key) => s.(objects := s.objects[key := s.objects[key].(committed := true)])
    case Refuse(key, row, now) => Released(s, key, s.objects[key].remoteId, row, now)
    case Create(course, key) =>
      s.(courses := s.courses[course := Ref(key, s.objects[key].remoteId)], tasks := s.tasks + {Attach(course, key)})
    case Revise(course, key) =>
      s.(courses := s.courses[course := Ref(key, s.objects[key].remoteId)],
         tasks := s.tasks + {Release(s.courses[course]), Attach(course, key)})
    case Delete(course, row, now) =>
      var ref := s.courses[course];
      Released(s, ref.key, ref.remoteId, row, now).(courses := s.courses - {course})
    case DoAttach(course, key) =>
      s.(objects := s.objects[key := s.objects[key].(course := Some(course))], tasks := s.tasks - {Attach(course, key)})
    case DoRelease(ref, row, now) => Released(s, ref.key, ref.remoteId, row, now).(tasks := s.tasks - {Release(ref)})
    case Crash(task) => s.(tasks := s.tasks - {task})
    case Collect(key, row, now) => Released(s, key, s.objects[key].remoteId, row, now)
    case DeleteRemote(row, _) =>
      var target := Target(s.adapter, s.queue[row]);
      if target.Some? then s.(present := s.present - {target.value}) else s
    case Finish(row, _) => s.(queue := s.queue - {row})
    case Retry(row, now) =>
      var d := s.queue[row];
      s.(queue := s.queue[row := d.(attempts := d.attempts + 1, nextTryAt := now + BackoffMs(d.attempts + 1))])
    case Reconcile(id, row, now) => s.(queue := s.queue[row := Deletion(OrphanOf(id), Some(id), 0, now)])
  }

  /** Every release is one transaction: the queue row is written as the object row goes. */
  function Released(s: State, key: nat, remoteId: Option<nat>, row: nat, now: int): State {
    s.(queue := s.queue[row := Queued(key, remoteId, now)], objects := s.objects - {key})
  }

  // ── The books ─────────────────────────────────────────────────────────────

  /** Keys and ids are matched one to one, and every copy of a pair agrees. */
  ghost predicate Named(s: State) { ObjectsNamed(s) && RefsNamed(s) && RowsNamed(s) }

  ghost predicate ObjectsNamed(s: State) {
    && (forall k :: k in s.names ==> (s.names[k].Some? <==> s.adapter.Gdrive?))
    && (forall j, k :: j in s.names && k in s.names && s.names[j].Some? && s.names[j] == s.names[k] ==> j == k)
    && (forall k :: k in s.objects ==> k in s.names && s.objects[k].remoteId == s.names[k])
  }

  ghost predicate RefsNamed(s: State) {
    && (forall c :: c in s.courses ==> RefNamed(s, s.courses[c]))
    && (forall r: Ref :: Release(r) in s.tasks ==> RefNamed(s, r))
  }

  ghost predicate RowsNamed(s: State) { forall r :: r in s.queue ==> RowNamed(s, s.queue[r]) }

  predicate RefNamed(s: State, r: Ref) { r.key in s.names && r.remoteId == s.names[r.key] }

  predicate RowNamed(s: State, d: Deletion) {
    match d.key
    case Minted(k) => k in s.names && d.remoteId == s.names[k]
    case OrphanOf(id) => s.adapter.Gdrive? && d.remoteId == Some(id) && d.remoteId in s.names.Values
  }

  ghost predicate HasRow(s: State, a: Address) { exists k :: k in s.objects && k in s.names && AddressOf(s, k) == a }

  ghost predicate IsQueued(s: State, a: Address) {
    exists r :: r in s.queue && Target(s.adapter, s.queue[r]) == Some(a)
  }

  /** Every file in the customer's storage has an object row or a deletion row. */
  ghost predicate Accounted(s: State) { forall a :: a in s.present ==> HasRow(s, a) || IsQueued(s, a) }

  /** Nothing queued for deletion has an object row. */
  ghost predicate Apart(s: State) {
    forall r, k :: r in s.queue && k in s.objects && k in s.names ==>
      Target(s.adapter, s.queue[r]) != Some(AddressOf(s, k))
  }

  /** Every committed object is really there. */
  ghost predicate Backed(s: State) {
    forall k :: k in s.objects && k in s.names && s.objects[k].committed ==> AddressOf(s, k) in s.present
  }

  ghost predicate Books(s: State) { Named(s) && Accounted(s) && Apart(s) && Backed(s) }

  // ── Every step keeps them ─────────────────────────────────────────────────

  lemma ObjectsNamedKept(s: State, e: Event)
    requires ObjectsNamed(s) && Enabled(s, e)
    ensures ObjectsNamed(Next(s, e))
  {
    if e.Ticket? {
      forall k | k in s.names
        ensures s.names[k] in s.names.Values
      {
      }
    } else {
      RowsOnlyGo(s, e);
    }
  }

  lemma RowsOnlyGo(s: State, e: Event)
    requires Enabled(s, e) && !e.Ticket?
    ensures Next(s, e).names == s.names && Next(s, e).adapter == s.adapter
    ensures forall k :: k in Next(s, e).objects ==>
      k in s.objects && Next(s, e).objects[k].remoteId == s.objects[k].remoteId
  {
  }

  lemma RefsNamedKept(s: State, e: Event)
    requires ObjectsNamed(s) && RefsNamed(s) && Enabled(s, e)
    ensures RefsNamed(Next(s, e))
  {
    var s' := Next(s, e);
    NamesStay(s, e);
    forall c | c in s'.courses
      ensures RefNamed(s', s'.courses[c])
    {
      var kept := c in s.courses && s'.courses[c] == s.courses[c];
      RefNamedStays(s, e, if kept then s.courses[c] else Ref(e.key, s.objects[e.key].remoteId));
    }
    forall r: Ref | Release(r) in s'.tasks
      ensures RefNamed(s', r)
    {
      RefNamedStays(s, e, r);
    }
  }

  lemma NamesStay(s: State, e: Event)
    requires Enabled(s, e)
    ensures forall k :: k in s.names ==> k in Next(s, e).names && Next(s, e).names[k] == s.names[k]
  {
  }

  lemma RefNamedStays(s: State, e: Event, r: Ref)
    requires Enabled(s, e) && RefNamed(s, r)
    ensures RefNamed(Next(s, e), r)
  {
    NamesStay(s, e);
  }

  lemma RowsNamedKept(s: State, e: Event)
    requires Books(s) && Enabled(s, e)
    ensures RowsNamed(Next(s, e))
  {
    var s' := Next(s, e);
    if e.Ticket? {
      NewName(s, e.key, e.remoteId);
    } else {
      assert s'.names == s.names;
    }
    forall r | r in s'.queue
      ensures RowNamed(s', s'.queue[r])
    {
      if r in s.queue {
        assert RowNamed(s, s.queue[r]);
        RowNamedStays(s, e, r);
      } else {
        NewRowNamed(s, e, r);
      }
    }
  }

  lemma RowNamedStays(s: State, e: Event, r: nat)
    requires Enabled(s, e) && r in s.queue && r in Next(s, e).queue && RowNamed(s, s.queue[r])
    requires s.names.Values <= Next(s, e).names.Values
    ensures RowNamed(Next(s, e), Next(s, e).queue[r])
  {
    NamesStay(s, e);
  }

  lemma NewRowNamed(s: State, e: Event, r: nat)
    requires Books(s) && Enabled(s, e) && r !in s.queue && r in Next(s, e).queue
    ensures RowNamed(Next(s, e), Next(s, e).queue[r])
  {
    match e {
      case Refuse(key, _, now) => QueuedIsNamed(s, key, s.objects[key].remoteId, now);
      case Collect(key, _, now) => QueuedIsNamed(s, key, s.objects[key].remoteId, now);
      case Delete(course, _, now) => QueuedIsNamed(s, s.courses[course].key, s.courses[course].remoteId, now);
      case DoRelease(ref, _, now) => QueuedIsNamed(s, ref.key, ref.remoteId, now);
      case Reconcile(id, _, _) => KnownToQueue(s, id);
      case _ =>
    }
  }

  lemma QueuedIsNamed(s: State, key: nat, remoteId: Option<nat>, now: int)
    requires key in s.names && remoteId == s.names[key]
    ensures RowNamed(s, Queued(key, remoteId, now))
  {
  }

  lemma NewName(s: State, key: nat, remoteId: Option<nat>)
    requires key !in s.names
    ensures s.names.Values <= s.names[key := remoteId].Values
  {
    forall v | v in s.names.Values
      ensures v in s.names[key := remoteId].Values
    {
      var k :| k in s.names && s.names[k] == v;
      assert s.names[key := remoteId][k] == v;
    }
  }

  /** A file reconciliation has no record of is one already queued, so its id is one we named. */
  lemma KnownToQueue(s: State, id: nat)
    requires Books(s) && s.adapter.Gdrive? && ById(id) in s.present && !Known(s, id)
    ensures IsQueued(s, ById(id)) && Some(id) in s.names.Values
  {
    forall k | k in s.objects && k in s.names
      ensures AddressOf(s, k) != ById(id)
    {
    }
    var r :| r in s.queue && Target(s.adapter, s.queue[r]) == Some(ById(id));
    assert RowNamed(s, s.queue[r]);
  }

  lemma AccountedKept(s: State, e: Event)
    requires Books(s) && Enabled(s, e)
    ensures Accounted(Next(s, e))
  {
    var s' := Next(s, e);
    forall a | a in s'.present
      ensures HasRow(s', a) || IsQueued(s', a)
    {
      if a in s.present && HasRow(s, a) {
        var k :| k in s.objects && k in s.names && AddressOf(s, k) == a;
        RowMovesToQueue(s, e, k);
      } else if a in s.present {
        var r :| r in s.queue && Target(s.adapter, s.queue[r]) == Some(a);
        QueueIsKept(s, e, r, a);
      } else {
        assert AddressOf(s, e.key) == a && e.key in s'.objects;
      }
    }
  }

  /** An object row goes only as its deletion is queued. */
  lemma RowMovesToQueue(s: State, e: Event, k: nat)
    requires Named(s) && Enabled(s, e) && k in s.objects
    ensures var s' := Next(s, e); k in s.names && k in s'.names && AddressOf(s', k) == AddressOf(s, k)
    ensures k in Next(s, e).objects || IsQueued(Next(s, e), AddressOf(s, k))
  {
    NamesStay(s, e);
    if k !in Next(s, e).objects {
      ReleaseQueues(s, Next(s, e), e.row, k);
    }
  }

  /** A release's row names the file of the object that goes. */
  lemma ReleaseQueues(s: State, s': State, row: nat, k: nat)
    requires ObjectsNamed(s) && k in s.objects && s'.adapter == s.adapter
    requires row in s'.queue && s'.queue[row].key == Minted(k) && s'.queue[row].remoteId == s.names[k]
    ensures k in s.names && IsQueued(s', AddressOf(s, k))
  {
    assert Target(s'.adapter, s'.queue[row]) == Some(AddressOf(s, k));
  }

  /** A queue row goes only when its file is gone. */
  lemma QueueIsKept(s: State, e: Event, r: nat, a: Address)
    requires Enabled(s, e) && r in s.queue && Target(s.adapter, s.queue[r]) == Some(a) && a in Next(s, e).present
    requires a in s.present
    ensures IsQueued(Next(s, e), a)
  {
    var s' := Next(s, e);
    assert r in s'.queue && Target(s'.adapter, s'.queue[r]) == Some(a);
  }

  lemma ApartKept(s: State, e: Event)
    requires Books(s) && Enabled(s, e)
    ensures Apart(Next(s, e))
  {
    var s' := Next(s, e);
    forall r, k | r in s'.queue && k in s'.objects && k in s'.names
      ensures Target(s'.adapter, s'.queue[r]) != Some(AddressOf(s', k))
    {
      if k !in s.objects {
        FreshAddress(s, e.key, e.remoteId, r);
      } else if r in s.queue {
        SameTarget(s, e, r);
        RowMovesToQueue(s, e, k);
      } else {
        NewRowIsApart(s, e, r, k);
      }
    }
  }

  lemma SameTarget(s: State, e: Event, r: nat)
    requires Enabled(s, e) && r in s.queue && r in Next(s, e).queue
    ensures Target(Next(s, e).adapter, Next(s, e).queue[r]) == Target(s.adapter, s.queue[r])
  {
  }

  /** A release queues the one object whose row it removes; reconciliation queues a file with no row. */
  lemma NewRowIsApart(s: State, e: Event, r: nat, k: nat)
    requires Books(s) && Enabled(s, e) && r !in s.queue && r in Next(s, e).queue && k in s.objects
    requires k in Next(s, e).objects
    ensures k in Next(s, e).names && Target(s.adapter, Next(s, e).queue[r]) != Some(AddressOf(Next(s, e), k))
  {
    match Next(s, e).queue[r].key {
      case Minted(j) => AddressesDiffer(s, j, k);
      case OrphanOf(id) =>
    }
  }

  lemma AddressesDiffer(s: State, j: nat, k: nat)
    requires ObjectsNamed(s) && j in s.names && k in s.names && j != k
    ensures AddressOf(s, j) != AddressOf(s, k)
  {
  }

  /** A new key's address is nobody's target. */
  lemma FreshAddress(s: State, key: nat, remoteId: Option<nat>, r: nat)
    requires Books(s) && r in s.queue && key !in s.names && (remoteId.Some? <==> s.adapter.Gdrive?)
    requires remoteId.Some? ==> remoteId !in s.names.Values
    ensures Target(s.adapter, s.queue[r]) != Some(if remoteId.Some? then ById(remoteId.value) else ByKey(key))
  {
    assert RowNamed(s, s.queue[r]);
  }

  lemma BackedKept(s: State, e: Event)
    requires Books(s) && Enabled(s, e)
    ensures Backed(Next(s, e))
  {
    var s' := Next(s, e);
    forall k | k in s'.objects && k in s'.names && s'.objects[k].committed
      ensures AddressOf(s', k) in s'.present
    {
      if k in s.objects && s.objects[k].committed {
        StoredStays(s, e, k);
      }
    }
  }

  lemma BooksKept(s: State, e: Event)
    requires Books(s) && Enabled(s, e)
    ensures Books(Next(s, e))
  {
    ObjectsNamedKept(s, e);
    RefsNamedKept(s, e);
    RowsNamedKept(s, e);
    AccountedKept(s, e);
    ApartKept(s, e);
    BackedKept(s, e);
  }

  // ── Runs ──────────────────────────────────────────────────────────────────

  predicate Start(s: State) {
    s.objects == map[] && s.queue == map[] && s.courses == map[] && s.tasks == {} && s.present == {} && s.names == map[]
  }

  ghost predicate Legal(s: State, events: seq<Event>)
    decreases |events|
  {
    events == [] || (Enabled(s, events[0]) && Legal(Next(s, events[0]), events[1..]))
  }

  ghost function After(s: State, events: seq<Event>): State
    requires Legal(s, events)
    decreases |events|
  {
    if events == [] then s else After(Next(s, events[0]), events[1..])
  }

  lemma {:induction false} LegalKeepsBooks(s: State, events: seq<Event>)
    requires Books(s) && Legal(s, events)
    ensures Books(After(s, events))
    decreases |events|
  {
    if events != [] {
      BooksKept(s, events[0]);
      LegalKeepsBooks(Next(s, events[0]), events[1..]);
    }
  }

  /** However the routes, the jobs and the crashes interleave, no file in the customer's storage is forgotten. */
  lemma AlwaysInBooks(s: State, events: seq<Event>)
    requires Start(s) && Legal(s, events)
    ensures Books(After(s, events))
  {
    LegalKeepsBooks(s, events);
  }

  lemma {:induction false} LegalAppend(s: State, events: seq<Event>, e: Event)
    requires Legal(s, events) && Enabled(After(s, events), e)
    ensures Legal(s, events + [e]) && After(s, events + [e]) == Next(After(s, events), e)
    decreases |events|
  {
    if events != [] {
      LegalAppend(Next(s, events[0]), events[1..], e);
      assert (events + [e])[1..] == events[1..] + [e];
    }
  }

  // ── What the deletions leave alone ────────────────────────────────────────

  /** No step removes the file of an object that still has its row. */
  lemma StoredStays(s: State, e: Event, k: nat)
    requires Books(s) && Enabled(s, e) && k in s.objects && k in Next(s, e).objects && AddressOf(s, k) in s.present
    ensures k in Next(s, e).names && AddressOf(Next(s, e), k) in Next(s, e).present
  {
    RowMovesToQueue(s, e, k);
  }

  /** A deletion given up on stays in the queue for the reconciliation report. */
  lemma GivenUpIsKept(s: State, e: Event, r: nat)
    requires Enabled(s, e) && r in s.queue && s.queue[r].attempts >= MAX_DELETE_ATTEMPTS
    ensures r in Next(s, e).queue && Next(s, e).queue[r] == s.queue[r]
  {
  }

  ghost predicate TriesBounded(s: State) { forall r :: r in s.queue ==> s.queue[r].attempts <= MAX_DELETE_ATTEMPTS }

  /** Nothing is tried more often than the limit, in any run. */
  lemma {:induction false} TriesStayBounded(s: State, events: seq<Event>)
    requires TriesBounded(s) && Legal(s, events)
    ensures TriesBounded(After(s, events))
    decreases |events|
  {
    if events != [] {
      TriesStayBounded(Next(s, events[0]), events[1..]);
    }
  }

  /** The waits double from two minutes; with eight tries the one-day cap is never reached. */
  lemma WaitsDouble(attempts: nat)
    requires 1 <= attempts <= MAX_DELETE_ATTEMPTS
    ensures BackoffMs(1) == 120000
    ensures BackoffMs(attempts) == 60000 * Pow2(attempts) < 86400000
    ensures attempts > 1 ==> BackoffMs(attempts) == 2 * BackoffMs(attempts - 1)
  {
    Pow2Bounded(attempts);
    Pow2Bounded(attempts - 1);
    assert Pow2(1) == 2 * Pow2(0);
  }

  lemma {:induction false} Pow2Bounded(n: nat)
    requires n <= MAX_DELETE_ATTEMPTS
    ensures Pow2(n) <= 256 && (n < 8 ==> Pow2(n) <= 128) && (n < 7 ==> Pow2(n) <= 64) && (n < 6 ==> Pow2(n) <= 32)
    ensures (n < 5 ==> Pow2(n) <= 16) && (n < 4 ==> Pow2(n) <= 8)
    ensures (n < 3 ==> Pow2(n) <= 4) && (n < 2 ==> Pow2(n) <= 2)
  {
    if n > 0 {
      Pow2Bounded(n - 1);
    }
  }

  /** The queue row is left as it is by everybody but the worker that works on it. */
  lemma {:induction false} RowWaits(s: State, events: seq<Event>, row: nat)
    requires Legal(s, events) && row in s.queue
    requires forall e :: e in events ==> !(e.Retry? && e.row == row) && !(e.Finish? && e.row == row)
    ensures row in After(s, events).queue && After(s, events).queue[row] == s.queue[row]
    decreases |events|
  {
    if events != [] {
      assert events[0] in events;
      RowWaits(Next(s, events[0]), events[1..], row);
    }
  }

  /**
   * After its n-th failure at `now` a deletion is next tried 60000 * 2^n milliseconds later, not sooner, and after the
   * eighth never again; whatever else happens meanwhile.
   */
  lemma TriedAgainExactly(s: State, row: nat, now: int, events: seq<Event>, later: int)
    requires Enabled(s, Retry(row, now)) && Legal(Next(s, Retry(row, now)), events)
    requires forall e :: e in events ==> !(e.Retry? && e.row == row) && !(e.Finish? && e.row == row)
    ensures var n := s.queue[row].attempts + 1;
      Enabled(After(Next(s, Retry(row, now)), events), DeleteRemote(row, later)) <==>
        n < 8 && now + 60000 * Pow2(n) <= later
  {
    RowWaits(Next(s, Retry(row, now)), events, row);
    WaitsDouble(s.queue[row].attempts + 1);
  }

  // ── A course and its object ───────────────────────────────────────────────

  /** The course refers to the object and the object's row says so. */
  predicate Claimed(s: State, course: nat, key: nat) {
    course in s.courses && s.courses[course].key == key && key in s.objects && s.objects[key].course == Some(course)
  }

  /** Nothing is still due that would release the object or hand it to another course. */
  ghost predicate Settled(s: State, course: nat, key: nat) {
    && (forall r: Ref :: Release(r) in s.tasks ==> r.key != key)
    && (forall c: nat :: Attach(c, key) in s.tasks ==> c == course)
    && (forall c: nat :: c in s.courses && c != course ==> s.courses[c].key != key)
  }

  /**
   * The steps that end a claim: the course goes or moves to another object, or somebody else releases or takes this
   * one.
   */
  predicate Takes(s: State, e: Event, course: nat, key: nat)
    requires Enabled(s, e)
  {
    match e
    case Delete(c, _, _) => c == course || s.courses[c].key == key
    case Revise(c, k) => c == course && k != key
    case DoAttach(c, k) => k == key && c != course
    case DoRelease(ref, _, _) => ref.key == key
    case _ => false
  }

  /** Whatever else is pending, a claim ends with exactly those steps. */
  lemma ClaimEndsExactly(s: State, e: Event, course: nat, key: nat)
    requires ObjectsNamed(s) && Enabled(s, e) && Claimed(s, course, key)
    ensures Claimed(Next(s, e), course, key) <==> !Takes(s, e, course, key)
  {
  }

  /** A living course keeps its object: only deleting or revising the course itself takes it away. */
  lemma ClaimKept(s: State, e: Event, course: nat, key: nat)
    requires ObjectsNamed(s) && Enabled(s, e) && Claimed(s, course, key) && Settled(s, course, key)
    requires !(e.Delete? && e.course == course) && !(e.Revise? && e.course == course)
    ensures Claimed(Next(s, e), course, key) && Settled(Next(s, e), course, key)
  {
    ClaimEndsExactly(s, e, course, key);
  }

  /** A course keeps its object through every run that has none of them. */
  lemma {:induction false} ClaimOutlasts(s: State, events: seq<Event>, course: nat, key: nat)
    requires ObjectsNamed(s) && Legal(s, events) && Claimed(s, course, key) && NoneTakes(s, events, course, key)
    ensures Claimed(After(s, events), course, key)
    decreases |events|
  {
    if events != [] {
      ClaimEndsExactly(s, events[0], course, key);
      ObjectsNamedKept(s, events[0]);
      ClaimOutlasts(Next(s, events[0]), events[1..], course, key);
    }
  }

  ghost predicate NoneTakes(s: State, events: seq<Event>, course: nat, key: nat)
    requires Legal(s, events)
    decreases |events|
  {
    events == [] || (!Takes(s, events[0], course, key) && NoneTakes(Next(s, events[0]), events[1..], course, key))
  }

  /** Publishing a new edition leaves the course with its object exactly when the object is a different one. */
  lemma ReviseNeedsAnotherObject(s: State, course: nat, key: nat, row: nat, now: int)
    requires Enabled(s, Revise(course, key)) && row !in s.queue
    ensures
      var revised := Next(s, Revise(course, key));
      var release := DoRelease(s.courses[course], row, now);
      Enabled(revised, release)
      && Next(revised, release).courses[course].key == key
      && (key in Next(revised, release).objects <==> s.courses[course].key != key)
  {
  }

  /** The row names a course that still exists. */
  ghost predicate NamesLiving(s: State, key: nat)
    requires key in s.objects
  {
    exists c :: c in s.courses && s.objects[key].course == Some(c)
  }

  /** More than twenty-four hours have passed since the upload ticket. */
  predicate IsDayOld(createdAt: int, now: int) { createdAt + 24 * 60 * 60 * 1000 < now }

  /**
   * The sweep may take an object exactly when its row names no living course, whichever courses refer to it,
   * and, if it names none at all, a day has passed since its ticket.
   */
  lemma UnclaimedIsCollected(s: State, key: nat, row: nat, now: int)
    requires key in s.objects && row !in s.queue
    ensures Enabled(s, Collect(key, row, now)) <==>
      !NamesLiving(s, key) && (s.objects[key].course.None? ==> IsDayOld(s.objects[key].createdAt, now))
    ensures forall course :: Claimed(s, course, key) ==> !Enabled(s, Collect(key, row, now))
  {
  }

  // ── An upload in progress ─────────────────────────────────────────────────

  /**
   * The steps that give an object up: its upload is refused, a route releases it, a course that refers to it
   * or that its row names is deleted, or it is attached to a course already deleted.
   */
  predicate GivesUp(s: State, e: Event, key: nat)
    requires Enabled(s, e)
  {
    match e
    case Refuse(k, _, _) => k == key
    case DoRelease(ref, _, _) => ref.key == key
    case Delete(c, _, _) => s.courses[c].key == key || (key in s.objects && s.objects[key].course == Some(c))
    case DoAttach(c, k) => k == key && c !in s.courses
    case _ => false
  }

  /** A run in which nobody gives the object up and no sweep comes more than a day after `since`. */
  ghost predicate Undisturbed(s: State, events: seq<Event>, key: nat, since: int)
    requires Legal(s, events)
    decreases |events|
  {
    events == [] ||
    (!GivesUp(s, events[0], key)
     && (events[0].Collect? ==> !IsDayOld(since, events[0].now))
     && Undisturbed(Next(s, events[0]), events[1..], key, since))
  }

  /** The row names no course, or one that exists. */
  ghost predicate IsOpen(s: State, key: nat) {
    key in s.objects && (s.objects[key].course.None? || NamesLiving(s, key))
  }

  lemma OpenStays(s: State, e: Event, key: nat)
    requires ObjectsNamed(s) && Enabled(s, e) && IsOpen(s, key) && !GivesUp(s, e, key)
    requires e.Collect? ==> !IsDayOld(s.objects[key].createdAt, e.now)
    ensures IsOpen(Next(s, e), key) && Next(s, e).objects[key].createdAt == s.objects[key].createdAt
  {
    var s' := Next(s, e);
    assert key in s'.objects;
    if s'.objects[key].course.Some? {
      assert s'.objects[key].course.value in s'.courses;
    }
  }

  lemma {:induction false} OpenOutlasts(s: State, events: seq<Event>, key: nat)
    requires ObjectsNamed(s) && Legal(s, events) && IsOpen(s, key)
    requires Undisturbed(s, events, key, s.objects[key].createdAt)
    ensures IsOpen(After(s, events), key)
    decreases |events|
  {
    if events != [] {
      OpenStays(s, events[0], key);
      ObjectsNamedKept(s, events[0]);
      OpenOutlasts(Next(s, events[0]), events[1..], key);
    }
  }

  /**
   * Nobody loses an upload in progress: in every run, however the jobs interleave with it, an object keeps
   * its row for a day after its ticket unless somebody gives it up.
   */
  lemma UploadIsLeftAlone(s: State, before: seq<Event>, key: nat, remoteId: Option<nat>, at: int, after: seq<Event>)
    requires Start(s) && Legal(s, before) && Enabled(After(s, before), Ticket(key, remoteId, at))
    requires Legal(Next(After(s, before), Ticket(key, remoteId, at)), after)
    requires Undisturbed(Next(After(s, before), Ticket(key, remoteId, at)), after, key, at)
    ensures key in After(Next(After(s, before), Ticket(key, remoteId, at)), after).objects
  {
    AlwaysInBooks(s, before);
    ObjectsNamedKept(After(s, before), Ticket(key, remoteId, at));
    OpenOutlasts(Next(After(s, before), Ticket(key, remoteId, at)), after, key);
  }

  function Empty(adapter: Adapter): State { State(adapter, map[], map[], map[], {}, {}, map[]) }

  /** A run that has published course 9 with object 1. */
  lemma Published(adapter: Adapter) returns (events: seq<Event>, s: State)
    ensures Start(Empty(adapter)) && Legal(Empty(adapter), events) && s == After(Empty(adapter), events)
    ensures s.names == map[1 := if adapter.Gdrive? then Some(1) else None] && s.adapter == adapter
    ensures s.present == {AddressOf(s, 1)}
    ensures s.courses == map[9 := Ref(1, s.names[1])] && s.tasks == {Attach(9, 1)} && s.queue == map[]
    ensures s.objects == map[1 := Object(s.names[1], None, true, 0)]
  {
    var id := if adapter.Gdrive? then Some(1) else None;
    events, s := [], Empty(adapter);
    events, s := Then(adapter, events, s, Ticket(1, id, 0));
    events, s := Then(adapter, events, s, Write(1));
    events, s := Then(adapter, events, s, Commit(1));
    events, s := Then(adapter, events, s, Create(9, 1));
  }

  lemma Then(adapter: Adapter, events: seq<Event>, s: State, e: Event) returns (more: seq<Event>, s': State)
    requires Legal(Empty(adapter), events) && s == After(Empty(adapter), events) && Enabled(s, e)
    ensures Legal(Empty(adapter), more) && s' == After(Empty(adapter), more) == Next(s, e)
  {
    LegalAppend(Empty(adapter), events, e);
    more, s' := events + [e], Next(s, e);
  }

  /** The course exists, and neither its object's row nor the file does. */
  predicate Bereft(s: State, course: nat) {
    course in s.courses && s.courses[course].key !in s.objects && s.courses[course].key in s.names
    && AddressOf(s, s.courses[course].key) !in s.present
  }

  /** A server that crashes before it has claimed the object for the course: a day later the file is gone. */
  lemma UnclaimedIsLost(adapter: Adapter) returns (events: seq<Event>)
    ensures Legal(Empty(adapter), events) && Bereft(After(Empty(adapter), events), 9)
  {
    var day := ABANDONED_UPLOAD_MS + 1;
    var s;
    events, s := Published(adapter);
    events, s := Then(adapter, events, s, Crash(Attach(9, 1)));
    events, s := Then(adapter, events, s, Collect(1, 0, day));
    events, s := Then(adapter, events, s, DeleteRemote(0, day));
  }

  /** A new edition with the object the course already has: the release meant for the old one takes it away. */
  lemma RevisedIsLost(adapter: Adapter) returns (events: seq<Event>)
    ensures Legal(Empty(adapter), events) && Bereft(After(Empty(adapter), events), 9)
  {
    var s;
    events, s := Published(adapter);
    events, s := Then(adapter, events, s, DoAttach(9, 1));
    assert Claimed(s, 9, 1);
    events, s := Then(adapter, events, s, Revise(9, 1));
    events, s := Then(adapter, events, s, DoRelease(s.courses[9], 0, 0));
    events, s := Then(adapter, events, s, DeleteRemote(0, 0));
  }

  /** Two courses published with one upload before either claims it: deleting one costs the other its file. */
  lemma SharedIsLost(adapter: Adapter) returns (events: seq<Event>)
    ensures Legal(Empty(adapter), events) && Bereft(After(Empty(adapter), events), 9)
  {
    var s;
    events, s := Published(adapter);
    events, s := Then(adapter, events, s, Create(8, 1));
    events, s := Then(adapter, events, s, DoAttach(9, 1));
    events, s := Then(adapter, events, s, DoAttach(8, 1));
    events, s := Then(adapter, events, s, Delete(8, 0, 0));
    events, s := Then(adapter, events, s, DeleteRemote(0, 0));
  }

  /** A second upload, stored and committed. */
  lemma Uploaded(adapter: Adapter, events: seq<Event>, s: State) returns (more: seq<Event>, s': State)
    requires Legal(Empty(adapter), events) && s == After(Empty(adapter), events) && s.adapter == adapter
    requires s.names == map[1 := if adapter.Gdrive? then Some(1) else None]
    ensures Legal(Empty(adapter), more) && s' == After(Empty(adapter), more)
    ensures s'.objects == s.objects[2 := Object(if adapter.Gdrive? then Some(2) else None, None, true, 0)]
    ensures (s'.courses, s'.tasks, s'.queue) == (s.courses, s.tasks, s.queue)
  {
    var id := if adapter.Gdrive? then Some(2) else None;
    NewId(s, id);
    more, s' := Then(adapter, events, s, Ticket(2, id, 0));
    more, s' := Stored(adapter, more, s', 2);
  }

  lemma NewId(s: State, id: Option<nat>)
    requires s.names == map[1 := if s.adapter.Gdrive? then Some(1) else None]
    requires id == if s.adapter.Gdrive? then Some(2) else None
    ensures Enabled(s, Ticket(2, id, 0))
  {
  }

  /** The browser writes and the gateway commits. */
  lemma Stored(adapter: Adapter, events: seq<Event>, s: State, key: nat) returns (more: seq<Event>, s': State)
    requires Legal(Empty(adapter), events) && s == After(Empty(adapter), events)
    requires key in s.objects && key in s.names && !s.objects[key].committed && s.objects[key].course.None?
    ensures Legal(Empty(adapter), more) && s' == After(Empty(adapter), more)
    ensures s'.objects == s.objects[key := s.objects[key].(committed := true)]
    ensures (s'.courses, s'.tasks, s'.queue) == (s.courses, s.tasks, s.queue)
  {
    more, s' := Then(adapter, events, s, Write(key));
    more, s' := Then(adapter, more, s', Commit(key));
  }

  /** A course revised to the second upload and then deleted, while its first object's claim is still due. */
  lemma RevisedAndDeleted(adapter: Adapter) returns (events: seq<Event>, s: State)
    ensures Legal(Empty(adapter), events) && s == After(Empty(adapter), events)
    ensures 1 in s.objects && s.objects[1].createdAt == 0 && s.courses == map[] && s.queue.Keys == {0}
    ensures Attach(9, 1) in s.tasks && Release(Ref(1, if adapter.Gdrive? then Some(1) else None)) in s.tasks
  {
    events, s := Published(adapter);
    events, s := Uploaded(adapter, events, s);
    events, s := Then(adapter, events, s, Revise(9, 2));
    events, s := Then(adapter, events, s, Delete(9, 0, 0));
  }

  /** An object attached to a course already deleted may be swept at once, before the release that is due for it. */
  lemma AttachedTooLate(adapter: Adapter) returns (events: seq<Event>)
    ensures Legal(Empty(adapter), events)
    ensures var s := After(Empty(adapter), events);
      && 1 in s.objects && s.objects[1].createdAt == 0 && s.courses == map[]
      && Release(Ref(1, if adapter.Gdrive? then Some(1) else None)) in s.tasks
      && Enabled(s, Collect(1, 1, 0))
  {
    var s;
    events, s := RevisedAndDeleted(adapter);
    events, s := Then(adapter, events, s, DoAttach(9, 1));
  }

  // ── The jobs ──────────────────────────────────────────────────────────────

  datatype Fate = Deleted | Failed | FailedAfterDeleting

  /** The queue after one due row: dropped, or put off. */
  function Drained(queue: map<nat, Deletion>, row: nat, now: int, fate: Fate): map<nat, Deletion>
    requires row in queue
  {
    var d := queue[row];
    if fate.Deleted? then queue - {row}
    else queue[row := d.(attempts := d.attempts + 1, nextTryAt := now + BackoffMs(d.attempts + 1))]
  }

  /** Every row worked on is done with or put off, and no other row is touched. */
  ghost predicate Worked(before: map<nat, Deletion>, after: map<nat, Deletion>, rows: seq<nat>, now: int,
                         fates: nat -> Fate) {
    && (forall r :: r in before && r !in rows ==> r in after && after[r] == before[r])
    && (forall r :: r in after ==> r in before)
    && (forall r :: r in rows && r in before ==> (fates(r).Deleted? <==> r !in after))
    && (forall r :: r in rows && r in after ==> after[r].attempts == before[r].attempts + 1 && after[r].nextTryAt > now)
  }

  lemma WorkedOneMore(before: map<nat, Deletion>, after: map<nat, Deletion>, rows: seq<nat>, row: nat, now: int,
                      fates: nat -> Fate)
    requires Worked(before, after, rows, now, fates) && row in before && row !in rows
    ensures row in after && after[row] == before[row]
    ensures Worked(before, Drained(after, row, now, fates(row)), rows + [row], now, fates)
  {
    BackoffIsPositive(before[row].attempts + 1);
  }

  /** The named rows are gone from the table, and only they. */
  ghost predicate Removed(before: map<nat, Object>, after: map<nat, Object>, keys: seq<nat>) {
    && (forall k :: k in after <==> k in before && k !in keys)
    && (forall k :: k in after ==> after[k] == before[k])
  }

  ghost predicate Extends(before: map<nat, Deletion>, after: map<nat, Deletion>) {
    forall r :: r in before ==> r in after && after[r] == before[r]
  }

  /** The jobs, as runs of the steps above: `log` is the run so far, from `first`. */
  class Jobs {
    var s: State
    ghost const first: State
    ghost var log: seq<Event>

    ghost predicate Logged()
      reads this
    {
      Legal(first, log) && s == After(first, log)
    }

    constructor (s: State)
      ensures this.s == first == s && Logged()
    {
      this.s, first, log := s, s, [];
    }

    method Do(e: Event)
      requires Logged() && Enabled(s, e)
      modifies this
      ensures Logged() && s == Next(old(s), e)
    {
      LegalAppend(first, log, e);
      s, log := Next(s, e), log + [e];
    }

    /** Deletes what one due row names, then drops the row or puts it off. */
    method Drain(row: nat, now: int, fate: Fate)
      requires Logged() && row in s.queue && Due(s.queue[row], now)
      modifies this
      ensures Logged() && s.objects == old(s.objects) && s.queue == Drained(old(s.queue), row, now, fate)
      ensures s.present <= old(s.present) && (fate.Failed? ==> s.present == old(s.present))
    {
      if !fate.Failed? {
        RemoteGone(s, row, now);
        Do(DeleteRemote(row, now));
      }
      if fate.Deleted? {
        Do(Finish(row, now));
      } else {
        Do(Retry(row, now));
      }
    }

    /** One more row worked on. */
    method Work(ghost before: map<nat, Deletion>, ghost rows: seq<nat>, row: nat, now: int, fates: nat -> Fate)
      requires Logged() && Worked(before, s.queue, rows, now, fates) && row in before && row !in rows
      requires Due(before[row], now)
      modifies this
      ensures Logged() && s.objects == old(s.objects) && Worked(before, s.queue, rows + [row], now, fates)
    {
      WorkedOneMore(before, s.queue, rows, row, now, fates);
      Drain(row, now, fates(row));
    }

    /** `drainDeletionQueue`: works through the due rows. */
    method DrainDeletionQueue(due: seq<nat>, now: int, fates: nat -> Fate) returns (done: nat, failed: nat)
      requires Logged() && Distinct(due) && forall r :: r in due ==> r in s.queue && Due(s.queue[r], now)
      modifies this
      ensures Logged() && s.objects == old(s.objects) && done + failed == |due|
      ensures Worked(old(s.queue), s.queue, due, now, fates)
    {
      done, failed := 0, 0;
      for i := 0 to |due|
        invariant Logged() && s.objects == old(s.objects) && done + failed == i
        invariant Worked(old(s.queue), s.queue, due[..i], now, fates)
      {
        assert due[i] in due && due[i] !in due[..i];
        Work(old(s.queue), due[..i], due[i], now, fates);
        if fates(due[i]).Deleted? {
          done := done + 1;
        } else {
          failed := failed + 1;
        }
        assert due[..i + 1] == due[..i] + [due[i]];
      }
      assert due[..|due|] == due;
    }

    /** `collectOrphans`: every orphan's row gives way to a queued deletion, and no other does. */
    method CollectOrphans(orphans: seq<nat>, now: int, firstRow: nat) returns (count: nat)
      requires Logged() && Distinct(orphans) && forall k :: k in orphans ==> k in s.objects && Orphaned(s, k, now)
      requires forall r :: r in s.queue ==> r < firstRow
      modifies this
      ensures Logged() && count == |orphans| && s.present == old(s.present)
      ensures Removed(old(s.objects), s.objects, orphans) && Extends(old(s.queue), s.queue)
    {
      ghost var before := s;
      for i := 0 to |orphans|
        invariant Logged() && s.present == old(s.present) && s.courses == before.courses
        invariant Removed(before.objects, s.objects, orphans[..i])
        invariant forall r :: r in s.queue ==> r < firstRow + i
        invariant Extends(old(s.queue), s.queue)
      {
        assert orphans[i] in orphans && orphans[i] !in orphans[..i];
        OrphanStays(before, s, orphans[i], now);
        OneCollected(before, s, orphans, i, firstRow + i, now);
        Do(Collect(orphans[i], firstRow + i, now));
      }
      assert orphans[..|orphans|] == orphans;
      return |orphans|;
    }
  }

  /** Deleting the file touches no row, and afterwards the deletion can be dropped. */
  lemma RemoteGone(s: State, row: nat, now: int)
    requires row in s.queue && Due(s.queue[row], now)
    ensures var s' := Next(s, DeleteRemote(row, now));
      && s'.objects == s.objects && s'.queue == s.queue && s'.present <= s.present
      && Enabled(s', Finish(row, now)) && Enabled(s', Retry(row, now))
  {
  }

  lemma OneCollected(before: State, s: State, orphans: seq<nat>, i: nat, row: nat, now: int)
    requires i < |orphans| && orphans[i] !in orphans[..i] && Removed(before.objects, s.objects, orphans[..i])
    requires Enabled(s, Collect(orphans[i], row, now))
    ensures var s' := Next(s, Collect(orphans[i], row, now));
      && Removed(before.objects, s'.objects, orphans[..i + 1]) && Extends(s.queue, s'.queue)
      && s'.queue.Keys == s.queue.Keys + {row} && s'.present == s.present && s'.courses == s.courses
  {
    assert orphans[..i + 1] == orphans[..i] + [orphans[i]];
  }

  lemma OrphanStays(before: State, s: State, key: nat, now: int)
    requires key in before.objects && key in s.objects && s.objects[key] == before.objects[key]
    requires s.courses == before.courses
    ensures Orphaned(s, key, now) == Orphaned(before, key, now)
  {
  }

  lemma BackoffIsPositive(attempts: nat)
    ensures BackoffMs(attempts) > 0
  {
    Pow2IsPositive(attempts);
  }

  lemma {:induction false} Pow2IsPositive(n: nat)
    ensures Pow2(n) > 0
  {
    if n > 0 {
      Pow2IsPositive(n - 1);
    }
  }
}
