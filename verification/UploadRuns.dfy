/** Every interleaving of the requests of one upload: several tabs, retries and crashes included. */
module UploadRuns {
  import opened Bytes
  import opened Upload

  /**
   * A request in flight: a chunk the gateway let through, a status question (asked by the browser, or by
   * the gateway after a failed chunk), or an answer of Google's that has not reached the row yet.
   */
  datatype Flight = Chunk | Question(recheck: bool) | Heard(result: ChunkResult, recheck: bool)

  /** `wire` is every chunk ever sent on: its bytes may arrive late, or more than once. */
  datatype State = State(row: Row, held: bytes, wire: set<(nat, bytes)>, flights: map<nat, Flight>)

  datatype Event =
    | Admit(id: nat, start: nat, length: nat)   // the gateway reads the row and lets a chunk through
    | Ask(id: nat)                              // the browser asks how much Google has
    | Arrive(chunk: (nat, bytes), kept: nat)    // part of a chunk reaches Google
    | Reply(id: nat)                            // Google answers a chunk or a question
    | Interrupt(id: nat)                        // the chunk's answer is lost: the gateway asks instead
    | Record(id: nat)                           // the gateway writes the answer to the row
    | Drop(id: nat)                             // the gateway dies, or its question fails

  predicate Enabled(s: State, e: Event) {
    match e
    case Admit(id, start, length) =>
      && id !in s.flights && !s.row.completed && start == s.row.confirmed
      && 0 < length <= CHUNK_BYTES && start + length <= s.row.total
    case Ask(id) => id !in s.flights && !s.row.completed
    case Arrive(chunk, _) => chunk in s.wire
    case Reply(id) => id in s.flights && !s.flights[id].Heard?
    case Interrupt(id) => id in s.flights && s.flights[id].Chunk?
    case Record(id) => id in s.flights && s.flights[id].Heard?
    case Drop(id) => id in s.flights
  }

  function Next(source: bytes, s: State, e: Event): State
    requires Enabled(s, e) && s.row.total == |source|
  {
    match e
    case Admit(id, start, length) =>
      s.(flights := s.flights[id := Chunk], wire := s.wire + {(start, source[start..start + length])})
    case Ask(id) => s.(flights := s.flights[id := Question(false)])
    case Arrive(chunk, kept) => s.(held := Taken(s.held, chunk.0, chunk.1, kept))
    case Reply(id) =>
      var recheck := s.flights[id].Question? && s.flights[id].recheck;
      s.(flights := s.flights[id := Heard(Answer(s.held, s.row.total), recheck)])
    case Interrupt(id) => s.(flights := s.flights[id := Question(true)])
    case Record(id) =>
      var f := s.flights[id];
      var row := if f.recheck then Rechecked(s.row, f.result) else Recorded(s.row, f.result);
      s.(row := row, flights := s.flights - {id})
    case Drop(id) => s.(flights := s.flights - {id})
  }

  /** The states a run passes through, first to last. */
  ghost predicate Run(source: bytes, states: seq<State>, events: seq<Event>) {
    && |states| == |events| + 1
    && states[0].row == Row(|source|, 0, false) && states[0].held == [] && states[0].wire == {}
    && states[0].flights == map[]
    && forall i :: 0 <= i < |events| ==> Step(source, states[i], events[i], states[i + 1])
  }

  predicate Step(source: bytes, s: State, e: Event, s': State) {
    s.row.total == |source| && Enabled(s, e) && s' == Next(source, s, e)
  }

  /** A chunk sent on is a slice of the source that leaves no gap. */
  ghost predicate ChunkOk(source: bytes, held: bytes, c: (nat, bytes)) {
    c.0 <= |held| && c.0 + |c.1| <= |source| && c.1 == source[c.0..c.0 + |c.1|]
  }

  /** An answer in flight was true when it was given. */
  ghost predicate FlightOk(source: bytes, held: bytes, f: Flight) {
    f.Heard? ==> f.result.confirmed <= |held| && (f.result.finished ==> held == source)
  }

  ghost predicate Inv(source: bytes, s: State) {
    && Sound(source, s.row, s.held)
    && (forall c :: c in s.wire ==> ChunkOk(source, s.held, c))
    && (forall id :: id in s.flights ==> FlightOk(source, s.held, s.flights[id]))
  }

  lemma InvKept(source: bytes, s: State, e: Event)
    requires Inv(source, s) && Enabled(s, e)
    ensures Inv(source, Next(source, s, e)) && s.held <= Next(source, s, e).held
    ensures s.row.completed ==> Next(source, s, e).row.completed
  {
    match e {
      case Arrive(chunk, kept) => TakenIsPrefix(source, s.held, chunk.0, chunk.1, kept);
      case Reply(id) => AnswerIsHonest(s.held, s.row.total);
      case _ =>
    }
  }

  /**
   * In every state of every run Google holds a prefix of the source, the row claims no more than Google
   * holds, and the row is complete only when the whole object is held.
   */
  lemma {:induction false} AlwaysSound(source: bytes, states: seq<State>, events: seq<Event>, n: nat)
    requires Run(source, states, events) && n < |states|
    ensures Inv(source, states[n])
  {
    if n > 0 {
      AlwaysSound(source, states, events, n - 1);
      assert Step(source, states[n - 1], events[n - 1], states[n]);
      InvKept(source, states[n - 1], events[n - 1]);
    }
  }

  /** Google never forgets, and a completed upload stays completed. */
  lemma {:induction false} OnlyGrows(source: bytes, states: seq<State>, events: seq<Event>, m: nat, n: nat)
    requires Run(source, states, events) && m <= n < |states|
    ensures states[m].held <= states[n].held && (states[m].row.completed ==> states[n].row.completed)
    decreases n - m
  {
    if m < n {
      OnlyGrows(source, states, events, m, n - 1);
      AlwaysSound(source, states, events, n - 1);
      assert Step(source, states[n - 1], events[n - 1], states[n]);
      InvKept(source, states[n - 1], events[n - 1]);
    }
  }

  /** No chunk that reaches Google, however late, starts beyond what Google holds. */
  lemma NoGapArises(source: bytes, states: seq<State>, events: seq<Event>, i: nat)
    requires Run(source, states, events) && i < |events| && events[i].Arrive?
    ensures events[i].chunk.0 <= |states[i].held|
  {
    AlwaysSound(source, states, events, i);
    assert Step(source, states[i], events[i], states[i + 1]);
  }

  /** Once everything is held, one undisturbed status question completes the upload. */
  lemma AskingCompletes(source: bytes, s: State, id: nat)
    requires Inv(source, s) && s.held == source && id !in s.flights && !s.row.completed
    ensures
      var asked := Next(source, s, Ask(id));
      var heard := Next(source, asked, Reply(id));
      Enabled(s, Ask(id)) && Enabled(asked, Reply(id)) && Enabled(heard, Record(id))
      && Next(source, heard, Record(id)).row == Row(|source|, |source|, true)
  {
    AnswerIsHonest(s.held, s.row.total);
  }

  /** A late answer can move the row's count back, but a fresh chunk from there still closes the gap. */
  lemma StaleAnswerIsHarmless(source: bytes, s: State, id: nat, length: nat, kept: nat)
    requires Inv(source, s) && id !in s.flights && !s.row.completed
    requires 0 < length <= CHUNK_BYTES && s.row.confirmed + length <= |source|
    requires |s.held| < kept <= s.row.confirmed + length
    ensures
      var from := s.row.confirmed;
      var arrival := Arrive((from, source[from..from + length]), kept);
      Enabled(s, Admit(id, from, length)) && Enabled(Next(source, s, Admit(id, from, length)), arrival)
      && Next(source, Next(source, s, Admit(id, from, length)), arrival).held == source[..kept]
  {
    var from := s.row.confirmed;
    var admitted := Next(source, s, Admit(id, from, length));
    var arrival := Arrive((from, source[from..from + length]), kept);
    InvKept(source, s, Admit(id, from, length));
    InvKept(source, admitted, arrival);
    assert |Next(source, admitted, arrival).held| == kept;
  }
}
