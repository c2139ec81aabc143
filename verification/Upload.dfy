/** Resumable uploads: the gateway's row, Google's session and the browser that feeds them. */
module Upload {
  import opened Bytes
  import Kvblob

  const CHUNK_BYTES := 8388608
  const UNIT := 262144
  const MAX_OBJECT_BYTES := 209715200
  const ATTEMPTS := 6

  // ── Google's side ─────────────────────────────────────────────────────────

  /**
   * A chunk that starts at `start` arrives in part and Google keeps everything up to `kept`: it never
   * forgets a byte, ignores bytes it already holds, and takes nothing beyond a gap.
   */
  function Taken(held: bytes, start: nat, body: bytes, kept: nat): (after: bytes)
    ensures held <= after
  {
    var to := Min(kept, start + |body|);
    if start <= |held| < to then held + body[|held| - start..to - start] else held
  }

  /** The last byte a 308 reply names, when Google holds any. */
  function RangeHeader(held: bytes): Option<nat> { if held == [] then None else Some(|held| - 1) }

  /** `confirmedFrom`: the bytes Google has confirmed, counted from 0. */
  function ConfirmedFrom(range: Option<nat>): nat { if range.Some? then range.value + 1 else 0 }

  datatype ChunkResult = ChunkResult(confirmed: nat, finished: bool)

  /** What `putChunk` reports of a session: everything, once the whole object is held. */
  function Answer(held: bytes, total: nat): ChunkResult {
    if |held| == total then ChunkResult(total, true) else ChunkResult(ConfirmedFrom(RangeHeader(held)), false)
  }

  lemma AnswerIsHonest(held: bytes, total: nat)
    ensures Answer(held, total) == ChunkResult(|held|, |held| == total)
  {
  }

  // ── The gateway's row ─────────────────────────────────────────────────────

  datatype Row = Row(total: nat, confirmed: nat, completed: bool)

  /** The row after Google's answer to a chunk or to a status question. */
  function Recorded(row: Row, r: ChunkResult): Row {
    row.(confirmed := r.confirmed, completed := row.completed || r.finished)
  }

  /** The row after a failed chunk: only how much Google kept. */
  function Rechecked(row: Row, r: ChunkResult): Row { row.(confirmed := r.confirmed) }

  /** Google holds a prefix of the source, the row never claims more, and is complete only when all is held. */
  ghost predicate Sound(source: bytes, row: Row, held: bytes) {
    && row.total == |source|
    && held <= source
    && row.confirmed <= |held|
    && (row.completed ==> held == source)
  }

  /** A slice of the source that leaves no gap extends the prefix. */
  lemma TakenIsPrefix(source: bytes, held: bytes, start: nat, body: bytes, kept: nat)
    requires held <= source && start + |body| <= |source| && body == source[start..start + |body|]
    ensures Taken(held, start, body, kept) <= source
  {
    var to := Min(kept, start + |body|);
    if start <= |held| < to {
      SliceOfSlice(source, start, start + |body|, |held| - start, to - start);
      assert source[..to] == source[..|held|] + source[|held|..to];
    }
  }

  /** The recheck after a lost answer records every byte but not that the upload is complete. */
  lemma RecheckLeavesItOpen(source: bytes, row: Row)
    requires Sound(source, row, source) && !row.completed
    ensures Rechecked(row, Answer(source, row.total)) == Row(|source|, |source|, false)
    ensures Recorded(row, Answer(source, row.total)) == Row(|source|, |source|, true)
  {
  }

  // ── One request at a time ─────────────────────────────────────────────────

  datatype Fate = Answered | Interrupted | Expired

  /** Everything that is not the gateway's to decide: earlier checks, the budget, the network and Google. */
  datatype Weather = Weather(
    before: Option<nat>, after: Option<nat>, overBudget: bool, kept: nat, fate: Fate, rechecked: bool, heard: bool)

  /** What reaches the browser: a status with, for 200 and for a chunk out of order, Google's progress. */
  datatype Reply = Progress(confirmed: nat, done: bool) | OutOfOrder(confirmed: nat) | Failure(status: nat)

  predicate TooLarge(total: nat) { 100 * total > 101 * MAX_OBJECT_BYTES + 104857600 }

  /** The slack is enough: no document of 200 MiB or less is too large once sealed in frames of 1600 bytes or more. */
  lemma SealedFits(size: nat, headerBytes: nat, frame: pos)
    requires size <= 200 * 1024 * 1024 && headerBytes <= 1024 * 1024 - 16 && frame >= 1600
    ensures !TooLarge(Kvblob.CipherBytes(size, headerBytes, frame))
  {
    CeilDivBounds(size, frame);
    var n := Kvblob.SharedFrameCount(size, frame);
    if n > 0 && size > 0 {
      MulMonotone(1600, frame, n - 1);
    }
  }

  /** Google keeps whole units until the object ends. */
  predicate Aligned(n: nat, total: nat) { n % UNIT == 0 || n == total }

  predicate InOrder(w: Weather, total: nat) { Aligned(w.kept, total) && w.before != Some(400) && w.after != Some(400) }

  /** A chunk of whole units, or the last one. */
  predicate WholeUnits(start: nat, length: nat, total: nat) {
    length <= CHUNK_BYTES && start % UNIT == 0 && (length % UNIT == 0 || start + length == total)
  }

  predicate AllAligned(row: Row, held: nat) { Aligned(row.confirmed, row.total) && Aligned(held, row.total) }

  /** The chunk comes in turn, has an allowed size, and nothing else stands in its way. */
  predicate Admits(row: Row, start: nat, body: bytes, declared: int, total: nat, w: Weather) {
    && w.before.None? && !row.completed && w.after.None? && total == row.total && start == row.confirmed
    && 0 < |body| == declared && |body| <= CHUNK_BYTES
    && (start + |body| < row.total ==> |body| % UNIT == 0)
    && !TooLarge(row.total) && !w.overBudget
  }

  /** One upload: the gateway's row and the bytes Google holds. */
  class Transfer {
    var row: Row
    var held: bytes

    constructor (total: nat)
      ensures row == Row(total, 0, false) && held == []
    {
      row, held := Row(total, 0, false), [];
    }

    /** A chunk: refused, or forwarded and the answer recorded. */
    method PutChunk(start: nat, body: bytes, declared: int, total: nat, w: Weather, ghost source: bytes)
      returns (r: Reply)
      requires Sound(source, row, held) && start + |body| <= |source| && body == source[start..start + |body|]
      modifies this
      ensures Sound(source, row, held) && old(held) <= held
      ensures r.Progress? ==> r == Progress(|held|, held == source) && (row.completed <==> held == source)
      ensures w.before.Some? ==> r == Failure(w.before.value)
      ensures r.OutOfOrder? ==> row == old(row) && r.confirmed == row.confirmed
      ensures r.OutOfOrder? <==>
        w.before.None? && !old(row.completed) && w.after.None? && total == |source| && start != old(row.confirmed)
      ensures held ==
        if Admits(old(row), start, body, declared, total, w) then Taken(old(held), start, body, w.kept) else old(held)
      ensures Admits(old(row), start, body, declared, total, w) ==>
        && (r.Progress? <==> w.fate.Answered?)
        && (!w.fate.Answered? ==> r == Failure(if w.fate.Expired? then 410 else 503))
        && row == if w.fate.Answered? then Row(|source|, |held|, held == source)
                  else if w.rechecked then Row(|source|, |held|, false)
                  else old(row)
      ensures !Admits(old(row), start, body, declared, total, w) ==>
        row == old(row) && (r.Progress? <==> w.before.None? && row.completed)
      ensures WholeUnits(start, |body|, total) && body != [] && declared == |body| && total == |source| ==>
        InOrder(w, total) ==> r != Failure(400)
      ensures InOrder(w, |source|) && old(AllAligned(row, |held|)) ==> AllAligned(row, |held|)
      ensures body != [] && old(row.confirmed) == |source| && !old(row.completed) ==> row == old(row) && !r.Progress?
    {
      if w.before.Some? {
        return Failure(w.before.value);
      }
      if row.completed {
        return Progress(row.total, true);
      }
      if w.after.Some? {
        return Failure(w.after.value);
      }
      if total != row.total {
        return Failure(400);
      }
      if start != row.confirmed {
        return OutOfOrder(row.confirmed);
      }
      if |body| == 0 || declared != |body| || |body| > CHUNK_BYTES {
        return Failure(400);
      }
      if start + |body| < row.total && |body| % UNIT != 0 {
        return Failure(400);
      }
      if TooLarge(row.total) {
        return Failure(413);
      }
      if w.overBudget {
        return Failure(429);
      }
      TakenIsPrefix(source, held, start, body, w.kept);
      held := Taken(held, start, body, w.kept);
      AnswerIsHonest(held, row.total);
      if w.fate.Answered? {
        row := Recorded(row, Answer(held, row.total));
        return Progress(row.confirmed, row.completed);
      }
      if w.rechecked {
        row := Rechecked(row, Answer(held, row.total));
      }
      return Failure(if w.fate.Expired? then 410 else 503);
    }

    /** A status question: how much has Google got? */
    method PutStatus(total: nat, w: Weather, ghost source: bytes) returns (r: Reply)
      requires Sound(source, row, held)
      modifies `row
      ensures Sound(source, row, held)
      ensures r.Progress? <==>
        w.before.None? && (old(row.completed) || (w.after.None? && total == |source| && w.fate.Answered?))
      ensures r.Progress? ==> r == Progress(|held|, held == source) && (row.completed <==> held == source)
      ensures row == if r.Progress? && !old(row.completed) then Row(|source|, |held|, held == source) else old(row)
      ensures !r.OutOfOrder?
      ensures old(AllAligned(row, |held|)) ==> AllAligned(row, |held|)
    {
      if w.before.Some? {
        return Failure(w.before.value);
      }
      if row.completed {
        return Progress(row.total, true);
      }
      if w.after.Some? {
        return Failure(w.after.value);
      }
      if total != row.total {
        return Failure(400);
      }
      if !w.fate.Answered? {
        return Failure(503);
      }
      AnswerIsHonest(held, row.total);
      row := Recorded(row, Answer(held, row.total));
      return Progress(row.confirmed, row.completed);
    }
  }

  // ── The browser ───────────────────────────────────────────────────────────

  /** A chunk is through: Google's count after it, and whether the gateway said so in answer to it. */
  datatype Through = Through(confirmed: nat, answered: bool)

  datatype UploadError = LostPart | RefusedFinally(status: nat) | KeptFailing | ChunkNotKept | FileChanged

  predicate IsFinal(status: nat) { status in {429, 401, 403, 410, 413, 400} }

  /** Google keeps whole units, and no earlier check answers 400. */
  ghost predicate Orderly(weather: seq<(Weather, Weather)>, total: nat) {
    forall i :: 0 <= i < |weather| ==> InOrder(weather[i].0, total)
  }

  /** What is left of a chunk after a unit boundary is again whole units, or the last. */
  lemma RestIsWhole(start: nat, length: nat, total: nat, offset: nat)
    requires start <= offset < start + length <= total
    ensures WholeUnits(start, length, total) && Aligned(offset, total) ==>
      WholeUnits(offset, start + length - offset, total)
  {
  }

  /** Nothing stands in the way of the request and its answer arrives. */
  predicate Calm(w: Weather, total: nat) {
    w.before.None? && w.after.None? && !w.overBudget && w.fate.Answered? && w.heard && w.kept >= total
    && !TooLarge(total)
  }

  // ── When an upload is left open ───────────────────────────────────────────

  /** Where a chunk stands between attempts: where the browser resumes, what the row says and how much Google holds. */
  datatype Stand = Stand(offset: nat, row: Row, held: nat)

  predicate Clear(w: Weather) { w.before.None? && w.after.None? }

  /** The next request is refused as out of order, and the browser hears so. */
  predicate Refused(s: Stand, now: Weather) {
    Clear(now) && now.heard && !s.row.completed && s.row.confirmed != s.offset
  }

  /** Row and count after the rest of the last chunk is sent. */
  function AfterSend(s: Stand, now: Weather): Stand {
    var total := s.row.total;
    if !Clear(now) || s.row.confirmed != s.offset || now.overBudget || TooLarge(total) then s
    else
      var held := Max(s.held, Min(now.kept, total));
      var row :=
        if now.fate.Answered? then Row(total, held, held == total)
        else if now.rechecked then Row(total, held, false)
        else s.row;
      s.(row := row, held := held)
  }

  /** And after the status question that follows. */
  function AfterAsk(s: Stand, asking: Weather): Stand {
    if s.row.completed || !Reaches(asking) then s
    else
      var asked := s.(row := Row(s.row.total, s.held, s.held == s.row.total));
      if asking.heard then asked.(offset := s.held) else asked
  }

  function AfterTry(s: Stand, now: Weather): Stand {
    if s.row.completed || Refused(s, now) then s else AfterSend(s, now)
  }

  /** One attempt at the last chunk that does not end the matter. */
  function After(s: Stand, now: Weather, asking: Weather): Stand {
    if Refused(s, now) then s.(offset := s.row.confirmed) else AfterAsk(AfterTry(s, now), asking)
  }

  /** Some attempt is refused because the row, though not marked complete, already counts every byte. */
  predicate LeftOpenFrom(s: Stand, weather: seq<(Weather, Weather)>)
    decreases |weather|
  {
    weather != [] &&
    ((Refused(s, weather[0].0) && s.row.confirmed >= s.row.total)
     || LeftOpenFrom(After(s, weather[0].0, weather[0].1), weather[1..]))
  }

  /** Where the last chunk of an upload begins. */
  function LastStart(total: pos): nat { (total - 1) / CHUNK_BYTES * CHUNK_BYTES }

  /** Chunks begin at multiples of the chunk size, and the last is the one that reaches the end. */
  lemma LastChunk(start: nat, length: nat, total: pos)
    requires start % CHUNK_BYTES == 0 && 0 < length <= CHUNK_BYTES && start + length <= total
    ensures start + length == total ==> start == LastStart(total)
    ensures start == LastStart(total) && length == CHUNK_BYTES ==> start + length == total
    ensures length == CHUNK_BYTES || start + length == total ==> WholeUnits(start, length, total)
  {
    BlockOf(total - 1, CHUNK_BYTES);
    UnitsInChunks(start);
    if start + length == total {
      DivMod(start, CHUNK_BYTES);
      SameQuotient(total - 1, CHUNK_BYTES, start / CHUNK_BYTES, (total - 1) / CHUNK_BYTES);
    }
  }

  lemma UnitsInChunks(n: nat)
    requires n % CHUNK_BYTES == 0
    ensures n % UNIT == 0
  {
    DivMod(n, CHUNK_BYTES);
    assert n == n / CHUNK_BYTES * 32 * UNIT;
  }

  /** The weather of the last chunk's attempts leaves the upload open. */
  predicate LeftOpen(total: pos, weather: seq<(Weather, Weather)>) {
    LeftOpenFrom(Stand(LastStart(total), Row(total, LastStart(total), false), LastStart(total)), weather)
  }

  lemma {:induction false} CompletedIsClosed(s: Stand, weather: seq<(Weather, Weather)>)
    requires s.row.completed
    ensures !LeftOpenFrom(s, weather)
    decreases |weather|
  {
    if weather != [] {
      CompletedIsClosed(After(s, weather[0].0, weather[0].1), weather[1..]);
    }
  }

  /** It takes a lost answer of Google's and a recheck: without one, no upload is left open. */
  lemma OnlyRechecksLeaveOpen(total: pos, weather: seq<(Weather, Weather)>)
    requires forall i :: 0 <= i < |weather| ==> weather[i].0.fate.Answered? || !weather[i].0.rechecked
    ensures !LeftOpen(total, weather)
  {
    BlockOf(total - 1, CHUNK_BYTES);
    StaysClosed(Stand(LastStart(total), Row(total, LastStart(total), false), LastStart(total)), weather);
  }

  lemma {:induction false} StaysClosed(s: Stand, weather: seq<(Weather, Weather)>)
    requires forall i :: 0 <= i < |weather| ==> weather[i].0.fate.Answered? || !weather[i].0.rechecked
    requires s.row.completed || (s.row.confirmed < s.row.total && s.held <= s.row.total)
    ensures !LeftOpenFrom(s, weather)
    decreases |weather|
  {
    if weather != [] {
      assert forall i :: 0 <= i < |weather[1..]| ==> weather[1..][i] == weather[i + 1];
      StaysClosed(After(s, weather[0].0, weather[0].1), weather[1..]);
    }
  }

  /** Everything that was left arrives, the answer is lost, and the recheck records every byte. */
  predicate LosesAnswer(now: Weather, total: nat) {
    Clear(now) && !now.overBudget && !TooLarge(total) && now.kept >= total && now.fate.Interrupted? && now.rechecked
  }

  predicate Reaches(asking: Weather) { Clear(asking) && asking.fate.Answered? }

  lemma CalmIsClosed(total: pos, weather: seq<(Weather, Weather)>)
    requires weather != [] && Calm(weather[0].0, total)
    ensures !LeftOpen(total, weather)
  {
    BlockOf(total - 1, CHUNK_BYTES);
    var s := Stand(LastStart(total), Row(total, LastStart(total), false), LastStart(total));
    CompletedIsClosed(After(s, weather[0].0, weather[0].1), weather[1..]);
  }

  /**
   * The first attempt at a chunk loses its answer, the status question does not get through, and the next request
   * does.
   */
  predicate LastAnswerLost(weather: seq<(Weather, Weather)>, total: nat) {
    && |weather| >= 2 && LosesAnswer(weather[0].0, total) && !Reaches(weather[0].1)
    && Clear(weather[1].0) && weather[1].0.heard
  }

  lemma LostIsLeftOpen(total: pos, weather: seq<(Weather, Weather)>)
    requires LastAnswerLost(weather, total)
    ensures LeftOpen(total, weather)
  {
    BlockOf(total - 1, CHUNK_BYTES);
    var s := Stand(LastStart(total), Row(total, LastStart(total), false), LastStart(total));
    var next := After(s, weather[0].0, weather[0].1);
    assert next == Stand(LastStart(total), Row(total, total, false), total);
    assert LeftOpenFrom(next, weather[1..]);
  }

  /** What one attempt comes to: the chunk is through or given up on, or the next attempt starts at an offset. */
  datatype Turn = Finished(result: Result<Through, UploadError>) | Again(from: nat) {
    predicate Passed() { Finished? && result.Ok? }
  }

  /**
   * What one request comes to: it is out of order, and then nothing changed, or it is through with everything
   * recorded.
   */
  ghost predicate Tried(s: Stand, now: Weather, end: nat, turn: Option<Turn>, row: Row, held: nat) {
    && (turn.None? ==> !Refused(s, now))
    && (turn.Some? && turn.value.Again? ==> Refused(s, now) && turn.value.from == s.row.confirmed)
    && (turn.Some? && turn.value.Again? ==> (row, held) == (s.row, s.held))
    && (turn.Some? && turn.value.Passed() && Refused(s, now) ==>
          turn.value.result.value == Through(s.row.confirmed, false) && s.row.confirmed >= end
          && (row, held) == (s.row, s.held))
    && (turn.Some? && turn.value.Passed() && !Refused(s, now) ==>
          turn.value.result.value == Through(held, true) && (row.completed <==> held == row.total)
          && (row.completed || row.confirmed == held))
    && (Refused(s, now) && s.row.confirmed >= end > s.offset ==>
          turn == Some(Finished(Ok(Through(s.row.confirmed, false)))))
    && (turn.Some? && turn.value.Finished? ==> EndsWell(turn.value.result))
    && (Stopped(now) ==>
          turn == Some(Finished(Err(RefusedFinally(now.before.value)))) && (row, held) == (s.row, s.held))
    && (turn.None? ==> !Stopped(now))
  }

  /** The gateway answers, before it looks at the row, what no retry can change, and the browser hears so. */
  predicate Stopped(now: Weather) {
    now.before.Some? && now.heard && now.before.value in {400, 401, 403, 410, 413, 429}
  }

  /** No other refusal ends an upload. */
  predicate EndsWell(r: Result<Through, UploadError>) {
    r.Err? && r.error.RefusedFinally? ==> r.error.status in {400, 401, 403, 410, 413, 429}
  }

  /**
   * One attempt at the last chunk: the next one starts where counting says, or the matter ends with the row complete
   * or left open.
   */
  ghost predicate Counted(s: Stand, now: Weather, asking: Weather, turn: Turn, row: Row, held: nat) {
    var open := Refused(s, now) && s.row.confirmed >= s.row.total;
    && (turn.Again? ==> !open && Stand(turn.from, row, held) == After(s, now, asking))
    && (turn.Passed() && turn.result.value.confirmed == row.total ==>
          (open <==> !row.completed) && (row.completed ==> After(s, now, asking).row.completed))
  }

  /** One chunk to send: where it stands at first, where it ends, and the weather of its attempts. */
  datatype Plan = Plan(first: Stand, end: nat, weather: seq<(Weather, Weather)>) {
    predicate Whole() { first.offset <= end && WholeUnits(first.offset, end - first.offset, first.row.total) }

    /** Google keeps whole units, and so far everything is in whole units. */
    ghost predicate InUnits() { Orderly(weather, first.row.total) && Whole() && AllAligned(first.row, first.held) }

    predicate Fresh() { first.row == Row(first.row.total, first.offset, false) }

    predicate Last() { end == first.row.total && end - first.offset <= CHUNK_BYTES }

    predicate StartsCalm()
      requires weather != []
    {
      Calm(weather[0].0, first.row.total) && Whole() && Fresh() && first.held == first.offset
    }

    predicate Loses() { LastAnswerLost(weather, first.row.total) && Fresh() && Last() }

    /** What `sendChunk` comes to. */
    ghost predicate Sent(r: Result<Through, UploadError>, row: Row, held: nat)
      requires weather != []
    {
      && held <= Max(first.held, end)
      && (r.Ok? ==> r.value.confirmed == if row.completed then row.total else row.confirmed)
      && (r.Ok? && r.value.confirmed == row.total ==> (r.value.answered <==> row.completed))
      && (r.Ok? && r.value.confirmed == row.total && Last() ==> (row.completed <==> !LeftOpenFrom(first, weather)))
      && (InUnits() ==> AllAligned(row, held) && r != Err(RefusedFinally(400)))
      && (StartsCalm() ==> r == Ok(Through(end, true)) && row == Row(row.total, end, end == row.total) && held == end)
      && (Loses() ==> r == Ok(Through(row.total, false)))
      && EndsWell(r)
      && (Stopped(weather[0].0) ==>
            r == Err(RefusedFinally(weather[0].0.before.value)) && (row, held) == (first.row, first.held))
    }

    /** What holds before attempt `i`. */
    ghost predicate Underway(i: nat, s: Stand)
      requires weather != [] && i <= |weather|
    {
      && first.offset <= s.offset < end <= s.row.total == first.row.total
      && s.held <= Max(first.held, end)
      && (InUnits() ==> AllAligned(s.row, s.held) && Aligned(s.offset, s.row.total))
      && (StartsCalm() ==> i == 0 && s == first)
      && (Stopped(weather[0].0) ==> i == 0 && s == first)
      && (Loses() ==>
            s.offset == first.offset && i <= 1
            && s.row == Row(s.row.total, if i == 0 then first.offset else s.row.total, false))
      && (Last() ==> LeftOpenFrom(first, weather) == LeftOpenFrom(s, weather[i..]))
    }

    lemma Begins()
      requires weather != [] && first.offset < end <= first.row.total
      ensures Underway(0, first)
    {
      assert weather[0..] == weather;
    }

    /** One attempt: the next one is under way, or the chunk is sent. */
    lemma Attempt(i: nat, s: Stand, turn: Turn, row: Row, held: nat)
      requires i < |weather| && Underway(i, s) && row.total == first.row.total
      requires Attempted(s, first.offset, end, weather[i].0, weather[i].1, turn, row, held)
      ensures turn.Again? ==> Underway(i + 1, Stand(turn.from, row, held))
      ensures turn.Finished? ==> Sent(turn.result, row, held)
    {
      if Last() {
        LeftOpenStep(s, weather, i, turn, row, held);
      }
      RestIsWhole(first.offset, end - first.offset, first.row.total, s.offset);
    }
  }

  /** One attempt counted: what is left of the weather decides, or the attempt has decided. */
  lemma LeftOpenStep(s: Stand, weather: seq<(Weather, Weather)>, i: nat, turn: Turn, row: Row, held: nat)
    requires i < |weather| && Counted(s, weather[i].0, weather[i].1, turn, row, held) && row.total == s.row.total
    ensures turn.Again? ==> LeftOpenFrom(s, weather[i..]) == LeftOpenFrom(Stand(turn.from, row, held), weather[i + 1..])
    ensures turn.Passed() && turn.result.value.confirmed == row.total ==>
      (row.completed <==> !LeftOpenFrom(s, weather[i..]))
  {
    assert weather[i..][1..] == weather[i + 1..];
    if turn.Passed() && turn.result.value.confirmed == row.total && row.completed {
      CompletedIsClosed(After(s, weather[i].0, weather[i].1), weather[i + 1..]);
    }
  }

  /** `sendChunk`: sends one chunk, resuming from whatever Google already holds. */
  method SendChunk(t: Transfer, chunk: bytes, start: nat, total: nat, weather: seq<(Weather, Weather)>,
                   ghost source: bytes)
    returns (r: Result<Through, UploadError>)
    requires Sound(source, t.row, t.held) && total == |source| && |weather| == ATTEMPTS
    requires chunk != [] && start + |chunk| <= |source| && chunk == source[start..start + |chunk|]
    modifies t
    ensures Sound(source, t.row, t.held) && old(t.held) <= t.held
    ensures Plan(Stand(start, old(t.row), |old(t.held)|), start + |chunk|, weather).Sent(r, t.row, |t.held|)
  {
    ghost var plan := Plan(Stand(start, t.row, |t.held|), start + |chunk|, weather);
    var offset := start;
    plan.Begins();
    for attempt := 0 to ATTEMPTS
      invariant start <= offset < start + |chunk|
      invariant Sound(source, t.row, t.held) && old(t.held) <= t.held
      invariant plan.Underway(attempt, Stand(offset, t.row, |t.held|))
    {
      var piece := chunk[offset - start..];
      SliceOfSlice(source, start, start + |chunk|, offset - start, |chunk|);
      ghost var stand := Stand(offset, t.row, |t.held|);
      var turn := SendPiece(t, piece, offset, start, start + |chunk|, total, weather[attempt].0, weather[attempt].1,
          source);
      plan.Attempt(attempt, stand, turn, t.row, |t.held|);
      match turn {
        case Finished(result) => return result;
        case Again(from) => offset := from;
      }
    }
    return Err(KeptFailing);
  }

  /** What one attempt promises, from where the chunk stood to the new row and count. */
  ghost predicate Attempted(s: Stand, start: nat, end: nat, now: Weather, asking: Weather, turn: Turn, row: Row,
                            held: nat)
    requires s.offset <= end
  {
    var total, rest := s.row.total, end - s.offset;
    && (turn.Again? ==> start <= turn.from < end)
    && held <= Max(s.held, end)
    && (turn.Passed() ==> turn.result.value.confirmed == if row.completed then total else row.confirmed)
    && (turn.Passed() && turn.result.value.confirmed == total ==> (turn.result.value.answered <==> row.completed))
    && (end == total && rest <= CHUNK_BYTES ==> Counted(s, now, asking, turn, row, held))
    && (InOrder(now, total) && WholeUnits(s.offset, rest, total) && AllAligned(s.row, s.held) ==>
          && AllAligned(row, held) && turn != Finished(Err(RefusedFinally(400)))
          && (turn.Again? ==> turn.from == s.offset || Aligned(turn.from, total)))
    && var untouched := s.row == Row(total, s.offset, false);
    && (Calm(now, total) && WholeUnits(s.offset, rest, total) && untouched && s.held == s.offset ==>
          turn == Finished(Ok(Through(end, true))) && row == Row(total, end, end == total) && held == end)
    && (LosesAnswer(now, total) && !Reaches(asking) && end == total && rest <= CHUNK_BYTES && untouched ==>
          turn == Again(s.offset) && row == Row(total, total, false))
    && (Clear(now) && now.heard && s.row == Row(total, total, false) ==> turn == Finished(Ok(Through(total, false))))
    && (turn.Finished? ==> EndsWell(turn.result))
    && (Stopped(now) ==> turn == Finished(Err(RefusedFinally(now.before.value))) && (row, held) == (s.row, s.held))
  }

  /** One attempt: the rest of the chunk, and a status question if its answer does not settle the matter. */
  method SendPiece(t: Transfer, piece: bytes, offset: nat, start: nat, end: nat, total: nat, now: Weather,
                   asking: Weather, ghost source: bytes)
    returns (turn: Turn)
    requires Sound(source, t.row, t.held) && total == |source|
    requires start <= offset < end <= |source| && piece == source[offset..end]
    modifies t
    ensures Sound(source, t.row, t.held) && old(t.held) <= t.held
    ensures Attempted(Stand(offset, old(t.row), |old(t.held)|), start, end, now, asking, turn, t.row, |t.held|)
  {
    var settled := Try(t, piece, offset, start, end, total, now, source);
    if settled.Some? {
      return settled.value;
    }
    turn := Ask(t, offset, start, end, total, asking, source);
  }

  /** The request itself: it settles the matter, or the browser has to ask. */
  method Try(t: Transfer, piece: bytes, offset: nat, start: nat, end: nat, total: nat, now: Weather,
             ghost source: bytes)
    returns (turn: Option<Turn>)
    requires Sound(source, t.row, t.held) && total == |source|
    requires start <= offset < end <= |source| && piece == source[offset..end]
    modifies t
    ensures Sound(source, t.row, t.held) && old(t.held) <= t.held && |t.held| <= Max(|old(t.held)|, end)
    ensures turn.Some? && turn.value.Again? ==> start <= turn.value.from < end
    ensures Tried(Stand(offset, old(t.row), |old(t.held)|), now, end, turn, t.row, |t.held|)
    ensures end == total && |piece| <= CHUNK_BYTES && (turn.None? || turn.value.Passed()) ==>
      Stand(offset, t.row, |t.held|) == AfterTry(Stand(offset, old(t.row), |old(t.held)|), now)
    ensures InOrder(now, total) && WholeUnits(offset, |piece|, total) && old(AllAligned(t.row, |t.held|)) ==>
      AllAligned(t.row, |t.held|) && turn != Some(Finished(Err(RefusedFinally(400))))
    ensures Calm(now, total) && WholeUnits(offset, |piece|, total) && |old(t.held)| == offset ==>
      old(t.row) == Row(total, offset, false) ==>
      turn == Some(Finished(Ok(Through(end, true)))) && t.row == Row(total, end, end == total) && |t.held| == end
    ensures LosesAnswer(now, total) && end == total && |piece| <= CHUNK_BYTES ==>
      old(t.row) == Row(total, offset, false) ==> turn == None
  {
    var reply := t.PutChunk(offset, piece, |piece|, total, now, source);
    if now.heard {
      match reply {
        case Progress(confirmed, _) => return Some(Finished(Ok(Through(confirmed, true))));
        case OutOfOrder(confirmed) =>
          if confirmed < start {
            return Some(Finished(Err(LostPart)));
          }
          return Some(if confirmed >= end then Finished(Ok(Through(confirmed, false))) else Again(confirmed));
        case Failure(status) =>
          if IsFinal(status) {
            return Some(Finished(Err(RefusedFinally(status))));
          }
      }
    }
    return None;
  }

  /** The status question after an attempt that did not settle the matter. */
  method Ask(t: Transfer, offset: nat, start: nat, end: nat, total: nat, asking: Weather, ghost source: bytes)
    returns (turn: Turn)
    requires Sound(source, t.row, t.held) && total == |source| && start <= offset < end <= |source|
    modifies t
    ensures Sound(source, t.row, t.held) && t.held == old(t.held)
    ensures turn.Again? ==> start <= turn.from < end && (turn.from == offset || turn.from == |t.held|)
    ensures turn.Passed() ==> turn.result.value == Through(|t.held|, true) && (t.row.completed <==> t.held == source)
    ensures turn.Passed() && !t.row.completed ==> t.row.confirmed == |t.held|
    ensures turn.Again? ==>
      Stand(turn.from, t.row, |t.held|) == AfterAsk(Stand(offset, old(t.row), |old(t.held)|), asking)
    ensures turn.Passed() ==> t.row == AfterAsk(Stand(offset, old(t.row), |old(t.held)|), asking).row
    ensures turn.Finished? ==> turn.result.Ok? || turn.result == Err(LostPart)
    ensures !old(t.row.completed) && !Reaches(asking) ==> turn == Again(offset)
    ensures old(AllAligned(t.row, |t.held|)) ==> AllAligned(t.row, |t.held|)
  {
    var status := t.PutStatus(total, asking, source);
    if !asking.heard || !status.Progress? {
      return Again(offset);
    }
    if status.done || status.confirmed >= end {
      return Finished(Ok(Through(status.confirmed, true)));
    }
    return if status.confirmed < start then Finished(Err(LostPart)) else Again(status.confirmed);
  }

  /** Every chunk goes through at once, except that the last answer of all may be lost with what follows it. */
  ghost predicate Passable(total: pos, forecast: nat -> seq<(Weather, Weather)>) {
    forall n :: PassableAt(total, n, forecast(n))
  }

  ghost predicate PassableAt(total: pos, start: nat, weather: seq<(Weather, Weather)>) {
    weather != [] && (Calm(weather[0].0, total) || (start == LastStart(total) && LastAnswerLost(weather, total)))
  }

  /** The upload loop: fills chunks from the pieces as they are produced and sends each full one. */
  class Uploader {
    const transfer: Transfer
    const total: pos
    var chunk: bytes
    var sent: nat
    /** Whether the last chunk came through in answer to its own request. */
    var answered: bool

    constructor (transfer: Transfer, total: pos)
      ensures this.transfer == transfer && this.total == total && chunk == [] && sent == 0 && answered
    {
      this.transfer, this.total, chunk, sent, answered := transfer, total, [], 0, true;
    }

    /** `fed` is what the producer handed over so far: sent and held, or waiting in the chunk. */
    ghost predicate Valid(source: bytes, fed: bytes)
      reads this, transfer
    {
      && total == |source|
      && fed <= source
      && |fed| == sent + |chunk|
      && chunk == fed[sent..]
      && |chunk| <= CHUNK_BYTES
      && sent % CHUNK_BYTES == 0
      && AtRest(source)
    }

    /**
     * Between chunks Google holds exactly what was sent, and the row says so: it is complete unless the last chunk
     * left it open.
     */
    ghost predicate AtRest(source: bytes)
      reads this, transfer
    {
      && transfer.row.total == |source| && transfer.held <= source && |transfer.held| == sent
      && (transfer.row.completed <==> sent == |source| && answered)
      && transfer.row.confirmed <= sent && (!transfer.row.completed ==> transfer.row.confirmed == sent)
    }

    /** Everything sent so far was answered at once and is recorded. */
    ghost predicate Steady()
      reads this, transfer
    {
      transfer.row == Row(total, sent, sent == total) && |transfer.held| == sent && answered
    }

    /** Once everything is sent, the weather of the last chunk has decided whether the row is complete. */
    ghost predicate Settled(forecast: nat -> seq<(Weather, Weather)>)
      reads this, transfer
    {
      sent == total ==> (transfer.row.completed <==> !LeftOpen(total, forecast(LastStart(total))))
    }

    method Flush(weather: seq<(Weather, Weather)>, ghost source: bytes, ghost fed: bytes)
      returns (r: Option<UploadError>)
      requires Valid(source, fed) && |weather| == ATTEMPTS
      modifies this, transfer
      ensures old(transfer.held) <= transfer.held && Sound(source, transfer.row, transfer.held)
      ensures r.None? ==> AtRest(source) && chunk == [] && sent == old(sent + |chunk|)
      ensures r.None? && old(chunk != []) && sent == total ==> (transfer.row.completed <==> !LeftOpen(total, weather))
      ensures old(chunk == []) ==> r.None? && transfer.row == old(transfer.row) && answered == old(answered)
      ensures Calm(weather[0].0, total) && old(Steady()) && old(|chunk| == CHUNK_BYTES || sent + |chunk| == total) ==>
        r.None? && Steady()
      ensures old(|chunk| == CHUNK_BYTES || sent + |chunk| == total) && PassableAt(total, old(sent), weather) ==>
        r.None?
    {
      if chunk == [] {
        return None;
      }
      SliceOfPrefixIs(fed, source, sent);
      LastChunk(sent, |chunk|, total);
      var result := SendChunk(transfer, chunk, sent, total, weather, source);
      if result.Err? {
        return Some(result.error);
      }
      answered := result.value.answered;
      sent := sent + |chunk|;
      if result.value.confirmed < sent {
        return Some(ChunkNotKept);
      }
      chunk := [];
      return None;
    }

    /** Adds to the chunk what it has room for. */
    method Fill(more: bytes, ghost source: bytes, ghost fed: bytes)
      requires Valid(source, fed) && |chunk| + |more| <= CHUNK_BYTES && fed + more <= source
      modifies `chunk
      ensures Valid(source, fed + more) && |chunk| == old(|chunk|) + |more|
    {
      chunk := chunk + more;
    }

    /** Adds a part to the chunk, and sends the chunk once it is full. */
    method TakeIn(part: bytes, forecast: nat -> seq<(Weather, Weather)>, ghost source: bytes, ghost fed: bytes)
      returns (r: Option<UploadError>)
      requires Valid(source, fed) && Settled(forecast) && |chunk| + |part| <= CHUNK_BYTES && fed + part <= source
      requires |chunk| < CHUNK_BYTES && forall n :: |forecast(n)| == ATTEMPTS
      modifies this, transfer
      ensures Calm(forecast(old(sent))[0].0, total) && old(Steady()) ==> r.None? && Steady()
      ensures r.None? ==> Valid(source, fed + part) && Settled(forecast) && |chunk| < CHUNK_BYTES
      ensures Passable(total, forecast) ==> r.None?
    {
      Fill(part, source, fed);
      if |chunk| < CHUNK_BYTES {
        return None;
      }
      LastChunk(sent, |chunk|, total);
      assert Passable(total, forecast) ==> PassableAt(total, sent, forecast(sent));
      r := Flush(forecast(sent), source, fed + part);
    }

    /** Takes one piece in, sending the chunk each time it fills. */
    method Feed(piece: bytes, forecast: nat -> seq<(Weather, Weather)>, ghost source: bytes, ghost fed: bytes)
      returns (r: Option<UploadError>)
      requires Valid(source, fed) && Settled(forecast) && |chunk| < CHUNK_BYTES && fed + piece <= source
      requires forall n :: |forecast(n)| == ATTEMPTS
      modifies this, transfer
      ensures r.None? ==> Valid(source, fed + piece) && Settled(forecast) && |chunk| < CHUNK_BYTES
      ensures Passable(total, forecast) ==> r.None?
      ensures (forall n :: Calm(forecast(n)[0].0, total)) && old(Steady()) ==> r.None? && Steady()
    {
      ghost var calm := (forall n :: Calm(forecast(n)[0].0, total)) && Steady();
      var at := 0;
      assert fed + piece[..0] == fed;
      while at < |piece|
        invariant 0 <= at <= |piece|
        invariant Valid(source, fed + piece[..at]) && Settled(forecast) && |chunk| < CHUNK_BYTES
        invariant calm ==> Steady()
      {
        var take := Min(CHUNK_BYTES - |chunk|, |piece| - at);
        FedOneMore(source, fed, piece, at, at + take);
        r := TakeIn(piece[at..at + take], forecast, source, fed + piece[..at]);
        if r.Some? {
          return;
        }
        at := at + take;
      }
      assert piece[..|piece|] == piece;
      return None;
    }
  }

  lemma FedOneMore(source: bytes, fed: bytes, piece: bytes, at: nat, to: nat)
    requires at <= to <= |piece| && fed + piece <= source
    ensures fed + piece[..to] == fed + piece[..at] + piece[at..to] && fed + piece[..to] <= source
  {
    assert piece[..to] == piece[..at] + piece[at..to];
  }

  lemma {:induction false} ConcatGrows(pieces: seq<bytes>, n: nat)
    requires n <= |pieces|
    ensures Concat(pieces[..n]) <= Concat(pieces)
    decreases |pieces| - n
  {
    if n < |pieces| {
      ConcatPrefix(pieces, n);
      ConcatGrows(pieces, n + 1);
    } else {
      assert pieces[..n] == pieces;
    }
  }

  /**
   * `uploadViaGateway`: if it gets as far as the commit, Google holds exactly the source. The row is marked
   * complete too, unless the weather of the last chunk's attempts leaves it open.
   */
  method UploadViaGateway(pieces: seq<bytes>, t: Transfer, total: pos, forecast: nat -> seq<(Weather, Weather)>,
                          ghost source: bytes)
    returns (r: Result<bool, UploadError>)
    requires t.row == Row(total, 0, false) && t.held == [] && total == |source|
    requires Concat(pieces) <= source && forall n :: |forecast(n)| == ATTEMPTS
    modifies t
    ensures r.Ok? ==> Concat(pieces) == source && t.held == source && (r.value <==> t.row.completed)
    ensures r.Ok? ==> (t.row.completed <==> !LeftOpen(total, forecast(LastStart(total))))
    ensures r.Ok? && !t.row.completed ==> t.row == Row(total, total, false)
    ensures Concat(pieces) != source ==> r.Err?
    ensures Concat(pieces) == source && Passable(total, forecast) ==> r.Ok?
    ensures Concat(pieces) == source && (forall n :: Calm(forecast(n)[0].0, total)) ==> r == Ok(true)
  {
    if forall n :: Calm(forecast(n)[0].0, total) {
      assert Passable(total, forecast);
      CalmIsClosed(total, forecast(LastStart(total)));
    }
    var u := new Uploader(t, total);
    assert pieces[..0] == [];
    for i := 0 to |pieces|
      invariant fresh(u) && u.transfer == t && u.total == total
      invariant u.Valid(source, Concat(pieces[..i])) && u.Settled(forecast) && |u.chunk| < CHUNK_BYTES
    {
      ConcatPrefix(pieces, i);
      ConcatGrows(pieces, i + 1);
      var failed := u.Feed(pieces[i], forecast, source, Concat(pieces[..i]));
      if failed.Some? {
        return Err(failed.value);
      }
    }
    assert pieces[..|pieces|] == pieces;
    r := Conclude(u, forecast, source, Concat(pieces));
  }

  /** What is left in the last chunk is sent, and the whole file must have been. */
  method Conclude(u: Uploader, forecast: nat -> seq<(Weather, Weather)>, ghost source: bytes, ghost fed: bytes)
    returns (r: Result<bool, UploadError>)
    requires u.Valid(source, fed) && u.Settled(forecast) && forall n :: |forecast(n)| == ATTEMPTS
    modifies u, u.transfer
    ensures r.Ok? ==> fed == source && u.transfer.held == source && (r.value <==> u.transfer.row.completed)
    ensures r.Ok? ==> (u.transfer.row.completed <==> !LeftOpen(u.total, forecast(LastStart(u.total))))
    ensures r.Ok? && !u.transfer.row.completed ==> u.transfer.row == Row(u.total, u.total, false)
    ensures fed == source && Passable(u.total, forecast) ==> r.Ok?
  {
    if u.chunk != [] {
      LastChunk(u.sent, |u.chunk|, u.total);
    }
    assert Passable(u.total, forecast) ==> PassableAt(u.total, u.sent, forecast(u.sent));
    var failed := u.Flush(forecast(u.sent), source, fed);
    if failed.Some? {
      return Err(failed.value);
    }
    if u.sent != u.total {
      return Err(FileChanged);
    }
    return Ok(u.answered);
  }

  /** Fine weather, but the answer to the last chunk is lost, and so is the status question after it. */
  function LosingForecast(total: pos): nat -> seq<(Weather, Weather)> {
    var fine := Weather(None, None, false, total, Answered, false, true);
    var lost := fine.(fate := Interrupted, rechecked := true, heard := false);
    var down := fine.(fate := Interrupted);
    n =>
      var first := if n == LastStart(total) then (lost, down) else (fine, fine);
      [first, (fine, fine), (fine, fine), (fine, fine), (fine, fine), (fine, fine)]
  }

  lemma LosingForecastPasses(total: pos)
    requires !TooLarge(total)
    ensures Passable(total, LosingForecast(total)) && LastAnswerLost(LosingForecast(total)(LastStart(total)), total)
  {
    forall n: nat
      ensures PassableAt(total, n, LosingForecast(total)(n))
    {
    }
  }

  /** Whatever is uploaded, such weather brings it to the commit with every byte held and its row left open. */
  method UploadLeftOpen(pieces: seq<bytes>, source: bytes) returns (t: Transfer)
    requires source != [] && Concat(pieces) == source && !TooLarge(|source|)
    ensures fresh(t) && t.held == source && t.row == Row(|source|, |source|, false)
  {
    t := new Transfer(|source|);
    LosingForecastPasses(|source|);
    LostIsLeftOpen(|source|, LosingForecast(|source|)(LastStart(|source|)));
    var r := UploadViaGateway(pieces, t, |source|, LosingForecast(|source|), source);
    assert r.Ok?;
  }

  lemma SliceOfPrefixIs(fed: bytes, source: bytes, from: nat)
    requires fed <= source && from <= |fed|
    ensures fed[from..] == source[from..|fed|]
  {
  }
}
