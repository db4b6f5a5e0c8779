/** The traffic gate and the circuit breaker of each source. */
module Sources {
  import opened Wrappers
  import opened Integers
  import opened Records

  const MILLISECOND: Time := 1_000_000
  const SECOND: Time := 1000 * MILLISECOND
  const MINUTE: Time := 60 * SECOND

  const SOURCE_PACING: Time := 250 * MILLISECOND
  const THROTTLE_COOLDOWN: Time := 30 * SECOND
  const CIRCUIT_THRESHOLD: nat := 5
  const CIRCUIT_COOLDOWN: Time := MINUTE
  const CIRCUIT_CEILING: Time := HOUR

  // ---------- The gate ----------

  function Later(a: Time, b: Time): Time {
    if a < b then b else a
  }

  /** A slot is granted at once, or when the domain is next allowed. */
  function Slot(traffic: map<string, Time>, domain: string, now: Time): Time {
    if domain in traffic then Later(now, traffic[domain]) else now
  }

  function Reserve(traffic: map<string, Time>, domain: string, now: Time, pace: Time): map<string, Time> {
    traffic[domain := Slot(traffic, domain, now) + pace]
  }

  function Delay(traffic: map<string, Time>, domain: string, now: Time, wait: Time): map<string, Time> {
    traffic[domain := Slot(traffic, domain, now + wait)]
  }

  /** One transaction on the gate, with the clock and the settings of whoever runs it. */
  datatype Move =
    | Reservation(domain: string, now: Time, pace: Time)
    | Throttling(domain: string, now: Time, wait: Time)

  /** The settings fall back to positive defaults, so every move has a positive length. */
  predicate Paced(move: Move) {
    if move.Reservation? then move.pace > 0 else move.wait > 0
  }

  function Moved(traffic: map<string, Time>, move: Move): map<string, Time> {
    match move
    case Reservation(domain, now, pace) => Reserve(traffic, domain, now, pace)
    case Throttling(domain, now, wait) => Delay(traffic, domain, now, wait)
  }

  function TrafficAfter(moves: seq<Move>): map<string, Time> {
    if moves == [] then map[] else Moved(TrafficAfter(moves[..|moves| - 1]), moves[|moves| - 1])
  }

  /** The slot that one reservation of a history was granted. */
  function Granted(moves: seq<Move>, i: nat): Time
    requires i < |moves| && moves[i].Reservation?
  {
    Slot(TrafficAfter(moves[..i]), moves[i].domain, moves[i].now)
  }

  lemma TrafficStep(moves: seq<Move>, n: nat)
    requires n < |moves|
    ensures TrafficAfter(moves[..n + 1]) == Moved(TrafficAfter(moves[..n]), moves[n])
  {
    assert moves[..n + 1][..n] == moves[..n];
  }

  lemma OneMoreMove(moves: seq<Move>, move: Move)
    ensures (moves + [move])[..|moves|] == moves && TrafficAfter(moves + [move]) == Moved(TrafficAfter(moves), move)
  {
    assert (moves + [move])[..|moves|] == moves;
  }

  /** The stored time of a domain never decreases, whatever the clocks of the callers say. */
  lemma {:induction false} NextNeverDecreases(moves: seq<Move>, i: nat, j: nat, domain: string)
    requires i <= j <= |moves| && (forall move <- moves :: Paced(move))
    requires domain in TrafficAfter(moves[..i])
    ensures domain in TrafficAfter(moves[..j]) && TrafficAfter(moves[..j])[domain] >= TrafficAfter(moves[..i])[domain]
    decreases j
  {
    if i < j {
      NextNeverDecreases(moves, i, j - 1, domain);
      TrafficStep(moves, j - 1);
      assert Paced(moves[j - 1]);
    }
  }

  /** Two slots of one domain are at least the pace of the earlier reservation apart, in
      every interleaving, whoever else moves in between. */
  lemma SlotsAreApart(moves: seq<Move>, i: nat, j: nat)
    requires i < j < |moves| && (forall move <- moves :: Paced(move))
    requires moves[i].Reservation? && moves[j].Reservation? && moves[i].domain == moves[j].domain
    ensures Granted(moves, j) >= Granted(moves, i) + moves[i].pace
  {
    TrafficStep(moves, i);
    NextNeverDecreases(moves, i + 1, j, moves[i].domain);
  }

  /** Once a domain was throttled, no later slot of it comes before the wait is over. */
  lemma ThrottlingHolds(moves: seq<Move>, i: nat, j: nat)
    requires i < j < |moves| && (forall move <- moves :: Paced(move))
    requires moves[i].Throttling? && moves[j].Reservation? && moves[i].domain == moves[j].domain
    ensures Granted(moves, j) >= moves[i].now + moves[i].wait
  {
    TrafficStep(moves, i);
    NextNeverDecreases(moves, i + 1, j, moves[i].domain);
  }

  /** What the gate holds of a domain is the largest of what its moves asked for: a reservation that
      the next slot comes a pace after its own, a throttling that it comes when the wait is over. */
  ghost predicate Asked(moves: seq<Move>, n: nat, domain: string)
    requires n <= |moves|
  {
    var traffic := TrafficAfter(moves[..n]);
    && (forall i :: 0 <= i < n && moves[i].domain == domain ==> domain in traffic && traffic[domain] >= AskedFor(moves, i))
    && (domain in traffic ==> exists i :: 0 <= i < n && moves[i].domain == domain && traffic[domain] == AskedFor(moves, i))
  }

  function AskedFor(moves: seq<Move>, i: nat): Time
    requires i < |moves|
  {
    if moves[i].Reservation? then Granted(moves, i) + moves[i].pace else moves[i].now + moves[i].wait
  }

  lemma {:induction false} GateIsAsked(moves: seq<Move>, n: nat, domain: string)
    requires n <= |moves| && forall move <- moves :: Paced(move)
    ensures Asked(moves, n, domain)
  {
    if n > 0 {
      GateIsAsked(moves, n - 1, domain);
      TrafficStep(moves, n - 1);
      assert Paced(moves[n - 1]);
      AskedNext(moves, n, domain);
    }
  }

  lemma AskedNext(moves: seq<Move>, n: nat, domain: string)
    requires 0 < n <= |moves| && Asked(moves, n - 1, domain) && Paced(moves[n - 1])
    requires TrafficAfter(moves[..n]) == Moved(TrafficAfter(moves[..n - 1]), moves[n - 1])
    ensures Asked(moves, n, domain)
  {
    var before, after, last := TrafficAfter(moves[..n - 1]), TrafficAfter(moves[..n]), n - 1;
    if moves[last].domain != domain || (domain in before && after[domain] == before[domain]) {
      if domain in after {
        var i :| 0 <= i < n - 1 && moves[i].domain == domain && before[domain] == AskedFor(moves, i);
        assert after[domain] == AskedFor(moves, i);
      }
    } else {
      assert after[domain] == AskedFor(moves, last);
    }
  }

  /** A slot is granted as late as it must be and no later: it is the largest of the instant it was
      asked for at, a pace after each earlier slot of the domain, and the end of each earlier wait
      of it. */
  lemma SlotIsExact(moves: seq<Move>, j: nat)
    requires j < |moves| && moves[j].Reservation? && (forall move <- moves :: Paced(move))
    ensures Granted(moves, j) >= moves[j].now
    ensures forall i :: 0 <= i < j && moves[i].domain == moves[j].domain ==>
                          Granted(moves, j) >= if moves[i].Reservation? then Granted(moves, i) + moves[i].pace else moves[i].now + moves[i].wait
    ensures Granted(moves, j) == moves[j].now ||
            exists i :: 0 <= i < j && moves[i].domain == moves[j].domain &&
                        Granted(moves, j) == if moves[i].Reservation? then Granted(moves, i) + moves[i].pace else moves[i].now + moves[i].wait
  {
    var domain, traffic := moves[j].domain, TrafficAfter(moves[..j]);
    GateIsAsked(moves, j, domain);
    if domain in traffic {
      var i :| 0 <= i < j && moves[i].domain == domain && traffic[domain] == AskedFor(moves, i);
    }
  }

  lemma MovedAlike(a: map<string, Time>, b: map<string, Time>, move: Move)
    requires move.domain in a <==> move.domain in b
    requires move.domain in a ==> a[move.domain] == b[move.domain]
    ensures move.domain in Moved(a, move) && move.domain in Moved(b, move) && Moved(a, move)[move.domain] == Moved(b, move)[move.domain]
  {
  }

  /** The stored time of a domain is the one its own moves alone would have left. */
  lemma {:induction false} DomainsApart(moves: seq<Move>, domain: string)
    ensures var own := Only(moves, domain);
            if own == [] then domain !in TrafficAfter(moves)
            else domain in TrafficAfter(moves) && domain in TrafficAfter(own) && TrafficAfter(moves)[domain] == TrafficAfter(own)[domain]
  {
    if moves != [] {
      var front, last := moves[..|moves| - 1], moves[|moves| - 1];
      DomainsApart(front, domain);
      if last.domain == domain {
        var own := Only(front, domain);
        var longer := own + [last];
        TrafficStep(longer, |own|);
        assert longer[..|own|] == own && longer[..|own| + 1] == longer && Only(moves, domain) == longer;
        MovedAlike(TrafficAfter(front), TrafficAfter(own), last);
      } else {
        assert Only(moves, domain) == Only(front, domain);
      }
    }
  }

  function Only(moves: seq<Move>, domain: string): seq<Move> {
    if moves == [] then []
    else
      var last := moves[|moves| - 1];
      Only(moves[..|moves| - 1], domain) + if last.domain == domain then [last] else []
  }

  // ---------- The circuit ----------

  datatype Answer = Answered | Throttled | Fallen

  datatype Health = Health(
    source: string,
    latencyMilliseconds: int,
    lastSuccess: Option<Time>,
    lastFailure: Option<Time>,
    consecutiveFailures: nat,
    circuitOpenUntil: Option<Time>)

  function Fresh(domain: string): Health {
    Health(domain, 0, None, None, 0, None)
  }

  function Pow2(k: nat): nat {
    if k == 0 then 1 else 2 * Pow2(k - 1)
  }

  /** A left shift of a 64-bit integer. */
  function Shift64(x: int, k: nat): int {
    Wrap64(x * Pow2(k))
  }

  function CircuitWait(failures: nat): Time
    requires failures >= CIRCUIT_THRESHOLD
  {
    var doublings := if failures - CIRCUIT_THRESHOLD < 16 then failures - CIRCUIT_THRESHOLD else 16;
    var wait := Shift64(CIRCUIT_COOLDOWN, doublings);
    if wait < CIRCUIT_CEILING then wait else CIRCUIT_CEILING
  }

  function UpdateSource(health: Health, now: Time, latency: Time, answer: Answer): Health {
    var seen := health.(latencyMilliseconds := Quotient(latency, MILLISECOND));
    match answer
    case Answered => seen.(lastSuccess := Some(now), consecutiveFailures := 0, circuitOpenUntil := None)
    case Throttled => seen.(lastFailure := Some(now))
    case Fallen =>
      var failures := health.consecutiveFailures + 1;
      seen.(lastFailure := Some(now), consecutiveFailures := failures,
            circuitOpenUntil := if failures >= CIRCUIT_THRESHOLD then Some(now + CircuitWait(failures)) else health.circuitOpenUntil)
  }

  lemma {:induction false} Pow2Grows(a: nat, b: nat)
    requires a <= b
    ensures Pow2(a) <= Pow2(b)
  {
    if a < b {
      Pow2Grows(a, b - 1);
    }
  }

  lemma SixteenDoublings()
    ensures Pow2(6) == 64 && Pow2(16) == 65536
  {
    assert Pow2(6) == 64;
    assert Pow2(11) == 32 * Pow2(6);
    assert Pow2(16) == 32 * Pow2(11);
  }

  /** The wait doubles from one minute up to one hour and stays there: the shift never
      overflows, for any number of failures. */
  lemma WaitDoublesUpToCeiling(failures: nat)
    requires failures >= CIRCUIT_THRESHOLD
    ensures failures >= 5 && CircuitWait(failures) == 60_000_000_000 * (if Pow2(failures - 5) < 60 then Pow2(failures - 5) else 60)
  {
    var over := failures - CIRCUIT_THRESHOLD;
    var doublings := if over < 16 then over else 16;
    SixteenDoublings();
    Pow2Grows(doublings, 16);
    NoOverflow(Pow2(doublings));
    if over >= 16 {
      Pow2Grows(16, over);
    }
  }

  lemma NoOverflow(p: nat)
    requires p <= 65536
    ensures Wrap64(CIRCUIT_COOLDOWN * p) == CIRCUIT_COOLDOWN * p
  {
    assert 0 <= CIRCUIT_COOLDOWN * p <= CIRCUIT_COOLDOWN * 65536;
  }

  lemma WaitNeverShrinks(a: nat, b: nat)
    requires CIRCUIT_THRESHOLD <= a <= b
    ensures CircuitWait(a) <= CircuitWait(b)
  {
    WaitDoublesUpToCeiling(a);
    WaitDoublesUpToCeiling(b);
    Pow2Grows(a - CIRCUIT_THRESHOLD, b - CIRCUIT_THRESHOLD);
  }

  // ---------- The whole history of one source ----------

  datatype Call = Call(now: Time, latency: Time, answer: Answer)

  function HealthAfter(domain: string, calls: seq<Call>): Health {
    if calls == [] then Fresh(domain)
    else
      var last := calls[|calls| - 1];
      UpdateSource(HealthAfter(domain, calls[..|calls| - 1]), last.now, last.latency, last.answer)
  }

  lemma OneMoreCall(domain: string, calls: seq<Call>, call: Call)
    ensures HealthAfter(domain, calls + [call]) == UpdateSource(HealthAfter(domain, calls), call.now, call.latency, call.answer)
  {
    assert (calls + [call])[..|calls|] == calls;
  }

  /** The call fell, and nothing from it on succeeded. */
  predicate FellSinceSuccess(calls: seq<Call>, i: nat)
    requires i < |calls|
  {
    calls[i].answer.Fallen? && forall j :: i < j < |calls| ==> !calls[j].answer.Answered?
  }

  function FallsSinceSuccess(calls: seq<Call>): set<nat> {
    set i: nat | i < |calls| && FellSinceSuccess(calls, i)
  }

  /** The last call that fell, other than by throttling. */
  predicate LastFall(calls: seq<Call>, i: nat) {
    i < |calls| && calls[i].answer.Fallen? && forall j :: i < j < |calls| ==> !calls[j].answer.Fallen?
  }

  lemma FallsStep(calls: seq<Call>)
    requires calls != []
    ensures var front, last := calls[..|calls| - 1], calls[|calls| - 1];
            FallsSinceSuccess(calls) ==
              (if last.answer.Answered? then {} else FallsSinceSuccess(front) + if last.answer.Fallen? then {|calls| - 1} else {})
  {
    var front, last := calls[..|calls| - 1], calls[|calls| - 1];
    forall i: nat | i < |front|
      ensures FellSinceSuccess(calls, i) <==> FellSinceSuccess(front, i) && !last.answer.Answered?
    {
      assert calls[i] == front[i];
      if FellSinceSuccess(calls, i) {
        forall j | i < j < |front| ensures !front[j].answer.Answered? { assert front[j] == calls[j]; }
      }
      if FellSinceSuccess(front, i) && !last.answer.Answered? {
        forall j | i < j < |calls| ensures !calls[j].answer.Answered? { assert j < |front| ==> front[j] == calls[j]; }
      }
    }
  }

  /** After any history, the counter is the number of falls since the last success, where a
      throttled call neither counts nor forgives; the circuit is open exactly when that
      number reached the threshold, until the last fall's own wait is over. */
  lemma {:induction false} CircuitSaysHistory(domain: string, calls: seq<Call>)
    ensures Says(HealthAfter(domain, calls), calls)
  {
    if calls == [] {
      assert FallsSinceSuccess(calls) == {};
    } else {
      var front, last := calls[..|calls| - 1], calls[|calls| - 1];
      CircuitSaysHistory(domain, front);
      FallsStep(calls);
      UpdateSays(HealthAfter(domain, front), calls);
    }
  }

  ghost predicate Says(health: Health, calls: seq<Call>) {
    var falls := |FallsSinceSuccess(calls)|;
    && health.consecutiveFailures == falls
    && (health.circuitOpenUntil.Some? <==> falls >= 5)
    && (falls >= 5 ==> OpenedByLastFall(health, calls, CircuitWait(falls)))
  }

  ghost predicate OpenedByLastFall(health: Health, calls: seq<Call>, wait: Time) {
    exists i: nat :: LastFall(calls, i) && health.circuitOpenUntil == Some(calls[i].now + wait)
  }

  lemma LastFallStays(calls: seq<Call>, i: nat)
    requires calls != [] && LastFall(calls[..|calls| - 1], i) && !calls[|calls| - 1].answer.Fallen?
    ensures LastFall(calls, i)
  {
    var front := calls[..|calls| - 1];
    forall j | i < j < |calls| ensures !calls[j].answer.Fallen? { assert j < |front| ==> front[j] == calls[j]; }
  }

  lemma StillOpened(before: Health, after: Health, calls: seq<Call>, wait: Time)
    requires calls != [] && !calls[|calls| - 1].answer.Fallen? && after.circuitOpenUntil == before.circuitOpenUntil
    requires OpenedByLastFall(before, calls[..|calls| - 1], wait)
    ensures OpenedByLastFall(after, calls, wait)
  {
    var front := calls[..|calls| - 1];
    var i: nat :| LastFall(front, i) && before.circuitOpenUntil == Some(front[i].now + wait);
    LastFallStays(calls, i);
    assert calls[i] == front[i];
  }

  lemma ThrottledSays(before: Health, after: Health, calls: seq<Call>)
    requires calls != [] && Says(before, calls[..|calls| - 1]) && calls[|calls| - 1].answer.Throttled?
    requires after.consecutiveFailures == before.consecutiveFailures && after.circuitOpenUntil == before.circuitOpenUntil
    ensures Says(after, calls)
  {
    FallsStep(calls);
    var falls := |FallsSinceSuccess(calls)|;
    if falls >= CIRCUIT_THRESHOLD {
      StillOpened(before, after, calls, CircuitWait(falls));
    }
  }

  lemma FallenCounts(calls: seq<Call>)
    requires calls != [] && calls[|calls| - 1].answer.Fallen?
    ensures |FallsSinceSuccess(calls)| == |FallsSinceSuccess(calls[..|calls| - 1])| + 1 && LastFall(calls, |calls| - 1)
  {
    FallsStep(calls);
    assert |calls| - 1 !in FallsSinceSuccess(calls[..|calls| - 1]);
  }

  lemma UpdateSays(before: Health, calls: seq<Call>)
    requires calls != [] && Says(before, calls[..|calls| - 1])
    ensures var last := calls[|calls| - 1]; Says(UpdateSource(before, last.now, last.latency, last.answer), calls)
  {
    var last := calls[|calls| - 1];
    match last.answer
    case Answered => FallsStep(calls);
    case Throttled => ThrottledSays(before, UpdateSource(before, last.now, last.latency, last.answer), calls);
    case Fallen => FallenCounts(calls);
  }

  /** The call is the last that was answered, or the last that was not. */
  ghost predicate LastOf(calls: seq<Call>, i: nat, answered: bool) {
    i < |calls| && calls[i].answer.Answered? == answered && forall j :: i < j < |calls| ==> calls[j].answer.Answered? != answered
  }

  /** The time stands for the last such call, if there was any. */
  ghost predicate Marks(time: Option<Time>, calls: seq<Call>, answered: bool) {
    if time.Some? then exists i: nat :: LastOf(calls, i, answered) && time.value == calls[i].now
    else forall call <- calls :: call.answer.Answered? != answered
  }

  lemma MarksNext(time: Option<Time>, calls: seq<Call>, call: Call, answered: bool)
    requires Marks(time, calls, answered)
    ensures Marks(if call.answer.Answered? == answered then Some(call.now) else time, calls + [call], answered)
  {
    var longer := calls + [call];
    if call.answer.Answered? == answered {
      assert LastOf(longer, |calls|, answered);
    } else if time.Some? {
      var i: nat :| LastOf(calls, i, answered) && time.value == calls[i].now;
      assert LastOf(longer, i, answered);
    }
  }

  /** The rest of the record says the history too: the last success and the last failure, where a
      throttled call is a failure, and the whole milliseconds of the last call. */
  lemma {:induction false} HealthSaysHistory(domain: string, calls: seq<Call>)
    ensures var health := HealthAfter(domain, calls);
            && health.source == domain
            && Marks(health.lastSuccess, calls, true) && Marks(health.lastFailure, calls, false)
            && (calls == [] ==> health.latencyMilliseconds == 0)
            && (calls != [] ==>
                  var over := calls[|calls| - 1].latency - 1_000_000 * health.latencyMilliseconds;
                  if calls[|calls| - 1].latency >= 0 then 0 <= over < 1_000_000 else -1_000_000 < over <= 0)
  {
    if calls != [] {
      var front, last := calls[..|calls| - 1], calls[|calls| - 1];
      HealthSaysHistory(domain, front);
      MarksNext(HealthAfter(domain, front).lastSuccess, front, last, true);
      MarksNext(HealthAfter(domain, front).lastFailure, front, last, false);
      assert calls == front + [last];
    }
  }

  // ---------- The store ----------

  class SourceStore {
    var traffic: map<string, Time>
    var health: map<string, Health>
    var pacing: Time
    var cooldown: Time

    ghost var moves: seq<Move>
    ghost var calls: map<string, seq<Call>>

    ghost predicate TrafficOk()
      reads `traffic, `moves
    {
      traffic == TrafficAfter(moves) && forall move <- moves :: Paced(move)
    }

    ghost predicate HealthOk()
      reads `health, `calls
    {
      health.Keys == calls.Keys && forall domain <- health :: health[domain] == HealthAfter(domain, calls[domain])
    }

    /** The records are what the history of moves and calls left. */
    ghost predicate Valid()
      reads this
    {
      TrafficOk() && HealthOk()
    }

    constructor ()
      ensures Valid() && moves == [] && calls == map[]
    {
      traffic, health, pacing, cooldown := map[], map[], 0, 0;
      moves, calls := [], map[];
    }

    method PaceSources(pacing: Time, cooldown: Time)
      requires Valid()
      modifies this`pacing, this`cooldown
      ensures Valid() && this.pacing == pacing && this.cooldown == cooldown
    {
      this.pacing, this.cooldown := pacing, cooldown;
    }

    function Pace(): (pace: Time)
      reads this
      ensures pace == if pacing > 0 then pacing else 250_000_000
    {
      if pacing <= 0 then SOURCE_PACING else pacing
    }

    function Cool(): (wait: Time)
      reads this
      ensures wait == if cooldown > 0 then cooldown else 30_000_000_000
    {
      if cooldown <= 0 then THROTTLE_COOLDOWN else cooldown
    }

    method ReserveTraffic(domain: string, now: Time) returns (allowed: Time)
      requires TrafficOk()
      modifies this`traffic, this`moves
      ensures TrafficOk() && moves == old(moves) + [Reservation(domain, now, Pace())]
      ensures allowed == Granted(moves, |old(moves)|)
      ensures traffic == old(traffic)[domain := allowed + Pace()]
      ensures if domain in old(traffic) && old(traffic)[domain] > now then allowed == old(traffic)[domain] else allowed == now
    {
      allowed := now;
      if domain in traffic && traffic[domain] > now {
        allowed := traffic[domain];
      }
      traffic := traffic[domain := allowed + Pace()];
      moves := moves + [Reservation(domain, now, Pace())];
      OneMoreMove(old(moves), Reservation(domain, now, Pace()));
    }

    method DelaySource(domain: string, wait: Time, now: Time)
      requires TrafficOk() && wait > 0
      modifies this`traffic, this`moves
      ensures TrafficOk() && moves == old(moves) + [Throttling(domain, now, wait)]
    {
      var allowed := now + wait;
      if domain in traffic && traffic[domain] > allowed {
        allowed := traffic[domain];
      }
      traffic := traffic[domain := allowed];
      moves := moves + [Throttling(domain, now, wait)];
      OneMoreMove(old(moves), Throttling(domain, now, wait));
    }

    /** A throttled call first pushes the domain's next turn away; then, whatever the answer,
        it is written down. The two are separate transactions, each at its own instant. */
    method RecordSource(domain: string, latency: Time, answer: Answer, throttledAt: Time, now: Time)
      requires Valid()
      modifies this`traffic, this`moves, this`health, this`calls
      ensures Valid()
      ensures moves == if answer.Throttled? then old(moves) + [Throttling(domain, throttledAt, Cool())] else old(moves)
      ensures calls == old(calls)[domain := (if domain in old(calls) then old(calls)[domain] else []) + [Call(now, latency, answer)]]
    {
      if answer.Throttled? {
        DelaySource(domain, Cool(), throttledAt);
      }
      NoteAnswer(domain, latency, answer, now);
    }

    /** The second transaction: the health of the source after one more call. */
    method NoteAnswer(domain: string, latency: Time, answer: Answer, now: Time)
      requires HealthOk()
      modifies this`health, this`calls
      ensures HealthOk()
      ensures calls == old(calls)[domain := (if domain in old(calls) then old(calls)[domain] else []) + [Call(now, latency, answer)]]
    {
      var stored := if domain in health then health[domain] else Fresh(domain);
      ghost var before := if domain in calls then calls[domain] else [];
      stored := Update(stored, now, latency, answer);
      health := health[domain := stored];
      calls := calls[domain := before + [Call(now, latency, answer)]];
      OneMoreCall(domain, before, Call(now, latency, answer));
    }

    method Update(before: Health, now: Time, latency: Time, answer: Answer) returns (after: Health)
      ensures after == UpdateSource(before, now, latency, answer)
    {
      after := before.(latencyMilliseconds := Quotient(latency, MILLISECOND));
      if answer.Answered? {
        after := after.(lastSuccess := Some(now), consecutiveFailures := 0, circuitOpenUntil := None);
        return;
      }
      after := after.(lastFailure := Some(now));
      if answer.Throttled? {
        return;
      }
      after := after.(consecutiveFailures := after.consecutiveFailures + 1);
      if after.consecutiveFailures >= CIRCUIT_THRESHOLD {
        after := after.(circuitOpenUntil := Some(now + CircuitWait(after.consecutiveFailures)));
      }
    }
  }
}
