/** The fixed-arrival load stage (`run_stage`): requests are due at a fixed rate, at most four are
    outstanding, they complete in any order, and every exit leaves an account of the schedule. */
module LoadStage {
  import opened Common

  const OPERATIONS: seq<string> := ["list", "CAR", "FAI", "HSI", "TRI"]
  const MAX_IN_FLIGHT: nat := 4
  const DEADLINE_SECONDS: real := 5.0

  datatype Sample = Sample(stage: string, index: nat, operation: string, scheduledAt: real, attempted: bool,
                           dispatchedAt: Option<real>, completedAt: Option<real>, latency: Option<real>,
                           status: Option<int>, correct: bool, error: Option<string>)

  /** What an in-flight future stands for. */
  datatype Flight = Flight(index: nat, operation: string, due: real)

  /** The outcome of one request: a reply (with whether its body matched the accepted one), or one
      of the exceptions the worker may raise. */
  datatype Response = Reply(status: int, matches: bool, dispatched: real, completed: real) | Raised

  datatype StageExit = Completed | QualificationFailed | Interrupted

  /** What a wait, a pause or the observer may do. */
  datatype Signal = Quiet | Failure | Interrupt

  function OperationName(index: nat): string {
    OPERATIONS[index % |OPERATIONS|]
  }

  function Due(start: real, rate: nat, index: nat): real
    requires rate > 0
  {
    start + index as real / rate as real
  }

  /** The sample that `collect` records for a completed future. */
  function Classify(stage: string, flight: Flight, response: Response, now: real): Sample {
    match response
    case Raised =>
      Sample(stage, flight.index, flight.operation, flight.due, true, None, Some(now), None, None, false,
             Some("request-or-body"))
    case Reply(status, matches, dispatched, completed) =>
      var elapsed := (completed - dispatched) * 1000.0;
      if status != 200 || !matches then
        Sample(stage, flight.index, flight.operation, flight.due, true, Some(dispatched), Some(completed),
               Some(elapsed), Some(status), false, Some("status-or-body"))
      else
        var inTime := elapsed <= DEADLINE_SECONDS * 1000.0;
        Sample(stage, flight.index, flight.operation, flight.due, true, Some(dispatched), Some(completed),
               Some(elapsed), Some(status), inTime, if inTime then None else Some("deadline"))
  }

  /** What a request must come back with to count as correct: a reply with status 200, the accepted
      body, and no more than the deadline between dispatch and completion. */
  predicate Good(r: Response) {
    r.Reply? && r.status == 200 && r.matches && r.completed - r.dispatched <= DEADLINE_SECONDS
  }

  /** What a sample says of the response it was made from. */
  predicate Reflects(s: Sample, r: Response) {
    && s.attempted && (s.correct <==> Good(r)) && (s.error.None? <==> Good(r)) && s.completedAt.Some?
    && match r
       case Raised =>
         s.dispatchedAt.None? && s.status.None? && s.latency.None? && s.error == Some("request-or-body")
       case Reply(status, matches, dispatched, completed) =>
         && s.dispatchedAt == Some(dispatched) && s.completedAt == Some(completed) && s.status == Some(status)
         && s.latency == Some(1000.0 * (completed - dispatched))
         && s.error == (if Good(r) then None
                        else Some(if status != 200 || !matches then "status-or-body" else "deadline"))
  }

  lemma ClassifyReflects(stage: string, flight: Flight, response: Response, now: real)
    ensures Reflects(Classify(stage, flight, response, now), response)
  {
  }

  /** When a request was up for submission: the clock, and how many were outstanding. */
  datatype Admission = Admission(clock: real, outstanding: nat)

  /** It may be submitted: less than a period late, and with room in the table. */
  predicate InTime(a: Admission, due: real, rate: nat)
    requires rate > 0
  {
    a.clock - due < 1.0 / rate as real && a.outstanding < MAX_IN_FLIGHT
  }

  /** A sample without a response: the request was aborted, or never submitted. */
  predicate Unanswered(s: Sample) {
    && !s.correct && s.dispatchedAt.None? && s.completedAt.None? && s.status.None? && s.latency.None?
    && s.error == Some(if s.attempted then "aborted-pending" else "unserved")
  }

  /** The sample tells what became of its request. */
  ghost predicate ToldOne(s: Sample, responses: map<nat, Response>, admissions: map<nat, Admission>, rate: nat)
    requires rate > 0
  {
    && s.index in admissions && (s.attempted <==> InTime(admissions[s.index], s.scheduledAt, rate))
    && if s.index in responses then Reflects(s, responses[s.index]) else Unanswered(s)
  }

  ghost predicate Told(samples: seq<Sample>, responses: map<nat, Response>, admissions: map<nat, Admission>, rate: nat)
    requires rate > 0
  {
    && responses.Keys <= Indices(samples)
    && forall i :: 0 <= i < |samples| ==> ToldOne(samples[i], responses, admissions, rate)
  }

  /** No request was up for submission before it was due. */
  ghost predicate NotEarly(admissions: map<nat, Admission>, start: real, rate: nat)
    requires rate > 0
  {
    forall i :: i in admissions ==> admissions[i].clock >= Due(start, rate, i)
  }

  ghost predicate FlightsInTime(flights: map<nat, Flight>, admissions: map<nat, Admission>, rate: nat)
    requires rate > 0
  {
    forall f :: f in flights ==>
      flights[f].index in admissions && InTime(admissions[flights[f].index], flights[f].due, rate)
  }

  /** Nothing known so far is said differently. */
  ghost predicate Extends<T>(before: map<nat, T>, after: map<nat, T>, known: set<nat>) {
    forall i :: i in known ==> (i in after <==> i in before) && (i in before ==> after[i] == before[i])
  }

  lemma TellMore(samples: seq<Sample>, responses: map<nat, Response>, responses': map<nat, Response>,
                 admissions: map<nat, Admission>, admissions': map<nat, Admission>, rate: nat, s: Sample)
    requires rate > 0 && Told(samples, responses, admissions, rate) && s.index !in Indices(samples)
    requires Extends(responses, responses', Indices(samples)) && Extends(admissions, admissions', Indices(samples))
    requires responses'.Keys <= responses.Keys + {s.index} && ToldOne(s, responses', admissions', rate)
    ensures Told(samples + [s], responses', admissions', rate)
  {
    hide Reflects, Unanswered, InTime;
    IndicesAppend(samples, s);
    forall i | 0 <= i < |samples| ensures samples[i].index in Indices(samples) { assert samples[i] in samples; }
  }

  lemma AdmittedLate(samples: seq<Sample>, responses: map<nat, Response>, admissions: map<nat, Admission>,
                     admitted: map<nat, Admission>, rate: nat, index: nat)
    requires rate > 0 && Told(samples, responses, admissions, rate) && index !in Indices(samples)
    requires index in admitted && admitted == admissions[index := admitted[index]]
    ensures Extends(responses, responses, Indices(samples)) && Extends(admissions, admitted, Indices(samples))
    ensures Told(samples, responses, admitted, rate) && index !in responses
  {
    hide Reflects, Unanswered, InTime;
    forall i | 0 <= i < |samples| ensures samples[i].index in Indices(samples) { assert samples[i] in samples; }
  }

  lemma RespondedLate(samples: seq<Sample>, responses: map<nat, Response>, admissions: map<nat, Admission>, rate: nat,
                      index: nat, response: Response)
    requires rate > 0 && Told(samples, responses, admissions, rate) && index !in Indices(samples)
    ensures Extends(responses, responses[index := response], Indices(samples))
    ensures Extends(admissions, admissions, Indices(samples))
    ensures responses[index := response].Keys <= responses.Keys + {index}
  {
  }

  /** An account's next arrival, and the outstanding ones, have no sample yet. */
  lemma NotYetSampled(flights: map<nat, Flight>, futures: nat, samples: seq<Sample>, k: nat, stage: string, start: real,
                      rate: nat)
    requires rate > 0 && Account(flights, futures, samples, k, stage, start, rate)
    ensures k !in Indices(samples) && forall f :: f in flights ==> flights[f].index !in Indices(samples)
    ensures forall f :: f in flights ==> flights[f].index != k
  {
    assert k !in Indices(samples) + FlightIndices(flights);
    forall f | f in flights ensures flights[f].index in FlightIndices(flights) {}
  }

  /** Collecting one future keeps the account, tells of it, and spoils the served ones only if it is
      bad. */
  lemma CollectedOne(flights: map<nat, Flight>, futures: nat, samples: seq<Sample>, responses: map<nat, Response>,
                     admissions: map<nat, Admission>, k: nat, stage: string, start: real, rate: nat, f: nat,
                     response: Response, now: real)
    requires rate > 0 && Account(flights, futures, samples, k, stage, start, rate) && f in flights
    requires Told(samples, responses, admissions, rate) && FlightsInTime(flights, admissions, rate)
    ensures var sample := Classify(stage, flights[f], response, now);
            && Account(flights - {f}, futures, samples + [sample], k, stage, start, rate)
            && Told(samples + [sample], responses[flights[f].index := response], admissions, rate)
            && FlightsInTime(flights - {f}, admissions, rate)
            && (sample.correct && ServedAll(samples) ==> ServedAll(samples + [sample]))
            && (!sample.correct ==> Faulty(samples + [sample]))
  {
    hide Account, Told, Classify, InTime, Reflects;
    var sample := Classify(stage, flights[f], response, now);
    ClassifyReflects(stage, flights[f], response, now);
    ClassifyIsOnSchedule(stage, flights[f], response, now);
    RecordKeepsAccount(flights, futures, samples, k, stage, start, rate, f, sample);
    NotYetSampled(flights, futures, samples, k, stage, start, rate);
    RespondedLate(samples, responses, admissions, rate, sample.index, response);
    ReflectsAttempted(sample, response);
    TellMore(samples, responses, responses[sample.index := response], admissions, admissions, rate, sample);
    BadAtEnd(samples, sample);
  }

  /** Giving up an outstanding request keeps the account and tells of it. */
  lemma AbortedOne(flights: map<nat, Flight>, futures: nat, samples: seq<Sample>, responses: map<nat, Response>,
                   admissions: map<nat, Admission>, k: nat, stage: string, start: real, rate: nat, f: nat)
    requires rate > 0 && Account(flights, futures, samples, k, stage, start, rate) && f in flights
    requires Told(samples, responses, admissions, rate) && FlightsInTime(flights, admissions, rate)
    ensures Account(flights - {f}, futures, samples + [Pending(stage, flights[f])], k, stage, start, rate)
    ensures Told(samples + [Pending(stage, flights[f])], responses, admissions, rate)
    ensures FlightsInTime(flights - {f}, admissions, rate) && |flights - {f}| == |flights| - 1
    ensures Faulty(samples + [Pending(stage, flights[f])]) <==> Faulty(samples)
  {
    hide Account, InTime;
    var s := Pending(stage, flights[f]);
    RecordKeepsAccount(flights, futures, samples, k, stage, start, rate, f, s);
    NotYetSampled(flights, futures, samples, k, stage, start, rate);
    assert s.index !in responses;
    var more := samples + [s];
    assert more[|samples|] == s && !Bad(s);
    if Faulty(samples) {
      var i :| 0 <= i < |samples| && Bad(samples[i]);
      assert Bad(more[i]);
    }
    TellMore(samples, responses, responses, admissions, admissions, rate, s);
    assert (flights - {f}).Keys == flights.Keys - {f};
    assert |flights - {f}| == |(flights - {f}).Keys| && |flights| == |flights.Keys|;
  }

  /** At the end nothing is outstanding, and the samples are the account. */
  lemma AccountDone(before: map<nat, Flight>, futures: nat, had: seq<Sample>, futures': nat, samples: seq<Sample>,
                    k: nat,
                    stage: string, start: real, rate: nat)
    requires rate > 0 && Account(before, futures, had, k, stage, start, rate)
    requires Account(map[], futures', samples, k, stage, start, rate)
    ensures Covers(samples, k, stage, start, rate) && |before| <= MAX_IN_FLIGHT
  {
    assert Indices(samples) + FlightIndices(map[]) == Indices(samples);
  }

  lemma InTimeMeans(a: Admission, due: real, rate: nat)
    requires rate > 0
    ensures InTime(a, due, rate) <==> a.clock - due < 1.0 / rate as real && a.outstanding < MAX_IN_FLIGHT
  {
  }

  /** Giving up an arrival keeps the account and tells of it. */
  lemma SkippedOne(flights: map<nat, Flight>, futures: nat, samples: seq<Sample>, responses: map<nat, Response>,
                   admissions: map<nat, Admission>, admitted: map<nat, Admission>, k: nat, stage: string, start: real,
                   rate: nat)
    requires rate > 0 && Account(flights, futures, samples, k, stage, start, rate)
    requires Told(samples, responses, admissions, rate) && FlightsInTime(flights, admissions, rate)
    requires k in admitted && admitted == admissions[k := admitted[k]]
    requires !InTime(admitted[k], Due(start, rate, k), rate)
    ensures var s := Unserved(stage, k, Due(start, rate, k));
            && Account(flights, futures, samples + [s], k + 1, stage, start, rate)
            && Told(samples + [s], responses, admitted, rate) && FlightsInTime(flights, admitted, rate)
            && Faulty(samples + [s])
  {
    hide Account, InTime, Due, Told;
    var s := Unserved(stage, k, Due(start, rate, k));
    SkipKeepsAccount(flights, futures, samples, k, stage, start, rate);
    NotYetSampled(flights, futures, samples, k, stage, start, rate);
    AdmittedLate(samples, responses, admissions, admitted, rate, k);
    TellMore(samples, responses, responses, admissions, admitted, rate, s);
    BadAtEnd(samples, s);
  }

  /** Submitting an arrival keeps the account and what is told. */
  lemma SubmittedOne(flights: map<nat, Flight>, futures: nat, samples: seq<Sample>, responses: map<nat, Response>,
                     admissions: map<nat, Admission>, admitted: map<nat, Admission>, k: nat, stage: string, start: real,
                     rate: nat)
    requires rate > 0 && Account(flights, futures, samples, k, stage, start, rate) && |flights| < MAX_IN_FLIGHT
    requires Told(samples, responses, admissions, rate) && FlightsInTime(flights, admissions, rate)
    requires k in admitted && admitted == admissions[k := admitted[k]] && InTime(admitted[k], Due(start, rate, k), rate)
    ensures var more := flights[futures := Flight(k, OperationName(k), Due(start, rate, k))];
            && Account(more, futures + 1, samples, k + 1, stage, start, rate)
            && Told(samples, responses, admitted, rate) && FlightsInTime(more, admitted, rate)
  {
    hide Account, InTime, Due, Told, OperationName;
    SubmitKeepsAccount(flights, futures, samples, k, stage, start, rate);
    NotYetSampled(flights, futures, samples, k, stage, start, rate);
    AdmittedLate(samples, responses, admissions, admitted, rate, k);
  }

  lemma ClassifyIsOnSchedule(stage: string, flight: Flight, response: Response, now: real)
    ensures var s := Classify(stage, flight, response, now);
            && s.stage == stage && s.index == flight.index && s.operation == flight.operation
            && s.scheduledAt == flight.due && (s.correct ==> Served(s)) && (!s.correct ==> Bad(s))
  {
  }

  lemma ReflectsAttempted(s: Sample, r: Response)
    requires Reflects(s, r)
    ensures s.attempted
  {
  }

  lemma BadAtEnd(samples: seq<Sample>, s: Sample)
    ensures Bad(s) ==> Faulty(samples + [s])
    ensures Served(s) && ServedAll(samples) ==> ServedAll(samples + [s])
  {
    assert (samples + [s])[|samples|] == s;
  }

  /** What is served in full was answered well, and what was answered well is all there is. */
  lemma ServedAreGood(samples: seq<Sample>, responses: map<nat, Response>, admissions: map<nat, Admission>, rate: nat)
    requires rate > 0 && Told(samples, responses, admissions, rate) && ServedAll(samples)
    ensures responses.Keys == Indices(samples) && forall i :: i in responses ==> Good(responses[i])
  {
    hide InTime, Good;
    forall s | s in samples ensures s.index in responses && Good(responses[s.index]) {
      var i :| 0 <= i < |samples| && samples[i] == s;
      assert ToldOne(samples[i], responses, admissions, rate) && Served(samples[i]);
    }
  }

  /** A bad sample names its cause. */
  lemma FaultyHasCause(samples: seq<Sample>, responses: map<nat, Response>, admissions: map<nat, Admission>, rate: nat)
    requires rate > 0 && Told(samples, responses, admissions, rate)
    ensures Faulty(samples) <==>
              || (exists i :: i in responses && !Good(responses[i]))
              || (exists s :: s in samples && !s.attempted)
  {
    hide InTime, Good;
    if Faulty(samples) {
      var i :| 0 <= i < |samples| && Bad(samples[i]);
      assert ToldOne(samples[i], responses, admissions, rate) && samples[i] in samples;
      if samples[i].index in responses { assert !Good(responses[samples[i].index]); }
    }
    if exists i :: i in responses && !Good(responses[i]) {
      var i :| i in responses && !Good(responses[i]);
      assert i in Indices(samples);
      var s :| s in samples && s.index == i;
      var j :| 0 <= j < |samples| && samples[j] == s;
      assert ToldOne(samples[j], responses, admissions, rate);
      assert Bad(samples[j]);
    }
    if exists s :: s in samples && !s.attempted {
      var s :| s in samples && !s.attempted;
      var j :| 0 <= j < |samples| && samples[j] == s;
      assert ToldOne(samples[j], responses, admissions, rate);
      assert Bad(samples[j]);
    }
  }

  function Pending(stage: string, flight: Flight): Sample {
    Sample(stage, flight.index, flight.operation, flight.due, true, None, None, None, None, false,
           Some("aborted-pending"))
  }

  function Unserved(stage: string, index: nat, due: real): Sample {
    Sample(stage, index, OperationName(index), due, false, None, None, None, None, false, Some("unserved"))
  }

  // ---- the account --------------------------------------------------------------------------------

  ghost function Indices(samples: seq<Sample>): set<nat> {
    set s | s in samples :: s.index
  }

  /** Exactly the numbers below `k`. */
  ghost predicate IsPrefix(s: set<nat>, k: nat) {
    forall i: nat :: i in s <==> i < k
  }

  /** A sample belongs to the schedule: the operation and due time of its index. */
  ghost predicate OnSchedule(s: Sample, stage: string, start: real, rate: nat)
    requires rate > 0
  {
    s.stage == stage && s.operation == OperationName(s.index) && s.scheduledAt == Due(start, rate, s.index)
  }

  ghost predicate SamplesOnSchedule(samples: seq<Sample>, stage: string, start: real, rate: nat)
    requires rate > 0
  {
    && (forall i, j :: 0 <= i < j < |samples| ==> samples[i].index != samples[j].index)
    && forall i :: 0 <= i < |samples| ==> OnSchedule(samples[i], stage, start, rate)
  }

  /** The samples cover exactly the first `k` arrivals, each with one sample. */
  ghost predicate Covers(samples: seq<Sample>, k: nat, stage: string, start: real, rate: nat)
    requires rate > 0
  {
    IsPrefix(Indices(samples), k) && SamplesOnSchedule(samples, stage, start, rate)
  }

  /** Served in full: attempted, completed and correct within the deadline. */
  ghost predicate Served(s: Sample) {
    && s.attempted && s.completedAt.Some? && s.correct && s.error == None && s.status == Some(200)
    && s.latency.Some? && s.latency.value <= DEADLINE_SECONDS * 1000.0
  }

  ghost predicate ServedAll(samples: seq<Sample>) {
    forall i :: 0 <= i < |samples| ==> Served(samples[i])
  }

  /** The samples that end a stage: a bad reply or an arrival that could not be served, as opposed to
      a request that was merely aborted. */
  predicate Bad(s: Sample) { !s.correct && s.error.Some? && s.error != Some("aborted-pending") }

  ghost predicate Faulty(samples: seq<Sample>) { exists i :: 0 <= i < |samples| && Bad(samples[i]) }

  ghost function FlightIndices(flights: map<nat, Flight>): set<nat> {
    set f | f in flights :: flights[f].index
  }

  ghost predicate FlightsOnSchedule(flights: map<nat, Flight>, futures: nat, start: real, rate: nat)
    requires rate > 0
  {
    && |flights| <= MAX_IN_FLIGHT
    && (forall f, g :: f in flights && g in flights && f != g ==> flights[f].index != flights[g].index)
    && forall f :: f in flights ==>
         && f < futures
         && flights[f].operation == OperationName(flights[f].index)
         && flights[f].due == Due(start, rate, flights[f].index)
  }

  /** After `k` arrivals: every one of them is recorded once or outstanding once, and no more than
      `MAX_IN_FLIGHT` are outstanding. */
  ghost predicate Account(flights: map<nat, Flight>, futures: nat, samples: seq<Sample>, k: nat,
                          stage: string, start: real, rate: nat)
    requires rate > 0
  {
    && FlightsOnSchedule(flights, futures, start, rate) && SamplesOnSchedule(samples, stage, start, rate)
    && Indices(samples) !! FlightIndices(flights)
    && IsPrefix(Indices(samples) + FlightIndices(flights), k)
  }

  class Stage {
    const name: string
    const rate: nat
    const start: real
    const signals: nat -> Signal        // what each watch, pause and wait meets
    var heard: nat
    var clock: real
    var inFlight: map<nat, Flight>
    var samples: seq<Sample>
    var futures: nat            // how many futures the pool has handed out
    ghost var responses: map<nat, Response>       // what each collected request came back with
    ghost var admissions: map<nat, Admission>     // when each arrival was up for submission

    constructor (name: string, rate: nat, start: real, signals: nat -> Signal)
      ensures this.name == name && this.rate == rate && this.start == start && this.signals == signals && heard == 0
      ensures inFlight == map[] && samples == [] && futures == 0 && responses == map[] && admissions == map[]
      ensures clock == start
    {
      this.name, this.rate, this.start, this.signals, heard, clock := name, rate, start, signals, 0, start;
      inFlight, samples, futures := map[], [], 0;
      responses, admissions := map[], map[];
    }

    ghost predicate Accounts(k: nat)
      reads this`inFlight, this`samples, this`futures
    {
      rate > 0 && Account(inFlight, futures, samples, k, name, start, rate)
    }

    ghost predicate AllServed()
      reads this`samples
    {
      ServedAll(samples)
    }

    /** Every sample tells what became of its request, and the outstanding ones were in time. */
    ghost predicate TellsAll()
      reads this`inFlight, this`samples, this`responses, this`admissions
    {
      rate > 0 && Told(samples, responses, admissions, rate) && FlightsInTime(inFlight, admissions, rate)
    }

    /** The signal came in one of the steps from `from` on. */
    ghost predicate Heard(signal: Signal, from: nat)
      reads this`heard
    {
      exists k :: from <= k < heard && signals(k) == signal
    }

    method Listen() returns (signal: Signal)
      modifies this`heard
      ensures heard == old(heard) + 1 && signal == signals(old(heard))
    {
      signal := signals(heard);
      heard := heard + 1;
    }

    /** Time passes. */
    method Pass(atLeast: real)
      modifies this`clock
      ensures clock >= old(clock) && clock >= old(clock) + atLeast
    {
      var passed: real := *;
      clock := clock + if passed >= 0.0 && passed >= atLeast then passed else if atLeast > 0.0 then atLeast else 0.0;
    }

    /** Takes one future out of the table and records its sample. */
    method CollectOne(f: nat, response: Response, now: real, ghost k: nat) returns (ok: bool)
      requires Accounts(k) && f in inFlight && TellsAll()
      modifies this`inFlight, this`samples, this`responses
      ensures Accounts(k) && TellsAll()
      ensures responses == old(responses)[old(inFlight)[f].index := response]
      ensures inFlight == old(inFlight) - {f}
      ensures samples == old(samples) + [Classify(name, old(inFlight)[f], response, now)]
      ensures ok && old(AllServed()) ==> AllServed()
      ensures !ok ==> Faulty(samples)
    {
      hide Account, Told, FlightsInTime, Classify, Faulty, ServedAll;
      var sample := Classify(name, inFlight[f], response, now);
      CollectedOne(inFlight, futures, samples, responses, admissions, k, name, start, rate, f, response, now);
      responses := responses[inFlight[f].index := response];
      inFlight := inFlight - {f};
      samples := samples + [sample];
      ok := sample.correct;
    }

    /** `collect`: the completed futures in any order, stopping at the first bad sample. */
    method Collect(done: set<nat>, ghost k: nat) returns (ok: bool)
      requires Accounts(k) && TellsAll() && done <= inFlight.Keys
      modifies this`inFlight, this`samples, this`responses
      ensures Accounts(k) && TellsAll()
      ensures inFlight.Keys <= old(inFlight).Keys
      ensures ok ==> inFlight.Keys == old(inFlight).Keys - done
      ensures ok && old(AllServed()) ==> AllServed()
      ensures !ok ==> Faulty(samples)
    {
      hide Stage.Accounts, Stage.AllServed, Stage.TellsAll, Faulty;
      var todo := done;
      while todo != {}
        invariant Accounts(k) && TellsAll() && todo <= inFlight.Keys <= old(inFlight).Keys
        invariant inFlight.Keys == old(inFlight).Keys - (done - todo)
        invariant old(AllServed()) ==> AllServed()
        decreases todo
      {
        var f :| f in todo;
        todo := todo - {f};
        var response: Response := *;
        var now: real := *;
        ok := CollectOne(f, response, now, k);
        if !ok { return; }
      }
      return true;
    }

    /** One arrival: watch, wait until it is due, collect, and submit it or give it up. */
    method Arrive(index: nat) returns (signal: Signal, ghost k: nat)
      requires Accounts(index) && TellsAll() && NotEarly(admissions, start, rate)
      modifies this`inFlight, this`samples, this`futures, this`heard, this`responses, this`admissions, this`clock
      ensures heard >= old(heard) && TellsAll() && NotEarly(admissions, start, rate)
      ensures Accounts(k) && (k == index || k == index + 1)
      ensures signal == Interrupt <==> Heard(Interrupt, old(heard))
      ensures signal == Failure ==> Heard(Failure, old(heard)) || Faulty(samples)
      ensures Heard(Failure, old(heard)) ==> signal == Failure
      ensures signal == Quiet ==> k == index + 1
      ensures signal != Failure && old(AllServed()) ==> AllServed()
    {
      hide Stage.AllServed, Stage.TellsAll, Account, Faulty, NotEarly;
      k := index;
      var due := Due(start, rate, index);
      signal := Await(due);
      if signal != Quiet { return; }
      var done: set<nat> := *;
      var ok := Collect(done * inFlight.Keys, index);
      if !ok { return Failure, k; }
      k := index + 1;
      ok := Admit(index, due);
      signal := if ok then Quiet else Failure;
    }

    /** The watch, and the pause until the request is due. */
    method Await(due: real) returns (signal: Signal)
      modifies this`heard, this`clock
      ensures heard >= old(heard) && (signal == Quiet ==> clock >= due)
      ensures signal == Interrupt <==> Heard(Interrupt, old(heard))
      ensures signal == Failure <==> Heard(Failure, old(heard))
    {
      signal := Listen();
      if signal != Quiet { return; }
      Pass(0.0);
      var remaining := due - clock;
      if remaining > 0.0 {
        var paused := Listen();
        if paused != Quiet { return paused; }
        Pass(remaining);
      }
    }

    /** Submits the request, unless it is late by a full period or the table is full. */
    method Admit(index: nat, due: real) returns (ok: bool)
      requires Accounts(index) && TellsAll() && rate > 0 && due == Due(start, rate, index)
      requires clock >= due && NotEarly(admissions, start, rate)
      modifies this`inFlight, this`samples, this`futures, this`admissions, this`clock
      ensures Accounts(index + 1) && TellsAll() && NotEarly(admissions, start, rate)
      ensures ok ==> samples == old(samples)
      ensures !ok ==> Faulty(samples)
    {
      hide Account, Due, OperationName, Told, FlightsInTime, Faulty, Unserved, InTime;
      Pass(0.0);
      ghost var a := Admission(clock, |inFlight|);
      ghost var admitted := admissions[index := a];
      assert InTime(a, due, rate) <==> !(clock - due >= 1.0 / rate as real || |inFlight| >= MAX_IN_FLIGHT) by {
        InTimeMeans(a, due, rate);
      }
      if clock - due >= 1.0 / rate as real || |inFlight| >= MAX_IN_FLIGHT {
        SkippedOne(inFlight, futures, samples, responses, admissions, admitted, index, name, start, rate);
        samples, admissions := samples + [Unserved(name, index, due)], admitted;
        return false;
      }
      SubmittedOne(inFlight, futures, samples, responses, admissions, admitted, index, name, start, rate);
      admissions := admitted;
      inFlight := inFlight[futures := Flight(index, OperationName(index), due)];
      futures := futures + 1;
      return true;
    }

    /** Waits for the outstanding requests.  A wait may end by its timeout only `patience` times,
        since every request ends within its own deadline. */
    method Drain(count: nat, patience: nat) returns (signal: Signal)
      requires Accounts(count) && TellsAll()
      modifies this`inFlight, this`samples, this`heard, this`responses
      ensures Accounts(count) && TellsAll() && heard >= old(heard)
      ensures signal == Interrupt <==> Heard(Interrupt, old(heard))
      ensures signal == Failure ==> Heard(Failure, old(heard)) || Faulty(samples)
      ensures Heard(Failure, old(heard)) ==> signal == Failure
      ensures signal == Quiet ==> inFlight == map[]
      ensures signal != Failure && old(AllServed()) ==> AllServed()
    {
      hide Stage.AllServed, Stage.TellsAll, Account;
      var patient := patience;
      while inFlight != map[]
        invariant Accounts(count) && TellsAll() && (old(AllServed()) ==> AllServed()) && heard >= old(heard)
        invariant !Heard(Interrupt, old(heard)) && !Heard(Failure, old(heard))
        decreases inFlight.Keys, patient
      {
        signal := Listen();                         // watch, then wait
        if signal != Quiet { return; }
        var done: set<nat> := *;
        done := done * inFlight.Keys;
        if done == {} {
          if patient > 0 {
            patient := patient - 1;
          } else {
            done := inFlight.Keys;
          }
        }
        ghost var before := inFlight.Keys;
        var ok := Collect(done, count);
        if !ok { return Failure; }
        assert done != {} ==> inFlight.Keys < before by {
          if done != {} { var f :| f in done; assert f in before && f !in inFlight.Keys; }
        }
      }
      return Quiet;
    }

    /** The handler: what is still outstanding is recorded as aborted. */
    method Abort(ghost k: nat)
      requires Accounts(k) && TellsAll()
      modifies this`samples
      ensures rate > 0 && Covers(samples, k, name, start, rate)
      ensures old(samples) <= samples && |samples| <= |old(samples)| + MAX_IN_FLIGHT
      ensures Told(samples, responses, admissions, rate)
      ensures Faulty(samples) <==> old(Faulty(samples))
    {
      hide Account, Told, FlightsInTime, Indices, Faulty;
      var rest := inFlight;
      while rest != map[]
        invariant rate > 0 && Account(rest, futures, samples, k, name, start, rate)
        invariant Told(samples, responses, admissions, rate) && FlightsInTime(rest, admissions, rate)
        invariant old(samples) <= samples && |samples| + |rest| == |old(samples)| + |inFlight|
        invariant Faulty(samples) <==> old(Faulty(samples))
        decreases |rest|
      {
        var f :| f in rest;
        AbortedOne(rest, futures, samples, responses, admissions, k, name, start, rate, f);
        samples := samples + [Pending(name, rest[f])];
        rest := rest - {f};
      }
      AccountDone(inFlight, futures, old(samples), futures, samples, k, name, start, rate);
    }

    /** `run_stage`: whatever completes when, and however it ends, the samples are an account of a
        prefix of the schedule, and tell what became of each request: whether it was submitted, which
        it is when less than a period late and with room in the table, and what came back.  A normal
        return means that every request of the schedule came back good. */
    method Run(seconds: nat, patience: nat) returns (exit: StageExit)
      requires inFlight == map[] && samples == [] && futures == 0 && responses == map[] && admissions == map[]
      modifies this
      ensures rate == 0 ==> exit == Completed && samples == []
      ensures rate > 0 && exit == Completed ==>
                Covers(samples, seconds * rate, name, start, rate) && AllServed() && inFlight == map[]
      ensures rate > 0 && exit != Completed ==>
                exists k :: 0 <= k <= seconds * rate && Covers(samples, k, name, start, rate)
      ensures |inFlight| <= MAX_IN_FLIGHT
      ensures rate > 0 ==> Told(samples, responses, admissions, rate)
      // no request is submitted before it is due (`Told`: nor a full period after it)
      ensures rate > 0 ==> NotEarly(admissions, start, rate)
      ensures rate > 0 && exit == Completed ==>
                forall i: nat :: i < seconds * rate ==> i in responses && Good(responses[i])
      // it ends early only for a cause: a signal, a response that is not good, or a request that was
      // not submitted; and such a response or request always ends it
      ensures rate > 0 ==> (exit == Interrupted <==> Heard(Interrupt, old(heard)))
      ensures rate > 0 ==>
                (exit == QualificationFailed <==>
                 || Heard(Failure, old(heard)) || (exists i :: i in responses && !Good(responses[i]))
                 || (exists s :: s in samples && !s.attempted))
    {
      hide Due, Faulty, OperationName, Good, Told, ServedAll, FlightsInTime;
      if rate == 0 { return Completed; }
      var count := seconds * rate;
      var index := 0;
      NothingTold(rate);
      while index < count
        invariant index <= count && Accounts(index) && TellsAll() && AllServed() && heard >= old(heard)
        invariant NotEarly(admissions, start, rate)
        invariant !Heard(Interrupt, old(heard)) && !Heard(Failure, old(heard))
      {
        var signal;
        ghost var k;
        signal, k := Arrive(index);
        if signal != Quiet {
          if signal == Interrupt { ServedNotFaulty(samples); }
          exit := Stop(signal, k);
          FaultyHasCause(samples, responses, admissions, rate);
          return;
        }
        index := index + 1;
      }
      var signal := Drain(count, patience);
      if signal != Quiet {
        if signal == Interrupt { ServedNotFaulty(samples); }
        exit := Stop(signal, count);
        FaultyHasCause(samples, responses, admissions, rate);
        return;
      }
      ServedAreGood(samples, responses, admissions, rate);
      FaultyHasCause(samples, responses, admissions, rate);
      ServedNotFaulty(samples);
      AccountDone(inFlight, futures, samples, futures, samples, count, name, start, rate);
      return Completed;
    }

    /** The handler's exit. */
    method Stop(signal: Signal, ghost k: nat) returns (exit: StageExit)
      requires Accounts(k) && TellsAll() && signal != Quiet
      modifies this`samples
      ensures Faulty(samples) <==> old(Faulty(samples))
      ensures exit == if signal == Failure then QualificationFailed else Interrupted
      ensures rate > 0 && Covers(samples, k, name, start, rate) && Told(samples, responses, admissions, rate)
      ensures |inFlight| <= MAX_IN_FLIGHT
    {
      hide Told, Faulty;
      Abort(k);
      return if signal == Failure then QualificationFailed else Interrupted;
    }
  }

  lemma NothingTold(rate: nat)
    requires rate > 0
    ensures Told([], map[], map[], rate) && FlightsInTime(map[], map[], rate) && ServedAll([])
  {
  }

  lemma ServedNotFaulty(samples: seq<Sample>)
    requires ServedAll(samples)
    ensures !Faulty(samples)
  {
  }

  lemma RemoveFlight(flights: map<nat, Flight>, f: nat)
    requires f in flights
    requires forall f, g :: f in flights && g in flights && f != g ==> flights[f].index != flights[g].index
    ensures FlightIndices(flights - {f}) == FlightIndices(flights) - {flights[f].index}
    ensures |flights - {f}| == |flights| - 1
  {
    var rest := flights - {f};
    assert rest.Keys == flights.Keys - {f};
    assert |rest| == |rest.Keys| && |flights| == |flights.Keys|;
    forall i | i in FlightIndices(flights) - {flights[f].index} ensures i in FlightIndices(rest) {
      var g :| g in flights && flights[g].index == i;
      assert g in rest && rest[g].index == i;
    }
  }

  lemma IndicesAppend(samples: seq<Sample>, sample: Sample)
    ensures Indices(samples + [sample]) == Indices(samples) + {sample.index}
  {
    var all := samples + [sample];
    assert forall s :: s in all <==> s in samples || s == sample;
    assert sample in all;
  }

  lemma AppendKeepsSchedule(samples: seq<Sample>, sample: Sample, stage: string, start: real, rate: nat)
    requires rate > 0 && SamplesOnSchedule(samples, stage, start, rate) && OnSchedule(sample, stage, start, rate)
    requires sample.index !in Indices(samples)
    ensures SamplesOnSchedule(samples + [sample], stage, start, rate)
  {
    hide OnSchedule;
    forall i | 0 <= i < |samples| ensures samples[i].index != sample.index {
      assert samples[i] in samples;
    }
  }

  /** Recording the sample of an outstanding arrival keeps the account. */
  lemma RecordKeepsAccount(flights: map<nat, Flight>, futures: nat, samples: seq<Sample>, k: nat,
                           stage: string, start: real, rate: nat, f: nat, sample: Sample)
    requires rate > 0 && Account(flights, futures, samples, k, stage, start, rate) && f in flights
    requires sample.stage == stage && sample.index == flights[f].index
    requires sample.operation == flights[f].operation && sample.scheduledAt == flights[f].due
    ensures Account(flights - {f}, futures, samples + [sample], k, stage, start, rate)
  {
    assert flights[f].index in FlightIndices(flights);
    RemoveFlight(flights, f);
    IndicesAppend(samples, sample);
    AppendKeepsSchedule(samples, sample, stage, start, rate);
    assert Indices(samples + [sample]) + FlightIndices(flights - {f}) == Indices(samples) + FlightIndices(flights);
  }

  lemma AddFlight(flights: map<nat, Flight>, futures: nat, flight: Flight, start: real, rate: nat)
    requires rate > 0 && FlightsOnSchedule(flights, futures, start, rate) && |flights| < MAX_IN_FLIGHT
    requires flight.operation == OperationName(flight.index) && flight.due == Due(start, rate, flight.index)
    requires flight.index !in FlightIndices(flights)
    ensures var more := flights[futures := flight];
            FlightsOnSchedule(more, futures + 1, start, rate)
            && FlightIndices(more) == FlightIndices(flights) + {flight.index}
  {
    hide Due, OperationName;
    var more := flights[futures := flight];
    assert FlightIndices(more) == FlightIndices(flights) + {flight.index} by {
      forall i | i in FlightIndices(flights) + {flight.index} ensures i in FlightIndices(more) {
        if i == flight.index {
          assert more[futures].index == flight.index;
        } else {
          var g :| g in flights && flights[g].index == i;
          assert g in more && more[g].index == i;
        }
      }
    }
    forall f | f in flights ensures flights[f].index != flight.index {
      assert flights[f].index in FlightIndices(flights);
    }
  }

  /** Submitting the next arrival keeps the account. */
  lemma SubmitKeepsAccount(flights: map<nat, Flight>, futures: nat, samples: seq<Sample>, k: nat,
                           stage: string, start: real, rate: nat)
    requires rate > 0 && Account(flights, futures, samples, k, stage, start, rate) && |flights| < MAX_IN_FLIGHT
    ensures var flight := Flight(k, OperationName(k), Due(start, rate, k));
            Account(flights[futures := flight], futures + 1, samples, k + 1, stage, start, rate)
  {
    var flight := Flight(k, OperationName(k), Due(start, rate, k));
    assert k !in Indices(samples) + FlightIndices(flights);
    AddFlight(flights, futures, flight, start, rate);
    assert Indices(samples) + FlightIndices(flights[futures := flight]) ==
           Indices(samples) + FlightIndices(flights) + {k};
  }

  /** Recording an arrival as unserved keeps the account. */
  lemma SkipKeepsAccount(flights: map<nat, Flight>, futures: nat, samples: seq<Sample>, k: nat,
                         stage: string, start: real, rate: nat)
    requires rate > 0 && Account(flights, futures, samples, k, stage, start, rate)
    ensures Account(flights, futures, samples + [Unserved(stage, k, Due(start, rate, k))], k + 1, stage, start, rate)
  {
    var sample := Unserved(stage, k, Due(start, rate, k));
    assert k !in Indices(samples) + FlightIndices(flights);
    IndicesAppend(samples, sample);
    AppendKeepsSchedule(samples, sample, stage, start, rate);
  }
}
