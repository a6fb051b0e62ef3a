/**
  The worker pool that asks the accrual service about a batch of orders:
  `SendOrdersToAccrual` and `sendRun` of internal/gophermart/service/service.go with
  `workerPlain` and `StartPool` of internal/common/httpclientpool/httpclientpool.go.

  Producer, workers, closer and consumer are goroutines that interleave freely, so they are
  modelled as a step system: a state holds both channels and where each goroutine stands, an
  event is one atomic step of one of them. `Sequential` is the same work without goroutines.
 */
module Pool {
  import opened Tables

  // ---------------------------------------------------------------- replies and results

  /** What one request brings back. The error of a 200 body that does not decode is recorded but
      never read: the reply holds whatever fields the decoder had set, and a status it could
      not set is `Garbled`. */
  datatype Reply = Http(code: int, retryAfter: int, status: Status, accrual: real) | TransportError

  const HTTP_SUCCESS := 200
  const HTTP_RETRY := 429

  datatype Result = Result(value: Order, code: int, waitSec: int, failed: bool)

  /** Only a 200 has its body decoded and only a 429 its Retry-After read; the order keeps its
      number and owner whatever the reply. */
  function MakeResult(o: Order, r: Reply): (result: Result)
    ensures result.value.orderId == o.orderId && result.value.userId == o.userId
    ensures r.TransportError? ==> result.failed && result.value == o
    ensures r.Http? && r.code == 200 ==> result.value.status == r.status && result.value.accrual == r.accrual
    ensures r.Http? && r.code != 200 ==> result.value.status.Garbled? && result.value.accrual == 0.0
  {
    match r
    case TransportError => Result(o, 0, 0, true)
    case Http(code, retryAfter, status, accrual) =>
      if code == HTTP_SUCCESS then
        Result(o.(status := status, accrual := accrual), code, 0, false)
      else
        Result(o.(status := Garbled(""), accrual := 0.0), code, if code == HTTP_RETRY then retryAfter else 0, false)
  }

  function ResultsOf(orders: seq<Order>, replies: nat -> Reply): seq<Result> {
    seq(|orders|, i requires 0 <= i < |orders| => MakeResult(orders[i], replies(orders[i].orderId)))
  }

  /** What the consumer builds up: the answered orders by number and the longest wait. */
  datatype Tally = Tally(orders: map<nat, Order>, wait: int)

  function Absorb(t: Tally, r: Result): Tally {
    if r.failed then t
    else if r.code == HTTP_SUCCESS then t.(orders := t.orders[r.value.orderId := r.value])
    else if r.code == HTTP_RETRY && r.waitSec > t.wait then t.(wait := r.waitSec)
    else t
  }

  function Fold(rs: seq<Result>): Tally {
    if rs == [] then Tally(map[], 0) else Absorb(Fold(rs[..|rs| - 1]), rs[|rs| - 1])
  }

  /** One request after the other, in order. */
  function Sequential(orders: seq<Order>, replies: nat -> Reply): Tally {
    Fold(ResultsOf(orders, replies))
  }

  // ---------------------------------------------------------------- the step system

  datatype Producer = Checking | Sending | Closed

  datatype Worker =
    | Waiting
    | Holding(job: Order)
    | Calling(job: Order)
    | Delivering(result: Result)
    | Done

  datatype Consumer = Ranging | Received(result: Result) | Returned | Cancelled

  /** `absorbed` and `dropped` only record: the results the consumer has tallied, and the
      orders cancellation has lost. */
  datatype State = State(
    unsent: seq<Order>,
    producer: Producer,
    jobs: seq<Order>,
    jobsClosed: bool,
    workers: seq<Worker>,
    results: seq<Result>,
    resultsClosed: bool,
    consumer: Consumer,
    tally: Tally,
    cancelled: bool,
    absorbed: seq<Result>,
    dropped: seq<Order>)

  function Init(orders: seq<Order>, workerCount: nat): State {
    State(orders, Checking, [], false, seq(workerCount, _ => Waiting), [], false,
          Ranging, Tally(map[], 0), false, [], [])
  }

  /** How a request ends. Only a cancelled context aborts it or cuts its body short; a body cut
      short still arrives as some 200 result for the order. */
  datatype Ending = Complete | Aborted | CutShort(result: Result)

  datatype Event =
    | Produce
    | PutJob
    | TakeJob(i: nat)
    | CheckJob(i: nat)
    | EndCall(i: nat, ending: Ending)
    | Deliver(i: nat)
    | CloseResults
    | Receive
    | Look
    | Cancel

  /** Both channels are made with this capacity. */
  function Capacity(p: State): nat {
    2 * |p.workers|
  }

  ghost predicate AllDone(workers: seq<Worker>) {
    forall i :: 0 <= i < |workers| ==> workers[i].Done?
  }

  ghost predicate Enabled(p: State, e: Event) {
    match e
    case Produce => p.producer.Checking?
    case PutJob => p.producer.Sending? && p.unsent != [] && |p.jobs| < Capacity(p)
    case TakeJob(i) => i < |p.workers| && p.workers[i].Waiting? && (p.jobs != [] || p.jobsClosed)
    case CheckJob(i) => i < |p.workers| && p.workers[i].Holding?
    case EndCall(i, ending) =>
      && i < |p.workers| && p.workers[i].Calling?
      && (ending.Complete? || p.cancelled)
      && (ending.CutShort? ==> ending.result.value.orderId == p.workers[i].job.orderId)
    case Deliver(i) => i < |p.workers| && p.workers[i].Delivering? && |p.results| < Capacity(p)
    case CloseResults => AllDone(p.workers) && !p.resultsClosed
    case Receive => p.consumer.Ranging? && (p.results != [] || p.resultsClosed)
    case Look => p.consumer.Received?
    case Cancel => !p.cancelled
  }

  function Step(p: State, e: Event, replies: nat -> Reply): State
    requires Enabled(p, e)
  {
    match e
    case Produce =>
      if p.unsent == [] then
        p.(producer := Closed, jobsClosed := true)
      else if p.cancelled then
        p.(producer := Closed, jobsClosed := true, unsent := [], dropped := p.dropped + p.unsent)
      else
        p.(producer := Sending)
    case PutJob =>
      p.(producer := Checking, unsent := p.unsent[1..], jobs := p.jobs + [p.unsent[0]])
    case TakeJob(i) =>
      if p.jobs != [] then
        p.(workers := p.workers[i := Holding(p.jobs[0])], jobs := p.jobs[1..])
      else
        p.(workers := p.workers[i := Done])
    case CheckJob(i) =>
      if p.cancelled then
        p.(workers := p.workers[i := Done], dropped := p.dropped + [p.workers[i].job])
      else
        p.(workers := p.workers[i := Calling(p.workers[i].job)])
    case EndCall(i, ending) =>
      var job := p.workers[i].job;
      match ending {
        case Complete => p.(workers := p.workers[i := Delivering(MakeResult(job, replies(job.orderId)))])
        case Aborted => p.(workers := p.workers[i := Done], dropped := p.dropped + [job])
        case CutShort(r) => p.(workers := p.workers[i := Delivering(r)])
      }
    case Deliver(i) =>
      p.(results := p.results + [p.workers[i].result], workers := p.workers[i := Waiting])
    case CloseResults =>
      p.(resultsClosed := true)
    case Receive =>
      if p.results != [] then
        p.(consumer := Received(p.results[0]), results := p.results[1..])
      else
        p.(consumer := Returned)
    case Look =>
      var r := p.consumer.result;
      if p.cancelled then
        p.(consumer := Cancelled, dropped := p.dropped + [r.value])
      else
        p.(consumer := Ranging, tally := Absorb(p.tally, r), absorbed := p.absorbed + [r])
    case Cancel =>
      p.(cancelled := true)
  }

  /** A run from the initial state, `states` being the states between its events. */
  ghost predicate Run(orders: seq<Order>, workerCount: nat, replies: nat -> Reply,
                      states: seq<State>, events: seq<Event>) {
    && |states| == |events| + 1
    && states[0] == Init(orders, workerCount)
    && forall i :: 0 <= i < |events| ==>
         Enabled(states[i], events[i]) && states[i + 1] == Step(states[i], events[i], replies)
  }

  function Last(states: seq<State>): State
    requires states != []
  {
    states[|states| - 1]
  }
}
