/** The restart manager as a state machine: what each critical section of the
    manager does to the persisted requests, the one-shot timers and the queue
    of restarts handed to the stagger service.

    Time is counted in nanoseconds.  Stamps kept in the persisted config are
    whole seconds, because RFC 3339 formatting drops the fraction. */
module RestartModel {
  import opened Common

  /** A stored time stamp: absent, unparseable, or a whole number of seconds. */
  datatype Stamp = Empty | Garbled | At(sec: int)

  datatype Reason =
    | AdminCert | EcertUpdate | TlsUpdate | ConfigOverride
    | Migration | NodeOU | ConfigMapUpdate | RestartAction

  datatype Status = Pending | Complete | NoStatus

  datatype Request = Request(status: Status, requested: Stamp, lastAction: Stamp)

  type Requests = map<Reason, Request>

  /** A timer in the timer table.  `owner` and `reasons` are what its callback
      captured; `off` says that it has gone off and can no longer be stopped. */
  datatype Timer = Timer(owner: Instance, deadline: int, reasons: seq<Reason>, off: bool)

  /** The callback of a timer that has gone off, started but not yet run.  It is
      overtaken once the requests of its owner have been completed since. */
  datatype Callback = Callback(owner: Instance, deadline: int, reasons: seq<Reason>, overtaken: bool)

  /** One restart handed to the stagger service.  `served` holds each request the
      restart completed, as it stood just before; `late` marks the restart of a
      callback that was overtaken. */
  datatype Restart = Restart(instance: Instance, at: int, reasons: seq<Reason>, served: Requests, late: bool)

  /** Timers are keyed by bare instance name, requests by namespace and name. */
  datatype State = State(
    now: int,
    config: map<Instance, Requests>,
    timers: map<string, Timer>,
    callbacks: seq<Callback>,
    restarts: seq<Restart>)

  /** The steps of the machine.  `order` and `oldest` record how the loops over
      the request map happened to run, since its iteration order is arbitrary.  A
      timer goes off in one step, and its callback runs in a later one. */
  datatype Event =
    | Asked(x: Instance, reason: Reason)
    | Checked(x: Instance, order: seq<Reason>, oldest: Option<Reason>)
    | WentOff(name: string)
    | Called(i: nat)
    | Ticked(to: int)
    | Crashed

  function Format(now: int): Stamp {
    At(now / SECOND)
  }

  predicate IsPending(rs: Requests, r: Reason) {
    r in rs && rs[r].status == Pending
  }

  function PendingReasons(rs: Requests): set<Reason> {
    set r | r in rs && rs[r].status == Pending
  }

  /** Does this request alone call for an immediate restart? */
  predicate Due(wait: int, req: Request) {
    && req.status == Pending
    && (req.lastAction.At? && req.requested.At? ==>
          (req.requested.sec - req.lastAction.sec) * SECOND >= wait)
  }

  predicate AnyDue(wait: int, rs: Requests) {
    exists r :: r in rs && Due(wait, rs[r])
  }

  function AskedRequest(rs: Requests, r: Reason, now: int): Request {
    var req := if r in rs then rs[r] else Request(NoStatus, Empty, Empty);
    if req.status == Pending then req else Request(Pending, Format(now), req.lastAction)
  }

  function CompletedRequest(req: Request, now: int): Request {
    if req.status == Pending then Request(Complete, Empty, Format(now)) else req
  }

  function CompletedRequests(rs: Requests, now: int): Requests {
    map r | r in rs :: CompletedRequest(rs[r], now)
  }

  function Ask(s: State, x: Instance, r: Reason): State {
    var rs := if x in s.config then s.config[x] else map[];
    s.(config := s.config[x := rs[r := AskedRequest(rs, r, s.now)]])
  }

  /** The callbacks of `x` become late. */
  function Overtake(callbacks: seq<Callback>, x: Instance): (cs: seq<Callback>)
    ensures |cs| == |callbacks|
  {
    seq(|callbacks|, i requires 0 <= i < |callbacks| =>
      if callbacks[i].owner == x then callbacks[i].(overtaken := true) else callbacks[i])
  }

  /** Completes the pending requests of `x` and stops the timer of its name; one
      that has gone off already is taken from the table, but its callback runs. */
  function Clear(s: State, x: Instance): State {
    if x !in s.config then s
    else s.(config := s.config[x := CompletedRequests(s.config[x], s.now)],
            timers := s.timers - {x.name},
            callbacks := Overtake(s.callbacks, x))
  }

  function Served(s: State, x: Instance): Requests {
    if x !in s.config then map[]
    else map r | r in PendingReasons(s.config[x]) :: s.config[x][r]
  }

  function Deploy(s: State, x: Instance, reasons: seq<Reason>, late: bool): State {
    Clear(s, x).(restarts := s.restarts + [Restart(x, s.now, reasons, Served(s, x), late)])
  }

  function Expire(s: State, name: string): State
    requires name in s.timers
  {
    var t := s.timers[name];
    s.(timers := s.timers[name := t.(off := true)],
       callbacks := s.callbacks + [Callback(t.owner, t.deadline, t.reasons, false)])
  }

  function Without<T>(items: seq<T>, i: nat): seq<T>
    requires i < |items|
  {
    items[..i] + items[i + 1..]
  }

  function Call(s: State, i: nat): State
    requires i < |s.callbacks|
  {
    var c := s.callbacks[i];
    Deploy(s.(callbacks := Without(s.callbacks, i)), c.owner, c.reasons, c.overtaken)
  }

  /** `choice` is a reason whose request stamp is the oldest, provided it lies
      strictly before the current time; otherwise there is none. */
  predicate IsOldest(rs: Requests, now: int, choice: Option<Reason>) {
    match choice
    case None => forall r | r in rs && rs[r].requested.At? :: rs[r].requested.sec * SECOND >= now
    case Some(c) =>
      && c in rs && rs[c].requested.At? && rs[c].requested.sec * SECOND < now
      && forall r | r in rs && rs[r].requested.At? :: rs[c].requested.sec <= rs[r].requested.sec
  }

  function TimerDuration(wait: int, rs: Requests, choice: Option<Reason>): int
    requires choice.Some? ==> choice.value in rs && rs[choice.value].requested.At?
  {
    if choice.Some? && rs[choice.value].lastAction.At?
    then wait - (rs[choice.value].requested.sec - rs[choice.value].lastAction.sec) * SECOND
    else wait
  }

  function Arm(wait: int, s: State, x: Instance, reasons: seq<Reason>, choice: Option<Reason>): State
    requires x in s.config && IsOldest(s.config[x], s.now, choice)
  {
    if x.name in s.timers then s
    else s.(timers := s.timers[x.name := Timer(x, s.now + TimerDuration(wait, s.config[x], choice), reasons, false)])
  }

  function Check(wait: int, s: State, x: Instance, order: seq<Reason>, choice: Option<Reason>): State
    requires x in s.config ==> IsOldest(s.config[x], s.now, choice)
  {
    if x !in s.config then s
    else if AnyDue(wait, s.config[x]) then Deploy(s, x, order, false)
    else if PendingReasons(s.config[x]) != {} then Arm(wait, s, x, order, choice)
    else s
  }

  predicate Enumerates(order: seq<Reason>, elements: set<Reason>) {
    && (forall e :: e in order <==> e in elements)
    && (forall i, j | 0 <= i < j < |order| :: order[i] != order[j])
  }

  /** Which steps can happen in a state.  A timer goes off no earlier than its
      deadline; how much later, and how much later still its callback runs, is up
      to the scheduler. */
  predicate Allowed(s: State, e: Event) {
    match e
    case Asked(_, _) => true
    case Checked(x, order, oldest) =>
      x in s.config ==> Enumerates(order, PendingReasons(s.config[x])) && IsOldest(s.config[x], s.now, oldest)
    case WentOff(name) => name in s.timers && !s.timers[name].off && s.timers[name].deadline <= s.now
    case Called(i) => i < |s.callbacks|
    case Ticked(to) => s.now <= to
    case Crashed => true
  }

  function Apply(wait: int, s: State, e: Event): State
    requires Allowed(s, e)
  {
    match e
    case Asked(x, r) => Ask(s, x, r)
    case Checked(x, order, oldest) => Check(wait, s, x, order, oldest)
    case WentOff(name) => Expire(s, name)
    case Called(i) => Call(s, i)
    case Ticked(to) => s.(now := to)
    case Crashed => s.(timers := map[], callbacks := [])
  }

  predicate Runs(wait: int, s: State, es: seq<Event>)
    decreases |es|
  {
    es == [] || (Allowed(s, es[0]) && Runs(wait, Apply(wait, s, es[0]), es[1..]))
  }

  function End(wait: int, s: State, es: seq<Event>): State
    requires Runs(wait, s, es)
    decreases |es|
  {
    if es == [] then s else End(wait, Apply(wait, s, es[0]), es[1..])
  }
}
