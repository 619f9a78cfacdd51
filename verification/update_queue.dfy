/** The update stacks of the CA, peer and orderer controllers as a state machine.

    Watch predicates push update flags at any moment.  Each controller has one
    worker, which takes one instance at a time: it peeks, pops, runs the offering,
    may push the update back, and then looks whether anything is left.  Each of
    these is one critical section, so each is one step, and pushes fall anywhere
    between them.

    Queues belong to a bare name: instances of one name in different namespaces
    share a queue. */
module UpdateQueue {
  import opened Common

  /** Where the worker stands inside Reconcile, and for which instance. */
  datatype Worker<U> =
    | Idle
    | Peeked(x: Instance, peeked: U)
    | Popped(x: Instance, peeked: U, given: U)
    | Settled(x: Instance, requeue: bool)

  /** What the offering (or the status update after it) came back with. */
  datatype Outcome = Failed | Done(requeue: bool)

  datatype State<U> = State(queues: map<string, seq<U>>, worker: Worker<U>)

  datatype Event<U> =
    | Push(x: Instance, u: U)
    | Peek(x: Instance)
    | Pop(x: Instance)
    | Finish(x: Instance, outcome: Outcome)
    | Return(x: Instance)

  function Queue<U>(s: State<U>, name: string): seq<U> {
    if name in s.queues then s.queues[name] else []
  }

  function AppendIfMissing<U(==)>(q: seq<U>, u: U): seq<U> {
    if u in q then q else q + [u]
  }

  /** Head of the queue, or the zero update when it is empty. */
  function Head<U>(zero: U, q: seq<U>): U {
    if q == [] then zero else q[0]
  }

  function Rest<U>(q: seq<U>): seq<U> {
    if |q| <= 1 then [] else q[1..]
  }

  predicate Allowed<U>(s: State<U>, e: Event<U>) {
    match e
    case Push(_, _) => true
    case Peek(_) => s.worker.Idle?
    case Pop(x) => s.worker.Peeked? && s.worker.x == x
    case Finish(x, _) => s.worker.Popped? && s.worker.x == x
    case Return(x) => s.worker.Settled? && s.worker.x == x
  }

  function Apply<U(==)>(zero: U, s: State<U>, e: Event<U>): State<U>
    requires Allowed(s, e)
  {
    match e
    case Push(x, u) => s.(queues := s.queues[x.name := AppendIfMissing(Queue(s, x.name), u)])
    case Peek(x) => s.(worker := Peeked(x, Head(zero, Queue(s, x.name))))
    case Pop(x) =>
      State(if Queue(s, x.name) == [] then s.queues else s.queues[x.name := Rest(Queue(s, x.name))],
            Popped(x, s.worker.peeked, Head(zero, Queue(s, x.name))))
    case Finish(x, Failed) => s.(worker := Idle)
    case Finish(x, Done(requeue)) =>
      State(if requeue then s.queues[x.name := AppendIfMissing(Queue(s, x.name), s.worker.peeked)] else s.queues,
            Settled(x, requeue))
    case Return(x) => s.(worker := Idle)
  }

  /** The requeue flag Reconcile returns: set while work is left, otherwise
      whatever the offering asked for. */
  predicate ReturnsRequeue<U>(s: State<U>)
    requires s.worker.Settled?
  {
    |Queue(s, s.worker.x.name)| > 0 || s.worker.requeue
  }

  predicate Runs<U(==)>(zero: U, s: State<U>, es: seq<Event<U>>)
    decreases |es|
  {
    es == [] || (Allowed(s, es[0]) && Runs(zero, Apply(zero, s, es[0]), es[1..]))
  }

  function End<U(==)>(zero: U, s: State<U>, es: seq<Event<U>>): State<U>
    requires Runs(zero, s, es)
    decreases |es|
  {
    if es == [] then s else End(zero, Apply(zero, s, es[0]), es[1..])
  }

  // ------------------------------------------------------- what a run does

  /** The updates a step adds to the queue of that name. */
  function Added<U(==)>(zero: U, s: State<U>, e: Event<U>, name: string): seq<U>
    requires Allowed(s, e)
  {
    if e.x.name != name then []
    else
      match e
      case Push(_, u) => if u !in Queue(s, name) then [u] else []
      case Finish(_, Done(true)) => if s.worker.peeked !in Queue(s, name) then [s.worker.peeked] else []
      case _ => []
  }

  /** The updates a step takes off the queue of that name and hands to an
      offering. */
  function Taken<U(==)>(s: State<U>, e: Event<U>, name: string): seq<U> {
    if e.Pop? && e.x.name == name && Queue(s, name) != [] then [Queue(s, name)[0]] else []
  }

  function AllAdded<U(==)>(zero: U, s: State<U>, es: seq<Event<U>>, name: string): seq<U>
    requires Runs(zero, s, es)
    decreases |es|
  {
    if es == [] then [] else Added(zero, s, es[0], name) + AllAdded(zero, Apply(zero, s, es[0]), es[1..], name)
  }

  function AllTaken<U(==)>(zero: U, s: State<U>, es: seq<Event<U>>, name: string): seq<U>
    requires Runs(zero, s, es)
    decreases |es|
  {
    if es == [] then [] else Taken(s, es[0], name) + AllTaken(zero, Apply(zero, s, es[0]), es[1..], name)
  }

  function Pops<U(==)>(es: seq<Event<U>>, name: string): nat {
    if es == [] then 0 else (if es[0].Pop? && es[0].x.name == name then 1 else 0) + Pops(es[1..], name)
  }

  lemma StepIsFifo<U>(zero: U, s: State<U>, e: Event<U>, name: string)
    requires Allowed(s, e)
    ensures Queue(s, name) + Added(zero, s, e, name) == Taken(s, e, name) + Queue(Apply(zero, s, e), name)
  {
  }

  lemma Chain<T>(q: seq<T>, a: seq<T>, t: seq<T>, q': seq<T>, as': seq<T>, ts: seq<T>, r: seq<T>)
    requires q + a == t + q' && q' + as' == ts + r
    ensures q + (a + as') == (t + ts) + r
  {
    assert q + (a + as') == (q + a) + as';
    assert t + (q' + as') == (t + q') + as';
    assert t + (ts + r) == (t + ts) + r;
  }

  /** First in, first out, and nothing lost or invented: over any interleaving,
      what was queued followed by what was added is what was handed out followed
      by what is still queued. */
  lemma {:induction false} RunIsFifo<U>(zero: U, s: State<U>, es: seq<Event<U>>, name: string)
    requires Runs(zero, s, es)
    ensures Queue(s, name) + AllAdded(zero, s, es, name) == AllTaken(zero, s, es, name) + Queue(End(zero, s, es), name)
    decreases |es|
  {
    if es != [] {
      var s' := Apply(zero, s, es[0]);
      StepIsFifo(zero, s, es[0], name);
      RunIsFifo(zero, s', es[1..], name);
      Chain(Queue(s, name), Added(zero, s, es[0], name), Taken(s, es[0], name), Queue(s', name),
            AllAdded(zero, s', es[1..], name), AllTaken(zero, s', es[1..], name), Queue(End(zero, s, es), name));
    }
  }

  /** Every pop hands out a queued update as long as fewer pops happened than
      there were updates. */
  lemma {:induction false} EarlyPopsTake<U>(zero: U, s: State<U>, es: seq<Event<U>>, name: string)
    requires Runs(zero, s, es)
    ensures |AllTaken(zero, s, es, name)| <= Pops(es, name)
    ensures Pops(es, name) <= |Queue(s, name)| ==> |AllTaken(zero, s, es, name)| == Pops(es, name)
    ensures |Queue(s, name)| <= Pops(es, name) ==> |Queue(s, name)| <= |AllTaken(zero, s, es, name)|
    decreases |es|
  {
    if es != [] {
      var s' := Apply(zero, s, es[0]);
      StepIsFifo(zero, s, es[0], name);
      EarlyPopsTake(zero, s', es[1..], name);
    }
  }

  /** Fairness: the update at position `i` of a queue is what the (i+1)-th pop under
      that name hands to the offering, whatever is pushed or requeued meanwhile. */
  lemma HandedInOrder<U>(zero: U, s: State<U>, es: seq<Event<U>>, name: string, i: nat)
    requires Runs(zero, s, es) && i < |Queue(s, name)| && i < Pops(es, name)
    ensures i < |AllTaken(zero, s, es, name)| && AllTaken(zero, s, es, name)[i] == Queue(s, name)[i]
  {
    EarlyPopsTake(zero, s, es, name);
    RunIsFifo(zero, s, es, name);
    var q, a := Queue(s, name), AllAdded(zero, s, es, name);
    var t, r := AllTaken(zero, s, es, name), Queue(End(zero, s, es), name);
    assert (q + a)[i] == q[i] && (t + r)[i] == t[i];
  }

  // ---------------------------------------------- namesakes share their queue

  /** Steps for instances with other names leave a queue alone. */
  lemma {:induction false} OthersDoNotInterfere<U>(zero: U, s: State<U>, es: seq<Event<U>>, name: string)
    requires Runs(zero, s, es) && forall e | e in es :: e.x.name != name
    ensures Queue(End(zero, s, es), name) == Queue(s, name)
    decreases |es|
  {
    if es != [] {
      assert es[0] in es;
      OthersDoNotInterfere(zero, Apply(zero, s, es[0]), es[1..], name);
    }
  }

  ghost predicate LeavesQueueAlone<U(!new)>(zero: U, y: Instance, x: Instance) {
    forall s: State<U>, es: seq<Event<U>> | Runs(zero, s, es) && forall e | e in es :: e.x == y ::
      Queue(End(zero, s, es), x.name) == Queue(s, x.name)
  }

  /** Over all runs, what happens to `y` leaves the queue of `x` alone exactly when
      their names differ; that their namespaces differ is not enough. */
  lemma LeavesQueueAloneExactly<U(!new)>(zero: U, y: Instance, x: Instance)
    ensures LeavesQueueAlone(zero, y, x) <==> y.name != x.name
  {
    if y.name != x.name {
      forall s: State<U>, es: seq<Event<U>> | Runs(zero, s, es) && forall e | e in es :: e.x == y
        ensures Queue(End(zero, s, es), x.name) == Queue(s, x.name)
      {
        OthersDoNotInterfere(zero, s, es, x.name);
      }
    } else {
      var s: State<U> := State(map[], Idle);
      Prepend(zero, s, Push(y, zero), []);
      assert [Push(y, zero)] + [] == [Push(y, zero)];
      assert Queue(End(zero, s, [Push(y, zero)]), x.name) == [zero];
    }
  }

  ghost predicate PushedUnder<U>(log: seq<Event<U>>, name: string, u: U) {
    exists y: Instance :: y.name == name && Push(y, u) in log
  }

  /** Everything queued, peeked or handed out under a name is the zero update or
      was pushed under it. */
  ghost predicate Backed<U>(zero: U, s: State<U>, log: seq<Event<U>>) {
    && (forall name, u | name in s.queues && u in s.queues[name] :: u == zero || PushedUnder(log, name, u))
    && (s.worker.Peeked? || s.worker.Popped? ==>
          s.worker.peeked == zero || PushedUnder(log, s.worker.x.name, s.worker.peeked))
    && (s.worker.Popped? ==> s.worker.given == zero || PushedUnder(log, s.worker.x.name, s.worker.given))
  }

  lemma BackedStep<U>(zero: U, s: State<U>, log: seq<Event<U>>, e: Event<U>)
    requires Backed(zero, s, log) && Allowed(s, e)
    ensures Backed(zero, Apply(zero, s, e), log + [e])
  {
    assert forall name, u | PushedUnder(log, name, u) :: PushedUnder(log + [e], name, u) by {
      forall name, u | PushedUnder(log, name, u) ensures PushedUnder(log + [e], name, u) {
        var y: Instance :| y.name == name && Push(y, u) in log;
        assert Push(y, u) in log + [e];
      }
    }
    if e.Push? {
      assert Push(e.x, e.u) in log + [e];
      assert PushedUnder(log + [e], e.x.name, e.u);
    }
  }

  lemma {:induction false} BackedRun<U>(zero: U, s: State<U>, log: seq<Event<U>>, es: seq<Event<U>>)
    requires Backed(zero, s, log) && Runs(zero, s, es)
    ensures Backed(zero, End(zero, s, es), log + es)
    decreases |es|
  {
    if es == [] {
      assert log + es == log;
    } else {
      BackedStep(zero, s, log, es[0]);
      BackedRun(zero, Apply(zero, s, es[0]), log + [es[0]], es[1..]);
      assert log + [es[0]] + es[1..] == log + es;
    }
  }

  /** Whenever the offering is handed an update for `x` that is not the zero one,
      it was pushed for `x`. */
  ghost predicate AlwaysOwnUpdates<U(!new)>(zero: U, x: Instance, y: Instance) {
    forall es: seq<Event<U>> | Runs(zero, State(map[], Idle), es) && forall e | e in es :: e.x in {x, y} ::
      var worker := End(zero, State(map[], Idle), es).worker;
      worker.Popped? && worker.x == x && worker.given != zero ==> Push(x, worker.given) in es
  }

  /** An update is pushed for `y`, and `x` is reconciled first. */
  function NamesakeRun<U>(u: U, x: Instance, y: Instance): seq<Event<U>> {
    [Push(y, u), Peek(x), Pop(x)] + ([Finish(x, Done(false)), Return(x)] + [Peek(y), Pop(y)])
  }

  /** An update pushed for `y` is handed to the offering for its namesake `x`, and
      the reconcile of `y` comes away with nothing. */
  lemma NamesakeTakesUpdate<U>(zero: U, u: U, x: Instance, y: Instance)
    requires x != y && x.name == y.name
    ensures var s := State(map[], Idle);
            && Runs(zero, s, NamesakeRun(u, x, y)[..3])
            && End(zero, s, NamesakeRun(u, x, y)[..3]).worker == Popped(x, u, u)
            && Runs(zero, s, NamesakeRun(u, x, y))
            && End(zero, s, NamesakeRun(u, x, y)).worker == Popped(y, zero, zero)
  {
    var s: State<U> := State(map[], Idle);
    RunOfThree(zero, s, Push(y, u), Peek(x), Pop(x));
    var t := End(zero, s, [Push(y, u), Peek(x), Pop(x)]);
    assert NamesakeRun(u, x, y)[..3] == [Push(y, u), Peek(x), Pop(x)];
    RunOfTwo(zero, t, Finish(x, Done(false)), Return(x));
    var t' := End(zero, t, [Finish(x, Done(false)), Return(x)]);
    RunOfTwo(zero, t', Peek(y), Pop(y));
    Concatenate(zero, t, [Finish(x, Done(false)), Return(x)], [Peek(y), Pop(y)]);
    Concatenate(zero, s, [Push(y, u), Peek(x), Pop(x)], [Finish(x, Done(false)), Return(x)] + [Peek(y), Pop(y)]);
  }

  /** An instance gets only updates meant for it, in all runs of two instances,
      exactly when they do not share their name. */
  lemma OwnUpdatesExactly<U(!new)>(zero: U, u: U, x: Instance, y: Instance)
    requires u != zero && x != y
    ensures AlwaysOwnUpdates(zero, x, y) <==> x.name != y.name
  {
    var s: State<U> := State(map[], Idle);
    if x.name != y.name {
      forall es: seq<Event<U>> | Runs(zero, s, es) && forall e | e in es :: e.x in {x, y}
        ensures var worker := End(zero, s, es).worker;
                worker.Popped? && worker.x == x && worker.given != zero ==> Push(x, worker.given) in es
      {
        BackedRun(zero, s, [], es);
        assert [] + es == es;
        var worker := End(zero, s, es).worker;
        if worker.Popped? && worker.x == x && worker.given != zero {
          var owner: Instance :| owner.name == x.name && Push(owner, worker.given) in es;
          assert Push(owner, worker.given).x in {x, y};
        }
      }
    } else {
      var es := [Push(y, u), Peek(x), Pop(x)];
      RunOfThree(zero, s, Push(y, u), Peek(x), Pop(x));
      assert End(zero, s, es).worker == Popped(x, u, u);
      assert Push(x, u) !in es;
    }
  }

  // ------------------------------------------------------ no duplicates

  predicate Distinct<T(==)>(q: seq<T>) {
    forall i, j | 0 <= i < j < |q| :: q[i] != q[j]
  }

  predicate AllDistinct<U(==)>(s: State<U>) {
    forall name | name in s.queues :: Distinct(s.queues[name])
  }

  /** No run of pushes, pops and requeues puts two equal updates in one queue. */
  lemma {:induction false} RunKeepsDistinct<U>(zero: U, s: State<U>, es: seq<Event<U>>)
    requires AllDistinct(s) && Runs(zero, s, es)
    ensures AllDistinct(End(zero, s, es))
    decreases |es|
  {
    if es != [] {
      assert AllDistinct(Apply(zero, s, es[0]));
      RunKeepsDistinct(zero, Apply(zero, s, es[0]), es[1..]);
    }
  }

  // ------------------------------------------------- requeueing conserves work

  function Elements<U(==)>(q: seq<U>): set<U> {
    set u | u in q
  }

  function PushedTo<U(==)>(es: seq<Event<U>>, name: string): seq<U> {
    if es == [] then []
    else (if es[0].Push? && es[0].x.name == name then [es[0].u] else []) + PushedTo(es[1..], name)
  }

  function AppendAll<U(==)>(q: seq<U>, us: seq<U>): seq<U>
    decreases |us|
  {
    if us == [] then q else AppendAll(AppendIfMissing(q, us[0]), us[1..])
  }

  lemma AppendAllUnfolds<U>(q: seq<U>, es: seq<Event<U>>, name: string)
    requires es != []
    ensures AppendAll(q, PushedTo(es, name))
            == AppendAll(if es[0].Push? && es[0].x.name == name then AppendIfMissing(q, es[0].u) else q,
                         PushedTo(es[1..], name))
  {
    if es[0].Push? && es[0].x.name == name {
      assert PushedTo(es, name)[1..] == PushedTo(es[1..], name);
    } else {
      assert PushedTo(es, name) == PushedTo(es[1..], name);
    }
  }

  /** The step that ends the stay of the worker where it is. */
  predicate Leaves<U>(worker: Worker<U>, e: Event<U>) {
    match worker
    case Idle => e.Peek?
    case Peeked(_, _) => e.Pop?
    case Popped(_, _, _) => e.Finish?
    case Settled(_, _) => e.Return?
  }

  /** Until the worker takes its next step there are only pushes, and a queue only
      takes those under its name. */
  lemma {:induction false} OnlyPushes<U>(zero: U, s: State<U>, es: seq<Event<U>>, name: string)
    requires Runs(zero, s, es) && forall e | e in es :: !Leaves(s.worker, e)
    ensures forall e | e in es :: e.Push?
    ensures Queue(End(zero, s, es), name) == AppendAll(Queue(s, name), PushedTo(es, name))
    ensures End(zero, s, es).worker == s.worker
    decreases |es|
  {
    if es != [] {
      assert es[0] in es;
      assert es[0].Push?;
      OnlyPushes(zero, Apply(zero, s, es[0]), es[1..], name);
      AppendAllUnfolds(Queue(s, name), es, name);
    }
  }

  lemma {:induction false} AppendAllIsUnion<U>(q: seq<U>, us: seq<U>)
    ensures q <= AppendAll(q, us)
    ensures Elements(AppendAll(q, us)) == Elements(q) + Elements(us)
    ensures Distinct(q) ==> Distinct(AppendAll(q, us))
    decreases |us|
  {
    if us != [] {
      AppendAllIsUnion(AppendIfMissing(q, us[0]), us[1..]);
      assert Elements(us) == {us[0]} + Elements(us[1..]);
      assert Elements(AppendIfMissing(q, us[0])) == Elements(q) + {us[0]};
    }
  }

  /** One reconcile of `x`, with `es` and `fs` happening before and after its pop. */
  function Reconcile<U>(x: Instance, es: seq<Event<U>>, fs: seq<Event<U>>, outcome: Outcome): seq<Event<U>> {
    [Peek(x)] + es + [Pop(x)] + fs + [Finish(x, outcome)]
  }

  /** The queue a requeueing reconcile leaves, from the queue at its peek, the
      pushes before its pop and the pushes after it. */
  function Requeued<U(==)>(zero: U, q: seq<U>, before: seq<U>, after: seq<U>): seq<U> {
    AppendIfMissing(AppendAll(Rest(AppendAll(q, before)), after), Head(zero, q))
  }

  lemma {:induction false} Concatenate<U>(zero: U, s: State<U>, es: seq<Event<U>>, fs: seq<Event<U>>)
    ensures Runs(zero, s, es + fs) <==> Runs(zero, s, es) && Runs(zero, End(zero, s, es), fs)
    ensures Runs(zero, s, es + fs) ==> End(zero, s, es + fs) == End(zero, End(zero, s, es), fs)
    decreases |es|
  {
    if es == [] {
      assert es + fs == fs;
    } else {
      assert (es + fs)[0] == es[0] && (es + fs)[1..] == es[1..] + fs;
      if Allowed(s, es[0]) {
        Concatenate(zero, Apply(zero, s, es[0]), es[1..], fs);
      }
    }
  }

  /** The pop and the finish are the first ones: what lies in between is what else
      happens during the reconcile. */
  predicate Interleaved<U(==)>(es: seq<Event<U>>, fs: seq<Event<U>>) {
    (forall e | e in es :: !e.Pop?) && (forall e | e in fs :: !e.Finish?)
  }

  /** The state right after the pop, if the reconcile gets that far. */
  predicate ReachesPop<U(==)>(zero: U, s: State<U>, x: Instance, es: seq<Event<U>>) {
    && Allowed(s, Peek(x))
    && Runs(zero, Apply(zero, s, Peek(x)), es)
    && Allowed(End(zero, Apply(zero, s, Peek(x)), es), Pop(x))
  }

  function AfterPop<U(==)>(zero: U, s: State<U>, x: Instance, es: seq<Event<U>>): State<U>
    requires ReachesPop(zero, s, x, es)
  {
    Apply(zero, End(zero, Apply(zero, s, Peek(x)), es), Pop(x))
  }

  lemma PeekToPop<U>(zero: U, s: State<U>, x: Instance, es: seq<Event<U>>)
    ensures Runs(zero, s, [Peek(x)] + es + [Pop(x)]) <==> ReachesPop(zero, s, x, es)
    ensures ReachesPop(zero, s, x, es) ==> End(zero, s, [Peek(x)] + es + [Pop(x)]) == AfterPop(zero, s, x, es)
  {
    Concatenate(zero, s, [Peek(x)] + es, [Pop(x)]);
    Concatenate(zero, s, [Peek(x)], es);
  }

  /** The stages of one reconcile. */
  lemma ReconcileStages<U>(zero: U, s: State<U>, x: Instance, es: seq<Event<U>>, fs: seq<Event<U>>, outcome: Outcome)
    ensures Runs(zero, s, Reconcile(x, es, fs, outcome))
            <==> && ReachesPop(zero, s, x, es)
                 && Runs(zero, AfterPop(zero, s, x, es), fs)
                 && Allowed(End(zero, AfterPop(zero, s, x, es), fs), Finish(x, outcome))
    ensures Runs(zero, s, Reconcile(x, es, fs, outcome)) ==>
              End(zero, s, Reconcile(x, es, fs, outcome))
              == Apply(zero, End(zero, AfterPop(zero, s, x, es), fs), Finish(x, outcome))
  {
    var p := [Peek(x)] + es + [Pop(x)];
    Concatenate(zero, s, p + fs, [Finish(x, outcome)]);
    Concatenate(zero, s, p, fs);
    PeekToPop(zero, s, x, es);
  }

  /** What one reconcile does to its queue, and what it hands to the offering,
      in terms of the pushes that fell before and after its pop. */
  lemma ReconcileEffect<U>(zero: U, s: State<U>, x: Instance, es: seq<Event<U>>, fs: seq<Event<U>>, outcome: Outcome)
    requires Runs(zero, s, Reconcile(x, es, fs, outcome)) && Interleaved(es, fs)
    ensures var q, before, after := Queue(s, x.name), PushedTo(es, x.name), PushedTo(fs, x.name);
            var s' := End(zero, s, Reconcile(x, es, fs, outcome));
            && Queue(s', x.name) == (if outcome == Done(true) then Requeued(zero, q, before, after)
                                     else AppendAll(Rest(AppendAll(q, before)), after))
            && s'.worker == (if outcome.Done? then Settled(x, outcome.requeue) else Idle)
            && ReachesPop(zero, s, x, es)
            && AfterPop(zero, s, x, es).worker == Popped(x, Head(zero, q), Head(zero, AppendAll(q, before)))
  {
    ReconcileStages(zero, s, x, es, fs, outcome);
    OnlyPushes(zero, Apply(zero, s, Peek(x)), es, x.name);
    OnlyPushes(zero, AfterPop(zero, s, x, es), fs, x.name);
  }

  /** A reconcile asks to be called again exactly if the offering asked for it, or
      updates are left besides the one it took. */
  lemma AsksAgainExactly<U>(zero: U, s: State<U>, x: Instance, es: seq<Event<U>>, fs: seq<Event<U>>, requeue: bool)
    requires Runs(zero, s, Reconcile(x, es, fs, Done(requeue))) && Interleaved(es, fs)
    ensures End(zero, s, Reconcile(x, es, fs, Done(requeue))).worker == Settled(x, requeue)
    ensures ReturnsRequeue(End(zero, s, Reconcile(x, es, fs, Done(requeue))))
            <==> requeue || |AppendAll(Queue(s, x.name), PushedTo(es, x.name))| > 1 || PushedTo(fs, x.name) != []
  {
    ReconcileEffect(zero, s, x, es, fs, Done(requeue));
    var q := AppendAll(Queue(s, x.name), PushedTo(es, x.name));
    AppendAllIsUnion(Rest(q), PushedTo(fs, x.name));
    if PushedTo(fs, x.name) != [] {
      assert PushedTo(fs, x.name)[0] in Elements(PushedTo(fs, x.name));
    }
  }

  /** The update handed to the offering is the peeked one exactly unless the queue
      was empty at the peek and the first update pushed since is not the zero one,
      whatever else happens in between. */
  lemma PopMatchesPeek<U>(zero: U, s: State<U>, x: Instance, es: seq<Event<U>>)
    requires Runs(zero, s, [Peek(x)] + es + [Pop(x)]) && forall e | e in es :: !e.Pop?
    ensures var worker, before := End(zero, s, [Peek(x)] + es + [Pop(x)]).worker, PushedTo(es, x.name);
            && worker.Popped? && worker.peeked == Head(zero, Queue(s, x.name))
            && (worker.given == worker.peeked <==> Queue(s, x.name) != [] || before == [] || before[0] == zero)
  {
    PeekToPop(zero, s, x, es);
    OnlyPushes(zero, Apply(zero, s, Peek(x)), es, x.name);
    var q, before := Queue(s, x.name), PushedTo(es, x.name);
    AppendAllIsUnion(q, before);
    if q == [] && before != [] {
      AppendAllIsUnion(AppendIfMissing(q, before[0]), before[1..]);
    }
  }

  /** Requeueing leaves the queue, as a set, equal to its old contents plus the
      concurrent pushes: exactly when the queue was non-empty at the peek, or
      the zero update it pushes back and the update it popped were both pushed
      anyway. */
  lemma RequeueConserves<U>(zero: U, q: seq<U>, before: seq<U>, after: seq<U>)
    requires Distinct(q)
    ensures Elements(Requeued(zero, q, before, after)) == Elements(q) + Elements(before) + Elements(after)
            <==> || q != []
                 || (zero in before + after && (before == [] || before[0] == zero || before[0] in after))
  {
    var back := Elements(Requeued(zero, q, before, after));
    RequeuedElements(zero, q, before, after);
    var b, a := Elements(before), Elements(after);
    assert forall u | u in before + after :: u in b + a;
    assert forall u | u in b + a :: u in before + after;
    if q != [] {
      assert back == Elements(q) + b + a;
    } else if before == [] {
      assert Elements(q) == {} && b == {};
      assert zero in before + after <==> zero in a;
    } else {
      assert Elements(q) == {} && before[0] in b;
      assert zero in before + after <==> zero in b + a;
      assert back == b - {before[0]} + a + {zero};
    }
  }

  lemma RequeuedElements<U>(zero: U, q: seq<U>, before: seq<U>, after: seq<U>)
    requires Distinct(q)
    ensures Elements(Requeued(zero, q, before, after))
            == if q != [] then Elements(q) + Elements(before) + Elements(after)
               else if before == [] then Elements(after) + {zero}
               else Elements(before) - {before[0]} + Elements(after) + {zero}
  {
    var all := AppendAll(q, before);
    AppendAllIsUnion(q, before);
    AppendAllIsUnion(Rest(all), after);
    var back := Requeued(zero, q, before, after);
    AppendElements(AppendAll(Rest(all), after), Head(zero, q));
    if q != [] {
      assert all[0] == q[0];
      RestElements(all);
    } else if before != [] {
      AppendAllIsUnion(AppendIfMissing(q, before[0]), before[1..]);
      assert all[0] == before[0];
      RestElements(all);
    }
  }

  lemma AppendElements<U>(q: seq<U>, u: U)
    ensures Elements(AppendIfMissing(q, u)) == Elements(q) + {u}
  {
  }

  lemma RestElements<U>(q: seq<U>)
    requires Distinct(q) && q != []
    ensures Elements(Rest(q)) == Elements(q) - {q[0]}
  {
    forall u | u in Elements(q) - {q[0]} ensures u in Elements(Rest(q)) {
      var i :| 0 <= i < |q| && q[i] == u;
      assert q[1..][i - 1] == u;
    }
  }

  /** Did this reconcile, which requeues, leave old contents plus pushes? */
  predicate Conserves<U(==)>(zero: U, s: State<U>, x: Instance, es: seq<Event<U>>, fs: seq<Event<U>>)
    requires Runs(zero, s, Reconcile(x, es, fs, Done(true)))
  {
    Elements(Queue(End(zero, s, Reconcile(x, es, fs, Done(true))), x.name))
    == Elements(Queue(s, x.name)) + Elements(PushedTo(es, x.name)) + Elements(PushedTo(fs, x.name))
  }

  /** The same over runs of the machine: any no-error reconcile that requeues.  In
      particular one that peeked an update conserves work whatever happens during
      it, for namesakes too. */
  lemma RequeueConservesWork<U>(zero: U, s: State<U>, x: Instance, es: seq<Event<U>>, fs: seq<Event<U>>)
    requires AllDistinct(s) && Interleaved(es, fs)
    requires Runs(zero, s, Reconcile(x, es, fs, Done(true)))
    ensures var before, after := PushedTo(es, x.name), PushedTo(fs, x.name);
            Conserves(zero, s, x, es, fs)
            <==> || Queue(s, x.name) != []
                 || (zero in before + after && (before == [] || before[0] == zero || before[0] in after))
  {
    ReconcileEffect(zero, s, x, es, fs, Done(true));
    RequeueConserves(zero, Queue(s, x.name), PushedTo(es, x.name), PushedTo(fs, x.name));
  }

  /** The race on an empty queue: an update pushed between peek and pop is handed
      to the offering, which asks for it again; the zero update is queued instead. */
  lemma RaceLosesUpdate<U>(zero: U, u: U, x: Instance)
    requires u != zero
    ensures var s := State(map[], Idle);
            var es := Reconcile(x, [Push(x, u)], [], Done(true));
            && Runs(zero, s, es)
            && Queue(End(zero, s, es), x.name) == [zero]
            && !Conserves(zero, s, x, [Push(x, u)], [])
            && Runs(zero, s, es[..3]) && End(zero, s, es[..3]).worker == Popped(x, zero, u)
  {
    var s: State<U> := State(map[], Idle);
    var es := Reconcile(x, [Push(x, u)], [], Done(true));
    RunOfThree(zero, s, Peek(x), Push(x, u), Pop(x));
    var t := End(zero, s, [Peek(x), Push(x, u), Pop(x)]);
    Prepend(zero, t, Finish(x, Done(true)), []);
    Concatenate(zero, s, [Peek(x), Push(x, u), Pop(x)], [Finish(x, Done(true))]);
    assert es == [Peek(x), Push(x, u), Pop(x)] + [Finish(x, Done(true))];
    assert es[..3] == [Peek(x), Push(x, u), Pop(x)];
    assert PushedTo([Push(x, u)], x.name) == [u];
    assert u in Elements([u]) && u !in Elements([zero]);
  }

  // ---------------------------------------------------------------- draining

  /** An undisturbed reconcile whose offering succeeds and asks for nothing. */
  function Quiet<U>(x: Instance): seq<Event<U>> {
    [Peek(x), Pop(x), Finish(x, Done(false))]
  }

  function QuietTimes<U>(x: Instance, n: nat): seq<Event<U>> {
    if n == 0 then [] else QuietTimes(x, n - 1) + (Quiet(x) + [Return(x)])
  }

  lemma Prepend<U>(zero: U, s: State<U>, e: Event<U>, es: seq<Event<U>>)
    requires Allowed(s, e) && Runs(zero, Apply(zero, s, e), es)
    ensures Runs(zero, s, [e] + es) && End(zero, s, [e] + es) == End(zero, Apply(zero, s, e), es)
  {
    assert ([e] + es)[1..] == es;
  }

  lemma RunOfTwo<U>(zero: U, s: State<U>, a: Event<U>, b: Event<U>)
    requires Allowed(s, a) && Allowed(Apply(zero, s, a), b)
    ensures Runs(zero, s, [a, b]) && End(zero, s, [a, b]) == Apply(zero, Apply(zero, s, a), b)
  {
    Prepend(zero, Apply(zero, s, a), b, []);
    Prepend(zero, s, a, [b]);
    assert [a, b] == [a] + [b];
  }

  lemma RunOfThree<U>(zero: U, s: State<U>, a: Event<U>, b: Event<U>, c: Event<U>)
    requires Allowed(s, a)
    requires Allowed(Apply(zero, s, a), b)
    requires Allowed(Apply(zero, Apply(zero, s, a), b), c)
    ensures Runs(zero, s, [a, b, c])
    ensures End(zero, s, [a, b, c]) == Apply(zero, Apply(zero, Apply(zero, s, a), b), c)
  {
    var s1 := Apply(zero, s, a);
    Prepend(zero, Apply(zero, s1, b), c, []);
    Prepend(zero, s1, b, [c]);
    Prepend(zero, s, a, [b, c]);
    assert [a, b, c] == [a] + [b, c];
  }

  lemma QuietStep<U>(zero: U, s: State<U>, x: Instance)
    requires s.worker.Idle?
    ensures Runs(zero, s, Quiet(x))
    ensures var s' := End(zero, s, Quiet(x));
            && Queue(s', x.name) == Rest(Queue(s, x.name)) && s'.worker == Settled(x, false)
            && (ReturnsRequeue(s') <==> |Queue(s, x.name)| > 1)
  {
    RunOfThree(zero, s, Peek(x), Pop(x), Finish(x, Done(false)));
  }

  lemma QuietCycle<U>(zero: U, s: State<U>, x: Instance)
    requires s.worker.Idle?
    ensures Runs(zero, s, Quiet(x) + [Return(x)])
    ensures var s' := End(zero, s, Quiet(x) + [Return(x)]);
            Queue(s', x.name) == Rest(Queue(s, x.name)) && s'.worker.Idle?
  {
    QuietStep(zero, s, x);
    var t := End(zero, s, Quiet(x));
    Prepend(zero, t, Return(x), []);
    Concatenate(zero, s, Quiet(x), [Return(x)]);
  }

  /** With no pushes, errors or offering requeues, the n-th reconcile leaves the
      queue without its first `n` updates and asks to be called again exactly if
      updates are left: a queue drains in as many reconciles as it is long. */
  lemma {:induction false} Drains<U>(zero: U, s: State<U>, x: Instance, n: nat)
    requires s.worker.Idle? && n <= |Queue(s, x.name)|
    ensures Runs(zero, s, QuietTimes(x, n))
    ensures var s' := End(zero, s, QuietTimes(x, n));
            && Queue(s', x.name) == Queue(s, x.name)[n..]
            && s'.worker.Idle?
            && Runs(zero, s', Quiet(x))
            && var s'' := End(zero, s', Quiet(x));
               s''.worker == Settled(x, false) && (ReturnsRequeue(s'') <==> n + 1 < |Queue(s, x.name)|)
  {
    if n > 0 {
      Drains(zero, s, x, n - 1);
      QuietCycle(zero, End(zero, s, QuietTimes(x, n - 1)), x);
      Concatenate(zero, s, QuietTimes(x, n - 1), Quiet(x) + [Return(x)]);
    }
    QuietStep(zero, End(zero, s, QuietTimes(x, n)), x);
  }
}
