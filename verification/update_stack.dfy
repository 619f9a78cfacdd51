/** The update stack in the form it has in the controllers: a map of slices
    rewritten by short critical sections.  Every method performs steps of the
    machine in UpdateQueue. */
module UpdateStack {
  import opened Common
  import opened UpdateQueue

  lemma {:induction false} PushesRun<U>(zero: U, s: State<U>, es: seq<Event<U>>)
    requires forall e | e in es :: e.Push?
    ensures Runs(zero, s, es) && End(zero, s, es).worker == s.worker
    decreases |es|
  {
    if es != [] {
      assert es[0] in es;
      PushesRun(zero, Apply(zero, s, es[0]), es[1..]);
    }
  }

  class Controller<U(==)> {
    const zero: U
    var update: map<string, seq<U>>

    constructor (zero: U)
      ensures this.zero == zero && update == map[]
    {
      this.zero := zero;
      update := map[];
    }

    ghost function QueueOf(name: string): seq<U>
      reads this
    {
      Queue(State(update, Idle), name)
    }

    method GetUpdateStatus(name: string) returns (u: U)
      ensures u == Head(zero, QueueOf(name))
    {
      u := zero;
      if name !in update {
        return;
      }
      if |update[name]| >= 1 {
        u := update[name][0];
      }
    }

    method AppendUpdateIfMissing(updates: seq<U>, u: U) returns (r: seq<U>)
      ensures r == AppendIfMissing(updates, u)
    {
      for i := 0 to |updates|
        invariant u !in updates[..i]
      {
        if updates[i] == u {
          return updates;
        }
      }
      assert updates[..|updates|] == updates;
      return updates + [u];
    }

    method PushUpdate(name: string, u: U)
      modifies this`update
      ensures update == old(update)[name := AppendIfMissing(old(QueueOf(name)), u)]
    {
      var updates := if name in update then update[name] else [];
      updates := AppendUpdateIfMissing(updates, u);
      update := update[name := updates];
    }

    method PopUpdate(name: string) returns (u: U)
      modifies this`update
      ensures u == Head(zero, old(QueueOf(name)))
      ensures update == if old(QueueOf(name)) == [] then old(update) else old(update)[name := Rest(old(QueueOf(name)))]
    {
      u := zero;
      if name in update && |update[name]| >= 1 {
        u := update[name][0];
        if |update[name]| == 1 {
          update := update[name := []];
        } else {
          update := update[name := update[name][1..]];
        }
      }
    }

    /** Other actors pushing while a worker is between two of its steps. */
    method Others(pushes: seq<Event<U>>, ghost worker: Worker<U>)
      requires forall e | e in pushes :: e.Push?
      modifies this`update
      ensures Runs(zero, State(old(update), worker), pushes)
      ensures State(update, worker) == End(zero, State(old(update), worker), pushes)
    {
      ghost var start := State(update, worker);
      assert pushes[..0] == [];
      for i := 0 to |pushes|
        invariant Runs(zero, start, pushes[..i])
        invariant State(update, worker) == End(zero, start, pushes[..i])
      {
        ghost var mid := State(update, worker);
        PushUpdate(pushes[i].x.name, pushes[i].u);
        assert End(zero, mid, [pushes[i]]) == Apply(zero, mid, pushes[i]) == State(update, worker);
        Concatenate(zero, start, pushes[..i], [pushes[i]]);
        assert pushes[..i + 1] == pushes[..i] + [pushes[i]];
      }
      assert pushes[..|pushes|] == pushes;
    }

    /** The queue protocol of Reconcile.  `es` and `fs` are what other actors push
        before and after the pop, `outcome` what the offering comes back with;
        `again` is the requeue flag returned, false when an error is. */
    method ReconcileInstance(x: Instance, es: seq<Event<U>>, fs: seq<Event<U>>, outcome: Outcome)
      returns (given: U, failed: bool, again: bool)
      requires forall e | e in es :: e.Push?
      requires forall e | e in fs :: e.Push?
      modifies this`update
      ensures Runs(zero, State(old(update), Idle), Reconcile(x, es, fs, outcome))
      ensures var s' := End(zero, State(old(update), Idle), Reconcile(x, es, fs, outcome));
              && update == s'.queues
              && failed == outcome.Failed?
              && (!failed ==> s'.worker.Settled? && again == ReturnsRequeue(s'))
      ensures given == Head(zero, AppendAll(old(QueueOf(x.name)), PushedTo(es, x.name)))
    {
      ghost var s := State(update, Idle);
      ghost var s1 := Apply(zero, s, Peek(x));
      PushesRun(zero, s1, es);
      OnlyPushes(zero, s1, es, x.name);
      ghost var s3 := AfterPop(zero, s, x, es);
      PushesRun(zero, s3, fs);
      ReconcileStages(zero, s, x, es, fs, outcome);

      again := false;
      var peeked := GetUpdateStatus(x.name);
      Others(es, s1.worker);
      given := PopUpdate(x.name);
      assert State(update, s3.worker) == s3;
      Others(fs, s3.worker);
      failed := outcome.Failed?;
      if !failed {
        if outcome.requeue {
          PushUpdate(x.name, peeked);
        }
        again := outcome.requeue;
        if x.name in update && |update[x.name]| > 0 {
          again := true;
        }
      }
    }
  }
}
