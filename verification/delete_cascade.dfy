/** The delete handler of the orderer controller: deleting a parent deletes its
    child nodes, deleting the last child node deletes the parent.  Every delete
    raises an event that is handled later, so the deletes cascade.  Events that
    are pending when the operator crashes are lost.

    The handler never leaves the namespace of its event; the state below is one
    namespace. */
module DeleteCascade {
  import opened Common

  /** An orderer resource: a child node has a node number, and names its parent
      in a label. */
  datatype Orderer = Orderer(isNode: bool, parent: Option<string>)

  /** A delete event carries the resource as it was. */
  datatype Deleted = Deleted(name: string, orderer: Orderer)

  datatype State = State(objects: map<string, Orderer>, events: multiset<Deleted>)

  function Nodes(objects: map<string, Orderer>, parent: string): set<string> {
    set k | k in objects && objects[k].parent == Some(parent)
  }

  function Delete(s: State, name: string): State {
    if name in s.objects
    then State(s.objects - {name}, s.events + multiset{Deleted(name, s.objects[name])})
    else s
  }

  function DeleteAll(s: State, names: set<string>): State
    requires names <= s.objects.Keys
  {
    State(s.objects - names, s.events + multiset(set k | k in names :: Deleted(k, s.objects[k])))
  }

  function Handle(s: State, e: Deleted): State
    requires e in s.events
  {
    var s' := s.(events := s.events - multiset{e});
    if e.orderer.isNode then
      var parent := if e.orderer.parent.Some? then e.orderer.parent.value else "";
      if Nodes(s'.objects, parent) == {} then Delete(s', parent) else s'
    else
      DeleteAll(s', Nodes(s'.objects, e.name))
  }

  function Lose(s: State, e: Deleted): State
    requires e in s.events
  {
    s.(events := s.events - multiset{e})
  }

  datatype Step = UserDeletes(name: string) | Handles(event: Deleted) | Loses(event: Deleted)

  predicate Allowed(s: State, step: Step) {
    match step
    case UserDeletes(name) => name in s.objects
    case Handles(event) => event in s.events
    case Loses(event) => event in s.events
  }

  function Apply(s: State, step: Step): State
    requires Allowed(s, step)
  {
    match step
    case UserDeletes(name) => Delete(s, name)
    case Handles(event) => Handle(s, event)
    case Loses(event) => Lose(s, event)
  }

  predicate Runs(s: State, steps: seq<Step>)
    decreases |steps|
  {
    steps == [] || (Allowed(s, steps[0]) && Runs(Apply(s, steps[0]), steps[1..]))
  }

  function End(s: State, steps: seq<Step>): State
    requires Runs(s, steps)
    decreases |steps|
  {
    if steps == [] then s else End(Apply(s, steps[0]), steps[1..])
  }

  /** What a handler takes along, labels of any shape included: with a parent, all
      that names it; with a node, the parent it names, once nothing else names it. */
  lemma HandleTakesExactly(s: State, e: Deleted, k: string)
    requires e in s.events && k in s.objects && (e.orderer.isNode && e.orderer.parent.None? ==> "" !in s.objects)
    ensures k !in Handle(s, e).objects
            <==> if e.orderer.isNode then
                   e.orderer.parent == Some(k) && forall n | n in s.objects :: s.objects[n].parent != Some(k)
                 else s.objects[k].parent == Some(e.name)
    ensures k in Handle(s, e).objects ==> Handle(s, e).objects[k] == s.objects[k]
    ensures k !in Handle(s, e).objects ==> Deleted(k, s.objects[k]) in Handle(s, e).events
  {
    if e.orderer.isNode && e.orderer.parent.Some? {
      var p := e.orderer.parent.value;
      forall n | n in s.objects ensures n in Nodes(s.objects, p) <==> s.objects[n].parent == Some(p) {
      }
    }
  }

  // -------------------------------------------------------------- termination

  function Measure(s: State): nat {
    2 * |s.objects| + |s.events|
  }

  lemma DeleteShrinks(s: State, name: string)
    requires name in s.objects
    ensures Measure(Delete(s, name)) == Measure(s) - 1
  {
    assert (s.objects - {name}).Keys == s.objects.Keys - {name};
  }

  lemma {:induction false} ImageSize(objects: map<string, Orderer>, names: set<string>)
    requires names <= objects.Keys
    ensures |set k | k in names :: Deleted(k, objects[k])| == |names|
    decreases names
  {
    if names != {} {
      var n :| n in names;
      ImageSize(objects, names - {n});
      var rest := set k | k in names - {n} :: Deleted(k, objects[k]);
      assert (set k | k in names :: Deleted(k, objects[k])) == rest + {Deleted(n, objects[n])};
      assert Deleted(n, objects[n]) !in rest;
    }
  }

  lemma DeleteAllShrinks(s: State, names: set<string>)
    requires names <= s.objects.Keys
    ensures Measure(DeleteAll(s, names)) == Measure(s) - |names|
  {
    ImageSize(s.objects, names);
    assert (s.objects - names).Keys == s.objects.Keys - names;
    assert |s.objects.Keys - names| == |s.objects.Keys| - |names|;
  }

  lemma StepShrinks(s: State, step: Step)
    requires Allowed(s, step)
    ensures Measure(Apply(s, step)) < Measure(s)
  {
    match step
    case UserDeletes(name) => DeleteShrinks(s, name);
    case Loses(_) =>
    case Handles(e) =>
      var s' := s.(events := s.events - multiset{e});
      if e.orderer.isNode {
        var parent := if e.orderer.parent.Some? then e.orderer.parent.value else "";
        if parent in s'.objects {
          DeleteShrinks(s', parent);
        }
      } else {
        DeleteAllShrinks(s', Nodes(s'.objects, e.name));
      }
  }

  /** The cascade terminates: no run, however user deletes, handlers and losses are
      interleaved, has more steps than twice the objects plus the pending
      events it starts with. */
  lemma {:induction false} CascadeTerminates(s: State, steps: seq<Step>)
    requires Runs(s, steps)
    ensures |steps| + Measure(End(s, steps)) <= Measure(s)
    decreases |steps|
  {
    if steps != [] {
      StepShrinks(s, steps[0]);
      CascadeTerminates(Apply(s, steps[0]), steps[1..]);
    }
  }

  // ------------------------------------------------------ what is left standing

  /** Nodes carry a parent label, parents do not, and a label never names a node. */
  predicate WellLabelled(objects: map<string, Orderer>) {
    forall k | k in objects ::
      && (objects[k].isNode <==> objects[k].parent.Some?)
      && (objects[k].isNode && objects[k].parent.value in objects ==> !objects[objects[k].parent.value].isNode)
  }

  /** What should be left once the user has deleted `gone`: a node unless it or
      its parent was deleted, a parent unless it or all its nodes were. */
  predicate Survives(init: map<string, Orderer>, gone: set<string>, k: string)
    requires k in init && WellLabelled(init)
  {
    && k !in gone
    && if init[k].isNode then init[k].parent.value !in gone
       else Nodes(init, k) == {} || exists n :: n in Nodes(init, k) && n !in gone
  }

  function Survivors(init: map<string, Orderer>, gone: set<string>): map<string, Orderer>
    requires WellLabelled(init)
  {
    map k | k in init && Survives(init, gone, k) :: init[k]
  }

  function UserDeleted(steps: seq<Step>): set<string> {
    if steps == [] then {}
    else (if steps[0].UserDeletes? then {steps[0].name} else {}) + UserDeleted(steps[1..])
  }

  predicate NodeEvent(e: Deleted, parent: string) {
    e.orderer.isNode && e.orderer.parent == Some(parent)
  }

  /** Some node of this parent was deleted and its event is still pending. */
  predicate Announced(s: State, parent: string) {
    exists e :: e in s.events && NodeEvent(e, parent)
  }

  predicate Remnant(init: map<string, Orderer>, gone: set<string>, s: State) {
    forall k | k in s.objects :: k in init && s.objects[k] == init[k] && k !in gone
  }

  predicate KeepsSurvivors(init: map<string, Orderer>, gone: set<string>, s: State)
    requires WellLabelled(init)
  {
    forall k | k in init && Survives(init, gone, k) :: k in s.objects
  }

  predicate EventsOfDeleted(init: map<string, Orderer>, s: State) {
    forall e | e in s.events :: e.name in init && init[e.name] == e.orderer && e.name !in s.objects
  }

  /** Between the first delete and the last event, survivors are never touched,
      even if events are lost. */
  predicate OnTheWay(init: map<string, Orderer>, gone: set<string>, s: State)
    requires WellLabelled(init)
  {
    && gone <= init.Keys
    && Remnant(init, gone, s)
    && KeepsSurvivors(init, gone, s)
    && EventsOfDeleted(init, s)
  }

  lemma UserDeleteStaysOnTheWay(init: map<string, Orderer>, gone: set<string>, s: State, name: string)
    requires WellLabelled(init) && OnTheWay(init, gone, s) && name in s.objects
    ensures OnTheWay(init, gone + {name}, Delete(s, name))
  {
    var s' := Delete(s, name);
    forall k | k in init && Survives(init, gone + {name}, k) ensures k in s'.objects {
      assert Survives(init, gone, k);
    }
  }

  /** Once a parent's nodes are all deleted, the parent is no survivor. */
  lemma EmptiedParentFalls(init: map<string, Orderer>, gone: set<string>, s: State, p: string)
    requires WellLabelled(init) && OnTheWay(init, gone, s)
    requires p in init && Nodes(init, p) != {} && Nodes(s.objects, p) == {}
    ensures !Survives(init, gone, p)
  {
    assert !init[p].isNode;
    forall n | n in Nodes(init, p) ensures n in gone || p in gone {
      assert n !in s.objects || n in Nodes(s.objects, p);
      assert !Survives(init, gone, n);
    }
  }

  /** The nodes of a deleted parent are no survivors. */
  lemma NodesFallWithParent(init: map<string, Orderer>, gone: set<string>, s: State, p: string, n: string)
    requires WellLabelled(init) && OnTheWay(init, gone, s)
    requires p in init && p !in s.objects && n in Nodes(s.objects, p)
    ensures !Survives(init, gone, n)
  {
    assert !Survives(init, gone, p);
    assert n in Nodes(init, p);
    assert !init[p].isNode;
  }

  lemma HandleStaysOnTheWay(init: map<string, Orderer>, gone: set<string>, s: State, e: Deleted)
    requires WellLabelled(init) && OnTheWay(init, gone, s) && e in s.events
    ensures OnTheWay(init, gone, Handle(s, e))
  {
    if e.orderer.isNode {
      var parent := e.orderer.parent.value;
      assert e.name in Nodes(init, parent);
      if Nodes(s.objects, parent) == {} && parent in s.objects {
        EmptiedParentFalls(init, gone, s, parent);
      }
    } else {
      forall n | n in Nodes(s.objects, e.name) ensures !Survives(init, gone, n) {
        NodesFallWithParent(init, gone, s, e.name, n);
      }
      assert EventsOfDeleted(init, Handle(s, e));
    }
  }

  function GoneAfter(gone: set<string>, step: Step): set<string> {
    if step.UserDeletes? then gone + {step.name} else gone
  }

  lemma StepStaysOnTheWay(init: map<string, Orderer>, gone: set<string>, s: State, step: Step)
    requires WellLabelled(init) && OnTheWay(init, gone, s) && Allowed(s, step)
    ensures OnTheWay(init, GoneAfter(gone, step), Apply(s, step))
  {
    match step
    case UserDeletes(name) => UserDeleteStaysOnTheWay(init, gone, s, name);
    case Handles(e) => HandleStaysOnTheWay(init, gone, s, e);
    case Loses(_) =>
  }

  lemma {:induction false} RunStaysOnTheWay(init: map<string, Orderer>, gone: set<string>, s: State, steps: seq<Step>)
    requires WellLabelled(init) && OnTheWay(init, gone, s) && Runs(s, steps)
    ensures OnTheWay(init, gone + UserDeleted(steps), End(s, steps))
    decreases |steps|
  {
    if steps == [] {
      assert gone + UserDeleted(steps) == gone;
    } else {
      StepStaysOnTheWay(init, gone, s, steps[0]);
      RunStaysOnTheWay(init, GoneAfter(gone, steps[0]), Apply(s, steps[0]), steps[1..]);
      assert GoneAfter(gone, steps[0]) + UserDeleted(steps[1..]) == gone + UserDeleted(steps);
    }
  }

  // ------------------------------------------------------ what is left behind

  /** An object that has to go, while no pending event says so: a node whose parent
      is deleted, or a parent whose nodes are. */
  predicate IsStranded(init: map<string, Orderer>, s: State, k: string)
    requires k in s.objects
  {
    var o := s.objects[k];
    if o.isNode then
      o.parent.Some? && var p := o.parent.value; p in init && p !in s.objects && Deleted(p, init[p]) !in s.events
    else
      Nodes(init, k) != {} && Nodes(s.objects, k) == {} && !Announced(s, k)
  }

  function Stranded(init: map<string, Orderer>, s: State): set<string> {
    set k | k in s.objects && IsStranded(init, s, k)
  }

  /** What losing an event leaves behind: the nodes of its parent, or the parent of
      its node if no node is left and no other event of one is pending. */
  function LeftBehind(s: State, e: Deleted): set<string>
    requires e in s.events
  {
    var s' := Lose(s, e);
    if !e.orderer.isNode then
      if e in s'.events then {} else Nodes(s.objects, e.name)
    else if e.orderer.parent.Some? then
      var p := e.orderer.parent.value;
      if p in s.objects && Nodes(s.objects, p) == {} && !Announced(s', p) then {p} else {}
    else {}
  }

  lemma DeleteStrandsNothing(init: map<string, Orderer>, gone: set<string>, s: State, name: string)
    requires WellLabelled(init) && OnTheWay(init, gone, s) && name in s.objects
    ensures Stranded(init, Delete(s, name)) == Stranded(init, s) - {name}
  {
    var s' := Delete(s, name);
    var d := Deleted(name, s.objects[name]);
    assert d in s'.events;
    forall k | k in s'.objects ensures IsStranded(init, s', k) <==> IsStranded(init, s, k) {
      if !s.objects[k].isNode {
        AnnouncedAfterDelete(s, name, k);
        if s.objects[name].parent == Some(k) {
          assert name in Nodes(s.objects, k);
        } else {
          assert Nodes(s'.objects, k) == Nodes(s.objects, k);
        }
      }
    }
  }

  lemma AnnouncedAfterDelete(s: State, name: string, p: string)
    requires name in s.objects
    ensures Announced(Delete(s, name), p)
            <==> Announced(s, p) || (s.objects[name].isNode && s.objects[name].parent == Some(p))
  {
    var s' := Delete(s, name);
    var d := Deleted(name, s.objects[name]);
    if e :| e in s.events && NodeEvent(e, p) {
      assert e in s'.events;
    }
    assert d in s'.events;
    assert NodeEvent(d, p) <==> s.objects[name].isNode && s.objects[name].parent == Some(p);
  }

  lemma AnnouncedAfterLoss(s: State, e: Deleted, p: string)
    requires e in s.events && !NodeEvent(e, p)
    ensures Announced(Lose(s, e), p) <==> Announced(s, p)
  {
    if d :| d in s.events && NodeEvent(d, p) {
      assert d in Lose(s, e).events;
    }
  }

  lemma LossStrands(init: map<string, Orderer>, gone: set<string>, s: State, e: Deleted)
    requires WellLabelled(init) && OnTheWay(init, gone, s) && e in s.events
    ensures Stranded(init, Lose(s, e)) == Stranded(init, s) + LeftBehind(s, e)
  {
    var s' := Lose(s, e);
    assert forall d | d in s'.events :: d in s.events;
    forall k | k in s.objects ensures IsStranded(init, s', k) <==> IsStranded(init, s, k) || k in LeftBehind(s, e) {
      if s.objects[k].isNode {
        assert k in Nodes(s.objects, s.objects[k].parent.value);
        assert forall d | d in s.events && d != e :: d in s'.events;
      } else if NodeEvent(e, k) {
        assert e.name in Nodes(init, k);
        assert Announced(s, k);
      } else {
        AnnouncedAfterLoss(s, e, k);
      }
    }
  }

  lemma NodeEventStrandsNothing(init: map<string, Orderer>, gone: set<string>, s: State, e: Deleted)
    requires WellLabelled(init) && OnTheWay(init, gone, s) && e in s.events && e.orderer.isNode
    ensures Stranded(init, Handle(s, e)) == Stranded(init, s)
  {
    var parent := e.orderer.parent.value;
    LossStrands(init, gone, s, e);
    assert Announced(s, parent);
    if Nodes(s.objects, parent) == {} && parent in s.objects {
      HandleStaysOnTheWay(init, gone, s, e);
      DeleteStrandsNothing(init, gone, Lose(s, e), parent);
    }
  }

  lemma ParentEventStrandsNothing(init: map<string, Orderer>, gone: set<string>, s: State, e: Deleted)
    requires WellLabelled(init) && OnTheWay(init, gone, s) && e in s.events && !e.orderer.isNode
    ensures Stranded(init, Handle(s, e)) == Stranded(init, s)
  {
    var nodes := Nodes(s.objects, e.name);
    var s' := Handle(s, e);
    forall k | k in s.objects ensures k in Stranded(init, s') <==> k in Stranded(init, s) {
      if k in nodes {
        assert !IsStranded(init, s, k);
      } else if s.objects[k].isNode {
        var p := s.objects[k].parent.value;
        assert p in init ==> !init[p].isNode;
      } else {
        assert Nodes(s'.objects, k) == Nodes(s.objects, k);
        AnnouncedAfterParentEvent(s, e, k);
      }
    }
  }

  lemma AnnouncedAfterParentEvent(s: State, e: Deleted, p: string)
    requires e in s.events && !e.orderer.isNode && p != e.name
    ensures Announced(Handle(s, e), p) <==> Announced(s, p)
  {
    var s' := Handle(s, e);
    if d :| d in s.events && NodeEvent(d, p) {
      assert d in s'.events;
    }
    if d :| d in s'.events && NodeEvent(d, p) {
      assert d in s.events;
    }
  }

  /** Whatever lost events leave behind is deleted by the user later on. */
  predicate CleanedUp(s: State, steps: seq<Step>)
    requires Runs(s, steps)
    decreases |steps|
  {
    steps == []
    || (&& (steps[0].Loses? ==> LeftBehind(s, steps[0].event) <= UserDeleted(steps[1..]))
        && CleanedUp(Apply(s, steps[0]), steps[1..]))
  }

  lemma {:induction false} NothingLost(s: State, steps: seq<Step>)
    requires Runs(s, steps) && forall step | step in steps :: !step.Loses?
    ensures CleanedUp(s, steps)
    decreases |steps|
  {
    if steps != [] {
      assert steps[0] in steps;
      NothingLost(Apply(s, steps[0]), steps[1..]);
    }
  }

  lemma {:induction false} StrandedAtEnd(init: map<string, Orderer>, gone: set<string>, s: State, steps: seq<Step>)
    requires WellLabelled(init) && OnTheWay(init, gone, s) && Runs(s, steps)
    ensures Stranded(init, End(s, steps)) == {} <==> Stranded(init, s) <= UserDeleted(steps) && CleanedUp(s, steps)
    decreases |steps|
  {
    if steps != [] {
      match steps[0] {
        case UserDeletes(name) => DeleteStrandsNothing(init, gone, s, name);
        case Loses(e) => LossStrands(init, gone, s, e);
        case Handles(e) =>
          if e.orderer.isNode {
            NodeEventStrandsNothing(init, gone, s, e);
          } else {
            ParentEventStrandsNothing(init, gone, s, e);
          }
      }
      StepStaysOnTheWay(init, gone, s, steps[0]);
      StrandedAtEnd(init, GoneAfter(gone, steps[0]), Apply(s, steps[0]), steps[1..]);
    }
  }

  lemma QuiescentIsSurvivors(init: map<string, Orderer>, gone: set<string>, s: State)
    requires WellLabelled(init) && OnTheWay(init, gone, s) && s.events == multiset{}
    ensures s.objects == Survivors(init, gone) <==> Stranded(init, s) == {}
  {
    forall k | k in s.objects ensures Survives(init, gone, k) || k in Stranded(init, s) {
      if init[k].isNode {
        var p := init[k].parent.value;
        assert p in gone ==> p in init && p !in s.objects;
      } else if Nodes(init, k) != {} && Nodes(s.objects, k) != {} {
        var n :| n in Nodes(s.objects, k);
        assert n in Nodes(init, k) && n !in gone;
      }
    }
    forall k | k in s.objects && k in Stranded(init, s) ensures !Survives(init, gone, k) {
      if s.objects[k].isNode {
        NodesFallWithParent(init, gone, s, s.objects[k].parent.value, k);
      } else {
        EmptiedParentFalls(init, gone, s, k);
      }
    }
    assert s.objects.Keys == Survivors(init, gone).Keys <==> Stranded(init, s) == {};
  }

  lemma StartOnTheWay(s: State)
    requires WellLabelled(s.objects) && s.events == multiset{}
    ensures OnTheWay(s.objects, {}, s) && Stranded(s.objects, s) == {}
  {
  }

  /** Once no event is pending, in whatever order deletes, handlers and losses
      happened, exactly the survivors of the user's deletes are left if and only
      if the user deletes what lost events leave behind: always, if none is lost. */
  lemma CascadeLeavesSurvivors(s: State, steps: seq<Step>)
    requires WellLabelled(s.objects) && s.events == multiset{}
    requires Runs(s, steps) && End(s, steps).events == multiset{}
    ensures End(s, steps).objects == Survivors(s.objects, UserDeleted(steps)) <==> CleanedUp(s, steps)
    ensures (forall step | step in steps :: !step.Loses?) ==> CleanedUp(s, steps)
  {
    StartOnTheWay(s);
    assert {} + UserDeleted(steps) == UserDeleted(steps);
    RunStaysOnTheWay(s.objects, {}, s, steps);
    QuiescentIsSurvivors(s.objects, UserDeleted(steps), End(s, steps));
    StrandedAtEnd(s.objects, {}, s, steps);
    if forall step | step in steps :: !step.Loses? {
      NothingLost(s, steps);
    }
  }

  /** Each cluster has its parent exactly when it has at least one node. */
  predicate Consistent(objects: map<string, Orderer>) {
    && (forall k | k in objects && objects[k].isNode :: objects[k].parent.Some? && objects[k].parent.value in objects)
    && (forall p | p in objects && !objects[p].isNode :: Nodes(objects, p) != {})
  }

  lemma SurvivorsAreWhole(init: map<string, Orderer>, gone: set<string>)
    requires WellLabelled(init) && Consistent(init)
    ensures Consistent(Survivors(init, gone))
  {
    var left := Survivors(init, gone);
    forall k | k in left && left[k].isNode ensures left[k].parent.value in left {
      var p := left[k].parent.value;
      assert k in Nodes(init, p) && k !in gone;
      assert Survives(init, gone, p);
    }
    forall p | p in left && !left[p].isNode ensures Nodes(left, p) != {} {
      assert Survives(init, gone, p);
      var n :| n in Nodes(init, p) && n !in gone;
      assert Survives(init, gone, n);
      assert n in Nodes(left, p);
    }
  }

  /** Clusters that were whole are whole or entirely gone when the cascade ends, if
      and only if the user deletes what lost events leave behind. */
  lemma CascadeLeavesClustersWhole(s: State, steps: seq<Step>)
    requires WellLabelled(s.objects) && Consistent(s.objects) && s.events == multiset{}
    requires Runs(s, steps) && End(s, steps).events == multiset{}
    ensures Consistent(End(s, steps).objects) <==> CleanedUp(s, steps)
  {
    CascadeLeavesSurvivors(s, steps);
    SurvivorsAreWhole(s.objects, UserDeleted(steps));
    if Consistent(End(s, steps).objects) {
      assert Stranded(s.objects, End(s, steps)) == {};
      StartOnTheWay(s);
      StrandedAtEnd(s.objects, {}, s, steps);
    }
  }

  lemma RunOfTwo(s: State, a: Step, b: Step)
    requires Allowed(s, a) && Allowed(Apply(s, a), b)
    ensures Runs(s, [a, b]) && End(s, [a, b]) == Apply(Apply(s, a), b)
  {
    assert [a, b][1..] == [b] && [b][1..] == [];
    assert End(Apply(s, a), [b]) == End(Apply(Apply(s, a), b), []);
  }

  /** A parent is deleted and the operator crashes: its node is left without it. */
  lemma LostEventLeavesOrphan(p: string, n: string)
    requires p != n
    ensures var s := State(map[p := Orderer(false, None), n := Orderer(true, Some(p))], multiset{});
            var steps := [UserDeletes(p), Loses(Deleted(p, Orderer(false, None)))];
            && WellLabelled(s.objects) && Consistent(s.objects) && Runs(s, steps)
            && End(s, steps) == State(map[n := Orderer(true, Some(p))], multiset{})
            && !Consistent(End(s, steps).objects)
  {
    var s := State(map[p := Orderer(false, None), n := Orderer(true, Some(p))], multiset{});
    var e := Deleted(p, Orderer(false, None));
    var steps := [UserDeletes(p), Loses(e)];
    assert n in Nodes(s.objects, p);
    var s1 := Apply(s, steps[0]);
    assert s1 == State(map[n := Orderer(true, Some(p))], multiset{e});
    var s2 := Apply(s1, Loses(e));
    assert s2 == State(map[n := Orderer(true, Some(p))], multiset{});
    RunOfTwo(s, UserDeletes(p), Loses(e));
    assert n in s2.objects && p !in s2.objects;
  }

  // ------------------------------------------------------------- the handler

  /** The API server and the handler that runs against it. */
  class Cluster {
    var objects: map<string, Orderer>
    var events: multiset<Deleted>

    ghost function Abstract(): State
      reads this
    {
      State(objects, events)
    }

    constructor (objects: map<string, Orderer>)
      ensures Abstract() == State(objects, multiset{})
    {
      this.objects := objects;
      events := multiset{};
    }

    /** The API's delete: a missing object is reported and ignored. */
    method DeleteObject(name: string)
      modifies this
      ensures Abstract() == Delete(old(Abstract()), name)
    {
      if name in objects {
        events := events + multiset{Deleted(name, objects[name])};
        objects := objects - {name};
      }
    }

    method DeleteFunc(e: Deleted)
      requires e in events
      modifies this
      ensures Abstract() == Handle(old(Abstract()), e)
    {
      events := events - multiset{e};
      if e.orderer.isNode {
        var parentName := if e.orderer.parent.Some? then e.orderer.parent.value else "";
        var ordererList := Nodes(objects, parentName);
        if |ordererList| == 0 {
          DeleteObject(parentName);
        }
        return;
      }
      DeleteChildren(Nodes(objects, e.name));
    }

    /** Deletes the listed children one by one, in any order. */
    method DeleteChildren(ordererList: set<string>)
      requires ordererList <= objects.Keys
      modifies this
      ensures Abstract() == DeleteAll(old(Abstract()), ordererList)
    {
      ghost var before := Abstract();
      var left := ordererList;
      DeleteNone(before);
      while left != {}
        invariant left <= ordererList
        invariant Abstract() == DeleteAll(before, ordererList - left)
        decreases |left|
      {
        var item :| item in left;
        ghost var done := ordererList - left;
        DeleteObject(item);
        left := left - {item};
        DeleteOneMore(before, done, item);
        assert ordererList - left == done + {item};
      }
      assert ordererList - left == ordererList;
    }

    /** Handles events until none is left, in any order. */
    method HandleAll(ghost init: map<string, Orderer>, ghost gone: set<string>)
      requires WellLabelled(init) && OnTheWay(init, gone, Abstract()) && Stranded(init, Abstract()) == {}
      modifies this
      ensures events == multiset{} && objects == Survivors(init, gone)
    {
      while events != multiset{}
        invariant OnTheWay(init, gone, Abstract()) && Stranded(init, Abstract()) == {}
        decreases Measure(Abstract())
      {
        var e :| e in events;
        StepShrinks(Abstract(), Handles(e));
        HandleStaysOnTheWay(init, gone, Abstract(), e);
        if e.orderer.isNode {
          NodeEventStrandsNothing(init, gone, Abstract(), e);
        } else {
          ParentEventStrandsNothing(init, gone, Abstract(), e);
        }
        DeleteFunc(e);
      }
      QuiescentIsSurvivors(init, gone, Abstract());
    }
  }

  lemma DeleteNone(s: State)
    ensures DeleteAll(s, {}) == s
  {
    assert s.objects - {} == s.objects;
  }

  lemma DeleteOneMore(s: State, done: set<string>, name: string)
    requires done <= s.objects.Keys && name in s.objects && name !in done
    ensures Delete(DeleteAll(s, done), name) == DeleteAll(s, done + {name})
  {
    var some := set k | k in done :: Deleted(k, s.objects[k]);
    var more := set k | k in done + {name} :: Deleted(k, s.objects[k]);
    assert more == some + {Deleted(name, s.objects[name])};
    assert multiset(more) == multiset(some) + multiset{Deleted(name, s.objects[name])};
    assert s.objects - done - {name} == s.objects - (done + {name});
  }
}
