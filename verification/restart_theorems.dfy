/** The promises of the restart manager, stated over whole runs. */
module RestartTheorems {
  import opened Common
  import opened RestartModel
  import opened RestartProperties

  // ------------------------------------------------- restarts are justified

  lemma FreshIsKept(wait: int, s: State)
    requires Fresh(s)
    ensures Kept(wait, s)
  {
  }

  /** Whatever the mix of reasons, the iteration order and the crashes, each
      restart completes a request that was ripe when it happened, unless it is late:
      made by a callback that had already started when its instance was restarted.
      A late one thus repeats an earlier restart. */
  lemma EveryRestartJustified(wait: int, s: State, es: seq<Event>, i: nat)
    requires Fresh(s) && Runs(wait, s, es) && i < |End(wait, s, es).restarts|
    ensures var s' := End(wait, s, es);
            if s'.restarts[i].late then Repeats(s', i) else Justified(wait, s'.restarts[i])
  {
    FreshIsKept(wait, s);
    RunKeeps(wait, s, es);
  }

  // -------------------------------------------------------------- rate limit

  ghost predicate Apart(wait: int, a: Restart, b: Restart) {
    b.at - a.at > wait - SECOND
  }

  /** A restart that is not late and serves only reasons an earlier restart of the
      same instance served comes more than `wait` minus one second after it. */
  lemma SameReasonsAreApart(wait: int, s: State, es: seq<Event>, i: nat, j: nat)
    requires Fresh(s) && Runs(wait, s, es) && i < j < |End(wait, s, es).restarts|
    requires End(wait, s, es).restarts[i].instance == End(wait, s, es).restarts[j].instance
    requires End(wait, s, es).restarts[j].served.Keys <= End(wait, s, es).restarts[i].served.Keys
    requires !End(wait, s, es).restarts[j].late
    ensures Apart(wait, End(wait, s, es).restarts[i], End(wait, s, es).restarts[j])
  {
    FreshIsKept(wait, s);
    RunKeeps(wait, s, es);
    var log := End(wait, s, es).restarts;
    assert Justified(wait, log[j]);
    var r :| JustifiedBy(wait, log[j], r);
    assert r in log[i].served;
    ServedArePending(wait, s, es, j, r);
  }

  predicate ServesPending(s: State) {
    forall i, r | 0 <= i < |s.restarts| && r in s.restarts[i].served :: s.restarts[i].served[r].status == Pending
  }

  lemma {:induction false} ServedArePendingRun(wait: int, s: State, es: seq<Event>)
    requires ServesPending(s) && Runs(wait, s, es)
    ensures ServesPending(End(wait, s, es))
    decreases |es|
  {
    if es != [] {
      ServedArePendingRun(wait, Apply(wait, s, es[0]), es[1..]);
    }
  }

  lemma ServedArePending(wait: int, s: State, es: seq<Event>, j: nat, r: Reason)
    requires Fresh(s) && Runs(wait, s, es) && j < |End(wait, s, es).restarts|
    requires r in End(wait, s, es).restarts[j].served
    ensures End(wait, s, es).restarts[j].served[r].status == Pending
  {
    ServedArePendingRun(wait, s, es);
  }

  predicate UsesOnly(s: State, x: Instance, reasons: set<Reason>) {
    && (x in s.config ==> s.config[x].Keys <= reasons)
    && forall i | 0 <= i < |s.restarts| && s.restarts[i].instance == x :: s.restarts[i].served.Keys <= reasons
  }

  predicate AsksOnly(es: seq<Event>, x: Instance, reasons: set<Reason>) {
    forall i | 0 <= i < |es| && es[i].Asked? && es[i].x == x :: es[i].reason in reasons
  }

  lemma {:induction false} OnlyAskedReasons(wait: int, s: State, es: seq<Event>, x: Instance, reasons: set<Reason>)
    requires UsesOnly(s, x, reasons) && AsksOnly(es, x, reasons) && Runs(wait, s, es)
    ensures UsesOnly(End(wait, s, es), x, reasons)
    decreases |es|
  {
    if es != [] {
      var s' := Apply(wait, s, es[0]);
      assert UsesOnly(s', x, reasons);
      assert AsksOnly(es[1..], x, reasons) by {
        forall i | 0 <= i < |es[1..]| && es[1..][i].Asked? && es[1..][i].x == x ensures es[1..][i].reason in reasons {
          assert es[1..][i] == es[i + 1];
        }
      }
      OnlyAskedReasons(wait, s', es[1..], x, reasons);
    }
  }

  ghost predicate RateLimited(wait: int, s: State, x: Instance) {
    forall i, j | 0 <= i < j < |s.restarts| && s.restarts[i].instance == x && s.restarts[j].instance == x ::
      Apart(wait, s.restarts[i], s.restarts[j])
  }

  /** No instance of the same name in another namespace is asked or checked. */
  predicate NoNamesake(es: seq<Event>, x: Instance) {
    forall i | 0 <= i < |es| && (es[i].Asked? || es[i].Checked?) && es[i].x.name == x.name :: es[i].x == x
  }

  ghost predicate AlwaysRateLimited(wait: int, x: Instance, reasons: set<Reason>, shared: bool) {
    forall s, es | Fresh(s) && UsesOnly(s, x, reasons) && AsksOnly(es, x, reasons) && (shared || NoNamesake(es, x))
                   && Runs(wait, s, es) ::
      RateLimited(wait, End(wait, s, es), x)
  }

  predicate NeverLate(s: State, x: Instance) {
    forall i | 0 <= i < |s.restarts| && s.restarts[i].instance == x :: !s.restarts[i].late
  }

  /** While `x` is asked under one reason at most and shares its name with nobody:
      a request that waits for a timer does not become due, and the timer is not
      armed again before its callback has run, so that is never overtaken. */
  predicate Alone(wait: int, s: State, x: Instance) {
    && (x.name in s.timers ==> s.timers[x.name].owner == x && x in s.config && !AnyDue(wait, s.config[x]))
    && (forall i | 0 <= i < |s.callbacks| && s.callbacks[i].owner.name == x.name ::
          IsLive(s, i, x) && x.name in s.timers && s.timers[x.name].off)
    && (forall i, j | 0 <= i < j < |s.callbacks| && s.callbacks[i].owner.name == x.name ::
          s.callbacks[j].owner.name != x.name)
    && NeverLate(s, x)
  }

  lemma AskStaysAlone(wait: int, s: State, x: Instance, y: Instance, r: Reason, reasons: set<Reason>)
    requires Kept(wait, s) && Alone(wait, s, x) && UsesOnly(s, x, reasons) && |reasons| <= 1
    requires y == x ==> r in reasons
    ensures Alone(wait, Ask(s, y, r), x)
  {
    var s' := Ask(s, y, r);
    if y == x && x.name in s.timers {
      AtMostOne(reasons, r);
      assert SoundTimer(wait, s, x.name);
      var w :| Backs(wait, s.config[x], w, s.timers[x.name].deadline);
      assert w == r;
      assert s'.config[x] == s.config[x];
    }
    assert forall i | IsLive(s, i, x) :: IsLive(s', i, x);
  }

  lemma CheckStaysAlone(wait: int, s: State, x: Instance, y: Instance, order: seq<Reason>, oldest: Option<Reason>)
    requires Kept(wait, s) && Alone(wait, s, x) && Allowed(s, Checked(y, order, oldest)) && (y.name == x.name ==> y == x)
    ensures Alone(wait, Check(wait, s, y, order, oldest), x)
  {
    var s' := Check(wait, s, y, order, oldest);
    forall i | 0 <= i < |s'.callbacks| && s'.callbacks[i].owner.name == x.name ensures IsLive(s', i, x) {
      assert IsLive(s, i, x);
    }
  }

  lemma ExpireStaysAlone(wait: int, s: State, x: Instance, name: string)
    requires Kept(wait, s) && Alone(wait, s, x) && Allowed(s, WentOff(name))
    ensures Alone(wait, Expire(s, name), x)
  {
    var s' := Expire(s, name);
    assert SoundTimer(wait, s, name);
    forall i | 0 <= i < |s'.callbacks| && s'.callbacks[i].owner.name == x.name ensures IsLive(s', i, x) {
      if i < |s.callbacks| {
        assert IsLive(s, i, x);
      }
    }
  }

  /** A callback that is left after one has run, and its place before. */
  lemma CallbackLeft(s: State, i: nat, k: nat)
    requires i < |s.callbacks| && k < |s.callbacks| - 1
    ensures var c, c' := s.callbacks[if k < i then k else k + 1], Call(s, i).callbacks[k];
            && |Call(s, i).callbacks| == |s.callbacks| - 1
            && c'.owner == c.owner && (c.owner != s.callbacks[i].owner ==> c' == c)
  {
    assert Without(s.callbacks, i)[k] == s.callbacks[if k < i then k else k + 1];
  }

  lemma CallStaysAlone(wait: int, s: State, x: Instance, i: nat)
    requires Kept(wait, s) && Alone(wait, s, x) && Allowed(s, Called(i))
    ensures Alone(wait, Call(s, i), x)
  {
    var c, s' := s.callbacks[i], Call(s, i);
    assert SoundCallback(wait, s, c);
    if c.owner.name == x.name {
      assert IsLive(s, i, x);
    }
    forall k | 0 <= k < |s'.callbacks|
      ensures var was := s.callbacks[if k < i then k else k + 1];
              s'.callbacks[k].owner == was.owner && (was.owner != c.owner ==> s'.callbacks[k] == was)
    {
      CallbackLeft(s, i, k);
    }
    forall k | 0 <= k < |s'.callbacks| && s'.callbacks[k].owner.name == x.name ensures IsLive(s', k, x) {
      assert IsLive(s, if k < i then k else k + 1, x);
    }
  }

  lemma {:induction false} AloneRun(wait: int, s: State, es: seq<Event>, x: Instance, reasons: set<Reason>)
    requires Kept(wait, s) && Alone(wait, s, x) && UsesOnly(s, x, reasons) && |reasons| <= 1
    requires AsksOnly(es, x, reasons) && NoNamesake(es, x) && Runs(wait, s, es)
    ensures Alone(wait, End(wait, s, es), x)
    decreases |es|
  {
    if es != [] {
      var s' := Apply(wait, s, es[0]);
      match es[0] {
        case Asked(y, r) => AskStaysAlone(wait, s, x, y, r, reasons);
        case Checked(y, order, oldest) => CheckStaysAlone(wait, s, x, y, order, oldest);
        case WentOff(name) => ExpireStaysAlone(wait, s, x, name);
        case Called(i) => CallStaysAlone(wait, s, x, i);
        case Ticked(_) => assert forall i | IsLive(s, i, x) :: IsLive(s', i, x);
        case Crashed =>
      }
      StepKeeps(wait, s, es[0]);
      OnlyAskedReasons(wait, s, [es[0]], x, reasons);
      assert End(wait, s, [es[0]]) == s';
      forall i | 0 <= i < |es[1..]| ensures es[1..][i] == es[i + 1] {
      }
      AloneRun(wait, s', es[1..], x, reasons);
    }
  }

  /** Single reason and no namesake: any two restarts of the instance, direct or by
      timer and across crashes, are more than `wait` minus one second apart. */
  lemma SingleReasonIsRateLimited(wait: int, s: State, es: seq<Event>, x: Instance, reasons: set<Reason>)
    requires Fresh(s) && UsesOnly(s, x, reasons) && AsksOnly(es, x, reasons) && Runs(wait, s, es)
    requires |reasons| <= 1 && NoNamesake(es, x)
    ensures RateLimited(wait, End(wait, s, es), x)
  {
    FreshIsKept(wait, s);
    OnlyAskedReasons(wait, s, es, x, reasons);
    AloneRun(wait, s, es, x, reasons);
    var log := End(wait, s, es).restarts;
    forall i, j | 0 <= i < j < |log| && log[i].instance == x && log[j].instance == x
      ensures Apart(wait, log[i], log[j])
    {
      EveryRestartJustified(wait, s, es, i);
      var r :| JustifiedBy(wait, log[i], r);
      AtMostOne(reasons, r);
      SameReasonsAreApart(wait, s, es, i, j);
    }
  }

  /** An instance that is asked under no reason is never restarted. */
  lemma {:induction false} NoReasonNoRestart(wait: int, s: State, es: seq<Event>, x: Instance, i: nat)
    requires Fresh(s) && UsesOnly(s, x, {}) && AsksOnly(es, x, {}) && Runs(wait, s, es)
    requires i < |End(wait, s, es).restarts|
    ensures End(wait, s, es).restarts[i].instance != x
  {
    var s' := End(wait, s, es);
    OnlyAskedReasons(wait, s, es, x, {});
    EveryRestartJustified(wait, s, es, i);
    if s'.restarts[i].instance == x {
      if s'.restarts[i].late {
        var j :| 0 <= j < i && s'.restarts[j].instance == s'.restarts[i].instance;
        NoReasonNoRestart(wait, s, es, x, j);
      }
    }
  }

  lemma AtMostOne(reasons: set<Reason>, r: Reason)
    requires r in reasons && |reasons| <= 1
    ensures reasons == {r}
  {
    if q :| q in reasons && q != r {
      assert |{q, r}| <= |reasons - {q, r}| + |{q, r}| == |reasons|;
    }
  }

  lemma LogIsChronological(wait: int, s: State, es: seq<Event>, x: Instance)
    requires Fresh(s) && Runs(wait, s, es) && wait < SECOND
    ensures RateLimited(wait, End(wait, s, es), x)
  {
    FreshIsKept(wait, s);
    RunKeeps(wait, s, es);
  }

  lemma Prepend(wait: int, s: State, e: Event, es: seq<Event>)
    requires Allowed(s, e) && Runs(wait, Apply(wait, s, e), es)
    ensures Runs(wait, s, [e] + es) && End(wait, s, [e] + es) == End(wait, Apply(wait, s, e), es)
  {
    assert ([e] + es)[1..] == es;
  }

  lemma RunOfTwo(wait: int, s: State, a: Event, b: Event)
    requires Allowed(s, a) && Allowed(Apply(wait, s, a), b)
    ensures Runs(wait, s, [a, b]) && End(wait, s, [a, b]) == Apply(wait, Apply(wait, s, a), b)
  {
    Prepend(wait, Apply(wait, s, a), b, []);
    Prepend(wait, s, a, [b]);
    assert [a, b] == [a] + [b];
  }

  lemma RunOfThree(wait: int, s: State, a: Event, b: Event, c: Event)
    requires Allowed(s, a)
    requires Allowed(Apply(wait, s, a), b)
    requires Allowed(Apply(wait, Apply(wait, s, a), b), c)
    ensures Runs(wait, s, [a, b, c])
    ensures End(wait, s, [a, b, c]) == Apply(wait, Apply(wait, Apply(wait, s, a), b), c)
  {
    var s1 := Apply(wait, s, a);
    var s2 := Apply(wait, s1, b);
    Prepend(wait, s2, c, []);
    Prepend(wait, s1, b, [c]);
    Prepend(wait, s, a, [b, c]);
    assert [a, b, c] == [a] + [b, c];
  }

  lemma {:induction false} Concatenate(wait: int, s: State, es: seq<Event>, fs: seq<Event>)
    requires Runs(wait, s, es) && Runs(wait, End(wait, s, es), fs)
    ensures Runs(wait, s, es + fs) && End(wait, s, es + fs) == End(wait, End(wait, s, es), fs)
    decreases |es|
  {
    if es == [] {
      assert es + fs == fs;
    } else {
      Concatenate(wait, Apply(wait, s, es[0]), es[1..], fs);
      assert es + fs == [es[0]] + (es[1..] + fs);
    }
  }

  /** A check of an instance whose pending requests are just `r`, which is due. */
  lemma DueCheckRestarts(wait: int, s: State, x: Instance, r: Reason, oldest: Option<Reason>)
    requires x in s.config && PendingReasons(s.config[x]) == {r} && Due(wait, s.config[x][r])
    requires IsOldest(s.config[x], s.now, oldest)
    ensures Allowed(s, Checked(x, [r], oldest))
    ensures var s' := Apply(wait, s, Checked(x, [r], oldest));
            && s'.now == s.now && s'.config == s.config[x := CompletedRequests(s.config[x], s.now)]
            && s'.timers == s.timers - {x.name} && s'.callbacks == Overtake(s.callbacks, x)
            && s'.restarts == s.restarts + [Restart(x, s.now, [r], map[r := s.config[x][r]], false)]
  {
    assert r in PendingReasons(s.config[x]);
    assert Served(s, x) == map[r := s.config[x][r]];
  }

  /** A request under `r`, and a check that finds it the only pending one. */
  function AskAndCheck(x: Instance, r: Reason): seq<Event> {
    [Asked(x, r), Checked(x, [r], None)]
  }

  function TwoReasonRun(x: Instance, a: Reason, b: Reason): seq<Event> {
    AskAndCheck(x, a) + AskAndCheck(x, b)
  }

  /** At time zero: a request under a reason never acted on restarts at once. */
  lemma NewReasonRestarts(wait: int, s: State, x: Instance, r: Reason)
    requires s.now == 0 && (x in s.config ==> r !in s.config[x] && PendingReasons(s.config[x]) == {})
    requires x in s.config ==>
               forall q | q in s.config[x] && s.config[x][q].requested.At? :: s.config[x][q].requested.sec >= 0
    ensures Runs(wait, s, AskAndCheck(x, r))
    ensures var s' := End(wait, s, AskAndCheck(x, r));
            && s'.now == 0 && |s'.restarts| == |s.restarts| + 1 && s.restarts <= s'.restarts
            && s'.restarts[|s.restarts|].instance == x && s'.restarts[|s.restarts|].at == 0
            && x in s'.config && PendingReasons(s'.config[x]) == {}
            && s'.config[x].Keys == (if x in s.config then s.config[x].Keys else {}) + {r}
            && forall q | q in s'.config[x] && s'.config[x][q].requested.At? :: s'.config[x][q].requested.sec >= 0
  {
    var s1 := Apply(wait, s, Asked(x, r));
    assert s1.config[x][r] == Request(Pending, At(0), Empty);
    assert PendingReasons(s1.config[x]) == {r};
    DueCheckRestarts(wait, s1, x, r, None);
    RunOfTwo(wait, s, Asked(x, r), Checked(x, [r], None));
  }

  /** Two reasons in turn: the second has no last action of its own, so both
      restarts happen at the same moment. */
  lemma TwoReasonsRestartAtOnce(wait: int, x: Instance, a: Reason, b: Reason)
    requires a != b
    ensures var s := State(0, map[], map[], [], []);
            && Runs(wait, s, TwoReasonRun(x, a, b))
            && var log := End(wait, s, TwoReasonRun(x, a, b)).restarts;
               |log| == 2 && log[0].instance == log[1].instance == x && log[0].at == log[1].at == 0
  {
    var s := State(0, map[], map[], [], []);
    NewReasonRestarts(wait, s, x, a);
    var t := End(wait, s, AskAndCheck(x, a));
    NewReasonRestarts(wait, t, x, b);
    Concatenate(wait, s, AskAndCheck(x, a), AskAndCheck(x, b));
  }

  /** At `wait`, the callback of `x` has started but not run when `y` restarts at
      once; `x` is checked and gets another timer, whose callback starts at twice
      `wait`.  Then both run. */
  function LateRun(wait: int, x: Instance, y: Instance, r: Reason): seq<Event> {
    OvertakingRun(wait, x, y, r) + CallingRun(wait, x, r)
  }

  function OvertakingRun(wait: int, x: Instance, y: Instance, r: Reason): seq<Event> {
    AskAndCheck(x, r) + [Ticked(wait), WentOff(x.name)] + [Asked(y, r), Checked(y, [r], OldestAt(wait, r))]
  }

  function CallingRun(wait: int, x: Instance, r: Reason): seq<Event> {
    [Checked(x, [r], Some(r)), Ticked(2 * wait)] + ([WentOff(x.name), Called(0)] + [Called(0)])
  }

  /** What the loop finds at time `wait` for a request made just then. */
  function OldestAt(wait: int, r: Reason): Option<Reason> {
    if wait % SECOND == 0 then None else Some(r)
  }

  /** With a namesake, one reason is not enough: two callbacks of the same instance
      can be on their way, and then restart it twice at the same moment. */
  lemma LateCallbackRestartsAgain(wait: int, x: Instance, y: Instance, r: Reason)
    requires wait > 0 && x != y && x.name == y.name
    ensures var s := Rested(r, {x});
            && Runs(wait, s, LateRun(wait, x, y, r))
            && var log := End(wait, s, LateRun(wait, x, y, r)).restarts;
               && |log| == 3 && log[1].instance == log[2].instance == x && log[1].at == log[2].at == 2 * wait
               && log[2].late && log[2].served == map[]
  {
    var s := Rested(r, {x});
    NamesakeOvertakes(wait, x, y, r);
    var t := End(wait, s, OvertakingRun(wait, x, y, r));
    WaitsAgain(wait, t, x, r);
    var u := End(wait, t, [Checked(x, [r], Some(r)), Ticked(2 * wait)]);
    BothCallbacksRun(wait, u, x, r);
    Concatenate(wait, t, [Checked(x, [r], Some(r)), Ticked(2 * wait)], [WentOff(x.name), Called(0)] + [Called(0)]);
    Concatenate(wait, s, OvertakingRun(wait, x, y, r), CallingRun(wait, x, r));
  }

  lemma NamesakeOvertakes(wait: int, x: Instance, y: Instance, r: Reason)
    requires wait > 0 && x != y && x.name == y.name
    ensures var s, es := Rested(r, {x}), OvertakingRun(wait, x, y, r);
            && Runs(wait, s, es)
            && var t := End(wait, s, es);
               && t.now == wait && Waits(t, x, r) && t.config[x].Keys == {r} && x.name !in t.timers
               && |t.callbacks| == 1 && IsLive(t, 0, x) && |t.restarts| == 1
  {
    var s := Rested(r, {x});
    AskedAgainWaits(wait, s, x, r);
    var t1 := End(wait, s, AskAndCheck(x, r));
    RunOfTwo(wait, t1, Ticked(wait), WentOff(x.name));
    var t2 := End(wait, t1, [Ticked(wait), WentOff(x.name)]);
    NamesakeRestarts(wait, t2, y, r);
    Concatenate(wait, s, AskAndCheck(x, r), [Ticked(wait), WentOff(x.name)]);
    Concatenate(wait, s, AskAndCheck(x, r) + [Ticked(wait), WentOff(x.name)],
                [Asked(y, r), Checked(y, [r], OldestAt(wait, r))]);
  }

  lemma NamesakeRestarts(wait: int, s: State, y: Instance, r: Reason)
    requires wait > 0 && s.now == wait && y !in s.config
    ensures var es := [Asked(y, r), Checked(y, [r], OldestAt(wait, r))];
            && Runs(wait, s, es)
            && var s' := End(wait, s, es);
               && s'.now == wait && s'.config.Keys == s.config.Keys + {y}
               && (forall z | z in s.config :: s'.config[z] == s.config[z])
               && s'.timers == s.timers - {y.name} && s'.callbacks == Overtake(s.callbacks, y)
               && |s'.restarts| == |s.restarts| + 1
  {
    var s1 := Apply(wait, s, Asked(y, r));
    var oldest := OldestAt(wait, r);
    assert s1.config[y] == map[r := Request(Pending, Format(wait), Empty)];
    assert PendingReasons(s1.config[y]) == {r};
    DueCheckRestarts(wait, s1, y, r, oldest);
    RunOfTwo(wait, s, Asked(y, r), Checked(y, [r], oldest));
  }

  lemma WaitsAgain(wait: int, s: State, x: Instance, r: Reason)
    requires wait > 0 && s.now == wait && Waits(s, x, r) && s.config[x].Keys == {r} && x.name !in s.timers
    ensures var es := [Checked(x, [r], Some(r)), Ticked(2 * wait)];
            && Runs(wait, s, es)
            && End(wait, s, es) == s.(now := 2 * wait, timers := s.timers[x.name := Timer(x, 2 * wait, [r], false)])
  {
    assert PendingReasons(s.config[x]) == {r};
    RunOfTwo(wait, s, Checked(x, [r], Some(r)), Ticked(2 * wait));
  }

  lemma BothCallbacksRun(wait: int, s: State, x: Instance, r: Reason)
    requires s.now == 2 * wait && Waits(s, x, r) && s.config[x].Keys == {r}
    requires x.name in s.timers && s.timers[x.name] == Timer(x, 2 * wait, [r], false)
    requires |s.callbacks| == 1 && IsLive(s, 0, x)
    ensures var es := [WentOff(x.name), Called(0)] + [Called(0)];
            && Runs(wait, s, es)
            && var s' := End(wait, s, es);
               var n := |s.restarts|;
               && |s'.restarts| == n + 2 && s'.restarts[n].instance == s'.restarts[n + 1].instance == x
               && s'.restarts[n].at == s'.restarts[n + 1].at == 2 * wait
               && s'.restarts[n + 1].late && s'.restarts[n + 1].served == map[]
  {
    RunOfTwo(wait, s, WentOff(x.name), Called(0));
    var t := End(wait, s, [WentOff(x.name), Called(0)]);
    assert |t.callbacks| == 1 && t.callbacks[0].owner == x && t.callbacks[0].overtaken;
    Prepend(wait, t, Called(0), []);
    assert [Called(0)] + [] == [Called(0)];
    Concatenate(wait, s, [WentOff(x.name), Called(0)], [Called(0)]);
  }

  /** The limit holds for every run of an instance exactly when the instance is
      asked to restart under no reason, or under one and no instance shares its
      name (or `wait` is under a second, when it says nothing). */
  lemma RateLimitExactly(wait: int, x: Instance, reasons: set<Reason>, shared: bool)
    ensures AlwaysRateLimited(wait, x, reasons, shared)
            <==> reasons == {} || (|reasons| == 1 && !shared) || wait < SECOND
  {
    if reasons == {} || (|reasons| == 1 && !shared) || wait < SECOND {
      forall s, es | Fresh(s) && UsesOnly(s, x, reasons) && AsksOnly(es, x, reasons) && (shared || NoNamesake(es, x))
                     && Runs(wait, s, es)
        ensures RateLimited(wait, End(wait, s, es), x)
      {
        if wait < SECOND {
          LogIsChronological(wait, s, es, x);
        } else if reasons == {} {
          forall i: nat | i < |End(wait, s, es).restarts| ensures End(wait, s, es).restarts[i].instance != x {
            NoReasonNoRestart(wait, s, es, x, i);
          }
        } else {
          SingleReasonIsRateLimited(wait, s, es, x, reasons);
        }
      }
    } else if |reasons| == 1 {
      OneSharedReasonFails(wait, x, reasons);
    } else {
      TwoReasonsFail(wait, x, reasons, shared);
    }
  }

  lemma OneSharedReasonFails(wait: int, x: Instance, reasons: set<Reason>)
    requires wait >= SECOND && |reasons| == 1
    ensures !AlwaysRateLimited(wait, x, reasons, true)
  {
    var r :| r in reasons;
    AtMostOne(reasons, r);
    var y := Instance(x.namespace + "2", x.name);
    var s, es := Rested(r, {x}), LateRun(wait, x, y, r);
    assert |y.namespace| == |x.namespace| + 1;
    LateCallbackRestartsAgain(wait, x, y, r);
    assert Fresh(s) && UsesOnly(s, x, reasons) && AsksOnly(es, x, reasons);
    var log := End(wait, s, es).restarts;
    assert !Apart(wait, log[1], log[2]);
    assert !RateLimited(wait, End(wait, s, es), x);
  }

  lemma TwoReasonsFail(wait: int, x: Instance, reasons: set<Reason>, shared: bool)
    requires wait >= SECOND && |reasons| >= 2
    ensures !AlwaysRateLimited(wait, x, reasons, shared)
  {
    var a :| a in reasons;
    assert |reasons - {a}| == |reasons| - 1;
    var b :| b in reasons - {a};
    var s := State(0, map[], map[], [], []);
    var es := TwoReasonRun(x, a, b);
    TwoReasonsRestartAtOnce(wait, x, a, b);
    assert Fresh(s) && UsesOnly(s, x, reasons) && AsksOnly(es, x, reasons) && NoNamesake(es, x);
    var log := End(wait, s, es).restarts;
    assert !Apart(wait, log[0], log[1]);
    assert !RateLimited(wait, End(wait, s, es), x);
  }

  // ------------------------------------------- when no restart is ever late

  ghost predicate AlwaysJustified(wait: int, x: Instance, reasons: set<Reason>, shared: bool) {
    forall s, es | Fresh(s) && UsesOnly(s, x, reasons) && AsksOnly(es, x, reasons) && (shared || NoNamesake(es, x))
                   && Runs(wait, s, es) ::
      AllJustified(wait, End(wait, s, es), x)
  }

  ghost predicate AllJustified(wait: int, s: State, x: Instance) {
    forall i | 0 <= i < |s.restarts| && s.restarts[i].instance == x :: Justified(wait, s.restarts[i])
  }

  lemma JustifiedIfNeverLate(wait: int, s: State, es: seq<Event>, x: Instance)
    requires Fresh(s) && Runs(wait, s, es) && NeverLate(End(wait, s, es), x)
    ensures AllJustified(wait, End(wait, s, es), x)
  {
    FreshIsKept(wait, s);
    RunKeeps(wait, s, es);
  }

  /** Without a wait every pending request is due, and no timer is ever armed. */
  lemma {:induction false} NoWaitNoTimer(wait: int, s: State, es: seq<Event>, x: Instance)
    requires wait <= 0 && Kept(wait, s) && s.timers == map[] && s.callbacks == [] && NeverLate(s, x) && Runs(wait, s, es)
    ensures NeverLate(End(wait, s, es), x)
    decreases |es|
  {
    if es != [] {
      var s' := Apply(wait, s, es[0]);
      if es[0].Checked? && es[0].x in s.config && PendingReasons(s.config[es[0].x]) != {} {
        var rs := s.config[es[0].x];
        var r :| r in PendingReasons(rs);
        assert SoundRequest(rs[r], s.now);
        assert Due(wait, rs[r]);
      }
      StepKeeps(wait, s, es[0]);
      NoWaitNoTimer(wait, s', es[1..], x);
    }
  }

  /** The callback of a timer for `a` has started when a request under `b`, never
      acted on, restarts the instance at once and serves both.  Then it runs. */
  function OtherReasonRun(wait: int, x: Instance, a: Reason, b: Reason): seq<Event> {
    AskAndCheck(x, a) + [Ticked(wait), WentOff(x.name)] + [Asked(x, b), Checked(x, [a, b], Some(a)), Called(0)]
  }

  lemma OtherReasonOvertakes(wait: int, x: Instance, a: Reason, b: Reason)
    requires wait > 0 && a != b
    ensures var s := Rested(a, {x});
            && Fresh(s) && Runs(wait, s, OtherReasonRun(wait, x, a, b))
            && var log := End(wait, s, OtherReasonRun(wait, x, a, b)).restarts;
               && |log| == 2 && log[0].instance == log[1].instance == x && log[0].at == log[1].at == wait
               && log[1].late && log[1].served == map[]
  {
    var s := Rested(a, {x});
    AskedAgainWaits(wait, s, x, a);
    var t := End(wait, s, AskAndCheck(x, a));
    RunOfTwo(wait, t, Ticked(wait), WentOff(x.name));
    var u := End(wait, t, [Ticked(wait), WentOff(x.name)]);
    ServedWithOther(wait, u, x, a, b);
    Concatenate(wait, s, AskAndCheck(x, a), [Ticked(wait), WentOff(x.name)]);
    Concatenate(wait, s, AskAndCheck(x, a) + [Ticked(wait), WentOff(x.name)],
                [Asked(x, b), Checked(x, [a, b], Some(a)), Called(0)]);
  }

  lemma ServedWithOther(wait: int, s: State, x: Instance, a: Reason, b: Reason)
    requires wait > 0 && a != b && s.now == wait && Waits(s, x, a) && s.config[x].Keys == {a}
    requires |s.callbacks| == 1 && s.callbacks[0].owner == x
    ensures var es := [Asked(x, b), Checked(x, [a, b], Some(a)), Called(0)];
            && Runs(wait, s, es)
            && var s' := End(wait, s, es);
               var n := |s.restarts|;
               && |s'.restarts| == n + 2 && s.restarts <= s'.restarts
               && s'.restarts[n].instance == s'.restarts[n + 1].instance == x
               && s'.restarts[n].at == s'.restarts[n + 1].at == wait
               && s'.restarts[n + 1].late && s'.restarts[n + 1].served == map[]
  {
    var s1 := Apply(wait, s, Asked(x, b));
    assert s1.config[x][b] == Request(Pending, Format(wait), Empty);
    assert PendingReasons(s1.config[x]) == {a, b};
    assert Due(wait, s1.config[x][b]);
    assert Enumerates([a, b], {a, b});
    var s2 := Apply(wait, s1, Checked(x, [a, b], Some(a)));
    assert PendingReasons(s2.config[x]) == {};
    assert Served(s2, x) == map[];
    RunOfThree(wait, s, Asked(x, b), Checked(x, [a, b], Some(a)), Called(0));
  }

  /** Every restart of an instance is justified, on all runs, exactly when none is
      ever late: the instance is asked under no reason, or under one and no instance
      shares its name (or there is no wait, and so no timer). */
  lemma JustifiedExactly(wait: int, x: Instance, reasons: set<Reason>, shared: bool)
    ensures AlwaysJustified(wait, x, reasons, shared)
            <==> reasons == {} || (|reasons| == 1 && !shared) || wait <= 0
  {
    if reasons == {} || (|reasons| == 1 && !shared) || wait <= 0 {
      forall s, es | Fresh(s) && UsesOnly(s, x, reasons) && AsksOnly(es, x, reasons) && (shared || NoNamesake(es, x))
                     && Runs(wait, s, es)
        ensures AllJustified(wait, End(wait, s, es), x)
      {
        FreshIsKept(wait, s);
        if wait <= 0 {
          NoWaitNoTimer(wait, s, es, x);
          JustifiedIfNeverLate(wait, s, es, x);
        } else if reasons == {} {
          forall i: nat | i < |End(wait, s, es).restarts| ensures End(wait, s, es).restarts[i].instance != x {
            NoReasonNoRestart(wait, s, es, x, i);
          }
        } else {
          AloneRun(wait, s, es, x, reasons);
          JustifiedIfNeverLate(wait, s, es, x);
        }
      }
    } else if |reasons| == 1 {
      OneSharedReasonUnjustified(wait, x, reasons);
    } else {
      TwoReasonsUnjustified(wait, x, reasons, shared);
    }
  }

  lemma OneSharedReasonUnjustified(wait: int, x: Instance, reasons: set<Reason>)
    requires wait > 0 && |reasons| == 1
    ensures !AlwaysJustified(wait, x, reasons, true)
  {
    var r :| r in reasons;
    AtMostOne(reasons, r);
    var y := Instance(x.namespace + "2", x.name);
    var s, es := Rested(r, {x}), LateRun(wait, x, y, r);
    assert |y.namespace| == |x.namespace| + 1;
    LateCallbackRestartsAgain(wait, x, y, r);
    assert Fresh(s) && UsesOnly(s, x, reasons) && AsksOnly(es, x, reasons);
    assert !Justified(wait, End(wait, s, es).restarts[2]);
    assert !AllJustified(wait, End(wait, s, es), x);
  }

  lemma TwoReasonsUnjustified(wait: int, x: Instance, reasons: set<Reason>, shared: bool)
    requires wait > 0 && |reasons| >= 2
    ensures !AlwaysJustified(wait, x, reasons, shared)
  {
    var a :| a in reasons;
    assert |reasons - {a}| == |reasons| - 1;
    var b :| b in reasons - {a};
    var s, es := Rested(a, {x}), OtherReasonRun(wait, x, a, b);
    OtherReasonOvertakes(wait, x, a, b);
    assert Fresh(s) && UsesOnly(s, x, reasons) && AsksOnly(es, x, reasons) && NoNamesake(es, x);
    assert !Justified(wait, End(wait, s, es).restarts[1]);
    assert !AllJustified(wait, End(wait, s, es), x);
  }

  function TightRun(wait: int, x: Instance, r: Reason): seq<Event> {
    [Ticked(SECOND - 1), Asked(x, r), Checked(x, [r], Some(r))] + [Ticked(wait), Asked(x, r), Checked(x, [r], None)]
  }

  /** The second lost to whole-second stamps is lost in full: two restarts under
      one reason can be one nanosecond further apart than the bound. */
  lemma BoundIsTight(k: nat, x: Instance, r: Reason)
    requires k >= 1
    ensures var wait := k * SECOND;
            var s := State(0, map[], map[], [], []);
            && Runs(wait, s, TightRun(wait, x, r))
            && var log := End(wait, s, TightRun(wait, x, r)).restarts;
               |log| == 2 && log[0].instance == log[1].instance == x && log[1].at - log[0].at == wait - SECOND + 1
  {
    var wait := k * SECOND;
    var s0 := State(0, map[], map[], [], []);
    FirstTightRestart(wait, x, r);
    var s3 := End(wait, s0, [Ticked(SECOND - 1), Asked(x, r), Checked(x, [r], Some(r))]);
    SecondTightRestart(k, s3, x, r);
    Concatenate(wait, s0, [Ticked(SECOND - 1), Asked(x, r), Checked(x, [r], Some(r))],
                [Ticked(wait), Asked(x, r), Checked(x, [r], None)]);
  }

  lemma FirstTightRestart(wait: int, x: Instance, r: Reason)
    ensures var s := State(0, map[], map[], [], []);
            var es := [Ticked(SECOND - 1), Asked(x, r), Checked(x, [r], Some(r))];
            && Runs(wait, s, es)
            && var s' := End(wait, s, es);
               && s'.now == SECOND - 1 && x in s'.config && s'.config[x] == map[r := Request(Complete, Empty, At(0))]
               && |s'.restarts| == 1 && s'.restarts[0].instance == x && s'.restarts[0].at == SECOND - 1
  {
    var s := State(0, map[], map[], [], []);
    var s2 := Apply(wait, Apply(wait, s, Ticked(SECOND - 1)), Asked(x, r));
    assert Format(SECOND - 1) == At(0);
    assert s2.config[x] == map[r := Request(Pending, At(0), Empty)];
    assert PendingReasons(s2.config[x]) == {r};
    DueCheckRestarts(wait, s2, x, r, Some(r));
    RunOfThree(wait, s, Ticked(SECOND - 1), Asked(x, r), Checked(x, [r], Some(r)));
  }

  lemma SecondTightRestart(k: nat, s: State, x: Instance, r: Reason)
    requires k >= 1 && s.now == SECOND - 1
    requires x in s.config && s.config[x] == map[r := Request(Complete, Empty, At(0))]
    ensures var wait := k * SECOND;
            var es := [Ticked(wait), Asked(x, r), Checked(x, [r], None)];
            && Runs(wait, s, es)
            && var s' := End(wait, s, es);
               && |s'.restarts| == |s.restarts| + 1 && s.restarts <= s'.restarts
               && s'.restarts[|s.restarts|].instance == x && s'.restarts[|s.restarts|].at == wait
  {
    var wait := k * SECOND;
    var s2 := Apply(wait, Apply(wait, s, Ticked(wait)), Asked(x, r));
    assert Format(wait) == At(k);
    assert s2.config[x] == map[r := Request(Pending, At(k), At(0))];
    assert PendingReasons(s2.config[x]) == {r};
    DueCheckRestarts(wait, s2, x, r, None);
    RunOfThree(wait, s, Ticked(wait), Asked(x, r), Checked(x, [r], None));
  }

  // --------------------------------------------------- no request is stranded

  predicate HasPending(s: State, x: Instance) {
    x in s.config && PendingReasons(s.config[x]) != {}
  }

  /** After a trigger check, an instance that still has a pending request has a
      timer under its name; a newly armed one runs for at most `wait`.  The timer
      is the instance's own exactly when no instance of that name in another
      namespace held one before. */
  lemma CheckStrandsNothing(wait: int, s: State, x: Instance, order: seq<Reason>, oldest: Option<Reason>)
    requires Kept(wait, s) && Allowed(s, Checked(x, order, oldest))
    requires HasPending(Check(wait, s, x, order, oldest), x)
    ensures var s' := Check(wait, s, x, order, oldest);
            && x.name in s'.timers
            && s'.timers[x.name].deadline <= s.now + wait
            && (x.name !in s.timers && wait > 0 ==> s.now < s'.timers[x.name].deadline)
            && (s'.timers[x.name].owner == x <==> x.name in s.timers ==> s.timers[x.name].owner == x)
  {
    var rs := s.config[x];
    if !AnyDue(wait, rs) {
      if x.name !in s.timers {
        TimerDurationBounds(wait, rs, s.now, oldest);
      } else {
        assert SoundTimer(wait, s, x.name);
      }
    }
  }

  predicate RequestHeld(s: State, x: Instance, r: Reason, req: Request) {
    x in s.config && r in s.config[x] && s.config[x][r] == req
  }

  /** Restart number `i` of the log served this very request. */
  predicate ServedAt(s: State, i: int, x: Instance, r: Reason, req: Request) {
    0 <= i < |s.restarts| && s.restarts[i].instance == x && r in s.restarts[i].served && s.restarts[i].served[r] == req
  }

  /** A restart numbered `from` or later served this very request. */
  predicate ServedSince(s: State, from: int, x: Instance, r: Reason, req: Request) {
    exists i :: from <= i < |s.restarts| && ServedAt(s, i, x, r, req)
  }

  lemma LogStepGrows(wait: int, s: State, e: Event)
    requires Allowed(s, e)
    ensures s.restarts <= Apply(wait, s, e).restarts
  {
  }

  lemma {:induction false} LogGrows(wait: int, s: State, es: seq<Event>)
    requires Runs(wait, s, es)
    ensures s.restarts <= End(wait, s, es).restarts
    decreases |es|
  {
    if es != [] {
      LogStepGrows(wait, s, es[0]);
      LogGrows(wait, Apply(wait, s, es[0]), es[1..]);
    }
  }

  /** A pending request is never dropped or restamped: through any run, crashes
      included, it stays as it is until a restart of its instance serves it. */
  lemma {:induction false} RequestSurvives(wait: int, s: State, es: seq<Event>, x: Instance, r: Reason, req: Request)
    requires Runs(wait, s, es) && RequestHeld(s, x, r, req) && req.status == Pending
    ensures RequestHeld(End(wait, s, es), x, r, req) || ServedSince(End(wait, s, es), |s.restarts|, x, r, req)
    decreases |es|
  {
    if es != [] {
      var s' := Apply(wait, s, es[0]);
      LogStepGrows(wait, s, es[0]);
      if RequestHeld(s', x, r, req) {
        RequestSurvives(wait, s', es[1..], x, r, req);
      } else {
        assert ServedAt(s', |s.restarts|, x, r, req);
        LogGrows(wait, s', es[1..]);
        assert ServedAt(End(wait, s, es), |s.restarts|, x, r, req);
      }
    }
  }

  /** All that a step does to a request: one that is asked under its reason and not
      pending is stamped, keeping its last action; one that is pending when the
      requests of its instance are completed is completed; any other stays as it is,
      whatever else happens. */
  lemma RequestChangesExactly(wait: int, s: State, e: Event, x: Instance, r: Reason, req: Request)
    requires Allowed(s, e) && RequestHeld(s, x, r, req)
    ensures var s' := Apply(wait, s, e);
            if e == Asked(x, r) && req.status != Pending then
              RequestHeld(s', x, r, Request(Pending, At(s.now / SECOND), req.lastAction))
            else if Completes(wait, s, e) == Some(x) && req.status == Pending then
              RequestHeld(s', x, r, Request(Complete, Empty, At(s.now / SECOND)))
            else
              RequestHeld(s', x, r, req)
  {
  }

  /** The requests there are: those there were, and the one that is asked. */
  lemma RequestsAppearByAsking(wait: int, s: State, e: Event, x: Instance, r: Reason)
    requires Allowed(s, e)
    ensures var s' := Apply(wait, s, e);
            x in s'.config && r in s'.config[x] <==> (x in s.config && r in s.config[x]) || e == Asked(x, r)
    ensures e == Asked(x, r) && !(x in s.config && r in s.config[x]) ==>
              RequestHeld(Apply(wait, s, e), x, r, Request(Pending, At(s.now / SECOND), Empty))
  {
  }

  /** Through any run, a request that is not pending stays as it is, whatever else
      is asked and restarted, until its own reason is asked. */
  lemma {:induction false} CompletedStays(wait: int, s: State, es: seq<Event>, x: Instance, r: Reason, req: Request)
    requires Runs(wait, s, es) && RequestHeld(s, x, r, req) && req.status != Pending
    requires forall e | e in es :: e != Asked(x, r)
    ensures RequestHeld(End(wait, s, es), x, r, req)
    decreases |es|
  {
    if es != [] {
      assert es[0] in es && forall e | e in es[1..] :: e in es;
      RequestChangesExactly(wait, s, es[0], x, r, req);
      CompletedStays(wait, Apply(wait, s, es[0]), es[1..], x, r, req);
    }
  }

  /** Something will restart an instance of that name, or has started to restart
      this one. */
  predicate Attended(s: State, x: Instance) {
    x.name in s.timers || HasLiveCallback(s, x)
  }

  /** The instance whose pending requests a step completes: a callback runs, or a
      check finds one of its requests due. */
  function Completes(wait: int, s: State, e: Event): Option<Instance>
    requires Allowed(s, e)
  {
    match e
    case Called(i) => if s.callbacks[i].owner in s.config then Some(s.callbacks[i].owner) else None
    case Checked(y, _, _) => if y in s.config && AnyDue(wait, s.config[y]) then Some(y) else None
    case _ => None
  }

  /** A step that stops the timer of the name of `x` while leaving its requests: a
      crash; or the requests of an instance of the same name in another namespace
      being completed, unless a callback of `x` has started already. */
  predicate Disarms(wait: int, s: State, e: Event, x: Instance)
    requires Allowed(s, e)
  {
    || e.Crashed?
    || (&& Completes(wait, s, e).Some? && Completes(wait, s, e).value != x && Completes(wait, s, e).value.name == x.name
        && !HasLiveCallback(s, x))
  }

  /** A step that completes the requests of `y` takes away the timer of its name,
      and the callbacks of `y`. */
  lemma CompletionClears(wait: int, s: State, e: Event, x: Instance)
    requires Allowed(s, e) && Completes(wait, s, e).Some?
    ensures var s', y := Apply(wait, s, e), Completes(wait, s, e).value;
            && y in s.config && s'.config == s.config[y := CompletedRequests(s.config[y], s.now)]
            && s'.timers == s.timers - {y.name}
            && |s'.restarts| == |s.restarts| + 1
            && s'.restarts[|s.restarts|].instance == y && s'.restarts[|s.restarts|].served == Served(s, y)
            && (x != y ==> (HasLiveCallback(s', x) <==> HasLiveCallback(s, x)))
  {
    var s', y := Apply(wait, s, e), Completes(wait, s, e).value;
    if x != y {
      if k :| 0 <= k < |s.callbacks| && IsLive(s, k, x) {
        assert IsLive(s', if e.Called? && k > e.i then k - 1 else k, x);
      }
      if k :| 0 <= k < |s'.callbacks| && IsLive(s', k, x) {
        assert IsLive(s, if e.Called? && k >= e.i then k + 1 else k, x);
      }
    }
  }

  /** Any other step but a crash takes nothing away. */
  lemma OtherStepsAttend(wait: int, s: State, e: Event, x: Instance)
    requires Allowed(s, e) && SoundCallbacks(wait, s) && Completes(wait, s, e).None? && !e.Crashed?
    ensures var s' := Apply(wait, s, e);
            && (HasLiveCallback(s, x) ==> HasLiveCallback(s', x))
            && (x.name in s.timers ==>
                  && x.name in s'.timers && s'.timers[x.name].owner == s.timers[x.name].owner
                  && s'.timers[x.name].deadline == s.timers[x.name].deadline)
            && s'.restarts == s.restarts
            && (forall r, req | RequestHeld(s, x, r, req) && req.status == Pending :: RequestHeld(s', x, r, req))
  {
    if k :| 0 <= k < |s.callbacks| && IsLive(s, k, x) {
      assert IsLive(Apply(wait, s, e), k, x);
    }
  }

  /** One step leaves an attended pending request pending and unattended exactly if
      it disarms it; it completes the request exactly by serving it. */
  lemma StepStrandsExactly(wait: int, s: State, e: Event, x: Instance, r: Reason, req: Request)
    requires Allowed(s, e) && SoundCallbacks(wait, s)
    requires RequestHeld(s, x, r, req) && req.status == Pending && Attended(s, x)
    ensures var s' := Apply(wait, s, e);
            && (RequestHeld(s', x, r, req) && !Attended(s', x) <==> Disarms(wait, s, e, x))
            && (RequestHeld(s', x, r, req) <==> Completes(wait, s, e) != Some(x))
            && (!RequestHeld(s', x, r, req) ==> ServedAt(s', |s.restarts|, x, r, req))
  {
    if Completes(wait, s, e).Some? {
      CompletionClears(wait, s, e, x);
    } else if !e.Crashed? {
      OtherStepsAttend(wait, s, e, x);
    }
  }

  /** The request stays as it is until at some moment nothing attends to it. */
  ghost predicate GetsStranded(wait: int, s: State, es: seq<Event>, x: Instance, r: Reason, req: Request)
    requires Runs(wait, s, es)
    decreases |es|
  {
    && RequestHeld(s, x, r, req)
    && (!Attended(s, x) || (es != [] && GetsStranded(wait, Apply(wait, s, es[0]), es[1..], x, r, req)))
  }

  /** A step that disarms `x` comes before any that completes its requests. */
  ghost predicate DisarmedFirst(wait: int, s: State, es: seq<Event>, x: Instance)
    requires Runs(wait, s, es)
    decreases |es|
  {
    && es != []
    && (|| Disarms(wait, s, es[0], x)
        || (Completes(wait, s, es[0]) != Some(x) && DisarmedFirst(wait, Apply(wait, s, es[0]), es[1..], x)))
  }

  /** Over any run, an attended pending request is stranded exactly if a crash, or
      the completion of a namesake's requests before a callback of its own has
      started, comes before its own completion. */
  lemma {:induction false} StrandedExactly(wait: int, s: State, es: seq<Event>, x: Instance, r: Reason, req: Request)
    requires Kept(wait, s) && Runs(wait, s, es)
    requires RequestHeld(s, x, r, req) && req.status == Pending && Attended(s, x)
    ensures GetsStranded(wait, s, es, x, r, req) <==> DisarmedFirst(wait, s, es, x)
    decreases |es|
  {
    if es != [] {
      var s' := Apply(wait, s, es[0]);
      StepStrandsExactly(wait, s, es[0], x, r, req);
      if RequestHeld(s', x, r, req) && Attended(s', x) {
        StepKeeps(wait, s, es[0]);
        StrandedExactly(wait, s', es[1..], x, r, req);
      }
    }
  }

  /** A timer of `owner` is in the table under the name of `x`, due by `until`; or a
      callback of `x` has started. */
  predicate WaitsUntil(s: State, x: Instance, owner: Instance, until: int) {
    || (x.name in s.timers && s.timers[x.name].owner == owner && s.timers[x.name].deadline <= until)
    || HasLiveCallback(s, x)
  }

  /** ... and otherwise a restart serves it, or it still waits no longer than
      before. */
  lemma {:induction false} ServedOrStillWaits(
      wait: int, s: State, es: seq<Event>, x: Instance, r: Reason, req: Request, owner: Instance, until: int)
    requires Kept(wait, s) && Runs(wait, s, es)
    requires RequestHeld(s, x, r, req) && req.status == Pending && WaitsUntil(s, x, owner, until)
    requires !DisarmedFirst(wait, s, es, x)
    ensures var s' := End(wait, s, es);
            || ServedSince(s', |s.restarts|, x, r, req)
            || (RequestHeld(s', x, r, req) && WaitsUntil(s', x, owner, until))
    decreases |es|
  {
    if es != [] {
      var s' := Apply(wait, s, es[0]);
      StepStrandsExactly(wait, s, es[0], x, r, req);
      LogStepGrows(wait, s, es[0]);
      if RequestHeld(s', x, r, req) {
        StepKeeps(wait, s, es[0]);
        if Completes(wait, s, es[0]).Some? {
          CompletionClears(wait, s, es[0], x);
        } else {
          OtherStepsAttend(wait, s, es[0], x);
        }
        ServedOrStillWaits(wait, s', es[1..], x, r, req, owner, until);
      } else {
        LogGrows(wait, s', es[1..]);
        assert ServedAt(End(wait, s, es), |s.restarts|, x, r, req);
      }
    }
  }

  /** A timer may go off under that name, or a callback of one of these may run. */
  predicate MayRestart(s: State, name: string, owners: set<Instance>) {
    || (name in s.timers && s.timers[name].owner in owners && Allowed(s, WentOff(name)))
    || exists i: nat :: i < |s.callbacks| && Allowed(s, Called(i))
                        && s.callbacks[i].owner in owners && !s.callbacks[i].overtaken
  }

  lemma WaitIsOver(wait: int, s: State, x: Instance, owner: Instance, until: int)
    requires SoundTimers(wait, s) && WaitsUntil(s, x, owner, until) && until <= s.now
    ensures MayRestart(s, x.name, {owner, x})
  {
    if x.name in s.timers && s.timers[x.name].owner == owner && s.timers[x.name].deadline <= until {
      assert SoundTimer(wait, s, x.name);
      if i :| 0 <= i < |s.callbacks| && IsLive(s, i, owner) {
        assert s.callbacks[i].owner in {owner, x} && Allowed(s, Called(i));
      }
    } else {
      var i :| 0 <= i < |s.callbacks| && IsLive(s, i, x);
      assert s.callbacks[i].owner in {owner, x} && Allowed(s, Called(i));
    }
  }

  /** No request waits longer than it should: take any request still pending after
      a trigger check, and any continuation.  The request is stranded exactly if the
      operator crashes or the requests of a namesake are completed first.  Otherwise
      it is served by a restart, or still waits, and once `wait` has passed since
      the check a timer or callback may act: its own, unless a namesake held the
      timer at the check. */
  lemma PendingIsServedInTime(wait: int, s: State, order: seq<Reason>, oldest: Option<Reason>, es: seq<Event>,
                              x: Instance, r: Reason, req: Request)
    requires Kept(wait, s) && Allowed(s, Checked(x, order, oldest))
    requires RequestHeld(Check(wait, s, x, order, oldest), x, r, req) && req.status == Pending
    requires Runs(wait, Check(wait, s, x, order, oldest), es)
    ensures var s1 := Check(wait, s, x, order, oldest);
            var s' := End(wait, s1, es);
            && (GetsStranded(wait, s1, es, x, r, req) <==> DisarmedFirst(wait, s1, es, x))
            && (|| DisarmedFirst(wait, s1, es, x)
                || ServedSince(s', |s.restarts|, x, r, req)
                || (&& RequestHeld(s', x, r, req)
                    && (s.now + wait <= s'.now ==>
                          MayRestart(s', x.name, {x, if x.name in s.timers then s.timers[x.name].owner else x}))))
  {
    var s1 := Check(wait, s, x, order, oldest);
    var s' := End(wait, s1, es);
    assert r in PendingReasons(s1.config[x]);
    CheckStrandsNothing(wait, s, x, order, oldest);
    StepKeeps(wait, s, Checked(x, order, oldest));
    LogStepGrows(wait, s, Checked(x, order, oldest));
    StrandedExactly(wait, s1, es, x, r, req);
    if !DisarmedFirst(wait, s1, es, x) {
      var owner := if x.name in s.timers then s.timers[x.name].owner else x;
      OwnerAfterCheck(wait, s, x, order, oldest);
      ServedOrStillWaits(wait, s1, es, x, r, req, owner, s.now + wait);
      RunKeeps(wait, s1, es);
      if WaitsUntil(s', x, owner, s.now + wait) && s.now + wait <= s'.now {
        WaitIsOver(wait, s', x, owner, s.now + wait);
        assert {owner, x} == {x, owner};
      }
    }
  }

  lemma OwnerAfterCheck(wait: int, s: State, x: Instance, order: seq<Reason>, oldest: Option<Reason>)
    requires Kept(wait, s) && Allowed(s, Checked(x, order, oldest))
    requires HasPending(Check(wait, s, x, order, oldest), x)
    ensures var owner := if x.name in s.timers then s.timers[x.name].owner else x;
            WaitsUntil(Check(wait, s, x, order, oldest), x, owner, s.now + wait)
  {
    CheckStrandsNothing(wait, s, x, order, oldest);
  }

  /** A check restarts at once exactly if some pending request is not known to have
      been made within `wait` of its last action: an unreadable stamp counts as due. */
  lemma CheckRestartsExactly(wait: int, s: State, x: Instance, order: seq<Reason>, oldest: Option<Reason>)
    requires Allowed(s, Checked(x, order, oldest)) && x in s.config
    ensures var s' := Check(wait, s, x, order, oldest);
            s'.restarts != s.restarts
            <==> exists r :: IsPending(s.config[x], r) && !MadeWithin(wait, s.config[x][r])
  {
    if r :| IsPending(s.config[x], r) && !MadeWithin(wait, s.config[x][r]) {
      assert Due(wait, s.config[x][r]);
    }
    if r :| r in s.config[x] && Due(wait, s.config[x][r]) {
      assert IsPending(s.config[x], r) && !MadeWithin(wait, s.config[x][r]);
    }
  }

  predicate MadeWithin(wait: int, req: Request) {
    match (req.requested, req.lastAction)
    case (At(requested), At(acted)) => requested * SECOND < acted * SECOND + wait
    case _ => false
  }

  predicate ReadableBefore(rs: Requests, r: Reason, now: int) {
    r in rs && rs[r].requested.At? && rs[r].requested.sec * SECOND < now
  }

  /** Requested no later than any other. */
  predicate AmongOldest(rs: Requests, r: Reason) {
    && r in rs && rs[r].requested.At?
    && forall q | q in rs && rs[q].requested.At? :: rs[r].requested.sec <= rs[q].requested.sec
  }

  /** When a check arms a timer: it is behind the end of the wait, counted from the
      last action, by as much as the check is behind the oldest request; and it takes
      all of the wait if the requests were only made this very moment. */
  lemma TimerIsSetExactly(wait: int, s: State, x: Instance, order: seq<Reason>, oldest: Option<Reason>)
    requires Kept(wait, s) && Allowed(s, Checked(x, order, oldest))
    requires HasPending(s, x) && !AnyDue(wait, s.config[x]) && x.name !in s.timers
    ensures var rs, s' := s.config[x], Check(wait, s, x, order, oldest);
            && x.name in s'.timers && s'.timers[x.name].owner == x && !s'.timers[x.name].off
            && var deadline := s'.timers[x.name].deadline;
               if exists r :: ReadableBefore(rs, r, s.now) then
                 exists r :: && AmongOldest(rs, r) && IsPending(rs, r) && rs[r].lastAction.At?
                             && deadline - (rs[r].lastAction.sec * SECOND + wait) == s.now - rs[r].requested.sec * SECOND
               else deadline == s.now + wait
  {
    var rs := s.config[x];
    if r :| ReadableBefore(rs, r, s.now) {
      assert oldest.Some?;
    }
    if oldest.Some? {
      var r := oldest.value;
      assert SoundRequest(rs[r], s.now);
      assert IsPending(rs, r) && !Due(wait, rs[r]);
      assert AmongOldest(rs, r) && ReadableBefore(rs, r, s.now);
    }
  }

  /** Both instances were restarted at time zero, and nothing is pending. */
  function Rested(r: Reason, xs: set<Instance>): State {
    State(0, map x | x in xs :: map[r := Request(Complete, Empty, At(0))], map[], [], [])
  }

  predicate Waits(s: State, x: Instance, r: Reason) {
    RequestHeld(s, x, r, Request(Pending, At(0), At(0)))
  }

  /** Asked to restart again within `wait`, an instance waits for a timer. */
  lemma AskedAgainWaits(wait: int, s: State, x: Instance, r: Reason)
    requires wait > 0 && s.now == 0 && x in s.config && s.config[x] == map[r := Request(Complete, Empty, At(0))]
    ensures Runs(wait, s, AskAndCheck(x, r))
    ensures var s' := End(wait, s, AskAndCheck(x, r));
            && s'.config == s.config[x := map[r := Request(Pending, At(0), At(0))]]
            && s'.now == 0 && s'.restarts == s.restarts && s'.callbacks == s.callbacks
            && s'.timers == if x.name in s.timers then s.timers else s.timers[x.name := Timer(x, wait, [r], false)]
  {
    var s1 := Apply(wait, s, Asked(x, r));
    assert s1.config[x] == map[r := Request(Pending, At(0), At(0))];
    assert PendingReasons(s1.config[x]) == {r};
    RunOfTwo(wait, s, Asked(x, r), Checked(x, [r], None));
  }

  /** A crash disarms: the request of `x` is left pending without a timer, until `x`
      is checked again. */
  lemma CrashDisarms(wait: int, x: Instance, r: Reason)
    requires wait > 0
    ensures var s := Rested(r, {x});
            && Fresh(s) && Runs(wait, s, AskAndCheck(x, r))
            && var s1 := End(wait, s, AskAndCheck(x, r));
               && Waits(s1, x, r) && x.name in s1.timers && Allowed(s1, Crashed)
               && var s2 := Apply(wait, s1, Crashed);
                  && Waits(s2, x, r) && !Attended(s2, x)
                  && Allowed(s2, Checked(x, [r], None))
                  && x.name in Apply(wait, s2, Checked(x, [r], None)).timers
  {
    var s := Rested(r, {x});
    AskedAgainWaits(wait, s, x, r);
    var s2 := Apply(wait, End(wait, s, AskAndCheck(x, r)), Crashed);
    assert PendingReasons(s2.config[x]) == {r};
  }

  function DisarmingRun(x: Instance, y: Instance, r: Reason): seq<Event> {
    AskAndCheck(x, r) + AskAndCheck(y, r)
  }

  /** A namesake disarms: `x` waits for its own timer when `y`, never restarted
      before, is asked to restart and does so at once.  The request of `x` is left
      pending without a timer. */
  lemma NamesakeDisarms(wait: int, x: Instance, y: Instance, r: Reason)
    requires wait > 0 && x != y && x.name == y.name
    ensures var s := Rested(r, {x});
            && Fresh(s) && Runs(wait, s, DisarmingRun(x, y, r))
            && var s' := End(wait, s, DisarmingRun(x, y, r));
               Waits(s', x, r) && s'.timers == map[] && |s'.restarts| == 1 && s'.restarts[0].instance == y
  {
    var s := Rested(r, {x});
    AskedAgainWaits(wait, s, x, r);
    var t := End(wait, s, AskAndCheck(x, r));
    NewReasonRestarts(wait, t, y, r);
    Concatenate(wait, s, AskAndCheck(x, r), AskAndCheck(y, r));
    var t1 := Apply(wait, t, Asked(y, r));
    RunOfTwo(wait, t, Asked(y, r), Checked(y, [r], None));
    assert PendingReasons(t1.config[y]) == {r};
    DueCheckRestarts(wait, t1, y, r, None);
  }

  function HoldingRun(wait: int, x: Instance, y: Instance, r: Reason): seq<Event> {
    AskAndCheck(y, r) + AskAndCheck(x, r) + [Ticked(wait), WentOff(x.name), Called(0)]
  }

  /** A namesake holds the timer: `y` waits for one already when `x` is checked, so
      `x` gets none of its own; when it goes off `y` is restarted, and the request
      of `x` is left pending without a timer. */
  lemma NamesakeHoldsTimer(wait: int, x: Instance, y: Instance, r: Reason)
    requires wait > 0 && x != y && x.name == y.name
    ensures var s := Rested(r, {x, y});
            && Fresh(s) && Runs(wait, s, AskAndCheck(y, r) + AskAndCheck(x, r)) && Runs(wait, s, HoldingRun(wait, x, y, r))
            && var s1 := End(wait, s, AskAndCheck(y, r) + AskAndCheck(x, r));
               && Waits(s1, x, r) && x.name in s1.timers && s1.timers[x.name].owner == y
               && var s' := End(wait, s, HoldingRun(wait, x, y, r));
                  Waits(s', x, r) && s'.timers == map[] && |s'.restarts| == 1 && s'.restarts[0].instance == y
  {
    var s := Rested(r, {x, y});
    AskedAgainWaits(wait, s, y, r);
    var t := End(wait, s, AskAndCheck(y, r));
    AskedAgainWaits(wait, t, x, r);
    Concatenate(wait, s, AskAndCheck(y, r), AskAndCheck(x, r));
    var u := End(wait, t, AskAndCheck(x, r));
    RunOfThree(wait, u, Ticked(wait), WentOff(x.name), Called(0));
    Concatenate(wait, s, AskAndCheck(y, r) + AskAndCheck(x, r), [Ticked(wait), WentOff(x.name), Called(0)]);
  }

  // ------------------------------------------------- what a restart reports

  /** What an observer notes: the reasons pending when a timer was armed, for each
      timer and then for each started callback, and for each restart those pending
      at the check behind it. */
  datatype Notes = Notes(armed: map<string, set<Reason>>, started: seq<set<Reason>>, behind: seq<set<Reason>>)

  predicate Matches(s: State, notes: Notes) {
    && notes.armed.Keys == s.timers.Keys && |notes.started| == |s.callbacks| && |notes.behind| == |s.restarts|
    && (forall name | name in s.timers :: Enumerates(s.timers[name].reasons, notes.armed[name]))
    && (forall i | 0 <= i < |s.callbacks| :: Enumerates(s.callbacks[i].reasons, notes.started[i]))
    && (forall i | 0 <= i < |s.restarts| :: Enumerates(s.restarts[i].reasons, notes.behind[i]))
  }

  function Note(wait: int, s: State, e: Event, notes: Notes): Notes
    requires Allowed(s, e) && Matches(s, notes)
  {
    match e
    case Checked(x, _, _) =>
      if x !in s.config then notes
      else
        var pending := PendingReasons(s.config[x]);
        if AnyDue(wait, s.config[x]) then notes.(armed := notes.armed - {x.name}, behind := notes.behind + [pending])
        else if pending != {} && x.name !in s.timers then notes.(armed := notes.armed[x.name := pending])
        else notes
    case WentOff(name) => notes.(started := notes.started + [notes.armed[name]])
    case Called(i) =>
      var owner := s.callbacks[i].owner;
      Notes(if owner in s.config then notes.armed - {owner.name} else notes.armed,
            Without(notes.started, i), notes.behind + [notes.started[i]])
    case Crashed => notes.(armed := map[], started := [])
    case _ => notes
  }

  lemma NoteMatches(wait: int, s: State, e: Event, notes: Notes)
    requires Allowed(s, e) && Matches(s, notes)
    ensures Matches(Apply(wait, s, e), Note(wait, s, e, notes))
  {
    if e.Called? {
      var s', notes' := Call(s, e.i), Note(wait, s, e, notes);
      forall k | 0 <= k < |s'.callbacks| ensures Enumerates(s'.callbacks[k].reasons, notes'.started[k]) {
        var was := if k < e.i then k else k + 1;
        assert Without(s.callbacks, e.i)[k] == s.callbacks[was] && notes'.started[k] == notes.started[was];
      }
    }
  }

  function NoteAll(wait: int, s: State, es: seq<Event>, notes: Notes): (n: Notes)
    requires Runs(wait, s, es) && Matches(s, notes)
    ensures Matches(End(wait, s, es), n)
    decreases |es|
  {
    if es == [] then notes
    else
      NoteMatches(wait, s, es[0], notes);
      NoteAll(wait, Apply(wait, s, es[0]), es[1..], Note(wait, s, es[0], notes))
  }

  /** Over any run, each restart, direct or by a callback, however late, reports
      every reason that was pending at the check behind it, once each. */
  lemma RestartsReportAllPending(wait: int, s: State, es: seq<Event>, i: nat)
    requires Fresh(s) && Runs(wait, s, es) && i < |End(wait, s, es).restarts|
    ensures Matches(s, Notes(map[], [], []))
    ensures var notes := NoteAll(wait, s, es, Notes(map[], [], []));
            && i < |notes.behind| && Enumerates(End(wait, s, es).restarts[i].reasons, notes.behind[i])
            && |End(wait, s, es).restarts[i].reasons| == |notes.behind[i]|
  {
    var notes := NoteAll(wait, s, es, Notes(map[], [], []));
    EnumerationLength(End(wait, s, es).restarts[i].reasons, notes.behind[i]);
  }

  lemma {:induction false} EnumerationLength(order: seq<Reason>, elements: set<Reason>)
    requires Enumerates(order, elements)
    ensures |order| == |elements|
  {
    if order == [] {
      assert elements == {};
    } else {
      assert forall e :: e in order[1..] <==> e in elements - {order[0]} by {
        forall e | e in elements - {order[0]} ensures e in order[1..] {
          var i :| 0 <= i < |order| && order[i] == e;
          assert order[1..][i - 1] == e;
        }
      }
      EnumerationLength(order[1..], elements - {order[0]});
    }
  }

  // ------------------------------------------------- what the operator writes

  /** The only shapes the operator itself writes. */
  predicate TidyRequest(req: Request) {
    && !req.lastAction.Garbled?
    && match req.status
       case Pending => req.requested.At?
       case Complete => req.requested == Empty && req.lastAction.At?
       case NoStatus => false
  }

  predicate Tidy(s: State) {
    forall x, r | x in s.config && r in s.config[x] :: TidyRequest(s.config[x][r])
  }

  lemma {:induction false} TidyRun(wait: int, s: State, es: seq<Event>)
    requires Tidy(s) && Runs(wait, s, es)
    ensures Tidy(End(wait, s, es))
    decreases |es|
  {
    if es != [] {
      TidyRun(wait, Apply(wait, s, es[0]), es[1..]);
    }
  }

  predicate TidyLog(s: State) {
    forall i, r | 0 <= i < |s.restarts| && r in s.restarts[i].served ::
      TidyRequest(s.restarts[i].served[r]) && s.restarts[i].served[r].status == Pending
  }

  lemma {:induction false} TidyLogRun(wait: int, s: State, es: seq<Event>)
    requires Tidy(s) && TidyLog(s) && Runs(wait, s, es)
    ensures TidyLog(End(wait, s, es))
    decreases |es|
  {
    if es != [] {
      var s' := Apply(wait, s, es[0]);
      assert Tidy(s') && TidyLog(s');
      TidyLogRun(wait, s', es[1..]);
    }
  }

  /** A request that was never acted on, or at least `wait` ago. */
  predicate NeverOrLongAgo(wait: int, req: Request, t: int) {
    req.lastAction == Empty || (req.lastAction.At? && req.lastAction.sec * SECOND + wait <= t)
  }

  /** Starting from a config the operator wrote itself, each restart that is not
      late completes a request that was never acted on, or at least `wait` ago. */
  lemma TidyRestartJustified(wait: int, s: State, es: seq<Event>, i: nat)
    requires Fresh(s) && Tidy(s) && Runs(wait, s, es) && i < |End(wait, s, es).restarts|
    requires !End(wait, s, es).restarts[i].late
    ensures var e := End(wait, s, es).restarts[i];
            exists r :: r in e.served && e.served[r].status == Pending && NeverOrLongAgo(wait, e.served[r], e.at)
  {
    EveryRestartJustified(wait, s, es, i);
    TidyLogRun(wait, s, es);
    var e := End(wait, s, es).restarts[i];
    var r :| JustifiedBy(wait, e, r);
    assert TidyRequest(e.served[r]);
  }
}
