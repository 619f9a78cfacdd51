/** What every run of the restart manager keeps: each restart is justified, the
    rate limit holds wherever it can, and no request is stranded or dropped. */
module RestartProperties {
  import opened Common
  import opened RestartModel

  /** A request is ripe at time `t` when its last action is absent, unparseable
      or at least `wait` old, or when its own request stamp is unreadable. */
  predicate Ripe(wait: int, req: Request, t: int) {
    req.lastAction.At? && req.requested.At? ==> req.lastAction.sec * SECOND + wait <= t
  }

  /** Stamps lie in the past; only pending requests carry a request stamp, and
      it is no earlier than their last action. */
  predicate SoundRequest(req: Request, now: int) {
    && (req.requested.At? ==> req.status == Pending && req.requested.sec * SECOND <= now)
    && (req.lastAction.At? ==> req.lastAction.sec * SECOND <= now)
    && (req.requested.At? && req.lastAction.At? ==> req.lastAction.sec <= req.requested.sec)
  }

  predicate SoundConfig(s: State) {
    forall x, r | x in s.config && r in s.config[x] :: SoundRequest(s.config[x][r], s.now)
  }

  /** A pending request that is ripe at that moment. */
  predicate Backs(wait: int, rs: Requests, r: Reason, deadline: int) {
    IsPending(rs, r) && Ripe(wait, rs[r], deadline)
  }

  predicate SomeBacks(wait: int, rs: Requests, deadline: int) {
    exists r :: Backs(wait, rs, r, deadline)
  }

  /** Pending requests of the owner are behind a timer, or behind its callback. */
  predicate IsBacked(wait: int, s: State, owner: Instance, deadline: int, reasons: seq<Reason>) {
    && owner in s.config
    && SomeBacks(wait, s.config[owner], deadline)
    && reasons != []
    && forall r | r in reasons :: IsPending(s.config[owner], r)
  }

  /** A callback of `x` that has not been overtaken. */
  predicate IsLive(s: State, i: int, x: Instance) {
    0 <= i < |s.callbacks| && s.callbacks[i].owner == x && !s.callbacks[i].overtaken
  }

  predicate HasLiveCallback(s: State, x: Instance) {
    exists i :: 0 <= i < |s.callbacks| && IsLive(s, i, x)
  }

  /** A timer in the table belongs to an instance with a pending request that will
      be ripe when the timer goes off, which is at most `wait` from now; once it
      has gone off, its callback is on its way. */
  predicate SoundTimer(wait: int, s: State, name: string)
    requires name in s.timers
  {
    var t := s.timers[name];
    && t.owner.name == name
    && IsBacked(wait, s, t.owner, t.deadline, t.reasons)
    && t.deadline <= s.now + wait
    && (t.off ==> HasLiveCallback(s, t.owner))
  }

  predicate SoundTimers(wait: int, s: State) {
    forall name | name in s.timers :: SoundTimer(wait, s, name)
  }

  /** Some restart of `x` was logged at `deadline` or later. */
  predicate RestartedSince(s: State, x: Instance, deadline: int) {
    exists i :: 0 <= i < |s.restarts| && s.restarts[i].instance == x && s.restarts[i].at >= deadline
  }

  /** A callback is due, and backed unless it was overtaken by a restart. */
  predicate SoundCallback(wait: int, s: State, c: Callback) {
    && c.deadline <= s.now
    && c.owner in s.config
    && (!c.overtaken ==> IsBacked(wait, s, c.owner, c.deadline, c.reasons))
    && (c.overtaken ==> RestartedSince(s, c.owner, c.deadline))
  }

  predicate SoundCallbacks(wait: int, s: State) {
    forall i | 0 <= i < |s.callbacks| :: SoundCallback(wait, s, s.callbacks[i])
  }

  predicate JustifiedBy(wait: int, e: Restart, r: Reason) {
    r in e.served && Ripe(wait, e.served[r], e.at)
  }

  /** A restart completes at least one request that was ripe at that moment,
      and reports only requests it completes. */
  predicate Justified(wait: int, e: Restart) {
    && (exists r :: JustifiedBy(wait, e, r))
    && e.reasons != []
    && forall r | r in e.reasons :: r in e.served
  }

  /** Restart number `i` repeats an earlier one of the same instance. */
  predicate Repeats(s: State, i: int)
    requires 0 <= i < |s.restarts|
  {
    exists j :: 0 <= j < i && s.restarts[j].instance == s.restarts[i].instance
  }

  /** Each restart is justified or late; a late one repeats an earlier one. */
  predicate JustifiedLog(wait: int, s: State) {
    && (forall i | 0 <= i < |s.restarts| :: s.restarts[i].at <= s.now)
    && (forall i | 0 <= i < |s.restarts| :: if s.restarts[i].late then Repeats(s, i) else Justified(wait, s.restarts[i]))
    && (forall i, j | 0 <= i < j < |s.restarts| :: s.restarts[i].at <= s.restarts[j].at)
  }

  /** The request was last acted on at time `t` or later, and if it is pending
      its request stamp is readable. */
  predicate ActedSince(req: Request, t: int) {
    && req.lastAction.At? && t - SECOND < req.lastAction.sec * SECOND
    && (req.status == Pending ==> req.requested.At?)
  }

  predicate Remembers(s: State, e: Restart, r: Reason) {
    e.instance in s.config && r in s.config[e.instance] && ActedSince(s.config[e.instance][r], e.at)
  }

  /** The config remembers every logged restart, and so does every later restart
      that serves the same reason. */
  predicate RememberedLog(s: State) {
    && (forall i, r | 0 <= i < |s.restarts| && r in s.restarts[i].served :: Remembers(s, s.restarts[i], r))
    && (forall i, j, r | 0 <= i < j < |s.restarts| && s.restarts[i].instance == s.restarts[j].instance
                         && r in s.restarts[i].served && r in s.restarts[j].served ::
          ActedSince(s.restarts[j].served[r], s.restarts[i].at))
  }

  predicate Kept(wait: int, s: State) {
    SoundConfig(s) && SoundTimers(wait, s) && SoundCallbacks(wait, s) && JustifiedLog(wait, s) && RememberedLog(s)
  }

  /** A manager that has just started on some persisted config. */
  predicate Fresh(s: State) {
    SoundConfig(s) && s.timers == map[] && s.callbacks == [] && s.restarts == []
  }

  // ------------------------------------------------------------------ steps

  lemma FlooredStamp(now: int)
    ensures Format(now).sec * SECOND <= now < Format(now).sec * SECOND + SECOND
  {
  }

  /** `req'` has been acted on no earlier than `req`, and if newly pending it
      carries a readable stamp. */
  predicate NoOlder(req: Request, req': Request) {
    && (req.lastAction.At? ==> req'.lastAction.At? && req.lastAction.sec <= req'.lastAction.sec)
    && (req'.status == Pending ==> req'.requested.At? || req' == req)
  }

  predicate NoOlderConfig(s: State, s': State) {
    forall x, r | x in s.config && r in s.config[x] ::
      x in s'.config && r in s'.config[x] && NoOlder(s.config[x][r], s'.config[x][r])
  }

  lemma RepeatsStay(s: State, s': State, i: int)
    requires 0 <= i < |s.restarts| && s.restarts <= s'.restarts
    ensures Repeats(s', i) <==> Repeats(s, i)
  {
    if j :| 0 <= j < i && s.restarts[j].instance == s.restarts[i].instance {
      assert s'.restarts[j].instance == s'.restarts[i].instance;
    }
    if j :| 0 <= j < i && s'.restarts[j].instance == s'.restarts[i].instance {
      assert s.restarts[j].instance == s.restarts[i].instance;
    }
  }

  lemma JustificationStays(wait: int, s: State, s': State)
    requires JustifiedLog(wait, s) && s'.restarts == s.restarts && s.now <= s'.now
    ensures JustifiedLog(wait, s')
  {
    forall i | 0 <= i < |s'.restarts| && s'.restarts[i].late ensures Repeats(s', i) {
      RepeatsStay(s, s', i);
    }
  }

  /** What the log says stays true while requests only get newer. */
  lemma LogCarriesOver(wait: int, s: State, s': State)
    requires JustifiedLog(wait, s) && RememberedLog(s)
    requires s'.restarts == s.restarts && s.now <= s'.now && NoOlderConfig(s, s')
    ensures JustifiedLog(wait, s') && RememberedLog(s')
  {
    JustificationStays(wait, s, s');
    forall i, q | 0 <= i < |s'.restarts| && q in s'.restarts[i].served ensures Remembers(s', s'.restarts[i], q) {
      assert Remembers(s, s.restarts[i], q);
      assert NoOlder(s.config[s.restarts[i].instance][q], s'.config[s.restarts[i].instance][q]);
    }
  }

  /** What is behind a timer or callback stays while requests that are pending
      stay as they are. */
  lemma StaysBacked(wait: int, s: State, s': State, owner: Instance, deadline: int, reasons: seq<Reason>)
    requires IsBacked(wait, s, owner, deadline, reasons) && KeepsPending(s, s', owner)
    ensures IsBacked(wait, s', owner, deadline, reasons)
  {
    var w :| Backs(wait, s.config[owner], w, deadline);
    assert Backs(wait, s'.config[owner], w, deadline);
  }

  predicate KeepsPending(s: State, s': State, x: Instance) {
    x in s.config ==>
      && x in s'.config
      && forall r | IsPending(s.config[x], r) :: r in s'.config[x] && s'.config[x][r] == s.config[x][r]
  }

  predicate KeepsCallback(s: State, s': State, x: Instance) {
    HasLiveCallback(s, x) ==> HasLiveCallback(s', x)
  }

  lemma TimerStaysSound(wait: int, s: State, s': State, name: string)
    requires name in s.timers && SoundTimer(wait, s, name) && s.now <= s'.now
    requires name in s'.timers && s'.timers[name] == s.timers[name]
    requires KeepsPending(s, s', s.timers[name].owner) && KeepsCallback(s, s', s.timers[name].owner)
    ensures SoundTimer(wait, s', name)
  {
    var t := s.timers[name];
    StaysBacked(wait, s, s', t.owner, t.deadline, t.reasons);
  }

  lemma CallbackStaysSound(wait: int, s: State, s': State, c: Callback)
    requires SoundCallback(wait, s, c) && s.now <= s'.now && s.restarts <= s'.restarts
    requires c.owner in s'.config && (!c.overtaken ==> KeepsPending(s, s', c.owner))
    ensures SoundCallback(wait, s', c)
  {
    if c.overtaken {
      var i :| 0 <= i < |s.restarts| && s.restarts[i].instance == c.owner && s.restarts[i].at >= c.deadline;
      assert s'.restarts[i] == s.restarts[i];
    } else {
      StaysBacked(wait, s, s', c.owner, c.deadline, c.reasons);
    }
  }

  /** A step that adds no restart, lets time pass, and neither starts nor drops
      callbacks keeps everything about the timers it keeps, and about the log. */
  lemma QuietKeeps(wait: int, s: State, s': State)
    requires Kept(wait, s) && SoundConfig(s')
    requires s.now <= s'.now && s'.callbacks == s.callbacks && s'.restarts == s.restarts
    requires forall name | name in s'.timers :: name in s.timers && s'.timers[name] == s.timers[name]
    requires NoOlderConfig(s, s') && forall x :: KeepsPending(s, s', x)
    ensures Kept(wait, s')
  {
    forall name | name in s'.timers ensures SoundTimer(wait, s', name) {
      assert SoundTimer(wait, s, name);
      SameCallbacks(s, s', s.timers[name].owner);
      TimerStaysSound(wait, s, s', name);
    }
    forall i | 0 <= i < |s'.callbacks| ensures SoundCallback(wait, s', s'.callbacks[i]) {
      assert KeepsPending(s, s', s.callbacks[i].owner);
      CallbackStaysSound(wait, s, s', s.callbacks[i]);
    }
    LogCarriesOver(wait, s, s');
  }

  lemma SameCallbacks(s: State, s': State, x: Instance)
    requires s'.callbacks == s.callbacks
    ensures HasLiveCallback(s', x) <==> HasLiveCallback(s, x)
  {
    if i :| IsLive(s, i, x) {
      assert IsLive(s', i, x);
    }
    if i :| IsLive(s', i, x) {
      assert IsLive(s, i, x);
    }
  }

  lemma AskKeeps(wait: int, s: State, x: Instance, r: Reason)
    requires Kept(wait, s)
    ensures Kept(wait, Ask(s, x, r))
  {
    FlooredStamp(s.now);
    QuietKeeps(wait, s, Ask(s, x, r));
  }

  lemma TickKeeps(wait: int, s: State, to: int)
    requires Kept(wait, s) && s.now <= to
    ensures Kept(wait, s.(now := to))
  {
    QuietKeeps(wait, s, s.(now := to));
  }

  lemma CrashKeeps(wait: int, s: State)
    requires Kept(wait, s)
    ensures Kept(wait, s.(timers := map[], callbacks := []))
  {
    LogCarriesOver(wait, s, s.(timers := map[], callbacks := []));
  }

  lemma ExpireKeeps(wait: int, s: State, name: string)
    requires Kept(wait, s) && Allowed(s, WentOff(name))
    ensures Kept(wait, Expire(s, name))
  {
    var s' := Expire(s, name);
    var n := |s.callbacks|;
    assert SoundTimer(wait, s, name);
    var t := s.timers[name];
    StaysBacked(wait, s, s', t.owner, t.deadline, t.reasons);
    assert IsLive(s', n, t.owner);
    forall m | m in s'.timers && m != name ensures SoundTimer(wait, s', m) {
      assert SoundTimer(wait, s, m);
      if i :| IsLive(s, i, s.timers[m].owner) {
        assert IsLive(s', i, s.timers[m].owner);
      }
      TimerStaysSound(wait, s, s', m);
    }
    forall i | 0 <= i < |s'.callbacks| ensures SoundCallback(wait, s', s'.callbacks[i]) {
      if i < n {
        CallbackStaysSound(wait, s, s', s.callbacks[i]);
      }
    }
    LogCarriesOver(wait, s, s');
  }

  // ------------------------------------------------------------- restarting

  /** All is sound but for the timer of that name, which is about to be stopped. */
  predicate KeptBut(wait: int, s: State, name: string) {
    && SoundConfig(s) && SoundCallbacks(wait, s) && JustifiedLog(wait, s) && RememberedLog(s)
    && forall m | m in s.timers && m != name :: SoundTimer(wait, s, m)
  }

  /** A restart that is late repeats one; any other has pending reasons, and a
      ripe request. */
  predicate MayDeploy(wait: int, s: State, x: Instance, reasons: seq<Reason>, late: bool) {
    && x in s.config
    && if late then exists j :: 0 <= j < |s.restarts| && s.restarts[j].instance == x
       else IsBacked(wait, s, x, s.now, reasons)
  }

  lemma ClearedIsNoOlder(s: State, x: Instance)
    requires SoundConfig(s)
    ensures SoundConfig(Clear(s, x)) && NoOlderConfig(s, Clear(s, x))
  {
    FlooredStamp(s.now);
    if x in s.config {
      forall r | r in s.config[x] ensures NoOlder(s.config[x][r], Clear(s, x).config[x][r]) {
        assert SoundRequest(s.config[x][r], s.now);
      }
    }
  }

  lemma DeployedTimers(wait: int, s: State, x: Instance, reasons: seq<Reason>, late: bool)
    requires KeptBut(wait, s, x.name) && x in s.config
    ensures SoundTimers(wait, Deploy(s, x, reasons, late))
  {
    var s' := Deploy(s, x, reasons, late);
    forall name | name in s'.timers ensures SoundTimer(wait, s', name) {
      assert SoundTimer(wait, s, name);
      var owner := s.timers[name].owner;
      if i :| IsLive(s, i, owner) {
        assert IsLive(s', i, owner);
      }
      TimerStaysSound(wait, s, s', name);
    }
  }

  lemma DeployedCallbacks(wait: int, s: State, x: Instance, reasons: seq<Reason>, late: bool)
    requires SoundCallbacks(wait, s) && x in s.config
    ensures SoundCallbacks(wait, Deploy(s, x, reasons, late))
  {
    var s' := Deploy(s, x, reasons, late);
    var n := |s.restarts|;
    forall i | 0 <= i < |s'.callbacks| ensures SoundCallback(wait, s', s'.callbacks[i]) {
      var c := s.callbacks[i];
      assert SoundCallback(wait, s, c);
      if c.owner == x {
        assert s'.restarts[n].instance == x && s'.restarts[n].at >= c.deadline;
      } else {
        CallbackStaysSound(wait, s, s', c);
      }
    }
  }

  /** The new log entry is justified, or late and not the first ... */
  lemma DeployJustified(wait: int, s: State, x: Instance, reasons: seq<Reason>, late: bool)
    requires JustifiedLog(wait, s) && MayDeploy(wait, s, x, reasons, late)
    ensures JustifiedLog(wait, Deploy(s, x, reasons, late))
  {
    var s' := Deploy(s, x, reasons, late);
    var n := |s.restarts|;
    forall i | 0 <= i < |s'.restarts|
      ensures if s'.restarts[i].late then Repeats(s', i) else Justified(wait, s'.restarts[i])
    {
      if i < n {
        RepeatsStay(s, s', i);
      } else if late {
        var j :| 0 <= j < n && s.restarts[j].instance == x;
        assert s'.restarts[j].instance == s'.restarts[n].instance;
      } else {
        var why :| Backs(wait, s.config[x], why, s.now);
        assert JustifiedBy(wait, s'.restarts[n], why);
      }
    }
  }

  /** ... and remembered. */
  lemma DeployRemembered(wait: int, s: State, x: Instance, reasons: seq<Reason>, late: bool)
    requires JustifiedLog(wait, s) && RememberedLog(s) && SoundConfig(s) && x in s.config
    ensures RememberedLog(Deploy(s, x, reasons, late))
  {
    FlooredStamp(s.now);
    ClearedIsNoOlder(s, x);
    var c, s' := Clear(s, x), Deploy(s, x, reasons, late);
    LogCarriesOver(wait, s, c);
    var n := |s.restarts|;
    forall i, q | 0 <= i < |s'.restarts| && q in s'.restarts[i].served ensures Remembers(s', s'.restarts[i], q) {
      if i < n {
        assert Remembers(c, c.restarts[i], q);
      }
    }
    forall i, q | 0 <= i < n && s'.restarts[i].instance == x && q in s'.restarts[i].served && q in s'.restarts[n].served
      ensures ActedSince(s'.restarts[n].served[q], s'.restarts[i].at)
    {
      assert Remembers(s, s.restarts[i], q);
    }
  }

  lemma DeployKeeps(wait: int, s: State, x: Instance, reasons: seq<Reason>, late: bool)
    requires KeptBut(wait, s, x.name) && MayDeploy(wait, s, x, reasons, late)
    ensures Kept(wait, Deploy(s, x, reasons, late))
  {
    ClearedIsNoOlder(s, x);
    DeployedTimers(wait, s, x, reasons, late);
    DeployedCallbacks(wait, s, x, reasons, late);
    DeployJustified(wait, s, x, reasons, late);
    DeployRemembered(wait, s, x, reasons, late);
  }

  /** The state in which a callback runs: it is no longer on its way. */
  function Taken(s: State, i: nat): State
    requires i < |s.callbacks|
  {
    s.(callbacks := Without(s.callbacks, i))
  }

  lemma TakenCallbacks(wait: int, s: State, i: nat)
    requires SoundCallbacks(wait, s) && i < |s.callbacks|
    ensures SoundCallbacks(wait, Taken(s, i))
  {
    var s1 := Taken(s, i);
    forall k | 0 <= k < |s1.callbacks| ensures SoundCallback(wait, s1, s1.callbacks[k]) {
      assert s1.callbacks[k] == s.callbacks[if k < i then k else k + 1];
      CallbackStaysSound(wait, s, s1, s1.callbacks[k]);
    }
  }

  lemma TakenTimers(wait: int, s: State, i: nat, name: string)
    requires SoundTimers(wait, s) && i < |s.callbacks| && name in s.timers && name != s.callbacks[i].owner.name
    ensures SoundTimer(wait, Taken(s, i), name)
  {
    assert SoundTimer(wait, s, name);
    if k :| 0 <= k < |s.callbacks| && IsLive(s, k, s.timers[name].owner) {
      assert IsLive(Taken(s, i), if k < i then k else k - 1, s.timers[name].owner);
    }
    TimerStaysSound(wait, s, Taken(s, i), name);
  }

  lemma CallKeeps(wait: int, s: State, i: nat)
    requires Kept(wait, s) && Allowed(s, Called(i))
    ensures Kept(wait, Call(s, i))
  {
    var c, s1 := s.callbacks[i], Taken(s, i);
    forall name | name in s1.timers && name != c.owner.name ensures SoundTimer(wait, s1, name) {
      TakenTimers(wait, s, i, name);
    }
    TakenCallbacks(wait, s, i);
    LogCarriesOver(wait, s, s1);
    MayCall(wait, s, i);
    DeployKeeps(wait, s1, c.owner, c.reasons, c.overtaken);
  }

  lemma MayCall(wait: int, s: State, i: nat)
    requires SoundCallbacks(wait, s) && i < |s.callbacks|
    ensures MayDeploy(wait, Taken(s, i), s.callbacks[i].owner, s.callbacks[i].reasons, s.callbacks[i].overtaken)
  {
    var c := s.callbacks[i];
    assert SoundCallback(wait, s, c);
    if !c.overtaken {
      RipeLater(wait, s, c.owner, c.deadline, c.reasons);
      StaysBacked(wait, s, Taken(s, i), c.owner, s.now, c.reasons);
    }
  }

  lemma RipeLater(wait: int, s: State, x: Instance, deadline: int, reasons: seq<Reason>)
    requires IsBacked(wait, s, x, deadline, reasons) && deadline <= s.now
    ensures IsBacked(wait, s, x, s.now, reasons)
  {
    var w :| Backs(wait, s.config[x], w, deadline);
    assert Backs(wait, s.config[x], w, s.now);
  }

  /** When no pending request is due, the timer is armed for a moment in
      (now, now + wait] at which some pending request is ripe. */
  lemma TimerDurationBounds(wait: int, rs: Requests, now: int, choice: Option<Reason>)
    requires forall r | r in rs :: SoundRequest(rs[r], now)
    requires !AnyDue(wait, rs) && PendingReasons(rs) != {} && IsOldest(rs, now, choice)
    ensures TimerDuration(wait, rs, choice) <= wait
    ensures wait > 0 ==> 0 < TimerDuration(wait, rs, choice)
    ensures SomeBacks(wait, rs, now + TimerDuration(wait, rs, choice))
  {
    var p :| p in PendingReasons(rs);
    assert !Due(wait, rs[p]);
    match choice
    case Some(c) =>
      assert !Due(wait, rs[c]);
      assert Backs(wait, rs, c, now + TimerDuration(wait, rs, choice));
    case None =>
      assert Backs(wait, rs, p, now + wait);
  }

  lemma ArmKeeps(wait: int, s: State, x: Instance, order: seq<Reason>, choice: Option<Reason>)
    requires Kept(wait, s) && Allowed(s, Checked(x, order, choice))
    requires x in s.config && !AnyDue(wait, s.config[x]) && PendingReasons(s.config[x]) != {}
    ensures Kept(wait, Arm(wait, s, x, order, choice))
  {
    var rs := s.config[x];
    var s' := Arm(wait, s, x, order, choice);
    if x.name !in s.timers {
      TimerDurationBounds(wait, rs, s.now, choice);
      var w :| Backs(wait, rs, w, s'.timers[x.name].deadline);
      assert w in PendingReasons(rs) && w in order;
      assert IsBacked(wait, s', x, s'.timers[x.name].deadline, order);
      forall name | name in s'.timers && name != x.name ensures SoundTimer(wait, s', name) {
        assert SoundTimer(wait, s, name);
        SameCallbacks(s, s', s.timers[name].owner);
        TimerStaysSound(wait, s, s', name);
      }
      forall i | 0 <= i < |s'.callbacks| ensures SoundCallback(wait, s', s'.callbacks[i]) {
        CallbackStaysSound(wait, s, s', s.callbacks[i]);
      }
      LogCarriesOver(wait, s, s');
    }
  }

  lemma CheckKeeps(wait: int, s: State, x: Instance, order: seq<Reason>, choice: Option<Reason>)
    requires Kept(wait, s) && Allowed(s, Checked(x, order, choice))
    ensures Kept(wait, Check(wait, s, x, order, choice))
  {
    if x in s.config {
      var rs := s.config[x];
      if AnyDue(wait, rs) {
        var why :| why in rs && Due(wait, rs[why]);
        assert why in PendingReasons(rs) && why in order;
        assert SoundRequest(rs[why], s.now);
        assert Backs(wait, rs, why, s.now);
        DeployKeeps(wait, s, x, order, false);
      } else if PendingReasons(rs) != {} {
        ArmKeeps(wait, s, x, order, choice);
      }
    }
  }

  /** Every step keeps the invariant. */
  lemma StepKeeps(wait: int, s: State, e: Event)
    requires Kept(wait, s) && Allowed(s, e)
    ensures Kept(wait, Apply(wait, s, e))
  {
    match e
    case Asked(x, r) => AskKeeps(wait, s, x, r);
    case Checked(x, order, oldest) => CheckKeeps(wait, s, x, order, oldest);
    case WentOff(name) => ExpireKeeps(wait, s, name);
    case Called(i) => CallKeeps(wait, s, i);
    case Ticked(to) => TickKeeps(wait, s, to);
    case Crashed => CrashKeeps(wait, s);
  }

  /** ... and so does every run. */
  lemma {:induction false} RunKeeps(wait: int, s: State, es: seq<Event>)
    requires Kept(wait, s) && Runs(wait, s, es)
    ensures Kept(wait, End(wait, s, es))
    decreases |es|
  {
    if es != [] {
      StepKeeps(wait, s, es[0]);
      RunKeeps(wait, Apply(wait, s, es[0]), es[1..]);
    }
  }
}
