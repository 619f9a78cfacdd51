/** The restart manager in the form it has in the operator: an object whose
    methods rewrite the persisted requests and the timer table in place.  Every
    method is one step of the machine in RestartModel. */
module RestartManager {
  import opened Common
  import opened RestartModel

  /** All but the requests in `left` have been looked at. */
  ghost predicate Collected(wait: int, rs: Requests, left: set<Reason>, reasonList: seq<Reason>, trigger: bool) {
    && left <= rs.Keys
    && Enumerates(reasonList, PendingReasons(rs) - left)
    && (trigger <==> exists r :: r in rs && r !in left && Due(wait, rs[r]))
  }

  lemma CollectedOneMore(wait: int, rs: Requests, left: set<Reason>, reasonList: seq<Reason>, trigger: bool, reason: Reason)
    requires Collected(wait, rs, left, reasonList, trigger) && reason in left
    ensures Collected(wait, rs, left - {reason},
                      if rs[reason].status == Pending then reasonList + [reason] else reasonList,
                      trigger || Due(wait, rs[reason]))
  {
    assert reason !in reasonList;
    if rs[reason].status == Pending {
      assert PendingReasons(rs) - (left - {reason}) == PendingReasons(rs) - left + {reason};
    } else {
      assert PendingReasons(rs) - (left - {reason}) == PendingReasons(rs) - left;
    }
  }

  lemma CollectedAll(wait: int, rs: Requests, reasonList: seq<Reason>, trigger: bool)
    requires Collected(wait, rs, {}, reasonList, trigger)
    ensures Enumerates(reasonList, PendingReasons(rs)) && (trigger <==> AnyDue(wait, rs))
  {
    assert PendingReasons(rs) - {} == PendingReasons(rs);
  }

  /** All pending requests but those in `left` have been completed. */
  ghost predicate Completed(was: Requests, rs: Requests, left: set<Reason>, now: int) {
    && left <= rs.Keys == was.Keys
    && forall r | r in rs :: rs[r] == if r in left then was[r] else CompletedRequest(was[r], now)
  }

  lemma CompletedAll(was: Requests, rs: Requests, now: int)
    requires Completed(was, rs, {}, now)
    ensures rs == CompletedRequests(was, now)
  {
  }

  /** A check restarts exactly when some request is due, and then serves them all. */
  lemma CheckServesAllWhenDue(wait: int, s: State, x: Instance, order: seq<Reason>, oldest: Option<Reason>)
    requires Allowed(s, Checked(x, order, oldest))
    ensures var s' := Check(wait, s, x, order, oldest);
            if x in s.config && AnyDue(wait, s.config[x])
            then && s'.restarts == s.restarts + [Restart(x, s.now, order, Served(s, x), false)]
                 && PendingReasons(s'.config[x]) == {}
            else s'.restarts == s.restarts
  {
  }

  class Manager {
    const waitTime: int
    var now: int
    var config: map<Instance, Requests>
    var timers: map<string, Timer>
    var callbacks: seq<Callback>
    var restarts: seq<Restart>

    ghost function Abstract(): State
      reads this
    {
      State(now, config, timers, callbacks, restarts)
    }

    constructor (waitTime: int, now: int, persisted: map<Instance, Requests>)
      ensures this.waitTime == waitTime && Abstract() == State(now, persisted, map[], [], [])
    {
      this.waitTime := waitTime;
      this.now := now;
      config := persisted;
      timers := map[];
      callbacks := [];
      restarts := [];
    }

    /** Marks a request for `reason` pending and stamps it, unless it already is. */
    method UpdateConfigFor(x: Instance, reason: Reason)
      modifies this`config
      ensures Abstract() == Apply(waitTime, old(Abstract()), Asked(x, reason))
    {
      var cfg := config;
      if x !in cfg {
        cfg := cfg[x := map[]];
      }
      var requests := UpdateRestartRequest(cfg[x], reason);
      config := cfg[x := requests];
    }

    method UpdateRestartRequest(requests: Requests, reason: Reason) returns (updated: Requests)
      ensures updated == requests[reason := AskedRequest(requests, reason, now)]
    {
      updated := requests;
      if reason !in updated {
        updated := updated[reason := Request(NoStatus, Empty, Empty)];
      }
      var req := updated[reason];
      if req.status != Pending {
        req := req.(status := Pending);
        req := req.(requested := Format(now));
        updated := updated[reason := req];
      }
    }

    /** Restarts the deployment if some pending request is due, otherwise makes
        sure a timer is running if anything is pending at all. */
    method TriggerIfNeeded(x: Instance) returns (ghost e: Event)
      modifies this`config, this`timers, this`callbacks, this`restarts
      ensures e.Checked? && e.x == x && Allowed(old(Abstract()), e)
      ensures Abstract() == Apply(waitTime, old(Abstract()), e)
      ensures if x in old(config) && AnyDue(waitTime, old(config)[x])
              then && restarts == old(restarts) + [Restart(x, now, e.order, Served(old(Abstract()), x), false)]
                   && x in config && PendingReasons(config[x]) == {}
              else restarts == old(restarts)
    {
      if x !in config {
        e := Checked(x, [], None);
        return;
      }
      var requests := config[x];
      var trigger := false;
      var reasonList: seq<Reason> := [];
      var left := requests.Keys;
      while left != {}
        invariant Collected(waitTime, requests, left, reasonList, trigger)
        modifies {}
        decreases |left|
      {
        var reason :| reason in left;
        CollectedOneMore(waitTime, requests, left, reasonList, trigger, reason);
        var req := requests[reason];
        left := left - {reason};
        if req.status == Pending {
          reasonList := reasonList + [reason];
          var due := TriggerRestart(req);
          if due {
            trigger := true;
          }
        }
      }
      CollectedAll(waitTime, requests, reasonList, trigger);
      if trigger {
        ghost var oldest := AnOldest(requests, now);
        e := Checked(x, reasonList, oldest);
        RestartDeployment(x, reasonList, false);
      } else {
        var pending := HasPendingRequests(requests);
        if pending {
          ghost var oldest := SetTimer(x, reasonList);
          e := Checked(x, reasonList, oldest);
        } else {
          ghost var oldest := AnOldest(requests, now);
          e := Checked(x, reasonList, oldest);
        }
      }
      CheckServesAllWhenDue(waitTime, old(Abstract()), x, reasonList, e.oldest);
    }

    method TriggerRestart(req: Request) returns (due: bool)
      ensures due <==> Due(waitTime, req)
    {
      due := false;
      if req.status == Pending {
        if req.lastAction.Empty? || req.lastAction.Garbled? {
          return true;
        }
        if !req.requested.At? {
          return true;
        }
        if (req.requested.sec - req.lastAction.sec) * SECOND >= waitTime {
          return true;
        }
      }
    }

    method HasPendingRequests(requests: Requests) returns (pending: bool)
      ensures pending <==> PendingReasons(requests) != {}
    {
      var left := requests.Keys;
      while left != {}
        invariant left <= requests.Keys
        invariant PendingReasons(requests) <= left
        modifies {}
        decreases |left|
      {
        var reason :| reason in left;
        if requests[reason].status == Pending {
          assert reason in PendingReasons(requests);
          return true;
        }
        left := left - {reason};
      }
      return false;
    }

    /** Arms a timer from the oldest request stamp, unless one is running under
        this name already. */
    method SetTimer(x: Instance, reasons: seq<Reason>) returns (ghost oldest: Option<Reason>)
      requires x in config
      modifies this`timers
      ensures IsOldest(config[x], now, oldest)
      ensures Abstract() == Arm(waitTime, old(Abstract()), x, reasons, oldest)
    {
      var oldestRequestTime, lastActionTime;
      oldestRequestTime, lastActionTime, oldest := OldestRequest(config[x]);
      if x.name !in timers {
        var duration := GetTimerDuration(lastActionTime, oldestRequestTime);
        timers := timers[x.name := Timer(x, now + duration, reasons, false)];
      }
    }

    /** The oldest request stamp before now, with the last action of the request
        that has it. */
    method OldestRequest(requests: Requests)
      returns (oldestRequestTime: int, lastActionTime: Stamp, ghost oldest: Option<Reason>)
      ensures IsOldest(requests, now, oldest)
      ensures match oldest
              case None => oldestRequestTime == now && lastActionTime == Empty
              case Some(r) =>
                oldestRequestTime == requests[r].requested.sec * SECOND && lastActionTime == requests[r].lastAction
    {
      oldest := None;
      oldestRequestTime := now;
      lastActionTime := Empty;
      var left := requests.Keys;
      while left != {}
        invariant left <= requests.Keys
        invariant match oldest
                  case None => oldestRequestTime == now && lastActionTime == Empty
                  case Some(r) =>
                    && r in requests && requests[r].requested.At?
                    && oldestRequestTime == requests[r].requested.sec * SECOND < now
                    && lastActionTime == requests[r].lastAction
        invariant forall r | r in requests && r !in left && requests[r].requested.At? ::
                    oldestRequestTime <= requests[r].requested.sec * SECOND
        decreases |left|
      {
        var reason :| reason in left;
        left := left - {reason};
        var req := requests[reason];
        if req.requested.At? && req.requested.sec * SECOND < oldestRequestTime {
          oldest := Some(reason);
          oldestRequestTime := req.requested.sec * SECOND;
          lastActionTime := req.lastAction;
        }
      }
    }

    /** Counted from the request, a timer of that duration ends `waitTime` after
        the last action; without a readable last action it takes `waitTime`. */
    method GetTimerDuration(actionTime: Stamp, requestTime: int) returns (duration: int)
      ensures if actionTime.At? then requestTime + duration == actionTime.sec * SECOND + waitTime else duration == waitTime
    {
      if !actionTime.At? {
        return waitTime;
      }
      var timePassed := requestTime - actionTime.sec * SECOND;
      return waitTime - timePassed;
    }

    /** Completes what is pending and hands a restart on, pending or not; `late` only
        marks it in the log. */
    method RestartDeployment(x: Instance, reasons: seq<Reason>, late: bool)
      modifies this`config, this`timers, this`callbacks, this`restarts
      ensures Abstract() == Deploy(old(Abstract()), x, reasons, late)
    {
      var entry := Restart(x, now, reasons, PendingOf(x), late);
      ClearRestartConfigForInstance(x);
      restarts := restarts + [entry];
    }

    function PendingOf(x: Instance): (rs: Requests)
      reads this
      ensures rs == Served(Abstract(), x)
    {
      if x !in config then map[] else map r | r in config[x] && config[x][r].status == Pending :: config[x][r]
    }

    /** Completes every pending request of the instance and stops the timer of its
        name.  A callback that has started already is not stopped, only overtaken. */
    method ClearRestartConfigForInstance(x: Instance)
      modifies this`config, this`timers, this`callbacks
      ensures Abstract() == Clear(old(Abstract()), x)
    {
      if x !in config {
        return;
      }
      var requests := config[x];
      var left := requests.Keys;
      while left != {}
        invariant Completed(config[x], requests, left, now)
        modifies {}
        decreases |left|
      {
        var reason :| reason in left;
        left := left - {reason};
        if requests[reason].status == Pending {
          var req := ClearRestart(requests[reason]);
          requests := requests[reason := req];
        }
      }
      CompletedAll(config[x], requests, now);
      if x.name in timers {
        timers := timers - {x.name};
      }
      callbacks := Overtake(callbacks, x);
      config := config[x := requests];
    }

    /** The request is no longer pending, and remembers the current second. */
    method ClearRestart(req: Request) returns (cleared: Request)
      ensures cleared.status == Complete && cleared.requested == Empty && cleared.lastAction.At?
      ensures cleared.lastAction.sec * SECOND <= now < cleared.lastAction.sec * SECOND + SECOND
    {
      cleared := req;
      cleared := cleared.(lastAction := Format(now));
      cleared := cleared.(requested := Empty);
      cleared := cleared.(status := Complete);
    }

    /** The runtime starts the callback of a timer that is due. */
    method TimerGoesOff(name: string)
      requires name in timers && !timers[name].off && timers[name].deadline <= now
      modifies this`timers, this`callbacks
      ensures Abstract() == Apply(waitTime, old(Abstract()), WentOff(name))
    {
      var t := timers[name];
      timers := timers[name := t.(off := true)];
      callbacks := callbacks + [Callback(t.owner, t.deadline, t.reasons, false)];
    }

    /** A callback that was started gets to run. */
    method TimerCallback(i: nat)
      requires i < |callbacks|
      modifies this`config, this`timers, this`callbacks, this`restarts
      ensures Abstract() == Apply(waitTime, old(Abstract()), Called(i))
    {
      var c := callbacks[i];
      callbacks := callbacks[..i] + callbacks[i + 1..];
      RestartDeployment(c.owner, c.reasons, c.overtaken);
    }
  }

  /** The loops of the manager can always settle on an oldest request. */
  ghost function AnOldest(rs: Requests, now: int): (choice: Option<Reason>)
    ensures IsOldest(rs, now, choice)
  {
    if forall r | r in rs && rs[r].requested.At? :: rs[r].requested.sec * SECOND >= now then None
    else
      var c :| c in rs && rs[c].requested.At? && rs[c].requested.sec * SECOND < now;
      Some(OldestAmong(rs, rs.Keys, c))
  }

  ghost function OldestAmong(rs: Requests, among: set<Reason>, best: Reason): (c: Reason)
    requires among <= rs.Keys && best in rs && rs[best].requested.At?
    ensures c in rs && rs[c].requested.At? && rs[c].requested.sec <= rs[best].requested.sec
    ensures forall r | r in among && rs[r].requested.At? :: rs[c].requested.sec <= rs[r].requested.sec
    decreases among
  {
    if among == {} then best
    else
      var r :| r in among;
      if rs[r].requested.At? && rs[r].requested.sec < rs[best].requested.sec
      then OldestAmong(rs, among - {r}, r)
      else OldestAmong(rs, among - {r}, best)
  }
}
