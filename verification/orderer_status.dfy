/** The status an orderer resource is given after each reconcile, and the status
    events this raises in the controller's own watch. */
module OrdererStatus {
  import opened Common

  datatype Kind = Unset | Deploying | Deployed | Precreated | Error | Warning | Initializing

  /** The part of a status that users see and that the controller compares. */
  datatype Headline = Headline(kind: Kind, reason: string, message: string)

  datatype Status = Status(headline: Headline, flag: string, heartbeat: int, errorCode: int, reconciled: string)

  /** What the offering returned: an error, or a result that may report a status
      of its own and may ask that nothing else be considered. */
  datatype Outcome =
    | Failed(message: string, code: int)
    | NoResult
    | Result(reported: Option<Headline>, overriding: bool)

  /** Everything SetStatus looks at besides the current status.  `pods` says of
      each pod whether it is running. */
  datatype Input = Input(
    isNode: bool, channelLess: bool, genesisExists: bool, pods: seq<bool>, fabricVersion: string, outcome: Outcome)

  const ALL_RUNNING := Headline(Deployed, "allPodsRunning", "allPodsRunning")
  const WAITING_FOR_PODS := Headline(Deploying, "waitingForPods", "waitingForPods")
  const WAITING_FOR_GENESIS := Headline(Precreated, "waiting for genesis block", "waiting for genesis block")

  predicate Precreating(input: Input) {
    !input.channelLess && !input.genesisExists
  }

  predicate AllRunning(pods: seq<bool>) {
    forall i | 0 <= i < |pods| :: pods[i]
  }

  function FromPods(input: Input, current: Headline): Headline {
    if input.pods == [] then current else if AllRunning(input.pods) then ALL_RUNNING else WAITING_FOR_PODS
  }

  /** The headline to write, if any. */
  function Target(input: Input, current: Headline): Option<Headline> {
    if input.outcome.Failed? then Some(Headline(Error, "errorOccurredDuringReconcile", input.outcome.message))
    else if !input.isNode then None
    else
      var reported := if input.outcome.Result? then input.outcome.reported else None;
      var overriding := input.outcome.Result? && input.outcome.overriding;
      if reported == Some(current) then None
      else if overriding then reported
      else
        var base := if reported.Some? then reported.value else FromPods(input, current);
        var final := if Precreating(input) then WAITING_FOR_GENESIS else base;
        if final.kind == Unset || final == current then None else Some(final)
  }

  function After(input: Input, current: Status, now: int): Status {
    match Target(input, current.headline)
    case None => current
    case Some(h) =>
      if input.outcome.Failed? then current.(headline := h, flag := "True", heartbeat := now, errorCode := input.outcome.code)
      else current.(headline := h, flag := "True", heartbeat := now, reconciled := input.fabricVersion)
  }

  /** Does the watch raise a status event when the stored status changes?  A
      parent past its first deployment is ignored altogether. */
  predicate Raises(input: Input, before: Status, after: Status) {
    && (input.isNode || before.headline.kind !in {Deployed, Error, Warning})
    && before.headline != after.headline
  }

  // ---------------------------------------------------------------- properties

  /** With everything fixed and no error, a second SetStatus writes nothing. */
  lemma SecondWritesNothing(input: Input, current: Status, now: int)
    requires !input.outcome.Failed?
    ensures Target(input, After(input, current, now).headline) == None
  {
  }

  /** A repeated identical error changes only the heartbeat. */
  lemma RepeatedErrorOnlyBeats(input: Input, current: Status, now: int, later: int)
    requires input.outcome.Failed?
    ensures After(input, After(input, current, now), later) == After(input, current, now).(heartbeat := later)
  {
  }

  /** A node on its own waits for a missing genesis block, and otherwise is
      deployed exactly when all its pods run. */
  lemma UnreportedStatusFollowsPods(input: Input, current: Status, now: int)
    requires input.isNode && (input.outcome.NoResult? || input.outcome == Result(None, false))
    ensures var h := After(input, current, now).headline;
            var waits := !input.channelLess && !input.genesisExists;
            && (waits ==> h == Headline(Precreated, "waiting for genesis block", "waiting for genesis block"))
            && (!waits && input.pods != [] && (forall i | 0 <= i < |input.pods| :: input.pods[i]) ==>
                  h == Headline(Deployed, "allPodsRunning", "allPodsRunning"))
            && (!waits && (exists i :: 0 <= i < |input.pods| && !input.pods[i]) ==>
                  h == Headline(Deploying, "waitingForPods", "waitingForPods"))
            && (!waits && input.pods == [] ==> h == current.headline)
  {
  }

  /** A report that does not prevail gives way to a missing genesis block; one that
      repeats the status does not; and an offering that asks for nothing else to be
      considered, without a report, leaves the status alone. */
  lemma ReportsThatDoNotPrevail(input: Input, current: Status, now: int)
    requires input.isNode && input.outcome.Result?
    ensures var h := After(input, current, now).headline;
            && (input.outcome.reported == Some(current.headline) ==> h == current.headline)
            && (input.outcome.reported.None? && input.outcome.overriding ==> h == current.headline)
            && (input.outcome.reported.Some? && input.outcome.reported.value != current.headline && !input.outcome.overriding
                && !input.channelLess && !input.genesisExists ==>
                  h == Headline(Precreated, "waiting for genesis block", "waiting for genesis block"))
  {
  }

  /** The status left by `inputs`, one reconcile after another; `at[i]` is the
      time of the i-th. */
  function AfterAll(inputs: seq<Input>, at: seq<int>, current: Status): Status
    requires |at| == |inputs|
  {
    if inputs == [] then current else AfterAll(inputs[1..], at[1..], After(inputs[0], current, at[0]))
  }

  lemma {:induction false} AfterAllLast(inputs: seq<Input>, at: seq<int>, current: Status)
    requires |at| == |inputs| && inputs != []
    ensures var n := |inputs| - 1;
            AfterAll(inputs, at, current) == After(inputs[n], AfterAll(inputs[..n], at[..n], current), at[n])
  {
    var n := |inputs| - 1;
    if n > 0 {
      assert inputs[1..][..n - 1] == inputs[..n][1..] && at[1..][..n - 1] == at[..n][1..];
      AfterAllLast(inputs[1..], at[1..], After(inputs[0], current, at[0]));
    }
  }

  /** Circumstances that fix the headline whatever it was: an error; for a node, a
      status of the offering that prevails, or without one a missing genesis block
      or pods to look at. */
  predicate Decides(input: Input) {
    || input.outcome.Failed?
    || (input.isNode
        && if input.outcome.Result? && input.outcome.reported.Some? then
             || input.outcome.overriding
             || (if Precreating(input) then input.outcome.reported.value == WAITING_FOR_GENESIS
                 else input.outcome.reported.value.kind != Unset)
           else
             !(input.outcome.Result? && input.outcome.overriding) && (Precreating(input) || input.pods != []))
  }

  ghost predicate SameHeadline(input: Input) {
    forall c: Status, d: Status, t: int, u: int :: After(input, c, t).headline == After(input, d, u).headline
  }

  lemma DecidesExactly(input: Input)
    ensures SameHeadline(input) <==> Decides(input)
  {
    if !Decides(input) {
      var c := Status(Headline(Initializing, "", ""), "", 0, 0, "");
      var d := Status(Headline(Initializing, "", "again"), "", 0, 0, "");
      var e := if input.outcome.Result? && input.outcome.reported.Some?
               then Status(input.outcome.reported.value, "", 0, 0, "") else c;
      assert After(input, c, 0).headline != After(input, d, 0).headline
             || After(input, c, 0).headline != After(input, e, 0).headline;
    }
  }

  predicate EndsIn(inputs: seq<Input>, at: seq<int>, last: Input) {
    |at| == |inputs| && inputs != [] && inputs[|inputs| - 1] == last
  }

  /** Two sequences of reconciles that end in the same circumstances end with the
      same headline. */
  ghost predicate LastInputRules(last: Input) {
    forall inputs, at, c, others, at', d | EndsIn(inputs, at, last) && EndsIn(others, at', last) ::
      AfterAll(inputs, at, c).headline == AfterAll(others, at', d).headline
  }

  /** The final headline of any sequence of reconciles depends on the last
      circumstances alone, whatever the start and whatever came before, exactly if
      these decide. */
  lemma FinalHeadlineExactly(last: Input)
    ensures LastInputRules(last) <==> Decides(last)
  {
    DecidesExactly(last);
    if Decides(last) {
      forall inputs, at, c, others, at', d | EndsIn(inputs, at, last) && EndsIn(others, at', last)
        ensures AfterAll(inputs, at, c).headline == AfterAll(others, at', d).headline
      {
        AfterAllLast(inputs, at, c);
        AfterAllLast(others, at', d);
      }
    } else {
      var c, d, t, u :| After(last, c, t).headline != After(last, d, u).headline;
      assert EndsIn([last], [t], last) && EndsIn([last], [u], last);
      AfterAllLast([last], [t], c);
      AfterAllLast([last], [u], d);
      assert AfterAll([last], [t], c).headline != AfterAll([last], [u], d).headline;
    }
  }

  /** How many status events a sequence of reconciles raises. */
  function Events(inputs: seq<Input>, at: seq<int>, current: Status): nat
    requires |at| == |inputs|
  {
    if inputs == [] then 0
    else
      var next := After(inputs[0], current, at[0]);
      (if Raises(inputs[0], current, next) then 1 else 0) + Events(inputs[1..], at[1..], next)
  }

  /** How often the circumstances change, the first time included. */
  function Changes(inputs: seq<Input>): nat {
    if inputs == [] then 0
    else if |inputs| == 1 then 1
    else (if inputs[0] != inputs[1] then 1 else 0) + Changes(inputs[1..])
  }

  predicate Settled(input: Input, current: Status) {
    After(input, current, 0).headline == current.headline
  }

  lemma SettlesAtOnce(input: Input, current: Status, now: int)
    ensures Settled(input, After(input, current, now))
  {
    if !input.outcome.Failed? {
      SecondWritesNothing(input, current, now);
    }
  }

  lemma {:induction false} SettledStartSavesOne(inputs: seq<Input>, at: seq<int>, current: Status)
    requires |at| == |inputs| && inputs != [] && Settled(inputs[0], current)
    ensures Events(inputs, at, current) <= Changes(inputs) - 1
    decreases |inputs|, 0
  {
    var next := After(inputs[0], current, at[0]);
    if |inputs| > 1 {
      if inputs[1] == inputs[0] {
        SettledStartSavesOne(inputs[1..], at[1..], next);
      } else {
        EventsFollowChanges(inputs[1..], at[1..], next);
      }
    }
  }

  /** The status loop stops: over any sequence of reconciles, the controller
      raises at most one status event per change of circumstances, so while
      nothing changes it raises at most one. */
  lemma {:induction false} EventsFollowChanges(inputs: seq<Input>, at: seq<int>, current: Status)
    requires |at| == |inputs|
    ensures Events(inputs, at, current) <= Changes(inputs)
    decreases |inputs|, 1
  {
    if inputs != [] {
      var next := After(inputs[0], current, at[0]);
      SettlesAtOnce(inputs[0], current, at[0]);
      if |inputs| > 1 {
        if inputs[1] == inputs[0] {
          SettledStartSavesOne(inputs[1..], at[1..], next);
        } else {
          EventsFollowChanges(inputs[1..], at[1..], next);
        }
      }
    }
  }

  /** The headlines a sequence of reconciles goes through, the first one included. */
  function Headlines(inputs: seq<Input>, at: seq<int>, current: Status): (hs: seq<Headline>)
    requires |at| == |inputs|
    ensures |hs| == |inputs| + 1
  {
    if inputs == [] then [current.headline]
    else [current.headline] + Headlines(inputs[1..], at[1..], After(inputs[0], current, at[0]))
  }

  /** How often a headline differs from the one before in kind, reason or message. */
  function Flips(hs: seq<Headline>): nat {
    if |hs| <= 1 then 0
    else
      (if hs[0].kind != hs[1].kind || hs[0].reason != hs[1].reason || hs[0].message != hs[1].message then 1 else 0)
      + Flips(hs[1..])
  }

  /** A node raises one event for each reconcile that changes kind, reason or
      message, and no other. */
  lemma {:induction false} NodeEventsAreFlips(inputs: seq<Input>, at: seq<int>, current: Status)
    requires |at| == |inputs| && forall i | 0 <= i < |inputs| :: inputs[i].isNode
    ensures Events(inputs, at, current) == Flips(Headlines(inputs, at, current))
    decreases |inputs|
  {
    if inputs != [] {
      var next := After(inputs[0], current, at[0]);
      var rest := Headlines(inputs[1..], at[1..], next);
      NodeEventsAreFlips(inputs[1..], at[1..], next);
      assert Headlines(inputs, at, current)[1..] == rest;
      assert rest[0] == next.headline;
    }
  }

  /** So if a sequence of reconciles of a node ends elsewhere than it began, the
      parent has heard of it. */
  lemma {:induction false} SilentNodesStay(inputs: seq<Input>, at: seq<int>, current: Status)
    requires |at| == |inputs| && (forall i | 0 <= i < |inputs| :: inputs[i].isNode) && Events(inputs, at, current) == 0
    ensures AfterAll(inputs, at, current).headline == current.headline
    decreases |inputs|
  {
    if inputs != [] {
      SilentNodesStay(inputs[1..], at[1..], After(inputs[0], current, at[0]));
    }
  }

  /** A parent that is past its first deployment raises none; before that, it raises
      one event, at its first error. */
  lemma {:induction false} ParentEventsAreFirstErrors(inputs: seq<Input>, at: seq<int>, current: Status)
    requires |at| == |inputs| && forall i | 0 <= i < |inputs| :: !inputs[i].isNode
    ensures Events(inputs, at, current)
            == if current.headline.kind !in {Deployed, Error, Warning} && (exists i :: 0 <= i < |inputs| && inputs[i].outcome.Failed?)
               then 1 else 0
    decreases |inputs|
  {
    if inputs != [] {
      ParentEventsAreFirstErrors(inputs[1..], at[1..], After(inputs[0], current, at[0]));
      if i :| 0 <= i < |inputs[1..]| && inputs[1..][i].outcome.Failed? {
        assert inputs[i + 1].outcome.Failed?;
      }
      if i :| 0 < i < |inputs| && inputs[i].outcome.Failed? {
        assert inputs[1..][i - 1].outcome.Failed?;
      }
    }
  }

  // ----------------------------------------------------------------- the method

  class Resource {
    var status: Status

    constructor (status: Status)
      ensures this.status == status
    {
      this.status := status;
    }

    /** Assembles the next status step by step and stores it if it matters.  An error
        is always reported; without one a parent keeps its status, and a status the
        offering reports for a node prevails. */
    method SetStatus(input: Input, now: int)
      modifies this
      ensures status == After(input, old(status), now)
      ensures input.outcome.Failed? ==>
                && status.headline == Headline(Error, "errorOccurredDuringReconcile", input.outcome.message)
                && status.flag == "True" && status.heartbeat == now
                && status.errorCode == input.outcome.code && status.reconciled == old(status).reconciled
      ensures !input.outcome.Failed? ==>
                if status.headline == old(status).headline then status == old(status)
                else && status.flag == "True" && status.heartbeat == now
                     && status.errorCode == old(status).errorCode && status.reconciled == input.fabricVersion
      ensures !input.outcome.Failed? && !input.isNode ==> status == old(status)
      ensures input.isNode && input.outcome.Result? && input.outcome.reported.Some?
              && (input.outcome.overriding || (!Precreating(input) && input.outcome.reported.value.kind != Unset)) ==>
                status.headline == input.outcome.reported.value
    {
      var next := status;
      if input.outcome.Failed? {
        next := next.(headline := Headline(Error, "errorOccurredDuringReconcile", input.outcome.message));
        next := next.(flag := "True", heartbeat := now, errorCode := input.outcome.code);
        status := next;
        return;
      }
      next := next.(reconciled := input.fabricVersion);
      if !input.isNode {
        return;
      }

      var running := 0;
      for i := 0 to |input.pods|
        modifies {}
        invariant running <= i
        invariant running == i <==> AllRunning(input.pods[..i])
      {
        if input.pods[i] {
          running := running + 1;
        }
        assert input.pods[..i + 1] == input.pods[..i] + [input.pods[i]];
        assert AllRunning(input.pods[..i + 1]) <==> AllRunning(input.pods[..i]) && input.pods[i];
      }
      assert input.pods[..|input.pods|] == input.pods;
      if |input.pods| > 0 {
        next := next.(headline := if running == |input.pods| then ALL_RUNNING else WAITING_FOR_PODS, flag := "True");
      }

      if input.outcome.Result? {
        if input.outcome.reported.Some? {
          var reported := input.outcome.reported.value;
          if status.headline != reported {
            next := next.(headline := reported, flag := "True", heartbeat := now);
            if input.outcome.overriding {
              status := next;
              return;
            }
          } else {
            return;
          }
        }
        if input.outcome.overriding {
          return;
        }
      }

      var precreated := false;
      if input.channelLess {
        precreated := false;
      } else if !input.genesisExists {
        precreated := true;
      }
      if precreated {
        next := next.(headline := WAITING_FOR_GENESIS, flag := "True");
      }
      if next.headline.kind != Unset && status.headline != next.headline {
        next := next.(heartbeat := now);
        status := next;
      }
    }
  }
}
