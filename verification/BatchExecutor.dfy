/** BatchExecutor: a run over a list of queries, which another thread may abort at any
    moment, and whose counters other threads may read between any two of its steps.
 */
module BatchExecutor {
  import opened QtStrings

  // Where the running thread is: between which of its atomic regions.
  datatype Phase =
    | Push      // about to append a result
    | Start     // about to execute the query
    | Finish    // executing; about to count its outcome
    | Fail      // about to see whether the failure ends the run
    | Report    // about to emit afterQueryExecution
    | Check     // about to look at the abort flag
    | Advance   // about to move the index
    | Ended

  // The fields of the executor, and beside them a record of the run: the outcomes of the
  // queries, what the abort flag was when it was looked at, and the indexes reported.
  datatype State = State(
    total: nat,
    stopOnError: bool,
    phase: Phase,
    results: nat,
    index: nat,
    succeeded: nat,
    failures: nat,
    failed: bool,
    aborted: bool,
    doBreak: bool,
    outcomes: seq<bool>,
    flags: seq<bool>,
    reported: seq<nat>)

  // A step of the running thread, with the outcome of the query where it matters, or an
  // abort from another thread. Getters change nothing.
  datatype Action = Run(ok: bool) | Abort

  function Begin(total: nat, stopOnError: bool): State
  {
    State(total, stopOnError, if total == 0 then Ended else Push, 0, 0, 0, 0, false, false, false, [], [], [])
  }

  function Step(s: State, a: Action): State
  {
    match a
    case Abort => s.(aborted := true)
    case Run(ok) =>
      match s.phase
      case Push => s.(results := s.results + 1, phase := Start)
      case Start => s.(phase := Finish)
      case Finish =>
        if ok then s.(succeeded := s.succeeded + 1, outcomes := s.outcomes + [true], phase := Report)
        else s.(failures := s.failures + 1, outcomes := s.outcomes + [false], phase := Fail)
      case Fail =>
        if s.stopOnError || s.index == s.total - 1 then s.(failed := true, doBreak := true, phase := Report)
        else s.(phase := Report)
      case Report => s.(reported := s.reported + [s.index], phase := Check)
      case Check =>
        var stop := s.doBreak || s.aborted;
        s.(flags := s.flags + [s.aborted], doBreak := stop, phase := if stop then Ended else Advance)
      case Advance =>
        s.(index := if s.index < s.total - 1 then s.index + 1 else s.index,
           phase := if s.results == s.total then Ended else Push)
      case Ended => s
  }

  function Execution(s: State, actions: seq<Action>): State
    decreases actions
  {
    if actions == [] then s else Execution(Step(s, actions[0]), actions[1..])
  }

  function CountOf(outcomes: seq<bool>, ok: bool): nat
  {
    if outcomes == [] then 0
    else CountOf(outcomes[..|outcomes| - 1], ok) + if outcomes[|outcomes| - 1] == ok then 1 else 0
  }

  lemma CountMore(outcomes: seq<bool>, last: bool, ok: bool)
    ensures CountOf(outcomes + [last], ok) == CountOf(outcomes, ok) + if last == ok then 1 else 0
  {
    assert (outcomes + [last])[..|outcomes|] == outcomes;
  }

  /** Whether the run does not go on behind query k. */
  predicate StopsAt(total: nat, stopOnError: bool, outcomes: seq<bool>, flags: seq<bool>, k: nat)
    requires k < |outcomes| && k < |flags|
  {
    flags[k] || (!outcomes[k] && (stopOnError || k == total - 1))
  }

  /** The counters agree with the record. */
  ghost predicate IsCounted(s: State)
  {
    && s.succeeded == CountOf(s.outcomes, true) && s.failures == CountOf(s.outcomes, false)
    && s.succeeded + s.failures == |s.outcomes|
    && InOrder(s.reported)
  }

  ghost predicate InOrder(reported: seq<nat>)
  {
    forall i | 0 <= i < |reported| :: reported[i] == i
  }

  /** The other fields agree with the record, in every phase. */
  ghost predicate IsRun(s: State)
  {
    var n := |s.outcomes|;
    && s.results <= s.total
    && (s.phase in {Push, Fail, Report, Check, Advance, Ended} ==> s.results == n)
    && (s.phase in {Start, Finish} ==> s.results == n + 1)
    && (s.phase == Push ==> n < s.total)
    && (s.phase in {Push, Start, Finish} ==> s.index == n)
    && (s.phase in {Fail, Report, Check, Advance} ==> n == s.index + 1)
    && (s.phase == Ended ==> s.index == if n == 0 then 0 else n - 1)
    && |s.reported| == (if s.phase in {Fail, Report} then n - 1 else n)
    && |s.flags| == (if s.phase in {Fail, Report, Check} then n - 1 else n)
  }

  /** The run went on behind every query but the last one. */
  ghost predicate WentOn(s: State)
    requires IsRun(s)
  {
    forall k | 0 <= k < |s.outcomes| - 1 :: !StopsAt(s.total, s.stopOnError, s.outcomes, s.flags, k)
  }

  /** What ends a run. */
  ghost predicate EndsInTime(s: State)
    requires IsRun(s)
  {
    var n := |s.outcomes|;
    && (s.phase == Fail ==> !s.outcomes[n - 1])
    && (s.phase in {Push, Start, Finish, Fail, Advance} ==> !s.doBreak && !s.failed)
    && (s.phase in {Report, Check} ==>
          (s.failed <==> !s.outcomes[n - 1] && (s.stopOnError || n == s.total)) && s.doBreak == s.failed)
    && (s.phase in {Push, Start, Finish, Advance} && n > 0
       ==> !StopsAt(s.total, s.stopOnError, s.outcomes, s.flags, n - 1))
    && (s.phase == Ended ==>
          && (s.failed <==> n > 0 && !s.outcomes[n - 1] && (s.stopOnError || n == s.total))
          && (n == s.total || (n > 0 && StopsAt(s.total, s.stopOnError, s.outcomes, s.flags, n - 1))))
    && (!s.aborted ==> forall k | 0 <= k < |s.flags| :: !s.flags[k])
  }

  lemma BeginIsRun(total: nat, stopOnError: bool)
    ensures IsRun(Begin(total, stopOnError)) && IsCounted(Begin(total, stopOnError))
            && WentOn(Begin(total, stopOnError)) && EndsInTime(Begin(total, stopOnError))
  {
  }

  lemma StepIsRun(s: State, a: Action)
    requires IsRun(s) && EndsInTime(s)
    ensures IsRun(Step(s, a))
  {
  }

  lemma OutcomeIsCounted(s: State, ok: bool)
    requires IsCounted(s) && s.phase == Finish
    ensures IsCounted(Step(s, Run(ok)))
  {
    CountMore(s.outcomes, ok, true);
    CountMore(s.outcomes, ok, false);
  }

  lemma ReportInOrder(reported: seq<nat>)
    requires InOrder(reported)
    ensures InOrder(reported + [|reported|])
  {
  }

  lemma StepIsCounted(s: State, a: Action)
    requires IsRun(s) && IsCounted(s)
    ensures IsCounted(Step(s, a))
  {
    if a.Run? && s.phase == Finish {
      OutcomeIsCounted(s, a.ok);
    } else if a.Run? && s.phase == Report {
      ReportInOrder(s.reported);
    } else {
      assert Step(s, a).outcomes == s.outcomes && Step(s, a).reported == s.reported;
    }
  }

  lemma SameStops(total: nat, stopOnError: bool, outcomes: seq<bool>, flags: seq<bool>, o: bool, f: bool, k: nat)
    requires k < |outcomes| && k < |flags|
    ensures StopsAt(total, stopOnError, outcomes + [o], flags, k) == StopsAt(total, stopOnError, outcomes, flags, k)
    ensures StopsAt(total, stopOnError, outcomes, flags + [f], k) == StopsAt(total, stopOnError, outcomes, flags, k)
  {
  }

  lemma StepWentOn(s: State, a: Action)
    requires IsRun(s) && WentOn(s) && EndsInTime(s) && IsRun(Step(s, a))
    ensures WentOn(Step(s, a))
  {
    var t := Step(s, a);
    forall k | 0 <= k < |t.outcomes| - 1
      ensures !StopsAt(t.total, t.stopOnError, t.outcomes, t.flags, k)
    {
      if k < |s.flags| {
        SameStops(s.total, s.stopOnError, s.outcomes, s.flags, a.Run? && a.ok, s.aborted, k);
      }
    }
  }

  lemma StepEndsInTime(s: State, a: Action)
    requires IsRun(s) && EndsInTime(s) && IsRun(Step(s, a))
    ensures EndsInTime(Step(s, a))
  {
  }

  /** In every interleaving, after any number of steps. */
  lemma {:induction false} EveryExecution(s: State, actions: seq<Action>)
    requires IsRun(s) && IsCounted(s) && WentOn(s) && EndsInTime(s)
    ensures IsRun(Execution(s, actions)) && IsCounted(Execution(s, actions)) && WentOn(Execution(s, actions))
            && EndsInTime(Execution(s, actions))
    decreases actions
  {
    if actions != [] {
      StepIsRun(s, actions[0]);
      StepIsCounted(s, actions[0]);
      StepWentOn(s, actions[0]);
      StepEndsInTime(s, actions[0]);
      EveryExecution(Step(s, actions[0]), actions[1..]);
    }
  }

  /** What another thread may see at any moment of a run. */
  lemma WhatGettersSee(total: nat, stopOnError: bool, actions: seq<Action>)
    ensures var s := Execution(Begin(total, stopOnError), actions);
            && (s.succeeded + s.failures == s.results || s.succeeded + s.failures + 1 == s.results)
            && s.results <= s.total == total
            && (forall i | 0 <= i < |s.reported| :: s.reported[i] == i < s.results)
  {
    BeginIsRun(total, stopOnError);
    EveryExecution(Begin(total, stopOnError), actions);
    TotalStays(Begin(total, stopOnError), actions);
  }

  lemma StepKeepsSetting(s: State, a: Action)
    ensures Step(s, a).total == s.total && Step(s, a).stopOnError == s.stopOnError
  {
  }

  lemma {:induction false} TotalStays(s: State, actions: seq<Action>)
    ensures Execution(s, actions).total == s.total && Execution(s, actions).stopOnError == s.stopOnError
    decreases actions
  {
    if actions != [] {
      StepKeepsSetting(s, actions[0]);
      TotalStays(Step(s, actions[0]), actions[1..]);
    }
  }

  /** How many queries are executed in a stretch of a run. */
  function Executed(s: State, actions: seq<Action>): nat
    decreases actions
  {
    if actions == [] then 0
    else (if s.phase == Start && actions[0].Run? then 1 else 0) + Executed(Step(s, actions[0]), actions[1..])
  }

  lemma {:induction false} AbortedExecutes(s: State, actions: seq<Action>)
    requires s.aborted
    ensures Executed(s, actions) <= if s.phase in {Advance, Push, Start} then 1 else 0
    decreases actions
  {
    if actions != [] {
      AbortedExecutes(Step(s, actions[0]), actions[1..]);
    }
  }

  /** Whenever the run is aborted and whatever happens then, at most one more query is executed:
      none if the abort comes during a query. */
  lemma AbortEndsRun(total: nat, stopOnError: bool, before: seq<Action>, behind: seq<Action>)
    ensures var s := Execution(Begin(total, stopOnError), before + [Abort]);
            && Executed(s, behind) <= 1
            && (Execution(Begin(total, stopOnError), before).phase in {Finish, Fail, Report, Check}
                ==> Executed(s, behind) == 0)
  {
    OneMoreAction(Begin(total, stopOnError), before, Abort);
    AbortedExecutes(Execution(Begin(total, stopOnError), before + [Abort]), behind);
  }

  /** A run that ended was complete unless it was aborted or failed; it failed exactly when
      its last query did, and either failures stop it or there was no further query. */
  lemma WhatTheEndMeans(total: nat, stopOnError: bool, actions: seq<Action>)
    requires Execution(Begin(total, stopOnError), actions).phase == Ended
    ensures IsEnd(Execution(Begin(total, stopOnError), actions), total, stopOnError)
  {
    BeginIsRun(total, stopOnError);
    EveryExecution(Begin(total, stopOnError), actions);
    TotalStays(Begin(total, stopOnError), actions);
    EndedMeans(Execution(Begin(total, stopOnError), actions));
  }

  ghost predicate IsEnd(s: State, total: nat, stopOnError: bool)
  {
    && (!s.aborted && !s.failed ==> s.results == total)
    && s.reported == seq(s.results, i => i)
    && s.results == |s.outcomes|
    && (s.failed <==> s.results > 0 && !s.outcomes[s.results - 1] && (stopOnError || s.results == total))
    && (stopOnError && !s.failed ==> s.failures == 0)
  }

  lemma EndedMeans(s: State)
    requires IsRun(s) && IsCounted(s) && WentOn(s) && EndsInTime(s) && s.phase == Ended
    ensures IsEnd(s, s.total, s.stopOnError)
  {
    if s.stopOnError && !s.failed {
      forall k | 0 <= k < |s.outcomes|
        ensures s.outcomes[k]
      {
        assert k < |s.outcomes| - 1 ==> !StopsAt(s.total, s.stopOnError, s.outcomes, s.flags, k);
      }
      NoFailures(s.outcomes);
    }
  }

  lemma {:induction false} NoFailures(outcomes: seq<bool>)
    requires forall k | 0 <= k < |outcomes| :: outcomes[k]
    ensures CountOf(outcomes, false) == 0
  {
    if outcomes != [] {
      NoFailures(outcomes[..|outcomes| - 1]);
    }
  }

  // ---- the sequential loop ----

  // The fields of the executor when a run is over, and the indexes it reported.
  datatype RunEnd = RunEnd(results: nat, index: nat, succeeded: nat, failures: nat, failed: bool, reported: seq<nat>)

  /** The run went on behind every query but the last executed one, and stopped there for a
      reason; counters, failure and reports are those of the executed queries. */
  ghost predicate IsRunEnd(stopOnError: bool, outcomes: seq<bool>, flags: seq<bool>, e: RunEnd)
    requires |outcomes| == |flags|
  {
    var n := e.results;
    && n <= |outcomes|
    && (forall k | 0 <= k < n - 1 :: !StopsAt(|outcomes|, stopOnError, outcomes, flags, k))
    && (n == |outcomes| || (n > 0 && StopsAt(|outcomes|, stopOnError, outcomes, flags, n - 1)))
    && e.succeeded == CountOf(outcomes[..n], true) && e.failures == CountOf(outcomes[..n], false)
    && (e.failed <==> n > 0 && !outcomes[n - 1] && (stopOnError || n == |outcomes|))
    && e.index == (if n == 0 then 0 else n - 1)
    && e.reported == seq(n, i => i)
  }

  /** There is only one way for a run to end, given the outcomes and the flags. */
  lemma RunEndIsUnique(stopOnError: bool, outcomes: seq<bool>, flags: seq<bool>, a: RunEnd, b: RunEnd)
    requires |outcomes| == |flags| && IsRunEnd(stopOnError, outcomes, flags, a)
             && IsRunEnd(stopOnError, outcomes, flags, b)
    ensures a == b
  {
  }

  function EndOf(s: State): RunEnd
  {
    RunEnd(s.results, s.index, s.succeeded, s.failures, s.failed, s.reported)
  }

  /** Whatever other threads do, a run ends with the fields the loop leaves for the outcomes and
      flags it met, however those would have gone on. */
  lemma EveryEndIsOfTheLoop(stopOnError: bool, actions: seq<Action>, outcomes: seq<bool>, flags: seq<bool>)
    requires |outcomes| == |flags|
    requires var s := Execution(Begin(|outcomes|, stopOnError), actions);
             s.phase == Ended && s.outcomes <= outcomes && s.flags <= flags
    ensures IsRunEnd(stopOnError, outcomes, flags, EndOf(Execution(Begin(|outcomes|, stopOnError), actions)))
  {
    var s := Execution(Begin(|outcomes|, stopOnError), actions);
    BeginIsRun(|outcomes|, stopOnError);
    EveryExecution(Begin(|outcomes|, stopOnError), actions);
    TotalStays(Begin(|outcomes|, stopOnError), actions);
    EndedMeans(s);
    var n := s.results;
    assert outcomes[..n] == s.outcomes;
    forall k | 0 <= k < n
      ensures StopsAt(|outcomes|, stopOnError, outcomes, flags, k)
              == StopsAt(|outcomes|, stopOnError, s.outcomes, s.flags, k)
    {
    }
  }

  lemma {:induction false} OneMoreAction(s: State, actions: seq<Action>, a: Action)
    ensures Execution(s, actions + [a]) == Step(Execution(s, actions), a)
    decreases actions
  {
    if actions == [] {
      assert [a][1..] == [];
      NothingBefore([a]);
    } else {
      assert (actions + [a])[1..] == actions[1..] + [a];
      OneMoreAction(Step(s, actions[0]), actions[1..], a);
    }
  }

  /** One turn of the loop, with an abort just before the flag is looked at or none. */
  lemma OneTurn(b: State, before: seq<Action>, ok: bool, flag: bool) returns (actions: seq<Action>)
    requires Execution(b, before).phase == Push && !Execution(b, before).aborted
    requires IsRun(Execution(b, before)) && EndsInTime(Execution(b, before))
    ensures var s, t := Execution(b, before), Execution(b, actions);
            && t.outcomes == s.outcomes + [ok] && t.flags == s.flags + [flag]
            && t.phase == (if |t.outcomes| == s.total
                              || StopsAt(s.total, s.stopOnError, t.outcomes, t.flags, |s.outcomes|)
                           then Ended else Push)
            && t.aborted == flag
  {
    var s := Execution(b, before);
    actions := before;
    var step := Run(ok);
    OneMoreAction(b, actions, step);
    actions := actions + [step];
    OneMoreAction(b, actions, step);
    actions := actions + [step];
    OneMoreAction(b, actions, step);
    actions := actions + [step];
    if !ok {
      OneMoreAction(b, actions, step);
      actions := actions + [step];
    }
    OneMoreAction(b, actions, step);
    actions := actions + [step];
    if flag {
      OneMoreAction(b, actions, Abort);
      actions := actions + [Abort];
    }
    OneMoreAction(b, actions, step);
    actions := actions + [step];
    if Execution(b, actions).phase == Advance {
      OneMoreAction(b, actions, step);
      actions := actions + [step];
    }
  }

  lemma OneLonger(s: seq<bool>, i: nat)
    requires 0 < i <= |s|
    ensures s[..i - 1] + [s[i - 1]] == s[..i]
  {
  }

  lemma StopsInPrefix(stopOnError: bool, outcomes: seq<bool>, flags: seq<bool>, i: nat)
    requires 0 < i <= |outcomes| == |flags|
    ensures StopsAt(|outcomes|, stopOnError, outcomes[..i], flags[..i], i - 1)
            == StopsAt(|outcomes|, stopOnError, outcomes, flags, i - 1)
  {
  }

  /** The first i turns of the loop, when it does not stop before. */
  lemma {:induction false} FirstTurns(stopOnError: bool, outcomes: seq<bool>, flags: seq<bool>, i: nat)
      returns (actions: seq<Action>)
    requires |outcomes| == |flags| && i <= |outcomes|
    requires forall k | 0 <= k < i - 1 :: !StopsAt(|outcomes|, stopOnError, outcomes, flags, k)
    ensures var s := Execution(Begin(|outcomes|, stopOnError), actions);
            && s.outcomes == outcomes[..i] && s.flags == flags[..i]
            && s.phase == (if i == |outcomes| || (i > 0 && StopsAt(|outcomes|, stopOnError, outcomes, flags, i - 1))
               then Ended else Push)
            && s.aborted == (i > 0 && flags[i - 1])
  {
    var b := Begin(|outcomes|, stopOnError);
    if i == 0 {
      actions := [];
    } else {
      var before := FirstTurns(stopOnError, outcomes, flags, i - 1);
      BeginIsRun(|outcomes|, stopOnError);
      EveryExecution(b, before);
      TotalStays(b, before);
      actions := OneTurn(b, before, outcomes[i - 1], flags[i - 1]);
      OneLonger(outcomes, i);
      OneLonger(flags, i);
      StopsInPrefix(stopOnError, outcomes, flags, i);
    }
  }

  /** And every end of the loop is the end of some execution. */
  lemma EveryLoopIsAnExecution(stopOnError: bool, outcomes: seq<bool>, flags: seq<bool>, e: RunEnd)
      returns (actions: seq<Action>)
    requires |outcomes| == |flags| && IsRunEnd(stopOnError, outcomes, flags, e)
    ensures var s := Execution(Begin(|outcomes|, stopOnError), actions);
            s.phase == Ended && s.outcomes == outcomes[..e.results] && s.flags == flags[..e.results] && EndOf(s) == e
  {
    actions := FirstTurns(stopOnError, outcomes, flags, e.results);
    EveryEndIsOfTheLoop(stopOnError, actions, outcomes, flags);
    RunEndIsUnique(stopOnError, outcomes, flags, e, EndOf(Execution(Begin(|outcomes|, stopOnError), actions)));
  }

  /** The loop of run, given the outcome each query would have and the value the abort flag
      would have when it is read behind each query. */
  class Executor {
    var results: nat
    var failed: bool
    var currentQueryIndex: nat
    var queryTotalCount: nat
    var queryFailedCount: nat
    var querySuccessCount: nat
    var stopOnError: bool

    constructor (stopOnError: bool)
      ensures this.stopOnError == stopOnError
    {
      results, failed, currentQueryIndex, queryTotalCount := 0, false, 0, 0;
      queryFailedCount, querySuccessCount, this.stopOnError := 0, 0, stopOnError;
    }

    method RunQueries(outcomes: seq<bool>, flags: seq<bool>) returns (ok: bool, reported: seq<nat>)
      requires |outcomes| == |flags|
      modifies this
      ensures stopOnError == old(stopOnError) && queryTotalCount == |outcomes| && ok == !failed
      ensures IsRunEnd(stopOnError, outcomes, flags,
                       RunEnd(results, currentQueryIndex, querySuccessCount, queryFailedCount, failed, reported))
    {
      results, failed, currentQueryIndex := 0, false, 0;
      queryTotalCount, queryFailedCount, querySuccessCount := |outcomes|, 0, 0;
      reported := [];
      var doBreak := false;
      for i := 0 to |outcomes|
        invariant stopOnError == old(stopOnError) && queryTotalCount == |outcomes| && results == i
        invariant !failed && !doBreak
        invariant currentQueryIndex == if i < |outcomes| || i == 0 then i else i - 1
        invariant forall k | 0 <= k < i :: !StopsAt(|outcomes|, stopOnError, outcomes, flags, k)
        invariant querySuccessCount == CountOf(outcomes[..i], true)
        invariant queryFailedCount == CountOf(outcomes[..i], false)
        invariant reported == seq(i, k => k)
      {
        results := results + 1;
        OneMoreOutcome(outcomes, i);
        if outcomes[i] {
          querySuccessCount := querySuccessCount + 1;
        } else {
          queryFailedCount := queryFailedCount + 1;
          if stopOnError || currentQueryIndex == queryTotalCount - 1 {
            failed := true;
            doBreak := true;
          }
        }
        reported := reported + [currentQueryIndex];
        if flags[i] {
          doBreak := true;
        }
        if doBreak {
          break;
        }
        if currentQueryIndex < queryTotalCount - 1 {
          currentQueryIndex := currentQueryIndex + 1;
        }
      }
      assert doBreak || results == 0 || !StopsAt(|outcomes|, stopOnError, outcomes, flags, results - 1);
      ok := !failed;
    }
  }

  lemma OneMoreOutcome(outcomes: seq<bool>, i: nat)
    requires i < |outcomes|
    ensures CountOf(outcomes[..i + 1], true) == CountOf(outcomes[..i], true) + if outcomes[i] then 1 else 0
    ensures CountOf(outcomes[..i + 1], false) == CountOf(outcomes[..i], false) + if outcomes[i] then 0 else 1
  {
    assert outcomes[..i + 1] == outcomes[..i] + [outcomes[i]];
    CountMore(outcomes[..i], outcomes[i], true);
    CountMore(outcomes[..i], outcomes[i], false);
  }
}
