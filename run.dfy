/** The host loop of the Magallanes `lock` task: every configured host is
    normalised and, while the running result is still true, put through
    one lock step; the results are combined with a short-circuit `&&`, and
    an error raised by a step ends the whole run. */
module LockRun {
  import opened Php
  import opened Lock

  /** One invocation of the per-host step: the host it ran against and the
      remote commands it issued. */
  datatype Call = Call(target: Target, commands: seq<string>)

  /** What a run returns (its boolean, or the error that ended it), and the
      per-host steps it invoked, in order. */
  datatype RunOutcome = RunOutcome(result: Result<bool>, calls: seq<Call>)

  /** The loop from accumulator `ret` over the remaining host entries: once
      `ret` is false, `ret && step` no longer evaluates the step. */
  function Fold(ret: bool, a: Value, hosts: seq<HostEntry>, w: World): (o: RunOutcome)
    ensures o.result == Ok(true) ==> ret
    ensures o.result.Err? ==> ret && o.calls != []
    decreases |hosts|
  {
    if hosts == [] then RunOutcome(Ok(ret), [])
    else if !ret then Fold(false, a, hosts[1..], w)
    else
      var t := Normalise(hosts[0]);
      var s := LockTask(a, t, w);
      match s.result
      case Err(e) => RunOutcome(Err(e), [Call(t, s.commands)])
      case Ok(b) =>
        var rest := Fold(b, a, hosts[1..], w);
        RunOutcome(rest.result, [Call(t, s.commands)] + rest.calls)
  }

  /** The whole task: resolve the action once, then fold from `true`. */
  function RunSpec(params: map<string, Value>, hosts: seq<HostEntry>, w: World): RunOutcome
  {
    Fold(true, ResolveAction(params), hosts, w)
  }

  /** The task as `Lock::run` writes it: a loop over the hosts updating the
      accumulator. */
  method Run(params: map<string, Value>, hosts: seq<HostEntry>, w: World)
    returns (r: Result<bool>, calls: seq<Call>)
    ensures RunOutcome(r, calls) == RunSpec(params, hosts, w)
  {
    var a := ResolveAction(params);
    var ret := true;
    calls := [];
    var i := 0;
    while i < |hosts|
      invariant 0 <= i <= |hosts|
      invariant Fold(true, a, hosts, w)
                == RunOutcome(Fold(ret, a, hosts[i..], w).result, calls + Fold(ret, a, hosts[i..], w).calls)
    {
      var t := Normalise(hosts[i]);
      ghost var remaining := hosts[i..];
      assert remaining[0] == hosts[i] && remaining[1..] == hosts[i + 1..];
      if ret {
        var step := RunLockTask(a, t, w);
        var call := Call(t, step.commands);
        if step.result.Err? {
          assert Fold(true, a, remaining, w) == RunOutcome(step.result, [call]);
          return Err(step.result.error), calls + [call];
        }
        ghost var rest := Fold(step.result.value, a, hosts[i + 1..], w);
        assert Fold(true, a, remaining, w) == RunOutcome(rest.result, [call] + rest.calls);
        assert calls + ([call] + rest.calls) == (calls + [call]) + rest.calls;
        calls := calls + [call];
        ret := step.result.value;
      } else {
        assert Fold(false, a, remaining, w) == Fold(false, a, hosts[i + 1..], w);
      }
      i := i + 1;
    }
    r := Ok(ret);
  }

  // ---------------------------------------------------------------------
  // Properties of the loop
  // ---------------------------------------------------------------------

  /** The step the loop would run for the host entry at index `i`. */
  function StepAt(a: Value, hosts: seq<HostEntry>, w: World, i: nat): Step
    requires i < |hosts|
  {
    LockTask(a, Normalise(hosts[i]), w)
  }

  function CallAt(a: Value, hosts: seq<HostEntry>, w: World, i: nat): Call
    requires i < |hosts|
  {
    Call(Normalise(hosts[i]), StepAt(a, hosts, w, i).commands)
  }

  /** The index of the first host whose step does not return true, or the
      number of hosts when every step does. */
  function FirstStop(a: Value, hosts: seq<HostEntry>, w: World): (k: nat)
    ensures k <= |hosts|
    ensures forall i :: 0 <= i < k ==> StepAt(a, hosts, w, i).result == Ok(true)
    ensures k < |hosts| ==> StepAt(a, hosts, w, k).result != Ok(true)
    decreases |hosts|
  {
    if hosts == [] then 0
    else if StepAt(a, hosts, w, 0).result != Ok(true) then 0
    else
      var k := 1 + FirstStop(a, hosts[1..], w);
      assert forall i :: 1 <= i < k ==> StepAt(a, hosts, w, i) == StepAt(a, hosts[1..], w, i - 1);
      k
  }

  /** Once the accumulator is false, no later host is stepped and the run
      returns false. */
  lemma {:induction false} FoldAfterFalse(a: Value, hosts: seq<HostEntry>, w: World)
    ensures Fold(false, a, hosts, w) == RunOutcome(Ok(false), [])
    decreases |hosts|
  {
    if hosts != [] {
      FoldAfterFalse(a, hosts[1..], w);
    }
  }

  /** The run steps exactly the hosts up to and including the first whose
      step does not return true, and ends with that step's result (true
      when there is none, the empty host list included). */
  lemma {:induction false} FoldCharacterised(a: Value, hosts: seq<HostEntry>, w: World)
    ensures var o, k := Fold(true, a, hosts, w), FirstStop(a, hosts, w);
            && o.result == (if k == |hosts| then Ok(true) else StepAt(a, hosts, w, k).result)
            && |o.calls| == (if k == |hosts| then k else k + 1)
            && forall i :: 0 <= i < |o.calls| ==> i < |hosts| && o.calls[i] == CallAt(a, hosts, w, i)
    decreases |hosts|
  {
    if hosts != [] {
      var s := StepAt(a, hosts, w, 0);
      var first := CallAt(a, hosts, w, 0);
      if s.result.Err? {
        assert FirstStop(a, hosts, w) == 0;
        assert Fold(true, a, hosts, w) == RunOutcome(s.result, [first]);
      } else if !s.result.value {
        FoldAfterFalse(a, hosts[1..], w);
        assert FirstStop(a, hosts, w) == 0;
        assert Fold(true, a, hosts, w) == RunOutcome(Ok(false), [first]);
      } else {
        FoldCharacterised(a, hosts[1..], w);
        var rest := Fold(true, a, hosts[1..], w);
        assert FirstStop(a, hosts, w) == 1 + FirstStop(a, hosts[1..], w);
        assert Fold(true, a, hosts, w) == RunOutcome(rest.result, [first] + rest.calls);
        forall i | 0 <= i < |rest.calls|
          ensures CallAt(a, hosts[1..], w, i) == CallAt(a, hosts, w, i + 1)
        {
          assert hosts[1..][i] == hosts[i + 1];
        }
      }
    }
  }

  /** The run returns true exactly when every host's step returns true,
      that is, when every host is only probed and none is locked. */
  lemma RunPasses(params: map<string, Value>, hosts: seq<HostEntry>, w: World)
    ensures RunSpec(params, hosts, w).result == Ok(true)
            <==> forall i :: 0 <= i < |hosts| ==> StepAt(ResolveAction(params), hosts, w, i).result == Ok(true)
  {
    FoldCharacterised(ResolveAction(params), hosts, w);
  }

  /** An empty host list passes without a single step. */
  lemma RunNoHosts(params: map<string, Value>, w: World)
    ensures RunSpec(params, [], w) == RunOutcome(Ok(true), [])
  {
  }

  /** A lock or an unlock only ever reaches the first configured host: its
      step returns false or raises, and the short-circuit skips the rest. */
  lemma LockAndUnlockReachOnlyFirstHost(params: map<string, Value>, hosts: seq<HostEntry>, w: World)
    requires hosts != []
    requires ActionOf(ResolveAction(params)) != Probe
    ensures var o := RunSpec(params, hosts, w);
            && o.calls == [CallAt(ResolveAction(params), hosts, w, 0)]
            && o.result == StepAt(ResolveAction(params), hosts, w, 0).result
            && o.result != Ok(true)
  {
    var a := ResolveAction(params);
    StepPasses(a, Normalise(hosts[0]), w);
    FoldCharacterised(a, hosts, w);
  }

  /** An error raised on one host ends the run: no later host is stepped. */
  lemma ErrorEndsRun(params: map<string, Value>, hosts: seq<HostEntry>, w: World)
    ensures var o := RunSpec(params, hosts, w);
            o.result.Err? ==> 0 < |o.calls| <= |hosts|
                              && StepAt(ResolveAction(params), hosts, w, |o.calls| - 1).result == o.result
                              && forall i :: 0 <= i < |o.calls| - 1
                                   ==> StepAt(ResolveAction(params), hosts, w, i).result == Ok(true)
  {
    FoldCharacterised(ResolveAction(params), hosts, w);
  }
}
