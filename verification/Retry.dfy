/** The retry loop of internal/common/utils/common.go. */
module Retry {
  import opened Wrappers

  datatype Outcome<E> = Success | Cancelled | Failure(error: E)

  /** The pauses between attempts, in milliseconds. */
  function RetryTimes(): seq<int> {
    [1000, 3000, 5000]
  }

  /** `callback(k)` is the error of the k-th call and `cancelled(k)` whether the context is
      done before it; `calls` counts the calls made and `slept` records the pauses.

      The loop calls at most once more than there are timers, pauses for the timers in order,
      one between any two calls, retries an error that some prober accepts, or any when there
      are no probers, and stops for exactly one of three reasons: success, cancellation, or an
      error it may not or can no longer retry. */
  method RetryAction<E>(timers: seq<int>, callback: nat -> Option<E>, cancelled: nat -> bool,
                        probers: seq<E -> bool>)
    returns (r: Outcome<E>, calls: nat, slept: seq<int>)
    ensures calls <= |timers| + 1
    ensures |slept| <= |timers| && slept == timers[..|slept|]
    ensures calls <= |slept| + 1 && |slept| <= calls
    ensures forall k :: 0 <= k < |slept| ==> callback(k).Some?
    ensures forall k :: 0 <= k < |slept| && callback(k).Some? && probers != [] ==>
              exists i :: 0 <= i < |probers| && probers[i](callback(k).value)
    ensures forall k :: 0 <= k < calls ==> !cancelled(k)
    ensures r.Success? <==> calls == |slept| + 1 && callback(calls - 1).None?
    ensures r.Cancelled? <==> calls == |slept|
    ensures r.Cancelled? ==> cancelled(calls)
    ensures r.Failure? ==> calls > 0 && callback(calls - 1) == Some(r.error)
    ensures r.Failure? && |slept| < |timers| ==>
              probers != [] && forall i :: 0 <= i < |probers| ==> !probers[i](r.error)
  {
    var left := timers;
    calls, slept := 0, [];
    while true
      invariant calls == |slept| && slept + left == timers
      invariant forall k :: 0 <= k < |slept| ==> callback(k).Some?
      invariant forall k :: 0 <= k < |slept| && callback(k).Some? && probers != [] ==>
                  exists i :: 0 <= i < |probers| && probers[i](callback(k).value)
      invariant forall k :: 0 <= k < calls ==> !cancelled(k)
      decreases |left|
    {
      if cancelled(calls) {
        return Cancelled, calls, slept;
      }
      var err := callback(calls);
      calls := calls + 1;
      if err.None? {
        return Success, calls, slept;
      }
      var shouldContinue := |probers| == 0;
      for i := 0 to |probers|
        invariant shouldContinue <==> probers == [] || exists j :: 0 <= j < i && probers[j](err.value)
      {
        if probers[i](err.value) {
          shouldContinue := true;
        }
      }
      if !shouldContinue || |left| == 0 {
        return Failure(err.value), calls, slept;
      }
      slept := slept + [left[0]];
      left := left[1..];
    }
  }

  /** The timers of start-up, no probers and a callback that always fails: four calls and all
      three pauses. */
  method RetryWithoutProbers<E>(callback: nat -> Option<E>) returns (r: Outcome<E>, calls: nat, slept: seq<int>)
    requires forall k :: callback(k).Some?
    ensures r.Failure? && calls == 4 && slept == [1000, 3000, 5000]
  {
    r, calls, slept := RetryAction(RetryTimes(), callback, _ => false, []);
    assert RetryTimes()[..|slept|] == slept;
  }
}
