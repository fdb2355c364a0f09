/**
 * The around-advice chain of `ReflectiveMethodInvocation`: one mutable index walks a fixed list of
 * interceptors, and the call after the last interceptor runs the real method on the target.
 */
module Aop {
  import opened Reflection

  /**
   * A `java.lang.reflect.Method`: its name and what invoking it on a target with given arguments
   * returns. The method body is code outside the model, so it is a parameter of the invocation.
   * Java values (target, arguments, results) are the runtime values of `Reflection`.
   */
  datatype Method = Method(name: string, body: (Obj, seq<Arg>) -> Arg)

  /**
   * A `MethodInterceptor`, by what its `invoke` does with the invocation it receives:
   * `Timing` is the TimeLoggingAspect, which calls `proceed` once and returns its result (the clock
   * readings and the console line are left out); `Answer(v)` returns `v` without proceeding.
   */
  datatype Interceptor = Timing | Answer(result: Arg)

  /** What happened during a chain, in order: interceptor `k` was entered, or the real method ran. */
  datatype Event = Entered(k: nat) | Invoked

  /** The outcome of one `proceed` call: the value returned, the events it caused and the final index. */
  datatype Outcome = Outcome(result: Arg, trace: seq<Event>, index: nat)

  /**
   * The outcome of the `proceed` call that moves the index to `k`, when `ret` is what the real
   * method returns: at `k == |ics|` the method runs; otherwise interceptor `k` is invoked.
   */
  function Run(ics: seq<Interceptor>, k: nat, ret: Arg): Outcome
    requires k <= |ics|
    decreases |ics| - k
  {
    if k == |ics| then Outcome(ret, [Invoked], k)
    else match ics[k]
      case Timing =>
        var rest := Run(ics, k + 1, ret);
        Outcome(rest.result, [Entered(k)] + rest.trace, rest.index)
      case Answer(v) => Outcome(v, [Entered(k)], k)
  }

  /** The events "interceptor k entered" for k = lo, ..., hi - 1, in that order. */
  function Entries(lo: nat, hi: nat): (r: seq<Event>)
    requires lo <= hi
    ensures |r| == hi - lo
    ensures forall i :: 0 <= i < |r| ==> r[i] == Entered(lo + i)
    decreases hi - lo
  {
    if lo == hi then [] else [Entered(lo)] + Entries(lo + 1, hi)
  }

  /** The first interceptor from `k` on that answers without proceeding, or `|ics|` if there is none. */
  function FirstAnswer(ics: seq<Interceptor>, k: nat): (j: nat)
    requires k <= |ics|
    ensures k <= j <= |ics|
    ensures forall i :: k <= i < j ==> ics[i].Timing?
    ensures j < |ics| ==> ics[j].Answer?
    decreases |ics| - k
  {
    if k == |ics| || ics[k].Answer? then k else FirstAnswer(ics, k + 1)
  }

  /**
   * The shape of every chain: the interceptors from `k` up to the first one that answers are entered
   * in list order; if one answers, its value is the result and the real method never runs;
   * otherwise the real method runs exactly once, last, and its value is the result.
   */
  lemma {:induction false} RunShape(ics: seq<Interceptor>, k: nat, ret: Arg)
    requires k <= |ics|
    ensures var o := Run(ics, k, ret); var j := FirstAnswer(ics, k);
      && o.index == j
      && (j < |ics| ==> o.result == ics[j].result && o.trace == Entries(k, j + 1))
      && (j == |ics| ==> o.result == ret && o.trace == Entries(k, j) + [Invoked])
    decreases |ics| - k
  {
    if k < |ics| && ics[k].Timing? {
      RunShape(ics, k + 1, ret);
      var j := FirstAnswer(ics, k);
      if j < |ics| {
        assert Entries(k, j + 1) == [Entered(k)] + Entries(k + 1, j + 1);
      } else {
        assert Entries(k, j) + [Invoked] == [Entered(k)] + (Entries(k + 1, j) + [Invoked]);
      }
    }
  }

  /** The real method runs during a chain exactly when no interceptor from `k` on answers by itself. */
  lemma {:induction false} RunReachesMethod(ics: seq<Interceptor>, k: nat, ret: Arg)
    requires k <= |ics|
    ensures Invoked in Run(ics, k, ret).trace <==> forall i :: k <= i < |ics| ==> ics[i].Timing?
  {
    RunShape(ics, k, ret);
    var j := FirstAnswer(ics, k);
    if j < |ics| {
      assert Invoked !in Entries(k, j + 1);
    }
  }

  /**
   * When every interceptor is a TimeLoggingAspect, the chain enters them all in list order, then runs
   * the real method exactly once, returns its value and leaves the index at `|ics|`.
   */
  lemma AllTimingRunsMethodOnce(ics: seq<Interceptor>, ret: Arg)
    requires forall i :: 0 <= i < |ics| ==> ics[i].Timing?
    ensures var o := Run(ics, 0, ret);
      && o.result == ret
      && o.index == |ics|
      && o.trace == Entries(0, |ics|) + [Invoked]
      && multiset(o.trace)[Invoked] == 1
  {
    RunShape(ics, 0, ret);
    assert Invoked !in Entries(0, |ics|);
  }

  /** An interceptor that answers stops the chain: the interceptors after it and the real method never run. */
  lemma AnswerStopsChain(ics: seq<Interceptor>, k: nat, ret: Arg)
    requires k < |ics| && ics[k].Answer?
    requires forall i :: 0 <= i < k ==> ics[i].Timing?
    ensures var o := Run(ics, 0, ret);
      && o.result == ics[k].result
      && o.index == k
      && Invoked !in o.trace
      && (forall i: nat :: Entered(i) in o.trace <==> i <= k)
  {
    RunShape(ics, 0, ret);
    assert FirstAnswer(ics, 0) == k;
    var tr := Entries(0, k + 1);
    forall i: nat | Entered(i) in tr ensures i <= k {
      var p :| 0 <= p < |tr| && tr[p] == Entered(i);
    }
    forall i: nat | i <= k ensures Entered(i) in tr {
      assert tr[i] == Entered(i);
    }
  }

  class ReflectiveMethodInvocation {
    const target: Obj
    const targetMethod: Method
    const args: seq<Arg>
    const interceptors: seq<Interceptor>
    /** Position in `interceptors` of the interceptor entered last; -1 before the first `proceed`. */
    var itcIndex: int
    /** The events so far: a proof device, not part of the Java object. */
    ghost var trace: seq<Event>

    /** Target, method, arguments and interceptors are fixed here; the index starts before the list. */
    constructor (target: Obj, targetMethod: Method, args: seq<Arg>, interceptors: seq<Interceptor>)
      ensures this.target == target && this.targetMethod == targetMethod
      ensures this.args == args && this.interceptors == interceptors
      ensures itcIndex == -1 && trace == []
    {
      this.target := target;
      this.targetMethod := targetMethod;
      this.args := args;
      this.interceptors := interceptors;
      itcIndex := -1;
      trace := [];
    }

    /** What `method.invoke(target, args)` returns. */
    function RealResult(): Arg {
      targetMethod.body(target, args)
    }

    /**
     * Advances the index by one and either invokes the real method (the index has reached the end of
     * the list) or hands this invocation to the interceptor at the new index. The index may not
     * already be at the end: one more `proceed` would read past the list.
     */
    method Proceed() returns (r: Arg)
      requires -1 <= itcIndex < |interceptors|
      modifies this
      ensures var o := Run(interceptors, old(itcIndex) + 1, RealResult());
        r == o.result && itcIndex == o.index && trace == old(trace) + o.trace
      decreases |interceptors| - itcIndex, 0
    {
      itcIndex := itcIndex + 1;
      if itcIndex == |interceptors| {
        trace := trace + [Invoked];
        r := targetMethod.body(target, args);
        return;
      }
      var interceptor := interceptors[itcIndex];
      r := Invoke(interceptor);
    }

    /** `interceptor.invoke(this)`: runs the interceptor at the current index with this invocation. */
    method Invoke(interceptor: Interceptor) returns (r: Arg)
      requires 0 <= itcIndex < |interceptors| && interceptor == interceptors[itcIndex]
      modifies this
      ensures var o := Run(interceptors, old(itcIndex), RealResult());
        r == o.result && itcIndex == o.index && trace == old(trace) + o.trace
      decreases |interceptors| - itcIndex, 1
    {
      trace := trace + [Entered(itcIndex)];
      match interceptor
      case Timing =>
        r := Proceed();
      case Answer(v) =>
        r := v;
    }
  }

  /**
   * A fresh invocation whose interceptors are all TimeLoggingAspects: one top-level `proceed` returns
   * the real method's value, having run the method exactly once after entering every interceptor in
   * order; the index then sits at the end of the list, so no further `proceed` is allowed.
   */
  method ProceedThroughAspects(target: Obj, m: Method, args: seq<Arg>, ics: seq<Interceptor>)
    returns (r: Arg)
    requires forall i :: 0 <= i < |ics| ==> ics[i].Timing?
    ensures r == m.body(target, args)
  {
    var inv := new ReflectiveMethodInvocation(target, m, args, ics);
    r := inv.Proceed();
    AllTimingRunsMethodOnce(ics, inv.RealResult());
  }
}
