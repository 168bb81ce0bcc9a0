/**
 * The bookkeeping of an update task (UpdateTask, and the identical code of
 * ForumsRefreshTask): a once-only execute guard, a failure flag, a count of
 * open page requests and a one-shot finish latch, with the page handlers'
 * events as pure transitions. The worker thread and the latch are sequential
 * here: the latch is a flag, and the waiting thread's resumption is an event
 * carrying the state it observes.
 */
module Crawl {
  import opened Wrappers

  /**
   * `executed`, `failed`, the `openTasks` counter and whether the
   * `finishedSignal` latch (count 1) has been counted down.
   */
  datatype Crawl = Crawl(executed: bool, failed: bool, openTasks: int, signalled: bool)

  /** A newly constructed task. */
  const Fresh := Crawl(false, false, 0, false)

  const AlreadyExecuted := "Task already executed - you need to create a new one!"

  /** What a page handler's parsing can do to its task: start a further request, or fail the task. */
  datatype Action = Start | Fail

  /** How the waiting thread came back from `await`: it returned (latch released or timed out), or it was interrupted. */
  datatype Wake = Resumed | Interrupted

  /** `startTask`: count one more open request, unless the task has failed. */
  function StartTask(c: Crawl): Crawl {
    if !c.failed then c.(openTasks := c.openTasks + 1) else c
  }

  /** `fail`: flag the task as failed, leaving the latch alone. */
  function FailTask(c: Crawl): Crawl {
    c.(failed := true)
  }

  /**
   * `finishTask(success)`: one request fewer; a failure flags the task and
   * releases the latch, a success releases it once nothing is left open.
   */
  function FinishTask(c: Crawl, success: bool): Crawl {
    var remaining := c.openTasks - 1;
    if !success then c.(openTasks := remaining, failed := true, signalled := true)
    else c.(openTasks := remaining, signalled := c.signalled || remaining <= 0)
  }

  function Perform(c: Crawl, a: Action): Crawl {
    match a
    case Start => StartTask(c)
    case Fail => FailTask(c)
  }

  /** The effect of a handler's parsing: its actions in order. */
  function PerformAll(c: Crawl, acts: seq<Action>): Crawl
    decreases |acts|
  {
    if acts == [] then c else PerformAll(Perform(c, acts[0]), acts[1..])
  }

  /** `ForumParseTask.handleResponse`: the page is parsed first, then the request is finished as a success. */
  function HandleResponse(c: Crawl, acts: seq<Action>): Crawl {
    FinishTask(PerformAll(c, acts), true)
  }

  /** `ForumParseTask.handleError`: the request is finished as a failure. */
  function HandleError(c: Crawl): Crawl {
    FinishTask(c, false)
  }

  /**
   * `execute`: refused with `IllegalStateException` on a task that already ran;
   * otherwise marks the task executed and starts the initial request.
   */
  function Execute(c: Crawl): (r: Result<Crawl, string>)
    ensures r.Failure? <==> c.executed
    ensures r.Failure? ==> r.error == AlreadyExecuted
    ensures r.Success? ==> r.value.executed && r.value.signalled == c.signalled
  {
    if c.executed then Failure(AlreadyExecuted) else Success(StartTask(c.(executed := true)))
  }

  /** `success = completed && !failed`, where an interrupted wait counts as not completed. */
  function Succeeded(c: Crawl, w: Wake): bool {
    w == Resumed && c.signalled && !c.failed
  }

  /**
   * What the listener receives: the success flag, and the built result only
   * on success (`null` otherwise). `build` is only used when the task succeeded.
   */
  function Deliver<T>(c: Crawl, w: Wake, build: T): (r: (bool, Option<T>))
    ensures r.0 <==> Succeeded(c, w)
    ensures r.1.Some? <==> r.0
    ensures r.1.Some? ==> r.1.value == build
  {
    if Succeeded(c, w) then (true, Some(build)) else (false, None)
  }

  // ---------------------------------------------------------------------
  // The bookkeeping invariant
  // ---------------------------------------------------------------------

  /**
   * The state of a running task: the count is never negative, the latch is
   * still closed only while a request is open, and a latch released without
   * a failure means no request is open.
   */
  ghost predicate Running(c: Crawl) {
    && c.executed
    && c.openTasks >= 0
    && (!c.signalled ==> c.openTasks > 0)
    && (c.signalled && !c.failed ==> c.openTasks == 0)
  }

  lemma ExecuteStartsRunning()
    ensures Execute(Fresh) == Success(Crawl(true, false, 1, false))
    ensures Running(Execute(Fresh).value)
  {
  }

  /** What can happen to a task between two calls: a page answers (its handler parsing with the given actions), or a request fails. */
  datatype Event = Response(acts: seq<Action>) | Error

  function Step(c: Crawl, e: Event): Crawl {
    match e
    case Response(acts) => HandleResponse(c, acts)
    case Error => HandleError(c)
  }

  /** The events in order. */
  function Run(c: Crawl, events: seq<Event>): Crawl
    decreases |events|
  {
    if events == [] then c else Run(Step(c, events[0]), events[1..])
  }

  /** A task runs once: executing it again is refused, whatever responses and errors came in between. */
  lemma ExecuteOnce(c: Crawl, acts: seq<Action>, events: seq<Event>)
    requires Execute(c).Success?
    ensures Execute(Execute(c).value).Failure?
    ensures Execute(HandleResponse(Execute(c).value, acts)).Failure?
    ensures Execute(HandleError(Execute(c).value)).Failure?
    ensures Execute(Run(Execute(c).value, events)).Failure?
  {
    PerformKeepsExecuted(Execute(c).value, acts);
    RunKeepsExecuted(Execute(c).value, events);
  }

  lemma {:induction false} RunKeepsExecuted(c: Crawl, events: seq<Event>)
    ensures Run(c, events).executed == c.executed
    decreases |events|
  {
    if events != [] {
      if events[0].Response? {
        PerformKeepsExecuted(c, events[0].acts);
      }
      RunKeepsExecuted(Step(c, events[0]), events[1..]);
    }
  }

  lemma {:induction false} PerformKeepsExecuted(c: Crawl, acts: seq<Action>)
    ensures PerformAll(c, acts).executed == c.executed
    decreases |acts|
  {
    if acts != [] {
      PerformKeepsExecuted(Perform(c, acts[0]), acts[1..]);
    }
  }

  /**
   * Parsing only ever adds open requests (none once failed), never lowers the
   * count, keeps a failure, and leaves the latch alone.
   */
  lemma {:induction false} PerformAllEffect(c: Crawl, acts: seq<Action>)
    ensures var r := PerformAll(c, acts);
      && r.executed == c.executed && r.signalled == c.signalled
      && r.openTasks >= c.openTasks
      && (c.failed ==> r.failed && r.openTasks == c.openTasks)
      && (r.failed <==> c.failed || Fail in acts)
      && (!r.failed ==> r.openTasks == c.openTasks + |acts|)
    decreases |acts|
  {
    if acts != [] {
      var c1 := Perform(c, acts[0]);
      PerformAllEffect(c1, acts[1..]);
      assert acts == [acts[0]] + acts[1..];
      assert Fail in acts <==> acts[0] == Fail || Fail in acts[1..];
    }
  }

  /** Every request the handler starts is counted before the handler's own request is finished. */
  lemma HandleResponseKeepsRunning(c: Crawl, acts: seq<Action>)
    requires Running(c) && c.openTasks > 0
    ensures Running(HandleResponse(c, acts))
  {
    PerformAllEffect(c, acts);
  }

  lemma HandleErrorKeepsRunning(c: Crawl)
    requires Running(c) && c.openTasks > 0
    ensures Running(HandleError(c))
    ensures HandleError(c).failed && HandleError(c).signalled
  {
  }

  /** A successful outcome means every request that was started has finished. */
  lemma SuccessMeansDrained(c: Crawl, w: Wake)
    requires Running(c)
    ensures Succeeded(c, w) ==> c.openTasks == 0
    ensures Succeeded(c, w) <==> w == Resumed && c.signalled && !c.failed
  {
  }

  /**
   * Finishing the handler's request before counting the requests it starts
   * would release the latch with a request still open: a running task with
   * one open request whose page yields one more.
   */
  lemma ChildrenCountedFirst()
    ensures var c := Crawl(true, false, 1, false);
      && Running(c)
      && !HandleResponse(c, [Start]).signalled
      && var early := PerformAll(FinishTask(c, true), [Start]);
         early.signalled && !early.failed && early.openTasks == 1 && !Running(early)
  {
    var c := Crawl(true, false, 1, false);
    assert PerformAll(c, [Start]) == Crawl(true, false, 2, false);
    assert PerformAll(Crawl(true, false, 0, true), [Start]) == Crawl(true, false, 1, true);
  }

  /** The latch is one-shot and a failure is permanent: no event undoes either. */
  lemma LatchAndFailureStick(c: Crawl, acts: seq<Action>, success: bool)
    ensures c.signalled ==> HandleResponse(c, acts).signalled && HandleError(c).signalled
    ensures c.signalled ==> FinishTask(c, success).signalled && StartTask(c).signalled
    ensures c.failed ==> HandleResponse(c, acts).failed && FinishTask(c, success).failed
    ensures c.failed ==> StartTask(c) == c
  {
    PerformAllEffect(c, acts);
  }

  /** `finishTask(true)` releases the latch exactly when no request is left open (or it was released already). */
  lemma FinishSuccessSignals(c: Crawl)
    ensures FinishTask(c, true).openTasks == c.openTasks - 1
    ensures FinishTask(c, true).failed == c.failed
    ensures FinishTask(c, true).signalled <==> c.signalled || c.openTasks <= 1
  {
  }

  /** `finishTask(false)` releases the latch whatever is left open. */
  lemma FinishFailureSignals(c: Crawl)
    ensures FinishTask(c, false).openTasks == c.openTasks - 1
    ensures FinishTask(c, false).failed && FinishTask(c, false).signalled
    ensures !Succeeded(FinishTask(c, false), Resumed)
  {
  }

  /** The requests that answer in turn, each handler parsing with the given actions. */
  function Responses(c: Crawl, pages: seq<seq<Action>>): Crawl
    decreases |pages|
  {
    if pages == [] then c else Responses(HandleResponse(c, pages[0]), pages[1..])
  }

  /**
   * After `fail()` the run winds down: no further request is started, so once
   * the open ones have answered the latch is released, with a failed outcome.
   */
  lemma {:induction false} FailedRunDrains(c: Crawl, pages: seq<seq<Action>>)
    requires Running(c) && c.failed && |pages| == c.openTasks
    ensures var r := Responses(c, pages);
      r.openTasks == 0 && r.signalled && r.failed && Running(r)
    ensures forall w :: !Succeeded(Responses(c, pages), w)
    decreases |pages|
  {
    if pages != [] {
      var c1 := HandleResponse(c, pages[0]);
      PerformAllEffect(c, pages[0]);
      assert c1.openTasks == c.openTasks - 1;
      FailedRunDrains(c1, pages[1..]);
    }
  }

  /**
   * If no page fails the task and every response answers a request still
   * open, the run ends with nothing open and a successful outcome once the
   * last one has answered.
   */
  lemma {:induction false} AllSucceedDrains(c: Crawl, pages: seq<seq<Action>>)
    requires Running(c) && !c.failed
    requires forall k :: 0 <= k < |pages| ==> Fail !in pages[k]
    requires forall k :: 0 <= k < |pages| ==> Responses(c, pages[..k]).openTasks > 0
    requires Responses(c, pages).openTasks == 0
    ensures Responses(c, pages).openTasks == 0 && Succeeded(Responses(c, pages), Resumed)
    decreases |pages|
  {
    if pages != [] {
      assert pages[..0] == [];
      var c1 := HandleResponse(c, pages[0]);
      HandleResponseKeepsRunning(c, pages[0]);
      PerformAllEffect(c, pages[0]);
      forall k | 0 <= k < |pages[1..]|
        ensures Responses(c1, pages[1..][..k]).openTasks > 0
      {
        ResponsesShift(c, pages, k + 1);
      }
      AllSucceedDrains(c1, pages[1..]);
    }
  }

  /** Answering the first `k + 1` pages is answering the first, then `k` more. */
  lemma ResponsesShift(c: Crawl, pages: seq<seq<Action>>, k: nat)
    requires 0 < k <= |pages|
    ensures Responses(c, pages[..k]) == Responses(HandleResponse(c, pages[0]), pages[1..][..k - 1])
  {
    var pre := pages[..k];
    assert pre[0] == pages[0] && pre[1..] == pages[1..][..k - 1];
  }
}
