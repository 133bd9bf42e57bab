/** The notifier's global state as a value, and what each event of the
    event loop does to it (index.js:33-42, 44-154, 293-303). The class in
    notifier.dfy is the imperative program; each of its methods is specified
    by one of the functions here, and the lemmas below are about sequences
    of events. */
module Machine {
  import opened Graphics
  import opened Freshness
  import opened Timers
  import opened Animation

  /** The program's globals, plus what the outside world can observe of them:
      requests in flight, scheduled timeouts, the display and the answers
      written to /notify callers. */
  datatype Globals = Globals(
    count: nat,            // frame counter; 0 when no cycle runs
    interval: Timer,       // the background re-check handle
    palette: Palette,      // the slot variables A..H, X, R, O
    isSuccess: bool,       // the last fresh verdict (undefined, so falsy, at start)
    symbol: Option<Icon>,  // the icon showPixel drew last
    info: Option<Info>,    // the last report received with status 200
    pending: seq<bool>,    // requests in flight; true when checkURL was given a callback
    frameTimers: nat,      // scheduled continuations of the showStatus loop
    clearTimers: nat,      // scheduled sense.clear calls
    frames: seq<Frame>,    // every setPixels call, in order
    clears: nat,           // sense.clear calls so far
    responses: seq<Info>)  // what the /notify callbacks wrote, in order

  /** The counter never passes MAX_COUNT, and no cycle runs before a report
      has been received. This also holds inside a frame timeout, between
      consuming that timeout and the showStatus call it makes. */
  predicate Consistent(g: Globals)
  {
    g.count <= MAX_COUNT && (g.info.None? ==> g.count == 0 && g.frameTimers == 0)
  }

  /** What every reachable state satisfies: besides consistency, a cycle in
      progress always has a frame timeout pending, so the counter cannot
      stay away from 0 with nothing to move it on. */
  predicate Inv(g: Globals)
  {
    Consistent(g) && (g.count != 0 ==> g.frameTimers > 0)
  }

  /** The state at process start. */
  const Init: Globals :=
    Globals(0, NoTimer, Initial, false, None, None, [], 0, 0, [], 0, [])

  lemma InitValid()
    ensures Inv(Init) && Init.palette == Initial && Init.count == 0 && !Ticking(Init.interval)
  {
  }

  /** checkURL(callback): one more request in flight. */
  function AfterCheckURL(g: Globals, hasCallback: bool): (h: Globals)
    ensures Inv(g) ==> Inv(h)
    ensures |h.pending| == |g.pending| + 1 && h.pending[|g.pending|] == hasCallback
    ensures h.pending[..|g.pending|] == g.pending
    ensures h.(pending := g.pending) == g
  {
    g.(pending := g.pending + [hasCallback])
  }

  /** One showStatus call: either the terminal call of a cycle (counter back
      to 0, a clear scheduled, the background timer armed if the handle is
      null) or one frame rendered from the current palette, the palette
      shifted and the next call scheduled. */
  function AfterShowStatus(g: Globals): (h: Globals)
    requires Consistent(g) && g.info.Some?
    ensures Inv(h)
    ensures IsTerminal(Anim(g.count, g.palette)) ==>
      h.interval == ArmOnFinish(g.interval) && h.clearTimers == g.clearTimers + 1 &&
      h.frameTimers == g.frameTimers && h.symbol == g.symbol
    ensures !IsTerminal(Anim(g.count, g.palette)) ==>
      h.interval == g.interval && h.clearTimers == g.clearTimers &&
      h.frameTimers == g.frameTimers + 1 && h.symbol == Some(IconFor(g.isSuccess))
    ensures h.isSuccess == g.isSuccess && h.info == g.info && h.pending == g.pending
    ensures h.clears == g.clears && h.responses == g.responses
  {
    var icon := IconFor(g.isSuccess);
    if g.count == MAX_COUNT then
      g.(count := 0, clearTimers := g.clearTimers + 1, interval := ArmOnFinish(g.interval))
    else
      g.(count := g.count + 1, palette := Shift(icon, g.palette, g.count + 1), symbol := Some(icon),
         frames := g.frames + [Frame(icon, g.palette)], frameTimers := g.frameTimers + 1)
  }

  /** On the counter, the palette and the display, a showStatus call is one
      step of the frame loop of Animation with the icon of the last verdict. */
  lemma ShowStatusIsStep(g: Globals)
    requires Consistent(g) && g.info.Some?
    ensures var h := AfterShowStatus(g);
      Anim(h.count, h.palette) == Step(Anim(g.count, g.palette), IconFor(g.isSuccess)) &&
      h.frames == g.frames + Rendered(Anim(g.count, g.palette), IconFor(g.isSuccess))
  {
  }

  /** The handler of checkURL's request for the pending request `k`. */
  function AfterResponse(g: Globals, k: nat, resp: Response, now: int): (h: Globals)
    requires Inv(g) && k < |g.pending|
    ensures Inv(h)
    ensures h.pending == g.pending[..k] + g.pending[k + 1..]
    ensures h.interval == g.interval || h.interval == ArmOnFinish(g.interval)
    // the callback fires exactly once after a 200 response, and never otherwise
    ensures h.responses ==
      g.responses + (if Handle(resp, now).Accepted? && g.pending[k] then [Handle(resp, now).info] else [])
    // a transport error or another status changes nothing else
    ensures Handle(resp, now).Ignored? ==> h == g.(pending := h.pending)
    // a stale report is only retained
    ensures Handle(resp, now).Accepted? && Handle(resp, now).verdict == Stale ==>
      h == g.(pending := h.pending, info := Some(Handle(resp, now).info), responses := h.responses)
    // a fresh one sets isSuccess and runs one showStatus call
    ensures Handle(resp, now).Accepted? && Handle(resp, now).verdict != Stale ==>
      var informed := g.(pending := h.pending, info := Some(Handle(resp, now).info),
                         isSuccess := Handle(resp, now).verdict == Success);
      h == AfterShowStatus(informed).(responses := h.responses)
  {
    var rest := g.(pending := g.pending[..k] + g.pending[k + 1..]);
    match Handle(resp, now)
    case Ignored => rest
    case Accepted(i, v) =>
      var informed := rest.(info := Some(i));
      var shown := if v == Stale then informed else AfterShowStatus(informed.(isSuccess := v == Success));
      if g.pending[k] then shown.(responses := shown.responses + [i]) else shown
  }

  /** A fresh report arriving while no cycle runs starts one: the counter
      goes to 1, the first frame is the icon for the verdict (ok for "999",
      rainbow otherwise) drawn from the palette as found, and the next frame
      is scheduled. */
  lemma FreshReportStartsCycle(g: Globals, k: nat, resp: Response, now: int)
    requires Inv(g) && k < |g.pending| && g.count == 0
    requires resp.Reply? && resp.statusCode == 200 && IsFresh(resp.body, now)
    ensures var h := AfterResponse(g, k, resp, now);
      var success := resp.body.code == SUCCESS_CODE;
      h.isSuccess == success && h.count == 1 &&
      h.frames == g.frames + [Frame(if success then Ok else Rainbow, g.palette)] &&
      h.frameTimers == g.frameTimers + 1 && h.interval == g.interval
  {
    var h := AfterResponse(g, k, resp, now);
    var informed := g.(pending := h.pending, info := Some(Handle(resp, now).info),
                       isSuccess := resp.body.code == SUCCESS_CODE);
    assert h == AfterShowStatus(informed).(responses := h.responses);
  }

  /** triggerRefresh(callback): with the counter at 0 the background timer is
      stopped (its handle kept) and a check is started; otherwise only the
      callback, if any, is answered at once with the retained report. */
  function AfterTrigger(g: Globals, hasCallback: bool): (h: Globals)
    requires Inv(g)
    ensures Inv(h)
    ensures g.count == 0 ==>
      h == g.(interval := Cancel(g.interval), pending := g.pending + [hasCallback])
    ensures g.count != 0 ==>
      h == g.(responses := g.responses + (if hasCallback then [g.info.value] else []))
    // a check is started exactly when no cycle is running
    ensures |h.pending| > |g.pending| <==> g.count == 0
    // a cycle in progress is never disturbed
    ensures h.count == g.count && h.palette == g.palette && h.frames == g.frames
  {
    if g.count == 0 then AfterCheckURL(g.(interval := Cancel(g.interval)), hasCallback)
    else if hasCallback then g.(responses := g.responses + [g.info.value])
    else g
  }

  /** The timeout after a frame fires and showStatus runs again. */
  function AfterFrameTick(g: Globals): (h: Globals)
    requires Inv(g) && g.frameTimers > 0
    ensures Inv(h)
  {
    AfterShowStatus(g.(frameTimers := g.frameTimers - 1))
  }

  /** The deferred sense.clear runs. */
  function AfterClearTick(g: Globals): (h: Globals)
    requires g.clearTimers > 0
    ensures Inv(g) ==> Inv(h)
    ensures h.clears == g.clears + 1 && h.clearTimers == g.clearTimers - 1
    ensures h.(clears := g.clears, clearTimers := g.clearTimers) == g
  {
    g.(clearTimers := g.clearTimers - 1, clears := g.clears + 1)
  }

  /** The background timer fires and calls checkURL with no callback,
      bypassing triggerRefresh. */
  function AfterIntervalTick(g: Globals): (h: Globals)
    requires Ticking(g.interval)
    ensures Inv(g) ==> Inv(h)
  {
    AfterCheckURL(g, false)
  }

  /** The events the program reacts to. */
  datatype Event =
    | Boot                                  // main's own checkURL()
    | ButtonPress                           // a joystick press: triggerRefresh()
    | Notify                                // GET /notify: triggerRefresh(callback)
    | Delivered(k: nat, resp: Response, now: int)  // the answer to pending request k
    | FrameDue                              // a frame timeout fires
    | ClearDue                              // a deferred clear fires
    | IntervalDue                           // the background timer fires

  /** Whether the event can occur in state `g`. */
  predicate Enabled(g: Globals, e: Event)
  {
    match e
    case Delivered(k, _, _) => k < |g.pending|
    case FrameDue => g.frameTimers > 0
    case ClearDue => g.clearTimers > 0
    case IntervalDue => Ticking(g.interval)
    case _ => true
  }

  function Apply(g: Globals, e: Event): (h: Globals)
    requires Inv(g) && Enabled(g, e)
    ensures Inv(h)
  {
    match e
    case Boot => AfterCheckURL(g, false)
    case ButtonPress => AfterTrigger(g, false)
    case Notify => AfterTrigger(g, true)
    case Delivered(k, resp, now) => AfterResponse(g, k, resp, now)
    case FrameDue => AfterFrameTick(g)
    case ClearDue => AfterClearTick(g)
    case IntervalDue => AfterIntervalTick(g)
  }

  /** A run of the event loop: the events in order; one that cannot occur
      in the state it meets is skipped. */
  function RunEvents(g: Globals, events: seq<Event>): (h: Globals)
    requires Inv(g)
    ensures Inv(h)
    decreases |events|
  {
    if events == [] then g
    else
      var e := events[|events| - 1];
      var before := RunEvents(g, events[..|events| - 1]);
      if Enabled(before, e) then Apply(before, e) else before
  }

  /** An event leaves the handle alone, stops it, or arms it at the end of a cycle. */
  lemma ApplyInterval(g: Globals, e: Event)
    requires Inv(g) && Enabled(g, e)
    ensures var u := Apply(g, e).interval;
      u == g.interval || u == Cancel(g.interval) || u == ArmOnFinish(g.interval)
  {
    match e
    case FrameDue =>
      var g' := g.(frameTimers := g.frameTimers - 1);
      assert Apply(g, e) == AfterShowStatus(g');
    case _ =>
  }

  /** Once the background handle has been stopped by a trigger, no run of the
      event loop restarts it: clearInterval keeps the handle non-null, so a
      completed cycle never arms a new timer. */
  lemma {:induction false} StoppedTimerStaysStopped(g: Globals, events: seq<Event>)
    requires Inv(g) && g.interval.Armed? && !g.interval.running
    ensures RunEvents(g, events).interval == g.interval
    decreases |events|
  {
    if events != [] {
      var before := RunEvents(g, events[..|events| - 1]);
      StoppedTimerStaysStopped(g, events[..|events| - 1]);
      if Enabled(before, events[|events| - 1]) {
        ApplyInterval(before, events[|events| - 1]);
      }
    }
  }

  /** Likewise, once armed the handle is never replaced, so at most one
      background timer ever exists. */
  lemma {:induction false} ArmedHandleIsNeverReplaced(g: Globals, events: seq<Event>)
    requires Inv(g) && g.interval.Armed?
    ensures RunEvents(g, events).interval.Armed?
    ensures RunEvents(g, events).interval.periodMs == g.interval.periodMs
    decreases |events|
  {
    if events != [] {
      var before := RunEvents(g, events[..|events| - 1]);
      ArmedHandleIsNeverReplaced(g, events[..|events| - 1]);
      if Enabled(before, events[|events| - 1]) {
        ApplyInterval(before, events[|events| - 1]);
      }
    }
  }

  /** The number of requests in flight that carry a callback. */
  function Waiting(pending: seq<bool>): nat
  {
    multiset(pending)[true]
  }

  /** Removing request k removes its callback, if it had one. */
  lemma WaitingRemove(pending: seq<bool>, k: nat)
    requires k < |pending|
    ensures Waiting(pending[..k] + pending[k + 1..]) + (if pending[k] then 1 else 0) == Waiting(pending)
  {
    var front, back := pending[..k], pending[k + 1..];
    assert pending == front + [pending[k]] + back;
    assert multiset(pending) == multiset(front) + multiset{pending[k]} + multiset(back);
  }

  /** How many /notify requests a run contains. */
  function Notifies(events: seq<Event>): (n: nat)
    ensures n <= |events|
  {
    if events == [] then 0 else Notifies(events[..|events| - 1]) + (if events[|events| - 1] == Notify then 1 else 0)
  }

  /** One event adds at most one waiting or answered caller, and only a
      /notify request adds one. */
  lemma ApplyWaiting(g: Globals, e: Event)
    requires Inv(g) && Enabled(g, e)
    ensures var h := Apply(g, e);
      |h.responses| + Waiting(h.pending) <= |g.responses| + Waiting(g.pending) + (if e == Notify then 1 else 0)
  {
    match e
    case Delivered(k, resp, now) =>
      var h := AfterResponse(g, k, resp, now);
      assert Apply(g, e) == h;
      WaitingRemove(g.pending, k);
    case FrameDue =>
      assert Apply(g, e) == AfterShowStatus(g.(frameTimers := g.frameTimers - 1));
    case Boot =>
      assert Apply(g, e) == AfterCheckURL(g, false);
    case ButtonPress =>
      assert Apply(g, e) == AfterTrigger(g, false);
    case Notify =>
      assert Apply(g, e) == AfterTrigger(g, true);
    case ClearDue =>
    case IntervalDue =>
      assert Apply(g, e) == AfterCheckURL(g, false);
  }

  /** Every /notify caller is answered at most once: answers given plus
      callbacks still waiting never exceed those at the start plus the
      /notify requests of the run. A caller whose request fails drops out,
      so the bound is not an equality. */
  lemma {:induction false} NotifyAnsweredAtMostOnce(g: Globals, events: seq<Event>)
    requires Inv(g)
    ensures var h := RunEvents(g, events);
      |h.responses| + Waiting(h.pending) <= |g.responses| + Waiting(g.pending) + Notifies(events)
    decreases |events|
  {
    if events != [] {
      var init := events[..|events| - 1];
      var e := events[|events| - 1];
      var before := RunEvents(g, init);
      NotifyAnsweredAtMostOnce(g, init);
      if Enabled(before, e) {
        ApplyWaiting(before, e);
      }
    }
  }

  /** The counter stays 0 while a request is in flight, so two triggers in a
      row both start a check: nothing keeps two requests from being in
      flight at once. */
  lemma TwoChecksInFlight()
    ensures RunEvents(Init, [Boot, ButtonPress]).pending == [false, false]
  {
    var events := [Boot, ButtonPress];
    assert events[..1] == [Boot];
    assert events[..1][..0] == [];
  }

  /** The background timer calls checkURL without going through
      triggerRefresh, so nothing stops it: a fresh report it fetches starts a
      cycle while the timer keeps ticking, and frame timeouts and the
      background timer are live together. */
  lemma IntervalKeepsTickingDuringCycle(g: Globals, resp: Response, now: int)
    requires Inv(g) && Ticking(g.interval) && g.count == 0
    requires resp.Reply? && resp.statusCode == 200 && IsFresh(resp.body, now)
    ensures var h := RunEvents(g, [IntervalDue, Delivered(|g.pending|, resp, now)]);
      Ticking(h.interval) && h.count == 1 && h.frameTimers == g.frameTimers + 1
  {
    var events := [IntervalDue, Delivered(|g.pending|, resp, now)];
    assert events[..1] == [IntervalDue];
    assert [IntervalDue][..0] == [];
    var mid := AfterCheckURL(g, false);
    assert RunEvents(g, [IntervalDue]) == Apply(g, IntervalDue) == mid;
    FreshReportStartsCycle(mid, |g.pending|, resp, now);
  }

  /** showStatus does not check whether a loop is already running: a fresh
      report that arrives in the middle of a cycle (from a second check in
      flight, or from the background timer) advances the counter once more
      and starts a second frame loop beside the one already pending. */
  lemma MidCycleReportStartsSecondLoop(g: Globals, k: nat, resp: Response, now: int)
    requires Inv(g) && k < |g.pending| && 0 < g.count < MAX_COUNT
    requires resp.Reply? && resp.statusCode == 200 && IsFresh(resp.body, now)
    ensures var h := AfterResponse(g, k, resp, now);
      h.count == g.count + 1 && h.frameTimers == g.frameTimers + 1 && h.frameTimers >= 2
  {
    var h := AfterResponse(g, k, resp, now);
    var informed := g.(pending := h.pending, info := Some(Handle(resp, now).info),
                       isSuccess := resp.body.code == SUCCESS_CODE);
    assert h == AfterShowStatus(informed).(responses := h.responses);
  }

  /** `n` frame timeouts in a row. */
  function FrameTicks(n: nat): (events: seq<Event>)
    ensures |events| == n
    ensures forall i :: 0 <= i < n ==> events[i] == FrameDue
  {
    if n == 0 then [] else FrameTicks(n - 1) + [FrameDue]
  }

  /** In a cycle the pending frame timeout is always there to fire, and
      each one it fires advances the counter by one. */
  lemma {:induction false} FrameTicksAdvance(g: Globals, n: nat)
    requires Inv(g) && 0 < g.count && g.count + n <= MAX_COUNT
    ensures RunEvents(g, FrameTicks(n)).count == g.count + n
  {
    if n > 0 {
      var events := FrameTicks(n);
      assert events[..n - 1] == FrameTicks(n - 1);
      FrameTicksAdvance(g, n - 1);
      var before := RunEvents(g, FrameTicks(n - 1));
      assert Enabled(before, FrameDue);
      assert RunEvents(g, events) == AfterShowStatus(before.(frameTimers := before.frameTimers - 1));
    }
  }

  /** A running cycle always finishes: after the frame timeouts still due,
      the counter is back to 0, and the next trigger, refused while the
      cycle ran, starts a check. */
  lemma CycleDrains(g: Globals)
    requires Inv(g) && g.count != 0
    ensures var h := RunEvents(g, FrameTicks(MAX_COUNT - g.count + 1));
      h.count == 0 && |Apply(h, ButtonPress).pending| == |h.pending| + 1
  {
    var m := MAX_COUNT - g.count;
    var events := FrameTicks(m + 1);
    assert events[..m] == FrameTicks(m);
    FrameTicksAdvance(g, m);
    var last := RunEvents(g, FrameTicks(m));
    assert Enabled(last, FrameDue);
    assert RunEvents(g, events) == AfterShowStatus(last.(frameTimers := last.frameTimers - 1));
  }
}
