/** The notifier program itself (index.js): one object whose fields are the
    globals, and one method per function of the program or hop of its event
    loop. Each method is specified by the matching function of Machine. */
module NotifierApp {
  import opened Graphics
  import opened Freshness
  import opened Timers
  import opened Animation
  import opened Machine

  class Notifier {
    var count: nat
    var interval: Timer
    var A: Color
    var B: Color
    var C: Color
    var D: Color
    var E: Color
    var F: Color
    var G: Color
    var H: Color
    var X: Color
    var R: Color
    var O: Color
    var isSuccess: bool
    var symbol: Option<Icon>
    var info: Option<Info>
    // what the world outside the program sees of it
    var pending: seq<bool>
    var frameTimers: nat
    var clearTimers: nat
    var frames: seq<Frame>
    var clears: nat
    var responses: seq<Info>

    /** The slot variables as one palette. */
    function Slots(): Palette
      reads this
    {
      Palette(A, B, C, D, E, F, G, H, X, R, O)
    }

    /** The whole state as a value. */
    function Snapshot(): Globals
      reads this
    {
      Globals(count, interval, Slots(), isSuccess, symbol, info,
              pending, frameTimers, clearTimers, frames, clears, responses)
    }

    predicate Valid()
      reads this
    {
      Inv(Snapshot())
    }

    /** The module-level initialisation (index.js:33-42, 159-179). */
    constructor ()
      ensures Valid() && Snapshot() == Init
    {
      count, interval := 0, NoTimer;
      O, R, X := White, Red, Black;
      A, B, C, D, E, F, G, H := Red, Orange, Yellow, Green, Cyan, Blue, Purple, White;
      isSuccess, symbol, info := false, None, None;
      pending, frameTimers, clearTimers := [], 0, 0;
      frames, clears, responses := [], 0, [];
    }

    /** main's final checkURL() (index.js:112): a check with no callback. */
    method Start()
      modifies this`pending
      ensures Snapshot() == AfterCheckURL(old(Snapshot()), false)
    {
      CheckURL(false);
    }

    /** checkURL(callback) issues its request; the answer arrives later
      through OnCheckResponse. */
    method CheckURL(hasCallback: bool)
      modifies this`pending
      ensures Snapshot() == AfterCheckURL(old(Snapshot()), hasCallback)
    {
      pending := pending + [hasCallback];
    }

    /** The request callback of checkURL for pending request k
      (index.js:45-71), at local time `now`. */
    method OnCheckResponse(k: nat, resp: Response, now: int)
      requires Valid() && k < |pending|
      modifies this
      ensures Valid()
      ensures Snapshot() == AfterResponse(old(Snapshot()), k, resp, now)
    {
      var hasCallback := pending[k];
      pending := pending[..k] + pending[k + 1..];
      if resp.Reply? && resp.statusCode == 200 {
        var body := resp.body;
        info := Some(Info(body.code, body.time, now));
        var diff := Age(body, now);
        if diff.Some? && diff.value <= ALERT_INTERVAL {
          if body.code == SUCCESS_CODE {
            ShowSuccess();
          } else {
            ShowFailure();
          }
        }
        if hasCallback {
          responses := responses + [info.value];
        }
      }
    }

    method ShowSuccess()
      requires Consistent(Snapshot()) && info.Some?
      modifies this
      ensures Valid()
      ensures Snapshot() == AfterShowStatus(old(Snapshot()).(isSuccess := true))
    {
      isSuccess := true;
      ShowStatus();
    }

    method ShowFailure()
      requires Consistent(Snapshot()) && info.Some?
      modifies this
      ensures Valid()
      ensures Snapshot() == AfterShowStatus(old(Snapshot()).(isSuccess := false))
    {
      isSuccess := false;
      ShowStatus();
    }

    /** One call of showStatus (index.js:125-154). `count++ == MAX_COUNT`
      compares before incrementing. The terminal call resets the counter,
      schedules sense.clear and arms the background timer only if the
      handle is null; any other call draws a frame and schedules the next
      call. */
    method ShowStatus()
      requires Consistent(Snapshot()) && info.Some?
      modifies this
      ensures Valid()
      ensures Snapshot() == AfterShowStatus(old(Snapshot()))
    {

      var wasMax := count == MAX_COUNT;
      count := count + 1;
      if wasMax {
        count := 0;
        clearTimers := clearTimers + 1;
        if interval == NoTimer {
          interval := Armed(RESTART_INTERVAL * 1000, true);
        }
        return;
      }
      ShowPixel();
      frameTimers := frameTimers + 1;
    }

    /** showPixel (index.js:183-194): draw the icon for the last verdict from
      the current slots, then shift the slots. */
    method ShowPixel()
      modifies this
      ensures unchanged(this`count, this`interval, this`isSuccess, this`info, this`pending)
      ensures unchanged(this`frameTimers, this`clearTimers, this`clears, this`responses)
      ensures symbol == Some(IconFor(isSuccess))
      ensures frames == old(frames) + [Frame(symbol.value, old(Slots()))]
      ensures Slots() == Shift(symbol.value, old(Slots()), count)
    {
      if isSuccess {
        symbol := Some(Ok);
      } else {
        symbol := Some(Rainbow);
      }
      frames := frames + [Frame(symbol.value, Slots())];
      ShiftColor();
    }

    /** shiftColor (index.js:196-225), switching on the icon just drawn and
      the counter after its increment. */
    method ShiftColor()
      requires symbol.Some?
      modifies this`A, this`B, this`C, this`D, this`E, this`F, this`G, this`H, this`X, this`R, this`O
      ensures Slots() == Shift(symbol.value, old(Slots()), count)
    {
      match symbol.value
      case Cross =>
        X := if count % 2 == 0 then Black else White;
      case Hsbc =>
        O := if count % 2 == 0 then Black else White;
        R := if count % 2 == 0 then Black else Red;
      case Ok =>
        R := if count % 2 == 0 then Black else Red;
        B := if count % 2 == 0 then Black else Green;
      case Rainbow =>
        var temp := A;
        A := B;
        B := C;
        C := D;
        D := E;
        E := F;
        F := G;
        G := H;
        H := temp;
    }

    /** clearInterval(interval): the timer stops, the handle stays. */
    method ClearInterval()
      modifies this`interval
      ensures interval == Cancel(old(interval))
    {
      if interval.Armed? {
        interval := interval.(running := false);
      }
    }

    /** triggerRefresh(callback) (index.js:293-303). */
    method TriggerRefresh(hasCallback: bool)
      requires Valid()
      modifies this`interval, this`pending, this`responses
      ensures Valid()
      ensures Snapshot() == AfterTrigger(old(Snapshot()), hasCallback)
    {
      if count == 0 {
        ClearInterval();
        CheckURL(hasCallback);
      } else {
        if hasCallback {
          responses := responses + [info.value];
        }
      }
    }

    /** A joystick press (index.js:82-85). */
    method OnButtonPress()
      requires Valid()
      modifies this`interval, this`pending, this`responses
      ensures Valid()
      ensures Snapshot() == Apply(old(Snapshot()), ButtonPress)
    {
      TriggerRefresh(false);
    }

    /** GET /notify (index.js:91-96): its callback writes the retained report. */
    method OnNotify()
      requires Valid()
      modifies this`interval, this`pending, this`responses
      ensures Valid()
      ensures Snapshot() == Apply(old(Snapshot()), Notify)
    {
      TriggerRefresh(true);
    }

    /** The frame timeout fires and the showStatus loop goes on. */
    method FrameTick()
      requires Valid() && frameTimers > 0
      modifies this
      ensures Valid()
      ensures Snapshot() == Apply(old(Snapshot()), FrameDue)
    {
      frameTimers := frameTimers - 1;
      ShowStatus();
    }

    /** The deferred sense.clear fires. */
    method ClearTick()
      requires clearTimers > 0
      modifies this`clearTimers, this`clears
      ensures Snapshot() == AfterClearTick(old(Snapshot()))
    {
      clearTimers := clearTimers - 1;
      clears := clears + 1;
    }

    /** The background timer fires: checkURL with no callback (index.js:132). */
    method IntervalTick()
      requires Valid() && Ticking(interval)
      modifies this`pending
      ensures Snapshot() == Apply(old(Snapshot()), IntervalDue)
    {
      CheckURL(false);
    }
  }
}
