/**
 The delayed call-to-action (DelayedCta).

 On mount a one-shot timer is armed for delaySeconds * 1000 ms; when it fires the
 offer (a link to the checkout URL) is revealed. Nothing hides it again. Unmounting
 cancels a pending timer. A change of delaySeconds cancels the pending timer and
 arms a fresh one for the whole new delay, but leaves the visibility as it is.
 */
module DelayedCta {

  const MsPerSecond: int := 1000
  const TwoTo31: int := 0x8000_0000
  const TwoTo32: int := 0x1_0000_0000

  /**
   The conversion of an integral number to a Web IDL `long` (ToInt32): the value
   modulo 2^32, read as a signed 32-bit integer. setTimeout takes its delay as a `long`.
   */
  function ToLong(x: int): (r: int)
    ensures -TwoTo31 <= r < TwoTo31
    ensures (x - r) % TwoTo32 == 0
  {
    var m := x % TwoTo32;
    assert x == TwoTo32 * (x / TwoTo32) + m;
    if m >= TwoTo31 then m - TwoTo32 else m
  }

  /**
   The delay, in milliseconds, of the timer armed for delaySeconds: converted to a
   `long`, and a negative delay taken as zero (the timer initialisation steps of
   the HTML standard).
   */
  function TimeoutMs(delaySeconds: int): (ms: nat)
    ensures ms < TwoTo31
    ensures 0 <= delaySeconds * MsPerSecond < TwoTo31 ==> ms == delaySeconds * MsPerSecond
    ensures -TwoTo31 <= delaySeconds * MsPerSecond < 0 ==> ms == 0
  {
    var t := ToLong(delaySeconds * MsPerSecond);
    if t < 0 then 0 else t
  }

  /** Any whole number of seconds up to 2147483 is waited for exactly. */
  lemma TimeoutExact(delaySeconds: int)
    requires 0 <= delaySeconds <= 2147483
    ensures TimeoutMs(delaySeconds) == delaySeconds * MsPerSecond
  {
  }

  /** The state of the gate: mounted or not, revealed or not, and its one pending timer. */
  datatype Gate = Gate(mounted: bool, visible: bool, timerPending: bool, remainingMs: nat, delaySeconds: int)

  /** What can happen to a gate: time passes, the delay prop changes, or it is unmounted. */
  datatype Event = TimePasses(ms: nat) | DelayChanged(seconds: int) | Unmounted

  /** Only a mounted gate has a pending timer; with none pending nothing remains to wait for. */
  predicate Valid(g: Gate) {
    (g.timerPending ==> g.mounted) && (!g.timerPending ==> g.remainingMs == 0)
  }

  /** Mount: hidden, with a timer armed for the whole delay. */
  function Mount(delaySeconds: int): (g: Gate)
    ensures Valid(g) && g.mounted
    ensures !g.visible && g.timerPending && g.remainingMs == TimeoutMs(delaySeconds)
  {
    Gate(true, false, true, TimeoutMs(delaySeconds), delaySeconds)
  }

  function Apply(g: Gate, e: Event): (h: Gate)
    // Revealed is terminal.
    ensures g.visible ==> h.visible
    // Only the timer running out reveals.
    ensures h.visible && !g.visible ==> e.TimePasses? && g.timerPending && e.ms >= g.remainingMs
    ensures Valid(g) ==> Valid(h)
    // A changed delay re-arms the whole new timeout and keeps the visibility.
    ensures e.DelayChanged? && g.mounted && e.seconds != g.delaySeconds ==>
              h.timerPending && h.remainingMs == TimeoutMs(e.seconds) && h.visible == g.visible
    // Teardown cancels the timer for good.
    ensures e.Unmounted? ==> !h.mounted && !h.timerPending && h.visible == g.visible
  {
    match e
    case TimePasses(ms) =>
      if !g.timerPending then g
      else if ms >= g.remainingMs then g.(visible := true, timerPending := false, remainingMs := 0)
      else g.(remainingMs := g.remainingMs - ms)
    case DelayChanged(seconds) =>
      if !g.mounted || seconds == g.delaySeconds then g
      else g.(delaySeconds := seconds, timerPending := true, remainingMs := TimeoutMs(seconds))
    case Unmounted =>
      g.(mounted := false, timerPending := false, remainingMs := 0)
  }

  /** The gate after the events, in order. */
  function Run(g: Gate, events: seq<Event>): Gate
    decreases |events|
  {
    if events == [] then g
    else Apply(Run(g, events[..|events| - 1]), events[|events| - 1])
  }

  /** Running two event sequences one after the other is running their concatenation. */
  lemma {:induction false} RunAppend(g: Gate, a: seq<Event>, b: seq<Event>)
    ensures Run(g, a + b) == Run(Run(g, a), b)
    decreases |b|
  {
    if b == [] {
      assert a + b == a;
    } else {
      var b' := b[..|b| - 1];
      assert (a + b)[..|a + b| - 1] == a + b';
      RunAppend(g, a, b');
    }
  }

  /** Once revealed, a gate stays revealed whatever happens next. */
  lemma {:induction false} RevealedIsTerminal(g: Gate, events: seq<Event>)
    requires g.visible
    ensures Run(g, events).visible
    decreases |events|
  {
    if events != [] {
      RevealedIsTerminal(g, events[..|events| - 1]);
    }
  }

  /** Visibility never reverts: if revealed after i events, it is revealed after any later j. */
  lemma RevealIsMonotone(g: Gate, events: seq<Event>, i: nat, j: nat)
    requires i <= j <= |events|
    requires Run(g, events[..i]).visible
    ensures Run(g, events[..j]).visible
  {
    assert events[..j] == events[..i] + events[i..j];
    RunAppend(g, events[..i], events[i..j]);
    RevealedIsTerminal(Run(g, events[..i]), events[i..j]);
  }

  /** Total time, in milliseconds, that the events let pass. */
  function ElapsedMs(events: seq<Event>): nat
    decreases |events|
  {
    if events == [] then 0
    else ElapsedMs(events[..|events| - 1]) + (match events[|events| - 1] case TimePasses(ms) => ms case _ => 0)
  }

  /** Nothing happens but the passing of time. */
  predicate OnlyTime(events: seq<Event>) {
    forall i :: 0 <= i < |events| ==> events[i].TimePasses?
  }

  /**
   A pending timer on a hidden gate counts down with the time that passes, and
   fires once the time passed reaches what remained (a timer with nothing left
   still waits for the host's next turn, so some event must occur).
   */
  lemma {:induction false} TimerCountsDown(g: Gate, events: seq<Event>)
    requires Valid(g) && g.timerPending && !g.visible
    requires OnlyTime(events)
    ensures Run(g, events).visible <==> events != [] && ElapsedMs(events) >= g.remainingMs
    ensures !Run(g, events).visible ==>
              Run(g, events).timerPending && Run(g, events).remainingMs == g.remainingMs - ElapsedMs(events)
    decreases |events|
  {
    if events != [] {
      var init := events[..|events| - 1];
      assert OnlyTime(init) by {
        forall i | 0 <= i < |init| ensures init[i].TimePasses? {
          assert init[i] == events[i];
        }
      }
      TimerCountsDown(g, init);
      var last := events[|events| - 1];
      assert last.TimePasses?;
      assert ElapsedMs(events) == ElapsedMs(init) + last.ms;
      assert Run(g, events) == Apply(Run(g, init), last);
    }
  }

  /**
   Reveal timing: after mount, with only time passing, the offer is shown exactly
   when at least the timeout has elapsed.
   */
  lemma RevealTiming(delaySeconds: int, events: seq<Event>)
    requires OnlyTime(events)
    ensures Run(Mount(delaySeconds), events).visible <==>
              events != [] && ElapsedMs(events) >= TimeoutMs(delaySeconds)
  {
    TimerCountsDown(Mount(delaySeconds), events);
  }

  /** Teardown: an unmounted gate is frozen; no later event changes anything. */
  lemma {:induction false} UnmountedIsFrozen(g: Gate, events: seq<Event>)
    requires Valid(g) && !g.mounted
    ensures Run(g, events) == g
    decreases |events|
  {
    if events != [] {
      UnmountedIsFrozen(g, events[..|events| - 1]);
    }
  }

  /** What the component renders: an empty placeholder, or the offer linking to the checkout URL. */
  datatype View = Placeholder | Offer(href: string)

  /** The mounted component. */
  class Cta {
    var mounted: bool
    var visible: bool
    var timerPending: bool
    var remainingMs: nat
    var delaySeconds: int
    const checkoutUrl: string

    function State(): Gate
      reads this
    {
      Gate(mounted, visible, timerPending, remainingMs, delaySeconds)
    }

    /** Mount with the delay and checkout URL props. */
    constructor (delaySeconds: int, checkoutUrl: string)
      ensures State() == Mount(delaySeconds) && this.checkoutUrl == checkoutUrl
    {
      this.checkoutUrl := checkoutUrl;
      mounted := true;
      visible := false;
      timerPending := true;
      remainingMs := TimeoutMs(delaySeconds);
      this.delaySeconds := delaySeconds;
    }

    /** ms milliseconds of host time pass; the timer fires if it is due. */
    method Elapse(ms: nat)
      modifies this
      ensures State() == Apply(old(State()), TimePasses(ms))
    {
      if timerPending {
        if ms >= remainingMs {
          visible := true;
          timerPending := false;
          remainingMs := 0;
        } else {
          remainingMs := remainingMs - ms;
        }
      }
    }

    /** The delaySeconds prop changes: the effect is cleaned up and re-run. */
    method ChangeDelay(seconds: int)
      modifies this
      ensures State() == Apply(old(State()), DelayChanged(seconds))
    {
      if mounted && seconds != delaySeconds {
        delaySeconds := seconds;
        timerPending := true;
        remainingMs := TimeoutMs(seconds);
      }
    }

    /** Unmount: the pending timer is cleared. */
    method Unmount()
      modifies this
      ensures State() == Apply(old(State()), Unmounted)
    {
      mounted := false;
      timerPending := false;
      remainingMs := 0;
    }

    /** The offer is rendered exactly when revealed, and it links to the checkout URL. */
    function Render(): (v: View)
      reads this
      ensures v.Offer? <==> visible
      ensures v.Offer? ==> v.href == checkoutUrl
    {
      if !visible then Placeholder else Offer(checkoutUrl)
    }
  }
}
