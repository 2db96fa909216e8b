/**
 * The `Typewriter` component (frontend/src/App.jsx): a 20 ms interval that
 * appends `text.charAt(index)` to the displayed string and increments
 * `index`, clearing itself when `index` reaches `text.length`. Timers are
 * explicit: `Tick` is one firing of the interval, `Unmount` and a change of
 * `text` clear it. State updates are applied when issued.
 */
module Typewriter {

  function Min(a: int, b: int): int
  {
    if a <= b then a else b
  }

  /** JavaScript's `s.charAt(i)`: the one-character string at `i`, or "" past the end. */
  function CharAt(s: string, i: nat): (c: string)
    ensures |c| <= 1
    ensures i < |s| ==> c == [s[i]]
    ensures i >= |s| ==> c == ""
  {
    if i < |s| then [s[i]] else ""
  }

  class Typewriter {
    /** The `text` prop the running effect belongs to. */
    var text: string
    /** The `displayedText` state. */
    var displayed: string
    /** The effect's local `index` counter. */
    var index: nat
    /** Whether the effect's interval is still scheduled. */
    var running: bool

    /**
     * The displayed text is always the prefix of `text` of length `index`
     * (capped at the length of `text`); with a non-empty text the counter
     * never passes its length, and a running interval has not reached it.
     */
    ghost predicate Valid()
      reads this
    {
      && displayed == text[..Min(index, |text|)]
      && (|text| > 0 ==> index <= |text|)
      && (running && |text| > 0 ==> index < |text|)
    }

    /** Mounting with `text`: the effect resets the display, sets `index` to 0 and starts the interval. */
    constructor (text: string)
      ensures Valid()
      ensures this.text == text && displayed == "" && index == 0 && running
    {
      this.text := text;
      displayed, index, running := "", 0, true;
    }

    /** One firing of the interval; a cleared interval never fires. */
    method Tick()
      requires Valid()
      modifies this
      ensures Valid()
      ensures text == old(text)
      ensures old(running) ==>
        && index == old(index) + 1
        && displayed == old(displayed) + CharAt(text, old(index))
        && (running <==> index != |text|)
      ensures !old(running) ==> displayed == old(displayed) && index == old(index) && !running
    {
      if running {
        displayed := displayed + CharAt(text, index);
        index := index + 1;
        if index == |text| {
          running := false;
        }
      }
    }

    /**
     * A re-render with prop `t`: the effect depends on `text`, so a different
     * text clears the old interval and starts over from "", and the same text
     * changes nothing.
     */
    method SetText(t: string)
      requires Valid()
      modifies this
      ensures Valid()
      ensures t != old(text) ==> text == t && displayed == "" && index == 0 && running
      ensures t == old(text) ==>
        text == old(text) && displayed == old(displayed) && index == old(index) && running == old(running)
    {
      if t != text {
        // the cleanup clears the old interval, then the effect starts a new one
        running := false;
        text := t;
        displayed, index, running := "", 0, true;
      }
    }

    /** Unmounting: the effect's cleanup clears the interval. */
    method Unmount()
      requires Valid()
      modifies this`running
      ensures Valid() && !running
    {
      running := false;
    }
  }

  /** `n` firings of the interval, in closed form. */
  method Advance(tw: Typewriter, n: nat)
    requires tw.Valid()
    modifies tw
    ensures tw.Valid() && tw.text == old(tw.text)
    ensures !old(tw.running) ==>
      tw.displayed == old(tw.displayed) && tw.index == old(tw.index) && !tw.running
    ensures old(tw.running) && |tw.text| > 0 ==>
      && tw.index == Min(old(tw.index) + n, |tw.text|)
      && tw.displayed == tw.text[..tw.index]
      && (tw.running <==> tw.index < |tw.text|)
    ensures old(tw.running) && |tw.text| == 0 ==>
      tw.index == old(tw.index) + n && tw.displayed == "" && tw.running
  {
    var k := 0;
    while k < n
      invariant 0 <= k <= n
      invariant tw.Valid() && tw.text == old(tw.text)
      invariant !old(tw.running) ==>
        tw.displayed == old(tw.displayed) && tw.index == old(tw.index) && !tw.running
      invariant old(tw.running) && |tw.text| > 0 ==>
        tw.index == Min(old(tw.index) + k, |tw.text|) && (tw.running <==> tw.index < |tw.text|)
      invariant old(tw.running) && |tw.text| == 0 ==> tw.index == old(tw.index) + k && tw.running
    {
      tw.Tick();
      k := k + 1;
    }
  }

  /**
   * Mounting with `t` and letting the interval fire `k` times shows the
   * first k characters of `t`. With a non-empty text the interval is cleared
   * after exactly |t| firings, showing all of `t`; with an empty text it is
   * never cleared, and the display stays "".
   */
  method RevealAfter(t: string, k: nat) returns (shown: string, running: bool)
    ensures shown == t[..Min(k, |t|)]
    ensures |t| > 0 ==> (running <==> k < |t|)
    ensures |t| == 0 ==> running && shown == ""
  {
    var tw := new Typewriter(t);
    var i := 0;
    while i < k
      invariant 0 <= i <= k
      invariant tw.Valid() && tw.text == t
      invariant |t| > 0 ==> tw.index == Min(i, |t|) && (tw.running <==> i < |t|)
      invariant |t| == 0 ==> tw.running
    {
      tw.Tick();
      i := i + 1;
    }
    shown, running := tw.displayed, tw.running;
  }

  /**
   * Starting on `a`, firing `i` times, switching the prop to `b` and firing
   * `k` more times: a different `b` shows only the first k characters of
   * `b` (nothing of `a` survives the switch); the same text just carries on.
   */
  method Supersede(a: string, b: string, i: nat, k: nat) returns (shown: string)
    ensures a != b ==> shown == b[..Min(k, |b|)]
    ensures a == b ==> shown == a[..Min(i + k, |a|)]
  {
    var tw := new Typewriter(a);
    Advance(tw, i);
    tw.SetText(b);
    Advance(tw, k);
    shown := tw.displayed;
  }
}
