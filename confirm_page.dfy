/** frontend/src/pages/ConfirmPage.tsx: the order confirmation's two-minute
    countdown back to the home page and the clock text it shows. */
module ConfirmPage {
  import opened Wrappers
  import Text

  /** Where the page sends the visitor when it opens: home when the
      navigation state carries no order. */
  function Redirect(hasOrder: bool): (target: Option<string>)
    ensures target.Some? <==> !hasOrder
    ensures target.Some? ==> target.value == "/"
  {
    if !hasOrder then Some("/") else None
  }

  /** The `setSeconds` updater the interval runs every second: at one
      second or less the countdown stops at zero (and navigates home),
      otherwise it counts down by one. */
  function Step(prev: int): (next: int)
    ensures next >= 0
    ensures prev >= 1 ==> next == prev - 1
    ensures prev < 1 ==> next == 0
  {
    if prev <= 1 then 0 else prev - 1
  }

  /** The countdown after `n` ticks. */
  function After(start: int, n: nat): int {
    if n == 0 then start else Step(After(start, n - 1))
  }

  /** From a non-negative start, `n` ticks leave `start - n`, down to zero
      and no further. */
  lemma {:induction false} AfterTicks(start: nat, n: nat)
    ensures After(start, n) == if n < start then start - n else 0
  {
    if n > 0 {
      AfterTicks(start, n - 1);
    }
  }

  /** The clock starts at two minutes and reaches zero on the 120th tick,
      never below. */
  lemma CountdownReachesZero(n: nat)
    ensures n < 120 ==> After(120, n) == 120 - n
    ensures n >= 120 ==> After(120, n) == 0
  {
    AfterTicks(120, n);
  }

  /** The page's countdown state. */
  class Countdown {
    var seconds: int

    ghost predicate Valid()
      reads this
    {
      0 <= seconds <= 120
    }

    /** `useState(120)`: two minutes. */
    constructor ()
      ensures seconds == 120 && Valid()
    {
      seconds := 120;
    }

    /** One interval tick: apply the updater; the answer says whether the
        page navigates home. */
    method Tick() returns (navigateHome: bool)
      requires Valid()
      modifies this
      ensures seconds == Step(old(seconds)) && Valid()
      ensures navigateHome <==> old(seconds) <= 1
    {
      navigateHome := seconds <= 1;
      seconds := Step(seconds);
    }
  }

  /** The leading zero the `padStart(2, '0')` adds does not change the
      number. */
  lemma {:induction false} LeadingZeroValue(s: string)
    ensures Text.DigitsValue("0" + s) == Text.DigitsValue(s)
    decreases |s|
  {
    if s != [] {
      var z := "0" + s;
      LeadingZeroValue(s[..|s| - 1]);
      assert z[..|z| - 1] == "0" + s[..|s| - 1];
    }
  }

  /** `seconds.toString().padStart(2, '0')`. */
  function Pad2(n: nat): (r: string)
    ensures Text.DigitsValue(r) == n
    ensures |r| >= 2
    ensures n < 100 ==> |r| == 2
    ensures forall k :: 0 <= k < |r| ==> '0' <= r[k] <= '9'
    ensures n >= 10 ==> r[0] != '0'
  {
    Text.NatToStringValue(n);
    if n < 10 then
      LeadingZeroValue(Text.NatToString(n));
      "0" + Text.NatToString(n)
    else
      assert |Text.NatToString(n / 10)| >= 1;
      Text.NatToString(n)
  }

  /** `formatTime`: whole minutes, a colon, then the seconds in two digits.
      Reading the text back gives minutes and seconds that add up to the
      time, with the seconds below 60. */
  function FormatTime(totalSeconds: nat): (r: string)
    ensures |r| >= 4 && r[|r| - 3] == ':'
    ensures forall k :: 0 <= k < |r| && k != |r| - 3 ==> '0' <= r[k] <= '9'
    ensures |r| > 4 ==> r[0] != '0'
    ensures var minutes := Text.DigitsValue(r[..|r| - 3]);
            var seconds := Text.DigitsValue(r[|r| - 2..]);
            && minutes == totalSeconds / 60
            && 0 <= seconds < 60
            && minutes * 60 + seconds == totalSeconds
  {
    var minutes := Text.NatToString(totalSeconds / 60);
    var seconds := Pad2(totalSeconds % 60);
    Text.NatToStringValue(totalSeconds / 60);
    JoinClock(minutes, seconds);
    minutes + ":" + seconds
  }

  /** Where the parts of `minutes:seconds` sit once joined. */
  lemma JoinClock(minutes: string, seconds: string)
    requires |minutes| >= 1 && |seconds| == 2
    requires forall k :: 0 <= k < |minutes| ==> '0' <= minutes[k] <= '9'
    requires forall k :: 0 <= k < |seconds| ==> '0' <= seconds[k] <= '9'
    ensures var r := minutes + ":" + seconds;
            && |r| == |minutes| + 3 && r[|r| - 3] == ':' && r[0] == minutes[0]
            && r[..|r| - 3] == minutes && r[|r| - 2..] == seconds
            && forall k :: 0 <= k < |r| && k != |r| - 3 ==> '0' <= r[k] <= '9'
  {
    var r := minutes + ":" + seconds;
    assert r[..|r| - 3] == minutes;
    assert r[|r| - 2..] == seconds;
    forall k | 0 <= k < |r| && k != |r| - 3 ensures '0' <= r[k] <= '9' {
      if k < |minutes| {
        assert r[k] == minutes[k];
      } else {
        assert r[k] == seconds[k - |minutes| - 1];
      }
    }
  }
}
