/**
  The three time renderings of the user interface:
  - `M:SS` (`formatTime` of the dashboard, the tray title written on every
    tick, and `formatTime` of the break window: the same code three times);
  - hours and minutes of a second count, as the statistics view and the task
    details show them.
 */
module TimeText {
  import opened JsText

  /** `Math.floor(s / 60)` and `s % 60` (JavaScript remainder). */
  function MinutesSeconds(s: int): (ms: (int, int))
    ensures s >= 0 ==> 0 <= ms.1 < 60 && ms.0 >= 0 && ms.0 * 60 + ms.1 == s
  {
    (s / 60, JsRem(s, 60))
  }

  /** `${m}:${s.toString().padStart(2, '0')}`. */
  function ClockText(seconds: int): string
  {
    var ms := MinutesSeconds(seconds);
    IntToString(ms.0) + ":" + PadStart2(IntToString(ms.1))
  }

  /** For a non-negative count the text is `M:SS`: decimal minutes, a colon, and
      exactly two seconds digits below 60, with M*60 + SS equal to the count. */
  lemma ClockTextReadsBack(seconds: nat)
    ensures var t := ClockText(seconds);
      |t| >= 4 && t[|t| - 3] == ':' && AllDigits(t[..|t| - 3]) && AllDigits(t[|t| - 2..])
      && DigitsValue(t[|t| - 2..]) < 60
      && DigitsValue(t[..|t| - 3]) * 60 + DigitsValue(t[|t| - 2..]) == seconds
  {
    var m, s := seconds / 60, seconds % 60;
    var t := ClockText(seconds);
    var mt := NatToString(m);
    var st := PadStart2(NatToString(s));
    assert t == mt + ":" + st;
    assert |st| == 2;
    assert t[..|t| - 3] == mt;
    assert t[|t| - 2..] == st;
    NatToStringValue(m);
    NatToStringValue(s);
    if s < 10 {
      assert st == "0" + NatToString(s);
      assert st[..1] == "0";
      assert DigitsValue(st) == DigitsValue(st[..1]) * 10 + DigitValue(st[1]);
    }
  }

  /** `Math.floor(s / 3600)` and `Math.floor((s % 3600) / 60)`. */
  function HoursMinutes(s: int): (hm: (int, int))
    ensures s >= 0 ==> hm.0 >= 0 && 0 <= hm.1 < 60
    ensures s >= 0 ==> hm.0 * 3600 + hm.1 * 60 <= s < hm.0 * 3600 + hm.1 * 60 + 60
  {
    (s / 3600, JsRem(s, 3600) / 60)
  }
}
