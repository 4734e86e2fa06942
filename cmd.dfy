/** `moon.cmd.ProgressBar`: the bar and suffix strings of a console progress bar. Writing the
    line to the terminal is not part of this model. */
module Cmd {
  import opened Wrappers
  import opened Text
  import opened IntMath

  /** Python 2's message for an integer division by zero. */
  const ZeroDivisionMessage := "integer division or modulo by zero"

  datatype ProgressBar = ProgressBar(prefix: string, max: int, percent: bool, clen: int)

  /** `ProgressBar()` with every argument left at its default. */
  function DefaultBar(): (b: ProgressBar)
    ensures b.max == 100 && !b.percent && b.clen == 30
  {
    ProgressBar("Progress", 100, false, 30)
  }

  /** `c * n`: `n` copies of `c`, none when `n` is zero or negative. */
  function Repeat(c: char, n: int): (r: string)
    ensures |r| == if n <= 0 then 0 else n
    ensures forall k :: 0 <= k < |r| ==> r[k] == c
  {
    if n <= 0 then [] else Repeat(c, n - 1) + [c]
  }

  /** How many cells `build_bar` fills: `clen * current / max`, rounded down. */
  function Filled(b: ProgressBar, current: int): int
    requires b.max != 0
  {
    FloorDiv(b.clen * current, b.max)
  }

  /** Occurrences of `c` in `s`. */
  function Count(s: string, c: char): nat {
    if s == [] then 0 else Count(s[..|s| - 1], c) + (if s[|s| - 1] == c then 1 else 0)
  }

  /** `build_bar(current)`: the filled cells as `#`, then spaces up to `clen` cells. */
  function BuildBar(b: ProgressBar, current: int): (r: Result<string, string>)
    ensures r.Err? <==> b.max == 0
    ensures r.Err? ==> r.error == ZeroDivisionMessage
    ensures r.Ok? ==> var f := Filled(b, current);
      && |r.value| == (if f <= 0 then 0 else f) + (if b.clen - f <= 0 then 0 else b.clen - f)
      && forall k :: 0 <= k < |r.value| ==> r.value[k] == (if k < f then '#' else ' ')
  {
    if b.max == 0 then Err(ZeroDivisionMessage)
    else
      var f := Filled(b, current);
      Ok(Repeat('#', f) + Repeat(' ', b.clen - f))
  }

  /** `build_suffix(current)`: `"<p>%"` with `p = 100 * current / max` rounded down, or
      `"<current>/<max>"`; only the percent form divides. */
  function BuildSuffix(b: ProgressBar, current: int): (r: Result<string, string>)
    ensures r.Err? <==> b.percent && b.max == 0
    ensures r.Err? ==> r.error == ZeroDivisionMessage
    ensures r.Ok? && b.percent ==>
      && |r.value| >= 2 && r.value[|r.value| - 1] == '%'
      && var digits := r.value[..|r.value| - 1];
      && IsIntLiteral(digits)
      && IntValue(digits) == FloorDiv(100 * current, b.max)
    ensures r.Ok? && !b.percent ==> r.value == IntToString(current) + "/" + IntToString(b.max)
  {
    if b.percent then
      if b.max == 0 then Err(ZeroDivisionMessage)
      else
        var p := FloorDiv(100 * current, b.max);
        PercentText(p);
        Ok(IntToString(p) + "%")
    else Ok(IntToString(current) + "/" + IntToString(b.max))
  }

  /** `"%d%%" % p` ends in the percent sign after the digits of `p`. */
  lemma PercentText(p: int)
    ensures var r := IntToString(p) + "%";
      && |r| >= 2 && r[|r| - 1] == '%'
      && r[..|r| - 1] == IntToString(p)
  {
    var r := IntToString(p) + "%";
    assert r[..|r| - 1] == IntToString(p);
  }

  /** Between 0 and `max` the filled count stays between 0 and `clen`. */
  lemma FilledInRange(b: ProgressBar, current: int)
    requires b.max > 0 && b.clen >= 0 && 0 <= current <= b.max
    ensures 0 <= Filled(b, current) <= b.clen
  {
    MulMonotone(current, b.max, b.clen);
    assert b.clen * current <= b.clen * b.max;
    FloorDivRange(b.clen * current, b.max, b.clen);
  }

  /** Between 0 and `max` the bar is exactly `clen` cells: `Filled` hashes, then spaces. */
  lemma BarShape(b: ProgressBar, current: int)
    requires b.max > 0 && b.clen >= 0 && 0 <= current <= b.max
    ensures var r := BuildBar(b, current);
      && r.Ok? && |r.value| == b.clen
      && r.value == Repeat('#', Filled(b, current)) + Repeat(' ', b.clen - Filled(b, current))
      && Count(r.value, '#') == Filled(b, current)
  {
    FilledInRange(b, current);
    var f := Filled(b, current);
    CountRepeat('#', f, b.clen - f);
  }

  /** `c` occurs exactly `n` times in `n` copies of it followed by spaces. */
  lemma {:induction false} CountRepeat(c: char, n: nat, spaces: int)
    requires c != ' '
    ensures Count(Repeat(c, n) + Repeat(' ', spaces), c) == n
  {
    if spaces > 0 {
      CountRepeat(c, n, spaces - 1);
      assert Repeat(c, n) + Repeat(' ', spaces) == (Repeat(c, n) + Repeat(' ', spaces - 1)) + [' '];
    } else if n > 0 {
      CountRepeat(c, n - 1, spaces);
      assert Repeat(c, n) + Repeat(' ', spaces) == Repeat(c, n);
      assert Repeat(c, n - 1) + Repeat(' ', spaces) == Repeat(c, n - 1);
    } else {
      assert Repeat(c, n) + Repeat(' ', spaces) == [];
    }
  }

  /** The filled count never decreases as `current` grows (for a positive `max`). */
  lemma FilledMonotone(b: ProgressBar, c1: int, c2: int)
    requires b.max > 0 && b.clen >= 0 && c1 <= c2
    ensures Filled(b, c1) <= Filled(b, c2)
  {
    MulMonotone(c1, c2, b.clen);
    assert b.clen * c1 <= b.clen * c2;
    FloorDivMonotone(b.clen * c1, b.clen * c2, b.max);
  }

  /** At `current == max` the bar is full. */
  lemma FullAtMax(b: ProgressBar)
    requires b.max > 0 && b.clen >= 0
    ensures BuildBar(b, b.max) == Ok(Repeat('#', b.clen))
  {
    FloorDivExact(b.clen, b.max);
    assert Filled(b, b.max) == b.clen;
    assert Repeat('#', b.clen) + [] == Repeat('#', b.clen);
  }

  /** Between 0 and `max` the percentage lies between 0 and 100. */
  lemma PercentInRange(b: ProgressBar, current: int)
    requires b.percent && b.max > 0 && 0 <= current <= b.max
    ensures var p := FloorDiv(100 * current, b.max);
      && 0 <= p <= 100
      && BuildSuffix(b, current) == Ok(IntToString(p) + "%")
  {
    MulMonotone(current, b.max, 100);
    FloorDivRange(100 * current, b.max, 100);
  }
}
