/** The Python 2 `unicode` built-ins the source relies on: strip, lower, upper,
    replace, split with a limit, join, int() on decimal literals and str() on ints. */
module Text {
  import opened Wrappers

  /** Python 2.7's `unicode.isspace()`: the characters `strip()` removes. */
  predicate IsSpace(c: char) {
    var n := c as int;
    n == 0x20 || (0x09 <= n <= 0x0d) || (0x1c <= n <= 0x1f) || n == 0x85 || n == 0xa0
    || n == 0x1680 || n == 0x180e || (0x2000 <= n <= 0x200a) || n == 0x2028 || n == 0x2029
    || n == 0x202f || n == 0x205f || n == 0x3000
  }

  /** Number of leading whitespace characters. */
  function LeadingSpaces(s: string): (i: nat)
    ensures i <= |s|
    ensures forall k :: 0 <= k < i ==> IsSpace(s[k])
    ensures i < |s| ==> !IsSpace(s[i])
  {
    if s == [] || !IsSpace(s[0]) then 0 else 1 + LeadingSpaces(s[1..])
  }

  /** Index just past the last non-whitespace character. */
  function ContentEnd(s: string): (j: nat)
    ensures j <= |s|
    ensures forall k :: j <= k < |s| ==> IsSpace(s[k])
    ensures j > 0 ==> !IsSpace(s[j - 1])
  {
    if s == [] || !IsSpace(s[|s| - 1]) then |s| else ContentEnd(s[..|s| - 1])
  }

  /** `s.strip()`: `s` without its leading and trailing whitespace. */
  function Strip(s: string): (r: string)
    ensures exists i, j ::
              && 0 <= i <= j <= |s| && r == s[i..j]
              && (forall k :: 0 <= k < i ==> IsSpace(s[k]))
              && (forall k :: j <= k < |s| ==> IsSpace(s[k]))
    ensures r == [] || (!IsSpace(r[0]) && !IsSpace(r[|r| - 1]))
    ensures r == [] <==> forall k :: 0 <= k < |s| ==> IsSpace(s[k])
  {
    var j := ContentEnd(s);
    var i := LeadingSpaces(s[..j]);
    assert i < j ==> !IsSpace(s[i]);
    s[i..j]
  }

  function LowerChar(c: char): char {
    if 'A' <= c <= 'Z' then (c as int + 32) as char else c
  }

  function UpperChar(c: char): char {
    if 'a' <= c <= 'z' then (c as int - 32) as char else c
  }

  /** `s.lower()` on the ASCII letters. */
  function Lower(s: string): (r: string)
    ensures |r| == |s| && forall k :: 0 <= k < |s| ==> r[k] == LowerChar(s[k])
  {
    seq(|s|, k requires 0 <= k < |s| => LowerChar(s[k]))
  }

  /** `s.upper()` on the ASCII letters. */
  function Upper(s: string): (r: string)
    ensures |r| == |s| && forall k :: 0 <= k < |s| ==> r[k] == UpperChar(s[k])
  {
    seq(|s|, k requires 0 <= k < |s| => UpperChar(s[k]))
  }

  /** Index of the first occurrence of `c` in `s`, if any. */
  function Find(s: string, c: char): (r: Option<nat>)
    ensures r.None? ==> c !in s
    ensures r.Some? ==> r.value < |s| && s[r.value] == c && c !in s[..r.value]
  {
    if s == [] then None
    else if s[0] == c then Some(0)
    else match Find(s[1..], c)
      case None => None
      case Some(i) =>
        assert s[..i + 1] == [s[0]] + s[1..][..i];
        Some(i + 1)
  }

  /** `s.replace(c, "", 1)`: `s` without the first occurrence of `c`. */
  function RemoveFirst(s: string, c: char): (r: string)
    ensures c !in s ==> r == s
    ensures c in s ==> exists i :: 0 <= i < |s| && s[i] == c && c !in s[..i] && r == s[..i] + s[i + 1..]
  {
    match Find(s, c)
    case None => s
    case Some(i) => s[..i] + s[i + 1..]
  }

  /** `s.replace(c, "")`: `s` without any occurrence of `c`, other characters in order. */
  function RemoveAll(s: string, c: char): (r: string)
    ensures c !in r
    ensures |r| <= |s|
    ensures |r| == |s| <==> c !in s
    ensures c !in s ==> r == s
  {
    if s == [] then []
    else if s[0] == c then RemoveAll(s[1..], c)
    else
      assert c !in s[1..] <==> c !in s;
      [s[0]] + RemoveAll(s[1..], c)
  }

  /** Removing `c` works piecewise: the other characters are kept, in order. */
  lemma {:induction false} RemoveAllConcat(a: string, b: string, c: char)
    ensures RemoveAll(a + b, c) == RemoveAll(a, c) + RemoveAll(b, c)
    decreases |a|
  {
    if a == [] {
      assert a + b == b;
    } else {
      assert (a + b)[0] == a[0];
      assert (a + b)[1..] == a[1..] + b;
      RemoveAllConcat(a[1..], b, c);
    }
  }

  /** One character is dropped exactly when it is `c`. */
  lemma RemoveAllSingle(x: char, c: char)
    ensures RemoveAll([x], c) == if x == c then [] else [x]
  {
    assert [x][1..] == [];
  }

  /** `upper()` works piecewise. */
  lemma UpperConcat(a: string, b: string)
    ensures Upper(a + b) == Upper(a) + Upper(b)
  {
  }

  /** `sep.join(parts)`. */
  function Join(parts: seq<string>, sep: string): string {
    if |parts| == 0 then ""
    else if |parts| == 1 then parts[0]
    else parts[0] + sep + Join(parts[1..], sep)
  }

  /** `s.split(c, maxsplit)`: at most `maxsplit + 1` parts, the last keeping any further separators. */
  function SplitMax(s: string, c: char, maxsplit: nat): (parts: seq<string>)
    ensures 1 <= |parts| <= maxsplit + 1
  {
    if maxsplit == 0 then [s]
    else match Find(s, c)
      case None => [s]
      case Some(i) => [s[..i]] + SplitMax(s[i + 1..], c, maxsplit - 1)
  }

  /** Every part but the last is free of the separator, and so is the last when fewer than
      `maxsplit` cuts were made. */
  lemma {:induction false} SplitMaxSeparators(s: string, c: char, maxsplit: nat)
    ensures var parts := SplitMax(s, c, maxsplit);
      && (forall k :: 0 <= k < |parts| - 1 ==> c !in parts[k])
      && (|parts| <= maxsplit ==> c !in parts[|parts| - 1])
    decreases maxsplit
  {
    if maxsplit == 0 || Find(s, c).None? {
      assert SplitMax(s, c, maxsplit) == [s];
    } else {
      var i := Find(s, c).value;
      var tail := s[i + 1..];
      var rest := SplitMax(tail, c, maxsplit - 1);
      SplitMaxAt(s, c, maxsplit, i);
      SplitMaxSeparators(tail, c, maxsplit - 1);
      SeparatorFree(s[..i], rest, c);
    }
  }

  lemma SeparatorFree(head: string, rest: seq<string>, c: char)
    requires |rest| >= 1 && c !in head
    requires forall k :: 0 <= k < |rest| - 1 ==> c !in rest[k]
    ensures forall k :: 0 <= k < |rest| ==> c !in ([head] + rest)[k]
    ensures ([head] + rest)[|rest|] == rest[|rest| - 1]
  {
  }

  /** Joining the parts with the separator gives the string back. */
  lemma {:induction false} SplitMaxJoin(s: string, c: char, maxsplit: nat)
    ensures Join(SplitMax(s, c, maxsplit), [c]) == s
    decreases maxsplit
  {
    if maxsplit == 0 || Find(s, c).None? {
      SplitMaxWhole(s, c, maxsplit);
    } else {
      var i := Find(s, c).value;
      var tail := s[i + 1..];
      SplitMaxJoin(tail, c, maxsplit - 1);
      JoinAfterCut(s, c, maxsplit, i, tail);
    }
  }

  /** The first occurrence is the one `Find` reports. */
  lemma {:induction false} FindFirst(s: string, c: char, i: nat)
    requires i < |s| && s[i] == c && c !in s[..i]
    ensures Find(s, c).Some? && Find(s, c).value == i
  {
    if i > 0 {
      assert s[0] == s[..i][0];
      assert s[1..][..i - 1] == s[1..i];
      assert forall k :: 0 <= k < i - 1 ==> s[1..i][k] == s[..i][k + 1];
      FindFirst(s[1..], c, i - 1);
    }
  }

  /** One cut at the first separator. */
  lemma SplitMaxAt(s: string, c: char, maxsplit: nat, i: nat)
    requires maxsplit > 0 && Find(s, c).Some? && Find(s, c).value == i
    ensures i < |s|
    ensures SplitMax(s, c, maxsplit) == [s[..i]] + SplitMax(s[i + 1..], c, maxsplit - 1)
  {
    var rest := SplitMax(s[i + 1..], c, maxsplit - 1);
    assert SplitMax(s, c, maxsplit) == [s[..i]] + rest;
  }

  /** A cut after a separator-free head. */
  lemma SplitMaxAfter(head: string, c: char, rest: string, maxsplit: nat)
    requires maxsplit > 0 && c !in head
    ensures SplitMax(head + [c] + rest, c, maxsplit) == [head] + SplitMax(rest, c, maxsplit - 1)
  {
    var s := head + [c] + rest;
    assert s[|head|] == c && s[..|head|] == head && s[|head| + 1..] == rest;
    FindFirst(s, c, |head|);
    SplitMaxAt(s, c, maxsplit, |head|);
  }

  /** Without a split the single part is the string. */
  lemma SplitMaxWhole(s: string, c: char, maxsplit: nat)
    requires maxsplit == 0 || Find(s, c).None?
    ensures Join(SplitMax(s, c, maxsplit), [c]) == s
  {
    assert SplitMax(s, c, maxsplit) == [s];
  }

  /** The join of a split at the first separator, given the join of the split of the rest. */
  lemma JoinAfterCut(s: string, c: char, maxsplit: nat, i: nat, tail: string)
    requires maxsplit > 0
    requires Find(s, c).Some? && Find(s, c).value == i && tail == s[i + 1..]
    requires Join(SplitMax(tail, c, maxsplit - 1), [c]) == tail
    ensures Join(SplitMax(s, c, maxsplit), [c]) == s
  {
    SplitMaxAt(s, c, maxsplit, i);
    JoinFirstPart(s, c, i, SplitMax(tail, c, maxsplit - 1));
  }

  lemma JoinFirstPart(s: string, c: char, i: nat, rest: seq<string>)
    requires i < |s| && s[i] == c && |rest| >= 1 && Join(rest, [c]) == s[i + 1..]
    ensures Join([s[..i]] + rest, [c]) == s
  {
    JoinCons(s[..i], rest, [c]);
    SplitAround(s, i);
  }

  lemma SplitAround(s: string, i: nat)
    requires i < |s|
    ensures s == s[..i] + [s[i]] + s[i + 1..]
  {
  }

  lemma JoinCons(head: string, rest: seq<string>, sep: string)
    requires |rest| >= 1
    ensures Join([head] + rest, sep) == head + sep + Join(rest, sep)
  {
    assert ([head] + rest)[1..] == rest;
  }

  predicate IsDigit(c: char) {
    '0' <= c <= '9'
  }

  function DigitValue(c: char): (d: nat)
    requires IsDigit(c)
    ensures d < 10
  {
    c as int - '0' as int
  }

  function DigitChar(d: nat): (c: char)
    requires d < 10
    ensures IsDigit(c) && DigitValue(c) == d
  {
    ('0' as int + d) as char
  }

  /** A non-empty run of ASCII digits. */
  predicate IsDecimal(s: string) {
    |s| > 0 && forall k :: 0 <= k < |s| ==> IsDigit(s[k])
  }

  /** What Python's `int()` accepts once surrounding whitespace is gone: an optional sign and digits. */
  predicate IsIntLiteral(s: string) {
    IsDecimal(s) || (|s| > 1 && (s[0] == '+' || s[0] == '-') && IsDecimal(s[1..]))
  }

  function DecimalValue(s: string): nat
    requires forall k :: 0 <= k < |s| ==> IsDigit(s[k])
  {
    if s == [] then 0 else 10 * DecimalValue(s[..|s| - 1]) + DigitValue(s[|s| - 1])
  }

  /** `int(s)` for a literal `IsIntLiteral` accepts. */
  function IntValue(s: string): int
    requires IsIntLiteral(s)
  {
    if IsDecimal(s) then DecimalValue(s) as int
    else if s[0] == '-' then 0 - DecimalValue(s[1..]) as int
    else DecimalValue(s[1..])
  }

  /** `str(n)` for a natural number. */
  function NatToString(n: nat): (r: string)
    ensures IsDecimal(r) && DecimalValue(r) == n
    ensures |r| > 1 ==> r[0] != '0'
    ensures r[0] == '0' ==> n == 0
  {
    if n < 10 then [DigitChar(n)]
    else
      var r := NatToString(n / 10) + [DigitChar(n % 10)];
      assert r[..|r| - 1] == NatToString(n / 10);
      r
  }

  /** `str(i)` / `"%d" % i`: a minus sign for negatives, then the decimal digits. */
  function IntToString(i: int): (r: string)
    ensures IsIntLiteral(r) && IntValue(r) == i
    ensures r[0] != '+'
    ensures i >= 0 ==> IsDecimal(r) && (|r| > 1 ==> r[0] != '0')
    ensures i < 0 ==> r[0] == '-' && IsDecimal(r[1..]) && r[1] != '0'
  {
    if i < 0 then
      var r := "-" + NatToString(-i);
      assert r[1..] == NatToString(-i);
      r
    else NatToString(i)
  }
}
