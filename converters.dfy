/** The type converters of moon/web/reqparse.py: each turns one raw request string
    into a typed value or a failure message. */
module Converters {
  import opened Wrappers
  import opened Text

  /** A compiled regular expression: the pattern text and its `re` flags. */
  datatype Pattern = Pattern(source: string, flags: int)

  /** `re.IGNORECASE`. */
  const IGNORECASE: int := 2

  /** The pattern `add_email_argument` compiles. */
  const EmailRegex: string := "^.+@[^.].*\\.[a-z]{2,10}$"

  /** What a converter, or an argument's `default`, can produce. */
  datatype Value =
    | Null                                         // Python's None
    | Str(s: string)
    | Bool(b: bool)
    | Time(epoch: int, local: bool)                // a datetime built from epoch seconds
    | Pos(x: real, y: real, desc: Option<string>)  // the NameSpace PositionParse returns
    | List(items: seq<Value>)
    | Opaque(id: nat)                              // any other object a default may hold

  /** Which call signature a caller-supplied converter implements. */
  datatype Arity = ValueOnly | WithName | WithOperator

  /** The converter an argument applies: a tag instead of a Python callable. */
  datatype Converter =
    | Text                                                     // six.text_type
    | BoolFlag                                                 // parse_bool
    | Phone                                                    // check_phone
    | Timestamp(minTime: Option<int>, maxTime: Option<int>, toLocal: bool)
    | Position(needDesc: bool)
    | RegExp(pattern: Pattern)
    | Custom(id: nat, arity: Arity)

  /** What the parser takes from its surroundings: Python's float(), the regex engine,
      strftime("%Y-%m-%d %H:%M:%S") and the code of caller-supplied converters. */
  datatype Host = Host(
    floatOf: string -> Result<real, string>,
    matches: (Pattern, string) -> bool,
    formatTime: (int, bool) -> string,
    custom: (nat, seq<string>) -> Result<Value, string>)

  const BoolMessage: string := "value should be 'true'|'false'"

  /** parse_bool: the stripped, lower-cased text must be "true" or "false". */
  function ParseBool(value: string): (r: Result<Value, string>)
    ensures r.Ok? <==> Lower(Strip(value)) == "true" || Lower(Strip(value)) == "false"
    ensures r.Ok? ==> r.value == Bool(Lower(Strip(value)) == "true")
    ensures r.Err? ==> r.error == BoolMessage
  {
    var v := Lower(Strip(value));
    if v != "true" && v != "false" then Err(BoolMessage)
    else Ok(Bool(v == "true"))
  }

  /** check_phone: blank is None; otherwise an int() literal of exactly 11 characters. */
  function CheckPhone(value: string): (r: Result<Value, string>)
    ensures r == Ok(Null) <==> Strip(value) == ""
    ensures r.Ok? && r.value != Null ==>
              r.value == Str(Strip(value)) && IsIntLiteral(Strip(value)) && |Strip(value)| == 11
    ensures Strip(value) != "" && !IsIntLiteral(Strip(value)) ==> r == Err("phone number invalid")
    ensures IsIntLiteral(Strip(value)) && |Strip(value)| != 11 ==> r == Err("phone number length invalid")
    ensures IsIntLiteral(Strip(value)) && |Strip(value)| == 11 ==> r == Ok(Str(Strip(value)))
  {
    var v := Strip(value);
    if v == "" then Ok(Null)
    else if !IsIntLiteral(v) then Err("phone number invalid")
    else if |v| != 11 then Err("phone number length invalid")
    else Ok(Str(v))
  }

  /** `int(x)` of a float: truncation toward zero. */
  function Trunc(x: real): (i: int)
    ensures x >= 0.0 ==> i as real <= x < i as real + 1.0
    ensures x < 0.0 ==> i as real - 1.0 < x <= i as real
  {
    if x >= 0.0 then x.Floor else -((-x).Floor)
  }

  /** The epoch seconds TimestampParse reads: int(v), else int(float(v)). */
  function EpochOf(host: Host, v: string): Result<int, string> {
    if IsIntLiteral(v) then Ok(IntValue(v))
    else match host.floatOf(v)
      case Err(m) => Err(m)
      case Ok(x) => Ok(Trunc(x))
  }

  function OutOfLimit(host: Host, epoch: int, toLocal: bool, bound: int, which: string): string {
    "datetime (" + host.formatTime(epoch, toLocal) + ") out of limit (" + which + "="
      + host.formatTime(bound, toLocal) + ")"
  }

  /** TimestampParse: blank is None; the epoch must lie within the optional bounds. */
  function ParseTimestamp(minTime: Option<int>, maxTime: Option<int>, toLocal: bool,
                          host: Host, value: string): (r: Result<Value, string>)
    ensures r == Ok(Null) <==> Strip(value) == ""
    ensures r.Ok? && r.value != Null ==>
              && r.value.Time? && r.value.local == toLocal
              && EpochOf(host, Strip(value)) == Ok(r.value.epoch)
              && (minTime.Some? ==> minTime.value <= r.value.epoch)
              && (maxTime.Some? ==> r.value.epoch <= maxTime.value)
    ensures Strip(value) != "" && EpochOf(host, Strip(value)).Err? ==>
              r == Err(EpochOf(host, Strip(value)).error)
    ensures Strip(value) != "" && EpochOf(host, Strip(value)).Ok? && minTime.Some? &&
            EpochOf(host, Strip(value)).value < minTime.value ==>
              r == Err(OutOfLimit(host, EpochOf(host, Strip(value)).value, toLocal, minTime.value, "mintime"))
    ensures Strip(value) != "" && EpochOf(host, Strip(value)).Ok? && maxTime.Some? &&
            (minTime.None? || minTime.value <= EpochOf(host, Strip(value)).value) &&
            EpochOf(host, Strip(value)).value > maxTime.value ==>
              r == Err(OutOfLimit(host, EpochOf(host, Strip(value)).value, toLocal, maxTime.value, "maxtime"))
    ensures Strip(value) != "" && EpochOf(host, Strip(value)).Ok? &&
            (minTime.None? || minTime.value <= EpochOf(host, Strip(value)).value) &&
            (maxTime.None? || EpochOf(host, Strip(value)).value <= maxTime.value)
            ==> r.Ok?
  {
    var v := Strip(value);
    if v == "" then Ok(Null)
    else match EpochOf(host, v)
      case Err(m) => Err(m)
      case Ok(epoch) =>
        if minTime.Some? && epoch < minTime.value then
          Err(OutOfLimit(host, epoch, toLocal, minTime.value, "mintime"))
        else if maxTime.Some? && epoch > maxTime.value then
          Err(OutOfLimit(host, epoch, toLocal, maxTime.value, "maxtime"))
        else Ok(Time(epoch, toLocal))
  }

  /** Python 2's message when three names are unpacked from a two-element list. */
  const UnpackMessage: string := "need more than 2 values to unpack"

  /** PositionParse: `x:y[:description]`, split with at most two cuts. */
  function ParsePosition(needDesc: bool, host: Host, value: string): (r: Result<Value, string>)
    ensures r == Ok(Null) <==> Strip(value) == ""
    ensures Strip(value) != "" && ':' !in Strip(value) ==> r == Err(UnpackMessage)
    ensures r.Ok? && r.value != Null ==>
              && r.value.Pos?
              && (needDesc ==> r.value.desc.Some? && r.value.desc.value != "")
              && var vs := SplitMax(Strip(value), ':', 2);
                 && |vs| >= 2
                 && host.floatOf(vs[0]) == Ok(r.value.x) && host.floatOf(vs[1]) == Ok(r.value.y)
                 && r.value.desc == (if |vs| == 3 then Some(vs[2]) else None)
  {
    var v := Strip(value);
    if v == "" then Ok(Null)
    else
      var vs := SplitMax(v, ':', 2);
      if |vs| == 1 then Err(UnpackMessage)
      else
        var desc := if |vs| == 3 then Some(vs[2]) else None;
        if needDesc && (desc.None? || desc.value == "") then Err("Position description is needed")
        else match host.floatOf(vs[0])
          case Err(m) => Err(m)
          case Ok(x) =>
            match host.floatOf(vs[1])
            case Err(m) => Err(m)
            case Ok(y) => Ok(Pos(x, y, desc))
  }

  /** RegExpParse: blank is None; the stripped text must match at its start. */
  function ParseRegExp(p: Pattern, host: Host, value: string): (r: Result<Value, string>)
    ensures r == Ok(Null) <==> Strip(value) == ""
    ensures r.Ok? && r.value != Null ==> r.value == Str(Strip(value)) && host.matches(p, Strip(value))
    ensures Strip(value) != "" && !host.matches(p, Strip(value)) ==> r == Err("Can not match regex")
    ensures Strip(value) != "" && host.matches(p, Strip(value)) ==> r == Ok(Str(Strip(value)))
  {
    var v := Strip(value);
    if v == "" then Ok(Null)
    else if !host.matches(p, v) then Err("Can not match regex")
    else Ok(Str(v))
  }

  /** The arguments a caller-supplied converter receives for its declared signature. */
  function CallArgs(arity: Arity, value: string, name: string, op: string): (args: seq<string>)
    ensures 1 <= |args| <= 3 && args[0] == value
    ensures |args| == (match arity case ValueOnly => 1 case WithName => 2 case WithOperator => 3)
    ensures |args| >= 2 ==> args[1] == name
    ensures |args| == 3 ==> args[2] == op
  {
    match arity
    case ValueOnly => [value]
    case WithName => [value, name]
    case WithOperator => [value, name, op]
  }

  /** Calling `self.type` on one raw value, with the field name and matched operator as context. */
  function Apply(c: Converter, host: Host, value: string, name: string, op: string): Result<Value, string> {
    match c
    case Text => Ok(Str(value))
    case BoolFlag => ParseBool(value)
    case Phone => CheckPhone(value)
    case Timestamp(lo, hi, local) => ParseTimestamp(lo, hi, local, host, value)
    case Position(needDesc) => ParsePosition(needDesc, host, value)
    case RegExp(p) => ParseRegExp(p, host, value)
    case Custom(id, arity) => host.custom(id, CallArgs(arity, value, name, op))
  }

  /** The shape of value each built-in converter yields. */
  predicate Yields(c: Converter, x: Value) {
    match c
    case Text => x.Str?
    case BoolFlag => x.Bool?
    case Phone => x.Null? || (x.Str? && |x.s| == 11)
    case Timestamp(_, _, local) => x.Null? || (x.Time? && x.local == local)
    case Position(needDesc) => x.Null? || (x.Pos? && (needDesc ==> x.desc.Some?))
    case RegExp(_) => x.Null? || x.Str?
    case Custom(_, _) => true
  }

  lemma ApplyYields(c: Converter, host: Host, value: string, name: string, op: string)
    requires Apply(c, host, value, name, op).Ok?
    ensures Yields(c, Apply(c, host, value, name, op).value)
  {
  }

  /** `str(b)` lower-cases to what parse_bool reads back, with any padding around it. */
  lemma {:induction false} BoolRoundTrip(b: bool, left: string, right: string)
    requires forall k :: 0 <= k < |left| ==> IsSpace(left[k])
    requires forall k :: 0 <= k < |right| ==> IsSpace(right[k])
    ensures ParseBool(left + (if b then "True" else "False") + right) == Ok(Bool(b))
  {
    var word := if b then "True" else "False";
    var s := left + word + right;
    assert word[0] == 'T' || word[0] == 'F';
    assert word[|word| - 1] == 'e';
    StripPadded(left, word, right);
    LowerBoolWord(b);
    assert Lower(Strip(s)) == if b then "true" else "false";
  }

  lemma LowerBoolWord(b: bool)
    ensures Lower(if b then "True" else "False") == if b then "true" else "false"
  {
    if b {
      var w := Lower("True");
      assert w[0] == 't' && w[1] == 'r' && w[2] == 'u' && w[3] == 'e';
    } else {
      var w := Lower("False");
      assert w[0] == 'f' && w[1] == 'a' && w[2] == 'l' && w[3] == 's' && w[4] == 'e';
    }
  }

  /** `str(n)` of an epoch is accepted exactly when it lies within the bounds. */
  lemma {:induction false} TimestampOfInt(minTime: Option<int>, maxTime: Option<int>, toLocal: bool,
                                          host: Host, n: int)
    ensures ParseTimestamp(minTime, maxTime, toLocal, host, IntToString(n)).Ok? <==>
              (minTime.None? || minTime.value <= n) && (maxTime.None? || n <= maxTime.value)
    ensures ParseTimestamp(minTime, maxTime, toLocal, host, IntToString(n)).Ok? ==>
              ParseTimestamp(minTime, maxTime, toLocal, host, IntToString(n)) == Ok(Time(n, toLocal))
  {
    var s := IntToString(n);
    assert IsDigit(s[|s| - 1]);
    StripUnpadded(s);
  }

  /** With a lower bound of 2020-01-01T00:00:00Z, epoch 1500000000 is refused and 1700000000 accepted. */
  lemma TimestampBoundExample(host: Host)
    ensures ParseTimestamp(Some(1577836800), None, false, host, IntToString(1500000000)).Err?
    ensures ParseTimestamp(Some(1577836800), None, false, host, IntToString(1700000000))
              == Ok(Time(1700000000, false))
  {
    TimestampOfInt(Some(1577836800), None, false, host, 1500000000);
    TimestampOfInt(Some(1577836800), None, false, host, 1700000000);
  }

  /** A position written as `x:y:desc` reads back as its parts. */
  lemma {:induction false} PositionRoundTrip(needDesc: bool, host: Host, mx: string, my: string, desc: string)
    requires mx != [] && !IsSpace(mx[0]) && ':' !in mx && ':' !in my
    requires desc != [] && !IsSpace(desc[|desc| - 1])
    requires host.floatOf(mx).Ok? && host.floatOf(my).Ok?
    ensures ParsePosition(needDesc, host, mx + ":" + my + ":" + desc)
              == Ok(Pos(host.floatOf(mx).value, host.floatOf(my).value, Some(desc)))
  {
    var v := mx + ":" + my + ":" + desc;
    assert v[0] == mx[0] && v[|v| - 1] == desc[|desc| - 1];
    StripUnpadded(v);
    SplitAtTwoColons(mx, my, desc);
    PositionOfThreeParts(needDesc, host, v, mx, my, desc);
  }

  lemma PositionOfThreeParts(needDesc: bool, host: Host, value: string, mx: string, my: string, desc: string)
    requires Strip(value) != "" && SplitMax(Strip(value), ':', 2) == [mx, my, desc] && desc != ""
    requires host.floatOf(mx).Ok? && host.floatOf(my).Ok?
    ensures ParsePosition(needDesc, host, value) == Ok(Pos(host.floatOf(mx).value, host.floatOf(my).value, Some(desc)))
  {
  }

  /** Without a description a position is refused when one is needed, and read otherwise. */
  lemma {:induction false} PositionWithoutDesc(needDesc: bool, host: Host, mx: string, my: string)
    requires mx != [] && !IsSpace(mx[0]) && my != [] && !IsSpace(my[|my| - 1])
    requires ':' !in mx && ':' !in my
    requires host.floatOf(mx).Ok? && host.floatOf(my).Ok?
    ensures needDesc ==> ParsePosition(needDesc, host, mx + ":" + my) == Err("Position description is needed")
    ensures !needDesc ==>
              ParsePosition(needDesc, host, mx + ":" + my) == Ok(Pos(host.floatOf(mx).value, host.floatOf(my).value, None))
  {
    var v := mx + ":" + my;
    assert v[0] == mx[0] && v[|v| - 1] == my[|my| - 1];
    StripUnpadded(v);
    SplitAtOneColon(mx, my);
    PositionOfTwoParts(needDesc, host, v, mx, my);
  }

  lemma PositionOfTwoParts(needDesc: bool, host: Host, value: string, mx: string, my: string)
    requires Strip(value) != "" && SplitMax(Strip(value), ':', 2) == [mx, my]
    requires host.floatOf(mx).Ok? && host.floatOf(my).Ok?
    ensures needDesc ==> ParsePosition(needDesc, host, value) == Err("Position description is needed")
    ensures !needDesc ==> ParsePosition(needDesc, host, value) == Ok(Pos(host.floatOf(mx).value, host.floatOf(my).value, None))
  {
  }

  /** "1.5:2.5" is refused when a description is needed; "1.5:2.5:home" is read in full. */
  lemma PositionExample(host: Host)
    requires host.floatOf("1.5") == Ok(1.5) && host.floatOf("2.5") == Ok(2.5)
    ensures ParsePosition(true, host, "1.5" + ":" + "2.5").Err?
    ensures ParsePosition(true, host, "1.5" + ":" + "2.5" + ":" + "home") == Ok(Pos(1.5, 2.5, Some("home")))
  {
    var mx, my, desc := "1.5", "2.5", "home";
    assert !IsSpace(mx[0]) && !IsSpace(my[|my| - 1]) && !IsSpace(desc[|desc| - 1]);
    assert ':' !in mx && ':' !in my;
    PositionWithoutDesc(true, host, mx, my);
    PositionRoundTrip(true, host, mx, my, desc);
  }

  // ---- facts about strip and split the converters rely on

  lemma {:induction false} StripPadded(left: string, core: string, right: string)
    requires forall k :: 0 <= k < |left| ==> IsSpace(left[k])
    requires forall k :: 0 <= k < |right| ==> IsSpace(right[k])
    requires core != [] && !IsSpace(core[0]) && !IsSpace(core[|core| - 1])
    ensures Strip(left + core + right) == core
  {
    var s := left + core + right;
    var j := ContentEnd(s);
    var e := |left| + |core|;
    assert s[e - 1] == core[|core| - 1];
    assert j == e;
    var t := s[..j];
    assert t == left + core;
    var i := LeadingSpaces(t);
    assert t[|left|] == core[0];
    assert i == |left|;
    assert t[i..] == core;
  }

  lemma StripUnpadded(s: string)
    requires s != [] && !IsSpace(s[0]) && !IsSpace(s[|s| - 1])
    ensures Strip(s) == s
  {
    StripPadded("", s, "");
    assert "" + s + "" == s;
  }

  lemma SplitAtTwoColons(mx: string, my: string, desc: string)
    requires ':' !in mx && ':' !in my
    ensures SplitMax(mx + ":" + my + ":" + desc, ':', 2) == [mx, my, desc]
  {
    var rest := my + ":" + desc;
    assert mx + ":" + my + ":" + desc == mx + [':'] + rest;
    SplitMaxAfter(mx, ':', rest, 2);
    SplitMaxAfter(my, ':', desc, 1);
    assert SplitMax(desc, ':', 0) == [desc];
    assert [mx] + ([my] + [desc]) == [mx, my, desc];
  }

  lemma SplitAtOneColon(mx: string, my: string)
    requires ':' !in mx && ':' !in my
    ensures SplitMax(mx + ":" + my, ':', 2) == [mx, my]
  {
    SplitMaxAfter(mx, ':', my, 2);
    assert SplitMax(my, ':', 1) == [my];
    assert [mx] + [my] == [mx, my];
  }
}
