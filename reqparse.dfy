/** The request-argument parsing engine of moon/web/reqparse.py: an `Argument` says
    where a field is looked up and how its raw strings are checked, converted and
    shaped; a `RequestParser` runs its arguments in order over one request. */
module ReqParse {
  import opened Wrappers
  import opened Text
  import opened Converters

  /** One multi-valued source group (a MultiDict): every value under each key. */
  type Container = map<string, seq<string>>

  /** The request's source groups that are present (not None), by attribute name. */
  type Request = map<string, Container>

  datatype Action = Store | Append | Restore

  /** The rule for one field; the constructor's keywords, one field each. */
  datatype Argument = Argument(
    name: string,
    default: Value,
    dest: Option<string>,
    required: bool,
    ignore: bool,
    conv: Converter,
    location: seq<string>,
    choices: seq<string>,
    action: Action,
    help: Option<string>,
    operators: seq<string>,
    caseSensitive: bool,
    maxLen: int,
    minLen: int,
    maxCount: Option<int>,
    minCount: Option<int>)

  /** `Argument(name)` with every keyword at its default. */
  function NewArgument(name: string): (a: Argument)
    ensures a.name == name && !a.required && !a.ignore && a.default == Null
  {
    Argument(name, Null, None, false, false, Text, ["values"], [], Store, None, ["="], true, 800, 0, None, None)
  }

  /** A failed parse of one argument: the argument and the message. */
  datatype ArgumentError = ArgumentError(source: Argument, msg: string)

  /** handle_validation_error: `help` replaces the failure's own text when it is set. */
  function ValidationError(a: Argument, failure: string): ArgumentError {
    ArgumentError(a, if a.help.Some? then a.help.value else failure)
  }

  // ---- source resolution

  /** Argument.source: the first location present in the request, else an empty group. */
  function Source(location: seq<string>, req: Request): (c: Container)
    ensures (exists i :: 0 <= i < |location| && location[i] in req && c == req[location[i]]
                         && forall j :: 0 <= j < i ==> location[j] !in req)
         || (c == map[] && forall j :: 0 <= j < |location| ==> location[j] !in req)
  {
    if location == [] then map[]
    else if location[0] in req then req[location[0]]
    else
      var c := Source(location[1..], req);
      assert forall i :: 0 <= i < |location[1..]| ==> location[1..][i] == location[i + 1];
      c
  }

  // ---- one candidate value

  /** The lookup key of one operator: `name` plus the operator without its first "=". */
  function Key(a: Argument, op: string): string {
    a.name + RemoveFirst(op, '=')
  }

  function LengthMessage(a: Argument, n: int): string {
    "value length " + IntToString(n) + " out of limit -- max:" + IntToString(a.maxLen)
      + " min:" + IntToString(a.minLen)
  }

  /** Argument.convert: the raw length is bounded before the converter runs. */
  function Convert(a: Argument, host: Host, value: string, op: string): Result<Value, string> {
    if |value| > a.maxLen || |value| < a.minLen then Err(LengthMessage(a, |value|))
    else Apply(a.conv, host, value, a.name, op)
  }

  /** What the loop body of Argument.parse does with one raw value. */
  datatype Verdict = Keep(v: Value) | Skip | Fatal(e: ArgumentError)

  /** The raw value after optional case folding: what `choices` and the converter see. */
  function Folded(a: Argument, raw: string): string {
    if a.caseSensitive then raw else Lower(raw)
  }

  function Candidate(a: Argument, host: Host, op: string, raw: string): Verdict {
    var v := Folded(a, raw);
    if |a.choices| > 0 && v !in a.choices then Fatal(ValidationError(a, v + " is not valid choice"))
    else match Convert(a, host, v, op)
      case Err(m) => if a.ignore then Skip else Fatal(ValidationError(a, m))
      case Ok(x) => Keep(x)
  }

  // ---- collecting over values and operators, written on prefixes so a loop can follow it

  /** Sequencing of two collection steps: the first error wins, results are concatenated. */
  function AndThen(r1: Result<seq<Value>, ArgumentError>, r2: Result<seq<Value>, ArgumentError>): Result<seq<Value>, ArgumentError> {
    match r1
    case Err(e) => Err(e)
    case Ok(x) =>
      match r2
      case Err(e) => Err(e)
      case Ok(y) => Ok(x + y)
  }

  /** What one candidate adds to the results. */
  function Outcome(v: Verdict): Result<seq<Value>, ArgumentError> {
    match v
    case Fatal(e) => Err(e)
    case Skip => Ok([])
    case Keep(x) => Ok([x])
  }

  /** The results collected from the raw values of one operator, or the first fatal error. */
  function CollectFrom(a: Argument, host: Host, op: string, vals: seq<string>): Result<seq<Value>, ArgumentError> {
    if vals == [] then Ok([])
    else AndThen(CollectFrom(a, host, op, vals[..|vals| - 1]), Outcome(Candidate(a, host, op, vals[|vals| - 1])))
  }

  /** The values under one operator's key, in source order. */
  function ValuesAt(a: Argument, src: Container, op: string): seq<string> {
    var key := Key(a, op);
    if key in src then src[key] else []
  }

  /** The results collected over the operators, in operator order, or the first fatal error. */
  function Collect(a: Argument, host: Host, src: Container, ops: seq<string>): Result<seq<Value>, ArgumentError> {
    if ops == [] then Ok([])
    else AndThen(Collect(a, host, src, ops[..|ops| - 1]), CollectFrom(a, host, ops[|ops| - 1], ValuesAt(a, src, ops[|ops| - 1])))
  }

  // ---- the final shape

  /** `bool(bound)` for an optional count: None and 0 mean "no bound". */
  predicate Truthy(bound: Option<int>) {
    bound.Some? && bound.value != 0
  }

  /** `str(bound)`, None included. */
  function BoundText(bound: Option<int>): string {
    if bound.Some? then IntToString(bound.value) else "None"
  }

  function RequiredMessage(a: Argument): string {
    a.name + " is required in " + Join(a.location, " or ")
  }

  function CountMessage(a: Argument): string {
    "array length out of limit: " + BoundText(a.maxCount) + " - " + BoundText(a.minCount)
  }

  predicate CountOutOfLimit(a: Argument, n: nat) {
    (Truthy(a.maxCount) && n > a.maxCount.value) || (Truthy(a.minCount) && n < a.minCount.value)
  }

  /** The tail of Argument.parse: missing, default, or the value shaped by `action`. */
  function Shape(a: Argument, results: seq<Value>): Result<Value, ArgumentError> {
    if results == [] then
      if a.required then Err(ValidationError(a, RequiredMessage(a))) else Ok(a.default)
    else if a.action == Append then
      if CountOutOfLimit(a, |results|) then Err(ValidationError(a, CountMessage(a)))
      else Ok(List(results))
    else if a.action == Restore || |results| == 1 then Ok(results[0])
    else Ok(List(results))
  }

  /** Argument.parse as a function of the argument and the request. */
  function ParseSpec(a: Argument, host: Host, req: Request): Result<Value, ArgumentError> {
    match Collect(a, host, Source(a.location, req), a.operators)
    case Err(e) => Err(e)
    case Ok(rs) => Shape(a, rs)
  }

  // ---- facts about the prefix definitions

  /** A fatal error among the first k values is the error of the whole operator. */
  lemma {:induction false} CollectFromErrPersists(a: Argument, host: Host, op: string, vals: seq<string>, k: nat)
    requires k <= |vals| && CollectFrom(a, host, op, vals[..k]).Err?
    ensures CollectFrom(a, host, op, vals) == CollectFrom(a, host, op, vals[..k])
    decreases |vals| - k
  {
    if k == |vals| {
      assert vals[..k] == vals;
    } else {
      var init := vals[..|vals| - 1];
      assert init[..k] == vals[..k];
      CollectFromErrPersists(a, host, op, init, k);
    }
  }

  /** A fatal error under the first k operators is the error of the whole collection. */
  lemma {:induction false} CollectErrPersists(a: Argument, host: Host, src: Container, ops: seq<string>, k: nat)
    requires k <= |ops| && Collect(a, host, src, ops[..k]).Err?
    ensures Collect(a, host, src, ops) == Collect(a, host, src, ops[..k])
    decreases |ops| - k
  {
    if k == |ops| {
      assert ops[..k] == ops;
    } else {
      var init := ops[..|ops| - 1];
      assert init[..k] == ops[..k];
      CollectErrPersists(a, host, src, init, k);
    }
  }

  lemma AndThenAssoc(r1: Result<seq<Value>, ArgumentError>, r2: Result<seq<Value>, ArgumentError>,
                     r3: Result<seq<Value>, ArgumentError>)
    ensures AndThen(AndThen(r1, r2), r3) == AndThen(r1, AndThen(r2, r3))
  {
    if r1.Ok? && r2.Ok? && r3.Ok? {
      assert (r1.value + r2.value) + r3.value == r1.value + (r2.value + r3.value);
    }
  }

  /** Values of a later stretch are collected after those of an earlier one. */
  lemma {:induction false} CollectFromConcat(a: Argument, host: Host, op: string, xs: seq<string>, ys: seq<string>)
    ensures CollectFrom(a, host, op, xs + ys) == AndThen(CollectFrom(a, host, op, xs), CollectFrom(a, host, op, ys))
    decreases |ys|
  {
    if ys == [] {
      assert xs + ys == xs;
      if CollectFrom(a, host, op, xs).Ok? {
        assert CollectFrom(a, host, op, xs).value + [] == CollectFrom(a, host, op, xs).value;
      }
    } else {
      var init := ys[..|ys| - 1];
      assert (xs + ys)[..|xs + ys| - 1] == xs + init;
      assert (xs + ys)[|xs + ys| - 1] == ys[|ys| - 1];
      CollectFromConcat(a, host, op, xs, init);
      AndThenAssoc(CollectFrom(a, host, op, xs), CollectFrom(a, host, op, init), Outcome(Candidate(a, host, op, ys[|ys| - 1])));
    }
  }

  /** Operators declared later contribute their results after those declared earlier. */
  lemma {:induction false} CollectConcat(a: Argument, host: Host, src: Container, xs: seq<string>, ys: seq<string>)
    ensures Collect(a, host, src, xs + ys) == AndThen(Collect(a, host, src, xs), Collect(a, host, src, ys))
    decreases |ys|
  {
    if ys == [] {
      assert xs + ys == xs;
      if Collect(a, host, src, xs).Ok? {
        assert Collect(a, host, src, xs).value + [] == Collect(a, host, src, xs).value;
      }
    } else {
      var init := ys[..|ys| - 1];
      var last := ys[|ys| - 1];
      assert (xs + ys)[..|xs + ys| - 1] == xs + init;
      assert (xs + ys)[|xs + ys| - 1] == last;
      CollectConcat(a, host, src, xs, init);
      AndThenAssoc(Collect(a, host, src, xs), Collect(a, host, src, init), CollectFrom(a, host, last, ValuesAt(a, src, last)));
    }
  }

  // ---- the imperative parse

  lemma CollectFromStep(a: Argument, host: Host, op: string, vals: seq<string>, j: nat)
    requires j < |vals|
    ensures CollectFrom(a, host, op, vals[..j + 1])
            == AndThen(CollectFrom(a, host, op, vals[..j]), Outcome(Candidate(a, host, op, vals[j])))
  {
    assert vals[..j + 1][..j] == vals[..j];
  }

  lemma CollectStep(a: Argument, host: Host, src: Container, ops: seq<string>, i: nat)
    requires i < |ops|
    ensures Collect(a, host, src, ops[..i + 1])
            == AndThen(Collect(a, host, src, ops[..i]), CollectFrom(a, host, ops[i], ValuesAt(a, src, ops[i])))
  {
    assert ops[..i + 1][..i] == ops[..i];
  }

  /** The body of the inner loop of Argument.parse for one raw value: fold the case, check the
      choices outside the try, then convert inside it, where `ignore` may skip a failure. */
  method CheckValue(a: Argument, host: Host, op: string, raw: string) returns (v: Verdict)
    ensures v == Candidate(a, host, op, raw)
  {
    var value := raw;
    if !a.caseSensitive {
      value := Lower(value);
    }
    if |a.choices| > 0 && value !in a.choices {
      return Fatal(ValidationError(a, value + " is not valid choice"));
    }
    var converted := Convert(a, host, value, op);
    if converted.Err? {
      if a.ignore {
        return Skip;
      }
      return Fatal(ValidationError(a, converted.error));
    }
    return Keep(converted.value);
  }

  /** The inner loop of Argument.parse: every value of one operator, in source order. */
  method CollectValues(a: Argument, host: Host, op: string, values: seq<string>)
    returns (r: Result<seq<Value>, ArgumentError>)
    ensures r == CollectFrom(a, host, op, values)
  {
    var results: seq<Value> := [];
    var j := 0;
    while j < |values|
      invariant 0 <= j <= |values|
      invariant CollectFrom(a, host, op, values[..j]) == Ok(results)
    {
      CollectFromStep(a, host, op, values, j);
      var verdict := CheckValue(a, host, op, values[j]);
      if verdict.Fatal? {
        CollectFromErrPersists(a, host, op, values, j + 1);
        return Err(verdict.e);
      } else if verdict.Skip? {
        assert results + [] == results;
      } else {
        results := results + [verdict.v];
      }
      j := j + 1;
    }
    assert values[..j] == values;
    r := Ok(results);
  }

  /** Argument.parse: the loop over operators, then the shape of what was collected. */
  method ParseArgument(a: Argument, host: Host, req: Request) returns (r: Result<Value, ArgumentError>)
    ensures r == ParseSpec(a, host, req)
  {
    var source := Source(a.location, req);
    var results: seq<Value> := [];
    var i := 0;
    while i < |a.operators|
      invariant 0 <= i <= |a.operators|
      invariant Collect(a, host, source, a.operators[..i]) == Ok(results)
    {
      var op := a.operators[i];
      CollectStep(a, host, source, a.operators, i);
      var more := CollectValues(a, host, op, ValuesAt(a, source, op));
      if more.Err? {
        r := Err(more.error);
        CollectErrPersists(a, host, source, a.operators, i + 1);
        return;
      }
      results := results + more.value;
      i := i + 1;
    }
    assert a.operators[..i] == a.operators;

    if |results| == 0 {
      if a.required {
        r := Err(ValidationError(a, RequiredMessage(a)));
        return;
      }
      r := Ok(a.default);
      return;
    }
    if a.action == Append {
      if (Truthy(a.maxCount) && |results| > a.maxCount.value) || (Truthy(a.minCount) && |results| < a.minCount.value) {
        r := Err(ValidationError(a, CountMessage(a)));
        return;
      }
      r := Ok(List(results));
      return;
    }
    if a.action == Restore || |results| == 1 {
      r := Ok(results[0]);
      return;
    }
    r := Ok(List(results));
  }

  // ---- properties of one argument

  /** With the default operators the only key looked up is the name itself. */
  lemma DefaultKey(a: Argument)
    ensures Key(a, "=") == a.name
  {
    assert "="[0] == '=' && "="[..0] == [] && "="[1..] == [];
  }

  /** An operator without "=" is appended to the name as it is. */
  lemma SuffixKey(a: Argument, op: string)
    requires '=' !in op
    ensures Key(a, op) == a.name + op
  {
  }

  /** The length check decides before the converter: out of bounds, every converter fails alike. */
  lemma LengthCheckFirst(a: Argument, host: Host, value: string, op: string, other: Converter)
    requires |value| > a.maxLen || |value| < a.minLen
    ensures Convert(a, host, value, op) == Err(LengthMessage(a, |value|))
    ensures Convert(a.(conv := other), host, value, op) == Convert(a, host, value, op)
  {
  }

  /** A converted value always came from a raw value within the length bounds. */
  lemma ConvertInBounds(a: Argument, host: Host, value: string, op: string)
    requires Convert(a, host, value, op).Ok?
    ensures a.minLen <= |value| <= a.maxLen
    ensures Convert(a, host, value, op) == Apply(a.conv, host, value, a.name, op)
  {
  }

  /** A value outside non-empty choices is fatal, whether or not `ignore` is set. */
  lemma ChoiceIsFatal(a: Argument, host: Host, op: string, raw: string)
    requires |a.choices| > 0 && Folded(a, raw) !in a.choices
    ensures Candidate(a, host, op, raw).Fatal? && Candidate(a, host, op, raw).e.source == a
    ensures Candidate(a, host, op, raw).e.msg ==
              if a.help.Some? then a.help.value else Folded(a, raw) + " is not valid choice"
  {
  }

  /** A conversion or length failure is skipped under `ignore` and fatal otherwise. */
  lemma ConversionFailure(a: Argument, host: Host, op: string, raw: string)
    requires |a.choices| == 0 || Folded(a, raw) in a.choices
    requires Convert(a, host, Folded(a, raw), op).Err?
    ensures a.ignore ==> Candidate(a, host, op, raw) == Skip
    ensures !a.ignore ==>
              Candidate(a, host, op, raw) ==
              Fatal(ArgumentError(a, if a.help.Some? then a.help.value
                                     else Convert(a, host, Folded(a, raw), op).error))
  {
  }

  /** Without case sensitivity a value and its lower-case form are treated alike. */
  lemma {:induction false} CaseFolding(a: Argument, host: Host, op: string, raw: string)
    requires !a.caseSensitive
    ensures Candidate(a, host, op, raw) == Candidate(a, host, op, Lower(raw))
  {
    LowerTwice(raw);
  }

  lemma LowerTwice(s: string)
    ensures Lower(Lower(s)) == Lower(s)
  {
    forall k | 0 <= k < |s|
      ensures Lower(Lower(s))[k] == Lower(s)[k]
    {
    }
  }

  /** Every fatal error names its argument and carries `help` when `help` is set. */
  lemma {:induction false} FatalMessages(a: Argument, host: Host, req: Request)
    requires ParseSpec(a, host, req).Err?
    ensures ParseSpec(a, host, req).error.source == a
    ensures a.help.Some? ==> ParseSpec(a, host, req).error.msg == a.help.value
  {
    var src := Source(a.location, req);
    if Collect(a, host, src, a.operators).Err? {
      CollectErrSource(a, host, src, a.operators);
    }
  }

  lemma {:induction false} CollectFromErrSource(a: Argument, host: Host, op: string, vals: seq<string>)
    requires CollectFrom(a, host, op, vals).Err?
    ensures CollectFrom(a, host, op, vals).error.source == a
    ensures a.help.Some? ==> CollectFrom(a, host, op, vals).error.msg == a.help.value
  {
    if vals != [] && CollectFrom(a, host, op, vals[..|vals| - 1]).Err? {
      CollectFromErrSource(a, host, op, vals[..|vals| - 1]);
    }
  }

  lemma {:induction false} CollectErrSource(a: Argument, host: Host, src: Container, ops: seq<string>)
    requires Collect(a, host, src, ops).Err?
    ensures Collect(a, host, src, ops).error.source == a
    ensures a.help.Some? ==> Collect(a, host, src, ops).error.msg == a.help.value
  {
    var init := ops[..|ops| - 1];
    if Collect(a, host, src, init).Err? {
      CollectErrSource(a, host, src, init);
    } else {
      CollectFromErrSource(a, host, ops[|ops| - 1], ValuesAt(a, src, ops[|ops| - 1]));
    }
  }

  /** Nothing collected: a required argument fails naming its locations, even with a default. */
  lemma EmptyResults(a: Argument)
    ensures a.required ==>
              Shape(a, []) == Err(ArgumentError(a, if a.help.Some? then a.help.value
                                                   else a.name + " is required in " + Join(a.location, " or ")))
    ensures !a.required ==> Shape(a, []) == Ok(a.default)
  {
  }

  /** `append` yields every collected value, in order, unless a truthy count bound is broken. */
  lemma AppendShape(a: Argument, results: seq<Value>)
    requires a.action == Append && results != []
    ensures Shape(a, results).Ok? <==>
              !(Truthy(a.maxCount) && |results| > a.maxCount.value) &&
              !(Truthy(a.minCount) && |results| < a.minCount.value)
    ensures Shape(a, results).Ok? ==> Shape(a, results).value == List(results)
    ensures Shape(a, results).Err? ==>
              Shape(a, results).error.msg == if a.help.Some? then a.help.value else CountMessage(a)
  {
  }

  /** A count bound of 0 is no bound, as None is. */
  lemma ZeroBoundIsNoBound(a: Argument, results: seq<Value>)
    ensures Shape(a.(maxCount := Some(0)), results).Ok? <==> Shape(a.(maxCount := None), results).Ok?
    ensures Shape(a.(maxCount := Some(0)), results).Ok? ==>
              Shape(a.(maxCount := Some(0)), results).value == Shape(a.(maxCount := None), results).value
    ensures Shape(a.(minCount := Some(0)), results).Ok? <==> Shape(a.(minCount := None), results).Ok?
    ensures Shape(a.(minCount := Some(0)), results).Ok? ==>
              Shape(a.(minCount := Some(0)), results).value == Shape(a.(minCount := None), results).value
  {
  }

  /** `restore` keeps only the first value; `store` gives a scalar for one value, the list otherwise. */
  lemma ScalarShape(a: Argument, results: seq<Value>)
    requires a.action != Append && results != []
    ensures a.action == Restore ==> Shape(a, results) == Ok(results[0])
    ensures |results| == 1 ==> Shape(a, results) == Ok(results[0])
    ensures a.action == Store && |results| > 1 ==> Shape(a, results) == Ok(List(results))
  {
  }

  /** Two operators each producing one value under `restore`: the first one is the result. */
  lemma {:induction false} RestoreTakesFirst(a: Argument, host: Host, req: Request, x: Value, y: Value)
    requires a.action == Restore && |a.operators| == 2
    requires Collect(a, host, Source(a.location, req), a.operators[..1]) == Ok([x])
    requires CollectFrom(a, host, a.operators[1], ValuesAt(a, Source(a.location, req), a.operators[1])) == Ok([y])
    ensures ParseSpec(a, host, req) == Ok(x)
  {
    var src := Source(a.location, req);
    CollectTwo(a, host, src, x, y);
    RestoreShape(a, [x, y]);
  }

  lemma CollectTwo(a: Argument, host: Host, src: Container, x: Value, y: Value)
    requires |a.operators| == 2
    requires Collect(a, host, src, a.operators[..1]) == Ok([x])
    requires CollectFrom(a, host, a.operators[1], ValuesAt(a, src, a.operators[1])) == Ok([y])
    ensures Collect(a, host, src, a.operators) == Ok([x, y])
  {
    var ops := a.operators;
    CollectStep(a, host, src, ops, 1);
    assert ops[..2] == ops;
    assert AndThen(Ok([x]), Ok([y])) == Ok([x, y]) by {
      assert [x] + [y] == [x, y];
    }
  }

  /** Under `restore` the first collected value is the result. */
  lemma RestoreShape(a: Argument, rs: seq<Value>)
    requires a.action == Restore && |rs| > 0
    ensures Shape(a, rs) == Ok(rs[0])
  {
  }

  /** A required field absent from every key of its source fails with the missing-field message. */
  lemma {:induction false} RequiredMissing(a: Argument, host: Host, req: Request)
    requires a.required
    requires forall k :: 0 <= k < |a.operators| ==> Key(a, a.operators[k]) !in Source(a.location, req)
    ensures ParseSpec(a, host, req) == Err(ValidationError(a, RequiredMessage(a)))
  {
    NothingCollected(a, host, Source(a.location, req), a.operators);
  }

  lemma {:induction false} NothingCollected(a: Argument, host: Host, src: Container, ops: seq<string>)
    requires forall k :: 0 <= k < |ops| ==> Key(a, ops[k]) !in src
    ensures Collect(a, host, src, ops) == Ok([])
  {
    if ops != [] {
      var init := ops[..|ops| - 1];
      assert forall k :: 0 <= k < |init| ==> init[k] == ops[k];
      NothingCollected(a, host, src, init);
      assert Key(a, ops[|ops| - 1]) !in src;
      assert ValuesAt(a, src, ops[|ops| - 1]) == [];
      var none: seq<Value> := [];
      var noRaw: seq<string> := [];
      assert CollectFrom(a, host, ops[|ops| - 1], noRaw) == Ok(none);
      assert none + none == none;
    }
  }

  /** Every collected value is of the shape its converter yields. */
  lemma {:induction false} CollectFromYields(a: Argument, host: Host, op: string, vals: seq<string>)
    requires CollectFrom(a, host, op, vals).Ok?
    ensures forall k :: 0 <= k < |CollectFrom(a, host, op, vals).value| ==>
              Yields(a.conv, CollectFrom(a, host, op, vals).value[k])
  {
    if vals != [] {
      CollectFromYields(a, host, op, vals[..|vals| - 1]);
      var raw := vals[|vals| - 1];
      var v := Folded(a, raw);
      if Candidate(a, host, op, raw).Keep? {
        ApplyYields(a.conv, host, v, a.name, op);
      }
    }
  }

  lemma {:induction false} CollectYields(a: Argument, host: Host, src: Container, ops: seq<string>)
    requires Collect(a, host, src, ops).Ok?
    ensures forall k :: 0 <= k < |Collect(a, host, src, ops).value| ==>
              Yields(a.conv, Collect(a, host, src, ops).value[k])
  {
    if ops != [] {
      CollectYields(a, host, src, ops[..|ops| - 1]);
      CollectFromYields(a, host, ops[|ops| - 1], ValuesAt(a, src, ops[|ops| - 1]));
    }
  }

  /** A parsed argument is its default, one converted value, or a list of converted values. */
  lemma {:induction false} ParseYields(a: Argument, host: Host, req: Request)
    requires ParseSpec(a, host, req).Ok?
    ensures var v := ParseSpec(a, host, req).value;
            || v == a.default
            || Yields(a.conv, v)
            || (v.List? && forall k :: 0 <= k < |v.items| ==> Yields(a.conv, v.items[k]))
  {
    CollectYields(a, host, Source(a.location, req), a.operators);
  }

  // ---- presets of RequestParser

  /** add_taglist_argument: tags of 1..taglength characters, at most tagcount of them, from `name` and `name[]`. */
  function TaglistArgument(a: Argument, taglength: int, tagcount: int): Argument {
    a.(minLen := 1, maxLen := taglength, maxCount := Some(tagcount), action := Append, operators := ["=", "[]"])
  }

  function TimestampArgument(a: Argument, minTime: Option<int>, maxTime: Option<int>, toLocal: bool): Argument {
    a.(conv := Timestamp(minTime, maxTime, toLocal))
  }

  function PositionArgument(a: Argument, needDesc: bool): Argument {
    a.(conv := Position(needDesc))
  }

  function BoolArgument(a: Argument): Argument {
    a.(conv := BoolFlag)
  }

  /** add_phone_argument only supplies the converter when the caller gave none. */
  function PhoneArgument(a: Argument, typeGiven: bool): Argument {
    if typeGiven then a else a.(conv := Phone)
  }

  function RegexArgument(a: Argument, regex: string, flags: int): Argument {
    a.(conv := RegExp(Pattern(regex, flags)))
  }

  function EmailArgument(a: Argument): Argument {
    RegexArgument(a, EmailRegex, IGNORECASE)
  }

  /** A taglist argument reads `name` and `name[]`, in that order. */
  lemma TaglistKeys(a: Argument, taglength: int, tagcount: int)
    ensures var t := TaglistArgument(a, taglength, tagcount);
            |t.operators| == 2 && Key(t, t.operators[0]) == a.name && Key(t, t.operators[1]) == a.name + "[]"
  {
    DefaultKey(a);
    SuffixKey(a, "[]");
  }

  /** A parsed taglist is its default or a list of at most tagcount (when non-zero) converted tags. */
  lemma {:induction false} TaglistCount(a: Argument, taglength: int, tagcount: int, host: Host, req: Request)
    requires ParseSpec(TaglistArgument(a, taglength, tagcount), host, req).Ok?
    ensures var v := ParseSpec(TaglistArgument(a, taglength, tagcount), host, req).value;
            v == a.default || (v.List? && 1 <= |v.items| && (tagcount != 0 ==> |v.items| <= tagcount))
  {
  }

  /** A bool argument yields its default, a bool, or a list of bools. */
  lemma BoolArgumentYields(a: Argument, host: Host, req: Request)
    requires ParseSpec(BoolArgument(a), host, req).Ok?
    ensures var v := ParseSpec(BoolArgument(a), host, req).value;
            v == a.default || v.Bool? || (v.List? && forall k :: 0 <= k < |v.items| ==> v.items[k].Bool?)
  {
    ParseYields(BoolArgument(a), host, req);
  }

  // ---- the parser

  /** What handle_argument_error raises: a client error carrying the message. */
  datatype BadRequest = BadRequest(description: string)

  /** `arg.dest or arg.name`. */
  function DestKey(a: Argument): string {
    if a.dest.Some? && a.dest.value != "" then a.dest.value else a.name
  }

  /** RequestParser.parse_args as a function of the declared arguments, on a prefix. */
  function ParseAll(args: seq<Argument>, host: Host, req: Request, clearNone: bool): Result<map<string, Value>, BadRequest> {
    if args == [] then Ok(map[])
    else match ParseAll(args[..|args| - 1], host, req, clearNone)
      case Err(e) => Err(e)
      case Ok(ns) =>
        var a := args[|args| - 1];
        match ParseSpec(a, host, req)
        case Err(e) => Err(BadRequest(e.msg))
        case Ok(v) => Ok(if v != Null || !clearNone then ns[DestKey(a) := v] else ns)
  }

  lemma {:induction false} ParseAllErrPersists(args: seq<Argument>, host: Host, req: Request, clearNone: bool, k: nat)
    requires k <= |args| && ParseAll(args[..k], host, req, clearNone).Err?
    ensures ParseAll(args, host, req, clearNone) == ParseAll(args[..k], host, req, clearNone)
    decreases |args| - k
  {
    if k == |args| {
      assert args[..k] == args;
    } else {
      var init := args[..|args| - 1];
      assert init[..k] == args[..k];
      ParseAllErrPersists(init, host, req, clearNone, k);
    }
  }

  /** One more argument: its error aborts, its value is stored under `dest or name` unless it is
      None and `clear_none` is set. */
  lemma ParseAllStep(args: seq<Argument>, host: Host, req: Request, clearNone: bool, i: nat, ns: map<string, Value>)
    requires i < |args| && ParseAll(args[..i], host, req, clearNone) == Ok(ns)
    ensures var v := ParseSpec(args[i], host, req);
      ParseAll(args[..i + 1], host, req, clearNone)
        == if v.Err? then Err(BadRequest(v.error.msg))
           else Ok(if v.value != Null || !clearNone then ns[DestKey(args[i]) := v.value] else ns)
  {
    assert args[..i + 1][..i] == args[..i];
  }

  /** Fail fast: the first failing argument decides the error; the arguments after it do not matter. */
  lemma {:induction false} FailFast(args: seq<Argument>, host: Host, req: Request, clearNone: bool, k: nat)
    requires k < |args| && ParseAll(args[..k], host, req, clearNone).Ok?
    requires ParseSpec(args[k], host, req).Err?
    ensures ParseAll(args, host, req, clearNone) == Err(BadRequest(ParseSpec(args[k], host, req).error.msg))
  {
    assert args[..k + 1][..k] == args[..k];
    assert args[..k + 1][k] == args[k];
    ParseAllErrPersists(args, host, req, clearNone, k + 1);
  }

  /** On success each argument's value is stored under `dest or name`, unless a later argument
      with the same key overwrote it or `clear_none` dropped a None. */
  lemma {:induction false} StoredUnderDest(args: seq<Argument>, host: Host, req: Request, clearNone: bool, i: nat)
    requires ParseAll(args, host, req, clearNone).Ok?
    requires i < |args| && ParseSpec(args[i], host, req).Ok?
    requires ParseSpec(args[i], host, req).value != Null || !clearNone
    requires forall j :: i < j < |args| ==> DestKey(args[j]) != DestKey(args[i])
    ensures DestKey(args[i]) in ParseAll(args, host, req, clearNone).value
    ensures ParseAll(args, host, req, clearNone).value[DestKey(args[i])] == ParseSpec(args[i], host, req).value
  {
    var init := args[..|args| - 1];
    if i < |args| - 1 {
      assert forall j :: i < j < |init| ==> init[j] == args[j];
      StoredUnderDest(init, host, req, clearNone, i);
    }
  }

  /** The last argument's contribution to a successful parse. */
  lemma ParseAllLast(args: seq<Argument>, host: Host, req: Request, clearNone: bool)
    requires args != [] && ParseAll(args, host, req, clearNone).Ok?
    ensures ParseAll(args[..|args| - 1], host, req, clearNone).Ok?
    ensures ParseSpec(args[|args| - 1], host, req).Ok?
    ensures var before := ParseAll(args[..|args| - 1], host, req, clearNone).value;
      var a := args[|args| - 1];
      var v := ParseSpec(a, host, req).value;
      ParseAll(args, host, req, clearNone).value
        == if v != Null || !clearNone then before[DestKey(a) := v] else before
  {
  }

  /** On success every key is the `dest or name` of some argument. */
  lemma {:induction false} ResultKeys(args: seq<Argument>, host: Host, req: Request, clearNone: bool)
    requires ParseAll(args, host, req, clearNone).Ok?
    ensures forall key :: key in ParseAll(args, host, req, clearNone).value ==>
      exists j :: 0 <= j < |args| && DestKey(args[j]) == key
  {
    if args != [] {
      var init := args[..|args| - 1];
      ParseAllLast(args, host, req, clearNone);
      ResultKeys(init, host, req, clearNone);
      assert forall j :: 0 <= j < |init| ==> init[j] == args[j];
    }
  }

  /** With clear_none no None value is stored. */
  lemma {:induction false} ClearNoneStoresNoNull(args: seq<Argument>, host: Host, req: Request)
    requires ParseAll(args, host, req, true).Ok?
    ensures forall key :: key in ParseAll(args, host, req, true).value ==>
      ParseAll(args, host, req, true).value[key] != Null
  {
    if args != [] {
      ParseAllLast(args, host, req, true);
      ClearNoneStoresNoNull(args[..|args| - 1], host, req);
    }
  }

  /** Without clear_none every argument has an entry. */
  lemma {:induction false} EveryArgumentStored(args: seq<Argument>, host: Host, req: Request)
    requires ParseAll(args, host, req, false).Ok?
    ensures forall j :: 0 <= j < |args| ==> DestKey(args[j]) in ParseAll(args, host, req, false).value
  {
    if args != [] {
      var init := args[..|args| - 1];
      ParseAllLast(args, host, req, false);
      EveryArgumentStored(init, host, req);
      var before := ParseAll(init, host, req, false).value;
      var a := args[|args| - 1];
      var m := ParseAll(args, host, req, false).value;
      assert m == before[DestKey(a) := ParseSpec(a, host, req).value];
      forall j | 0 <= j < |args|
        ensures DestKey(args[j]) in m
      {
        if j < |init| {
          assert args[j] == init[j];
        }
      }
    }
  }

  /** The ordered argument list of a RequestParser; add_argument appends to it. */
  class RequestParser {
    var args: seq<Argument>

    constructor ()
      ensures args == []
    {
      args := [];
    }

    /** add_argument: appends one rule and returns the parser for chaining. */
    method AddArgument(a: Argument) returns (self: RequestParser)
      modifies this
      ensures args == old(args) + [a]
      ensures self == this
    {
      args := args + [a];
      self := this;
    }

    method AddTaglistArgument(a: Argument, taglength: int, tagcount: int) returns (self: RequestParser)
      modifies this
      ensures args == old(args) + [TaglistArgument(a, taglength, tagcount)]
      ensures self == this
    {
      self := AddArgument(TaglistArgument(a, taglength, tagcount));
    }

    method AddTimestampArgument(a: Argument, minTime: Option<int>, maxTime: Option<int>, toLocal: bool)
      returns (self: RequestParser)
      modifies this
      ensures args == old(args) + [TimestampArgument(a, minTime, maxTime, toLocal)]
      ensures self == this
    {
      self := AddArgument(TimestampArgument(a, minTime, maxTime, toLocal));
    }

    method AddPositionArgument(a: Argument, needDesc: bool) returns (self: RequestParser)
      modifies this
      ensures args == old(args) + [PositionArgument(a, needDesc)]
      ensures self == this
    {
      self := AddArgument(PositionArgument(a, needDesc));
    }

    method AddBoolArgument(a: Argument) returns (self: RequestParser)
      modifies this
      ensures args == old(args) + [BoolArgument(a)]
      ensures self == this
    {
      self := AddArgument(BoolArgument(a));
    }

    method AddPhoneArgument(a: Argument, typeGiven: bool) returns (self: RequestParser)
      modifies this
      ensures args == old(args) + [PhoneArgument(a, typeGiven)]
      ensures self == this
    {
      self := AddArgument(PhoneArgument(a, typeGiven));
    }

    method AddRegexArgument(a: Argument, regex: string, flags: int) returns (self: RequestParser)
      modifies this
      ensures args == old(args) + [RegexArgument(a, regex, flags)]
      ensures self == this
    {
      self := AddArgument(RegexArgument(a, regex, flags));
    }

    method AddEmailArgument(a: Argument) returns (self: RequestParser)
      modifies this
      ensures args == old(args) + [EmailArgument(a)]
      ensures self == this
    {
      self := AddRegexArgument(a, EmailRegex, IGNORECASE);
    }

    /** parse_args: each argument in declaration order; the first failure aborts with BadRequest. */
    method ParseArgs(host: Host, req: Request, clearNone: bool) returns (r: Result<map<string, Value>, BadRequest>)
      ensures r == ParseAll(args, host, req, clearNone)
    {
      var namespace: map<string, Value> := map[];
      var i := 0;
      while i < |args|
        invariant 0 <= i <= |args|
        invariant ParseAll(args[..i], host, req, clearNone) == Ok(namespace)
      {
        var arg := args[i];
        ParseAllStep(args, host, req, clearNone, i, namespace);
        var value := ParseArgument(arg, host, req);
        if value.Err? {
          r := Err(BadRequest(value.error.msg));
          ParseAllErrPersists(args, host, req, clearNone, i + 1);
          return;
        }
        if value.value != Null || !clearNone {
          namespace := namespace[DestKey(arg) := value.value];
        }
        i := i + 1;
      }
      assert args[..i] == args;
      r := Ok(namespace);
    }
  }

  /** Two arguments, the first required and missing: parsing stops there, whatever the second is. */
  method FailFastExample(host: Host, req: Request, first: Argument, second: Argument)
    returns (r: Result<map<string, Value>, BadRequest>)
    requires first.required
    requires forall k :: 0 <= k < |first.operators| ==> Key(first, first.operators[k]) !in Source(first.location, req)
    ensures r == Err(BadRequest(if first.help.Some? then first.help.value else RequiredMessage(first)))
  {
    var p := new RequestParser();
    var _ := p.AddArgument(first);
    var _ := p.AddArgument(second);
    RequiredMissing(first, host, req);
    assert p.args[..0] == [];
    FailFast(p.args, host, req, false, 0);
    r := p.ParseArgs(host, req, false);
  }
}
