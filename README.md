# moon — a verified model of its request parser and utilities

`moon` is a small Python 2 toolkit for web services. This project models its core in Dafny and
proves properties of that model:

- **Request-argument parsing** (`moon/web/reqparse.py`). An `Argument` names a field. It says
  where the field is looked up (`location`) and under which keys (`operators`). It also says how
  each raw string is folded, checked against `choices`, bounded in length and converted, and how
  the collected values are shaped (`store`, `append`, `restore`). A `RequestParser` runs its
  arguments in declaration order, stops at the first failure and fills a namespace keyed by
  `dest or name`. The converters are modelled one by one: bool, phone, timestamp, position, regex
  and e-mail.
- **Strings** (`moon/string.py`). `truncate_unicode` cuts a string by display width. ASCII and
  Latin-1 characters count 1; characters above U+00FF count `ucas`. `validate_isbn` checks
  ISBN-10 and ISBN-13 check characters.
- **Call limiting** (`moon/funclimit.py`). `LimitTimes` accepts at most `times` calls inside a
  sliding window of `spanseconds` seconds.
- **Progress bar** (`moon/cmd.py`). The bar and suffix strings of `ProgressBar`.
- **Pagination** (`moon/sqlalchemy/__init__.py` and its older copy `sqlalchemy/__init__.py`).
  The `Pagination` page object and `BaseQuery.paginate`. A query is the sequence of rows it
  returns: `limit`/`offset` become a window on it and `count()` becomes its length.

Modules:

- `Wrappers`: `Option`, `Result`.
- `IntMath`: Python 2 integer `/` as floor division, and ceiling division.
- `Text`: the `str`/`unicode` built-ins the code relies on: `strip`, `lower`, `upper`,
  `replace`, `split(sep, maxsplit)`, `join`, `int()` literals, `"%d"`.
- `Converters`, `ReqParse`: `moon/web/reqparse.py`.
- `MoonString`: `moon/string.py`.
- `FuncLimit`: `moon/funclimit.py`.
- `Cmd`: `moon/cmd.py`.
- `Pagination`: `moon/sqlalchemy/__init__.py`.
- `LegacyPagination`: `sqlalchemy/__init__.py`.

How the model is shaped:

- **Exceptions become `Err` values.** The error message is kept wherever the code builds one.
- **Imperative code stays imperative.** Each of these is proved equal to a specification
  function, and the properties are lemmas about those functions:
  - the loops of `Argument.parse`, `parse_args`, `truncate_unicode` and `isbn10`/`isbn13`
    are methods with loop invariants;
  - `RequestParser` is a class whose `args` sequence `add_argument` appends to;
  - `LimitTimes` is a class whose `history` field `require_call` rewrites.
- **Specification functions recurse on the last element.** They read prefix by prefix, so each
  loop invariant is "the specification of the prefix seen so far".
- **Outside facilities are parameters.** A `Host` value carries Python's `float()`, the regex
  matcher, `strftime` and the code of caller-supplied converters. The clock reading
  `int(time.time())` of `require_call` is the parameter `now`.
- **Request objects are maps.** A request maps each present source attribute to a multi-valued
  container (`map<string, seq<string>>`).
  - An absent or `None` attribute is simply missing.
  - A plain `dict` source, read with `get` instead of `getlist`, is a container whose entries
    each hold one value.
  - A `location` given as one string acts exactly like a one-element `location` sequence: same
    lookup, same "required" message. Sequences model both.

The model follows the code where a reading of the documentation might suggest otherwise:

- `check_phone` accepts any `int()` literal of 11 characters. That includes a leading sign or
  leading zeros.
- `RegExpParse` uses `re.match`, which anchors only at the start. The matcher is a `Host`
  predicate applied to the stripped value.
- A value outside `choices` is fatal even under `ignore=True`, because that check sits outside
  the `try`.
- `end` is appended by `truncate_unicode` even when the whole string fits, once the length
  shortcut does not apply.

## Model

| member | source | states |
|---|---|---|
| ReqParse.NewArgument | moon/web/reqparse.py:27-47 | `Argument(name)` is not required, does not ignore, and defaults to None |
| ReqParse.Source | moon/web/reqparse.py:49-59 | the group of the first location present in the request, every earlier location being absent; an empty group when none is present |
| ReqParse.DefaultKey | moon/web/reqparse.py:85 | with the default operator `=` the lookup key is the name itself |
| ReqParse.SuffixKey | moon/web/reqparse.py:85 | an operator without `=` is appended to the name unchanged |
| ReqParse.LengthCheckFirst | moon/web/reqparse.py:61-66 | a raw value outside `[min_len, max_len]` fails with the length message, the same for every converter |
| ReqParse.ConvertInBounds | moon/web/reqparse.py:61-68 | a successful conversion came from a value within the length bounds and is the converter's own result |
| ReqParse.CaseFolding | moon/web/reqparse.py:93-94 | without case sensitivity a value and its lower-case form are treated identically |
| ReqParse.ChoiceIsFatal | moon/web/reqparse.py:95-99 | a folded value outside non-empty `choices` is fatal whatever `ignore` says, with `help` or "… is not valid choice" as message |
| ReqParse.ConversionFailure | moon/web/reqparse.py:100-106 | a length or conversion failure is skipped under `ignore` and otherwise fatal, with `help` or the failure text as message |
| ReqParse.CheckValue | moon/web/reqparse.py:93-107 | the loop body for one raw value returns the verdict of the specification `Candidate` |
| ReqParse.CollectValues | moon/web/reqparse.py:86-107 | the inner loop over one key's values equals the specification `CollectFrom`: kept values in order, or the first fatal error |
| ReqParse.Convert | moon/web/reqparse.py:61-73 | the length check, then the converter: properties in LengthCheckFirst and ConvertInBounds |
| ReqParse.Candidate | moon/web/reqparse.py:92-107 | what one raw value becomes: kept, skipped under `ignore`, or fatal; properties in CaseFolding, ChoiceIsFatal and ConversionFailure |
| ReqParse.CollectFrom | moon/web/reqparse.py:92-107 | the values of one key, in order, up to the first fatal one; properties in CollectFromConcat and CollectFromErrPersists |
| ReqParse.Collect | moon/web/reqparse.py:84-107 | the values of all operators' keys, in operator order; properties in CollectConcat and CollectErrPersists |
| ReqParse.Shape | moon/web/reqparse.py:109-139 | the tail of `parse`: required error, default, or the `append`/`restore`/`store` shape; properties in EmptyResults, AppendShape, ZeroBoundIsNoBound and ScalarShape |
| ReqParse.ParseSpec | moon/web/reqparse.py:79-139 | `Argument.parse` as a function: collect from the resolved source, then shape; properties in ParseYields, FatalMessages and RequiredMissing |
| ReqParse.ParseArgument | moon/web/reqparse.py:79-139 | `Argument.parse` (loops over operators and values, then shaping) equals the specification `ParseSpec` |
| ReqParse.CollectFromErrPersists | moon/web/reqparse.py:95-106 | once a value is fatal, later values of the same key no longer matter |
| ReqParse.CollectErrPersists | moon/web/reqparse.py:84-106 | once an operator's values fail, later operators no longer matter |
| ReqParse.CollectFromConcat | moon/web/reqparse.py:92-107 | values are collected in source order: a longer value list adds its results after the earlier ones |
| ReqParse.CollectConcat | moon/web/reqparse.py:84-107 | results are collected in operator order: later operators add their results after the earlier ones |
| ReqParse.NothingCollected | moon/web/reqparse.py:84-90 | when no operator's key is in the source, nothing is collected |
| ReqParse.FatalMessages | moon/web/reqparse.py:75-77 | every failure of `parse` names its argument and carries `help` when `help` is set |
| ReqParse.EmptyResults | moon/web/reqparse.py:109-123 | with nothing collected a required argument fails with "<name> is required in <loc1 or loc2 …>" even if it has a default; otherwise the default is returned |
| ReqParse.RequiredMissing | moon/web/reqparse.py:109-120 | a required argument whose keys are all absent from its source fails with the required message |
| ReqParse.AppendShape | moon/web/reqparse.py:125-134 | `append` returns the whole list in order, and fails exactly when a truthy `max_count` is exceeded or a truthy `min_count` is not met |
| ReqParse.ZeroBoundIsNoBound | moon/web/reqparse.py:126-127 | a count bound of 0 behaves exactly like no bound |
| ReqParse.ScalarShape | moon/web/reqparse.py:136-139 | `restore` or a single result gives the first result; `store` with several results gives the list |
| ReqParse.RestoreTakesFirst | moon/web/reqparse.py:136-137 | under `restore`, of one value per operator the first operator's value wins |
| ReqParse.ParseYields | moon/web/reqparse.py:100-139 | a parsed value is the default, one converted value, or a list of converted values |
| ReqParse.TaglistKeys | moon/web/reqparse.py:171-174 | a taglist argument reads `name` then `name[]` |
| ReqParse.TaglistCount | moon/web/reqparse.py:171-174 | a parsed taglist is its default or a non-empty list of at most `tagcount` tags when `tagcount` is non-zero |
| ReqParse.BoolArgumentYields | moon/web/reqparse.py:187-195 | a bool argument yields its default, a bool, or a list of bools |
| ReqParse.DestKey | moon/web/reqparse.py:161 | `arg.dest or arg.name`: an empty or missing `dest` falls back to the name |
| ReqParse.ParseAll | moon/web/reqparse.py:152-167 | `parse_args` as a function over the declared arguments; properties in FailFast, StoredUnderDest, ResultKeys, ClearNoneStoresNoNull and EveryArgumentStored |
| ReqParse.ParseAllErrPersists | moon/web/reqparse.py:155-159 | once an argument fails, the arguments after it do not change the outcome |
| ReqParse.ParseAllStep | moon/web/reqparse.py:155-161 | one more argument aborts on its error or stores its value under `dest or name`, skipping None under `clear_none` |
| ReqParse.FailFast | moon/web/reqparse.py:152-167 | the first failing argument's message is the BadRequest, whatever follows it |
| ReqParse.StoredUnderDest | moon/web/reqparse.py:160-161 | on success each argument's value is stored under `dest or name` unless a later argument reuses the key or `clear_none` drops a None |
| ReqParse.ResultKeys | moon/web/reqparse.py:160-161 | every key of the namespace is the `dest or name` of some argument |
| ReqParse.ClearNoneStoresNoNull | moon/web/reqparse.py:160-161 | with `clear_none` no None value is stored |
| ReqParse.EveryArgumentStored | moon/web/reqparse.py:160-161 | without `clear_none` every argument has an entry |
| ReqParse.RequestParser.constructor | moon/web/reqparse.py:143-146 | a new parser has no arguments |
| ReqParse.RequestParser.AddArgument | moon/web/reqparse.py:148-150 | appends the argument and returns the same parser |
| ReqParse.RequestParser.AddTaglistArgument | moon/web/reqparse.py:171-174 | appends an `append` argument with lengths `1..taglength`, `max_count = tagcount` and operators `=` and `[]` |
| ReqParse.RequestParser.AddTimestampArgument | moon/web/reqparse.py:176-180 | appends the argument with a timestamp converter of the given bounds |
| ReqParse.RequestParser.AddPositionArgument | moon/web/reqparse.py:182-185 | appends the argument with a position converter |
| ReqParse.RequestParser.AddBoolArgument | moon/web/reqparse.py:187-195 | appends the argument with the bool converter |
| ReqParse.RequestParser.AddPhoneArgument | moon/web/reqparse.py:197-214 | appends the argument with the phone converter only when no `type` was given |
| ReqParse.RequestParser.AddRegexArgument | moon/web/reqparse.py:216-219 | appends the argument with one compiled pattern and its flags |
| ReqParse.RequestParser.AddEmailArgument | moon/web/reqparse.py:221-223 | appends the argument with the e-mail pattern under `re.IGNORECASE` |
| ReqParse.RequestParser.ParseArgs | moon/web/reqparse.py:152-167 | the loop of `parse_args` equals the specification `ParseAll`: the namespace, or the BadRequest of the first failure |
| ReqParse.FailFastExample | moon/web/reqparse.py:155-159 | a missing required first argument stops the parse there, whatever the second argument is |
| Converters.ParseBool | moon/web/reqparse.py:188-192 | succeeds exactly on "true"/"false" after strip and lower-casing, giving that bool; otherwise fails with the bool message |
| Converters.BoolRoundTrip | moon/web/reqparse.py:188-192 | "True" or "False", padded with whitespace, parses back to its bool |
| Converters.CheckPhone | moon/web/reqparse.py:198-211 | blank gives None; a stripped `int()` literal of exactly 11 characters is accepted and returned stripped, and every accepted value is one; otherwise "phone number invalid" for a non-literal and "phone number length invalid" for a literal of another length |
| Converters.Trunc | moon/web/reqparse.py:243 | `int()` of a float truncates toward zero |
| Converters.ParseTimestamp | moon/web/reqparse.py:235-262 | blank gives None; a result is the epoch `int()` or `int(float())` reads, within both bounds; every in-bounds epoch is accepted; an unreadable epoch fails with `float()`'s message; `mintime` is checked before `maxtime`, each failing with "datetime (…) out of limit (mintime=…)" or "(maxtime=…)" and both times formatted by `strftime` |
| Converters.TimestampOfInt | moon/web/reqparse.py:240-260 | the decimal text of an epoch is accepted exactly when it lies within the bounds, as that epoch |
| Converters.TimestampBoundExample | moon/web/reqparse.py:249-254 | with a lower bound of 2020-01-01 an epoch from 2017 is refused and one from 2023 accepted |
| Converters.ParsePosition | moon/web/reqparse.py:270-284 | blank gives None; no colon fails the unpack; a result holds the floats of the first two parts of `split(":", 2)` and the third part as description, which `need_desc` requires non-empty |
| Converters.PositionRoundTrip | moon/web/reqparse.py:275-284 | `x:y:desc` reads back as its parts, colons in `desc` included |
| Converters.PositionWithoutDesc | moon/web/reqparse.py:276-278 | `x:y` fails under `need_desc` and otherwise gives a position without description |
| Converters.PositionExample | moon/web/reqparse.py:275-280 | "1.5:2.5" needs a description under `need_desc`; "1.5:2.5:home" gives (1.5, 2.5, "home") |
| Converters.ParseRegExp | moon/web/reqparse.py:294-302 | blank gives None; a non-blank stripped value is accepted, as itself, exactly when the pattern matches it, and fails with "Can not match regex" otherwise |
| Converters.EpochOf | moon/web/reqparse.py:240-243 | `int(v)`, falling back to `int(float(v))`; property in TimestampOfInt |
| Converters.Apply | moon/web/reqparse.py:67-73 | calling `self.type` on one value: the built-in converters, or a caller-supplied one with the arguments of its signature; property in ApplyYields |
| Converters.CallArgs | moon/web/reqparse.py:67-73 | a caller-supplied converter receives the value, then the name, then the operator: exactly one, two or three arguments as its declared signature takes |
| Converters.ApplyYields | moon/web/reqparse.py:67-73 | each built-in converter yields values of its own shape |
| Text.Strip | moon/web/reqparse.py:236 | `strip()` removes exactly the leading and trailing whitespace; the result is empty exactly for an all-whitespace input |
| Text.Lower | moon/web/reqparse.py:94 | `lower()` maps each character and keeps the length |
| Text.RemoveFirst | moon/web/reqparse.py:85 | `replace("=", "", 1)` removes the first `=` only, and nothing when there is none |
| Text.SplitMaxSeparators | moon/web/reqparse.py:275 | `split(":", 2)` gives at most three parts; every part but the last is colon-free, and so is the last when fewer cuts were made |
| Text.SplitMaxJoin | moon/web/reqparse.py:275 | joining the parts of `split(c, n)` with `c` gives back the input |
| Text.IntToString | moon/cmd.py:22 | `"%d"` renders an `int()` literal whose value is the number: digits without a leading zero, after a `-` for negatives |
| Text.RemoveAll | moon/string.py:32 | `replace("-", "")` leaves no dash, and has the input's length exactly when there was none |
| Text.RemoveAllConcat | moon/string.py:32 | removal works piecewise over a concatenation, so the other characters are kept in order |
| Text.RemoveAllSingle | moon/string.py:32 | a single character is dropped exactly when it is the removed one |
| Text.UpperConcat | moon/string.py:32 | `upper()` works piecewise over a concatenation |
| Text.Upper | moon/string.py:32 | `upper()` maps each character and keeps the length |
| MoonString.Cut | moon/string.py:14-21 | the scan keeps the longest prefix whose running width stays within `length` and stops at the first character that would exceed it |
| MoonString.TruncateUnicode | moon/string.py:7-22 | `s` unchanged when `2·len(s) < length`; otherwise the prefix at `Cut` followed by `end` |
| MoonString.CutIsLongest | moon/string.py:12-22 | every longer prefix is wider than `length` (for non-negative `ucas`) |
| MoonString.FitsWhole | moon/string.py:14-22 | when every prefix fits, the whole string is kept |
| MoonString.PrefixWidthBound | moon/string.py:10-11 | with `ucas <= 2` the width is at most twice the length |
| MoonString.ShortcutOnlyDropsEnd | moon/string.py:10-11 | with `ucas <= 2` the shortcut applies only where the scan would keep the whole string, so it just omits `end` |
| MoonString.CheckChar10 | moon/string.py:40-41 | the ISBN-10 check character is a digit or `X` |
| MoonString.CheckChar13 | moon/string.py:49-50 | the ISBN-13 check character is a digit |
| MoonString.Isbn10 | moon/string.py:36-42 | `isbn10`: a format failure on a non-digit among the first nine, else whether the tenth is the check character; equivalence with ISO 2108 in Isbn10MatchesIso |
| MoonString.Isbn13 | moon/string.py:44-51 | `isbn13`: a format failure on a non-digit among the first twelve, else whether the thirteenth is the check digit; equivalence with EAN-13 in Isbn13MatchesEan |
| MoonString.CheckIsbn10 | moon/string.py:36-42 | the summing loop of `isbn10` gives `Isbn10`: a format failure on a non-digit among the first nine, else whether the tenth is the check character |
| MoonString.CheckIsbn13 | moon/string.py:44-51 | the summing loop of `isbn13` gives `Isbn13` |
| MoonString.Normalize | moon/string.py:32 | the normalised form has no dash, keeps the input's length exactly when the input had none, and is the upper-cased input when there was none |
| MoonString.NormalizeDropsDash | moon/string.py:32 | a dash is dropped and the text on both sides is normalised in place: `Normalize(a + "-" + b) == Normalize(a) + Normalize(b)` |
| MoonString.Validate | moon/string.py:31-68 | `validate_isbn` as a function with its three messages; properties in DashRule, FormatErrorIff, SuccessIsNormalized and ValidateIff |
| MoonString.ValidateIsbn | moon/string.py:31-68 | `validate_isbn` as written equals the specification `Validate` |
| MoonString.DashRule | moon/string.py:32-34 | the dash error occurs exactly for a dash without `allow_dash`; with `allow_dash` the input validates as its normalised form |
| MoonString.SuccessIsNormalized | moon/string.py:53-68 | success returns the normalised, dash-free string of length 10 or 13 |
| MoonString.FormatErrorIff | moon/string.py:53-66 | "isbn format error" exactly for a wrong length or a non-digit in a summed position |
| MoonString.CheckChar10Completes | moon/string.py:40-42 | the ISBN-10 check character is the only one that makes the weighted sum a multiple of 11 |
| MoonString.CheckChar13Completes | moon/string.py:49-51 | the ISBN-13 check character is the only digit that makes the weighted sum a multiple of 10 |
| MoonString.Isbn10MatchesIso | moon/string.py:36-42 | `isbn10` accepts exactly the ten-character strings satisfying the ISO 2108 ISBN-10 rule |
| MoonString.Isbn13MatchesEan | moon/string.py:44-51 | `isbn13` accepts exactly the thirteen-character strings satisfying the EAN-13 rule |
| MoonString.ValidateIff | moon/string.py:31-68 | `validate_isbn` succeeds exactly when the dash rule passes and the normalised form is a valid ISBN-10 or ISBN-13 |
| FuncLimit.Prune | moon/funclimit.py:22-25 | the kept entries are exactly those later than `now - spanseconds` (all of them without a window), never more than before |
| FuncLimit.PruneConcat | moon/funclimit.py:25 | `filter` works entry by entry: pruning a concatenation prunes each part, so every occurrence of a kept timestamp survives, in order |
| FuncLimit.PruneSingle | moon/funclimit.py:24-25 | one entry is kept exactly when it is later than `now - spanseconds`, or always without a window |
| FuncLimit.PruneKeepsRecent | moon/funclimit.py:22-25 | entries all inside the window are all kept, in order |
| FuncLimit.PruneDropsStale | moon/funclimit.py:22-25 | entries all outside the window are all dropped |
| FuncLimit.Step | moon/funclimit.py:19-31 | a call is accepted exactly when the pruned history has fewer than `times` entries; acceptance appends `now`, refusal keeps the pruned history |
| FuncLimit.Policy | moon/funclimit.py:36-42 | the function runs exactly when accepted; a refusal returns None under `silence` and raises "Out of call limits" otherwise |
| FuncLimit.Run | moon/funclimit.py:19-31 | successive `require_call`s at the given clock readings: one decision per call and the final history; properties in RunKeepsBound, NoWindowHistory and the demo lemmas |
| FuncLimit.StepKeepsBound | moon/funclimit.py:27-29 | a call never grows the history past `times` |
| FuncLimit.RefusalRecordsNothing | moon/funclimit.py:30-31 | a refused call only prunes and never grows the history |
| FuncLimit.RunKeepsBound | moon/funclimit.py:17-29 | from a fresh limiter, every sequence of calls leaves at most `times` entries |
| FuncLimit.NoWindowHistory | moon/funclimit.py:22-29 | without a window the history is the clock readings of the first `times` calls |
| FuncLimit.NoWindowAcceptsFirstCalls | moon/funclimit.py:22-29 | without a window exactly the first `times` calls are accepted |
| FuncLimit.NoWindowCount | moon/funclimit.py:22-29 | without a window `min(calls, times)` calls are accepted in all |
| FuncLimit.LimitTimes.constructor | moon/funclimit.py:13-17 | keeps the configuration and starts with an empty history |
| FuncLimit.LimitTimes.RequireCall | moon/funclimit.py:19-31 | `require_call` decides and updates the history exactly as `Step`, keeping the bound |
| FuncLimit.LimitTimes.Invoke | moon/funclimit.py:33-43 | a call of the decorated function updates the history as `Step` and responds as `Policy` |
| FuncLimit.DemoFirstThree | moon/funclimit.py:48-54 | three calls in one second under `LimitTimes(3, 1)` are all accepted |
| FuncLimit.DemoFourth | moon/funclimit.py:55 | the fourth call in that second is refused and leaves the history unchanged |
| FuncLimit.DemoTrace | moon/funclimit.py:48-59 | the demo's five calls: accepted, accepted, accepted, refused, then accepted two seconds later |
| IntMath.FloorDiv | moon/cmd.py:13 | Python 2 integer `/`: the quotient rounded toward minus infinity |
| Cmd.DefaultBar | moon/cmd.py:6-10 | the default bar has `max` 100, no percent and 30 cells |
| Cmd.Repeat | moon/cmd.py:14 | `c * n` is `n` copies of `c`, none for `n <= 0` |
| Cmd.Filled | moon/cmd.py:13 | `int(clen * current / max)` with Python 2 integer division; properties in FilledInRange and FilledMonotone |
| Cmd.BuildBar | moon/cmd.py:12-15 | fails with division by zero exactly when `max` is 0; otherwise `floor(clen·current/max)` hashes then spaces up to `clen` cells |
| Cmd.BuildSuffix | moon/cmd.py:17-22 | percent form: the digits of `floor(100·current/max)` then `%`, failing only for `max` 0; otherwise "current/max" |
| Cmd.FilledInRange | moon/cmd.py:13 | for `0 <= current <= max` the filled count lies in `[0, clen]` |
| Cmd.BarShape | moon/cmd.py:13-15 | for `0 <= current <= max` the bar is exactly `clen` cells, with exactly the filled count of hashes |
| Cmd.FilledMonotone | moon/cmd.py:13 | the filled count never decreases as `current` grows |
| Cmd.FullAtMax | moon/cmd.py:13-14 | at `current == max` the bar is all hashes |
| Cmd.PercentInRange | moon/cmd.py:18-20 | for `0 <= current <= max` the percentage lies in `[0, 100]` |
| IntMath.CeilDiv | moon/sqlalchemy/__init__.py:42 | `ceil` of a quotient: the least multiple of the divisor at or above the dividend |
| Pagination.Window | moon/sqlalchemy/__init__.py:82-83 | `limit(k).offset(o)` yields at most `k` consecutive rows starting at row `o` |
| Pagination.Pages | moon/sqlalchemy/__init__.py:37-43 | 0 without a page size, else the ceiling of `total / per_page`, for a positive and for a negative page size |
| Pagination.HasPrev | moon/sqlalchemy/__init__.py:54-56 | `has_prev`: the page number is above 1 |
| Pagination.HasNext | moon/sqlalchemy/__init__.py:67-69 | `has_next`: the page number is below `pages`; characterised by HasNextIff |
| Pagination.PrevNum | moon/sqlalchemy/__init__.py:50-52 | `prev_num`: the page number minus one |
| Pagination.NextNum | moon/sqlalchemy/__init__.py:63-65 | `next_num`: the page number plus one |
| Pagination.Paginate | moon/sqlalchemy/__init__.py:74-93 | `paginate`: raise for a bad page under a truthy `error_out`, else the page with its window of rows and its total; properties in PageSlice, TotalIsRowCount and BadPageNumbers |
| Pagination.Prev | moon/sqlalchemy/__init__.py:45-48 | `prev`: the query's page `page_num - 1`, or the assertion failure without a query; properties in PrevOfHasPrev and NavigationNumbers |
| Pagination.Next | moon/sqlalchemy/__init__.py:58-61 | `next`: the query's page `page_num + 1`, or the assertion failure without a query; properties in NextOfHasNext and NavigationNumbers |
| Pagination.PageSlice | moon/sqlalchemy/__init__.py:82-83 | the items are rows `(n-1)·k` to `n·k`, cut at the end, at most `k` of them |
| Pagination.TotalIsRowCount | moon/sqlalchemy/__init__.py:88-91 | the short-first-page shortcut agrees with `count()`: the total is always the row count |
| Pagination.BadPageNumbers | moon/sqlalchemy/__init__.py:79-86 | a falsy `error_out` never raises; otherwise it raises exactly for a page below 1 or an empty later page, `PageNotFound` for `True` and the given exception otherwise |
| Pagination.HasNextIff | moon/sqlalchemy/__init__.py:67-69 | `has_next` holds exactly when rows remain after the page |
| Pagination.NextOfHasNext | moon/sqlalchemy/__init__.py:58-69 | a page with `has_next` has a non-empty next page even with `error_out` set |
| Pagination.PrevOfHasPrev | moon/sqlalchemy/__init__.py:45-56 | a page returned under `error_out` with `has_prev` has a non-empty previous page |
| Pagination.NavigationNeedsQuery | moon/sqlalchemy/__init__.py:45-61 | `prev` and `next` fail their assertion on a page without a query |
| Pagination.NavigationNumbers | moon/sqlalchemy/__init__.py:45-65 | `prev`/`next` land on `prev_num`/`next_num` with the same page size and query; a next page has a previous one |
| LegacyPagination.Paginate | sqlalchemy/__init__.py:73-91 | the older `paginate` as written, raising `error_out` unchanged; properties in AgreesWithMoon, SliceAndTotal and BadPageNumbers |
| LegacyPagination.Prev | sqlalchemy/__init__.py:44-47 | the older `prev`; property in NavigationAgrees |
| LegacyPagination.Next | sqlalchemy/__init__.py:57-60 | the older `next`; property in NavigationAgrees |
| LegacyPagination.AgreesWithMoon | sqlalchemy/__init__.py:73-91 | the older `paginate` succeeds on the same inputs with the same page, and differs only for `error_out=True` |
| LegacyPagination.NavigationAgrees | sqlalchemy/__init__.py:44-60 | the older `prev`/`next` need the query and otherwise agree with the newer ones except under `error_out=True` |
| LegacyPagination.SliceAndTotal | sqlalchemy/__init__.py:80-89 | the older copy's slice, total, page count and `has_next`/`has_prev` |
| LegacyPagination.BadPageNumbers | sqlalchemy/__init__.py:78-84 | the older copy raises for the same pages; `error_out=True` is itself raised, which is a `TypeError` |
| LegacyPagination.RaiseTrueExample | sqlalchemy/__init__.py:78-79 | `paginate(0, 10, True)` is a `TypeError` in the older copy and `PageNotFound` in the newer one |

## Left out

- Werkzeug's `MultiDict` and `BadRequest` are a map of value lists and a `BadRequest` value.
- `RequestParser`'s `argument_class` and `namespace_class` hooks are not modelled. Arguments are
  always `Argument` values and the namespace is a map.
- `ReqParse.RequestParser.ParseArgs`: does not model an overridden `handle_argument_error` that
  returns normally. The hook always aborts.
- Calling-convention probing in `Argument.convert` (lines 67-73) is a declared `Arity` per
  converter. A converter that raises `TypeError` for another reason is not modelled.
- A caller-supplied converter is an opaque `Host` function from its arguments to a value or a
  message. Its exception text is that message.
- `Converters.ParseTimestamp`: epochs stay integers and the bounds are integer epochs.
  - `datetime.fromtimestamp`/`utcfromtimestamp` and the naive datetime comparison are not modelled.
  - Their range errors are not modelled either.
  - `strftime` is a `Host` function.
  - A `mintime`/`maxtime` that is falsy is not modelled; datetimes are always truthy.
- `Converters.ParsePosition`: `float()` is the `Host` function `floatOf`. NaN and infinities are
  outside the model.
- `float(value)` in the timestamp fallback is that same `Host` function.
  - `Converters.Trunc` covers only finite values.
  - The `OverflowError` of `int(float("inf"))` is not modelled.
- The regex engine is the `Host` predicate `matches`, including for the e-mail pattern, whose
  text is kept as a constant.
- `Text.Lower`, `Text.Upper`: map only ASCII letters. Python's Unicode case mapping of other
  letters is not modelled.
- `Text.IsIntLiteral`: `int()` literals are an optional sign followed by ASCII digits. Non-ASCII
  decimal digits that `int()` also accepts are not modelled, in the phone, timestamp and ISBN
  checks alike. Nor is the whitespace Python 2's `int()` skips between the sign and the digits:
  `check_phone` accepts `u"- 123456789"` and the timestamp converter reads `"- 5"` as -5, where
  the model refuses both.
- `ReqParse.Convert`: `max_len` is an integer. Python 2 orders `None` below every integer, so
  `max_len=None` makes every value fail the length check; that case is not modelled.
- `ReqParse.RequestParser.AddRegexArgument`: the pattern is always a pattern text compiled with
  `flags`. An already compiled pattern, which `RegExpParse` uses as it is and for which `flags`
  is ignored, is not modelled.
- `MoonString.TruncateUnicode`: the `isinstance(s, unicode)` assertion has no counterpart.
  Narrow Python builds, which store characters above U+FFFF as two code units, are not modelled.
  A character is one Unicode scalar value.
- `Pagination.Window`: a negative offset or limit counts as zero. What a database does with
  negative values is not modelled.
- `Pagination.Pages`: exact integer ceiling division. The float rounding of
  `ceil(total / float(per_page))` for very large totals is not modelled.
- `error_out` values that are truthy but neither `True` nor an exception class are not modelled.
- `ProgressBar.__call__` (line formatting, UTF-8 encoding of the prefix, writing to stdout) is
  I/O. `current` is an integer; float progress values are not modelled.
- The `LimitTimes` decorator's `functools.wraps` and the call of the wrapped function are I/O.
  The clock is the parameter `now`.
- The demo in `moon/funclimit.py` is stated as a lemma over call sequences (`Run`), not as a
  method driving a `LimitTimes` object. It assumes the first four calls fall in the same second.
- SQLAlchemy sessions, engines, `_QueryProperty`, `declarative_base`, `_include_sqlalchemy`,
  `_setup_dump_deleted` and `Model.to_dict`/`cs_update` are ORM and file-system glue.
- `moon/config.py`, `moon/logging.py`, `moon/mac.py`, `moon/__init__.py` (`NameSpace`),
  `moon/web/urltype.py`, `test/funclogger.py` and `setup.py` are not part of this model. They
  hold configuration loading, logging, shell calls, a dict wrapper, a URL converter and
  packaging.

## Findings

| source | as written | input that shows it | evidently intended | confidence | as-written member | corrected member |
|---|---|---|---|---|---|---|
| sqlalchemy/__init__.py:78-79 | `raise error_out` with `error_out=True` raises the boolean itself, which Python 2 rejects with a `TypeError` ("exceptions must be old-style classes or derived from BaseException, not bool") | `paginate(0, 10, error_out=True)` on any query | raise the page-not-found exception, as `moon/sqlalchemy/__init__.py:79` does by mapping `True` to `PageNotFound` | not executed | LegacyPagination.RaiseTrueExample | Pagination.BadPageNumbers |
