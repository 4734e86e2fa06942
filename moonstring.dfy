/** `moon.string`: width-aware truncation of unicode strings and ISBN-10 / ISBN-13 validation. */
module MoonString {
  import opened Wrappers
  import opened Text

  // ---------------------------------------------------------------------------
  // truncate_unicode
  // ---------------------------------------------------------------------------

  /** Display width of one character: `ucas` above U+00FF, 1 otherwise. */
  function Width(c: char, ucas: int): int {
    if c as int > 0xff then ucas else 1
  }

  /** Total display width of `s`. */
  function PrefixWidth(s: string, ucas: int): int {
    if s == [] then 0 else PrefixWidth(s[..|s| - 1], ucas) + Width(s[|s| - 1], ucas)
  }

  /** Where the scan stops: the length of the first prefix whose width exceeds `length`,
      less one, or all of `s` when no prefix does. */
  function Cut(s: string, length: int, ucas: int): (k: nat)
    ensures k <= |s|
    ensures forall m :: 1 <= m <= k ==> PrefixWidth(s[..m], ucas) <= length
    ensures k < |s| ==> PrefixWidth(s[..k + 1], ucas) > length
  {
    if s == [] then 0
    else
      var init := s[..|s| - 1];
      var k := Cut(init, length, ucas);
      assert forall m :: 0 <= m <= k ==> init[..m] == s[..m];
      if k < |init| then
        assert init[..k + 1] == s[..k + 1];
        k
      else if PrefixWidth(s, ucas) > length then
        assert s[..|s|] == s;
        |s| - 1
      else
        assert s[..|s|] == s;
        |s|
  }

  /** Once the scan has stopped inside a prefix, extending the string does not move it. */
  lemma {:induction false} CutStable(s: string, j: nat, length: int, ucas: int)
    requires j <= |s|
    requires Cut(s[..j], length, ucas) < j
    ensures Cut(s, length, ucas) == Cut(s[..j], length, ucas)
    decreases |s| - j
  {
    if j < |s| {
      var t := s[..j + 1];
      assert t[..|t| - 1] == s[..j];
      assert Cut(t, length, ucas) == Cut(s[..j], length, ucas);
      CutStable(s, j + 1, length, ucas);
    } else {
      assert s[..j] == s;
    }
  }

  lemma PrefixWidthStep(s: string, i: nat, ucas: int)
    requires i < |s|
    ensures PrefixWidth(s[..i + 1], ucas) == PrefixWidth(s[..i], ucas) + Width(s[i], ucas)
  {
    assert s[..i + 1][..i] == s[..i];
  }

  lemma PrefixSnoc(s: string, i: nat)
    requires i < |s|
    ensures s[..i] + [s[i]] == s[..i + 1]
  {
  }

  /** The loop reaches index `i` of `s` with every prefix fitting so far. */
  lemma CutExtends(s: string, i: nat, length: int, ucas: int)
    requires i < |s|
    requires Cut(s[..i], length, ucas) == i
    requires PrefixWidth(s[..i + 1], ucas) <= length
    ensures Cut(s[..i + 1], length, ucas) == i + 1
  {
    var t := s[..i + 1];
    assert t[..|t| - 1] == s[..i];
  }

  /** The loop breaks at index `i`: adding `s[i]` pushes the width past `length`. */
  lemma CutStops(s: string, i: nat, length: int, ucas: int)
    requires i < |s|
    requires Cut(s[..i], length, ucas) == i
    requires PrefixWidth(s[..i + 1], ucas) > length
    ensures Cut(s, length, ucas) == i
  {
    var t := s[..i + 1];
    assert t[..|t| - 1] == s[..i];
    assert Cut(t, length, ucas) == i;
    CutStable(s, i + 1, length, ucas);
  }

  /** `truncate_unicode(s, length, ucas, end)`. */
  method TruncateUnicode(s: string, length: int, ucas: int, end: string) returns (r: string)
    ensures 2 * |s| < length ==> r == s
    ensures 2 * |s| >= length ==> r == s[..Cut(s, length, ucas)] + end
  {
    if 2 * |s| < length {
      return s;
    }
    var curl := 0;
    var cs: string := [];
    var i := 0;
    while i < |s|
      invariant 0 <= i <= |s|
      invariant cs == s[..i]
      invariant curl == PrefixWidth(s[..i], ucas)
      invariant Cut(s[..i], length, ucas) == i
    {
      var c := s[i];
      PrefixWidthStep(s, i, ucas);
      if c as int > 0xff {
        curl := curl + ucas;
      } else {
        curl := curl + 1;
      }
      if curl > length {
        CutStops(s, i, length, ucas);
        return cs + end;
      }
      CutExtends(s, i, length, ucas);
      PrefixSnoc(s, i);
      cs := cs + [c];
      i := i + 1;
    }
    assert s[..i] == s;
    r := cs + end;
  }

  /** With non-negative widths the scan keeps the LONGEST prefix that fits: every longer one
      is too wide. */
  lemma {:induction false} CutIsLongest(s: string, length: int, ucas: int, m: nat)
    requires ucas >= 0
    requires Cut(s, length, ucas) < m <= |s|
    ensures PrefixWidth(s[..m], ucas) > length
    decreases m
  {
    var k := Cut(s, length, ucas);
    if m > k + 1 {
      CutIsLongest(s, length, ucas, m - 1);
      assert s[..m][..m - 1] == s[..m - 1];
    }
  }

  /** A string whose every prefix fits is kept whole, and `end` is still appended. */
  lemma FitsWhole(s: string, length: int, ucas: int)
    requires forall m :: 1 <= m <= |s| ==> PrefixWidth(s[..m], ucas) <= length
    ensures Cut(s, length, ucas) == |s|
  {
    var k := Cut(s, length, ucas);
    if k < |s| {
      assert false;
    }
  }

  /** No character is wider than two columns when `ucas <= 2`. */
  lemma {:induction false} PrefixWidthBound(s: string, ucas: int)
    requires ucas <= 2
    ensures PrefixWidth(s, ucas) <= 2 * |s|
  {
    if s != [] {
      PrefixWidthBound(s[..|s| - 1], ucas);
    }
  }

  /** With `ucas <= 2` the shortcut only fires on strings that would have fitted whole, so its one
      effect is to leave `end` off. */
  lemma ShortcutOnlyDropsEnd(s: string, length: int, ucas: int)
    requires ucas <= 2 && 2 * |s| < length
    ensures Cut(s, length, ucas) == |s|
  {
    forall m | 1 <= m <= |s|
      ensures PrefixWidth(s[..m], ucas) <= length
    {
      PrefixWidthBound(s[..m], ucas);
    }
    FitsWhole(s, length, ucas);
  }

  // ---------------------------------------------------------------------------
  // validate_isbn
  // ---------------------------------------------------------------------------

  const DashMessage := "there are dashes in isbn"
  const ValidateMessage := "isbn validate error"
  const FormatMessage := "isbn format error"

  predicate AllDigits(s: string) {
    forall k :: 0 <= k < |s| ==> IsDigit(s[k])
  }

  /** `Σ d_i·(10 - i)` over the digits of `d`. */
  function Sum10(d: string): int
    requires AllDigits(d)
  {
    if d == [] then 0 else Sum10(d[..|d| - 1]) + DigitValue(d[|d| - 1]) * (10 - (|d| - 1))
  }

  /** EAN-13 weights: 1 at even positions, 3 at odd ones. */
  function Weight13(i: nat): int {
    if i % 2 == 0 then 1 else 3
  }

  /** `Σ d_i·Weight13(i)` over the digits of `d`. */
  function Sum13(d: string): int
    requires AllDigits(d)
  {
    if d == [] then 0 else Sum13(d[..|d| - 1]) + DigitValue(d[|d| - 1]) * Weight13(|d| - 1)
  }

  /** The check character `isbn10` computes from the weighted sum of the first nine digits. */
  function CheckChar10(sum: int): (c: char)
    ensures c == 'X' || IsDigit(c)
  {
    var n := 11 - sum % 11;
    if n == 11 then '0' else if n == 10 then 'X' else DigitChar(n)
  }

  /** The check character `isbn13` computes from the weighted sum of the first twelve digits. */
  function CheckChar13(sum: int): (c: char)
    ensures IsDigit(c)
  {
    var n := 10 - sum % 10;
    if n == 10 then '0' else DigitChar(n)
  }

  /** What `isbn10` does on a ten-character string: `None` when `int()` fails on one of the
      first nine characters, otherwise whether the tenth equals the computed check character. */
  function Isbn10(isbn: string): Option<bool>
    requires |isbn| == 10
  {
    if !AllDigits(isbn[..9]) then None else Some(CheckChar10(Sum10(isbn[..9])) == isbn[9])
  }

  /** What `isbn13` does on a thirteen-character string. */
  function Isbn13(isbn: string): Option<bool>
    requires |isbn| == 13
  {
    if !AllDigits(isbn[..12]) then None else Some(CheckChar13(Sum13(isbn[..12])) == isbn[12])
  }

  lemma Sum10Step(d: string, i: nat)
    requires i < |d| && AllDigits(d[..i + 1])
    ensures AllDigits(d[..i])
    ensures Sum10(d[..i + 1]) == Sum10(d[..i]) + DigitValue(d[i]) * (10 - i)
  {
    assert d[..i + 1][..i] == d[..i];
  }

  lemma Sum13Step(d: string, i: nat)
    requires i < |d| && AllDigits(d[..i + 1])
    ensures AllDigits(d[..i])
    ensures Sum13(d[..i + 1]) == Sum13(d[..i]) + DigitValue(d[i]) * Weight13(i)
  {
    assert d[..i + 1][..i] == d[..i];
  }

  /** A digit after an all-digit prefix extends it. */
  lemma DigitsExtend(s: string, i: nat)
    requires i < |s| && AllDigits(s[..i]) && IsDigit(s[i])
    ensures AllDigits(s[..i + 1])
  {
    assert forall k :: 0 <= k < i ==> s[..i + 1][k] == s[..i][k];
  }

  /** A non-digit inside a prefix is a non-digit inside every longer prefix. */
  lemma NotAllDigits(s: string, i: nat, j: nat)
    requires i < j <= |s| && !IsDigit(s[i])
    ensures !AllDigits(s[..j])
  {
    assert s[..j][i] == s[i];
  }

  /** The inner `isbn10`: accumulate the weighted sum, then compare the check character. */
  method CheckIsbn10(isbn: string) returns (r: Option<bool>)
    requires |isbn| == 10
    ensures r == Isbn10(isbn)
  {
    var s := 0;
    var i := 0;
    while i < 9
      invariant 0 <= i <= 9
      invariant AllDigits(isbn[..i])
      invariant s == Sum10(isbn[..i])
    {
      if !IsDigit(isbn[i]) {
        NotAllDigits(isbn, i, 9);
        return None;
      }
      DigitsExtend(isbn, i);
      Sum10Step(isbn, i);
      s := s + DigitValue(isbn[i]) * (10 - i);
      i := i + 1;
    }
    var n := 11 - s % 11;
    var c := if n == 11 then '0' else if n == 10 then 'X' else DigitChar(n);
    r := Some(c == isbn[9]);
  }

  /** The inner `isbn13`: two digits per step, weights 1 and 3. */
  method CheckIsbn13(isbn: string) returns (r: Option<bool>)
    requires |isbn| == 13
    ensures r == Isbn13(isbn)
  {
    var s := 0;
    var i := 0;
    while i < 12
      invariant 0 <= i <= 12 && i % 2 == 0
      invariant AllDigits(isbn[..i])
      invariant s == Sum13(isbn[..i])
    {
      if !IsDigit(isbn[i]) {
        NotAllDigits(isbn, i, 12);
        return None;
      }
      DigitsExtend(isbn, i);
      Sum13Step(isbn, i);
      s := s + DigitValue(isbn[i]);
      if !IsDigit(isbn[i + 1]) {
        NotAllDigits(isbn, i + 1, 12);
        return None;
      }
      DigitsExtend(isbn, i + 1);
      Sum13Step(isbn, i + 1);
      s := s + DigitValue(isbn[i + 1]) * 3;
      i := i + 2;
    }
    var n := 10 - s % 10;
    var c := if n == 10 then '0' else DigitChar(n);
    r := Some(c == isbn[12]);
  }

  /** The normalised form: dashes removed, then upper-cased. */
  function Normalize(raw: string): (isbn: string)
    ensures '-' !in isbn
    ensures |isbn| == |raw| <==> '-' !in raw
    ensures '-' !in raw ==> isbn == Upper(raw)
  {
    var isbn := Upper(RemoveAll(raw, '-'));
    assert forall k :: 0 <= k < |isbn| ==> isbn[k] != '-';
    isbn
  }

  /** Normalising drops each dash and upper-cases the rest in place. */
  lemma NormalizeDropsDash(a: string, b: string)
    ensures Normalize(a + "-" + b) == Normalize(a) + Normalize(b)
  {
    RemoveAllConcat(a + "-", b, '-');
    RemoveAllConcat(a, "-", '-');
    RemoveAllSingle('-', '-');
    assert RemoveAll(a + "-", '-') == RemoveAll(a, '-');
    UpperConcat(RemoveAll(a, '-'), RemoveAll(b, '-'));
  }

  /** `validate_isbn(raw_isbn, allow_dash)`, its exceptions as `Err` messages. */
  function Validate(raw: string, allowDash: bool): Result<string, string> {
    var isbn := Normalize(raw);
    if |isbn| != |raw| && !allowDash then Err(DashMessage)
    else if |isbn| == 10 then
      match Isbn10(isbn)
      case None => Err(FormatMessage)
      case Some(ok) => if ok then Ok(isbn) else Err(ValidateMessage)
    else if |isbn| == 13 then
      match Isbn13(isbn)
      case None => Err(FormatMessage)
      case Some(ok) => if ok then Ok(isbn) else Err(ValidateMessage)
    else Err(FormatMessage)
  }

  /** `validate_isbn` as it runs: normalise, check the dash rule, dispatch on the length. */
  method ValidateIsbn(raw: string, allowDash: bool) returns (r: Result<string, string>)
    ensures r == Validate(raw, allowDash)
  {
    var isbn := Upper(RemoveAll(raw, '-'));
    if |isbn| != |raw| && !allowDash {
      return Err(DashMessage);
    }
    var ok: Option<bool>;
    if |isbn| == 10 {
      ok := CheckIsbn10(isbn);
    } else if |isbn| == 13 {
      ok := CheckIsbn13(isbn);
    } else {
      return Err(FormatMessage);
    }
    if ok.None? {
      return Err(FormatMessage);
    }
    if !ok.value {
      return Err(ValidateMessage);
    }
    return Ok(isbn);
  }

  /** A dash is refused outright unless `allow_dash`; with it, dashes are simply dropped. */
  lemma DashRule(raw: string, allowDash: bool)
    ensures '-' in raw && !allowDash ==> Validate(raw, allowDash) == Err(DashMessage)
    ensures Validate(raw, allowDash) == Err(DashMessage) ==> '-' in raw && !allowDash
    ensures allowDash ==> Validate(raw, true) == Validate(Normalize(raw), false)
  {
    var isbn := Normalize(raw);
    UpperIdempotent(RemoveAll(raw, '-'));
    assert Normalize(isbn) == isbn;
  }

  lemma UpperIdempotent(s: string)
    ensures RemoveAll(Upper(s), '-') == Upper(s) || '-' in s
    ensures '-' !in s ==> Upper(Upper(s)) == Upper(s)
  {
    if '-' !in s {
      assert forall k :: 0 <= k < |s| ==> Upper(s)[k] != '-';
    }
  }

  /** Success returns the normalised string: ten or thirteen characters, no dash. */
  lemma SuccessIsNormalized(raw: string, allowDash: bool)
    requires Validate(raw, allowDash).Ok?
    ensures Validate(raw, allowDash).value == Normalize(raw)
    ensures |Normalize(raw)| == 10 || |Normalize(raw)| == 13
    ensures '-' !in Validate(raw, allowDash).value
  {
  }

  /** "isbn format error" exactly when the length is wrong or a summed position is not a digit. */
  lemma FormatErrorIff(raw: string, allowDash: bool)
    requires '-' !in raw || allowDash
    ensures Validate(raw, allowDash) == Err(FormatMessage) <==>
      var isbn := Normalize(raw);
      || (|isbn| != 10 && |isbn| != 13)
      || (|isbn| == 10 && !AllDigits(isbn[..9]))
      || (|isbn| == 13 && !AllDigits(isbn[..12]))
  {
  }

  // ---------------------------------------------------------------------------
  // The ISO 2108 check-digit rules
  // ---------------------------------------------------------------------------

  /** Value of an ISBN-10 check character: its digit, or 10 for `X`. */
  function CheckValue10(c: char): int
    requires IsDigit(c) || c == 'X'
  {
    if c == 'X' then 10 else DigitValue(c)
  }

  /** ISO 2108 for ten characters: nine digits, a digit or `X`, and the weighted sum
      `Σ v_i·(10 - i)` over all ten is a multiple of 11. */
  predicate Iso10(isbn: string) {
    && |isbn| == 10
    && AllDigits(isbn[..9])
    && (IsDigit(isbn[9]) || isbn[9] == 'X')
    && (Sum10(isbn[..9]) + CheckValue10(isbn[9])) % 11 == 0
  }

  /** EAN-13 for thirteen characters: all digits, and `Σ d_i·Weight13(i)` over all thirteen is a
      multiple of 10. */
  predicate Ean13(isbn: string) {
    |isbn| == 13 && AllDigits(isbn) && Sum13(isbn) % 10 == 0
  }

  /** The check character is the only one that completes the sum to a multiple of 11. */
  lemma CheckChar10Completes(sum: int, c: char)
    requires IsDigit(c) || c == 'X'
    ensures CheckChar10(sum) == c <==> (sum + CheckValue10(c)) % 11 == 0
  {
    var v := CheckValue10(c);
    var m := sum % 11;
    assert (sum + v) % 11 == (m + v) % 11;
    if CheckChar10(sum) == c {
      assert m + v == 0 || m + v == 11;
    } else {
      var d := CheckChar10(sum);
      assert CheckValue10(d) != v ==> (m + v) % 11 != 0 by {
        if d != 'X' {
          assert DigitValue(DigitChar(if m == 0 then 0 else 11 - m)) == (if m == 0 then 0 else 11 - m);
        }
      }
      if d != 'X' && c != 'X' {
        assert DigitChar(DigitValue(c)) == c;
      }
    }
  }

  lemma CheckChar13Completes(sum: int, c: char)
    requires IsDigit(c)
    ensures CheckChar13(sum) == c <==> (sum + DigitValue(c)) % 10 == 0
  {
    var v := DigitValue(c);
    var m := sum % 10;
    assert (sum + v) % 10 == (m + v) % 10;
    var d := CheckChar13(sum);
    assert d == c <==> DigitValue(d) == v;
    assert DigitValue(d) == if m == 0 then 0 else 10 - m;
    assert 0 <= m + v < 20;
  }

  /** `isbn10` accepts exactly the ten-character strings ISO 2108 calls valid. */
  lemma Isbn10MatchesIso(isbn: string)
    requires |isbn| == 10
    ensures Isbn10(isbn) == Some(true) <==> Iso10(isbn)
  {
    if AllDigits(isbn[..9]) {
      if IsDigit(isbn[9]) || isbn[9] == 'X' {
        CheckChar10Completes(Sum10(isbn[..9]), isbn[9]);
      }
    }
  }

  /** `isbn13` accepts exactly the thirteen-character strings EAN-13 calls valid. */
  lemma Isbn13MatchesEan(isbn: string)
    requires |isbn| == 13
    ensures Isbn13(isbn) == Some(true) <==> Ean13(isbn)
  {
    if AllDigits(isbn[..12]) {
      if IsDigit(isbn[12]) {
        CheckChar13Completes(Sum13(isbn[..12]), isbn[12]);
        Sum13Step(isbn, 12);
        assert isbn[..13] == isbn;
      } else {
        assert !AllDigits(isbn);
      }
    } else {
      assert !AllDigits(isbn) by {
        var k :| 0 <= k < 12 && !IsDigit(isbn[..12][k]);
        assert isbn[k] == isbn[..12][k];
      }
    }
  }

  /** `validate_isbn` succeeds exactly on inputs that pass the dash rule and whose normalised
      form is a valid ISBN-10 or ISBN-13. */
  lemma ValidateIff(raw: string, allowDash: bool)
    ensures Validate(raw, allowDash).Ok? <==>
      && ('-' !in raw || allowDash)
      && (Iso10(Normalize(raw)) || Ean13(Normalize(raw)))
  {
    var isbn := Normalize(raw);
    if |isbn| == 10 {
      Isbn10MatchesIso(isbn);
    } else if |isbn| == 13 {
      Isbn13MatchesEan(isbn);
    }
  }
}
