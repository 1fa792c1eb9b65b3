/** Price tokens: which separator is a thousands mark and which a decimal point. */
module PriceNormalization {
  import opened Text
  import opened Wrappers

  predicate IsDigit(c: char) {
    '0' <= c <= '9'
  }

  predicate IsInk(c: char) {
    !IsSpace(c)
  }

  predicate NotDot(c: char) {
    c != '.'
  }

  predicate DigitOrDot(c: char) {
    IsDigit(c) || c == '.'
  }

  function Filter(s: string, keep: char -> bool): string {
    if s == [] then []
    else if keep(s[0]) then [s[0]] + Filter(s[1..], keep)
    else Filter(s[1..], keep)
  }

  function CommasToDots(s: string): string {
    seq(|s|, i requires 0 <= i < |s| => if s[i] == ',' then '.' else s[i])
  }

  function CountDots(s: string): nat {
    if s == [] then 0 else (if s[0] == '.' then 1 else 0) + CountDots(s[1..])
  }

  /** `s.split(".")[-1]`. */
  function AfterLastDot(s: string): string {
    if s == [] || s[|s| - 1] == '.' then [] else AfterLastDot(s[..|s| - 1]) + [s[|s| - 1]]
  }

  /** What comes before the last dot, if there is one. */
  function BeforeLastDot(s: string): string {
    if s == [] || s[|s| - 1] == '.' then s[..if s == [] then 0 else |s| - 1] else BeforeLastDot(s[..|s| - 1])
  }

  /** All whitespace out, commas turned into dots. */
  function Compact(raw: string): string {
    CommasToDots(Filter(Strip(ReplaceNbsp(raw)), IsInk))
  }

  /** Keep at most one dot, and only where it can be a decimal point. */
  function ResolveDots(token: string): string {
    if CountDots(token) > 1 then
      if |AfterLastDot(token)| <= 2
      then Filter(BeforeLastDot(token), NotDot) + "." + AfterLastDot(token)
      else Filter(token, NotDot)
    else if CountDots(token) == 1 && |Filter(Strip(AfterLastDot(token)), IsDigit)| == 3 then Filter(token, NotDot)
    else token
  }

  /** `_normalize_price_token`, with `""` for `None`. */
  function NormalizePriceToken(raw: string): string {
    var token := Compact(raw);
    if token == "" then "" else Filter(ResolveDots(token), DigitOrDot)
  }

  // ----- filters

  lemma {:induction false} FilterConcat(a: string, b: string, keep: char -> bool)
    ensures Filter(a + b, keep) == Filter(a, keep) + Filter(b, keep)
  {
    if a == [] {
      assert a + b == b;
    } else {
      assert (a + b)[1..] == a[1..] + b;
      FilterConcat(a[1..], b, keep);
    }
  }

  ghost predicate All(s: string, p: char -> bool) {
    forall i :: 0 <= i < |s| ==> p(s[i])
  }

  lemma {:induction false} FilterAll(s: string, keep: char -> bool)
    ensures All(Filter(s, keep), keep)
    ensures All(s, keep) ==> Filter(s, keep) == s
    ensures forall p: char -> bool :: All(s, p) ==> All(Filter(s, keep), p)
  {
    if s != [] {
      FilterAll(s[1..], keep);
      forall p: char -> bool | All(s, p) ensures All(Filter(s, keep), p) {
        assert forall i :: 0 <= i < |s[1..]| ==> s[1..][i] == s[i + 1];
        assert All(s[1..], p);
        assert p(s[0]);
      }
    }
  }

  lemma {:induction false} FilterNone(s: string, keep: char -> bool)
    requires forall i :: 0 <= i < |s| ==> !keep(s[i])
    ensures Filter(s, keep) == []
  {
    if s != [] { FilterNone(s[1..], keep); }
  }

  lemma {:induction false} FilterStripRight(s: string, keep: char -> bool)
    requires forall c :: IsSpace(c) ==> !keep(c)
    ensures Filter(StripRight(s), keep) == Filter(s, keep)
  {
    if s != [] && IsSpace(s[|s| - 1]) {
      var n := |s| - 1;
      FilterStripRight(s[..n], keep);
      assert s == s[..n] + [s[n]];
      FilterConcat(s[..n], [s[n]], keep);
    }
  }

  lemma {:induction false} FilterStripLeft(s: string, keep: char -> bool)
    requires forall c :: IsSpace(c) ==> !keep(c)
    ensures Filter(StripLeft(s), keep) == Filter(s, keep)
  {
    if s != [] && IsSpace(s[0]) { FilterStripLeft(s[1..], keep); }
  }

  /** Stripping does not matter to a filter that drops whitespace. */
  lemma FilterStrip(s: string, keep: char -> bool)
    requires forall c :: IsSpace(c) ==> !keep(c)
    ensures Filter(Strip(s), keep) == Filter(s, keep)
  {
    FilterStripLeft(s, keep);
    FilterStripRight(StripLeft(s), keep);
  }

  lemma {:induction false} FilterReplaceNbsp(s: string)
    ensures Filter(ReplaceNbsp(s), IsInk) == Filter(s, IsInk)
  {
    if s != [] {
      FilterReplaceNbsp(s[1..]);
      assert ReplaceNbsp(s)[1..] == ReplaceNbsp(s[1..]);
    }
  }

  lemma CompactIsFilter(raw: string)
    ensures Compact(raw) == CommasToDots(Filter(raw, IsInk))
  {
    FilterStrip(ReplaceNbsp(raw), IsInk);
    FilterReplaceNbsp(raw);
  }

  lemma CompactConcat(a: string, b: string)
    ensures Compact(a + b) == Compact(a) + Compact(b)
  {
    CompactIsFilter(a + b);
    CompactIsFilter(a);
    CompactIsFilter(b);
    FilterConcat(a, b, IsInk);
  }

  // ----- dots

  lemma {:induction false} CountDotsConcat(a: string, b: string)
    ensures CountDots(a + b) == CountDots(a) + CountDots(b)
  {
    if a == [] {
      assert a + b == b;
    } else {
      assert (a + b)[1..] == a[1..] + b;
      CountDotsConcat(a[1..], b);
    }
  }

  lemma {:induction false} NoDots(s: string)
    ensures CountDots(s) == 0 <==> All(s, NotDot)
  {
    if s != [] {
      NoDots(s[1..]);
      assert forall i :: 0 <= i < |s[1..]| ==> s[1..][i] == s[i + 1];
      if All(s[1..], NotDot) && s[0] != '.' {
        forall i | 0 <= i < |s| ensures NotDot(s[i]) { if i > 0 { assert NotDot(s[1..][i - 1]); } }
      }
      if All(s, NotDot) {
        assert NotDot(s[0]);
        forall i | 0 <= i < |s[1..]| ensures NotDot(s[1..][i]) { assert NotDot(s[i + 1]); }
      }
    }
  }

  /** A token is what precedes its last dot, the dot, and a part without dots. */
  lemma {:induction false} SplitAtLastDot(s: string)
    requires CountDots(s) > 0
    ensures s == BeforeLastDot(s) + "." + AfterLastDot(s)
    ensures CountDots(AfterLastDot(s)) == 0 && CountDots(s) == CountDots(BeforeLastDot(s)) + 1
  {
    var n := |s| - 1;
    assert s == s[..n] + [s[n]];
    CountDotsConcat(s[..n], [s[n]]);
    if s[n] != '.' {
      SplitAtLastDot(s[..n]);
      CountDotsConcat(AfterLastDot(s[..n]), [s[n]]);
    }
  }

  lemma {:induction false} LastDotOf(a: string, b: string)
    requires CountDots(b) == 0
    ensures AfterLastDot(a + "." + b) == b && BeforeLastDot(a + "." + b) == a
  {
    if b == [] {
      assert a + "." + b == a + ".";
      assert (a + ".")[..|a|] == a;
    } else {
      var n := |b| - 1;
      assert b == b[..n] + [b[n]];
      CountDotsConcat(b[..n], [b[n]]);
      LastDotOf(a, b[..n]);
      assert a + "." + b == a + "." + b[..n] + [b[n]];
    }
  }

  // ----- normal form of tokens

  /** Digits with at most one dot, and never exactly three digits after it. */
  predicate IsToken(t: string) {
    Filter(t, DigitOrDot) == t && CountDots(t) <= 1 && (CountDots(t) == 1 ==> |AfterLastDot(t)| != 3)
  }

  lemma {:induction false} FilterDots(s: string)
    ensures CountDots(Filter(s, DigitOrDot)) == CountDots(s) && CountDots(Filter(s, NotDot)) == 0
    ensures Filter(Filter(s, NotDot), DigitOrDot) == Filter(s, IsDigit)
    ensures CountDots(s) == 0 ==> Filter(s, DigitOrDot) == Filter(s, IsDigit)
    ensures |Filter(s, DigitOrDot)| <= |s|
  {
    if s != [] { FilterDots(s[1..]); }
  }

  lemma {:induction false} FilterDigitsTwice(s: string)
    ensures Filter(Filter(s, IsDigit), DigitOrDot) == Filter(s, IsDigit) && CountDots(Filter(s, IsDigit)) == 0
    ensures Filter(Filter(s, DigitOrDot), DigitOrDot) == Filter(s, DigitOrDot)
  {
    if s != [] { FilterDigitsTwice(s[1..]); }
  }

  lemma ResolvedIsToken(token: string)
    ensures IsToken(Filter(ResolveDots(token), DigitOrDot))
  {
    FilterDots(token);
    FilterDigitsTwice(token);
    if CountDots(token) > 0 {
      var a, b := BeforeLastDot(token), AfterLastDot(token);
      SplitAtLastDot(token);
      FilterDots(b);
      FilterDots(a);
      FilterDigitsTwice(a);
      FilterDigitsTwice(b);
      FilterStrip(b, IsDigit);
      if CountDots(token) > 1 && |b| <= 2 {
        var kept := Filter(a, NotDot);
        FilterPieces(kept, b);
        LastDotOf(Filter(kept, DigitOrDot), Filter(b, DigitOrDot));
        CountDotsConcat(Filter(kept, DigitOrDot) + ".", Filter(b, DigitOrDot));
        CountDotsConcat(Filter(kept, DigitOrDot), ".");
        FilterPieces(Filter(kept, DigitOrDot), Filter(b, DigitOrDot));
      } else if CountDots(token) == 1 && |Filter(Strip(b), IsDigit)| != 3 {
        FilterPieces(a, b);
        LastDotOf(Filter(a, DigitOrDot), Filter(b, DigitOrDot));
      }
    }
  }

  lemma FilterPieces(a: string, b: string)
    ensures Filter(a + "." + b, DigitOrDot) == Filter(a, DigitOrDot) + "." + Filter(b, DigitOrDot)
  {
    FilterConcat(a + ".", b, DigitOrDot);
    FilterConcat(a, ".", DigitOrDot);
  }

  lemma {:induction false} TokenCharsCompact(t: string)
    requires Filter(t, DigitOrDot) == t
    ensures Compact(t) == t && All(t, DigitOrDot)
  {
    FilterAll(t, DigitOrDot);
    CompactIsFilter(t);
    forall i | 0 <= i < |t| ensures IsInk(t[i]) && t[i] != ',' { assert DigitOrDot(t[i]); }
    FilterAll(t, IsInk);
  }

  lemma TokenIsFixed(t: string)
    requires IsToken(t)
    ensures NormalizePriceToken(t) == t
  {
    TokenCharsCompact(t);
    if CountDots(t) == 1 {
      var a, b := BeforeLastDot(t), AfterLastDot(t);
      SplitAtLastDot(t);
      FilterStrip(b, IsDigit);
      FilterDots(b);
      FilterPieces(a, b);
      FilterSame(a, b);
    }
  }

  lemma FilterSame(a: string, b: string)
    requires Filter(a + "." + b, DigitOrDot) == a + "." + b
    ensures Filter(b, DigitOrDot) == b
  {
    FilterPieces(a, b);
    FilterDots(a);
    FilterDots(b);
    var fa, fb := Filter(a, DigitOrDot), Filter(b, DigitOrDot);
    assert |fa| == |a| && |fb| == |b|;
    assert (fa + "." + fb)[|a| + 1..] == fb && (a + "." + b)[|a| + 1..] == b;
  }

  /** Whatever the text, the token has only digits and at most one dot, and normalising it again
      changes nothing. */
  lemma NormalizePriceTokenIdempotent(raw: string)
    ensures NormalizePriceToken(raw) == "" || IsToken(NormalizePriceToken(raw))
    ensures NormalizePriceToken(NormalizePriceToken(raw)) == NormalizePriceToken(raw)
  {
    if Compact(raw) != "" {
      ResolvedIsToken(Compact(raw));
      TokenIsFixed(NormalizePriceToken(raw));
    }
  }

  // ----- printing

  function DigitChar(d: nat): (c: char)
    requires d < 10
    ensures IsDigit(c)
  {
    ('0' as int + d) as char
  }

  /** The plain decimal digits of `n`. */
  function Digits(n: nat): string {
    if n < 10 then [DigitChar(n)] else Digits(n / 10) + [DigitChar(n % 10)]
  }

  function ThreeDigits(n: nat): string
    requires n < 1000
  {
    [DigitChar(n / 100), DigitChar(n / 10 % 10), DigitChar(n % 10)]
  }

  /** `n` in three-digit groups with `separator` between them. */
  function Grouped(n: nat, separator: char): string {
    if n < 1000 then Digits(n) else Grouped(n / 1000, separator) + [separator] + ThreeDigits(n % 1000)
  }

  predicate IsSeparator(c: char) {
    c == ',' || c == '.' || c == ' ' || c == NBSP
  }

  /** A printed price: grouped, with optional decimals after a comma or dot. */
  function Printed(n: nat, separator: char, point: char, decimals: string): string {
    Grouped(n, separator) + if decimals == "" then "" else [point] + decimals
  }

  /** The plain spelling: no groups, a dot before the decimals. */
  function Plain(n: nat, decimals: string): string {
    Digits(n) + if decimals == "" then "" else "." + decimals
  }

  lemma ThousandsArithmetic(n: nat)
    ensures n / 10 / 10 == n / 100 && n / 100 / 10 == n / 1000
    ensures n % 1000 / 100 == n / 100 % 10 && n % 1000 / 10 % 10 == n / 10 % 10 && n % 1000 % 10 == n % 10
  {
  }

  lemma DigitsSnoc(n: nat)
    requires n >= 10
    ensures Digits(n) == Digits(n / 10) + [DigitChar(n % 10)]
  {
  }

  lemma DigitsOfThousands(n: nat)
    requires n >= 1000
    ensures Digits(n) == Digits(n / 1000) + ThreeDigits(n % 1000)
  {
    ThousandsArithmetic(n);
    DigitsSnoc(n);
    DigitsSnoc(n / 10);
    DigitsSnoc(n / 100);
    var high, h, t, o := Digits(n / 1000), DigitChar(n / 100 % 10), DigitChar(n / 10 % 10), DigitChar(n % 10);
    assert high + [h] + [t] + [o] == high + [h, t, o];
  }

  lemma {:induction false} DigitsAreDigits(n: nat)
    ensures All(Digits(n), IsDigit) && Digits(n) != ""
  {
    if n >= 10 { DigitsAreDigits(n / 10); }
  }

  /** On digits alone every filter but the whitespace and comma rewriting is the identity. */
  lemma DigitsUntouched(s: string)
    requires All(s, IsDigit)
    ensures Compact(s) == s && CountDots(s) == 0
    ensures Filter(s, NotDot) == s && Filter(s, IsDigit) == s && Filter(s, DigitOrDot) == s
  {
    forall i | 0 <= i < |s| ensures NotDot(s[i]) && DigitOrDot(s[i]) && IsInk(s[i]) { assert IsDigit(s[i]); }
    FilterAll(s, NotDot);
    FilterAll(s, IsDigit);
    FilterAll(s, DigitOrDot);
    NoDots(s);
    TokenCharsCompact(s);
  }

  lemma CompactThree(high: string, separator: char, low: string)
    requires IsSeparator(separator) && All(low, IsDigit)
    ensures Compact(high + [separator] + low) == Compact(high) + (if separator in ",." then "." else "") + low
  {
    CompactConcat(high + [separator], low);
    CompactConcat(high, [separator]);
    DigitsUntouched(low);
    CompactSeparator(separator);
  }

  /** Compacting a grouped number leaves dots between the groups, or nothing when they were spaces. */
  lemma {:induction false} CompactGrouped(n: nat, separator: char)
    requires IsSeparator(separator)
    ensures Compact(Grouped(n, separator)) == if separator in ",." then Grouped(n, '.') else Digits(n)
  {
    if n < 1000 {
      DigitsAreDigits(n);
      DigitsUntouched(Digits(n));
    } else {
      CompactGrouped(n / 1000, separator);
      CompactThree(Grouped(n / 1000, separator), separator, ThreeDigits(n % 1000));
      DigitsOfThousands(n);
      assert Digits(n / 1000) + "" == Digits(n / 1000);
    }
  }

  lemma CompactSeparator(separator: char)
    requires IsSeparator(separator)
    ensures Compact([separator]) == if separator in ",." then "." else ""
  {
    CompactIsFilter([separator]);
    assert Filter([separator][1..], IsInk) == "";
    if separator in ",." {
      assert IsInk(separator);
      assert Filter([separator], IsInk) == [separator];
    } else {
      assert !IsInk(separator);
      assert Filter([separator], IsInk) == "";
    }
  }

  lemma {:induction false} GroupedDots(n: nat)
    ensures Filter(Grouped(n, '.'), NotDot) == Digits(n)
    ensures CountDots(Grouped(n, '.')) == 0 <==> n < 1000
    ensures n >= 1000 ==> |AfterLastDot(Grouped(n, '.'))| == 3 && All(AfterLastDot(Grouped(n, '.')), IsDigit)
  {
    if n < 1000 {
      DigitsAreDigits(n);
      DigitsUntouched(Digits(n));
    } else {
      var high, low := Grouped(n / 1000, '.'), ThreeDigits(n % 1000);
      GroupedDots(n / 1000);
      DigitsUntouched(low);
      FilterConcat(high + ".", low, NotDot);
      FilterConcat(high, ".", NotDot);
      assert Filter(".", NotDot) == "";
      CountDotsConcat(high + ".", low);
      CountDotsConcat(high, ".");
      LastDotOf(high, low);
      DigitsOfThousands(n);
    }
  }

  /** A printed price whose groups are not read as decimals, nor its decimals as a group. */
  predicate Unambiguous(n: nat, separator: char, decimals: string) {
    |decimals| <= 2 || (|decimals| > 3 && (n < 1000 || separator == ' ' || separator == NBSP))
  }

  lemma CompactPrinted(n: nat, separator: char, point: char, decimals: string)
    requires IsSeparator(separator) && (point == ',' || point == '.') && All(decimals, IsDigit)
    ensures Compact(Printed(n, separator, point, decimals)) ==
            (if separator in ",." then Grouped(n, '.') else Digits(n)) + (if decimals == "" then "" else "." + decimals)
  {
    var whole := Grouped(n, separator);
    CompactGrouped(n, separator);
    if decimals == "" {
      assert whole + "" == whole;
    } else {
      CompactConcat(whole, [point] + decimals);
      CompactConcat([point], decimals);
      DigitsUntouched(decimals);
      CompactSeparator(point);
    }
  }

  /** Without decimals, grouping is undone. */
  lemma ResolveWhole(n: nat, whole: string)
    requires whole == Grouped(n, '.') || whole == Digits(n)
    ensures Filter(ResolveDots(whole), DigitOrDot) == Digits(n)
  {
    DigitsAreDigits(n);
    DigitsUntouched(Digits(n));
    GroupedDots(n);
    if whole == Grouped(n, '.') && n >= 1000 {
      DigitsUntouched(AfterLastDot(whole));
      FilterStrip(AfterLastDot(whole), IsDigit);
    }
  }

  lemma DottedPieces(a: string, b: string)
    requires All(b, IsDigit)
    ensures CountDots(a + "." + b) == CountDots(a) + 1
    ensures Filter(a + "." + b, NotDot) == Filter(a, NotDot) + b
    ensures CountDots(a) == 0 ==> Filter(a, NotDot) == a
  {
    DigitsUntouched(b);
    CountDotsConcat(a + ".", b);
    CountDotsConcat(a, ".");
    FilterConcat(a + ".", b, NotDot);
    FilterConcat(a, ".", NotDot);
    assert Filter(".", NotDot) == "";
    assert Filter(a, NotDot) + "" == Filter(a, NotDot);
    NoDots(a);
    FilterAll(a, NotDot);
  }

  lemma ResolveDotted(a: string, b: string)
    requires All(b, IsDigit)
    ensures ResolveDots(a + "." + b) ==
            if CountDots(a) == 0 then (if |b| == 3 then a + b else a + "." + b)
            else if |b| <= 2 then Filter(a, NotDot) + "." + b
            else Filter(a, NotDot) + b
  {
    DottedPieces(a, b);
    DigitsUntouched(b);
    LastDotOf(a, b);
    FilterStrip(b, IsDigit);
  }

  /** With decimals, the last dot is a decimal point unless the text reads as one more group. */
  lemma ResolveDecimals(n: nat, whole: string, decimals: string)
    requires whole == Grouped(n, '.') || whole == Digits(n)
    requires All(decimals, IsDigit)
    ensures Filter(ResolveDots(whole + "." + decimals), DigitOrDot) ==
            if |decimals| <= 2 || (|decimals| > 3 && CountDots(whole) == 0) then Digits(n) + "." + decimals
              else Digits(n) + decimals
  {
    ResolveDotted(whole, decimals);
    DigitsAreDigits(n);
    DigitsUntouched(Digits(n));
    DigitsUntouched(decimals);
    GroupedDots(n);
    NoDots(whole);
    FilterAll(whole, NotDot);
    FilterConcat(Digits(n), decimals, DigitOrDot);
    FilterPieces(Digits(n), decimals);
  }

  lemma WholeHasGroups(n: nat, separator: char)
    requires IsSeparator(separator)
    ensures var whole := if separator in ",." then Grouped(n, '.') else Digits(n);
            CountDots(whole) == 0 <==> n < 1000 || separator == ' ' || separator == NBSP
  {
    DigitsAreDigits(n);
    DigitsUntouched(Digits(n));
    GroupedDots(n);
  }

  lemma ParsedWhole(n: nat, separator: char, point: char)
    requires IsSeparator(separator) && (point == ',' || point == '.')
    ensures NormalizePriceToken(Printed(n, separator, point, "")) == Digits(n)
  {
    var whole := if separator in ",." then Grouped(n, '.') else Digits(n);
    CompactPrinted(n, separator, point, "");
    assert whole + "" == whole;
    DigitsAreDigits(n);
    GroupedEnds(n, '.');
    ResolveWhole(n, whole);
  }

  lemma ParsedDecimals(n: nat, separator: char, point: char, decimals: string)
    requires IsSeparator(separator) && (point == ',' || point == '.') && All(decimals, IsDigit) && decimals != ""
    ensures NormalizePriceToken(Printed(n, separator, point, decimals)) ==
            if Unambiguous(n, separator, decimals) then Digits(n) + "." + decimals else Digits(n) + decimals
  {
    var whole := if separator in ",." then Grouped(n, '.') else Digits(n);
    CompactPrinted(n, separator, point, decimals);
    assert whole + ("." + decimals) == whole + "." + decimals;
    ParsedDotted(n, whole, Printed(n, separator, point, decimals), decimals);
    WholeHasGroups(n, separator);
  }

  lemma ParsedDotted(n: nat, whole: string, raw: string, decimals: string)
    requires (whole == Grouped(n, '.') || whole == Digits(n)) && All(decimals, IsDigit)
    requires Compact(raw) == whole + "." + decimals
    ensures NormalizePriceToken(raw) ==
            if |decimals| <= 2 || (|decimals| > 3 && CountDots(whole) == 0) then Digits(n) + "." + decimals
            else Digits(n) + decimals
  {
    ParsedCompact(raw, whole + "." + decimals);
    ResolveDecimals(n, whole, decimals);
  }

  lemma ParsedCompact(raw: string, token: string)
    requires Compact(raw) == token && token != ""
    ensures NormalizePriceToken(raw) == Filter(ResolveDots(token), DigitOrDot)
  {
  }

  /** Round trip: parsing a printed number gives back its plain spelling exactly when the printed
      form is unambiguous, for every number, separator and string of decimals. */
  lemma PrintedRoundTrip(n: nat, separator: char, point: char, decimals: string)
    requires IsSeparator(separator) && (point == ',' || point == '.') && All(decimals, IsDigit)
    ensures NormalizePriceToken(Printed(n, separator, point, decimals)) == Plain(n, decimals) <==>
              Unambiguous(n, separator, decimals)
  {
    if decimals == "" {
      ParsedWhole(n, separator, point);
      assert Digits(n) + "" == Digits(n);
    } else {
      ParsedDecimals(n, separator, point, decimals);
      assert Digits(n) + ("." + decimals) == Digits(n) + "." + decimals;
      assert |Digits(n) + decimals| != |Digits(n) + "." + decimals|;
    }
  }

  // ----- values

  /** The number a digit string spells. */
  function NatOf(s: string): nat
    requires All(s, IsDigit)
  {
    if s == "" then 0 else NatOf(s[..|s| - 1]) * 10 + (s[|s| - 1] as int - '0' as int)
  }

  function Fraction(s: string): real
    requires All(s, IsDigit)
  {
    if s == "" then 0.0 else ((s[0] as int - '0' as int) as real + Fraction(s[1..])) / 10.0
  }

  lemma {:induction false} DigitsSpell(n: nat)
    requires All(Digits(n), IsDigit)
    ensures NatOf(Digits(n)) == n
  {
    if n >= 10 {
      DigitsAreDigits(n / 10);
      DigitsSpell(n / 10);
      assert Digits(n)[..|Digits(n)| - 1] == Digits(n / 10);
    } else {
      assert Digits(n)[..0] == "";
    }
  }

  lemma {:induction false} FractionIsBelowOne(s: string)
    requires All(s, IsDigit)
    ensures 0.0 <= Fraction(s) < 1.0
  {
    if s != "" {
      assert IsDigit(s[0]) && All(s[1..], IsDigit);
      FractionIsBelowOne(s[1..]);
    }
  }

  /** `Decimal(token)`. */
  function TokenValue(t: string): (v: real)
    requires IsToken(t)
  {
    TokenParts(t);
    if CountDots(t) == 0 then NatOf(t) as real
    else NatOf(BeforeLastDot(t)) as real + Fraction(AfterLastDot(t))
  }

  lemma DotlessIsDigits(s: string)
    requires All(s, DigitOrDot) && CountDots(s) == 0
    ensures All(s, IsDigit)
  {
    NoDots(s);
    forall i | 0 <= i < |s| ensures IsDigit(s[i]) { assert DigitOrDot(s[i]) && NotDot(s[i]); }
  }

  lemma PartsOfAll(a: string, b: string, p: char -> bool)
    requires All(a + "." + b, p)
    ensures All(a, p) && All(b, p)
  {
    var t := a + "." + b;
    forall i | 0 <= i < |a| ensures p(a[i]) { assert p(t[i]); }
    forall i | 0 <= i < |b| ensures p(b[i]) { assert p(t[|a| + 1 + i]); }
  }

  lemma TokenParts(t: string)
    requires IsToken(t)
    ensures CountDots(t) == 0 ==> All(t, IsDigit)
    ensures CountDots(t) == 1 ==> All(BeforeLastDot(t), IsDigit) && All(AfterLastDot(t), IsDigit)
  {
    FilterAll(t, DigitOrDot);
    if CountDots(t) == 0 {
      DotlessIsDigits(t);
    } else {
      var a, b := BeforeLastDot(t), AfterLastDot(t);
      SplitAtLastDot(t);
      PartsOfAll(a, b, DigitOrDot);
      DotlessIsDigits(a);
      DotlessIsDigits(b);
    }
  }

  predicate PriceChar(c: char) {
    IsDigit(c) || IsSpace(c) || c == '.' || c == ','
  }

  /** The text from its first digit on: the only price token of digit-and-separator text. */
  function FirstToken(text: string): string {
    if text == "" || IsDigit(text[0]) then text else FirstToken(text[1..])
  }

  predicate ZeroOrDot(c: char) {
    c == '0' || c == '.'
  }

  /** `normalize_price` on text of digits and separators, where none of its word patterns match. */
  function NormalizePrice(raw: string): Option<real>
    requires All(raw, PriceChar)
  {
    var text := Strip(raw);
    if text == "" || text == "0" || FirstToken(text) == "" then None
    else
      var token := NormalizePriceToken(FirstToken(text));
      NormalizePriceTokenIdempotent(FirstToken(text));
      if token == "" || (forall i :: 0 <= i < |token| ==> ZeroOrDot(token[i])) then None
      else
        var v := TokenValue(token);
        if v <= 0.0 then None else Some(v)
  }

  lemma {:induction false} GroupedEnds(n: nat, separator: char)
    ensures Grouped(n, separator) != "" && IsDigit(Grouped(n, separator)[0])
            && IsDigit(Grouped(n, separator)[|Grouped(n, separator)| - 1])
    ensures IsSeparator(separator) ==> All(Grouped(n, separator), PriceChar)
  {
    if n < 1000 {
      DigitsAreDigits(n);
    } else {
      GroupedEnds(n / 1000, separator);
    }
  }

  lemma {:induction false} NonZeroDigit(s: string)
    requires All(s, IsDigit) && NatOf(s) > 0
    ensures exists i :: 0 <= i < |s| && !ZeroOrDot(s[i])
  {
    if s[|s| - 1] == '0' {
      NonZeroDigit(s[..|s| - 1]);
      var i :| 0 <= i < |s| - 1 && !ZeroOrDot(s[..|s| - 1][i]);
      assert !ZeroOrDot(s[i]);
    } else {
      assert IsDigit(s[|s| - 1]);
    }
  }

  lemma UnambiguousPrice(n: nat, separator: char, point: char, decimals: string)
    requires n >= 1 && IsSeparator(separator) && (point == ',' || point == '.') && All(decimals, IsDigit)
    requires Unambiguous(n, separator, decimals)
    ensures All(Printed(n, separator, point, decimals), PriceChar)
    ensures NormalizePrice(Printed(n, separator, point, decimals)) == Some(n as real + Fraction(decimals))
  {
    var text := Printed(n, separator, point, decimals);
    PrintedChars(n, separator, point, decimals);
    PlainIsItsToken(n, separator, point, decimals);
    PlainValue(n, decimals);
    FractionIsBelowOne(decimals);
    PriceOfText(text, Plain(n, decimals));
  }

  lemma ConcatDigits(a: string, b: string)
    requires All(a, IsDigit) && All(b, IsDigit)
    ensures All(a + b, IsDigit)
  {
  }

  /** Digits that follow make a number at least ten times larger. */
  lemma {:induction false} MoreDigitsSpellMore(a: string, b: string)
    requires All(a, IsDigit) && All(b, IsDigit) && All(a + b, IsDigit)
    ensures NatOf(a + b) >= NatOf(a) * if b == "" then 1 else 10
  {
    if b == "" {
      assert a + b == a;
    } else {
      var n := |b| - 1;
      assert (a + b)[..|a + b| - 1] == a + b[..n];
      MoreDigitsSpellMore(a, b[..n]);
    }
  }

  /** The price of text whose token has no dot. */
  lemma DigitsPrice(text: string, token: string)
    requires All(text, PriceChar) && text != "" && text != "0" && IsDigit(text[0]) && IsDigit(text[|text| - 1])
    requires token == NormalizePriceToken(text) && All(token, IsDigit) && NatOf(token) > 0
    ensures NormalizePrice(text) == Some(NatOf(token) as real)
  {
    DigitsUntouched(token);
    NormalizePriceTokenIdempotent(text);
    NonZeroDigit(token);
    PriceOfText(text, token);
  }

  lemma AmbiguousSpelling(n: nat, decimals: string)
    requires All(decimals, IsDigit) && decimals != ""
    ensures All(Digits(n) + decimals, IsDigit) && NatOf(Digits(n) + decimals) >= 10 * n
  {
    DigitsAreDigits(n);
    DigitsSpell(n);
    ConcatDigits(Digits(n), decimals);
    MoreDigitsSpellMore(Digits(n), decimals);
  }

  /** Otherwise the decimals are read as more digits of the whole number. */
  lemma AmbiguousPrice(n: nat, separator: char, point: char, decimals: string)
    requires n >= 1 && IsSeparator(separator) && (point == ',' || point == '.') && All(decimals, IsDigit)
    requires !Unambiguous(n, separator, decimals)
    ensures All(Printed(n, separator, point, decimals), PriceChar) && All(Digits(n) + decimals, IsDigit)
    ensures NormalizePrice(Printed(n, separator, point, decimals)) == Some(NatOf(Digits(n) + decimals) as real)
    ensures NatOf(Digits(n) + decimals) >= 10 * n
  {
    AmbiguousSpelling(n, decimals);
    PrintedChars(n, separator, point, decimals);
    ParsedDecimals(n, separator, point, decimals);
    DigitsPrice(Printed(n, separator, point, decimals), Digits(n) + decimals);
  }

  /** Printing any `n >= 1` in groups and reading the price gives the number back, `n` as the integer
      part and exactly the printed fraction, exactly when the print is unambiguous. */
  lemma PrintedPriceRoundTrip(n: nat, separator: char, point: char, decimals: string)
    requires n >= 1 && IsSeparator(separator) && (point == ',' || point == '.') && All(decimals, IsDigit)
    ensures All(Printed(n, separator, point, decimals), PriceChar)
    ensures NormalizePrice(Printed(n, separator, point, decimals)) == Some(n as real + Fraction(decimals)) <==>
              Unambiguous(n, separator, decimals)
    ensures (n as real + Fraction(decimals)).Floor == n
  {
    FractionIsBelowOne(decimals);
    if Unambiguous(n, separator, decimals) {
      UnambiguousPrice(n, separator, point, decimals);
    } else {
      AmbiguousPrice(n, separator, point, decimals);
    }
  }

  /** One and 234 thousandths, printed with a dot, is read as one thousand two hundred and thirty-four. */
  lemma ThreeDecimalsAreAGroup()
    ensures Printed(1, ' ', '.', "234") == "1.234"
    ensures All("1.234", PriceChar) && NormalizePrice("1.234") == Some(1234.0)
  {
    SpelledOut();
    FourDigits();
    AmbiguousPrice(1, ' ', '.', "234");
  }

  lemma SpelledOut()
    ensures Printed(1, ' ', '.', "234") == "1.234" && Digits(1) + "234" == "1234"
  {
    assert Digits(1) == "1";
  }

  lemma FourDigits()
    ensures All("1234", IsDigit) && NatOf("1234") == 1234
  {
    assert "1234"[..3] == "123" && "123"[..2] == "12" && "12"[..1] == "1" && "1"[..0] == "";
    assert NatOf("123") == 123;
  }

  lemma PlainIsItsToken(n: nat, separator: char, point: char, decimals: string)
    requires IsSeparator(separator) && (point == ',' || point == '.') && All(decimals, IsDigit)
    requires Unambiguous(n, separator, decimals)
    ensures NormalizePriceToken(Printed(n, separator, point, decimals)) == Plain(n, decimals)
    ensures Plain(n, decimals) != "" && IsToken(Plain(n, decimals))
  {
    PrintedRoundTrip(n, separator, point, decimals);
    NormalizePriceTokenIdempotent(Printed(n, separator, point, decimals));
    DigitsAreDigits(n);
  }

  /** Text that starts and ends with a digit is one token, and its price is the token's value. */
  lemma PriceOfText(text: string, token: string)
    requires All(text, PriceChar) && text != "" && text != "0" && IsDigit(text[0]) && IsDigit(text[|text| - 1])
    requires token == NormalizePriceToken(text) && token != "" && IsToken(token) && TokenValue(token) > 0.0
    requires exists i :: 0 <= i < |token| && !ZeroOrDot(token[i])
    ensures NormalizePrice(text) == Some(TokenValue(token))
  {
  }

  lemma PrintedChars(n: nat, separator: char, point: char, decimals: string)
    requires IsSeparator(separator) && (point == ',' || point == '.') && All(decimals, IsDigit)
    ensures var text := Printed(n, separator, point, decimals);
            All(text, PriceChar) && text != "" && IsDigit(text[0]) && IsDigit(text[|text| - 1])
              && (n >= 1 ==> text != "0")
  {
    GroupedEnds(n, separator);
    var text := Printed(n, separator, point, decimals);
    forall i | 0 <= i < |text| ensures PriceChar(text[i]) {
      if i > |Grouped(n, separator)| { assert text[i] == decimals[i - |Grouped(n, separator)| - 1]; }
    }
    if decimals != "" { assert IsDigit(decimals[|decimals| - 1]); }
    if text == "0" {
      assert |Grouped(n, separator)| == 1;
      SingleDigit(n, separator);
    }
  }

  lemma SingleDigit(n: nat, separator: char)
    requires |Grouped(n, separator)| == 1
    ensures n < 10
  {
    if 10 <= n < 1000 { DigitsAreDigits(n / 10); }
  }

  lemma PlainValue(n: nat, decimals: string)
    requires All(decimals, IsDigit) && IsToken(Plain(n, decimals))
    ensures TokenValue(Plain(n, decimals)) == n as real + Fraction(decimals)
    ensures n >= 1 ==> exists i :: 0 <= i < |Plain(n, decimals)| && !ZeroOrDot(Plain(n, decimals)[i])
  {
    var t := Plain(n, decimals);
    DigitsAreDigits(n);
    DigitsSpell(n);
    DigitsUntouched(Digits(n));
    if decimals == "" {
      assert t == Digits(n);
    } else {
      DigitsUntouched(decimals);
      assert t == Digits(n) + "." + decimals;
      LastDotOf(Digits(n), decimals);
      CountDotsConcat(Digits(n) + ".", decimals);
      CountDotsConcat(Digits(n), ".");
    }
    if n >= 1 {
      NonZeroDigit(Digits(n));
      var i :| 0 <= i < |Digits(n)| && !ZeroOrDot(Digits(n)[i]);
      assert t[i] == Digits(n)[i];
    }
  }
}
