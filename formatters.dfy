/** The three input formatters of the calculator page (app/page.tsx). Each one runs on every
    keystroke on the text the user typed, and its result is what the input box shows. */
module Formatters {
  import opened Text

  // ---------------------------------------------------------------------------
  // formatNumberWithCommas

  /** Share counts: keep the digits, print them as `parseInt` reads them (leading zeros
      dropped) and group them in threes; text without a digit is returned as it is.
      (The source's `isNaN(Number(cleaned))` test can never fire on a non-empty digit string.) */
  function FormatNumberWithCommas(value: string): (r: string)
    ensures Digits(value) == [] ==> r == value
    ensures Digits(value) != [] ==> Grouped(r) && Without(r, {','}) == Canonical(Digits(value))
  {
    var cleaned := Digits(value);
    if cleaned == [] then value
    else
      GroupIsGrouped(Canonical(cleaned));
      Group(Canonical(cleaned))
  }

  /** The grouped text denotes the same number as the digits that were typed. */
  lemma FormatNumberWithCommasValue(value: string)
    requires Digits(value) != []
    ensures AllDigits(Without(FormatNumberWithCommas(value), {','}))
    ensures Value(Without(FormatNumberWithCommas(value), {','})) == Value(Digits(value))
  {
    CanonicalProperties(Digits(value));
  }

  /** The digits of a grouped string are the string without its commas. */
  lemma DigitsOfGrouped(r: string)
    requires Grouped(r)
    ensures Digits(r) == Without(r, {','})
  {
    GroupedHasDigitsAndCommas(r);
    KeepOnlyDropsCommas(r, DigitChars);
  }

  /** Formatting what was displayed displays it again: the input box reaches a fixed point. */
  lemma FormatNumberWithCommasIdempotent(value: string)
    ensures FormatNumberWithCommas(FormatNumberWithCommas(value)) == FormatNumberWithCommas(value)
  {
    var cleaned := Digits(value);
    if cleaned != [] {
      var c := Canonical(cleaned);
      var r := FormatNumberWithCommas(value);
      DigitsOfGrouped(r);
      CanonicalProperties(cleaned);
      assert Digits(r) == c;
    }
  }

  // ---------------------------------------------------------------------------
  // validateAndFormatPercentage

  /** Percentages: keep the digits, `"1"` when there is none, at most the first two digits.
      The source's clamp of values above 100 to `"100"` is kept, and the contract shows it is
      never taken. */
  function ValidateAndFormatPercentage(value: string): (r: string)
    ensures 1 <= |r| <= 2 && AllDigits(r)
    ensures Digits(value) == [] ==> r == "1"
    ensures 1 <= |Digits(value)| <= 2 ==> r == Digits(value)
    ensures |Digits(value)| > 2 ==> r == Digits(value)[..2]
    ensures Value(r) <= 99
  {
    var num := Digits(value);
    if num == [] then "1"
    else
      var num := if |num| > 2 then num[..2] else num;
      ValueBound(num);
      assert Pow10(2) == 100;
      if Value(num) > 100 then "100" else num
  }

  lemma ValidateAndFormatPercentageIdempotent(value: string)
    ensures ValidateAndFormatPercentage(ValidateAndFormatPercentage(value))
         == ValidateAndFormatPercentage(value)
  {
    var r := ValidateAndFormatPercentage(value);
    DigitsOfDigits(r);
  }

  // ---------------------------------------------------------------------------
  // formatWithDollarSign

  const DigitAndDotChars: set<char> := DigitChars + {'.'}

  /** `value.replace(/[^0-9.]+/g, "")`. */
  function DigitsAndDots(s: string): (r: string)
    ensures forall i :: 0 <= i < |r| ==> r[i] in DigitAndDotChars
  {
    KeepOnly(s, DigitAndDotChars)
  }

  /** On a string of digits and dots, `parseFloat` is not NaN exactly when the string starts
      with a digit or with a dot followed by a digit. */
  predicate StartsNumber(n: string) {
    |n| > 0 && (IsDigit(n[0]) || (n[0] == '.' && |n| > 1 && IsDigit(n[1])))
  }

  predicate NoDot(s: string) {
    forall i :: 0 <= i < |s| ==> s[i] != '.'
  }

  /** Position of the first dot, or the length when there is none. */
  function IndexOfDot(s: string): (k: nat)
    ensures k <= |s| && NoDot(s[..k])
    ensures k < |s| ==> s[k] == '.'
  {
    if s == [] || s[0] == '.' then 0
    else
      var k := IndexOfDot(s[1..]);
      assert s[..k + 1] == [s[0]] + s[1..][..k];
      k + 1
  }

  /** `s.split(".")`: the dot-free segments between the dots, always at least one. */
  function Split(s: string): (segs: seq<string>)
    ensures |segs| >= 1
    ensures forall i :: 0 <= i < |segs| ==> NoDot(segs[i])
    decreases |s|
  {
    var k := IndexOfDot(s);
    if k == |s| then [s] else [s[..k]] + Split(s[k + 1..])
  }

  /** `segs.join(".")`. */
  function Join(segs: seq<string>): (s: string)
    requires |segs| >= 1
  {
    if |segs| == 1 then segs[0] else segs[0] + "." + Join(segs[1..])
  }

  lemma {:induction false} JoinSplit(s: string)
    ensures Join(Split(s)) == s
    decreases |s|
  {
    var k := IndexOfDot(s);
    if k == |s| {
      assert Split(s) == [s];
    } else {
      var head, tail := s[..k], s[k + 1..];
      assert Split(s) == [head] + Split(tail);
      JoinSplit(tail);
      JoinCons(head, Split(tail));
      DotAt(s, k);
    }
  }

  lemma DotAt(s: string, k: nat)
    requires k < |s| && s[k] == '.'
    ensures s == s[..k] + "." + s[k + 1..]
  {
  }

  lemma JoinCons(head: string, rest: seq<string>)
    requires |rest| >= 1
    ensures Join([head] + rest) == head + "." + Join(rest)
  {
    var segs := [head] + rest;
    assert segs[1..] == rest;
  }

  lemma IndexOfDotAt(a: string, b: string)
    requires NoDot(a)
    ensures IndexOfDot(a + "." + b) == |a|
    ensures IndexOfDot(a) == |a|
  {
    var s := a + "." + b;
    assert s[|a|] == '.';
    assert forall i :: 0 <= i < |a| ==> s[i] == a[i];
  }

  lemma {:induction false} SplitJoin(segs: seq<string>)
    requires |segs| >= 1
    requires forall i :: 0 <= i < |segs| ==> NoDot(segs[i])
    ensures Split(Join(segs)) == segs
  {
    if |segs| == 1 {
      IndexOfDotAt(segs[0], "");
    } else {
      var rest := Join(segs[1..]);
      var s := segs[0] + "." + rest;
      IndexOfDotAt(segs[0], rest);
      assert s[..|segs[0]|] == segs[0];
      assert s[|segs[0]| + 1..] == rest;
      SplitJoin(segs[1..]);
    }
  }

  /** Segments of a string of digits and dots are digit strings. */
  lemma {:induction false} SplitDigits(s: string)
    requires forall i :: 0 <= i < |s| ==> s[i] in DigitAndDotChars
    ensures forall i :: 0 <= i < |Split(s)| ==> AllDigits(Split(s)[i])
    decreases |s|
  {
    var k := IndexOfDot(s);
    forall j | 0 <= j < k ensures IsDigit(s[..k][j]) {
      assert s[j] != '.';
      DigitCharsAreDigits(s[j]);
    }
    if k < |s| {
      SplitDigits(s[k + 1..]);
    }
  }

  /** Amounts and valuations: keep digits and dots; `"$"` alone when that text does not parse
      as a number; otherwise `"$"`, the part before the first dot grouped in threes (leading
      zeros kept), and the part between the first and the second dot when it is not empty. */
  function FormatWithDollarSign(value: string): (r: string)
    ensures |r| >= 1 && r[0] == '$'
  {
    var numeric := DigitsAndDots(value);
    if !StartsNumber(numeric) then "$"
    else
      var parts := Split(numeric);
      var integerPart := parts[0];
      var decimalPart := if |parts| > 1 then parts[1] else "";
      "$" + Group(integerPart) + (if decimalPart != "" then "." + decimalPart else "")
  }

  /** The suffix a parsed dollar amount keeps after its integer part. */
  function DecimalSuffix(parts: seq<string>): (suffix: string)
    requires |parts| >= 1
  {
    if |parts| > 1 && parts[1] != "" then "." + parts[1] else ""
  }

  /** What formatWithDollarSign displays for text that parses: the integer part, with
      commas only where Grouped puts them and its digits (leading zeros included)
      unchanged, then a non-empty decimal part, and nothing else. */
  lemma FormatWithDollarSignShape(value: string)
    requires StartsNumber(DigitsAndDots(value))
    ensures var parts := Split(DigitsAndDots(value));
      && AllDigits(parts[0])
      && (|parts| > 1 ==> AllDigits(parts[1]))
      && FormatWithDollarSign(value) == "$" + Group(parts[0]) + DecimalSuffix(parts)
      && Grouped(Group(parts[0])) && Without(Group(parts[0]), {','}) == parts[0]
  {
    var parts := Split(DigitsAndDots(value));
    SplitDigits(DigitsAndDots(value));
    GroupIsGrouped(parts[0]);
  }

  /** The display is `"$"` alone exactly when the filtered text does not parse. */
  lemma FormatWithDollarSignEmpty(value: string)
    ensures FormatWithDollarSign(value) == "$" <==> !StartsNumber(DigitsAndDots(value))
  {
    var n := DigitsAndDots(value);
    if StartsNumber(n) {
      var parts := Split(n);
      JoinSplit(n);
      if parts[0] == [] {
        assert |parts| > 1;
        assert n == "." + Join(parts[1..]);
      } else {
        assert |Group(parts[0])| >= 1;
      }
    }
  }

  /** A non-empty integer part starts the number; otherwise a non-empty decimal part does. */
  lemma StartsNumberParts(n: string)
    requires StartsNumber(n) && forall i :: 0 <= i < |n| ==> n[i] in DigitAndDotChars
    ensures var parts := Split(n);
      if parts[0] != [] then IsDigit(parts[0][0])
      else |parts| > 1 && parts[1] != [] && IsDigit(parts[1][0])
  {
    var parts := Split(n);
    JoinSplit(n);
    SplitDigits(n);
    if parts[0] == [] {
      assert |parts| > 1;
      assert n == "." + Join(parts[1..]);
      assert n[1] == Join(parts[1..])[0];
    }
  }

  /** The integer part and the kept decimal part, back to back, begin the text they came from. */
  lemma PartsPrefix(n: string)
    ensures Split(n)[0] + DecimalSuffix(Split(n)) <= n
  {
    var parts := Split(n);
    JoinSplit(n);
    if |parts| > 1 {
      assert n == parts[0] + "." + Join(parts[1..]);
      assert parts[1] <= Join(parts[1..]);
    }
  }

  lemma WithoutDisplay(g: string, t: string, drop: set<char>)
    requires '$' in drop
    ensures Without("$" + g + t, drop) == Without(g, drop) + Without(t, drop)
  {
    WithoutAppend("$" + g, t, drop);
    WithoutAppend("$", g, drop);
  }

  lemma KeepOnlyDisplay(g: string, t: string, keep: set<char>)
    requires '$' !in keep
    ensures KeepOnly("$" + g + t, keep) == KeepOnly(g, keep) + KeepOnly(t, keep)
  {
    KeepOnlyAppend("$" + g, t, keep);
    KeepOnlyAppend("$", g, keep);
  }

  /** Deleting `"$"` and `","` from the display leaves a prefix of the digits-and-dots text. */
  lemma FormatWithDollarSignPrefix(value: string)
    ensures Without(FormatWithDollarSign(value), {'$', ','}) <= DigitsAndDots(value)
  {
    var n := DigitsAndDots(value);
    if StartsNumber(n) {
      FormatWithDollarSignShape(value);
      var parts := Split(n);
      var g := Group(parts[0]);
      var t := DecimalSuffix(parts);
      WithoutDisplay(g, t, {'$', ','});
      GroupedHasDigitsAndCommas(g);
      WithoutDollarComma(g);
      NoDollarOrCommaIn(t, parts);
      PartsPrefix(n);
    }
  }

  lemma WithoutDollarComma(g: string)
    requires forall i :: 0 <= i < |g| ==> IsDigit(g[i]) || g[i] == ','
    ensures Without(g, {'$', ','}) == Without(g, {','})
  {
    if g != [] {
      WithoutDollarComma(g[1..]);
    }
  }

  lemma NoDollarOrCommaIn(t: string, parts: seq<string>)
    requires |parts| >= 1 && t == DecimalSuffix(parts)
    requires |parts| > 1 ==> AllDigits(parts[1])
    ensures Without(t, {'$', ','}) == t
  {
    forall i | 0 <= i < |t| ensures t[i] !in {'$', ','} {
      if i > 0 {
        assert t[i] == parts[1][i - 1];
      }
    }
    WithoutFixed(t, {'$', ','});
  }

  /** Re-reading a display: its digits-and-dots text is the integer part and the kept decimal
      part, it parses, and it splits back into those parts. */
  lemma ReparseDisplay(ip: string, parts: seq<string>)
    requires |parts| >= 1 && ip == parts[0] && AllDigits(ip)
    requires |parts| > 1 ==> AllDigits(parts[1])
    requires if ip != [] then IsDigit(ip[0]) else |parts| > 1 && parts[1] != [] && IsDigit(parts[1][0])
    ensures var n2 := ip + DecimalSuffix(parts);
      && StartsNumber(n2)
      && Split(n2)[0] == ip
      && DecimalSuffix(Split(n2)) == DecimalSuffix(parts)
  {
    var t := DecimalSuffix(parts);
    var n2 := ip + t;
    var segs := if t == "" then [ip] else [ip, parts[1]];
    assert NoDot(ip) by { NoDotDigits(ip); }
    assert |parts| > 1 ==> NoDot(parts[1]) by {
      if |parts| > 1 { NoDotDigits(parts[1]); }
    }
    assert Join(segs) == n2;
    SplitJoin(segs);
    if ip != [] {
      assert n2[0] == ip[0];
    } else {
      assert n2 == "." + parts[1];
    }
  }

  lemma NoDotDigits(s: string)
    requires AllDigits(s)
    ensures NoDot(s)
  {
    forall i | 0 <= i < |s| ensures s[i] != '.' {
      assert IsDigit(s[i]);
    }
  }

  /** The digits-and-dots text of a display is its integer part and its kept decimal part. */
  lemma DisplayDigitsAndDots(value: string)
    requires StartsNumber(DigitsAndDots(value))
    ensures var parts := Split(DigitsAndDots(value));
      DigitsAndDots(FormatWithDollarSign(value)) == parts[0] + DecimalSuffix(parts)
  {
    FormatWithDollarSignShape(value);
    var parts := Split(DigitsAndDots(value));
    var g := Group(parts[0]);
    var t := DecimalSuffix(parts);
    KeepOnlyDisplay(g, t, DigitAndDotChars);
    GroupedHasDigitsAndCommas(g);
    KeepOnlyDropsCommas(g, DigitAndDotChars);
    SuffixKept(t, parts);
  }

  /** Formatting what was displayed displays it again. */
  lemma FormatWithDollarSignIdempotent(value: string)
    ensures FormatWithDollarSign(FormatWithDollarSign(value)) == FormatWithDollarSign(value)
  {
    var n := DigitsAndDots(value);
    var r := FormatWithDollarSign(value);
    if !StartsNumber(n) {
      assert r == "$";
      assert DigitsAndDots(r) == [];
    } else {
      FormatWithDollarSignShape(value);
      StartsNumberParts(n);
      DisplayDigitsAndDots(value);
      ReparseDisplay(Split(n)[0], Split(n));
      FormatWithDollarSignShape(r);
    }
  }

  lemma SuffixKept(t: string, parts: seq<string>)
    requires |parts| >= 1 && t == DecimalSuffix(parts)
    requires |parts| > 1 ==> AllDigits(parts[1])
    ensures KeepOnly(t, DigitAndDotChars) == t
  {
    forall i | 0 <= i < |t| ensures t[i] in DigitAndDotChars {
      if i > 0 {
        assert t[i] == parts[1][i - 1];
        DigitCharsAreDigits(t[i]);
      }
    }
    KeepOnlyFixed(t, DigitAndDotChars);
  }
}
