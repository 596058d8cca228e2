/** Character classes, character filters (the `replace(/[^...]/g, "")` idiom),
    the decimal value of a digit string and en-US comma grouping. */
module Text {

  predicate IsDigit(c: char) {
    '0' <= c <= '9'
  }

  predicate AllDigits(s: string) {
    forall i :: 0 <= i < |s| ==> IsDigit(s[i])
  }

  const DigitChars: set<char> := {'0', '1', '2', '3', '4', '5', '6', '7', '8', '9'}

  lemma DigitCharsAreDigits(c: char)
    ensures c in DigitChars <==> IsDigit(c)
  {
  }

  /** The characters of `s` that are in `keep`, in order: `s.replace(/[^keep]+/g, "")`. */
  function KeepOnly(s: string, keep: set<char>): (r: string)
    ensures |r| <= |s|
    ensures forall i :: 0 <= i < |r| ==> r[i] in keep
  {
    if s == [] then []
    else (if s[0] in keep then [s[0]] else []) + KeepOnly(s[1..], keep)
  }

  /** `s` with every character of `drop` deleted. */
  function Without(s: string, drop: set<char>): (r: string)
    ensures |r| <= |s|
    ensures forall i :: 0 <= i < |r| ==> r[i] !in drop
  {
    if s == [] then []
    else (if s[0] in drop then [] else [s[0]]) + Without(s[1..], drop)
  }

  lemma {:induction false} KeepOnlyAppend(s: string, t: string, keep: set<char>)
    ensures KeepOnly(s + t, keep) == KeepOnly(s, keep) + KeepOnly(t, keep)
  {
    if s == [] {
      assert s + t == t;
    } else {
      var u := s + t;
      assert u[0] == s[0] && u[1..] == s[1..] + t;
      var first: string := if s[0] in keep then [s[0]] else [];
      assert KeepOnly(u, keep) == first + KeepOnly(u[1..], keep);
      assert KeepOnly(s, keep) == first + KeepOnly(s[1..], keep);
      KeepOnlyAppend(s[1..], t, keep);
    }
  }

  lemma {:induction false} WithoutAppend(s: string, t: string, drop: set<char>)
    ensures Without(s + t, drop) == Without(s, drop) + Without(t, drop)
  {
    if s == [] {
      assert s + t == t;
    } else {
      var u := s + t;
      assert u[0] == s[0] && u[1..] == s[1..] + t;
      var first: string := if s[0] in drop then [] else [s[0]];
      assert Without(u, drop) == first + Without(u[1..], drop);
      assert Without(s, drop) == first + Without(s[1..], drop);
      WithoutAppend(s[1..], t, drop);
    }
  }

  /** Filtering a string that already passes the filter changes nothing. */
  lemma {:induction false} KeepOnlyFixed(s: string, keep: set<char>)
    requires forall i :: 0 <= i < |s| ==> s[i] in keep
    ensures KeepOnly(s, keep) == s
  {
    if s != [] {
      KeepOnlyFixed(s[1..], keep);
    }
  }

  lemma {:induction false} WithoutFixed(s: string, drop: set<char>)
    requires forall i :: 0 <= i < |s| ==> s[i] !in drop
    ensures Without(s, drop) == s
  {
    if s != [] {
      WithoutFixed(s[1..], drop);
    }
  }

  /** `value.replace(/[^0-9]+/g, "")`. */
  function Digits(s: string): (r: string)
    ensures AllDigits(r)
  {
    KeepOnly(s, DigitChars)
  }

  lemma DigitsOfDigits(s: string)
    requires AllDigits(s)
    ensures Digits(s) == s
  {
    KeepOnlyFixed(s, DigitChars);
  }

  // ---------------------------------------------------------------------------
  // Decimal value of a digit string (what `parseInt(s, 10)` computes)

  function DigitValue(c: char): (r: nat)
    requires IsDigit(c)
    ensures r <= 9
  {
    (c as int) - ('0' as int)
  }

  /** The number a digit string denotes, most significant digit first. */
  function Value(s: string): (n: nat)
    requires AllDigits(s)
  {
    if s == [] then 0 else Value(s[..|s| - 1]) * 10 + DigitValue(s[|s| - 1])
  }

  lemma {:induction false} ValueBound(s: string)
    requires AllDigits(s)
    ensures Value(s) < Pow10(|s|)
  {
    if s != [] {
      ValueBound(s[..|s| - 1]);
    }
  }

  function Pow10(n: nat): (r: nat)
    ensures r >= 1
  {
    if n == 0 then 1 else 10 * Pow10(n - 1)
  }

  /** A leading zero does not change the value. */
  lemma {:induction false} ValueLeadingZero(s: string)
    requires AllDigits(s)
    ensures AllDigits("0" + s) && Value("0" + s) == Value(s)
  {
    if s != [] {
      var z := "0" + s;
      assert z[..|z| - 1] == "0" + s[..|s| - 1];
      ValueLeadingZero(s[..|s| - 1]);
    }
  }

  /** Leading zeros removed. */
  function DropLeadingZeros(s: string): (r: string)
    ensures |r| <= |s|
    ensures r == [] || r[0] != '0'
    ensures r == s[|s| - |r|..]
  {
    if s != [] && s[0] == '0' then DropLeadingZeros(s[1..]) else s
  }

  /** The digits `parseInt(d, 10).toString()` prints for a non-empty digit string:
      leading zeros dropped, and `"0"` for a string of zeros. */
  function Canonical(d: string): (r: string)
    requires AllDigits(d)
    ensures r != [] && AllDigits(r)
    ensures r[0] == '0' ==> r == "0"
  {
    var t := DropLeadingZeros(d);
    if t == [] then "0" else t
  }

  lemma {:induction false} DropLeadingZerosValue(s: string)
    requires AllDigits(s)
    ensures AllDigits(DropLeadingZeros(s)) && Value(DropLeadingZeros(s)) == Value(s)
  {
    if s != [] && s[0] == '0' {
      assert s == "0" + s[1..];
      ValueLeadingZero(s[1..]);
      DropLeadingZerosValue(s[1..]);
    }
  }

  /** Canonical keeps the value and is the identity on its own results. */
  lemma CanonicalProperties(d: string)
    requires AllDigits(d)
    ensures Value(Canonical(d)) == Value(d)
    ensures Canonical(Canonical(d)) == Canonical(d)
  {
    DropLeadingZerosValue(d);
    var t := DropLeadingZeros(d);
    if t == [] {
      assert Value("0") == 0;
    }
  }

  // ---------------------------------------------------------------------------
  // Comma grouping

  /** Commas inserted between the digits, every three digits counted from the right.
      This is both `Number.prototype.toLocaleString()` in en-US on a canonical digit string
      and `s.replace(/\B(?=(\d{3})+(?!\d))/g, ",")` on any digit string. */
  function Group(d: string): (r: string)
    ensures |r| >= |d|
    ensures d != [] ==> r != [] && r[0] == d[0]
    decreases |d|
  {
    if |d| <= 3 then d else Group(d[..|d| - 3]) + "," + d[|d| - 3..]
  }

  /** A well-formed grouped number: a comma exactly at the positions whose distance from
      the end is a multiple of four, digits elsewhere, and never a comma first. */
  predicate Grouped(r: string) {
    && (r == [] || r[0] != ',')
    && forall i :: 0 <= i < |r| ==> if (|r| - i) % 4 == 0 then r[i] == ',' else IsDigit(r[i])
  }

  /** Appending a comma and three digits to a non-empty grouped string keeps it grouped. */
  lemma GroupedExtend(g: string, tail: string)
    requires Grouped(g) && g != []
    requires |tail| == 3 && AllDigits(tail)
    ensures Grouped(g + "," + tail)
  {
    var r := g + "," + tail;
    forall i | 0 <= i < |r|
      ensures if (|r| - i) % 4 == 0 then r[i] == ',' else IsDigit(r[i])
    {
      if i < |g| {
        assert r[i] == g[i];
        assert (|r| - i) % 4 == (|g| - i) % 4;
      } else if i == |g| {
        assert |r| - i == 4;
      } else {
        assert r[i] == tail[i - |g| - 1];
      }
    }
    assert r[0] == g[0];
  }

  /** A grouped string longer than three characters is a grouped string, a comma and three digits. */
  lemma GroupedSplit(r: string)
    requires Grouped(r) && |r| > 3
    ensures |r| > 4 && r[|r| - 4] == ','
    ensures Grouped(r[..|r| - 4]) && AllDigits(r[|r| - 3..])
  {
    assert (|r| - (|r| - 4)) % 4 == 0;
    assert |r| != 4 by { assert r[0] != ','; }
    var p := r[..|r| - 4];
    forall i | 0 <= i < |p|
      ensures if (|p| - i) % 4 == 0 then p[i] == ',' else IsDigit(p[i])
    {
      assert p[i] == r[i];
      assert (|r| - i) % 4 == (|p| - i) % 4;
    }
    assert p[0] == r[0];
    var tail := r[|r| - 3..];
    forall i | 0 <= i < 3 ensures IsDigit(tail[i]) {
      assert tail[i] == r[|r| - 3 + i];
      assert (|r| - (|r| - 3 + i)) % 4 != 0;
    }
  }

  /** A grouped string of at most three characters holds no comma. */
  lemma GroupedShort(r: string)
    requires Grouped(r) && |r| <= 3
    ensures AllDigits(r)
  {
    forall i | 0 <= i < |r| ensures IsDigit(r[i]) {
      assert (|r| - i) % 4 != 0;
    }
  }

  lemma DigitsHaveNoComma(d: string)
    requires AllDigits(d)
    ensures Without(d, {','}) == d
  {
    forall i | 0 <= i < |d| ensures d[i] !in {','} {
      assert IsDigit(d[i]);
    }
    WithoutFixed(d, {','});
  }

  /** Removing the comma between two parts joins them. */
  lemma WithoutComma(g: string, tail: string)
    ensures Without(g + "," + tail, {','}) == Without(g, {','}) + Without(tail, {','})
  {
    var comma := {','};
    var a := g + ",";
    assert Without(",", comma) == [] by {
      assert ","[0] in comma && ","[1..] == [];
    }
    WithoutAppend(g, ",", comma);
    WithoutAppend(a, tail, comma);
  }

  lemma GroupIsGrouped(d: string)
    requires AllDigits(d)
    ensures Grouped(Group(d))
    ensures Without(Group(d), {','}) == d
  {
    GroupGrouped(d);
    GroupDigits(d);
  }

  lemma {:induction false} GroupGrouped(d: string)
    requires AllDigits(d)
    ensures Grouped(Group(d))
    decreases |d|
  {
    if |d| <= 3 {
      assert Group(d) == d;
      forall i | 0 <= i < |d| ensures IsDigit(d[i]) && (|d| - i) % 4 != 0 {
      }
    } else {
      var p, tail := d[..|d| - 3], d[|d| - 3..];
      assert Group(d) == Group(p) + "," + tail;
      GroupGrouped(p);
      GroupedExtend(Group(p), tail);
    }
  }

  lemma {:induction false} GroupDigits(d: string)
    requires AllDigits(d)
    ensures Without(Group(d), {','}) == d
    decreases |d|
  {
    if |d| <= 3 {
      DigitsHaveNoComma(d);
    } else {
      var p, tail := d[..|d| - 3], d[|d| - 3..];
      assert Group(d) == Group(p) + "," + tail;
      GroupDigits(p);
      WithoutComma(Group(p), tail);
      DigitsHaveNoComma(tail);
      assert d == p + tail;
    }
  }

  /** Group on a string of more than three digits splits off the last three. */
  lemma GroupUnfold(q: string, tail: string)
    requires q != [] && |tail| == 3
    ensures Group(q + tail) == Group(q) + "," + tail
  {
    var d := q + tail;
    assert d[..|d| - 3] == q && d[|d| - 3..] == tail;
  }

  lemma GroupedDigitsNonEmpty(p: string)
    requires Grouped(p) && p != []
    ensures Without(p, {','}) != []
  {
    assert p[0] != ',';
    assert p == [p[0]] + p[1..];
    WithoutAppend([p[0]], p[1..], {','});
  }

  /** A grouped string is determined by its digits: Group is the only way to place the commas. */
  lemma {:induction false} GroupedIsGroupOfDigits(r: string)
    requires Grouped(r)
    ensures AllDigits(Without(r, {','}))
    ensures Group(Without(r, {','})) == r
    decreases |r|
  {
    if |r| <= 3 {
      GroupedShort(r);
      DigitsHaveNoComma(r);
    } else {
      GroupedSplit(r);
      var p := r[..|r| - 4];
      var tail := r[|r| - 3..];
      assert r == p + "," + tail;
      GroupedIsGroupOfDigits(p);
      WithoutComma(p, tail);
      DigitsHaveNoComma(tail);
      GroupedDigitsNonEmpty(p);
      GroupUnfold(Without(p, {','}), tail);
    }
  }

  /** On a string of digits and commas, keeping a comma-free class of characters that holds
      every digit is the same as deleting the commas. */
  lemma {:induction false} KeepOnlyDropsCommas(s: string, keep: set<char>)
    requires ',' !in keep && DigitChars <= keep
    requires forall i :: 0 <= i < |s| ==> IsDigit(s[i]) || s[i] == ','
    ensures KeepOnly(s, keep) == Without(s, {','})
  {
    if s != [] {
      DigitCharsAreDigits(s[0]);
      KeepOnlyDropsCommas(s[1..], keep);
    }
  }

  lemma GroupedHasDigitsAndCommas(r: string)
    requires Grouped(r)
    ensures forall i :: 0 <= i < |r| ==> IsDigit(r[i]) || r[i] == ','
  {
    forall i | 0 <= i < |r| ensures IsDigit(r[i]) || r[i] == ',' {
      assert if (|r| - i) % 4 == 0 then r[i] == ',' else IsDigit(r[i]);
    }
  }
}
