/**
  The string primitives the seeding utility leans on: `String.Split(char)`,
  `ToUpperInvariant`/`ToLower` (restricted to the ASCII letters) and
  `int.TryParse` with the default integer number style.
 */
module Text {
  import opened Wrappers

  // ---------------------------------------------------------------------------
  // Searching and splitting
  // ---------------------------------------------------------------------------

  /** Position of the first `c` in `s`, if any. */
  function IndexOf(s: string, c: char): (r: Option<nat>)
    ensures r.Some? ==> r.value < |s| && s[r.value] == c && c !in s[..r.value]
    ensures r.None? ==> c !in s
  {
    if |s| == 0 then None
    else if s[0] == c then Some(0)
    else
      match IndexOf(s[1..], c)
      case None => None
      case Some(k) =>
        assert s[..k + 1] == [s[0]] + s[1..][..k];
        Some(k + 1)
  }

  /** Concatenates `parts`, putting one `sep` between neighbours (`String.Join`). */
  function Join(parts: seq<string>, sep: char): string
    requires |parts| >= 1
    decreases |parts|
  {
    if |parts| == 1 then parts[0] else parts[0] + [sep] + Join(parts[1..], sep)
  }

  /** No part contains the separator. */
  ghost predicate SeparatorFree(parts: seq<string>, sep: char) {
    forall k :: 0 <= k < |parts| ==> sep !in parts[k]
  }

  /**
    `s.Split(sep)`: every piece between separators, empty pieces included, so
    the result always has one more element than `s` has separators.
   */
  function Split(s: string, sep: char): (parts: seq<string>)
    ensures |parts| >= 1
    ensures |parts| >= 2 <==> sep in s
    ensures SeparatorFree(parts, sep)
    ensures Join(parts, sep) == s
    decreases |s|
  {
    match IndexOf(s, sep)
    case None => [s]
    case Some(i) =>
      var rest := Split(s[i + 1..], sep);
      assert s == s[..i] + [sep] + s[i + 1..];
      [s[..i]] + rest
  }

  /**
    Split is the only way to cut `s` into separator-free pieces that join back
    to `s`: it is an inverse of `Join` on separator-free pieces.
   */
  lemma {:induction false} SplitJoin(parts: seq<string>, sep: char)
    requires |parts| >= 1
    requires SeparatorFree(parts, sep)
    ensures Split(Join(parts, sep), sep) == parts
    decreases |parts|
  {
    var s := Join(parts, sep);
    if |parts| == 1 {
      assert sep !in parts[0];
    } else {
      var p := parts[0];
      var tail := Join(parts[1..], sep);
      assert s == p + [sep] + tail;
      assert s[..|p|] == p;
      assert s[|p|] == sep;
      assert sep !in p;
      assert IndexOf(s, sep) == Some(|p|) by {
        assert s[|p|] in s;
        forall k | 0 <= k < |p|
          ensures s[k] != sep
        {
          assert s[k] == p[k];
        }
      }
      assert s[|p| + 1..] == tail;
      SplitJoin(parts[1..], sep);
      assert Split(s, sep) == [p] + Split(tail, sep);
    }
  }

  /**
    The first piece of a split: the text before the first separator, or all
    of `s`; so a separator-free prefix ending at a separator or at the end.
   */
  lemma SplitHead(s: string, sep: char)
    ensures sep !in s ==> Split(s, sep)[0] == s
    ensures sep in s ==> Split(s, sep)[0] == s[..IndexOf(s, sep).value]
    ensures sep !in Split(s, sep)[0]
    ensures Split(s, sep)[0] <= s
    ensures |Split(s, sep)[0]| == |s| || s[|Split(s, sep)[0]|] == sep
  {
  }

  // ---------------------------------------------------------------------------
  // Invariant-culture case mapping, on the ASCII letters
  // ---------------------------------------------------------------------------

  predicate IsAsciiUpper(c: char) { 'A' <= c <= 'Z' }

  predicate IsAsciiLower(c: char) { 'a' <= c <= 'z' }

  function UpperChar(c: char): char {
    if IsAsciiLower(c) then (c as int - 32) as char else c
  }

  function LowerChar(c: char): char {
    if IsAsciiUpper(c) then (c as int + 32) as char else c
  }

  /** `a` and `b` are the same text up to the case of their letters. */
  ghost predicate EqualIgnoringCase(a: string, b: string) {
    |a| == |b| && forall k :: 0 <= k < |a| ==> LowerChar(a[k]) == LowerChar(b[k])
  }

  /**
    `ToUpperInvariant`: the result has no lower-case letter and is the input
    up to case.
   */
  function Upper(s: string): (r: string)
    ensures |r| == |s|
    ensures forall k :: 0 <= k < |r| ==> !IsAsciiLower(r[k])
    ensures EqualIgnoringCase(r, s)
    decreases |s|
  {
    if |s| == 0 then [] else [UpperChar(s[0])] + Upper(s[1..])
  }

  /**
    `ToLower`: the result has no upper-case letter and is the input up to case.
   */
  function Lower(s: string): (r: string)
    ensures |r| == |s|
    ensures forall k :: 0 <= k < |r| ==> !IsAsciiUpper(r[k])
    ensures EqualIgnoringCase(r, s)
    decreases |s|
  {
    if |s| == 0 then [] else [LowerChar(s[0])] + Lower(s[1..])
  }

  /** Two characters that are not lower-case letters and agree up to case are equal. */
  lemma LowerCharInjective(x: char, y: char)
    requires !IsAsciiLower(x) && !IsAsciiLower(y)
    requires LowerChar(x) == LowerChar(y)
    ensures x == y
  {
  }

  /**
    Upper-casing is a normalisation: two strings get the same upper-cased key
    exactly when they are equal up to case.
   */
  lemma UpperIsCaseInsensitiveKey(a: string, b: string)
    ensures Upper(a) == Upper(b) <==> EqualIgnoringCase(a, b)
  {
    var ua, ub := Upper(a), Upper(b);
    if EqualIgnoringCase(a, b) {
      forall k | 0 <= k < |ua|
        ensures ua[k] == ub[k]
      {
        assert LowerChar(ua[k]) == LowerChar(a[k]) == LowerChar(b[k]) == LowerChar(ub[k]);
        LowerCharInjective(ua[k], ub[k]);
      }
    }
    if ua == ub {
      forall k | 0 <= k < |a|
        ensures LowerChar(a[k]) == LowerChar(b[k])
      {
        assert LowerChar(a[k]) == LowerChar(ua[k]);
        assert LowerChar(b[k]) == LowerChar(ub[k]);
      }
    }
  }

  // ---------------------------------------------------------------------------
  // int.TryParse (leading and trailing white space, one optional sign, decimal
  // digits, 32-bit range)
  // ---------------------------------------------------------------------------

  const Int32Min: int := -0x8000_0000
  const Int32Max: int := 0x7FFF_FFFF

  /** The white space the integer parser skips: U+0009 to U+000D and U+0020. */
  predicate IsParseWhite(c: char) { c == ' ' || '\t' <= c <= '\r' }

  predicate IsDigit(c: char) { '0' <= c <= '9' }

  /** Every character is a decimal digit (read from the end, as `DigitsValue` reads them). */
  predicate AllDigits(s: string)
    decreases |s|
  {
    |s| == 0 || (AllDigits(s[..|s| - 1]) && IsDigit(s[|s| - 1]))
  }

  /** `AllDigits` character by character. */
  lemma {:induction false} AllDigitsIff(s: string)
    ensures AllDigits(s) <==> forall k :: 0 <= k < |s| ==> IsDigit(s[k])
    decreases |s|
  {
    if |s| > 0 {
      var p := s[..|s| - 1];
      AllDigitsIff(p);
      assert forall k :: 0 <= k < |p| ==> p[k] == s[k];
    }
  }

  /** `s` without its leading white space (see `TrimStartFacts`). */
  function TrimStart(s: string): string
    decreases |s|
  {
    if |s| > 0 && IsParseWhite(s[0]) then TrimStart(s[1..]) else s
  }

  /** `s` without its trailing white space (see `TrimEndFacts`). */
  function TrimEnd(s: string): string
    decreases |s|
  {
    if |s| > 0 && IsParseWhite(s[|s| - 1]) then TrimEnd(s[..|s| - 1]) else s
  }

  /** `s.Trim()` as the integer parser applies it. */
  function Trim(s: string): string {
    TrimEnd(TrimStart(s))
  }

  /** Trimming the start keeps a suffix, drops only white space and stops at the first other character. */
  lemma {:induction false} TrimStartFacts(s: string)
    ensures var r := TrimStart(s);
      && |r| <= |s| && r == s[|s| - |r|..]
      && (|r| > 0 ==> !IsParseWhite(r[0]))
      && (forall k :: 0 <= k < |s| - |r| ==> IsParseWhite(s[k]))
    decreases |s|
  {
    if |s| > 0 && IsParseWhite(s[0]) {
      TrimStartFacts(s[1..]);
    }
  }

  /** Trimming the end keeps a prefix, drops only white space and stops at the last other character. */
  lemma {:induction false} TrimEndFacts(s: string)
    ensures var r := TrimEnd(s);
      && |r| <= |s| && r == s[..|r|]
      && (|r| > 0 ==> !IsParseWhite(r[|r| - 1]))
      && (forall k :: |r| <= k < |s| ==> IsParseWhite(s[k]))
    decreases |s|
  {
    if |s| > 0 && IsParseWhite(s[|s| - 1]) {
      TrimEndFacts(s[..|s| - 1]);
    }
  }

  function DigitValue(c: char): nat
    requires IsDigit(c)
  {
    c as int - '0' as int
  }

  function DigitChar(d: nat): (c: char)
    requires d < 10
    ensures IsDigit(c) && DigitValue(c) == d
  {
    ('0' as int + d) as char
  }

  /** The number a run of decimal digits denotes, most significant first. */
  function DigitsValue(s: string): nat
    requires AllDigits(s)
    decreases |s|
  {
    if |s| == 0 then 0 else DigitsValue(s[..|s| - 1]) * 10 + DigitValue(s[|s| - 1])
  }

  /** The decimal digits of `n`, without leading zeros. */
  function NatDigits(n: nat): (r: string)
    ensures |r| >= 1 && AllDigits(r)
    decreases n
  {
    if n < 10 then [DigitChar(n)] else NatDigits(n / 10) + [DigitChar(n % 10)]
  }

  /** `n.ToString()` in the invariant culture. */
  function FormatInt(n: int): string {
    if n < 0 then "-" + NatDigits(-n) else NatDigits(n)
  }

  /** `int.TryParse(s, out n)`: `Some(n)` when it returns true. */
  function ParseInt32(s: string): (r: Option<int>)
    ensures r.Some? ==> Int32Min <= r.value <= Int32Max
  {
    ParseTrimmed(Trim(s))
  }

  /** The parse once the surrounding white space is gone: one optional sign, then only digits. */
  function ParseTrimmed(t: string): (r: Option<int>)
    ensures r.Some? ==> Int32Min <= r.value <= Int32Max
  {
    if |t| == 0 then None
    else
      var negative := t[0] == '-';
      var digits := if t[0] == '-' || t[0] == '+' then t[1..] else t;
      if |digits| == 0 || !AllDigits(digits) then None
      else
        var v: int := if negative then 0 - DigitsValue(digits) else DigitsValue(digits);
        if Int32Min <= v <= Int32Max then Some(v) else None
  }

  lemma {:induction false} DigitsValueOfNatDigits(n: nat)
    ensures DigitsValue(NatDigits(n)) == n
    decreases n
  {
    if n >= 10 {
      var p := NatDigits(n / 10);
      var s := p + [DigitChar(n % 10)];
      assert s[..|s| - 1] == p;
      DigitsValueOfNatDigits(n / 10);
    }
  }

  /** A string with no white space at either end is its own trim. */
  lemma TrimUnpadded(s: string)
    requires |s| > 0 && !IsParseWhite(s[0]) && !IsParseWhite(s[|s| - 1])
    ensures Trim(s) == s
  {
    assert TrimStart(s) == s;
    assert TrimEnd(s) == s;
  }

  /** Trimming twice trims nothing more. */
  lemma TrimIdempotent(s: string)
    ensures Trim(Trim(s)) == Trim(s)
  {
    var u := TrimStart(s);
    var t := TrimEnd(u);
    TrimStartFacts(s);
    TrimEndFacts(u);
    if |t| > 0 {
      assert t[0] == u[0];
      TrimUnpadded(t);
    }
  }

  /** `int.TryParse` reads back every 32-bit value `ToString` writes. */
  lemma ParseFormat(n: int)
    requires Int32Min <= n <= Int32Max
    ensures ParseInt32(FormatInt(n)) == Some(n)
  {
    var negative := n < 0;
    var ds := NatDigits(if negative then -n else n);
    DigitsValueOfNatDigits(if negative then -n else n);
    assert FormatInt(n) == (if negative then "-" else "") + ds;
    ParseSignedDigits(negative, ds);
  }

  /** An optional minus sign and a run of digits parse to their value when it is in range. */
  lemma ParseSignedDigits(negative: bool, ds: string)
    requires |ds| >= 1 && AllDigits(ds)
    requires var v := if negative then 0 - DigitsValue(ds) else DigitsValue(ds); Int32Min <= v <= Int32Max
    ensures ParseInt32((if negative then "-" else "") + ds)
         == Some(if negative then 0 - DigitsValue(ds) else DigitsValue(ds))
  {
    if negative {
      ParseNegativeDigits(ds);
    } else {
      ParseDigits(ds);
      assert "" + ds == ds;
    }
  }

  lemma ParseDigits(ds: string)
    requires |ds| >= 1 && AllDigits(ds) && DigitsValue(ds) <= Int32Max
    ensures ParseInt32(ds) == Some(DigitsValue(ds))
  {
    AllDigitsIff(ds);
    assert IsDigit(ds[0]) && IsDigit(ds[|ds| - 1]);
    TrimUnpadded(ds);
    assert ds[0] != '-' && ds[0] != '+';
  }

  lemma ParseNegativeDigits(ds: string)
    requires |ds| >= 1 && AllDigits(ds) && Int32Min <= 0 - DigitsValue(ds)
    ensures ParseInt32("-" + ds) == Some(0 - DigitsValue(ds))
  {
    var t := "-" + ds;
    AllDigitsIff(ds);
    assert t[0] == '-' && t[|t| - 1] == ds[|ds| - 1];
    TrimUnpadded(t);
    ParseTrimmedNegative(ds);
  }

  lemma ParseTrimmedNegative(ds: string)
    requires |ds| >= 1 && AllDigits(ds) && Int32Min <= 0 - DigitsValue(ds)
    ensures ParseTrimmed("-" + ds) == Some(0 - DigitsValue(ds))
  {
    var t := "-" + ds;
    assert t[0] == '-';
    assert t[1..] == ds;
  }

  /** Every token that starts with two dashes (each batch flag) is rejected as a number. */
  lemma DoubleDashIsNotNumber(s: string)
    requires |s| >= 2 && s[0] == '-' && s[1] == '-'
    ensures ParseInt32(s) == None
  {
    assert TrimStart(s) == s;
    var t := Trim(s);
    TrimEndFacts(s);
    assert |t| >= 2 && t[0] == '-' && t[1] == '-' by {
      assert !IsParseWhite(s[1]);
    }
    assert !IsDigit(t[1..][0]);
    AllDigitsIff(t[1..]);
  }
}
