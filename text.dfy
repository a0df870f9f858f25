/** The JavaScript string operations the scheduler relies on: decimal rendering
    (`String(n)`), `padStart`, `split`, `<` on strings, `Number(...)`, `parseInt(...)`
    and `toLowerCase()`, restricted to ASCII text. */
module Text {
  import opened Common

  predicate IsDigit(c: char) {
    '0' <= c <= '9'
  }

  predicate AllDigits(s: string) {
    forall i | 0 <= i < |s| :: IsDigit(s[i])
  }

  function DigitChar(d: nat): (c: char)
    requires d < 10
    ensures IsDigit(c)
  {
    ('0' as int + d) as char
  }

  function DigitValue(c: char): (d: nat)
    requires IsDigit(c)
    ensures d < 10 && DigitChar(d) == c
  {
    c as int - '0' as int
  }

  /** The value of a string of decimal digits (the empty string counts as 0). */
  function DigitsValue(s: string): nat
    requires AllDigits(s)
    decreases |s|
  {
    if s == [] then 0 else DigitsValue(s[..|s| - 1]) * 10 + DigitValue(s[|s| - 1])
  }

  /** `String(n)` for a natural number: its shortest decimal rendering. */
  function ShowNat(n: nat): (s: string)
    ensures 1 <= |s| && AllDigits(s)
    ensures n < 10 <==> |s| == 1
    decreases n
  {
    if n < 10 then [DigitChar(n)] else ShowNat(n / 10) + [DigitChar(n % 10)]
  }

  /** `String(n)` for any integer. */
  function ShowInt(n: int): (s: string)
    ensures n >= 0 ==> s == ShowNat(n)
  {
    if n < 0 then "-" + ShowNat(-n) else ShowNat(n)
  }

  lemma {:induction false} ShowNatValue(n: nat)
    ensures DigitsValue(ShowNat(n)) == n
    decreases n
  {
    if n >= 10 {
      ShowNatValue(n / 10);
      var s := ShowNat(n);
      assert s[..|s| - 1] == ShowNat(n / 10);
    }
  }

  /** `s.padStart(n, c)`. */
  function PadStart(s: string, n: nat, c: char): (r: string)
    ensures |s| >= n ==> r == s
    ensures |s| < n ==> |r| == n
    ensures |r| >= n && |r| >= |s|
    decreases n - |s|
  {
    if |s| >= n then s else PadStart([c] + s, n, c)
  }

  lemma {:induction false} LeadingZeroValue(s: string)
    requires AllDigits(s)
    ensures AllDigits("0" + s) && DigitsValue("0" + s) == DigitsValue(s)
    decreases |s|
  {
    if s != [] {
      LeadingZeroValue(s[..|s| - 1]);
      assert ("0" + s)[..|s|] == "0" + s[..|s| - 1];
    }
  }

  lemma {:induction false} PadZeroValue(s: string, n: nat)
    requires AllDigits(s)
    ensures AllDigits(PadStart(s, n, '0')) && DigitsValue(PadStart(s, n, '0')) == DigitsValue(s)
    decreases n - |s|
  {
    if |s| < n {
      LeadingZeroValue(s);
      PadZeroValue("0" + s, n);
    }
  }

  /** Two-digit zero-padded rendering of a number below 100, as `String(n).padStart(2, '0')`. */
  lemma Pad2Digits(n: nat)
    requires n < 100
    ensures PadStart(ShowNat(n), 2, '0') == [DigitChar(n / 10), DigitChar(n % 10)]
  {
    if n >= 10 {
      assert ShowNat(n) == ShowNat(n / 10) + [DigitChar(n % 10)];
    } else {
      assert PadStart(ShowNat(n), 2, '0') == PadStart(['0', DigitChar(n)], 2, '0');
    }
  }

  /** `s.split(sep)` for a non-empty separator. */
  function Split(s: string, sep: string): (parts: seq<string>)
    requires |sep| > 0
    ensures |parts| >= 1
    decreases |s|
  {
    if |s| == 0 then [""]
    else if sep <= s then [""] + Split(s[|sep|..], sep)
    else var rest := Split(s[1..], sep); [[s[0]] + rest[0]] + rest[1..]
  }

  lemma {:induction false} SplitNoSeparator(s: string, c: char)
    requires c !in s
    ensures Split(s, [c]) == [s]
    decreases |s|
  {
    if s != [] {
      SplitNoSeparator(s[1..], c);
      assert [s[0]] + s[1..] == s;
    }
  }

  lemma {:induction false} SplitAtSeparator(a: string, c: char, b: string)
    requires c !in a
    ensures Split(a + [c] + b, [c]) == [a] + Split(b, [c])
    decreases |a|
  {
    var s := a + [c] + b;
    if a == [] {
      assert [c] <= s;
      assert s[1..] == b;
    } else {
      assert s[0] == a[0] && a[0] != c;
      assert !([c] <= s);
      assert s[1..] == a[1..] + [c] + b;
      SplitAtSeparator(a[1..], c, b);
      assert [a[0]] + a[1..] == a;
    }
  }

  lemma DigitsHaveNoSeparator(s: string, c: char)
    requires AllDigits(s) && !IsDigit(c)
    ensures c !in s
  {
  }

  /** JavaScript's `a < b` on strings: lexicographic order of the characters. */
  predicate StrLt(a: string, b: string)
    decreases |a|
  {
    if |a| == 0 then |b| > 0
    else if |b| == 0 then false
    else if a[0] != b[0] then a[0] < b[0]
    else StrLt(a[1..], b[1..])
  }

  /** Digit characters compare like their digits. */
  lemma DigitCharOrder(x: nat, y: nat)
    requires x < 10 && y < 10
    ensures DigitChar(x) < DigitChar(y) <==> x < y
    ensures DigitChar(x) == DigitChar(y) <==> x == y
  {
  }

  /** Numbers compare like their tens and then their units. */
  lemma Radix10Order(x: int, y: int)
    requires x >= 0 && y >= 0
    ensures x < y <==> x / 10 < y / 10 || (x / 10 == y / 10 && x % 10 < y % 10)
    ensures x == y <==> x / 10 == y / 10 && x % 10 == y % 10
  {
  }
  /** Comparing two non-empty strings compares their first characters, then the rest. */
  lemma StrLtCons(c: char, x: string, d: char, y: string)
    ensures StrLt([c] + x, [d] + y) == if c != d then c < d else StrLt(x, y)
  {
    assert ([c] + x)[1..] == x;
    assert ([d] + y)[1..] == y;
  }

  /** Strings that agree up to position `k` and differ there compare as their characters at
      `k` do. */
  lemma {:induction false} StrLtAt(a: string, b: string, k: nat)
    requires k < |a| && k < |b| && a[..k] == b[..k] && a[k] < b[k]
    ensures StrLt(a, b) && !StrLt(b, a) && a != b
    decreases k
  {
    if k > 0 {
      assert a[1..][..k - 1] == a[..k][1..] && b[1..][..k - 1] == b[..k][1..];
      StrLtAt(a[1..], b[1..], k - 1);
      assert a[0] == a[..k][0] && b[0] == b[..k][0];
    }
  }

  /** JavaScript's `a <= b` on strings. */
  predicate StrLe(a: string, b: string) {
    a == b || StrLt(a, b)
  }

  /** `Number(s)` on the strings the scheduler sees: a run of digits is its value,
      the empty string is 0, anything else is NaN (`None`). */
  function ToNumber(s: string): (r: Option<int>)
    ensures AllDigits(s) ==> r == Some(DigitsValue(s))
    ensures r.Some? ==> r.value >= 0
  {
    if AllDigits(s) then Some(DigitsValue(s)) else None
  }

  /** The longest prefix of `s` made of digits. */
  function DigitPrefix(s: string): (p: string)
    ensures AllDigits(p) && p <= s
    ensures |p| < |s| ==> !IsDigit(s[|p|])
    decreases |s|
  {
    if s != [] && IsDigit(s[0]) then [s[0]] + DigitPrefix(s[1..]) else []
  }

  lemma {:induction false} DigitPrefixOfDigits(s: string)
    requires AllDigits(s)
    ensures DigitPrefix(s) == s
    decreases |s|
  {
    if s != [] {
      DigitPrefixOfDigits(s[1..]);
    }
  }

  /** `parseInt(s)` without a sign or leading blanks: the value of the leading
      digits, or NaN (`None`) when `s` does not start with one. */
  function ParseInt(s: string): (r: Option<int>)
    ensures AllDigits(s) && s != [] ==> r == Some(DigitsValue(s))
    ensures r.Some? ==> r.value >= 0
  {
    var p := DigitPrefix(s);
    if AllDigits(s) then DigitPrefixOfDigits(s); (if p == [] then None else Some(DigitsValue(p)))
    else if p == [] then None else Some(DigitsValue(p))
  }

  function LowerChar(c: char): char {
    if 'A' <= c <= 'Z' then (c as int + 32) as char else c
  }

  /** `s.toLowerCase()` for ASCII text. */
  function Lower(s: string): (r: string)
    ensures |r| == |s|
    ensures forall i | 0 <= i < |s| :: r[i] == LowerChar(s[i])
  {
    seq(|s|, i requires 0 <= i < |s| => LowerChar(s[i]))
  }

  lemma LowerIdempotent(s: string)
    ensures Lower(Lower(s)) == Lower(s)
  {
  }
}
