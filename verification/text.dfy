/** The string operations the Python code leans on: `str.strip`, `str.lower`,
    `str.upper`, the `in` substring test, `re.sub(r"\s+", " ", …)`,
    `str.split`, `str.join`, `int(…)` and decimal formatting. */
module Text {
  import opened Wrappers

  // ---------------------------------------------------------------------
  // Whitespace and strip
  // ---------------------------------------------------------------------

  /** Whitespace as `str.strip()` and the regex class `\s` see it within
      ASCII: tab, line feed, vertical tab, form feed, carriage return, the
      four information separators 0x1C-0x1F, and space. */
  predicate IsWs(c: char) {
    var n := c as int;
    n == 32 || 9 <= n <= 13 || 28 <= n <= 31
  }

  predicate AllWs(s: string) {
    forall k :: 0 <= k < |s| ==> IsWs(s[k])
  }

  /** Length of the leading whitespace run. */
  function LeadWs(s: string): (n: nat)
    ensures n <= |s|
    ensures forall k :: 0 <= k < n ==> IsWs(s[k])
    ensures n == |s| || !IsWs(s[n])
  {
    if s == [] || !IsWs(s[0]) then 0 else 1 + LeadWs(s[1..])
  }

  /** Length of the trailing whitespace run. */
  function TrailWs(s: string): (n: nat)
    ensures n <= |s|
    ensures forall k :: |s| - n <= k < |s| ==> IsWs(s[k])
    ensures n == |s| || !IsWs(s[|s| - 1 - n])
  {
    if s == [] || !IsWs(s[|s| - 1]) then 0 else 1 + TrailWs(s[..|s| - 1])
  }

  /** `s.strip()`: the slice of `s` between its leading and trailing
      whitespace runs. */
  function Strip(s: string): (r: string)
    ensures |r| <= |s|
    ensures r == [] <==> AllWs(s)
    ensures r != [] ==> !IsWs(r[0]) && !IsWs(r[|r| - 1])
    ensures LeadWs(s) + |r| <= |s|
    ensures r == s[LeadWs(s)..LeadWs(s) + |r|]
  {
    var t := s[LeadWs(s)..];
    t[..|t| - TrailWs(t)]
  }

  lemma StripUnpadded(s: string)
    requires s != [] ==> !IsWs(s[0]) && !IsWs(s[|s| - 1])
    ensures Strip(s) == s
  {
    assert LeadWs(s) == 0;
    assert TrailWs(s) == 0;
  }

  lemma StripIdempotent(s: string)
    ensures Strip(Strip(s)) == Strip(s)
  {
    StripUnpadded(Strip(s));
  }

  // ---------------------------------------------------------------------
  // Case mapping (ASCII letters only)
  // ---------------------------------------------------------------------

  function LowerChar(c: char): char {
    if 'A' <= c <= 'Z' then (c as int + 32) as char else c
  }

  function UpperChar(c: char): char {
    if 'a' <= c <= 'z' then (c as int - 32) as char else c
  }

  /** `s.lower()` on ASCII letters; every other character is kept. */
  function Lower(s: string): (r: string)
    ensures |r| == |s|
    ensures forall k {:trigger r[k]} :: 0 <= k < |s| ==> r[k] == LowerChar(s[k])
  {
    seq(|s|, k requires 0 <= k < |s| => LowerChar(s[k]))
  }

  /** `s.upper()` on ASCII letters; every other character is kept. */
  function Upper(s: string): (r: string)
    ensures |r| == |s|
    ensures forall k {:trigger r[k]} :: 0 <= k < |s| ==> r[k] == UpperChar(s[k])
  {
    seq(|s|, k requires 0 <= k < |s| => UpperChar(s[k]))
  }

  predicate NoUpperAscii(s: string) {
    forall k :: 0 <= k < |s| ==> !('A' <= s[k] <= 'Z')
  }

  // ---------------------------------------------------------------------
  // Substring test: Python's `kw in t`
  // ---------------------------------------------------------------------

  /** `kw` occurs in `t` starting at index `i`. */
  predicate InfixAt(t: string, kw: string, i: int) {
    0 <= i && i + |kw| <= |t| && t[i..i + |kw|] == kw
  }

  predicate Contains(t: string, kw: string)
    decreases |t|
  {
    |kw| <= |t| && (t[..|kw|] == kw || (t != [] && Contains(t[1..], kw)))
  }

  lemma {:induction false} ContainsIsInfix(t: string, kw: string)
    ensures Contains(t, kw) <==> exists i :: InfixAt(t, kw, i)
    decreases |t|
  {
    if |kw| <= |t| {
      if t[..|kw|] == kw {
        assert InfixAt(t, kw, 0);
      } else if t == [] {
      } else {
        ContainsIsInfix(t[1..], kw);
        if Contains(t[1..], kw) {
          var i :| InfixAt(t[1..], kw, i);
          assert t[1..][i..i + |kw|] == t[i + 1..i + 1 + |kw|];
          assert InfixAt(t, kw, i + 1);
        }
        if exists i :: InfixAt(t, kw, i) {
          var i :| InfixAt(t, kw, i);
          assert i != 0;
          assert t[1..][i - 1..i - 1 + |kw|] == t[i..i + |kw|];
          assert InfixAt(t[1..], kw, i - 1);
        }
      }
    }
  }

  // ---------------------------------------------------------------------
  // Whitespace collapsing: re.sub(r"\s+", " ", s)
  // ---------------------------------------------------------------------

  /** The non-whitespace characters of `s`, in order. */
  function NonWs(s: string): string {
    if s == [] then [] else (if IsWs(s[0]) then [] else [s[0]]) + NonWs(s[1..])
  }

  /** No two neighbouring characters are both whitespace. */
  predicate NoDoubleWs(s: string) {
    forall i, j :: 0 <= i < |s| && 0 <= j < |s| && j == i + 1 ==> !(IsWs(s[i]) && IsWs(s[j]))
  }

  /** Replaces every maximal whitespace run by a single space. */
  function CollapseWs(s: string): (r: string)
    ensures |r| <= |s|
    ensures r == [] <==> s == []
    ensures r != [] ==> (IsWs(r[0]) <==> IsWs(s[0]))
    ensures r != [] ==> (IsWs(r[|r| - 1]) <==> IsWs(s[|s| - 1]))
    ensures forall k :: 0 <= k < |r| && IsWs(r[k]) ==> r[k] == ' '
    ensures NoDoubleWs(r)
    decreases |s|
  {
    if s == [] then []
    else if IsWs(s[0]) then " " + CollapseWs(s[LeadWs(s)..])
    else [s[0]] + CollapseWs(s[1..])
  }

  lemma {:induction false} NonWsSkipsBlank(s: string, n: nat)
    requires n <= |s|
    requires forall k :: 0 <= k < n ==> IsWs(s[k])
    ensures NonWs(s) == NonWs(s[n..])
  {
    if n > 0 {
      NonWsSkipsBlank(s[1..], n - 1);
      assert s[1..][n - 1..] == s[n..];
    }
  }

  /** Collapsing whitespace never loses or reorders visible text. */
  lemma {:induction false} CollapseKeepsText(s: string)
    ensures NonWs(CollapseWs(s)) == NonWs(s)
    decreases |s|
  {
    if s == [] {
    } else if IsWs(s[0]) {
      var n := LeadWs(s);
      CollapseKeepsText(s[n..]);
      NonWsSkipsBlank(s, n);
      assert (" " + CollapseWs(s[n..]))[1..] == CollapseWs(s[n..]);
    } else {
      CollapseKeepsText(s[1..]);
      assert ([s[0]] + CollapseWs(s[1..]))[1..] == CollapseWs(s[1..]);
    }
  }

  // ---------------------------------------------------------------------
  // split / join
  // ---------------------------------------------------------------------

  /** `parts[0] + sep + parts[1] + …`, Python's `sep.join(parts)`. */
  function Join(parts: seq<string>, sep: string): string {
    if parts == [] then []
    else if |parts| == 1 then parts[0]
    else parts[0] + sep + Join(parts[1..], sep)
  }

  /** `s.split(sep)` for a one-character separator: always at least one
      part, and no part contains the separator. */
  function Split(s: string, sep: char): (parts: seq<string>)
    ensures |parts| >= 1
    ensures forall i :: 0 <= i < |parts| ==> sep !in parts[i]
    decreases |s|
  {
    if s == [] then [[]]
    else
      var rest := Split(s[1..], sep);
      if s[0] == sep then [[]] + rest else [[s[0]] + rest[0]] + rest[1..]
  }

  /** Splitting loses nothing: joining the parts back gives the input. */
  lemma {:induction false} JoinSplit(s: string, sep: char)
    ensures Join(Split(s, sep), [sep]) == s
    decreases |s|
  {
    if s != [] {
      var rest := Split(s[1..], sep);
      JoinSplit(s[1..], sep);
      if s[0] == sep {
        assert ([[]] + rest)[1..] == rest;
      } else if |rest| == 1 {
      } else {
        var parts := [[s[0]] + rest[0]] + rest[1..];
        assert parts[1..] == rest[1..];
        assert Join(rest, [sep]) == rest[0] + [sep] + Join(rest[1..], [sep]);
      }
    }
  }

  // ---------------------------------------------------------------------
  // Decimal digits: str(n), f"{n:0Wd}", int(s)
  // ---------------------------------------------------------------------

  predicate IsDigit(c: char) {
    '0' <= c <= '9'
  }

  predicate AllDigits(s: string) {
    forall k :: 0 <= k < |s| ==> IsDigit(s[k])
  }

  function DigitChar(d: nat): char
    requires d < 10
  {
    ('0' as int + d) as char
  }

  /** The value of a run of ASCII digits. */
  function DigitsValue(s: string): nat
    requires AllDigits(s)
  {
    if s == [] then 0 else DigitsValue(s[..|s| - 1]) * 10 + (s[|s| - 1] as int - '0' as int)
  }

  /** `str(n)` for a natural number. */
  function Decimal(n: nat): (r: string)
    ensures |r| >= 1 && AllDigits(r)
  {
    if n < 10 then [DigitChar(n)] else Decimal(n / 10) + [DigitChar(n % 10)]
  }

  function Pow10(w: nat): nat {
    if w == 0 then 1 else 10 * Pow10(w - 1)
  }

  /** Reading back the decimal text of `n` gives `n`. */
  lemma {:induction false} DecimalValue(n: nat)
    ensures DigitsValue(Decimal(n)) == n
  {
    if n >= 10 {
      DecimalValue(n / 10);
      var d := Decimal(n);
      assert d[..|d| - 1] == Decimal(n / 10);
    }
  }

  /** A number below 10^w has at most w decimal digits. */
  lemma {:induction false} DecimalLength(n: nat, w: nat)
    requires 1 <= w && n < Pow10(w)
    ensures |Decimal(n)| <= w
  {
    if n >= 10 {
      DecimalLength(n / 10, w - 1);
    }
  }

  function Zeros(n: nat): (r: string)
    ensures |r| == n && forall k :: 0 <= k < n ==> r[k] == '0'
  {
    if n == 0 then [] else "0" + Zeros(n - 1)
  }

  /** `f"{n:0{w}d}"`: the decimal text of `n`, left-padded with zeros to at
      least `w` characters. */
  function ZeroPad(n: nat, w: nat): (r: string)
    ensures AllDigits(r) && |r| >= w
  {
    var d := Decimal(n);
    if |d| < w then Zeros(w - |d|) + d else d
  }

  lemma {:induction false} LeadingZerosValue(z: string, d: string)
    requires forall k :: 0 <= k < |z| ==> z[k] == '0'
    requires AllDigits(d)
    ensures AllDigits(z + d) && DigitsValue(z + d) == DigitsValue(d)
    decreases |d|
  {
    if d == [] {
      assert z + d == z;
      ZerosValue(z);
    } else {
      LeadingZerosValue(z, d[..|d| - 1]);
      assert (z + d)[..|z + d| - 1] == z + d[..|d| - 1];
    }
  }

  lemma {:induction false} ZerosValue(z: string)
    requires forall k :: 0 <= k < |z| ==> z[k] == '0'
    ensures AllDigits(z) && DigitsValue(z) == 0
  {
    if z != [] {
      ZerosValue(z[..|z| - 1]);
    }
  }

  /** Zero padding never changes the value read back, and below 10^w the
      padded text is exactly w characters long. */
  lemma ZeroPadValue(n: nat, w: nat)
    ensures DigitsValue(ZeroPad(n, w)) == n
    ensures 1 <= w && n < Pow10(w) ==> |ZeroPad(n, w)| == w
  {
    var d := Decimal(n);
    DecimalValue(n);
    if |d| < w {
      LeadingZerosValue(Zeros(w - |d|), d);
    }
    if 1 <= w && n < Pow10(w) {
      DecimalLength(n, w);
    }
  }

  /** `str(i)` for any integer. */
  function IntToString(i: int): (r: string)
    ensures r != []
  {
    if i < 0 then "-" + Decimal(-i) else Decimal(i)
  }

  /** Python's `int(s)` on ASCII text: surrounding whitespace, an optional
      sign, then one or more digits; anything else raises (`None`). */
  function ParseInt(s: string): (r: Option<int>)
    ensures r.Some? ==> Strip(s) != []
  {
    var t := Strip(s);
    if t != [] && (t[0] == '+' || t[0] == '-') then
      var body := t[1..];
      if body != [] && AllDigits(body) then
        var v: int := DigitsValue(body);
        Some(if t[0] == '-' then -v else v)
      else None
    else if t != [] && AllDigits(t) then Some(DigitsValue(t))
    else None
  }

  /** `int(str(i)) == i`. */
  lemma ParseIntToString(i: int)
    ensures ParseInt(IntToString(i)) == Some(i)
  {
    if i < 0 {
      ParseNegative(-i);
    } else {
      ParseNatural(i);
    }
  }

  lemma ParseNatural(n: nat)
    ensures ParseInt(Decimal(n)) == Some(n)
  {
    ParseDigits(Decimal(n));
    DecimalValue(n);
  }

  lemma ParseNegative(n: nat)
    requires n > 0
    ensures ParseInt("-" + Decimal(n)) == Some(0 - n as int)
  {
    ParseNegativeDigits(Decimal(n));
    DecimalValue(n);
  }

  /** A run of digits parses to its value. */
  lemma ParseDigits(d: string)
    requires d != [] && AllDigits(d)
    ensures ParseInt(d) == Some(DigitsValue(d))
  {
    StripUnpadded(d);
  }

  /** A minus sign before a run of digits parses to the negated value. */
  lemma ParseNegativeDigits(d: string)
    requires d != [] && AllDigits(d)
    ensures ParseInt("-" + d) == Some(0 - DigitsValue(d) as int)
  {
    var s := "-" + d;
    assert s[|s| - 1] == d[|d| - 1];
    StripUnpadded(s);
    assert s[1..] == d;
  }

  /** `int(f"{n:0{w}d}") == n`. */
  lemma ParseIntZeroPad(n: nat, w: nat)
    ensures ParseInt(ZeroPad(n, w)) == Some(n)
  {
    var s := ZeroPad(n, w);
    StripUnpadded(s);
    ZeroPadValue(n, w);
  }

  /** Python's `s[:n]`. */
  function Take<T>(s: seq<T>, n: nat): (r: seq<T>)
    ensures |r| == if |s| <= n then |s| else n
    ensures forall k :: 0 <= k < |r| ==> r[k] == s[k]
  {
    if |s| <= n then s else s[..n]
  }
}
