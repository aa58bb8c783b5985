/** The JavaScript string operations the pages rely on: `toLowerCase` (on
    ASCII letters), `includes`, `trim` and `parseInt`, together with decimal
    rendering of the integer ids that the department select carries. */
module Text {
  import opened Wrappers

  predicate IsAsciiUpper(c: char) { 'A' <= c <= 'Z' }

  function LowerChar(c: char): char
  {
    if IsAsciiUpper(c) then (c as int + 32) as char else c
  }

  /** `String.prototype.toLowerCase`, on ASCII letters only. */
  function Lower(s: string): (r: string)
    ensures |r| == |s|
    ensures forall i :: 0 <= i < |s| ==> r[i] == LowerChar(s[i])
  {
    seq(|s|, i requires 0 <= i < |s| => LowerChar(s[i]))
  }

  lemma LowerIdempotent(s: string)
    ensures Lower(Lower(s)) == Lower(s)
  {
  }

  /** `s.includes(q)`: `q` occurs in `s` at some position. */
  predicate Contains(s: string, q: string)
  {
    exists i :: 0 <= i <= |s| && q <= s[i..]
  }

  lemma ContainsEmpty(s: string)
    ensures Contains(s, "")
  {
    assert "" <= s[0..];
  }

  /** The characters `trim` removes: the WhiteSpace and LineTerminator code
      points of ECMAScript (TAB, LF, VT, FF, CR, the Unicode space separators,
      U+2028, U+2029 and U+FEFF). */
  predicate IsSpace(c: char)
  {
    var n := c as int;
    (9 <= n <= 13) || n == 0x20 || n == 0xA0 || n == 0x1680 || (0x2000 <= n <= 0x200A)
    || n == 0x2028 || n == 0x2029 || n == 0x202F || n == 0x205F || n == 0x3000 || n == 0xFEFF
  }

  predicate AllSpace(s: string)
  {
    forall i :: 0 <= i < |s| ==> IsSpace(s[i])
  }

  /** `trimStart`: the longest suffix of `s` that does not begin with white space. */
  function TrimStart(s: string): (r: string)
    ensures |r| <= |s| && r == s[|s| - |r|..]
    ensures AllSpace(s[..|s| - |r|])
    ensures r != [] ==> !IsSpace(r[0])
  {
    if s != [] && IsSpace(s[0]) then TrimStart(s[1..]) else s
  }

  /** `trimEnd`: the longest prefix of `s` that does not end with white space. */
  function TrimEnd(s: string): (r: string)
    ensures |r| <= |s| && r == s[..|r|]
    ensures AllSpace(s[|r|..])
    ensures r != [] ==> !IsSpace(r[|r| - 1])
  {
    if s != [] && IsSpace(s[|s| - 1]) then TrimEnd(s[..|s| - 1]) else s
  }

  /** `String.prototype.trim`: a contiguous piece of `s`, with only white
      space cut on either side, and empty exactly when `s` is all white space. */
  function Trim(s: string): (r: string)
    ensures r != [] ==> !IsSpace(r[0]) && !IsSpace(r[|r| - 1])
    ensures r == [] <==> AllSpace(s)
  {
    TrimEmpty(s);
    TrimEnd(TrimStart(s))
  }

  lemma TrimEmpty(s: string)
    ensures TrimEnd(TrimStart(s)) == [] <==> AllSpace(s)
  {
    var t := TrimStart(s);
    if TrimEnd(t) == [] {
      assert t == [];
      forall i | 0 <= i < |s| ensures IsSpace(s[i]) {
        assert s[..|s|][i] == s[i];
      }
    }
  }

  /** What `trim` removes is white space on either side of the result. */
  lemma TrimSlice(s: string) returns (a: nat)
    ensures a + |Trim(s)| <= |s|
    ensures Trim(s) == s[a..a + |Trim(s)|]
    ensures AllSpace(s[..a]) && AllSpace(s[a + |Trim(s)|..])
  {
    var t := TrimStart(s);
    var r := TrimEnd(t);
    a := |s| - |t|;
    assert Trim(s) == r;
    assert t == s[a..];
    assert r == t[..|r|];
    assert s[..a] == s[..|s| - |t|];
    assert s[a..a + |r|] == r by {
      assert s[a..a + |r|] == s[a..][..|r|];
    }
    assert s[a + |r|..] == t[|r|..] by {
      assert s[a + |r|..] == s[a..][|r|..];
    }
  }

  lemma TrimIdempotent(s: string)
    ensures Trim(Trim(s)) == Trim(s)
  {
    var r := Trim(s);
    if r != [] {
      assert TrimStart(r) == r;
      assert TrimEnd(r) == r;
    }
  }

  predicate IsDecimalDigit(c: char) { '0' <= c <= '9' }

  /** The value of `c` as a digit (0-9, then a/A = 10 up to z/Z = 35), or 36. */
  function DigitValue(c: char): (d: nat)
    ensures d <= 36
    ensures IsDecimalDigit(c) <==> d < 10
  {
    if '0' <= c <= '9' then c as int - '0' as int
    else if 'a' <= c <= 'z' then c as int - 'a' as int + 10
    else if 'A' <= c <= 'Z' then c as int - 'A' as int + 10
    else 36
  }

  /** Length of the longest prefix of `s` made of digits of `radix`. */
  function DigitRun(s: string, radix: nat): (n: nat)
    ensures n <= |s|
    ensures forall i :: 0 <= i < n ==> DigitValue(s[i]) < radix
    ensures n < |s| ==> DigitValue(s[n]) >= radix
  {
    if s != [] && DigitValue(s[0]) < radix then 1 + DigitRun(s[1..], radix) else 0
  }

  /** The number written by the digits `s` in base `radix`. */
  function DigitsValue(s: string, radix: nat): nat
  {
    if s == [] then 0
    else DigitsValue(s[..|s| - 1], radix) * radix
         + (if DigitValue(s[|s| - 1]) < radix then DigitValue(s[|s| - 1]) else 0)
  }

  /** JavaScript `parseInt(s)` with no radix: leading white space, an optional
      sign, a `0x`/`0X` prefix selecting base 16, then the longest run of
      digits. `None` stands for NaN (which JSON.stringify sends as null). */
  function ParseInt(s: string): (r: Option<int>)
    ensures r.None? <==> DigitRun(ParseIntDigits(s).1, ParseIntDigits(s).0) == 0
  {
    var (radix, v) := ParseIntDigits(s);
    var n := DigitRun(v, radix);
    if n == 0 then None
    else Some(ParseIntSign(s) * DigitsValue(v[..n], radix))
  }

  function ParseIntUnsigned(s: string): string
  {
    var t := TrimStart(s);
    if t != [] && (t[0] == '-' || t[0] == '+') then t[1..] else t
  }

  function ParseIntSign(s: string): int
  {
    var t := TrimStart(s);
    if t != [] && t[0] == '-' then -1 else 1
  }

  /** The radix and the text where the digits start. */
  function ParseIntDigits(s: string): (nat, string)
  {
    var u := ParseIntUnsigned(s);
    if |u| >= 2 && u[0] == '0' && (u[1] == 'x' || u[1] == 'X') then (16, u[2..]) else (10, u)
  }

  function DigitChar(d: nat): (c: char)
    requires d < 10
    ensures IsDecimalDigit(c) && DigitValue(c) == d
  {
    ('0' as int + d) as char
  }

  /** The decimal form of `n`, as `String(n)` writes it (an `<option value>`). */
  function DecimalString(n: nat): (s: string)
    ensures s != []
    ensures forall i :: 0 <= i < |s| ==> IsDecimalDigit(s[i])
  {
    if n < 10 then [DigitChar(n)] else DecimalString(n / 10) + [DigitChar(n % 10)]
  }

  lemma {:induction false} DecimalValue(n: nat)
    ensures DigitsValue(DecimalString(n), 10) == n
  {
    var s := DecimalString(n);
    if n >= 10 {
      DecimalValue(n / 10);
      assert s[..|s| - 1] == DecimalString(n / 10);
    }
  }

  lemma {:induction false} DigitRunAll(s: string, radix: nat)
    requires forall i :: 0 <= i < |s| ==> DigitValue(s[i]) < radix
    ensures DigitRun(s, radix) == |s|
  {
    if s != [] {
      DigitRunAll(s[1..], radix);
    }
  }

  /** `parseInt(String(n)) == n`: the select's decimal ids parse back. */
  lemma ParseDecimal(n: nat)
    ensures ParseInt(DecimalString(n)) == Some(n)
  {
    var s := DecimalString(n);
    assert !IsSpace(s[0]);
    assert TrimStart(s) == s;
    assert ParseIntUnsigned(s) == s;
    assert ParseIntDigits(s) == (10, s);
    DigitRunAll(s, 10);
    assert s[..|s|] == s;
    DecimalValue(n);
  }

  /** Python's `str(n)` for an integer: a minus sign, then the decimal digits. */
  function IntString(n: int): (s: string)
    ensures s != []
    ensures n >= 0 ==> s == DecimalString(n)
    ensures n < 0 ==> s[0] == '-' && s[1..] == DecimalString(-n)
  {
    if n < 0 then "-" + DecimalString(-n) else DecimalString(n)
  }

  /** `a` sorts at or before `b` in code-point order (SQL `ORDER BY` on text
      under binary collation). */
  predicate LexLe(a: string, b: string)
  {
    a == [] || (b != [] && (a[0] < b[0] || (a[0] == b[0] && LexLe(a[1..], b[1..]))))
  }

  lemma {:induction false} LexLeTotal(a: string, b: string)
    ensures LexLe(a, b) || LexLe(b, a)
  {
    if a != [] && b != [] && a[0] == b[0] {
      LexLeTotal(a[1..], b[1..]);
    }
  }
}
