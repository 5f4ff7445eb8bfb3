/** Strings as sequences of Unicode scalar values, with the parts of Rust's `str` the components use. */
module Text {
  import opened Basics

  /** `char::is_whitespace`: the Unicode White_Space property. */
  predicate IsWhitespace(c: char) {
    || '\U{0009}' <= c <= '\U{000D}'
    || c == ' '
    || c == '\U{0085}'
    || c == '\U{00A0}'
    || c == '\U{1680}'
    || '\U{2000}' <= c <= '\U{200A}'
    || c == '\U{2028}'
    || c == '\U{2029}'
    || c == '\U{202F}'
    || c == '\U{205F}'
    || c == '\U{3000}'
  }

  predicate IsAsciiDigit(c: char) {
    '0' <= c <= '9'
  }

  /** `u8::to_ascii_lowercase` on one scalar value. */
  function AsciiLower(c: char): char {
    if 'A' <= c <= 'Z' then (c as int + 32) as char else c
  }

  /** `eq_ignore_ascii_case`. */
  predicate EqIgnoreAsciiCase(a: string, b: string) {
    |a| == |b| && forall i | 0 <= i < |a| :: AsciiLower(a[i]) == AsciiLower(b[i])
  }

  function TrimStart(s: string): string {
    if s != "" && IsWhitespace(s[0]) then TrimStart(s[1..]) else s
  }

  function TrimEnd(s: string): string {
    if s != "" && IsWhitespace(s[|s| - 1]) then TrimEnd(s[..|s| - 1]) else s
  }

  function Trim(s: string): string {
    TrimEnd(TrimStart(s))
  }

  /** `s.trim().is_empty()` */
  predicate IsBlank(s: string) {
    Trim(s) == ""
  }

  /** No whitespace at either end: exactly the strings `trim` leaves alone. */
  predicate IsTrimmed(s: string) {
    s != "" ==> !IsWhitespace(s[0]) && !IsWhitespace(s[|s| - 1])
  }

  predicate HasPrefix(s: string, prefix: string) {
    prefix <= s
  }

  predicate HasSuffix(s: string, suffix: string) {
    |suffix| <= |s| && s[|s| - |suffix|..] == suffix
  }

  function StripPrefix(s: string, prefix: string): Option<string> {
    if HasPrefix(s, prefix) then Some(s[|prefix|..]) else None
  }

  function StripSuffix(s: string, suffix: string): Option<string> {
    if HasSuffix(s, suffix) then Some(s[..|s| - |suffix|]) else None
  }

  /** Code point order, which is also the byte order of UTF-8. */
  predicate StringLess(a: string, b: string) {
    if b == "" then false
    else if a == "" then true
    else if a[0] != b[0] then a[0] < b[0]
    else StringLess(a[1..], b[1..])
  }

  lemma {:induction false} StringLessIsTotal(a: string, b: string)
    ensures a == b || StringLess(a, b) || StringLess(b, a)
    ensures !(StringLess(a, b) && StringLess(b, a))
    ensures !StringLess(a, a)
    decreases |a|
  {
    if a != "" {
      StringLessIsTotal(a[1..], a[1..]);
    }
    if a != "" && b != "" && a[0] == b[0] {
      StringLessIsTotal(a[1..], b[1..]);
      assert a == [a[0]] + a[1..] && b == [b[0]] + b[1..];
    }
  }

  lemma {:induction false} StringLessIsTransitive(a: string, b: string, c: string)
    requires StringLess(a, b) && StringLess(b, c)
    ensures StringLess(a, c)
    decreases |a|
  {
    if a != "" && a[0] == b[0] && b[0] == c[0] {
      StringLessIsTransitive(a[1..], b[1..], c[1..]);
    }
  }

  lemma {:induction false} TrimStartIsSuffix(s: string)
    ensures exists k :: 0 <= k <= |s| && TrimStart(s) == s[k..]
    ensures TrimStart(s) != "" ==> !IsWhitespace(TrimStart(s)[0])
    decreases |s|
  {
    if s != "" && IsWhitespace(s[0]) {
      TrimStartIsSuffix(s[1..]);
      var k :| 0 <= k <= |s[1..]| && TrimStart(s[1..]) == s[1..][k..];
      assert s[1..][k..] == s[k + 1..];
    } else {
      assert TrimStart(s) == s[0..];
    }
  }

  lemma {:induction false} TrimEndIsPrefix(s: string)
    ensures TrimEnd(s) <= s
    ensures TrimEnd(s) != "" ==> !IsWhitespace(TrimEnd(s)[|TrimEnd(s)| - 1])
    decreases |s|
  {
    if s != "" && IsWhitespace(s[|s| - 1]) {
      TrimEndIsPrefix(s[..|s| - 1]);
    }
  }

  /** `trim` yields a trimmed contiguous piece of its argument, and leaves trimmed strings alone. */
  lemma TrimYieldsTrimmed(s: string)
    ensures IsTrimmed(Trim(s))
    ensures IsTrimmed(s) ==> Trim(s) == s
    ensures exists i, j :: 0 <= i <= j <= |s| && Trim(s) == s[i..j]
  {
    TrimStartIsSuffix(s);
    TrimEndIsPrefix(TrimStart(s));
    var k :| 0 <= k <= |s| && TrimStart(s) == s[k..];
    assert Trim(s) == s[k..k + |Trim(s)|];
  }

  predicate AllWhitespace(s: string) {
    forall c | c in s :: IsWhitespace(c)
  }

  lemma {:induction false} TrimStartDropsWhitespace(s: string) returns (w: string)
    ensures s == w + TrimStart(s) && AllWhitespace(w)
    decreases |s|
  {
    w := "";
    if s != "" && IsWhitespace(s[0]) {
      var rest := TrimStartDropsWhitespace(s[1..]);
      w := [s[0]] + rest;
      assert s == [s[0]] + s[1..];
    }
  }

  lemma {:induction false} TrimEndDropsWhitespace(s: string) returns (w: string)
    ensures s == TrimEnd(s) + w && AllWhitespace(w)
    decreases |s|
  {
    w := "";
    if s != "" && IsWhitespace(s[|s| - 1]) {
      var rest := TrimEndDropsWhitespace(s[..|s| - 1]);
      w := rest + [s[|s| - 1]];
      assert s == s[..|s| - 1] + [s[|s| - 1]];
    }
  }

  lemma {:induction false} TrimStartSkips(w: string, s: string)
    requires AllWhitespace(w) && (s != "" ==> !IsWhitespace(s[0]))
    ensures TrimStart(w + s) == s
    decreases |w|
  {
    if w == "" {
      assert w + s == s;
    } else {
      assert w[0] in w && (forall c | c in w[1..] :: c in w);
      assert (w + s)[1..] == w[1..] + s;
      TrimStartSkips(w[1..], s);
    }
  }

  lemma {:induction false} TrimEndSkips(s: string, w: string)
    requires AllWhitespace(w) && (s != "" ==> !IsWhitespace(s[|s| - 1]))
    ensures TrimEnd(s + w) == s
    decreases |w|
  {
    if w == "" {
      assert s + w == s;
    } else {
      var front := w[..|w| - 1];
      assert w[|w| - 1] in w && (forall c | c in front :: c in w);
      assert (s + w)[..|s + w| - 1] == s + front;
      TrimEndSkips(s, front);
    }
  }

  /** `trim` is the one trimmed string that is left when whitespace is taken off both ends. */
  lemma TrimIsExactly(left: string, middle: string, right: string)
    requires AllWhitespace(left) && IsTrimmed(middle) && AllWhitespace(right)
    ensures Trim(left + middle + right) == middle
  {
    hide TrimStart, TrimEnd, IsWhitespace;
    if middle == "" {
      assert left + middle + right == (left + right) + "";
      TrimStartSkips(left + right, "");
      TrimEndSkips("", "");
      assert "" + "" == "";
    } else {
      assert left + middle + right == left + (middle + right);
      TrimStartSkips(left, middle + right);
      TrimEndSkips(middle, right);
    }
  }

  lemma TrimDropsWhitespace(s: string) returns (left: string, right: string)
    ensures s == left + Trim(s) + right && AllWhitespace(left) && AllWhitespace(right)
  {
    left := TrimStartDropsWhitespace(s);
    right := TrimEndDropsWhitespace(TrimStart(s));
  }

  /** Blank means nothing but whitespace. */
  lemma BlankIsAllWhitespace(s: string)
    ensures IsBlank(s) <==> AllWhitespace(s)
  {
    hide Trim, IsWhitespace;
    var left, right := TrimDropsWhitespace(s);
    if AllWhitespace(s) {
      TrimIsExactly(s, "", "");
      assert s + "" + "" == s;
    }
    assert IsBlank(s) ==> s == left + right;
  }

  /** The first difference is at `k`, where `a` is smaller. */
  predicate SmallerAt(a: string, b: string, k: nat) {
    k < |a| && k < |b| && (forall i | 0 <= i < k :: a[i] == b[i]) && a[k] < b[k]
  }

  /** One string precedes another if it is a proper prefix, or smaller at the first difference. */
  lemma {:induction false} StringLessIsLexicographic(a: string, b: string)
    ensures StringLess(a, b) <==> a < b || exists k :: SmallerAt(a, b, k)
    decreases |a|
  {
    if a != "" && b != "" {
      if a[0] == b[0] {
        var x, y := a[1..], b[1..];
        StringLessIsLexicographic(x, y);
        assert a == [a[0]] + x && b == [b[0]] + y;
        forall k: nat | SmallerAt(x, y, k) ensures SmallerAt(a, b, k + 1) {}
        forall k: nat | SmallerAt(a, b, k) ensures k > 0 && SmallerAt(x, y, k - 1) {
          assert forall i | 0 <= i < k - 1 :: x[i] == y[i];
        }
      } else {
        assert a[0] < b[0] ==> SmallerAt(a, b, 0);
      }
    }
  }

  // ---- Decimal numbers ----

  predicate AllDigits(s: string) {
    forall c | c in s :: IsAsciiDigit(c)
  }

  function DigitsValue(s: string): nat
    requires AllDigits(s)
  {
    if s == "" then 0
    else
      assert s[|s| - 1] in s;
      DigitsValue(s[..|s| - 1]) * 10 + (s[|s| - 1] as int - '0' as int)
  }

  function Decimal(n: nat): string {
    if n < 10 then [('0' as int + n) as char] else Decimal(n / 10) + [('0' as int + n % 10) as char]
  }

  lemma {:induction false} DecimalReadsBack(n: nat)
    ensures Decimal(n) != "" && AllDigits(Decimal(n)) && DigitsValue(Decimal(n)) == n
    ensures n < 1000 ==> |Decimal(n)| <= 3
    ensures n < 100 ==> |Decimal(n)| <= 2
    ensures n < 10 ==> |Decimal(n)| <= 1
  {
    if n < 10 {
      assert Decimal(n)[..0] == "";
    } else {
      DecimalReadsBack(n / 10);
      var front := Decimal(n / 10);
      assert Decimal(n)[..|front|] == front;
      forall c | c in Decimal(n) ensures IsAsciiDigit(c) {
        if c in front {
        } else {
          assert c == ('0' as int + n % 10) as char;
        }
      }
    }
  }
}
