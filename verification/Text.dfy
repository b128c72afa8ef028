/** Decimal printing, blank strings, and reading a joined string back by its last separator. */
module Text {
  predicate IsDigit(c: char) {
    '0' <= c <= '9'
  }

  function Digit(d: nat): (c: char)
    requires d < 10
    ensures IsDigit(c)
  {
    ('0' as int + d) as char
  }

  function Digits(n: nat): (s: string)
    ensures s != [] && forall i :: 0 <= i < |s| ==> IsDigit(s[i])
  {
    if n < 10 then [Digit(n)] else Digits(n / 10) + [Digit(n % 10)]
  }

  function Itoa(n: int): string {
    if n < 0 then "-" + Digits(-n) else Digits(n)
  }

  /** Unicode white space. */
  predicate IsSpace(c: char) {
    c in {'\t', '\n', '\U{0B}', '\U{0C}', '\r', ' ', '\U{85}', '\U{A0}', '\U{1680}', '\U{2028}', '\U{2029}',
          '\U{202F}', '\U{205F}', '\U{3000}'}
    || '\U{2000}' <= c <= '\U{200A}'
  }

  /** By code point: the characters with the White_Space property of Unicode. */
  lemma {:induction false} SpacesByCodePoint(c: char)
    ensures var n := c as int;
            IsSpace(c) <==> 0x9 <= n <= 0xD || n == 0x20 || n == 0x85 || n == 0xA0 || n == 0x1680
                            || 0x2000 <= n <= 0x200A || n == 0x2028 || n == 0x2029 || n == 0x202F
                            || n == 0x205F || n == 0x3000
  {
  }

  /** Nothing is left of the string when white space is trimmed. */
  predicate Blank(s: string) {
    forall i :: 0 <= i < |s| ==> IsSpace(s[i])
  }

  lemma {:induction false} DigitsInjective(m: nat, n: nat)
    requires Digits(m) == Digits(n)
    ensures m == n
  {
    assert Digits(m)[|Digits(m)| - 1] == Digit(m % 10);
    assert Digits(n)[|Digits(n)| - 1] == Digit(n % 10);
    assert m % 10 == n % 10;
    if 10 <= m && 10 <= n {
      assert Digits(m / 10) == Digits(m)[..|Digits(m)| - 1];
      assert Digits(n / 10) == Digits(n)[..|Digits(n)| - 1];
      DigitsInjective(m / 10, n / 10);
    }
  }

  /** Different numbers print differently. */
  lemma {:induction false} ItoaInjective(m: int, n: int)
    requires Itoa(m) == Itoa(n)
    ensures m == n
  {
    assert Itoa(m)[0] == Itoa(n)[0];
    if m < 0 && n < 0 {
      assert Itoa(m)[1..] == Digits(-m);
      assert Itoa(n)[1..] == Digits(-n);
      DigitsInjective(-m, -n);
    } else if 0 <= m && 0 <= n {
      DigitsInjective(m, n);
    }
  }

  lemma {:induction false} ItoaCharacters(n: int, c: char)
    requires c in Itoa(n)
    ensures IsDigit(c) || c == '-'
  {
  }

  /** A string is read back by its last separator when what follows it has none. */
  lemma {:induction false} SplitAtLast(a: string, x: string, b: string, y: string, c: char)
    requires c !in x && c !in y && a + [c] + x == b + [c] + y
    ensures a == b && x == y
  {
    var s, t := a + [c] + x, b + [c] + y;
    assert s[|a|] == c && t[|b|] == c;
    assert forall k :: |a| < k < |s| ==> s[k] == x[k - |a| - 1];
    assert forall k :: |b| < k < |t| ==> t[k] == y[k - |b| - 1];
    assert |a| == |b|;
    assert a == s[..|a|] && b == t[..|b|];
    assert x == s[|a| + 1..] && y == t[|b| + 1..];
  }

  /** What a string of digits says in decimal. */
  function Value(s: string): nat {
    if s == [] || !IsDigit(s[|s| - 1]) then 0
    else 10 * Value(s[..|s| - 1]) + (s[|s| - 1] as int - '0' as int)
  }

  /** Numbers print in decimal, with no zero in front. */
  lemma {:induction false} DigitsSayTheNumber(n: nat)
    ensures Value(Digits(n)) == n
    ensures n > 0 ==> Digits(n)[0] != '0'
  {
    var s := Digits(n);
    if n >= 10 {
      DigitsSayTheNumber(n / 10);
      assert s[..|s| - 1] == Digits(n / 10) && s[0] == Digits(n / 10)[0];
    } else {
      assert s[..|s| - 1] == [];
    }
  }
}
