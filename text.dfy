/**
 * String primitives the server and the client rely on: the BINARY collation
 * SQLite uses to compare TEXT values, substring search, JavaScript's `trim`,
 * keeping the ASCII digits of a string, and `String(n)` for whole numbers.
 */
module Text {

  /**
   * SQLite's BINARY collation compares the UTF-8 bytes of two TEXT values;
   * on Unicode scalar values that is code-point lexicographic order.
   */
  predicate LexLe(a: string, b: string)
  {
    if a == [] then true
    else if b == [] then false
    else if a[0] != b[0] then a[0] < b[0]
    else LexLe(a[1..], b[1..])
  }

  lemma {:induction false} LexLeTotal(a: string, b: string)
    ensures LexLe(a, b) || LexLe(b, a)
  {
    if a != [] && b != [] && a[0] == b[0] {
      LexLeTotal(a[1..], b[1..]);
    }
  }

  lemma {:induction false} LexLeTransitive(a: string, b: string, c: string)
    requires LexLe(a, b) && LexLe(b, c)
    ensures LexLe(a, c)
  {
    if a != [] && b != [] && c != [] && a[0] == b[0] && b[0] == c[0] {
      LexLeTransitive(a[1..], b[1..], c[1..]);
    }
  }

  lemma {:induction false} LexLeAntisymmetric(a: string, b: string)
    requires LexLe(a, b) && LexLe(b, a)
    ensures a == b
  {
    if a != [] && b != [] {
      LexLeAntisymmetric(a[1..], b[1..]);
      assert a == [a[0]] + a[1..] && b == [b[0]] + b[1..];
    }
  }

  predicate StartsWith(s: string, prefix: string)
  {
    |prefix| <= |s| && s[..|prefix|] == prefix
  }

  /** JavaScript's `s.includes(sub)`: `sub` occurs somewhere in `s` (the empty string always does). */
  predicate Contains(s: string, sub: string)
  {
    StartsWith(s, sub) || (s != [] && Contains(s[1..], sub))
  }

  /** What occurs in a suffix of `s` occurs in `s`. */
  lemma {:induction false} ContainsInSuffix(s: string, k: nat, sub: string)
    requires k <= |s| && Contains(s[k..], sub)
    ensures Contains(s, sub)
  {
    if k > 0 {
      assert s[1..][k - 1..] == s[k..];
      ContainsInSuffix(s[1..], k - 1, sub);
    }
  }

  /** A string with a character that never occurs in `s` does not occur in `s`. */
  lemma {:induction false} NotContained(s: string, sub: string, j: nat)
    requires j < |sub| && forall i :: 0 <= i < |s| ==> s[i] != sub[j]
    ensures !Contains(s, sub)
  {
    assert !StartsWith(s, sub) by {
      if |sub| <= |s| {
        assert s[..|sub|][j] == s[j] != sub[j];
      }
    }
    if s != [] {
      NotContained(s[1..], sub, j);
    }
  }

  /** Both parts of an occurring string occur. */
  lemma {:induction false} ContainsParts(s: string, a: string, b: string)
    requires Contains(s, a + b)
    ensures Contains(s, a) && Contains(s, b)
  {
    if StartsWith(s, a + b) {
      assert s[..|a|] == (a + b)[..|a|] == a;
      assert s[|a|..][..|b|] == b;
      ContainsInSuffix(s, |a|, b);
    } else {
      ContainsParts(s[1..], a, b);
    }
  }

  /** The characters JavaScript's `trim` removes: WhiteSpace and LineTerminator. */
  predicate IsSpace(c: char)
  {
    c == '\t' || c == '\n' || c == '\U{B}' || c == '\U{C}' || c == '\r' || c == ' '
    || c == '\U{A0}' || c == '\U{1680}' || ('\U{2000}' <= c <= '\U{200A}')
    || c == '\U{2028}' || c == '\U{2029}' || c == '\U{202F}' || c == '\U{205F}'
    || c == '\U{3000}' || c == '\U{FEFF}'
  }

  function TrimStart(s: string): (r: string)
    ensures |r| <= |s| && r == s[|s| - |r|..]
    ensures r == [] || !IsSpace(r[0])
    ensures forall i :: 0 <= i < |s| - |r| ==> IsSpace(s[i])
  {
    if s != [] && IsSpace(s[0]) then TrimStart(s[1..]) else s
  }

  function TrimEnd(s: string): (r: string)
    ensures |r| <= |s| && r == s[..|r|]
    ensures r == [] || !IsSpace(r[|r| - 1])
    ensures forall i :: |r| <= i < |s| ==> IsSpace(s[i])
  {
    if s != [] && IsSpace(s[|s| - 1]) then TrimEnd(s[..|s| - 1]) else s
  }

  /** `r` is `s` with white space, and only white space, cut off before `lo` and after `lo + |r|`. */
  predicate TrimmedAt(s: string, r: string, lo: int)
  {
    && 0 <= lo <= |s| - |r|
    && r == s[lo..lo + |r|]
    && (forall i :: 0 <= i < lo ==> IsSpace(s[i]))
    && (forall i :: lo + |r| <= i < |s| ==> IsSpace(s[i]))
  }

  /** A suffix `r` of a prefix `t` of `s`, each cut at white space only, is a trimmed slice of `s`. */
  lemma TrimmedSlice(s: string, t: string, r: string)
    requires |t| <= |s| && t == s[..|t|] && (forall i :: |t| <= i < |s| ==> IsSpace(s[i]))
    requires t == [] || !IsSpace(t[|t| - 1])
    requires |r| <= |t| && r == t[|t| - |r|..] && (forall i :: 0 <= i < |t| - |r| ==> IsSpace(t[i]))
    requires r == [] || !IsSpace(r[0])
    ensures TrimmedAt(s, r, |t| - |r|)
    ensures r == [] || (!IsSpace(r[0]) && !IsSpace(r[|r| - 1]))
  {
    var lo := |t| - |r|;
    assert r == s[lo..lo + |r|];
    forall i | 0 <= i < lo
      ensures IsSpace(s[i])
    {
      assert s[i] == t[i];
    }
    assert r != [] ==> r[|r| - 1] == t[|t| - 1];
  }

  /** JavaScript's `s.trim()`: a slice of `s` with no white space at either end, only white space cut off. */
  function Trim(s: string): (r: string)
    ensures exists lo :: TrimmedAt(s, r, lo)
    ensures r == [] || (!IsSpace(r[0]) && !IsSpace(r[|r| - 1]))
  {
    var t := TrimEnd(s);
    var r := TrimStart(t);
    TrimmedSlice(s, t, r);
    r
  }

  /** A string with no white space at either end is its own trim. */
  lemma TrimKeeps(s: string)
    requires s == [] || (!IsSpace(s[0]) && !IsSpace(s[|s| - 1]))
    ensures Trim(s) == s
  {
    var r := Trim(s);
    var lo :| TrimmedAt(s, r, lo);
    if s != [] {
      assert lo == 0;
      assert lo + |r| == |s|;
    }
  }

  predicate IsDigit(c: char)
  {
    '0' <= c <= '9'
  }

  /** `s.replace(/[^0-9]/g, '')`: the ASCII digits of `s`, in order. */
  function Digits(s: string): (r: string)
    ensures |r| <= |s|
    ensures forall i :: 0 <= i < |r| ==> IsDigit(r[i])
  {
    if s == [] then []
    else if IsDigit(s[0]) then [s[0]] + Digits(s[1..])
    else Digits(s[1..])
  }

  /** Every digit of `s` is kept as often as it occurs, and nothing else is. */
  lemma {:induction false} DigitsCounts(s: string)
    ensures forall c :: multiset(Digits(s))[c] == (if IsDigit(c) then multiset(s)[c] else 0)
  {
    if s != [] {
      DigitsCounts(s[1..]);
      assert s == [s[0]] + s[1..];
    }
  }

  /** One character: a digit is kept, anything else is removed. */
  lemma DigitsOfChar(c: char)
    ensures Digits([c]) == (if IsDigit(c) then [c] else [])
  {
    assert [c][1..] == [];
  }

  /** Keeping the digits distributes over concatenation, so the digits come out in input order. */
  lemma {:induction false} DigitsConcat(a: string, b: string)
    ensures Digits(a + b) == Digits(a) + Digits(b)
  {
    if a != [] {
      assert (a + b)[0] == a[0] && (a + b)[1..] == a[1..] + b;
      DigitsConcat(a[1..], b);
    } else {
      assert a + b == b;
    }
  }

  lemma {:induction false} DigitsOfDigits(s: string)
    requires forall i :: 0 <= i < |s| ==> IsDigit(s[i])
    ensures Digits(s) == s
  {
    if s != [] {
      DigitsOfDigits(s[1..]);
    }
  }

  function DigitChar(d: nat): (c: char)
    requires d < 10
    ensures IsDigit(c)
  {
    "0123456789"[d]
  }

  function NatToString(n: nat): (r: string)
    ensures |r| >= 1
    ensures forall i :: 0 <= i < |r| ==> IsDigit(r[i])
    decreases n
  {
    if n < 10 then [DigitChar(n)] else NatToString(n / 10) + [DigitChar(n % 10)]
  }

  /** The number a string of decimal digits denotes, most significant digit first. */
  function DecValue(s: string): int
    requires forall i :: 0 <= i < |s| ==> IsDigit(s[i])
  {
    if s == [] then 0
    else 10 * DecValue(s[..|s| - 1]) + ((s[|s| - 1] as int) - ('0' as int))
  }

  /** The decimal spelling of `n` denotes `n` and has no leading zero, unless `n` is 0. */
  lemma {:induction false} NatToStringValue(n: nat)
    ensures DecValue(NatToString(n)) == n
    ensures NatToString(n)[0] != '0' || n == 0
    decreases n
  {
    var r := NatToString(n);
    if n < 10 {
      assert r == [DigitChar(n)];
      assert (DigitChar(n) as int) - ('0' as int) == n;
    } else {
      var q := NatToString(n / 10);
      NatToStringValue(n / 10);
      assert r == q + [DigitChar(n % 10)];
      assert r[..|r| - 1] == q;
      assert (DigitChar(n % 10) as int) - ('0' as int) == n % 10;
      assert r[0] == q[0];
    }
  }

  /** `String(n)` for a whole number: a minus sign for negatives, then the decimal digits. */
  function IntToString(n: int): (r: string)
    ensures r != []
    ensures n >= 0 ==> forall i :: 0 <= i < |r| ==> IsDigit(r[i])
    ensures n < 0 ==> r[0] == '-' && forall i :: 1 <= i < |r| ==> IsDigit(r[i])
  {
    if n < 0 then "-" + NatToString(-n) else NatToString(n)
  }

  /** What `String(n)` spells is `n`: a minus sign exactly for negatives, then the digits of `|n|` without leading zeros. */
  lemma IntToStringValue(n: int)
    ensures var r := IntToString(n);
      && (r[0] == '-' <==> n < 0)
      && (n >= 0 ==> DecValue(r) == n && (r[0] != '0' || n == 0))
      && (n < 0 ==> DecValue(r[1..]) == -n && r[1] != '0')
  {
    if n < 0 {
      NatToStringValue(-n);
    } else {
      NatToStringValue(n);
    }
  }
}
