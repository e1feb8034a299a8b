/**
 * The string and number conversions the bot relies on, written for ASCII text:
 * Python's `str(int)`, `int(str)`, `format(n, '06X')`, `int(s, 16)`,
 * `str.split`, `str.join`, `str.lower`, `str.title` and `str.endswith`.
 */
module Text {
  import opened Wrappers

  /** Digit characters by value, as Python's upper-case hexadecimal format writes them */
  const DigitChars := "0123456789ABCDEF"

  /** The value of one digit character; lower-case hexadecimal digits are accepted too */
  function DigitValue(c: char): Option<nat> {
    if '0' <= c <= '9' then Some(c as int - '0' as int)
    else if 'A' <= c <= 'F' then Some(c as int - 'A' as int + 10)
    else if 'a' <= c <= 'f' then Some(c as int - 'a' as int + 10)
    else None
  }

  predicate IsDigitIn(c: char, base: nat) {
    DigitValue(c).Some? && DigitValue(c).value < base
  }

  predicate AllDigits(s: string, base: nat) {
    forall i :: 0 <= i < |s| ==> IsDigitIn(s[i], base)
  }

  lemma DigitCharValue(d: nat)
    requires d < 16
    ensures DigitValue(DigitChars[d]) == Some(d)
  {
    if d < 10 {
      assert DigitChars[d] as int == '0' as int + d;
    } else {
      assert DigitChars[d] as int == 'A' as int + d - 10;
    }
  }

  /** The digits of `n` in `base`, most significant first, without leading zeros ("0" for zero) */
  function ToDigits(n: nat, base: nat): (s: string)
    requires 2 <= base <= 16
    ensures 1 <= |s|
    ensures AllDigits(s, base)
    ensures forall i :: 0 <= i < |s| ==> s[i] in DigitChars[..base]
    ensures n != 0 ==> s[0] != '0'
    decreases n
  {
    if n < base then
      DigitCharValue(n);
      [DigitChars[n]]
    else
      DivStep(n, base);
      DigitCharValue(n % base);
      ToDigits(n / base, base) + [DigitChars[n % base]]
  }

  lemma DivStep(n: nat, base: nat)
    requires 2 <= base <= n
    ensures 1 <= n / base < n
    ensures n % base < base
    ensures n == (n / base) * base + n % base
  {
  }

  lemma DivBelow(n: nat, base: nat, p: nat)
    requires 2 <= base && n < base * p
    ensures n / base < p
  {
    var q := n / base;
    assert n == q * base + n % base;
    if q >= p {
      MulMono(base, p, q);
    }
  }

  lemma MulMono(base: nat, p: nat, q: nat)
    requires p <= q
    ensures base * p <= base * q
  {
  }

  /** The number a digit string denotes in `base` */
  function ValueIn(s: string, base: nat): nat
    requires 2 <= base <= 16
    requires AllDigits(s, base)
    decreases |s|
  {
    if s == [] then 0
    else
      var v := ValueIn(s[..|s| - 1], base);
      MulMono(base, 0, v);
      v * base + DigitValue(s[|s| - 1]).value
  }

  /** Reading back the digits written by ToDigits gives the number written */
  lemma {:induction false} ToDigitsRoundTrip(n: nat, base: nat)
    requires 2 <= base <= 16
    ensures ValueIn(ToDigits(n, base), base) == n
  {
    var s := ToDigits(n, base);
    if n < base {
      DigitCharValue(n);
      assert s[..0] == [];
    } else {
      var q, d := n / base, n % base;
      DivStep(n, base);
      DigitCharValue(d);
      var t := ToDigits(q, base);
      assert s == t + [DigitChars[d]];
      ValueInSnoc(t, DigitChars[d], base);
      ToDigitsRoundTrip(q, base);
    }
  }

  /** Appending a digit multiplies the value by the base and adds the digit */
  lemma ValueInSnoc(t: string, c: char, base: nat)
    requires 2 <= base <= 16
    requires AllDigits(t, base) && IsDigitIn(c, base)
    ensures AllDigits(t + [c], base)
    ensures ValueIn(t + [c], base) == ValueIn(t, base) * base + DigitValue(c).value
  {
    assert (t + [c])[..|t|] == t;
  }

  /** A leading zero digit does not change the value */
  lemma {:induction false} LeadingZero(s: string, base: nat)
    requires 2 <= base <= 16
    requires AllDigits(s, base)
    ensures AllDigits("0" + s, base)
    ensures ValueIn("0" + s, base) == ValueIn(s, base)
  {
    DigitCharValue(0);
    assert ("0" + s)[0] == '0';
    assert forall i :: 1 <= i < |"0" + s| ==> ("0" + s)[i] == s[i - 1];
    if s == [] {
      assert ("0" + s)[..0] == [];
    } else {
      LeadingZero(s[..|s| - 1], base);
      assert ("0" + s)[..|"0" + s| - 1] == "0" + s[..|s| - 1];
    }
  }

  function Zeros(k: nat): (z: string)
    ensures |z| == k && forall i :: 0 <= i < k ==> z[i] == '0'
  {
    seq(k, _ => '0')
  }

  /** Any number of leading zero digits does not change the value */
  lemma {:induction false} LeadingZeros(k: nat, s: string, base: nat)
    requires 2 <= base <= 16
    requires AllDigits(s, base)
    ensures AllDigits(Zeros(k) + s, base)
    ensures ValueIn(Zeros(k) + s, base) == ValueIn(s, base)
  {
    if k > 0 {
      LeadingZeros(k - 1, s, base);
      var t := Zeros(k - 1) + s;
      assert Zeros(k) == "0" + Zeros(k - 1);
      assert Zeros(k) + s == "0" + t;
      LeadingZero(t, base);
    } else {
      assert Zeros(k) + s == s;
    }
  }

  function Pow(b: nat, k: nat): nat {
    if k == 0 then 1 else b * Pow(b, k - 1)
  }

  /** A number below base^k needs at most k digits */
  lemma {:induction false} ToDigitsLength(n: nat, base: nat, k: nat)
    requires 2 <= base <= 16 && 1 <= k
    requires n < Pow(base, k)
    ensures |ToDigits(n, base)| <= k
  {
    if n >= base {
      DivStep(n, base);
      if k == 1 {
        assert false;
      }
      DivBelow(n, base, Pow(base, k - 1));
      ToDigitsLength(n / base, base, k - 1);
    }
  }

  /** `s` padded on the left with '0' up to `width` characters, as Python's `format(n, '0<width>X')` does */
  function PadZeros(s: string, width: nat): (r: string)
    ensures |r| == if |s| >= width then |s| else width
    ensures r[|r| - |s|..] == s
    ensures forall i :: 0 <= i < |r| - |s| ==> r[i] == '0'
  {
    if |s| >= width then s else Zeros(width - |s|) + s
  }

  /** Zero padding keeps the digits valid and their value unchanged */
  lemma PadZerosValue(s: string, width: nat, base: nat)
    requires 2 <= base <= 16
    requires AllDigits(s, base)
    ensures AllDigits(PadZeros(s, width), base)
    ensures ValueIn(PadZeros(s, width), base) == ValueIn(s, base)
  {
    if |s| < width {
      LeadingZeros(width - |s|, s, base);
    }
  }

  /** Zero padding only adds digit characters */
  lemma PadZerosChars(s: string, width: nat)
    requires forall i :: 0 <= i < |s| ==> s[i] in DigitChars[..16]
    ensures forall i :: 0 <= i < |PadZeros(s, width)| ==> PadZeros(s, width)[i] in DigitChars
  {
    var r := PadZeros(s, width);
    assert DigitChars[..16] == DigitChars;
    forall i | 0 <= i < |r|
      ensures r[i] in DigitChars
    {
      if i < |r| - |s| {
        assert r[i] == DigitChars[0];
      } else {
        assert r[i] == r[|r| - |s|..][i - (|r| - |s|)];
      }
    }
  }

  // ---- decimal integers: Python's str(i) and int(s) ----

  /** Python's `str(i)` for an integer */
  function IntToString(i: int): (s: string)
    ensures 1 <= |s|
    ensures forall k :: 0 <= k < |s| ==> s[k] == '-' || '0' <= s[k] <= '9'
  {
    if i < 0 then "-" + ToDigits(-i, 10) else ToDigits(i, 10)
  }

  function NatToString(n: nat): (s: string)
    ensures 1 <= |s| && AllDigits(s, 10)
  {
    ToDigits(n, 10)
  }

  /** The white-space characters that Python's `int()` ignores around a number (ASCII ones) */
  predicate IsSpace(c: char) {
    c == ' ' || 9 <= c as int <= 13 || 28 <= c as int <= 31
  }

  function TrimLeft(s: string): (r: string)
    ensures |r| <= |s| && r == s[|s| - |r|..]
    ensures r == [] || !IsSpace(r[0])
  {
    if s != [] && IsSpace(s[0]) then TrimLeft(s[1..]) else s
  }

  function TrimRight(s: string): (r: string)
    ensures |r| <= |s| && r == s[..|r|]
    ensures r == [] || !IsSpace(r[|r| - 1])
  {
    if s != [] && IsSpace(s[|s| - 1]) then TrimRight(s[..|s| - 1]) else s
  }

  function Strip(s: string): string {
    TrimRight(TrimLeft(s))
  }

  /**
   * Python's `int(s)` on a string: surrounding white space, an optional sign and
   * at least one decimal digit; anything else raises ValueError, modelled by None.
   */
  function ParseInt(s: string): Option<int> {
    var t := Strip(s);
    if |t| >= 2 && t[0] == '-' && AllDigits(t[1..], 10) then Some(-(ValueIn(t[1..], 10) as int))
    else if |t| >= 2 && t[0] == '+' && AllDigits(t[1..], 10) then Some(ValueIn(t[1..], 10))
    else if |t| >= 1 && AllDigits(t, 10) then Some(ValueIn(t, 10))
    else None
  }

  /** Python's `int(str(i))` gives `i` back */
  lemma IntToStringRoundTrip(i: int)
    ensures ParseInt(IntToString(i)) == Some(i)
  {
    var s := IntToString(i);
    var n: nat := if i < 0 then -i else i;
    var d := ToDigits(n, 10);
    ToDigitsRoundTrip(n, 10);
    NotSpace(s[0]);
    NotSpace(s[|s| - 1]);
    assert Strip(s) == s;
    if i < 0 {
      assert s == "-" + d && s[1..] == d;
    } else {
      assert s == d && s[0] != '-' && s[0] != '+';
    }
  }

  lemma NotSpace(c: char)
    requires c == '-' || '0' <= c <= '9'
    ensures !IsSpace(c)
  {
  }

  /** Python's `int(s, 16)` on the digits it is given (no sign, prefix or underscores) */
  function ParseHex(s: string): (r: Option<nat>)
    ensures r.Some? <==> s != [] && AllDigits(s, 16)
  {
    if s != [] && AllDigits(s, 16) then Some(ValueIn(s, 16)) else None
  }

  // ---- splitting and joining ----

  /** A non-empty sequence is its first element followed by the rest */
  lemma SplitFirst<T>(s: seq<T>)
    requires s != []
    ensures s == [s[0]] + s[1..]
    ensures multiset(s) == multiset{s[0]} + multiset(s[1..])
    ensures multiset(s[1..]) == multiset(s) - multiset{s[0]}
  {
    assert s == [s[0]] + s[1..];
  }

  /** A non-empty sequence is its front followed by its last element */
  lemma SplitLast<T>(s: seq<T>)
    requires s != []
    ensures s == s[..|s| - 1] + [s[|s| - 1]]
    ensures multiset(s) == multiset(s[..|s| - 1]) + multiset{s[|s| - 1]}
  {
    assert s == s[..|s| - 1] + [s[|s| - 1]];
  }

  /** Python's `s.split(sep)` with a one-character separator: empty pieces are kept */
  function Split(s: string, sep: char): (parts: seq<string>)
    ensures |parts| >= 1
    ensures forall i :: 0 <= i < |parts| ==> sep !in parts[i]
    decreases |s|
  {
    if s == [] then [""]
    else
      var rest := Split(s[1..], sep);
      if s[0] == sep then [""] + rest else [[s[0]] + rest[0]] + rest[1..]
  }

  /** Python's `sep.join(parts)` */
  function Join(parts: seq<string>, sep: string): string
    decreases |parts|
  {
    if |parts| == 0 then "" else if |parts| == 1 then parts[0] else parts[0] + sep + Join(parts[1..], sep)
  }

  lemma JoinPrependHead(a: string, rest: seq<string>, sep: string)
    requires |rest| >= 1
    ensures Join([a + rest[0]] + rest[1..], sep) == a + Join(rest, sep)
  {
    var xs := [a + rest[0]] + rest[1..];
    assert xs[1..] == rest[1..];
  }

  /** Joining the pieces of a split with the separator gives the string back */
  lemma {:induction false} JoinSplit(s: string, sep: char)
    ensures Join(Split(s, sep), [sep]) == s
  {
    if s != [] {
      var rest := Split(s[1..], sep);
      JoinSplit(s[1..], sep);
      if s[0] == sep {
        assert ([""] + rest)[1..] == rest;
        assert s == [sep] + s[1..];
      } else {
        JoinPrependHead([s[0]], rest, [sep]);
        assert s == [s[0]] + s[1..];
      }
    }
  }

  lemma {:induction false} SplitNoSep(a: string, sep: char)
    requires sep !in a
    ensures Split(a, sep) == [a]
  {
    if a != [] {
      SplitNoSep(a[1..], sep);
      assert [a[0]] + a[1..] == a;
    }
  }

  lemma {:induction false} SplitAtSep(a: string, b: string, sep: char)
    requires sep !in a
    ensures Split(a + [sep] + b, sep) == [a] + Split(b, sep)
  {
    var s := a + [sep] + b;
    if a == [] {
      assert s[1..] == b;
    } else {
      assert s[1..] == a[1..] + [sep] + b;
      SplitAtSep(a[1..], b, sep);
      assert [a[0]] + a[1..] == a;
    }
  }

  /** Splitting a join on a separator that no piece contains gives the pieces back */
  lemma {:induction false} SplitJoin(parts: seq<string>, sep: char)
    requires |parts| >= 1
    requires forall i :: 0 <= i < |parts| ==> sep !in parts[i]
    ensures Split(Join(parts, [sep]), sep) == parts
  {
    if |parts| == 1 {
      SplitNoSep(parts[0], sep);
    } else {
      SplitJoin(parts[1..], sep);
      SplitAtSep(parts[0], Join(parts[1..], [sep]), sep);
      assert [parts[0]] + parts[1..] == parts;
    }
  }

  // ---- substrings ----

  predicate EndsWith(s: string, suffix: string) {
    |s| >= |suffix| && s[|s| - |suffix|..] == suffix
  }

  predicate OccursAt(s: string, sub: string, k: int) {
    0 <= k <= |s| - |sub| && s[k..k + |sub|] == sub
  }

  predicate Contains(s: string, sub: string) {
    exists k | 0 <= k <= |s| - |sub| :: OccursAt(s, sub, k)
  }

  lemma ContainsMiddle(a: string, sub: string, b: string)
    ensures Contains(a + sub + b, sub)
  {
    var s := a + sub + b;
    assert OccursAt(s, sub, |a|);
  }

  /** Both marked pieces of `a + x + b + y + c` occur in it */
  lemma ContainsBoth(a: string, x: string, b: string, y: string, c: string)
    ensures Contains(a + x + b + y + c, x) && Contains(a + x + b + y + c, y)
  {
    var s := a + x + b + y + c;
    var k := |a| + |x| + |b|;
    assert s[|a|..|a| + |x|] == x;
    assert OccursAt(s, x, |a|);
    assert s[k..k + |y|] == y;
    assert OccursAt(s, y, k);
  }

  /** A string lacking one of the characters of `sub` cannot contain `sub` */
  lemma MissingCharNotContained(s: string, sub: string, j: nat)
    requires j < |sub| && sub[j] !in s
    ensures !Contains(s, sub)
  {
    forall k | 0 <= k <= |s| - |sub|
      ensures !OccursAt(s, sub, k)
    {
      assert s[k + j] in s;
      assert s[k..k + |sub|][j] == s[k + j];
    }
  }

  // ---- letter case (ASCII) ----

  predicate IsUpper(c: char) { 'A' <= c <= 'Z' }
  predicate IsLower(c: char) { 'a' <= c <= 'z' }

  function LowerChar(c: char): (r: char)
    ensures !IsUpper(r)
  {
    if IsUpper(c) then (c as int + 32) as char else c
  }

  function UpperChar(c: char): (r: char)
    ensures !IsLower(r)
  {
    if IsLower(c) then (c as int - 32) as char else c
  }

  /** Python's `s.lower()` on ASCII letters */
  function Lower(s: string): (r: string)
    ensures |r| == |s|
    ensures forall i :: 0 <= i < |s| ==> r[i] == LowerChar(s[i])
  {
    seq(|s|, i requires 0 <= i < |s| => LowerChar(s[i]))
  }

  /** Python's `s.title()` on ASCII: a letter is upper-cased after a non-letter, lower-cased after a letter */
  function Title(s: string): (r: string)
    ensures |r| == |s|
  {
    seq(|s|, i requires 0 <= i < |s| =>
      if i == 0 || !(IsUpper(s[i - 1]) || IsLower(s[i - 1])) then UpperChar(s[i]) else LowerChar(s[i]))
  }

  /** A character whose lower-case form is a lower-case letter is a letter, and upper-casing ignores its case */
  lemma LetterCase(c: char)
    requires IsLower(LowerChar(c))
    ensures IsUpper(c) || IsLower(c)
    ensures UpperChar(c) == UpperChar(LowerChar(c))
  {
  }

  /** `title()` of a word of letters: its first letter upper-cased, the rest lower-cased */
  lemma TitleOfLetters(s: string)
    requires s != []
    requires forall i :: 0 <= i < |s| ==> IsLower(Lower(s)[i])
    ensures Title(s) == [UpperChar(Lower(s)[0])] + Lower(s)[1..]
  {
    var l, t := Lower(s), Title(s);
    var r := [UpperChar(l[0])] + l[1..];
    forall i | 0 <= i < |s|
      ensures t[i] == r[i]
    {
      LetterCase(s[i]);
      if i > 0 {
        LetterCase(s[i - 1]);
        assert r[i] == l[i];
      }
    }
    assert t == r;
  }
}
