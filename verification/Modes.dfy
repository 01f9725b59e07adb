/** Mode arguments: reading them as Go's strconv.ParseInt(mode, 0, 0) does on a 64-bit machine, and raising the
    group's read, write and execute bits (pkg/smb/nodeserver.go:787-793). */
module Modes {
  import opened Numerals
  import opened Wrappers

  // ---------------------------------------------------------------- bits

  /** Bit `i` of `n`, counted from the least significant one. */
  predicate Bit(n: nat, i: nat) {
    if i == 0 then n % 2 == 1 else Bit(n / 2, i - 1)
  }

  /** Go's `a | b` */
  function Or(a: nat, b: nat): nat
    decreases a + b
  {
    if a == 0 && b == 0 then 0
    else 2 * Or(a / 2, b / 2) + (if a % 2 == 1 || b % 2 == 1 then 1 else 0)
  }

  lemma {:induction false} OrBit(a: nat, b: nat, i: nat)
    ensures Bit(Or(a, b), i) <==> Bit(a, i) || Bit(b, i)
  {
    var r := Or(a, b);
    assert r / 2 == Or(a / 2, b / 2) && (r % 2 == 1 <==> a % 2 == 1 || b % 2 == 1);
    if i > 0 {
      OrBit(a / 2, b / 2, i - 1);
    }
  }

  lemma {:induction false} OrTwice(a: nat, b: nat)
    ensures Or(Or(a, b), b) == Or(a, b)
    decreases a + b
  {
    if a != 0 || b != 0 {
      OrTwice(a / 2, b / 2);
      var r := Or(a, b);
      assert r / 2 == Or(a / 2, b / 2);
    }
  }

  function Pow2(k: nat): nat {
    if k == 0 then 1 else 2 * Pow2(k - 1)
  }

  lemma {:induction false} OrBound(a: nat, b: nat, k: nat)
    requires a < Pow2(k) && b < Pow2(k)
    ensures Or(a, b) < Pow2(k)
  {
    if k > 0 && (a != 0 || b != 0) {
      OrBound(a / 2, b / 2, k - 1);
    }
  }

  /** The bits determine the number. */
  lemma {:induction false} SameBits(a: nat, b: nat)
    requires forall i: nat :: Bit(a, i) == Bit(b, i)
    ensures a == b
    decreases a + b
  {
    assert Bit(a, 0) == Bit(b, 0);
    if a != 0 || b != 0 {
      forall i: nat
        ensures Bit(a / 2, i) == Bit(b / 2, i)
      {
        assert Bit(a, i + 1) == Bit(b, i + 1);
      }
      SameBits(a / 2, b / 2);
    }
  }

  // ---------------------------------------------------------------- ParseInt

  /** The digit a character stands for in bases up to 36, or 99. */
  function DigitOf(c: char): nat {
    if '0' <= c <= '9' then c as int - '0' as int
    else if 'a' <= c <= 'z' then c as int - 'a' as int + 10
    else if 'A' <= c <= 'Z' then c as int - 'A' as int + 10
    else 99
  }

  /** The base an unsigned literal announces, and the characters after that prefix. */
  function Prefix(s: string): (nat, string) {
    if s == "" || s[0] != '0' then (10, s)
    else if |s| >= 3 && (s[1] == 'b' || s[1] == 'B') then (2, s[2..])
    else if |s| >= 3 && (s[1] == 'o' || s[1] == 'O') then (8, s[2..])
    else if |s| >= 3 && (s[1] == 'x' || s[1] == 'X') then (16, s[2..])
    else (8, s[1..])
  }

  /** Every underscore stands between two digits; a prefix counts as a digit. */
  predicate UnderscoresFit(digits: string, prefixed: bool) {
    && (digits != "" && digits[0] == '_' ==> prefixed)
    && (forall i :: 0 <= i < |digits| && digits[i] == '_' ==> i + 1 < |digits| && digits[i + 1] != '_')
  }

  predicate DigitsFit(digits: string, base: nat) {
    forall i :: 0 <= i < |digits| ==> digits[i] == '_' || DigitOf(digits[i]) < base
  }

  function Magnitude(digits: string, base: nat): nat {
    if digits == "" then 0
    else
      var c, front := digits[|digits| - 1], Magnitude(digits[..|digits| - 1], base);
      if c == '_' then front else front * base + DigitOf(c)
  }

  function ParseUnsigned(s: string): Option<nat> {
    var (base, digits) := Prefix(s);
    if s == "" || !DigitsFit(digits, base) || !UnderscoresFit(digits, s[0] == '0') then None
    else Some(Magnitude(digits, base))
  }

  /** strconv.ParseInt(s, 0, 0); None is a syntax or range error. */
  function ParseInt(s: string): Option<int> {
    var signed := s != "" && (s[0] == '-' || s[0] == '+');
    match ParseUnsigned(if signed then s[1..] else s)
    case None => None
    case Some(n) =>
      var v: int := if signed && s[0] == '-' then 0 - n else n;
      if 0 - Pow2(63) <= v < Pow2(63) then Some(v) else None
  }

  // ---------------------------------------------------------------- raising the group's bits

  /** fmt.Sprintf("0%o", n) */
  function Octal(n: nat): string {
    "0" + Digits(n, 8)
  }

  function EnableGroupRwx(mode: string): string {
    match ParseInt(mode)
    case None => mode
    case Some(v) => if v < 0 then mode else Octal(Or(v, 56))
  }

  lemma {:induction false} MagnitudeOfDigits(n: nat)
    ensures Magnitude(Digits(n, 8), 8) == n
  {
    var s := Digits(n, 8);
    if n >= 8 {
      MagnitudeOfDigits(n / 8);
      assert s[..|s| - 1] == Digits(n / 8, 8);
    } else {
      assert s[..|s| - 1] == "";
      assert Magnitude("", 8) == 0;
    }
  }

  lemma PrefixOfOctal(n: nat)
    ensures Prefix(Octal(n)) == (8, Digits(n, 8))
  {
    var s := Octal(n);
    assert s[0] == '0' && s[1] == Digits(n, 8)[0] && s[1..] == Digits(n, 8);
  }

  lemma OctalFits(n: nat)
    ensures DigitsFit(Digits(n, 8), 8) && UnderscoresFit(Digits(n, 8), true)
  {
  }

  lemma OctalUnsigned(n: nat)
    ensures ParseUnsigned(Octal(n)) == Some(n)
  {
    PrefixOfOctal(n);
    MagnitudeOfDigits(n);
    OctalFits(n);
    assert Octal(n)[0] == '0';
  }

  /** A printed octal number reads back as itself. */
  lemma OctalParses(n: nat)
    requires n < Pow2(63)
    ensures ParseInt(Octal(n)) == Some(n)
  {
    OctalUnsigned(n);
    assert Octal(n)[0] == '0';
  }

  lemma {:induction false} Pow2Monotone(j: nat, k: nat)
    requires j <= k
    ensures Pow2(j) <= Pow2(k)
  {
    if j < k {
      Pow2Monotone(j, k - 1);
    }
  }

  lemma GroupFits(v: nat)
    requires v < Pow2(63)
    ensures Or(v, 56) < Pow2(63)
  {
    assert Pow2(6) == 64;
    Pow2Monotone(6, 63);
    OrBound(v, 56, 63);
  }

  lemma GroupBits(i: nat)
    ensures Bit(56, i) <==> 3 <= i <= 5
  {
    if i >= 3 {
      assert Bit(56, i) == Bit(28, i - 1) == Bit(14, i - 2) == Bit(7, i - 3);
    }
    if i >= 6 {
      assert Bit(7, i - 3) == Bit(3, i - 4) == Bit(1, i - 5) == Bit(0, i - 6);
      ZeroBit(i - 6);
    }
  }

  lemma {:induction false} ZeroBit(i: nat)
    ensures !Bit(0, i)
  {
    if i > 0 {
      ZeroBit(i - 1);
    }
  }

  lemma ParsedInRange(mode: string)
    requires ParseInt(mode).Some? && ParseInt(mode).value >= 0
    ensures ParseInt(mode).value < Pow2(63)
  {
  }

  /** For every readable non-negative mode, the rewritten one reads as the number with exactly the three group bits
      added; every other mode is left as it is. */
  lemma RaisesExactlyGroupBits(mode: string)
    ensures ParseInt(mode).None? || ParseInt(mode).value < 0 ==> EnableGroupRwx(mode) == mode
    ensures ParseInt(mode).Some? && ParseInt(mode).value >= 0 ==>
              && ParseInt(EnableGroupRwx(mode)).Some? && ParseInt(EnableGroupRwx(mode)).value >= 0
              && forall i: nat :: Bit(ParseInt(EnableGroupRwx(mode)).value, i) <==>
                 Bit(ParseInt(mode).value, i) || 3 <= i <= 5
  {
    if ParseInt(mode).Some? && ParseInt(mode).value >= 0 {
      var v := ParseInt(mode).value;
      ParsedInRange(mode);
      GroupFits(v);
      OctalParses(Or(v, 56));
      forall i: nat
        ensures Bit(Or(v, 56), i) <==> Bit(v, i) || 3 <= i <= 5
      {
        GroupBit(v, i);
      }
    }
  }

  lemma EnableTwice(mode: string)
    ensures EnableGroupRwx(EnableGroupRwx(mode)) == EnableGroupRwx(mode)
  {
    if ParseInt(mode).Some? && ParseInt(mode).value >= 0 {
      var v := ParseInt(mode).value;
      ParsedInRange(mode);
      GroupFits(v);
      OctalParses(Or(v, 56));
      OrTwice(v, 56);
    }
  }

  lemma GroupBit(v: nat, i: nat)
    ensures Bit(Or(v, 56), i) <==> Bit(v, i) || 3 <= i <= 5
  {
    OrBit(v, 56, i);
    GroupBits(i);
  }

  /** The same bits, the group's aside. */
  ghost predicate SameOutsideGroup(v: nat, w: nat) {
    forall i: nat :: !(3 <= i <= 5) ==> Bit(v, i) == Bit(w, i)
  }

  lemma OrAgrees(v: nat, w: nat)
    ensures Or(v, 56) == Or(w, 56) <==> SameOutsideGroup(v, w)
  {
    if Or(v, 56) == Or(w, 56) {
      forall i: nat
        ensures !(3 <= i <= 5) ==> Bit(v, i) == Bit(w, i)
      {
        GroupBit(v, i);
        GroupBit(w, i);
      }
    }
    if SameOutsideGroup(v, w) {
      forall i: nat
        ensures Bit(Or(v, 56), i) == Bit(Or(w, 56), i)
      {
        GroupBit(v, i);
        GroupBit(w, i);
      }
      SameBits(Or(v, 56), Or(w, 56));
    }
  }

  /** Two modes are rewritten to the same text exactly when they agree outside the group bits, however they are
      spelled. */
  lemma RewriteIsCanonical(a: string, b: string)
    requires ParseInt(a).Some? && ParseInt(a).value >= 0 && ParseInt(b).Some? && ParseInt(b).value >= 0
    ensures EnableGroupRwx(a) == EnableGroupRwx(b) <==> SameOutsideGroup(ParseInt(a).value, ParseInt(b).value)
  {
    ParsedInRange(a);
    ParsedInRange(b);
    GroupFits(ParseInt(a).value);
    GroupFits(ParseInt(b).value);
    OctalParses(Or(ParseInt(a).value, 56));
    OctalParses(Or(ParseInt(b).value, 56));
    OrAgrees(ParseInt(a).value, ParseInt(b).value);
  }

  /** No rewriting brings in a character other than an octal digit. */
  lemma EnableAddsDigitsOnly(mode: string, c: char)
    requires !('0' <= c <= '7') && c !in mode
    ensures c !in EnableGroupRwx(mode)
  {
  }

  // ---------------------------------------------------------------- the other ways to write a mode

  /** A digit of a base up to sixteen. */
  function LetterOf(d: nat): (c: char)
    requires d < 16
    ensures DigitOf(c) == d && c != '_'
  {
    if d < 10 then DigitChar(d) else ('a' as int + (d - 10)) as char
  }

  predicate IsBase(base: nat) {
    base == 2 || base == 8 || base == 10 || base == 16
  }

  lemma DivMod(n: nat, base: nat)
    requires IsBase(base)
    ensures n / base * base + n % base == n && (n >= base ==> 0 < n / base < n)
  {
  }

  /** A number written in a base. */
  function Written(n: nat, base: nat): (s: string)
    requires IsBase(base)
    ensures s != "" && forall i :: 0 <= i < |s| ==> s[i] != '_' && DigitOf(s[i]) < base
    decreases n
  {
    DivMod(n, base);
    if n < base then [LetterOf(n)] else Written(n / base, base) + [LetterOf(n % base)]
  }

  lemma {:induction false} MagnitudeOfWritten(n: nat, base: nat)
    requires IsBase(base)
    ensures Magnitude(Written(n, base), base) == n
    decreases n
  {
    var s := Written(n, base);
    DivMod(n, base);
    if n >= base {
      MagnitudeOfWritten(n / base, base);
      assert s[..|s| - 1] == Written(n / base, base);
      MagnitudeSnoc(Written(n / base, base), s[|s| - 1], base);
    } else {
      assert s[..|s| - 1] == "";
      MagnitudeSnoc("", s[0], base);
      assert "" + [s[0]] == s;
    }
  }

  lemma MagnitudeSnoc(s: string, c: char, base: nat)
    requires c != '_'
    ensures Magnitude(s + [c], base) == Magnitude(s, base) * base + DigitOf(c)
  {
    assert (s + [c])[..|s|] == s;
  }

  lemma WrittenFits(n: nat, base: nat)
    requires IsBase(base)
    ensures DigitsFit(Written(n, base), base) && forall b :: UnderscoresFit(Written(n, base), b)
  {
  }

  /** Apart from zero, a number written in decimal does not start with '0'. */
  lemma {:induction false} DecimalHead(n: nat)
    requires n > 0
    ensures '1' <= Written(n, 10)[0] <= '9'
    decreases n
  {
    if n >= 10 {
      DecimalHead(n / 10);
    }
  }

  /** The text written with a prefix that announces its base. */
  function Prefixed(n: nat, base: nat): string
    requires IsBase(base) && (base == 10 ==> n > 0)
  {
    match base
    case 2 => "0b" + Written(n, 2)
    case 8 => "0o" + Written(n, 8)
    case 16 => "0x" + Written(n, 16)
    case _ => Written(n, 10)
  }

  lemma PrefixedIs(n: nat, base: nat)
    requires IsBase(base) && (base == 10 ==> n > 0)
    ensures Prefix(Prefixed(n, base)) == (base, Written(n, base)) && Prefixed(n, base) != ""
    ensures Prefixed(n, base)[0] != '-' && Prefixed(n, base)[0] != '+'
  {
    var w := Written(n, base);
    if base == 10 {
      DecimalHead(n);
    } else {
      assert Prefixed(n, base)[2..] == w;
    }
  }

  lemma UnsignedReads(n: nat, base: nat)
    requires IsBase(base) && (base == 10 ==> n > 0)
    ensures ParseUnsigned(Prefixed(n, base)) == Some(n)
  {
    PrefixedIs(n, base);
    WrittenFits(n, base);
    MagnitudeOfWritten(n, base);
  }

  /** Binary, octal, decimal and hexadecimal modes, with or without a sign, are read as the number they are written
      for, if it fits 64 bits; otherwise they are refused. */
  lemma EveryBaseParses(n: nat, base: nat)
    requires IsBase(base) && (base == 10 ==> n > 0)
    ensures ParseInt(Prefixed(n, base)) == (if n < Pow2(63) then Some(n) else None)
    ensures ParseInt("+" + Prefixed(n, base)) == (if n < Pow2(63) then Some(n) else None)
    ensures ParseInt("-" + Prefixed(n, base)) == (if n <= Pow2(63) then Some(0 - n) else None)
  {
    PrefixedIs(n, base);
    UnsignedReads(n, base);
    SignedReads(Prefixed(n, base), n);
  }

  lemma SignedReads(s: string, n: nat)
    requires ParseUnsigned(s) == Some(n) && s != "" && s[0] != '-' && s[0] != '+'
    ensures ParseInt(s) == (if n < Pow2(63) then Some(n) else None)
    ensures ParseInt("+" + s) == (if n < Pow2(63) then Some(n) else None)
    ensures ParseInt("-" + s) == (if n <= Pow2(63) then Some(0 - n) else None)
  {
    assert ("+" + s)[1..] == s && ("-" + s)[1..] == s;
    assert ("+" + s)[0] == '+' && ("-" + s)[0] == '-';
    Pow2Monotone(0, 63);
  }

  /** The case of prefix letters and of hexadecimal digits does not matter. */
  lemma CaseIsIgnored(t: string, c: char)
    ensures Prefix("0B" + t) == Prefix("0b" + t) || t == ""
    ensures Prefix("0O" + t) == Prefix("0o" + t) || t == ""
    ensures Prefix("0X" + t) == Prefix("0x" + t) || t == ""
    ensures 'A' <= c <= 'Z' ==> DigitOf(c) == DigitOf(((c as int) + 32) as char)
  {
    assert ("0B" + t)[2..] == t && ("0b" + t)[2..] == t;
    assert ("0O" + t)[2..] == t && ("0o" + t)[2..] == t;
    assert ("0X" + t)[2..] == t && ("0x" + t)[2..] == t;
  }

  /** A mode that starts or ends with an underscore, or has two in a row, is refused. */
  lemma StrayUnderscores(s: string, i: nat)
    requires s != "" && i < |s| && s[i] == '_' && (i == 0 || i == |s| - 1 || s[i + 1] == '_')
    ensures ParseUnsigned(s).None?
  {
    var digits := Prefix(s).1;
    var k := |s| - |digits|;
    assert digits == s[k..];
    assert k <= i;
    var j := i - k;
    assert digits[j] == '_' && (i < |s| - 1 ==> digits[j + 1] == s[i + 1]);
    assert !UnderscoresFit(digits, s[0] == '0');
  }

  /** An underscore between two digits does not change the number. */
  lemma {:induction false} UnderscoreIsSkipped(a: string, b: string, base: nat)
    ensures Magnitude(a + "_" + b, base) == Magnitude(a + b, base)
    decreases |b|
  {
    if b == "" {
      assert (a + "_" + b)[..|a|] == a && a + b == a;
    } else {
      var front, c := b[..|b| - 1], b[|b| - 1];
      assert a + "_" + b == (a + "_" + front) + [c] && a + b == (a + front) + [c];
      assert ((a + "_" + front) + [c])[..|a + "_" + front|] == a + "_" + front;
      assert ((a + front) + [c])[..|a + front|] == a + front;
      UnderscoreIsSkipped(a, front, base);
    }
  }
}
