/** Numbers in text: what %d and strtol read and what %d prints. */
module Numerals {
  import opened Domotics

  // ---------------------------------------------------------------- scanning %d

  predicate IsSpace(c: char) {
    c == ' ' || c == '\t' || c == '\n' || c == '\r' || c == '\U{0B}' || c == '\U{0C}'
  }

  predicate IsDigit(c: char) {
    '0' <= c <= '9'
  }

  function DigitValue(c: char): (d: nat)
    requires IsDigit(c)
    ensures d < 10
  {
    (c - '0') as nat
  }

  // The first place at or after `i` that is not white space.
  function SkipSpace(s: string, i: nat): (j: nat)
    requires i <= |s|
    ensures i <= j <= |s|
    decreases |s| - i
  {
    if i < |s| && IsSpace(s[i]) then SkipSpace(s, i + 1) else i
  }

  // Reads digits from `i` on after the value `v`; stops at the first other character.
  function ScanDigits(s: string, i: nat, v: nat): (r: (nat, nat))
    requires i <= |s|
    ensures i <= r.1 <= |s|
    decreases |s| - i
  {
    if i < |s| && IsDigit(s[i]) then ScanDigits(s, i + 1, 10 * v + DigitValue(s[i])) else (v, i)
  }

  // What %d reads at `i`: white space, a sign, at least one digit; the value and where it ends.
  function ScanInt(s: string, i: nat): (r: Option<(int, nat)>)
    requires i <= |s|
    ensures r.Some? ==> i < r.value.1 <= |s|
  {
    var j := SkipSpace(s, i);
    var k := if j < |s| && (s[j] == '-' || s[j] == '+') then j + 1 else j;
    var (v, e) := ScanDigits(s, k, 0);
    var value: int := if j < k && s[j] == '-' then -(v as int) else v;
    if e == k then None else Some((value, e))
  }

  // A whole field read as a 32-bit number: leading white space and a sign are accepted,
  // anything after the digits is not.
  function ParseInt(s: string): Option<int> {
    var r := ScanInt(s, 0);
    if r.Some? && r.value.1 == |s| && IsInt32(r.value.0) then Some(r.value.0) else None
  }

  predicate IsInt32(n: int) {
    -0x8000_0000 <= n < 0x8000_0000
  }

  // ---------------------------------------------------------------- printing %d

  function Digits(n: nat): (s: string)
    ensures s != [] && forall i :: 0 <= i < |s| ==> IsDigit(s[i])
  {
    (if n < 10 then "" else Digits(n / 10)) + ['0' + (n % 10) as char]
  }

  function Decimal(n: int): (s: string)
    ensures s != [] && forall i :: 0 <= i < |s| ==> IsDigit(s[i]) || s[i] == '-'
  {
    if n < 0 then "-" + Digits(-n) else Digits(n)
  }

  lemma {:induction false} ScanPrinted(s: string, i: nat, n: nat)
    requires i + |Digits(n)| <= |s| && s[i..i + |Digits(n)|] == Digits(n)
    ensures ScanDigits(s, i, 0) == ScanDigits(s, i + |Digits(n)|, n)
    decreases n
  {
    var len := |Digits(n)|;
    assert s[i + len - 1] == s[i..i + len][len - 1] == '0' + (n % 10) as char;
    if n >= 10 {
      assert s[i..i + len - 1] == s[i..i + len][..len - 1] == Digits(n / 10);
      ScanPrinted(s, i, n / 10);
    }
  }

  lemma ScanSigned(s: string, k: nat, n: nat)
    requires k <= 1 && |s| == k + |Digits(n)| && s[k..] == Digits(n)
    ensures ScanDigits(s, k, 0) == (n, |s|)
  {
    assert s[k..k + |Digits(n)|] == s[k..];
    ScanPrinted(s, k, n);
  }

  // Scanning what was printed gives the number, and nothing is left.
  lemma ScanDecimal(n: int)
    ensures ScanInt(Decimal(n), 0) == Some((n, |Decimal(n)|))
  {
    var s := Decimal(n);
    if n < 0 {
      assert s[1..] == Digits(-n);
      ScanSigned(s, 1, -n);
      assert SkipSpace(s, 0) == 0;
    } else {
      assert s[0..] == Digits(n);
      ScanSigned(s, 0, n);
      assert IsDigit(s[0]) && SkipSpace(s, 0) == 0;
    }
  }

  // Reading what was printed gives the number back.
  lemma ParsePrinted(n: int)
    requires IsInt32(n)
    ensures ParseInt(Decimal(n)) == Some(n)
  {
    ScanDecimal(n);
  }
}
