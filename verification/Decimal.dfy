/** Decimal text of natural numbers, as Python's str and int write and read it. */
module Decimal {

  const MAX_UINT32: nat := 0xFFFF_FFFF
  const MAX_UINT64: nat := 0xFFFF_FFFF_FFFF_FFFF

  predicate IsDigit(c: char) {
    '0' <= c <= '9'
  }

  predicate AllDigits(s: string) {
    forall i :: 0 <= i < |s| ==> IsDigit(s[i])
  }

  function Print(n: nat): (s: string)
    ensures s != "" && AllDigits(s)
  {
    var last := [('0' as int + n % 10) as char];
    if n < 10 then last else Print(n / 10) + last
  }

  function Read(s: string): nat
    requires AllDigits(s)
  {
    if s == "" then 0
    else Read(s[..|s| - 1]) * 10 + (s[|s| - 1] as int - '0' as int)
  }

  /** Digits with no superfluous leading zero. */
  predicate Canonical(s: string) {
    s != "" && AllDigits(s) && (s[0] == '0' ==> |s| == 1)
  }

  /** The pattern [1-9][0-9]{0,19}. */
  predicate TickShape(s: string) {
    1 <= |s| <= 20 && AllDigits(s) && s[0] != '0'
  }

  /** A canonical positive uint64 in decimal. */
  predicate IsUint64Text(s: string) {
    TickShape(s) && Read(s) <= MAX_UINT64
  }

  lemma {:induction false} ReadPrint(n: nat)
    ensures Read(Print(n)) == n
    ensures Canonical(Print(n)) && (Print(n)[0] == '0' <==> n == 0)
  {
    var s := Print(n);
    if n >= 10 {
      ReadPrint(n / 10);
      assert s[..|s| - 1] == Print(n / 10);
    }
  }

  lemma {:induction false} PrintRead(s: string)
    requires Canonical(s)
    ensures Print(Read(s)) == s
  {
    if |s| > 1 {
      var t := s[..|s| - 1];
      PrintRead(t);
      ReadPrint(Read(t));
      assert s == t + [s[|s| - 1]];
      assert Read(s) / 10 == Read(t) > 0;
    } else {
      assert s[..0] == "";
    }
  }

  lemma PrintInjective(m: nat, n: nat)
    requires Print(m) == Print(n)
    ensures m == n
  {
    ReadPrint(m);
    ReadPrint(n);
  }

  function Pow10(k: nat): nat {
    if k == 0 then 1 else 10 * Pow10(k - 1)
  }

  lemma {:induction false} PrintWidth(n: nat, k: nat)
    requires 1 <= k && n < Pow10(k)
    ensures |Print(n)| <= k
  {
    if n >= 10 {
      PrintWidth(n / 10, k - 1);
    }
  }

  /** The uint64 texts are exactly the decimal texts of 1 to 2^64-1. */
  lemma Uint64TextIsPrintImage(s: string)
    ensures IsUint64Text(s) <==> exists n: nat :: 1 <= n <= 18446744073709551615 && Print(n) == s
  {
    if IsUint64Text(s) {
      PrintRead(s);
      ReadPrint(Read(s));
    }
    forall n: nat | 1 <= n <= MAX_UINT64 && Print(n) == s
      ensures IsUint64Text(s)
    {
      ReadPrint(n);
      assert Pow10(7) == 1000_0000 && Pow10(14) == 1000_0000 * Pow10(7);
      assert Pow10(20) == 100_0000 * Pow10(14);
      PrintWidth(n, 20);
    }
  }

  lemma PrintIsUint64Text(n: nat)
    requires 1 <= n <= MAX_UINT64
    ensures IsUint64Text(Print(n)) && Read(Print(n)) == n
  {
    Uint64TextIsPrintImage(Print(n));
    ReadPrint(n);
  }

  lemma Uint64TextRead(s: string)
    requires IsUint64Text(s)
    ensures 1 <= Read(s) && Print(Read(s)) == s
  {
    PrintRead(s);
    ReadPrint(Read(s));
  }
}
