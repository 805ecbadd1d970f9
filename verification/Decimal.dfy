/** Decimal rendering of indices, as Python's f-strings write them into tags and names. */
module Decimal {

  predicate IsDigit(c: char) {
    '0' <= c <= '9'
  }

  function Digit(d: nat): (c: char)
    requires d < 10
    ensures IsDigit(c)
  {
    "0123456789"[d]
  }

  function Dec(n: nat): (s: string)
    ensures |s| > 0
    ensures forall c | c in s :: IsDigit(c)
  {
    if n < 10 then [Digit(n)] else Dec(n / 10) + [Digit(n % 10)]
  }

  /** Reads a digit string back. */
  function Val(s: string): nat
    requires forall c | c in s :: IsDigit(c)
  {
    if s == [] then 0
    else assert IsDigit(s[|s| - 1]); Val(s[..|s| - 1]) * 10 + (s[|s| - 1] as int - '0' as int)
  }

  lemma {:induction false} ValOfDec(n: nat)
    ensures Val(Dec(n)) == n
  {
    if n < 10 {
      var s := Dec(n);
      assert s[..|s| - 1] == [];
    } else {
      ValOfDec(n / 10);
      var s := Dec(n);
      assert s[..|s| - 1] == Dec(n / 10);
    }
  }

  lemma DecInjective(a: nat, b: nat)
    requires Dec(a) == Dec(b)
    ensures a == b
  {
    ValOfDec(a);
    ValOfDec(b);
  }

  predicate StartsWithDigit(s: string) {
    s != [] && IsDigit(s[0])
  }

  lemma LeadingDigit(a: string, x: string)
    requires forall c | c in a :: IsDigit(c)
    requires !StartsWithDigit(x)
    ensures StartsWithDigit(a + x) <==> a != []
  {
    if a == [] {
      assert a + x == x;
    } else {
      assert (a + x)[0] == a[0] && a[0] in a;
    }
  }

  /** Two digit runs, each ended by a non-digit (or by the end), split the same string the same way. */
  lemma {:induction false} SplitUnique(a: string, b: string, x: string, y: string)
    requires forall c | c in a :: IsDigit(c)
    requires forall c | c in b :: IsDigit(c)
    requires !StartsWithDigit(x) && !StartsWithDigit(y)
    requires a + x == b + y
    ensures a == b && x == y
  {
    LeadingDigit(a, x);
    LeadingDigit(b, y);
    if a == [] {
      assert a + x == x && b + y == y;
    } else {
      assert (a + x)[0] == a[0] && (b + y)[0] == b[0];
      assert (a + x)[1..] == a[1..] + x;
      assert (b + y)[1..] == b[1..] + y;
      SplitUnique(a[1..], b[1..], x, y);
      assert a == [a[0]] + a[1..] && b == [b[0]] + b[1..];
    }
  }
}
