/** Powers, and the products that they are made of. */
module Powers {

  function Pow(b: nat, n: nat): (p: nat)
    ensures b > 0 ==> p > 0
  {
    if n == 0 then 1 else b * Pow(b, n - 1)
  }

  lemma TimesAtLeast(b: nat, m: nat, n: nat)
    requires m <= n
    ensures b * m <= b * n
  {}

  lemma TimesTimes(a: nat, b: nat, c: nat)
    ensures a * (b * c) == (a * b) * c
  {}

  lemma {:induction false} PowGrows(b: nat, m: nat, n: nat)
    requires b > 0 && m <= n
    ensures Pow(b, m) <= Pow(b, n)
  {
    if m < n {
      PowGrows(b, m, n - 1);
      TimesAtLeast(Pow(b, n - 1), 1, b);
    }
  }

  lemma {:induction false} PowAdd(b: nat, m: nat, n: nat)
    ensures Pow(b, m + n) == Pow(b, m) * Pow(b, n)
  {
    if m > 0 {
      PowAdd(b, m - 1, n);
      TimesTimes(b, Pow(b, m - 1), Pow(b, n));
    }
  }
}
