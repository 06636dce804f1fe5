/** Products added up, so that a proof meets a product of two variables only where it asks for
    one. */
module Products {
  import opened Bytes

  function Times(a: nat, b: nat): nat {
    if a == 0 then 0 else Times(a - 1, b) + b
  }

  /** The product, or nothing past 64 bits. */
  function CheckedMul(a: nat, b: nat): Option<nat> {
    if Times(a, b) <= USIZE_MAX then Some(Times(a, b)) else None
  }

  lemma {:induction false} TimesIs(a: nat, b: nat)
    ensures Times(a, b) == a * b
  {
    if a > 0 {
      TimesIs(a - 1, b);
      assert (a - 1) * b + b == a * b;
    }
  }

  lemma {:induction false} TimesCommutes(a: nat, b: nat)
    ensures Times(a, b) == Times(b, a)
  {
    TimesIs(a, b);
    TimesIs(b, a);
  }

  lemma {:induction false} TimesRises(a: nat, b: nat, c: nat)
    requires a <= b
    ensures Times(a, c) <= Times(b, c)
  {
    if a < b {
      TimesRises(a, b - 1, c);
    }
  }
}
