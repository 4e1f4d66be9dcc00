/** Powers of ten. */
module PowersOfTen {
  function Tens(n: nat): (r: nat)
    ensures r > 0
  {
    if n == 0 then 1 else 10 * Tens(n - 1)
  }

  lemma {:induction false} TensAdd(a: nat, b: nat)
    ensures Tens(a + b) == Tens(a) * Tens(b)
    decreases b
  {
    if b > 0 {
      TensAdd(a, b - 1);
      assert Tens(a + b) == 10 * Tens(a + (b - 1));
    }
  }

  lemma {:induction false} TensGrow(a: nat, b: nat)
    requires a <= b
    ensures Tens(a) <= Tens(b)
    decreases b
  {
    if a < b { TensGrow(a, b - 1); }
  }

  lemma TensValues()
    ensures Tens(4) == 10000 && Tens(8) == 100000000 && Tens(12) == 1000000000000 && Tens(15) == 1000000000000000 && Tens(16) == 10000000000000000
  {
    assert Tens(4) == 10 * Tens(3) && Tens(3) == 10 * Tens(2) && Tens(2) == 10 * Tens(1);
    assert Tens(8) == 10 * Tens(7) && Tens(7) == 10 * Tens(6) && Tens(6) == 10 * Tens(5) && Tens(5) == 10 * Tens(4);
    assert Tens(12) == 10 * Tens(11) && Tens(11) == 10 * Tens(10) && Tens(10) == 10 * Tens(9) && Tens(9) == 10 * Tens(8);
    assert Tens(16) == 10 * Tens(15) && Tens(15) == 10 * Tens(14) && Tens(14) == 10 * Tens(13) && Tens(13) == 10 * Tens(12);
  }
}
