/** Powers of natural numbers. */
module Powers {
  function Power(base: nat, n: nat): nat {
    if n == 0 then 1 else base * Power(base, n - 1)
  }

  lemma {:induction false} PowerAdds(base: nat, m: nat, n: nat)
    ensures Power(base, m + n) == Power(base, m) * Power(base, n)
  {
    if m > 0 {
      PowerAdds(base, m - 1, n);
      var p, q := Power(base, m - 1), Power(base, n);
      assert base * (p * q) == (base * p) * q;
    }
  }

  /** The numbers of values of the machine's words, each the square of the one before, and their halves. */
  lemma WordPowers()
    ensures Power(2, 7) == 0x80 && Power(2, 8) == 0x100
    ensures Power(2, 15) == 0x8000 && Power(2, 16) == 0x1_0000
    ensures Power(2, 31) == 0x8000_0000 && Power(2, 32) == 0x1_0000_0000
    ensures Power(2, 63) == 0x8000_0000_0000_0000 && Power(2, 64) == 0x1_0000_0000_0000_0000
  {
    assert Power(2, 4) == 16;
    PowerAdds(2, 4, 4);
    PowerAdds(2, 8, 8);
    PowerAdds(2, 16, 16);
    PowerAdds(2, 32, 32);
    assert Power(2, 8) == 2 * Power(2, 7) && Power(2, 16) == 2 * Power(2, 15);
    assert Power(2, 32) == 2 * Power(2, 31) && Power(2, 64) == 2 * Power(2, 63);
  }
}
