/** The height of the price-level tree is logarithmic: h <= 1.45 * log2(n + 1), stated in integers. */
module AvlHeight {
  import opened AvlSpec
  import opened Powers

  lemma GrowthStep(x: nat, y: nat, f: nat, g: nat, x1: nat, y1: nat, x2: nat, y2: nat)
    requires x <= y * f && x1 <= y1 * g
    requires x1 == 21 * x && y1 == 13 * y && x2 == 441 * x && y2 == 169 * y
    ensures x2 <= y2 * (f + g)
  {
    assert y1 * g == 13 * (y * g);
    assert y2 * (f + g) == 169 * (y * f) + 169 * (y * g);
  }

  lemma PowerTwo(b: nat, e: nat)
    ensures Power(b, e + 1) == b * Power(b, e) && Power(b, e + 2) == (b * b) * Power(b, e)
  {
    assert b * (b * Power(b, e)) == (b * b) * Power(b, e);
  }

  /** Fibonacci numbers grow at least as fast as powers of 21/13. */
  lemma {:induction false} FibGrows(h: nat)
    ensures Power(21, h) <= Power(13, h) * Fib(h + 2)
  {
    if h < 2 {
      assert Fib(2) == 1 && Fib(3) == 2;
      assert Power(21, 0) == Power(13, 0) == 1 && Power(21, 1) == 21 && Power(13, 1) == 13;
    } else {
      hide Power, Fib;
      FibGrows(h - 1);
      FibGrows(h - 2);
      FibStep(h);
      PowerTwo(21, h - 2);
      PowerTwo(13, h - 2);
      GrowthStep(Power(21, h - 2), Power(13, h - 2), Fib(h), Fib(h + 1),
                 Power(21, h - 1), Power(13, h - 1), Power(21, h), Power(13, h));
    }
  }

  lemma PowerOf2()
    ensures Power(2, 20) == 1048576
  {
    hide Power;
    PowerOne(2);
    PowerSum(2, 1, 1);
    assert Power(2, 2) == 4;
    PowerSum(2, 2, 2);
    assert Power(2, 4) == 16;
    PowerSum(2, 4, 4);
    assert Power(2, 8) == 256;
    PowerSum(2, 8, 8);
    assert Power(2, 16) == 65536;
    PowerSum(2, 16, 4);
    assert Power(2, 20) == 1048576;
  }

  lemma PowerOf13()
    ensures Power(13, 29) == 201538126434611150798503956371773
  {
    hide Power;
    PowerOne(13);
    PowerSum(13, 1, 1);
    assert Power(13, 2) == 169;
    PowerSum(13, 2, 2);
    assert Power(13, 4) == 28561;
    PowerSum(13, 4, 4);
    assert Power(13, 8) == 815730721;
    PowerSum(13, 8, 8);
    assert Power(13, 16) == 665416609183179841;
    PowerSum(13, 16, 8);
    assert Power(13, 24) == 542800770374370512771595361;
    PowerSum(13, 24, 4);
    assert Power(13, 28) == 15502932802662396215269535105521;
    PowerSum(13, 28, 1);
    assert Power(13, 29) == 201538126434611150798503956371773;
  }

  lemma PowerOf21()
    ensures Power(21, 29) == 220983347100817338120002444455525554981
  {
    hide Power;
    PowerOne(21);
    PowerSum(21, 1, 1);
    assert Power(21, 2) == 441;
    PowerSum(21, 2, 2);
    assert Power(21, 4) == 194481;
    PowerSum(21, 4, 4);
    assert Power(21, 8) == 37822859361;
    PowerSum(21, 8, 8);
    assert Power(21, 16) == 1430568690241985328321;
    PowerSum(21, 16, 8);
    assert Power(21, 24) == 54108198377272584130510593262881;
    PowerSum(21, 24, 4);
    assert Power(21, 28) == 10523016528610349434285830688358359761;
    PowerSum(21, 28, 1);
    assert Power(21, 29) == 220983347100817338120002444455525554981;
  }

  lemma GrowthFactor()
    ensures Power(2, 20) * Power(13, 29) <= Power(21, 29)
  {
    hide Power;
    PowerOf2();
    PowerOf13();
    PowerOf21();
  }

  /** A balanced tree with n levels has height at most 1.45 * log2(n + 1). */
  lemma HeightIsLogarithmic(t: Tree)
    requires Balanced(t)
    ensures Power(2, 20 * Height(t)) <= Power(Size(t) + 1, 29)
  {
    hide Power, Fib, Height, Size, Balanced;
    var h, n := Height(t), Size(t);
    HeightBound(t);
    FibGrows(h);
    ProductMonotone(Fib(h + 2), n + 1, Power(13, h), Power(13, h));
    PowerMonotone(Power(21, h), Power(13, h) * (n + 1), 29);
    PowerProduct(Power(13, h), n + 1, 29);
    PowerOfPower(21, h, 29);
    PowerOfPower(13, h, 29);
    assert Power(21, h * 29) <= Power(13, h * 29) * Power(n + 1, 29);
    FactorBound(h);
    PowerPositive(13, h * 29);
    Cancel(Power(13, h * 29), Power(2, 20 * h), Power(n + 1, 29));
  }

  lemma FactorBound(h: nat)
    ensures Power(2, 20 * h) * Power(13, h * 29) <= Power(21, h * 29)
  {
    hide Power;
    GrowthFactor();
    PowerMonotone(Power(2, 20) * Power(13, 29), Power(21, 29), h);
    PowerProduct(Power(2, 20), Power(13, 29), h);
    PowerOfPower(2, 20, h);
    PowerOfPower(13, 29, h);
    PowerOfPower(21, 29, h);
    assert 29 * h == h * 29;
  }

  lemma Cancel(c: nat, a: nat, b: nat)
    requires c > 0 && a * c <= c * b
    ensures a <= b
  {
    assert (b + 1) * c == c * b + c;
    if a > b {
      ProductMonotone(b + 1, a, c, c);
    }
  }
}
