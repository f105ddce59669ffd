/** What the world reads from outside itself: the `Math.random` stream, the
    trigonometry of `Math.cos`/`Math.sin` and `Math.sqrt`. None of them is
    modelled; they are parameters. The world counts how many random draws it
    has consumed, so the `n`-th call of `Math.random()` is `random(n)`. */
module Environment {
  import opened Numeric

  /** A draw of `Math.random()`: a real in `[0, 1)`. */
  type Unit = u: real | 0.0 <= u < 1.0

  datatype Env = Env(
    random: nat -> Unit,
    cos: real -> real,
    sin: real -> real,
    sqrt: real -> NonNegReal)

  /** `Math.PI` as a double. */
  const Pi: real := 3.141592653589793

  /** `rnd(a, b)` on the `n`-th draw: a point of `[a, b]`. */
  function Rnd(env: Env, n: nat, a: real, b: real): (r: real)
    ensures a <= b ==> a <= r <= b
  {
    var u := env.random(n);
    var d := b - a;
    var off := u * d;
    assert a <= b ==> 0.0 <= off <= d by {
      if a <= b {
        UnitScale(u, d);
      }
    }
    a + off
  }

  lemma UnitScale(u: Unit, d: real)
    requires d >= 0.0
    ensures 0.0 <= u * d <= d
  {
    assert d - u * d == (1.0 - u) * d;
  }
}
