/** The price rule shared by every discount entry point:
    `parseFloat((preco * (1 - percentual / 100)).toFixed(2))`, on prices held
    as integer cents and integer percentages. */
module Desconto {

  const PercentualInvalido := "Percentual de desconto inválido"

  /** The guard every discount entry point applies to its percentage. */
  predicate PercentualValido(percentual: int)
    ensures PercentualValido(percentual) <==> 0 <= NovoPreco(100, percentual) <= 100
  {
    0 <= percentual <= 100
  }

  /** `x / 100` rounded to the nearest integer, halves away from zero, as
      `toFixed` rounds a value it holds exactly. */
  function RoundHundredths(x: int): (r: int)
    ensures x >= 0 ==> 100 * r - 50 <= x < 100 * r + 50
    ensures x < 0 ==> 100 * r - 50 < x <= 100 * r + 50
  {
    if x >= 0 then (x + 50) / 100 else -((-x + 50) / 100)
  }

  /** The discounted price, in cents: `preco` cents less `percentual` percent,
      rounded to the nearest whole cent, halves away from zero. */
  function NovoPreco(preco: int, percentual: int): (r: int)
    ensures preco * (100 - percentual) >= 0 ==>
              100 * r - 50 <= preco * (100 - percentual) < 100 * r + 50
    ensures preco * (100 - percentual) < 0 ==>
              100 * r - 50 < preco * (100 - percentual) <= 100 * r + 50
  {
    RoundHundredths(preco * (100 - percentual))
  }

  /** A valid discount of a non-negative price never raises it and never
      makes it negative. */
  lemma NovoPrecoLimites(preco: int, percentual: int)
    requires preco >= 0 && PercentualValido(percentual)
    ensures 0 <= NovoPreco(preco, percentual) <= preco
  {
    var x := preco * (100 - percentual);
    assert 0 <= x <= 100 * preco by {
      assert x == 100 * preco - preco * percentual;
      assert preco * percentual >= 0;
    }
  }

  /** A 0% discount leaves every price as it is. */
  lemma NovoPrecoZero(preco: int)
    ensures NovoPreco(preco, 0) == preco
  {
  }

  /** A 100% discount makes every price zero. */
  lemma NovoPrecoTotal(preco: int)
    ensures NovoPreco(preco, 100) == 0
  {
  }

  /** A larger percentage never gives a higher price. */
  lemma NovoPrecoMonotone(preco: int, p: int, q: int)
    requires preco >= 0 && p <= q
    ensures NovoPreco(preco, q) <= NovoPreco(preco, p)
  {
    assert preco * (100 - q) <= preco * (100 - p) by {
      assert preco * (100 - p) - preco * (100 - q) == preco * (q - p);
      assert preco * (q - p) >= 0;
    }
  }

  /** Discounts compound: applying 20% twice to 10.00 gives 8.00 and then
      6.40, so a repeated discount is not idempotent. */
  lemma NovoPrecoCompoe()
    ensures NovoPreco(1000, 20) == 800
    ensures NovoPreco(NovoPreco(1000, 20), 20) == 640
  {
  }
}
