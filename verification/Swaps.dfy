// Constant-product swaps (amm-math lib.rs).

module Swaps {
  import opened Common
  import opened SquareRoots

  /** `compute_output_amount` */
  function ComputeOutput(input: nat, reserveIn: nat, reserveOut: nat): Option<nat> {
    if input == 0 || reserveIn == 0 || reserveOut == 0 then Some(0)
    else
      var numerator := CheckedMul(reserveOut, input);
      var denominator := CheckedAdd(reserveIn, input);
      if numerator.None? || denominator.None? then None
      else CheckedDiv(numerator.value, denominator.value)
  }

  /** `compute_input_amount` */
  function ComputeInput(output: nat, reserveIn: nat, reserveOut: nat): Option<nat> {
    if output == 0 || reserveIn == 0 || reserveOut == 0 then Some(0)
    else if output >= reserveOut then None
    else
      var numerator := CheckedMul(reserveIn, output);
      if numerator.None? then None else CheckedDiv(numerator.value, reserveOut - output)
  }

  /** The output as an exact floor, degenerate reserves included. */
  lemma OutputBounds(input: nat, reserveIn: nat, reserveOut: nat)
    requires ComputeOutput(input, reserveIn, reserveOut).Some? && reserveIn > 0
    ensures var out := ComputeOutput(input, reserveIn, reserveOut).value;
            && out <= reserveOut && (reserveOut > 0 ==> out < reserveOut)
            && out * (reserveIn + input) <= reserveOut * input < (out + 1) * (reserveIn + input)
  {
    var out, total := ComputeOutput(input, reserveIn, reserveOut).value, reserveIn + input;
    if input > 0 && reserveOut > 0 {
      Divided(reserveOut * input, total);
      OutputBelow(out, reserveIn, input, reserveOut);
    }
    assert (out + 1) * total == out * total + total;
  }

  lemma OutputBelow(out: nat, reserveIn: nat, input: nat, reserveOut: nat)
    requires reserveIn > 0 && reserveOut > 0 && out * (reserveIn + input) <= reserveOut * input
    ensures out < reserveOut
  {
    ScaleLe(reserveIn + input, reserveOut, out);
    assert reserveOut * (reserveIn + input) == reserveOut * reserveIn + reserveOut * input;
    assert reserveOut * reserveIn > 0;
  }

  // --- Sequences of swaps ---------------------------------------------------------------------------

  datatype Pool = Pool(x: nat, y: nat)

  datatype Trade = SellX(amount: nat) | SellY(amount: nat)

  /** The reserves after a trade paying `ComputeOutput`; a trade that overflows does not happen. */
  function AfterTrade(p: Pool, t: Trade): Pool {
    match t
    case SellX(a) =>
      var out := ComputeOutput(a, p.x, p.y);
      if out.None? then p else
        ProductKept(a, p.x, p.y);
        Pool(p.x + a, p.y - out.value)
    case SellY(a) =>
      var out := ComputeOutput(a, p.y, p.x);
      if out.None? then p else
        ProductKept(a, p.y, p.x);
        Pool(p.x - out.value, p.y + a)
  }

  lemma ProductKept(input: nat, reserveIn: nat, reserveOut: nat)
    requires ComputeOutput(input, reserveIn, reserveOut).Some?
    ensures var out := ComputeOutput(input, reserveIn, reserveOut).value;
            out <= reserveOut && (reserveIn + input) * (reserveOut - out) >= reserveIn * reserveOut
  {
    var out := ComputeOutput(input, reserveIn, reserveOut).value;
    if reserveIn > 0 {
      OutputBounds(input, reserveIn, reserveOut);
      var total := reserveIn + input;
      assert total * (reserveOut - out) == reserveIn * reserveOut + reserveOut * input - out * total;
    }
  }

  lemma TradeKeepsProduct(p: Pool, t: Trade)
    ensures AfterTrade(p, t).x * AfterTrade(p, t).y >= p.x * p.y
  {
    match t
    case SellX(a) => if ComputeOutput(a, p.x, p.y).Some? { ProductKept(a, p.x, p.y); }
    case SellY(a) => if ComputeOutput(a, p.y, p.x).Some? { ProductKept(a, p.y, p.x); }
  }

  function Run(p: Pool, trades: seq<Trade>): Pool
    decreases |trades|
  {
    if trades == [] then p else Run(AfterTrade(p, trades[0]), trades[1..])
  }

  /** The reserve product never decreases, whatever is traded in whichever direction. */
  lemma {:induction false} ProductNeverDecreases(p: Pool, trades: seq<Trade>)
    ensures Run(p, trades).x * Run(p, trades).y >= p.x * p.y
    decreases |trades|
  {
    if trades != [] {
      TradeKeepsProduct(p, trades[0]);
      hide AfterTrade;
      ProductNeverDecreases(AfterTrade(p, trades[0]), trades[1..]);
    }
  }

  // --- Splitting a swap -------------------------------------------------------------------------------

  function Sum(inputs: seq<nat>): nat {
    if inputs == [] then 0 else inputs[0] + Sum(inputs[1..])
  }

  /** What the inputs yield when swapped one after the other. */
  function SplitOutput(inputs: seq<nat>, x: nat, y: nat): Option<nat> {
    if inputs == [] then Some(0)
    else
      var first := ComputeOutput(inputs[0], x, y);
      if first.None? || first.value > y then None
      else
        var rest := SplitOutput(inputs[1..], x + inputs[0], y - first.value);
        if rest.None? then None else Some(first.value + rest.value)
  }

  lemma TwoSwaps(a: nat, b: nat, x: nat, y: nat, o1: nat, o2: nat, o: nat)
    requires o1 <= y && o1 * (x + a) <= y * a && o2 * (x + a + b) <= (y - o1) * b
    requires y * (a + b) < (o + 1) * (x + a + b)
    ensures o1 + o2 <= o
  {
    var total := x + a + b;
    TwoSwapsTotal(a, b, x + a, y, o1, o2);
    if o < o1 + o2 {
      ScaleLe(total, o + 1, o1 + o2);
    }
  }

  lemma TwoSwapsTotal(a: nat, b: nat, x: nat, y: nat, o1: nat, o2: nat)
    requires o1 * x <= y * a && o2 * (x + b) <= (y - o1) * b
    ensures (o1 + o2) * (x + b) <= y * (a + b)
  {
    calc {
      (o1 + o2) * (x + b);
      o1 * x + o1 * b + o2 * (x + b);
    <=
      y * a + o1 * b + (y - o1) * b;
      y * (a + b);
    }
  }

  lemma WholeCoversRest(a: nat, b: nat, x: nat, y: nat)
    requires x > 0 && ComputeOutput(a + b, x, y).Some? && ComputeOutput(a, x, y).Some?
    ensures ComputeOutput(a, x, y).value <= y && ComputeOutput(b, x + a, y - ComputeOutput(a, x, y).value).Some?
  {
    OutputBounds(a, x, y);
    var left := y - ComputeOutput(a, x, y).value;
    if b > 0 && y > 0 {
      ScaleLe(b, left, y);
      assert y * (a + b) == y * a + y * b && y * a >= 0;
    }
  }

  /** On a pool with input reserves no way of splitting an input yields more than swapping it at once. */
  lemma {:induction false} SplittingNeverYieldsMore(inputs: seq<nat>, x: nat, y: nat)
    requires x > 0 && SplitOutput(inputs, x, y).Some? && ComputeOutput(Sum(inputs), x, y).Some?
    ensures SplitOutput(inputs, x, y).value <= ComputeOutput(Sum(inputs), x, y).value
  {
    if inputs != [] {
      var a, b := inputs[0], Sum(inputs[1..]);
      var o1 := ComputeOutput(a, x, y).value;
      WholeCoversRest(a, b, x, y);
      SplittingNeverYieldsMore(inputs[1..], x + a, y - o1);
      OutputBounds(a, x, y);
      OutputBounds(b, x + a, y - o1);
      OutputBounds(a + b, x, y);
      var o2 := ComputeOutput(b, x + a, y - o1).value;
      TwoSwaps(a, b, x, y, o1, o2, ComputeOutput(a + b, x, y).value);
    }
  }

  /** Splitting is never rewarded exactly when there are input reserves, or next to nothing to pay out. */
  lemma SplittingRewardedWithoutReserves(x: nat, y: nat)
    requires x <= U128_MAX && y <= U128_MAX
    ensures (x > 0 || y <= 1) <==>
            (forall inputs: seq<nat> ::
               SplitOutput(inputs, x, y).Some? && ComputeOutput(Sum(inputs), x, y).Some? ==>
                 SplitOutput(inputs, x, y).value <= ComputeOutput(Sum(inputs), x, y).value)
  {
    if x > 0 {
      forall inputs: seq<nat> | SplitOutput(inputs, x, y).Some? && ComputeOutput(Sum(inputs), x, y).Some?
        ensures SplitOutput(inputs, x, y).value <= ComputeOutput(Sum(inputs), x, y).value
      {
        SplittingNeverYieldsMore(inputs, x, y);
      }
    } else if y <= 1 {
      forall inputs: seq<nat> | SplitOutput(inputs, x, y).Some?
        ensures SplitOutput(inputs, x, y).value == 0
      {
        NothingToPay(inputs, x, y);
      }
    } else {
      EmptyReservesRewardSplitting(y);
    }
  }

  lemma {:induction false} NothingToPay(inputs: seq<nat>, x: nat, y: nat)
    requires y <= 1 && SplitOutput(inputs, x, y).Some?
    ensures SplitOutput(inputs, x, y).value == 0
  {
    if inputs != [] {
      if x > 0 {
        OutputBounds(inputs[0], x, y);
      }
      NothingToPay(inputs[1..], x + inputs[0], y);
    }
  }

  /**
    * Swapping one unit twice against empty input reserves pays half the output reserves; swapping two at once pays
    * nothing.
    */
  lemma EmptyReservesRewardSplitting(y: nat)
    requires 2 <= y <= U128_MAX
    ensures Sum([1, 1]) == 2 && ComputeOutput(2, 0, y) == Some(0)
    ensures SplitOutput([1, 1], 0, y) == Some(y / 2) && y / 2 > 0
  {
    assert [1, 1][1..] == [1] && [1][1..] == [];
    assert ComputeOutput(1, 0, y) == Some(0);
    assert ComputeOutput(1, 1, y) == Some(y / 2);
    assert SplitOutput([1], 1, y) == Some(y / 2);
  }

  /** A quote exists exactly when its products and sums fit, and what is wanted is less than the reserves. */
  lemma QuotesExist(amount: nat, x: nat, y: nat)
    ensures ComputeOutput(amount, x, y).Some? <==>
              amount == 0 || x == 0 || y == 0 || (y * amount <= U128_MAX && x + amount <= U128_MAX)
    ensures ComputeInput(amount, x, y).Some? <==>
              amount == 0 || x == 0 || y == 0 || (amount < y && x * amount <= U128_MAX)
  {
  }

  // --- Inverses ---------------------------------------------------------------------------------------

  /** With reserves on both sides the quoted input buys at most the wanted output, one unit more buys at least it. */
  lemma QuotesBracketWithReserves(output: nat, x: nat, y: nat)
    requires x > 0 && y > 0 && ComputeInput(output, x, y).Some?
    requires var input := ComputeInput(output, x, y).value;
             ComputeOutput(input, x, y).Some? && ComputeOutput(input + 1, x, y).Some?
    ensures var input := ComputeInput(output, x, y).value;
            ComputeOutput(input, x, y).value <= output <= ComputeOutput(input + 1, x, y).value
  {
    var input := ComputeInput(output, x, y).value;
    OutputBounds(input, x, y);
    OutputBounds(input + 1, x, y);
    if output > 0 {
      Divided(x * output, y - output);
      BelowQuote(input, output, x, y, ComputeOutput(input, x, y).value);
      AboveQuote(input + 1, output, x, y, ComputeOutput(input + 1, x, y).value);
    }
  }

  /** The quote brackets the wanted output exactly when there are reserves on both sides or nothing is wanted. */
  lemma QuotesBracket(output: nat, x: nat, y: nat)
    requires ComputeInput(output, x, y).Some?
    requires var input := ComputeInput(output, x, y).value;
             ComputeOutput(input, x, y).Some? && ComputeOutput(input + 1, x, y).Some?
    ensures var input := ComputeInput(output, x, y).value;
            var brackets := ComputeOutput(input, x, y).value <= output <= ComputeOutput(input + 1, x, y).value;
            brackets <==> (x > 0 && y > 0) || output == 0
  {
    if x > 0 && y > 0 {
      QuotesBracketWithReserves(output, x, y);
    }
  }

  /** Without reserves any output is quoted at nothing, and nothing is what it buys. */
  lemma EmptyReservesQuoteNothing()
    ensures ComputeInput(5, 0, 7) == Some(0) && ComputeOutput(1, 0, 7) == Some(0)
    ensures ComputeInput(5, 7, 0) == Some(0) && ComputeOutput(1, 7, 0) == Some(0)
  {
  }

  lemma BelowQuote(input: nat, output: nat, x: nat, y: nat, out: nat)
    requires output < y && (y - output) * input <= x * output && x > 0
    requires out * (x + input) <= y * input
    ensures out <= output
  {
    assert (y - output) * input == y * input - output * input;
    assert output * (x + input) == x * output + output * input;
    ScaleLe(x + input, output + 1, out);
    assert (x + input) * (output + 1) == output * (x + input) + x + input;
  }

  lemma AboveQuote(input: nat, output: nat, x: nat, y: nat, out: nat)
    requires output < y && (y - output) * input > x * output
    requires y * input < (out + 1) * (x + input)
    ensures out >= output
  {
    assert (y - output) * input == y * input - output * input;
    assert output * (x + input) == x * output + output * input;
    ScaleLe(x + input, out + 1, output);
  }
}
