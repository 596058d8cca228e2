/** The results effect of the calculator page (app/page.tsx): one pass, with no iteration,
    from the page state to the per-row share counts and their total. `parseFloat` is a
    parameter of the model: the page applies it to the text it stores. */
module Results {
  import opened Text
  import opened ShareMath
  import opened Rows

  /** The cap-table and round inputs as the page stores them (the text of each input box). */
  datatype InputValues = InputValues(
    foundersShares: string,
    nonFoundersShares: string,
    optionsIssued: string,
    optionsRemaining: string,
    promisedShares: string,
    futureOptionPoolSize: string,
    valuation: string,
    prePostToggle: string)

  const InitialInputValues: InputValues :=
    InputValues("5000000", "2000000", "1000000", "5000000", "0", "10", "", "pre")

  /** One share count per SAFE row and per new-round row, in row order, and their sums. */
  datatype CalculatedResults = CalculatedResults(
    safeShareCalculations: seq<real>,
    newRoundShareCalculations: seq<real>,
    totalShares: real,
    totalOwnership: real)

  const AmountChars: set<char> := DigitChars + {'.', '-'}

  /** `amount.replace(/[^0-9.-]+/g, "")`, applied to a row's amount before parsing. */
  function AmountText(amount: string): (r: string)
    ensures forall i :: 0 <= i < |r| ==> r[i] in AmountChars
  {
    KeepOnly(amount, AmountChars)
  }

  /** The baseline: founders + non-founders + issued options. */
  function TotalShares(iv: InputValues, parseFloat: string -> real): (total: real) {
    parseFloat(iv.foundersShares) + parseFloat(iv.nonFoundersShares) + parseFloat(iv.optionsIssued)
  }

  function SharePrice(iv: InputValues, parseFloat: string -> real): (price: real)
    requires TotalShares(iv, parseFloat) != 0.0
  {
    parseFloat(iv.valuation) / TotalShares(iv, parseFloat)
  }

  /** The row's numbers give a finite result (no division by zero). */
  predicate SafeRowComputable(row: SafeRow, sharePrice: real, parseFloat: string -> real) {
    parseFloat(row.discount) != 100.0 && (parseFloat(row.valuationCap) != 0.0 ==> sharePrice != 0.0)
  }

  function SafeRowShares(row: SafeRow, sharePrice: real, parseFloat: string -> real): (shares: real)
    requires SafeRowComputable(row, sharePrice, parseFloat)
  {
    CalculateSafeShares(parseFloat(AmountText(row.amount)), parseFloat(row.discount),
                        parseFloat(row.valuationCap), sharePrice, row.isPostMoney)
  }

  /** `safeRows.map(...)`: one result per row, in order, each computed from its own row. */
  function SafeShareResults(rows: seq<SafeRow>, sharePrice: real, parseFloat: string -> real): (r: seq<real>)
    requires forall i :: 0 <= i < |rows| ==> SafeRowComputable(rows[i], sharePrice, parseFloat)
    ensures |r| == |rows|
    ensures forall i :: 0 <= i < |rows| ==> r[i] == SafeRowShares(rows[i], sharePrice, parseFloat)
  {
    if rows == [] then []
    else [SafeRowShares(rows[0], sharePrice, parseFloat)] + SafeShareResults(rows[1..], sharePrice, parseFloat)
  }

  function NewRoundRowShares(row: NewRoundRow, sharePrice: real, parseFloat: string -> real): (shares: int)
    requires sharePrice != 0.0
  {
    CalculateNewRoundShares(parseFloat(AmountText(row.amount)), sharePrice)
  }

  /** `newRoundRows.map(...)`: one whole number of shares per row, in order. */
  function NewRoundShareResults(rows: seq<NewRoundRow>, sharePrice: real, parseFloat: string -> real): (r: seq<real>)
    requires rows != [] ==> sharePrice != 0.0
    ensures |r| == |rows|
    ensures forall i :: 0 <= i < |rows| ==> r[i] == NewRoundRowShares(rows[i], sharePrice, parseFloat) as real
  {
    if rows == [] then []
    else [NewRoundRowShares(rows[0], sharePrice, parseFloat) as real]
         + NewRoundShareResults(rows[1..], sharePrice, parseFloat)
  }

  /** `xs.reduce((acc, shares) => acc + shares, acc)`: a left fold. */
  function Reduce(xs: seq<real>, acc: real): (total: real)
    decreases |xs|
  {
    if xs == [] then acc else Reduce(xs[1..], acc + xs[0])
  }

  /** The sum of a list, as a reference definition for Reduce. */
  function Sum(xs: seq<real>): (s: real)
    decreases |xs|
  {
    if xs == [] then 0.0 else xs[0] + Sum(xs[1..])
  }

  lemma {:induction false} ReduceIsSum(xs: seq<real>, acc: real)
    ensures Reduce(xs, acc) == acc + Sum(xs)
    decreases |xs|
  {
    if xs != [] {
      ReduceIsSum(xs[1..], acc + xs[0]);
    }
  }

  lemma {:induction false} SumMonotone(xs: seq<real>, ys: seq<real>)
    requires |xs| == |ys|
    requires forall i :: 0 <= i < |xs| ==> xs[i] <= ys[i]
    ensures Sum(xs) <= Sum(ys)
    decreases |xs|
  {
    if xs != [] {
      SumMonotone(xs[1..], ys[1..]);
    }
  }

  /** The inputs for which JavaScript would compute finite numbers. */
  predicate Computable(iv: InputValues, safeRows: seq<SafeRow>, newRoundRows: seq<NewRoundRow>,
                       parseFloat: string -> real)
  {
    && TotalShares(iv, parseFloat) != 0.0
    && (forall i :: 0 <= i < |safeRows| ==>
          SafeRowComputable(safeRows[i], SharePrice(iv, parseFloat), parseFloat))
    && (newRoundRows != [] ==> SharePrice(iv, parseFloat) != 0.0)
  }

  /** The effect body of app/page.tsx:149-191. */
  function ComputeResults(iv: InputValues, safeRows: seq<SafeRow>, newRoundRows: seq<NewRoundRow>,
                          parseFloat: string -> real): (r: CalculatedResults)
    requires Computable(iv, safeRows, newRoundRows, parseFloat)
    ensures r.totalShares == TotalShares(iv, parseFloat)
    ensures |r.safeShareCalculations| == |safeRows|
    ensures |r.newRoundShareCalculations| == |newRoundRows|
    ensures forall i :: 0 <= i < |safeRows| ==>
      r.safeShareCalculations[i] == SafeRowShares(safeRows[i], SharePrice(iv, parseFloat), parseFloat)
    ensures forall i :: 0 <= i < |newRoundRows| ==>
      r.newRoundShareCalculations[i] == NewRoundRowShares(newRoundRows[i], SharePrice(iv, parseFloat), parseFloat) as real
    ensures r.totalOwnership == Sum(r.safeShareCalculations) + Sum(r.newRoundShareCalculations)
  {
    var totalShares := TotalShares(iv, parseFloat);
    var sharePrice := SharePrice(iv, parseFloat);
    var safeShareResults := SafeShareResults(safeRows, sharePrice, parseFloat);
    var newRoundShareResults := NewRoundShareResults(newRoundRows, sharePrice, parseFloat);
    var totalOwnership := Reduce(safeShareResults, 0.0) + Reduce(newRoundShareResults, 0.0);
    ReduceIsSum(safeShareResults, 0.0);
    ReduceIsSum(newRoundShareResults, 0.0);
    CalculatedResults(safeShareResults, newRoundShareResults, totalShares, totalOwnership)
  }

  /** Remaining options, promised shares, the future pool and the pre/post toggle never
      influence the results. */
  lemma ResultsIgnoreUnusedInputs(iv1: InputValues, iv2: InputValues, safeRows: seq<SafeRow>,
                                  newRoundRows: seq<NewRoundRow>, parseFloat: string -> real)
    requires iv1.foundersShares == iv2.foundersShares
    requires iv1.nonFoundersShares == iv2.nonFoundersShares
    requires iv1.optionsIssued == iv2.optionsIssued
    requires iv1.valuation == iv2.valuation
    requires Computable(iv1, safeRows, newRoundRows, parseFloat)
    ensures Computable(iv2, safeRows, newRoundRows, parseFloat)
    ensures ComputeResults(iv1, safeRows, newRoundRows, parseFloat)
         == ComputeResults(iv2, safeRows, newRoundRows, parseFloat)
  {
  }

  /** Raising the amount of one SAFE row (discount below 100, positive share price) never
      lowers that row's shares nor the total. */
  lemma TotalOwnershipMonotone(iv: InputValues, safeRows: seq<SafeRow>, newRoundRows: seq<NewRoundRow>,
                               parseFloat: string -> real, k: nat, amount: string)
    requires Computable(iv, safeRows, newRoundRows, parseFloat)
    requires k < |safeRows| && SharePrice(iv, parseFloat) > 0.0
    requires 0.0 <= parseFloat(safeRows[k].discount) < 100.0
    requires parseFloat(AmountText(safeRows[k].amount)) <= parseFloat(AmountText(amount))
    ensures Computable(iv, safeRows[k := safeRows[k].(amount := amount)], newRoundRows, parseFloat)
    ensures var before := ComputeResults(iv, safeRows, newRoundRows, parseFloat);
      var after := ComputeResults(iv, safeRows[k := safeRows[k].(amount := amount)], newRoundRows, parseFloat);
      && before.safeShareCalculations[k] <= after.safeShareCalculations[k]
      && before.totalOwnership <= after.totalOwnership
  {
    var rows' := safeRows[k := safeRows[k].(amount := amount)];
    var price := SharePrice(iv, parseFloat);
    assert forall i :: 0 <= i < |rows'| ==> SafeRowComputable(rows'[i], price, parseFloat) by {
      forall i | 0 <= i < |rows'| ensures SafeRowComputable(rows'[i], price, parseFloat) {
        assert SafeRowComputable(safeRows[i], price, parseFloat);
      }
    }
    var before := ComputeResults(iv, safeRows, newRoundRows, parseFloat);
    var after := ComputeResults(iv, rows', newRoundRows, parseFloat);
    var row := safeRows[k];
    SafeSharesMonotone(parseFloat(AmountText(row.amount)), parseFloat(AmountText(amount)),
                       parseFloat(row.discount), parseFloat(row.valuationCap), price, row.isPostMoney);
    SumMonotone(before.safeShareCalculations, after.safeShareCalculations);
  }

  /** The page's default cap table and its one SAFE row, with a 10,000,000 valuation and one
      1,000,000 investor. The SAFE row holds what the page stores: an amount typed as 0 and kept
      with the `"$"` of its display, a discount of 10 and the cap left blank, which the parse
      reads as 0 (no cap). The baseline leaves out the 5,000,000 remaining options, so the price
      is 1.25. */
  lemma DefaultCapTableExample(parseFloat: string -> real)
    requires parseFloat("5000000") == 5000000.0
    requires parseFloat("2000000") == 2000000.0
    requires parseFloat("1000000") == 1000000.0
    requires parseFloat("10000000") == 10000000.0
    requires parseFloat("0") == 0.0
    requires parseFloat("10") == 10.0
    requires parseFloat("") == 0.0
    ensures var iv := InitialInputValues.(valuation := "10000000");
      var safeRows := [BlankSafeRow.(amount := "$0", discount := "10")];
      var rows := [BlankNewRoundRow.(amount := "1000000")];
      && Computable(iv, safeRows, rows, parseFloat)
      && ComputeResults(iv, safeRows, rows, parseFloat)
         == CalculatedResults([0.0], [800000.0], 8000000.0, 800000.0)
  {
    var iv := InitialInputValues.(valuation := "10000000");
    var safeRows := [BlankSafeRow.(amount := "$0", discount := "10")];
    var rows := [BlankNewRoundRow.(amount := "1000000")];
    assert TotalShares(iv, parseFloat) == 8000000.0;
    assert SharePrice(iv, parseFloat) == 1.25;
    assert AmountText("1000000") == "1000000" by {
      KeepOnlyFixed("1000000", AmountChars);
    }
    assert AmountText("$0") == "0" by {
      assert "$0"[0] !in AmountChars;
      assert "$0"[1..] == "0";
      KeepOnlyFixed("0", AmountChars);
    }
    assert SafeRowShares(safeRows[0], 1.25, parseFloat) == 0.0;
    assert (1000000.0 / 1.25).Floor == 800000;
    var r := ComputeResults(iv, safeRows, rows, parseFloat);
    assert r.safeShareCalculations == [0.0];
    assert r.newRoundShareCalculations == [800000.0];
  }
}
