/** The calculation effect of app/index.js: on every change of the form it recomputes the
    valuation summary, but only once the four required inputs are filled in; otherwise the
    last summary (initially none) stays. JavaScript's `Number(...)` and the arithmetic
    coercions of the form text are a parameter `num` of the model. */
module Valuation {

  datatype Option<T> = None | Some(value: T)

  /** The form state: the text of every field (`discountRate` starts as the number 100). */
  datatype FormState = FormState(
    investorName: string,
    investmentAmount: string,
    valuationCap: string,
    prePost: string,
    discountRate: string,
    foundersShares: string,
    nonFounderShares: string,
    optionsIssued: string,
    optionsRemaining: string,
    promisedShares: string,
    futureOptionPool: string,
    newInvestorName: string,
    newInvestmentAmount: string,
    newValuation: string,
    newPrePost: string)

  const InitialState: FormState :=
    FormState("", "", "", "pre", "100", "", "", "", "", "", "", "", "", "", "pre")

  datatype CalculatedData = CalculatedData(
    preMoneyValuation: real,
    postMoneyValuation: real,
    fullyDilutedBefore: real,
    fullyDilutedAfterConversion: real,
    safeSharePrice: real)

  /** The effect computes only when these four fields are non-empty (truthy) strings. */
  predicate Guard(s: FormState) {
    s.investorName != "" && s.investmentAmount != "" && s.valuationCap != "" && s.foundersShares != ""
  }

  function FullyDilutedBefore(s: FormState, num: string -> real): (total: real) {
    num(s.foundersShares) + num(s.nonFounderShares) + num(s.optionsIssued) + num(s.optionsRemaining)
  }

  /** The summary for one form state. The pre/post choice is the SAFE's `prePost`, compared
      with `"post"` for the pre-money value and with `"pre"` for the post-money value. */
  function Calculate(s: FormState, num: string -> real): (d: CalculatedData)
    requires FullyDilutedBefore(s, num) != 0.0
    ensures d.fullyDilutedBefore
         == num(s.foundersShares) + num(s.nonFounderShares) + num(s.optionsIssued) + num(s.optionsRemaining)
    ensures d.fullyDilutedAfterConversion == d.fullyDilutedBefore + num(s.investmentAmount)
    ensures num(s.investmentAmount) >= 0.0 ==> d.fullyDilutedAfterConversion >= d.fullyDilutedBefore
    ensures d.safeSharePrice * d.fullyDilutedBefore == num(s.valuationCap)
    ensures s.prePost == "pre" ==>
      d.preMoneyValuation == num(s.newValuation)
      && d.postMoneyValuation == num(s.newValuation) + num(s.newInvestmentAmount)
    ensures s.prePost == "post" ==>
      d.postMoneyValuation == num(s.newValuation)
      && d.preMoneyValuation == num(s.newValuation) - num(s.newInvestmentAmount)
    ensures (s.prePost == "pre" || s.prePost == "post") ==>
      d.postMoneyValuation - d.preMoneyValuation == num(s.newInvestmentAmount)
    ensures s.prePost != "pre" && s.prePost != "post" ==>
      d.preMoneyValuation == d.postMoneyValuation == num(s.newValuation)
  {
    var newValuation := num(s.newValuation);
    var newInvestmentAmount := num(s.newInvestmentAmount);
    var preMoneyValuation :=
      if s.prePost == "post" then newValuation - newInvestmentAmount else newValuation;
    var postMoneyValuation :=
      if s.prePost == "pre" then newValuation + newInvestmentAmount else newValuation;
    var fullyDilutedBefore := FullyDilutedBefore(s, num);
    var fullyDilutedAfterConversion := fullyDilutedBefore + num(s.investmentAmount);
    var safeSharePrice := num(s.valuationCap) / fullyDilutedBefore;
    CalculatedData(preMoneyValuation, postMoneyValuation, fullyDilutedBefore,
                   fullyDilutedAfterConversion, safeSharePrice)
  }

  /** When the guard holds, the summary needs no division by zero. */
  predicate Defined(s: FormState, num: string -> real) {
    Guard(s) ==> FullyDilutedBefore(s, num) != 0.0
  }

  /** One run of the effect: a new summary when the guard holds, the previous one otherwise. */
  function Step(prior: Option<CalculatedData>, s: FormState, num: string -> real): (r: Option<CalculatedData>)
    requires Defined(s, num)
    ensures !Guard(s) ==> r == prior
    ensures Guard(s) ==> r.Some? && r.value.safeSharePrice * r.value.fullyDilutedBefore == num(s.valuationCap)
  {
    if Guard(s) then Some(Calculate(s, num)) else prior
  }

  /** The new round's own pre/post select, the promised shares, the future pool, the discount
      rate and the new investor's name change nothing. */
  lemma StepIgnoresUnusedFields(prior: Option<CalculatedData>, s: FormState, num: string -> real,
                                newPrePost: string, promisedShares: string, futureOptionPool: string,
                                discountRate: string, newInvestorName: string)
    requires Defined(s, num)
    ensures var t := s.(newPrePost := newPrePost, promisedShares := promisedShares,
                        futureOptionPool := futureOptionPool, discountRate := discountRate,
                        newInvestorName := newInvestorName);
      Defined(t, num) && Step(prior, t, num) == Step(prior, s, num)
  {
  }

  /** The effect run once per form state in turn, starting from `prior`. */
  function Replay(prior: Option<CalculatedData>, states: seq<FormState>, num: string -> real): (r: Option<CalculatedData>)
    requires forall i :: 0 <= i < |states| ==> Defined(states[i], num)
    decreases |states|
  {
    if states == [] then prior else Replay(Step(prior, states[0], num), states[1..], num)
  }

  /** The index of the last state in which the guard held, or -1. */
  function LastGuarded(states: seq<FormState>): (k: int)
    ensures -1 <= k < |states|
    ensures k >= 0 ==> Guard(states[k])
    ensures forall j :: k < j < |states| ==> !Guard(states[j])
    decreases |states|
  {
    if states == [] then -1
    else if Guard(states[|states| - 1]) then |states| - 1
    else LastGuarded(states[..|states| - 1])
  }

  lemma {:induction false} ReplayAppend(prior: Option<CalculatedData>, states: seq<FormState>,
                                        s: FormState, num: string -> real)
    requires forall i :: 0 <= i < |states| ==> Defined(states[i], num)
    requires Defined(s, num)
    ensures forall i :: 0 <= i < |states + [s]| ==> Defined((states + [s])[i], num)
    ensures Replay(prior, states + [s], num) == Step(Replay(prior, states, num), s, num)
    decreases |states|
  {
    assert forall i :: 0 <= i < |states + [s]| ==> Defined((states + [s])[i], num) by {
      forall i | 0 <= i < |states + [s]| ensures Defined((states + [s])[i], num) {
        if i < |states| {
          assert (states + [s])[i] == states[i];
        }
      }
    }
    if states != [] {
      assert (states + [s])[1..] == states[1..] + [s];
      ReplayAppend(Step(prior, states[0], num), states[1..], s, num);
    }
  }

  /** What the page shows after any sequence of edits: the summary of the most recent state
      whose four required fields were all filled, or the prior value (initially null) when
      there was none. */
  lemma {:induction false} ReplaySpec(prior: Option<CalculatedData>, states: seq<FormState>, num: string -> real)
    requires forall i :: 0 <= i < |states| ==> Defined(states[i], num)
    ensures var k := LastGuarded(states);
      Replay(prior, states, num) == if k < 0 then prior else Some(Calculate(states[k], num))
    decreases |states|
  {
    if states != [] {
      var front := states[..|states| - 1];
      var last := states[|states| - 1];
      assert states == front + [last];
      ReplaySpec(prior, front, num);
      ReplayAppend(prior, front, last, num);
    }
  }

  /** The form as the page first renders it fails the guard, so the effect leaves the
      initial null (or any earlier summary) in place. */
  lemma InitialStateKeepsSummary(prior: Option<CalculatedData>, num: string -> real)
    ensures !Guard(InitialState)
    ensures Defined(InitialState, num) && Step(prior, InitialState, num) == prior
  {
  }

  /** Starting from the initial null, the page shows a summary exactly when some state so far
      satisfied the guard. */
  lemma ReplayFromNothing(states: seq<FormState>, num: string -> real)
    requires forall i :: 0 <= i < |states| ==> Defined(states[i], num)
    ensures Replay(None, states, num).Some? <==> exists i :: 0 <= i < |states| && Guard(states[i])
  {
    ReplaySpec(None, states, num);
  }
}
