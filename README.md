# SAFE conversion calculator — Dafny model

A model of the calculation core of a small SAFE (Simple Agreement for Future Equity) and
dilution calculator written as two React pages:

- `app/page.tsx`, the main calculator: three input formatters that run on every keystroke
  (share counts with commas, a percentage, dollar amounts), the share arithmetic helpers
  (SAFE shares, new-round shares, ownership), the results effect that turns the page state
  into one share count per SAFE row and per new-round row, and the handlers that add, remove and
  edit those rows.
- `app/index.js`, a second page whose effect derives pre- and post-money valuation, the
  fully-diluted share count before and after the investment and a SAFE share price, once four
  required fields are filled in.

Modules (one `.dfy` file each):

| module | file | models |
|---|---|---|
| `Text` | `text.dfy` | character filters (`replace(/[^…]/g, "")`), decimal value of a digit string, `parseInt` canonical digits, en-US comma grouping and its characterisation |
| `Formatters` | `formatters.dfy` | `formatNumberWithCommas`, `validateAndFormatPercentage`, `formatWithDollarSign`, `split(".")` |
| `ShareMath` | `shares.dfy` | `calculateSafeShares`, `calculateNewRoundShares`, `calculateOwnership` |
| `Rows` | `rows.dfy` | the row records, field updates, the `filter` used by remove, and class `Page` holding `safeRows` / `newRoundRows` with the six handlers |
| `Results` | `results.dfy` | the results effect of `app/page.tsx` as a function of the page state |
| `Valuation` | `valuation.dfy` | the calculation effect of `app/index.js` as a step from the previous summary to the next |

JavaScript numbers are Dafny `real`s. The text-to-number conversions the pages apply to their
state (`parseFloat`, `Number`, and the coercion done by `-` and `/`) are a parameter
`string -> real` of the functions that use them. Each effect body is a function from the
current state; React's scheduling is not modelled. `Valuation.Replay` runs the effect once per
state in a sequence of states, which is how the page's `calculatedData` comes to hold its value.

The code computes a single pass. It has no iterated share price, no treatment of post-money
SAFEs and no use of promised shares or of the future option pool. Two consequences:

- The page's baseline is founders + non-founders + issued options. The remaining options are
  left out (`Results.DefaultCapTableExample`: a price of 1.25, not 10,000,000 / 13,000,000).
- The SAFE discount is used as `amount / (1 − discount / 100)`. It is a discount, where 0 means
  none; it is not the share of the price paid. Off the cap, the share price is not used.

## Model

| member | source | states |
|---|---|---|
| `Text.GroupIsGrouped` | app/page.tsx:14 | grouping a digit string gives a well-formed grouped string (a comma exactly every fourth place from the right, never first) whose comma-free text is the digits |
| `Text.GroupedIsGroupOfDigits` | app/page.tsx:55 | every well-formed grouped string is the grouping of its own digits, so the comma positions are determined by the digits |
| `Text.CanonicalProperties` | app/page.tsx:14 | the digits `parseInt(…).toString()` prints denote the same number as the typed digits, and printing them again changes nothing |
| `Formatters.FormatNumberWithCommas` | app/page.tsx:6-18 | text without a digit comes back unchanged; otherwise the result is well-formed grouped text whose digits are the input's digits with leading zeros dropped (`"0"` for all zeros) |
| `Formatters.FormatNumberWithCommasValue` | app/page.tsx:8-14 | the displayed number has the value of the digits that were typed |
| `Formatters.FormatNumberWithCommasIdempotent` | app/page.tsx:6-18 | formatting the displayed text again gives the same text, so the input box written back on each keystroke reaches a fixed point |
| `Formatters.ValidateAndFormatPercentage` | app/page.tsx:21-40 | a digit string of one or two characters: `"1"` without digits, else the first two digits; its value is at most 99, so the clamp to `"100"` is never taken |
| `Formatters.ValidateAndFormatPercentageIdempotent` | app/page.tsx:21-40 | formatting the result again gives the result |
| `Formatters.JoinSplit` | app/page.tsx:52 | joining the segments of `split(".")` with dots gives back the text |
| `Formatters.SplitJoin` | app/page.tsx:52 | splitting the dot-join of dot-free segments gives back the segments |
| `Formatters.FormatWithDollarSign` | app/page.tsx:43-59 | the display always starts with `"$"` |
| `Formatters.FormatWithDollarSignEmpty` | app/page.tsx:44-49 | the display is exactly `"$"` iff the digits-and-dots text does not start with a digit or with a dot and a digit |
| `Formatters.FormatWithDollarSignShape` | app/page.tsx:52-58 | for text that parses, the display is `"$"`, the segment before the first dot grouped with commas only where grouping puts them and its digits, leading zeros included, unchanged, then `"."` and the second segment only when that is non-empty; later segments are dropped |
| `Formatters.FormatWithDollarSignPrefix` | app/page.tsx:43-59 | deleting `"$"` and `","` from the display leaves a prefix of the digits-and-dots text |
| `Formatters.FormatWithDollarSignIdempotent` | app/page.tsx:43-59 | formatting the display again gives the same display |
| `ShareMath.CalculateSafeShares` | app/page.tsx:62-78 | without a cap the result is exactly `amount / (1 − discount/100)`; with a non-zero cap it is the smaller of that and `cap / sharePrice`, so at most both |
| `ShareMath.SafeSharesIgnorePostMoney` | app/page.tsx:62-67 | the `isPostMoney` flag never changes the result |
| `ShareMath.DiscountedAmountMonotone` | app/page.tsx:69 | for a discount below 100 the discounted amount does not decrease as the amount grows |
| `ShareMath.SafeSharesMonotone` | app/page.tsx:69-74 | for 0 ≤ discount < 100 and a positive price, SAFE shares never decrease as the amount grows, capped or not |
| `ShareMath.SafeSharesNoDiscountNoCap` | app/page.tsx:69-77 | with no discount and no cap the note converts into exactly its amount |
| `ShareMath.CalculateNewRoundShares` | app/page.tsx:81-83 | for a positive price, `n · price ≤ amount < (n + 1) · price`, and `n ≥ 0` for a non-negative amount |
| `ShareMath.CalculateOwnership` | app/page.tsx:86-96 | `totalShares` is `safe + newRound` and `ownershipPercentage` × the `totalShares` argument = 100 × (safe + newRound) |
| `Rows.SetSafeField` | app/page.tsx:218-219 | the named field of the SAFE row takes the value and every other field keeps its own |
| `Rows.SetNewRoundField` | app/page.tsx:249-250 | the named field of the investor row takes the value and the other keeps its own |
| `Rows.DropIndexSpec` | app/page.tsx:238 | the filter drops exactly the row at a valid index and keeps the others in order; an index outside the list drops nothing |
| `Rows.RemoveRowSpec` | app/page.tsx:236-241 | removal from a non-empty list leaves it non-empty; it removes the indexed row only when more than one row is left and the index is valid |
| `Rows.Page.constructor` | app/page.tsx:110-121 | the page starts with one blank SAFE row and one blank investor row |
| `Rows.Page.HandleSafeRowChange` | app/page.tsx:213-222 | only the indexed SAFE row changes, by one field; length and the investor rows are unchanged; both lists stay non-empty |
| `Rows.Page.AddSafeRow` | app/page.tsx:224-234 | one blank row is appended and earlier rows are unchanged |
| `Rows.Page.RemoveSafeRow` | app/page.tsx:236-241 | the SAFE rows become the guarded filter of the old rows; the investor rows are unchanged; both lists stay non-empty |
| `Rows.Page.HandleNewRoundRowChange` | app/page.tsx:244-253 | only the indexed investor row changes, by one field; the SAFE rows are unchanged |
| `Rows.Page.AddNewRoundRow` | app/page.tsx:255-256 | one blank investor row is appended and earlier rows are unchanged |
| `Rows.Page.RemoveNewRoundRow` | app/page.tsx:258-263 | the investor rows become the guarded filter of the old rows; both lists stay non-empty |
| `Results.SafeShareResults` | app/page.tsx:160-172 | one result per SAFE row, same order, each computed from its own row's parsed amount, discount and cap at the common share price |
| `Results.NewRoundShareResults` | app/page.tsx:175-179 | one whole number of shares per investor row, same order |
| `Results.ReduceIsSum` | app/page.tsx:182-184 | the left-fold `reduce` from an accumulator equals the accumulator plus the sum |
| `Results.ComputeResults` | app/page.tsx:149-191 | `totalShares` is founders + non-founders + issued options; the two lists have the rows' lengths and order, each entry the helper's result at `valuation / totalShares`; `totalOwnership` is the sum of both lists |
| `Results.ResultsIgnoreUnusedInputs` | app/page.tsx:151-157 | remaining options, promised shares, future pool size and the pre/post toggle do not affect the results |
| `Results.TotalOwnershipMonotone` | app/page.tsx:160-184 | for a positive share price and 0 ≤ discount < 100 in that row, raising one SAFE row's amount never lowers that row's shares nor the total |
| `Results.DefaultCapTableExample` | app/page.tsx:99-191 | with the default cap table, a 10,000,000 valuation, the one SAFE row holding the stored texts `"$0"` (amount), `"10"` (discount) and `""` (cap), parsed as given with the blank cap read as 0, and one 1,000,000 investor: baseline 8,000,000, 0 SAFE shares, 800,000 new shares, total 800,000 |
| `Valuation.Calculate` | app/index.js:38-66 | fully-diluted before is the sum of the four counts, after is before plus the investment (so not smaller for a non-negative investment), `safeSharePrice × before = cap`; with `"pre"` pre = valuation and post = valuation + investment, with `"post"` post = valuation and pre = valuation − investment, so post − pre = investment; any other toggle gives pre = post = valuation |
| `Valuation.Step` | app/index.js:27-69 | without the four required fields the previous summary stays; with them a new summary is produced |
| `Valuation.StepIgnoresUnusedFields` | app/index.js:38-66 | the new round's pre/post select, promised shares, future pool, discount rate and new investor name change no output |
| `Valuation.InitialStateKeepsSummary` | app/index.js:5-33 | the form as first rendered (blank names, amounts, cap and share counts) fails the guard, so the effect keeps the previous summary |
| `Valuation.ReplaySpec` | app/index.js:24-86 | after any sequence of form states the summary is that of the last state meeting the guard, or the prior value when none did |
| `Valuation.ReplayFromNothing` | app/index.js:24-33 | starting from the initial null, a summary exists exactly when some state so far met the guard |

## Left out

- sessionStorage loading and saving (app/page.tsx:130-147, 204-208, 221, 252): browser I/O; the model holds the state values only.
- `handleInputChange` (app/page.tsx:195-211) and the discount box's input filter (app/page.tsx:446-460): event handlers outside the modelled core that write a text into the state.
- JSX rendering, the two-decimal `toFixed` percentages and totals (app/page.tsx:625-675), and React's effect scheduling: presentation.
- `parseFloat`, `Number` and JavaScript's string-to-number coercion: a parameter of the model, so no property depends on how text is parsed. Preconditions keep every divisor away from zero: the baseline (`Results.TotalShares`, the sum of three parsed counts), the share price `valuation / baseline` wherever it divides (a SAFE row with a non-zero cap, or any investor row), `1 − discount / 100` (a discount other than 100), the `totalShares` argument of `ShareMath.CalculateOwnership`, and the fully-diluted count of app/index.js (`Valuation.FullyDilutedBefore`, the sum of four). JavaScript instead yields ±Infinity or NaN there; NaN is not modelled, and IEEE-754 rounding is not modelled.
- ShareMath.CalculateSafeShares: several JavaScript behaviours are not reproduced. A cap text that parses to NaN (the blank cap `""`, or the `"$"`-prefixed display text a typed cap is stored as) is falsy at `if (valuationCap)` (app/page.tsx:70), so the page returns the uncapped amount; the model treats the cap test as `cap != 0`, which agrees only when the parse parameter reads such text as `0`. A discount of 100, which the discount box accepts (app/page.tsx:450-453), makes `amount / 0` infinite, and with a non-zero cap `Math.min(Infinity, cap / price)` is the finite `cap / price`; the model requires a discount other than 100 instead. A share price of 0 is reachable (the valuation box stores what is typed, so `"0"`); with a non-zero cap the page computes `cap / 0`, which is Infinity for a positive cap, so `Math.min` returns the uncapped amount, and −Infinity for a negative cap. The model's `requires valuationCap != 0.0 ==> sharePrice != 0.0` excludes this. The discount box also stores texts such as `"100.5"` or `"1e3"`, whose `parseInt` lies in 1 to 100 (app/page.tsx:450-453) but whose `parseFloat` is above 100; there `1 − discount / 100` is negative, so more money gives fewer shares, and the monotonicity lemmas require 0 ≤ discount < 100. A blank discount (the default row) parses to NaN and makes the row's result NaN, which the model also does not reproduce.
- ShareMath.CalculateNewRoundShares: requires a non-zero share price. At price 0 the page computes `Math.floor(amount / 0)`, which is +Infinity, −Infinity or NaN according to the sign of the amount.
- Results.ComputeResults: applies the parse to the stored text as written. The stored share counts are the comma-grouped display text after the first edit ("5,000,000"), and the stored valuation starts with "$". The stored cap of each SAFE row is the `"$"`-prefixed display text as well (app/page.tsx:468-474), so on the page a typed cap parses to NaN and never takes effect. JavaScript's `parseFloat` reads these as 5 and NaN. The parameter does not capture that.
- Valuation.Calculate: states the numeric intent of `newValuation + newInvestmentAmount` (app/index.js:44). On the string state JavaScript concatenates the two texts instead. In the branches without arithmetic (app/index.js:41 and 45) the summary holds the `newValuation` text itself, not a number, so a blank valuation shows as an empty cell where the model gives `num("")`. The subtraction and the division coerce to numbers as modelled.
- Formatters.FormatNumberWithCommas: assumes `parseInt` is exact and `toLocaleString` groups as en-US does. Beyond 2^53 the source rounds, and other locales group differently.
- Rows.Page.HandleSafeRowChange and Rows.Page.HandleNewRoundRowChange: require an index inside the list. The source throws a TypeError for any other index, and the page only passes indices of rendered rows.
- The shallow copy in the change handlers (app/page.tsx:218-219, 249-250) mutates the row object shared with the previous state. The model updates values only, so the aliasing is not captured.
- `calculateOwnership` is never called by the page, and `validateAndFormatPercentage` is not wired to any input. Both are modelled as written. For the percentage, "0" stays "0" and "100" is cut to "10", whatever the function's comment says about 1 to 100.
