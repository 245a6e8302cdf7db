/** The integer state of the progress bar: the ceiling (all coins the stores
    started with) and the current value it displays. The bar's width, drawn
    from a floating-point ratio, is presentation only and is not modelled. */
module ProfitBars {
  import opened Util

  datatype ProfitBar = ProfitBar(currentProfit: int, maxPossibleProfit: int)

  function NewBar(): (b: ProfitBar)
    ensures b.currentProfit == 0 && b.maxPossibleProfit == 0
    ensures !IsComplete(b)
  {
    ProfitBar(0, 0)
  }

  /** `updateMaxProfit`: the ceiling is stored as given. */
  function UpdateMaxProfit(b: ProfitBar, total: int): (r: ProfitBar)
    ensures r.maxPossibleProfit == total && r.currentProfit == b.currentProfit
  {
    b.(maxPossibleProfit := total)
  }

  /** `updateCurrentProfit`: negative values are shown as 0. */
  function UpdateCurrentProfit(b: ProfitBar, profit: int): (r: ProfitBar)
    ensures r.currentProfit >= 0 && r.currentProfit >= profit
    ensures r.currentProfit == profit || r.currentProfit == 0
    ensures r.maxPossibleProfit == b.maxPossibleProfit
  {
    b.(currentProfit := Max(0, profit))
  }

  function Reset(b: ProfitBar): (r: ProfitBar)
    ensures r == NewBar()
  {
    ProfitBar(0, 0)
  }

  /** `isComplete`: there is a positive ceiling and it has been reached. */
  function IsComplete(b: ProfitBar): bool {
    b.maxPossibleProfit > 0 && b.currentProfit >= b.maxPossibleProfit
  }

  /** A bar whose ceiling is zero or negative is never complete, and a bar
      updated with a value at least a positive ceiling is. */
  lemma CompleteExactlyAtCeiling(b: ProfitBar, total: int, profit: int)
    ensures total <= 0 ==> !IsComplete(UpdateCurrentProfit(UpdateMaxProfit(b, total), profit))
    ensures total > 0 ==> (IsComplete(UpdateCurrentProfit(UpdateMaxProfit(b, total), profit)) <==> profit >= total)
  {
  }

  /** The operations of the bar, for reasoning about its whole life. */
  datatype BarOp = SetMax(total: int) | SetCurrent(profit: int) | ResetOp

  function Apply(b: ProfitBar, op: BarOp): ProfitBar {
    match op
    case SetMax(t) => UpdateMaxProfit(b, t)
    case SetCurrent(p) => UpdateCurrentProfit(b, p)
    case ResetOp => Reset(b)
  }

  function ApplyAll(b: ProfitBar, ops: seq<BarOp>): ProfitBar
    decreases |ops|
  {
    if |ops| == 0 then b else ApplyAll(Apply(b, ops[0]), ops[1..])
  }

  /** From construction on, the displayed value is never negative. */
  lemma {:induction false} CurrentNeverNegative(b: ProfitBar, ops: seq<BarOp>)
    requires b.currentProfit >= 0
    ensures ApplyAll(b, ops).currentProfit >= 0
    decreases |ops|
  {
    if |ops| > 0 {
      CurrentNeverNegative(Apply(b, ops[0]), ops[1..]);
    }
  }
}
