/**
 * Input validation (src/lib/utils/validator.ts). Each check throws an
 * Error with a fixed message; here a check returns the first failure as a
 * value. A value that is NaN, or not of type number at all, is the `NaN`
 * variant of `Num`.
 */
module Validator {

  /** A JavaScript value handed in where a number is expected. */
  datatype Num = Number(v: real) | NaN

  /** The outcome of a validation: passed, or the message of the Error thrown. */
  datatype Outcome = Pass | Fail(message: string)

  const WidthNotNumber := "Width should be a number"
  const HeightNotNumber := "Height should be a number"
  const StrokeNotNumber := "Grid strokeWidth should be a number"
  const StrokeNegative := "Grid strokeWidth should be >= 0"
  const CellNotNumber := "Grid cellSize should be a number"
  const CellNotPositive := "Grid cellSize should be > 0"

  /** The two fields of IDrawGridConfig that validate.grid looks at. */
  datatype GridInput = GridInput(enabled: bool, cellSize: Num, strokeWidth: Num, strokeColor: string)

  /**
   * validate.size: every pair of numbers passes, negative ones included;
   * a missing width is reported before a missing height.
   */
  function ValidateSize(width: Num, height: Num): (r: Outcome)
    ensures r == Pass <==> width.Number? && height.Number?
    ensures width.NaN? ==> r == Fail(WidthNotNumber)
    ensures width.Number? && height.NaN? ==> r == Fail(HeightNotNumber)
  {
    if width.NaN? then Fail(WidthNotNumber)
    else if height.NaN? then Fail(HeightNotNumber)
    else Pass
  }

  /** The grid values the renderer can use: a non-negative stroke and a positive cell. */
  predicate UsableGrid(strokeWidth: Num, cellSize: Num) {
    strokeWidth.Number? && strokeWidth.v >= 0.0 && cellSize.Number? && cellSize.v > 0.0
  }

  /** True when the message is one of the two the strokeWidth checks throw. */
  predicate IsStrokeMessage(m: string) {
    m == StrokeNotNumber || m == StrokeNegative
  }

  /**
   * validate.grid: passes exactly the usable grids. A zero stroke is
   * accepted and a zero cell is not; any fault in strokeWidth is reported
   * before any fault in cellSize.
   */
  function ValidateGrid(config: GridInput): (r: Outcome)
    ensures r == Pass <==> UsableGrid(config.strokeWidth, config.cellSize)
    ensures r.Fail? && !(config.strokeWidth.Number? && config.strokeWidth.v >= 0.0) ==> IsStrokeMessage(r.message)
    ensures r.Fail? && config.strokeWidth.Number? && config.strokeWidth.v >= 0.0 ==> !IsStrokeMessage(r.message)
  {
    if config.strokeWidth.NaN? then Fail(StrokeNotNumber)
    else if config.strokeWidth.v < 0.0 then Fail(StrokeNegative)
    else if config.cellSize.NaN? then Fail(CellNotNumber)
    else if config.cellSize.v <= 0.0 then Fail(CellNotPositive)
    else Pass
  }

  /** Boundary cases: stroke 0 passes, stroke -1 and cell 0 fail, and a bad stroke hides a bad cell. */
  lemma ValidateGridExamples(enabled: bool, color: string)
    ensures ValidateGrid(GridInput(enabled, Number(12.0), Number(0.0), color)) == Pass
    ensures ValidateGrid(GridInput(enabled, Number(12.0), Number(-1.0), color)) == Fail(StrokeNegative)
    ensures ValidateGrid(GridInput(enabled, Number(0.0), Number(0.3), color)) == Fail(CellNotPositive)
    ensures ValidateGrid(GridInput(enabled, NaN, NaN, color)) == Fail(StrokeNotNumber)
    ensures ValidateSize(Number(-5.0), Number(-5.0)) == Pass
  {
  }
}
