/**
 * The grid configuration of the drawing board (src/lib/ngx-drawing-board.ts,
 * drawCanvasGrid): the fields the caller writes, `undefined` included, are
 * laid over the defaults, and the grid is drawn only when the result's
 * `enabled` is true.
 */
module GridConfigMerge {
  import opened Types
  import Validator

  const DefaultGridConfig := DrawGridConfig(Some(true), Some(12.0), Some(0.3), Some("#000000"))

  /** Object.assign on one field: a written field replaces the default, even when it is `undefined`. */
  function Pick<T>(given: Field<T>, default: T): (r: Option<T>)
    ensures given.Given? ==> r == Some(given.value)
    ensures given.Undefined? ==> r == None
    ensures given.Absent? ==> r == Some(default)
  {
    match given
    case Absent => Some(default)
    case Undefined => None
    case Given(v) => Some(v)
  }

  /** Object.assign(defaults, gridConfig): every written field overrides its default. */
  function MergeGridConfig(c: GridConfig): (m: DrawGridConfig)
    ensures m.enabled == Pick(c.enabled, DefaultGridConfig.enabled.value)
    ensures m.cellSize == Pick(c.cellSize, DefaultGridConfig.cellSize.value)
    ensures m.strokeWidth == Pick(c.strokeWidth, DefaultGridConfig.strokeWidth.value)
    ensures m.strokeColor == Pick(c.strokeColor, DefaultGridConfig.strokeColor.value)
  {
    DrawGridConfig(
      Pick(c.enabled, DefaultGridConfig.enabled.value),
      Pick(c.cellSize, DefaultGridConfig.cellSize.value),
      Pick(c.strokeWidth, DefaultGridConfig.strokeWidth.value),
      Pick(c.strokeColor, DefaultGridConfig.strokeColor.value))
  }

  /** `if (!gridConfig.enabled) return`: the grid is drawn only when the merged flag is true. */
  predicate DrawsGrid(c: GridConfig) {
    MergeGridConfig(c).enabled == Some(true)
  }

  /** The merged configuration written back as an IGridConfig, `undefined` fields included. */
  function Complete(d: DrawGridConfig): GridConfig {
    GridConfig(Written(d.enabled), Written(d.cellSize), Written(d.strokeWidth), Written(d.strokeColor))
  }

  /** A merged field written as a property: its value, or `undefined`. */
  function Written<T>(v: Option<T>): Field<T> {
    if v.Some? then Given(v.value) else Undefined
  }

  /**
   * The component's default input `{ enabled: true }` draws the default
   * grid; an empty configuration gives the defaults; a complete
   * configuration is taken as it is; the grid is off exactly when the
   * caller writes `enabled: false` or `enabled: undefined`; and a field
   * written as `undefined` stays undefined instead of taking its default.
   */
  lemma MergeProperties(c: GridConfig, d: DrawGridConfig)
    ensures MergeGridConfig(GridConfig(Given(true), Absent, Absent, Absent)) == DefaultGridConfig
    ensures MergeGridConfig(GridConfig(Absent, Absent, Absent, Absent)) == DefaultGridConfig
    ensures MergeGridConfig(Complete(d)) == d
    ensures !DrawsGrid(c) <==> c.enabled == Given(false) || c.enabled == Undefined
    ensures MergeGridConfig(c).cellSize.None? <==> c.cellSize == Undefined
    ensures MergeGridConfig(c).strokeWidth.None? <==> c.strokeWidth == Undefined
    ensures MergeGridConfig(c).strokeColor.None? <==> c.strokeColor == Undefined
  {
    match c.enabled
    case Absent =>
    case Undefined =>
    case Given(b) =>
  }

  /** Merging is idempotent: laying the merged result over the defaults again changes nothing. */
  lemma MergeIdempotent(c: GridConfig)
    ensures MergeGridConfig(Complete(MergeGridConfig(c))) == MergeGridConfig(c)
  {
  }

  /** The default stroke width and cell size pass validate.grid. */
  lemma DefaultsAreValid()
    ensures Validator.ValidateGrid(Validator.GridInput(
      DefaultGridConfig.enabled.value,
      Validator.Number(DefaultGridConfig.cellSize.value),
      Validator.Number(DefaultGridConfig.strokeWidth.value),
      DefaultGridConfig.strokeColor.value)) == Validator.Pass
  {
  }
}
