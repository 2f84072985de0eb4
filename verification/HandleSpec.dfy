/** The move-only token for one leased cell, as a value. */
module HandleSpec {
  import opened Wrappers
  import opened TimeTraits
  import opened StorageSpec
  import opened PoolSpec

  /** What the destructor and move assignment do with the cell. */
  datatype Strategy = UseRecycle | UseWaste

  /** A handle is usable while it holds a cell. */
  datatype HandleState = HandleState(strategy: Strategy, cell: Option<CellId>)

  const UNUSABLE := HandleState(UseWaste, None)

  /** Returning cell c to the pool one way or the other. */
  function Release(p: PoolState, how: Strategy, c: CellId, now: Ticks): (PoolState, Option<Completion>)
    requires c in p.storage.cells
  {
    if how == UseRecycle then PoolSpec.Recycle(p, c, now) else PoolSpec.Waste(p, c)
  }
}
