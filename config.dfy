/** The fixed constants of the stage (RectTriStage.ts lines 3-7 and the
    animator's timer period). Numbers of the source are modelled as exact
    reals where they take part in real arithmetic. */
module Config {
  /** Number of triangle motifs per node. */
  const Lines: int := 4
  /** Number of segments of one motif. */
  const Parts: int := 3
  /** Scale step per timer tick, before the mirror factor is applied. */
  const ScGap: real := 0.05
  /** Divisor that decides which half-cycle a scale is in. */
  const ScDiv: real := 0.51
  /** Period, in milliseconds, the animator hands to the host timer. */
  const TickPeriod: int := 50
}
