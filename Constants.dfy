/** The per-elevator actions a dispatch policy returns. */
module Constants {

  /** What one elevator is told to do in a tick: travel toward an absolute floor,
      or stop and open its doors showing that it is about to go up or down
      (the source's sentinels 0.5 and -0.5). */
  datatype Action = Move(target: int) | OpenUp | OpenDown
}
