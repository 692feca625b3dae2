/** The 16-bit numbers of reliable commands, and the windows they fall into (enet/include/enet/enet.h). */
module SequenceNumbers {
  const SEQUENCE_SPACE: int := 0x1_0000
  const WINDOW_SIZE: int := 0x1000
  const WINDOWS: int := 16
  const FREE_WINDOWS: int := 8

  type Sequence = x: int | 0 <= x < 0x1_0000
}
