/** The sizes that the kernel and its programs share. */
module Platform {
  const TERMINALS := 3

  /** The text screen. */
  const COLS := 80
  const ROWS := 25
  const CELLS := 2000
  /** Bytes of a screen: character and attribute alternate. */
  const SCREEN := 4000

  /** The two page sizes. */
  const KB4 := 0x1000
  const MB4 := 0x40_0000
}
