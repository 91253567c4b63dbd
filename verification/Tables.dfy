/** Constant byte tables, kept as rows of sixteen entries: one 128-bit literal a row, the first
    entry being the most significant byte. */
module Tables {

  /** The entry of a row that the low half of x selects. */
  function Entry(row: bv128, x: bv8): bv8 {
    ((row >> ((15 - (x & 0x0f)) << 3)) & 0xff) as bv8
  }
}
