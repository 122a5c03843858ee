/** The M5 bar and the units of `crates/sim/src/types.rs`. Prices are integers in milli units. */
module Market {
  const PIP_MID2: int := 20
  const M5_SECS: int := 300
  const I64_MAX: int := 0x7FFF_FFFF_FFFF_FFFF

  datatype Bar = Bar(
    openTime: int,
    bidOpen: int, bidHigh: int, bidLow: int, bidClose: int,
    askOpen: int, askHigh: int, askLow: int, askClose: int)
  {
    function Mid2Open(): int { bidOpen + askOpen }
    function Mid2High(): int { bidHigh + askHigh }
    function Mid2Low(): int { bidLow + askLow }
    function Mid2Close(): int { bidClose + askClose }

    /** What the join of the bid and ask klines guarantees of every bar it keeps. */
    predicate Valid() {
      && bidLow <= bidOpen <= bidHigh && bidLow <= bidClose <= bidHigh
      && askLow <= askOpen <= askHigh && askLow <= askClose <= askHigh
      && bidOpen <= askOpen && bidHigh <= askHigh && bidLow <= askLow && bidClose <= askClose
      && bidOpen > 0 && bidHigh > 0 && bidLow > 0 && bidClose > 0
      && askOpen > 0 && askHigh > 0 && askLow > 0 && askClose > 0
    }
  }

  function Max(a: int, b: int): int { if a >= b then a else b }

  function Min(a: int, b: int): int { if a <= b then a else b }
}
