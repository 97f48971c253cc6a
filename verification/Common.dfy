/** Small definitions shared by the other modules. */
module Common {

  datatype Option<+T> = None | Some(value: T)

  /** Memory cells, as far as the code tells them apart: DRAM and embedded DRAM, gain cells,
      the resistive and static cells with a pair of bit lines, and the rest. */
  datatype CellKind = Dram | GainCell | BitlinePair | OtherCell

  const INT_MAX: nat := 0x7fff_ffff
  const UINT64_MAX: nat := 0xffff_ffff_ffff_ffff

  function MinReal(x: real, y: real): real {
    if x <= y then x else y
  }

  function MaxReal(x: real, y: real): real {
    if x >= y then x else y
  }

  lemma Bounds(x: real, y: real)
    ensures MinReal(x, y) <= x && MinReal(x, y) <= y && (MinReal(x, y) == x || MinReal(x, y) == y)
    ensures MaxReal(x, y) >= x && MaxReal(x, y) >= y && (MaxReal(x, y) == x || MaxReal(x, y) == y)
  {}

  function Times(x: real, y: real): real {
    x * y
  }

  lemma TimesSign(x: real, y: real)
    ensures x > 0.0 && y > 0.0 ==> Times(x, y) > 0.0
    ensures x >= 0.0 && y >= 0.0 ==> Times(x, y) >= 0.0
    ensures x <= 0.0 && y <= 0.0 ==> Times(x, y) >= 0.0
  {}
}
