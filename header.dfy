/**
 * The compile-time constants that multi_ir.c takes from its header
 * multi_ir.h. The header is not part of this model, so the values are left
 * open: `LIMITS` is an arbitrary value of a subset type, and every proof
 * holds for all values that meet the subset type's constraint.
 */
module Header {

  /** The four sizes the key tables are built from. */
  datatype Limits = Limits(keycodeCnt: int, keycodeMin: int, keycodeMax: int, maxNameLen: int)

  /**
   * What multi_ir.c relies on: every accepted keycode indexes a slot of a
   * KEYCODE_CNT-slot table, and a name buffer can hold the reserved name
   * "!RESERVE" (8 characters and its terminator) that keymap_init copies
   * into every slot.
   */
  type HeaderLimits = l: Limits
    | 0 <= l.keycodeMin <= l.keycodeMax < l.keycodeCnt && l.maxNameLen > 8
    witness Limits(1, 0, 0, 9)

  const LIMITS: HeaderLimits

  /** Number of slots in a key map and in a mapping table. */
  const KEYCODE_CNT: nat := LIMITS.keycodeCnt
  /** Smallest keycode a layout line may set. */
  const KEYCODE_MIN: nat := LIMITS.keycodeMin
  /** Largest keycode a layout line may set. */
  const KEYCODE_MAX: nat := LIMITS.keycodeMax
  /** Size of a slot's name buffer, terminator included. */
  const MAX_NAME_LEN: nat := LIMITS.maxNameLen
}
