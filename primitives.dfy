/** The host-language types the controls are keyed and valued by. */
module Primitives {

  /** `int.MinValue` and `int.MaxValue` of the 32-bit signed integer type. */
  const MinValue: int := -0x8000_0000
  const MaxValue: int := 0x7FFF_FFFF

  /** A 32-bit signed integer: keys of the numeric key-space, priorities, votes. */
  type Int32 = x: int | MinValue <= x <= MaxValue

  /** A game-engine component, used only as an equality-comparable key. */
  type Component(==, !new)

  /** Any other object, used only as an equality-comparable key. */
  type ObjectKey(==, !new)
}
