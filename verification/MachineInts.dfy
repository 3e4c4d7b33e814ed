/** Conversions to C's fixed-width integers. */
module MachineInts {

  /** uint32_t */
  function U32Wrap(x: int): (r: nat)
    ensures 0 <= r < 0x1_0000_0000
    ensures 0 <= x < 0x1_0000_0000 ==> r == x
  {
    x % 0x1_0000_0000
  }

  /** int32_t */
  function Int32(x: int): (r: int)
    ensures -0x8000_0000 <= r < 0x8000_0000
    ensures -0x8000_0000 <= x < 0x8000_0000 ==> r == x
  {
    var m := x % 0x1_0000_0000;
    if m >= 0x8000_0000 then m - 0x1_0000_0000 else m
  }

  /** int8_t */
  function Int8(x: int): (r: int)
    ensures -128 <= r < 128
    ensures -128 <= x < 128 ==> r == x
  {
    var m := x % 256;
    if m >= 128 then m - 256 else m
  }

  /** The conversions keep the value modulo the number of values of the type. */
  lemma WrapsAround(x: int)
    ensures (U32Wrap(x) - x) % 0x1_0000_0000 == 0 && (Int32(x) - x) % 0x1_0000_0000 == 0
  {
  }

  lemma ByteWrapsAround(x: int)
    ensures (Int8(x) - x) % 0x100 == 0
  {
  }
}
