/** The 32-bit signed integers of the Unreal client; signed overflow is assumed to wrap. */
module Int32 {

  /** 32-bit two's-complement truncation. */
  function Wrap32(x: int): (r: int)
    ensures -0x8000_0000 <= r < 0x8000_0000
  {
    (x + 0x8000_0000) % 0x1_0000_0000 - 0x8000_0000
  }

  lemma WrapPeriodic(x: int, k: int)
    ensures Wrap32(x + k * 0x1_0000_0000) == Wrap32(x)
  {
    var y := x + 0x8000_0000;
    var q, r := y / 0x1_0000_0000, y % 0x1_0000_0000;
    assert y + k * 0x1_0000_0000 == (q + k) * 0x1_0000_0000 + r;
  }

  lemma NoWrap(x: int)
    requires -0x8000_0000 <= x < 0x8000_0000
    ensures Wrap32(x) == x
  {
  }

  /** The truncation from the low 32 bits. */
  lemma WrapLow(v: nat)
    ensures var low := v % 0x1_0000_0000;
            Wrap32(v) == if low < 0x8000_0000 then low else low - 0x1_0000_0000
  {
    WrapPeriodic(v % 0x1_0000_0000, v / 0x1_0000_0000);
  }
}
