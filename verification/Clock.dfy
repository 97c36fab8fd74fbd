/**
 The 32-bit millisecond clock that every timed component reads.

 `millis()` wraps after about 49.7 days. The components only ever compare the wrapped
 difference of two readings; the lemmas here relate that difference to the true time
 that passed, so that the theorems elsewhere speak about unbounded time.
 */
module Clock {
  import Division

  const U32: nat := 0x1_0000_0000

  type u32 = n: nat | n < 0x1_0000_0000

  /** The reading of the clock at true time `t`. */
  function At(t: int): u32 {
    t % U32
  }

  /** `static_cast<uint32_t>(now - mark)`. */
  function Since(now: u32, mark: u32): u32 {
    (now - mark) % U32
  }

  /** `static_cast<int32_t>(a - b) > 0`. */
  predicate After(a: u32, b: u32) {
    0 < Since(a, b) < 0x8000_0000
  }

  /** A wrapped difference of two readings is the difference of the times mod 2^32. */
  lemma ClockApart(t: int, mark: int)
    ensures Since(At(t), At(mark)) == (t - mark) % U32
  {
    Division.Shift(t - mark, U32, mark / U32 - t / U32);
    assert At(t) - At(mark) == t - mark + (mark / U32 - t / U32) * U32;
  }

  /** A wrapped difference never overstates the time that passed, and is exact up to 2^32 ms. */
  lemma SinceIsElapsed(t: int, mark: int)
    requires mark <= t
    ensures Since(At(t), At(mark)) == (t - mark) % U32 <= t - mark
    ensures t - mark < U32 ==> Since(At(t), At(mark)) == t - mark
  {
    var k := t / U32 - mark / U32;
    assert t - mark == k * U32 + (At(t) - At(mark));
  }

  /** Within 2^31 of each other, two readings tell which is later and by how much. */
  lemma SinceNear(a: int, b: int)
    requires -0x8000_0000 < a - b < 0x8000_0000
    ensures Since(At(a), At(b)) == if a >= b then a - b else a - b + U32
    ensures After(At(a), At(b)) <==> a > b
  {
    if a >= b {
      SinceIsElapsed(a, b);
    } else {
      var k := a / U32 - b / U32;
      assert a - b + U32 == (k + 1) * U32 + (At(a) - At(b));
    }
  }
}
