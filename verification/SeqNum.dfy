/** 32-bit TCP sequence numbers: the kernel's before()/after() and modular
    subtraction, related to unbounded stream offsets (section 3.4 of RFC 9293). */
module SeqNum {

  const TWO31: int := 0x8000_0000
  const TWO32: int := 0x1_0000_0000

  type u32 = x: int | 0 <= x < 0x1_0000_0000

  /** The 32-bit image of an unbounded stream offset. */
  function Wrap(x: int): u32 {
    x % TWO32
  }

  /** seq1 - seq2 in u32 arithmetic. */
  function Sub(a: u32, b: u32): u32 {
    (a - b) % TWO32
  }

  /** seq + n in u32 arithmetic. */
  function Add(a: u32, n: int): u32 {
    (a + n) % TWO32
  }

  /** (s32)(a - b) < 0. */
  predicate Before(a: u32, b: u32) {
    Sub(a, b) >= TWO31
  }

  predicate After(a: u32, b: u32) {
    Before(b, a)
  }

  /** Modular subtraction recovers every distance below 2^32. */
  lemma SubOfWrap(x: int, y: int)
    requires 0 <= x - y < TWO32
    ensures Sub(Wrap(x), Wrap(y)) == x - y
  {
    var k := x / TWO32 - y / TWO32;
    assert x == TWO32 * (x / TWO32) + Wrap(x);
    assert y == TWO32 * (y / TWO32) + Wrap(y);
    assert Wrap(x) - Wrap(y) == x - y - TWO32 * k;
    assert k == 0 || k == 1;
  }

  /** Within half the number space, before() on the images is < on the offsets. */
  lemma BeforeOfWrap(x: int, y: int)
    requires -TWO31 <= x - y < TWO31
    ensures Before(Wrap(x), Wrap(y)) <==> x < y
  {
    if x >= y {
      SubOfWrap(x, y);
    } else {
      SubOfWrap(y, x);
      assert Sub(Wrap(x), Wrap(y)) == TWO32 - (y - x);
    }
  }

  /** Exactly 2^31 apart, before() holds in both directions: the bound above is tight. */
  lemma BeforeIsAmbiguousAtHalfRange(x: int)
    ensures Before(Wrap(x), Wrap(x + TWO31)) && Before(Wrap(x + TWO31), Wrap(x))
  {
    SubOfWrap(x + TWO31, x);
    assert Sub(Wrap(x), Wrap(x + TWO31)) == TWO31;
  }

  lemma AddOfWrap(x: int, n: int)
    ensures Add(Wrap(x), n) == Wrap(x + n)
  {
    assert x == TWO32 * (x / TWO32) + Wrap(x);
    var a := Wrap(x) + n;
    assert x + n == TWO32 * (x / TWO32) + a;
    ModShift(a, x / TWO32);
  }

  lemma ModShift(a: int, k: int)
    ensures (TWO32 * k + a) % TWO32 == a % TWO32
  {
    assert TWO32 * k + a == TWO32 * (k + a / TWO32) + a % TWO32;
  }

  /** Equal images within 2^32 are equal offsets. */
  lemma WrapInjective(x: int, y: int)
    requires -TWO32 < x - y < TWO32
    ensures Wrap(x) == Wrap(y) <==> x == y
  {
    if x >= y { SubOfWrap(x, y); } else { SubOfWrap(y, x); }
  }
}
