/** 32-bit circular numbers: sequence numbers and millisecond timestamps.

    `Diff` is the signed comparison used everywhere in the protocol.  It agrees
    with the comparison of unbounded numbers only while the two numbers are less
    than half the range apart; every window invariant of the project exists to
    establish that. */
module Serial {
  const RANGE: int := 0x1_0000_0000
  const HALF: int := 0x8000_0000

  type u32 = x: int | 0 <= x < 0x1_0000_0000
  type u16 = x: int | 0 <= x < 0x1_0000
  type byte = x: int | 0 <= x < 0x100

  /** Truncation of an unbounded number to 32 bits. */
  function W(x: int): u32 { x % 0x1_0000_0000 }

  /** How far `to` lies ahead of `from`, going up and round the circle. */
  function Ahead(from: u32, to: u32): (d: int)
    ensures 0 <= d < 0x1_0000_0000
  {
    if from <= to then to - from else to - from + 0x1_0000_0000
  }

  /** The difference of two 32-bit numbers read as a signed 32-bit number. */
  function Diff(later: u32, earlier: u32): int {
    var d := Ahead(earlier, later);
    if d < 0x8000_0000 then d else d - 0x1_0000_0000
  }

  /** `Ahead` is the 32-bit subtraction. */
  lemma AheadIsSubtraction(from: u32, to: u32)
    ensures Ahead(from, to) == W(to - from)
  {
  }

  /** Inside half the range the circular comparison is the unbounded one.  At a
      gap of exactly HALF it is negative whichever way round it is asked. */
  lemma DiffIsUnboundedDifference(a: int, b: int)
    ensures -HALF <= a - b < HALF ==> Diff(W(a), W(b)) == a - b
    ensures a - b == HALF ==> Diff(W(a), W(b)) == -HALF == Diff(W(b), W(a))
  {
    AheadIsSubtraction(W(b), W(a));
  }

  /** Two unbounded numbers less than the range apart are told apart by their
      truncations. */
  lemma WInjective(a: int, b: int)
    requires -RANGE < a - b < RANGE
    ensures W(a) == W(b) <==> a == b
  {
  }

  lemma WAdd(a: int, b: int)
    ensures W(W(a) + b) == W(a + b)
  {
  }

  lemma Unwrapped(x: int)
    requires 0 <= x < RANGE
    ensures W(x) == x
  {
  }

  /** Going round the circle from b to sn and back. */
  lemma RoundTheCircle(b: int, sn: u32)
    ensures W(b + Ahead(W(b), sn)) == sn
  {
    AheadIsSubtraction(W(b), sn);
  }

  lemma AheadOf(b: int, i: int)
    requires 0 <= i < RANGE
    ensures Ahead(W(b), W(b + i)) == i
  {
    AheadIsSubtraction(W(b), W(b + i));
  }

  /** The signed difference leads back as well. */
  lemma RoundByDiff(b: int, sn: u32)
    ensures W(b + Diff(sn, W(b))) == sn
  {
    RoundTheCircle(b, sn);
  }
}
