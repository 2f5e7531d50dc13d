/** The hero carousel: an index into the image list that an interval
    advances, wrapping from the last image to the first, and the one image
    shown at that index. */
module Carrousel {

  /** The interval's state update: from the last index back to 0, otherwise
      one further. With no images `images.length - 1` is -1, never reached,
      and the index just grows. */
  function Tick(i: int, len: nat): int
  {
    if i == len - 1 then 0 else i + 1
  }

  /** n ticks from i. */
  function Ticks(i: int, len: nat, n: nat): int
  {
    if n == 0 then i else Tick(Ticks(i, len, n - 1), len)
  }

  /** For a non-empty list a tick keeps the index in [0, len). */
  lemma TickInRange(i: int, len: nat)
    requires 0 <= i < len
    ensures 0 <= Tick(i, len) < len
    ensures Tick(i, len) == (i + 1) % len
  {
    if i + 1 < len {
      assert (i + 1) % len == i + 1;
    }
  }

  /** a + b ticks are a ticks followed by b ticks. */
  lemma {:induction false} TicksAdd(i: int, len: nat, a: nat, b: nat)
    ensures Ticks(i, len, a + b) == Ticks(Ticks(i, len, a), len, b)
  {
    if b > 0 {
      TicksAdd(i, len, a, b - 1);
    }
  }

  /** Below the last index, k ticks simply add k. */
  lemma {:induction false} TicksUp(i: int, len: nat, k: nat)
    requires 0 <= i && i + k < len
    ensures Ticks(i, len, k) == i + k
  {
    if k > 0 {
      TicksUp(i, len, k - 1);
    }
  }

  /** len ticks bring the carousel back to where it started. */
  lemma TicksReturn(i: int, len: nat)
    requires 0 <= i < len
    ensures Ticks(i, len, len) == i
  {
    var up := len - 1 - i;
    TicksUp(i, len, up);
    TicksAdd(i, len, up, i + 1);
    TicksAdd(len - 1, len, 1, i);
    TicksUp(0, len, i);
  }

  /** Without images the index never wraps: it goes up by one a tick. */
  lemma TicksWithoutImages(i: int, n: nat)
    requires i >= 0
    ensures Ticks(i, 0, n) == i + n
  {
    if n > 0 {
      TicksWithoutImages(i, n - 1);
    }
  }

  /** The opacity class of each image: shown exactly at currentIndex. */
  function Shown(len: nat, current: int): (r: seq<bool>)
    ensures |r| == len
    ensures forall k :: 0 <= k < len ==> (r[k] <==> k == current)
  {
    if len == 0 then [] else Shown(len - 1, current) + [len - 1 == current]
  }

  function CountShown(flags: seq<bool>): nat
  {
    if flags == [] then 0 else CountShown(flags[..|flags| - 1]) + (if flags[|flags| - 1] then 1 else 0)
  }

  /** Exactly one image is shown, the one at currentIndex, when that index
      is in range; none otherwise. */
  lemma {:induction false} ExactlyOneShown(len: nat, current: int)
    ensures CountShown(Shown(len, current)) == if 0 <= current < len then 1 else 0
  {
    if len > 0 {
      ExactlyOneShown(len - 1, current);
      assert Shown(len, current)[..len - 1] == Shown(len - 1, current);
    }
  }

  class Slideshow {
    const images: seq<string>
    var currentIndex: int

    constructor (images: seq<string>)
      ensures this.images == images && currentIndex == 0
    {
      this.images := images;
      currentIndex := 0;
    }

    /** One interval callback. */
    method Advance()
      modifies this
      ensures currentIndex == Tick(old(currentIndex), |images|)
    {
      currentIndex := if currentIndex == |images| - 1 then 0 else currentIndex + 1;
    }

    /** The index always stays in range for a non-empty list. */
    predicate InRange()
      reads this
    {
      |images| > 0 ==> 0 <= currentIndex < |images|
    }

    method AdvanceInRange()
      requires InRange()
      modifies this
      ensures InRange() && currentIndex == Tick(old(currentIndex), |images|)
    {
      if |images| > 0 {
        TickInRange(currentIndex, |images|);
      }
      Advance();
    }
  }
}
