/** The few operations of a fixed-width bit set that the acknowledgment tracker uses.
    Reading or clearing a bit beyond the width is allowed: it reads as cleared and
    clearing it changes nothing. */
module BitSets {

  type BitSet = seq<bool>

  /** Bit i is set. */
  predicate Test(b: BitSet, i: int)
  {
    0 <= i < |b| && b[i]
  }

  /** No bit is set. */
  predicate NoneSet(b: BitSet)
  {
    forall j :: 0 <= j < |b| ==> !b[j]
  }

  function Clear(b: BitSet, i: int): (r: BitSet)
    ensures |r| == |b|
    ensures forall j :: 0 <= j < |b| ==> (Test(r, j) <==> Test(b, j) && j != i)
  {
    if 0 <= i < |b| then b[i := false] else b
  }

  /** A bit set of the given width with every bit set. */
  function Full(width: nat): (b: BitSet)
    ensures |b| == width
    ensures forall j :: 0 <= j < width ==> Test(b, j)
  {
    seq(width, _ => true)
  }

  /** Allocates a bit set of the given width and sets its bits one by one. */
  method NewFull(width: nat) returns (b: BitSet)
    ensures |b| == width
    ensures forall j :: 0 <= j < width ==> Test(b, j)
    ensures b == Full(width)
  {
    b := seq(width, _ => false);
    var i := 0;
    while i < width
      invariant 0 <= i <= width
      invariant |b| == width
      invariant forall j :: 0 <= j < i ==> b[j]
    {
      b := b[i := true];
      i := i + 1;
    }
  }
}
