/** Intersection occupancy of the traffic model (IDM.IntersectionStatus in
    Assets/Scripts/Simulation/IDM.cs). A 64-bit word holds sixteen 4-bit counters,
    one per path through the intersection; a car crossing adds a mask with a one in
    the low bit of every path it blocks, and a path is blocked when its counter is
    non-zero.

    The `ulong` word is a natural number below 2^64 with addition and subtraction
    taken modulo 2^64. `m & ~(1ul << 4k)` is written as "subtract 16^k when the low
    bit of nibble k is set", and `(m & (0xF << 4k)) != 0` as "nibble k is non-zero",
    which is what those bit operations compute. */
module IDM {

  const Modulus: nat := 0x1_0000_0000_0000_0000

  /** One in the low bit of each of the sixteen nibbles. */
  const BaseMask: nat := 0x1111_1111_1111_1111

  /** `~0ul`, the mask of intersections with more than four streets. */
  const AllOnes: nat := 0xFFFF_FFFF_FFFF_FFFF

  function Pow16(k: nat): (p: nat)
    ensures p >= 1
  {
    if k == 0 then 1 else 16 * Pow16(k - 1)
  }

  /** Nibble `k` of `m`: `(m >> 4k) & 0xF`. */
  function Nibble(m: nat, k: nat): (d: nat)
    ensures d < 16
  {
    if k == 0 then m % 16 else Nibble(m / 16, k - 1)
  }

  /** A non-zero nibble `k` means `m` is at least 16^k. */
  lemma {:induction false} NibbleBelow(m: nat, k: nat)
    requires Nibble(m, k) > 0
    ensures m >= Pow16(k)
  {
    if k > 0 {
      NibbleBelow(m / 16, k - 1);
    }
  }

  /** `m & ~(1ul << 4k)`: clears the low bit of nibble `k`. */
  function ClearLow(m: nat, k: nat): nat
  {
    if Nibble(m, k) % 2 == 1 then NibbleBelow(m, k); m - Pow16(k) else m
  }

  /** Subtracting 16^k from a number whose nibble k is non-zero lowers that nibble
      by one and leaves every other nibble alone. */
  lemma {:induction false} SubPowNibble(m: nat, k: nat, j: nat)
    requires Nibble(m, k) > 0
    ensures m >= Pow16(k)
    ensures Nibble(m - Pow16(k), j) == if j == k then Nibble(m, j) - 1 else Nibble(m, j)
  {
    NibbleBelow(m, k);
    var q, r := m / 16, m % 16;
    assert m == 16 * q + r;
    if k == 0 {
      assert m - 1 == 16 * q + (r - 1);
      assert (m - 1) % 16 == r - 1 && (m - 1) / 16 == q;
    } else {
      var p := Pow16(k - 1);
      assert m - Pow16(k) == 16 * (q - p) + r;
      assert (m - Pow16(k)) % 16 == r && (m - Pow16(k)) / 16 == q - p;
      NibbleBelow(q, k - 1);
      if j > 0 {
        SubPowNibble(q, k - 1, j - 1);
      }
    }
  }

  /** Clearing the low bit of nibble `k` touches no other nibble. */
  lemma ClearLowNibble(m: nat, k: nat, j: nat)
    ensures Nibble(ClearLow(m, k), j) == if j == k then Nibble(m, j) - Nibble(m, j) % 2 else Nibble(m, j)
  {
    if Nibble(m, k) % 2 == 1 {
      SubPowNibble(m, k, j);
    }
  }

  /** Clears the low bit of every listed nibble, one `mask &= ~(1ul << …)` at a time. */
  function ClearAll(m: nat, offsets: seq<nat>): nat
  {
    if offsets == [] then m else ClearAll(ClearLow(m, offsets[0]), offsets[1..])
  }

  /** After clearing, a listed nibble has lost its low bit and the others are unchanged. */
  lemma {:induction false} ClearAllNibble(m: nat, offsets: seq<nat>, j: nat)
    ensures Nibble(ClearAll(m, offsets), j) ==
      if j in offsets then Nibble(m, j) - Nibble(m, j) % 2 else Nibble(m, j)
  {
    if offsets != [] {
      var m' := ClearLow(m, offsets[0]);
      ClearLowNibble(m, offsets[0], j);
      ClearAllNibble(m', offsets[1..], j);
      assert j in offsets <==> j == offsets[0] || j in offsets[1..];
      var a, b := Nibble(m, j), Nibble(m', j);
      if j == offsets[0] {
        EvenAfterClear(a, b);
      }
    }
  }

  lemma EvenAfterClear(a: nat, b: nat)
    requires b == a - a % 2
    ensures b % 2 == 0 && b - b % 2 == b
  {
  }

  /** Clearing bits never makes a number larger. */
  lemma {:induction false} ClearAllSmaller(m: nat, offsets: seq<nat>)
    ensures ClearAll(m, offsets) <= m
  {
    if offsets != [] {
      ClearAllSmaller(ClearLow(m, offsets[0]), offsets[1..]);
    }
  }

  /** 0x11…1 with `n` ones: the nibbles below `n` are one, the rest zero. */
  function Ones(n: nat): nat
  {
    if n == 0 then 0 else 16 * Ones(n - 1) + 1
  }

  /** Every nibble of zero is zero. */
  lemma {:induction false} NibbleZero(k: nat)
    ensures Nibble(0, k) == 0
  {
    if k > 0 {
      NibbleZero(k - 1);
    }
  }

  lemma {:induction false} OnesNibbles(n: nat, k: nat)
    ensures Nibble(Ones(n), k) == if k < n then 1 else 0
  {
    if n == 0 {
      NibbleZero(k);
    } else {
      assert Ones(n) % 16 == 1 && Ones(n) / 16 == Ones(n - 1);
      if k > 0 {
        OnesNibbles(n - 1, k - 1);
      }
    }
  }

  /** The literals of the source are sixteen-digit instances of `Ones` and `Pow16`. */
  lemma Literals()
    ensures Ones(16) == BaseMask && Pow16(16) == Modulus
  {
    assert Ones(4) == 0x1111 && Pow16(4) == 0x1_0000;
    assert Ones(8) == 0x1111_1111 && Pow16(8) == 0x1_0000_0000;
    assert Ones(12) == 0x1111_1111_1111 && Pow16(12) == 0x1_0000_0000_0000;
  }

  /** Each nibble of the base mask is one. */
  lemma BaseMaskNibbles(k: nat)
    requires k < 16
    ensures Nibble(BaseMask, k) == 1
  {
    Literals();
    OnesNibbles(16, k);
  }

  /** `GetOffsetFor` inside `InitTwoWayByTwoWayMasks`. */
  function Offset(from: nat, to: nat): (k: nat)
    requires from < 4 && to < 4
    ensures k < 16
  {
    from * 4 + to
  }

  /** The street straight across, on the left and on the right of street `from`. */
  function Straight(from: nat): nat
    requires from < 4
  {
    if from == 0 then 2 else if from == 2 then 0 else if from == 1 then 3 else 1
  }

  function Left(from: nat): nat
    requires from < 4
  {
    if from == 0 then 3 else if from == 2 then 1 else if from == 1 then 0 else 2
  }

  function Right(from: nat): nat
    requires from < 4
  {
    if from == 0 then 1 else if from == 2 then 3 else if from == 1 then 2 else 0
  }

  /** Straight, left, right and `from` itself are the four streets. */
  lemma Directions(from: nat, other: nat)
    requires from < 4 && other < 4
    ensures other in {Straight(from), Left(from), Right(from), from}
  {
  }

  /** The paths a car on (from, to) leaves unblocked, in the order the mask table
      construction clears them. */
  function Unblocked(from: nat, to: nat): seq<nat>
    requires from < 4 && to < 4
  {
    var straight, left, right := Straight(from), Left(from), Right(from);
    [Offset(from, to), Offset(from, right), Offset(from, left), Offset(from, from)]
    + (if to == straight then
         [Offset(to, from), Offset(straight, left), Offset(left, left), Offset(right, right)]
       else if to == right then
         [Offset(to, from), Offset(straight, left), Offset(left, from), Offset(left, left),
          Offset(straight, straight)]
       else if to == left then
         [Offset(left, from), Offset(right, right), Offset(straight, straight)]
       else
         [Offset(left, right), Offset(right, left), Offset(right, straight), Offset(left, straight),
          Offset(left, left), Offset(right, right), Offset(straight, straight)])
  }

  /** `_twoWayByTwoWayMasks[from][to]`. */
  function TwoWayMask(from: nat, to: nat): nat
    requires from < 4 && to < 4
  {
    ClearAll(BaseMask, Unblocked(from, to))
  }

  /** A mask whose every nibble is 0 or 1 and that fits in 64 bits. */
  predicate Sparse(m: nat)
  {
    m < Modulus && forall k :: 0 <= k < 16 ==> Nibble(m, k) <= 1
  }

  /** The two-way mask blocks exactly the paths it does not list. */
  lemma TwoWayMaskNibbles(from: nat, to: nat, k: nat)
    requires from < 4 && to < 4 && k < 16
    ensures Nibble(TwoWayMask(from, to), k) == if k in Unblocked(from, to) then 0 else 1
  {
    ClearedBase(Unblocked(from, to), k);
  }

  /** Clearing listed nibbles of the base mask leaves a one exactly at the others. */
  lemma ClearedBase(offsets: seq<nat>, k: nat)
    requires k < 16
    ensures Nibble(ClearAll(BaseMask, offsets), k) == if k in offsets then 0 else 1
  {
    ClearAllNibble(BaseMask, offsets, k);
    BaseMaskNibbles(k);
  }

  /** A car never blocks its own path, nor the U-turn and the left and right turns
      out of its own street. */
  lemma OwnStreetUnblocked(from: nat, to: nat)
    requires from < 4 && to < 4
    ensures Offset(from, to) in Unblocked(from, to) && Offset(from, from) in Unblocked(from, to)
    ensures Offset(from, Left(from)) in Unblocked(from, to)
    ensures Offset(from, Right(from)) in Unblocked(from, to)
  {
    var u := Unblocked(from, to);
    assert u[0] == Offset(from, to) && u[1] == Offset(from, Right(from));
    assert u[2] == Offset(from, Left(from)) && u[3] == Offset(from, from);
  }

  lemma TwoWayMaskSparse(from: nat, to: nat)
    requires from < 4 && to < 4
    ensures Sparse(TwoWayMask(from, to))
  {
    ClearAllSmaller(BaseMask, Unblocked(from, to));
    forall k | 0 <= k < 16 ensures Nibble(TwoWayMask(from, to), k) <= 1 {
      TwoWayMaskNibbles(from, to, k);
    }
  }

  /** How an intersection is seen when a car asks for its mask. */
  datatype Crossing = Crossing(
    streetCount: nat,       // intersection.IntersectingStreets.Count
    twoWayByTwoWay: bool,   // the intersection's pattern is TwoWayByTwoWay
    fromPos: nat,           // RelativePosition(from)
    toPos: nat,             // RelativePosition(to)
    pathIndex: nat)         // GetIndexForIntersectionPath(from, to)

  /** What `GetMask` needs of a crossing: relative positions that index the 4x4 table. */
  predicate Indexable(c: Crossing)
  {
    c.streetCount <= 4 && c.twoWayByTwoWay ==> c.fromPos < 4 && c.toPos < 4
  }

  /** `GetMask` (the per-segment-pair cache is memoisation and is not modelled).
      The shift count of `1ul << (index * 4)` is taken modulo 64 as in C#. */
  function GetMask(c: Crossing): (m: nat)
    requires Indexable(c)
    ensures c.streetCount > 4 ==> m == AllOnes
    ensures c.streetCount <= 4 && c.twoWayByTwoWay ==> m == TwoWayMask(c.fromPos, c.toPos)
    ensures c.streetCount <= 4 ==> Sparse(m)
    ensures c.streetCount <= 4 && !c.twoWayByTwoWay ==>
      forall k :: 0 <= k < 16 ==> (Nibble(m, k) == 0 <==> k == c.pathIndex % 16)
  {
    if c.streetCount > 4 then AllOnes
    else if c.twoWayByTwoWay then
      TwoWayMaskSparse(c.fromPos, c.toPos);
      TwoWayMask(c.fromPos, c.toPos)
    else
      OneWayMask(c.pathIndex);
      ClearLow(BaseMask, (c.pathIndex * 4) % 64 / 4)
  }

  /** The mask of a path on an intersection that is not two-way by two-way:
      every path blocked but the one at `(index * 4) % 64 / 4`, which is the
      index modulo 16. */
  lemma OneWayMask(index: nat)
    ensures (index * 4) % 64 / 4 == index % 16
    ensures Sparse(ClearLow(BaseMask, index % 16))
    ensures forall k :: 0 <= k < 16 ==> Nibble(ClearLow(BaseMask, index % 16), k) == (if k == index % 16 then 0 else 1)
  {
    var p := index % 16;
    assert (index * 4) % 64 / 4 == p by {
      ShiftOffset(index);
    }
    var m := ClearLow(BaseMask, p);
    forall k | 0 <= k < 16 ensures Nibble(m, k) == (if k == p then 0 else 1) {
      ClearLowNibble(BaseMask, p, k);
      BaseMaskNibbles(k);
    }
    ClearLowSmaller(BaseMask, p);
  }

  lemma ShiftOffset(index: nat)
    ensures (index * 4) % 64 / 4 == index % 16
  {
    var q, r := index / 16, index % 16;
    assert index * 4 == 64 * q + 4 * r;
  }

  lemma ClearLowSmaller(m: nat, k: nat)
    ensures ClearLow(m, k) <= m
  {
  }

  /** `IsBlocked`: any occupation at all on a large intersection, otherwise
      `(status & (0xF << (index * 4))) != 0`, i.e. the path's nibble is non-zero. */
  function IsBlocked(status: nat, c: Crossing): bool
  {
    if c.streetCount > 4 then status != 0 else Nibble(status, c.pathIndex % 16) != 0
  }

  /** `IsBlocked` reads only the nibble at the path index. */
  lemma IsBlockedReadsOneNibble(s1: nat, s2: nat, c: Crossing)
    requires c.streetCount <= 4
    requires Nibble(s1, c.pathIndex % 16) == Nibble(s2, c.pathIndex % 16)
    ensures IsBlocked(s1, c) == IsBlocked(s2, c)
  {
  }

  /** `Block` then `Unblock` with the same mask restores the word and the count,
      also when the addition wrapped around. */
  lemma BlockThenUnblock(status: nat, mask: nat)
    requires status < Modulus && mask < Modulus
    ensures ((status + mask) % Modulus - mask) % Modulus == status
  {
  }

  /** Adding two numbers whose nibbles never sum past 15 adds nibble by nibble. */
  lemma {:induction false} AddNibble(a: nat, b: nat, j: nat)
    requires forall i :: 0 <= i <= j ==> Nibble(a, i) + Nibble(b, i) <= 15
    ensures Nibble(a + b, j) == Nibble(a, j) + Nibble(b, j)
  {
    assert Nibble(a, 0) + Nibble(b, 0) <= 15;
    var qa, ra, qb, rb := a / 16, a % 16, b / 16, b % 16;
    assert a + b == 16 * (qa + qb) + (ra + rb);
    assert (a + b) % 16 == ra + rb && (a + b) / 16 == qa + qb;
    if j > 0 {
      forall i | 0 <= i <= j - 1 ensures Nibble(qa, i) + Nibble(qb, i) <= 15 {
        assert Nibble(a, i + 1) + Nibble(b, i + 1) <= 15;
      }
      AddNibble(qa, qb, j - 1);
    }
  }

  /** A number below 16^n whose nibbles are all 0 or 1 is at most `Ones(n)`. */
  lemma {:induction false} SparseBound(m: nat, n: nat)
    requires m < Pow16(n)
    requires forall k :: 0 <= k < n ==> Nibble(m, k) <= 1
    ensures m <= Ones(n)
  {
    if n > 0 {
      forall k | 0 <= k < n - 1 ensures Nibble(m / 16, k) <= 1 {
        assert Nibble(m, k + 1) <= 1;
      }
      assert Nibble(m, 0) <= 1;
      SparseBound(m / 16, n - 1);
    }
  }

  lemma SparseBelowBase(m: nat)
    requires Sparse(m)
    ensures m <= BaseMask
  {
    Literals();
    SparseBound(m, 16);
  }

  /** The sum of the masks of the cars on the intersection. */
  function Sum(masks: seq<nat>): nat
  {
    if masks == [] then 0 else Sum(masks[..|masks| - 1]) + masks[|masks| - 1]
  }

  lemma {:induction false} SumConcat(a: seq<nat>, b: seq<nat>)
    ensures Sum(a + b) == Sum(a) + Sum(b)
  {
    if b != [] {
      assert (a + b)[..|a + b| - 1] == a + b[..|b| - 1];
      SumConcat(a, b[..|b| - 1]);
    } else {
      assert a + b == a;
    }
  }

  /** Taking one mask out of the list takes it out of the sum. */
  lemma SumRemove(masks: seq<nat>, i: nat)
    requires i < |masks|
    ensures Sum(masks[..i] + masks[i + 1..]) == Sum(masks) - masks[i]
  {
    SplitAt(masks, i);
    SumAround(masks[..i], masks[i], masks[i + 1..]);
  }

  lemma SplitAt(masks: seq<nat>, i: nat)
    requires i < |masks|
    ensures masks == (masks[..i] + [masks[i]]) + masks[i + 1..]
  {
  }

  /** The sum with one mask more in the middle. */
  lemma SumAround(a: seq<nat>, v: nat, b: seq<nat>)
    ensures Sum((a + [v]) + b) == Sum(a + b) + v
  {
    SumConcat(a + [v], b);
    SumConcat(a, [v]);
    SumConcat(a, b);
    assert [v][..0] == [];
  }

  /** How many of the masks add one to path `k`. */
  function Blockers(masks: seq<nat>, k: nat): nat
  {
    if masks == [] then 0
    else Blockers(masks[..|masks| - 1], k) + (if Nibble(masks[|masks| - 1], k) == 1 then 1 else 0)
  }

  lemma {:induction false} BlockersBound(masks: seq<nat>, k: nat)
    ensures Blockers(masks, k) <= |masks|
  {
    if masks != [] {
      BlockersBound(masks[..|masks| - 1], k);
    }
  }

  /** With at most 15 sparse masks, nothing carries: each nibble of the sum is the
      number of cars blocking that path, and the sum fits in 64 bits. */
  lemma {:induction false} SumOfSparse(masks: seq<nat>)
    requires |masks| <= 15
    requires forall i :: 0 <= i < |masks| ==> Sparse(masks[i])
    ensures Sum(masks) <= |masks| * BaseMask
    ensures forall k :: 0 <= k < 16 ==> Nibble(Sum(masks), k) == Blockers(masks, k)
  {
    if masks == [] {
      forall k | 0 <= k < 16 ensures Nibble(Sum(masks), k) == 0 {
        NibbleZero(k);
      }
    } else {
      var init, last := masks[..|masks| - 1], masks[|masks| - 1];
      forall i | 0 <= i < |init| ensures Sparse(init[i]) {
        assert init[i] == masks[i];
      }
      SumOfSparse(init);
      SparseBelowBase(last);
      assert Sum(masks) == Sum(init) + last;
      assert (|masks| - 1) * BaseMask + BaseMask == |masks| * BaseMask;
      forall k | 0 <= k < 16 ensures Nibble(Sum(masks), k) == Blockers(masks, k) {
        forall i | 0 <= i <= k ensures Nibble(Sum(init), i) + Nibble(last, i) <= 15 {
          BlockersBound(init, i);
        }
        AddNibble(Sum(init), last, k);
        assert Blockers(masks, k) == Blockers(init, k) + (if Nibble(last, k) == 1 then 1 else 0);
      }
    }
  }

  /** Nibble-wise view used by the corrected `TryBlock`: a path is blocked exactly
      when some car on the intersection blocks it. */
  lemma BlockedIffSomeCarBlocks(masks: seq<nat>, c: Crossing)
    requires |masks| <= 15 && c.streetCount <= 4
    requires forall i :: 0 <= i < |masks| ==> Sparse(masks[i])
    ensures IsBlocked(Sum(masks) % Modulus, c) <==> Blockers(masks, c.pathIndex % 16) > 0
  {
    SumOfSparse(masks);
    assert Sum(masks) < Modulus;
  }

  /** On a large intersection every car adds `~0ul`, i.e. subtracts one modulo 2^64. */
  lemma {:induction false} SumOfAllOnes(masks: seq<nat>)
    requires forall i :: 0 <= i < |masks| ==> masks[i] == AllOnes
    ensures Sum(masks) == |masks| * AllOnes
  {
    if masks != [] {
      var init := masks[..|masks| - 1];
      forall i | 0 <= i < |init| ensures init[i] == AllOnes {
        assert init[i] == masks[i];
      }
      SumOfAllOnes(init);
    }
  }

  /** So a large intersection with at most 16 cars is blocked iff some car is on it. */
  lemma LargeBlockedIffOccupied(masks: seq<nat>, c: Crossing)
    requires |masks| <= 16 && c.streetCount > 4
    requires forall i :: 0 <= i < |masks| ==> masks[i] == AllOnes
    ensures IsBlocked(Sum(masks) % Modulus, c) <==> |masks| > 0
  {
    SumOfAllOnes(masks);
    var n := |masks|;
    if n > 0 {
      assert n * AllOnes == (n - 1) * Modulus + (Modulus - n);
      ModOfMultiple(n - 1, Modulus - n);
    }
  }

  lemma ModOfMultiple(q: nat, r: nat)
    requires r < Modulus
    ensures (Modulus * q + r) % Modulus == r
  {
  }

  /** The admission test of `TryBlock` as written: refuse only the 17th car. */
  function AdmitsAsWritten(cars: int): bool
  {
    cars != 16
  }

  /** As written, 16 cars that all block path 0 carry nibble 0 into nibble 1: the
      word then says path 0 is free. */
  lemma SixteenCarsHidePath()
    ensures AdmitsAsWritten(15)
    ensures Blockers(seq(16, _ => BaseMask), 0) == 16
    ensures Sum(seq(16, _ => BaseMask)) % Modulus == 0x1111_1111_1111_1110
    ensures !IsBlocked(0x1111_1111_1111_1110, Crossing(4, false, 0, 0, 0))
  {
    var s := seq(16, _ => BaseMask);
    var i := 0;
    while i < 16
      invariant 0 <= i <= 16
      invariant Sum(s[..i]) == i * BaseMask && Blockers(s[..i], 0) == i
    {
      assert s[..i + 1][..i] == s[..i];
      BaseMaskNibbles(0);
      i := i + 1;
    }
    assert s[..16] == s;
  }

  /** The corrected admission test: at most 15 cars, so a nibble never overflows. */
  function Admits(cars: int): (ok: bool)
    ensures ok <==> cars < 15
  {
    cars < 15
  }

  /** A car that the corrected rule admits is counted: with it on the
      crossing there are at most 15 cars, so a path reads as blocked
      exactly when one of them blocks it. */
  lemma AdmittedCarCounted(masks: seq<nat>, m: nat, c: Crossing)
    requires Admits(|masks|) && c.streetCount <= 4
    requires forall i :: 0 <= i < |masks| ==> Sparse(masks[i])
    requires Sparse(m)
    ensures IsBlocked(Sum(masks + [m]) % Modulus, c) <==> Blockers(masks + [m], c.pathIndex % 16) > 0
  {
    var all := masks + [m];
    assert forall i :: 0 <= i < |all| ==> Sparse(all[i]) by {
      forall i | 0 <= i < |all| ensures Sparse(all[i]) {
        if i < |masks| {
          assert all[i] == masks[i];
        }
      }
    }
    BlockedIffSomeCarBlocks(all, c);
  }

  class IntersectionStatus {
    var occupation: nat
    var cars: int
    /** The masks of the cars currently on the intersection, oldest first. */
    ghost var held: seq<nat>

    ghost predicate Valid()
      reads this
    {
      occupation == Sum(held) % Modulus && cars == |held|
    }

    constructor ()
      ensures Valid() && held == [] && occupation == 0 && cars == 0
    {
      occupation, cars, held := 0, 0, [];
    }

    /** `TryBlock`, with the corrected limit: refuses once 15 cars occupy the
        intersection and otherwise adds the crossing's mask. */
    method TryBlock(c: Crossing) returns (ok: bool)
      requires Valid() && Indexable(c)
      modifies this
      ensures Valid()
      ensures ok <==> Admits(old(cars))
      ensures ok ==> held == old(held) + [GetMask(c)]
      ensures !ok ==> held == old(held) && occupation == old(occupation) && cars == old(cars)
    {
      if !Admits(cars) {
        return false;
      }
      Block(GetMask(c));
      return true;
    }

    /** `Block`: `OccupationStatus += mask; ++_occupyingCars`. */
    method Block(mask: nat)
      requires Valid() && mask < Modulus
      modifies this
      ensures Valid() && held == old(held) + [mask]
      ensures occupation == (old(occupation) + mask) % Modulus && cars == old(cars) + 1
    {
      assert (held + [mask])[..|held|] == held;
      occupation := (occupation + mask) % Modulus;
      cars := cars + 1;
      held := held + [mask];
    }

    /** `Unblock(mask)` for a car on the intersection; `i` names which of the held
        masks it is. */
    method Unblock(mask: nat, ghost i: nat)
      requires Valid() && i < |held| && held[i] == mask
      modifies this
      ensures Valid() && held == old(held)[..i] + old(held)[i + 1..]
      ensures occupation == (old(occupation) - mask) % Modulus && cars == old(cars) - 1
    {
      SumRemove(held, i);
      occupation := (occupation - mask) % Modulus;
      cars := cars - 1;
      held := held[..i] + held[i + 1..];
    }

    /** While at most 15 cars with sparse masks occupy it, the word answers
        `IsBlocked` exactly: a path is blocked iff some occupying car blocks it. */
    lemma BlockedMeansOccupied(c: Crossing)
      requires Valid() && cars <= 15 && c.streetCount <= 4
      requires forall i :: 0 <= i < |held| ==> Sparse(held[i])
      ensures IsBlocked(occupation, c) <==> Blockers(held, c.pathIndex % 16) > 0
    {
      BlockedIffSomeCarBlocks(held, c);
    }

    /** On a large intersection with at most 16 cars, blocked means occupied. */
    lemma LargeBlockedMeansOccupied(c: Crossing)
      requires Valid() && cars <= 16 && c.streetCount > 4
      requires forall i :: 0 <= i < |held| ==> held[i] == AllOnes
      ensures IsBlocked(occupation, c) <==> cars > 0
    {
      LargeBlockedIffOccupied(held, c);
    }
  }

  /** Two numbers below 16^n with the same n low nibbles are equal. */
  lemma {:induction false} NibblesDetermine(a: nat, b: nat, n: nat)
    requires a < Pow16(n) && b < Pow16(n)
    requires forall k :: 0 <= k < n ==> Nibble(a, k) == Nibble(b, k)
    ensures a == b
  {
    if n > 0 {
      assert Nibble(a, 0) == Nibble(b, 0);
      forall k | 0 <= k < n - 1 ensures Nibble(a / 16, k) == Nibble(b / 16, k) {
        assert Nibble(a, k + 1) == Nibble(b, k + 1);
      }
      NibblesDetermine(a / 16, b / 16, n - 1);
    }
  }

  /** A 64-bit word with the nibbles of the two-way mask is the two-way mask. */
  lemma IsTwoWayMask(m: nat, from: nat, to: nat)
    requires from < 4 && to < 4 && m < Modulus
    requires forall k :: 0 <= k < 16 ==> Nibble(m, k) == if k in Unblocked(from, to) then 0 else 1
    ensures m == TwoWayMask(from, to)
  {
    TwoWayMaskSparse(from, to);
    forall k | 0 <= k < 16 ensures Nibble(m, k) == Nibble(TwoWayMask(from, to), k) {
      TwoWayMaskNibbles(from, to, k);
    }
    Literals();
    NibblesDetermine(m, TwoWayMask(from, to), 16);
  }

  /** One pass of the loop below: clearing the next offset's low bit zeroes
      its nibble too. */
  lemma ClearStep(mask: nat, offsets: seq<nat>, i: nat)
    requires i < |offsets|
    requires forall k :: 0 <= k < 16 ==> Nibble(mask, k) == if k in offsets[..i] then 0 else 1
    ensures ClearLow(mask, offsets[i]) <= mask
    ensures forall k :: 0 <= k < 16 ==> Nibble(ClearLow(mask, offsets[i]), k) == if k in offsets[..i + 1] then 0 else 1
  {
    assert offsets[..i + 1] == offsets[..i] + [offsets[i]];
    forall k | 0 <= k < 16
      ensures Nibble(ClearLow(mask, offsets[i]), k) == if k in offsets[..i + 1] then 0 else 1
    {
      ClearLowNibble(mask, offsets[i], k);
    }
  }

  /** One entry of the table, computed as the source does: start from the base mask
      and clear the low bit of each unblocked path in turn. */
  method ComputeTwoWayMask(from: nat, to: nat) returns (mask: nat)
    requires from < 4 && to < 4
    ensures mask < Modulus
    ensures forall k :: 0 <= k < 16 ==> Nibble(mask, k) == if k in Unblocked(from, to) then 0 else 1
  {
    var offsets := Unblocked(from, to);
    mask := BaseMask;
    forall k | 0 <= k < 16 ensures Nibble(mask, k) == 1 {
      BaseMaskNibbles(k);
    }
    var i := 0;
    while i < |offsets|
      invariant 0 <= i <= |offsets|
      invariant mask <= BaseMask
      invariant forall k :: 0 <= k < 16 ==> Nibble(mask, k) == if k in offsets[..i] then 0 else 1
    {
      ClearStep(mask, offsets, i);
      mask := ClearLow(mask, offsets[i]);
      i := i + 1;
    }
    assert offsets[..i] == offsets;
  }

  /** `InitTwoWayByTwoWayMasks`: a jagged 4x4 table, filled row by row. */
  method InitTwoWayByTwoWayMasks() returns (table: array<array<nat>>)
    ensures fresh(table) && table.Length == 4
    ensures forall f :: 0 <= f < 4 ==> fresh(table[f]) && table[f].Length == 4
    ensures forall f, t :: 0 <= f < 4 && 0 <= t < 4 ==> table[f][t] == TwoWayMask(f, t)
  {
    var empty := new nat[0];
    table := new array<nat>[4](_ => empty);
    var from := 0;
    while from < 4
      invariant 0 <= from <= 4
      invariant forall f :: 0 <= f < from ==> fresh(table[f]) && table[f].Length == 4 && table[f] != empty
      invariant forall f, g :: 0 <= f < g < from ==> table[f] != table[g]
      invariant forall f, t :: 0 <= f < from && 0 <= t < 4 ==> RowEntry(table[f][t], f, t)
    {
      var row := new nat[4];
      FillRow(row, from);
      table[from] := row;
      from := from + 1;
    }
    forall f, t | 0 <= f < 4 && 0 <= t < 4 ensures table[f][t] == TwoWayMask(f, t) {
      IsTwoWayMask(table[f][t], f, t);
    }
  }

  /** What the table construction establishes about one entry. */
  ghost predicate RowEntry(m: nat, from: nat, to: nat)
    requires from < 4 && to < 4
  {
    m < Modulus && forall k :: 0 <= k < 16 ==> Nibble(m, k) == if k in Unblocked(from, to) then 0 else 1
  }

  /** The inner loop of `InitTwoWayByTwoWayMasks`: the masks of one `from` street. */
  method FillRow(row: array<nat>, from: nat)
    requires row.Length == 4 && from < 4
    modifies row
    ensures forall t :: 0 <= t < 4 ==> RowEntry(row[t], from, t)
  {
    var to := 0;
    while to < 4
      invariant 0 <= to <= 4
      invariant forall t :: 0 <= t < to ==> RowEntry(row[t], from, t)
    {
      row[to] := ComputeTwoWayMask(from, to);
      to := to + 1;
    }
  }
}
