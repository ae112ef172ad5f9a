/**
 * The reversible byte-scrambling codec of CubeLib/AssetTools.cs.
 *
 * Scramble complements every byte and then walks `currOff` upward over the
 * buffer, swapping position `currOff` with position
 * `(currOff + table[currOff % 44]) % n`. Descramble replays the same swaps in
 * the opposite order and then complements. The specification functions below
 * take the offset table as a parameter, so that the duplicate codec of the
 * decrypt utility is specified (and proved) by the same definitions.
 */
module AssetTools {
  import opened Prelude

  /** The largest entry of the offset table. */
  const MaxOffset: int := 0xC75C7

  /** The longest buffer for which `currOff + table[currOff % 44]` cannot
      exceed Int32Max, whatever the entry. */
  const MaxLength: int := Int32Max + 1 - MaxOffset

  /** The 44 magic offsets, in the order of the source. */
  const OffsetLookupTable: seq<int32> := [
    0x1092, 0x254F, 0x348, 0x14B40, 0x241A, 0x2676, 0x7F, 0x9, 0x250B,
    0x18A, 0x7B, 0x12E2, 0x7EBC, 0x5F23, 0x981, 0x11, 0x85BA, 0x0A566,
    0x1093, 0x0E, 0x2D266, 0x7C3, 0x0C16, 0x76D, 0x15D41, 0x12CD,
    0x25, 0x8F, 0x0DA2, 0x4C1B, 0x53F, 0x1B0, 0x14AFC, 0x23E0, 0x258C,
    0x4D1, 0x0D6A, 0x72F, 0x0BA8, 0x7C9, 0x0BA8, 0x131F, 0x0C75C7, 0x0D
  ]

  /** An offset table the codec can use: 44 entries, none negative, none above MaxOffset. */
  predicate ValidTable(t: seq<int32>) {
    |t| == 44 && forall k | 0 <= k < 44 :: 0 <= t[k] as int <= MaxOffset
  }

  lemma OffsetLookupTableValid()
    ensures ValidTable(OffsetLookupTable)
  {
  }

  // ---------------------------------------------------------------- complement

  /** `(byte)(-1 - b)`: the int `-1 - b`, truncated to its low 8 bits. */
  function Complement(b: byte): (r: byte)
    ensures r as int == 255 - b as int
  {
    ((-1 - b as int) % 0x100) as byte
  }

  /** The first loop of Scramble (and the second of Descramble), on every byte. */
  function ComplementAll(s: seq<byte>): (r: seq<byte>)
    ensures |r| == |s|
    ensures forall i | 0 <= i < |s| :: r[i] as int == 255 - s[i] as int
  {
    seq(|s|, i requires 0 <= i < |s| => Complement(s[i]))
  }

  lemma ComplementAllInvolutive(s: seq<byte>)
    ensures ComplementAll(ComplementAll(s)) == s
  {
  }

  // ------------------------------------------------------------------- swaps

  /** The position swapped with `i` in a buffer of length `n`. */
  function Offset(t: seq<int32>, i: int, n: int): (r: int)
    requires ValidTable(t) && 0 <= i < n
    ensures 0 <= r < n
  {
    (i + t[i % 44] as int) % n
  }

  /** One iteration of a swap loop: exchange positions `i` and `Offset(t, i, |s|)`. */
  function Step(t: seq<int32>, s: seq<byte>, i: int): (r: seq<byte>)
    requires ValidTable(t) && 0 <= i < |s|
    ensures |r| == |s|
    ensures r[i] == s[Offset(t, i, |s|)] && r[Offset(t, i, |s|)] == s[i]
    ensures forall k | 0 <= k < |s| && k != i && k != Offset(t, i, |s|) :: r[k] == s[k]
  {
    var j := Offset(t, i, |s|);
    s[i := s[j]][j := s[i]]
  }

  /** The iterations `currOff = 0, 1, ..., k - 1` of Scramble's swap loop, in that order. */
  function Swaps(t: seq<int32>, s: seq<byte>, k: nat): (r: seq<byte>)
    requires ValidTable(t) && k <= |s|
    ensures |r| == |s|
  {
    if k == 0 then s else Step(t, Swaps(t, s, k - 1), k - 1)
  }

  /** The iterations `currOff = k - 1, k - 2, ..., 0` of Descramble's swap loop, in that order. */
  function Unswaps(t: seq<int32>, s: seq<byte>, k: nat): (r: seq<byte>)
    requires ValidTable(t) && k <= |s|
    ensures |r| == |s|
    decreases k
  {
    if k == 0 then s else Unswaps(t, Step(t, s, k - 1), k - 1)
  }

  /** What Scramble leaves in a buffer that held `s`. */
  function Scrambled(t: seq<int32>, s: seq<byte>): (r: seq<byte>)
    requires ValidTable(t)
    ensures |r| == |s|
  {
    Swaps(t, ComplementAll(s), |s|)
  }

  /** What Descramble leaves in a buffer that held `s`. */
  function Descrambled(t: seq<int32>, s: seq<byte>): (r: seq<byte>)
    requires ValidTable(t)
    ensures |r| == |s|
  {
    ComplementAll(Unswaps(t, s, |s|))
  }

  // ------------------------------------------------------------------ lemmas

  /** A single swap undoes itself: its partner position depends only on `i` and the length. */
  lemma StepInvolutive(t: seq<int32>, s: seq<byte>, i: int)
    requires ValidTable(t) && 0 <= i < |s|
    ensures Step(t, Step(t, s, i), i) == s
  {
  }

  lemma StepPermutes(t: seq<int32>, s: seq<byte>, i: int)
    requires ValidTable(t) && 0 <= i < |s|
    ensures multiset(Step(t, s, i)) == multiset(s)
  {
    var j := Offset(t, i, |s|);
    if i != j {
      calc {
        multiset(Step(t, s, i));
        multiset(s[i := s[j]][j := s[i]]);
        multiset(s[i := s[j]]) - multiset{s[j]} + multiset{s[i]};
        multiset(s) - multiset{s[i]} + multiset{s[j]} - multiset{s[j]} + multiset{s[i]};
      }
    }
  }

  /** The descending swap loop undoes the ascending one. */
  lemma {:induction false} UnswapsUndoSwaps(t: seq<int32>, s: seq<byte>, k: nat)
    requires ValidTable(t) && k <= |s|
    ensures Unswaps(t, Swaps(t, s, k), k) == s
  {
    if k > 0 {
      StepInvolutive(t, Swaps(t, s, k - 1), k - 1);
      UnswapsUndoSwaps(t, s, k - 1);
    }
  }

  /** The ascending swap loop undoes the descending one. */
  lemma {:induction false} SwapsUndoUnswaps(t: seq<int32>, s: seq<byte>, k: nat)
    requires ValidTable(t) && k <= |s|
    ensures Swaps(t, Unswaps(t, s, k), k) == s
    decreases k
  {
    if k > 0 {
      var s' := Step(t, s, k - 1);
      SwapsUndoUnswaps(t, s', k - 1);
      StepInvolutive(t, s, k - 1);
    }
  }

  /** The ascending swap loop only moves bytes around. */
  lemma {:induction false} SwapsPermute(t: seq<int32>, s: seq<byte>, k: nat)
    requires ValidTable(t) && k <= |s|
    ensures multiset(Swaps(t, s, k)) == multiset(s)
  {
    if k > 0 {
      SwapsPermute(t, s, k - 1);
      StepPermutes(t, Swaps(t, s, k - 1), k - 1);
    }
  }

  /** The descending swap loop only moves bytes around. */
  lemma {:induction false} UnswapsPermute(t: seq<int32>, s: seq<byte>, k: nat)
    requires ValidTable(t) && k <= |s|
    ensures multiset(Unswaps(t, s, k)) == multiset(s)
    decreases k
  {
    if k > 0 {
      StepPermutes(t, s, k - 1);
      UnswapsPermute(t, Step(t, s, k - 1), k - 1);
    }
  }

  /** Descramble after Scramble restores every buffer, the empty one included. */
  lemma DescrambleScramble(t: seq<int32>, s: seq<byte>)
    requires ValidTable(t)
    ensures Descrambled(t, Scrambled(t, s)) == s
  {
    var c := ComplementAll(s);
    UnswapsUndoSwaps(t, c, |s|);
    ComplementAllInvolutive(s);
  }

  /** Scramble after Descramble restores every buffer, the empty one included. */
  lemma ScrambleDescramble(t: seq<int32>, s: seq<byte>)
    requires ValidTable(t)
    ensures Scrambled(t, Descrambled(t, s)) == s
  {
    var u := Unswaps(t, s, |s|);
    ComplementAllInvolutive(u);
    SwapsUndoUnswaps(t, s, |s|);
  }

  /** The bytes Scramble stores are the complemented input bytes, rearranged. */
  lemma ScramblePermutesComplement(t: seq<int32>, s: seq<byte>)
    requires ValidTable(t)
    ensures multiset(Scrambled(t, s)) == multiset(ComplementAll(s))
  {
    SwapsPermute(t, ComplementAll(s), |s|);
  }

  /** The bytes Descramble returns are the complements of the stored bytes, rearranged. */
  lemma DescramblePermutesComplement(t: seq<int32>, s: seq<byte>)
    requires ValidTable(t)
    ensures multiset(ComplementAll(Descrambled(t, s))) == multiset(s)
  {
    var u := Unswaps(t, s, |s|);
    ComplementAllInvolutive(u);
    UnswapsPermute(t, s, |s|);
  }

  /** An empty buffer is left as it is: no swap loop iteration runs. */
  lemma EmptyUnchanged(t: seq<int32>)
    requires ValidTable(t)
    ensures Scrambled(t, []) == [] && Descrambled(t, []) == []
  {
  }

  /** Replaying the ascending swap loop does not undo it: on the four bytes
      0, 1, 2, 3 the loop exchanges positions 0 and 2, then 1 and 0, and leaves
      positions 2 and 3 in place, giving 1, 2, 0, 3; a second ascending pass gives
      2, 0, 1, 3. Hence Descramble must run its swaps downward. */
  lemma AscendingReplayIsNotInverse()
    ensures Swaps(OffsetLookupTable, Swaps(OffsetLookupTable, [0, 1, 2, 3], 4), 4) == [2, 0, 1, 3]
  {
    var t := OffsetLookupTable;
    OffsetLookupTableValid();
    assert t[0] == 0x1092;
    assert t[1] == 0x254F;
    assert t[2] == 0x348;
    assert t[3] == 0x14B40;
    assert Offset(t, 0, 4) == 2;
    assert Offset(t, 1, 4) == 0;
    assert Offset(t, 2, 4) == 2;
    assert Offset(t, 3, 4) == 3;
    assert Swaps(t, [0, 1, 2, 3], 2) == [1, 2, 0, 3];
    assert Swaps(t, [0, 1, 2, 3], 4) == [1, 2, 0, 3];
    assert Swaps(t, [1, 2, 0, 3], 1) == [0, 2, 1, 3];
    assert Swaps(t, [1, 2, 0, 3], 2) == [2, 0, 1, 3];
  }

  // --------------------------------------------------------- in-place methods

  /** The complement loop: every byte `b` of `a` becomes `(byte)(-1 - b)`. */
  method ComplementInPlace(a: array<byte>)
    modifies a
    ensures a[..] == ComplementAll(old(a[..]))
  {
    var i := 0;
    while i < a.Length
      invariant 0 <= i <= a.Length
      invariant forall k | 0 <= k < i :: a[k] == Complement(old(a[k]))
      invariant forall k | i <= k < a.Length :: a[k] == old(a[k])
    {
      a[i] := Complement(a[i]);
      i := i + 1;
    }
  }

  /** Swaps `a[currOff]` with `a[Offset(t, currOff, a.Length)]`, using a temporary. */
  method SwapAt(t: seq<int32>, a: array<byte>, currOff: int32)
    requires ValidTable(t) && 0 <= currOff as int < a.Length <= MaxLength
    modifies a
    ensures a[..] == Step(t, old(a[..]), currOff as int)
  {
    var n := a.Length as int32;
    // the 32-bit sum cannot wrap: currOff < n <= MaxLength and t[_] <= MaxOffset
    var offset := (currOff + t[currOff % 44]) % n;
    assert offset as int == Offset(t, currOff as int, n as int);
    var temp := a[currOff];
    a[currOff] := a[offset];
    a[offset] := temp;
  }

  /** The swap loop of Scramble: `currOff` runs upward from 0 to n - 1. */
  method SwapAscending(t: seq<int32>, a: array<byte>)
    requires ValidTable(t) && a.Length <= MaxLength
    modifies a
    ensures a[..] == Swaps(t, old(a[..]), a.Length)
  {
    var n := a.Length as int32;
    var currOff: int32 := 0;
    while currOff < n
      invariant 0 <= currOff <= n
      invariant a[..] == Swaps(t, old(a[..]), currOff as nat)
    {
      SwapAt(t, a, currOff);
      currOff := currOff + 1;
    }
  }

  /** The swap loop of Descramble: `currOff` runs downward from n - 1 to 0. */
  method SwapDescending(t: seq<int32>, a: array<byte>)
    requires ValidTable(t) && a.Length <= MaxLength
    modifies a
    ensures a[..] == Unswaps(t, old(a[..]), a.Length)
  {
    var n := a.Length as int32;
    var currOff: int32 := n - 1;
    while currOff >= 0
      invariant -1 <= currOff < n
      invariant Unswaps(t, a[..], currOff as int + 1) == Unswaps(t, old(a[..]), n as nat)
    {
      SwapAt(t, a, currOff);
      currOff := currOff - 1;
    }
  }

  /** Scrambles `inputData` in place, preparing it for storage as an asset. */
  method Scramble(inputData: array<byte>)
    requires inputData.Length <= MaxLength
    modifies inputData
    ensures inputData[..] == Scrambled(OffsetLookupTable, old(inputData[..]))
  {
    OffsetLookupTableValid();
    ComplementInPlace(inputData);
    SwapAscending(OffsetLookupTable, inputData);
  }

  /** Descrambles `inputData` in place, recovering the asset stored in it. */
  method Descramble(inputData: array<byte>)
    requires inputData.Length <= MaxLength
    modifies inputData
    ensures inputData[..] == Descrambled(OffsetLookupTable, old(inputData[..]))
  {
    OffsetLookupTableValid();
    SwapDescending(OffsetLookupTable, inputData);
    ComplementInPlace(inputData);
  }
}
