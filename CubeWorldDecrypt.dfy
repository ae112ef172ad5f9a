/**
 * The stand-alone decrypt utility of CubeWorldDecrypt/Program.cs: its own copy
 * of the offset table and of the two in-place codec methods, and the rule
 * that names the output file.
 */
module CubeWorldDecrypt {
  import opened Prelude
  import AssetTools

  /** The utility's copy of the 44 magic offsets. */
  const OffsetLookupTable: seq<int32> := [
    0x1092, 0x254F, 0x348, 0x14B40, 0x241A, 0x2676, 0x7F, 0x9, 0x250B,
    0x18A, 0x7B, 0x12E2, 0x7EBC, 0x5F23, 0x981, 0x11, 0x85BA, 0x0A566,
    0x1093, 0x0E, 0x2D266, 0x7C3, 0x0C16, 0x76D, 0x15D41, 0x12CD,
    0x25, 0x8F, 0x0DA2, 0x4C1B, 0x53F, 0x1B0, 0x14AFC, 0x23E0, 0x258C,
    0x4D1, 0x0D6A, 0x72F, 0x0BA8, 0x7C9, 0x0BA8, 0x131F, 0x0C75C7, 0x0D
  ]

  /** The copy agrees entry for entry with the library's table. */
  lemma SameOffsetTable()
    ensures |OffsetLookupTable| == 44
    ensures forall k | 0 <= k < 44 :: OffsetLookupTable[k] == AssetTools.OffsetLookupTable[k]
  {
  }

  lemma OffsetLookupTableValid()
    ensures AssetTools.ValidTable(OffsetLookupTable)
  {
    SameOffsetTable();
    AssetTools.OffsetLookupTableValid();
  }

  /** The decrypted copy of `fileName` is written next to it, under the same name plus ".out". */
  function OutputFileName(fileName: string): (r: string)
    ensures |r| == |fileName| + 4 && r != fileName
    ensures r[..|fileName|] == fileName && r[|fileName|..] == ".out"
  {
    fileName + ".out"
  }

  /** Descrambles `input` in place: swaps downward, then complements. */
  method Descramble(input: array<byte>)
    requires input.Length <= AssetTools.MaxLength
    modifies input
    ensures input[..] == AssetTools.Descrambled(OffsetLookupTable, old(input[..]))
  {
    OffsetLookupTableValid();
    AssetTools.SwapDescending(OffsetLookupTable, input);
    AssetTools.ComplementInPlace(input);
  }

  /** Scrambles `input` in place: complements, then swaps upward. */
  method Scramble(input: array<byte>)
    requires input.Length <= AssetTools.MaxLength
    modifies input
    ensures input[..] == AssetTools.Scrambled(OffsetLookupTable, old(input[..]))
  {
    OffsetLookupTableValid();
    AssetTools.ComplementInPlace(input);
    AssetTools.SwapAscending(OffsetLookupTable, input);
  }

  /** The utility's Descramble computes the library's Descramble on every buffer. */
  lemma DescrambleMatchesLibrary(s: seq<byte>)
    ensures AssetTools.ValidTable(OffsetLookupTable)
    ensures AssetTools.Descrambled(OffsetLookupTable, s)
         == AssetTools.Descrambled(AssetTools.OffsetLookupTable, s)
  {
    OffsetLookupTableValid();
    SameOffsetTable();
    assert OffsetLookupTable == AssetTools.OffsetLookupTable;
  }

  /** With the utility's copy of the table, Descramble undoes Scramble on every buffer. */
  lemma DescrambleScramble(s: seq<byte>)
    ensures AssetTools.ValidTable(OffsetLookupTable)
    ensures AssetTools.Descrambled(OffsetLookupTable, AssetTools.Scrambled(OffsetLookupTable, s)) == s
  {
    OffsetLookupTableValid();
    AssetTools.DescrambleScramble(OffsetLookupTable, s);
  }
}
