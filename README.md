# cubeworld-tools asset store and codec, in Dafny

This project models the core of the Cube World asset tools. The core has two parts:

- **The scrambling codec** (`CubeLib/AssetTools.cs`). Every asset is stored scrambled.
  `Scramble` first complements each byte, turning `b` into `(byte)(-1 - b)`. It then walks
  `currOff` upward over the buffer. At each step it swaps `a[currOff]` with
  `a[(currOff + offsetLookupTable[currOff % 44]) % n]`.
  `Descramble` runs the same swaps with `currOff` going downward, then complements.
- **The asset database** (`CubeLib/AssetDatabase.cs`). This is a table `blobs(key, value)` of
  named, scrambled payloads. `GetAssets`, `GetAssetData`, `DeleteAsset` and `InsertAsset`
  list, read, delete and write its rows. Each `Asset` handle carries its name, its size and
  the database that issued it.
- **The decrypt utility** (`CubeWorldDecrypt/Program.cs`). It holds a verbatim copy of the
  table and of both codec methods, and writes its output to `<input>.out`.

Files:

- `Prelude.dfy` (module `Prelude`): the .NET `byte` and 32-bit `int` as newtypes, plus
  `Option`, `Result` and `Outcome`. The last two stand for a method's return value or the
  exception it throws.
- `AssetTools.dfy` (module `AssetTools`):
  - specification functions over an offset-table parameter:
    - `ComplementAll`: the complement loop;
    - `Swaps`: the first `k` iterations of the ascending swap loop;
    - `Unswaps`: the last `k` iterations of the descending swap loop;
    - `Scrambled` and `Descrambled`: the two whole methods.
  - the lemmas about these functions;
  - the in-place methods on `array<byte>`. Their loops compute offsets in `int32`, so Dafny
    checks that the 32-bit sum never wraps.
- `AssetDatabase.dfy` (module `AssetDb`):
  - class `Asset`;
  - class `AssetDatabase`, whose field `blobs: map<string, seq<byte>>` is the SQLite table.
    Each public operation is one method.
  - `InsertThenGet`: a caller that inserts a buffer and reads it back.
- `CubeWorldDecrypt.dfy` (module `CubeWorldDecrypt`): the utility's table, its
  `Scramble`/`Descramble`, and the output-name rule.

In the code, a null `asset` or `data` is a nullable reference (`Asset?`, `array?<byte>`).
A null `fileName` is `None`. Exceptions are `Failure`/`Fail` values of the `Error` datatype.

## Model

| member | source | states |
|---|---|---|
| `AssetTools.OffsetLookupTableValid` | CubeLib/AssetTools.cs:13-20 | the table has exactly 44 entries, each between 0 and 0xC75C7, so `currOff % 44` always indexes inside it |
| `AssetTools.Complement` | CubeLib/AssetTools.cs:30 | `(byte)(-1 - b)`, the low 8 bits of the int `-1 - b`, equals `255 - b` |
| `AssetTools.ComplementAll` | CubeLib/AssetTools.cs:28-31 | the complement loop keeps the length and turns every byte `b` into `255 - b` |
| `AssetTools.ComplementAllInvolutive` | CubeLib/AssetTools.cs:58-61 | applying the complement loop twice gives back the original buffer |
| `AssetTools.Offset` | CubeLib/AssetTools.cs:35 | for `n > 0`, every swap partner `(currOff + T[currOff % 44]) % n` lies in `[0, n)` |
| `AssetTools.Step` | CubeLib/AssetTools.cs:35-39 | one swap-loop iteration exchanges exactly positions `currOff` and `offset`; every other byte and the length stay the same |
| `AssetTools.Swaps` | CubeLib/AssetTools.cs:33-40 | the ascending swap loop keeps the buffer length |
| `AssetTools.Unswaps` | CubeLib/AssetTools.cs:49-56 | the descending swap loop keeps the buffer length |
| `AssetTools.Scrambled` | CubeLib/AssetTools.cs:26-41 | Scramble keeps the buffer length |
| `AssetTools.Descrambled` | CubeLib/AssetTools.cs:47-62 | Descramble keeps the buffer length |
| `AssetTools.StepInvolutive` | CubeLib/AssetTools.cs:35-39 | one swap iteration, repeated, undoes itself, because its partner depends only on `currOff` and the length |
| `AssetTools.StepPermutes` | CubeLib/AssetTools.cs:37-39 | a swap through `temp` keeps the multiset of bytes |
| `AssetTools.UnswapsUndoSwaps` | CubeLib/AssetTools.cs:33-56 | the descending swap loop undoes the ascending one, for every prefix length `k` |
| `AssetTools.SwapsUndoUnswaps` | CubeLib/AssetTools.cs:33-56 | the ascending swap loop undoes the descending one, for every prefix length `k` |
| `AssetTools.SwapsPermute` | CubeLib/AssetTools.cs:33-40 | the ascending swap loop is a permutation: the multiset of bytes is unchanged |
| `AssetTools.UnswapsPermute` | CubeLib/AssetTools.cs:49-56 | the descending swap loop is a permutation: the multiset of bytes is unchanged |
| `AssetTools.DescrambleScramble` | CubeLib/AssetTools.cs:26-62 | for every buffer, the empty one included, Descramble after Scramble restores it |
| `AssetTools.ScrambleDescramble` | CubeLib/AssetTools.cs:26-62 | for every buffer, Scramble after Descramble restores it |
| `AssetTools.ScramblePermutesComplement` | CubeLib/AssetTools.cs:26-41 | Scramble's output holds the complemented input bytes, rearranged |
| `AssetTools.DescramblePermutesComplement` | CubeLib/AssetTools.cs:47-62 | Descramble's output holds the complements of the stored bytes, rearranged |
| `AssetTools.EmptyUnchanged` | CubeLib/AssetTools.cs:26-62 | an empty buffer stays empty under both methods: no swap iteration runs and nothing is divided by zero |
| `AssetTools.AscendingReplayIsNotInverse` | CubeLib/AssetTools.cs:33-40 | on the bytes 0,1,2,3, running the ascending swap loop twice gives 2,0,1,3 rather than the input, so the inverse must run downward |
| `AssetTools.ComplementInPlace` | CubeLib/AssetTools.cs:28-31 | the complement loop leaves `ComplementAll` of the old contents in the array |
| `AssetTools.SwapAt` | CubeLib/AssetTools.cs:35-39 | computes `offset` in 32-bit arithmetic without overflow, then swaps through a temporary; the new contents are `Step` of the old ones |
| `AssetTools.SwapAscending` | CubeLib/AssetTools.cs:33-40 | the upward loop leaves `Swaps(old contents, n)` in the array |
| `AssetTools.SwapDescending` | CubeLib/AssetTools.cs:49-56 | the downward loop leaves `Unswaps(old contents, n)` in the array |
| `AssetTools.Scramble` | CubeLib/AssetTools.cs:26-41 | in place, the array becomes `Scrambled` of its old contents |
| `AssetTools.Descramble` | CubeLib/AssetTools.cs:47-62 | in place, the array becomes `Descrambled` of its old contents |
| `AssetDb.Asset.constructor` | CubeLib/AssetDatabase.cs:13-19 | a handle carries the file name, the size and the database that issued it |
| `AssetDb.AssetDatabase.constructor` | CubeLib/AssetDatabase.cs:29-35 | opening a database exposes the rows of its `blobs` table |
| `AssetDb.AssetDatabase.ReadAssets` | CubeLib/AssetDatabase.cs:46-60 | the reader loop yields one fresh `Asset` per row: distinct names, every key covered, each tagged with this database, each `Size` the stored length |
| `AssetDb.AssetDatabase.GetAssets` | CubeLib/AssetDatabase.cs:38-64 | returns a fresh array with exactly one `Asset` per row. Each entry is tagged with this database, and its `Size` is the stored value's length, which equals the payload length. The table is not modified. |
| `AssetDb.AssetDatabase.GetAssetData` | CubeLib/AssetDatabase.cs:67-86 | a null asset gives `ArgumentNullException` and a foreign asset gives `ArgumentException`, both before the table is read. A missing row faults on the null. Otherwise the result is a fresh array holding the descrambled row. The table is not modified. |
| `AssetDb.AssetDatabase.DeleteAsset` | CubeLib/AssetDatabase.cs:88-107 | null and foreign assets are rejected with the table unchanged. If the key is absent (affected rows ≠ 1), the result is `InvalidOperationException` with the table unchanged. Otherwise exactly that key is removed and every other row stays. |
| `AssetDb.AssetDatabase.InsertAsset` | CubeLib/AssetDatabase.cs:108-140 | a null or whitespace-only name, or null data, is rejected before anything is scrambled or written. Otherwise the caller's array is scrambled in place. With `replace` false, an existing key is refused and its row kept. Otherwise the key maps to the scrambled bytes, no other key changes, and the returned handle has that name, `Size == data.Length` and this database. |
| `AssetDb.InsertThenGet` | CubeLib/AssetDatabase.cs:108-140 | `GetAssetData` on the handle returned by `InsertAsset(name, d)` yields the original bytes of `d`, while `d` itself is left scrambled |
| `CubeWorldDecrypt.SameOffsetTable` | CubeWorldDecrypt/Program.cs:38-45 | the utility's table has 44 entries, identical one by one to the library's |
| `CubeWorldDecrypt.OffsetLookupTableValid` | CubeWorldDecrypt/Program.cs:38-45 | the utility's table is a valid offset table: 44 entries, each in `[0, 0xC75C7]` |
| `CubeWorldDecrypt.OutputFileName` | CubeWorldDecrypt/Program.cs:21 | the output path is the input path followed by ".out", so it never names the input itself |
| `CubeWorldDecrypt.Descramble` | CubeWorldDecrypt/Program.cs:47-62 | in place, the array becomes `Descrambled` of its old contents under the utility's table |
| `CubeWorldDecrypt.Scramble` | CubeWorldDecrypt/Program.cs:64-79 | in place, the array becomes `Scrambled` of its old contents under the utility's table |
| `CubeWorldDecrypt.DescrambleMatchesLibrary` | CubeWorldDecrypt/Program.cs:47-62 | the utility's Descramble computes the same function as `AssetTools.Descramble` on every buffer |
| `CubeWorldDecrypt.DescrambleScramble` | CubeWorldDecrypt/Program.cs:47-79 | with the utility's table, Descramble after Scramble restores every buffer, the empty one included |

## Behaviour of the code worth knowing

The model reproduces each of these:

- Insert applies the transform to the caller's own array, not to a copy (`CubeLib/AssetDatabase.cs:117`). After `InsertAsset` returns, or throws on a duplicate key, the caller's buffer holds the scrambled bytes.
- Reading a missing row does not raise a not-found error. `ExecuteScalar` yields null, and `Descramble` dereferences it. `GetAssetData` therefore fails with `NullReference`.
- Deleting a missing row raises `InvalidOperationException` ("Unable to delete asset ...").
- With `replace` false, inserting an existing key raises SQLite's constraint exception, modelled as `Constraint`. No check in the code itself raises it.

## Left out

- `AssetTools.Scramble`: arrays longer than `MaxLength` (2^31 − 0xC75C7 bytes) are excluded by a precondition. For such a length, the 32-bit sum `currOff + table[currOff % 44]` can wrap negative, and the C# method would then throw in the middle of the loop.
- `AssetTools.Descramble`: the same length bound and the same reason.
- `CubeWorldDecrypt.Scramble`, `CubeWorldDecrypt.Descramble`: the same length bound and the same reason.
- `AssetDb.AssetDatabase.InsertAsset`: `data` must be at most `MaxLength` bytes, for the same reason, and every stored value is kept within that bound.
- `AssetDb.AssetDatabase.constructor`: the opened table may only hold values of at most `MaxLength` bytes. A longer stored value could not be descrambled without the 32-bit wrap described above.
- The "affected rows ≠ 1" branch of `InsertAsset` is not modelled. SQLite counts one change for both a plain insert and an insert-or-replace, so the branch cannot occur against a key→bytes map.
- The codec loops are written once as `ComplementInPlace`, `SwapAscending` and `SwapDescending`, each taking the table as a parameter. Both copies of `Scramble`/`Descramble` call them with their own table. The C# copies repeat the same loop text.
- The SQLite connection is not modelled: the connection string, `Open`, `Dispose`, command and reader objects, and SQL text. The database file is the map given to the constructor.
- The order of rows from `GetAssets` is left to the store: the model reads keys in an arbitrary order.
- A SQL `NULL` in the `value` column is not modelled. Every row holds a byte string.
- `Program.Main` file handling and console output are not modelled: the usage message, `File.Exists`, `ReadAllBytes`, `WriteAllBytes` and `Console.WriteLine`. Only the `.out` naming rule is modelled.
- `AssetBrowser/MainForm.cs` is not part of this model: the WinForms UI, folder dialogs, `*.db` globbing, and the floating-point `BytesToString`. `AssetBrowser/ScopedListViewUpdate.cs` is not part of it either.
- The decompiled C pseudocode comment in `CubeWorldDecrypt/Program.cs` is not modelled.
