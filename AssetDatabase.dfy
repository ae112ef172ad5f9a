/**
 * The named-blob store of CubeLib/AssetDatabase.cs.
 *
 * The SQLite table `blobs(key, value)` is the map field `blobs` of an
 * AssetDatabase object; every value in it is held in scrambled form. The
 * connection, commands and readers are not modelled: each public operation
 * is one method that reads or reassigns the map.
 */
module AssetDb {
  import opened Prelude
  import AssetTools

  /** The exceptions the operations throw. */
  datatype Error =
    | ArgumentNull(paramName: string)        // System.ArgumentNullException
    | Argument(message: string)              // System.ArgumentException
    | InvalidOperation(message: string)      // System.InvalidOperationException
    | Constraint(key: string)                // SQLiteException: primary key already present
    | NullReference                          // Descramble handed the null of a missing row

  /** `char.IsWhiteSpace`: the Unicode space separators, line and paragraph
      separators, and the control characters U+0009-U+000D and U+0085. */
  predicate IsWhiteSpace(c: char) {
    || '\U{0009}' <= c <= '\U{000D}'
    || c == '\U{0020}' || c == '\U{0085}' || c == '\U{00A0}' || c == '\U{1680}'
    || '\U{2000}' <= c <= '\U{200A}'
    || c == '\U{2028}' || c == '\U{2029}' || c == '\U{202F}' || c == '\U{205F}' || c == '\U{3000}'
  }

  /** `string.IsNullOrWhiteSpace`, with `None` for the null string. */
  predicate IsNullOrWhiteSpace(s: Option<string>) {
    match s
    case None => true
    case Some(str) => forall i | 0 <= i < |str| :: IsWhiteSpace(str[i])
  }

  const NotThisDatabase := "Asset does not belong to this database"

  function UnableTo(verb: string, fileName: string): string {
    "Unable to " + verb + " asset \"" + fileName + "\""
  }

  /** The handle of one row: its key, its payload length and the database it came from. */
  class Asset {
    var FileName: string
    var Size: int32
    var parentDb: AssetDatabase?

    constructor (db: AssetDatabase?, fileName: string, size: int32)
      ensures parentDb == db && FileName == fileName && Size == size
    {
      parentDb := db;
      FileName := fileName;
      Size := size;
    }
  }

  class AssetDatabase {
    /** The rows of table `blobs`: key to scrambled payload. */
    var blobs: map<string, seq<byte>>

    /** Every stored payload is short enough for the codec and for `GetInt32`. */
    ghost predicate Valid()
      reads this
    {
      forall key | key in blobs :: |blobs[key]| <= AssetTools.MaxLength
    }

    /** Opens a database file whose table holds `rows`. */
    constructor (rows: map<string, seq<byte>>)
      requires forall key | key in rows :: |rows[key]| <= AssetTools.MaxLength
      ensures Valid() && blobs == rows
    {
      blobs := rows;
    }

    /** `asset` describes the row `key`: it names it, gives its length and is tagged with this database. */
    ghost predicate Describes(asset: Asset, key: string)
      reads this, asset
    {
      && asset.parentDb == this
      && asset.FileName == key
      && key in blobs
      && asset.Size as int == |blobs[key]|
    }

    /** The reader loop of GetAssets: one fresh Asset per row, in the order the store yields the rows. */
    method ReadAssets() returns (fileList: seq<Asset>)
      requires Valid()
      ensures |fileList| == |blobs|
      ensures forall i | 0 <= i < |fileList| :: fresh(fileList[i]) && Describes(fileList[i], fileList[i].FileName)
      ensures forall i, j | 0 <= i < j < |fileList| :: fileList[i].FileName != fileList[j].FileName
      ensures forall key | key in blobs :: exists i | 0 <= i < |fileList| :: fileList[i].FileName == key
    {
      fileList := [];
      ghost var names: seq<string> := [];
      var unread := blobs.Keys;
      while unread != {}
        invariant unread <= blobs.Keys
        invariant |fileList| == |names| && |names| + |unread| == |blobs|
        invariant forall i | 0 <= i < |fileList| :: fresh(fileList[i]) && Describes(fileList[i], names[i])
        invariant forall i | 0 <= i < |names| :: names[i] !in unread
        invariant forall i, j | 0 <= i < j < |names| :: names[i] != names[j]
        invariant forall key | key in blobs && key !in unread :: key in names
        decreases |unread|
      {
        var key :| key in unread;
        var asset := new Asset(this, key, |blobs[key]| as int32);
        fileList := fileList + [asset];
        names := names + [key];
        unread := unread - {key};
      }
      forall key | key in blobs
        ensures exists i | 0 <= i < |fileList| :: fileList[i].FileName == key
      {
        var i :| 0 <= i < |names| && names[i] == key;
      }
    }

    /** Lists every row, in an order the store chooses, as a fresh Asset tagged with this database. */
    method GetAssets() returns (assets: array<Asset>)
      requires Valid()
      ensures fresh(assets) && assets.Length == |blobs|
      ensures forall i | 0 <= i < assets.Length :: fresh(assets[i]) && Describes(assets[i], assets[i].FileName)
      ensures forall i, j | 0 <= i < j < assets.Length :: assets[i].FileName != assets[j].FileName
      ensures forall key | key in blobs :: exists i | 0 <= i < assets.Length :: assets[i].FileName == key
    {
      var fileList := ReadAssets();
      assets := new Asset[|fileList|](i requires 0 <= i < |fileList| => fileList[i]);
      assert assets[..] == fileList;
    }

    /** Reads the row of `asset` and returns its payload, descrambled into a fresh array. */
    method GetAssetData(asset: Asset?) returns (r: Result<array<byte>, Error>)
      requires Valid()
      ensures asset == null ==> r == Failure(ArgumentNull("asset"))
      ensures asset != null && asset.parentDb != this ==> r == Failure(Argument(NotThisDatabase))
      ensures asset != null && asset.parentDb == this && asset.FileName !in blobs ==>
        r == Failure(NullReference)
      ensures asset != null && asset.parentDb == this && asset.FileName in blobs ==>
        && r.Success? && fresh(r.value)
        && r.value[..] == AssetTools.Descrambled(AssetTools.OffsetLookupTable, blobs[asset.FileName])
    {
      if asset == null {
        return Failure(ArgumentNull("asset"));
      }
      if asset.parentDb != this {
        return Failure(Argument(NotThisDatabase));
      }
      if asset.FileName !in blobs {
        // ExecuteScalar yields null and Descramble dereferences it
        return Failure(NullReference);
      }
      var value := blobs[asset.FileName];
      var valueData := new byte[|value|](i requires 0 <= i < |value| => value[i]);
      assert valueData[..] == value;
      AssetTools.Descramble(valueData);
      return Success(valueData);
    }

    /** Deletes the row of `asset`; exactly one row must go. */
    method DeleteAsset(asset: Asset?) returns (r: Outcome<Error>)
      requires Valid()
      modifies this
      ensures Valid()
      ensures asset == null ==> r == Fail(ArgumentNull("asset")) && blobs == old(blobs)
      ensures asset != null && asset.parentDb != this ==>
        r == Fail(Argument(NotThisDatabase)) && blobs == old(blobs)
      ensures asset != null && asset.parentDb == this && asset.FileName !in old(blobs) ==>
        r == Fail(InvalidOperation(UnableTo("delete", asset.FileName))) && blobs == old(blobs)
      ensures asset != null && asset.parentDb == this && asset.FileName in old(blobs) ==>
        r == Pass && blobs == old(blobs) - {asset.FileName}
    {
      if asset == null {
        return Fail(ArgumentNull("asset"));
      }
      if asset.parentDb != this {
        return Fail(Argument(NotThisDatabase));
      }
      var affectedRows := if asset.FileName in blobs then 1 else 0;
      blobs := blobs - {asset.FileName};
      if affectedRows != 1 {
        return Fail(InvalidOperation(UnableTo("delete", asset.FileName)));
      }
      return Pass;
    }

    /** Scrambles `data` in place and stores it under `fileName`, replacing an
        existing row only when `replace` holds. */
    method InsertAsset(fileName: Option<string>, data: array?<byte>, replace: bool := true)
      returns (r: Result<Asset, Error>)
      requires Valid()
      requires data != null ==> data.Length <= AssetTools.MaxLength
      modifies this, data
      ensures Valid()
      ensures IsNullOrWhiteSpace(fileName) ==>
        r == Failure(ArgumentNull("fileName")) && blobs == old(blobs) && (data != null ==> unchanged(data))
      ensures !IsNullOrWhiteSpace(fileName) && data == null ==>
        r == Failure(ArgumentNull("data")) && blobs == old(blobs)
      ensures !IsNullOrWhiteSpace(fileName) && data != null ==>
        data[..] == AssetTools.Scrambled(AssetTools.OffsetLookupTable, old(data[..]))
      ensures !IsNullOrWhiteSpace(fileName) && data != null && !replace && fileName.value in old(blobs) ==>
        r == Failure(Constraint(fileName.value)) && blobs == old(blobs)
      ensures !IsNullOrWhiteSpace(fileName) && data != null && (replace || fileName.value !in old(blobs)) ==>
        && r.Success? && fresh(r.value)
        && r.value.FileName == fileName.value
        && r.value.Size as int == data.Length
        && r.value.parentDb == this
        && blobs == old(blobs)[fileName.value := data[..]]
    {
      if IsNullOrWhiteSpace(fileName) {
        return Failure(ArgumentNull("fileName"));
      }
      if data == null {
        return Failure(ArgumentNull("data"));
      }
      var key := fileName.value;

      // scrambled in place: the caller's buffer keeps the scrambled bytes
      AssetTools.Scramble(data);

      if !replace && key in blobs {
        return Failure(Constraint(key));
      }
      blobs := blobs[key := data[..]];
      var asset := new Asset(this, key, data.Length as int32);
      return Success(asset);
    }
  }

  /** A caller that inserts a buffer and reads it back through the returned handle. */
  method InsertThenGet(db: AssetDatabase, fileName: string, data: array<byte>)
    returns (r: Result<array<byte>, Error>)
    requires db.Valid() && !IsNullOrWhiteSpace(Some(fileName))
    requires data.Length <= AssetTools.MaxLength
    modifies db, data
    ensures r.Success? && r.value[..] == old(data[..])
    ensures data[..] == AssetTools.Scrambled(AssetTools.OffsetLookupTable, old(data[..]))
    ensures db.blobs == old(db.blobs)[fileName := data[..]]
  {
    var inserted := db.InsertAsset(Some(fileName), data);
    r := db.GetAssetData(inserted.value);
    AssetTools.OffsetLookupTableValid();
    AssetTools.DescrambleScramble(AssetTools.OffsetLookupTable, old(data[..]));
  }
}
