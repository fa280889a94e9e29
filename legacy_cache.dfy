/**
 * The older key/value tile cache over an S3 bucket: one JPEG object per tile,
 * under the key "{year}/{z}/{y}/{x}.jpg".  The bucket is a map from key to the
 * image a read of that object gives back; JPEG encoding is lossy, so saving an
 * image stores its round trip through the encoder, `jpeg(image)`, a function
 * this model does not interpret.
 */
module LegacyTileCache {
  import opened Wrappers
  import opened Text
  import opened Raster
  import opened CacheKeys

  type Picture = Grid<Rgb>

  /** The error code S3 answers a read of an absent key with. */
  const NoSuchKey := "NoSuchKey"

  /** `_get_key(x, y, z, year)`. */
  function LegacyKey(x: int, y: int, z: int, year: int): (k: string)
    ensures EndsWith(k, Jpg)
  {
    KeyOf(year, z, y, x, Jpg)
  }

  /** Different tiles, or the same tile in different years, never share a key. */
  lemma LegacyKeyInjective(x: int, y: int, z: int, year: int, x': int, y': int, z': int, year': int)
    requires LegacyKey(x, y, z, year) == LegacyKey(x', y', z', year')
    ensures x == x' && y == y' && z == z' && year == year'
  {
    KeyOfInjective(year, z, y, x, year', z', y', x', Jpg);
  }

  /** Saving a tile makes the prefix listing under its key non-empty, whatever else the bucket holds. */
  lemma SavedTileIsContained(bucket: map<string, Picture>, x: int, y: int, z: int, year: int, image: Picture)
    ensures AnyKeyWithPrefix(bucket[LegacyKey(x, y, z, year) := image].Keys, LegacyKey(x, y, z, year))
  {
    var key := LegacyKey(x, y, z, year);
    assert StartsWith(key, key);
  }

  /** In a bucket of tile keys only, a tile never saved has nothing listed under its key. */
  lemma UnsavedTileIsNotContained(bucket: map<string, Picture>, x: int, y: int, z: int, year: int)
    requires AllKeysWith(bucket.Keys, Jpg)
    requires LegacyKey(x, y, z, year) !in bucket
    ensures !AnyKeyWithPrefix(bucket.Keys, LegacyKey(x, y, z, year))
  {
    PrefixListingIsLookup(bucket.Keys, year, z, y, x, Jpg);
  }

  /** Saving one tile leaves the entry of every other tile as it was. */
  lemma SaveKeepsOtherTiles(bucket: map<string, Picture>, x: int, y: int, z: int, year: int, image: Picture,
                            x': int, y': int, z': int, year': int)
    requires (x, y, z, year) != (x', y', z', year')
    ensures var after := bucket[LegacyKey(x, y, z, year) := image];
      var other := LegacyKey(x', y', z', year');
      (other in after <==> other in bucket) && (other in bucket ==> after[other] == bucket[other])
  {
    if LegacyKey(x, y, z, year) == LegacyKey(x', y', z', year') {
      LegacyKeyInjective(x, y, z, year, x', y', z', year');
    }
  }

  /** Saving a key the bucket holds only keys of the layout keeps it that way. */
  lemma SaveKeepsTileKeys(bucket: map<string, Picture>, x: int, y: int, z: int, year: int, image: Picture)
    requires AllKeysWith(bucket.Keys, Jpg)
    ensures AllKeysWith(bucket[LegacyKey(x, y, z, year) := image].Keys, Jpg)
  {
    var key := LegacyKey(x, y, z, year);
    assert IsKeyWith(key, Jpg);
    forall k | k in bucket[key := image].Keys
      ensures IsKeyWith(k, Jpg)
    {
      if k != key {
        assert k in bucket.Keys;
      }
    }
  }

  class S3TileCache {
    /** `Image.open` of the bytes `image.save(..., format="JPEG")` writes. */
    const jpeg: Picture -> Picture
    /** The bucket's contents, as images read back. */
    var bucket: map<string, Picture>

    /** The bucket holds only keys this cache writes. */
    ghost predicate Valid()
      reads this
    {
      AllKeysWith(bucket.Keys, Jpg)
    }

    /** The cache over a bucket holding `contents`. */
    constructor (jpeg: Picture -> Picture, contents: map<string, Picture>)
      ensures this.jpeg == jpeg && bucket == contents
    {
      this.jpeg := jpeg;
      bucket := contents;
    }

    /**
     * `get_tile`: the stored image, `None` when S3 answers NoSuchKey, and the client error
     * re-raised for any other code.  `failure` is an error the service answers with whatever
     * the bucket holds (access denied, throttling, a missing bucket); `None` when there is none.
     */
    method GetTile(x: int, y: int, z: int, year: int, failure: Option<string>) returns (r: Result<Option<Picture>>)
      ensures failure.None? && LegacyKey(x, y, z, year) in bucket ==> r == Ok(Some(bucket[LegacyKey(x, y, z, year)]))
      ensures failure.None? && LegacyKey(x, y, z, year) !in bucket ==> r == Ok(None)
      ensures failure.Some? && failure.value == NoSuchKey ==> r == Ok(None)
      ensures failure.Some? && failure.value != NoSuchKey ==> r == Err(failure.value)
    {
      var key := LegacyKey(x, y, z, year);
      var code: Option<string> := failure;
      if failure.None? && key !in bucket {
        code := Some(NoSuchKey);
      }
      if code.Some? {
        if code.value == NoSuchKey {
          return Ok(None);
        }
        return Err(code.value);
      }
      return Ok(Some(bucket[key]));
    }

    /** `save_tile`: the tile's key holds the JPEG round trip of the image, and no other key changes. */
    method SaveTile(x: int, y: int, z: int, year: int, image: Picture)
      modifies this
      ensures bucket == old(bucket)[LegacyKey(x, y, z, year) := jpeg(image)]
      ensures old(Valid()) ==> Valid()
    {
      var key := LegacyKey(x, y, z, year);
      if Valid() {
        SaveKeepsTileKeys(bucket, x, y, z, year, jpeg(image));
      }
      bucket := bucket[key := jpeg(image)];
    }

    /**
     * `contains_tile`: whether anything is listed under the tile's key; in a bucket of tile
     * keys only, exactly whether the tile is stored.
     */
    method ContainsTile(x: int, y: int, z: int, year: int) returns (found: bool)
      ensures found <==> AnyKeyWithPrefix(bucket.Keys, LegacyKey(x, y, z, year))
      ensures Valid() ==> (found <==> LegacyKey(x, y, z, year) in bucket)
    {
      var key := LegacyKey(x, y, z, year);
      var listed := set k | k in bucket.Keys && StartsWith(k, key);
      found := |listed| > 0;
      if found {
        var k :| k in listed;
      }
      if AnyKeyWithPrefix(bucket.Keys, key) {
        var k :| k in bucket.Keys && StartsWith(k, key);
        assert k in listed;
      }
      if Valid() {
        PrefixListingIsLookup(bucket.Keys, year, z, y, x, Jpg);
      }
    }
  }
}
