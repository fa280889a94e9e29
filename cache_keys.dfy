/**
 * The object-key layout of both tile caches, `"{year}/{z}/{y}/{x}{ext}"`,
 * and what is read back from it: the prefix listing that decides whether a
 * tile is cached, and the inventory parsed from listed keys that the bulk
 * "which tiles are missing" query filters against.  A bucket is modelled by
 * its set of keys.
 */
module CacheKeys {
  import opened Wrappers
  import opened Text
  import opened Tiles

  /** `"{year}/{z}/{y}/{x}"`: a key without its extension. */
  function KeyStem(year: int, z: int, y: int, x: int): string {
    IntToString(year) + ("/" + (IntToString(z) + ("/" + (IntToString(y) + ("/" + IntToString(x))))))
  }

  /** An extension the layout can end in: a dot, then no `'/'`. */
  predicate IsExtension(ext: string) {
    |ext| >= 1 && ext[0] == '.' && '/' !in ext
  }

  /** The extension of the rescaling cache's keys (PNG objects). */
  const Png := ".png"

  /** The extension of the older cache's keys (JPEG objects). */
  const Jpg := ".jpg"

  /** `f"{year}/{z}/{y}/{x}{ext}"`. */
  function KeyOf(year: int, z: int, y: int, x: int, ext: string): (k: string)
    requires IsExtension(ext)
    ensures EndsWith(k, ext)
  {
    var k := KeyStem(year, z, y, x) + ext;
    assert k[|k| - |ext|..] == ext;
    k
  }

  /** The key of a tile in the rescaling cache. */
  function Key(t: Tile, year: int): string {
    KeyOf(year, t.z, t.y, t.x, Png)
  }

  /** A key of the layout with extension `ext`. */
  ghost predicate IsKeyWith(k: string, ext: string)
    requires IsExtension(ext)
  {
    exists year, z, y, x :: k == KeyOf(year, z, y, x, ext)
  }

  /** A bucket holding only keys of the layout with extension `ext`, as the cache that writes it leaves it. */
  ghost predicate AllKeysWith(keys: set<string>, ext: string)
    requires IsExtension(ext)
  {
    forall k {:trigger IsKeyWith(k, ext)} :: k in keys ==> IsKeyWith(k, ext)
  }

  /** The first `'.'` of a key is where its extension starts. */
  lemma FirstDotOfKey(year: int, z: int, y: int, x: int, ext: string)
    requires IsExtension(ext)
    ensures var k := KeyOf(year, z, y, x, ext); var n := |KeyStem(year, z, y, x)|;
      n < |k| && k[n] == '.' && forall i :: 0 <= i < n ==> k[i] != '.'
  {
    IntToStringHasNoSeparator(year);
    IntToStringHasNoSeparator(z);
    IntToStringHasNoSeparator(y);
    IntToStringHasNoSeparator(x);
    var stem := KeyStem(year, z, y, x);
    assert '.' !in stem;
    var k := KeyOf(year, z, y, x, ext);
    forall i | 0 <= i < |stem|
      ensures k[i] != '.'
    {
      assert k[i] == stem[i];
    }
  }

  /** Splitting a key at `'/'` gives its four fields, the last one carrying the extension. */
  lemma SplitKey(year: int, z: int, y: int, x: int, ext: string)
    requires IsExtension(ext)
    ensures Split(KeyOf(year, z, y, x, ext), '/')
         == [IntToString(year), IntToString(z), IntToString(y), IntToString(x) + ext]
  {
    var sy, sz, sr, sx := IntToString(year), IntToString(z), IntToString(y), IntToString(x);
    IntToStringHasNoSeparator(year);
    IntToStringHasNoSeparator(z);
    IntToStringHasNoSeparator(y);
    IntToStringHasNoSeparator(x);
    var w2 := sr + ("/" + sx);
    var w1 := sz + ("/" + w2);
    SplitNoSeparator(sx + ext, '/');
    SplitField(sr, sx, ext, '/');
    SplitField(sz, w2, ext, '/');
    SplitField(sy, w1, ext, '/');
  }

  /** The last field of a key, cut at its first `'.'`, is the column number. */
  lemma SplitLastField(x: int, ext: string)
    requires IsExtension(ext)
    ensures Split(IntToString(x) + ext, '.')[0] == IntToString(x)
  {
    IntToStringHasNoSeparator(x);
    assert IntToString(x) + ext == IntToString(x) + ['.'] + ext[1..];
    SplitConcat(IntToString(x), ext[1..], '.');
  }

  /** Reading a key back: the layout is injective. */
  lemma KeyOfInjective(year: int, z: int, y: int, x: int, year': int, z': int, y': int, x': int, ext: string)
    requires IsExtension(ext)
    requires KeyOf(year, z, y, x, ext) == KeyOf(year', z', y', x', ext)
    ensures year == year' && z == z' && y == y' && x == x'
  {
    SplitKey(year, z, y, x, ext);
    SplitKey(year', z', y', x', ext);
    IntToStringInjective(year, year');
    IntToStringInjective(z, z');
    IntToStringInjective(y, y');
    SplitLastField(x, ext);
    SplitLastField(x', ext);
    IntToStringInjective(x, x');
  }

  /**
   * A key of the layout that starts with another key of the same layout is that key: the
   * first `'.'` of a key ends its stem, and a prefix's first `'.'` is also the whole key's.
   */
  lemma KeyPrefixOfKey(year: int, z: int, y: int, x: int, year': int, z': int, y': int, x': int, ext: string)
    requires IsExtension(ext)
    requires StartsWith(KeyOf(year', z', y', x', ext), KeyOf(year, z, y, x, ext))
    ensures KeyOf(year, z, y, x, ext) == KeyOf(year', z', y', x', ext)
  {
    var a, b := KeyOf(year, z, y, x, ext), KeyOf(year', z', y', x', ext);
    FirstDotOfKey(year, z, y, x, ext);
    FirstDotOfKey(year', z', y', x', ext);
    var m, n := |KeyStem(year, z, y, x)|, |KeyStem(year', z', y', x')|;
    assert b[..|a|] == a;
    assert b[m] == '.';
    forall i | 0 <= i < m
      ensures b[i] != '.'
    {
      assert b[i] == b[..|a|][i];
    }
    FirstOccurrenceUnique(b, '.', m, n);
    assert |a| == |b|;
  }

  lemma KeyPrefixIsKey(a: string, b: string, ext: string)
    requires IsExtension(ext) && IsKeyWith(a, ext) && IsKeyWith(b, ext)
    requires StartsWith(b, a)
    ensures a == b
  {
    var ya, za, ra, xa :| a == KeyOf(ya, za, ra, xa, ext);
    var yb, zb, rb, xb :| b == KeyOf(yb, zb, rb, xb, ext);
    KeyPrefixOfKey(ya, za, ra, xa, yb, zb, rb, xb, ext);
  }

  /** `len(list(bucket.objects.filter(Prefix=prefix))) > 0`. */
  predicate AnyKeyWithPrefix(keys: set<string>, prefix: string) {
    exists k :: k in keys && StartsWith(k, prefix)
  }

  /**
   * In a bucket that holds only keys of the layout, the prefix listing answers exactly
   * whether the key itself is present.
   */
  lemma PrefixListingIsLookup(keys: set<string>, year: int, z: int, y: int, x: int, ext: string)
    requires IsExtension(ext) && AllKeysWith(keys, ext)
    ensures AnyKeyWithPrefix(keys, KeyOf(year, z, y, x, ext)) <==> KeyOf(year, z, y, x, ext) in keys
  {
    var key := KeyOf(year, z, y, x, ext);
    if key in keys {
      assert StartsWith(key, key);
    }
    if AnyKeyWithPrefix(keys, key) {
      var k :| k in keys && StartsWith(k, key);
      KeyPrefixIsKey(key, k, ext);
    }
  }

  // ---------------------------------------------------------------------------------------
  // The bulk missing-tile query

  /** Which keys the query reads: those listed under `prefix` whose name ends in `suffix`. */
  datatype Listing = Listing(prefix: string, suffix: string)

  /** The query as the rescaling cache writes it: prefix `str(year)`, keys ending in ".jpg". */
  function AsWrittenListing(year: int): Listing {
    Listing(IntToString(year), Jpg)
  }

  /** The listing the cache's own key layout calls for: prefix `str(year) + "/"`, keys ending in ".png". */
  function CorrectedListing(year: int): Listing {
    Listing(IntToString(year) + "/", Png)
  }

  predicate Listed(k: string, listing: Listing) {
    StartsWith(k, listing.prefix) && EndsWith(k, listing.suffix)
  }

  /** The `ValueError` that unpacking or `int()` raises on a key that does not parse. */
  const ParseError := "ValueError"

  /** `_, z, y, x = key.split("/")` then `(int(x.split(".")[0]), int(y), int(z))`. */
  function InventoryEntry(key: string): Result<Tile> {
    var parts := Split(key, '/');
    if |parts| != 4 then Err(ParseError)
    else
      var x := ParseInt(Split(parts[3], '.')[0]);
      var y := ParseInt(parts[2]);
      var z := ParseInt(parts[1]);
      if x.None? || y.None? || z.None? then Err(ParseError)
      else Ok(Tile(x.value, y.value, z.value))
  }

  /** Parsing a key of the layout gives back the tile it was made from, whatever its extension. */
  lemma InventoryEntryOfKey(year: int, z: int, y: int, x: int, ext: string)
    requires IsExtension(ext)
    ensures InventoryEntry(KeyOf(year, z, y, x, ext)) == Ok(Tile(x, y, z))
  {
    SplitKey(year, z, y, x, ext);
    SplitLastField(x, ext);
    ParseIntToString(x);
    ParseIntToString(y);
    ParseIntToString(z);
  }

  /** The tiles parsed from the listed keys, or the error the first unparsable listed key raises. */
  function Inventory(keys: set<string>, listing: Listing): (r: Result<set<Tile>>)
    ensures r.Err? <==> exists k :: k in keys && Listed(k, listing) && InventoryEntry(k).Err?
    ensures r.Ok? ==> forall t :: t in r.value <==>
      exists k :: k in keys && Listed(k, listing) && InventoryEntry(k) == Ok(t)
  {
    if forall k :: k in keys && Listed(k, listing) ==> InventoryEntry(k).Ok? then
      Ok(set k | k in keys && Listed(k, listing) :: InventoryEntry(k).value)
    else Err(ParseError)
  }

  /** `list(filter(lambda tile: tile not in excluded, tiles))`: the tiles outside `excluded`, in order. */
  function Without(tiles: seq<Tile>, excluded: set<Tile>): (r: seq<Tile>)
    ensures |r| <= |tiles|
    ensures forall t :: t in r <==> t in tiles && t !in excluded
  {
    if tiles == [] then []
    else (if tiles[0] in excluded then [] else [tiles[0]]) + Without(tiles[1..], excluded)
  }

  /** Excluding nothing keeps the whole list. */
  lemma {:induction false} WithoutNothing(tiles: seq<Tile>)
    ensures Without(tiles, {}) == tiles
  {
    if tiles != [] {
      WithoutNothing(tiles[1..]);
      assert [tiles[0]] + tiles[1..] == tiles;
    }
  }

  /** The tiles of `tiles` whose key in the rescaling cache is not among `keys`, in order. */
  function Uncached(tiles: seq<Tile>, keys: set<string>, year: int): (r: seq<Tile>)
    ensures |r| <= |tiles|
    ensures forall t :: t in r <==> t in tiles && Key(t, year) !in keys
  {
    if tiles == [] then []
    else if Key(tiles[0], year) in keys then Uncached(tiles[1..], keys, year)
    else [tiles[0]] + Uncached(tiles[1..], keys, year)
  }

  /** Filtering against a set that holds exactly the cached tiles yields the uncached ones, in order. */
  lemma {:induction false} WithoutCached(tiles: seq<Tile>, excluded: set<Tile>, keys: set<string>, year: int)
    requires forall t :: t in excluded <==> Key(t, year) in keys
    ensures Without(tiles, excluded) == Uncached(tiles, keys, year)
  {
    if tiles != [] {
      WithoutCached(tiles[1..], excluded, keys, year);
    }
  }

  /** `get_missing_tile_images` reading the keys `listing` selects: the tiles absent from the inventory, in input order. */
  function MissingTiles(keys: set<string>, tiles: seq<Tile>, listing: Listing): (r: Result<seq<Tile>>)
    ensures r.Err? <==> Inventory(keys, listing).Err?
    ensures r.Ok? ==> r.value == Without(tiles, Inventory(keys, listing).value)
  {
    match Inventory(keys, listing)
    case Err(e) => Err(e)
    case Ok(inventory) => Ok(Without(tiles, inventory))
  }

  /** No key of the ".png" layout ends in ".jpg". */
  lemma PngKeyIsNotJpg(k: string)
    requires IsKeyWith(k, Png)
    ensures !EndsWith(k, Jpg)
  {
    var y, z, r, x :| k == KeyOf(y, z, r, x, Png);
    assert k[|k| - 4..] == Png;
    assert Png[1] != Jpg[1];
  }

  /**
   * As written, the query reads only keys ending in ".jpg", and the rescaling cache writes
   * only ".png" keys: against a bucket that cache wrote, every tile is reported missing.
   */
  lemma AsWrittenReportsEveryTileMissing(keys: set<string>, tiles: seq<Tile>, year: int)
    requires AllKeysWith(keys, Png)
    ensures MissingTiles(keys, tiles, AsWrittenListing(year)) == Ok(tiles)
  {
    var listing := AsWrittenListing(year);
    forall k | k in keys
      ensures !Listed(k, listing)
    {
      PngKeyIsNotJpg(k);
    }
    var inv := Inventory(keys, listing);
    assert inv.Ok?;
    assert inv.value == {};
    WithoutNothing(tiles);
  }

  /** A key of the layout lies under the listing prefix `str(year) + "/"` exactly when it belongs to `year`. */
  lemma KeyUnderYear(y: int, z: int, r: int, x: int, year: int, ext: string)
    requires IsExtension(ext)
    ensures StartsWith(KeyOf(y, z, r, x, ext), IntToString(year) + "/") <==> y == year
  {
    if y == year {
      KeyUnderOwnYear(y, z, r, x, ext);
    }
    if StartsWith(KeyOf(y, z, r, x, ext), IntToString(year) + "/") {
      YearOfKeyUnderPrefix(y, z, r, x, year, ext);
    }
  }

  lemma KeyUnderOwnYear(y: int, z: int, r: int, x: int, ext: string)
    requires IsExtension(ext)
    ensures StartsWith(KeyOf(y, z, r, x, ext), IntToString(y) + "/")
  {
    var k := KeyOf(y, z, r, x, ext);
    var prefix := IntToString(y) + "/";
    assert k == prefix + (KeyStem(y, z, r, x)[|prefix|..] + ext);
    assert k[..|prefix|] == prefix;
  }

  lemma YearOfKeyUnderPrefix(y: int, z: int, r: int, x: int, year: int, ext: string)
    requires IsExtension(ext)
    requires StartsWith(KeyOf(y, z, r, x, ext), IntToString(year) + "/")
    ensures y == year
  {
    var k := KeyOf(y, z, r, x, ext);
    var prefix := IntToString(year) + "/";
    SplitKey(y, z, r, x, ext);
    IntToStringHasNoSeparator(year);
    assert k == IntToString(year) + ['/'] + k[|prefix|..];
    SplitConcat(IntToString(year), k[|prefix|..], '/');
    assert Split(k, '/')[0] == IntToString(year);
    IntToStringInjective(y, year);
  }

  /** With the corrected listing, a listed key that parses to `t` is `t`'s own key. */
  lemma CorrectedListingReadsOwnYear(k: string, year: int)
    requires IsKeyWith(k, Png)
    ensures InventoryEntry(k).Ok?
    ensures Listed(k, CorrectedListing(year)) <==> k == Key(InventoryEntry(k).value, year)
  {
    var y, z, r, x :| k == KeyOf(y, z, r, x, Png);
    InventoryEntryOfKey(y, z, r, x, Png);
    KeyUnderYear(y, z, r, x, year, Png);
    if k == Key(Tile(x, r, z), year) {
      KeyOfInjective(y, z, r, x, year, z, r, x, Png);
    }
  }

  /** With the corrected listing, every key of the bucket parses, so the inventory is built. */
  lemma CorrectedInventoryBuilt(keys: set<string>, year: int)
    requires AllKeysWith(keys, Png)
    ensures Inventory(keys, CorrectedListing(year)).Ok?
  {
    forall k | k in keys
      ensures InventoryEntry(k).Ok?
    {
      CorrectedListingReadsOwnYear(k, year);
    }
  }

  /** A tile read from a key under the corrected listing has that very key. */
  lemma ListedKeyIsTileKey(keys: set<string>, year: int, t: Tile, k: string)
    requires AllKeysWith(keys, Png)
    requires k in keys && Listed(k, CorrectedListing(year)) && InventoryEntry(k) == Ok(t)
    ensures Key(t, year) in keys
  {
    CorrectedListingReadsOwnYear(k, year);
  }

  /** A tile whose key is in the bucket is read from that key under the corrected listing. */
  lemma TileKeyIsListed(keys: set<string>, year: int, t: Tile)
    requires Key(t, year) in keys
    ensures Listed(Key(t, year), CorrectedListing(year)) && InventoryEntry(Key(t, year)) == Ok(t)
  {
    InventoryEntryOfKey(year, t.z, t.y, t.x, Png);
    KeyUnderYear(year, t.z, t.y, t.x, year, Png);
  }

  /** With the corrected listing, a tile is in the inventory exactly when its own key is in the bucket. */
  lemma CorrectedInventoryIsLookup(keys: set<string>, year: int, t: Tile)
    requires AllKeysWith(keys, Png)
    ensures Inventory(keys, CorrectedListing(year)).Ok?
    ensures t in Inventory(keys, CorrectedListing(year)).value <==> Key(t, year) in keys
  {
    var listing := CorrectedListing(year);
    CorrectedInventoryBuilt(keys, year);
    var inv := Inventory(keys, listing).value;
    if t in inv {
      var k :| k in keys && Listed(k, listing) && InventoryEntry(k) == Ok(t);
      ListedKeyIsTileKey(keys, year, t, k);
    }
    if Key(t, year) in keys {
      TileKeyIsListed(keys, year, t);
    }
  }

  /**
   * With the corrected listing, the query returns, in input order, exactly the tiles whose
   * key the bucket does not hold.
   */
  lemma CorrectedMissingIsExact(keys: set<string>, tiles: seq<Tile>, year: int)
    requires AllKeysWith(keys, Png)
    ensures MissingTiles(keys, tiles, CorrectedListing(year)) == Ok(Uncached(tiles, keys, year))
  {
    CorrectedInventoryBuilt(keys, year);
    forall t
      ensures t in Inventory(keys, CorrectedListing(year)).value <==> Key(t, year) in keys
    {
      CorrectedInventoryIsLookup(keys, year, t);
    }
    WithoutCached(tiles, Inventory(keys, CorrectedListing(year)).value, keys, year);
  }
}
