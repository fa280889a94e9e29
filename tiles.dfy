/**
 * Slippy-map tile addresses and the quad-tree relation between them, as the
 * cache uses them through mercantile: a tile's parent halves its column and
 * row (Python's floor division) one zoom level up, and its four children are
 * listed upper-left, upper-right, lower-right, lower-left.
 */
module Tiles {
  import opened Wrappers

  /** mercantile's `Tile(x, y, z)`: column, row and zoom level. */
  datatype Tile = Tile(x: int, y: int, z: int)

  /** `mercantile.parent(tile)`. */
  function Parent(t: Tile): (p: Tile)
    ensures p.z == t.z - 1
    ensures 2 * p.x <= t.x < 2 * p.x + 2 && 2 * p.y <= t.y < 2 * p.y + 2
  {
    Tile(t.x / 2, t.y / 2, t.z - 1)
  }

  /** `mercantile.children(tile)`: upper-left, upper-right, lower-right, lower-left. */
  function Children(t: Tile): (cs: seq<Tile>)
    ensures |cs| == 4
  {
    [Tile(2 * t.x, 2 * t.y, t.z + 1), Tile(2 * t.x + 1, 2 * t.y, t.z + 1),
     Tile(2 * t.x + 1, 2 * t.y + 1, t.z + 1), Tile(2 * t.x, 2 * t.y + 1, t.z + 1)]
  }

  /** Every child of a tile has that tile as its parent, and the four children are distinct. */
  lemma ChildrenOfTile(t: Tile)
    ensures forall k :: 0 <= k < 4 ==> Parent(Children(t)[k]) == t
    ensures forall k, m :: 0 <= k < m < 4 ==> Children(t)[k] != Children(t)[m]
    ensures forall k :: 0 <= k < 4 ==> Children(t)[k].z == t.z + 1
  {
  }

  /** Python's `list.index`: the first position of `t` in `s`; `None` where Python raises `ValueError`. */
  function IndexOf(s: seq<Tile>, t: Tile): (r: Option<nat>)
    ensures r.Some? ==> r.value < |s| && s[r.value] == t && t !in s[..r.value]
    ensures r.None? <==> t !in s
  {
    if s == [] then None
    else if s[0] == t then Some(0)
    else
      var rest := IndexOf(s[1..], t);
      assert s == [s[0]] + s[1..];
      if rest.None? then None
      else
        assert s[..rest.value + 1] == [s[0]] + s[1..][..rest.value];
        Some(rest.value + 1)
  }

  /** The position a tile takes among its parent's children, from the parity of its column and row. */
  function Quadrant(t: Tile): (q: nat)
    ensures q < 4
  {
    if t.y % 2 == 0 then t.x % 2 else 3 - t.x % 2
  }

  /**
   * `mercantile.children(mercantile.parent(tile)).index(tile)` never raises: every tile is
   * among its parent's children, at the position its column and row parities give.
   */
  lemma IndexAmongSiblings(t: Tile)
    ensures IndexOf(Children(Parent(t)), t) == Some(Quadrant(t))
    ensures Quadrant(t) < 4
  {
    var cs := Children(Parent(t));
    var q := Quadrant(t);
    assert cs[q] == t;
    forall k | 0 <= k < q
      ensures cs[k] != t
    {
    }
    assert t !in cs[..q];
  }

  /** The quadrant of a tile within its parent, as the cache computes it with `.index`. */
  function QuadrantIndex(t: Tile): (q: nat)
    ensures q < 4 && Children(Parent(t))[q] == t
  {
    IndexAmongSiblings(t);
    IndexOf(Children(Parent(t)), t).value
  }
}
