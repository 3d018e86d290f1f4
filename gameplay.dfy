/**
 * The land-ownership map: a grid of tiles with a cursor, and for each player
 * the set of tiles that player has bought.
 *
 * `Player`, `Tile` and `Grid` are minimal stand-ins for classes whose source
 * is not part of this model; they carry only what `WorldMap` and the
 * production engine use.
 */
module Gameplay {
  import opened Common
  import opened Enums
  import opened Navigation

  /** A player: identity is the object itself; the stockpile holds a non-negative quantity per resource. */
  class Player {
    var stock: ResourceType -> nat

    constructor (stock: ResourceType -> nat)
      ensures this.stock == stock
    {
      this.stock := stock;
    }

    function StockOf(r: ResourceType): nat
      reads this
    {
      stock(r)
    }
  }

  /** One cell of the map: fixed terrain, an optional owner and an optional installed MULE. */
  class Tile {
    const terrain: TerrainType
    var owner: Option<Player>
    var mule: Option<MuleType>

    constructor (terrain: TerrainType)
      ensures this.terrain == terrain && owner == None && mule == None
    {
      this.terrain := terrain;
      owner := None;
      mule := None;
    }
  }

  /** A rows × cols array of tiles, indexed `tiles[y, x]`, and the cursor (cursorX, cursorY). */
  class Grid {
    const rows: nat
    const cols: nat
    const tiles: array2<Tile>
    var cursorX: int
    var cursorY: int

    ghost predicate Valid()
      reads this
    {
      tiles.Length0 == rows && tiles.Length1 == cols &&
      InBounds(cols, rows, Pos(cursorX, cursorY))
    }

    constructor (tiles: array2<Tile>)
      requires tiles.Length0 > 0 && tiles.Length1 > 0
      ensures Valid() && this.tiles == tiles && cursorX == 0 && cursorY == 0
    {
      this.tiles := tiles;
      rows := tiles.Length0;
      cols := tiles.Length1;
      cursorX, cursorY := 0, 0;
    }

    function Cursor(): Pos
      reads this
    {
      Pos(cursorX, cursorY)
    }

    function Get(x: int, y: int): Tile
      requires tiles.Length0 == rows && tiles.Length1 == cols
      requires InBounds(cols, rows, Pos(x, y))
      reads tiles
    {
      tiles[y, x]
    }

    method Select(x: int, y: int)
      requires InBounds(cols, rows, Pos(x, y))
      modifies this
      ensures cursorX == x && cursorY == y
    {
      cursorX, cursorY := x, y;
    }
  }

  class WorldMap {
    const grid: Grid
    var ownedTiles: map<Player, set<Tile>>

    /** Every tile stored in the grid. */
    ghost function GridTiles(): set<Tile>
      reads grid.tiles
    {
      set y, x | 0 <= y < grid.tiles.Length0 && 0 <= x < grid.tiles.Length1 :: grid.tiles[y, x]
    }

    /** The cursor is on the map, and the owned sets hold only tiles of the map. */
    ghost predicate Valid()
      reads this, grid, grid.tiles
    {
      grid.Valid() &&
      forall p :: p in ownedTiles ==> ownedTiles[p] <= GridTiles()
    }

    /**
     * The two records of ownership agree: a tile is in a player's set exactly
     * when its owner field names that player.
     */
    ghost predicate Consistent()
      reads this, grid.tiles, GridTiles()
    {
      forall p: Player, t: Tile :: p in ownedTiles && t in GridTiles() ==> (t in ownedTiles[p] <==> t.owner == Some(p))
    }

    constructor (g: Grid, players: seq<Player>)
      requires g.Valid()
      ensures grid == g && Valid()
      ensures ownedTiles.Keys == set p | p in players
      ensures forall p :: p in ownedTiles ==> LandOwnedBy(p) == 0
      ensures (forall t :: t in GridTiles() ==> t.owner == None) ==> Consistent()
    {
      grid := g;
      var owned: map<Player, set<Tile>> := map[];
      for i := 0 to |players|
        invariant owned.Keys == set p | p in players[..i]
        invariant forall p :: p in owned ==> owned[p] == {}
      {
        owned := owned[players[i] := {}];
      }
      assert players[..|players|] == players;
      ownedTiles := owned;
    }

    /** Number of tiles recorded for `p`; with consistent records, the number of tiles `p` owns. */
    function LandOwnedBy(p: Player): (n: nat)
      requires p in ownedTiles
      reads this, grid, grid.tiles, GridTiles()
      ensures Valid() && Consistent() ==> n == |set t | t in GridTiles() && t.owner == Some(p)|
    {
      assert Valid() && Consistent() ==> ownedTiles[p] == set t | t in GridTiles() && t.owner == Some(p);
      |ownedTiles[p]|
    }

    function CursorTile(): (t: Tile)
      requires Valid()
      reads this, grid, grid.tiles
      ensures t in GridTiles()
    {
      grid.Get(grid.cursorX, grid.cursorY)
    }

    /** Owner of the cursor tile, `None` when it is unowned. */
    function GetOwner(): (o: Option<Player>)
      requires Valid()
      reads this, grid, grid.tiles, GridTiles()
      ensures Consistent() && o.Some? && o.value in ownedTiles ==> CursorTile() in ownedTiles[o.value]
    {
      CursorTile().owner
    }

    /** Tiles recorded for `p` that hold a MULE of kind `m`. */
    function TilesWithMule(p: Player, m: MuleType): (s: set<Tile>)
      requires p in ownedTiles
      reads this, ownedTiles[p]
      ensures s <= ownedTiles[p]
      ensures forall t :: t in ownedTiles[p] ==> (t in s <==> t.mule == Some(m))
    {
      set t | t in ownedTiles[p] && t.mule == Some(m)
    }

    function CountTilesWithMule(p: Player, m: MuleType): (n: nat)
      requires p in ownedTiles
      reads this, ownedTiles[p]
      ensures n == |TilesWithMule(p, m)| <= |ownedTiles[p]|
    {
      SubsetCardinality(TilesWithMule(p, m), ownedTiles[p]);
      |TilesWithMule(p, m)|
    }

    method Select(x: int, y: int) returns (ok: bool)
      requires Valid()
      modifies grid
      ensures Valid()
      ensures Move(ok, grid.Cursor()) == Navigation.Select(grid.cols, grid.rows, old(grid.Cursor()), x, y)
    {
      if x < 0 || y < 0 || x >= grid.cols || y >= grid.rows {
        return false;
      }
      grid.Select(x, y);
      return true;
    }

    method SelectRel(dx: int, dy: int) returns (ok: bool)
      requires Valid()
      modifies grid
      ensures Valid()
      ensures Move(ok, grid.Cursor()) == Navigation.SelectRel(grid.cols, grid.rows, old(grid.Cursor()), dx, dy)
    {
      var newX := grid.cursorX + dx;
      var newY := grid.cursorY + dy;
      if newX < 0 || newY < 0 || newX >= grid.cols || newY >= grid.rows {
        return false;
      }
      grid.Select(newX, newY);
      return true;
    }

    method SelectUp() returns (ok: bool)
      requires Valid()
      modifies grid
      ensures Valid()
      ensures Move(ok, grid.Cursor()) == Navigation.SelectRel(grid.cols, grid.rows, old(grid.Cursor()), 0, -1)
    {
      ok := SelectRel(0, -1);
    }

    method SelectDown() returns (ok: bool)
      requires Valid()
      modifies grid
      ensures Valid()
      ensures Move(ok, grid.Cursor()) == Navigation.SelectRel(grid.cols, grid.rows, old(grid.Cursor()), 0, 1)
    {
      ok := SelectRel(0, 1);
    }

    method SelectRight() returns (ok: bool)
      requires Valid()
      modifies grid
      ensures Valid()
      ensures Move(ok, grid.Cursor()) == Navigation.SelectRel(grid.cols, grid.rows, old(grid.Cursor()), 1, 0)
    {
      ok := SelectRel(1, 0);
    }

    method SelectLeft() returns (ok: bool)
      requires Valid()
      modifies grid
      ensures Valid()
      ensures Move(ok, grid.Cursor()) == Navigation.SelectRel(grid.cols, grid.rows, old(grid.Cursor()), -1, 0)
    {
      ok := SelectRel(-1, 0);
    }

    /**
     * As written: fails at (0, 0); from every other cell it does what
     * `SelectRight` does, so it also fails in the last column (see
     * `Navigation.LeftWrapStepsRight`).
     */
    method SelectLeftWrap() returns (ok: bool)
      requires Valid()
      modifies grid
      ensures Valid()
      ensures Move(ok, grid.Cursor()) == LeftWrap(grid.cols, grid.rows, old(grid.Cursor()))
    {
      var newX := grid.cursorX - 1;
      var newY := grid.cursorY - 1;
      if newX < 0 && newY < 0 {
        ok := Select(grid.cols - 1, newY);
        return;
      }
      ok := SelectRel(1, 0);
    }

    /** Row-major successor of the cursor, wrapping to (0, 0) after the last cell. */
    method SelectRightWrap() returns (ok: bool)
      requires Valid()
      modifies grid
      ensures Valid() && ok
      ensures Move(ok, grid.Cursor()) == RightWrap(grid.cols, grid.rows, old(grid.Cursor()))
      ensures Index(grid.cols, grid.Cursor()) == (Index(grid.cols, old(grid.Cursor())) + 1) % (grid.rows * grid.cols)
    {
      RightWrapIsRowMajorSuccessor(grid.cols, grid.rows, grid.Cursor());
      var newX := grid.cursorX + 1;
      var newY := grid.cursorY + 1;
      if newX >= grid.cols {
        ok := Select(0, JavaRem(newY, grid.rows));
        return;
      }
      ok := SelectRel(1, 0);
    }

    /** Row-major predecessor of the cursor, wrapping to the last cell from (0, 0). */
    method SelectLeftWrapIntended() returns (ok: bool)
      requires Valid()
      modifies grid
      ensures Valid() && ok
      ensures Move(ok, grid.Cursor()) == LeftWrapIntended(grid.cols, grid.rows, old(grid.Cursor()))
      ensures Index(grid.cols, grid.Cursor()) == (Index(grid.cols, old(grid.Cursor())) - 1 + grid.rows * grid.cols) % (grid.rows * grid.cols)
    {
      var newX := grid.cursorX - 1;
      var newY := grid.cursorY - 1;
      if newX < 0 {
        ok := Select(grid.cols - 1, JavaRem(newY + grid.rows, grid.rows));
        return;
      }
      ok := SelectRel(-1, 0);
    }

    /**
     * As written: an unowned cursor tile becomes `p`'s, and the cursor tile is
     * added to `p`'s set whoever owns it.
     */
    method BuyTile(p: Player)
      requires Valid() && p in ownedTiles
      modifies this, CursorTile()
      ensures Valid() && CursorTile() == old(CursorTile())
      ensures CursorTile().owner == if old(CursorTile().owner) == None then Some(p) else old(CursorTile().owner)
      ensures CursorTile().mule == old(CursorTile().mule)
      ensures ownedTiles == old(ownedTiles)[p := old(ownedTiles[p]) + {CursorTile()}]
      ensures forall t :: t in GridTiles() && t != CursorTile() ==> t.owner == old(t.owner)
      ensures LandOwnedBy(p) == old(LandOwnedBy(p)) + (if old(CursorTile() in ownedTiles[p]) then 0 else 1)
      // after one call a second one changes nothing
      ensures CursorTile().owner.Some? && CursorTile() in ownedTiles[p]
      ensures old(CursorTile().owner.Some? && CursorTile() in ownedTiles[p]) ==>
        ownedTiles == old(ownedTiles) && CursorTile().owner == old(CursorTile().owner)
      // the ownership records stay consistent unless the tile belonged to someone else
      ensures old(Consistent()) && old(CursorTile().owner) in {None, Some(p)} ==> Consistent()
      ensures old(CursorTile().owner) !in {None, Some(p)} ==> !Consistent()
    {
      var t := CursorTile();
      if t.owner.None? {
        t.owner := Some(p);
      }
      if t in ownedTiles[p] {
        assert ownedTiles[p] + {t} == ownedTiles[p];
        assert ownedTiles[p := ownedTiles[p]] == ownedTiles;
      }
      ownedTiles := ownedTiles[p := ownedTiles[p] + {t}];
    }

    /** Buying that records the tile for `p` only when `p` ends up its owner. */
    method BuyTileIntended(p: Player)
      requires Valid() && p in ownedTiles
      modifies this, CursorTile()
      ensures Valid() && CursorTile() == old(CursorTile())
      ensures CursorTile().owner == if old(CursorTile().owner) == None then Some(p) else old(CursorTile().owner)
      ensures CursorTile().mule == old(CursorTile().mule)
      ensures ownedTiles == if old(CursorTile().owner) == None
        then old(ownedTiles)[p := old(ownedTiles[p]) + {CursorTile()}] else old(ownedTiles)
      ensures forall t :: t in GridTiles() && t != CursorTile() ==> t.owner == old(t.owner)
      ensures old(Consistent()) ==> Consistent()
    {
      var t := CursorTile();
      if t.owner.None? {
        t.owner := Some(p);
        ownedTiles := ownedTiles[p := ownedTiles[p] + {t}];
      }
    }
  }

  lemma SubsetCardinality<T>(a: set<T>, b: set<T>)
    requires a <= b
    ensures |a| <= |b|
  {
    assert b == a + (b - a);
  }
}
