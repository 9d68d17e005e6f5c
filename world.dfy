/** The battle world (GameWorld.cpp): object creation and the held
    building, the pre-placed objects of the edit layers, the path query
    with its end-tile override, and the search for spawn points around a
    base camp. */
module World {
  import opened Common
  import opened Geometry
  import opened TileMath
  import opened Maps
  import opened GameObjects
  import opened Registry
  import opened SpawnSearch

  /** The unique ids of the given objects. */
  function IDsOf(objs: seq<GameObject>): (ids: set<int>)
    ensures forall k :: 0 <= k < |objs| ==> objs[k].uniqueID in ids
    ensures forall id :: id in ids ==> exists k :: 0 <= k < |objs| && objs[k].uniqueID == id
  {
    set k | 0 <= k < |objs| :: objs[k].uniqueID
  }

  /** Appending an object adds its id. */
  lemma IDsOfAppend(objs: seq<GameObject>, o: GameObject)
    ensures IDsOf(objs + [o]) == IDsOf(objs) + {o.uniqueID}
  {
    var all := objs + [o];
    forall id | id in IDsOf(all) ensures id in IDsOf(objs) + {o.uniqueID} {
      var k :| 0 <= k < |all| && all[k].uniqueID == id;
      if k < |objs| {
        assert all[k] == objs[k];
      }
    }
    forall id | id in IDsOf(objs) ensures id in IDsOf(all) {
      var k :| 0 <= k < |objs| && objs[k].uniqueID == id;
      assert all[k] == objs[k];
    }
    assert all[|objs|] == o;
  }

  /** A C++ float-to-int conversion, which truncates toward zero. */
  function TruncateToInt(r: real): (k: int)
    ensures r >= 0.0 ==> 0 <= k && k as real <= r < k as real + 1.0
    ensures r < 0.0 ==> k <= 0 && k as real - 1.0 < r <= k as real
  {
    if r >= 0.0 then r.Floor else -((-r).Floor)
  }

  /** The names of the four edit layers. */
  predicate KnownLayer(name: string) {
    || name == "playerBuildingEditLayer" || name == "aiBuildingEditLayer"
    || name == "playerNpcEditLayer" || name == "aiNpcEditLayer"
  }

  /** The force and the object type initEditedGameObjects reads off an
      edit layer's name; both stay Invalid for any other name. */
  function LayerMapping(name: string): (r: (ForceType, GameObjectType))
    ensures r.0 == ForceType.Invalid <==> r.1 == GameObjectType.Invalid
    ensures r.1 == GameObjectType.Building || r.1 == GameObjectType.Npc || r.1 == GameObjectType.Invalid
  {
    if name == "playerBuildingEditLayer" then (ForceType.Player, GameObjectType.Building)
    else if name == "aiBuildingEditLayer" then (ForceType.AI, GameObjectType.Building)
    else if name == "playerNpcEditLayer" then (ForceType.Player, GameObjectType.Npc)
    else if name == "aiNpcEditLayer" then (ForceType.AI, GameObjectType.Npc)
    else (ForceType.Invalid, GameObjectType.Invalid)
  }

  /** A known layer gives a valid force and a Building or an Npc, and the
      four layers give four different pairs; any other name gives Invalid
      for both. */
  lemma LayerMappingSound(name: string, other: string)
    ensures KnownLayer(name) <==> LayerMapping(name).1 != GameObjectType.Invalid
    ensures KnownLayer(name) <==> LayerMapping(name).0 != ForceType.Invalid
    ensures KnownLayer(name) ==>
              LayerMapping(name).1 == GameObjectType.Building || LayerMapping(name).1 == GameObjectType.Npc
    ensures KnownLayer(name) && KnownLayer(other) && LayerMapping(name) == LayerMapping(other) ==> name == other
  {
  }

  /** The truth value of the condition the layer-name check passes to
      CCASSERT as written: the message literal, a non-null pointer, which
      converts to true. */
  const LITERAL_CONDITION: bool := true

  /** The layer-name check as written: CCASSERT(cond, ...) stops when
      cond is false, and cond is the literal, so it never stops. */
  function ParseAssertFiresAsWritten(name: string): (fires: bool)
    ensures !fires
  {
    !LITERAL_CONDITION
  }

  /** As written, a name that is not an edit layer passes the check with
      both force and type Invalid. */
  lemma UnknownLayerPassesAsWritten()
    ensures LayerMapping("buildingLayer") == (ForceType.Invalid, GameObjectType.Invalid)
    ensures !ParseAssertFiresAsWritten("buildingLayer")
  {
  }

  /** The check as intended: it stops on every name that is not an edit
      layer, and only there. */
  function ParseAssertFires(name: string): (fires: bool)
    ensures fires <==> !KnownLayer(name)
  {
    LayerMapping(name).1 == GameObjectType.Invalid
  }

  /** The cell an object placed in the tile map editor at (x, y) stands
      on: both editor coordinates are in tile heights, and the editor's y
      runs up from the bottom of the map. Each coordinate is converted to
      int by truncation: on the map it is the number of whole tile heights. */
  function EditedCell(s: MapShape, x: real, y: real): (c: Cell)
    requires ValidShape(s)
    ensures x >= 0.0 ==> 0 <= c.col && c.col as real <= x / s.tileHeight < c.col as real + 1.0
    ensures y <= s.height as real * s.tileHeight ==>
              var up := (s.height as real * s.tileHeight - y) / s.tileHeight;
              0 <= c.row && c.row as real <= up < c.row as real + 1.0
    ensures x < 0.0 ==> c.col <= 0
    ensures y > s.height as real * s.tileHeight ==> c.row <= 0
  {
    Cell(TruncateToInt(x / s.tileHeight), TruncateToInt((s.height as real * s.tileHeight - y) / s.tileHeight))
  }

  /** The way points for a path of tiles: the nodes are walked from the
      last to the first, each node's anchor moved by delta, and the point
      of the last node is dropped. */
  function PathPoints(s: MapShape, nodes: seq<Cell>, delta: Vec2): (ps: seq<Vec2>)
    ensures |ps| == if nodes == [] then 0 else |nodes| - 1
    ensures forall i :: 0 <= i < |ps| ==> ps[|ps| - 1 - i] == Add(LeftTopPosition(s, nodes[i]), delta)
  {
    if nodes == [] then []
    else seq(|nodes| - 1, i requires 0 <= i < |nodes| - 1 => Add(LeftTopPosition(s, nodes[|nodes| - 2 - i]), delta))
  }

  /** A path of n tiles gives n - 1 points, the point of the path's last
      node comes first and the point of its first node comes last, and when
      the first node is the end tile that last point is the end position
      itself. */
  lemma PathPointsEnds(s: MapShape, nodes: seq<Cell>, endPos: Vec2, endCell: Cell)
    requires |nodes| >= 2
    ensures var ps := PathPoints(s, nodes, Sub(endPos, LeftTopPosition(s, endCell)));
            && |ps| == |nodes| - 1
            && ps[0] == Add(LeftTopPosition(s, nodes[|nodes| - 2]), Sub(endPos, LeftTopPosition(s, endCell)))
            && (nodes[0] == endCell ==> ps[|ps| - 1] == endPos)
  {
    var a := LeftTopPosition(s, endCell);
    var d := Sub(endPos, a);
    var ps := PathPoints(s, nodes, d);
    assert ps[|ps| - 1 - (|nodes| - 2)] == Add(LeftTopPosition(s, nodes[|nodes| - 2]), d);
    assert ps[|ps| - 1 - 0] == Add(LeftTopPosition(s, nodes[0]), d);
    assert Add(a, d) == endPos;
  }

  /** The gids the path finder sees during a query: those of the table,
      with the end tile made passable when the override is on. */
  function QueryGids(g: seq<seq<int>>, e: Cell, allowEndTile: bool): (q: seq<seq<int>>)
    requires 0 <= e.col < |g| && 0 <= e.row < |g[e.col]|
    ensures |q| == |g| && forall c :: 0 <= c < |g| ==> |q[c]| == |g[c]|
    ensures forall c, r :: 0 <= c < |g| && 0 <= r < |g[c]| ==>
              q[c][r] == if allowEndTile && Cell(c, r) == e then PASSABLE_ID else g[c][r]
  {
    if allowEndTile then g[e.col := g[e.col][e.row := PASSABLE_ID]] else g
  }

  /** Two gid views are equal when they have the same shape and agree on
      every tile. */
  lemma GidsExtensional(g: seq<seq<int>>, h: seq<seq<int>>)
    requires |g| == |h| && forall c :: 0 <= c < |g| ==> |g[c]| == |h[c]|
    requires forall c, r :: 0 <= c < |g| && 0 <= r < |g[c]| ==> g[c][r] == h[c][r]
    ensures g == h
  {
    forall c | 0 <= c < |g| ensures g[c] == h[c] {
      assert forall r :: 0 <= r < |g[c]| ==> g[c][r] == h[c][r];
    }
  }

  class GameWorld {
    const mm: MapManager
    const reg: GameObjectManager
    const factory: GameObjectFactory
    /** _mapGIDTable: scratch gids of the spawn search, indexed [column, row]. */
    const gidTable: array2<int>
    /** The building that follows the cursor until it is built or cancelled. */
    var holdingBuildingID: int
    var playerBaseCampID: int
    var aiBaseCampID: int

    /** The map and the registry are well formed, the scratch table covers
        the map, and the factory's counter is at least every registered id,
        so the next id is not registered yet. (That every node keeps its
        cell's anchor, mm.Anchored(), is required apart, where it is used.) */
    ghost predicate Valid()
      reads mm, mm.table, reg, reg.objects.Values, factory
    {
      && mm.Valid() && reg.Valid() && factory.Valid()
      && gidTable.Length0 == mm.shape.width && gidTable.Length1 == mm.shape.height
      && (forall id :: id in reg.objects ==> id <= factory.lastID)
    }

    /** init: the map from the game-object layer, an empty registry, a
        scratch table of the map's size and no held building or base camp. */
    constructor (s: MapShape, layer: seq<seq<int>>)
      requires ValidShape(s)
      requires |layer| == s.width && forall c :: 0 <= c < |layer| ==> |layer[c]| == s.height
      ensures Valid() && mm.Anchored() && fresh(mm) && fresh(reg) && fresh(factory)
      ensures mm.shape == s && reg.objects == map[]
      ensures holdingBuildingID == GAME_OBJECT_UNIQUE_ID_INVALID
      ensures playerBaseCampID == GAME_OBJECT_UNIQUE_ID_INVALID && aiBaseCampID == GAME_OBJECT_UNIQUE_ID_INVALID
    {
      mm := new MapManager(s, layer);
      reg := new GameObjectManager();
      factory := new GameObjectFactory();
      gidTable := new int[s.width, s.height];
      holdingBuildingID := GAME_OBJECT_UNIQUE_ID_INVALID;
      playerBaseCampID := GAME_OBJECT_UNIQUE_ID_INVALID;
      aiBaseCampID := GAME_OBJECT_UNIQUE_ID_INVALID;
    }

    /** createGameObject: a new object of any type but Invalid gets a fresh
        id and is registered under it; a new Player building becomes the
        held building. An Invalid type gives no object and changes
        nothing. */
    method CreateGameObject(kind: GameObjectType, force: ForceType, t: Template, pos: Vec2)
      returns (o: GameObject?)
      requires Valid()
      requires kind == GameObjectType.Building ==> t.buildingTimeBySecond > 0.0
      modifies factory, reg`objects, this`holdingBuildingID
      ensures Valid()
      ensures kind == GameObjectType.Invalid ==>
                o == null && reg.objects == old(reg.objects) && holdingBuildingID == old(holdingBuildingID)
      ensures kind != GameObjectType.Invalid ==>
                && o != null && fresh(o) && o.uniqueID !in old(reg.objects)
                && reg.objects == old(reg.objects)[o.uniqueID := o]
                && o.objectType == kind && o.forceType == force && o.position == pos && o.hp == o.maxHp
                && o.Valid() && !o.IsReadyToRemove()
                && (kind == GameObjectType.Building ==> o.status == BuildingStatus.PrepareToBuild)
                && holdingBuildingID == (if kind == GameObjectType.Building && force == ForceType.Player
                                         then o.uniqueID else old(holdingBuildingID))
    {
      o := factory.Create(kind, force, pos, t, mm.shape);
      if o != null {
        reg.AddGameObject(o);
        if kind == GameObjectType.Building && force == ForceType.Player {
          holdingBuildingID := o.uniqueID;
        }
      }
    }

    /** One object of an edit layer (the body of initEditedGameObjects'
        inner loop): it is created on the anchor of the tile under its
        editor position, with the layer's force and type; a Player building
        goes straight to Working; an object named BaseCamp becomes its
        force's base camp. A layer that is not an edit layer stops the check
        and creates nothing. */
    method PlaceEditedObject(layerName: string, templateName: string, x: real, y: real, t: Template)
      returns (o: GameObject?)
      requires Valid()
      requires InMap(mm.shape, EditedCell(mm.shape, x, y))
      requires LayerMapping(layerName).1 == GameObjectType.Building ==> t.buildingTimeBySecond > 0.0
      modifies factory, reg`objects, this`holdingBuildingID, this`playerBaseCampID, this`aiBaseCampID
      ensures Valid()
      ensures ParseAssertFires(layerName) ==>
                && o == null && reg.objects == old(reg.objects) && holdingBuildingID == old(holdingBuildingID)
                && playerBaseCampID == old(playerBaseCampID) && aiBaseCampID == old(aiBaseCampID)
      ensures !ParseAssertFires(layerName) ==>
                var force, kind := LayerMapping(layerName).0, LayerMapping(layerName).1;
                && o != null && fresh(o) && o.uniqueID !in old(reg.objects)
                && reg.objects == old(reg.objects)[o.uniqueID := o]
                && o.objectType == kind && o.forceType == force
                && o.position == mm.table[EditedCell(mm.shape, x, y).col, EditedCell(mm.shape, x, y).row].leftTopPosition
                && (kind == GameObjectType.Building && force == ForceType.Player ==>
                      o.status == BuildingStatus.Working && holdingBuildingID == o.uniqueID)
                && (kind == GameObjectType.Building && force == ForceType.AI ==>
                      o.status == BuildingStatus.PrepareToBuild)
                && (!(kind == GameObjectType.Building && force == ForceType.Player) ==>
                      holdingBuildingID == old(holdingBuildingID))
                && playerBaseCampID == (if templateName == "BaseCamp" && force == ForceType.Player
                                        then o.uniqueID else old(playerBaseCampID))
                && aiBaseCampID == (if templateName == "BaseCamp" && force != ForceType.Player
                                    then o.uniqueID else old(aiBaseCampID))
    {
      var mapping := LayerMapping(layerName);
      var force, kind := mapping.0, mapping.1;
      if ParseAssertFires(layerName) {
        o := null;
        return;
      }
      var cell := EditedCell(mm.shape, x, y);
      var node := mm.GetTileNodeAt(cell.col, cell.row);
      o := CreateGameObject(kind, force, t, node.leftTopPosition);
      if force == ForceType.Player && kind == GameObjectType.Building {
        o.UpdateStatus(BuildingStatus.Working);
      }
      if templateName == "BaseCamp" {
        if force == ForceType.Player {
          playerBaseCampID := o.uniqueID;
        } else {
          aiBaseCampID := o.uniqueID;
        }
      }
    }

    /** computePathListBetween. The path finder is the parameter finder: it
        maps the start and end cells and the gids of the table to a path of
        cells on the map. The end tile's gid is made passable for the query
        when the override is on, so the finder sees the table with that
        change (QueryGids), and restored afterwards: the table is left
        exactly as it was. An
        end tile that is an obstacle without the override gives no path; a
        start and end on one tile give the end position unless the two
        positions are equal. */
    method ComputePathListBetween(start: Vec2, end: Vec2, allowEndTile: bool,
                                   finder: (Cell, Cell, seq<seq<int>>) -> seq<Cell>)
      returns (path: seq<Vec2>)
      requires Valid() && mm.Anchored()
      requires forall a: Cell, b: Cell, g: seq<seq<int>>, x: Cell :: x in finder(a, b, g) ==> InMap(mm.shape, x)
      modifies mm.table
      ensures Valid() && mm.Anchored()
      ensures forall c, r :: 0 <= c < mm.shape.width && 0 <= r < mm.shape.height ==>
                mm.table[c, r] == old(mm.table[c, r])
      ensures var s, e := TileSubscript(mm.shape, start), TileSubscript(mm.shape, end);
              var open := allowEndTile || old(mm.table[e.col, e.row].gid) != OBSTACLE_ID;
              && (!open ==> path == [])
              && (open && s != e ==>
                    path == PathPoints(mm.shape, finder(s, e, QueryGids(old(mm.Gids()), e, allowEndTile)),
                                       Sub(end, LeftTopPosition(mm.shape, e))))
              && (open && s == e ==> path == (if start == end then [] else [end]))
    {
      var s := TileSubscript(mm.shape, start);
      var e := TileSubscript(mm.shape, end);
      var endNode := mm.GetTileNodeAt(e.col, e.row);
      var delta := Sub(end, endNode.leftTopPosition);
      var originalGID := endNode.gid;
      ghost var before := mm.Gids();
      if allowEndTile {
        mm.SetGid(e.col, e.row, PASSABLE_ID);
      }
      GidsExtensional(mm.Gids(), QueryGids(before, e, allowEndTile));
      path := PathOnTable(start, end, s, e, delta, finder);
      if allowEndTile {
        mm.SetGid(e.col, e.row, originalGID);
      }
    }

    /** The query on the table as it stands: no path when the end tile is
        an obstacle; otherwise, between two tiles, the points of the path
        the finder computes on the table's gids, and on one tile the end
        position unless the two positions are equal. */
    method PathOnTable(start: Vec2, end: Vec2, s: Cell, e: Cell, delta: Vec2,
                       finder: (Cell, Cell, seq<seq<int>>) -> seq<Cell>)
      returns (path: seq<Vec2>)
      requires mm.Valid() && mm.Anchored() && InMap(mm.shape, e)
      requires forall a: Cell, b: Cell, g: seq<seq<int>>, x: Cell :: x in finder(a, b, g) ==> InMap(mm.shape, x)
      ensures mm.table[e.col, e.row].gid == OBSTACLE_ID ==> path == []
      ensures mm.table[e.col, e.row].gid != OBSTACLE_ID && s != e ==>
                path == PathPoints(mm.shape, finder(s, e, mm.Gids()), delta)
      ensures mm.table[e.col, e.row].gid != OBSTACLE_ID && s == e ==>
                path == if start == end then [] else [end]
    {
      path := [];
      if mm.table[e.col, e.row].gid != OBSTACLE_ID {
        if s != e {
          var gids := mm.Gids();
          var nodes := finder(s, e, gids);
          assert forall k :: 0 <= k < |nodes| ==> nodes[k] in finder(s, e, gids);
          path := PathPointsOf(nodes, delta);
        } else if start != end {
          path := [end];
        }
      }
    }

    /** The loop over the finder's nodes: each node's anchor moved by
        delta is pushed to the front, then the start node's point is
        dropped. */
    method PathPointsOf(nodes: seq<Cell>, delta: Vec2) returns (path: seq<Vec2>)
      requires mm.Valid() && mm.Anchored()
      requires forall k :: 0 <= k < |nodes| ==> InMap(mm.shape, nodes[k])
      ensures path == PathPoints(mm.shape, nodes, delta)
    {
      path := [];
      for i := 0 to |nodes|
        invariant |path| == i
        invariant forall k :: 0 <= k < i ==> path[k] == Add(LeftTopPosition(mm.shape, nodes[i - 1 - k]), delta)
      {
        var n := nodes[i];
        path := [Add(mm.table[n.col, n.row].leftTopPosition, delta)] + path;
      }
      if path != [] {
        path := path[1..];
      }
    }

    /** The held building can be built: it is a registered building, still
        in PrepareToBuild, on free tiles. */
    predicate Constructible()
      reads this, reg, reg.objects.Values
    {
      && holdingBuildingID in reg.objects
      && reg.objects[holdingBuildingID].objectType == GameObjectType.Building
      && reg.objects[holdingBuildingID].status == BuildingStatus.PrepareToBuild
      && reg.objects[holdingBuildingID].canBuild
    }

    /** constructBuilding: a constructible held building starts being
        built (its completion is scheduled after its build time) and is no
        longer held; otherwise nothing changes. */
    method ConstructBuilding()
      requires Valid()
      modifies this`holdingBuildingID, reg.objects.Values`statusVisible, reg.objects.Values`status
      modifies reg.objects.Values`hpBarVisible, reg.objects.Values`progressBarVisible, reg.objects.Values`actions
      ensures Valid() && reg.objects == old(reg.objects)
      ensures old(Constructible()) ==>
                var id := old(holdingBuildingID);
                var o := reg.objects[id];
                && holdingBuildingID == GAME_OBJECT_UNIQUE_ID_INVALID
                && o.status == BuildingStatus.BeingBuilt
                && (forall t :: t in o.statusVisible ==> (o.statusVisible[t] <==> t == BuildingStatus.BeingBuilt))
                && o.actions == old(o.actions) + [ScheduledCall(o.buildingTime, ConstructionComplete)]
                && o.progressBarVisible && !o.hpBarVisible
                && (forall other :: other in reg.objects && other != id ==> unchanged(reg.objects[other]))
      ensures !old(Constructible()) ==>
                && holdingBuildingID == old(holdingBuildingID)
                && (forall id :: id in reg.objects ==> unchanged(reg.objects[id]))
    {
      if Constructible() {
        var o := reg.objects[holdingBuildingID];
        assert o.uniqueID == holdingBuildingID;
        o.UpdateStatus(BuildingStatus.BeingBuilt);
        holdingBuildingID := GAME_OBJECT_UNIQUE_ID_INVALID;
      }
    }

    /** The held building can be cancelled: it is a registered building
        still in PrepareToBuild. */
    predicate Cancellable()
      reads this, reg, reg.objects.Values
    {
      && holdingBuildingID != GAME_OBJECT_UNIQUE_ID_INVALID
      && holdingBuildingID in reg.objects
      && reg.objects[holdingBuildingID].objectType == GameObjectType.Building
      && reg.objects[holdingBuildingID].status == BuildingStatus.PrepareToBuild
    }

    /** cancelConstructBuilding: a held building still in PrepareToBuild is
        removed; in every case nothing is held afterwards. */
    method CancelConstructBuilding()
      requires Valid()
      modifies this`holdingBuildingID, reg`objects
      ensures Valid()
      ensures holdingBuildingID == GAME_OBJECT_UNIQUE_ID_INVALID
      ensures old(Cancellable()) ==> reg.objects == old(reg.objects) - {old(holdingBuildingID)}
      ensures !old(Cancellable()) ==> reg.objects == old(reg.objects)
    {
      if holdingBuildingID != GAME_OBJECT_UNIQUE_ID_INVALID {
        if Cancellable() {
          reg.RemoveGameObjectBy(holdingBuildingID);
        }
        holdingBuildingID := GAME_OBJECT_UNIQUE_ID_INVALID;
      }
    }

    /** The registered base camp of a force (AI for every force but Player). */
    function CampID(force: ForceType): int
      reads this
    {
      if force == ForceType.Player then playerBaseCampID else aiBaseCampID
    }

    /** An Npc (a DefenceInBuildingNpc does not count) stands on the cell. */
    ghost predicate NpcOn(x: Cell)
      reads mm, reg, reg.objects.Values
      requires ValidShape(mm.shape)
    {
      exists id :: id in reg.objects && reg.objects[id].objectType == GameObjectType.Npc
                   && TileSubscript(mm.shape, reg.objects[id].position) == x
    }

    /** The cells the spawn search must not use: obstacle tiles and tiles an
        Npc stands on. */
    ghost function Blocked(): set<Cell>
      reads mm, mm.table, reg, reg.objects.Values
      requires mm.Valid()
    {
      set c, r | 0 <= c < mm.shape.width && 0 <= r < mm.shape.height
                 && (mm.table[c, r].gid == OBSTACLE_ID || NpcOn(Cell(c, r))) :: Cell(c, r)
    }

    /** The state the spawn search keeps: one anchor per claimed cell, and
        a scratch gid that is an obstacle exactly on the blocked and the
        claimed cells. */
    ghost predicate Scan(points: seq<Vec2>, cells: seq<Cell>, blocked: set<Cell>)
      reads mm, mm.table, gidTable
    {
      && gidTable.Length0 == mm.shape.width && gidTable.Length1 == mm.shape.height
      && mm.table.Length0 == mm.shape.width && mm.table.Length1 == mm.shape.height
      && |points| == |cells|
      && (forall i :: 0 <= i < |cells| ==>
            InMap(mm.shape, cells[i]) && points[i] == mm.table[cells[i].col, cells[i].row].leftTopPosition)
      && (forall c, r :: 0 <= c < mm.shape.width && 0 <= r < mm.shape.height ==>
            (gidTable[c, r] == OBSTACLE_ID <==> Cell(c, r) in blocked || Cell(c, r) in cells))
    }

    /** The first loop of computeNpcCreatePointList: the scratch table gets
        every tile's gid. */
    method CopyGIDs()
      requires Valid()
      modifies gidTable
      ensures forall c, r :: 0 <= c < mm.shape.width && 0 <= r < mm.shape.height ==>
                gidTable[c, r] == mm.table[c, r].gid
    {
      for col := 0 to mm.shape.width
        invariant forall c, r :: 0 <= c < col && 0 <= r < mm.shape.height ==> gidTable[c, r] == mm.table[c, r].gid
      {
        for row := 0 to mm.shape.height
          invariant forall c, r :: 0 <= c < col && 0 <= r < mm.shape.height ==> gidTable[c, r] == mm.table[c, r].gid
          invariant forall r :: 0 <= r < row ==> gidTable[col, r] == mm.table[col, r].gid
        {
          gidTable[col, row] := mm.GetTileNodeAt(col, row).gid;
        }
      }
    }

    /** The tiles the Npcs stand on, visiting the registry in id order. */
    method NpcTiles() returns (tiles: seq<Cell>)
      requires Valid()
      ensures forall x :: x in tiles <==> NpcOn(x)
      ensures forall i :: 0 <= i < |tiles| ==> InMap(mm.shape, tiles[i])
    {
      var ids := reg.SortedIDs();
      tiles := [];
      for i := 0 to |ids|
        invariant forall x :: x in tiles ==> NpcOn(x)
        invariant forall j :: 0 <= j < |tiles| ==> InMap(mm.shape, tiles[j])
        invariant forall k :: 0 <= k < i && reg.objects[ids[k]].objectType == GameObjectType.Npc ==>
                    TileSubscript(mm.shape, reg.objects[ids[k]].position) in tiles
      {
        var o := reg.objects[ids[i]];
        if o.objectType == GameObjectType.Npc {
          var t := TileSubscript(mm.shape, o.position);
          assert NpcOn(t) by {
            var id := ids[i];
            assert id in reg.objects && reg.objects[id].objectType == GameObjectType.Npc
                   && TileSubscript(mm.shape, reg.objects[id].position) == t;
          }
          tiles := tiles + [t];
        }
      }
      forall x | NpcOn(x) ensures x in tiles {
        var id :| id in reg.objects && reg.objects[id].objectType == GameObjectType.Npc
                  && TileSubscript(mm.shape, reg.objects[id].position) == x;
        var k :| 0 <= k < |ids| && ids[k] == id;
      }
    }

    /** The second loop of computeNpcCreatePointList: the tile of every Npc
        is marked as an obstacle in the scratch table, which is then an
        obstacle exactly on the blocked cells. */
    method MarkNpcTiles() returns (ghost blocked: set<Cell>)
      requires Valid()
      requires forall c, r :: 0 <= c < mm.shape.width && 0 <= r < mm.shape.height ==>
                 gidTable[c, r] == mm.table[c, r].gid
      modifies gidTable
      ensures blocked == Blocked() && Scan([], [], blocked)
    {
      var tiles := NpcTiles();
      MarkTiles(tiles);
      blocked := Blocked();
      forall c, r | 0 <= c < mm.shape.width && 0 <= r < mm.shape.height
        ensures gidTable[c, r] == OBSTACLE_ID <==> Cell(c, r) in blocked
      {
        assert Cell(c, r) in tiles <==> NpcOn(Cell(c, r));
      }
    }

    /** Each of the tiles becomes an obstacle in the scratch table; no other
        entry changes. */
    method MarkTiles(tiles: seq<Cell>)
      requires gidTable.Length0 == mm.shape.width && gidTable.Length1 == mm.shape.height
      requires forall i :: 0 <= i < |tiles| ==> InMap(mm.shape, tiles[i])
      modifies gidTable
      ensures forall c, r :: 0 <= c < mm.shape.width && 0 <= r < mm.shape.height ==>
                gidTable[c, r] == (if Cell(c, r) in tiles then OBSTACLE_ID else old(gidTable[c, r]))
    {
      for i := 0 to |tiles|
        invariant forall c, r :: 0 <= c < mm.shape.width && 0 <= r < mm.shape.height ==>
                    gidTable[c, r] == (if Cell(c, r) in tiles[..i] then OBSTACLE_ID else old(gidTable[c, r]))
      {
        var t := tiles[i];
        gidTable[t.col, t.row] := OBSTACLE_ID;
        assert tiles[..i + 1] == tiles[..i] + [t];
      }
      assert tiles[..|tiles|] == tiles;
    }

    /** One probe of the search: a cell that is not an obstacle in the
        scratch table is claimed, while fewer than count are, and is then
        marked as an obstacle. */
    method ProbeCell(x: Cell, count: int, points: seq<Vec2>, ghost cells: seq<Cell>,
                     ghost probes: seq<Cell>, ghost blocked: set<Cell>)
      returns (points': seq<Vec2>, ghost cells': seq<Cell>)
      requires ValidShape(mm.shape) && InMap(mm.shape, x)
      requires cells == Claimed(blocked, probes, count) && Scan(points, cells, blocked)
      modifies gidTable
      ensures cells' == Claimed(blocked, probes + [x], count) && Scan(points', cells', blocked)
    {
      assert (probes + [x])[..|probes|] == probes;
      assert Cell(x.col, x.row) == x;
      if gidTable[x.col, x.row] != OBSTACLE_ID && |points| < count {
        points' := points + [mm.table[x.col, x.row].leftTopPosition];
        cells' := cells + [x];
        gidTable[x.col, x.row] := OBSTACLE_ID;
        forall c, r | 0 <= c < mm.shape.width && 0 <= r < mm.shape.height
          ensures gidTable[c, r] == OBSTACLE_ID <==> Cell(c, r) in blocked || Cell(c, r) in cells'
        {
          assert Cell(c, r) in cells' <==> Cell(c, r) in cells || Cell(c, r) == x;
        }
      } else {
        points', cells' := points, cells;
      }
    }

    /** Two probes in a row. */
    method ProbePair(x: Cell, y: Cell, count: int, points: seq<Vec2>, ghost cells: seq<Cell>,
                     ghost probes: seq<Cell>, ghost blocked: set<Cell>)
      returns (points': seq<Vec2>, ghost cells': seq<Cell>)
      requires ValidShape(mm.shape) && InMap(mm.shape, x) && InMap(mm.shape, y)
      requires cells == Claimed(blocked, probes, count) && Scan(points, cells, blocked)
      modifies gidTable
      ensures cells' == Claimed(blocked, probes + [x, y], count) && Scan(points', cells', blocked)
    {
      points', cells' := ProbeCell(x, count, points, cells, probes, blocked);
      points', cells' := ProbeCell(y, count, points', cells', probes + [x], blocked);
      assert probes + [x] + [y] == probes + [x, y];
    }

    /** The first half of a pass: the top and then the bottom cell of
        each column of the box. */
    method ScanColumns(b: Box, count: int, points: seq<Vec2>, ghost cells: seq<Cell>,
                       ghost probes: seq<Cell>, ghost blocked: set<Cell>)
      returns (points': seq<Vec2>, ghost cells': seq<Cell>)
      requires ValidShape(mm.shape) && BoxInMap(b, mm.shape.width, mm.shape.height)
      requires cells == Claimed(blocked, probes, count) && Scan(points, cells, blocked)
      modifies gidTable
      ensures cells' == Claimed(blocked, probes + ColumnsUpTo(b, b.right + 1), count)
      ensures Scan(points', cells', blocked)
    {
      points', cells' := points, cells;
      assert probes + ColumnsUpTo(b, b.left) == probes;
      var col := b.left;
      while col <= b.right
        invariant b.left <= col && (col <= b.right + 1 || col == b.left)
        invariant cells' == Claimed(blocked, probes + ColumnsUpTo(b, col), count)
        invariant Scan(points', cells', blocked)
      {
        points', cells' := ProbePair(Cell(col, b.top), Cell(col, b.bottom), count, points', cells',
                                     probes + ColumnsUpTo(b, col), blocked);
        ColumnsStep(probes, b, col);
        col := col + 1;
      }
    }

    /** The second half of a pass: the left and then the right cell of
        each row of the box. */
    method ScanRows(b: Box, count: int, points: seq<Vec2>, ghost cells: seq<Cell>,
                    ghost probes: seq<Cell>, ghost blocked: set<Cell>)
      returns (points': seq<Vec2>, ghost cells': seq<Cell>)
      requires ValidShape(mm.shape) && BoxInMap(b, mm.shape.width, mm.shape.height)
      requires cells == Claimed(blocked, probes, count) && Scan(points, cells, blocked)
      modifies gidTable
      ensures cells' == Claimed(blocked, probes + RowsUpTo(b, b.bottom + 1), count)
      ensures Scan(points', cells', blocked)
    {
      points', cells' := points, cells;
      assert probes + RowsUpTo(b, b.top) == probes;
      var row := b.top;
      while row <= b.bottom
        invariant b.top <= row && (row <= b.bottom + 1 || row == b.top)
        invariant cells' == Claimed(blocked, probes + RowsUpTo(b, row), count)
        invariant Scan(points', cells', blocked)
      {
        points', cells' := ProbePair(Cell(b.left, row), Cell(b.right, row), count, points', cells',
                                     probes + RowsUpTo(b, row), blocked);
        RowsStep(probes, b, row);
        row := row + 1;
      }
    }

    /** One pass of the search over a box. */
    method ScanPass(b: Box, count: int, points: seq<Vec2>, ghost cells: seq<Cell>,
                    ghost probes: seq<Cell>, ghost blocked: set<Cell>)
      returns (points': seq<Vec2>, ghost cells': seq<Cell>)
      requires ValidShape(mm.shape) && BoxInMap(b, mm.shape.width, mm.shape.height)
      requires cells == Claimed(blocked, probes, count) && Scan(points, cells, blocked)
      modifies gidTable
      ensures cells' == Claimed(blocked, probes + PassProbes(b), count) && Scan(points', cells', blocked)
    {
      points', cells' := ScanColumns(b, count, points, cells, probes, blocked);
      points', cells' := ScanRows(b, count, points', cells', probes + ColumnsUpTo(b, b.right + 1), blocked);
      ConcatAssoc(probes, ColumnsUpTo(b, b.right + 1), RowsUpTo(b, b.bottom + 1));
    }

    /** The pass after the first n: the cells the probes of n + 1 passes
        claim. */
    method SearchPass(box0: Box, ghost n: nat, box: Box, count: int, points: seq<Vec2>, ghost cells: seq<Cell>,
                      ghost blocked: set<Cell>)
      returns (next: Box, points': seq<Vec2>, ghost cells': seq<Cell>)
      requires ValidShape(mm.shape) && BoxInMap(box0, mm.shape.width, mm.shape.height)
      requires box == BoxAt(box0, n, mm.shape.width, mm.shape.height)
      requires cells == Claimed(blocked, Probes(box0, n, mm.shape.width, mm.shape.height), count)
      requires Scan(points, cells, blocked)
      modifies gidTable
      ensures next == BoxAt(box0, n + 1, mm.shape.width, mm.shape.height)
      ensures next == box <==> FullBox(box, mm.shape.width, mm.shape.height)
      ensures cells' == Claimed(blocked, Probes(box0, n + 1, mm.shape.width, mm.shape.height), count)
      ensures Scan(points', cells', blocked)
    {
      points', cells' := ScanPass(box, count, points, cells, Probes(box0, n, mm.shape.width, mm.shape.height), blocked);
      ProbesStep(box0, n, mm.shape.width, mm.shape.height);
      next := Expand(box, mm.shape.width, mm.shape.height);
    }

    /** computeNpcCreatePointList: spawn points for count new units of a
        force around its base camp. The scratch table gets the tiles' gids
        with every Npc's tile marked as an obstacle; then passes over a box
        that starts one tile around the camp's bottom grids and grows by one
        tile per pass claim free cells in the reference order until count
        are claimed. The source repeats passes forever once the box is the
        whole map and too few cells are free; the search here ends after
        that pass. A force without a registered camp gets no points. The
        tile table and the registry are only read. */
    method ComputeNpcCreatePointList(force: ForceType, count: int)
      returns (points: seq<Vec2>, ghost cells: seq<Cell>, ghost box0: Box, ghost passes: nat)
      requires Valid()
      requires CampID(force) in reg.objects ==>
                 reg.objects[CampID(force)].objectType == GameObjectType.Building
      modifies gidTable
      ensures Valid()
      ensures |points| == |cells|
      ensures forall i :: 0 <= i < |cells| ==>
                InMap(mm.shape, cells[i]) && points[i] == mm.table[cells[i].col, cells[i].row].leftTopPosition
      ensures SpawnPlan(force, count, cells, box0, passes)
    {
      var campID := CampID(force);
      if campID in reg.objects {
        var camp := reg.objects[campID];
        assert camp.Valid();
        var box := CampBox(camp);
        box0 := box;
        points, cells, passes := MarkAndSearch(box, count);
      } else {
        CopyGIDs();
        ghost var blocked := MarkNpcTiles();
        points, cells, box0, passes := [], [], Box(0, 0, 0, 0), 0;
      }
    }

    /** The scratch table is filled and searched around the box. */
    method MarkAndSearch(box0: Box, count: int) returns (points: seq<Vec2>, ghost cells: seq<Cell>, ghost passes: nat)
      requires Valid() && BoxInMap(box0, mm.shape.width, mm.shape.height)
      modifies gidTable
      ensures |points| == |cells|
      ensures forall i :: 0 <= i < |cells| ==>
                InMap(mm.shape, cells[i]) && points[i] == mm.table[cells[i].col, cells[i].row].leftTopPosition
      ensures cells == Claimed(Blocked(), Probes(box0, passes, mm.shape.width, mm.shape.height), count)
      ensures |cells| < count ==> Exhausted(box0, passes, mm.shape.width, mm.shape.height)
    {
      CopyGIDs();
      ghost var blocked := MarkNpcTiles();
      points, cells, passes := SearchAround(box0, count, blocked);
    }

    /** What the spawn search claims for a force: nothing without a
        registered camp; otherwise the cells that passes over the boxes
        grown from the camp's box claim, in the reference order, where the
        search stops short of count cells only after a pass over the whole
        map. */
    ghost predicate SpawnPlan(force: ForceType, count: int, cells: seq<Cell>, box0: Box, passes: nat)
      reads this, mm, mm.table, reg, reg.objects.Values, factory
      requires Valid()
      requires CampID(force) in reg.objects ==>
                 reg.objects[CampID(force)].objectType == GameObjectType.Building
    {
      && (CampID(force) !in reg.objects ==> cells == [])
      && (CampID(force) in reg.objects ==>
            && reg.objects[CampID(force)].Valid()
            && box0 == CampBox(reg.objects[CampID(force)])
            && cells == Claimed(Blocked(), Probes(box0, passes, mm.shape.width, mm.shape.height), count)
            && (|cells| < count ==> Exhausted(box0, passes, mm.shape.width, mm.shape.height)))
    }

    /** The spawn points are at most count distinct free tiles of the map. */
    lemma SpawnPlanSound(force: ForceType, count: int, cells: seq<Cell>, box0: Box, passes: nat)
      requires Valid()
      requires CampID(force) in reg.objects ==>
                 reg.objects[CampID(force)].objectType == GameObjectType.Building
      requires SpawnPlan(force, count, cells, box0, passes)
      ensures |cells| <= Max(count, 0) && Distinct(cells)
      ensures forall i :: 0 <= i < |cells| ==> InMap(mm.shape, cells[i]) && cells[i] !in Blocked()
    {
      if CampID(force) in reg.objects {
        var w, h := mm.shape.width, mm.shape.height;
        ClaimedSound(Blocked(), Probes(box0, passes, w, h), count);
        ProbesInMap(box0, passes, w, h);
      }
    }

    /** The search loop: passes over a growing box until count cells are
        claimed, or until a pass over the whole map is done. */
    method SearchAround(box0: Box, count: int, ghost blocked: set<Cell>)
      returns (points: seq<Vec2>, ghost cells: seq<Cell>, ghost passes: nat)
      requires ValidShape(mm.shape) && BoxInMap(box0, mm.shape.width, mm.shape.height)
      requires Scan([], [], blocked)
      modifies gidTable
      ensures cells == Claimed(blocked, Probes(box0, passes, mm.shape.width, mm.shape.height), count)
      ensures Scan(points, cells, blocked)
      ensures |cells| < count ==> Exhausted(box0, passes, mm.shape.width, mm.shape.height)
    {
      var width, height := mm.shape.width, mm.shape.height;
      var box := box0;
      points, cells, passes := [], [], 0;
      while |points| < count
        invariant box == BoxAt(box0, passes, width, height)
        invariant cells == Claimed(blocked, Probes(box0, passes, width, height), count)
        invariant Scan(points, cells, blocked)
        decreases box.left + box.top + (width - 1 - box.right) + (height - 1 - box.bottom)
      {
        var next;
        next, points, cells := SearchPass(box0, passes, box, count, points, cells, blocked);
        passes := passes + 1;
        if next == box {
          assert Exhausted(box0, passes, width, height);
          break;
        }
        box := next;
      }
    }

    /** createNpcAroundBaseCamp: one new Npc of the force on each spawn
        point, in order. The Npcs stand on the anchors of the cells the
        spawn search planned on the map and registry as they were before
        the call (so SpawnPlanSound applies to them), and the registry gains
        exactly the new Npcs. */
    method CreateNpcAroundBaseCamp(force: ForceType, t: Template, count: int)
      returns (created: seq<GameObject>, ghost cells: seq<Cell>, ghost box0: Box, ghost passes: nat)
      requires Valid() && mm.Anchored()
      requires CampID(force) in reg.objects ==>
                 reg.objects[CampID(force)].objectType == GameObjectType.Building
      modifies gidTable, factory, reg`objects, this`holdingBuildingID
      ensures Valid() && holdingBuildingID == old(holdingBuildingID)
      ensures old(SpawnPlan(force, count, cells, box0, passes))
      ensures |created| == |cells| <= Max(count, 0)
      ensures CampID(force) !in old(reg.objects) ==> created == [] && reg.objects == old(reg.objects)
      ensures forall id :: id in old(reg.objects) ==> id in reg.objects && reg.objects[id] == old(reg.objects[id])
      ensures reg.objects.Keys == old(reg.objects).Keys + IDsOf(created)
      ensures forall i :: 0 <= i < |created| ==>
                && fresh(created[i]) && created[i].uniqueID in reg.objects
                && reg.objects[created[i].uniqueID] == created[i]
                && created[i].objectType == GameObjectType.Npc && created[i].forceType == force
                && created[i].position == LeftTopPosition(mm.shape, cells[i])
      ensures forall i, j :: 0 <= i < j < |created| ==> created[i].position != created[j].position
    {
      var points;
      points, cells, box0, passes := PlanSpawnPoints(force, count);
      created := CreateNpcsAt(force, t, points);
    }

    /** computeNpcCreatePointList with what SpawnPlanSound gives about its
        plan: at most count distinct points, the anchors of the planned
        cells, and none without a camp. */
    method PlanSpawnPoints(force: ForceType, count: int)
      returns (points: seq<Vec2>, ghost cells: seq<Cell>, ghost box0: Box, ghost passes: nat)
      requires Valid() && mm.Anchored()
      requires CampID(force) in reg.objects ==>
                 reg.objects[CampID(force)].objectType == GameObjectType.Building
      modifies gidTable
      ensures Valid()
      ensures old(SpawnPlan(force, count, cells, box0, passes))
      ensures |points| == |cells| <= Max(count, 0)
      ensures CampID(force) !in reg.objects ==> points == []
      ensures forall i :: 0 <= i < |points| ==> points[i] == LeftTopPosition(mm.shape, cells[i])
      ensures forall i, j :: 0 <= i < j < |points| ==> points[i] != points[j]
    {
      points, cells, box0, passes := ComputeNpcCreatePointList(force, count);
      assert SpawnPlan(force, count, cells, box0, passes) == old(SpawnPlan(force, count, cells, box0, passes));
      SpawnPlanSound(force, count, cells, box0, passes);
      DistinctAnchors(points, cells);
    }

    /** The loop of createNpcAroundBaseCamp: one new Npc of the force on
        each point, in order; the registry gains exactly those Npcs. */
    method CreateNpcsAt(force: ForceType, t: Template, points: seq<Vec2>) returns (created: seq<GameObject>)
      requires Valid()
      modifies factory, reg`objects, this`holdingBuildingID
      ensures Valid() && holdingBuildingID == old(holdingBuildingID)
      ensures |created| == |points|
      ensures points == [] ==> reg.objects == old(reg.objects)
      ensures forall id :: id in old(reg.objects) ==> id in reg.objects && reg.objects[id] == old(reg.objects[id])
      ensures reg.objects.Keys == old(reg.objects).Keys + IDsOf(created)
      ensures forall k :: 0 <= k < |created| ==>
                && fresh(created[k]) && created[k].uniqueID in reg.objects
                && reg.objects[created[k].uniqueID] == created[k]
                && created[k].objectType == GameObjectType.Npc && created[k].forceType == force
                && created[k].position == points[k]
    {
      created := [];
      for i := 0 to |points|
        invariant Valid() && holdingBuildingID == old(holdingBuildingID)
        invariant |created| == i
        invariant i == 0 ==> reg.objects == old(reg.objects)
        invariant forall id :: id in old(reg.objects) ==> id in reg.objects && reg.objects[id] == old(reg.objects[id])
        invariant reg.objects.Keys == old(reg.objects).Keys + IDsOf(created)
        invariant forall k :: 0 <= k < i ==>
                    && fresh(created[k]) && created[k].uniqueID in reg.objects
                    && reg.objects[created[k].uniqueID] == created[k]
                    && created[k].objectType == GameObjectType.Npc && created[k].forceType == force
                    && created[k].position == points[k]
      {
        var npc := CreateNpc(force, t, points[i], created);
        assert forall k :: 0 <= k < i ==> created[k].uniqueID != npc.uniqueID;
        created := created + [npc];
      }
    }

    /** createGameObject for an Npc at pos: a fresh Npc is registered under a
        new id; created stands for the Npcs made before it. */
    method CreateNpc(force: ForceType, t: Template, pos: Vec2, ghost created: seq<GameObject>)
      returns (npc: GameObject)
      requires Valid()
      modifies factory, reg`objects, this`holdingBuildingID
      ensures Valid() && holdingBuildingID == old(holdingBuildingID)
      ensures fresh(npc) && npc.uniqueID !in old(reg.objects)
      ensures reg.objects == old(reg.objects)[npc.uniqueID := npc]
      ensures reg.objects.Keys == old(reg.objects).Keys + {npc.uniqueID}
      ensures IDsOf(created + [npc]) == IDsOf(created) + {npc.uniqueID}
      ensures npc.objectType == GameObjectType.Npc && npc.forceType == force && npc.position == pos
    {
      var o := CreateGameObject(GameObjectType.Npc, force, t, pos);
      npc := o;
      IDsOfAppend(created, npc);
    }

    /** The points are the anchors of the cells, and distinct cells have
        distinct anchors. */
    lemma DistinctAnchors(points: seq<Vec2>, cells: seq<Cell>)
      requires mm.Valid() && mm.Anchored()
      requires |points| == |cells| && Distinct(cells)
      requires forall i :: 0 <= i < |cells| ==>
                 InMap(mm.shape, cells[i]) && points[i] == mm.table[cells[i].col, cells[i].row].leftTopPosition
      ensures forall i :: 0 <= i < |points| ==> points[i] == LeftTopPosition(mm.shape, cells[i])
      ensures forall i, j :: 0 <= i < j < |points| ==> points[i] != points[j]
    {
      forall i, j | 0 <= i < j < |points| ensures points[i] != points[j] {
        if points[i] == points[j] {
          LeftTopInjective(mm.shape, cells[i], cells[j]);
        }
      }
    }

    /** The first search box: the tiles of the camp's first and last
        bottom grids, grown by one tile and clamped to the map. */
    function CampBox(camp: GameObject): (b: Box)
      reads camp
      requires ValidShape(mm.shape) && |camp.footprint| >= 1
      ensures BoxInMap(b, mm.shape.width, mm.shape.height)
    {
      var first := TileSubscript(mm.shape, Add(camp.position, camp.footprint[0]));
      var last := TileSubscript(mm.shape, Add(camp.position, camp.footprint[|camp.footprint| - 1]));
      Box(Max(0, first.col - 1), Max(0, first.row - 1),
          Min(last.col + 1, mm.shape.width - 1), Min(last.row + 1, mm.shape.height - 1))
    }
  }
}
