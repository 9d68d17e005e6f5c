# Isometric tile-map battle: a verified model of the simulation core

This project models the simulation logic of a cocos2d isometric strategy
game in Dafny and proves properties of the model. It covers five source
files. Map positions are exact reals and the tile table is an `array2`.

- **MapManager.cpp**
  - The tile arithmetic: the tile subscript of a map position, clamped and
    floored, and the anchor (`leftTopPosition`) of each tile.
  - The tile-node table and the obstacle lookup.
  - The formation search that picks one move target per selected unit. It
    scans columns alternately left and right inside a row band.
- **GameWorld.cpp**
  - Object creation and the held building: construct and cancel.
  - The force and object type read off an edit layer's name, and the
    placing of pre-edited objects.
  - The path query. It makes the end tile passable for the call and then
    restores it.
  - The spawn-point search around a base camp. It uses a scratch copy of the
    gid table and a box that grows by one tile per pass.
- **Building.cpp**
  - The status machine: PrepareToBuild, BeingBuilt, Working and Destory
    (the source's spelling).
  - Its delayed callbacks, held as explicit pending timers.
  - The buildability flag over the footprint grids.
  - Build progress.
- **GameObject.cpp**
  - Hit points and the death trigger.
  - The HP bar's damage timer.
  - Selection and the team id.
  - The factory's id counter.
- **BulletManager.cpp**
  - The launch checks and the flight time.
  - Single-target and area damage on arrival.

Modules follow the program:

| module | file | models |
|---|---|---|
| `Common` | `common.dfy` | the game's enumerations and the header constants |
| `Geometry` | `geometry.dfy` | points, cells and squared distances |
| `TileMath` | `tile_math.dfy` | the pure isometric formulas |
| `Maps` | `map_manager.dfy` | class `MapManager` |
| `GameObjects` | `game_objects.dfy` | class `GameObject` (generic and building state in one class) and class `GameObjectFactory` |
| `Registry` | `registry.dfy` | class `GameObjectManager` |
| `Bullets` | `bullets.dfy` | the bullet manager |
| `SpawnSearch` | `spawn_search.dfy` | the reference definition of the spawn scan: boxes, the probe order of a pass, the greedy claim |
| `World` | `world.dfy` | class `GameWorld` |

The game-object registry's own source is not part of this model. It is
modelled as a map from unique id to object, visited in increasing id order
as a `std::map` is, together with the set of ids queued for removal.

## Model

| member | source | states |
|---|---|---|
| Geometry.SquaredDistance | coc/Classes/BulletManager.cpp:42 | the squared distance the model uses in place of the distance is never negative |
| Geometry.WithinRadiusBySquares | coc/Classes/BulletManager.cpp:97-98 | for a true distance d, `d <= radius` holds exactly when the radius is non-negative and the squared distance is at most the squared radius |
| TileMath.TileSubscript | coc/Classes/MapManager.cpp:274-293 | every position gets a cell of the table; inside the table each raw coordinate is floored; below or above the range it is pulled to the first or last index |
| TileMath.RawColumn | coc/Classes/MapManager.cpp:281 | the unclamped column subscript of a map position, before clamping and flooring; RawOfLeftTop, TileSubscript and GridOffsetShiftsRaw state what it gives |
| TileMath.RawRow | coc/Classes/MapManager.cpp:282 | the unclamped row subscript of a map position; RawOfLeftTop, TileSubscript and GridOffsetShiftsRaw state what it gives |
| TileMath.LeftTopPosition | coc/Classes/MapManager.cpp:355-356 | the anchor of a tile; RawOfLeftTop, RoundTrip and LeftTopInjective state that it inverts the subscript formula and tells tiles apart |
| TileMath.RawOfLeftTop | coc/Classes/MapManager.cpp:354-357 | the raw subscript formula applied to a tile's anchor gives exactly that tile's column and row |
| TileMath.RoundTrip | coc/Classes/MapManager.cpp:274-293 | for every cell of the table, the subscript of its anchor is the cell itself |
| TileMath.LeftTopInjective | coc/Classes/MapManager.cpp:354-357 | two cells of the table with the same anchor are the same cell |
| TileMath.GridOffsetShiftsRaw | coc/Classes/Building.cpp:149-168 | moving by the block offset (i, j) moves the raw subscript by j columns and i rows |
| TileMath.GridOffsetShiftsTile | coc/Classes/Building.cpp:149-168 | when the block lies inside the table, grid (i, j) falls in the tile j columns right of and i rows below grid (0, 0) |
| Maps.HalfTowardZero | coc/Classes/MapManager.cpp:152-156 | `k / 2` as C++ computes it: truncation toward zero, for both signs |
| Maps.FormationCentre | coc/Classes/MapManager.cpp:145-153 | the centre tile is on the map, in the cursor's column; its row lies in [k/2, maxRow - k/2] with k = min(count, LINEUP_MAX_ROW_COUNT); a cursor row already in that range is kept |
| Maps.BandTop | coc/Classes/MapManager.cpp:155 | the band's first row is on the map |
| Maps.BandBottom | coc/Classes/MapManager.cpp:156 | the band's last row is on the map; the band spans 2*(k/2)+1 rows, which is k or k+1 |
| Maps.FormationDelta | coc/Classes/MapManager.cpp:164-165 | moving the centre tile's anchor by the offset gives back the cursor |
| Maps.LeftAsWritten | coc/Classes/MapManager.cpp:169-179 | the left probe as written: the right side is untouched; a list not over-full stays within count and never shrinks; a probe that takes a target keeps the left side enabled and moves it one column left; a side once given up stays given up |
| Maps.RightAsWritten | coc/Classes/MapManager.cpp:186-196 | the right probe as written, mirrored: the left side is untouched, the list stays within count, a probe that takes a target moves the right side one column right, and a side once given up stays given up |
| Maps.LineupIterationAsWritten | coc/Classes/MapManager.cpp:167-202 | an iteration started with the list full leaves the loop unchanged; an iteration exits only with the list full or both sides given up |
| Maps.LineupRunAsWritten | coc/Classes/MapManager.cpp:167-202 | zero iterations leave the loop running where it started; a run of the loop as written exits only with the list full or both sides given up |
| Maps.LineupSpinsAsWritten | coc/Classes/MapManager.cpp:167-202 | on one column with one free band tile and two units selected, the loop as written is still running after every number of iterations, stuck in the same state from the first iteration on |
| Maps.MapManager.LineupIteration | coc/Classes/MapManager.cpp:167-202 | one iteration of the formation loop, with the model's extra stop: a full list exits unchanged; a running iteration widens the explored range by at least one column and stays within the map's edges |
| Maps.MapManager.IterationTally | coc/Classes/MapManager.cpp:167-202 | counted instead of listed, an iteration of the model is an iteration of the loop as written; where the model stops for lack of probes, the loop as written exits at its own stop or stays in that state |
| Maps.MapManager.LineupRunAgrees | coc/Classes/MapManager.cpp:167-202 | whenever the loop as written exits within k iterations, it exits in the counted form of the state the model's run ends in |
| Maps.MapManager.ExitAgrees | coc/Classes/MapManager.cpp:181-201 | an iteration at which the model exits: the loop as written, if it exits, exits in the same counted state |
| Maps.MapManager.LineupCellsAsWritten | coc/Classes/MapManager.cpp:158-202 | from the source's start (left at the centre column, right at the next, both enabled, nothing taken), when the loop as written exits, the reference list has exactly as many tiles as it took, and both runs end at the same columns |
| Maps.MapManager.ProbeTakeCells | coc/Classes/MapManager.cpp:228-248 | one probe's tiles are distinct free band tiles of its column, at most max(1, room) of them; fewer means every free band tile of the column was taken; none exactly when the column is blocked |
| Maps.MapManager.LeftProbeKeeps | coc/Classes/MapManager.cpp:169-179 | the left probe keeps the formation invariant and leaves the left index below the centre column |
| Maps.MapManager.RightProbeKeeps | coc/Classes/MapManager.cpp:186-196 | the right probe after the first left probe keeps the formation invariant |
| Maps.MapManager.IterationKeeps | coc/Classes/MapManager.cpp:167-202 | an iteration keeps the formation invariant; one that exits with the list short exits because no side can probe |
| Maps.MapManager.LineupRunKeeps | coc/Classes/MapManager.cpp:167-202 | the formation invariant holds where the loop ends, and a loop that ends short has stopped |
| Maps.MapManager.LineupRunFromStart | coc/Classes/MapManager.cpp:158-202 | the invariant holds at the source's start, so it holds where the loop started there ends |
| Maps.MapManager.LineupOutcome | coc/Classes/MapManager.cpp:158-202 | the reference list is a formation of the explored columns lo..hi around the centre column; a short list means each side ended at the map edge or at an all-obstacle column |
| Maps.MapManager.NoLineup | coc/Classes/MapManager.cpp:167 | with no unit selected the loop takes nothing |
| Maps.MapManager.StoppedEdges | coc/Classes/MapManager.cpp:169-201 | a stopped loop state with the invariant has each side at the map edge or at an all-obstacle column |
| Maps.MapManager.SearchLeft | coc/Classes/MapManager.cpp:169-179 | the imperative left probe gives exactly the reference left probe's state |
| Maps.MapManager.SearchRight | coc/Classes/MapManager.cpp:186-196 | the imperative right probe gives exactly the reference right probe's state |
| Maps.MapManager.SearchBody | coc/Classes/MapManager.cpp:169-201 | one pass of the loop body is exactly one reference iteration, and it reports whether that iteration exited |
| Maps.MapManager.SearchStep | coc/Classes/MapManager.cpp:169-201 | one pass of the body moves the explored range outwards and keeps the reference run's final state ahead of it; a pass that exits or fills the list is at that final state |
| Maps.MapManager.SearchLoop | coc/Classes/MapManager.cpp:158-202 | the loop, from the source's start, ends in exactly the state the reference run ends in |
| Maps.MapManager.constructor | coc/Classes/MapManager.cpp:336-367 | every node holds its layer gid, its cell's anchor, its own column and row, no parent, and is not visited |
| Maps.MapManager.GetTileNodeAt | coc/Classes/MapManager.cpp:369-372 | the node of a cell carries that cell's subscripts |
| Maps.MapManager.Gids | coc/Classes/MapManager.cpp:352 | the table's gids as a grid indexed [column][row], the shape of the game-object layer |
| Maps.MapManager.SetGid | coc/Classes/GameWorld.cpp:347 | the gid of one node is set; every other field of the table, and every other node, is left as it was |
| Maps.MapManager.IsInObstacleTile | coc/Classes/MapManager.cpp:207-226 | a position over the table is in an obstacle tile exactly when the tile at its floored raw subscripts has OBSTACLE_ID |
| Maps.MapManager.ObstacleAtAnchor | coc/Classes/MapManager.cpp:207-226 | `isInObstacleTile` at a tile's anchor is true exactly when that tile's gid is OBSTACLE_ID |
| Maps.MapManager.FreeRowsMembership | coc/Classes/MapManager.cpp:232-235 | a row is listed exactly when it lies in minRow..maxRow and its node is not an obstacle |
| Maps.MapManager.FreeRowsIncreasing | coc/Classes/MapManager.cpp:232 | the rows are listed top to bottom, strictly increasing, inside the range |
| Maps.MapManager.FreeRowsPrefix | coc/Classes/MapManager.cpp:232-245 | a scan that stops early sees a prefix of the full scan's rows |
| Maps.MapManager.InsertNpcMoveEndPositionInto | coc/Classes/MapManager.cpp:228-248 | the list grows by the targets of the column's free rows, in row order, each anchor moved by the cursor delta; it stops once the list is full (at least one push before that test); the result is the number appended |
| Maps.MapManager.ProbeCells | coc/Classes/MapManager.cpp:228-248 | the cells one probe takes are distinct, free and in the band; a probe that takes every free row covers the column's free band cells |
| Maps.MapManager.ProbeStep | coc/Classes/MapManager.cpp:169-196 | a probe next to the explored columns keeps the formation invariant for the wider range; a probe that leaves the list short took every free row of its column |
| Maps.MapManager.Probe | coc/Classes/MapManager.cpp:169-196 | one side's probe keeps the formation invariant; it returns 0 exactly when the column's band is all obstacles, which disables that side |
| Maps.MapManager.SearchFormation | coc/Classes/MapManager.cpp:158-202 | the targets are, in order, the anchors (moved by the delta) of exactly the tiles the reference loop takes, left probe first from the centre column, right from the next column, alternating; the result has at most count targets, distinct free band cells of the explored columns; if it is short, every free band cell there was taken and each side ended at the map edge or at an all-obstacle column |
| Maps.MapManager.GetNpcMoveTargetListBy | coc/Classes/MapManager.cpp:136-205 | the targets are, in order, the moved anchors of exactly the tiles the reference loop takes for the clamped centre tile and band; they are distinct; each is a free band tile's anchor moved by the cursor's offset from the centre tile; there are at most count of them, none for count <= 0 |
| Maps.MapManager.FormationAnchors | coc/Classes/MapManager.cpp:238 | each formation target is its cell's anchor moved by the delta |
| Maps.MapManager.FormationTargetsDistinct | coc/Classes/MapManager.cpp:238 | no two formation targets coincide |
| GameObjects.CostedHP | coc/Classes/GameObject.cpp:138-140 | hit points after costHP are never negative; they are 0 exactly when the damage reaches the old hit points, and otherwise drop by the amount |
| GameObjects.HealedHP | coc/Classes/GameObject.cpp:149 | hit points after addHP never exceed maxHp; they grow by the amount when that fits, and a heal never lowers them |
| GameObjects.HPBarTimerRule | coc/Classes/GameObject.cpp:177-182 | over any run of ticks, a selected object's HP bar is left as it was; an unselected object keeps it exactly while the timer plus the elapsed time stays under 3 s |
| GameObjects.TickSplitsActions | coc/Classes/Building.cpp:254-264 | in a tick every pending delayed call either fires or stays pending with time left |
| GameObjects.TicksAdd | coc/Classes/Building.cpp:254-264 | a tick that fires nothing followed by a second tick acts like one tick of the combined length |
| GameObjects.SingleCallFires | coc/Classes/Building.cpp:255 | a delayed call fires in the tick that uses up its delay and not before |
| GameObjects.OnlyRemovalPending | coc/Classes/Building.cpp:286-292 | once only removal calls are pending, the construction callback never fires again |
| GameObjects.TickKeepsFit | coc/Classes/Building.cpp:254-264 | a tick of at most one pending call that fits the status: what fires and what stays pending fit it too, and nothing stays pending once the call fired |
| GameObjects.FootprintGrids | coc/Classes/Building.cpp:131-170 | the footprint has 1 grid exactly when the PrepareToBuild sprite fits in one tile, otherwise 9 |
| GameObjects.GridOffsetNextColumn | coc/Classes/Building.cpp:166-167 | the running grid position's step of half a tile right and down moves to the next column of the block |
| GameObjects.GridOffsetRowStart | coc/Classes/Building.cpp:153-154 | the running grid position at the start of row i of the block |
| GameObjects.InitBottomGrids | coc/Classes/Building.cpp:121-171 | the nested loop lays out exactly the footprint grids, row by row |
| GameObjects.BlockGridTile | coc/Classes/Building.cpp:149-168 | grid k of a block on the map lies k % 3 columns right of and k / 3 rows below the first grid's tile |
| GameObjects.BlockCoversNineTiles | coc/Classes/Building.cpp:149-168 | the nine grids of a block on the map fall in nine different tiles |
| GameObjects.GameObject.CreateNpc | coc/Classes/GameObject.cpp:212-217 | a new Npc has its id, type, force and position, full hit points, the template's battle values, and is not selected or being removed |
| GameObjects.GameObject.CreateBuilding | coc/Classes/Building.cpp:33-58 | a new building is in PrepareToBuild with only that sprite shown; hp == maxHp == the template's maxHP; it has its footprint and a hidden empty progress bar; nothing is scheduled |
| GameObjects.GameObject.SetSelected | coc/Classes/GameObject.cpp:92-106 | isSelected, the HP bar, the tips and the team label all become b |
| GameObjects.GameObject.SetTeamID | coc/Classes/GameObject.cpp:237-248 | TEAM_INVALID_ID leaves the team id and clears the label; any other id is stored and shown |
| GameObjects.GameObject.IsReadyToRemove | coc/Classes/Building.cpp:213-216 | a building is ready to remove exactly when its Destory sprite is the one shown, that is when it is in Destory; an Npc exactly when its removal was recorded |
| GameObjects.GameObject.AddHP | coc/Classes/GameObject.cpp:147-150 | hit points become min(hp + amount, maxHp) |
| GameObjects.GameObject.Update | coc/Classes/GameObject.cpp:168-183 | the damage timer grows by delta; the HP bar is hidden iff the object is unselected and the timer reached 3 s |
| GameObjects.GameObject.UpdateStatus | coc/Classes/Building.cpp:237-274 | the status becomes s and exactly its sprite is shown; BeingBuilt hides the HP bar, shows the progress bar and schedules completion after the build time; Destory schedules the removal call after 2 s |
| GameObjects.GameObject.OnPrepareToRemove | coc/Classes/Building.cpp:286-292 | a building drops every pending call, hides progress and enters Destory, so only the removal call is pending; it is then ready to remove |
| GameObjects.GameObject.CostHP | coc/Classes/GameObject.cpp:133-145 | the whole effect on the object (HPCosted): the timer restarts and hp = max(0, hp - amount); at 0 the HP bar is hidden and the object is prepared for removal (a building enters Destory with only the removal call pending); otherwise the HP bar is shown and nothing else changes; pending calls that fitted the status still do, and a building's status only moves along the lifecycle |
| GameObjects.GameObject.Perish | coc/Classes/GameObject.cpp:140-144 | an object out of hit points hides its HP bar and is ready to remove; a building is in Destory with only the removal call pending |
| GameObjects.GameObject.OnConstructionComplete | coc/Classes/Building.cpp:391-397 | the building enters Working with the HP bar shown and progress hidden |
| GameObjects.GameObject.UpdateCanBuild | coc/Classes/Building.cpp:346-377 | in PrepareToBuild, canBuild is true iff no footprint grid lies in an obstacle tile; in other states it is unchanged |
| GameObjects.GameObject.UpdateBeingBuiltProgressBar | coc/Classes/Building.cpp:399-405 | the shown percent is elapsed-before-the-tick over the build time times 100; then elapsed grows by exactly delta |
| GameObjects.GameObject.BuildingUpdate | coc/Classes/Building.cpp:223-235 | the generic update, then the buildability rule; while BeingBuilt the HP bar is hidden and progress advances, otherwise progress is untouched |
| GameObjects.GameObject.RunActions | coc/Classes/Building.cpp:254-264 | the pending calls shrink by delta; a fired construction call moves the building to Working; a fired removal call is reported to the caller; nothing else changes; when the pending calls fit the status, they still do, the only status change is BeingBuilt to Working, and Destory stays Destory |
| GameObjects.GameObjectFactory.constructor | coc/Classes/GameObject.cpp:7 | the counter starts at 0 with no id handed out |
| GameObjects.GameObjectFactory.Create | coc/Classes/GameObject.cpp:206-230 | an Npc, DefenceInBuildingNpc or Building gets id counter+1, larger than every earlier id; any other type gives null and leaves the counter unchanged |
| Registry.GameObjectManager.AddGameObject | coc/Classes/GameWorld.cpp:291 | the registry gains the new object under its own id |
| Registry.GameObjectManager.RemoveGameObjectBy | coc/Classes/GameWorld.cpp:411 | the registry loses exactly that id |
| Registry.GameObjectManager.AddReadyToRemoveGameObject | coc/Classes/Building.cpp:407-410 | the removal queue gains the id |
| Registry.GameObjectManager.TickActions | coc/Classes/Building.cpp:407-410 | a registered object's tick: its calls run as in RunActions, a removal call that fires puts its id in the removal queue and nothing else does, and the registered objects stay the same |
| Registry.GameObjectManager.SortedIDs | coc/Classes/GameWorld.cpp:443-444 | the registered ids, each once, in increasing order, as the map loop visits them |
| Bullets.CreateBullet | coc/Classes/BulletManager.cpp:22-62 | no bullet iff the attacker or the target is missing or the type is Invalid; otherwise the bullet flies from attacker to target with squared flight time times speed squared equal to the squared distance; the arrival is AOE at the target's launch position when the attacker does area damage, else single-target with the launch-time attack power |
| Bullets.TravelTime | coc/Classes/BulletManager.cpp:42-45 | a bullet has arrived exactly when distance / 1000 seconds have passed |
| Bullets.ThreeHundredUnits | coc/Classes/BulletManager.cpp:44 | 300 map units take 0.3 s |
| Bullets.QualifiesByDistance | coc/Classes/BulletManager.cpp:86-102 | the squared-distance test is the source's four-part test: not ready to remove, another force, not a DefenceInBuildingNpc, distance <= radius |
| Bullets.OnNormalDamageBulletMoveEnd | coc/Classes/BulletManager.cpp:64-75 | a registered target that is not ready to remove takes costHP(damage) once, with its whole effect (HPCosted); otherwise, and for every other object, nothing changes |
| Bullets.CollectAOETargets | coc/Classes/BulletManager.cpp:83-102 | the ids of exactly the qualifying objects, in id order |
| Bullets.OnAOEDamageBulletMoveEnd | coc/Classes/BulletManager.cpp:77-113 | the ids are chosen on the registry as it was on arrival; each of them takes costHP(power) once, with its whole effect (HPCosted); every other object is unchanged |
| SpawnSearch.Expand | coc/Classes/GameWorld.cpp:523-527 | the grown box stays on the map, contains the old one, moves each side by at most one tile, and equals it exactly when it is the whole map |
| SpawnSearch.BoxAt | coc/Classes/GameWorld.cpp:523-527 | every pass's box lies on the map and stays ordered |
| SpawnSearch.ColumnsStep | coc/Classes/GameWorld.cpp:481-500 | one column of a pass adds its top and then its bottom probe |
| SpawnSearch.RowsStep | coc/Classes/GameWorld.cpp:502-521 | one row of a pass adds its left and then its right probe |
| SpawnSearch.ProbesStep | coc/Classes/GameWorld.cpp:479-527 | a further pass probes its box's border, then grows the box |
| SpawnSearch.ClaimedSound | coc/Classes/GameWorld.cpp:483-519 | never more than count cells; each was probed and not blocked; none twice |
| SpawnSearch.ClaimedNoneFree | coc/Classes/GameWorld.cpp:483-484 | when every probed cell is blocked nothing is claimed |
| SpawnSearch.ClaimedComplete | coc/Classes/GameWorld.cpp:483-519 | while the list is short, every probed free cell has been claimed |
| SpawnSearch.ClaimedPrefix | coc/Classes/GameWorld.cpp:479-528 | later probes only append to the claimed list |
| SpawnSearch.ColumnsOnBorder | coc/Classes/GameWorld.cpp:481-500 | the column half of a pass probes only the top and bottom lines |
| SpawnSearch.RowsOnBorder | coc/Classes/GameWorld.cpp:502-521 | the row half of a pass probes only the left and right lines |
| SpawnSearch.PassProbesOnBorder | coc/Classes/GameWorld.cpp:481-521 | every probe of a pass is a map cell on the box's border |
| SpawnSearch.ProbesInMap | coc/Classes/GameWorld.cpp:473-527 | every probe of every pass is a map cell |
| SpawnSearch.ColumnsCover | coc/Classes/GameWorld.cpp:481-500 | every cell of the top and bottom lines is probed |
| SpawnSearch.RowsCover | coc/Classes/GameWorld.cpp:502-521 | every cell of the left and right lines is probed |
| SpawnSearch.BorderProbed | coc/Classes/GameWorld.cpp:481-521 | a pass probes every border cell of its box |
| SpawnSearch.BoxAtGrows | coc/Classes/GameWorld.cpp:473-477 | after n passes each side is n tiles out, clamped to the map |
| SpawnSearch.BoxAtBecomesFull | coc/Classes/GameWorld.cpp:523-527 | within width + height passes the box is the whole map |
| SpawnSearch.ProbesPrefix | coc/Classes/GameWorld.cpp:479-528 | the probes of fewer passes are a prefix of the probes of more |
| SpawnSearch.ProbedByPass | coc/Classes/GameWorld.cpp:479-528 | by the end of pass m, every cell of that pass's box outside the first box's interior has been probed |
| SpawnSearch.SearchCoversMap | coc/Classes/GameWorld.cpp:479-528 | once a whole-map pass is done and the list is still short, every free map cell outside the first box's interior has been claimed |
| SpawnSearch.AllBlockedSpins | coc/Classes/GameWorld.cpp:479 | when every map cell is blocked, the loop condition as written stays true after every number of passes |
| SpawnSearch.SourceSearchSpins | coc/Classes/GameWorld.cpp:479 | on a 1x1 map whose tile is an obstacle, a search for one point never ends as written |
| World.TruncateToInt | coc/Classes/GameWorld.cpp:140-141 | the float-to-int conversion truncates toward zero, for both signs |
| World.EditedCell | coc/Classes/GameWorld.cpp:140-141 | an editor position on the map stands on the cell of the whole numbers of tile heights across and up from the bottom edge (both divided by the tile height, as the source does); off the map on the low side a coordinate truncates to at most 0 |
| World.LayerMapping | coc/Classes/GameWorld.cpp:91-114 | the force is Invalid exactly when the type is, and the type is always a Building, an Npc or Invalid |
| World.LayerMappingSound | coc/Classes/GameWorld.cpp:91-114 | the four edit layers give four different valid (force, type) pairs, each a Building or an Npc; any other name gives Invalid for both |
| World.UnknownLayerPassesAsWritten | coc/Classes/GameWorld.cpp:111-114 | as written, an unknown layer name passes the check with force and type Invalid |
| World.ParseAssertFiresAsWritten | coc/Classes/GameWorld.cpp:113 | as written the check stops on no name at all |
| World.ParseAssertFires | coc/Classes/GameWorld.cpp:111-114 | the intended check stops exactly on the names that are not edit layers |
| World.PathPoints | coc/Classes/GameWorld.cpp:356-365 | the points are one fewer than the path's nodes (none for no nodes), and read from the end they are the nodes' anchors moved by delta, in node order |
| World.PathPointsEnds | coc/Classes/GameWorld.cpp:356-365 | a path of n tiles gives n - 1 points in reverse order, after dropping the start tile's point; when the path's first node is the end tile, the last point is the end position |
| World.QueryGids | coc/Classes/GameWorld.cpp:344-354 | the gids the path finder sees: the table's own, except that the end tile is PASSABLE_ID when the override is on |
| World.GameWorld.constructor | coc/Classes/GameWorld.cpp:27-76 | the world starts with a valid table, an empty registry, a scratch table of the map's size, and no held building or base camp |
| World.GameWorld.CreateGameObject | coc/Classes/GameWorld.cpp:289-300 | a non-Invalid type is registered under a fresh id with its type, force and position, full hit points, not ready to remove; a Player building becomes the held building; for Invalid the factory gives null and the registry and the held id are unchanged |
| World.GameWorld.PlaceEditedObject | coc/Classes/GameWorld.cpp:140-161 | an edit-layer object is created on its tile's anchor with the layer's force and type; a Player building goes straight to Working; a BaseCamp becomes its force's camp; a non-edit layer creates nothing |
| World.GameWorld.ComputePathListBetween | coc/Classes/GameWorld.cpp:332-382 | with the path finder a pure function, the table ends exactly as it began; an obstacle end tile without the override gives no path; one tile gives [end] unless the positions are equal; otherwise the reversed path, minus its first point, that the finder computes on the table's gids with the end tile passable under the override (QueryGids) |
| World.GameWorld.PathOnTable | coc/Classes/GameWorld.cpp:350-374 | on the table as it stands: an obstacle end tile gives no path; between two tiles, the points of the path the finder computes on the table's gids; on one tile, the end position unless the two positions are equal |
| World.GameWorld.PathPointsOf | coc/Classes/GameWorld.cpp:356-365 | the loop over the finder's nodes gives exactly PathPoints: the anchors moved by delta, in reverse order, without the start node's point |
| World.GameWorld.ConstructBuilding | coc/Classes/GameWorld.cpp:389-401 | a held building in PrepareToBuild that can be built enters BeingBuilt, showing only that status's sprite, with completion scheduled, the progress bar shown and the HP bar hidden, and is released; only its status, sprites, bars and scheduled calls may change, so its hp, position and other fields stay; otherwise nothing changes |
| World.GameWorld.CancelConstructBuilding | coc/Classes/GameWorld.cpp:403-416 | a held building still in PrepareToBuild is removed; in every case nothing is held afterwards |
| World.GameWorld.CopyGIDs | coc/Classes/GameWorld.cpp:433-440 | the scratch table gets every tile's gid |
| World.GameWorld.NpcTiles | coc/Classes/GameWorld.cpp:443-453 | exactly the tiles some Npc stands on (DefenceInBuildingNpc excluded), all on the map |
| World.GameWorld.MarkTiles | coc/Classes/GameWorld.cpp:451 | the given tiles become obstacles in the scratch table and no other entry changes |
| World.GameWorld.MarkNpcTiles | coc/Classes/GameWorld.cpp:443-453 | afterwards the scratch table is an obstacle exactly on obstacle tiles and Npc tiles |
| World.GameWorld.ProbeCell | coc/Classes/GameWorld.cpp:483-490 | one probe extends the claimed cells as the reference claim does and marks a claimed cell as an obstacle |
| World.GameWorld.ProbePair | coc/Classes/GameWorld.cpp:483-499 | two probes in a row follow the reference claim |
| World.GameWorld.ScanColumns | coc/Classes/GameWorld.cpp:481-500 | the column loop claims what the reference claims over the columns' probes |
| World.GameWorld.ScanRows | coc/Classes/GameWorld.cpp:502-521 | the row loop claims what the reference claims over the rows' probes |
| World.GameWorld.ScanPass | coc/Classes/GameWorld.cpp:481-521 | one pass claims what the reference claims over PassProbes |
| World.GameWorld.SearchPass | coc/Classes/GameWorld.cpp:481-527 | a pass followed by the box growth gives the reference box and claim of the next pass; the box is unchanged exactly when it was the whole map |
| World.GameWorld.SearchAround | coc/Classes/GameWorld.cpp:479-528 | the points are the anchors of the reference claim after the passes run; a search short of count has done a whole-map pass |
| World.GameWorld.MarkAndSearch | coc/Classes/GameWorld.cpp:433-528 | the spawn points are the anchors of the cells the reference claim takes over the obstacle and Npc tiles |
| World.GameWorld.ComputeNpcCreatePointList | coc/Classes/GameWorld.cpp:418-532 | no camp gives no points; otherwise the points are the anchors of the claim of passes from the camp's box; the tile table and the registry are only read |
| World.GameWorld.SpawnPlanSound | coc/Classes/GameWorld.cpp:479-521 | the spawn cells are at most count distinct map cells, none an obstacle or an Npc's tile |
| World.GameWorld.CreateNpcsAt | coc/Classes/GameWorld.cpp:537-540 | one fresh registered Npc of the force per point, in order, on that point; the objects already registered are kept, and the registry gains exactly the new Npcs |
| World.GameWorld.CreateNpc | coc/Classes/GameWorld.cpp:539 | one createGameObject call for an Npc: a fresh Npc of the force at the point, registered under a new id, the registry otherwise unchanged |
| World.GameWorld.CreateNpcAroundBaseCamp | coc/Classes/GameWorld.cpp:534-541 | one new Npc of the force on the anchor of each cell of the spawn plan made on the map and registry as they were (so SpawnPlanSound applies: at most count distinct free cells, none on an Npc tile), on pairwise distinct points; none without a camp; the registry gains exactly the new Npcs |
| World.GameWorld.PlanSpawnPoints | coc/Classes/GameWorld.cpp:536 | the spawn points are at most count distinct anchors of the plan's cells, none without a camp |
| World.GameWorld.DistinctAnchors | coc/Classes/GameWorld.cpp:487 | distinct spawn cells give distinct spawn points |
| World.GameWorld.CampBox | coc/Classes/GameWorld.cpp:462-477 | the first search box, from the footprint's first and last grid tiles grown by one and clamped, lies on the map |

## Left out

- Rendering is not modelled: sprites, textures, opacity, depth sorting,
  the special effects and the HP-bar percent. Visibility is kept as boolean
  fields only where a contract speaks of it.
- Camera, input and cursor plumbing are not modelled. The cursor's map
  position is an input value.
- The TMX loading and the template lookups are engine calls. The map's
  layer and the template values are parameters.
- The pathfinder is foreign code. It is the parameter `finder`, a function
  from the start cell, the end cell and the table's gids as the query sees
  them to a path of map cells. Because `finder` is pure, the table ends as
  it began; any writes the real pathfinder makes to the nodes' `parent`
  and `isVisit` fields, which exist only for it (MapManager.cpp:359-364),
  are not modelled.
- `computeRotatedDegree` and the square root are float numerics. The model
  keeps squared distances and a squared flight time.
- Floats are exact reals, so no float rounding is modelled.
- The scheduled-action machinery is engine code. Each delayed call is a
  pending timer advanced by `RunActions(delta)`.
- Npc.cpp is not part of this model. A new Npc's battle values come from
  the template, and its removal state is one flag.
- The force and effect managers, whose code lies outside these five
  files, are not part of this model. The registry stands in for the
  game-object manager.
- Constants defined in headers outside these files (`OBSTACLE_ID`, `PASSABLE_ID`,
  the invalid ids, `LINEUP_MAX_ROW_COUNT`) have placeholder values. The
  proofs use only that the terrain ids differ and that the invalid object
  id is not positive.
- Maps.MapManager.IsInObstacleTile: the table is built from the
  game-object layer, so the layer is taken to exist and that branch is not
  modelled.
- Maps.MapManager.GetNpcMoveTargetListBy, Maps.FormationCentre,
  Maps.BandTop, Maps.BandBottom and Maps.FormationDelta: require a map at
  least 2*(k/2)+1 rows tall, with k = min(count, LINEUP_MAX_ROW_COUNT). The
  source does not check this. On a shorter map its band reaches above row 0
  (MapManager.cpp:152-156), and insertNpcMoveEndPositionInto then reads
  outside the tile table (MapManager.cpp:234, 369-372).
- Maps.MapManager.SearchFormation: stops where the source would loop
  forever (see Findings); otherwise it follows the loop.
- World.GameWorld.SearchAround: stops after a pass over the whole map;
  the source loops forever there (see Findings).
- World.GameWorld.ComputePathListBetween: `isVec2Equal` is modelled as
  exact equality of the two positions.
- World.GameWorld.PlaceEditedObject: models one edited object. The loops
  over groups and objects and the reading of x, y and name out of the value
  map are left out.
- World.GameWorld.PlaceEditedObject: requires the edited object's cell to
  be on the map. The source converts the editor coordinates and calls
  getTileNodeAt with no bounds check (GameWorld.cpp:140-142), so an object
  placed off the map makes it read outside the tile table.
- World.GameWorld.PlaceEditedObject: follows the intended layer check;
  the as-written check is in Findings.
- World.GameWorld.PlaceEditedObject and World.GameWorld.CreateGameObject:
  require a positive build time for buildings. The model's building
  invariant needs it; the source divides by it in the progress bar.
- World.GameWorld.CreateGameObject: for an Invalid type the source hands
  the factory's null to addChildInGameObjectLayer, which passes it to the
  engine's addChild (GameWorld.cpp:292, MapManager.cpp:330-334). That engine
  call is not modelled; the model returns null with the registry and the
  held id unchanged.
- World.GameWorld.ComputeNpcCreatePointList: requires the registered camp
  to be a Building. The source's static cast assumes this.
- World.GameWorld.ComputeNpcCreatePointList: looks up the camp before
  copying the gids. The lookup only reads, so the order does not matter.
- World.GameWorld.MarkNpcTiles: collects the Npc tiles first and marks
  them afterwards, where the source marks them during its loop over the
  registry. The resulting table is the same.
- GameObjects.GameObject.UpdateCanBuild and World.GameWorld.CampBox: a
  grid's map position is the building's position plus the grid's local
  offset. The sprite's world-space conversion is not modelled.
- GameObjects.GameObjectFactory.Create: `g_uniqueID` is a C++ `int`
  (GameObject.cpp:7, 215, 221). The model's counter is unbounded, so the
  overflow after 2^31 - 1 ids, past which the ids would no longer increase,
  is not modelled.
- GameObjects.GameObject.BuildingUpdate: following the cursor in
  PrepareToBuild is not modelled.
- Bullets.CreateBullet: the bullet's sprite, rotation and move action are
  not modelled.
- Bullets.CreateBullet: the area callback keeps the attacker's force,
  radius and power taken at launch. These values never change after
  creation, but the source keeps a pointer to the attacker and reads it on
  arrival (BulletManager.cpp:50, 79-81). Nothing keeps the attacker alive
  while the bullet flies, so an attacker removed before impact is read
  after it was freed. The launch-time snapshot does not capture that.

## Findings

| source | as written | input that shows it | evidently intended | confidence | as-written member | corrected member |
|---|---|---|---|---|---|---|
| coc/Classes/MapManager.cpp:167-202 | the formation loop exits only when the list is full or both sides are disabled; a side whose index has left the map is skipped but stays enabled | a map one column wide whose 3-row band has one free tile, with 2 units selected: after the first iteration neither side can probe, both flags stay true and the list holds 1 | stop once neither side can probe | not executed | Maps.LineupSpinsAsWritten | Maps.MapManager.SearchFormation |
| coc/Classes/GameWorld.cpp:479 | the spawn loop's only exit is a full list; once the box covers the map, each pass adds nothing new | a 1x1 map whose only tile is an obstacle, with a camp on it and 1 unit requested | stop after a pass over the whole map | not executed | SpawnSearch.SourceSearchSpins | World.GameWorld.SearchAround |
| coc/Classes/GameWorld.cpp:113 | `CCASSERT("Can not parse %s", name)` passes the message literal as the condition; it is a non-null pointer, so the check never stops | an object group named `buildingLayer`: force and type stay Invalid and its objects reach createGameObject with type Invalid, which hands a null object to addChildInGameObjectLayer (GameWorld.cpp:292); one named `BaseCamp` then has its id read through that null (GameWorld.cpp:155, 159) | `CCASSERT(false, ...)`: stop on every name that is not an edit layer | not executed | World.UnknownLayerPassesAsWritten | World.ParseAssertFires |
