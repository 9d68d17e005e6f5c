/** The game's entities (GameObject.cpp and Building.cpp): hit points, the
    HP bar's damage timer, selection, the team id, the building status
    machine with its pending timed callbacks, the buildability flag over the
    building's footprint, build progress, and the factory's id counter.

    One class carries both the generic entity state and the building state;
    the building fields are only used by objects whose type is Building. */
module GameObjects {
  import opened Common
  import opened Geometry
  import opened TileMath
  import opened Maps

  /** MAX_SHOW_HP_BAR_TIME_LIMIT_AFTER_BEING_ATTACKED, in seconds. */
  const MAX_SHOW_HP_BAR_TIME: real := 3.0
  /** BUILDING_DELAY_REMOVE_TIME, in seconds. */
  const BUILDING_DELAY_REMOVE_TIME: real := 2.0
  const MAX_BOTTOM_GRID_COUNT: nat := 9
  const MIN_BOTTOM_GRID_COUNT: nat := 1

  /** The template values an object is created from. Npcs use the battle
      values; buildings use maxHP, the build time, the size of their
      PrepareToBuild sprite and the y position of their centre bottom grid. */
  datatype Template = Template(maxHP: int, attackPower: int, damageType: DamageType,
                               aoeDamageRadius: real, buildingTimeBySecond: real,
                               spriteWidth: real, spriteHeight: real,
                               centerBottomGridYPosition: real)

  /** The member functions a building hands to a delayed action. */
  datatype Callback = ConstructionComplete | AddToRemoveQueue

  /** A running Sequence(DelayTime, CallFunc): the callback fires once the
      remaining delay has run out. */
  datatype ScheduledCall = ScheduledCall(remaining: real, callback: Callback)

  /** The status sprites in the order a std::map keyed by status visits them. */
  const StatusOrder: seq<BuildingStatus> :=
    [BuildingStatus.PrepareToBuild, BuildingStatus.BeingBuilt,
     BuildingStatus.Working, BuildingStatus.Destory]

  const AllStatuses: set<BuildingStatus> :=
    {BuildingStatus.PrepareToBuild, BuildingStatus.BeingBuilt,
     BuildingStatus.Working, BuildingStatus.Destory}

  /** The position of a status in StatusOrder. */
  function Ordinal(t: BuildingStatus): (k: nat)
    ensures k < |StatusOrder| && StatusOrder[k] == t
  {
    match t
    case PrepareToBuild => 0
    case BeingBuilt => 1
    case Working => 2
    case Destory => 3
  }

  lemma StatusOrderComplete(t: BuildingStatus)
    ensures t in StatusOrder
  {
    assert StatusOrder[Ordinal(t)] == t;
  }

  /** Hit points after costHP(amount). */
  function CostedHP(hp: int, amount: int): (h: int)
    ensures h >= 0
    ensures h == 0 <==> hp - amount <= 0
    ensures h != 0 ==> h == hp - amount
  {
    Max(0, hp - amount)
  }

  /** Hit points after addHP(amount). */
  function HealedHP(hp: int, amount: int, maxHp: int): (h: int)
    ensures h <= maxHp
    ensures h == maxHp || h == hp + amount
    ensures hp + amount <= maxHp ==> h == hp + amount
    ensures amount >= 0 && hp <= maxHp ==> hp <= h
  {
    Min(hp + amount, maxHp)
  }

  /** Whether the HP bar is still shown after a tick that left the damage
      timer at timer: it is hidden once an unselected object has gone
      MAX_SHOW_HP_BAR_TIME without being hit. */
  function BarAfterTick(visible: bool, selected: bool, timer: real): bool {
    visible && (selected || timer < MAX_SHOW_HP_BAR_TIME)
  }

  function Sum(deltas: seq<real>): real {
    if deltas == [] then 0.0 else deltas[0] + Sum(deltas[1..])
  }

  /** The HP bar after a run of ticks with the given frame times, starting
      from the damage timer timer. */
  function BarAfterTicks(visible: bool, selected: bool, timer: real, deltas: seq<real>): bool
    decreases |deltas|
  {
    if deltas == [] then visible
    else BarAfterTicks(BarAfterTick(visible, selected, timer + deltas[0]), selected,
                       timer + deltas[0], deltas[1..])
  }

  /** Over any run of non-negative frame times, a selected object keeps its
      HP bar as it was, and an unselected one keeps it exactly while the
      damage timer stays below the limit. */
  lemma {:induction false} HPBarTimerRule(visible: bool, selected: bool, timer: real, deltas: seq<real>)
    requires forall i :: 0 <= i < |deltas| ==> deltas[i] >= 0.0
    decreases |deltas|
    ensures selected ==> BarAfterTicks(visible, selected, timer, deltas) == visible
    ensures !selected && deltas != [] ==>
              (BarAfterTicks(visible, selected, timer, deltas)
               <==> visible && timer + Sum(deltas) < MAX_SHOW_HP_BAR_TIME)
  {
    if deltas != [] {
      var t := timer + deltas[0];
      HPBarTimerRule(BarAfterTick(visible, selected, t), selected, t, deltas[1..]);
      if deltas[1..] != [] {
        SumNonNegative(deltas[1..]);
      }
    }
  }

  lemma {:induction false} SumNonNegative(deltas: seq<real>)
    requires forall i :: 0 <= i < |deltas| ==> deltas[i] >= 0.0
    ensures Sum(deltas) >= 0.0
  {
    if deltas != [] {
      SumNonNegative(deltas[1..]);
    }
  }

  /** The delayed actions still running after a tick of delta seconds. */
  function Remaining(actions: seq<ScheduledCall>, delta: real): (rest: seq<ScheduledCall>)
    ensures |rest| <= |actions|
  {
    if actions == [] then []
    else
      var left := actions[0].remaining - delta;
      (if left > 0.0 then [ScheduledCall(left, actions[0].callback)] else [])
        + Remaining(actions[1..], delta)
  }

  /** The callbacks that fire during a tick of delta seconds, in the order
      the actions were started. */
  function Fired(actions: seq<ScheduledCall>, delta: real): (fired: seq<Callback>)
    ensures |fired| <= |actions|
  {
    if actions == [] then []
    else
      (if actions[0].remaining - delta > 0.0 then [] else [actions[0].callback])
        + Fired(actions[1..], delta)
  }

  /** Every action either fires or stays pending with time left. */
  lemma {:induction false} TickSplitsActions(actions: seq<ScheduledCall>, delta: real)
    ensures |Fired(actions, delta)| + |Remaining(actions, delta)| == |actions|
    ensures forall i :: 0 <= i < |Remaining(actions, delta)| ==> Remaining(actions, delta)[i].remaining > 0.0
  {
    if actions != [] {
      TickSplitsActions(actions[1..], delta);
    }
  }

  /** Delays add up: a tick that fires nothing followed by a second tick
      has the same effect as one tick of the combined length. */
  lemma {:induction false} TicksAdd(actions: seq<ScheduledCall>, d1: real, d2: real)
    requires Fired(actions, d1) == []
    ensures Remaining(Remaining(actions, d1), d2) == Remaining(actions, d1 + d2)
    ensures Fired(Remaining(actions, d1), d2) == Fired(actions, d1 + d2)
  {
    if actions != [] {
      var a := actions[0];
      var tail := actions[1..];
      assert a.remaining - d1 > 0.0 && Fired(tail, d1) == [] by {
        assert Fired(actions, d1) == (if a.remaining - d1 > 0.0 then [] else [a.callback]) + Fired(tail, d1);
      }
      TicksAdd(tail, d1, d2);
      var b := ScheduledCall(a.remaining - d1, a.callback);
      var r1 := [b] + Remaining(tail, d1);
      assert Remaining(actions, d1) == r1;
      assert r1[0] == b && r1[1..] == Remaining(tail, d1);
      var left := a.remaining - (d1 + d2);
      assert b.remaining - d2 == left;
      assert Remaining(r1, d2)
          == (if left > 0.0 then [ScheduledCall(left, a.callback)] else []) + Remaining(tail, d1 + d2);
      assert Fired(r1, d2) == (if left > 0.0 then [] else [a.callback]) + Fired(tail, d1 + d2);
    }
  }

  /** Once only removal calls are pending, no tick ever fires the
      construction callback, and only removal calls stay pending. */
  lemma {:induction false} OnlyRemovalPending(actions: seq<ScheduledCall>, delta: real)
    requires forall i :: 0 <= i < |actions| ==> actions[i].callback == AddToRemoveQueue
    ensures ConstructionComplete !in Fired(actions, delta)
    ensures forall i :: 0 <= i < |Remaining(actions, delta)| ==>
              Remaining(actions, delta)[i].callback == AddToRemoveQueue
  {
    if actions != [] {
      OnlyRemovalPending(actions[1..], delta);
    }
  }

  /** A single pending call fires during the tick that uses up its delay,
      and not before. */
  lemma SingleCallFires(d: real, cb: Callback, delta: real)
    ensures Fired([ScheduledCall(d, cb)], delta) == (if delta >= d then [cb] else [])
    ensures Remaining([ScheduledCall(d, cb)], delta)
            == (if delta >= d then [] else [ScheduledCall(d - delta, cb)])
  {
    assert [ScheduledCall(d, cb)][1..] == [];
  }

  /** A pending callback fits a building status: the construction callback
      is pending only while the building is being built, the removal call
      only once it is destroyed. */
  predicate CallFits(cb: Callback, s: BuildingStatus) {
    && (cb == ConstructionComplete ==> s == BuildingStatus.BeingBuilt)
    && (cb == AddToRemoveQueue ==> s == BuildingStatus.Destory)
  }

  /** The order of a building's statuses: PrepareToBuild, then BeingBuilt,
      then Working, with Destory reachable from every status and followed
      by none. */
  predicate LifecycleStep(from: BuildingStatus, to: BuildingStatus) {
    || from == to
    || (from == BuildingStatus.PrepareToBuild && to == BuildingStatus.BeingBuilt)
    || (from == BuildingStatus.BeingBuilt && to == BuildingStatus.Working)
    || to == BuildingStatus.Destory
  }

  /** A tick of at most one pending call that fits status s: what fires
      and what stays pending fit s too, and nothing stays pending once
      something fired. */
  lemma TickKeepsFit(actions: seq<ScheduledCall>, delta: real, s: BuildingStatus)
    requires |actions| <= 1 && forall i :: 0 <= i < |actions| ==> CallFits(actions[i].callback, s)
    ensures forall k :: 0 <= k < |Fired(actions, delta)| ==> CallFits(Fired(actions, delta)[k], s)
    ensures |Remaining(actions, delta)| <= 1
    ensures forall i :: 0 <= i < |Remaining(actions, delta)| ==> CallFits(Remaining(actions, delta)[i].callback, s)
    ensures Fired(actions, delta) != [] ==> Remaining(actions, delta) == []
  {
    if actions != [] {
      var a := actions[0];
      assert actions == [ScheduledCall(a.remaining, a.callback)];
      SingleCallFires(a.remaining, a.callback, delta);
    }
  }

  /** The delayed action updateStatus starts on entering a status. */
  function Scheduled(s: BuildingStatus, buildingTime: real): seq<ScheduledCall> {
    if s == BuildingStatus.BeingBuilt then [ScheduledCall(buildingTime, ConstructionComplete)]
    else if s == BuildingStatus.Destory then [ScheduledCall(BUILDING_DELAY_REMOVE_TIME, AddToRemoveQueue)]
    else []
  }

  /** Grid k of a 3x3 footprint block: row k / 3 and column k % 3 of the
      block whose first grid is first. */
  function BlockGrid(s: MapShape, first: Vec2, k: int): Vec2 {
    Add(first, GridOffset(s, k / 3, k % 3))
  }

  /** The local positions of a building's bottom grids: one grid at the
      sprite's bottom centre when the PrepareToBuild sprite fits in one
      tile, otherwise a 3x3 block whose first grid is a tile higher. */
  function FootprintGrids(s: MapShape, t: Template): (grids: seq<Vec2>)
    ensures |grids| == MIN_BOTTOM_GRID_COUNT || |grids| == MAX_BOTTOM_GRID_COUNT
    ensures |grids| == MIN_BOTTOM_GRID_COUNT
            <==> t.spriteWidth <= s.tileWidth && t.spriteHeight <= s.tileHeight
  {
    var centre := Vec2(t.spriteWidth / 2.0, t.centerBottomGridYPosition);
    if t.spriteWidth <= s.tileWidth && t.spriteHeight <= s.tileHeight then [centre]
    else
      var first := Vec2(centre.x, centre.y + s.tileHeight);
      seq(9, k => BlockGrid(s, first, k))
  }

  /** Advancing the running grid position by half a tile right and half a
      tile down moves to the next column of the block. */
  lemma GridOffsetNextColumn(s: MapShape, i: int, j: int)
    ensures GridOffset(s, i, j + 1) == Add(GridOffset(s, i, j), Vec2(s.tileWidth / 2.0, -(s.tileHeight / 2.0)))
  {
    var tw := s.tileWidth;
    var th := s.tileHeight;
    assert ((j + 1) - i) as real * tw == (j - i) as real * tw + tw;
    assert -((i + (j + 1)) as real) * th == -((i + j) as real) * th - th;
  }

  /** The running grid position at the start of row i of the block. */
  lemma GridOffsetRowStart(s: MapShape, i: int)
    ensures GridOffset(s, i, 0) == Vec2(-(i as real * s.tileWidth / 2.0), -(i as real * s.tileHeight / 2.0))
  {
    assert (0 - i) as real * s.tileWidth == -(i as real * s.tileWidth);
    assert -((i + 0) as real) * s.tileHeight == -(i as real * s.tileHeight);
  }

  /** initBottomGridSprites: the local positions of the bottom grids, laid
      out row by row with a running position. */
  method InitBottomGrids(s: MapShape, t: Template) returns (grids: seq<Vec2>)
    ensures grids == FootprintGrids(s, t)
  {
    var centre := Vec2(t.spriteWidth / 2.0, t.centerBottomGridYPosition);
    if t.spriteWidth <= s.tileWidth && t.spriteHeight <= s.tileHeight {
      grids := [centre];
      return;
    }
    var first := Vec2(centre.x, centre.y + s.tileHeight);
    grids := [];
    for i := 0 to 3
      invariant |grids| == 3 * i
      invariant forall k :: 0 <= k < |grids| ==> grids[k] == BlockGrid(s, first, k)
    {
      var temp := Vec2(first.x - i as real * s.tileWidth / 2.0, first.y - i as real * s.tileHeight / 2.0);
      GridOffsetRowStart(s, i);
      for j := 0 to 3
        invariant |grids| == 3 * i + j
        invariant forall k :: 0 <= k < |grids| ==> grids[k] == BlockGrid(s, first, k)
        invariant temp == Add(first, GridOffset(s, i, j))
      {
        assert (3 * i + j) / 3 == i && (3 * i + j) % 3 == j;
        grids := grids + [temp];
        GridOffsetNextColumn(s, i, j);
        temp := Vec2(temp.x + s.tileWidth / 2.0, temp.y - s.tileHeight / 2.0);
      }
    }
    assert grids == seq(9, k => BlockGrid(s, first, k));
  }

  /** When the whole 3x3 block lies on the map, grid k of it lies k % 3
      columns right of and k / 3 rows below the tile of the first grid. */
  lemma BlockGridTile(s: MapShape, origin: Vec2, first: Vec2, k: int)
    requires ValidShape(s) && 0 <= k < 9
    requires 0.0 <= RawColumn(s, Add(origin, first)) && RawColumn(s, Add(origin, first)) + 2.0 <= (s.width - 1) as real
    requires 0.0 <= RawRow(s, Add(origin, first)) && RawRow(s, Add(origin, first)) + 2.0 <= (s.height - 1) as real
    ensures TileSubscript(s, Add(origin, BlockGrid(s, first, k)))
            == Cell(TileSubscript(s, Add(origin, first)).col + k % 3,
                    TileSubscript(s, Add(origin, first)).row + k / 3)
  {
    var p := Add(origin, first);
    assert Add(origin, BlockGrid(s, first, k)) == Add(p, GridOffset(s, k / 3, k % 3));
    GridOffsetShiftsTile(s, p, k / 3, k % 3);
  }

  /** ... so the nine grids of a block on the map fall in nine different
      tiles. */
  lemma BlockCoversNineTiles(s: MapShape, origin: Vec2, first: Vec2)
    requires ValidShape(s)
    requires 0.0 <= RawColumn(s, Add(origin, first)) && RawColumn(s, Add(origin, first)) + 2.0 <= (s.width - 1) as real
    requires 0.0 <= RawRow(s, Add(origin, first)) && RawRow(s, Add(origin, first)) + 2.0 <= (s.height - 1) as real
    ensures forall k, m :: 0 <= k < m < 9 ==>
              TileSubscript(s, Add(origin, BlockGrid(s, first, k)))
              != TileSubscript(s, Add(origin, BlockGrid(s, first, m)))
  {
    forall k, m | 0 <= k < m < 9
      ensures TileSubscript(s, Add(origin, BlockGrid(s, first, k)))
              != TileSubscript(s, Add(origin, BlockGrid(s, first, m)))
    {
      BlockGridTile(s, origin, first, k);
      BlockGridTile(s, origin, first, m);
      assert k == 3 * (k / 3) + k % 3 && m == 3 * (m / 3) + m % 3;
    }
  }

  class GameObject {
    const uniqueID: int
    const objectType: GameObjectType
    const forceType: ForceType
    const maxHp: int
    const attackPower: int
    const damageType: DamageType
    const aoeDamageRadius: real
    /** _buildingTimeBySecond (buildings only). */
    const buildingTime: real
    /** Local positions of the bottom grids (buildings only). */
    const footprint: seq<Vec2>

    /** Map position of the object's local origin. */
    var position: Vec2
    var hp: int
    /** _showHPBarTotalTimeAfterBeingAttacked */
    var showHPBarTime: real
    var hpBarVisible: bool
    var selectedTipsVisible: bool
    var teamLabelVisible: bool
    /** The team label's text: None for the empty string. */
    var teamLabel: Option<int>
    var isSelected: bool
    var teamID: int
    /** Stands for the Npc's own removal state, which Npc.cpp keeps. */
    var npcPreparedToRemove: bool

    var status: BuildingStatus
    /** Visibility of each status sprite. */
    var statusVisible: map<BuildingStatus, bool>
    var canBuild: bool
    /** _passTimeBySecondInBeingBuiltStatus */
    var passTime: real
    var progressPercent: real
    var progressBarVisible: bool
    /** The delayed actions running on this node. */
    var actions: seq<ScheduledCall>

    /** A building has one sprite per status, exactly the current status's
        sprite is shown, its footprint has 1 or 9 grids and its build time
        is positive. */
    ghost predicate Valid()
      reads this
    {
      objectType == GameObjectType.Building ==>
        && statusVisible.Keys == AllStatuses
        && (forall t :: t in statusVisible ==> (statusVisible[t] <==> t == status))
        && (|footprint| == MIN_BOTTOM_GRID_COUNT || |footprint| == MAX_BOTTOM_GRID_COUNT)
        && buildingTime > 0.0
    }

    /** A building has at most one pending call, and that call fits its
        status. */
    ghost predicate PendingFitsStatus()
      reads this
    {
      objectType == GameObjectType.Building ==>
        |actions| <= 1 && forall i :: 0 <= i < |actions| ==> CallFits(actions[i].callback, status)
    }

    /** isReadyToRemove: a building once it is in Destory, which is when
        its Destory sprite is the one shown; an Npc once its removal was
        recorded. */
    predicate IsReadyToRemove(): (r: bool)
      reads this
      ensures Valid() && objectType == GameObjectType.Building ==>
                (r <==> statusVisible[BuildingStatus.Destory])
      ensures objectType != GameObjectType.Building ==> (r <==> npcPreparedToRemove)
    {
      if objectType == GameObjectType.Building then status == BuildingStatus.Destory
      else npcPreparedToRemove
    }

    /** Npc::create. Npc.cpp is not part of this model: the Npc starts
        with full hit points and the template's battle values. */
    constructor CreateNpc(id: int, kind: GameObjectType, force: ForceType, pos: Vec2, t: Template)
      requires kind == GameObjectType.Npc || kind == GameObjectType.DefenceInBuildingNpc
      ensures uniqueID == id && objectType == kind && forceType == force && position == pos
      ensures maxHp == t.maxHP && hp == maxHp
      ensures attackPower == t.attackPower && damageType == t.damageType
      ensures aoeDamageRadius == t.aoeDamageRadius
      ensures !isSelected && !hpBarVisible && !npcPreparedToRemove && teamID == TEAM_INVALID_ID
      ensures Valid() && PendingFitsStatus() && !IsReadyToRemove()
    {
      uniqueID := id;
      objectType := kind;
      forceType := force;
      maxHp := t.maxHP;
      attackPower := t.attackPower;
      damageType := t.damageType;
      aoeDamageRadius := t.aoeDamageRadius;
      buildingTime := 0.0;
      footprint := [];
      position := pos;
      hp := t.maxHP;
      showHPBarTime := 0.0;
      hpBarVisible := false;
      selectedTipsVisible := false;
      teamLabelVisible := true;
      teamLabel := None;
      isSelected := false;
      teamID := TEAM_INVALID_ID;
      npcPreparedToRemove := false;
      status := BuildingStatus.PrepareToBuild;
      statusVisible := map[];
      canBuild := false;
      passTime := 0.0;
      progressPercent := 0.0;
      progressBarVisible := false;
      actions := [];
    }

    /** Building::init: a new building is in PrepareToBuild with only that
        sprite shown, full hit points from the template, its footprint, a
        hidden empty progress bar and nothing scheduled. */
    constructor CreateBuilding(id: int, force: ForceType, pos: Vec2, t: Template, tiles: MapShape)
      requires t.buildingTimeBySecond > 0.0
      ensures uniqueID == id && objectType == GameObjectType.Building && forceType == force
      ensures position == pos
      ensures status == BuildingStatus.PrepareToBuild
      ensures maxHp == t.maxHP && hp == maxHp && buildingTime == t.buildingTimeBySecond
      ensures footprint == FootprintGrids(tiles, t)
      ensures progressPercent == 0.0 && !progressBarVisible && passTime == 0.0
      ensures actions == []
      ensures !isSelected && !hpBarVisible && teamID == TEAM_INVALID_ID
      ensures Valid() && PendingFitsStatus() && !IsReadyToRemove()
    {
      uniqueID := id;
      objectType := GameObjectType.Building;
      forceType := force;
      maxHp := t.maxHP;
      attackPower := 0;
      damageType := DamageType.Normal;
      aoeDamageRadius := 0.0;
      buildingTime := t.buildingTimeBySecond;
      var grids := InitBottomGrids(tiles, t);
      footprint := grids;
      position := pos;
      hp := t.maxHP;
      showHPBarTime := 0.0;
      hpBarVisible := false;
      selectedTipsVisible := false;
      teamLabelVisible := true;
      teamLabel := None;
      isSelected := false;
      teamID := TEAM_INVALID_ID;
      npcPreparedToRemove := false;
      status := BuildingStatus.PrepareToBuild;
      statusVisible := map t | t in AllStatuses :: true;
      canBuild := false;
      passTime := 0.0;
      progressPercent := 0.0;
      progressBarVisible := false;
      actions := [];
      new;
      UpdateStatus(BuildingStatus.PrepareToBuild);
    }

    /** setSelected: the HP bar, the selection tips and the team label are
        shown exactly when the object is selected. */
    method SetSelected(b: bool)
      modifies this`hpBarVisible, this`selectedTipsVisible, this`teamLabelVisible, this`isSelected
      ensures isSelected == b && hpBarVisible == b
      ensures selectedTipsVisible == b && teamLabelVisible == b
    {
      hpBarVisible := b;
      selectedTipsVisible := b;
      teamLabelVisible := b;
      isSelected := b;
    }

    /** setTeamID: the invalid id only clears the label; any other id is
        stored and shown. */
    method SetTeamID(id: int)
      modifies this`teamID, this`teamLabel
      ensures id == TEAM_INVALID_ID ==> teamID == old(teamID) && teamLabel == None
      ensures id != TEAM_INVALID_ID ==> teamID == id && teamLabel == Some(id)
    {
      if id == TEAM_INVALID_ID {
        teamLabel := None;
      } else {
        teamID := id;
        teamLabel := Some(id);
      }
    }

    /** addHP: hit points grow by amount but never beyond maxHp. */
    method AddHP(amount: int)
      modifies this`hp
      ensures hp == HealedHP(old(hp), amount, maxHp)
    {
      hp := Min(hp + amount, maxHp);
    }

    /** GameObject::update: the damage timer grows by delta and the HP bar
        of an unselected object is hidden once the timer reaches the limit. */
    method Update(delta: real)
      modifies this`showHPBarTime, this`hpBarVisible
      ensures showHPBarTime == old(showHPBarTime) + delta
      ensures hpBarVisible == BarAfterTick(old(hpBarVisible), isSelected, showHPBarTime)
    {
      showHPBarTime := showHPBarTime + delta;
      if !isSelected && showHPBarTime >= MAX_SHOW_HP_BAR_TIME {
        hpBarVisible := false;
      }
    }

    /** updateStatus: show exactly the sprite of the new status; entering
        BeingBuilt hides the HP bar, shows the progress bar and schedules
        the construction callback after the build time; entering Destory
        schedules the removal call after the grace period. */
    method UpdateStatus(s: BuildingStatus)
      requires objectType == GameObjectType.Building
      requires statusVisible.Keys == AllStatuses
      modifies this`statusVisible, this`status, this`hpBarVisible, this`progressBarVisible, this`actions
      ensures status == s
      ensures statusVisible.Keys == old(statusVisible.Keys)
      ensures forall t :: t in statusVisible ==> (statusVisible[t] <==> t == s)
      ensures actions == old(actions) + Scheduled(s, buildingTime)
      ensures hpBarVisible == (old(hpBarVisible) && s != BuildingStatus.BeingBuilt)
      ensures progressBarVisible == (old(progressBarVisible) || s == BuildingStatus.BeingBuilt)
      ensures old(actions) == [] ==> PendingFitsStatus()
    {
      var at := Ordinal(s);
      for i := 0 to |StatusOrder|
        invariant statusVisible.Keys == old(statusVisible.Keys)
        invariant forall k :: 0 <= k < i ==> (statusVisible[StatusOrder[k]] <==> k == at)
        invariant actions == old(actions) + (if at < i then Scheduled(s, buildingTime) else [])
        invariant hpBarVisible == (old(hpBarVisible) && !(at < i && s == BuildingStatus.BeingBuilt))
        invariant progressBarVisible == (old(progressBarVisible) || (at < i && s == BuildingStatus.BeingBuilt))
      {
        var t := StatusOrder[i];
        assert Ordinal(t) == i;
        StatusOrderComplete(t);
        if t == s {
          statusVisible := statusVisible[t := true];
          if s == BuildingStatus.BeingBuilt {
            hpBarVisible := false;
            progressBarVisible := true;
            actions := actions + [ScheduledCall(buildingTime, ConstructionComplete)];
          } else if s == BuildingStatus.Destory {
            actions := actions + [ScheduledCall(BUILDING_DELAY_REMOVE_TIME, AddToRemoveQueue)];
          }
        } else {
          statusVisible := statusVisible[t := false];
        }
      }
      forall t | t in statusVisible
        ensures statusVisible[t] <==> t == s
      {
        assert StatusOrder[Ordinal(t)] == t;
      }
      status := s;
    }

    /** onPrepareToRemove. A building drops every pending action (so a
        building destroyed mid-build never completes), hides its progress
        bar and enters Destory; an Npc records that it is being removed. */
    method OnPrepareToRemove()
      requires Valid()
      modifies this`statusVisible, this`status, this`hpBarVisible, this`progressBarVisible,
               this`actions, this`npcPreparedToRemove
      ensures Valid() && IsReadyToRemove() && PendingFitsStatus()
      ensures objectType == GameObjectType.Building ==> LifecycleStep(old(status), status)
      ensures objectType == GameObjectType.Building ==>
                && status == BuildingStatus.Destory
                && actions == [ScheduledCall(BUILDING_DELAY_REMOVE_TIME, AddToRemoveQueue)]
                && !progressBarVisible && hpBarVisible == old(hpBarVisible)
                && npcPreparedToRemove == old(npcPreparedToRemove)
      ensures objectType != GameObjectType.Building ==>
                && npcPreparedToRemove
                && status == old(status) && actions == old(actions)
                && statusVisible == old(statusVisible)
                && progressBarVisible == old(progressBarVisible) && hpBarVisible == old(hpBarVisible)
    {
      if objectType == GameObjectType.Building {
        actions := [];
        progressBarVisible := false;
        UpdateStatus(BuildingStatus.Destory);
      } else {
        npcPreparedToRemove := true;
      }
    }

    /** The whole effect of costHP(amount) on the object: the damage timer
        restarts; hit points drop by amount but not below 0; an object left
        with hit points shows its HP bar and keeps everything else; an
        object left at 0 hides its HP bar and is prepared for removal (a
        building drops its pending calls, hides its progress bar and enters
        Destory; an Npc records that it is being removed); nothing else
        changes. */
    twostate predicate HPCosted(amount: int)
      reads this
    {
      && hp == CostedHP(old(hp), amount) && showHPBarTime == 0.0
      && position == old(position) && isSelected == old(isSelected) && teamID == old(teamID)
      && selectedTipsVisible == old(selectedTipsVisible) && teamLabelVisible == old(teamLabelVisible)
      && teamLabel == old(teamLabel) && canBuild == old(canBuild)
      && passTime == old(passTime) && progressPercent == old(progressPercent)
      && (hp == 0 ==> !hpBarVisible && IsReadyToRemove())
      && (hp == 0 && objectType == GameObjectType.Building ==>
            && status == BuildingStatus.Destory
            && actions == [ScheduledCall(BUILDING_DELAY_REMOVE_TIME, AddToRemoveQueue)]
            && !progressBarVisible && npcPreparedToRemove == old(npcPreparedToRemove))
      && (hp == 0 && objectType != GameObjectType.Building ==>
            && status == old(status) && actions == old(actions) && statusVisible == old(statusVisible)
            && progressBarVisible == old(progressBarVisible))
      && (hp != 0 ==>
            && hpBarVisible
            && status == old(status) && actions == old(actions)
            && statusVisible == old(statusVisible)
            && progressBarVisible == old(progressBarVisible)
            && npcPreparedToRemove == old(npcPreparedToRemove))
    }

    /** costHP: see HPCosted. */
    method CostHP(amount: int)
      requires Valid()
      modifies this`hp, this`showHPBarTime, this`statusVisible, this`status, this`hpBarVisible,
               this`progressBarVisible, this`actions, this`npcPreparedToRemove
      ensures Valid() && HPCosted(amount)
      ensures old(PendingFitsStatus()) ==> PendingFitsStatus()
      ensures objectType == GameObjectType.Building ==> LifecycleStep(old(status), status)
    {
      showHPBarTime := 0.0;
      hpBarVisible := true;
      hp := Max(0, hp - amount);
      if hp <= 0 {
        Perish();
      }
    }

    /** The last step of costHP for an object left without hit points: hide
        its HP bar and prepare it for removal. */
    method Perish()
      requires Valid()
      modifies this`statusVisible, this`status, this`hpBarVisible, this`progressBarVisible,
               this`actions, this`npcPreparedToRemove
      ensures Valid() && !hpBarVisible && IsReadyToRemove() && PendingFitsStatus()
      ensures objectType == GameObjectType.Building ==>
                && LifecycleStep(old(status), status)
                && status == BuildingStatus.Destory
                && actions == [ScheduledCall(BUILDING_DELAY_REMOVE_TIME, AddToRemoveQueue)]
                && !progressBarVisible && npcPreparedToRemove == old(npcPreparedToRemove)
      ensures objectType != GameObjectType.Building ==>
                && status == old(status) && actions == old(actions) && statusVisible == old(statusVisible)
                && progressBarVisible == old(progressBarVisible)
    {
      hpBarVisible := false;
      OnPrepareToRemove();
    }

    /** onConstructionComplete: hide the progress bar, show the HP bar and
        enter Working. */
    method OnConstructionComplete()
      requires Valid() && objectType == GameObjectType.Building
      modifies this`statusVisible, this`status, this`hpBarVisible, this`progressBarVisible, this`actions
      ensures Valid()
      ensures status == BuildingStatus.Working && hpBarVisible && !progressBarVisible
      ensures actions == old(actions)
    {
      progressBarVisible := false;
      hpBarVisible := true;
      UpdateStatus(BuildingStatus.Working);
    }

    /** updateBottomGridTextureInPrepareToBuildStatus: only in
        PrepareToBuild, canBuild becomes true exactly when no bottom grid
        lies in an obstacle tile; in any other status it is left alone. */
    method UpdateCanBuild(mm: MapManager)
      requires mm.Valid()
      modifies this`canBuild
      ensures status != BuildingStatus.PrepareToBuild ==> canBuild == old(canBuild)
      ensures status == BuildingStatus.PrepareToBuild ==>
                (canBuild <==> forall k :: 0 <= k < |footprint| ==> !mm.IsInObstacleTile(Add(position, footprint[k])))
    {
      if status != BuildingStatus.PrepareToBuild {
        return;
      }
      canBuild := true;
      for k := 0 to |footprint|
        invariant canBuild <==> forall m :: 0 <= m < k ==> !mm.IsInObstacleTile(Add(position, footprint[m]))
      {
        if mm.IsInObstacleTile(Add(position, footprint[k])) {
          canBuild := false;
        }
      }
    }

    /** updateBeingBuiltProgressBar: the shown percent is the time spent
        building before this tick over the build time; then the time spent
        grows by delta. */
    method UpdateBeingBuiltProgressBar(delta: real)
      requires Valid() && objectType == GameObjectType.Building
      modifies this`progressPercent, this`passTime
      ensures progressPercent == old(passTime) / buildingTime * 100.0
      ensures passTime == old(passTime) + delta
    {
      progressPercent := passTime / buildingTime * 100.0;
      passTime := passTime + delta;
    }

    /** Building::update: the generic update, then the buildability flag,
        then, while being built, the HP bar is hidden and progress grows.
        Following the cursor in PrepareToBuild is not part of this model. */
    method BuildingUpdate(delta: real, mm: MapManager)
      requires Valid() && objectType == GameObjectType.Building && mm.Valid()
      modifies this`showHPBarTime, this`hpBarVisible, this`canBuild, this`progressPercent, this`passTime
      ensures showHPBarTime == old(showHPBarTime) + delta
      ensures status != BuildingStatus.PrepareToBuild ==> canBuild == old(canBuild)
      ensures status == BuildingStatus.PrepareToBuild ==>
                (canBuild <==> forall k :: 0 <= k < |footprint| ==> !mm.IsInObstacleTile(Add(position, footprint[k])))
      ensures status == BuildingStatus.BeingBuilt ==>
                !hpBarVisible
                && progressPercent == old(passTime) / buildingTime * 100.0
                && passTime == old(passTime) + delta
      ensures status != BuildingStatus.BeingBuilt ==>
                hpBarVisible == BarAfterTick(old(hpBarVisible), isSelected, showHPBarTime)
                && progressPercent == old(progressPercent) && passTime == old(passTime)
    {
      Update(delta);
      UpdateCanBuild(mm);
      if status == BuildingStatus.BeingBuilt {
        hpBarVisible := false;
        UpdateBeingBuiltProgressBar(delta);
      }
    }

    /** One tick of the node's action manager: every pending action's delay
        shrinks by delta, those that run out fire, and the rest stay
        pending. The construction callback moves a building to Working; a
        removal call is handed back to the caller, which owns the removal
        queue. Neither depends on the other, so their order does not
        matter. When the pending calls fit the status, the tick keeps them
        fitting, its only status change is BeingBuilt to Working, and a
        destroyed building stays destroyed. */
    method RunActions(delta: real) returns (removeRequested: bool)
      requires Valid()
      modifies this`statusVisible, this`status, this`hpBarVisible, this`progressBarVisible, this`actions
      ensures Valid()
      ensures actions == Remaining(old(actions), delta)
      ensures removeRequested <==> AddToRemoveQueue in Fired(old(actions), delta)
      ensures objectType == GameObjectType.Building && ConstructionComplete in Fired(old(actions), delta) ==>
                status == BuildingStatus.Working && hpBarVisible && !progressBarVisible
      ensures !(objectType == GameObjectType.Building && ConstructionComplete in Fired(old(actions), delta)) ==>
                status == old(status) && statusVisible == old(statusVisible)
                && hpBarVisible == old(hpBarVisible) && progressBarVisible == old(progressBarVisible)
      ensures old(PendingFitsStatus()) ==> PendingFitsStatus()
      ensures old(PendingFitsStatus()) && objectType == GameObjectType.Building ==>
                status == old(status)
                || (old(status) == BuildingStatus.BeingBuilt && status == BuildingStatus.Working)
      ensures old(PendingFitsStatus()) && old(status) == BuildingStatus.Destory ==> status == BuildingStatus.Destory
    {
      if objectType == GameObjectType.Building && PendingFitsStatus() {
        TickKeepsFit(actions, delta, status);
      }
      var fired := Fired(actions, delta);
      actions := Remaining(actions, delta);
      if objectType == GameObjectType.Building && ConstructionComplete in fired {
        OnConstructionComplete();
      }
      removeRequested := AddToRemoveQueue in fired;
    }
  }

  /** GameObjectFactory::create with the file-static id counter. */
  class GameObjectFactory {
    /** g_uniqueID: the last id handed out. */
    var lastID: int
    /** The ids handed out so far, oldest first. */
    ghost var issued: seq<int>

    ghost predicate Valid()
      reads this
    {
      && lastID >= 0
      && (forall i, j :: 0 <= i < j < |issued| ==> issued[i] < issued[j])
      && (forall i :: 0 <= i < |issued| ==> 0 < issued[i] <= lastID)
    }

    constructor ()
      ensures Valid() && lastID == 0 && issued == []
    {
      lastID := 0;
      issued := [];
    }

    /** An Npc, a DefenceInBuildingNpc or a Building gets the next id, which
        is larger than every id handed out before; any other type gives no
        object and leaves the counter alone. */
    method Create(kind: GameObjectType, force: ForceType, pos: Vec2, t: Template, tiles: MapShape)
      returns (o: GameObject?)
      requires Valid()
      requires kind == GameObjectType.Building ==> t.buildingTimeBySecond > 0.0
      modifies this
      ensures Valid()
      ensures kind == GameObjectType.Invalid ==>
                o == null && lastID == old(lastID) && issued == old(issued)
      ensures kind != GameObjectType.Invalid ==>
                && o != null && fresh(o) && o.Valid() && !o.IsReadyToRemove()
                && o.uniqueID == lastID == old(lastID) + 1
                && o.objectType == kind && o.forceType == force && o.position == pos
                && issued == old(issued) + [o.uniqueID]
                && (forall i :: 0 <= i < |old(issued)| ==> old(issued)[i] < o.uniqueID)
                && o.hp == o.maxHp
      ensures kind == GameObjectType.Building ==> o != null && o.status == BuildingStatus.PrepareToBuild
    {
      if kind == GameObjectType.Npc || kind == GameObjectType.DefenceInBuildingNpc {
        lastID := lastID + 1;
        o := new GameObject.CreateNpc(lastID, kind, force, pos, t);
        issued := issued + [lastID];
      } else if kind == GameObjectType.Building {
        lastID := lastID + 1;
        o := new GameObject.CreateBuilding(lastID, force, pos, t, tiles);
        issued := issued + [lastID];
      } else {
        o := null;
      }
    }
  }
}
