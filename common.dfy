/** Vocabulary shared by every part of the simulation: the enumerations of
    the game's headers, an Option type for the lookups that may find nothing,
    the header constants, and small integer helpers. */
module Common {

  datatype Option<T> = None | Some(value: T)

  datatype ForceType = Invalid | Player | AI

  datatype GameObjectType = Invalid | Npc | DefenceInBuildingNpc | Building

  datatype DamageType = Normal | AreaOfEffect

  /** The status names follow the source, including its spelling of Destory. */
  datatype BuildingStatus = PrepareToBuild | BeingBuilt | Working | Destory

  /** A bullet kind is either Invalid or one of the catalogue's kinds. */
  datatype BulletType = Invalid | Kind(index: nat)

  // Terrain ids stored in a tile's gid. The header that defines them is not
  // part of this model; only the fact that they differ is used.
  const PASSABLE_ID: int := 0
  const OBSTACLE_ID: int := 1

  // Ids handed out by the object factory are positive; the invalid id is not.
  const GAME_OBJECT_UNIQUE_ID_INVALID: int := 0
  const TEAM_INVALID_ID: int := -1

  /** Height limit of a formation, in rows. */
  const LINEUP_MAX_ROW_COUNT: nat := 5

  function Min(a: int, b: int): int { if a <= b then a else b }
  function Max(a: int, b: int): int { if a >= b then a else b }

  /** A sequence without repeated elements. */
  ghost predicate Distinct<T>(s: seq<T>) {
    forall i, j :: 0 <= i < j < |s| ==> s[i] != s[j]
  }

  /** Joining two repetition-free sequences with no common element gives a
      repetition-free sequence. */
  lemma DistinctConcat<T>(a: seq<T>, b: seq<T>)
    requires Distinct(a) && Distinct(b)
    requires forall i, j :: 0 <= i < |a| && 0 <= j < |b| ==> a[i] != b[j]
    ensures Distinct(a + b)
  {
  }

  /** Sequence concatenation is associative. */
  lemma ConcatAssoc<T>(a: seq<T>, b: seq<T>, c: seq<T>)
    ensures (a + b) + c == a + (b + c)
  {
  }
}
