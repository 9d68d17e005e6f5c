/** Projectiles (BulletManager.cpp): the launch checks and the flight time
    fixed at launch, and the two ways an arriving bullet deals damage. */
module Bullets {
  import opened Common
  import opened Geometry
  import opened GameObjects
  import opened Registry

  /** ARROW_MOVE_SPEED_BY_PIXEL, in map units per second. */
  const ARROW_MOVE_SPEED_BY_PIXEL: real := 1000.0

  /** What a bullet does when it arrives: damage one target by the attack
      power the attacker had at launch, or damage every enemy near the
      point the target stood on at launch. The area variant keeps the
      attacker's force, radius and power, which never change after the
      attacker is created. */
  datatype Resolution =
    | NormalDamage(targetID: int, damage: int)
    | AOEDamage(force: ForceType, radius: real, power: int, impact: Vec2)

  /** A bullet in flight from the attacker's position to the target's
      position at launch. The flight time is kept squared:
      squaredDuration * speed^2 is the squared distance. */
  datatype Bullet = Bullet(kind: BulletType, from: Vec2, to: Vec2,
                           squaredDuration: real, onArrival: Resolution)

  /** createBullet: no bullet unless the attacker and the target are both
      registered and the bullet type is valid. */
  function CreateBullet(reg: GameObjectManager, kind: BulletType, attackerID: int, targetID: int)
    : (b: Option<Bullet>)
    reads reg, reg.objects.Values
    ensures b.None? <==> attackerID !in reg.objects || targetID !in reg.objects || kind == BulletType.Invalid
    ensures b.Some? ==>
              var a := reg.objects[attackerID];
              var t := reg.objects[targetID];
              && b.value.kind == kind && b.value.from == a.position && b.value.to == t.position
              && b.value.squaredDuration * (ARROW_MOVE_SPEED_BY_PIXEL * ARROW_MOVE_SPEED_BY_PIXEL)
                 == SquaredDistance(a.position, t.position)
              && (a.damageType == DamageType.AreaOfEffect ==>
                    b.value.onArrival == AOEDamage(a.forceType, a.aoeDamageRadius, a.attackPower, t.position))
              && (a.damageType != DamageType.AreaOfEffect ==>
                    b.value.onArrival == NormalDamage(targetID, a.attackPower))
  {
    if attackerID in reg.objects && targetID in reg.objects && kind != BulletType.Invalid then
      var a := reg.objects[attackerID];
      var t := reg.objects[targetID];
      var squared := SquaredDistance(a.position, t.position)
                     / (ARROW_MOVE_SPEED_BY_PIXEL * ARROW_MOVE_SPEED_BY_PIXEL);
      var onArrival :=
        if a.damageType == DamageType.AreaOfEffect
        then AOEDamage(a.forceType, a.aoeDamageRadius, a.attackPower, t.position)
        else NormalDamage(targetID, a.attackPower);
      Some(Bullet(kind, a.position, t.position, squared, onArrival))
    else None
  }

  /** The bullet has arrived once its flight time has passed. */
  predicate ArrivedBy(b: Bullet, elapsed: real) {
    elapsed >= 0.0 && elapsed * elapsed >= b.squaredDuration
  }

  /** The flight time is the distance over the speed: a bullet launched
      over distance d has arrived exactly when d / speed seconds have
      passed. */
  lemma TravelTime(b: Bullet, d: real, elapsed: real)
    requires IsDistance(d, b.from, b.to)
    requires b.squaredDuration * (ARROW_MOVE_SPEED_BY_PIXEL * ARROW_MOVE_SPEED_BY_PIXEL)
             == SquaredDistance(b.from, b.to)
    ensures ArrivedBy(b, elapsed) <==> elapsed >= d / ARROW_MOVE_SPEED_BY_PIXEL
  {
    var t := d / ARROW_MOVE_SPEED_BY_PIXEL;
    assert t * t == b.squaredDuration by {
      assert d == t * ARROW_MOVE_SPEED_BY_PIXEL;
      assert d * d == (t * t) * (ARROW_MOVE_SPEED_BY_PIXEL * ARROW_MOVE_SPEED_BY_PIXEL);
    }
    assert t >= 0.0;
    if elapsed >= t {
      var et := elapsed * t;
      assert elapsed * elapsed >= et;
      assert et >= t * t;
    } else if elapsed >= 0.0 {
      var et := elapsed * t;
      assert elapsed * elapsed <= et;
      var gap := t - elapsed;
      assert gap > 0.0 && t > 0.0;
      assert gap * t > 0.0;
      assert t * t - et == gap * t;
    }
  }

  /** A bullet fired over 300 map units arrives after 0.3 s. */
  lemma ThreeHundredUnits(b: Bullet, elapsed: real)
    requires b.from == Vec2(0.0, 0.0) && b.to == Vec2(300.0, 0.0)
    requires b.squaredDuration * (ARROW_MOVE_SPEED_BY_PIXEL * ARROW_MOVE_SPEED_BY_PIXEL)
             == SquaredDistance(b.from, b.to)
    ensures ArrivedBy(b, elapsed) <==> elapsed >= 0.3
  {
    TravelTime(b, 300.0, elapsed);
  }

  /** A registered object an area bullet damages: not about to be removed,
      of another force than the attacker, not a defender inside a
      building, and within the radius of the impact point. */
  predicate Qualifies(o: GameObject, force: ForceType, radius: real, impact: Vec2)
    reads o
  {
    && !o.IsReadyToRemove()
    && o.forceType != force
    && o.objectType != GameObjectType.DefenceInBuildingNpc
    && radius >= 0.0 && SquaredDistance(impact, o.position) <= radius * radius
  }

  /** Comparing squares is the source's comparison of the distance with
      the radius. */
  lemma QualifiesByDistance(o: GameObject, force: ForceType, radius: real, impact: Vec2, d: real)
    requires IsDistance(d, impact, o.position)
    ensures Qualifies(o, force, radius, impact)
            <==> (&& !o.IsReadyToRemove()
                  && o.forceType != force
                  && o.objectType != GameObjectType.DefenceInBuildingNpc
                  && d <= radius)
  {
    WithinRadiusBySquares(d, impact, o.position, radius);
  }

  /** onNormalDamageBulletMoveEnd: a target that is still registered and
      not about to be removed loses hit points once (HPCosted); otherwise
      nothing changes. */
  method OnNormalDamageBulletMoveEnd(reg: GameObjectManager, targetID: int, damage: int)
    requires reg.Valid()
    modifies reg.objects.Values
    ensures reg.Valid()
    ensures forall id :: id in reg.objects && id != targetID ==> unchanged(reg.objects[id])
    ensures targetID in reg.objects && !old(reg.objects[targetID].IsReadyToRemove()) ==>
              reg.objects[targetID].HPCosted(damage)
    ensures targetID in reg.objects && old(reg.objects[targetID].IsReadyToRemove()) ==>
              unchanged(reg.objects[targetID])
  {
    if targetID in reg.objects {
      var o := reg.objects[targetID];
      if !o.IsReadyToRemove() {
        o.CostHP(damage);
      }
    }
  }

  /** The first half of onAOEDamageBulletMoveEnd: the ids of every
      qualifying object, in id order. Nothing changes. */
  method CollectAOETargets(reg: GameObjectManager, force: ForceType, radius: real, impact: Vec2)
    returns (hit: seq<int>)
    ensures forall i, j :: 0 <= i < j < |hit| ==> hit[i] < hit[j]
    ensures forall k :: 0 <= k < |hit| ==> hit[k] in reg.objects
    ensures forall id :: id in reg.objects ==>
              (id in hit <==> Qualifies(reg.objects[id], force, radius, impact))
  {
    var ids := reg.SortedIDs();
    hit := [];
    for i := 0 to |ids|
      invariant forall a, b :: 0 <= a < b < |hit| ==> hit[a] < hit[b]
      invariant forall k :: 0 <= k < |hit| ==> exists a :: 0 <= a < i && hit[k] == ids[a]
      invariant forall a :: 0 <= a < i ==>
                  (ids[a] in hit <==> Qualifies(reg.objects[ids[a]], force, radius, impact))
    {
      var o := reg.objects[ids[i]];
      if Qualifies(o, force, radius, impact) {
        hit := hit + [ids[i]];
      }
    }
  }

  /** onAOEDamageBulletMoveEnd: first the ids of every qualifying object
      are collected, in id order, from the registry as it was when the
      bullet arrived; then each of them loses hit points once (HPCosted).
      Every other object is left unchanged. */
  method OnAOEDamageBulletMoveEnd(reg: GameObjectManager, force: ForceType, radius: real, power: int,
                                  impact: Vec2)
    returns (hit: seq<int>)
    requires reg.Valid()
    modifies reg.objects.Values
    ensures reg.Valid()
    ensures forall i, j :: 0 <= i < j < |hit| ==> hit[i] < hit[j]
    ensures forall k :: 0 <= k < |hit| ==> hit[k] in reg.objects
    ensures forall id :: id in reg.objects ==>
              (id in hit <==> old(Qualifies(reg.objects[id], force, radius, impact)))
    ensures forall k :: 0 <= k < |hit| ==> reg.objects[hit[k]].HPCosted(power)
    ensures forall id :: id in reg.objects && id !in hit ==> unchanged(reg.objects[id])
  {
    hit := CollectAOETargets(reg, force, radius, impact);
    ghost var objects := reg.objects;
    ghost var targets: seq<GameObject> := seq(|hit|, i requires 0 <= i < |hit| => objects[hit[i]]);
    assert forall i :: 0 <= i < |hit| ==> targets[i] == reg.objects[hit[i]] && targets[i].uniqueID == hit[i];
    for k := 0 to |hit|
      invariant reg.Valid()
      invariant forall m :: 0 <= m < k ==> targets[m].HPCosted(power)
      invariant forall id :: id in reg.objects && id !in hit[..k] ==> unchanged(reg.objects[id])
    {
      var o := reg.objects[hit[k]];
      assert o == targets[k];
      o.CostHP(power);
      assert hit[..k + 1] == hit[..k] + [hit[k]];
    }
    assert hit[..|hit|] == hit;
  }
}
