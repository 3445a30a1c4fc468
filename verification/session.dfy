/** A ship's weapons driven by a sequence of inputs: the player's key presses
    and the engine switching off projectiles that left play. Properties of
    every reachable state are stated over such sequences. */
module Session {
  import opened Options
  import opened Slots
  import opened Text
  import opened Ship

  /** The three key handlers, and the engine deactivating one projectile of a
      group (which no code of the ship does itself). */
  datatype Input =
    | PressFireLaser
    | PressFireMeteor
    | PressReload
    | LaserDeactivated
    | MeteorDeactivated

  /** One input applied to the weapons; deactivating when nothing is in
      flight changes nothing. */
  function Step(s: WeaponState, input: Input): (r: WeaponState)
    ensures Inv(s) ==> Inv(r)
    ensures r.lasers.ammo <= s.lasers.ammo
    ensures r.meteorShots.ammo <= s.meteorShots.ammo
    ensures r.lasers.magazineSize == s.lasers.magazineSize
    ensures Inv(s) ==> r.lasers.magazineLimit <= s.lasers.magazineLimit
  {
    match input
    case PressFireLaser => FireLaser(s).state
    case PressFireMeteor => FireMeteorShot(s).state
    case PressReload => Reload(s)
    case LaserDeactivated =>
      if Active(s.lasers.group) > 0
      then s.(lasers := s.lasers.(group := Deactivate(s.lasers.group)))
      else s
    case MeteorDeactivated =>
      if Active(s.meteorShots.group) > 0
      then s.(meteorShots := s.meteorShots.(group := Deactivate(s.meteorShots.group)))
      else s
  }

  /** The inputs applied in order. Neither pool ever grows and the reload count
      never rises. */
  function Run(s: WeaponState, inputs: seq<Input>): (r: WeaponState)
    ensures Inv(s) ==> Inv(r)
    ensures r.lasers.ammo <= s.lasers.ammo
    ensures r.meteorShots.ammo <= s.meteorShots.ammo
    ensures Inv(s) ==> r.lasers.magazineLimit <= s.lasers.magazineLimit
    decreases |inputs|
  {
    if |inputs| == 0 then s else Run(Step(s, inputs[0]), inputs[1..])
  }

  lemma {:induction false} RunAppend(s: WeaponState, a: seq<Input>, b: seq<Input>)
    ensures Run(s, a + b) == Run(Run(s, a), b)
    decreases |a|
  {
    if |a| > 0 {
      assert (a + b)[0] == a[0];
      assert (a + b)[1..] == a[1..] + b;
      RunAppend(Step(s, a[0]), a[1..], b);
    } else {
      assert a + b == b;
    }
  }

  /** Whatever the inputs, the laser pool stays within 0..60, the loaded
      rounds never exceed the pool or a magazine, the reload count stays within
      0..4, the meteor count never exceeds 10, and both indicators show exactly
      the current counters. */
  lemma ReachableState(inputs: seq<Input>)
    ensures var s := Run(Initial(), inputs);
      && 0 <= s.lasers.ammo <= 60
      && s.lasers.currentMagazineAmmo <= s.lasers.ammo
      && s.lasers.currentMagazineAmmo <= 12
      && 0 <= s.lasers.magazineLimit <= 4
      && s.lasers.magazineSize == 12
      && s.lasers.group.maxSize <= 12
      && s.meteorShots.ammo <= 10
      && ParseLaserAmmoText(s.laserText)
         == Some((s.lasers.currentMagazineAmmo, s.lasers.magazineLimit))
      && AmmoOfTextureKey(s.meteorTexture) == Some(s.meteorShots.ammo)
  {
    var s := Run(Initial(), inputs);
    LaserAmmoTextRoundTrip(s.lasers.currentMagazineAmmo, s.lasers.magazineLimit);
    MeteorTextureKeyRoundTrip(s.meteorShots.ammo);
  }

  /** `n` copies of one input. */
  function Repeat(input: Input, n: nat): (r: seq<Input>)
    ensures |r| == n
    ensures forall k :: 0 <= k < n ==> r[k] == input
  {
    if n == 0 then [] else [input] + Repeat(input, n - 1)
  }

  /** `n` laser presses with `n` rounds in the pool and `n` free projectiles
      all fire: each takes one round from the pool and one from the magazine,
      whatever the magazine held. */
  lemma {:induction false} LaserVolley(s: WeaponState, n: nat)
    requires s.lasers.ammo >= n && Free(s.lasers.group) >= n
    ensures var r := Run(s, Repeat(PressFireLaser, n));
      && r.lasers.ammo == s.lasers.ammo - n
      && r.lasers.currentMagazineAmmo == s.lasers.currentMagazineAmmo - n
      && r.lasers.magazineLimit == s.lasers.magazineLimit
      && r.lasers.magazineSize == s.lasers.magazineSize
      && r.lasers.group.maxSize == s.lasers.group.maxSize
      && Free(r.lasers.group) == Free(s.lasers.group) - n
      && Active(r.lasers.group) == Active(s.lasers.group) + n
      && r.meteorShots == s.meteorShots
      && r.meteorTexture == s.meteorTexture
    decreases n
  {
    if n > 0 {
      var t := Step(s, PressFireLaser);
      assert Repeat(PressFireLaser, n)[1..] == Repeat(PressFireLaser, n - 1);
      LaserVolley(t, n - 1);
    }
  }

  /** `n` meteor presses with `n` free projectiles all fire, each taking one
      shot from the count, however many shots were left. */
  lemma {:induction false} MeteorVolley(s: WeaponState, n: nat)
    requires Free(s.meteorShots.group) >= n
    ensures var r := Run(s, Repeat(PressFireMeteor, n));
      && r.meteorShots.ammo == s.meteorShots.ammo - n
      && r.meteorShots.group.maxSize == s.meteorShots.group.maxSize
      && Free(r.meteorShots.group) == Free(s.meteorShots.group) - n
      && r.lasers == s.lasers
      && r.laserText == s.laserText
    decreases n
  {
    if n > 0 {
      var t := Step(s, PressFireMeteor);
      assert Repeat(PressFireMeteor, n)[1..] == Repeat(PressFireMeteor, n - 1);
      MeteorVolley(t, n - 1);
    }
  }

  /** Every meteor ever fired is still a member of its group, and none has
      been switched off. */
  predicate MeteorsNeverRecycled(s: WeaponState) {
    && s.meteorShots.group.inactive == 0
    && s.meteorShots.group.maxSize == MeteorGroupMaxSize
    && s.meteorShots.group.count <= s.meteorShots.group.maxSize
    && s.meteorShots.ammo + s.meteorShots.group.count == MeteorAmmo
  }

  /** As long as the engine never switches a meteor off, the group's ten
      members bound the shots, so the meteor count never goes below zero:
      the group, not the count, is what stops a meteor shot. */
  lemma {:induction false} MeteorCountWithoutRecycling(s: WeaponState, inputs: seq<Input>)
    requires MeteorsNeverRecycled(s)
    requires forall k :: 0 <= k < |inputs| ==> inputs[k] != MeteorDeactivated
    ensures MeteorsNeverRecycled(Run(s, inputs))
    ensures Run(s, inputs).meteorShots.ammo >= 0
    decreases |inputs|
  {
    if |inputs| > 0 {
      var t := Step(s, inputs[0]);
      assert MeteorsNeverRecycled(t);
      MeteorCountWithoutRecycling(t, inputs[1..]);
    }
  }
}
