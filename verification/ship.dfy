/** The ammunition state machine of a ship: a magazine-fed laser and a
    pool-only meteor shot, each drawing projectiles from its own group, and
    the two UI indicators that display the counters. */
module Ship {
  import opened Options
  import opened Slots
  import opened Text

  /** Starting configuration of `initializeAmmunitionSystem`. */
  const LaserGroupMaxSize: nat := 12
  const LaserAmmo: nat := 60
  const MagazineSize: nat := 12
  const MeteorGroupMaxSize: nat := 10
  const MeteorAmmo: int := 10
  /** ceil(60 / 12) - 1: full reloads left behind the first magazine. */
  const InitialMagazineLimit: int := 4

  type Positive = n: int | n > 0 witness 1

  /** The laser group's counters. `ammo` is the whole pool, the loaded
      magazine included; it is only ever decremented when positive. */
  datatype Lasers = Lasers(
    group: Pool,
    ammo: nat,
    magazineSize: Positive,
    magazineLimit: int,
    currentMagazineAmmo: int)

  /** The meteor group's counters; there is no magazine and no reload. */
  datatype MeteorShots = MeteorShots(group: Pool, ammo: int)

  /** Both weapons plus what the two UI indicators currently show. */
  datatype WeaponState = WeaponState(
    lasers: Lasers,
    meteorShots: MeteorShots,
    laserText: string,
    meteorTexture: string)

  /** Name of the event sent to the other players after a shot. */
  datatype Event = BulletFired | MeteorFired

  datatype Outcome = Denied | Spawned(event: Event)

  datatype Fired = Fired(state: WeaponState, outcome: Outcome)

  /** `Math.ceil(a / b)` for integers and a positive divisor. */
  function CeilDiv(a: int, b: Positive): (q: int)
    ensures (q - 1) * b < a <= q * b
  {
    var t := (-a) / b;
    -t
  }

  /** The bracket of `CeilDiv` has only one solution. */
  lemma CeilDivUnique(a: int, b: Positive, q: int)
    requires (q - 1) * b < a <= q * b
    ensures q == CeilDiv(a, b)
  {
    var p := CeilDiv(a, b);
    if q < p {
      assert q * b <= (p - 1) * b by { MulMonotone(q, p - 1, b); }
    } else if p < q {
      assert p * b <= (q - 1) * b by { MulMonotone(p, q - 1, b); }
    }
  }

  lemma MulMonotone(x: int, y: int, b: Positive)
    requires x <= y
    ensures x * b <= y * b
  {
    assert y * b - x * b == (y - x) * b;
  }

  lemma CeilDivMonotone(a: int, a': int, b: Positive)
    requires a <= a'
    ensures CeilDiv(a, b) <= CeilDiv(a', b)
  {
    var q, q' := CeilDiv(a, b), CeilDiv(a', b);
    if q' < q {
      MulMonotone(q', q - 1, b);
    }
  }

  /** Taking one magazine off the pool takes one off the ceiling. */
  lemma CeilDivShift(a: int, b: Positive)
    ensures CeilDiv(a - b, b) == CeilDiv(a, b) - 1
  {
    var q := CeilDiv(a, b);
    assert (q - 2) * b == (q - 1) * b - b;
    assert (q - 1) * b == q * b - b;
    CeilDivUnique(a - b, b, q - 1);
  }

  /** With the magazine at twelve and no more than the starting pool, the
      recomputed reload count is at most the initial one. */
  lemma ReloadLimitBound(ammo: int, magazineSize: Positive)
    ensures magazineSize == MagazineSize && ammo <= LaserAmmo ==>
            CeilDiv(ammo - 12, magazineSize) <= InitialMagazineLimit
  {
    if magazineSize == MagazineSize && ammo <= LaserAmmo {
      CeilDivMonotone(ammo - 12, LaserAmmo - 12, magazineSize);
      CeilDivUnique(48, 12, 4);
    }
  }

  /** What every state reachable from `Initial` satisfies (proved in the
      Session module): the magazine is fixed at twelve, the loaded rounds never
      exceed the pool or the magazine, the reload count is bracketed by the
      pool, and both indicators show the current counters. */
  predicate Inv(s: WeaponState) {
    && s.lasers.magazineSize == MagazineSize
    && s.lasers.ammo <= LaserAmmo
    && s.lasers.currentMagazineAmmo <= s.lasers.ammo
    && s.lasers.currentMagazineAmmo <= s.lasers.magazineSize
    && 0 <= s.lasers.magazineLimit <= InitialMagazineLimit
    && CeilDiv(s.lasers.ammo, MagazineSize) - 1 <= s.lasers.magazineLimit
    && s.lasers.group.maxSize <= LaserGroupMaxSize
    && s.meteorShots.ammo <= MeteorAmmo
    && s.meteorShots.group.maxSize == MeteorGroupMaxSize
    && s.laserText == LaserAmmoText(s.lasers.currentMagazineAmmo, s.lasers.magazineLimit)
    && s.meteorTexture == MeteorTextureKey(s.meteorShots.ammo)
  }

  /** `initializeAmmunitionSystem` followed by the indicator set-up of
      `initializeAmmunitionUserInterface`. */
  function Initial(): (r: WeaponState)
    ensures r.lasers.ammo == 60 && r.lasers.magazineSize == 12
    ensures r.lasers.magazineLimit == 4 && r.lasers.currentMagazineAmmo == 12
    ensures r.lasers.group.count == 0 && r.lasers.group.maxSize == 12
    ensures r.meteorShots.ammo == 10
    ensures r.meteorShots.group.count == 0 && r.meteorShots.group.maxSize == 10
    ensures r.laserText == "12|4" && r.meteorTexture == "ammo_10"
    ensures Inv(r)
  {
    var lasers := Lasers(
      Group(0, 0, LaserGroupMaxSize), LaserAmmo, MagazineSize,
      CeilDiv(LaserAmmo, MagazineSize) - 1, MagazineSize);
    var meteorShots := MeteorShots(Group(0, 0, MeteorGroupMaxSize), MeteorAmmo);
    CeilDivUnique(60, 12, 5);
    InitialTexts();
    WeaponState(
      lasers, meteorShots,
      LaserAmmoText(lasers.currentMagazineAmmo, lasers.magazineLimit),
      MeteorTextureKey(meteorShots.ammo))
  }

  /** The indicator strings of the starting counters. */
  lemma InitialTexts()
    ensures LaserAmmoText(12, 4) == "12|4"
    ensures MeteorTextureKey(10) == "ammo_10"
  {
    assert NatToString(12) == NatToString(1) + "2";
    assert NatToString(10) == NatToString(1) + "0";
  }

  /** `updateBulletAmmoUi`: redraw the laser read-out from the counters. */
  function UpdateBulletAmmoUi(s: WeaponState): (r: WeaponState)
    ensures r.laserText == LaserAmmoText(s.lasers.currentMagazineAmmo, s.lasers.magazineLimit)
    ensures r.lasers == s.lasers && r.meteorShots == s.meteorShots
    ensures r.meteorTexture == s.meteorTexture
  {
    s.(laserText := LaserAmmoText(s.lasers.currentMagazineAmmo, s.lasers.magazineLimit))
  }

  /** After a redraw, the laser read-out names exactly the magazine and
      reload counters, and nothing but the read-out has changed. */
  lemma UpdateBulletAmmoUiShowsCounters(s: WeaponState)
    ensures var r := UpdateBulletAmmoUi(s);
      && ParseLaserAmmoText(r.laserText)
         == Some((s.lasers.currentMagazineAmmo, s.lasers.magazineLimit))
      && r.(laserText := s.laserText) == s
  {
    LaserAmmoTextRoundTrip(s.lasers.currentMagazineAmmo, s.lasers.magazineLimit);
  }

  /** `fire_laser`: a shot needs a round in the pool and a projectile from the
      group; the loaded magazine is not consulted. */
  function FireLaser(s: WeaponState): (r: Fired)
    ensures r.outcome.Spawned? <==> s.lasers.ammo > 0 && Free(s.lasers.group) > 0
    ensures r.outcome.Denied? ==> r.state == s
    ensures r.outcome.Spawned? ==>
      && r.outcome.event == BulletFired
      && r.state.lasers.ammo == s.lasers.ammo - 1
      && r.state.lasers.currentMagazineAmmo == s.lasers.currentMagazineAmmo - 1
      && r.state.lasers.magazineLimit == s.lasers.magazineLimit
      && r.state.lasers.magazineSize == s.lasers.magazineSize
      && r.state.lasers.group.maxSize == s.lasers.group.maxSize
      && Active(r.state.lasers.group) == Active(s.lasers.group) + 1
      && Free(r.state.lasers.group) == Free(s.lasers.group) - 1
      && r.state.meteorShots == s.meteorShots
      && r.state.meteorTexture == s.meteorTexture
      && r.state.laserText
         == LaserAmmoText(r.state.lasers.currentMagazineAmmo, r.state.lasers.magazineLimit)
    ensures Inv(s) ==> Inv(r.state)
  {
    if s.lasers.ammo > 0 then
      match Get(s.lasers.group)
      case None => Fired(s, Denied)
      case Some(group) =>
        var lasers := s.lasers.(
          group := group,
          currentMagazineAmmo := s.lasers.currentMagazineAmmo - 1,
          ammo := s.lasers.ammo - 1);
        CeilDivMonotone(lasers.ammo, s.lasers.ammo, lasers.magazineSize);
        Fired(UpdateBulletAmmoUi(s.(lasers := lasers)), Spawned(BulletFired))
    else
      Fired(s, Denied)
  }

  /** `fire_meteor_shot`: a shot needs only a projectile from the group; the
      shot count is not consulted and may go below zero. */
  function FireMeteorShot(s: WeaponState): (r: Fired)
    ensures r.outcome.Spawned? <==> Free(s.meteorShots.group) > 0
    ensures r.outcome.Denied? ==> r.state == s
    ensures r.outcome.Spawned? ==>
      && r.outcome.event == MeteorFired
      && r.state.meteorShots.ammo == s.meteorShots.ammo - 1
      && r.state.meteorShots.group.maxSize == s.meteorShots.group.maxSize
      && Active(r.state.meteorShots.group) == Active(s.meteorShots.group) + 1
      && Free(r.state.meteorShots.group) == Free(s.meteorShots.group) - 1
      && r.state.meteorTexture == MeteorTextureKey(r.state.meteorShots.ammo)
      && r.state.lasers == s.lasers
      && r.state.laserText == s.laserText
    ensures Inv(s) ==> Inv(r.state)
  {
    match Get(s.meteorShots.group)
    case None => Fired(s, Denied)
    case Some(group) =>
      var ammo := s.meteorShots.ammo - 1;
      Fired(
        s.(meteorShots := MeteorShots(group, ammo), meteorTexture := MeteorTextureKey(ammo)),
        Spawned(MeteorFired))
  }

  /** `reload`. With at least a magazine's worth in the pool, the magazine is
      refilled, the reload count recomputed (the source subtracts the literal
      12, not `magazineSize`) and the group emptied; otherwise only the
      group's capacity is lowered to the rounds left. */
  function Reload(s: WeaponState): (r: WeaponState)
    ensures r.lasers.ammo == s.lasers.ammo
    ensures r.lasers.magazineSize == s.lasers.magazineSize
    ensures r.meteorShots == s.meteorShots && r.meteorTexture == s.meteorTexture
    ensures s.lasers.ammo >= s.lasers.magazineSize ==>
      && r.lasers.currentMagazineAmmo == s.lasers.magazineSize
      && (r.lasers.magazineLimit - 1) * s.lasers.magazineSize
         < s.lasers.ammo - 12 <= r.lasers.magazineLimit * s.lasers.magazineSize
      && r.lasers.group.count == 0 && Active(r.lasers.group) == 0
      && r.lasers.group.maxSize == s.lasers.group.maxSize
      && r.laserText == LaserAmmoText(r.lasers.currentMagazineAmmo, r.lasers.magazineLimit)
    ensures s.lasers.ammo < s.lasers.magazineSize ==>
      && r.lasers.group.maxSize == s.lasers.ammo
      && r.lasers.group.count == s.lasers.group.count
      && r.lasers.group.inactive == s.lasers.group.inactive
      && r.lasers.currentMagazineAmmo == s.lasers.currentMagazineAmmo
      && r.lasers.magazineLimit == s.lasers.magazineLimit
      && r.laserText == s.laserText
    ensures Inv(s) && s.lasers.ammo >= s.lasers.magazineSize ==>
      && r.lasers.magazineLimit == CeilDiv(s.lasers.ammo, s.lasers.magazineSize) - 1
      && r.lasers.magazineLimit >= 0
    ensures Inv(s) ==> Inv(r) && r.lasers.magazineLimit <= s.lasers.magazineLimit
  {
    if s.lasers.ammo >= s.lasers.magazineSize then
      var lasers := s.lasers.(
        magazineLimit := CeilDiv(s.lasers.ammo - 12, s.lasers.magazineSize),
        currentMagazineAmmo := s.lasers.magazineSize);
      var ui := UpdateBulletAmmoUi(s.(lasers := lasers));
      CeilDivShift(s.lasers.ammo, s.lasers.magazineSize);
      ReloadLimitBound(s.lasers.ammo, s.lasers.magazineSize);
      ui.(lasers := ui.lasers.(group := Clear(ui.lasers.group)))
    else
      s.(lasers := s.lasers.(group := SetMaxSize(s.lasers.group, s.lasers.ammo)))
  }

  /** A second reload straight after a first changes nothing. */
  lemma ReloadIdempotent(s: WeaponState)
    ensures Reload(Reload(s)) == Reload(s)
  {
    var r := Reload(s);
    var r2 := Reload(r);
    if s.lasers.ammo >= s.lasers.magazineSize {
      assert r2.lasers.magazineLimit == r.lasers.magazineLimit;
      assert r2.lasers.currentMagazineAmmo == r.lasers.currentMagazineAmmo;
      assert r2.lasers.group == r.lasers.group;
      assert r2.lasers == r.lasers;
      assert r2.laserText == r.laserText;
    } else {
      assert r2.lasers.group == r.lasers.group;
      assert r2.lasers == r.lasers;
    }
  }
}
