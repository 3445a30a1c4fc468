/** Play-throughs from a just-built ship: the first magazine emptied and
    reloaded, the magazine driven below zero, and the meteor shots used up.
    Each scenario is a chain of single-step facts. */
module Scenarios {
  import opened Slots
  import opened Text
  import opened Ship
  import opened Session

  /** The counters, groups and indicators a ship has right after
      construction, spelled out. */
  predicate JustBuilt(s: WeaponState) {
    && s.lasers == Lasers(Group(0, 0, 12), 60, 12, 4, 12)
    && s.meteorShots == MeteorShots(Group(0, 0, 10), 10)
    && s.laserText == LaserAmmoText(12, 4)
    && s.meteorTexture == MeteorTextureKey(10)
  }

  /** The spelled-out description fits the initial state and nothing else. */
  lemma JustBuiltIsInitial(s: WeaponState)
    ensures JustBuilt(s) <==> s == Initial()
  {
    InitialTexts();
  }

  lemma JustBuiltInv(s: WeaponState)
    requires JustBuilt(s)
    ensures Inv(s)
  {
    CeilDivUnique(60, 12, 5);
  }

  /** The laser group after the first twelve shots: twelve members in flight,
      48 rounds in the pool, an empty magazine, four reloads left. */
  predicate FirstMagazineSpent(s: WeaponState) {
    s.lasers == Lasers(Group(12, 0, 12), 48, 12, 4, 0) && Inv(s)
  }

  lemma FirstMagazine(s: WeaponState)
    requires JustBuilt(s)
    ensures Run(s, Repeat(PressFireLaser, 12)).lasers == Lasers(Group(12, 0, 12), 48, 12, 4, 0)
  {
    assert Free(s.lasers.group) == 12;
    LaserVolley(s, 12);
    var g := Run(s, Repeat(PressFireLaser, 12)).lasers.group;
    assert g.inactive == 0 && g.count == 12 && g.maxSize == 12;
  }

  lemma FirstMagazineReached(s: WeaponState)
    requires JustBuilt(s)
    ensures FirstMagazineSpent(Run(s, Repeat(PressFireLaser, 12)))
  {
    JustBuiltInv(s);
    FirstMagazine(s);
  }

  lemma SpentMagazineRefusesFire(s: WeaponState)
    requires FirstMagazineSpent(s)
    ensures Step(s, PressFireLaser) == s
  {
  }

  lemma SpentMagazineText(s: WeaponState)
    requires FirstMagazineSpent(s)
    ensures s.laserText == "0|4"
  {
    assert LaserAmmoText(0, 4) == "0|4";
  }

  /** Twelve laser shots from the start empty the magazine and fill the group:
      48 rounds are left, the magazine shows 0, and a thirteenth press changes
      nothing, for want of a projectile rather than of ammunition. */
  lemma EmptyMagazine(s: WeaponState)
    requires JustBuilt(s)
    ensures var r := Run(s, Repeat(PressFireLaser, 12));
      && r.lasers.ammo == 48
      && r.lasers.currentMagazineAmmo == 0
      && r.lasers.magazineLimit == 4
      && r.laserText == "0|4"
      && Step(r, PressFireLaser) == r
  {
    var r := Run(s, Repeat(PressFireLaser, 12));
    FirstMagazineReached(s);
    SpentMagazineRefusesFire(r);
    SpentMagazineText(r);
  }

  /** The state `reload` leaves after the first magazine. */
  predicate Reloaded(s: WeaponState) {
    s.lasers == Lasers(Group(0, 0, 12), 48, 12, 3, 12) && Inv(s)
  }

  lemma ReloadSpentMagazine(s: WeaponState)
    requires FirstMagazineSpent(s)
    ensures Reloaded(Step(s, PressReload))
  {
    CeilDivUnique(48, 12, 4);
    CeilDivUnique(36, 12, 3);
  }

  lemma ReloadedFires(s: WeaponState)
    requires Reloaded(s)
    ensures Step(s, PressFireLaser).lasers.ammo == 47
  {
  }

  lemma ReloadedText(s: WeaponState)
    requires Reloaded(s)
    ensures s.laserText == "12|3"
  {
    assert LaserAmmoText(12, 3) == "12|3" by {
      assert NatToString(12) == NatToString(1) + "2";
    }
  }

  /** Reloading after the first magazine refills it, counts three reloads
      left and frees the whole group, so the next press fires again. */
  lemma ReloadAfterEmptyMagazine(s: WeaponState)
    requires JustBuilt(s)
    ensures var r := Step(Run(s, Repeat(PressFireLaser, 12)), PressReload);
      && r.lasers.ammo == 48
      && r.lasers.currentMagazineAmmo == 12
      && r.lasers.magazineLimit == 3
      && Free(r.lasers.group) == 12
      && r.laserText == "12|3"
      && Step(r, PressFireLaser).lasers.ammo == 47
  {
    var spent := Run(s, Repeat(PressFireLaser, 12));
    FirstMagazineReached(s);
    ReloadSpentMagazine(spent);
    var r := Step(spent, PressReload);
    ReloadedFires(r);
    ReloadedText(r);
  }

  /** The laser group once one of the first twelve projectiles left play. */
  predicate OneLaserRecycled(s: WeaponState) {
    s.lasers == Lasers(Group(12, 1, 12), 48, 12, 4, 0) && Inv(s)
  }

  lemma RecycleOneLaser(s: WeaponState)
    requires FirstMagazineSpent(s)
    ensures OneLaserRecycled(Step(s, LaserDeactivated))
  {
  }

  lemma FireWithEmptyMagazine(s: WeaponState)
    requires OneLaserRecycled(s)
    ensures var r := Step(s, PressFireLaser);
      && r.lasers.ammo == 47
      && r.lasers.currentMagazineAmmo == -1
      && r.laserText == LaserAmmoText(-1, 4)
  {
  }

  lemma NegativeMagazineText()
    ensures LaserAmmoText(-1, 4) == "-1|4"
  {
  }

  /** Once one laser projectile has left play, a press fires with the
      magazine already empty: the magazine reads -1 and the pool 47. */
  lemma MagazineBelowZero(s: WeaponState)
    requires JustBuilt(s)
    ensures var r := Step(Step(Run(s, Repeat(PressFireLaser, 12)), LaserDeactivated), PressFireLaser);
      && r.lasers.ammo == 47
      && r.lasers.currentMagazineAmmo == -1
      && r.laserText == "-1|4"
  {
    var spent := Run(s, Repeat(PressFireLaser, 12));
    FirstMagazineReached(s);
    RecycleOneLaser(spent);
    FireWithEmptyMagazine(Step(spent, LaserDeactivated));
    NegativeMagazineText();
  }

  /** The meteor group once all ten starting shots are in flight. */
  predicate MeteorsSpent(s: WeaponState) {
    s.meteorShots == MeteorShots(Group(10, 0, 10), 0) && Inv(s)
  }

  lemma AllMeteorsFired(s: WeaponState)
    requires JustBuilt(s)
    ensures Run(s, Repeat(PressFireMeteor, 10)).meteorShots == MeteorShots(Group(10, 0, 10), 0)
  {
    assert Free(s.meteorShots.group) == 10;
    MeteorVolley(s, 10);
    var g := Run(s, Repeat(PressFireMeteor, 10)).meteorShots.group;
    assert g.inactive == 0 && g.count == 10 && g.maxSize == 10;
  }

  lemma MeteorsSpentReached(s: WeaponState)
    requires JustBuilt(s)
    ensures MeteorsSpent(Run(s, Repeat(PressFireMeteor, 10)))
  {
    JustBuiltInv(s);
    AllMeteorsFired(s);
  }

  lemma SpentMeteorsRefuseFire(s: WeaponState)
    requires MeteorsSpent(s)
    ensures Step(s, PressFireMeteor) == s
  {
  }

  lemma SpentMeteorsTexture(s: WeaponState)
    requires MeteorsSpent(s)
    ensures s.meteorTexture == "ammo_0"
  {
    assert MeteorTextureKey(0) == "ammo_0";
  }

  /** Ten meteor shots use up both the count and the group: the indicator
      shows `ammo_0` and an eleventh press changes nothing. */
  lemma MeteorsExhausted(s: WeaponState)
    requires JustBuilt(s)
    ensures var r := Run(s, Repeat(PressFireMeteor, 10));
      && r.meteorShots.ammo == 0
      && r.meteorTexture == "ammo_0"
      && Step(r, PressFireMeteor) == r
  {
    var r := Run(s, Repeat(PressFireMeteor, 10));
    MeteorsSpentReached(s);
    SpentMeteorsRefuseFire(r);
    SpentMeteorsTexture(r);
  }

  lemma RecycleOneMeteor(s: WeaponState)
    requires MeteorsSpent(s)
    ensures Step(s, MeteorDeactivated).meteorShots == MeteorShots(Group(10, 1, 10), 0)
  {
  }

  lemma FireWithNoMeteorsLeft(s: WeaponState)
    requires s.meteorShots == MeteorShots(Group(10, 1, 10), 0)
    ensures var r := Step(s, PressFireMeteor);
      && r.meteorShots.ammo == -1
      && r.meteorTexture == MeteorTextureKey(-1)
  {
  }

  lemma MinusOneTexture()
    ensures MeteorTextureKey(-1) == "ammo_-1"
  {
  }

  /** The eleventh meteor press is refused only because the group is full:
      once a meteor has left play, it fires and the count reads -1. */
  lemma MeteorCountBelowZero(s: WeaponState)
    requires JustBuilt(s)
    ensures var r := Step(Step(Run(s, Repeat(PressFireMeteor, 10)), MeteorDeactivated), PressFireMeteor);
      && r.meteorShots.ammo == -1
      && r.meteorTexture == "ammo_-1"
  {
    var spent := Run(s, Repeat(PressFireMeteor, 10));
    MeteorsSpentReached(s);
    RecycleOneMeteor(spent);
    FireWithNoMeteorsLeft(Step(spent, MeteorDeactivated));
    MinusOneTexture();
  }
}
