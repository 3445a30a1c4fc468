# Ship ammunition state machine (Space Arena Online)

This project models the ammunition logic of the `Ship` class in the game's
browser client, `client/javascript/ship.js`. A ship carries two weapons:

- **Lasers** are magazine-fed. The state is the pool `ammo` (the loaded
  magazine included), `magazineSize`, `magazineLimit` (reloads left) and
  `currentMagazineAmmo`.
- **Meteor shots** are pool-only. The state is `ammo`.

Each weapon draws its projectiles from a Phaser physics group of bounded
size. The UI shows the laser counters as the text `"<magazine>|<reloads>"` and
the meteor count as the texture key `"ammo_<n>"`.

Modules:

- `Slots` (slots.dfy) models the group abstractly. It keeps a member `count`,
  the number of `inactive` members and `maxSize`. `Get` succeeds iff
  `Free(g) = inactive + max(0, maxSize - count)` is positive. It prefers
  recycling an inactive member. `Clear` empties the membership and
  `Deactivate` is the engine switching a projectile off.
- `Text` (text.dfy) models JavaScript's `Number#toString` on integers and the
  two UI strings. Each string has a parser partner and a round-trip lemma.
- `Ship` (ship.dfy) holds `WeaponState`, the initial state and the
  operations `FireLaser`, `FireMeteorShot`, `Reload` and
  `UpdateBulletAmmoUi`. It also holds the invariant `Inv` of reachable
  states.
- `Session` (session.dfy) drives the weapons by a sequence of inputs: the
  three key handlers plus the engine deactivating a projectile. It proves
  properties of every reachable state.
- `Scenarios` (scenarios.dfy) replays play-throughs from a just-built ship.

Edge cases of the code that the model keeps:

- Laser fire is gated on `ammo > 0` and a free projectile only. The magazine
  is never consulted, so `currentMagazineAmmo` can go below zero
  (`Scenarios.MagazineBelowZero`).
- Meteor fire is gated on a free projectile only. It is never refused for
  want of ammo. The eleventh shot is refused only because the ten-member group
  is full. Once the engine recycles a meteor, the count reaches -1 and the
  texture key becomes `"ammo_-1"` (`Scenarios.MeteorCountBelowZero`). Without
  recycling the count never goes negative
  (`Session.MeteorCountWithoutRecycling`).
- `reload` computes `ceil((ammo - 12) / magazineSize)` with the literal 12,
  not `magazineSize`. The magazine size is always 12, so this equals
  `ceil(ammo / magazineSize) - 1`, the formula used at initialisation
  (`Ship.Reload`, `Ship.CeilDivShift`).
- `magazineLimit` never drops below 0 (`Session.ReachableState`).

## Model

| member | source | states |
|---|---|---|
| Slots.Get | client/javascript/ship.js:69-72 | `group.get` succeeds iff a member is inactive or the group is below `maxSize`; on success exactly one more member is in flight, one fewer free slot remains and `maxSize` is unchanged |
| Slots.Clear | client/javascript/ship.js:118 | `children.clear(true, false)` leaves no member, keeps `maxSize`, and makes all `maxSize` slots free again |
| Slots.SetMaxSize | client/javascript/ship.js:121 | assigning `maxSize` sets the group's bound to the new value and keeps the existing members and which of them are inactive |
| Text.NatToString | client/javascript/ship.js:128 | `toString` of a non-negative integer is a non-empty digit string with no leading zero, a single digit exactly below 10 |
| Text.IntToString | client/javascript/ship.js:128 | `toString` of an integer starts with `-` exactly when it is negative, and is digits otherwise |
| Text.IntToStringRoundTrip | client/javascript/ship.js:128 | parsing the printed form of any integer gives that integer back |
| Text.IntToStringInjective | client/javascript/ship.js:128 | two integers print the same only when they are equal |
| Text.LaserAmmoTextRoundTrip | client/javascript/ship.js:128 | the laser read-out `current + "\|" + limit` splits back into exactly the two counters, negative ones included |
| Text.MeteorTextureKeyRoundTrip | client/javascript/ship.js:98 | the key `"ammo_" + ammo` names exactly the shot count it was made from, negative counts included |
| Ship.CeilDiv | client/javascript/ship.js:44 | `Math.ceil(a / b)` for a positive divisor is the unique `q` with `(q-1)*b < a <= q*b` |
| Ship.CeilDivShift | client/javascript/ship.js:113 | taking one magazine off the dividend takes one off the ceiling, so the reload formula agrees with the initialisation formula |
| Ship.ReloadLimitBound | client/javascript/ship.js:113 | with a 12-round magazine and at most 60 rounds, the recomputed reload count is at most 4 |
| Ship.Initial | client/javascript/ship.js:37-60 | the ship starts with 60 laser rounds, a 12-round magazine loaded, 4 reloads, a 12-member laser group, 10 meteor shots and a 10-member meteor group; the indicators read `"12\|4"` and `"ammo_10"`; the invariant holds |
| Ship.UpdateBulletAmmoUi | client/javascript/ship.js:127-129 | the redraw sets the laser read-out to the magazine count, a bar and the reload count, and changes no counter, no group and not the meteor texture |
| Ship.UpdateBulletAmmoUiShowsCounters | client/javascript/ship.js:127-129 | after a redraw the laser read-out parses back to exactly the magazine and reload counters, and nothing else in the state changed |
| Ship.FireLaser | client/javascript/ship.js:65-90 | a shot happens iff the pool is positive and the group has a free slot, whatever the magazine holds; a refused shot changes nothing; a shot takes one round from the pool and one from the magazine, puts one more projectile in flight, redraws the read-out, emits `bulletFired`, and leaves the reload count, magazine size, group size and all meteor state alone; the invariant is preserved |
| Ship.FireMeteorShot | client/javascript/ship.js:93-108 | a shot happens iff the meteor group has a free slot, whatever the count; a refused shot changes nothing; a shot takes one from the count, sets the texture key to the new count, emits `meteorFired`, and leaves all laser state and the laser read-out alone; the invariant is preserved |
| Ship.Reload | client/javascript/ship.js:111-123 | never changes the laser pool, the magazine size or any meteor state; with a full magazine's worth left it reloads the magazine, brackets the reload count by `ammo - 12`, empties the group and redraws the read-out; otherwise it only lowers the group size to the rounds left; on reachable states the reload count is `ceil(ammo/12) - 1 >= 0` and never rises |
| Ship.ReloadIdempotent | client/javascript/ship.js:111-123 | a second reload straight after a first changes nothing |
| Session.Step | client/javascript/ship.js:65-123 | any single input keeps the invariant, never raises either pool, never changes the magazine size and never raises the reload count |
| Session.Run | client/javascript/ship.js:65-123 | over any input sequence the invariant is kept, both pools are non-increasing and the reload count never rises |
| Session.RunAppend | client/javascript/ship.js:65-123 | running two input sequences one after the other is running their concatenation |
| Session.ReachableState | client/javascript/ship.js:37-129 | every reachable state has 0..60 laser rounds, a loaded magazine no larger than the pool or 12, 0..4 reloads, at most 10 meteor shots, and indicators that parse back to exactly the current counters |
| Session.LaserVolley | client/javascript/ship.js:68-75 | `n` laser presses with `n` rounds and `n` free slots all fire, each taking one round from the pool and the magazine and one free slot, whatever the magazine held |
| Session.MeteorVolley | client/javascript/ship.js:94-96 | `n` meteor presses with `n` free slots all fire, each taking one from the count, however many shots were left |
| Session.MeteorCountWithoutRecycling | client/javascript/ship.js:94-96 | while no meteor is ever switched off, count plus group members stays 10, so the meteor count never goes below zero |
| Scenarios.JustBuiltIsInitial | client/javascript/ship.js:41-50 | the spelled-out starting counters describe the initial state and nothing else |
| Scenarios.EmptyMagazine | client/javascript/ship.js:68-75 | twelve laser shots from the start leave 48 rounds, magazine 0, four reloads and read-out `"0\|4"`; a thirteenth press changes nothing because the group is full |
| Scenarios.ReloadAfterEmptyMagazine | client/javascript/ship.js:112-118 | reloading after the first magazine gives magazine 12, three reloads, read-out `"12\|3"` and twelve free slots, and the next press fires |
| Scenarios.MagazineBelowZero | client/javascript/ship.js:68-75 | after one laser leaves play, a press fires with the magazine empty: the magazine reads -1, the pool 47, the read-out `"-1\|4"` |
| Scenarios.MeteorsExhausted | client/javascript/ship.js:94-98 | ten meteor shots leave count 0 and texture `"ammo_0"`; an eleventh press changes nothing |
| Scenarios.MeteorCountBelowZero | client/javascript/ship.js:94-98 | after one meteor leaves play, a press fires with the count at 0: the count reads -1 and the texture `"ammo_-1"` |

## Left out

- The constructor's sprite, physics-body and name-label set-up (client/javascript/ship.js:3-33) is engine configuration with no ammunition logic.
- The layout, origin and scale of the two indicators (client/javascript/ship.js:53-60) are not modelled. Only the strings they show are.
- Projectile kinematics (`velocityFromRotation`, the speed 600, the bullet's rotation and the meteor's scale of 3) are floating-point engine work and are not modelled.
- Network emission (`scene.socket.emit`) is reduced to the event name in the `Spawned` outcome. The payload is not modelled.
- Deactivation of projectiles (going off-screen, collisions) happens outside the file. It is an explicit `Session.Input`. Deactivating with nothing in flight does nothing.
- Phaser group internals are not modelled beyond the abstract slot-pool contract. This includes `maxSize = -1` meaning "unbounded", which these states never reach.
- JavaScript numbers are doubles. Every counter here is a small integer, so unbounded integers are exact. The `-0` that `Math.ceil` can produce for a magazine size other than 12 does not arise.
- The model assumes `initializeAmmunitionUserInterface` ran before the first key press. Without it, a laser shot throws in `updateBulletAmmoUi` after its counters changed, a meteor shot throws at `setTexture` after `ammo` was decremented, and a reload with a full magazine's worth throws in `updateBulletAmmoUi` after resetting the counters and before the group is cleared.
- Ship.FireLaser: laser `ammo` is a `nat` in the model. "Never below 0" therefore holds by its type, as well as by the gate `ammo > 0` that the contract states.
- A reload with fewer than 12 rounds left is covered only by the second case of `Ship.Reload`'s contract. It is not replayed as a concrete input sequence.
