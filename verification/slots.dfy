/** An abstract model of the Phaser physics group that both weapons draw their
    projectiles from.

    A group owns `count` members, of which `inactive` are switched off and may
    be recycled, and refuses to create a member once `count` has reached
    `maxSize`. Only the counters matter to the ammunition logic; the members
    themselves (sprites, bodies) are not modelled. */
module Slots {
  import opened Options

  datatype Group = Group(count: nat, inactive: nat, maxSize: nat)

  /** A group never has more inactive members than members. */
  type Pool = g: Group | g.inactive <= g.count witness Group(0, 0, 0)

  /** Members currently in flight. */
  function Active(g: Pool): nat {
    g.count - g.inactive
  }

  /** How many further `get` calls can succeed without any member being
      switched off: every inactive member, plus the room left below `maxSize`. */
  function Free(g: Pool): nat {
    g.inactive + (if g.count < g.maxSize then g.maxSize - g.count else 0)
  }

  /** `group.get(x, y, key)`: hand out the first inactive member if there is
      one, otherwise create a member unless the group is full; `None` stands
      for the `null` the engine returns. The member handed out is switched on. */
  function Get(g: Pool): (r: Option<Pool>)
    ensures r.Some? <==> Free(g) > 0
    ensures r.Some? ==> Active(r.value) == Active(g) + 1
    ensures r.Some? ==> Free(r.value) == Free(g) - 1
    ensures r.Some? ==> r.value.maxSize == g.maxSize
    ensures r.Some? && g.inactive > 0 ==> r.value.count == g.count
    ensures r.Some? && g.count >= g.maxSize ==> r.value.count == g.count
  {
    if g.inactive > 0 then Some(g.(inactive := g.inactive - 1))
    else if g.count < g.maxSize then Some(g.(count := g.count + 1))
    else None
  }

  /** `group.children.clear(true, false)`: `children` is the group's member
      set, whose `clear` ignores both arguments. Every member leaves the group
      (the projectiles stay in the scene), so the group may create up to
      `maxSize` members again. */
  function Clear(g: Pool): (r: Pool)
    ensures r.count == 0 && Active(r) == 0
    ensures r.maxSize == g.maxSize
    ensures Free(r) == g.maxSize
  {
    Group(0, 0, g.maxSize)
  }

  /** Assigning `group.maxSize`; existing members are kept even when the new
      bound is below `count`. */
  function SetMaxSize(g: Pool, maxSize: nat): (r: Pool)
    ensures r.maxSize == maxSize
    ensures r.count == g.count && r.inactive == g.inactive
  {
    g.(maxSize := maxSize)
  }

  /** A member in flight is switched off by the engine (it left the screen or
      hit something). Nothing in the ship does this; it is an external step. */
  function Deactivate(g: Pool): (r: Pool)
    requires Active(g) > 0
    ensures Active(r) == Active(g) - 1
    ensures Free(r) == Free(g) + 1
    ensures r.count == g.count && r.maxSize == g.maxSize
  {
    g.(inactive := g.inactive + 1)
  }
}
