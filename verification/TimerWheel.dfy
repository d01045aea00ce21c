/** Where the timer wheel of skynet_timer.c files a timer, and how that place changes with time. */
module TimerWheel {
  import opened Common

  /** 32-bit time wraps. */
  const WRAP := 0x1_0000_0000
  const HALF := 0x8000_0000

  type Tick = x: int | 0 <= x < WRAP

  const NEAR := 256
  const LEVEL := 64

  datatype Slot = Near(j: int) | Level(i: int, j: int)

  predicate IsSlot(s: Slot) {
    match s
    case Near(j) => 0 <= j < NEAR
    case Level(i, j) => 0 <= i < 4 && 0 <= j < LEVEL
  }

  /** The loop of `add_node` from level `i` on, for an expiry and a time already shifted to that level.
      Two ticks or-ed with a mask of low ones agree exactly if the bits above the mask agree. */
  function LevelOf(i: nat, e: nat, t: nat): (s: Slot)
    requires i <= 3
    ensures IsSlot(s) && s.Level? && s.i >= i
    decreases 3 - i
  {
    if i == 3 || e / LEVEL == t / LEVEL then Level(i, e % LEVEL) else LevelOf(i + 1, e / LEVEL, t / LEVEL)
  }

  /** `add_node`: the list for expiry `e` at time `t`. */
  function SlotOf(e: Tick, t: Tick): (s: Slot)
    ensures IsSlot(s)
  {
    if e / NEAR == t / NEAR then Near(e % NEAR) else LevelOf(0, e / NEAR, t / NEAR)
  }

  function Next(t: Tick): Tick { (t + 1) % WRAP }

  /** The loop of `timer_shift` from level `i` on, for a time already shifted to that level. */
  function MovedFrom(i: nat, t: nat): (s: Slot)
    requires i <= 3
    ensures IsSlot(s) && s.Level? && s.i >= i
    decreases 3 - i
  {
    if i == 3 || t % LEVEL != 0 then Level(i, t % LEVEL) else MovedFrom(i + 1, t / LEVEL)
  }

  /** `timer_shift`: the list that is redistributed when the time becomes `t`. */
  function Moved(t: Tick): (r: Option<Slot>)
    ensures r.Some? ==> IsSlot(r.value) && r.value.Level?
  {
    if t == 0 then Some(Level(3, 0))
    else if t % NEAR != 0 then None
    else Some(MovedFrom(0, t / NEAR))
  }

  // ----- the places in numbers -----

  lemma Shifts(x: Tick)
    ensures x / NEAR / LEVEL == x / 0x4000 && x / 0x4000 / LEVEL == x / 0x10_0000
    ensures x / 0x10_0000 / LEVEL == x / 0x400_0000
  {
  }

  /** A timer is filed by the highest part in which its expiry and the time differ: in the 256 lists of the next
      ticks if they agree from bit 8 on, else at the level of 64 lists above which they agree from bit 14, 20 or 26
      on, else at the highest level. */
  lemma SlotByParts(e: Tick, t: Tick)
    ensures SlotOf(e, t) ==
      if e / 0x100 == t / 0x100 then Near(e % 0x100)
      else if e / 0x4000 == t / 0x4000 then Level(0, e / 0x100 % 64)
      else if e / 0x10_0000 == t / 0x10_0000 then Level(1, e / 0x4000 % 64)
      else if e / 0x400_0000 == t / 0x400_0000 then Level(2, e / 0x10_0000 % 64)
      else Level(3, e / 0x400_0000 % 64)
  {
    Shifts(e);
    Shifts(t);
    assert LevelOf(3, e / 0x400_0000, t / 0x400_0000) == Level(3, e / 0x400_0000 % 64);
    assert LevelOf(1, e / 0x4000, t / 0x4000) == LevelOf(1, e / NEAR / LEVEL, t / NEAR / LEVEL);
  }

  /** Every 256 ticks one list is redistributed: that of the lowest level whose digit of the time is not zero, and after
      a wrap the first one of the highest level. */
  lemma MovedByParts(t: Tick)
    ensures Moved(t) ==
      if t == 0 then Some(Level(3, 0))
      else if t % 0x100 != 0 then None
      else if t % 0x4000 != 0 then Some(Level(0, t / 0x100 % 64))
      else if t % 0x10_0000 != 0 then Some(Level(1, t / 0x4000 % 64))
      else if t % 0x400_0000 != 0 then Some(Level(2, t / 0x10_0000 % 64))
      else Some(Level(3, t / 0x400_0000 % 64))
  {
    Shifts(t);
    Multiples(t);
    assert MovedFrom(1, t / 0x4000) == MovedFrom(1, t / NEAR / LEVEL);
    assert MovedFrom(3, t / 0x400_0000) == Level(3, t / 0x400_0000 % 64);
  }

  lemma Multiples(t: Tick)
    ensures t % 0x100 == 0 ==> (t % 0x4000 == 0 <==> t / 0x100 % 64 == 0)
    ensures t % 0x4000 == 0 ==> (t % 0x10_0000 == 0 <==> t / 0x4000 % 64 == 0)
    ensures t % 0x10_0000 == 0 ==> (t % 0x400_0000 == 0 <==> t / 0x10_0000 % 64 == 0)
  {
    if t % 0x100 == 0 { Multiple(t, 0x100, t / 0x100, t / 0x100 / 64, t / 0x100 % 64); }
    if t % 0x4000 == 0 { Multiple(t, 0x4000, t / 0x4000, t / 0x4000 / 64, t / 0x4000 % 64); }
    if t % 0x10_0000 == 0 { Multiple(t, 0x10_0000, t / 0x10_0000, t / 0x10_0000 / 64, t / 0x10_0000 % 64); }
  }

  lemma Multiple(t: nat, m: nat, q: nat, a: nat, b: nat)
    requires m > 0 && t == m * q && q == 64 * a + b && b < 64
    ensures t % (64 * m) == 0 <==> b == 0
  {
    Regroup(m, 64, a);
    Spread(m, 64 * a, b);
    MulMono(m, b + 1, 64);
    Spread(m, b, 1);
    DivIs(t, 64 * m, a);
    assert t % (64 * m) == t - 64 * m * a == m * b;
    if b > 0 { MulMono(m, 1, b); }
  }

  /** `e` lies less than half a lap after `t`, and not at it. */
  predicate Ahead(e: Tick, t: Tick) {
    0 < (e - t) % WRAP < HALF
  }

  /** The digit of the highest level. */
  function Top(i: nat, x: nat): nat
    requires i <= 3
    decreases 3 - i
  {
    if i == 3 then x else Top(i + 1, x / LEVEL)
  }

  lemma {:induction false} FarSlot(i: nat, e: nat, t: nat)
    requires i <= 3 && Top(i, e) != Top(i, t)
    ensures LevelOf(i, e, t) == Level(3, Top(i, e) % LEVEL)
    decreases 3 - i
  {
    if i < 3 { FarSlot(i + 1, e / LEVEL, t / LEVEL); }
  }

  /** The highest digit of a tick. */
  lemma TopOf(x: Tick)
    ensures Top(0, x / NEAR) == x / 0x400_0000
  {
    var a := x / NEAR;
    var b := a / LEVEL;
    var c := b / LEVEL;
    assert Top(0, a) == Top(1, b) == Top(2, c) == c / LEVEL;
  }

  lemma NextCell(e: nat, t: nat)
    requires t < e
    ensures (t + 1) / LEVEL == t / LEVEL + if (t + 1) % LEVEL == 0 then 1 else 0
    ensures e / LEVEL != t / LEVEL ==> t / LEVEL < e / LEVEL
    ensures (t + 1) % LEVEL == 0 ==> t / LEVEL < e / LEVEL
  {
  }

  /** The wheel advances by one at level `i`: an expiry strictly ahead at this level keeps its list,
      unless it is in the list that is redistributed. */
  lemma {:induction false} LevelStays(i: nat, e: nat, t: nat)
    requires i <= 3 && t < e
    requires MovedFrom(i, t + 1) != LevelOf(i, e, t)
    requires Top(i, e) < LEVEL
    ensures e != t + 1
    ensures LevelOf(i, e, t + 1) == LevelOf(i, e, t)
    decreases 3 - i
  {
    if i < 3 {
      NextCell(e, t);
      if (t + 1) % LEVEL == 0 {
        LevelStays(i + 1, e / LEVEL, t / LEVEL);
      }
    }
  }

  /** An expiry in another part of the highest level is filed there. */
  lemma FarTick(e: Tick, t: Tick)
    requires e / 0x400_0000 != t / 0x400_0000
    ensures SlotOf(e, t) == Level(3, e / 0x400_0000)
  {
    TopOf(e);
    TopOf(t);
    FarSlot(0, e / NEAR, t / NEAR);
  }

  lemma AheadCases(e: Tick, t: Tick)
    requires Ahead(e, t)
    ensures t < e || t - e > HALF
  {
  }

  lemma SlotStaysInBlock(e: Tick, t: Tick)
    requires (t + 1) % NEAR != 0
    ensures SlotOf(e, Next(t)) == SlotOf(e, t)
  {
    hide LevelOf;
    assert t + 1 < WRAP;
    assert (t + 1) / NEAR == t / NEAR;
  }

  lemma SlotStaysAhead(e: Tick, t: Tick)
    requires t < e && (t + 1) % NEAR == 0
    requires Moved(t + 1) != Some(SlotOf(e, t))
    ensures SlotOf(e, t + 1) == SlotOf(e, t)
  {
    TopOf(e);
    var a, b := e / NEAR, t / NEAR;
    assert b < a && (t + 1) / NEAR == b + 1;
    LevelStays(0, a, b);
  }

  lemma FarAgain(e: Tick, t: Tick)
    requires t - e > HALF && t + 1 < WRAP
    ensures e / 0x400_0000 != (t + 1) / 0x400_0000
  {
  }

  lemma SlotStaysBehind(e: Tick, t: Tick)
    requires t - e > HALF
    requires Moved(Next(t)) != Some(SlotOf(e, t))
    ensures SlotOf(e, Next(t)) == SlotOf(e, t)
  {
    hide SlotOf;
    FarTick(e, t);
    if t + 1 == WRAP {
      hide LevelOf;
      assert e / 0x400_0000 != 0;
      FarTick(e, 0);
    } else {
      FarAgain(e, t);
      FarTick(e, t + 1);
    }
  }

  /** Lists that are not redistributed keep their timers. */
  lemma SlotStays(e: Tick, t: Tick)
    requires Ahead(e, t)
    requires Moved(Next(t)) != Some(SlotOf(e, t))
    ensures SlotOf(e, Next(t)) == SlotOf(e, t)
  {
    hide SlotOf, Moved;
    AheadCases(e, t);
    if t - e > HALF {
      SlotStaysBehind(e, t);
    } else if (t + 1) % NEAR != 0 {
      SlotStaysInBlock(e, t);
    } else {
      SlotStaysAhead(e, t);
    }
  }

  /** Only timers that expire now are in the list that is dispatched. */
  lemma NearNow(e: Tick, t: Tick)
    ensures SlotOf(e, t) == Near(t % NEAR) <==> e == t
  {
  }

  /** How high in the wheel a list is. */
  function Height(s: Slot): nat
    requires IsSlot(s)
  {
    if s.Near? then 0 else s.i + 1
  }

  lemma {:induction false} LevelGoesDown(i: nat, e: nat, t: nat)
    requires i <= 3 && t < e && Top(i, e) < LEVEL
    requires MovedFrom(i, t + 1) == LevelOf(i, e, t)
    ensures e == t + 1 || Height(LevelOf(i, e, t + 1)) < Height(LevelOf(i, e, t))
    decreases 3 - i
  {
    if i < 3 && (t + 1) % LEVEL == 0 {
      LevelGoesDown(i + 1, e / LEVEL, t / LEVEL);
    }
  }

  lemma TickGoesDown(e: Tick, t: Tick)
    requires t < e && (t + 1) % NEAR == 0
    requires Moved(t + 1) == Some(SlotOf(e, t))
    ensures Height(SlotOf(e, t + 1)) < Height(SlotOf(e, t))
  {
    TopOf(e);
    var a, b := e / NEAR, t / NEAR;
    assert b < a && (t + 1) / NEAR == b + 1;
    LevelGoesDown(0, a, b);
  }

  lemma NotMovedBehind(e: Tick, t: Tick)
    requires t - e > HALF
    ensures Moved(t) != Some(Level(3, e / 0x400_0000))
  {
    TopOf(t);
    FarMoved(0, t / NEAR);
  }

  lemma TickGoesRound(e: Tick, t: Tick)
    requires t - e > HALF
    requires Moved(Next(t)) == Some(SlotOf(e, t))
    ensures Height(SlotOf(e, Next(t))) < Height(SlotOf(e, t))
  {
    hide SlotOf, Moved, LevelOf;
    FarTick(e, t);
    if t + 1 == WRAP {
      MovedAtWrap();
      FirstBlock(e);
    } else {
      NotMovedBehind(e, Next(t));
    }
  }

  lemma MovedAtWrap()
    ensures Moved(0) == Some(Level(3, 0))
  {
  }

  lemma {:induction false} FarMoved(i: nat, t: nat)
    requires i <= 3 && Top(i, t) < LEVEL
    ensures MovedFrom(i, t).i == 3 ==> MovedFrom(i, t).j == Top(i, t)
    decreases 3 - i
  {
    if i < 3 { FarMoved(i + 1, t / LEVEL); }
  }

  /** After a wrap the first part of the highest level is filed below it. */
  lemma FirstBlock(e: Tick)
    requires e / 0x400_0000 == 0
    ensures Height(SlotOf(e, 0)) < 4
  {
    var a := e / NEAR;
    var b := a / LEVEL;
    var c := b / LEVEL;
    assert LevelOf(2, c, 0) == Level(2, c % LEVEL);
    assert LevelOf(0, a, 0) == Level(0, a % LEVEL) || LevelOf(0, a, 0) == LevelOf(1, b, 0);
  }

  /** A timer that is redistributed goes to a lower list, so that it is handled at most five times. */
  lemma MovedGoesDown(e: Tick, t: Tick)
    requires Ahead(e, t)
    requires Moved(Next(t)) == Some(SlotOf(e, t))
    ensures Height(SlotOf(e, Next(t))) < Height(SlotOf(e, t))
  {
    hide SlotOf, Height;
    AheadCases(e, t);
    if t < e {
      TickGoesDown(e, t);
    } else {
      TickGoesRound(e, t);
    }
  }
}
