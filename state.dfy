/** The per-node animation state (class State): a scale, a direction and the
    last settled checkpoint `prevScale`. `dir == 0` is Idle; otherwise the
    scale is moving from the checkpoint towards `prevScale + dir`. */
module StateMachine {
  import opened Config
  import opened ScaleUtil

  /** The three fields of a State object, as a value. */
  datatype StateValue = StateValue(scale: real, dir: real, prevScale: real)

  /** The outcome of one operation: the new state and whether the caller's
      callback was invoked. */
  datatype Step = Step(next: StateValue, fired: bool)

  /** A freshly created State: every field is 0. */
  const Initial := StateValue(0.0, 0.0, 0.0)

  /** The speed-blend arguments `update` passes: `lines * parts` and 1. */
  const SlowDivisor: real := (Lines * Parts) as real
  const FastDivisor: real := 1.0

  /** One timer tick of `update`: advance the scale and, once it has run more
      than a whole unit away from the checkpoint, settle. */
  function UpdateStep(s: StateValue): Step {
    var scale := s.scale + UpdateValue(s.scale, s.dir, SlowDivisor, FastDivisor);
    if Abs(scale - s.prevScale) > 1.0 then
      var settled := s.prevScale + s.dir;
      Step(StateValue(settled, 0.0, settled), true)
    else
      Step(s.(scale := scale), false)
  }

  /** `startUpdating`: only an Idle state starts, heading away from its
      checkpoint. */
  function StartStep(s: StateValue): Step {
    if s.dir == 0.0 then Step(s.(dir := 1.0 - 2.0 * s.prevScale), true)
    else Step(s, false)
  }

  /** What every state reachable from Initial satisfies. */
  predicate Inv(s: StateValue) {
    && (s.prevScale == 0.0 || s.prevScale == 1.0)
    && (s.dir == 0.0 ==> s.scale == s.prevScale)
    && (s.dir != 0.0 ==> s.dir == 1.0 - 2.0 * s.prevScale && 0.0 <= s.scale <= 1.0)
  }

  /** How much of the unit run from the checkpoint is still ahead. */
  function Distance(s: StateValue): real {
    1.0 - s.dir * (s.scale - s.prevScale)
  }

  /** Distance measured in the smallest tick, 1/240 of a unit. */
  function TicksLeft(s: StateValue): int {
    (Distance(s) * 240.0).Floor
  }

  /** `update` settles exactly when the stepped scale is more than a unit from
      the checkpoint; settling snaps to the next checkpoint and goes Idle,
      otherwise only the scale moves. */
  lemma UpdateCases(s: StateValue)
    ensures var t := UpdateStep(s);
      var stepped := s.scale + UpdateValue(s.scale, s.dir, SlowDivisor, FastDivisor);
      && (t.fired <==> Abs(stepped - s.prevScale) > 1.0)
      && (t.fired ==> t.next == StateValue(s.prevScale + s.dir, 0.0, s.prevScale + s.dir))
      && (!t.fired ==> t.next == StateValue(stepped, s.dir, s.prevScale))
    ensures s.dir == 0.0 && Abs(s.scale - s.prevScale) <= 1.0 ==> UpdateStep(s) == Step(s, false)
  {
  }

  /** Starting from Idle fires the callback and aims at the opposite
      extreme; while moving it does nothing. */
  lemma StartCases(s: StateValue)
    ensures s.dir == 0.0 ==> var t := StartStep(s);
      t.fired && t.next.scale == s.scale && t.next.prevScale == s.prevScale
      && t.next.dir == 1.0 - 2.0 * s.prevScale
    ensures s.dir != 0.0 ==> StartStep(s) == Step(s, false)
    ensures Inv(s) && s.dir == 0.0 ==> var t := StartStep(s);
      && t.next.dir != 0.0
      && t.next.prevScale + t.next.dir == 1.0 - s.prevScale
      && (s.prevScale == 0.0 ==> t.next.dir == 1.0)
      && (s.prevScale == 1.0 ==> t.next.dir == -1.0)
  {
  }

  /** While moving, one tick moves the scale in the direction `dir` by at
      least 1/240 and at most 1/20 of a unit. */
  lemma TickMagnitude(s: StateValue)
    requires Inv(s) && s.dir != 0.0
    ensures var v := UpdateValue(s.scale, s.dir, SlowDivisor, FastDivisor);
      1.0 / 240.0 <= s.dir * v <= 1.0 / 20.0
  {
    var k := ScaleFactor(s.scale);
    assert 0 <= k <= 1;
    var v := UpdateValue(s.scale, s.dir, SlowDivisor, FastDivisor);
    if s.scale < ScDiv {
      assert v == s.dir * ScGap / 12.0;
    } else {
      assert v == s.dir * ScGap;
    }
  }

  /** Dropping a non-negative real by at least 1 drops its floor by at least 1. */
  lemma FloorDrops(x: real, y: real)
    requires 0.0 <= y <= x - 1.0
    ensures 0 <= y.Floor < x.Floor
  {
  }

  /** A tick that does not settle a moving state keeps it moving the same way,
      inside [0, 1], with strictly fewer ticks left. */
  lemma TickAdvances(s: StateValue)
    requires Inv(s) && s.dir != 0.0 && !UpdateStep(s).fired
    ensures Inv(UpdateStep(s).next) && UpdateStep(s).next.dir == s.dir
    ensures 0 <= TicksLeft(UpdateStep(s).next) < TicksLeft(s)
  {
    var n := UpdateStep(s).next;
    var v := UpdateValue(s.scale, s.dir, SlowDivisor, FastDivisor);
    TickMagnitude(s);
    assert n == s.(scale := s.scale + v);
    if s.dir == 1.0 {
      assert Distance(n) == Distance(s) - v;
    } else {
      assert Distance(n) == Distance(s) + v;
    }
    assert 0.0 <= Distance(n) <= Distance(s) - 1.0 / 240.0;
    FloorDrops(Distance(s) * 240.0, Distance(n) * 240.0);
  }

  /** A tick keeps the invariant; a tick that does not settle keeps the
      direction and strictly shrinks the ticks left; an Idle state is left
      alone. */
  lemma UpdatePreservesInv(s: StateValue)
    requires Inv(s)
    ensures Inv(UpdateStep(s).next)
    ensures s.dir != 0.0 && !UpdateStep(s).fired ==>
      UpdateStep(s).next.dir == s.dir && 0 <= TicksLeft(UpdateStep(s).next) < TicksLeft(s)
    ensures s.dir == 0.0 ==> UpdateStep(s) == Step(s, false)
  {
    if s.dir != 0.0 && !UpdateStep(s).fired {
      TickAdvances(s);
    }
  }

  /** Starting keeps the invariant. */
  lemma StartPreservesInv(s: StateValue)
    requires Inv(s)
    ensures Inv(StartStep(s).next)
  {
  }

  /** Applies `k` ticks of `update`. */
  function Iterate(s: StateValue, k: nat): StateValue
    decreases k
  {
    if k == 0 then s else Iterate(UpdateStep(s).next, k - 1)
  }

  /** Number of ticks a state needs to come to rest: a moving state settles
      after at most 241 ticks, at the checkpoint `prevScale + dir`. */
  function TicksToSettle(s: StateValue): (k: nat)
    requires Inv(s)
    decreases if s.dir == 0.0 then 0 else TicksLeft(s) + 1
    ensures Inv(Iterate(s, k)) && Iterate(s, k).dir == 0.0
    ensures s.dir == 0.0 ==> k == 0
    ensures s.dir != 0.0 ==> 1 <= k <= TicksLeft(s) + 1 <= 241
    ensures s.dir != 0.0 ==> Iterate(s, k).prevScale == s.prevScale + s.dir
  {
    if s.dir == 0.0 then 0
    else
      TicksLeftBound(s);
      var t := UpdateStep(s);
      if t.fired then
        assert Iterate(s, 1) == t.next;
        1
      else
        TickAdvances(s);
        var k := TicksToSettle(t.next);
        assert Iterate(s, 1 + k) == Iterate(t.next, k);
        1 + k
  }

  /** A moving reachable state is at most 240 smallest ticks from settling. */
  lemma TicksLeftBound(s: StateValue)
    requires Inv(s) && s.dir != 0.0
    ensures 0 <= TicksLeft(s) <= 240
  {
    assert 0.0 <= Distance(s) <= 1.0;
  }

  /** Within one moving episode the callback of `update` fires exactly once:
      on the last of the TicksToSettle ticks and on no earlier one. */
  lemma {:induction false} SettleFiresOnce(s: StateValue, j: nat)
    requires Inv(s) && j < TicksToSettle(s)
    ensures UpdateStep(Iterate(s, j)).fired <==> j == TicksToSettle(s) - 1
    decreases j
  {
    var t := UpdateStep(s);
    if !t.fired {
      TickAdvances(s);
      assert TicksToSettle(s) == 1 + TicksToSettle(t.next);
      if j > 0 {
        SettleFiresOnce(t.next, j - 1);
      }
    }
  }

  /** The events that drive a State: a tap (`startUpdating`) or a timer tick
      (`update`). */
  datatype Event = Tap | Tick

  function Apply(s: StateValue, e: Event): StateValue {
    match e
    case Tap => StartStep(s).next
    case Tick => UpdateStep(s).next
  }

  function Run(s: StateValue, es: seq<Event>): StateValue
    decreases |es|
  {
    if es == [] then s else Run(Apply(s, es[0]), es[1..])
  }

  /** Any sequence of taps and ticks keeps the invariant. */
  lemma {:induction false} RunPreservesInv(s: StateValue, es: seq<Event>)
    requires Inv(s)
    ensures Inv(Run(s, es))
    decreases |es|
  {
    if es != [] {
      match es[0] {
        case Tap => StartPreservesInv(s);
        case Tick => UpdatePreservesInv(s);
      }
      RunPreservesInv(Apply(s, es[0]), es[1..]);
    }
  }

  /** From a fresh State, after any taps and ticks: the checkpoint is 0 or 1,
      the direction is -1, 0 or 1, an Idle state rests on its checkpoint, and
      a moving state settles after finitely many (at most 241) ticks. */
  lemma ReachableFromInitial(es: seq<Event>)
    ensures var r := Run(Initial, es);
      && (r.prevScale == 0.0 || r.prevScale == 1.0)
      && (r.dir == -1.0 || r.dir == 0.0 || r.dir == 1.0)
      && (r.dir == 0.0 ==> r.scale == r.prevScale)
      && exists k :: 0 <= k <= 241 && Iterate(r, k).dir == 0.0
  {
    RunPreservesInv(Initial, es);
    var r := Run(Initial, es);
    var k := TicksToSettle(r);
    assert Iterate(r, k).dir == 0.0;
  }

  /** A node's state object. Each method returns whether it invoked the
      callback it is given in the source. */
  class State {
    var scale: real
    var dir: real
    var prevScale: real

    function Value(): StateValue
      reads this
    {
      StateValue(scale, dir, prevScale)
    }

    constructor ()
      ensures Value() == Initial
    {
      scale, dir, prevScale := 0.0, 0.0, 0.0;
    }

    method Update() returns (fired: bool)
      modifies this
      ensures Value() == UpdateStep(old(Value())).next
      ensures fired == UpdateStep(old(Value())).fired
    {
      scale := scale + UpdateValue(scale, dir, SlowDivisor, FastDivisor);
      fired := false;
      if Abs(scale - prevScale) > 1.0 {
        scale := prevScale + dir;
        dir := 0.0;
        prevScale := scale;
        fired := true;
      }
    }

    method StartUpdating() returns (fired: bool)
      modifies this
      ensures Value() == StartStep(old(Value())).next
      ensures fired == StartStep(old(Value())).fired
    {
      fired := false;
      if dir == 0.0 {
        dir := 1.0 - 2.0 * prevScale;
        fired := true;
      }
    }
  }
}
