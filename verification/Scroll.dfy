/** The block list's scroll: pan, inertia and the bottom anchor, over real numbers. */
module Scroll {
  import opened Bytes

  function Abs(x: real): (r: real)
    ensures r >= 0.0
  {
    if x < 0.0 then 0.0 - x else x
  }

  function RMax(a: real, b: real): real {
    if a >= b then a else b
  }

  function RMin(a: real, b: real): real {
    if a <= b then a else b
  }

  const EPSILON: real := 1.0 / 4503599627370496.0
  const PIN_TOLERANCE_PT: real := 24.0
  const DECAY: real := 0.968
  const DECAY_INTERVAL: real := 0.008

  // ---- velocity ----

  datatype Sample = Sample(time: real, offsetY: real)

  /** Two-point velocity of the last two samples. */
  function Velocity(samples: seq<Sample>): real {
    if |samples| < 2 then 0.0
    else
      var prev, last := samples[|samples| - 2], samples[|samples| - 1];
      var dt := last.time - prev.time;
      if dt <= 0.0001 then 0.0 else (last.offsetY - prev.offsetY) / dt
  }

  function LastThree(samples: seq<Sample>): seq<Sample> {
    if |samples| > 3 then samples[|samples| - 3..] else samples
  }

  /** Three slots are enough: dropping older samples never changes the velocity. */
  lemma ThreeSlotsSuffice(history: seq<Sample>, next: Sample)
    ensures Velocity(LastThree(history)) == Velocity(history)
    ensures LastThree(LastThree(history) + [next]) == LastThree(history + [next])
  {
  }

  class VelocityEstimator {
    var samples: seq<Sample>
    /** Everything pushed since the last reset. */
    ghost var history: seq<Sample>

    ghost predicate Valid()
      reads this
    {
      samples == LastThree(history)
    }

    constructor ()
      ensures Valid() && history == []
    {
      samples, history := [], [];
    }

    method Push(sample: Sample)
      requires Valid()
      modifies this
      ensures Valid() && history == old(history) + [sample]
    {
      ThreeSlotsSuffice(history, sample);
      samples := samples + [sample];
      if |samples| > 3 {
        var drop := |samples| - 3;
        samples := samples[drop..];
      }
      history := history + [sample];
    }

    method Reset()
      modifies this
      ensures Valid() && history == []
    {
      samples, history := [], [];
    }

    function CurrentVelocity(): (v: real)
      requires Valid()
      reads this
      ensures v == Velocity(history)
    {
      ThreeSlotsSuffice(history, Sample(0.0, 0.0));
      Velocity(samples)
    }
  }

  // ---- decay ----

  /** `decay.powf(dt / decay_interval)` as a function of `dt`. */
  type Decay = real -> real

  /** What is used of the power: it shrinks, and over a whole interval by at least the decay itself. */
  ghost predicate Shrinks(f: Decay) {
    && (forall dt :: dt > 0.0 ==> 0.0 <= f(dt) <= 1.0)
    && (forall dt :: dt >= DECAY_INTERVAL ==> 0.0 <= f(dt) <= DECAY)
  }

  /** A plain value: the program copies it out of its option, steps the copy, and copies it back. */
  datatype Physics = Physics(velocity: real, lastTick: real)

  function Stepped(f: Decay, p: Physics, now: real): (Physics, real) {
    var dt := RMax(now - p.lastTick, 0.0);
    if dt <= 0.0 then (Physics(p.velocity, now), 0.0)
    else (Physics(p.velocity * f(dt), now), p.velocity * dt)
  }

  class ScrollPhysics {
    const decay: Decay
    var velocity: real
    var lastTick: real

    function State(): Physics
      reads this
    {
      Physics(velocity, lastTick)
    }

    constructor (decay: Decay, p: Physics)
      ensures State() == p && this.decay == decay
    {
      this.decay, velocity, lastTick := decay, p.velocity, p.lastTick;
    }

    method Step(now: real) returns (delta: real)
      modifies this
      ensures (State(), delta) == Stepped(decay, old(State()), now)
    {
      var dt := RMax(now - lastTick, 0.0);
      lastTick := now;
      if dt <= 0.0 { return 0.0; }
      delta := velocity * dt;
      velocity := velocity * decay(dt);
      assert State() == Stepped(decay, old(State()), now).0;
      assert delta == Stepped(decay, old(State()), now).1;
    }
  }

  // ---- the scroll state as a value ----

  datatype ScrollPosition = FollowsBottom | FixedAt(y: real)

  datatype ScrollState = ScrollState(
    offset: real, content: real, viewport: real, panStart: real, history: seq<Sample>,
    physics: Option<Physics>, position: ScrollPosition)

  function MaxOffset(s: ScrollState): (m: real)
    ensures m >= 0.0
  {
    RMax(s.content - s.viewport, 0.0)
  }

  function Clamped(s: ScrollState, raw: real): (c: real)
    ensures 0.0 <= c <= MaxOffset(s)
    ensures 0.0 <= raw <= MaxOffset(s) ==> c == raw
  {
    RMin(RMax(raw, 0.0), MaxOffset(s))
  }

  predicate AtBottomEdge(s: ScrollState) {
    s.offset >= MaxOffset(s) - PIN_TOLERANCE_PT
  }

  function Anchor(s: ScrollState): ScrollPosition {
    if AtBottomEdge(s) then FollowsBottom else FixedAt(s.offset)
  }

  function Apply(s: ScrollState, panActive: bool): ScrollState {
    if s.viewport <= 0.0 || panActive || s.physics.Some? then s
    else
      match s.position
      case FollowsBottom => s.(offset := MaxOffset(s))
      case FixedAt(y) => if Abs(s.offset - Clamped(s, y)) > 0.5 then s.(offset := Clamped(s, y)) else s
  }

  function BeginPan(s: ScrollState, now: real): ScrollState {
    s.(physics := None, panStart := s.offset, position := FixedAt(s.offset), history := [Sample(now, s.offset)])
  }

  function UpdatePan(s: ScrollState, translation: real, now: real): ScrollState {
    var moved := s.(offset := Clamped(s, s.panStart - translation));
    moved.(history := s.history + [Sample(now, moved.offset)], position := Anchor(moved))
  }

  function EndPan(s: ScrollState, now: real): ScrollState {
    var v := Velocity(s.history);
    if Abs(v) > 50.0 then s.(physics := Some(Physics(v, now)))
    else if AtBottomEdge(s) then s.(position := FollowsBottom)
    else s
  }

  function AdvanceMomentum(f: Decay, s: ScrollState, now: real): (ScrollState, bool) {
    if s.physics.None? then (s, true)
    else
      var (physics, delta) := Stepped(f, s.physics.value, now);
      var raw := s.offset + delta;
      var moved := s.(offset := Clamped(s, raw));
      if Abs(moved.offset - raw) > EPSILON || Abs(physics.velocity) < 1.0 then
        (moved.(physics := None, position := Anchor(moved)), true)
      else (moved.(physics := Some(physics)), false)
  }

  function AccessibilityScroll(s: ScrollState, down: bool): ScrollState {
    var step := s.viewport * 0.8;
    var moved := s.(offset := Clamped(s, if down then s.offset + step else s.offset - step));
    moved.(position := Anchor(moved))
  }

  // ---- momentum stops ----

  function Power(x: real, n: nat): real {
    if n == 0 then 1.0 else x * Power(x, n - 1)
  }

  /** Ticks until exhaustion or the end of `times`; was it exhausted? */
  function Coast(f: Decay, s: ScrollState, times: seq<real>): (ScrollState, bool)
    decreases |times|
  {
    if |times| == 0 then (s, false)
    else
      var (next, exhausted) := AdvanceMomentum(f, s, times[0]);
      if exhausted then (next, true) else Coast(f, next, times[1..])
  }

  /** After every tick the offset is in range. */
  predicate CoastsInRange(f: Decay, s: ScrollState, times: seq<real>)
    decreases |times|
  {
    |times| == 0 ||
    (var (next, exhausted) := AdvanceMomentum(f, s, times[0]);
     InRange(next) && (exhausted || CoastsInRange(f, next, times[1..])))
  }

  predicate InRange(s: ScrollState) {
    0.0 <= s.offset <= MaxOffset(s)
  }

  /** Ticks come at least 8 ms apart, counted from the last one. */
  predicate Spaced(last: real, times: seq<real>)
    decreases |times|
  {
    |times| == 0 || (times[0] - last >= DECAY_INTERVAL && Spaced(times[0], times[1..]))
  }

  lemma MulMonotone(a: real, b: real, c: real)
    requires a <= b && c >= 0.0
    ensures a * c <= b * c && c * a <= c * b
    ensures a < b && c > 0.0 ==> a * c < b * c && c * a < c * b
  {
    assert (b - a) * c >= 0.0;
    assert b * c - a * c == (b - a) * c;
  }

  lemma ProductShrinks(v: real, factor: real, top: real, bound: real)
    requires 0.0 <= factor <= top && Abs(v) <= bound
    ensures Abs(v * factor) <= top * bound
  {
    var w := Abs(v);
    MulMonotone(factor, top, w);
    MulMonotone(w, bound, top);
    var a, b, c := w * factor, w * top, bound * top;
    assert a <= b && b <= c;
    assert c == top * bound;
    if v < 0.0 {
      assert v * factor == 0.0 - a;
    } else {
      assert v * factor == a;
    }
    MulMonotone(0.0, factor, w);
    assert a >= 0.0;
  }

  /** One tick: the offset stays in range, and unless it was the last one the velocity shrank. */
  lemma TickShrinks(f: Decay, s: ScrollState, now: real, bound: real)
    requires Shrinks(f) && s.physics.Some? && now - s.physics.value.lastTick >= DECAY_INTERVAL
    requires Abs(s.physics.value.velocity) <= bound
    ensures var r := AdvanceMomentum(f, s, now);
            && InRange(r.0) && MaxOffset(r.0) == MaxOffset(s)
            && (r.1 ==> r.0.physics.None? && (r.0.position == FollowsBottom <==> AtBottomEdge(r.0))
                        && (r.0.position != FollowsBottom ==> r.0.position == FixedAt(r.0.offset)))
            && (!r.1 ==> r.0.physics.Some? && r.0.physics.value.lastTick == now
                         && 1.0 <= Abs(r.0.physics.value.velocity) <= DECAY * bound)
  {
    var p := s.physics.value;
    ProductShrinks(p.velocity, f(now - p.lastTick), DECAY, bound);
  }

  lemma Rotate(a: real, b: real, c: real)
    ensures (a * b) * c == b * (a * c)
  {
  }

  function Product(a: real, b: real): real {
    a * b
  }

  /** After `n` whole intervals a velocity of `v` is below one point per second. */
  predicate DecaysBelowOne(n: nat, v: real) {
    Product(Power(DECAY, n), v) < 1.0
  }

  lemma ProductStep(d: real, p: real, v: real)
    ensures Product(d * p, v) == Product(p, d * v) && Product(1.0, v) == v
  {
    Rotate(d, p, v);
  }

  lemma PowerStep(n: nat, v: real)
    ensures DecaysBelowOne(n + 1, v) <==> DecaysBelowOne(n, DECAY * v)
    ensures DecaysBelowOne(0, v) <==> v < 1.0
  {
    hide Product;
    var p := Power(DECAY, n);
    assert Power(DECAY, n + 1) == DECAY * p && Power(DECAY, 0) == 1.0;
    ProductStep(DECAY, p, v);
  }

  /** If the velocity decays below one point per second within `|times|` ticks, the momentum is exhausted by then. */
  lemma {:induction false} CoastingEnds(f: Decay, s: ScrollState, times: seq<real>, bound: real)
    requires Shrinks(f) && s.physics.Some? && |times| > 0 && Spaced(s.physics.value.lastTick, times)
    requires Abs(s.physics.value.velocity) <= bound && DecaysBelowOne(|times|, bound)
    ensures var r := Coast(f, s, times);
            && r.1 && r.0.physics.None? && CoastsInRange(f, s, times)
            && (r.0.position == FollowsBottom <==> AtBottomEdge(r.0))
    decreases |times|
  {
    TickShrinks(f, s, times[0], bound);
    var (next, exhausted) := AdvanceMomentum(f, s, times[0]);
    hide AdvanceMomentum, Shrinks, DecaysBelowOne;
    if !exhausted {
      PowerStep(|times| - 1, bound);
      PowerStep(0, DECAY * bound);
      assert |times[1..]| == |times| - 1;
      assert |times| > 1;
      CoastingEnds(f, next, times[1..], DECAY * bound);
    }
  }

  lemma {:induction false} PowersAdd(x: real, m: nat, n: nat)
    ensures Power(x, m + n) == Power(x, m) * Power(x, n)
  {
    if m > 0 { PowersAdd(x, m - 1, n); }
  }

  /** Twenty-two intervals halve the velocity. */
  lemma HalfLife()
    ensures 0.0 <= Power(DECAY, 22) <= 0.5
  {
    var p2, p4, p8, p16 := Power(DECAY, 2), Power(DECAY, 4), Power(DECAY, 8), Power(DECAY, 16);
    assert Power(DECAY, 1) == DECAY && Power(DECAY, 0) == 1.0;
    PowersAdd(DECAY, 1, 1);
    PowersAdd(DECAY, 2, 2);
    PowersAdd(DECAY, 4, 4);
    PowersAdd(DECAY, 8, 8);
    PowersAdd(DECAY, 4, 2);
    PowersAdd(DECAY, 16, 6);
    hide Power;
    Between(p2, p2, 0.93703);
    Between(p4, p4, 0.87803);
    Between(p8, p8, 0.77095);
    assert p16 == p8 * p8 && 0.0 <= p16 <= 0.59437;
    Between(p4, p2, 0.93703);
    assert Power(DECAY, 6) == p4 * p2 && 0.0 <= Power(DECAY, 6) <= 0.87803 * 0.93703;
    assert 0.0 <= p16 * Power(DECAY, 6) <= 0.59437 * (0.87803 * 0.93703);
  }

  lemma Between(a: real, b: real, top: real)
    requires 0.0 <= a && 0.0 <= b <= top
    ensures 0.0 <= a * b <= a * top
  {
    MulMonotone(b, top, a);
    MulMonotone(0.0, b, a);
  }

  lemma {:induction false} HalvedOften(k: nat)
    ensures 0.0 <= Power(DECAY, 22 * k) * Power(2.0, k) <= 1.0
  {
    if k == 0 {
      assert Power(DECAY, 0) == 1.0 && Power(2.0, 0) == 1.0;
    } else {
      HalvedOften(k - 1);
      HalfLife();
      PowersAdd(DECAY, 22, 22 * (k - 1));
      TwoStep(k - 1);
      Halve(Power(DECAY, 22), Power(DECAY, 22 * (k - 1)), Power(2.0, k - 1));
    }
  }

  lemma TwoStep(k: nat)
    ensures Power(2.0, k + 1) == 2.0 * Power(2.0, k)
  {
  }

  lemma Halve(a: real, b: real, c: real)
    requires 0.0 <= a <= 0.5 && 0.0 <= b * c <= 1.0
    ensures 0.0 <= (a * b) * (2.0 * c) <= 1.0
  {
    var d := b * c;
    var e := a * d;
    Rotate(b, a, c);
    assert (b * a) * c == e;
    assert (a * b) * (2.0 * c) == 2.0 * ((b * a) * c);
    MulMonotone(a, 0.5, d);
    MulMonotone(0.0, a, d);
    assert 0.0 <= e && e <= 0.5 * d;
  }

  /** MOMENTUM STOPS. From a velocity below `2^k` points per second, with ticks at least 8 ms apart, it is exhausted
    within `22 k` ticks; every tick leaves the offset in range; and the anchor then follows the bottom exactly when
    that is within 24 points. */
  lemma MomentumStops(f: Decay, s: ScrollState, times: seq<real>, k: nat)
    requires Shrinks(f) && s.physics.Some? && Spaced(s.physics.value.lastTick, times)
    requires Abs(s.physics.value.velocity) < Power(2.0, k) && |times| > 0 && |times| >= 22 * k
    ensures var first := times[..Max(22 * k, 1)]; var r := Coast(f, s, first);
            && r.1 && r.0.physics.None? && CoastsInRange(f, s, first)
            && (r.0.position == FollowsBottom <==> AtBottomEdge(r.0))
  {
    var n: nat := Max(22 * k, 1);
    var v := Abs(s.physics.value.velocity);
    SpacedPrefix(s.physics.value.lastTick, times, n);
    HalvesBelowOne(k, n, v);
    hide Power, Coast, CoastsInRange, Spaced, Shrinks, DecaysBelowOne;
    CoastingEnds(f, s, times[..n], v);
  }

  lemma HalvesBelowOne(k: nat, n: nat, v: real)
    requires n == Max(22 * k, 1) && 0.0 <= v < Power(2.0, k)
    ensures DecaysBelowOne(n, v)
  {
    if k == 0 {
      PowerStep(0, v);
      PowerStep(0, DECAY * v);
      assert Power(2.0, 0) == 1.0;
      assert DECAY * v <= v;
    } else {
      HalvedOften(k);
      PowerIsPositive(n);
      assert n == 22 * k;
      hide Product;
      Below(Power(DECAY, n), v, Power(2.0, k), 1.0);
    }
  }

  lemma Below(p: real, v: real, top: real, limit: real)
    requires p > 0.0 && v < top && p * top <= limit
    ensures Product(p, v) < limit
  {
    MulMonotone(v, top, p);
  }

  lemma {:induction false} PowerIsPositive(n: nat)
    ensures Power(DECAY, n) > 0.0
  {
    if n > 0 { PowerIsPositive(n - 1); }
  }

  lemma {:induction false} SpacedPrefix(last: real, times: seq<real>, n: nat)
    requires Spaced(last, times) && n <= |times|
    ensures Spaced(last, times[..n])
    decreases n
  {
    if n > 0 {
      SpacedPrefix(times[0], times[1..], n - 1);
      assert times[..n][1..] == times[1..][..n - 1];
    }
  }

  // ---- the other moves ----

  datatype Op =
    | Layout(content: real, viewport: real) | Begin(now: real) | Update(translation: real, now: real) | End(now: real)
    | Tick(now: real) | Settle(panActive: bool) | Page(down: bool)

  function Do(f: Decay, s: ScrollState, op: Op): ScrollState {
    match op
    case Layout(content, viewport) => s.(content := content, viewport := viewport)
    case Begin(now) => BeginPan(s, now)
    case Update(translation, now) => UpdatePan(s, translation, now)
    case End(now) => EndPan(s, now)
    case Tick(now) => AdvanceMomentum(f, s, now).0
    case Settle(panActive) => Apply(s, panActive)
    case Page(down) => AccessibilityScroll(s, down)
  }

  function DoAll(f: Decay, s: ScrollState, ops: seq<Op>): ScrollState
    decreases |ops|
  {
    if |ops| == 0 then s else DoAll(f, Do(f, s, ops[0]), ops[1..])
  }

  /** While the layout stands, no run of moves takes the offset out of range. */
  lemma {:induction false} MovesStayInRange(f: Decay, s: ScrollState, ops: seq<Op>)
    requires InRange(s) && forall i :: 0 <= i < |ops| ==> !ops[i].Layout?
    ensures InRange(DoAll(f, s, ops)) && MaxOffset(DoAll(f, s, ops)) == MaxOffset(s)
    decreases |ops|
  {
    if |ops| > 0 {
      assert !ops[0].Layout?;
      MovesStayInRange(f, Do(f, s, ops[0]), ops[1..]);
    }
  }

  /** After a layout change, settling at rest lands at the bottom if it is followed. A fixed anchor is restored only
    from more than half a point away, so the offset stays out of range exactly when it was, by no more than that. */
  lemma SettlingLandsNear(s: ScrollState)
    requires s.viewport > 0.0 && s.physics.None?
    ensures var r := Apply(s, false);
            match s.position
            case FollowsBottom => r.offset == MaxOffset(r)
            case FixedAt(y) =>
              && Abs(r.offset - Clamped(s, y)) <= 0.5
              && r.offset == (if Abs(s.offset - Clamped(s, y)) > 0.5 then Clamped(s, y) else s.offset)
              && (InRange(r) <==> Abs(s.offset - Clamped(s, y)) > 0.5 || InRange(s))
  {
  }

  /** A drag is memoryless: where it ends depends on where it began and on the last translation only. */
  lemma DragsAreMemoryless(s: ScrollState, before: real, t0: real, translation: real, t1: real)
    ensures UpdatePan(UpdatePan(s, before, t0), translation, t1).offset == UpdatePan(s, translation, t1).offset
    ensures UpdatePan(UpdatePan(s, before, t0), translation, t1).position == UpdatePan(s, translation, t1).position
  {
  }

  // ---- the object ----

  class BlockListScrollState {
    const decay: Decay
    const velocityEstimator: VelocityEstimator
    var contentOffsetY: real
    var contentHeight: real
    var viewportHeight: real
    var panStartOffsetY: real
    var scrollPhysics: Option<Physics>
    var scrollPosition: ScrollPosition

    ghost predicate Valid()
      reads this, velocityEstimator
    {
      velocityEstimator.Valid()
    }

    ghost function State(): ScrollState
      reads this, velocityEstimator
    {
      ScrollState(contentOffsetY, contentHeight, viewportHeight, panStartOffsetY, velocityEstimator.history,
                  scrollPhysics, scrollPosition)
    }

    constructor (decay: Decay)
      ensures Valid() && State() == ScrollState(0.0, 0.0, 0.0, 0.0, [], None, FollowsBottom) && this.decay == decay
      ensures fresh(velocityEstimator)
    {
      this.decay := decay;
      velocityEstimator := new VelocityEstimator();
      contentOffsetY, contentHeight, viewportHeight, panStartOffsetY := 0.0, 0.0, 0.0, 0.0;
      scrollPhysics, scrollPosition := None, FollowsBottom;
    }

    function MaxOffsetY(): (m: real)
      reads this
      ensures m >= 0.0
    {
      RMax(contentHeight - viewportHeight, 0.0)
    }

    function ClampOffset(raw: real): (r: (real, bool))
      reads this
      ensures 0.0 <= r.0 <= MaxOffsetY()
      ensures 0.0 <= raw <= MaxOffsetY() ==> r == (raw, false)
      ensures raw < 0.0 ==> r.0 == 0.0
      ensures raw > MaxOffsetY() ==> r.0 == MaxOffsetY()
      ensures r.1 <==> raw < -EPSILON || raw > MaxOffsetY() + EPSILON
    {
      var c := RMin(RMax(raw, 0.0), MaxOffsetY());
      (c, Abs(c - raw) > EPSILON)
    }

    predicate IsAtBottomEdge()
      reads this
    {
      contentOffsetY >= MaxOffsetY() - PIN_TOLERANCE_PT
    }

    method ApplyScrollPosition(panActive: bool)
      requires Valid()
      modifies this
      ensures Valid() && State() == Apply(old(State()), panActive)
    {
      if viewportHeight <= 0.0 || panActive || scrollPhysics.Some? { return; }
      var maxOff := MaxOffsetY();
      match scrollPosition {
        case FollowsBottom => contentOffsetY := maxOff;
        case FixedAt(anchor) =>
          var clamped := RMin(RMax(anchor, 0.0), maxOff);
          if Abs(contentOffsetY - clamped) > 0.5 { contentOffsetY := clamped; }
      }
    }

    method BeginPanning(now: real)
      requires Valid()
      modifies this, velocityEstimator
      ensures Valid() && State() == BeginPan(old(State()), now)
    {
      scrollPhysics := None;
      panStartOffsetY := contentOffsetY;
      scrollPosition := FixedAt(contentOffsetY);
      velocityEstimator.Reset();
      velocityEstimator.Push(Sample(now, contentOffsetY));
    }

    method UpdatePanning(translation: real, now: real)
      requires Valid()
      modifies this, velocityEstimator
      ensures Valid() && State() == UpdatePan(old(State()), translation, now)
    {
      var clamped := ClampOffset(panStartOffsetY - translation).0;
      contentOffsetY := clamped;
      velocityEstimator.Push(Sample(now, contentOffsetY));
      scrollPosition := if IsAtBottomEdge() then FollowsBottom else FixedAt(contentOffsetY);
    }

    method EndPanning(now: real)
      requires Valid()
      modifies this
      ensures Valid() && State() == EndPan(old(State()), now)
    {
      var v := velocityEstimator.CurrentVelocity();
      if Abs(v) > 50.0 {
        scrollPhysics := Some(Physics(v, now));
      } else if IsAtBottomEdge() {
        scrollPosition := FollowsBottom;
      }
    }

    method Advance(now: real) returns (exhausted: bool)
      requires Valid()
      modifies this
      ensures Valid() && (State(), exhausted) == AdvanceMomentum(decay, old(State()), now)
    {
      if scrollPhysics.None? { return true; }
      hide Stepped;
      var physics := new ScrollPhysics(decay, scrollPhysics.value);
      var delta := physics.Step(now);
      var (clamped, hitEdge) := ClampOffset(contentOffsetY + delta);
      contentOffsetY := clamped;
      if hitEdge || Abs(physics.velocity) < 1.0 {
        scrollPhysics := None;
        scrollPosition := if IsAtBottomEdge() then FollowsBottom else FixedAt(clamped);
        exhausted := true;
      } else {
        scrollPhysics := Some(physics.State());
        exhausted := false;
      }
    }

    method PageScroll(down: bool)
      requires Valid()
      modifies this
      ensures Valid() && State() == AccessibilityScroll(old(State()), down)
    {
      var step := viewportHeight * 0.8;
      contentOffsetY := ClampOffset(if down then contentOffsetY + step else contentOffsetY - step).0;
      scrollPosition := if IsAtBottomEdge() then FollowsBottom else FixedAt(contentOffsetY);
    }
  }
}
