/** The queue that replays host pen events on the guest clock: presses and releases are
    kept, movements collapse into the latest target, and the pen advances toward it by at
    most 16 pixels per axis and delivery. */
module PenQueue {
  import opened Words
  import opened Wrappers

  const STRIDE: nat := 16

  datatype Point = Point(x: nat, y: nat)

  datatype Event = Event(at: nat, spot: Point, down: bool, press: bool)

  /** A press or a release as the host posted it, without its time. */
  datatype Edge = Edge(spot: Point, down: bool, press: bool)

  /** One event as the guest got it, with the clock rate and the hold time then in force
      and the target the pen was heading for. */
  datatype Delivery = Delivery(event: Event, hz: nat, hold: nat, target: Point)

  predicate IsMotion(e: Event) {
    e.down && !e.press
  }

  function Max(a: nat, b: nat): nat {
    if a < b then b else a
  }

  function AtLeastOne(n: nat): nat {
    if n == 0 then 1 else n
  }

  /** A sixtieth of a second: the sampling interval, also the settling time before pen-up. */
  function Sample(hz: nat): nat {
    AtLeastOne(hz / 60)
  }

  /** The least time between two deliveries of a movement. */
  function Interval(hz: nat): nat {
    AtLeastOne(hz / 120)
  }

  // ------------------------------------------------------------ moving toward a target

  /** C division: truncation toward zero, for a positive divisor. */
  function Trunc(n: int, d: nat): int
    requires d > 0
  {
    if n >= 0 then n / d else -((-n) / d)
  }

  function Abs(n: int): nat {
    if n < 0 then -n else n
  }

  /** The distance on the farther axis. */
  function Distance(p: Point, t: Point): nat {
    Max(Abs(t.x - p.x), Abs(t.y - p.y))
  }

  function Along(from: nat, to: nat, distance: nat): int
    requires distance > 0
  {
    from + Trunc((to - from) * STRIDE, distance)
  }

  predicate Between(a: nat, m: int, b: nat) {
    a <= m <= b || b <= m <= a
  }

  /** `q` lies on the way from `p` to `t`, at most 16 pixels along each axis. */
  predicate OnTheWay(p: Point, q: Point, t: Point) {
    && Between(p.x, q.x, t.x) && Abs(q.x - p.x) <= 16
    && Between(p.y, q.y, t.y) && Abs(q.y - p.y) <= 16
  }

  /** One axis: never past the target, never farther than the stride, and what is left is
      within the overall distance less the stride. */
  lemma AxisAdvances(from: nat, to: nat, distance: nat)
    requires distance > STRIDE && Abs(to - from) <= distance
    ensures Between(from, Along(from, to, distance), to)
    ensures Abs(Along(from, to, distance) - from) <= STRIDE
    ensures Abs(to - Along(from, to, distance)) <= distance - STRIDE
    ensures Abs(to - from) == distance ==> Abs(to - Along(from, to, distance)) == distance - STRIDE
  {
    var a := Abs(to - from);
    ShareAdvances(a, distance);
    if to < from {
      assert -((to - from) * STRIDE) == a * STRIDE;
    }
  }

  lemma Scaled(a: nat, b: nat, c: nat)
    requires a <= b
    ensures a * c <= b * c
  {
  }

  lemma ShareAdvances(a: nat, distance: nat)
    requires distance > STRIDE && a <= distance
    ensures 0 <= a * STRIDE / distance <= a
    ensures a * STRIDE / distance <= STRIDE
    ensures a - a * STRIDE / distance <= distance - STRIDE
    ensures a == distance ==> a * STRIDE / distance == STRIDE
  {
    var q := a * STRIDE / distance;
    var r := a * STRIDE % distance;
    assert a * STRIDE == q * distance + r && 0 <= r < distance;
    ShareBounds(a, distance, q, r);
  }

  /** The bounds on a quotient from its defining equation. */
  lemma ShareBounds(a: nat, distance: nat, q: nat, r: nat)
    requires distance > STRIDE && a <= distance
    requires a * STRIDE == q * distance + r && r < distance
    ensures q <= a && q <= STRIDE && a - q <= distance - STRIDE
    ensures a == distance ==> q == STRIDE
  {
    assert (a + 1) * distance == a * distance + distance;
    if q > a {
      Scaled(a + 1, q, distance);
      Scaled(STRIDE, distance, a);
    }
    if q > STRIDE {
      Scaled(STRIDE + 1, q, distance);
    }
    Scaled(a, distance, distance - STRIDE);
    var left := a - q;
    var bound := distance - STRIDE;
    assert left * distance == a * distance - a * STRIDE + r;
    assert a * bound == a * distance - a * STRIDE;
    assert (bound + 1) * distance == distance * bound + distance;
    if left > bound {
      Scaled(bound + 1, left, distance);
    }
  }

  /** Where a movement toward `t` leaves a pen in contact at `p`. */
  function Toward(p: Point, t: Point): Point {
    var distance := Distance(p, t);
    if distance <= STRIDE then t
    else
      AxisAdvances(p.x, t.x, distance);
      AxisAdvances(p.y, t.y, distance);
      Point(Along(p.x, t.x, distance), Along(p.y, t.y, distance))
  }

  /** Truncation errs by less than the divisor, toward zero. */
  lemma TruncExact(n: int, d: nat)
    requires d > 0
    ensures Abs(Trunc(n, d) * d - n) < d && Abs(Trunc(n, d) * d) <= Abs(n)
  {
    var a := Abs(n);
    assert a == a / d * d + a % d;
    if n < 0 {
      assert Trunc(n, d) * d == -(a / d * d);
    }
  }

  /** Less than a pixel off the straight line to the target, on either axis. */
  predicate Straight(p: Point, q: Point, t: Point) {
    var distance := Distance(p, t);
    && Abs((q.x - p.x) * distance - (t.x - p.x) * 16) < distance
    && Abs((q.y - p.y) * distance - (t.y - p.y) * 16) < distance
  }

  /** A movement goes at most 16 pixels on each axis, never past the target and straight
      toward it, and brings the pen exactly 16 pixels closer until it arrives. */
  lemma TowardCloses(p: Point, t: Point)
    ensures OnTheWay(p, Toward(p, t), t)
    ensures Distance(p, t) > 16 ==> Straight(p, Toward(p, t), t)
    ensures Distance(Toward(p, t), t) == if Distance(p, t) <= STRIDE then 0 else Distance(p, t) - STRIDE
  {
    var distance := Distance(p, t);
    if distance > STRIDE {
      AxisAdvances(p.x, t.x, distance);
      AxisAdvances(p.y, t.y, distance);
      TruncExact((t.x - p.x) * STRIDE, distance);
      TruncExact((t.y - p.y) * STRIDE, distance);
    }
  }

  /** How many deliveries the movement to `t` takes from `p`. */
  function Hops(p: Point, t: Point): nat
    decreases Distance(p, t)
  {
    if Distance(p, t) <= STRIDE then 1
    else
      TowardCloses(p, t);
      1 + Hops(Toward(p, t), t)
  }

  /** A target at distance D takes max(1, ceil(D / 16)) deliveries. */
  lemma {:induction false} HopsExact(p: Point, t: Point)
    ensures Hops(p, t) == Max(1, (Distance(p, t) + STRIDE - 1) / STRIDE)
    decreases Distance(p, t)
  {
    if Distance(p, t) > STRIDE {
      TowardCloses(p, t);
      HopsExact(Toward(p, t), t);
    }
  }

  // ------------------------------------------------------------ what the guest has seen

  function ContactAt(log: seq<Delivery>): nat {
    if log == [] then 0
    else
      var d := log[|log| - 1];
      if d.event.press then d.event.at else ContactAt(log[..|log| - 1])
  }

  function SeenAt(log: seq<Delivery>): nat {
    if log == [] then 0 else log[|log| - 1].event.at
  }

  /** The point the guest last saw the pen touch. */
  function SeenSpot(log: seq<Delivery>): Point {
    if log == [] then Point(0, 0)
    else
      var d := log[|log| - 1];
      if d.event.down then d.event.spot else SeenSpot(log[..|log| - 1])
  }

  predicate Touching(log: seq<Delivery>) {
    log != [] && log[|log| - 1].event.down
  }

  /** What every delivery owes to those before it: a release comes after the hold time and
      the settling time, with the target reached; a movement in contact comes an interval
      after the last point and stays on the way. */
  predicate Fits(before: seq<Delivery>, d: Delivery) {
    && (!d.event.down ==>
          && d.event.at >= ContactAt(before) + d.hold
          && d.event.at >= SeenAt(before) + Sample(d.hz)
          && SeenSpot(before) == d.target)
    && (IsMotion(d.event) && Touching(before) ==>
          && d.event.at >= SeenAt(before) + Interval(d.hz)
          && d.event.spot == Toward(SeenSpot(before), d.target))
    && (d.event.down && !(IsMotion(d.event) && Touching(before)) ==> d.event.spot == d.target)
  }

  predicate Paced(log: seq<Delivery>) {
    forall k :: 0 <= k < |log| ==> Fits(log[..k], log[k])
  }

  lemma LogAppend(log: seq<Delivery>, d: Delivery)
    ensures ContactAt(log + [d]) == (if d.event.press then d.event.at else ContactAt(log))
    ensures SeenSpot(log + [d]) == (if d.event.down then d.event.spot else SeenSpot(log))
  {
    assert (log + [d])[..|log|] == log;
  }

  lemma PacedAppend(log: seq<Delivery>, d: Delivery)
    requires Paced(log) && Fits(log, d)
    ensures Paced(log + [d])
    ensures SeenSpot(log + [d]) == (if d.event.down then d.event.spot else SeenSpot(log))
  {
    LogAppend(log, d);
    var all := log + [d];
    assert all[..|log|] == log;
    forall k | 0 <= k < |all|
      ensures Fits(all[..k], all[k])
    {
      assert all[..k] == log[..k];
    }
  }

  /** What a due head shows fits what the guest has seen. */
  lemma DeliveryFits(log: seq<Delivery>, e: Event, d: Delivery, hold: nat)
    requires Earliest(e, d.event.at, d.hz, log, hold) <= d.event.at && d.hold == hold
    requires d.event.down == e.down && d.event.press == e.press
    requires d.target == if e.down then e.spot else SeenSpot(log)
    requires d.event.spot == if IsMotion(e) && Touching(log) then Toward(SeenSpot(log), e.spot) else e.spot
    ensures Fits(log, d)
  {
    hide ContactAt, SeenSpot, Toward;
  }

  lemma HopsStep(p: Point, t: Point)
    ensures Hops(p, t) >= 1
    ensures Hops(p, t) == 1 <==> Distance(p, t) <= STRIDE
    ensures Distance(p, t) <= STRIDE ==> Toward(p, t) == t
    ensures Distance(p, t) > STRIDE ==> Hops(Toward(p, t), t) == Hops(p, t) - 1
  {
  }

  /** In a paced log the pen never moves more than 16 pixels on an axis while in contact. */
  lemma NoJumps(log: seq<Delivery>, k: nat)
    requires Paced(log) && k < |log| && IsMotion(log[k].event) && Touching(log[..k])
    ensures OnTheWay(SeenSpot(log[..k]), log[k].event.spot, log[k].target)
  {
    assert Fits(log[..k], log[k]);
    TowardCloses(SeenSpot(log[..k]), log[k].target);
  }

  /** The presses and releases among the events. */
  function Edges(events: seq<Event>): seq<Edge> {
    if events == [] then []
    else
      var e := events[|events| - 1];
      Edges(events[..|events| - 1]) + (if IsMotion(e) then [] else [Edge(e.spot, e.down, e.press)])
  }

  function Shown(log: seq<Delivery>): seq<Edge> {
    if log == [] then []
    else
      var e := log[|log| - 1].event;
      Shown(log[..|log| - 1]) + (if IsMotion(e) then [] else [Edge(e.spot, e.down, e.press)])
  }

  lemma EdgesAppend(events: seq<Event>, e: Event)
    ensures Edges(events + [e]) == Edges(events) + (if IsMotion(e) then [] else [Edge(e.spot, e.down, e.press)])
  {
    assert (events + [e])[..|events|] == events;
  }

  lemma ShownAppend(log: seq<Delivery>, d: Delivery)
    ensures Shown(log + [d]) ==
            Shown(log) + (if IsMotion(d.event) then [] else [Edge(d.event.spot, d.event.down, d.event.press)])
  {
    assert (log + [d])[..|log|] == log;
  }

  /** Taking the head off the events takes its edge, if it is one, off the edges. */
  lemma {:induction false} EdgesPop(events: seq<Event>)
    requires events != []
    ensures Edges(events) ==
            (if IsMotion(events[0]) then [] else [Edge(events[0].spot, events[0].down, events[0].press)])
            + Edges(events[1..])
  {
    var last := |events| - 1;
    if last == 0 {
      assert events[..0] == [] && events[1..] == [];
    } else {
      EdgesPop(events[..last]);
      assert events[1..][..last - 1] == events[..last][1..];
    }
  }

  /** Changing the time of the head, or the target of a movement, touches no edge. */
  lemma {:induction false} EdgesUpdate(events: seq<Event>, k: nat, e: Event)
    requires k < |events| && e.down == events[k].down && e.press == events[k].press
    requires IsMotion(e) || e.spot == events[k].spot
    ensures Edges(events[k := e]) == Edges(events)
  {
    var last := |events| - 1;
    if k == last {
      assert events[k := e][..last] == events[..last];
    } else {
      EdgesUpdate(events[..last], k, e);
      assert events[k := e][..last] == events[..last][k := e];
    }
  }

  // ------------------------------------------------------------ when an event is due

  /** The signed difference of two 32-bit millisecond stamps. */
  function TickDelta(tick: Word, last: Word): int {
    var d := (tick - last) % 0x1_0000_0000;
    if d < 0x8000_0000 then d else d - 0x1_0000_0000
  }

  /** Time never runs backwards. */
  function Elapsed(delta: int): nat {
    if delta > 0 then delta else 0
  }

  /** Milliseconds as guest clocks. */
  function Clocks(delta: int, hz: nat): nat {
    Elapsed(delta) * hz / 1000
  }

  /** Stamps less than 2^31 ms apart give their distance, also across the wrap of the
      32-bit counter; a rate gives that many clocks a second, rounded down. */
  lemma TimesExact(last: Word, d: int, hz: nat)
    requires -0x8000_0000 <= d < 0x8000_0000
    ensures TickDelta((last + d) % 0x1_0000_0000, last) == d
    ensures d >= 0 ==> Clocks(d, hz) * 1000 <= d * hz < (Clocks(d, hz) + 1) * 1000
    ensures d < 0 ==> Clocks(d, hz) == 0
    ensures Sample(hz) == 1 || 60 * Sample(hz) <= hz
    ensures Interval(hz) == 1 || 120 * Interval(hz) <= hz
    ensures hz < 60 * (Sample(hz) + 1) && hz < 120 * (Interval(hz) + 1)
  {
    var q := (last + d) / 0x1_0000_0000;
    assert last + d == 0x1_0000_0000 * q + (last + d) % 0x1_0000_0000;
    if d >= 0 {
      ModUnique((last + d) % 0x1_0000_0000 - last, 0x1_0000_0000, -q, d);
    } else {
      ModUnique((last + d) % 0x1_0000_0000 - last, 0x1_0000_0000, -q - 1, d + 0x1_0000_0000);
    }
    var clocks := Elapsed(d) * hz;
    assert clocks >= 0;
    assert Clocks(d, hz) == clocks / 1000;
  }

  function Clamp(at: nat, now: nat, sample: nat): nat {
    if at < now then now else if at > now + sample then now + sample else at
  }

  /** The earliest time the head may be delivered. */
  function Earliest(e: Event, now: nat, hz: nat, log: seq<Delivery>, hold: nat): nat {
    if !e.down then Max(ContactAt(log) + hold, SeenAt(log) + Sample(hz))
    else if !e.press && Touching(log) then SeenAt(log) + Interval(hz)
    else now
  }

  predicate Due(queue: seq<Event>, now: nat, hz: nat, log: seq<Delivery>, hold: nat) {
    queue != [] && queue[0].at <= now && Earliest(queue[0], now, hz, log, hold) <= now
  }

  /** The target the pen heads for when the event at `k` of the queue is delivered: its own
      for a touch; for a release the one of the touch before it. */
  function Goal(queue: seq<Event>, k: nat, seen: Point): Point
    requires k < |queue|
  {
    if queue[k].down then queue[k].spot
    else if k == 0 then seen
    else Goal(queue, k - 1, seen)
  }

  lemma GoalLast(queue: seq<Event>, k: nat, seen: Point)
    requires k < |queue|
    ensures queue[k].down ==> Goal(queue, k, seen) == queue[k].spot
    ensures !queue[k].down ==> Goal(queue, k, seen) == if k == 0 then seen else Goal(queue, k - 1, seen)
  {
  }

  lemma {:induction false} GoalAppend(queue: seq<Event>, e: Event, k: nat, seen: Point)
    requires k < |queue|
    ensures Goal(queue + [e], k, seen) == Goal(queue, k, seen)
  {
    if !queue[k].down && k > 0 {
      GoalAppend(queue, e, k - 1, seen);
    }
  }

  lemma {:induction false} GoalPop(queue: seq<Event>, k: nat, seen: Point, seen': Point)
    requires 0 < k < |queue|
    requires seen' == Goal(queue, 0, seen)
    ensures Goal(queue[1..], k - 1, seen') == Goal(queue, k, seen)
  {
    if !queue[k].down && k > 1 {
      GoalPop(queue, k - 1, seen, seen');
    }
  }

  /** Moving the seen point matters only to releases no queued touch precedes. */
  lemma {:induction false} GoalSeen(queue: seq<Event>, k: nat, seen: Point, seen': Point)
    requires k < |queue| && queue[0].down
    ensures Goal(queue, k, seen) == Goal(queue, k, seen')
  {
    if !queue[k].down {
      GoalSeen(queue, k - 1, seen, seen');
    }
  }

  lemma {:induction false} GoalUpdate(queue: seq<Event>, j: nat, e: Event, k: nat, seen: Point)
    requires j < |queue| && k < |queue| && e.down == queue[j].down
    requires e.spot == queue[j].spot || k < j
    ensures Goal(queue[j := e], k, seen) == Goal(queue, k, seen)
  {
    if !queue[k].down && k > 0 {
      GoalUpdate(queue, j, e, k - 1, seen);
    }
  }

  ghost predicate Aimed(queue: seq<Event>, aims: seq<Point>, seen: Point) {
    |aims| == |queue| && forall k :: 0 <= k < |queue| ==> aims[k] == Goal(queue, k, seen)
  }

  lemma AimsPop(queue: seq<Event>, aims: seq<Point>, seen: Point, seen': Point)
    requires Aimed(queue, aims, seen) && queue != [] && seen' == aims[0]
    ensures Aimed(queue[1..], aims[1..], seen')
  {
    forall k | 0 <= k < |queue| - 1
      ensures aims[1..][k] == Goal(queue[1..], k, seen')
    {
      GoalPop(queue, k + 1, seen, seen');
    }
  }

  lemma AimsSame(queue: seq<Event>, aims: seq<Point>, e: Event, seen: Point)
    requires Aimed(queue, aims, seen) && queue != [] && e.down == queue[0].down && e.spot == queue[0].spot
    ensures Aimed(queue[0 := e], aims, seen)
  {
    forall k | 0 <= k < |queue|
      ensures aims[k] == Goal(queue[0 := e], k, seen)
    {
      GoalUpdate(queue, 0, e, k, seen);
    }
  }

  lemma AimsHead(queue: seq<Event>, aims: seq<Point>, e: Event, seen: Point, seen': Point)
    requires Aimed(queue, aims, seen) && queue != [] && queue[0].down && e.down && e.spot == queue[0].spot
    ensures Aimed(queue[0 := e], aims, seen')
  {
    AimsSame(queue, aims, e, seen);
    forall k | 0 <= k < |queue|
      ensures aims[k] == Goal(queue[0 := e], k, seen')
    {
      GoalSeen(queue[0 := e], k, seen, seen');
    }
  }

  /** Deliveries are paced, no edge is lost, merged or reordered, and the queue's aims are
      the targets its events name. */
  ghost predicate Consistent(queue: seq<Event>, aims: seq<Point>, aim: Point, log: seq<Delivery>, posted: seq<Edge>) {
    && Paced(log)
    && posted == Shown(log) + Edges(queue)
    && Aimed(queue, aims, SeenSpot(log))
    && aim == (if queue == [] then SeenSpot(log) else aims[|queue| - 1])
  }

  lemma HeadAim(queue: seq<Event>, aims: seq<Point>, aim: Point, log: seq<Delivery>, posted: seq<Edge>)
    requires Consistent(queue, aims, aim, log, posted) && queue != []
    ensures |aims| == |queue| && aims[0] == if queue[0].down then queue[0].spot else SeenSpot(log)
  {
    GoalLast(queue, 0, SeenSpot(log));
  }

  lemma ShowReached(queue: seq<Event>, aims: seq<Point>, aim: Point, log: seq<Delivery>, posted: seq<Edge>, d: Delivery)
    requires Consistent(queue, aims, aim, log, posted) && queue != [] && Fits(log, d)
    requires d.event.down == queue[0].down && d.event.press == queue[0].press
    requires d.event.spot == queue[0].spot
    ensures Consistent(queue[1..], aims[1..], aim, log + [d], posted)
  {
    hide Goal, Edges, Shown, ContactAt, SeenSpot, Paced, Fits;
    GoalLast(queue, 0, SeenSpot(log));
    PacedAppend(log, d);
    ShownAppend(log, d);
    EdgesPop(queue);
    AimsPop(queue, aims, SeenSpot(log), SeenSpot(log + [d]));
  }

  lemma ShowPart(queue: seq<Event>, aims: seq<Point>, aim: Point, log: seq<Delivery>, posted: seq<Edge>,
                 d: Delivery, at: nat)
    requires Consistent(queue, aims, aim, log, posted) && queue != [] && Fits(log, d)
    requires IsMotion(queue[0]) && IsMotion(d.event)
    ensures Consistent(queue[0 := queue[0].(at := at)], aims, aim, log + [d], posted)
  {
    hide Goal, Edges, Shown, ContactAt, SeenSpot, Paced, Fits;
    PacedAppend(log, d);
    ShownAppend(log, d);
    EdgesUpdate(queue, 0, queue[0].(at := at));
    AimsHead(queue, aims, queue[0].(at := at), SeenSpot(log), SeenSpot(log + [d]));
  }

  function Retargeted(queue: seq<Event>, now: nat, spot: Point): seq<Event>
    requires queue != []
  {
    var last := |queue| - 1;
    queue[last := Event(Max(queue[last].at, now), spot, true, false)]
  }

  class Pen {
    var queue: seq<Event>
    var pressSlot: nat
    var lastSlot: nat
    var lastTick: Word
    var clockStarted: bool
    var delivered: Point
    var deliveredAt: nat
    var contactAt: nat
    var minHold: nat
    var contact: bool

    /** Everything delivered so far. */
    ghost var log: seq<Delivery>
    /** The presses and releases posted since the queue was last cleared, after those then
        delivered. */
    ghost var posted: seq<Edge>
    /** Per queued event the latest touch posted when it was the newest event. */
    ghost var aims: seq<Point>
    /** The latest touch posted. */
    ghost var aim: Point

    ghost predicate Valid()
      reads this
    {
      && contactAt == ContactAt(log) && deliveredAt == SeenAt(log)
      && delivered == SeenSpot(log) && contact == Touching(log)
      && Consistent(queue, aims, aim, log, posted)
    }

    constructor ()
      ensures Valid() && queue == [] && log == [] && posted == []
    {
      queue, pressSlot, lastSlot, lastTick, clockStarted := [], 0, 0, 0, false;
      delivered, deliveredAt, contactAt, minHold, contact := Point(0, 0), 0, 0, 0, false;
      log, posted, aims, aim := [], [], [], Point(0, 0);
    }

    /** The time a new event gets before it is spaced from those queued: the host's spacing
        of the events, but not in the past and not more than a sample ahead. */
    ghost function Base(now: nat, hz: nat, tick: Word, press: bool): nat
      reads `queue, `lastSlot, `lastTick, `clockStarted
    {
      var elapsed := TickDelta(tick, lastTick);
      var at :=
        if press && queue == [] then now
        else if clockStarted then lastSlot + Clocks(elapsed, hz)
        else now;
      Clamp(at, now, Sample(hz))
    }

    /** The time an appended event gets: never before the newest event; a movement a sample
        after its press; a release the hold time after the last press posted, and a sample
        after the movement before it. */
    ghost function Slot(now: nat, hz: nat, hold: nat, tick: Word, press: bool, down: bool): nat
      reads this
    {
      var at := Base(now, hz, tick, press);
      if queue == [] then
        if down then at else Max(at, (if press then at else pressSlot) + hold)
      else
        var tail := queue[|queue| - 1];
        var kept := Max(at, tail.at);
        if down then
          if !press && tail.press then Max(kept, tail.at + Sample(hz)) else kept
        else
          var held := Max(kept, (if press then kept else pressSlot) + hold);
          if IsMotion(tail) then Max(held, tail.at + Sample(hz)) else held
    }

    /** The time of a new event by the host's spacing, moving the clock forward. */
    method Begin(now: nat, hz: nat, tick: Word, press: bool) returns (at: nat)
      modifies `lastTick, `clockStarted
      ensures at == old(Base(now, hz, tick, press)) && now <= at <= now + Sample(hz) && clockStarted
      ensures lastTick == if old(clockStarted) && TickDelta(tick, old(lastTick)) < 0 then old(lastTick) else tick
    {
      hide Clocks, TickDelta, Sample;
      var elapsed := TickDelta(tick, lastTick);
      at := if clockStarted then lastSlot + Clocks(elapsed, hz) else now;
      var sample := Sample(hz);
      if press && queue == [] { at := now; }
      if at < now { at := now; }
      if at > now + sample { at := now + sample; }
      if !clockStarted || elapsed >= 0 { lastTick := tick; }
      clockStarted := true;
    }

    /** Works out the time of a new event, keeping the clock and the last press. */
    method Schedule(now: nat, hz: nat, hold: nat, tick: Word, press: bool, down: bool) returns (at: nat)
      modifies `minHold, `lastTick, `clockStarted, `pressSlot
      ensures at == old(Slot(now, hz, hold, tick, press, down)) && at >= now
      ensures queue != [] ==> at >= queue[|queue| - 1].at
      ensures !down ==> at >= pressSlot + hold
      ensures minHold == hold && clockStarted
      ensures press && down ==> pressSlot == at
      ensures !press ==> pressSlot == old(pressSlot)
    {
      hide Base, Sample;
      minHold := hold;
      at := Begin(now, hz, tick, press);
      var sample := Sample(hz);
      var tail := if queue == [] then None else Some(queue[|queue| - 1]);
      if tail.Some? && at < tail.value.at { at := tail.value.at; }
      if press { pressSlot := at; }
      if down && !press && tail.Some? && tail.value.press && at < tail.value.at + sample {
        at := tail.value.at + sample;
      }
      if !down {
        if at < pressSlot + hold { at := pressSlot + hold; }
        if tail.Some? && IsMotion(tail.value) && at < tail.value.at + sample {
          at := tail.value.at + sample;
        }
      }
    }

    /** A press or release is always appended, and so is a movement unless the newest queued
        event is a movement: then only that one's target changes, and its time moves no
        later than now. */
    method Enqueue(now: nat, hz: nat, hold: nat, tick: Word, press: bool, down: bool, spot: Point)
      requires Valid()
      modifies this
      ensures Valid()
      ensures log == old(log) && minHold == hold
      ensures
        if down && !press && old(queue) != [] && IsMotion(old(queue[|queue| - 1])) then
          && queue == Retargeted(old(queue), now, spot)
          && posted == old(posted)
        else
          && queue == old(queue) + [Event(old(Slot(now, hz, hold, tick, press, down)), spot, down, press)]
          && posted == old(posted) + (if down && !press then [] else [Edge(spot, down, press)])
      ensures aim == if down then spot else old(aim)
      ensures queue != [] && lastSlot == queue[|queue| - 1].at && clockStarted
      ensures delivered == old(delivered) && contact == old(contact)
    {
      var at := Schedule(now, hz, hold, tick, press, down);
      if down && !press && queue != [] && IsMotion(queue[|queue| - 1]) {
        Retarget(now, spot);
        lastSlot := queue[|queue| - 1].at;
      } else {
        lastSlot := at;
        Append(Event(at, spot, down, press));
      }
    }

    method Retarget(now: nat, spot: Point)
      requires Valid() && queue != [] && IsMotion(queue[|queue| - 1])
      modifies `queue, `aims, `aim
      ensures Valid() && aim == spot
      ensures queue == Retargeted(old(queue), now, spot)
    {
      hide Edges, Goal;
      var last := |queue| - 1;
      var e := Event(Max(queue[last].at, now), spot, true, false);
      GoalLast(queue[last := e], last, delivered);
      EdgesUpdate(queue, last, e);
      forall k | 0 <= k < last
        ensures Goal(queue[last := e], k, delivered) == Goal(queue, k, delivered)
      {
        GoalUpdate(queue, last, e, k, delivered);
      }
      queue := queue[last := e];
      aims := aims[last := spot];
      aim := spot;
    }

    method Append(e: Event)
      requires Valid()
      modifies `queue, `aims, `aim, `posted
      ensures Valid() && queue == old(queue) + [e]
      ensures posted == old(posted) + (if IsMotion(e) then [] else [Edge(e.spot, e.down, e.press)])
      ensures aim == if e.down then e.spot else old(aim)
    {
      hide Edges, Goal;
      EdgesAppend(queue, e);
      GoalLast(queue + [e], |queue|, delivered);
      forall k | 0 <= k < |queue|
        ensures Goal(queue + [e], k, delivered) == Goal(queue, k, delivered)
      {
        GoalAppend(queue, e, k, delivered);
      }
      if e.down { aim := e.spot; }
      posted := posted + (if IsMotion(e) then [] else [Edge(e.spot, e.down, e.press)]);
      queue, aims := queue + [e], aims + [aim];
    }

    /** Delivers exactly when the head is due; otherwise only its time may move, to the
        earliest at which it will be. A release finds the pen on the latest touch posted
        before it. */
    method Deliver(now: nat, hz: nat) returns (out: Option<Event>)
      requires Valid()
      modifies this
      ensures Valid()
      ensures posted == old(posted) && aim == old(aim) && minHold == old(minHold)
      ensures out.Some? == old(Due(queue, now, hz, log, minHold))
      ensures out.None? ==> log == old(log) && queue == old(Deferred(now, hz))
      ensures out.Some? ==>
                && log == old(log) + [Delivery(out.value, hz, minHold, old(aims[0]))]
                && out.value.at == now
                && out.value.down == old(queue[0].down) && out.value.press == old(queue[0].press)
      ensures out.Some? && !out.value.down ==> delivered == old(delivered) == old(aims[0])
      ensures out.Some? && !IsMotion(out.value) ==>
                queue == old(queue[1..]) && out.value.spot == old(queue[0].spot)
      ensures out.Some? && IsMotion(out.value) && !old(contact) ==>
                queue == old(queue[1..]) && delivered == old(queue[0].spot)
      ensures out.Some? && IsMotion(out.value) && old(contact) ==>
                if old(Hops(delivered, queue[0].spot)) == 1 then
                  queue == old(queue[1..]) && delivered == old(queue[0].spot)
                else
                  && queue == old(queue[0 := queue[0].(at := now + Interval(hz))])
                  && Hops(delivered, queue[0].spot) == old(Hops(delivered, queue[0].spot)) - 1
    {
      hide Goal, Edges, Shown, ContactAt, SeenSpot, Hops, Paced, Fits, Toward;
      if queue == [] || queue[0].at > now { return None; }
      var e := queue[0];
      var earliest := Wait(now, hz);
      if earliest > now {
        SetHead(earliest);
        return None;
      }
      var shown := e.(at := now);
      var reached := true;
      GoalLast(queue, 0, delivered);
      HopsStep(delivered, e.spot);
      if e.down && !e.press && contact {
        shown := shown.(spot := Toward(delivered, e.spot));
        reached := Distance(delivered, e.spot) <= STRIDE;
      }
      Show(shown, hz, reached);
      out := Some(shown);
    }

    /** The earliest time for the head. */
    method Wait(now: nat, hz: nat) returns (earliest: nat)
      requires Valid() && queue != []
      ensures earliest == Earliest(queue[0], now, hz, log, minHold)
    {
      var e := queue[0];
      earliest := now;
      if !e.down {
        earliest := contactAt + minHold;
        if earliest < deliveredAt + Sample(hz) { earliest := deliveredAt + Sample(hz); }
      } else if !e.press && contact {
        earliest := deliveredAt + Interval(hz);
      }
    }

    method SetHead(at: nat)
      requires Valid() && queue != []
      modifies `queue
      ensures Valid() && queue == old(queue)[0 := old(queue)[0].(at := at)]
    {
      hide Goal, Edges;
      var later := queue[0].(at := at);
      EdgesUpdate(queue, 0, later);
      AimsSame(queue, aims, later, delivered);
      queue := queue[0 := later];
    }

    /** What the guest sees of the head at this time. */
    ghost function Sight(now: nat): Event
      requires queue != []
      reads this
    {
      var e := queue[0];
      Event(now, if IsMotion(e) && contact then Toward(delivered, e.spot) else e.spot, e.down, e.press)
    }

    /** Records that the guest saw `shown`; the head stays, an interval later, until reached. */
    method Show(shown: Event, hz: nat, reached: bool)
      requires Valid() && Due(queue, shown.at, hz, log, minHold) && shown == Sight(shown.at)
      requires !reached <==> IsMotion(queue[0]) && contact && Distance(delivered, queue[0].spot) > STRIDE
      modifies this
      ensures Valid()
      ensures posted == old(posted) && aim == old(aim) && minHold == old(minHold)
      ensures log == old(log) + [Delivery(shown, hz, minHold, old(aims[0]))]
      ensures delivered == (if shown.down then shown.spot else old(delivered))
      ensures queue == if reached then old(queue[1..]) else old(queue[0 := queue[0].(at := shown.at + Interval(hz))])
    {
      hide Consistent, ContactAt, SeenSpot, Fits, Toward, Hops, Distance, Sample, Interval;
      HeadAim(queue, aims, aim, log, posted);
      HopsStep(delivered, queue[0].spot);
      ghost var d := Delivery(shown, hz, minHold, aims[0]);
      DeliveryFits(log, queue[0], d, minHold);
      LogAppend(log, d);
      var later := queue[0].(at := shown.at + Interval(hz));
      if reached {
        ShowReached(queue, aims, aim, log, posted, d);
        queue, aims := queue[1..], aims[1..];
      } else {
        ShowPart(queue, aims, aim, log, posted, d, later.at);
        queue := queue[0 := later];
      }
      log := log + [d];
      if shown.press { contactAt := shown.at; }
      contact := shown.down;
      deliveredAt := shown.at;
      if shown.down { delivered := shown.spot; }
    }

    /** Dropping every queued event leaves the pen where the guest saw it. */
    method Clear()
      requires Valid()
      modifies `queue, `aims, `aim, `posted
      ensures Valid() && queue == [] && posted == Shown(log) && aim == delivered
    {
      queue, aims, aim := [], [], delivered;
      posted := Shown(log);
    }

    /** The queue after a refused delivery: a head whose time has come is put off to the
        earliest time it can be delivered. */
    ghost function Deferred(now: nat, hz: nat): seq<Event>
      reads this
    {
      if queue != [] && queue[0].at <= now then
        queue[0 := queue[0].(at := Earliest(queue[0], now, hz, log, minHold))]
      else queue
    }
  }
}
