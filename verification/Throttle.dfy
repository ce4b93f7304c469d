/** The throttled poll loop, on a clock. */
module Throttle {
  import opened Wrappers

  datatype ControlState = RUNNING | PAUSED | THROTTLED | DRAINING

  datatype Control = Control(state: ControlState, throttlePerSec: Option<real>)

  predicate ShouldPull(state: ControlState) {
    state == RUNNING || state == THROTTLED
  }

  datatype Config = Config(pollInterval: real, maxMessages: nat)

  type Duration = t: real | t >= 0.0 witness 0.0

  /** What one cycle of the loop meets: the control read, the messages waiting, and how long each
      await takes; `late` is what a sleep takes beyond its time. */
  datatype Cycle = Cycle(
    control: Control,
    waiting: nat,
    controlTime: Duration,
    receiveTime: Duration,
    workTime: Duration,
    late: Duration)

  /** A receive, with the messages it got; they are dispatched at `at`. */
  datatype Pull = Pull(cycle: nat, at: real, asked: nat, got: nat)

  /** The rate a throttle asks for: 1 if missing, zero or negative. */
  function Rate(c: Control): (r: real)
    ensures r > 0.0
  {
    if c.throttlePerSec.Some? && c.throttlePerSec.value > 0.0 then c.throttlePerSec.value else 1.0
  }

  function Asked(cfg: Config, c: Control): nat {
    if c.state == THROTTLED then 1 else cfg.maxMessages
  }

  /** pull.py, `_throttle_pace`: the sleep after a processed batch. */
  function Pace(c: Control): real {
    if c.state != THROTTLED then 0.0
    else
      var rate := if c.throttlePerSec.Some? && c.throttlePerSec.value != 0.0 then c.throttlePerSec.value else 1.0;
      if rate > 0.0 then 1.0 / rate else 1.0
  }

  lemma PaceIsOneOverRate(c: Control)
    requires c.state == THROTTLED
    ensures Pace(c) * Rate(c) == 1.0
  {
  }

  /** When the messages of a pulling cycle that starts at `now` are dispatched. */
  function DispatchTime(c: Cycle, now: real): real {
    now + c.controlTime + c.receiveTime
  }

  function Got(cfg: Config, c: Cycle): nat {
    Min(c.waiting, Asked(cfg, c.control))
  }

  /** When the cycle that starts at `now` is over. */
  function CycleEnd(cfg: Config, c: Cycle, now: real): real {
    if !ShouldPull(c.control.state) then now + c.controlTime + RealMax(cfg.pollInterval, 1.0) + c.late
    else if Got(cfg, c) > 0 then
      DispatchTime(c, now) + c.workTime + (if c.control.state == THROTTLED then Pace(c.control) + c.late else 0.0)
    else DispatchTime(c, now) + RealMax(cfg.pollInterval, 0.0) + c.late
  }

  /** The pull of one cycle, if it makes one. */
  function PullOf(cfg: Config, c: Cycle, k: nat, now: real): seq<Pull> {
    if ShouldPull(c.control.state) then [Pull(k, DispatchTime(c, now), Asked(cfg, c.control), Got(cfg, c))] else []
  }

  /** The pulls of the cycles from `i` on, the clock standing at `now`. */
  function Pulls(cfg: Config, cycles: seq<Cycle>, i: nat, now: real): seq<Pull>
    requires i <= |cycles|
    decreases |cycles| - i
  {
    if i == |cycles| then []
    else
      PullOf(cfg, cycles[i], i, now) + Pulls(cfg, cycles, i + 1, CycleEnd(cfg, cycles[i], now))
  }

  lemma NoMorePulls(cfg: Config, cycles: seq<Cycle>, now: real)
    ensures Pulls(cfg, cycles, |cycles|, now) == []
  {
  }

  /** Messages that the cycles from `i` to before `j` dispatched between `a` and `b`. */
  function Dispatched(pulls: seq<Pull>, i: nat, j: nat, a: real, b: real): nat {
    if pulls == [] then 0
    else
      var p := pulls[0];
      (if i <= p.cycle < j && a <= p.at <= b then p.got else 0) + Dispatched(pulls[1..], i, j, a, b)
  }

  /** What one cycle adds to that count. */
  function Here(cfg: Config, c: Cycle, k: nat, now: real, i: nat, j: nat, a: real, b: real): nat {
    if ShouldPull(c.control.state) && i <= k < j && a <= DispatchTime(c, now) <= b then Got(cfg, c) else 0
  }

  lemma OneMorePull(cfg: Config, cycles: seq<Cycle>, k: nat, now: real, earlier: seq<Pull>)
    requires k < |cycles|
    ensures earlier + Pulls(cfg, cycles, k, now)
         == (earlier + PullOf(cfg, cycles[k], k, now)) + Pulls(cfg, cycles, k + 1, CycleEnd(cfg, cycles[k], now))
  {
    hide CycleEnd;
    assert Pulls(cfg, cycles, k, now)
        == PullOf(cfg, cycles[k], k, now) + Pulls(cfg, cycles, k + 1, CycleEnd(cfg, cycles[k], now));
  }

  lemma OneCycle(cfg: Config, cycles: seq<Cycle>, k: nat, now: real, i: nat, j: nat, a: real, b: real)
    requires k < |cycles|
    ensures Dispatched(Pulls(cfg, cycles, k, now), i, j, a, b)
         == Here(cfg, cycles[k], k, now, i, j, a, b)
            + Dispatched(Pulls(cfg, cycles, k + 1, CycleEnd(cfg, cycles[k], now)), i, j, a, b)
  {
    var rest := Pulls(cfg, cycles, k + 1, CycleEnd(cfg, cycles[k], now));
    if ShouldPull(cycles[k].control.state) {
      assert Pulls(cfg, cycles, k, now)[1..] == rest;
    } else {
      assert Pulls(cfg, cycles, k, now) == rest;
    }
  }

  /** A receive belongs to a cycle that read running or throttled, and keeps within that cycle's limit. */
  predicate HeldBack(cfg: Config, cycles: seq<Cycle>, p: Pull) {
    && p.cycle < |cycles|
    && cycles[p.cycle].control.state != PAUSED && cycles[p.cycle].control.state != DRAINING
    && p.got <= p.asked
    && p.asked == if cycles[p.cycle].control.state == THROTTLED then 1 else cfg.maxMessages
  }

  /** A cycle that reads paused or draining receives nothing. */
  lemma {:induction false} NoReceiveWhenHeld(cfg: Config, cycles: seq<Cycle>, i: nat, now: real)
    requires i <= |cycles|
    ensures forall p | p in Pulls(cfg, cycles, i, now) :: HeldBack(cfg, cycles, p)
    decreases |cycles| - i
  {
    if i < |cycles| {
      NoReceiveWhenHeld(cfg, cycles, i + 1, CycleEnd(cfg, cycles[i], now));
    }
  }

  /** The cycles from `i` to before `j` are a stretch that reads throttled at rate `r`. */
  ghost predicate Stretch(cycles: seq<Cycle>, i: nat, j: nat, r: real) {
    && i <= j <= |cycles|
    && forall k | i <= k < j :: cycles[k].control.state == THROTTLED && Rate(cycles[k].control) == r
  }

  /** What a rate allows in a time. */
  function Quota(time: real, r: real): real {
    time * r
  }

  lemma QuotaAdds(x: real, y: real, r: real)
    ensures Quota(x + y, r) == Quota(x, r) + Quota(y, r)
  {
  }

  lemma QuotaGrows(x: real, y: real, r: real)
    requires r > 0.0 && x <= y
    ensures Quota(x, r) <= Quota(y, r)
    ensures x >= 0.0 ==> Quota(x, r) >= 0.0
  {
    assert (y - x) * r >= 0.0;
    QuotaAdds(x, y - x, r);
  }

  /** One cycle: at most one message, and then at least a pace before the next. */
  lemma StepBound(now: real, a: real, b: real, r: real, at: real, later: real, pace: real, here: nat, after: nat)
    requires r > 0.0 && Quota(pace, r) == 1.0 && RealMax(a, now) <= b && now <= at <= later
    requires here <= 1 && (here > 0 ==> a <= at <= b && at + pace <= later)
    requires if later > b then after == 0 else after as real <= Quota(b - RealMax(a, later), r) + 1.0
    ensures (here + after) as real <= Quota(b - RealMax(a, now), r) + 1.0
  {
    hide Quota;
    var left := b - RealMax(a, now);
    QuotaGrows(0.0, left, r);
    QuotaGrows(left, left, r);
    if later <= b {
      QuotaGrows(b - RealMax(a, later), left, r);
      if here > 0 {
        QuotaGrows(b - later, left - pace, r);
        QuotaAdds(left - pace, pace, r);
      }
    }
  }

  lemma CycleFacts(cfg: Config, c: Cycle, now: real)
    requires c.control.state == THROTTLED
    ensures now <= DispatchTime(c, now) <= CycleEnd(cfg, c, now) && Got(cfg, c) <= 1
    ensures Got(cfg, c) > 0 ==> DispatchTime(c, now) + Pace(c.control) <= CycleEnd(cfg, c, now)
    ensures Quota(Pace(c.control), Rate(c.control)) == 1.0 && Pace(c.control) > 0.0
  {
    PaceIsOneOverRate(c.control);
  }

  /** Past the stretch nothing counts. */
  lemma {:induction false} NothingPast(
    cfg: Config, cycles: seq<Cycle>, k: nat, now: real, i: nat, j: nat, a: real, b: real)
    requires j <= k <= |cycles|
    ensures Dispatched(Pulls(cfg, cycles, k, now), i, j, a, b) == 0
    decreases |cycles| - k
  {
    if k < |cycles| {
      OneCycle(cfg, cycles, k, now, i, j, a, b);
      NothingPast(cfg, cycles, k + 1, CycleEnd(cfg, cycles[k], now), i, j, a, b);
    }
  }

  /** Once the clock has passed the window nothing counts. */
  lemma {:induction false} NothingLate(
    cfg: Config, cycles: seq<Cycle>, k: nat, now: real, i: nat, j: nat, a: real, b: real, r: real)
    requires Stretch(cycles, i, j, r) && i <= k <= j && b < now
    ensures Dispatched(Pulls(cfg, cycles, k, now), i, j, a, b) == 0
    decreases j - k
  {
    hide Pulls, CycleEnd, Dispatched;
    if k < j {
      OneCycle(cfg, cycles, k, now, i, j, a, b);
      CycleFacts(cfg, cycles[k], now);
      NothingLate(cfg, cycles, k + 1, CycleEnd(cfg, cycles[k], now), i, j, a, b, r);
    } else {
      NothingPast(cfg, cycles, k, now, i, j, a, b);
    }
  }

  /** Inside the stretch, the rest of the window bounds what is still dispatched. */
  lemma {:induction false} BoundInside(
    cfg: Config, cycles: seq<Cycle>, k: nat, now: real, i: nat, j: nat, a: real, b: real, r: real)
    requires Stretch(cycles, i, j, r) && i <= k <= j && r > 0.0 && RealMax(a, now) <= b
    ensures Dispatched(Pulls(cfg, cycles, k, now), i, j, a, b) as real <= Quota(b - RealMax(a, now), r) + 1.0
    decreases j - k
  {
    hide Quota, Pulls, CycleEnd, Dispatched;
    if k == j {
      NothingPast(cfg, cycles, k, now, i, j, a, b);
      QuotaGrows(b - RealMax(a, now), b - RealMax(a, now), r);
    } else {
      var c := cycles[k];
      var later := CycleEnd(cfg, c, now);
      OneCycle(cfg, cycles, k, now, i, j, a, b);
      CycleFacts(cfg, c, now);
      if later > b {
        NothingLate(cfg, cycles, k + 1, later, i, j, a, b, r);
      } else {
        BoundInside(cfg, cycles, k + 1, later, i, j, a, b, r);
      }
      StepBound(now, a, b, r, DispatchTime(c, now), later, Pace(c.control),
                Here(cfg, c, k, now, i, j, a, b), Dispatched(Pulls(cfg, cycles, k + 1, later), i, j, a, b));
    }
  }

  /** Over any stretch of any run that reads throttled at rate r, the messages dispatched in any window of
      T seconds number at most T * r + 1, whatever the loop read before and after. */
  lemma {:induction false} ThrottleBound(
    cfg: Config, cycles: seq<Cycle>, k: nat, now: real, i: nat, j: nat, r: real, a: real, b: real)
    requires Stretch(cycles, i, j, r) && k <= i && r > 0.0 && a <= b
    ensures Dispatched(Pulls(cfg, cycles, k, now), i, j, a, b) as real <= Quota(b - a, r) + 1.0
    decreases i - k
  {
    hide Quota;
    if k < i {
      OneCycle(cfg, cycles, k, now, i, j, a, b);
      ThrottleBound(cfg, cycles, k + 1, CycleEnd(cfg, cycles[k], now), i, j, r, a, b);
    } else if b < now {
      NothingLate(cfg, cycles, k, now, i, j, a, b, r);
      QuotaGrows(b - a, b - a, r);
    } else {
      BoundInside(cfg, cycles, k, now, i, j, a, b, r);
      QuotaGrows(b - RealMax(a, now), b - a, r);
    }
  }

  /** Every throttled stretch of a run keeps within its rate, in every window. */
  ghost predicate Throttled(cycles: seq<Cycle>, pulls: seq<Pull>) {
    forall i: nat, j: nat, r, a, b | Stretch(cycles, i, j, r) && r > 0.0 && a <= b ::
      Dispatched(pulls, i, j, a, b) as real <= Quota(b - a, r) + 1.0
  }

  lemma PullsAreThrottled(cfg: Config, cycles: seq<Cycle>, start: real)
    ensures Throttled(cycles, Pulls(cfg, cycles, 0, start))
  {
    hide Quota, Dispatched, Stretch, Pulls;
    forall i: nat, j: nat, r, a, b | Stretch(cycles, i, j, r) && r > 0.0 && a <= b
      ensures Dispatched(Pulls(cfg, cycles, 0, start), i, j, a, b) as real <= Quota(b - a, r) + 1.0 {
      ThrottleBound(cfg, cycles, 0, start, i, j, r, a, b);
    }
  }

  /** How long one cycle takes: the control read, and then the nap of a held cycle, or a receive and either the
      work, followed in a throttled cycle by one pace, or the nap of an idle one. */
  ghost predicate Lasts(cfg: Config, c: Cycle, time: real) {
    var throttled := c.control.state == THROTTLED;
    var pace := if c.control.throttlePerSec.Some? && c.control.throttlePerSec.value > 0.0
                then 1.0 / c.control.throttlePerSec.value else 1.0;
    var got := Min(c.waiting, if throttled then 1 else cfg.maxMessages);
    time == c.controlTime + (
      if c.control.state in {PAUSED, DRAINING} then RealMax(cfg.pollInterval, 1.0) + c.late
      else if got == 0 then c.receiveTime + RealMax(cfg.pollInterval, 0.0) + c.late
      else c.receiveTime + c.workTime + (if throttled then pace + c.late else 0.0))
  }

  /** The clock at the start of each cycle, and at the end. */
  ghost predicate Clocked(cfg: Config, cycles: seq<Cycle>, start: real, clock: seq<real>) {
    && |clock| == |cycles| + 1 && clock[0] == start
    && forall k | 0 <= k < |cycles| :: Lasts(cfg, cycles[k], clock[k + 1] - clock[k])
  }

  /** The pull is that of its cycle: what was asked, what came, and when. */
  ghost predicate PullFits(cfg: Config, cycles: seq<Cycle>, clock: seq<real>, p: Pull)
    requires |clock| == |cycles| + 1
  {
    && p.cycle < |cycles|
    && var c := cycles[p.cycle];
       && c.control.state in {RUNNING, THROTTLED}
       && p.at == clock[p.cycle] + c.controlTime + c.receiveTime
       && p.asked == (if c.control.state == THROTTLED then 1 else cfg.maxMessages)
       && p.got == Min(c.waiting, p.asked)
  }

  ghost predicate HasPull(pulls: seq<Pull>, k: nat) {
    exists i | 0 <= i < |pulls| :: pulls[i].cycle == k
  }

  /** When a cycle starts; for their number, when the last one is over. */
  ghost function StartOf(cfg: Config, cycles: seq<Cycle>, start: real, k: nat): real
    requires k <= |cycles|
  {
    if k == 0 then start else CycleEnd(cfg, cycles[k - 1], StartOf(cfg, cycles, start, k - 1))
  }

  ghost function ClockOf(cfg: Config, cycles: seq<Cycle>, start: real): seq<real> {
    seq(|cycles| + 1, k requires 0 <= k <= |cycles| => StartOf(cfg, cycles, start, k))
  }

  lemma ClockIsClocked(cfg: Config, cycles: seq<Cycle>, start: real)
    ensures Clocked(cfg, cycles, start, ClockOf(cfg, cycles, start))
  {
    forall k | 0 <= k < |cycles|
      ensures Lasts(cfg, cycles[k], StartOf(cfg, cycles, start, k + 1) - StartOf(cfg, cycles, start, k)) {
      CycleLasts(cfg, cycles[k], StartOf(cfg, cycles, start, k));
    }
  }

  lemma CycleLasts(cfg: Config, c: Cycle, now: real)
    ensures Lasts(cfg, c, CycleEnd(cfg, c, now) - now)
  {
  }

  /** The pull of one cycle fits it. */
  lemma OnePullFits(cfg: Config, cycles: seq<Cycle>, k: nat, start: real)
    requires k < |cycles|
    ensures var here := PullOf(cfg, cycles[k], k, StartOf(cfg, cycles, start, k));
            && |here| == (if cycles[k].control.state in {RUNNING, THROTTLED} then 1 else 0)
            && forall p | p in here :: p.cycle == k && PullFits(cfg, cycles, ClockOf(cfg, cycles, start), p)
  {
  }

  /** One pull for each cycle that reads running or throttled, in order. */
  ghost predicate InOrder(cfg: Config, cycles: seq<Cycle>, clock: seq<real>, k: nat, pulls: seq<Pull>)
    requires |clock| == |cycles| + 1
  {
    && (forall i | 0 <= i < |pulls| :: k <= pulls[i].cycle && PullFits(cfg, cycles, clock, pulls[i]))
    && (forall i, j | 0 <= i < j < |pulls| :: pulls[i].cycle < pulls[j].cycle)
    && (forall c: nat | k <= c < |cycles| :: HasPull(pulls, c) <==> cycles[c].control.state in {RUNNING, THROTTLED})
  }

  lemma {:induction false} PullsInOrder(cfg: Config, cycles: seq<Cycle>, k: nat, start: real)
    requires k <= |cycles|
    ensures InOrder(cfg, cycles, ClockOf(cfg, cycles, start), k, Pulls(cfg, cycles, k, StartOf(cfg, cycles, start, k)))
    decreases |cycles| - k
  {
    if k < |cycles| {
      PullsInOrder(cfg, cycles, k + 1, start);
      OnePullFits(cfg, cycles, k, start);
      var now := StartOf(cfg, cycles, start, k);
      var later := StartOf(cfg, cycles, start, k + 1);
      OneMoreInOrder(cfg, cycles, ClockOf(cfg, cycles, start), k,
                     PullOf(cfg, cycles[k], k, now), Pulls(cfg, cycles, k + 1, later));
    }
  }

  lemma OneMoreInOrder(cfg: Config, cycles: seq<Cycle>, clock: seq<real>, k: nat, here: seq<Pull>, rest: seq<Pull>)
    requires |clock| == |cycles| + 1 && k < |cycles| && InOrder(cfg, cycles, clock, k + 1, rest)
    requires |here| == (if cycles[k].control.state in {RUNNING, THROTTLED} then 1 else 0)
    requires forall p | p in here :: p.cycle == k && PullFits(cfg, cycles, clock, p)
    ensures InOrder(cfg, cycles, clock, k, here + rest)
  {
    hide PullFits;
    var pulls := here + rest;
    assert forall i | |here| <= i < |pulls| :: pulls[i] == rest[i - |here|];
    forall c: nat | k <= c < |cycles|
      ensures HasPull(pulls, c) <==> cycles[c].control.state in {RUNNING, THROTTLED}
    {
      if c == k {
        if here != [] { assert pulls[0].cycle == k; }
      } else {
        assert HasPull(rest, c) ==> HasPull(pulls, c) by {
          if i :| 0 <= i < |rest| && rest[i].cycle == c { assert pulls[|here| + i].cycle == c; }
        }
      }
    }
  }

  /** sqs.py, `_poll_loop`, for as many cycles as the consumer runs. Each cycle that reads running or throttled
      makes exactly one pull, in order, and no other cycle makes any. */
  method PollLoop(cfg: Config, cycles: seq<Cycle>, start: real) returns (pulls: seq<Pull>, ghost clock: seq<real>)
    ensures Clocked(cfg, cycles, start, clock)
    ensures forall i | 0 <= i < |pulls| :: PullFits(cfg, cycles, clock, pulls[i])
    ensures forall i, j | 0 <= i < j < |pulls| :: pulls[i].cycle < pulls[j].cycle
    ensures forall k: nat | k < |cycles| :: HasPull(pulls, k) <==> cycles[k].control.state in {RUNNING, THROTTLED}
    ensures pulls == Pulls(cfg, cycles, 0, start)
    ensures Throttled(cycles, pulls)
  {
    hide Throttled, Pulls;
    pulls := [];
    var now := start;
    assert pulls + Pulls(cfg, cycles, 0, now) == Pulls(cfg, cycles, 0, start);
    for i := 0 to |cycles|
      invariant pulls + Pulls(cfg, cycles, i, now) == Pulls(cfg, cycles, 0, start)
    {
      var c := cycles[i];
      OneMorePull(cfg, cycles, i, now, pulls);
      ghost var (before, from) := (pulls, now);
      now := now + c.controlTime;
      if !ShouldPull(c.control.state) {
        now := now + RealMax(cfg.pollInterval, 1.0) + c.late;
        continue;
      }
      now := now + c.receiveTime;
      var got := Min(c.waiting, Asked(cfg, c.control));
      pulls := pulls + [Pull(i, now, Asked(cfg, c.control), got)];
      if got > 0 {
        now := now + c.workTime;
        if c.control.state == THROTTLED {
          now := now + Pace(c.control) + c.late;
        }
      } else {
        now := now + RealMax(cfg.pollInterval, 0.0) + c.late;
      }
      assert now == CycleEnd(cfg, c, from);
      assert pulls == before + PullOf(cfg, c, i, from);
    }
    assert pulls == Pulls(cfg, cycles, 0, start) by {
      NoMorePulls(cfg, cycles, now);
    }
    clock := ClockOf(cfg, cycles, start);
    ClockIsClocked(cfg, cycles, start);
    PullsInOrder(cfg, cycles, 0, start);
    PullsAreThrottled(cfg, cycles, start);
  }
}
