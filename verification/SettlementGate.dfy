// engine/settlement_gate.py: how close a USDA release is, and what that does to size and spread.
module SettlementGate {
  import opened Numeric

  // Times are seconds, with their fractions, on one clock.
  datatype UsdaEvent = UsdaEvent(name: string, release: real, series: string)

  datatype Config = Config(sizeDownStart: real, widenStart: real, pullBefore: real, postWindow: real,
                           widenSpreadMult: real)

  datatype GateState = NORMAL | SIZE_DOWN_75 | SIZE_DOWN_50 | SIZE_DOWN_25 | WIDENED | PULL_ALL

  datatype Spread = Finite(mult: real) | Infinite

  // The event the gate reports and the seconds to it; None stands for "none" and infinity.
  datatype Gate = Gate(state: GateState, size: real, spread: Spread, event: Option<UsdaEvent>, seconds: Option<real>)

  const H12 := 43200.0
  const H18 := 64800.0

  // ---- One event ---------------------------------------------------------------------------------------

  // The ladder of lines 266-333, for an event d seconds away.
  function Ladder(cfg: Config, d: real): (GateState, real, Spread) {
    if d < 0.0 && -d <= cfg.postWindow then (PULL_ALL, 0.0, Infinite)
    else if 0.0 <= d <= cfg.pullBefore then (PULL_ALL, 0.0, Infinite)
    else if cfg.pullBefore < d <= cfg.widenStart then (WIDENED, 0.25, Finite(cfg.widenSpreadMult))
    else if cfg.widenStart < d <= H12 then (SIZE_DOWN_25, 0.25, Finite(1.0))
    else if H12 < d <= H18 then (SIZE_DOWN_50, 0.5, Finite(1.0))
    else if H18 < d <= cfg.sizeDownStart then (SIZE_DOWN_75, 0.75, Finite(1.0))
    else (NORMAL, 1.0, Finite(1.0))
  }

  predicate Nearby(cfg: Config, d: real) { -cfg.postWindow <= d <= cfg.sizeDownStart }

  // What an event alone would do.
  function Alone(cfg: Config, d: real): (GateState, real, Spread) {
    if Nearby(cfg, d) then Ladder(cfg, d) else (NORMAL, 1.0, Finite(1.0))
  }

  // ---- The gate ----------------------------------------------------------------------------------------

  predicate Relevant(cfg: Config, series: string, now: real, e: UsdaEvent) {
    e.series == series && Nearby(cfg, e.release - now)
  }

  // The scan: the first of the nearest relevant events.
  function Nearest(cfg: Config, series: string, now: real, cal: seq<UsdaEvent>): Option<UsdaEvent> {
    if cal == [] then None
    else
      var best := Nearest(cfg, series, now, cal[..|cal| - 1]);
      var e := cal[|cal| - 1];
      if Relevant(cfg, series, now, e) && (best.None? || RAbs(e.release - now) < RAbs(best.value.release - now))
      then Some(e) else best
  }

  function NextEvent(series: string, now: real, cal: seq<UsdaEvent>): Option<UsdaEvent> {
    if cal == [] then None
    else if cal[0].series == series && cal[0].release > now then Some(cal[0])
    else NextEvent(series, now, cal[1..])
  }

  function GateAt(cfg: Config, series: string, now: real, cal: seq<UsdaEvent>): Gate {
    match Nearest(cfg, series, now, cal)
    case None =>
      var next := NextEvent(series, now, cal);
      Gate(NORMAL, 1.0, Finite(1.0), next, if next.None? then None else Some(next.value.release - now))
    case Some(e) =>
      var (state, size, spread) := Ladder(cfg, e.release - now);
      Gate(state, size, spread, Some(e), Some(e.release - now))
  }

  method NextUsdaEvent(series: string, now: real, cal: seq<UsdaEvent>) returns (r: Option<UsdaEvent>)
    ensures r == NextEvent(series, now, cal)
  {
    for i := 0 to |cal|
      invariant NextEvent(series, now, cal) == NextEvent(series, now, cal[i..])
    {
      assert cal[i..][1..] == cal[i + 1..];
      if cal[i].series == series && cal[i].release > now {
        return Some(cal[i]);
      }
    }
    return None;
  }

  // An empty calendar argument falls back to the static one.
  method ComputeGate(cfg: Config, series: string, now: real, calendar: seq<UsdaEvent>, fallback: seq<UsdaEvent>)
    returns (g: Gate)
    ensures g == GateAt(cfg, series, now, if calendar == [] then fallback else calendar)
  {
    var cal := if calendar == [] then fallback else calendar;
    var best: Option<UsdaEvent> := None;
    for i := 0 to |cal|
      invariant best == Nearest(cfg, series, now, cal[..i])
    {
      assert cal[..i + 1][..i] == cal[..i];
      var e := cal[i];
      if e.series == series {
        var delta := e.release - now;
        if -cfg.postWindow <= delta <= cfg.sizeDownStart {
          if best == None || RAbs(delta) < RAbs(best.value.release - now) {
            best := Some(e);
          }
        }
      }
    }
    assert cal[..|cal|] == cal;
    if best == None {
      var next := NextUsdaEvent(series, now, cal);
      return Gate(NORMAL, 1.0, Finite(1.0), next, if next == None then None else Some(next.value.release - now));
    }
    var (state, size, spread) := Ladder(cfg, best.value.release - now);
    return Gate(state, size, spread, best, Some(best.value.release - now));
  }

  // ---- Nearest means tightest --------------------------------------------------------------------------

  // The thresholds in the order the ladder assumes.
  predicate Ordered(cfg: Config) {
    0.0 <= cfg.postWindow && 0.0 <= cfg.pullBefore <= cfg.widenStart <= H12 && H18 <= cfg.sizeDownStart
    && cfg.widenSpreadMult >= 1.0
  }

  predicate NoWider(s: Spread, t: Spread) { t.Infinite? || (s.Finite? && s.mult <= t.mult) }

  // Gate g is at least as restrictive as the single-event gate a.
  predicate AtLeastAsTight(g: Gate, a: (GateState, real, Spread)) { g.size <= a.1 && NoWider(a.2, g.spread) }

  // The gate is the tightest of the single-event gates of the series, and is one of them (or NORMAL).
  predicate IsTightest(cfg: Config, series: string, now: real, cal: seq<UsdaEvent>) {
    var g := GateAt(cfg, series, now, cal);
    && (forall i :: 0 <= i < |cal| && cal[i].series == series ==> AtLeastAsTight(g, Alone(cfg, cal[i].release - now)))
    && (g.state.NORMAL? || exists i :: 0 <= i < |cal| && cal[i].series == series
                                       && (g.state, g.size, g.spread) == Alone(cfg, cal[i].release - now))
  }

  lemma {:induction false} NearestIsNearest(cfg: Config, series: string, now: real, cal: seq<UsdaEvent>)
    ensures match Nearest(cfg, series, now, cal)
            case None => forall i :: 0 <= i < |cal| ==> !Relevant(cfg, series, now, cal[i])
            case Some(e) =>
              && e in cal && Relevant(cfg, series, now, e)
              && forall i :: 0 <= i < |cal| && Relevant(cfg, series, now, cal[i]) ==>
                   RAbs(e.release - now) <= RAbs(cal[i].release - now)
  {
    if cal != [] {
      NearestIsNearest(cfg, series, now, cal[..|cal| - 1]);
    }
  }

  // Of equally near ones it is the first in the calendar.
  lemma {:induction false} NearestIsFirst(cfg: Config, series: string, now: real, cal: seq<UsdaEvent>) returns (k: nat)
    requires Nearest(cfg, series, now, cal).Some?
    ensures k < |cal| && Nearest(cfg, series, now, cal).value == cal[k]
    ensures forall i :: 0 <= i < k && Relevant(cfg, series, now, cal[i]) ==>
              RAbs(cal[k].release - now) < RAbs(cal[i].release - now)
  {
    var n := |cal| - 1;
    NearestIsNearest(cfg, series, now, cal[..n]);
    if Nearest(cfg, series, now, cal) == Nearest(cfg, series, now, cal[..n]) {
      k := NearestIsFirst(cfg, series, now, cal[..n]);
    } else {
      k := n;
      assert forall i :: 0 <= i < n ==> cal[..n][i] == cal[i];
    }
  }

  // With none nearby the event reported is the first of the series still to come.
  lemma {:induction false} NextEventIsFirst(series: string, now: real, cal: seq<UsdaEvent>, k: nat)
    requires k < |cal| && cal[k].series == series && cal[k].release > now
    requires forall i :: 0 <= i < k ==> cal[i].series != series || cal[i].release <= now
    ensures NextEvent(series, now, cal) == Some(cal[k])
  {
    if k > 0 {
      NextEventIsFirst(series, now, cal[1..], k - 1);
    }
  }

  // What the gate does at distance d from the event it reports, threshold by threshold.
  lemma GateAtDistance(cfg: Config, series: string, now: real, cal: seq<UsdaEvent>)
    requires Ordered(cfg)
    ensures var g := GateAt(cfg, series, now, cal);
            match Nearest(cfg, series, now, cal)
            case None =>
              && g.state.NORMAL? && g.size == 1.0 && g.spread == Finite(1.0)
              && forall i :: 0 <= i < |cal| && cal[i].series == series ==>
                   cal[i].release < now - cfg.postWindow || cal[i].release > now + cfg.sizeDownStart
            case Some(e) =>
              var d := e.release - now;
              && e in cal && e.series == series && -cfg.postWindow <= d <= cfg.sizeDownStart
              && g.event == Some(e) && g.seconds == Some(d)
              && (g.size == 0.0 <==> d <= cfg.pullBefore) && (g.size == 0.25 <==> cfg.pullBefore < d <= 43200.0)
              && (g.size == 0.5 <==> 43200.0 < d <= 64800.0) && (g.size == 0.75 <==> 64800.0 < d)
              && (g.state.PULL_ALL? <==> d <= cfg.pullBefore) && (g.spread.Infinite? <==> d <= cfg.pullBefore)
              && (g.state.WIDENED? <==> cfg.pullBefore < d <= cfg.widenStart)
              && (g.state.SIZE_DOWN_25? <==> cfg.widenStart < d <= 43200.0)
              && (cfg.pullBefore < d <= cfg.widenStart ==> g.spread == Finite(cfg.widenSpreadMult))
              && (cfg.widenStart < d ==> g.spread == Finite(1.0))
  {
    NearestIsNearest(cfg, series, now, cal);
  }

  // Just past one release while the next is nearer still but not yet within pull_before.
  predicate Masked(cfg: Config, series: string, now: real, cal: seq<UsdaEvent>) {
    var e := Nearest(cfg, series, now, cal);
    && e.Some? && e.value.release - now > cfg.pullBefore
    && exists i :: 0 <= i < |cal| && cal[i].series == series && -cfg.postWindow <= cal[i].release - now < 0.0
  }

  lemma LadderTightens(cfg: Config, d: real, e: real)
    requires Ordered(cfg) && 0.0 <= d <= e <= cfg.sizeDownStart
    ensures Ladder(cfg, d).1 <= Ladder(cfg, e).1 && NoWider(Ladder(cfg, e).2, Ladder(cfg, d).2)
  {
  }

  // The nearest event decides as the tightest would, except in exactly one situation: a release inside its
  // post window masked by a nearer one that is not yet pulling.
  lemma GateIsTightestUnlessMasked(cfg: Config, series: string, now: real, cal: seq<UsdaEvent>)
    requires Ordered(cfg)
    ensures IsTightest(cfg, series, now, cal) <==> !Masked(cfg, series, now, cal)
  {
    NearestIsNearest(cfg, series, now, cal);
    var g := GateAt(cfg, series, now, cal);
    match Nearest(cfg, series, now, cal)
    case None =>
    case Some(e) =>
      var d := e.release - now;
      var k :| 0 <= k < |cal| && cal[k] == e;
      assert (g.state, g.size, g.spread) == Alone(cfg, cal[k].release - now);
      if Masked(cfg, series, now, cal) {
        var i :| 0 <= i < |cal| && cal[i].series == series && -cfg.postWindow <= cal[i].release - now < 0.0;
        assert !AtLeastAsTight(g, Alone(cfg, cal[i].release - now));
      } else {
        forall i | 0 <= i < |cal| && cal[i].series == series
          ensures AtLeastAsTight(g, Alone(cfg, cal[i].release - now))
        {
          var f := cal[i].release - now;
          if Relevant(cfg, series, now, cal[i]) && 0.0 <= d && 0.0 <= f {
            LadderTightens(cfg, d, f);
          }
        }
      }
  }

  // With the default thresholds: 800 seconds past one release, still inside its post window, and 200 before
  // another, the gate only widens.
  lemma CloseReleasesMask()
    ensures var cfg := Config(86400.0, 21600.0, 60.0, 900.0, 2.0);
            var cal := [UsdaEvent("first", 0.0, "soy"), UsdaEvent("second", 1000.0, "soy")];
            && Ordered(cfg) && Masked(cfg, "soy", 800.0, cal) && GateAt(cfg, "soy", 800.0, cal).state.WIDENED?
            && Alone(cfg, cal[0].release - 800.0).0.PULL_ALL?
  {
    var cfg := Config(86400.0, 21600.0, 60.0, 900.0, 2.0);
    var cal := [UsdaEvent("first", 0.0, "soy"), UsdaEvent("second", 1000.0, "soy")];
    assert cal[..1][..0] == [] && cal[..1][0] == cal[0];
    assert Nearest(cfg, "soy", 800.0, cal[..1]) == Some(cal[0]);
    assert Nearest(cfg, "soy", 800.0, cal) == Some(cal[1]);
  }

  // Distinct releases of the series are more than two post windows apart.
  predicate Separated(cfg: Config, series: string, cal: seq<UsdaEvent>) {
    forall i, j :: 0 <= i < |cal| && 0 <= j < |cal| && cal[i].series == series && cal[j].series == series ==>
      Apart(cfg, cal[i].release, cal[j].release)
  }

  predicate Apart(cfg: Config, r: real, s: real) { r == s || RAbs(r - s) > 2.0 * cfg.postWindow }

  lemma SeparatedIsNeverMasked(cfg: Config, series: string, now: real, cal: seq<UsdaEvent>)
    requires Ordered(cfg) && Separated(cfg, series, cal)
    ensures !Masked(cfg, series, now, cal)
  {
    NearestIsNearest(cfg, series, now, cal);
  }

  predicate Pulls(cfg: Config, series: string, now: real, e: UsdaEvent) {
    e.series == series && e.release - cfg.pullBefore <= now <= e.release + cfg.postWindow
  }

  lemma PullsAlone(cfg: Config, series: string, now: real, e: UsdaEvent)
    requires Ordered(cfg) && e.series == series
    ensures Pulls(cfg, series, now, e) <==> Alone(cfg, e.release - now).1 == 0.0
    ensures Pulls(cfg, series, now, e) <==> Alone(cfg, e.release - now).0.PULL_ALL?
  {
  }

  lemma OnlyPullIsZero(cfg: Config, d: real)
    ensures Ladder(cfg, d).1 <= 0.0 <==> Ladder(cfg, d).0.PULL_ALL?
  {
  }

  // A calendar with that separation is never masked, so at every moment the gate is the tightest, and it
  // pulls exactly on the union of [release - pull_before, release + post_window].
  lemma SeparatedCalendarPullsExactly(cfg: Config, series: string, now: real, cal: seq<UsdaEvent>)
    requires Ordered(cfg) && Separated(cfg, series, cal)
    ensures IsTightest(cfg, series, now, cal)
    ensures GateAt(cfg, series, now, cal).state.PULL_ALL? <==>
            exists i :: 0 <= i < |cal| && Pulls(cfg, series, now, cal[i])
  {
    SeparatedIsNeverMasked(cfg, series, now, cal);
    GateIsTightestUnlessMasked(cfg, series, now, cal);
    var g := GateAt(cfg, series, now, cal);
    var e := Nearest(cfg, series, now, cal);
    if e.Some? {
      OnlyPullIsZero(cfg, e.value.release - now);
    }
    if i :| 0 <= i < |cal| && Pulls(cfg, series, now, cal[i]) {
      PullsAlone(cfg, series, now, cal[i]);
      assert AtLeastAsTight(g, Alone(cfg, cal[i].release - now));
    }
    if g.state.PULL_ALL? {
      var k :| 0 <= k < |cal| && cal[k].series == series
               && (g.state, g.size, g.spread) == Alone(cfg, cal[k].release - now);
      PullsAlone(cfg, series, now, cal[k]);
    }
  }
}
