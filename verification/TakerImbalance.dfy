// engine/taker_imbalance.py: a pruned deque of classified trades and one remembered signal, against the
// full history of trades and queries.
module TakerImbalance {
  import opened Numeric

  datatype Config = Config(window: real, threshold: real, cooldown: real, minTrades: int) {
    // With no trades required an empty window divides by zero.
    predicate Valid() { minTrades >= 1 }
  }

  datatype Initiator = Buy | Sell

  datatype Trade = Trade(ts: real, who: Initiator)

  datatype Withdraw = WithdrawBid | WithdrawAsk

  datatype Signal = Signal(withdraw: Withdraw, ratio: real, expiresAt: real)

  datatype Detector = Detector(trades: seq<Trade>, last: Option<Signal>)

  // Trades at the midpoint are ambiguous.
  function Classify(price: int, mid: int, now: real): Option<Trade> {
    if price > mid then Some(Trade(now, Buy)) else if price < mid then Some(Trade(now, Sell)) else None
  }

  function Record(d: Detector, price: int, mid: int, now: real): Detector {
    match Classify(price, mid, now)
    case None => d
    case Some(t) => d.(trades := d.trades + [t])
  }

  function Prune(trades: seq<Trade>, cutoff: real): seq<Trade> {
    if trades != [] && trades[0].ts < cutoff then Prune(trades[1..], cutoff) else trades
  }

  function CountBy(trades: seq<Trade>, who: Initiator): nat {
    if trades == [] then 0
    else CountBy(trades[..|trades| - 1], who) + if trades[|trades| - 1].who == who then 1 else 0
  }

  function Imbalance(buys: nat, sells: nat): real
    requires buys + sells > 0
  {
    Abs(buys - sells) as real / (buys + sells) as real
  }

  // The signal these window trades raise on their own.
  function Breach(cfg: Config, window: seq<Trade>, now: real): Option<Signal>
    requires cfg.Valid()
  {
    var buys, sells := CountBy(window, Buy), CountBy(window, Sell);
    if buys + sells < cfg.minTrades || Imbalance(buys, sells) < cfg.threshold then None
    else Some(Signal(if buys > sells then WithdrawAsk else WithdrawBid, Imbalance(buys, sells), now + cfg.cooldown))
  }

  predicate Standing(s: Option<Signal>, now: real) { s.Some? && now < s.value.expiresAt }

  // A breach answers for itself; otherwise an earlier signal does while its cooldown runs.
  function Decide(breach: Option<Signal>, earlier: Option<Signal>, now: real): Option<Signal> {
    if breach.Some? then breach else if Standing(earlier, now) then earlier else None
  }

  // current_signal: the answer is what the detector remembers afterwards.
  function Ask(cfg: Config, d: Detector, now: real): Detector
    requires cfg.Valid()
  {
    var kept := Prune(d.trades, now - cfg.window);
    Detector(kept, Decide(Breach(cfg, kept, now), d.last, now))
  }

  class TakerImbalanceDetector {
    const cfg: Config
    var trades: seq<Trade>
    var lastSignal: Option<Signal>

    ghost function View(): Detector
      reads this
    {
      Detector(trades, lastSignal)
    }

    constructor (cfg: Config)
      ensures this.cfg == cfg && View() == Detector([], None)
    {
      this.cfg, trades, lastSignal := cfg, [], None;
    }

    method RecordTrade(price: int, mid: int, now: real)
      modifies this
      ensures View() == Record(old(View()), price, mid, now)
    {
      var who;
      if price > mid {
        who := Buy;
      } else if price < mid {
        who := Sell;
      } else {
        return;
      }
      trades := trades + [Trade(now, who)];
    }

    method PruneTrades(now: real)
      modifies this`trades
      ensures trades == Prune(old(trades), now - cfg.window)
    {
      var cutoff := now - cfg.window;
      while trades != [] && trades[0].ts < cutoff
        invariant Prune(trades, cutoff) == Prune(old(trades), cutoff)
        decreases |trades|
      {
        trades := trades[1..];
      }
    }

    method ComputeImbalance(now: real) returns (ratio: real, buys: nat, sells: nat)
      requires cfg.Valid()
      modifies this`trades
      ensures trades == Prune(old(trades), now - cfg.window)
      ensures buys == CountBy(trades, Buy) && sells == CountBy(trades, Sell)
      ensures ratio == if buys + sells < cfg.minTrades then 0.0 else Imbalance(buys, sells)
    {
      PruneTrades(now);
      buys, sells := 0, 0;
      for i := 0 to |trades|
        invariant buys == CountBy(trades[..i], Buy) && sells == CountBy(trades[..i], Sell)
      {
        assert trades[..i + 1][..i] == trades[..i];
        if trades[i].who == Buy {
          buys := buys + 1;
        } else {
          sells := sells + 1;
        }
      }
      assert trades[..|trades|] == trades;
      if buys + sells < cfg.minTrades {
        return 0.0, buys, sells;
      }
      return Imbalance(buys, sells), buys, sells;
    }

    method CurrentSignal(now: real) returns (s: Option<Signal>)
      requires cfg.Valid()
      modifies this
      ensures View() == Ask(cfg, old(View()), now) && s == View().last
    {
      var ratio, buys, sells := ComputeImbalance(now);
      if ratio >= cfg.threshold && buys + sells >= cfg.minTrades {
        var withdraw := if buys > sells then WithdrawAsk else WithdrawBid;
        lastSignal := Some(Signal(withdraw, ratio, now + cfg.cooldown));
        return lastSignal;
      }
      if lastSignal != None && now < lastSignal.value.expiresAt {
        return lastSignal;
      }
      lastSignal := None;
      return None;
    }

    method Reset()
      modifies this
      ensures View() == Detector([], None)
    {
      trades, lastSignal := [], None;
    }
  }

  function Swap(trades: seq<Trade>): seq<Trade> {
    seq(|trades|, i requires 0 <= i < |trades| => Trade(trades[i].ts, if trades[i].who.Buy? then Sell else Buy))
  }

  lemma {:induction false} SwapCounts(trades: seq<Trade>)
    ensures CountBy(Swap(trades), Buy) == CountBy(trades, Sell) && CountBy(Swap(trades), Sell) == CountBy(trades, Buy)
  {
    if trades != [] {
      SwapCounts(trades[..|trades| - 1]);
      assert Swap(trades)[..|trades| - 1] == Swap(trades[..|trades| - 1]);
    }
  }

  lemma ImbalanceSwaps(buys: nat, sells: nat)
    requires buys + sells > 0
    ensures Imbalance(buys, sells) == Imbalance(sells, buys) && 0.0 <= Imbalance(buys, sells) <= 1.0
  {
    RatioWithin(Abs(buys - sells), buys + sells);
  }

  // Buying flow and selling flow are treated alike: exchanging them exchanges the side withdrawn, at the same
  // ratio and expiry, except that a tie withdraws the bid both times. Buyers in the majority withdraw the ask.
  lemma SwappedFlowSwapsTheSide(cfg: Config, window: seq<Trade>, now: real)
    requires cfg.Valid()
    ensures var s, t := Breach(cfg, window, now), Breach(cfg, Swap(window), now);
            && s.Some? == t.Some?
            && (s.Some? ==> s.value.ratio == t.value.ratio && s.value.expiresAt == t.value.expiresAt
                            && 0.0 <= s.value.ratio <= 1.0)
            && (s.Some? && CountBy(window, Buy) > CountBy(window, Sell) ==>
                  s.value.withdraw.WithdrawAsk? && t.value.withdraw.WithdrawBid?)
            && (s.Some? && CountBy(window, Buy) == CountBy(window, Sell) ==>
                  s.value.withdraw.WithdrawBid? && t.value.withdraw.WithdrawBid?)
  {
    hide Imbalance;
    SwapCounts(window);
    var buys, sells := CountBy(window, Buy), CountBy(window, Sell);
    if buys + sells >= cfg.minTrades {
      ImbalanceSwaps(buys, sells);
    }
  }

  lemma RatioWithin(part: int, whole: int)
    requires 0 <= part <= whole && whole > 0
    ensures 0.0 <= part as real / whole as real <= 1.0
  {
  }

  // ---- The full history ------------------------------------------------------------------------------

  datatype Event = Traded(price: int, mid: int, now: real) | Asked(now: real)

  function After(cfg: Config, events: seq<Event>): Detector
    requires cfg.Valid()
  {
    if events == [] then Detector([], None)
    else
      var d := After(cfg, events[..|events| - 1]);
      match events[|events| - 1]
      case Traded(price, mid, now) => Record(d, price, mid, now)
      case Asked(now) => Ask(cfg, d, now)
  }

  predicate InTimeOrder(events: seq<Event>) { forall i, j :: 0 <= i < j < |events| ==> events[i].now <= events[j].now }

  // Every classified trade there ever was.
  function AllTrades(events: seq<Event>): seq<Trade> {
    if events == [] then []
    else
      var before := AllTrades(events[..|events| - 1]);
      match events[|events| - 1]
      case Asked(_) => before
      case Traded(price, mid, now) =>
        var t := Classify(price, mid, now);
        if t.None? then before else before + [t.value]
  }

  function Since(trades: seq<Trade>, cutoff: real): seq<Trade> {
    if trades == [] then []
    else
      var t := trades[|trades| - 1];
      Since(trades[..|trades| - 1], cutoff) + if t.ts >= cutoff then [t] else []
  }

  // The breach of the last query that breached, each query judged on the window over all trades before it.
  function LatestBreach(cfg: Config, events: seq<Event>): Option<Signal>
    requires cfg.Valid()
  {
    if events == [] then None
    else
      var before := events[..|events| - 1];
      match events[|events| - 1]
      case Traded(_, _, _) => LatestBreach(cfg, before)
      case Asked(now) =>
        var breach := Breach(cfg, Since(AllTrades(before), now - cfg.window), now);
        if breach.Some? then breach else LatestBreach(cfg, before)
  }

  // The trades above (or below) the mid of their moment, from the cutoff on, counted on the raw history.
  function Above(events: seq<Event>, cutoff: real): nat {
    if events == [] then 0
    else
      var e := events[|events| - 1];
      Above(events[..|events| - 1], cutoff) + if e.Traded? && e.price > e.mid && e.now >= cutoff then 1 else 0
  }

  function Below(events: seq<Event>, cutoff: real): nat {
    if events == [] then 0
    else
      var e := events[|events| - 1];
      Below(events[..|events| - 1], cutoff) + if e.Traded? && e.price < e.mid && e.now >= cutoff then 1 else 0
  }

  lemma {:induction false} CountsAreAboveAndBelow(events: seq<Event>, cutoff: real)
    ensures CountBy(Since(AllTrades(events), cutoff), Buy) == Above(events, cutoff)
    ensures CountBy(Since(AllTrades(events), cutoff), Sell) == Below(events, cutoff)
  {
    hide AllTrades, Since, CountBy;
    if events == [] {
      NothingCounts(cutoff);
    } else {
      var front, e := events[..|events| - 1], events[|events| - 1];
      CountsAreAboveAndBelow(front, cutoff);
      TradesNext(events);
      if e.Traded? && e.price != e.mid {
        SinceSnoc(AllTrades(front), Trade(e.now, if e.price > e.mid then Buy else Sell), cutoff);
      }
    }
  }

  lemma NothingCounts(cutoff: real)
    ensures CountBy(Since(AllTrades([]), cutoff), Buy) == 0 == CountBy(Since(AllTrades([]), cutoff), Sell)
  {
  }

  lemma TradesNext(events: seq<Event>)
    requires events != []
    ensures var before, e := AllTrades(events[..|events| - 1]), events[|events| - 1];
            AllTrades(events) == if e.Traded? && e.price != e.mid
                                 then before + [Trade(e.now, if e.price > e.mid then Buy else Sell)] else before
  {
  }

  lemma SinceSnoc(trades: seq<Trade>, t: Trade, cutoff: real)
    ensures var before := Since(trades, cutoff);
            && Since(trades + [t], cutoff) == (if t.ts >= cutoff then before + [t] else before)
            && forall who :: CountBy(before + [t], who) == CountBy(before, who) + if t.who == who then 1 else 0
  {
    var before := Since(trades, cutoff);
    assert (trades + [t])[..|trades|] == trades;
    assert (before + [t])[..|before|] == before;
  }

  // A query breaches exactly when there are enough trades off the mid in its window and those above and below it
  // differ by the threshold's share of them. It withdraws the ask when more are above, else the bid, and its
  // ratio is that share: 0 on balance, 1 on one-sided flow.
  lemma BreachExactly(cfg: Config, events: seq<Event>, now: real)
    requires cfg.Valid()
    ensures var up, down := Above(events, now - cfg.window), Below(events, now - cfg.window);
            var breach := Breach(cfg, Since(AllTrades(events), now - cfg.window), now);
            && (breach.Some? <==>
                  up + down >= cfg.minTrades && Abs(up - down) as real >= Share(cfg.threshold, up + down))
            && (breach.Some? ==>
                  && breach.value.withdraw == (if up > down then WithdrawAsk else WithdrawBid)
                  && Share(breach.value.ratio, up + down) == Abs(up - down) as real
                  && breach.value.expiresAt == now + cfg.cooldown)
  {
    var up, down := Above(events, now - cfg.window), Below(events, now - cfg.window);
    CountsAreAboveAndBelow(events, now - cfg.window);
    if up + down >= cfg.minTrades {
      ImbalanceIsShare(up, down, cfg.threshold);
    }
    hide Imbalance, Share, CountBy, Since;
  }

  function Share(ratio: real, n: int): real { ratio * n as real }

  lemma ImbalanceIsShare(up: nat, down: nat, threshold: real)
    requires up + down > 0
    ensures Share(Imbalance(up, down), up + down) == Abs(up - down) as real
    ensures Imbalance(up, down) >= threshold <==> Abs(up - down) as real >= Share(threshold, up + down)
  {
    var r, n := Imbalance(up, down), (up + down) as real;
    assert r * n == Abs(up - down) as real;
    hide Imbalance;
    if r < threshold {
      PositiveTimes(threshold - r, n);
    } else {
      NonNegativeTimes(r - threshold, n);
    }
  }

  lemma PositiveTimes(a: real, b: real)
    requires a > 0.0 && b > 0.0
    ensures a * b > 0.0
  {
  }

  lemma NonNegativeTimes(a: real, b: real)
    requires a >= 0.0 && b >= 0.0
    ensures a * b >= 0.0
  {
  }

  predicate Sorted(trades: seq<Trade>) { forall i, j :: 0 <= i < j < |trades| ==> trades[i].ts <= trades[j].ts }

  lemma {:induction false} SinceSkips(trades: seq<Trade>, k: nat, cutoff: real)
    requires k <= |trades| && forall i :: 0 <= i < k ==> trades[i].ts < cutoff
    ensures Since(trades, cutoff) == Since(trades[k..], cutoff)
    decreases |trades|
  {
    if k < |trades| {
      var front := trades[..|trades| - 1];
      SinceSkips(front, k, cutoff);
      assert trades[k..][..|trades| - k - 1] == front[k..];
    } else if k > 0 {
      var front := trades[..|trades| - 1];
      SinceSkips(front, k - 1, cutoff);
      assert trades[k..] == [] && front[k - 1..] == [];
    } else {
      assert trades[k..] == trades;
    }
  }

  lemma {:induction false} SinceKeepsAll(trades: seq<Trade>, cutoff: real)
    requires forall i :: 0 <= i < |trades| ==> trades[i].ts >= cutoff
    ensures Since(trades, cutoff) == trades
  {
    if trades != [] {
      SinceKeepsAll(trades[..|trades| - 1], cutoff);
      assert trades == trades[..|trades| - 1] + [trades[|trades| - 1]];
    }
  }

  lemma KeepsAllInOrder(trades: seq<Trade>, cutoff: real)
    requires Sorted(trades) && (trades == [] || trades[0].ts >= cutoff)
    ensures Prune(trades, cutoff) == trades[0..] == Since(trades, cutoff)
  {
    assert trades[0..] == trades;
    SinceKeepsAll(trades, cutoff);
  }

  // On trades in time order popping from the left is the window filter.
  lemma {:induction false} PruneIsSince(trades: seq<Trade>, cutoff: real) returns (k: nat)
    requires Sorted(trades)
    ensures k <= |trades| && Prune(trades, cutoff) == trades[k..] == Since(trades, cutoff)
    ensures forall i :: 0 <= i < k ==> trades[i].ts < cutoff
    decreases |trades|
  {
    if trades == [] || trades[0].ts >= cutoff {
      k := 0;
      KeepsAllInOrder(trades, cutoff);
    } else {
      var rest := trades[1..];
      var j := PruneIsSince(rest, cutoff);
      k := j + 1;
      assert rest[j..] == trades[k..];
      SinceSkips(trades, 1, cutoff);
      forall i | 0 <= i < k ensures trades[i].ts < cutoff {
        assert i > 0 ==> trades[i] == rest[i - 1];
      }
    }
  }

  // The same when the first j trades have been dropped already.
  lemma PruneOfSuffix(all: seq<Trade>, j: nat, cutoff: real) returns (k: nat)
    requires Sorted(all) && j <= |all| && forall i :: 0 <= i < j ==> all[i].ts < cutoff
    ensures k <= |all| && Prune(all[j..], cutoff) == all[k..] == Since(all, cutoff)
    ensures forall i :: 0 <= i < k ==> all[i].ts < cutoff
  {
    var rest := all[j..];
    SinceSkips(all, j, cutoff);
    var m := PruneIsSince(rest, cutoff);
    k := j + m;
    assert rest[m..] == all[k..];
    assert forall i :: j <= i < k ==> all[i] == rest[i - j];
  }

  lemma {:induction false} TradesInOrder(events: seq<Event>)
    requires InTimeOrder(events)
    ensures Sorted(AllTrades(events))
    ensures events != [] ==>
              forall i :: 0 <= i < |AllTrades(events)| ==> AllTrades(events)[i].ts <= events[|events| - 1].now
  {
    if events != [] {
      TradesInOrder(events[..|events| - 1]);
    }
  }

  // The deque is the end of the full history; what was dropped is out of every window still to come, and a
  // forgotten signal has expired for good.
  ghost predicate Refines(cfg: Config, events: seq<Event>, d: Detector, k: nat)
    requires cfg.Valid() && events != []
  {
    var all, now := AllTrades(events), events[|events| - 1].now;
    && k <= |all| && d.trades == all[k..]
    && (forall i :: 0 <= i < k ==> all[i].ts < now - cfg.window)
    && (if d.last.Some? then d.last == LatestBreach(cfg, events) else !Standing(LatestBreach(cfg, events), now))
  }

  lemma {:induction false} DetectorRefinesHistory(cfg: Config, events: seq<Event>) returns (k: nat)
    requires cfg.Valid() && events != [] && InTimeOrder(events)
    ensures Refines(cfg, events, After(cfg, events), k)
  {
    var front := events[..|events| - 1];
    var j := 0;
    if front != [] {
      j := DetectorRefinesHistory(cfg, front);
    }
    k := StepRefines(cfg, events, front, After(cfg, front), j);
  }

  lemma StepRefines(cfg: Config, events: seq<Event>, front: seq<Event>, d: Detector, j: nat) returns (k: nat)
    requires cfg.Valid() && events != [] && InTimeOrder(events) && front == events[..|events| - 1]
    requires d == After(cfg, front)
    requires if front == [] then d == Detector([], None) && j == 0 else Refines(cfg, front, d, j)
    ensures Refines(cfg, events, After(cfg, events), k)
  {
    if events[|events| - 1].Traded? {
      k := j;
      TradeRefines(cfg, events, front, d, j);
    } else {
      k := QueryRefines(cfg, events, front, d, j);
    }
  }

  lemma QueryRefines(cfg: Config, events: seq<Event>, front: seq<Event>, d: Detector, j: nat) returns (k: nat)
    requires cfg.Valid() && events != [] && InTimeOrder(events) && front == events[..|events| - 1]
    requires d == After(cfg, front) && events[|events| - 1].Asked?
    requires if front == [] then d == Detector([], None) && j == 0 else Refines(cfg, front, d, j)
    ensures Refines(cfg, events, After(cfg, events), k)
  {
    hide Breach, Decide, Since, Prune, Ask, Classify, Sorted;
    var all, now := AllTrades(front), events[|events| - 1].now;
    assert front != [] ==> front[|front| - 1].now <= now;
    assert j <= |all| && d.trades == all[j..];
    TradesInOrder(front);
    k := AskRefines(cfg, d, all, j, LatestBreach(cfg, front), now);
  }

  lemma TradeRefines(cfg: Config, events: seq<Event>, front: seq<Event>, d: Detector, j: nat)
    requires cfg.Valid() && events != [] && InTimeOrder(events) && front == events[..|events| - 1]
    requires d == After(cfg, front) && events[|events| - 1].Traded?
    requires if front == [] then d == Detector([], None) && j == 0 else Refines(cfg, front, d, j)
    ensures Refines(cfg, events, After(cfg, events), j)
  {
    var all := AllTrades(front);
    assert front != [] ==> front[|front| - 1].now <= events[|events| - 1].now;
    assert j <= |all| && d.trades == all[j..];
    var e := events[|events| - 1];
    var t := Classify(e.price, e.mid, e.now);
    assert LatestBreach(cfg, events) == LatestBreach(cfg, front);
    assert AllTrades(events) == if t.Some? then all + [t.value] else all;
    if t.Some? {
      assert (all + [t.value])[j..] == all[j..] + [t.value];
    }
  }

  lemma AskRefines(cfg: Config, d: Detector, all: seq<Trade>, j: nat, latest: Option<Signal>, now: real)
    returns (k: nat)
    requires cfg.Valid() && Sorted(all) && j <= |all| && d.trades == all[j..]
    requires forall i :: 0 <= i < j ==> all[i].ts < now - cfg.window
    requires d.last == latest || (d.last.None? && !Standing(latest, now))
    ensures k <= |all| && Ask(cfg, d, now).trades == all[k..]
    ensures forall i :: 0 <= i < k ==> all[i].ts < now - cfg.window
    ensures var breach := Breach(cfg, Since(all, now - cfg.window), now);
            var updated := if breach.Some? then breach else latest; var kept := Ask(cfg, d, now).last;
            if kept.Some? then kept == updated else !Standing(updated, now)
  {
    hide Breach, Decide, Since, Prune;
    k := PruneOfSuffix(all, j, now - cfg.window);
    DecideForgets(Breach(cfg, all[k..], now), d.last, latest, now);
  }

  // Remembering a signal only while it stands decides as remembering the latest one forever.
  lemma DecideForgets(breach: Option<Signal>, kept: Option<Signal>, latest: Option<Signal>, now: real)
    requires kept == latest || (kept.None? && !Standing(latest, now))
    ensures Decide(breach, kept, now) == Decide(breach, latest, now)
    ensures var d := Decide(breach, kept, now); var l := if breach.Some? then breach else latest;
            if d.Some? then d == l else !Standing(l, now)
  {
  }

  lemma AskedAfter(cfg: Config, events: seq<Event>, now: real)
    requires cfg.Valid()
    ensures After(cfg, events + [Asked(now)]) == Ask(cfg, After(cfg, events), now)
  {
    assert (events + [Asked(now)])[..|events|] == events;
  }

  lemma AskDecides(cfg: Config, d: Detector, all: seq<Trade>, j: nat, latest: Option<Signal>, now: real)
    requires cfg.Valid() && Sorted(all) && j <= |all| && d.trades == all[j..]
    requires forall i :: 0 <= i < j ==> all[i].ts < now - cfg.window
    requires d.last == latest || (d.last.None? && !Standing(latest, now))
    ensures Ask(cfg, d, now).last == Decide(Breach(cfg, Since(all, now - cfg.window), now), latest, now)
  {
    hide Breach, Decide, Since, Prune;
    var k := PruneOfSuffix(all, j, now - cfg.window);
    DecideForgets(Breach(cfg, all[k..], now), d.last, latest, now);
  }

  // Asked at any moment of a history in time order, the detector answers from the whole of it: the breach of
  // the window over all trades, else the latest earlier breach if its cooldown still runs, else nothing.
  lemma SignalIsLatestBreach(cfg: Config, events: seq<Event>, now: real)
    requires cfg.Valid() && InTimeOrder(events + [Asked(now)])
    ensures var answer := After(cfg, events + [Asked(now)]).last;
            var breach := Breach(cfg, Since(AllTrades(events), now - cfg.window), now);
            answer == Decide(breach, LatestBreach(cfg, events), now)
  {
    var all := AllTrades(events);
    var asked := events + [Asked(now)];
    assert forall i :: 0 <= i < |events| ==> asked[i] == events[i];
    AskedAfter(cfg, events, now);
    var j := 0;
    if events != [] {
      j := DetectorRefinesHistory(cfg, events);
      assert events[|events| - 1].now <= asked[|events|].now == now;
      TradesInOrder(events);
    } else {
      assert all[0..] == [];
    }
    AskDecides(cfg, After(cfg, events), all, j, LatestBreach(cfg, events), now);
  }

  // What query i of the history found in its own window.
  function BreachAt(cfg: Config, events: seq<Event>, i: nat): Option<Signal>
    requires cfg.Valid() && i < |events| && events[i].Asked?
  {
    Breach(cfg, Since(AllTrades(events[..i]), events[i].now - cfg.window), events[i].now)
  }

  // i is the last query that breached, and s its signal; or there is none.
  ghost predicate IsLastBreach(cfg: Config, events: seq<Event>, latest: Option<Signal>, i: int)
    requires cfg.Valid()
  {
    && (forall j :: Max(0, i + 1) <= j < |events| && events[j].Asked? ==> BreachAt(cfg, events, j).None?)
    && (latest.None? ==> i == -1)
    && (latest.Some? ==> 0 <= i < |events| && events[i].Asked? && BreachAt(cfg, events, i) == latest)
  }

  lemma {:induction false} LatestBreachIsLast(cfg: Config, events: seq<Event>) returns (i: int)
    requires cfg.Valid()
    ensures IsLastBreach(cfg, events, LatestBreach(cfg, events), i)
  {
    i := -1;
    if events != [] {
      var n := |events| - 1;
      i := LatestBreachIsLast(cfg, events[..n]);
      var own := if events[n].Asked? then BreachAt(cfg, events, n) else None;
      assert LatestBreach(cfg, events) == if own.Some? then own else LatestBreach(cfg, events[..n]);
      if own.Some? {
        i := n;
      } else {
        OneMoreQuiet(cfg, events, LatestBreach(cfg, events[..n]), i);
      }
    }
  }

  lemma OneMoreQuiet(cfg: Config, events: seq<Event>, latest: Option<Signal>, i: int)
    requires cfg.Valid() && events != [] && IsLastBreach(cfg, events[..|events| - 1], latest, i)
    requires events[|events| - 1].Asked? ==> BreachAt(cfg, events, |events| - 1).None?
    ensures IsLastBreach(cfg, events, latest, i)
  {
    hide BreachAt;
    var front := events[..|events| - 1];
    forall j: nat | j < |front| && events[j].Asked? ensures BreachAt(cfg, front, j) == BreachAt(cfg, events, j) {
      SameBreach(cfg, events, j);
    }
  }

  lemma SameBreach(cfg: Config, events: seq<Event>, j: nat)
    requires cfg.Valid() && events != [] && j < |events| - 1 && events[j].Asked?
    ensures BreachAt(cfg, events[..|events| - 1], j) == BreachAt(cfg, events, j)
  {
    assert events[..|events| - 1][..j] == events[..j];
  }

  // A query is answered with a signal exactly when it breaches itself or some query less than the cooldown ago
  // did; with no signal of its own, with the signal of the last query that did.
  lemma SignalLastsTheCooldown(cfg: Config, events: seq<Event>, now: real)
    requires cfg.Valid() && InTimeOrder(events + [Asked(now)])
    ensures var answer := After(cfg, events + [Asked(now)]).last;
            var own := Breach(cfg, Since(AllTrades(events), now - cfg.window), now);
            answer.Some? <==>
            || own.Some?
            || exists i :: 0 <= i < |events| && events[i].Asked? && BreachAt(cfg, events, i).Some?
                           && now < events[i].now + cfg.cooldown
  {
    hide Breach, Since, After, LatestBreach, BreachAt, AllTrades;
    SignalIsLatestBreach(cfg, events, now);
    var i := LatestBreachIsLast(cfg, events);
    assert forall j :: 0 <= j < |events| ==> (events + [Asked(now)])[j] == events[j];
    LastBreachStandsLongest(cfg, events, LatestBreach(cfg, events), i, now);
  }

  lemma LastBreachStandsLongest(cfg: Config, events: seq<Event>, latest: Option<Signal>, i: int, now: real)
    requires cfg.Valid() && InTimeOrder(events) && IsLastBreach(cfg, events, latest, i)
    ensures Standing(latest, now) <==>
            exists j :: 0 <= j < |events| && events[j].Asked? && BreachAt(cfg, events, j).Some?
                        && now < events[j].now + cfg.cooldown
  {
    hide BreachAt;
    forall j: nat | j < |events| && events[j].Asked? && BreachAt(cfg, events, j).Some?
      ensures BreachAt(cfg, events, j).value.expiresAt == events[j].now + cfg.cooldown
    {
      BreachExpires(cfg, events, j);
    }
  }

  lemma BreachExpires(cfg: Config, events: seq<Event>, j: nat)
    requires cfg.Valid() && j < |events| && events[j].Asked? && BreachAt(cfg, events, j).Some?
    ensures BreachAt(cfg, events, j).value.expiresAt == events[j].now + cfg.cooldown
  {
  }
}
