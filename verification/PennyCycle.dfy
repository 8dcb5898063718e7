// mm-setup-main/kalshi_rewards_app.py, PennyBot._cycle: one sweep over a frozen snapshot that places
// bids as it goes, and many sweeps over a changing book.
module PennyCycle {
  import opened Numeric
  import opened Arbitrage

  datatype BotConfig = BotConfig(shareMaxPct: real, cooldownS: real, defendCooldownS: real, gapMin: int)

  // The price to bid on a row and whether that is a defence; None when the row is left alone.
  function Target(cfg: BotConfig, r: Row): Option<(int, bool)> {
    if r.blocked || r.bestBid.None? || r.bestAsk.None? then None
    else
      var bid := r.bestBid.value;
      var spread := r.bestAsk.value - bid;
      var jumped := r.myTop.Some? && bid > r.myTop.value;
      var farBelow := r.myTop.Some? && bid - r.myTop.value >= cfg.gapMin;
      var lowShare := r.sharePct < cfg.shareMaxPct && r.hasOrders;
      var defence := jumped || farBelow || lowShare;
      var bump := if spread <= 1 then 0 else Max(1, spread / 8);
      if !defence && r.myTop.Some? then None
      else if bid + bump >= r.bestAsk.value then None
      else if r.myTop.Some? && r.myTop.value >= bid + bump then None
      else Some((bid + bump, defence))
  }

  // The largest whole step within an eighth of the spread, but at least a cent; none on a spread of at most one.
  predicate IsBump(spread: int, k: int) {
    if spread <= 1 then k == 0 else k >= 1 && (k == 1 || 8 * k <= spread) && 8 * (k + 1) > spread
  }

  // A row with both best prices is acted on exactly when we have no bid there, are outbid, or hold a low share
  // with orders, and one step above the best bid stays below the best ask and beats our own top. That is the
  // bid, and it is a defence exactly when we are outbid or low on share.
  lemma TargetsExactly(cfg: BotConfig, r: Row, k: int)
    requires cfg.gapMin >= 1
    requires r.bestBid.Some? && r.bestAsk.Some? ==> IsBump(r.bestAsk.value - r.bestBid.value, k)
    ensures var outbid := r.bestBid.Some? && r.myTop.Some? && r.bestBid.value > r.myTop.value;
            var low := r.hasOrders && r.sharePct < cfg.shareMaxPct;
            Target(cfg, r) ==
            if !r.blocked && r.bestBid.Some? && r.bestAsk.Some? && (r.myTop.None? || outbid || low)
               && r.bestBid.value + k < r.bestAsk.value
               && (r.myTop.Some? ==> r.myTop.value < r.bestBid.value + k)
            then Some((r.bestBid.value + k, outbid || low)) else None
  {
  }

  // What becomes of an order that is sent. Lost: it is live, although the answer was an error, as when a post
  // is repeated after a timeout and refused as a duplicate. Raised: the post raised and the sweep ends there.
  datatype Answer = Accepted | Refused | Lost | Raised(live: bool)

  // A bid the sweep made live, and whether the program knows.
  datatype Posted = Posted(bid: Bid, seen: bool)

  datatype CycleState = CycleState(cooldown: map<Key, real>, pending: seq<Bid>, posted: seq<Posted>, raised: bool)

  function LastAttempt(cooldown: map<Key, real>, k: Key): real { if k in cooldown then cooldown[k] else 0.0 }

  function Send(s: CycleState, key: Key, now: real, bid: Bid, a: Answer): CycleState {
    var t := s.(cooldown := s.cooldown[key := now]);
    match a
    case Accepted => t.(pending := s.pending + [bid], posted := s.posted + [Posted(bid, true)])
    case Refused => t
    case Lost => t.(posted := s.posted + [Posted(bid, false)])
    case Raised(live) => t.(posted := if live then s.posted + [Posted(bid, false)] else s.posted, raised := true)
  }

  // One row of the sweep; `answer` is the exchange's should an order be sent.
  function Visit(cfg: BotConfig, rows: seq<Row>, now: real, r: Row, answer: Answer, s: CycleState): CycleState {
    match Target(cfg, r)
    case None => s
    case Some((px, defence)) =>
      var bid := Bid(r.market, r.side, px);
      var key := (r.market, r.side);
      if s.raised || ConflictsWithRows(bid, rows) || ConflictsWithBids(bid, s.pending) then s
      else if now - LastAttempt(s.cooldown, key) < (if defence then cfg.defendCooldownS else cfg.cooldownS) then s
      else Send(s, key, now, bid, answer)
  }

  // A snapshot, the time of the sweep, and the answers it would get.
  datatype Round = Round(rows: seq<Row>, now: real, answers: seq<Answer>) {
    predicate Valid() { |answers| == |rows| }
  }

  // The sweep over the first i rows. The guard always reads all the rows of the snapshot.
  function Sweep(cfg: BotConfig, round: Round, cooldown: map<Key, real>, i: nat): CycleState
    requires round.Valid() && i <= |round.rows|
  {
    if i == 0 then CycleState(cooldown, [], [], false)
    else Visit(cfg, round.rows, round.now, round.rows[i - 1], round.answers[i - 1], Sweep(cfg, round, cooldown, i - 1))
  }

  function Swept(cfg: BotConfig, round: Round, cooldown: map<Key, real>): CycleState
    requires round.Valid()
  {
    Sweep(cfg, round, cooldown, |round.rows|)
  }

  class PennyBot {
    const cfg: BotConfig
    var cooldown: map<Key, real>

    constructor (cfg: BotConfig)
      ensures this.cfg == cfg && cooldown == map[]
    {
      this.cfg := cfg;
      cooldown := map[];
    }

    method Cycle(round: Round) returns (pending: seq<Bid>, raised: bool, ghost posted: seq<Posted>)
      requires round.Valid()
      modifies this`cooldown
      ensures CycleState(cooldown, pending, posted, raised) == Swept(cfg, round, old(cooldown))
    {
      pending, raised, posted := [], false, [];
      for i := 0 to |round.rows|
        invariant !raised && CycleState(cooldown, pending, posted, raised) == Sweep(cfg, round, old(cooldown), i)
      {
        var r := round.rows[i];
        var target := Target(cfg, r);
        if target != None {
          var (px, defence) := target.value;
          var arb := WouldCreateArb(round.rows, r.market, r.side, px, pending);
          if !arb {
            var key := (r.market, r.side);
            var wait := if defence then cfg.defendCooldownS else cfg.cooldownS;
            var last := if key in cooldown then cooldown[key] else 0.0;
            if round.now - last >= wait {
              cooldown := cooldown[key := round.now];
              var bid := Bid(r.market, r.side, px);
              match round.answers[i]
              case Accepted =>
                pending, posted := pending + [bid], posted + [Posted(bid, true)];
              case Refused =>
              case Lost =>
                posted := posted + [Posted(bid, false)];
              case Raised(live) =>
                raised, posted := true, if live then posted + [Posted(bid, false)] else posted;
                RaisedEnds(cfg, round, old(cooldown), i + 1, |round.rows|);
                return;
            }
          }
        }
      }
    }
  }

  lemma {:induction false} RaisedEnds(cfg: BotConfig, round: Round, cooldown: map<Key, real>, from: nat, i: nat)
    requires round.Valid() && from <= i <= |round.rows| && Sweep(cfg, round, cooldown, from).raised
    ensures Sweep(cfg, round, cooldown, i) == Sweep(cfg, round, cooldown, from)
  {
    if from < i {
      RaisedEnds(cfg, round, cooldown, from, i - 1);
    }
  }

  // ---- One sweep -----------------------------------------------------------------------------------

  lemma ConflictIsSymmetric(b: Bid, c: Bid)
    ensures Conflict(b, c) == Conflict(c, b)
  {
  }

  predicate Knows(pending: seq<Bid>, posted: seq<Posted>) {
    && (forall b :: b in pending ==> Posted(b, true) in posted)
    && (forall o :: o in posted && o.seen ==> o.bid in pending)
  }

  // No bid of the sweep conflicts with the snapshot, nor with an earlier bid the program knows of.
  predicate Guarded(rows: seq<Row>, posted: seq<Posted>) {
    && (forall i :: 0 <= i < |posted| ==> !ConflictsWithRows(posted[i].bid, rows))
    && (forall i, j :: 0 <= i < j < |posted| && posted[i].seen ==> !Conflict(posted[i].bid, posted[j].bid))
  }

  lemma OneMoreIsGuarded(rows: seq<Row>, pending: seq<Bid>, posted: seq<Posted>, o: Posted)
    requires Knows(pending, posted) && Guarded(rows, posted)
    requires !ConflictsWithRows(o.bid, rows) && !ConflictsWithBids(o.bid, pending)
    ensures Guarded(rows, posted + [o])
    ensures Knows(if o.seen then pending + [o.bid] else pending, posted + [o])
  {
    forall i | 0 <= i < |posted| && posted[i].seen ensures !Conflict(posted[i].bid, o.bid) {
      assert posted[i] in posted;
      ConflictIsSymmetric(posted[i].bid, o.bid);
    }
    assert o in posted + [o];
  }

  lemma {:induction false} SweepIsGuarded(cfg: BotConfig, round: Round, cooldown: map<Key, real>, i: nat)
    requires round.Valid() && i <= |round.rows|
    ensures var s := Sweep(cfg, round, cooldown, i);
            Knows(s.pending, s.posted) && Guarded(round.rows, s.posted)
  {
    hide Knows, Guarded, ConflictsWithRows, ConflictsWithBids, Target;
    if i > 0 {
      SweepIsGuarded(cfg, round, cooldown, i - 1);
      var s, t := Sweep(cfg, round, cooldown, i - 1), Sweep(cfg, round, cooldown, i);
      if |t.posted| > |s.posted| {
        OneMoreIsGuarded(round.rows, s.pending, s.posted, t.posted[|s.posted|]);
      }
    } else {
      NothingIsGuarded(round.rows);
    }
  }

  lemma NothingIsGuarded(rows: seq<Row>)
    ensures Knows([], []) && Guarded(rows, [])
  {
  }

  // A bid the program does not know of conflicts with one it posted later.
  predicate LostClash(posted: seq<Posted>) {
    exists i, j :: 0 <= i < j < |posted| && !posted[i].seen && Conflict(posted[i].bid, posted[j].bid)
  }

  // A live bid as the next snapshot will show it.
  function PlacedRow(b: Bid, size: int): Row {
    Row(b.market, b.side, None, None, Some(b.px), size, 0.0, true, false)
  }

  function BookAfter(rows: seq<Row>, posted: seq<Posted>, size: int): seq<Row> {
    rows + seq(|posted|, i requires 0 <= i < |posted| => PlacedRow(posted[i].bid, size))
  }

  lemma ArbRowsConflict(y: Row, n: Row)
    requires RowsAreArb(y, n)
    ensures Conflict(RowBid(y), RowBid(n)) && Conflict(RowBid(n), RowBid(y))
  {
  }

  // Without such a clash no bid of the sweep takes part in an arb of the book.
  lemma ArbsAreOld(rows: seq<Row>, posted: seq<Posted>, size: int, i: nat, j: nat)
    requires Guarded(rows, posted) && !LostClash(posted)
    requires var book := BookAfter(rows, posted, size); i < |book| && j < |book| && RowsAreArb(book[i], book[j])
    ensures i < |rows| && j < |rows|
  {
    var book := BookAfter(rows, posted, size);
    ArbRowsConflict(book[i], book[j]);
  }

  // With one the book has an arb the snapshot had not.
  lemma ClashIsNewArb(rows: seq<Row>, posted: seq<Posted>, size: int) returns (a: Arb)
    requires Guarded(rows, posted) && LostClash(posted)
    ensures Reported(BookAfter(rows, posted, size), a) && !Reported(rows, a)
  {
    var i, j :| 0 <= i < j < |posted| && !posted[i].seen && Conflict(posted[i].bid, posted[j].bid);
    var book := BookAfter(rows, posted, size);
    var p, q := |rows| + i, |rows| + j;
    assert book[p] == PlacedRow(posted[i].bid, size) && book[q] == PlacedRow(posted[j].bid, size);
    if posted[i].bid.side.No? {
      p, q := q, p;
    }
    assert RowsAreArb(book[p], book[q]);
    a := Arb(LegOf(book[p]), LegOf(book[q]));
    OldLegsAreGuarded(rows, book[p], book[q]);
  }

  lemma OldLegsAreGuarded(rows: seq<Row>, y: Row, n: Row)
    requires RowsAreArb(y, n)
    ensures Reported(rows, Arb(LegOf(y), LegOf(n))) ==>
              ConflictsWithRows(RowBid(y), rows) && ConflictsWithRows(RowBid(n), rows)
  {
    if Reported(rows, Arb(LegOf(y), LegOf(n))) {
      var k, l :| 0 <= k < |rows| && 0 <= l < |rows| && RowsAreArb(rows[k], rows[l])
                  && Arb(LegOf(y), LegOf(n)) == Arb(LegOf(rows[k]), LegOf(rows[l]));
      ArbRowsConflict(rows[k], rows[l]);
      assert RowBid(rows[k]) == RowBid(y) && RowBid(rows[l]) == RowBid(n);
    }
  }

  // Whatever the exchange answers, the book with the sweep's live bids added has exactly the arbs the snapshot
  // had if and only if no bid the program does not know of conflicts with a later one.
  lemma SweepCreatesNoArb(cfg: BotConfig, round: Round, cooldown: map<Key, real>, size: int)
    requires round.Valid()
    ensures var posted := Swept(cfg, round, cooldown).posted;
            (forall a :: Reported(BookAfter(round.rows, posted, size), a) <==> Reported(round.rows, a))
            <==> !LostClash(posted)
  {
    var rows, posted := round.rows, Swept(cfg, round, cooldown).posted;
    var book := BookAfter(rows, posted, size);
    hide Guarded, LostClash, RowsAreArb, Sweep;
    SweepIsGuarded(cfg, round, cooldown, |rows|);
    if LostClash(posted) {
      var a := ClashIsNewArb(rows, posted, size);
    } else {
      forall a ensures Reported(book, a) <==> Reported(rows, a) {
        ArbsStay(rows, posted, size, a);
      }
    }
  }

  lemma ArbsStay(rows: seq<Row>, posted: seq<Posted>, size: int, a: Arb)
    requires Guarded(rows, posted) && !LostClash(posted)
    ensures Reported(BookAfter(rows, posted, size), a) <==> Reported(rows, a)
  {
    hide Guarded, LostClash, IsArb;
    var book := BookAfter(rows, posted, size);
    if Reported(book, a) {
      var i, j :| 0 <= i < |book| && 0 <= j < |book| && RowsAreArb(book[i], book[j])
                  && a == Arb(LegOf(book[i]), LegOf(book[j]));
      ArbsAreOld(rows, posted, size, i, j);
      assert rows[i] == book[i] && rows[j] == book[j];
    }
    if Reported(rows, a) {
      var i, j :| 0 <= i < |rows| && 0 <= j < |rows| && RowsAreArb(rows[i], rows[j])
                  && a == Arb(LegOf(rows[i]), LegOf(rows[j]));
      assert book[i] == rows[i] && book[j] == rows[j];
    }
  }

  // Two strikes of one event, YES wanted at the higher and NO at the lower. The post of the first bid is lost;
  // the second, which the guard would have stopped, makes the pair an arb.
  lemma LostAnswerMakesAnArb(cfg: BotConfig)
    requires cfg.cooldownS <= 1000.0
    ensures var high, low := Market("A", "E", Some(2.0)), Market("B", "E", Some(1.0));
            var rows := [Row(high, Yes, Some(60), Some(62), None, 0, 0.0, false, false),
                         Row(low, No, Some(60), Some(62), None, 0, 0.0, false, false)];
            && LostClash(Swept(cfg, Round(rows, 1000.0, [Lost, Accepted]), map[]).posted)
            && !LostClash(Swept(cfg, Round(rows, 1000.0, [Accepted, Accepted]), map[]).posted)
  {
    var high, low := Market("A", "E", Some(2.0)), Market("B", "E", Some(1.0));
    var rows := [Row(high, Yes, Some(60), Some(62), None, 0, 0.0, false, false),
                 Row(low, No, Some(60), Some(62), None, 0, 0.0, false, false)];
    var yes, no := Bid(high, Yes, 61), Bid(low, No, 61);
    assert Target(cfg, rows[0]) == Some((61, false)) && Target(cfg, rows[1]) == Some((61, false));
    assert !ConflictsWithRows(yes, rows) && !ConflictsWithRows(no, rows) && Conflict(yes, no) && Conflict(no, yes);
    var lost := Round(rows, 1000.0, [Lost, Accepted]);
    assert Sweep(cfg, lost, map[], 1).posted == [Posted(yes, false)] && Sweep(cfg, lost, map[], 1).pending == [];
    var posted := Swept(cfg, lost, map[]).posted;
    assert posted == [Posted(yes, false), Posted(no, true)];
    assert !posted[0].seen && Conflict(posted[0].bid, posted[1].bid);
    NoLossNoClash(cfg, Round(rows, 1000.0, [Accepted, Accepted]), map[], 2);
  }

  // A post that ends the sweep does no harm: only an answer that was lost in the middle of one can.
  lemma {:induction false} NoLossNoClash(cfg: BotConfig, round: Round, cooldown: map<Key, real>, i: nat)
    requires round.Valid() && i <= |round.rows| && forall k :: 0 <= k < |round.rows| ==> !round.answers[k].Lost?
    ensures var s := Sweep(cfg, round, cooldown, i);
            && (forall k :: 0 <= k < |s.posted| && !s.posted[k].seen ==> s.raised && k == |s.posted| - 1)
            && !LostClash(s.posted)
  {
    hide Target, ConflictsWithRows, ConflictsWithBids, Conflict;
    if i > 0 {
      NoLossNoClash(cfg, round, cooldown, i - 1);
    }
  }

  // The row a placed bid answers: it joins or improves the best bid, by an eighth of the spread at most
  // (or one cent), beats our own best there, and stays below the best ask.
  predicate Improves(r: Row, b: Bid) {
    && r.market == b.market && r.side == b.side && !r.blocked && r.bestBid.Some? && r.bestAsk.Some?
    && r.bestBid.value <= b.px < r.bestAsk.value
    && (r.myTop.Some? ==> r.myTop.value < b.px)
    && (b.px <= r.bestBid.value + 1 || 8 * (b.px - r.bestBid.value) <= r.bestAsk.value - r.bestBid.value)
  }

  lemma {:induction false} SweepOnlyImproves(cfg: BotConfig, round: Round, cooldown: map<Key, real>, i: nat, o: Posted)
    requires round.Valid() && i <= |round.rows| && o in Sweep(cfg, round, cooldown, i).posted
    ensures exists k :: 0 <= k < i && !round.answers[k].Refused? && Improves(round.rows[k], o.bid)
  {
    if i > 0 {
      if o in Sweep(cfg, round, cooldown, i - 1).posted {
        SweepOnlyImproves(cfg, round, cooldown, i - 1, o);
      } else {
        assert Improves(round.rows[i - 1], o.bid);
      }
    }
  }

  // A key attempted less than both cooldowns ago is left alone for the whole sweep. With positive
  // cooldowns that includes the rest of the sweep that attempted it.
  lemma {:induction false} CooldownHolds(cfg: BotConfig, round: Round, cooldown: map<Key, real>, from: nat, i: nat,
                                         k: Key)
    requires round.Valid() && from <= i <= |round.rows|
    requires var since := round.now - LastAttempt(Sweep(cfg, round, cooldown, from).cooldown, k);
             since < cfg.cooldownS && since < cfg.defendCooldownS
    ensures var s, t := Sweep(cfg, round, cooldown, from), Sweep(cfg, round, cooldown, i);
            && LastAttempt(t.cooldown, k) == LastAttempt(s.cooldown, k)
            && s.posted <= t.posted
            && forall j :: |s.posted| <= j < |t.posted| ==> (t.posted[j].bid.market, t.posted[j].bid.side) != k
  {
    hide Target, ConflictsWithRows, ConflictsWithBids;
    if from < i {
      CooldownHolds(cfg, round, cooldown, from, i - 1, k);
    }
  }

  // Later rows only add to the bids of the sweep, and touch no cooldown but their own.
  lemma {:induction false} SweepGrows(cfg: BotConfig, round: Round, cooldown: map<Key, real>, from: nat, i: nat)
    requires round.Valid() && from <= i <= |round.rows|
    ensures Sweep(cfg, round, cooldown, from).pending <= Sweep(cfg, round, cooldown, i).pending
  {
    hide Target, ConflictsWithRows, ConflictsWithBids;
    if from < i {
      SweepGrows(cfg, round, cooldown, from, i - 1);
    }
  }

  lemma {:induction false} UnvisitedKeyKeepsCooldown(cfg: BotConfig, round: Round, cooldown: map<Key, real>, i: nat,
                                                     k: Key)
    requires round.Valid() && i <= |round.rows|
    requires forall j :: 0 <= j < i ==> (round.rows[j].market, round.rows[j].side) != k
    ensures LastAttempt(Sweep(cfg, round, cooldown, i).cooldown, k) == LastAttempt(cooldown, k)
  {
    hide Target, ConflictsWithRows, ConflictsWithBids;
    if i > 0 {
      UnvisitedKeyKeepsCooldown(cfg, round, cooldown, i - 1, k);
    }
  }

  lemma {:induction false} PendingIsSafe(cfg: BotConfig, round: Round, cooldown: map<Key, real>, i: nat)
    requires round.Valid() && i <= |round.rows|
    ensures var placed := Sweep(cfg, round, cooldown, i).pending;
            && (forall b :: b in placed ==> !ConflictsWithRows(b, round.rows))
            && (forall b, c :: b in placed && c in placed ==> !Conflict(b, c))
  {
    hide Target, ConflictsWithRows, Conflict;
    if i > 0 {
      PendingIsSafe(cfg, round, cooldown, i - 1);
      var before, after := Sweep(cfg, round, cooldown, i - 1).pending, Sweep(cfg, round, cooldown, i).pending;
      if after != before {
        var b := after[|before|];
        forall c | c in before ensures !Conflict(b, c) && !Conflict(c, b) {
          ConflictIsSymmetric(b, c);
        }
        NoSelfConflict(b);
      }
    }
  }

  lemma NoSelfConflict(b: Bid)
    ensures !Conflict(b, b)
  {
  }

  // The seconds a key must be left alone before this row may act on it.
  function Wait(cfg: BotConfig, r: Row): real
    requires Target(cfg, r).Some?
  {
    if Target(cfg, r).value.1 then cfg.defendCooldownS else cfg.cooldownS
  }

  // A row that is still in its cooldown is left alone; one that acts starts its key's cooldown whatever the
  // answer, and no other key's.
  lemma AttemptStartsCooldown(cfg: BotConfig, round: Round, cooldown: map<Key, real>, i: nat)
    requires round.Valid() && i < |round.rows| && Target(cfg, round.rows[i]).Some?
    ensures var r, s, t := round.rows[i], Sweep(cfg, round, cooldown, i), Sweep(cfg, round, cooldown, i + 1);
            var key, bid := (r.market, r.side), Bid(r.market, r.side, Target(cfg, r).value.0);
            && (forall k :: k != key ==> LastAttempt(t.cooldown, k) == LastAttempt(s.cooldown, k))
            && if !s.raised && round.now - LastAttempt(s.cooldown, key) >= Wait(cfg, r)
                  && !ConflictsWithRows(bid, round.rows) && !ConflictsWithBids(bid, s.pending)
               then LastAttempt(t.cooldown, key) == round.now
               else t == s
  {
    hide Target, ConflictsWithRows, ConflictsWithBids;
  }

  // The sweep refuses nothing it may place: a targeted row it reaches, whose key has cooled down and comes up
  // first and whose order the exchange accepts, is placed unless it conflicts with the snapshot or with another
  // bid placed.
  lemma SweepPlacesWhatItMay(cfg: BotConfig, round: Round, cooldown: map<Key, real>, i: nat)
    requires round.Valid() && i < |round.rows| && round.answers[i].Accepted? && Target(cfg, round.rows[i]).Some?
    requires !Sweep(cfg, round, cooldown, i).raised
    requires var r := round.rows[i];
             && (forall j :: 0 <= j < i ==> (round.rows[j].market, round.rows[j].side) != (r.market, r.side))
             && round.now - LastAttempt(cooldown, (r.market, r.side)) >= Wait(cfg, r)
    ensures var placed := Swept(cfg, round, cooldown).pending;
            var bid := Bid(round.rows[i].market, round.rows[i].side, Target(cfg, round.rows[i]).value.0);
            bid in placed <==> !ConflictsWithRows(bid, round.rows) && !ConflictsWithBids(bid, placed)
  {
    var r := round.rows[i];
    var placed := Swept(cfg, round, cooldown).pending;
    var bid := Bid(r.market, r.side, Target(cfg, r).value.0);
    var before := Sweep(cfg, round, cooldown, i);
    hide Target, ConflictsWithRows, Conflict;
    UnvisitedKeyKeepsCooldown(cfg, round, cooldown, i, (r.market, r.side));
    SweepGrows(cfg, round, cooldown, i, |round.rows|);
    SweepGrows(cfg, round, cooldown, i + 1, |round.rows|);
    PendingIsSafe(cfg, round, cooldown, |round.rows|);
    if !ConflictsWithRows(bid, round.rows) && !ConflictsWithBids(bid, placed) {
      assert !ConflictsWithBids(bid, before.pending) by {
        assert forall k :: 0 <= k < |before.pending| ==> before.pending[k] == placed[k];
      }
      assert Sweep(cfg, round, cooldown, i + 1).pending == before.pending + [bid];
      assert placed[|before.pending|] == bid;
    }
  }

  // ---- Many sweeps ---------------------------------------------------------------------------------

  datatype BookEvent =
    | Cycle(round: Round)
    | Vanish(k: nat)  // a live bid is filled or cancelled

  datatype Book = Book(live: seq<Bid>, cooldown: map<Key, real>)

  function BidsOf(posted: seq<Posted>): seq<Bid> {
    seq(|posted|, i requires 0 <= i < |posted| => posted[i].bid)
  }

  function Happens(cfg: BotConfig, b: Book, e: BookEvent): Book {
    match e
    case Cycle(round) =>
      if !round.Valid() then b
      else
        var s := Swept(cfg, round, b.cooldown);
        Book(b.live + BidsOf(s.posted), s.cooldown)
    case Vanish(k) => if k < |b.live| then b.(live := b.live[..k] + b.live[k + 1..]) else b
  }

  function History(cfg: BotConfig, b: Book, events: seq<BookEvent>): Book {
    if events == [] then b else Happens(cfg, History(cfg, b, events[..|events| - 1]), events[|events| - 1])
  }

  // The snapshot shows every live bid, at that price or under a better one of ours.
  predicate Shows(rows: seq<Row>, live: seq<Bid>) {
    forall i :: 0 <= i < |live| && live[i].market.strike.Some? ==>
      exists j :: 0 <= j < |rows| && IsLeg(rows[j]) && rows[j].market == live[i].market
                  && rows[j].side == live[i].side && rows[j].myTop.value >= live[i].px
  }

  // Every sweep of the history starts from a snapshot that shows the bids live at that moment.
  predicate FreshSnapshots(cfg: BotConfig, b: Book, events: seq<BookEvent>) {
    if events == [] then true
    else
      var front, e := events[..|events| - 1], events[|events| - 1];
      && FreshSnapshots(cfg, b, front)
      && (e.Cycle? ==> e.round.Valid() && Shows(e.round.rows, History(cfg, b, front).live))
  }

  predicate ArbFree(live: seq<Bid>) {
    forall i, j :: 0 <= i < |live| && 0 <= j < |live| ==> !Conflict(live[i], live[j])
  }

  // After every event of the history.
  predicate AlwaysArbFree(cfg: BotConfig, b: Book, events: seq<BookEvent>) {
    && ArbFree(History(cfg, b, events).live)
    && (events == [] || AlwaysArbFree(cfg, b, events[..|events| - 1]))
  }

  // No sweep of the history loses sight of a bid that conflicts with one it opens later.
  predicate NoSweepClashes(cfg: BotConfig, b: Book, events: seq<BookEvent>) {
    if events == [] then true
    else
      var front, e := events[..|events| - 1], events[|events| - 1];
      && NoSweepClashes(cfg, b, front)
      && (e.Cycle? && e.round.Valid() ==> !LostClash(Swept(cfg, e.round, History(cfg, b, front).cooldown).posted))
  }

  lemma SafeAgainstLive(rows: seq<Row>, live: seq<Bid>, b: Bid, i: nat)
    requires Shows(rows, live) && i < |live| && !ConflictsWithRows(b, rows)
    ensures !Conflict(b, live[i]) && !Conflict(live[i], b)
  {
    ConflictIsSymmetric(b, live[i]);
  }

  lemma PostedConflict(rows: seq<Row>, posted: seq<Posted>, i: nat, j: nat)
    requires Guarded(rows, posted) && !LostClash(posted) && i < |posted| && j < |posted|
    ensures !Conflict(posted[i].bid, posted[j].bid)
  {
    ConflictIsSymmetric(posted[i].bid, posted[j].bid);
  }

  lemma SweepKeepsArbFree(rows: seq<Row>, live: seq<Bid>, posted: seq<Posted>)
    requires Shows(rows, live) && ArbFree(live) && Guarded(rows, posted)
    ensures ArbFree(live + BidsOf(posted)) <==> !LostClash(posted)
  {
    hide Conflict, Shows, ConflictsWithRows;
    var all, m := live + BidsOf(posted), |live|;
    if LostClash(posted) {
      var i, j :| 0 <= i < j < |posted| && !posted[i].seen && Conflict(posted[i].bid, posted[j].bid);
      assert all[m + i] == posted[i].bid && all[m + j] == posted[j].bid;
    } else {
      forall i, j | 0 <= i < |all| && 0 <= j < |all| ensures !Conflict(all[i], all[j]) {
        if i < m <= j {
          SafeAgainstLive(rows, live, posted[j - m].bid, i);
        } else if j < m <= i {
          SafeAgainstLive(rows, live, posted[i - m].bid, j);
        } else if i >= m {
          PostedConflict(rows, posted, i - m, j - m);
        }
      }
    }
  }

  lemma VanishKeepsArbFree(live: seq<Bid>, k: nat)
    requires ArbFree(live) && k < |live|
    ensures ArbFree(live[..k] + live[k + 1..])
  {
    hide Conflict;
    var rest := live[..k] + live[k + 1..];
    assert forall i :: 0 <= i < |rest| ==> rest[i] == live[if i < k then i else i + 1];
  }

  // An arb-free book stays arb-free through a history of sweeps, fills and cancels if and only if no sweep of
  // it loses sight of a bid that conflicts with a later one of the same sweep.
  lemma {:induction false} BookStaysArbFree(cfg: BotConfig, b: Book, events: seq<BookEvent>)
    requires ArbFree(b.live) && FreshSnapshots(cfg, b, events)
    ensures AlwaysArbFree(cfg, b, events) <==> NoSweepClashes(cfg, b, events)
  {
    hide ArbFree, LostClash, Shows, Sweep, Swept, Guarded;
    if events != [] {
      var front, e := events[..|events| - 1], events[|events| - 1];
      BookStaysArbFree(cfg, b, front);
      var before := History(cfg, b, front);
      if AlwaysArbFree(cfg, b, front) {
        match e
        case Cycle(round) =>
          SweptIsGuarded(cfg, round, before.cooldown);
          SweepKeepsArbFree(round.rows, before.live, Swept(cfg, round, before.cooldown).posted);
        case Vanish(k) =>
          if k < |before.live| {
            VanishKeepsArbFree(before.live, k);
          }
      }
    }
  }

  lemma SweptIsGuarded(cfg: BotConfig, round: Round, cooldown: map<Key, real>)
    requires round.Valid()
    ensures Guarded(round.rows, Swept(cfg, round, cooldown).posted)
  {
    SweepIsGuarded(cfg, round, cooldown, |round.rows|);
  }
}
