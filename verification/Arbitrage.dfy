// mm-setup-main/kalshi_rewards_app.py: the arb detector, the pre-trade guard and the resolver.
//
// A market ticker is modelled with its event and its parsed strike beside it (parse_strike gives None
// for a ticker without one). Every order is a bid: on YES, or on NO.
module Arbitrage {
  import opened Numeric

  datatype Side = Yes | No

  datatype Market = Market(ticker: string, event: string, strike: Option<real>)

  // A dashboard row: one (ticker, side), with the best prices and our own resting bids on it.
  datatype Row = Row(market: Market, side: Side, bestBid: Option<int>, bestAsk: Option<int>, myTop: Option<int>,
                     mySize: int, sharePct: real, hasOrders: bool, blocked: bool)

  datatype Leg = Leg(market: Market, strike: real, px: int, size: int)

  datatype Arb = Arb(yes: Leg, no: Leg) {
    function Sum(): int { yes.px + no.px }
  }

  datatype Bid = Bid(market: Market, side: Side, px: int)

  function Other(side: Side): Side { if side.Yes? then No else Yes }

  // ---- The arb test ------------------------------------------------------------------------------

  predicate IsArb(yesStrike: real, yesPx: int, noStrike: real, noPx: int) {
    yesStrike >= noStrike && yesPx + noPx > 100
  }

  // What one contract pays, in cents, when the underlying settles at s.
  function YesPays(strike: real, s: real): int { if s > strike then 100 else 0 }

  function NoPays(strike: real, s: real): int { if s <= strike then 100 else 0 }

  // The test reports exactly the pairs that cost more than they pay wherever the market settles.
  lemma ArbLosesEverywhere(x: real, yesPx: int, y: real, noPx: int)
    requires 1 <= yesPx <= 99 && 1 <= noPx <= 99
    ensures IsArb(x, yesPx, y, noPx) <==> forall s: real :: yesPx + noPx > YesPays(x, s) + NoPays(y, s)
  {
    if x < y {
      assert YesPays(x, y) + NoPays(y, y) == 200;
    } else {
      assert YesPays(x, y) + NoPays(y, y) == 100;
    }
  }

  // The README of the app states the strikes the other way round. Such a pair is not a sure loss: with
  // the YES strike below the NO strike it pays 200 in between.
  lemma ReversedStrikesCanProfit(x: real, yesPx: int, y: real, noPx: int) returns (s: real)
    requires 1 <= yesPx <= 99 && 1 <= noPx <= 99 && x < y
    ensures YesPays(x, s) + NoPays(y, s) > yesPx + noPx
    ensures !IsArb(x, yesPx, y, noPx)
  {
    s := y;
  }

  // ---- Detection ---------------------------------------------------------------------------------

  predicate IsLeg(r: Row) { r.hasOrders && r.market.strike.Some? && r.myTop.Some? }

  function LegOf(r: Row): Leg
    requires IsLeg(r)
  {
    Leg(r.market, r.market.strike.value, r.myTop.value, r.mySize)
  }

  // The resting bids of rows y and n are an arb.
  predicate RowsAreArb(y: Row, n: Row) {
    && IsLeg(y) && IsLeg(n) && y.side.Yes? && n.side.No? && y.market.event == n.market.event
    && IsArb(y.market.strike.value, y.myTop.value, n.market.strike.value, n.myTop.value)
  }

  ghost predicate Reported(rows: seq<Row>, a: Arb) {
    exists i, j :: 0 <= i < |rows| && 0 <= j < |rows| && RowsAreArb(rows[i], rows[j])
                   && a == Arb(LegOf(rows[i]), LegOf(rows[j]))
  }

  // by_ev[ev][side]
  function Legs(rows: seq<Row>, ev: string, side: Side): seq<Leg> {
    if rows == [] then []
    else
      var r := rows[|rows| - 1];
      Legs(rows[..|rows| - 1], ev, side)
      + if IsLeg(r) && r.market.event == ev && r.side == side then [LegOf(r)] else []
  }

  // The keys of by_ev, in insertion order.
  function Events(rows: seq<Row>): seq<string> {
    if rows == [] then []
    else
      var r := rows[|rows| - 1];
      var before := Events(rows[..|rows| - 1]);
      if IsLeg(r) && r.market.event !in before then before + [r.market.event] else before
  }

  function PairsOf(y: Leg, ns: seq<Leg>): seq<Arb> {
    if ns == [] then []
    else
      var n := ns[|ns| - 1];
      PairsOf(y, ns[..|ns| - 1]) + if IsArb(y.strike, y.px, n.strike, n.px) then [Arb(y, n)] else []
  }

  function Pairs(ys: seq<Leg>, ns: seq<Leg>): seq<Arb> {
    if ys == [] then [] else Pairs(ys[..|ys| - 1], ns) + PairsOf(ys[|ys| - 1], ns)
  }

  function PairsIn(rows: seq<Row>, evs: seq<string>): seq<Arb> {
    if evs == [] then []
    else
      var ev := evs[|evs| - 1];
      PairsIn(rows, evs[..|evs| - 1]) + Pairs(Legs(rows, ev, Yes), Legs(rows, ev, No))
  }

  lemma {:induction false} InLegs(rows: seq<Row>, ev: string, side: Side, l: Leg)
    ensures l in Legs(rows, ev, side) <==>
            exists i :: 0 <= i < |rows| && IsLeg(rows[i]) && rows[i].market.event == ev && rows[i].side == side
                        && l == LegOf(rows[i])
  {
    if rows != [] {
      var front := rows[..|rows| - 1];
      InLegs(front, ev, side, l);
      assert forall i :: 0 <= i < |front| ==> front[i] == rows[i];
    }
  }

  lemma {:induction false} InEvents(rows: seq<Row>, i: nat)
    requires i < |rows| && IsLeg(rows[i])
    ensures rows[i].market.event in Events(rows)
  {
    if i < |rows| - 1 {
      InEvents(rows[..|rows| - 1], i);
    }
  }

  lemma {:induction false} InPairsOf(y: Leg, ns: seq<Leg>, a: Arb)
    ensures a in PairsOf(y, ns) <==> a.yes == y && a.no in ns && IsArb(y.strike, y.px, a.no.strike, a.no.px)
  {
    if ns != [] {
      InPairsOf(y, ns[..|ns| - 1], a);
      assert ns == ns[..|ns| - 1] + [ns[|ns| - 1]];
    }
  }

  lemma {:induction false} InPairs(ys: seq<Leg>, ns: seq<Leg>, a: Arb)
    ensures a in Pairs(ys, ns) <==> a.yes in ys && a.no in ns && IsArb(a.yes.strike, a.yes.px, a.no.strike, a.no.px)
  {
    if ys != [] {
      InPairs(ys[..|ys| - 1], ns, a);
      InPairsOf(ys[|ys| - 1], ns, a);
      assert ys == ys[..|ys| - 1] + [ys[|ys| - 1]];
    }
  }

  predicate FoundIn(rows: seq<Row>, ev: string, a: Arb) { a in Pairs(Legs(rows, ev, Yes), Legs(rows, ev, No)) }

  lemma {:induction false} InPairsIn(rows: seq<Row>, evs: seq<string>, a: Arb)
    ensures a in PairsIn(rows, evs) <==> exists ev :: ev in evs && FoundIn(rows, ev, a)
  {
    hide Pairs, Legs;
    if evs != [] {
      var front, ev := evs[..|evs| - 1], evs[|evs| - 1];
      InPairsIn(rows, front, a);
      assert evs == front + [ev];
      assert a in PairsIn(rows, evs) <==> a in PairsIn(rows, front) || FoundIn(rows, ev, a);
    }
  }

  lemma FoundLegs(rows: seq<Row>, ev: string, a: Arb)
    ensures FoundIn(rows, ev, a) <==>
            && a.yes in Legs(rows, ev, Yes) && a.no in Legs(rows, ev, No)
            && IsArb(a.yes.strike, a.yes.px, a.no.strike, a.no.px)
  {
    InPairs(Legs(rows, ev, Yes), Legs(rows, ev, No), a);
  }

  // Grouping by event loses no pair and invents none.
  lemma PairsAreReported(rows: seq<Row>, a: Arb)
    ensures a in PairsIn(rows, Events(rows)) <==> Reported(rows, a)
  {
    hide PairsIn, Pairs, Legs, Events, FoundIn, IsArb;
    var evs := Events(rows);
    InPairsIn(rows, evs, a);
    if ev :| ev in evs && FoundIn(rows, ev, a) {
      FoundLegs(rows, ev, a);
      InLegs(rows, ev, Yes, a.yes);
      InLegs(rows, ev, No, a.no);
    }
    if Reported(rows, a) {
      var i, j :| 0 <= i < |rows| && 0 <= j < |rows| && RowsAreArb(rows[i], rows[j])
                  && a == Arb(LegOf(rows[i]), LegOf(rows[j]));
      InEvents(rows, i);
      var ev := rows[i].market.event;
      InLegs(rows, ev, Yes, a.yes);
      InLegs(rows, ev, No, a.no);
      FoundLegs(rows, ev, a);
    }
  }

  predicate Descending(s: seq<Arb>) { forall i :: 0 < i < |s| ==> s[i - 1].Sum() >= s[i].Sum() }

  // list.sort(key=-sum), as a stable insertion.
  function Insert(a: Arb, s: seq<Arb>): seq<Arb> {
    if s == [] || a.Sum() > s[0].Sum() then [a] + s else [s[0]] + Insert(a, s[1..])
  }

  function SortBySum(s: seq<Arb>): seq<Arb> {
    if s == [] then [] else Insert(s[|s| - 1], SortBySum(s[..|s| - 1]))
  }

  lemma {:induction false} InsertKeepsOrder(a: Arb, s: seq<Arb>)
    requires Descending(s)
    ensures var r := Insert(a, s); Descending(r) && r != [] && (r[0] == a || (s != [] && r[0] == s[0]))
  {
    if s != [] && a.Sum() <= s[0].Sum() {
      assert forall i :: 0 < i < |s| ==> s[i - 1].Sum() >= s[i].Sum();
      InsertKeepsOrder(a, s[1..]);
    }
  }

  lemma {:induction false} InsertAdds(a: Arb, s: seq<Arb>)
    ensures multiset(Insert(a, s)) == multiset(s) + multiset{a}
  {
    if s == [] || a.Sum() > s[0].Sum() {
      assert Insert(a, s) == [a] + s;
    } else {
      var rest := s[1..];
      assert Insert(a, s) == [s[0]] + Insert(a, rest) && s == [s[0]] + rest;
      hide Insert;
      InsertAdds(a, rest);
    }
  }

  lemma NothingToSort()
    ensures Descending([])
  {
  }

  lemma {:induction false} SortBySumSorts(s: seq<Arb>)
    ensures Descending(SortBySum(s)) && multiset(SortBySum(s)) == multiset(s)
  {
    hide Insert, Descending;
    if s == [] {
      NothingToSort();
    } else {
      var front, a := s[..|s| - 1], s[|s| - 1];
      SortBySumSorts(front);
      InsertKeepsOrder(a, SortBySum(front));
      InsertAdds(a, SortBySum(front));
      assert s == front + [a];
    }
  }

  method GroupByEvent(rows: seq<Row>)
    returns (evs: seq<string>, yes: map<string, seq<Leg>>, no: map<string, seq<Leg>>)
    ensures evs == Events(rows)
    ensures forall ev :: ev in evs ==> ev in yes && ev in no
    ensures Grouped(rows, yes, no)
  {
    hide Legs, Grouped;
    evs, yes, no := [], map[], map[];
    NothingGrouped(rows[..0]);
    for i := 0 to |rows|
      invariant evs == Events(rows[..i])
      invariant forall ev :: (ev in evs <==> ev in yes) && (ev in evs <==> ev in no)
      invariant Grouped(rows[..i], yes, no)
    {
      var r := rows[i];
      assert rows[..i + 1][..i] == rows[..i];
      if r.hasOrders && r.market.strike != None && r.myTop != None {
        ghost var yes0, no0 := yes, no;
        var ev := r.market.event;
        if ev !in evs {
          evs, yes, no := evs + [ev], yes[ev := []], no[ev := []];
        }
        if r.side == Yes {
          yes := yes[ev := yes[ev] + [LegOf(r)]];
        } else {
          no := no[ev := no[ev] + [LegOf(r)]];
        }
        OneMoreLeg(rows[..i + 1], yes0, no0, yes, no);
      } else {
        NotALeg(rows[..i + 1], yes, no);
      }
    }
    assert rows[..|rows|] == rows;
  }

  function LegsAt(m: map<string, seq<Leg>>, ev: string): seq<Leg> { if ev in m then m[ev] else [] }

  // by_ev after these rows.
  ghost predicate Grouped(rows: seq<Row>, yes: map<string, seq<Leg>>, no: map<string, seq<Leg>>) {
    forall ev :: LegsAt(yes, ev) == Legs(rows, ev, Yes) && LegsAt(no, ev) == Legs(rows, ev, No)
  }

  lemma NothingGrouped(rows: seq<Row>)
    requires rows == []
    ensures Grouped(rows, map[], map[])
  {
  }

  lemma NotALeg(rows: seq<Row>, yes: map<string, seq<Leg>>, no: map<string, seq<Leg>>)
    requires rows != [] && !IsLeg(rows[|rows| - 1]) && Grouped(rows[..|rows| - 1], yes, no)
    ensures Grouped(rows, yes, no)
  {
  }

  lemma OneMoreLeg(rows: seq<Row>, yes0: map<string, seq<Leg>>, no0: map<string, seq<Leg>>,
                   yes: map<string, seq<Leg>>, no: map<string, seq<Leg>>)
    requires rows != [] && IsLeg(rows[|rows| - 1]) && Grouped(rows[..|rows| - 1], yes0, no0)
    requires var r := rows[|rows| - 1]; var ev := r.market.event;
             && (forall k :: k != ev ==> LegsAt(yes, k) == LegsAt(yes0, k) && LegsAt(no, k) == LegsAt(no0, k))
             && LegsAt(yes, ev) == LegsAt(yes0, ev) + (if r.side.Yes? then [LegOf(r)] else [])
             && LegsAt(no, ev) == LegsAt(no0, ev) + (if r.side.No? then [LegOf(r)] else [])
    ensures Grouped(rows, yes, no)
  {
    hide Legs, LegsAt;
    forall ev ensures LegsAt(yes, ev) == Legs(rows, ev, Yes) && LegsAt(no, ev) == Legs(rows, ev, No) {
      LastLeg(rows, ev, Yes);
      LastLeg(rows, ev, No);
    }
  }

  lemma LastLeg(rows: seq<Row>, ev: string, side: Side)
    requires rows != [] && IsLeg(rows[|rows| - 1])
    ensures var front, r := rows[..|rows| - 1], rows[|rows| - 1];
            Legs(rows, ev, side) ==
            if r.market.event == ev && r.side == side then Legs(front, ev, side) + [LegOf(r)] else Legs(front, ev, side)
  {
  }

  method PairUp(ys: seq<Leg>, ns: seq<Leg>) returns (arbs: seq<Arb>)
    ensures arbs == Pairs(ys, ns)
  {
    arbs := [];
    for y := 0 to |ys|
      invariant arbs == Pairs(ys[..y], ns)
    {
      ghost var soFar := arbs;
      for n := 0 to |ns|
        invariant arbs == soFar + PairsOf(ys[y], ns[..n])
      {
        assert ns[..n + 1][..n] == ns[..n];
        if ys[y].strike >= ns[n].strike && ys[y].px + ns[n].px > 100 {
          arbs := arbs + [Arb(ys[y], ns[n])];
        }
      }
      assert ns[..|ns|] == ns;
      assert ys[..y + 1][..y] == ys[..y];
    }
    assert ys[..|ys|] == ys;
  }

  method DetectArbs(rows: seq<Row>) returns (arbs: seq<Arb>)
    ensures forall a :: a in arbs <==> Reported(rows, a)
    ensures Descending(arbs) && multiset(arbs) == multiset(PairsIn(rows, Events(rows)))
  {
    hide Events, Legs, Pairs, Reported;
    var evs, yes, no := GroupByEvent(rows);
    arbs := [];
    for e := 0 to |evs|
      invariant arbs == PairsIn(rows, evs[..e])
    {
      assert LegsAt(yes, evs[e]) == yes[evs[e]] && LegsAt(no, evs[e]) == no[evs[e]];
      var found := PairUp(yes[evs[e]], no[evs[e]]);
      arbs := arbs + found;
      assert evs[..e + 1][..e] == evs[..e];
    }
    assert evs[..|evs|] == evs;
    SortBySumSorts(arbs);
    arbs := SortBySum(arbs);
    SameMembers(arbs, PairsIn(rows, evs));
    forall a ensures a in PairsIn(rows, evs) <==> Reported(rows, a) {
      PairsAreReported(rows, a);
    }
  }

  lemma SameMembers(s: seq<Arb>, t: seq<Arb>)
    requires multiset(s) == multiset(t)
    ensures |s| == |t| && forall a :: a in s <==> a in t
  {
    assert |s| == |multiset(s)| && |t| == |multiset(t)|;
    assert forall a :: a in s <==> a in multiset(s);
    assert forall a :: a in t <==> a in multiset(t);
  }

  // ---- The guard ---------------------------------------------------------------------------------

  // Bids b and c of one event form an arb, whichever of them is the YES leg.
  predicate Conflict(b: Bid, c: Bid) {
    && b.market.event == c.market.event && b.side != c.side && b.market.strike.Some? && c.market.strike.Some?
    && if b.side.Yes? then IsArb(b.market.strike.value, b.px, c.market.strike.value, c.px)
       else IsArb(c.market.strike.value, c.px, b.market.strike.value, b.px)
  }

  function RowBid(r: Row): Bid
    requires IsLeg(r)
  {
    Bid(r.market, r.side, r.myTop.value)
  }

  predicate ConflictsWithRows(b: Bid, rows: seq<Row>) {
    exists i :: 0 <= i < |rows| && IsLeg(rows[i]) && Conflict(b, RowBid(rows[i]))
  }

  predicate ConflictsWithBids(b: Bid, bids: seq<Bid>) { exists i :: 0 <= i < |bids| && Conflict(b, bids[i]) }

  method WouldCreateArb(rows: seq<Row>, market: Market, side: Side, targetPx: int, pending: seq<Bid>)
    returns (b: bool)
    ensures b == var bid := Bid(market, side, targetPx);
                 ConflictsWithRows(bid, rows) || ConflictsWithBids(bid, pending)
  {
    ghost var bid := Bid(market, side, targetPx);
    if market.strike == None {
      return false;
    }
    var myStrike := market.strike.value;
    var other := Other(side);
    var others: seq<(real, int)> := [];
    for i := 0 to |rows|
      invariant (exists k :: 0 <= k < |others| && Hits(myStrike, side, targetPx, others[k])) <==>
                ConflictsWithRows(bid, rows[..i])
    {
      var r := rows[i];
      ghost var was := others;
      if r.market.event == market.event && r.side == other
         && r.hasOrders && r.myTop != None && r.market.strike != None {
        others := others + [(r.market.strike.value, r.myTop.value)];
        HitsSnoc(myStrike, side, targetPx, was, others[|others| - 1]);
      }
      RowsSnoc(bid, rows, i);
    }
    assert rows[..|rows|] == rows;
    for i := 0 to |pending|
      invariant (exists k :: 0 <= k < |others| && Hits(myStrike, side, targetPx, others[k])) <==>
                ConflictsWithRows(bid, rows) || ConflictsWithBids(bid, pending[..i])
    {
      var p := pending[i];
      ghost var was := others;
      if p.market.event == market.event && p.side == other && p.market.strike != None {
        others := others + [(p.market.strike.value, p.px)];
        HitsSnoc(myStrike, side, targetPx, was, others[|others| - 1]);
      }
      BidsSnoc(bid, pending, i);
    }
    assert pending[..|pending|] == pending;
    for i := 0 to |others|
      invariant forall k :: 0 <= k < i ==> !Hits(myStrike, side, targetPx, others[k])
    {
      if Hits(myStrike, side, targetPx, others[i]) {
        return true;
      }
    }
    return false;
  }

  predicate Hits(myStrike: real, side: Side, px: int, o: (real, int)) {
    if side.Yes? then IsArb(myStrike, px, o.0, o.1) else IsArb(o.0, o.1, myStrike, px)
  }

  lemma HitsSnoc(myStrike: real, side: Side, px: int, s: seq<(real, int)>, o: (real, int))
    ensures (exists k :: 0 <= k < |s + [o]| && Hits(myStrike, side, px, (s + [o])[k])) <==>
            (exists k :: 0 <= k < |s| && Hits(myStrike, side, px, s[k])) || Hits(myStrike, side, px, o)
  {
    var t := s + [o];
    assert t[|s|] == o;
    assert forall k :: 0 <= k < |s| ==> t[k] == s[k];
  }

  lemma RowsSnoc(bid: Bid, rows: seq<Row>, i: nat)
    requires i < |rows|
    ensures ConflictsWithRows(bid, rows[..i + 1]) <==>
            ConflictsWithRows(bid, rows[..i]) || (IsLeg(rows[i]) && Conflict(bid, RowBid(rows[i])))
  {
    assert rows[..i + 1][i] == rows[i];
    assert forall k :: 0 <= k < i ==> rows[..i + 1][k] == rows[..i][k];
  }

  lemma BidsSnoc(bid: Bid, bids: seq<Bid>, i: nat)
    requires i < |bids|
    ensures ConflictsWithBids(bid, bids[..i + 1]) <==> ConflictsWithBids(bid, bids[..i]) || Conflict(bid, bids[i])
  {
    assert bids[..i + 1][i] == bids[i];
    assert forall k :: 0 <= k < i ==> bids[..i + 1][k] == bids[..i][k];
  }

  // ---- The resolver ------------------------------------------------------------------------------

  type Key = (Market, Side)

  function Risk(l: Leg): int { l.px * Max(1, l.size) }

  // The leg of an arb with less capital at risk; the YES leg on a tie.
  function CheaperLeg(a: Arb): Key {
    if Risk(a.yes) <= Risk(a.no) then (a.yes.market, Yes) else (a.no.market, No)
  }

  // The leg that is cancelled puts up no more than the other: its price times its size, an unknown size counting
  // as one contract. On a tie it is the YES leg.
  lemma CheaperLegIsCheaper(a: Arb)
    ensures var yes, no := a.yes.px * Max(1, a.yes.size), a.no.px * Max(1, a.no.size);
            || (CheaperLeg(a) == (a.yes.market, Yes) && yes <= no)
            || (CheaperLeg(a) == (a.no.market, No) && no < yes)
  {
  }

  predicate LegIn(a: Arb, keys: set<Key>) { (a.yes.market, Yes) in keys || (a.no.market, No) in keys }

  // The book once every resting bid of these keys is gone.
  function Without(rows: seq<Row>, gone: set<Key>): seq<Row> {
    seq(|rows|, i requires 0 <= i < |rows| =>
      if (rows[i].market, rows[i].side) in gone then rows[i].(hasOrders := false) else rows[i])
  }

  // Which cancels the exchange honours is up to it: `answers` says what cancel_side returned, in order.
  // The actions are the legs cancelled, each once, with those answers.
  method ResolveArbs(rows: seq<Row>, answers: seq<bool>) returns (cancelled: set<Key>, legs: seq<Key>, oks: seq<bool>)
    requires |answers| >= |PairsIn(rows, Events(rows))|
    ensures cancelled == CheaperLegs(PairsIn(rows, Events(rows)))
    ensures |legs| == |cancelled| <= |answers| && forall k :: k in cancelled <==> k in legs
    ensures oks == answers[..|legs|]
  {
    var arbs := DetectArbs(rows);
    SameMembers(arbs, PairsIn(rows, Events(rows)));
    cancelled, legs, oks := CancelLegs(arbs, answers);
  }

  method CancelLegs(arbs: seq<Arb>, answers: seq<bool>) returns (cancelled: set<Key>, legs: seq<Key>, oks: seq<bool>)
    requires |answers| >= |arbs|
    ensures cancelled == CheaperLegs(arbs)
    ensures |legs| == |cancelled| <= |arbs| && forall k :: k in cancelled <==> k in legs
    ensures oks == answers[..|legs|]
  {
    hide CheaperLegs;
    cancelled, legs, oks := {}, [], [];
    NoLegs(arbs[..0]);
    for i := 0 to |arbs|
      invariant cancelled == CheaperLegs(arbs[..i])
      invariant |legs| == |cancelled| <= i && forall k :: k in cancelled <==> k in legs
      invariant oks == answers[..|legs|]
    {
      var a := arbs[i];
      var yesRisk, noRisk := a.yes.px * Max(1, a.yes.size), a.no.px * Max(1, a.no.size);
      var leg := if yesRisk <= noRisk then (a.yes.market, Yes) else (a.no.market, No);
      CheaperLegsSnoc(arbs, i);
      assert leg == CheaperLeg(a);
      hide CheaperLeg;
      if leg !in cancelled {
        cancelled, legs, oks := cancelled + {leg}, legs + [leg], oks + [answers[|legs|]];
      }
    }
    assert arbs[..|arbs|] == arbs;
  }

  lemma NoLegs(arbs: seq<Arb>)
    requires arbs == []
    ensures CheaperLegs(arbs) == {}
  {
  }

  function CheaperLegs(arbs: seq<Arb>): set<Key> { set a | a in arbs :: CheaperLeg(a) }

  lemma CheaperLegsSnoc(arbs: seq<Arb>, i: nat)
    requires i < |arbs|
    ensures CheaperLegs(arbs[..i + 1]) == CheaperLegs(arbs[..i]) + {CheaperLeg(arbs[i])}
  {
    assert arbs[..i + 1] == arbs[..i] + [arbs[i]];
  }

  // Cancelling any set of keys removes exactly the arbs that lose a leg to it.
  lemma CancellingRemovesExactly(rows: seq<Row>, gone: set<Key>, a: Arb)
    ensures Reported(Without(rows, gone), a) <==> Reported(rows, a) && !LegIn(a, gone)
  {
    var left := Without(rows, gone);
    forall i, j | 0 <= i < |rows| && 0 <= j < |rows|
      ensures RowsAreArb(left[i], left[j]) && a == Arb(LegOf(left[i]), LegOf(left[j])) <==>
              RowsAreArb(rows[i], rows[j]) && a == Arb(LegOf(rows[i]), LegOf(rows[j])) && !LegIn(a, gone)
    {
    }
  }

  // What the resolver cancels hits every arb it found, and nothing that is not a leg of one; the book is
  // arb-free once those cancels have taken effect.
  lemma ResolverLeavesNoArb(rows: seq<Row>)
    ensures var cancelled := CheaperLegs(PairsIn(rows, Events(rows)));
            && (forall a :: Reported(rows, a) ==> CheaperLeg(a) in cancelled && LegIn(a, {CheaperLeg(a)}))
            && (forall k :: k in cancelled ==> exists a :: Reported(rows, a) && k == CheaperLeg(a))
            && (forall a :: !Reported(Without(rows, cancelled), a))
  {
    var cancelled := CheaperLegs(PairsIn(rows, Events(rows)));
    forall a ensures a in PairsIn(rows, Events(rows)) <==> Reported(rows, a) {
      PairsAreReported(rows, a);
    }
    forall a ensures !Reported(Without(rows, cancelled), a) {
      CancellingRemovesExactly(rows, cancelled, a);
    }
  }
}
