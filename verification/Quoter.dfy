// engine/quoter.py, compute_quotes: price every strike of an event, then keep the quotes monotone in
// strike against everything already placed this cycle.
module Quoter {
  import opened Numeric

  const MIN_PRICE := 1
  const MAX_PRICE := 99

  datatype Config = Config(minHalfSpread: int, maxHalfSpread: int, gamma: real, maxContracts: int, feeThreshold: int,
                           takerRate: real, makerFraction: real)

  datatype StrikeBook = StrikeBook(ticker: string, strike: real, bestBid: int, bestAsk: int)

  datatype Reason = RiskGateBreach | SettlementPullAll | NotInRnd | FairOutOfBand | NoSpreadAfterSkew | TickOutOfBand
                  | NoSpreadAfterTick | OutOfBandAfterCross | NoSpreadAfterCross | BelowFee | ArbKilledSpread
                  | ImbalanceBid | ImbalanceAsk

  datatype Action =
    | PlaceBid(book: StrikeBook, price: int, size: int)
    | PlaceAsk(book: StrikeBook, price: int, size: int)
    | Cancel(book: StrikeBook, why: Reason)
    | NoAction(book: StrikeBook, why: Reason)

  datatype WithdrawSide = Neither | WithdrawBid | WithdrawAsk

  // Everything compute_quotes is given besides the books.
  datatype Inputs = Inputs(cfg: Config, survival: map<real, real>, inventory: map<string, int>, riskOk: bool,
                           sizeMult: real, spreadMult: real, withdraw: WithdrawSide)

  // ---- Fees and ticks ------------------------------------------------------------------------------

  function Ceil(x: real): int { -(-x).Floor }

  // P * (1 - P) * 100 at P = p / 100.
  function Parabola(p: int): real { (p * (100 - p)) as real / 100.0 }

  function Rate(cfg: Config): real { cfg.makerFraction * cfg.takerRate }

  // int(x / 100 rounded up to the cent * 100 + 0.999)
  function CeilCents(x: real): int { (Ceil(x) as real + 0.999).Floor }

  function Fee(rate: real, parabola: real): int { CeilCents(rate * parabola) }

  function MakerFee(cfg: Config, p: int): int { Fee(Rate(cfg), Parabola(p)) }

  function RoundTripFee(cfg: Config, bid: int, ask: int): int { MakerFee(cfg, bid) + MakerFee(cfg, ask) }

  function RoundToTick(p: int, tick: int): Option<int>
    requires tick >= 1
  {
    var r := p % tick;
    var rounded := if r == 0 then p else if 2 * r >= tick then p + (tick - r) else p - r;
    if rounded < MIN_PRICE || rounded > MAX_PRICE then None else Some(rounded)
  }

  // ---- One strike on its own -----------------------------------------------------------------------

  datatype Priced = Rejected(why: Reason) | Pair(bid: int, ask: int)

  function ClampBand(p: int): int { Max(MIN_PRICE, Min(MAX_PRICE, p)) }

  function RawBid(book: StrikeBook, fair: int, minHs: int, maxHs: int): int {
    if book.bestBid > 0 && book.bestAsk < 100 then Max(Min(book.bestBid + 1, fair - minHs), fair - maxHs)
    else fair - minHs
  }

  function RawAsk(book: StrikeBook, fair: int, minHs: int, maxHs: int): int {
    if book.bestBid > 0 && book.bestAsk < 100 then Min(Max(book.bestAsk - 1, fair + minHs), fair + maxHs)
    else fair + minHs
  }

  function Skewed(cfg: Config, raw: int, inv: int): int { ClampBand(raw - RoundHalfEven(Lean(cfg.gamma, inv))) }

  function Lean(gamma: real, inv: int): real { gamma * inv as real }

  // The raw quotes are the penny inside the book, brought between the two half-spreads around fair: nothing
  // allowed is nearer to it.
  lemma RawQuotesAreNearestToThePenny(book: StrikeBook, fair: int, minHs: int, maxHs: int, p: int)
    requires minHs <= maxHs && book.bestBid > 0 && book.bestAsk < 100
    ensures var bid, ask := RawBid(book, fair, minHs, maxHs), RawAsk(book, fair, minHs, maxHs);
            && fair - maxHs <= bid <= fair - minHs && fair + minHs <= ask <= fair + maxHs
            && (fair - maxHs <= p <= fair - minHs ==> Abs(bid - (book.bestBid + 1)) <= Abs(p - (book.bestBid + 1)))
            && (fair + minHs <= p <= fair + maxHs ==> Abs(ask - (book.bestAsk - 1)) <= Abs(p - (book.bestAsk - 1)))
  {
  }

  // The longer we are, the lower we quote on either side.
  lemma InventoryLeansDown(cfg: Config, raw: int, inv: int, more: int)
    requires cfg.gamma >= 0.0 && inv <= more
    ensures Skewed(cfg, raw, more) <= Skewed(cfg, raw, inv)
    ensures inv <= 0 <= more ==> Skewed(cfg, raw, more) <= ClampBand(raw) <= Skewed(cfg, raw, inv)
  {
    LeanGrows(cfg.gamma, inv, more);
    RoundGrows(Lean(cfg.gamma, inv), Lean(cfg.gamma, more));
    if inv <= 0 <= more {
      LeanGrows(cfg.gamma, inv, 0);
      LeanGrows(cfg.gamma, 0, more);
      assert Lean(cfg.gamma, 0) == 0.0;
      RoundGrows(Lean(cfg.gamma, inv), 0.0);
      RoundGrows(0.0, Lean(cfg.gamma, more));
    }
  }

  lemma LeanGrows(gamma: real, inv: int, more: int)
    requires gamma >= 0.0 && inv <= more
    ensures Lean(gamma, inv) <= Lean(gamma, more)
  {
    assert gamma * (more - inv) as real >= 0.0;
    assert (more - inv) as real == more as real - inv as real;
    assert gamma * (more as real - inv as real) == gamma * more as real - gamma * inv as real;
  }

  lemma RoundGrows(a: real, b: real)
    requires a <= b
    ensures RoundHalfEven(a) <= RoundHalfEven(b)
  {
  }

  // Never cross the book, the fee gate, and the band again after both.
  function Uncross(cfg: Config, book: StrikeBook, bid0: int, ask0: int): Priced {
    var bid := if book.bestAsk > 0 && bid0 >= book.bestAsk then book.bestAsk - 1 else bid0;
    var ask := if book.bestBid > 0 && ask0 <= book.bestBid then book.bestBid + 1 else ask0;
    if bid < MIN_PRICE || ask > MAX_PRICE then Rejected(OutOfBandAfterCross)
    else if bid >= ask then Rejected(NoSpreadAfterCross)
    else if ask - bid <= RoundTripFee(cfg, bid, ask) + cfg.feeThreshold then Rejected(BelowFee)
    else Pair(bid, ask)
  }

  // The least half-spread under the gate.
  function Scaled(x: Inputs): real { x.cfg.minHalfSpread as real * x.spreadMult }

  function PriceStrike(x: Inputs, book: StrikeBook): Priced {
    if book.strike !in x.survival then Rejected(NotInRnd)
    else
      var fair := RoundHalfEven(x.survival[book.strike] * 100.0);
      if fair < MIN_PRICE || fair > MAX_PRICE then Rejected(FairOutOfBand)
      else
        var minHs := Max(x.cfg.minHalfSpread, RoundHalfEven(Scaled(x)));
        var inv := if book.ticker in x.inventory then x.inventory[book.ticker] else 0;
        var bid := Skewed(x.cfg, RawBid(book, fair, minHs, x.cfg.maxHalfSpread), inv);
        var ask := Skewed(x.cfg, RawAsk(book, fair, minHs, x.cfg.maxHalfSpread), inv);
        if bid >= ask then Rejected(NoSpreadAfterSkew)
        else
          match (RoundToTick(bid, 1), RoundToTick(ask, 1))
          case (Some(b), Some(a)) => if b >= a then Rejected(NoSpreadAfterTick) else Uncross(x.cfg, book, b, a)
          case _ => Rejected(TickOutOfBand)
  }

  // ---- The pair of one strike, exactly ---------------------------------------------------------------

  function Inventory(x: Inputs, book: StrikeBook): int {
    if book.ticker in x.inventory then x.inventory[book.ticker] else 0
  }

  predicate NoNearer(q: int, p: int, to: int) { Abs(q - to) <= Abs(p - to) }

  // Of the prices from lo to hi the one nearest to the penny inside the book, on a book with both sides; where
  // even the least half-spread exceeds the most, the most decides.
  ghost predicate IsRaw(book: StrikeBook, q: int, lo: int, hi: int, penny: int, tight: int, wide: int) {
    if book.bestBid <= 0 || book.bestAsk >= 100 then q == tight
    else if lo > hi then q == wide
    else lo <= q <= hi && forall p :: lo <= p <= hi ==> NoNearer(q, p, penny)
  }

  // What a strike's own pair is made of, in whole cents: fair value, the gate's multiple of the least half-spread,
  // the lean, and the raw quotes.
  datatype Parts = Parts(fair: int, multiple: int, lean: int, bid: int, ask: int)

  // The half-spread in force.
  function Half(x: Inputs, q: Parts): int { Max(x.cfg.minHalfSpread, q.multiple) }

  ghost predicate IsPartsOf(x: Inputs, book: StrikeBook, q: Parts) {
    var most, half := x.cfg.maxHalfSpread, Half(x, q);
    && book.strike in x.survival && IsNearestEven(x.survival[book.strike] * 100.0, q.fair)
    && IsNearestEven(Scaled(x), q.multiple)
    && IsNearestEven(Lean(x.cfg.gamma, Inventory(x, book)), q.lean)
    && IsRaw(book, q.bid, q.fair - most, q.fair - half, book.bestBid + 1, q.fair - half, q.fair - most)
    && IsRaw(book, q.ask, q.fair + half, q.fair + most, book.bestAsk - 1, q.fair + half, q.fair + most)
  }

  // The pair of a strike: each raw quote leaned, brought into the band and then inside the other side of the book;
  // and there is one exactly when fair is in the band, the leaned quotes leave a spread, and what comes out is a
  // legal spread that clears the fees.
  lemma OwnPairExactly(x: Inputs, book: StrikeBook, q: Parts, bid: int, ask: int)
    requires IsPartsOf(x, book, q)
    ensures var b, a := ClampBand(q.bid - q.lean), ClampBand(q.ask - q.lean);
            PriceStrike(x, book) == Pair(bid, ask) <==>
            && MIN_PRICE <= q.fair <= MAX_PRICE && b < a
            && bid == (if book.bestAsk > 0 then Min(b, book.bestAsk - 1) else b)
            && ask == (if book.bestBid > 0 then Max(a, book.bestBid + 1) else a)
            && MIN_PRICE <= bid < ask <= MAX_PRICE && ClearsFees(x.cfg, bid, ask)
  {
    hide *;
    LeanedPair(x, book, q);
    UncrossExactly(x.cfg, book, ClampBand(q.bid - q.lean), ClampBand(q.ask - q.lean), bid, ask);
  }

  lemma LeanedPair(x: Inputs, book: StrikeBook, q: Parts)
    requires IsPartsOf(x, book, q)
    ensures var b, a := ClampBand(q.bid - q.lean), ClampBand(q.ask - q.lean);
            PriceStrike(x, book) == if q.fair < MIN_PRICE || q.fair > MAX_PRICE then Rejected(FairOutOfBand)
                                    else if b >= a then Rejected(NoSpreadAfterSkew)
                                    else Uncross(x.cfg, book, b, a)
  {
    hide RoundHalfEven, RawBid, RawAsk, IsRaw, Lean, Scaled, RoundToTick, IsNearestEven, Uncross;
    PartsAreRounded(x, book, q);
    RawBidIsRaw(book, q.fair, Half(x, q), x.cfg.maxHalfSpread, q.bid);
    RawAskIsRaw(book, q.fair, Half(x, q), x.cfg.maxHalfSpread, q.ask);
    WholeCentTick(ClampBand(q.bid - q.lean));
    WholeCentTick(ClampBand(q.ask - q.lean));
  }

  lemma UncrossExactly(cfg: Config, book: StrikeBook, b: int, a: int, bid: int, ask: int)
    ensures Uncross(cfg, book, b, a) == Pair(bid, ask) <==>
            && bid == (if book.bestAsk > 0 then Min(b, book.bestAsk - 1) else b)
            && ask == (if book.bestBid > 0 then Max(a, book.bestBid + 1) else a)
            && MIN_PRICE <= bid < ask <= MAX_PRICE && ClearsFees(cfg, bid, ask)
  {
    hide MakerFee;
  }

  // Why a strike with a probability has none.
  lemma RejectionSaysWhy(x: Inputs, book: StrikeBook, q: Parts, why: Reason)
    requires IsPartsOf(x, book, q)
    ensures var b, a := ClampBand(q.bid - q.lean), ClampBand(q.ask - q.lean);
            var bid := if book.bestAsk > 0 then Min(b, book.bestAsk - 1) else b;
            var ask := if book.bestBid > 0 then Max(a, book.bestBid + 1) else a;
            PriceStrike(x, book) == Rejected(why) <==>
            if q.fair < MIN_PRICE || q.fair > MAX_PRICE then why == FairOutOfBand
            else if b >= a then why == NoSpreadAfterSkew
            else if bid < MIN_PRICE || ask > MAX_PRICE then why == OutOfBandAfterCross
            else if bid >= ask then why == NoSpreadAfterCross
            else why == BelowFee && !ClearsFees(x.cfg, bid, ask)
  {
    hide IsPartsOf, PriceStrike, MakerFee;
    LeanedPair(x, book, q);
  }

  lemma WholeCentTick(p: int)
    requires MIN_PRICE <= p <= MAX_PRICE
    ensures RoundToTick(p, 1) == Some(p)
  {
  }

  lemma PartsAreRounded(x: Inputs, book: StrikeBook, q: Parts)
    requires IsPartsOf(x, book, q)
    ensures q.fair == RoundHalfEven(x.survival[book.strike] * 100.0)
    ensures q.multiple == RoundHalfEven(Scaled(x))
    ensures q.lean == RoundHalfEven(Lean(x.cfg.gamma, Inventory(x, book)))
  {
    hide RoundHalfEven, IsNearestEven, IsRaw, Lean, Scaled;
    RoundIsNearestEven(x.survival[book.strike] * 100.0, q.fair);
    RoundIsNearestEven(Lean(x.cfg.gamma, Inventory(x, book)), q.lean);
    RoundIsNearestEven(Scaled(x), q.multiple);
  }

  lemma RawBidIsRaw(book: StrikeBook, fair: int, half: int, most: int, q: int)
    requires IsRaw(book, q, fair - most, fair - half, book.bestBid + 1, fair - half, fair - most)
    ensures q == RawBid(book, fair, half, most)
  {
    var r := RawBid(book, fair, half, most);
    assert book.bestBid > 0 && book.bestAsk < 100 && half <= most ==> NoNearer(q, r, book.bestBid + 1);
  }

  lemma RawAskIsRaw(book: StrikeBook, fair: int, half: int, most: int, q: int)
    requires IsRaw(book, q, fair + half, fair + most, book.bestAsk - 1, fair + half, fair + most)
    ensures q == RawAsk(book, fair, half, most)
  {
    var r := RawAsk(book, fair, half, most);
    assert book.bestBid > 0 && book.bestAsk < 100 && half <= most ==> NoNearer(q, r, book.bestAsk - 1);
  }

  // There are such parts for every strike with a probability.
  lemma PartsExist(x: Inputs, book: StrikeBook) returns (q: Parts)
    requires book.strike in x.survival
    ensures IsPartsOf(x, book, q)
  {
    var fair := RoundHalfEven(x.survival[book.strike] * 100.0);
    var multiple := RoundHalfEven(Scaled(x));
    var half, most := Max(x.cfg.minHalfSpread, multiple), x.cfg.maxHalfSpread;
    var lean := RoundHalfEven(Lean(x.cfg.gamma, Inventory(x, book)));
    q := Parts(fair, multiple, lean, RawBid(book, fair, half, most), RawAsk(book, fair, half, most));
    RoundIsNearestEven(x.survival[book.strike] * 100.0, fair);
    RoundIsNearestEven(Scaled(x), multiple);
    RoundIsNearestEven(Lean(x.cfg.gamma, Inventory(x, book)), lean);
  }

  // So a wider gate widens: while the half-spread is within the most allowed, no pair is inside it.
  lemma HalfSpreadIsKept(x: Inputs, book: StrikeBook, q: Parts)
    requires IsPartsOf(x, book, q) && Half(x, q) <= x.cfg.maxHalfSpread && PriceStrike(x, book).Pair?
    ensures PriceStrike(x, book).bid <= ClampBand(q.fair - Half(x, q) - q.lean)
    ensures PriceStrike(x, book).ask >= ClampBand(q.fair + Half(x, q) - q.lean)
  {
    OwnPairExactly(x, book, q, PriceStrike(x, book).bid, PriceStrike(x, book).ask);
  }

  // The longer we are in a market, the lower both its quotes.
  lemma PairFallsWithInventory(x: Inputs, book: StrikeBook, more: int)
    requires x.cfg.gamma >= 0.0 && Inventory(x, book) <= more
    requires var y := x.(inventory := x.inventory[book.ticker := more]);
             PriceStrike(x, book).Pair? && PriceStrike(y, book).Pair?
    ensures var p := PriceStrike(x, book);
            var r := PriceStrike(x.(inventory := x.inventory[book.ticker := more]), book);
            r.bid <= p.bid && r.ask <= p.ask
  {
    var y := x.(inventory := x.inventory[book.ticker := more]);
    hide PriceStrike, RoundHalfEven, Lean, Inventory, IsPartsOf, ClearsFees;
    PairHasProbability(x, book);
    var q := PartsExist(x, book);
    var r := q.(lean := RoundHalfEven(Lean(x.cfg.gamma, more)));
    SamePartsButLean(x, book, q, more, r);
    LeanGrows(x.cfg.gamma, Inventory(x, book), more);
    PartsAreRounded(x, book, q);
    RoundGrows(Lean(x.cfg.gamma, Inventory(x, book)), Lean(x.cfg.gamma, more));
    OwnPairExactly(x, book, q, PriceStrike(x, book).bid, PriceStrike(x, book).ask);
    OwnPairExactly(y, book, r, PriceStrike(y, book).bid, PriceStrike(y, book).ask);
  }

  lemma PairHasProbability(x: Inputs, book: StrikeBook)
    requires PriceStrike(x, book).Pair?
    ensures book.strike in x.survival
  {
  }

  lemma SamePartsButLean(x: Inputs, book: StrikeBook, q: Parts, more: int, r: Parts)
    requires IsPartsOf(x, book, q) && r == q.(lean := RoundHalfEven(Lean(x.cfg.gamma, more)))
    ensures IsPartsOf(x.(inventory := x.inventory[book.ticker := more]), book, r)
  {
    hide RoundHalfEven, IsNearestEven, IsRaw, Lean, Scaled;
    var y := x.(inventory := x.inventory[book.ticker := more]);
    assert Scaled(y) == Scaled(x) by {
      ScaledIgnoresInventory(x, y);
    }
    RoundIsNearestEven(Lean(x.cfg.gamma, more), r.lean);
  }

  lemma ScaledIgnoresInventory(x: Inputs, y: Inputs)
    requires y.cfg == x.cfg && y.spreadMult == x.spreadMult
    ensures Scaled(y) == Scaled(x)
  {
  }

  // A quote's size: the multiplied maximum to the nearest contract, at least one.
  lemma SizeIsNearest(x: Inputs, n: int)
    requires IsNearestEven(ScaledSize(x), n)
    ensures Size(x) == if n >= 1 then n else 1
  {
    hide ScaledSize;
    RoundIsNearestEven(ScaledSize(x), n);
  }

  // The maker fee is rate * p * (100 - p) / 100 cents at p cents, rounded up to the cent.
  lemma MakerFeeRoundsUp(cfg: Config, p: int, fee: int)
    ensures MakerFee(cfg, p) == fee <==> (fee - 1) as real < Rate(cfg) * Parabola(p) <= fee as real
  {
    CeilCentsIsCeil(Rate(cfg) * Parabola(p));
  }

  // ---- All strikes ---------------------------------------------------------------------------------

  datatype Placed = Placed(book: StrikeBook, bid: int, ask: int)

  // The scan over placed_bids (or placed_asks): never above a lower strike's price.
  function Capped(placed: seq<(real, int)>, strike: real, price: int): int {
    if placed == [] then price
    else
      var p := Capped(placed[..|placed| - 1], strike, price);
      var last := placed[|placed| - 1];
      if strike > last.0 && p > last.1 then last.1 else p
  }

  function Bids(placed: seq<Placed>): seq<(real, int)> {
    seq(|placed|, i requires 0 <= i < |placed| => (placed[i].book.strike, placed[i].bid))
  }

  function Asks(placed: seq<Placed>): seq<(real, int)> {
    seq(|placed|, i requires 0 <= i < |placed| => (placed[i].book.strike, placed[i].ask))
  }

  // The maximum size under the gate.
  function ScaledSize(x: Inputs): real { x.cfg.maxContracts as real * x.sizeMult }

  function Size(x: Inputs): int { Max(1, RoundHalfEven(ScaledSize(x))) }

  function Emit(x: Inputs, p: Placed): seq<Action> {
    [if x.withdraw.WithdrawBid? then Cancel(p.book, ImbalanceBid) else PlaceBid(p.book, p.bid, Size(x)),
     if x.withdraw.WithdrawAsk? then Cancel(p.book, ImbalanceAsk) else PlaceAsk(p.book, p.ask, Size(x))]
  }

  datatype Sheet = Sheet(actions: seq<Action>, placed: seq<Placed>)

  function QuoteOne(x: Inputs, book: StrikeBook, own: Priced, s: Sheet): Sheet {
    match own
    case Rejected(why) => s.(actions := s.actions + [NoAction(book, why)])
    case Pair(bid0, ask0) =>
      var bid := Capped(Bids(s.placed), book.strike, bid0);
      var ask := Capped(Asks(s.placed), book.strike, ask0);
      if bid >= ask || bid < MIN_PRICE || ask > MAX_PRICE then
        s.(actions := s.actions + [NoAction(book, ArbKilledSpread)])
      else Sheet(s.actions + Emit(x, Placed(book, bid, ask)), s.placed + [Placed(book, bid, ask)])
  }

  function Quotes(x: Inputs, books: seq<StrikeBook>): Sheet {
    if books == [] then Sheet([], [])
    else
      var book := books[|books| - 1];
      QuoteOne(x, book, PriceStrike(x, book), Quotes(x, books[..|books| - 1]))
  }

  function AllCancelled(books: seq<StrikeBook>, why: Reason): seq<Action> {
    seq(|books|, i requires 0 <= i < |books| => Cancel(books[i], why))
  }

  method ComputeQuotes(x: Inputs, books: seq<StrikeBook>) returns (actions: seq<Action>)
    ensures actions == if !x.riskOk then AllCancelled(books, RiskGateBreach)
                       else if x.sizeMult <= 0.0 then AllCancelled(books, SettlementPullAll)
                       else Quotes(x, books).actions
  {
    if !x.riskOk {
      actions := CancelAll(books, RiskGateBreach);
    } else if x.sizeMult <= 0.0 {
      actions := CancelAll(books, SettlementPullAll);
    } else {
      actions := QuoteAll(x, books);
    }
  }

  method CancelAll(books: seq<StrikeBook>, why: Reason) returns (actions: seq<Action>)
    ensures actions == AllCancelled(books, why)
  {
    actions := [];
    for i := 0 to |books|
      invariant actions == AllCancelled(books[..i], why)
    {
      CancelNext(books, why, i);
      actions := actions + [Cancel(books[i], why)];
    }
    assert books[..|books|] == books;
  }

  lemma CancelNext(books: seq<StrikeBook>, why: Reason, i: nat)
    requires i < |books|
    ensures AllCancelled(books[..i + 1], why) == AllCancelled(books[..i], why) + [Cancel(books[i], why)]
  {
    var more, less := AllCancelled(books[..i + 1], why), AllCancelled(books[..i], why);
    assert forall k :: 0 <= k < i ==> more[k] == Cancel(books[k], why) == less[k];
  }

  method QuoteAll(x: Inputs, books: seq<StrikeBook>) returns (actions: seq<Action>)
    ensures actions == Quotes(x, books).actions
  {
    actions := [];
    var placedBids: seq<(real, int)> := [];
    var placedAsks: seq<(real, int)> := [];
    ghost var placed: seq<Placed> := [];
    assert Sheet([], []) == Quotes(x, books[..0]) && Bids([]) == [] == Asks([]);
    hide Quotes, PriceStrike, Emit, Capped, Bids, Asks;
    for i := 0 to |books|
      invariant Sheet(actions, placed) == Quotes(x, books[..i])
      invariant placedBids == Bids(placed) && placedAsks == Asks(placed)
    {
      QuotesNext(x, books, i);
      var sb := books[i];
      var priced := PriceStrike(x, sb);
      match priced
      case Rejected(why) =>
        actions := actions + [NoAction(sb, why)];
      case Pair(bid0, ask0) =>
        var bid := CapTo(placedBids, sb.strike, bid0);
        var ask := CapTo(placedAsks, sb.strike, ask0);
        if bid >= ask || bid < MIN_PRICE || ask > MAX_PRICE {
          actions := actions + [NoAction(sb, ArbKilledSpread)];
        } else {
          var both := EmitPair(x, sb, bid, ask);
          actions := actions + both;
          placedBids, placedAsks := placedBids + [(sb.strike, bid)], placedAsks + [(sb.strike, ask)];
          PlacedNext(placed, Placed(sb, bid, ask));
          placed := placed + [Placed(sb, bid, ask)];
        }
    }
    assert books[..|books|] == books;
  }

  lemma QuotesNext(x: Inputs, books: seq<StrikeBook>, i: nat)
    requires i < |books|
    ensures Quotes(x, books[..i + 1]) == QuoteOne(x, books[i], PriceStrike(x, books[i]), Quotes(x, books[..i]))
  {
    assert books[..i + 1][..i] == books[..i];
  }

  lemma PlacedNext(placed: seq<Placed>, p: Placed)
    ensures Bids(placed + [p]) == Bids(placed) + [(p.book.strike, p.bid)]
    ensures Asks(placed + [p]) == Asks(placed) + [(p.book.strike, p.ask)]
  {
  }

  method EmitPair(x: Inputs, sb: StrikeBook, bid: int, ask: int) returns (both: seq<Action>)
    ensures both == Emit(x, Placed(sb, bid, ask))
  {
    var size := Size(x);
    var first := if x.withdraw == WithdrawBid then Cancel(sb, ImbalanceBid) else PlaceBid(sb, bid, size);
    var second := if x.withdraw == WithdrawAsk then Cancel(sb, ImbalanceAsk) else PlaceAsk(sb, ask, size);
    both := [first, second];
  }

  method CapTo(placed: seq<(real, int)>, strike: real, price0: int) returns (price: int)
    ensures price == Capped(placed, strike, price0)
  {
    price := price0;
    for i := 0 to |placed|
      invariant price == Capped(placed[..i], strike, price0)
    {
      CappedNext(placed, strike, price0, i);
      var prevStrike, prev := placed[i].0, placed[i].1;
      if strike > prevStrike && price > prev {
        price := prev;
      }
    }
    assert placed[..|placed|] == placed;
  }

  lemma CappedNext(placed: seq<(real, int)>, strike: real, price: int, i: nat)
    requires i < |placed|
    ensures var p := Capped(placed[..i], strike, price);
            Capped(placed[..i + 1], strike, price) == if strike > placed[i].0 && p > placed[i].1 then placed[i].1 else p
  {
    assert placed[..i + 1][..i] == placed[..i] && placed[..i + 1][i] == placed[i];
  }

  // ---- What the sheet promises -----------------------------------------------------------------------

  predicate Ascending(books: seq<StrikeBook>) {
    forall i, j :: 0 <= i < j < |books| ==> books[i].strike < books[j].strike
  }

  predicate PairOk(p: Placed) {
    && MIN_PRICE <= p.bid < p.ask <= MAX_PRICE
    && (p.book.bestAsk > 0 ==> p.bid < p.book.bestAsk)
  }

  predicate Monotone(placed: seq<Placed>) {
    forall i, j :: 0 <= i < j < |placed| ==> placed[i].bid >= placed[j].bid && placed[i].ask >= placed[j].ask
  }

  // The scan caps at the least price of a lower strike, in any order of strikes.
  lemma {:induction false} CappedIsLeast(placed: seq<(real, int)>, strike: real, price: int)
    ensures var c := Capped(placed, strike, price);
            && c <= price && (forall i :: 0 <= i < |placed| && placed[i].0 < strike ==> c <= placed[i].1)
            && (c == price || exists i :: 0 <= i < |placed| && placed[i].0 < strike && c == placed[i].1)
  {
    if placed != [] {
      CappedIsLeast(placed[..|placed| - 1], strike, price);
    }
  }

  // In ascending, already monotone order the whole scan is a comparison with the last pair.
  lemma CappedIsMinWithLast(prices: seq<(real, int)>, strike: real, price: int)
    requires forall i :: 0 <= i < |prices| ==> prices[i].0 < strike
    requires forall i, j :: 0 <= i < j < |prices| ==> prices[i].1 >= prices[j].1
    ensures Capped(prices, strike, price) == if prices == [] then price else Min(price, prices[|prices| - 1].1)
  {
    CappedIsLeast(prices, strike, price);
  }

  predicate Sound(books: seq<StrikeBook>, placed: seq<Placed>) {
    && Monotone(placed)
    && (forall i :: 0 <= i < |placed| ==> PairOk(placed[i]) && placed[i].book in books)
    && (forall i, j :: 0 <= i < j < |placed| ==> placed[i].book.strike < placed[j].book.strike)
  }

  predicate OwnOk(book: StrikeBook, own: Priced) {
    own.Pair? ==> PairOk(Placed(book, own.bid, own.ask))
  }

  // One more strike, whatever its own pair: each side is lowered to the last placed one if above it. That
  // never closes the spread.
  lemma QuoteOneLowersToLast(x: Inputs, book: StrikeBook, own: Priced, s: Sheet)
    requires Monotone(s.placed) && OwnOk(book, own)
    requires forall i :: 0 <= i < |s.placed| ==> PairOk(s.placed[i]) && s.placed[i].book.strike < book.strike
    ensures QuoteOne(x, book, own, s).placed ==
            if own.Pair? then s.placed + [Lowered(book, own, s.placed)] else s.placed
    ensures own.Pair? ==> PairOk(Lowered(book, own, s.placed))
  {
    if own.Pair? {
      CappedIsMinWithLast(Bids(s.placed), book.strike, own.bid);
      CappedIsMinWithLast(Asks(s.placed), book.strike, own.ask);
    }
  }

  function Lowered(book: StrikeBook, own: Priced, placed: seq<Placed>): Placed
    requires own.Pair?
  {
    if placed == [] then Placed(book, own.bid, own.ask)
    else
      var l := placed[|placed| - 1];
      Placed(book, Min(own.bid, l.bid), Min(own.ask, l.ask))
  }

  // The same, for the last strike of a list.
  lemma LastPlaced(x: Inputs, books: seq<StrikeBook>, front: seq<StrikeBook>, before: seq<Placed>, book: StrikeBook,
                   own: Priced)
    requires books != [] && front == books[..|books| - 1] && book == books[|books| - 1]
    requires before == Quotes(x, front).placed && own == PriceStrike(x, book)
    requires Ascending(books) && Sound(front, before)
    ensures Quotes(x, books).placed == if own.Pair? then before + [Lowered(book, own, before)] else before
    ensures own.Pair? ==> PairOk(Lowered(book, own, before))
    ensures forall i :: 0 <= i < |before| ==> before[i].book.strike < book.strike && before[i].book in books
  {
    hide PriceStrike;
    forall i | 0 <= i < |before| ensures before[i].book.strike < book.strike && before[i].book in books {
      var k :| 0 <= k < |front| && front[k] == before[i].book;
      assert books[k] == before[i].book;
    }
    if own.Pair? {
      OwnPairIsOk(x, book);
    }
    QuoteOneLowersToLast(x, book, own, Quotes(x, front));
  }

  lemma OwnPairIsOk(x: Inputs, book: StrikeBook)
    requires PriceStrike(x, book).Pair?
    ensures var p := PriceStrike(x, book);
            && MIN_PRICE <= p.bid < p.ask <= MAX_PRICE
            && (book.bestAsk > 0 ==> p.bid < book.bestAsk) && p.ask > book.bestBid
            && ClearsFees(x.cfg, p.bid, p.ask)
  {
  }

  // For strikes in ascending order, bids and asks both fall with the strike, every pair is a legal
  // spread, and no bid reaches the best ask.
  lemma {:induction false} QuotesAreMonotone(x: Inputs, books: seq<StrikeBook>)
    requires Ascending(books)
    ensures Sound(books, Quotes(x, books).placed)
  {
    hide PriceStrike;
    if books != [] {
      var front := books[..|books| - 1];
      var book := books[|books| - 1];
      var before := Quotes(x, front).placed;
      assert forall i :: 0 <= i < |front| ==> front[i] == books[i];
      QuotesAreMonotone(x, front);
      LastPlaced(x, books, front, before, book, PriceStrike(x, book));
      if PriceStrike(x, book).Pair? {
        StaysSound(books, front, before, book, PriceStrike(x, book));
      }
    }
  }

  lemma StaysSound(books: seq<StrikeBook>, front: seq<StrikeBook>, before: seq<Placed>, book: StrikeBook, own: Priced)
    requires Sound(front, before) && book in books && own.Pair? && PairOk(Lowered(book, own, before))
    requires forall i :: 0 <= i < |before| ==> before[i].book.strike < book.strike && before[i].book in books
    ensures Sound(books, before + [Lowered(book, own, before)])
  {
    var p := Lowered(book, own, before);
    forall i | 0 <= i < |before| ensures before[i].bid >= p.bid && before[i].ask >= p.ask {
      var l := before[|before| - 1];
      assert i < |before| - 1 ==> before[i].bid >= l.bid && before[i].ask >= l.ask;
    }
  }

  // The orders in the action list are the placed pairs, less the side the imbalance signal withdraws.
  lemma {:induction false} OrdersAreThePairs(x: Inputs, books: seq<StrikeBook>, book: StrikeBook, price: int)
    ensures var sheet := Quotes(x, books);
            && (PlaceBid(book, price, Size(x)) in sheet.actions <==>
                  !x.withdraw.WithdrawBid? && exists p :: p in sheet.placed && p.book == book && p.bid == price)
            && (PlaceAsk(book, price, Size(x)) in sheet.actions <==>
                  !x.withdraw.WithdrawAsk? && exists p :: p in sheet.placed && p.book == book && p.ask == price)
            && (forall a :: a in sheet.actions && (a.PlaceBid? || a.PlaceAsk?) ==> a.size == Size(x) >= 1)
  {
    hide PriceStrike, Capped;
    if books != [] {
      OrdersAreThePairs(x, books[..|books| - 1], book, price);
      var before := Quotes(x, books[..|books| - 1]);
      var after := Quotes(x, books);
      if after.placed != before.placed {
        var p := after.placed[|before.placed|];
        assert after.placed == before.placed + [p] && after.actions == before.actions + Emit(x, p);
      }
    }
  }

  // Every strike without a pair is reported with its reason, and a withdrawn side is cancelled where it would have
  // been placed.
  lemma {:induction false} OthersAreReported(x: Inputs, books: seq<StrikeBook>, book: StrikeBook, why: Reason)
    ensures var sheet := Quotes(x, books);
            && (NoAction(book, why) in sheet.actions <==> book in books && PriceStrike(x, book) == Rejected(why))
            && (Cancel(book, ImbalanceBid) in sheet.actions <==>
                  x.withdraw.WithdrawBid? && exists p :: p in sheet.placed && p.book == book)
            && (Cancel(book, ImbalanceAsk) in sheet.actions <==>
                  x.withdraw.WithdrawAsk? && exists p :: p in sheet.placed && p.book == book)
  {
    hide PriceStrike, Capped;
    if books != [] {
      var front, last := books[..|books| - 1], books[|books| - 1];
      OthersAreReported(x, front, book, why);
      ScanKillsNothing(x, books, last);
      PriceNeverSaysKilled(x, last);
      var before, after := Quotes(x, front), Quotes(x, books);
      assert books == front + [last];
      if after.placed != before.placed {
        var p := after.placed[|before.placed|];
        assert after.placed == before.placed + [p] && after.actions == before.actions + Emit(x, p);
      }
    }
  }

  // ---- The scan in closed form -----------------------------------------------------------------------

  // The scan lowers both sides from the same pairs, so it never closes a spread: whatever the order of the
  // strikes, the branch that would drop a pair is not reached.
  lemma {:induction false} ScanKillsNothing(x: Inputs, books: seq<StrikeBook>, book: StrikeBook)
    ensures NoAction(book, ArbKilledSpread) !in Quotes(x, books).actions
    ensures forall i :: 0 <= i < |Quotes(x, books).placed| ==> PairOk(Quotes(x, books).placed[i])
  {
    hide PriceStrike;
    if books != [] {
      var last := books[|books| - 1];
      var before := Quotes(x, books[..|books| - 1]);
      ScanKillsNothing(x, books[..|books| - 1], book);
      PriceNeverSaysKilled(x, last);
      if PriceStrike(x, last).Pair? {
        OwnPairIsOk(x, last);
        CappedKeepsSpread(before.placed, last, PriceStrike(x, last).bid, PriceStrike(x, last).ask);
      }
    }
  }

  lemma PriceNeverSaysKilled(x: Inputs, book: StrikeBook)
    ensures PriceStrike(x, book) != Rejected(ArbKilledSpread)
  {
  }

  lemma CappedKeepsSpread(placed: seq<Placed>, book: StrikeBook, bid: int, ask: int)
    requires PairOk(Placed(book, bid, ask)) && forall i :: 0 <= i < |placed| ==> PairOk(placed[i])
    ensures PairOk(Placed(book, Capped(Bids(placed), book.strike, bid), Capped(Asks(placed), book.strike, ask)))
  {
    CappedIsLeast(Bids(placed), book.strike, bid);
    CappedIsLeast(Asks(placed), book.strike, ask);
    var c := Capped(Asks(placed), book.strike, ask);
    if c != ask {
      var i :| 0 <= i < |placed| && placed[i].book.strike < book.strike && c == Asks(placed)[i].1;
      assert Bids(placed)[i].1 < c;
    }
  }

  // Every strike's own pair, before the scan, for the strikes that have one.
  function OwnPairs(x: Inputs, books: seq<StrikeBook>): seq<Placed> {
    if books == [] then []
    else
      var own := PriceStrike(x, books[|books| - 1]);
      OwnPairs(x, books[..|books| - 1])
      + if own.Pair? then [Placed(books[|books| - 1], own.bid, own.ask)] else []
  }

  // p has, on either side, the least price of the first n pairs in `own`.
  predicate IsLeastOf(own: seq<Placed>, n: nat, p: Placed)
    requires n <= |own|
  {
    && (forall i :: 0 <= i < n ==> p.bid <= own[i].bid && p.ask <= own[i].ask)
    && (exists i :: 0 <= i < n && p.bid == own[i].bid)
    && (exists i :: 0 <= i < n && p.ask == own[i].ask)
  }

  predicate RunningMinima(own: seq<Placed>, placed: seq<Placed>) {
    && |placed| == |own|
    && forall j :: 0 <= j < |own| ==> placed[j].book == own[j].book && IsLeastOf(own, j + 1, placed[j])
  }

  lemma LongerOwn(own: seq<Placed>, q: Placed, n: nat, p: Placed)
    requires n <= |own| && IsLeastOf(own, n, p)
    ensures IsLeastOf(own + [q], n, p)
  {
    var b :| 0 <= b < n && p.bid == own[b].bid;
    var a :| 0 <= a < n && p.ask == own[a].ask;
    assert (own + [q])[b] == own[b] && (own + [q])[a] == own[a];
  }

  // The least of n pairs and one more.
  lemma LowerOne(own: seq<Placed>, q: Placed, p: Placed)
    requires own != [] ==> IsLeastOf(own, |own|, p)
    ensures IsLeastOf(own + [q], |own| + 1,
                      if own == [] then q else Placed(q.book, Min(q.bid, p.bid), Min(q.ask, p.ask)))
  {
    var more := own + [q];
    assert more[|own|] == q;
    if own != [] {
      LongerOwn(own, q, |own|, p);
    }
  }

  lemma LoweredIsLeast(own: seq<Placed>, placed: seq<Placed>, book: StrikeBook, pair: Priced)
    requires pair.Pair? && RunningMinima(own, placed)
    ensures RunningMinima(own + [Placed(book, pair.bid, pair.ask)], placed + [Lowered(book, pair, placed)])
  {
    hide IsLeastOf;
    var q := Placed(book, pair.bid, pair.ask);
    LowerOne(own, q, if placed == [] then q else placed[|placed| - 1]);
    forall j | 0 <= j < |own| ensures IsLeastOf(own + [q], j + 1, placed[j]) {
      LongerOwn(own, q, j + 1, placed[j]);
    }
  }

  // For ascending strikes the quotes placed are the running minima of the strikes' own pairs, one for every
  // strike that has a pair.
  lemma {:induction false} QuotesAreRunningMinima(x: Inputs, books: seq<StrikeBook>)
    requires Ascending(books)
    ensures RunningMinima(OwnPairs(x, books), Quotes(x, books).placed)
  {
    hide PriceStrike, Quotes, RunningMinima, Sound;
    if books == [] {
      NothingPlaced(x);
    } else {
      var front := books[..|books| - 1];
      var book := books[|books| - 1];
      var before := Quotes(x, front).placed;
      assert forall i :: 0 <= i < |front| ==> front[i] == books[i];
      QuotesAreRunningMinima(x, front);
      QuotesAreMonotone(x, front);
      LastPlaced(x, books, front, before, book, PriceStrike(x, book));
      if PriceStrike(x, book).Pair? {
        LoweredIsLeast(OwnPairs(x, front), before, book, PriceStrike(x, book));
      } else {
        assert OwnPairs(x, books) == OwnPairs(x, front);
      }
    }
  }

  lemma NothingPlaced(x: Inputs)
    ensures RunningMinima(OwnPairs(x, []), Quotes(x, []).placed)
  {
  }

  predicate AskClears(placed: seq<Placed>, j: nat)
    requires j < |placed|
  {
    placed[j].ask > placed[j].book.bestBid
  }

  lemma {:induction false} OwnPairsClear(x: Inputs, books: seq<StrikeBook>, k: nat)
    requires k < |OwnPairs(x, books)|
    ensures var p := OwnPairs(x, books)[k];
            p.book in books && p.ask > p.book.bestBid && PriceStrike(x, p.book) == Pair(p.bid, p.ask)
  {
    hide PriceStrike;
    var front := books[..|books| - 1];
    if k < |OwnPairs(x, front)| {
      OwnPairsClear(x, front, k);
    } else {
      OwnPairIsOk(x, books[|books| - 1]);
    }
  }

  // An ask crosses its own book exactly when a lower strike with a pair has its own ask, before the scan, at
  // or below that best bid.
  lemma AsksCrossThroughLowerStrikes(x: Inputs, books: seq<StrikeBook>, j: nat)
    requires Ascending(books) && j < |Quotes(x, books).placed|
    ensures |OwnPairs(x, books)| == |Quotes(x, books).placed|
    ensures AskClears(Quotes(x, books).placed, j) <==>
            forall i :: 0 <= i < j ==> OwnPairs(x, books)[i].ask > OwnPairs(x, books)[j].book.bestBid
  {
    hide PriceStrike, Quotes, OwnPairs, Ascending;
    var own, placed := OwnPairs(x, books), Quotes(x, books).placed;
    QuotesAreRunningMinima(x, books);
    OwnPairsClear(x, books, j);
    LeastClears(own, j, placed[j]);
  }

  lemma LeastClears(own: seq<Placed>, j: nat, p: Placed)
    requires j < |own| && IsLeastOf(own, j + 1, p) && own[j].ask > own[j].book.bestBid
    ensures p.ask > own[j].book.bestBid <==> forall i :: 0 <= i < j ==> own[i].ask > own[j].book.bestBid
  {
  }

  predicate BestBidsFall(books: seq<StrikeBook>) {
    forall i, j :: 0 <= i < j < |books| ==> books[i].bestBid >= books[j].bestBid
  }

  lemma {:induction false} OwnPairsAscend(x: Inputs, books: seq<StrikeBook>, i: nat, j: nat)
    requires Ascending(books) && BestBidsFall(books) && i < j < |OwnPairs(x, books)|
    ensures OwnPairs(x, books)[i].book.bestBid >= OwnPairs(x, books)[j].book.bestBid
  {
    hide PriceStrike;
    var front := books[..|books| - 1];
    if j < |OwnPairs(x, front)| {
      OwnPairsAscend(x, front, i, j);
    } else {
      OwnPairsClear(x, front, i);
    }
  }

  // So with best bids non-increasing in strike nothing crosses.
  lemma NoAskCrosses(x: Inputs, books: seq<StrikeBook>, j: nat)
    requires Ascending(books) && BestBidsFall(books) && j < |Quotes(x, books).placed|
    ensures AskClears(Quotes(x, books).placed, j)
  {
    hide *;
    AsksCrossThroughLowerStrikes(x, books, j);
    forall i | 0 <= i < j ensures OwnPairs(x, books)[i].ask > OwnPairs(x, books)[j].book.bestBid {
      OwnPairsClear(x, books, i);
      OwnPairsAscend(x, books, i, j);
    }
  }

  // Otherwise an ask can cross: two strikes worth 20 cents, the book of the higher one bid at 30.
  const LOW := StrikeBook("A", 1.0, 16, 24)
  const HIGH := StrikeBook("B", 2.0, 30, 40)
  const BOTH_AT_20 := Inputs(Config(2, 4, 0.0, 10, 1, 0.07, 0.25), map[1.0 := 0.2, 2.0 := 0.2], map[], true, 1.0, 1.0,
                             Neither)

  lemma LowAlone()
    ensures PriceStrike(BOTH_AT_20, LOW) == Pair(17, 23)
  {
    assert RoundHalfEven(20.0) == 20 && RoundHalfEven(2.0) == 2 && RoundHalfEven(0.0) == 0;
  }

  lemma HighAlone()
    ensures PriceStrike(BOTH_AT_20, HIGH) == Pair(18, 31)
  {
    assert RoundHalfEven(20.0) == 20 && RoundHalfEven(2.0) == 2 && RoundHalfEven(0.0) == 0;
  }

  lemma OwnPairsSnoc(x: Inputs, front: seq<StrikeBook>, book: StrikeBook)
    requires PriceStrike(x, book).Pair?
    ensures var own := PriceStrike(x, book);
            OwnPairs(x, front + [book]) == OwnPairs(x, front) + [Placed(book, own.bid, own.ask)]
  {
    hide PriceStrike;
    assert (front + [book])[..|front|] == front;
  }

  lemma RisingBidsLetAnAskCross()
    ensures Ascending([LOW, HIGH]) && |Quotes(BOTH_AT_20, [LOW, HIGH]).placed| == 2
    ensures !AskClears(Quotes(BOTH_AT_20, [LOW, HIGH]).placed, 1)
  {
    LowAlone();
    HighAlone();
    assert OwnPairs(BOTH_AT_20, []) == [];
    hide PriceStrike, Quotes, AskClears, OwnPairs;
    OwnPairsSnoc(BOTH_AT_20, [], LOW);
    OwnPairsSnoc(BOTH_AT_20, [LOW], HIGH);
    var both := [LOW, HIGH];
    assert [] + [LOW] == [LOW] && [LOW] + [HIGH] == both;
    var own := OwnPairs(BOTH_AT_20, both);
    assert own == [Placed(LOW, 17, 23), Placed(HIGH, 18, 31)];
    QuotesAreRunningMinima(BOTH_AT_20, both);
    AsksCrossThroughLowerStrikes(BOTH_AT_20, both, 1);
    assert own[0].ask <= own[1].book.bestBid;
  }

  // ---- The fee gate after the adjustment -------------------------------------------------------------

  predicate ClearsFees(cfg: Config, bid: int, ask: int) { ask - bid > RoundTripFee(cfg, bid, ask) + cfg.feeThreshold }

  // rate = fraction * taker rate in [0, 1]: the published rates are 0.25 and 0.07.
  predicate PlausibleRates(cfg: Config) { 0.0 <= Rate(cfg) <= 1.0 }

  // Moving a price by d cents moves the fee by at most d cents.
  lemma FeeIsGentle(cfg: Config, p: int, q: int)
    requires PlausibleRates(cfg) && MIN_PRICE <= p <= q <= MAX_PRICE
    ensures -(q - p) <= MakerFee(cfg, q) - MakerFee(cfg, p) <= q - p
  {
    ParabolaWithin(p, q);
    FeeWithin(Rate(cfg), Parabola(p), Parabola(q), q - p);
  }

  lemma FeeWithin(rate: real, u: real, v: real, d: int)
    requires 0.0 <= rate <= 1.0 && -(d as real) <= v - u <= d as real
    ensures -d <= Fee(rate, v) - Fee(rate, u) <= d
  {
    ScaleWithin(rate, v - u, d as real);
    Distributes(rate, u, v);
    CeilWithin(rate * u, rate * v, d);
    CeilCentsIsCeil(rate * u);
    CeilCentsIsCeil(rate * v);
  }

  lemma CeilCentsIsCeil(x: real)
    ensures CeilCents(x) == Ceil(x)
  {
  }

  lemma Distributes(rate: real, u: real, v: real)
    ensures rate * (v - u) == rate * v - rate * u
  {
  }

  lemma ParabolaWithin(p: int, q: int)
    requires 1 <= p <= q <= 99
    ensures -((q - p) as real) <= Parabola(q) - Parabola(p) <= (q - p) as real
  {
    assert q * (100 - q) - p * (100 - p) == (q - p) * (100 - p - q);
    ProductWithin(q - p, 100 - p - q, 100);
  }

  lemma ProductWithin(d: int, k: int, bound: int)
    requires d >= 0 && -bound <= k <= bound
    ensures -(bound * d) <= d * k <= bound * d
  {
    assert d * (bound - k) >= 0 && d * (bound + k) >= 0;
  }

  lemma ScaleWithin(rate: real, x: real, d: real)
    requires 0.0 <= rate <= 1.0 && -d <= x <= d
    ensures -d <= rate * x <= d
  {
    NonNegative(1.0 - rate, d);
    NonNegative(rate, d - x);
    NonNegative(rate, d + x);
  }

  lemma NonNegative(a: real, b: real)
    requires a >= 0.0 && b >= 0.0
    ensures a * b >= 0.0
  {
  }

  lemma CeilWithin(a: real, b: real, d: int)
    requires -(d as real) <= b - a <= d as real
    ensures -d <= Ceil(b) - Ceil(a) <= d
  {
  }

  // The gate is not checked again after a side is lowered, and need not be: every placed pair clears the
  // fees of the prices it is placed at.
  lemma {:induction false} FeeGateSurvivesTheScan(x: Inputs, books: seq<StrikeBook>)
    requires Ascending(books) && PlausibleRates(x.cfg)
    ensures forall j :: 0 <= j < |Quotes(x, books).placed| ==>
              ClearsFees(x.cfg, Quotes(x, books).placed[j].bid, Quotes(x, books).placed[j].ask)
  {
    hide PriceStrike, Capped, MakerFee, QuoteOne, ClearsFees;
    if books != [] {
      var front := books[..|books| - 1];
      var book := books[|books| - 1];
      var before := Quotes(x, front).placed;
      assert forall i :: 0 <= i < |front| ==> front[i] == books[i];
      FeeGateSurvivesTheScan(x, front);
      QuotesAreMonotone(x, front);
      LastPlaced(x, books, front, before, book, PriceStrike(x, book));
      if PriceStrike(x, book).Pair? {
        OwnPairIsOk(x, book);
        if before != [] {
          LowerToLast(x.cfg, PriceStrike(x, book), before[|before| - 1]);
        }
      }
    }
  }

  lemma LowerToLast(cfg: Config, own: Priced, l: Placed)
    requires PlausibleRates(cfg) && own.Pair? && MIN_PRICE <= own.bid < own.ask <= MAX_PRICE && PairOk(l)
    requires ClearsFees(cfg, own.bid, own.ask) && ClearsFees(cfg, l.bid, l.ask)
    ensures ClearsFees(cfg, Min(own.bid, l.bid), Min(own.ask, l.ask))
  {
    if own.bid <= l.bid {
      FeeIsGentle(cfg, own.bid, l.bid);
    } else {
      FeeIsGentle(cfg, l.bid, own.bid);
    }
  }
}
