// deploy/truev_backtest.py: the closed-form anchor and the forward fill of a price history.
module TruevBacktest {
  import opened Numeric

  // ---- The anchor --------------------------------------------------------------------------------------

  // Weighted price relatives of one day; None where a price is missing or an anchor price is zero.
  function Basket(weights: seq<(string, real)>, anchor: map<string, real>, prices: map<string, real>): Option<real> {
    if weights == [] then Some(0.0)
    else
      var (sym, w) := weights[|weights| - 1];
      var before := Basket(weights[..|weights| - 1], anchor, prices);
      if before.None? || sym !in prices || sym !in anchor || anchor[sym] == 0.0 then None
      else Some(before.value + Term(w, prices[sym], anchor[sym]))
  }

  function Term(w: real, price: real, base: real): real
    requires base != 0.0
  {
    w * (price / base)
  }

  // The move of a price, relative to its anchor price.
  function Move(from: real, to: real, base: real): real
    requires base != 0.0
  {
    to / base - from / base
  }

  lemma TermMoves(w: real, from: real, to: real, base: real)
    requires base != 0.0
    ensures Term(w, to, base) == Term(w, from, base) + Product(w, Move(from, to, base))
  {
    ProductSplits(w, to / base, from / base);
  }

  function WeightOf(weights: seq<(string, real)>, sym: string): real {
    if weights == [] then 0.0
    else
      var (s, w) := weights[|weights| - 1];
      WeightOf(weights[..|weights| - 1], sym) + if s == sym then w else 0.0
  }

  function TotalWeight(weights: seq<(string, real)>): real {
    if weights == [] then 0.0 else TotalWeight(weights[..|weights| - 1]) + weights[|weights| - 1].1
  }

  predicate Priced(weights: seq<(string, real)>, anchor: map<string, real>, prices: map<string, real>) {
    forall i :: 0 <= i < |weights| ==>
      var sym := weights[i].0; sym in prices && sym in anchor && anchor[sym] != 0.0
  }

  // A day has a basket value exactly when every symbol has a price and a usable anchor price.
  lemma {:induction false} BasketIfPriced(weights: seq<(string, real)>, anchor: map<string, real>,
                                          prices: map<string, real>)
    ensures Basket(weights, anchor, prices).Some? <==> Priced(weights, anchor, prices)
  {
    if weights != [] {
      var front := weights[..|weights| - 1];
      BasketIfPriced(front, anchor, prices);
      assert forall i :: 0 <= i < |front| ==> front[i] == weights[i];
    }
  }

  // At the anchor prices it is the total weight.
  lemma {:induction false} BasketAtAnchor(weights: seq<(string, real)>, anchor: map<string, real>)
    requires Priced(weights, anchor, anchor)
    ensures Basket(weights, anchor, anchor) == Some(TotalWeight(weights))
  {
    hide Term;
    if weights != [] {
      var front := weights[..|weights| - 1];
      assert forall i :: 0 <= i < |front| ==> front[i] == weights[i];
      BasketAtAnchor(front, anchor);
      TermAtAnchor(weights[|weights| - 1].1, anchor[weights[|weights| - 1].0]);
    }
  }

  lemma TermAtAnchor(w: real, p: real)
    requires p != 0.0
    ensures Term(w, p, p) == w
  {
    assert p / p == 1.0;
  }

  // Moving one price moves it by that symbol's weight times the move, relative to the anchor price.
  lemma {:induction false} BasketMoves(weights: seq<(string, real)>, anchor: map<string, real>,
                                       prices: map<string, real>, sym: string, price: real)
    requires Priced(weights, anchor, prices) && sym in prices && sym in anchor && anchor[sym] != 0.0
    ensures Basket(weights, anchor, prices).Some? && Basket(weights, anchor, prices[sym := price]).Some?
    ensures Basket(weights, anchor, prices[sym := price]).value ==
            Basket(weights, anchor, prices).value
            + Product(WeightOf(weights, sym), Move(prices[sym], price, anchor[sym]))
  {
    hide Term, Product, Move;
    BasketIfPriced(weights, anchor, prices);
    BasketIfPriced(weights, anchor, prices[sym := price]);
    if weights == [] {
      ProductIsZero(0.0, Move(prices[sym], price, anchor[sym]));
    } else {
      var front, last := weights[..|weights| - 1], weights[|weights| - 1];
      assert forall i :: 0 <= i < |front| ==> front[i] == weights[i];
      BasketMoves(front, anchor, prices, sym, price);
      if last.0 == sym {
        TermMoves(last.1, prices[sym], price, anchor[sym]);
        ProductAdds(WeightOf(front, sym), last.1, Move(prices[sym], price, anchor[sym]));
      }
    }
  }

  lemma ProductAdds(v: real, w: real, x: real)
    ensures Product(v + w, x) == Product(v, x) + Product(w, x)
  {
  }

  lemma ProductSplits(w: real, x: real, y: real)
    ensures Product(w, x - y) == w * x - w * y
  {
  }

  datatype Row = Row(actual: real, prices: map<string, real>)

  datatype Point = Point(b: real, actual: real)

  // The rows that have a basket value.
  function Points(weights: seq<(string, real)>, anchor: map<string, real>, rows: seq<Row>): seq<Point> {
    if rows == [] then []
    else
      var r := rows[|rows| - 1];
      var b := Basket(weights, anchor, r.prices);
      Points(weights, anchor, rows[..|rows| - 1]) + if b.Some? then [Point(b.value, r.actual)] else []
  }

  function Product(x: real, y: real): real { x * y }

  function Square(x: real): real { Product(x, x) }

  function Num(pts: seq<Point>): real {
    if pts == [] then 0.0 else Num(pts[..|pts| - 1]) + Product(pts[|pts| - 1].b, pts[|pts| - 1].actual)
  }

  function Den(pts: seq<Point>): (d: real)
    ensures d >= 0.0
  {
    if pts == [] then 0.0 else Den(pts[..|pts| - 1]) + Square(pts[|pts| - 1].b)
  }

  function Residual(a: real, p: Point): real { a * p.b - p.actual }

  function SquaredError(a: real, pts: seq<Point>): real {
    if pts == [] then 0.0
    else
      var p := pts[|pts| - 1];
      SquaredError(a, pts[..|pts| - 1]) + Square(Residual(a, p))
  }

  // The anchor and its squared error; None where the program answers (0, infinity).
  datatype Fit = NoFit | Fit(anchor: real, squaredError: real)

  method BestFitAnchor(weights: seq<(string, real)>, anchor: map<string, real>, rows: seq<Row>) returns (r: Fit)
    ensures var pts := Points(weights, anchor, rows);
            if r.NoFit? then forall i :: 0 <= i < |pts| ==> pts[i].b == 0.0
            else r.squaredError == SquaredError(r.anchor, pts)
                 && forall a: real :: a != r.anchor ==> SquaredError(a, pts) > r.squaredError
  {
    var pts: seq<Point> := [];
    for i := 0 to |rows|
      invariant pts == Points(weights, anchor, rows[..i])
    {
      assert rows[..i + 1][..i] == rows[..i];
      var b := Basket(weights, anchor, rows[i].prices);
      if b != None {
        pts := pts + [Point(b.value, rows[i].actual)];
      }
    }
    assert rows[..|rows|] == rows;
    if pts == [] {
      return NoFit;
    }
    var num, den := Num(pts), Den(pts);
    if den == 0.0 {
      ZeroDenominator(pts);
      return NoFit;
    }
    var best := num / den;
    forall a: real ensures a != best ==> SquaredError(a, pts) > SquaredError(best, pts) {
      BestIsStrict(a, best, pts);
    }
    return Fit(best, SquaredError(best, pts));
  }

  lemma SquareIsPositive(x: real)
    ensures Square(x) >= 0.0 && (x != 0.0 ==> Square(x) > 0.0)
  {
    if x > 0.0 {
      ProductIsPositive(x, x);
    } else if x < 0.0 {
      NegativesMultiply(x, x);
    } else {
      ProductIsZero(x, x);
    }
  }

  lemma ProductIsPositive(x: real, y: real)
    requires x > 0.0 && y > 0.0
    ensures Product(x, y) > 0.0
  {
    assert x * y > 0.0;
  }

  lemma NegativesMultiply(x: real, y: real)
    requires x < 0.0 && y < 0.0
    ensures Product(x, y) > 0.0
  {
    assert x * y > 0.0;
  }

  lemma ProductIsZero(x: real, y: real)
    requires x == 0.0
    ensures Product(x, y) == 0.0
  {
  }

  lemma {:induction false} ZeroDenominator(pts: seq<Point>)
    requires Den(pts) == 0.0
    ensures forall i :: 0 <= i < |pts| ==> pts[i].b == 0.0
  {
    if pts != [] {
      var front := pts[..|pts| - 1];
      SquareIsPositive(pts[|pts| - 1].b);
      ZeroDenominator(front);
      assert forall i :: 0 <= i < |front| ==> pts[i] == front[i];
    }
  }

  // How a squared error moves with the anchor: s = (a - c)^2, t = 2(a - c), at anchor c.
  function Shift(s: real, t: real, c: real, den: real, num: real): real { s * den + t * (c * den - num) }

  lemma ShiftsAdd(s: real, t: real, c: real, d: real, e: real, m: real, n: real)
    ensures Shift(s, t, c, d + e, m + n) == Shift(s, t, c, d, m) + Shift(s, t, c, e, n)
  {
    assert s * (d + e) == s * d + s * e;
    assert c * (d + e) == c * d + c * e;
    assert t * ((c * d - m) + (c * e - n)) == t * (c * d - m) + t * (c * e - n);
  }

  lemma ShiftOfNothing(s: real, t: real, c: real)
    ensures Shift(s, t, c, 0.0, 0.0) == 0.0
  {
  }

  // One term of the sum, around another anchor value.
  lemma TermShifts(a: real, c: real, p: Point)
    ensures Square(Residual(a, p)) ==
            Square(Residual(c, p)) + Shift(Square(a - c), 2.0 * (a - c), c, Square(p.b), Product(p.b, p.actual))
  {
    var b, y := p.b, p.actual;
    var v, d := c * b - y, (a - c) * b;
    assert a * b - y == v + d;
    SquareOfSum(v, d);
    assert Square(d) == Square(a - c) * Square(b) by {
      SquareOfProduct(a - c, b);
    }
    assert b * v == c * Square(b) - b * y;
    assert 2.0 * d * v == 2.0 * (a - c) * (b * v);
  }

  lemma SquareOfSum(v: real, d: real)
    ensures Square(v + d) == Square(v) + Square(d) + 2.0 * d * v
  {
  }

  lemma SquareOfProduct(u: real, v: real)
    ensures Square(u * v) == Square(u) * Square(v)
  {
    assert (u * v) * (u * v) == (u * u) * (v * v);
  }

  lemma {:induction false} ErrorShifts(a: real, c: real, pts: seq<Point>)
    ensures SquaredError(a, pts) == SquaredError(c, pts) + Shift(Square(a - c), 2.0 * (a - c), c, Den(pts), Num(pts))
  {
    hide Square, Product, Shift, Residual;
    var s, t := Square(a - c), 2.0 * (a - c);
    if pts == [] {
      ShiftOfNothing(s, t, c);
    } else {
      var front := pts[..|pts| - 1];
      var p := pts[|pts| - 1];
      ErrorShifts(a, c, front);
      TermShifts(a, c, p);
      ShiftsAdd(s, t, c, Den(front), Square(p.b), Num(front), Product(p.b, p.actual));
    }
  }

  // The closed form is the one minimum: any other anchor errs more, by den times the squared distance.
  lemma BestIsStrict(a: real, best: real, pts: seq<Point>)
    requires Den(pts) > 0.0 && best == Num(pts) / Den(pts)
    ensures SquaredError(a, pts) == SquaredError(best, pts) + Product(Square(a - best), Den(pts))
    ensures a != best ==> SquaredError(a, pts) > SquaredError(best, pts)
  {
    hide Square, Product, Shift, Residual;
    ErrorShifts(a, best, pts);
    ShiftAtBest(Square(a - best), 2.0 * (a - best), best, Den(pts), Num(pts));
    SquareIsPositive(a - best);
    if a != best {
      ProductIsPositive(Square(a - best), Den(pts));
    }
  }

  lemma ShiftAtBest(s: real, t: real, c: real, den: real, num: real)
    requires den > 0.0 && c == num / den
    ensures Shift(s, t, c, den, num) == Product(s, den)
  {
    QuotientTimes(num, den);
    TimesZero(t, c * den - num);
  }

  lemma QuotientTimes(n: real, d: real)
    requires d > 0.0
    ensures n / d * d == n
  {
  }

  lemma TimesZero(x: real, y: real)
    requires y == 0.0
    ensures x * y == 0.0
  {
  }

  // ---- Forward fill ------------------------------------------------------------------------------------

  datatype Close = Close(date: int, price: real)

  predicate ByDate(raw: seq<Close>) { forall i, j :: 0 <= i < j < |raw| ==> raw[i].date <= raw[j].date }

  // raw[i] is the most recent close on or before d.
  predicate IsLatest(raw: seq<Close>, d: int, i: nat) {
    i < |raw| && raw[i].date <= d && forall j :: i < j < |raw| ==> raw[j].date > d
  }

  // Each day of [start, end] gets the most recent close at or before it, and only days after the first close
  // get one.
  method ForwardFill(raw: seq<Close>, start: int, end: int) returns (out: map<int, real>)
    requires raw != [] && ByDate(raw)
    ensures forall d :: d in out <==> start <= d <= end && raw[0].date <= d
    ensures forall d :: d in out ==> exists i: nat :: IsLatest(raw, d, i) && out[d] == raw[i].price
  {
    out := map[];
    var i := 0;
    var cur := start;
    while i + 1 < |raw| && raw[i + 1].date <= start
      invariant 0 <= i < |raw| && (i > 0 ==> raw[i].date <= start)
    {
      i := i + 1;
    }
    while cur <= end
      invariant 0 <= i < |raw| && start <= cur && (i > 0 ==> raw[i].date <= cur)
      invariant forall d :: d in out <==> start <= d <= end && d < cur && raw[0].date <= d
      invariant forall d :: d in out ==> exists k: nat :: IsLatest(raw, d, k) && out[d] == raw[k].price
      decreases end - cur
    {
      while i + 1 < |raw| && raw[i + 1].date <= cur
        invariant 0 <= i < |raw| && (i > 0 ==> raw[i].date <= cur)
      {
        i := i + 1;
      }
      if raw[i].date <= cur {
        assert IsLatest(raw, cur, i);
        out := out[cur := raw[i].price];
      }
      cur := cur + 1;
    }
  }
}
