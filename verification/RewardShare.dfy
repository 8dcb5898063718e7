// mm-setup-main/kalshi_rewards_app.py: which contracts earn liquidity rewards. The share is computed
// twice, by expanding the book into single contracts and by walking its levels; orders that earn
// nothing are found a third way, from the size ahead of them.
module RewardShare {
  import opened Numeric

  datatype Level = Level(px: int, sz: real)

  datatype Order = Order(ticker: string, side: string, px: int, size: int)

  // int(x) truncates toward zero.
  function Trunc(x: real): int { if x >= 0.0 then x.Floor else -(-x).Floor }

  // The whole contracts in a size, its fraction dropped.
  lemma TruncDropsTheFraction(x: real, n: int)
    ensures x >= 0.0 ==> (Trunc(x) == n <==> n as real <= x < n as real + 1.0)
    ensures x <= 0.0 ==> (Trunc(x) == n <==> n as real - 1.0 < x <= n as real)
  {
  }

  function Contracts(l: Level): nat { Max(0, Trunc(l.sz)) }

  function Repeat(px: int, n: nat): (r: seq<int>)
    ensures |r| == n && forall i :: 0 <= i < n ==> r[i] == px
  {
    seq(n, _ => px)
  }

  // The first `cap` contracts of the book, each as its price.
  function Expand(levels: seq<Level>, cap: int): seq<int> {
    if levels == [] then []
    else
      var before := Expand(levels[..|levels| - 1], cap);
      var l := levels[|levels| - 1];
      before + Repeat(l.px, Min(Contracts(l), Max(0, cap - |before|)))
  }

  // How many contracts of a level are counted behind those of `front`.
  function Room(front: seq<Level>, l: Level, cap: int): nat {
    Min(Contracts(l), Max(0, cap - |Expand(front, cap)|))
  }

  method ExpandLevelsToContracts(levels: seq<Level>, cap: int) returns (out: seq<int>)
    ensures out == Expand(levels, cap)
  {
    hide Repeat, Room, Expand;
    ExpandNone(levels[..0], cap);
    out := [];
    for i := 0 to |levels|
      invariant out == Expand(levels[..i], cap)
    {
      ghost var before := out;
      var l := levels[i];
      NextLevel(levels, cap, i);
      RoomLeft(levels[..i], l, cap);
      RepeatNone(l.px);
      var n := Trunc(l.sz);
      var k := 0;
      while k < n
        invariant 0 <= k <= Max(0, n) && k <= Max(0, cap - |before|)
        invariant out == before + Repeat(l.px, k)
      {
        if |out| >= cap {
          FullStaysFull(levels, cap, i + 1);
          return;
        }
        RepeatMore(before, l.px, k);
        out := out + [l.px];
        k := k + 1;
      }
    }
    assert levels[..|levels|] == levels;
  }

  lemma ExpandNone(levels: seq<Level>, cap: int)
    requires levels == []
    ensures Expand(levels, cap) == []
  {
  }

  lemma RoomLeft(front: seq<Level>, l: Level, cap: int)
    ensures Room(front, l, cap) == Min(Max(0, Trunc(l.sz)), Max(0, cap - |Expand(front, cap)|))
  {
  }

  lemma NextLevel(levels: seq<Level>, cap: int, i: nat)
    requires i < |levels|
    ensures Expand(levels[..i + 1], cap) ==
            Expand(levels[..i], cap) + Repeat(levels[i].px, Room(levels[..i], levels[i], cap))
  {
    assert levels[..i + 1][..i] == levels[..i];
  }

  lemma RepeatNone(px: int)
    ensures Repeat(px, 0) == []
  {
  }

  lemma RepeatMore(before: seq<int>, px: int, k: nat)
    ensures before + Repeat(px, k + 1) == before + Repeat(px, k) + [px]
  {
    assert Repeat(px, k + 1) == Repeat(px, k) + [px];
  }

  lemma {:induction false} FullStaysFull(levels: seq<Level>, cap: int, i: nat)
    requires i <= |levels|
    ensures |Expand(levels[..i], cap)| >= cap ==> Expand(levels[..i], cap) == Expand(levels, cap)
    decreases |levels| - i
  {
    if i == |levels| {
      assert levels[..i] == levels;
    } else {
      assert levels[..i + 1][..i] == levels[..i];
      FullStaysFull(levels, cap, i + 1);
    }
  }

  function Sum(s: seq<int>): int { if s == [] then 0 else Sum(s[..|s| - 1]) + s[|s| - 1] }

  datatype Walk = Walk(seen: int, inTop: int, weight: int)

  function MineAt(mine: map<int, int>, px: int): int { if px in mine then mine[px] else 0 }

  // The walk, one level on.
  function WalkOn(w: Walk, l: Level, cap: int, mine: int): Walk {
    if cap - w.seen <= 0 then w
    else
      var here := Min(Trunc(l.sz), cap - w.seen);
      var myHere := Min(mine, here);
      Walk(w.seen + here, w.inTop + myHere, w.weight + Times(myHere, l.px))
  }

  function WalkLevels(levels: seq<Level>, cap: int, mine: map<int, int>): Walk {
    if levels == [] then Walk(0, 0, 0)
    else
      var l := levels[|levels| - 1];
      WalkOn(WalkLevels(levels[..|levels| - 1], cap, mine), l, cap, MineAt(mine, l.px))
  }

  lemma {:induction false} DoneStaysDone(levels: seq<Level>, cap: int, mine: map<int, int>, i: nat)
    requires i <= |levels|
    ensures cap - WalkLevels(levels[..i], cap, mine).seen <= 0 ==>
              WalkLevels(levels[..i], cap, mine) == WalkLevels(levels, cap, mine)
    decreases |levels| - i
  {
    if i == |levels| {
      assert levels[..i] == levels;
    } else {
      assert levels[..i + 1][..i] == levels[..i];
      DoneStaysDone(levels, cap, mine, i + 1);
    }
  }

  // Total size of our orders at a price.
  function SizeAt(orders: seq<Order>, px: int): int {
    if orders == [] then 0
    else SizeAt(orders[..|orders| - 1], px) + if orders[|orders| - 1].px == px then orders[|orders| - 1].size else 0
  }

  // Sizes of orders at one price add up.
  lemma {:induction false} SizesAdd(a: seq<Order>, b: seq<Order>, px: int)
    ensures SizeAt(a + b, px) == SizeAt(a, px) + SizeAt(b, px)
    ensures forall o: Order :: o.px == px ==> SizeAt([o], px) == o.size
  {
    if b == [] {
      assert a + b == a;
    } else {
      var front := b[..|b| - 1];
      SizesAdd(a, front, px);
      assert (a + b)[..|a + b| - 1] == a + front;
    }
    forall o: Order | o.px == px ensures SizeAt([o], px) == o.size {
      assert [o][..0] == [];
    }
  }

  function Mine(orders: seq<Order>): map<int, int> {
    map px | px in (set o | o in orders :: o.px) :: SizeAt(orders, px)
  }

  method ComputeRewardShare(book: seq<Level>, orders: seq<Order>, cap: int)
    returns (myWeight: int, totalWeight: int, myInTop: int, inTop: nat)
    ensures Walk(Walked(book, cap, orders).seen, myInTop, myWeight) == Walked(book, cap, orders)
    ensures totalWeight == Sum(Expand(book, cap)) && inTop == |Expand(book, cap)|
  {
    var qualifying := ExpandLevelsToContracts(book, cap);
    totalWeight, inTop := Sum(qualifying), |qualifying|;
    var mine := OwnSizes(orders);
    MineIsSizeAt(orders);
    SameSizesSameWalk(book, cap, mine, Mine(orders));
    var seen;
    seen, myInTop, myWeight := WalkBook(book, cap, mine);
  }

  // my_at
  method OwnSizes(orders: seq<Order>) returns (mine: map<int, int>)
    ensures forall px :: MineAt(mine, px) == SizeAt(orders, px)
  {
    mine := map[];
    for i := 0 to |orders|
      invariant forall px :: MineAt(mine, px) == SizeAt(orders[..i], px)
    {
      assert orders[..i + 1][..i] == orders[..i];
      mine := mine[orders[i].px := MineAt(mine, orders[i].px) + orders[i].size];
    }
    assert orders[..|orders|] == orders;
  }

  lemma {:induction false} SameSizesSameWalk(book: seq<Level>, cap: int, mine: map<int, int>, same: map<int, int>)
    requires forall px :: MineAt(mine, px) == MineAt(same, px)
    ensures WalkLevels(book, cap, mine) == WalkLevels(book, cap, same)
  {
    if book != [] {
      SameSizesSameWalk(book[..|book| - 1], cap, mine, same);
    }
  }

  method WalkBook(book: seq<Level>, cap: int, mine: map<int, int>) returns (seen: int, inTop: int, weight: int)
    ensures Walk(seen, inTop, weight) == WalkLevels(book, cap, mine)
  {
    seen, inTop, weight := 0, 0, 0;
    for i := 0 to |book|
      invariant Walk(seen, inTop, weight) == WalkLevels(book[..i], cap, mine)
    {
      WalkNext(book, cap, mine, i);
      var room := cap - seen;
      if room <= 0 {
        DoneStaysDone(book, cap, mine, i);
        return;
      }
      var here := Min(Trunc(book[i].sz), room);
      var myHere := Min(MineAt(mine, book[i].px), here);
      inTop, weight, seen := inTop + myHere, weight + Times(myHere, book[i].px), seen + here;
    }
    assert book[..|book|] == book;
  }

  lemma WalkNext(book: seq<Level>, cap: int, mine: map<int, int>, i: nat)
    requires i < |book|
    ensures WalkLevels(book[..i + 1], cap, mine) ==
            WalkOn(WalkLevels(book[..i], cap, mine), book[i], cap, MineAt(mine, book[i].px))
  {
    assert book[..i + 1][..i] == book[..i];
  }

  function Walked(book: seq<Level>, cap: int, orders: seq<Order>): Walk { WalkLevels(book, cap, Mine(orders)) }

  lemma {:induction false} NoOrderNoSize(orders: seq<Order>, px: int)
    requires px !in (set o | o in orders :: o.px)
    ensures SizeAt(orders, px) == 0
  {
    if orders != [] {
      var front := orders[..|orders| - 1];
      assert forall o :: o in front ==> o in orders;
      NoOrderNoSize(front, px);
      assert orders[|orders| - 1] in orders;
    }
  }

  lemma MineIsSizeAt(orders: seq<Order>)
    ensures forall px :: MineAt(Mine(orders), px) == SizeAt(orders, px)
  {
    forall px | px !in Mine(orders) ensures SizeAt(orders, px) == 0 {
      NoOrderNoSize(orders, px);
    }
  }

  // ---- The walk agrees with the expansion ----------------------------------------------------------

  predicate NonNegative(book: seq<Level>) { forall i :: 0 <= i < |book| ==> book[i].sz >= 0.0 }

  // Best price first, one level a price, as get_orderbook returns it once equal prices are merged.
  predicate StrictlyDescending(book: seq<Level>) {
    forall i, j :: 0 <= i < j < |book| ==> book[i].px > book[j].px
  }

  function Times(n: int, px: int): int { n * px }

  // Our credit at a price, contract by contract: as many of the counted contracts as are ours.
  function Credit(counted: seq<int>, mine: map<int, int>, px: int): int {
    Min(MineAt(mine, px), multiset(counted)[px])
  }

  function CreditSum(book: seq<Level>, counted: seq<int>, mine: map<int, int>): int {
    if book == [] then 0
    else CreditSum(book[..|book| - 1], counted, mine) + Credit(counted, mine, book[|book| - 1].px)
  }

  function CreditWeight(book: seq<Level>, counted: seq<int>, mine: map<int, int>): int {
    if book == [] then 0
    else
      var px := book[|book| - 1].px;
      CreditWeight(book[..|book| - 1], counted, mine) + Times(Credit(counted, mine, px), px)
  }

  lemma {:induction false} SeenIsExpandedLength(book: seq<Level>, cap: int, mine: map<int, int>)
    requires NonNegative(book)
    ensures |Expand(book, cap)| == WalkLevels(book, cap, mine).seen <= Max(0, cap)
  {
    if book != [] {
      SeenIsExpandedLength(book[..|book| - 1], cap, mine);
    }
  }

  lemma {:induction false} RepeatCounts(px: int, n: nat)
    ensures multiset(Repeat(px, n)) == multiset{}[px := n]
  {
    if n > 0 {
      RepeatCounts(px, n - 1);
      assert Repeat(px, n) == Repeat(px, n - 1) + [px];
    } else {
      assert Repeat(px, n) == [];
    }
  }

  // Only levels at a price put contracts at it.
  lemma {:induction false} ExpandedPrices(book: seq<Level>, cap: int, px: int)
    requires forall i :: 0 <= i < |book| ==> book[i].px != px
    ensures multiset(Expand(book, cap))[px] == 0
  {
    if book != [] {
      ExpandedPrices(book[..|book| - 1], cap, px);
      var l := book[|book| - 1];
      RepeatAddsAt(Expand(book[..|book| - 1], cap), l.px, Room(book[..|book| - 1], l, cap), px);
    }
  }

  lemma {:induction false} SameCountsSameCredit(book: seq<Level>, a: seq<int>, b: seq<int>, mine: map<int, int>)
    requires forall i :: 0 <= i < |book| ==> multiset(a)[book[i].px] == multiset(b)[book[i].px]
    ensures CreditSum(book, a, mine) == CreditSum(book, b, mine)
    ensures CreditWeight(book, a, mine) == CreditWeight(book, b, mine)
  {
    if book != [] {
      SameCountsSameCredit(book[..|book| - 1], a, b, mine);
    }
  }

  // One more level changes the counts at its own price only.
  lemma LastLevelCounts(book: seq<Level>, front: seq<Level>, l: Level, cap: int)
    requires book != [] && StrictlyDescending(book) && front == book[..|book| - 1] && l == book[|book| - 1]
    ensures multiset(Expand(book, cap))[l.px] == Min(Contracts(l), Max(0, cap - |Expand(front, cap)|))
    ensures forall i :: 0 <= i < |front| ==>
              multiset(Expand(book, cap))[front[i].px] == multiset(Expand(front, cap))[front[i].px]
  {
    hide Expand, Contracts, StrictlyDescending;
    FrontDiffers(book, front, l);
    ExpandedPrices(front, cap, l.px);
    LastLevelAdds(book, front, l, cap, l.px);
    forall i | 0 <= i < |front|
      ensures multiset(Expand(book, cap))[front[i].px] == multiset(Expand(front, cap))[front[i].px]
    {
      LastLevelAdds(book, front, l, cap, front[i].px);
    }
  }

  lemma FrontDiffers(book: seq<Level>, front: seq<Level>, l: Level)
    requires book != [] && StrictlyDescending(book) && front == book[..|book| - 1] && l == book[|book| - 1]
    ensures forall i :: 0 <= i < |front| ==> front[i].px != l.px
  {
  }

  lemma LastLevelAdds(book: seq<Level>, front: seq<Level>, l: Level, cap: int, px: int)
    requires book != [] && front == book[..|book| - 1] && l == book[|book| - 1]
    ensures multiset(Expand(book, cap))[px] ==
            multiset(Expand(front, cap))[px] + if px == l.px then Room(front, l, cap) else 0
  {
    assert Expand(book, cap) == Expand(front, cap) + Repeat(l.px, Room(front, l, cap));
    hide Expand, Repeat, Room;
    RepeatAddsAt(Expand(front, cap), l.px, Room(front, l, cap), px);
  }

  lemma RepeatAddsAt(s: seq<int>, px: int, n: nat, q: int)
    ensures multiset(s + Repeat(px, n))[q] == multiset(s)[q] + if q == px then n else 0
  {
    RepeatCounts(px, n);
    assert multiset(s + Repeat(px, n)) == multiset(s) + multiset(Repeat(px, n));
  }

  // What the last level adds to the walk is our credit at its price.
  lemma LastLevelCredit(book: seq<Level>, cap: int, mine: map<int, int>)
    requires book != [] && NonNegative(book) && StrictlyDescending(book)
    requires forall px :: px in mine ==> mine[px] >= 0
    ensures var px := book[|book| - 1].px; var credit := Credit(Expand(book, cap), mine, px);
            var w := WalkLevels(book, cap, mine); var v := WalkLevels(book[..|book| - 1], cap, mine);
            w.inTop == v.inTop + credit && w.weight == v.weight + Times(credit, px)
  {
    var front := book[..|book| - 1];
    var l := book[|book| - 1];
    SeenIsExpandedLength(front, cap, mine);
    LastLevelCounts(book, front, l, cap);
    CreditArithmetic(MineAt(mine, l.px), Trunc(l.sz), cap - WalkLevels(front, cap, mine).seen,
                     multiset(Expand(book, cap))[l.px]);
  }

  lemma CreditArithmetic(mine: int, n: int, room: int, counted: int)
    requires mine >= 0 && n >= 0 && counted == Min(Max(0, n), Max(0, room))
    ensures Min(mine, counted) == if room <= 0 then 0 else Min(mine, Min(n, room))
  {
  }

  // The level walk credits us exactly what the contract-by-contract count does, in number and in weight.
  lemma {:induction false} WalkIsUnaryCredit(book: seq<Level>, cap: int, mine: map<int, int>)
    requires NonNegative(book) && StrictlyDescending(book)
    requires forall px :: px in mine ==> mine[px] >= 0
    ensures WalkLevels(book, cap, mine).inTop == CreditSum(book, Expand(book, cap), mine)
    ensures WalkLevels(book, cap, mine).weight == CreditWeight(book, Expand(book, cap), mine)
  {
    if book != [] {
      var front := book[..|book| - 1];
      WalkIsUnaryCredit(front, cap, mine);
      LastLevelCredit(book, cap, mine);
      LastLevelCounts(book, front, book[|book| - 1], cap);
      SameCountsSameCredit(front, Expand(book, cap), Expand(front, cap), mine);
    }
  }

  lemma MulMonotone(a: int, b: int, c: int)
    requires a <= b && c >= 0
    ensures a * c <= b * c
  {
    assert (b - a) * c >= 0;
  }

  // Our count and weight never exceed the totals they are divided by, nor the cap.
  lemma {:induction false} ShareIsAtMostOne(book: seq<Level>, cap: int, mine: map<int, int>)
    requires NonNegative(book) && forall i :: 0 <= i < |book| ==> book[i].px >= 0
    ensures var w := WalkLevels(book, cap, mine); var e := Expand(book, cap);
            w.inTop <= |e| <= Max(0, cap) && w.weight <= Sum(e)
  {
    hide Repeat, Expand, Sum;
    SeenIsExpandedLength(book, cap, mine);
    if book == [] {
      NothingWeighsNothing(cap);
    } else {
      var n := |book| - 1;
      var l := book[n];
      ShareIsAtMostOne(book[..n], cap, mine);
      SeenIsExpandedLength(book[..n], cap, mine);
      assert book[..n + 1] == book;
      NextLevel(book, cap, n);
      SumRepeat(Expand(book[..n], cap), l.px, Room(book[..n], l, cap));
      WalkOnAtMost(WalkLevels(book[..n], cap, mine), l, cap, MineAt(mine, l.px));
    }
  }

  lemma NothingWeighsNothing(cap: int)
    ensures Sum(Expand([], cap)) == 0
  {
  }

  lemma WalkOnAtMost(w: Walk, l: Level, cap: int, mine: int)
    requires l.sz >= 0.0 && l.px >= 0
    ensures var v := WalkOn(w, l, cap, mine); var n := Min(Contracts(l), Max(0, cap - w.seen));
            v.inTop <= w.inTop + n && v.weight <= w.weight + n * l.px
  {
    if cap - w.seen > 0 {
      MulMonotone(Min(mine, Min(Trunc(l.sz), cap - w.seen)), Min(Contracts(l), Max(0, cap - w.seen)), l.px);
    } else {
      assert 0 * l.px == 0;
    }
  }

  lemma {:induction false} SumRepeat(s: seq<int>, px: int, n: nat)
    ensures Sum(s + Repeat(px, n)) == Sum(s) + n * px
  {
    if n == 0 {
      assert s + Repeat(px, n) == s;
    } else {
      SumRepeat(s, px, n - 1);
      assert s + Repeat(px, n) == s + Repeat(px, n - 1) + [px];
      assert (s + Repeat(px, n - 1) + [px])[..|s| + n - 1] == s + Repeat(px, n - 1);
      assert n * px == (n - 1) * px + px;
    }
  }

  // The prices of the contracts the walk sees, level by level.
  function WalkedPrices(levels: seq<Level>, cap: int, mine: map<int, int>): int {
    if levels == [] then 0
    else
      var front := levels[..|levels| - 1];
      var l := levels[|levels| - 1];
      var seen := WalkLevels(levels, cap, mine).seen - WalkLevels(front, cap, mine).seen;
      WalkedPrices(front, cap, mine) + Times(seen, l.px)
  }

  // They add up to the total weight, which the program sums over the expansion.
  lemma {:induction false} WalkedPricesAreTotalWeight(book: seq<Level>, cap: int, mine: map<int, int>)
    requires NonNegative(book)
    ensures WalkedPrices(book, cap, mine) == Sum(Expand(book, cap))
  {
    hide Repeat, WalkLevels, Contracts;
    if book != [] {
      var n := |book| - 1;
      WalkedPricesAreTotalWeight(book[..n], cap, mine);
      SeenIsExpandedLength(book[..n], cap, mine);
      SeenIsExpandedLength(book, cap, mine);
      assert book[..n + 1] == book;
      NextLevel(book, cap, n);
      SumRepeat(Expand(book[..n], cap), book[n].px, Room(book[..n], book[n], cap));
    }
  }

  // ---- The cancel rule -----------------------------------------------------------------------------

  function SizeBetter(book: seq<Level>, px: int): real {
    if book == [] then 0.0
    else SizeBetter(book[..|book| - 1], px) + if book[|book| - 1].px > px then book[|book| - 1].sz else 0.0
  }

  function CumulativeStrictlyBetter(book: seq<Level>, px: int): int { Trunc(SizeBetter(book, px)) }

  function ContractsIn(book: seq<Level>): nat {
    if book == [] then 0 else ContractsIn(book[..|book| - 1]) + Contracts(book[|book| - 1])
  }

  predicate Integral(book: seq<Level>) { forall i :: 0 <= i < |book| ==> book[i].sz == Trunc(book[i].sz) as real }

  lemma {:induction false} ExpandedLength(book: seq<Level>, cap: int)
    ensures |Expand(book, cap)| == Min(ContractsIn(book), Max(0, cap))
  {
    if book != [] {
      ExpandedLength(book[..|book| - 1], cap);
    }
  }

  // In a descending book the size strictly better than level k's price is the size of the levels above.
  lemma {:induction false} BetterIsAbove(book: seq<Level>, k: nat, n: nat)
    requires k < |book| && n <= |book| && StrictlyDescending(book)
    ensures SizeBetter(book[..n], book[k].px) == SizeBetter(book[..Min(n, k)], book[k].px)
  {
    if n > k {
      assert book[..n][..n - 1] == book[..n - 1];
      BetterIsAbove(book, k, n - 1);
    }
  }

  // Truncating level by level never counts more than truncating the sum; on whole sizes they agree.
  lemma {:induction false} TruncatedSums(book: seq<Level>, px: int)
    requires NonNegative(book) && forall i :: 0 <= i < |book| ==> book[i].px > px
    ensures SizeBetter(book, px) >= ContractsIn(book) as real
    ensures Integral(book) ==> SizeBetter(book, px) == ContractsIn(book) as real
  {
    if book != [] {
      TruncatedSums(book[..|book| - 1], px);
    }
  }

  // How many contracts of level k are counted depends on the levels above it only.
  lemma {:induction false} CountedAt(book: seq<Level>, cap: int, k: nat, n: nat)
    requires k < n <= |book| && StrictlyDescending(book)
    ensures multiset(Expand(book[..n], cap))[book[k].px] ==
            Min(Contracts(book[k]), Max(0, cap - ContractsIn(book[..k])))
  {
    hide Expand;
    var b := book[..n];
    var front := book[..n - 1];
    LastLevelCounts(b, front, book[n - 1], cap);
    if k == n - 1 {
      ExpandedLength(front, cap);
    } else {
      CountedAt(book, cap, k, n - 1);
      assert front[k] == book[k];
      CountUnchanged(b, front, cap, k);
    }
  }

  lemma CountUnchanged(book: seq<Level>, front: seq<Level>, cap: int, k: nat)
    requires k < |front| && forall i :: 0 <= i < |front| ==>
               multiset(Expand(book, cap))[front[i].px] == multiset(Expand(front, cap))[front[i].px]
    ensures multiset(Expand(book, cap))[front[k].px] == multiset(Expand(front, cap))[front[k].px]
  {
  }

  // The levels ahead of level k hold fewer contracts than the cap, but enough size: the fractions, dropped
  // level by level from the share and only once by the rule, make the difference.
  predicate FractionsFill(book: seq<Level>, cap: int, k: nat)
    requires k < |book|
  {
    ContractsIn(book[..k]) < cap <= CumulativeStrictlyBetter(book, book[k].px)
  }

  // An order resting at level k earns nothing only if the rule cancels it. The rule cancels nothing else
  // exactly unless fractions fill the cap ahead of it, which they never do on whole sizes.
  lemma CancelRuleFindsZeroEarners(book: seq<Level>, cap: int, mine: map<int, int>, k: nat)
    requires NonNegative(book) && StrictlyDescending(book) && k < |book| && book[k].sz >= 1.0
    requires MineAt(mine, book[k].px) >= 1
    ensures var credit := Credit(Expand(book, cap), mine, book[k].px);
            var cancelled := CumulativeStrictlyBetter(book, book[k].px) >= cap;
            && (credit == 0 ==> cancelled)
            && ((credit == 0 <==> cancelled) <==> !FractionsFill(book, cap, k))
    ensures Integral(book) ==> !FractionsFill(book, cap, k)
  {
    hide Expand;
    var px := book[k].px;
    assert book[..|book|] == book;
    CountedAt(book, cap, k, |book|);
    BetterIsAbove(book, k, |book|);
    TruncatedSums(book[..k], px);
  }

  // With fractional sizes it can cancel an order that earns: two half contracts ahead make one.
  lemma FractionsCanCancelAnEarner()
    ensures var book := [Level(50, 0.5), Level(49, 0.5), Level(48, 1.0)];
            && NonNegative(book) && StrictlyDescending(book)
            && Credit(Expand(book, 1), map[48 := 1], 48) == 1 && CumulativeStrictlyBetter(book, 48) >= 1
            && FractionsFill(book, 1, 2)
  {
    var book := [Level(50, 0.5), Level(49, 0.5), Level(48, 1.0)];
    var two, one := book[..2], book[..1];
    assert two[..1] == one && one[..0] == [] && one[0] == book[0] && two[1] == book[1];
    assert Contracts(book[0]) == 0 && Contracts(book[1]) == 0;
    assert ContractsIn(one) == 0 && ContractsIn(two) == 0;
    assert SizeBetter(one, 48) == 0.5 && SizeBetter(two, 48) == 1.0 && SizeBetter(book, 48) == 1.0;
    hide Expand, SizeBetter, ContractsIn;
    CancelRuleFindsZeroEarners(book, 1, map[48 := 1], 2);
  }

  // cancel_zero_reward_orders: `targets` has the programme's target size of each rewarded market.
  predicate IsLoser(targets: map<string, int>, books: map<(string, string), seq<Level>>, o: Order) {
    o.ticker !in targets ||
    CumulativeStrictlyBetter(if (o.ticker, o.side) in books then books[(o.ticker, o.side)] else [], o.px)
      >= targets[o.ticker]
  }

  function Losers(targets: map<string, int>, books: map<(string, string), seq<Level>>, buys: seq<Order>): seq<Order> {
    if buys == [] then []
    else
      var o := buys[|buys| - 1];
      Losers(targets, books, buys[..|buys| - 1]) + if IsLoser(targets, books, o) then [o] else []
  }

  method SelectLosers(targets: map<string, int>, books: map<(string, string), seq<Level>>, buys: seq<Order>)
    returns (losers: seq<Order>)
    ensures losers == Losers(targets, books, buys)
  {
    losers := [];
    for i := 0 to |buys|
      invariant losers == Losers(targets, books, buys[..i])
    {
      assert buys[..i + 1][..i] == buys[..i];
      var o := buys[i];
      if o.ticker !in targets {
        losers := losers + [o];
      } else {
        var levels := if (o.ticker, o.side) in books then books[(o.ticker, o.side)] else [];
        var ahead := CumulativeStrictlyBetter(levels, o.px);
        if ahead >= targets[o.ticker] {
          losers := losers + [o];
        }
      }
    }
    assert buys[..|buys|] == buys;
  }

  lemma {:induction false} InLosers(targets: map<string, int>, books: map<(string, string), seq<Level>>,
                                    buys: seq<Order>, o: Order)
    ensures o in Losers(targets, books, buys) <==> o in buys && IsLoser(targets, books, o)
  {
    if buys != [] {
      InLosers(targets, books, buys[..|buys| - 1], o);
      assert buys == buys[..|buys| - 1] + [buys[|buys| - 1]];
    }
  }

  // An order without a programme is always cancelled. On a descending book that shows the order, a rewarded one
  // is cancelled exactly when the share computed from that book and our orders on that side credits its price
  // level nothing, or fractions fill the cap.
  lemma CancelledExactlyWhenUnrewarded(targets: map<string, int>, books: map<(string, string), seq<Level>>,
                                       buys: seq<Order>, sideOrders: seq<Order>, o: Order, k: nat)
    requires o in buys
    requires o.ticker in targets ==>
               && (o.ticker, o.side) in books && SizeAt(sideOrders, o.px) >= 1
               && var book := books[(o.ticker, o.side)];
                  NonNegative(book) && StrictlyDescending(book) && k < |book| && book[k].px == o.px && book[k].sz >= 1.0
    ensures o in Losers(targets, books, buys) <==>
            || o.ticker !in targets
            || var book, cap := books[(o.ticker, o.side)], targets[o.ticker];
               Credit(Expand(book, cap), Mine(sideOrders), o.px) == 0 || FractionsFill(book, cap, k)
  {
    InLosers(targets, books, buys, o);
    if o.ticker in targets {
      MineIsSizeAt(sideOrders);
      CancelRuleFindsZeroEarners(books[(o.ticker, o.side)], targets[o.ticker], Mine(sideOrders), k);
    }
  }
}
