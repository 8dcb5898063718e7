// deploy/lip_mode.py: the order-update half of a strike step, against an exchange that fills, refuses
// and loses answers as it likes. `_resting` is the program's only memory of what is live.
module OrderTracking {
  import opened Numeric

  datatype OrderSide = BidSide | AskSide

  type Slot = (string, OrderSide)  // ticker and side

  datatype Order = Order(slot: Slot, px: int, size: int)

  // The bid_* or ask_* entries of _resting[ticker]; missing ones read as these defaults.
  datatype Rest = Rest(id: string, px: int, size: int)

  const NOTHING := Rest("", 0, 0)

  // What is live on the exchange, every id it has issued, and what the program remembers.
  datatype World = World(resting: map<Slot, Rest>, live: map<string, Order>, issued: set<string>)

  function At(w: World, slot: Slot): Rest { if slot in w.resting then w.resting[slot] else NOTHING }

  // Lost: the exchange did it, the program saw an error. Nameless: it did it and reported success, but no id.
  datatype AmendAnswer = AmendOk | AmendRefused | AmendLost

  datatype PlaceAnswer = PlaceOk(id: string) | PlaceRefused | PlaceLost(lostId: string) | PlaceNameless(lostId: string)

  datatype Answers = Answers(amend: AmendAnswer, cancelTakesEffect: bool, place: PlaceAnswer)

  // What the quoting half decided for one side: pull it (sticky COOLDOWN), or quote px; `stale` says the
  // resting order no longer qualifies or a refresh is due.
  datatype Decision = Skip | Quote(px: int, size: int, stale: bool)

  function Remove(m: map<string, Order>, id: string): map<string, Order> { map k | k in m && k != id :: m[k] }

  // ---- The exchange --------------------------------------------------------------------------------

  predicate AmendApplies(w: World, id: string, a: AmendAnswer) { id in w.live && !a.AmendRefused? }

  predicate AmendSeenOk(w: World, id: string, a: AmendAnswer) { id in w.live && a.AmendOk? }

  function Amend(w: World, id: string, px: int, size: int, a: AmendAnswer): World {
    if AmendApplies(w, id, a) then w.(live := w.live[id := w.live[id].(px := px, size := size)]) else w
  }

  function Cancel(w: World, id: string, takesEffect: bool): World {
    if takesEffect then w.(live := Remove(w.live, id)) else w
  }

  function Open(w: World, id: string, o: Order): World { w.(live := w.live[id := o], issued := w.issued + {id}) }

  // An exchange never issues the empty id, nor an id twice.
  predicate NewId(w: World, id: string) { id != "" && id !in w.issued }

  predicate Answerable(w: World, a: PlaceAnswer) {
    match a
    case PlaceOk(id) => NewId(w, id)
    case PlaceRefused => true
    case PlaceLost(id) => NewId(w, id)
    case PlaceNameless(id) => NewId(w, id)
  }

  // A fill: the order shrinks or goes.
  function Fill(w: World, id: string, remaining: int): World {
    if id !in w.live then w
    else if remaining <= 0 then w.(live := Remove(w.live, id))
    else w.(live := w.live[id := w.live[id].(size := Min(w.live[id].size, remaining))])
  }

  // ---- The program ---------------------------------------------------------------------------------

  function Remember(w: World, slot: Slot, r: Rest): World { w.(resting := w.resting[slot := r]) }

  // _place_bid, _place_ask
  function Place(w: World, slot: Slot, px: int, size: int, a: PlaceAnswer): World {
    match a
    case PlaceOk(id) => Remember(Open(w, id, Order(slot, px, size)), slot, Rest(id, px, size))
    case PlaceRefused => Remember(w, slot, NOTHING)
    case PlaceLost(id) => Remember(Open(w, id, Order(slot, px, size)), slot, NOTHING)
    case PlaceNameless(id) => Remember(Open(w, id, Order(slot, px, size)), slot, Rest("", px, size))
  }

  predicate NeedsUpdate(cur: Rest, d: Decision) { d.Quote? && (d.stale || cur.px == 0) && cur.px != d.px }

  function UpdateSide(w: World, slot: Slot, d: Decision, a: Answers): World {
    var cur := At(w, slot);
    match d
    case Skip =>
      if cur.id == "" then w
      else Remember(Cancel(w, cur.id, a.cancelTakesEffect), slot, cur.(id := "", px := 0))
    case Quote(px, size, stale) =>
      if !NeedsUpdate(cur, d) then w
      else if cur.id == "" then Place(w, slot, px, size, a.place)
      else
        var v := Amend(w, cur.id, px, size, a.amend);
        if AmendSeenOk(w, cur.id, a.amend) then Remember(v, slot, cur.(px := px, size := size))
        else Place(Cancel(v, cur.id, a.cancelTakesEffect), slot, px, size, a.place)
  }

  class Exchange {
    var live: map<string, Order>
    var issued: set<string>

    constructor ()
      ensures live == map[] && issued == {}
    {
      live, issued := map[], {};
    }

    method AmendOrder(id: string, px: int, count: int, a: AmendAnswer) returns (ok: bool)
      modifies this`live
      ensures var w := World(map[], old(live), issued); live == Amend(w, id, px, count, a).live
      ensures ok == AmendSeenOk(World(map[], old(live), issued), id, a)
    {
      ok := id in live && a == AmendOk;
      if id in live && a != AmendRefused {
        live := live[id := live[id].(px := px, size := count)];
      }
    }

    method CancelOrder(id: string, takesEffect: bool)
      modifies this`live
      ensures live == if takesEffect then Remove(old(live), id) else old(live)
    {
      if takesEffect {
        live := map k | k in live && k != id :: live[k];
      }
    }

    method CreateOrder(o: Order, a: PlaceAnswer) returns (id: Option<string>)
      requires Answerable(World(map[], live, issued), a)
      modifies this
      ensures id == if a.PlaceOk? then Some(a.id) else if a.PlaceNameless? then Some("") else None
      ensures var w := World(map[], old(live), old(issued));
              var v := match a
                       case PlaceOk(i) => Open(w, i, o)
                       case PlaceRefused => w
                       case PlaceLost(i) => Open(w, i, o)
                       case PlaceNameless(i) => Open(w, i, o);
              live == v.live && issued == v.issued
    {
      match a
      case PlaceOk(i) =>
        live, issued, id := live[i := o], issued + {i}, Some(i);
      case PlaceRefused =>
        id := None;
      case PlaceLost(i) =>
        live, issued, id := live[i := o], issued + {i}, None;
      case PlaceNameless(i) =>
        live, issued, id := live[i := o], issued + {i}, Some("");
    }
  }

  class LipMarketMaker {
    const exchange: Exchange
    var resting: map<Slot, Rest>

    ghost function Now(): World
      reads this, exchange
    {
      World(resting, exchange.live, exchange.issued)
    }

    constructor (exchange: Exchange)
      ensures this.exchange == exchange && resting == map[]
    {
      this.exchange := exchange;
      resting := map[];
    }

    method PlaceOrder(slot: Slot, px: int, size: int, a: PlaceAnswer)
      requires Answerable(Now(), a)
      modifies this`resting, exchange
      ensures Now() == Place(old(Now()), slot, px, size, a)
    {
      var id := exchange.CreateOrder(Order(slot, px, size), a);
      if id != None {
        resting := resting[slot := Rest(id.value, px, size)];
      } else {
        resting := resting[slot := Rest("", 0, 0)];
      }
    }

    method CancelAndPlace(slot: Slot, px: int, size: int, takesEffect: bool, a: PlaceAnswer)
      requires Answerable(Now(), a)
      modifies this`resting, exchange
      ensures Now() == var cur := At(old(Now()), slot);
                       var w := if cur.id == "" then old(Now()) else Cancel(old(Now()), cur.id, takesEffect);
                       Place(w, slot, px, size, a)
    {
      var cur := if slot in resting then resting[slot] else NOTHING;
      if cur.id != "" {
        exchange.CancelOrder(cur.id, takesEffect);
      }
      PlaceOrder(slot, px, size, a);
    }

    method Update(slot: Slot, d: Decision, a: Answers)
      requires Answerable(Now(), a.place)
      modifies this`resting, exchange
      ensures Now() == UpdateSide(old(Now()), slot, d, a)
    {
      var cur := if slot in resting then resting[slot] else NOTHING;
      match d
      case Skip =>
        if cur.id != "" {
          exchange.CancelOrder(cur.id, a.cancelTakesEffect);
          resting := resting[slot := cur.(id := "", px := 0)];
        }
      case Quote(px, size, stale) =>
        if (stale || cur.px == 0) && cur.px != px {
          if cur.id != "" {
            var amended := exchange.AmendOrder(cur.id, px, size, a.amend);
            if amended {
              resting := resting[slot := cur.(px := px, size := size)];
            } else {
              CancelAndPlace(slot, px, size, a.cancelTakesEffect, a.place);
            }
          } else {
            PlaceOrder(slot, px, size, a.place);
          }
        }
    }
  }

  // ---- What a step keeps -----------------------------------------------------------------------------

  // Every live order is the one remembered for its slot, at the remembered price and no bigger; and the
  // price 0 marks exactly the slots with nothing remembered.
  ghost predicate Tracks(w: World) {
    && (forall id :: id in w.live ==>
          var o := w.live[id]; var r := At(w, o.slot);
          id != "" && id in w.issued && r.id == id && r.px == o.px && o.size <= r.size)
    && (forall s :: s in w.resting ==> (w.resting[s].id == "" <==> w.resting[s].px == 0))
    && (forall s :: s in w.resting && w.resting[s].id != "" ==> w.resting[s].id in w.issued)
    && (forall s, t :: s in w.resting && t in w.resting && s != t && w.resting[s].id != "" ==>
          w.resting[s].id != w.resting[t].id)
  }

  predicate InBand(d: Decision) { d.Quote? ==> 1 <= d.px <= 99 }

  // The messages a step sends, as the state and the answers decide.
  predicate SendsCancel(w: World, slot: Slot, d: Decision, a: Answers) {
    var cur := At(w, slot);
    cur.id != "" && (d.Skip? || (NeedsUpdate(cur, d) && !AmendSeenOk(w, cur.id, a.amend)))
  }

  predicate SendsPlace(w: World, slot: Slot, d: Decision, a: Answers) {
    var cur := At(w, slot);
    NeedsUpdate(cur, d) && (cur.id == "" || !AmendSeenOk(w, cur.id, a.amend))
  }

  // A cancel that leaves its order alive, and a placement whose answer, or the id in it, is lost.
  predicate FailedCancel(w: World, slot: Slot, d: Decision, a: Answers) {
    SendsCancel(w, slot, d, a) && At(w, slot).id in w.live && !a.cancelTakesEffect
  }

  predicate LostPlacement(w: World, slot: Slot, d: Decision, a: Answers) {
    SendsPlace(w, slot, d, a) && (a.place.PlaceLost? || a.place.PlaceNameless?)
  }

  lemma PlaceKeeps(w: World, slot: Slot, px: int, size: int, a: PlaceAnswer)
    requires Tracks(w) && Answerable(w, a) && 1 <= px
    requires forall id :: id in w.live ==> w.live[id].slot != slot
    ensures Tracks(Place(w, slot, px, size, a)) <==> !a.PlaceLost? && !a.PlaceNameless?
  {
    var v := Place(w, slot, px, size, a);
    if a.PlaceLost? || a.PlaceNameless? {
      assert a.lostId in v.live;
    }
  }

  lemma CancelKeeps(w: World, slot: Slot)
    requires Tracks(w) && At(w, slot).id != ""
    ensures var v := Cancel(w, At(w, slot).id, true);
            Tracks(v) && (forall id :: id in v.live ==> v.live[id].slot != slot)
  {
  }

  lemma AmendKeeps(w: World, slot: Slot, px: int, size: int)
    requires Tracks(w) && At(w, slot).id in w.live && 1 <= px
    ensures var cur := At(w, slot);
            Tracks(Remember(Amend(w, cur.id, px, size, AmendOk), slot, cur.(px := px, size := size)))
  {
  }

  lemma SkipKeeps(w: World, slot: Slot)
    requires Tracks(w) && At(w, slot).id != ""
    ensures var cur := At(w, slot);
            Tracks(Remember(Cancel(w, cur.id, true), slot, cur.(id := "", px := 0)))
  {
    CancelKeeps(w, slot);
  }

  // An order that outlives its slot's memory breaks tracking whatever is remembered instead.
  lemma OrphanBreaks(w: World, id: string)
    requires id in w.live && At(w, w.live[id].slot).id != id
    ensures !Tracks(w)
  {
  }

  // From a tracked world a step ends in a tracked world except when a cancel fails on a live order or
  // the answer to a placement is lost. Refused and lost amends, fills and refusals do no harm.
  lemma StepTracksUnless(w: World, slot: Slot, d: Decision, a: Answers)
    requires Tracks(w) && Answerable(w, a.place) && InBand(d)
    ensures Tracks(UpdateSide(w, slot, d, a)) <==>
            !FailedCancel(w, slot, d, a) && !LostPlacement(w, slot, d, a)
  {
    var cur := At(w, slot);
    var v := UpdateSide(w, slot, d, a);
    if FailedCancel(w, slot, d, a) {
      assert w.live[cur.id].slot == slot;
      assert cur.id in v.live && v.live[cur.id].slot == slot;
      OrphanBreaks(v, cur.id);
    } else if d.Skip? {
      if cur.id != "" {
        NoEffectNeeded(w, cur.id, a.cancelTakesEffect);
        SkipKeeps(w, slot);
      }
    } else if NeedsUpdate(cur, d) {
      if cur.id == "" {
        PlaceKeeps(w, slot, d.px, d.size, a.place);
      } else if AmendSeenOk(w, cur.id, a.amend) {
        AmendKeeps(w, slot, d.px, d.size);
      } else {
        AmendThenCancel(w, slot, d, a);
        PlaceKeeps(Cancel(w, cur.id, true), slot, d.px, d.size, a.place);
      }
    }
  }

  lemma NoEffectNeeded(w: World, id: string, takesEffect: bool)
    requires id in w.live ==> takesEffect
    ensures Cancel(w, id, takesEffect) == Cancel(w, id, true)
  {
    if id !in w.live {
      assert Remove(w.live, id) == w.live;
    }
  }

  // After an amend that was not seen to succeed, the cancel makes it not matter whether it applied.
  lemma AmendThenCancel(w: World, slot: Slot, d: Decision, a: Answers)
    requires Tracks(w) && d.Quote? && At(w, slot).id != "" && !AmendSeenOk(w, At(w, slot).id, a.amend)
    requires At(w, slot).id in w.live ==> a.cancelTakesEffect
    ensures var id := At(w, slot).id;
            && Cancel(Amend(w, id, d.px, d.size, a.amend), id, a.cancelTakesEffect) == Cancel(w, id, true)
            && Tracks(Cancel(w, id, true))
            && forall k :: k in Cancel(w, id, true).live ==> w.live[k].slot != slot
  {
    var id := At(w, slot).id;
    var v := Amend(w, id, d.px, d.size, a.amend);
    assert Remove(v.live, id) == Remove(w.live, id);
    NoEffectNeeded(w, id, a.cancelTakesEffect);
    CancelKeeps(w, slot);
  }

  // Each of the two leaves a slot with two live orders as soon as it quotes again.
  lemma EitherFailureLeavesTwo(slot: Slot)
    ensures var lost := [Step(slot, Quote(50, 10, true), Answers(AmendRefused, true, PlaceLost("a"))),
                         Step(slot, Quote(51, 10, true), Answers(AmendRefused, true, PlaceOk("b")))];
            After(lost).live == map["a" := Order(slot, 50, 10), "b" := Order(slot, 51, 10)]
    ensures var failed := [Step(slot, Quote(50, 10, true), Answers(AmendRefused, true, PlaceOk("a"))),
                           Step(slot, Quote(51, 10, true), Answers(AmendRefused, false, PlaceOk("b")))];
            After(failed).live == map["a" := Order(slot, 50, 10), "b" := Order(slot, 51, 10)]
  {
    var lost := Step(slot, Quote(50, 10, true), Answers(AmendRefused, true, PlaceLost("a")));
    var placed := Step(slot, Quote(50, 10, true), Answers(AmendRefused, true, PlaceOk("a")));
    var kept := Step(slot, Quote(51, 10, true), Answers(AmendRefused, true, PlaceOk("b")));
    var failed := Step(slot, Quote(51, 10, true), Answers(AmendRefused, false, PlaceOk("b")));
    TwoSteps(lost, kept);
    TwoSteps(placed, failed);
  }

  lemma TwoSteps(d: Event, e: Event)
    ensures After([d, e]) == Next(Next(START, d), e)
  {
    var both, one := [d, e], [d];
    assert both[..1] == one && one[..0] == [];
    assert After(one) == Next(START, d);
  }

  // A decision is carried out: pulled sides have nothing live, updated ones nothing but the target.
  lemma StepDoesWhatItDecided(w: World, slot: Slot, d: Decision, a: Answers, id: string)
    requires Tracks(w) && Answerable(w, a.place) && InBand(d)
    requires !FailedCancel(w, slot, d, a) && !LostPlacement(w, slot, d, a)
    requires id in UpdateSide(w, slot, d, a).live && UpdateSide(w, slot, d, a).live[id].slot == slot
    ensures d.Quote?
    ensures var o := UpdateSide(w, slot, d, a).live[id];
            if NeedsUpdate(At(w, slot), d) then o.px == d.px && o.size == d.size
            else id in w.live && o == w.live[id] && (o.px == d.px || !d.stale)
  {
    StepTracksUnless(w, slot, d, a);
  }

  // The slot holds this order, alone and remembered as placed, or, for None, holds and remembers nothing.
  ghost predicate Holds(w: World, slot: Slot, id: Option<string>, px: int, size: int) {
    && (forall k :: k in w.live && w.live[k].slot == slot ==> id == Some(k))
    && match id
       case None => At(w, slot).id == "" && At(w, slot).px == 0
       case Some(i) => i in w.live && w.live[i] == Order(slot, px, size) && At(w, slot) == Rest(i, px, size)
  }

  // What a step makes of its slot. A pull empties it. A quote is left alone at its own price, and at any other
  // while the resting order still qualifies; else the order becomes the quote, by an amend that is seen to
  // succeed or by a placement, and after a refused placement the slot is empty in the program's eyes too.
  lemma StepLeaves(w: World, slot: Slot, d: Decision, a: Answers)
    requires Tracks(w) && Answerable(w, a.place) && InBand(d)
    requires !FailedCancel(w, slot, d, a) && !LostPlacement(w, slot, d, a)
    ensures var v := UpdateSide(w, slot, d, a); var cur := At(w, slot);
            if d.Skip? then Holds(v, slot, None, 0, 0)
            else if cur.px == d.px || (cur.px != 0 && !d.stale) then v == w
            else if cur.id in w.live && a.amend.AmendOk? then Holds(v, slot, Some(cur.id), d.px, d.size)
            else if a.place.PlaceOk? then Holds(v, slot, Some(a.place.id), d.px, d.size)
            else Holds(v, slot, None, 0, 0)
  {
    var cur := At(w, slot);
    if d.Skip? {
      if cur.id != "" {
        NoEffectNeeded(w, cur.id, a.cancelTakesEffect);
      }
    } else if NeedsUpdate(cur, d) && cur.id != "" && !AmendSeenOk(w, cur.id, a.amend) {
      AmendThenCancel(w, slot, d, a);
    }
  }

  // So the next quote after a refusal places.
  lemma RefusalIsRetried(w: World, slot: Slot, d: Decision, a: Answers)
    requires Tracks(w) && Holds(w, slot, None, 0, 0) && d.Quote? && InBand(d)
    requires a.place.PlaceOk? && NewId(w, a.place.id)
    ensures Holds(UpdateSide(w, slot, d, a), slot, Some(a.place.id), d.px, d.size)
  {
    StepLeaves(w, slot, d, a);
  }

  predicate LiveOn(w: World, id: string, slot: Slot) { id in w.live && w.live[id].slot == slot }

  // This slot's live orders and memory are the same in both worlds.
  ghost predicate Untouched(w: World, v: World, slot: Slot) {
    && At(v, slot) == At(w, slot)
    && forall id :: (LiveOn(v, id, slot) <==> LiveOn(w, id, slot)) && (LiveOn(w, id, slot) ==> v.live[id] == w.live[id])
  }

  lemma AmendElsewhere(w: World, id: string, px: int, size: int, a: AmendAnswer, other: Slot)
    requires !LiveOn(w, id, other)
    ensures Untouched(w, Amend(w, id, px, size, a), other) && !LiveOn(Amend(w, id, px, size, a), id, other)
  {
  }

  lemma CancelElsewhere(w: World, id: string, takesEffect: bool, other: Slot)
    requires !LiveOn(w, id, other)
    ensures Untouched(w, Cancel(w, id, takesEffect), other)
  {
  }

  lemma PlaceElsewhere(w: World, slot: Slot, px: int, size: int, a: PlaceAnswer, other: Slot)
    requires Answerable(w, a) && (forall id :: id in w.live ==> id in w.issued) && other != slot
    ensures Untouched(w, Place(w, slot, px, size, a), other)
  {
  }

  lemma RememberElsewhere(w: World, slot: Slot, r: Rest, other: Slot)
    requires other != slot
    ensures Untouched(w, Remember(w, slot, r), other)
  {
  }

  lemma UntouchedTwice(u: World, v: World, w: World, slot: Slot)
    requires Untouched(u, v, slot) && Untouched(v, w, slot)
    ensures Untouched(u, w, slot)
  {
  }

  lemma CancelIssues(w: World, id: string, takesEffect: bool)
    requires forall k :: k in w.live ==> k in w.issued
    ensures var v := Cancel(w, id, takesEffect); v.issued == w.issued && forall k :: k in v.live ==> k in v.issued
  {
  }

  lemma AmendIssues(w: World, id: string, px: int, size: int, a: AmendAnswer)
    requires forall k :: k in w.live ==> k in w.issued
    ensures var v := Amend(w, id, px, size, a); v.issued == w.issued && forall k :: k in v.live ==> k in v.issued
  {
  }

  // A step touches its own slot only, on the exchange and in memory.
  lemma OtherSlotsAreLeftAlone(w: World, slot: Slot, d: Decision, a: Answers, other: Slot)
    requires Tracks(w) && Answerable(w, a.place) && other != slot
    ensures Untouched(w, UpdateSide(w, slot, d, a), other)
  {
    var cur := At(w, slot);
    assert !LiveOn(w, cur.id, other) && forall k :: k in w.live ==> k in w.issued;
    hide Tracks, LiveOn, Untouched, Amend, Cancel, Place, Remember;
    UntouchedByNothing(w, other);
    if d.Skip? {
      var v := Cancel(w, cur.id, a.cancelTakesEffect);
      CancelElsewhere(w, cur.id, a.cancelTakesEffect, other);
      RememberElsewhere(v, slot, cur.(id := "", px := 0), other);
      UntouchedTwice(w, v, Remember(v, slot, cur.(id := "", px := 0)), other);
    } else {
      QuoteElsewhere(w, slot, d.px, d.size, a, other, cur);
      PlaceElsewhere(w, slot, d.px, d.size, a.place, other);
    }
  }

  lemma UntouchedByNothing(w: World, slot: Slot)
    ensures Untouched(w, w, slot)
  {
  }

  lemma QuoteElsewhere(w: World, slot: Slot, px: int, size: int, a: Answers, other: Slot, cur: Rest)
    requires !LiveOn(w, cur.id, other) && (forall k :: k in w.live ==> k in w.issued)
    requires Answerable(w, a.place) && other != slot
    ensures var v := Amend(w, cur.id, px, size, a.amend);
            && Untouched(w, Remember(v, slot, cur.(px := px, size := size)), other)
            && Untouched(w, Place(Cancel(v, cur.id, a.cancelTakesEffect), slot, px, size, a.place), other)
  {
    hide LiveOn, Untouched, Amend, Cancel, Place, Remember;
    var v := Amend(w, cur.id, px, size, a.amend);
    var u := Cancel(v, cur.id, a.cancelTakesEffect);
    AmendElsewhere(w, cur.id, px, size, a.amend, other);
    AmendIssues(w, cur.id, px, size, a.amend);
    RememberElsewhere(v, slot, cur.(px := px, size := size), other);
    UntouchedTwice(w, v, Remember(v, slot, cur.(px := px, size := size)), other);
    CancelElsewhere(v, cur.id, a.cancelTakesEffect, other);
    CancelIssues(v, cur.id, a.cancelTakesEffect);
    PlaceElsewhere(u, slot, px, size, a.place, other);
    UntouchedTwice(w, v, u, other);
    UntouchedTwice(w, u, Place(u, slot, px, size, a.place), other);
  }

  // ---- Runs --------------------------------------------------------------------------------------------

  datatype Event = Step(slot: Slot, d: Decision, a: Answers) | Filled(id: string, remaining: int)

  const START := World(map[], map[], {})

  function Next(w: World, e: Event): World {
    match e
    case Step(slot, d, a) => UpdateSide(w, slot, d, a)
    case Filled(id, remaining) => Fill(w, id, remaining)
  }

  function After(events: seq<Event>): World {
    if events == [] then START else Next(After(events[..|events| - 1]), events[|events| - 1])
  }

  // What is assumed of an event: new ids, targets in the price band, effective cancels, no lost placement.
  predicate Fair(w: World, e: Event) {
    e.Step? ==>
      && Answerable(w, e.a.place) && InBand(e.d)
      && !FailedCancel(w, e.slot, e.d, e.a) && !LostPlacement(w, e.slot, e.d, e.a)
  }

  lemma {:induction false} RunsTrack(events: seq<Event>)
    requires forall i :: 0 <= i < |events| ==> Fair(After(events[..i]), events[i])
    ensures Tracks(After(events))
  {
    hide Tracks, UpdateSide, Fill, FailedCancel, LostPlacement;
    if events == [] {
      StartTracks();
    } else {
      var front := events[..|events| - 1];
      forall i | 0 <= i < |front| ensures Fair(After(front[..i]), front[i]) {
        assert front[..i] == events[..i];
      }
      RunsTrack(front);
      var w := After(front);
      match events[|events| - 1]
      case Step(slot, d, a) => StepTracksUnless(w, slot, d, a);
      case Filled(id, remaining) => FillKeeps(w, id, remaining);
    }
  }

  lemma StartTracks()
    ensures Tracks(START)
  {
  }

  lemma FillKeeps(w: World, id: string, remaining: int)
    requires Tracks(w)
    ensures Tracks(Fill(w, id, remaining))
  {
  }

  // However steps on all tickers and sides interleave with fills, each side of each ticker has at most one
  // live order, and it is the one _resting records, at the recorded price.
  lemma AtMostOneLiveOrder(events: seq<Event>, i: string, j: string)
    requires forall k :: 0 <= k < |events| ==> Fair(After(events[..k]), events[k])
    requires var w := After(events); i in w.live && j in w.live && w.live[i].slot == w.live[j].slot
    ensures i == j && At(After(events), After(events).live[i].slot).id == i
    ensures At(After(events), After(events).live[i].slot).px == After(events).live[i].px
  {
    RunsTrack(events);
  }
}
