// engine/sticky_quote.py: the four-state hysteresis machine behind each (ticker, side) quote.
//
// `Step` is one call of StickyQuoter.compute on a value; the classes below it keep the state in
// objects and a dictionary as the program does, and are proved to follow `Step`.
module StickyQuote {
  import opened Numeric

  datatype StateName = NORMAL | AGGRESSIVE | RELAXING | COOLDOWN

  datatype Side = Ask | Bid

  datatype StickyConfig = StickyConfig(
    desertJumpCents: int,
    minDistanceFromTheo: int,
    snapshotsAt1xRequired: int,
    theoStabilityCents: real,
    theoRangeCents: real,
    relaxTotalSteps: int,
    maxAggressiveDurationSeconds: real,
    cooldownSeconds: real)
  {
    // deque(maxlen=N), max(deque) and abs(gap) / steps raise without these.
    predicate Valid() { snapshotsAt1xRequired >= 1 && relaxTotalSteps >= 1 }
  }

  // The value of a SideState object.
  datatype SideView = SideView(
    state: StateName,
    enteredAt: Option<real>,
    theoAtEntry: Option<real>,
    buffer: seq<real>,
    count1x: int,
    relaxStartPrice: Option<int>,
    relaxInitialTarget: Option<int>,
    relaxMinStep: Option<real>,
    relaxStep: int,
    cooldownUntil: Option<real>,
    price: int)

  const FRESH := SideView(NORMAL, None, None, [], 0, None, None, None, 0, None, 0)

  // The arguments of one compute call for a given side.
  datatype Call = Call(natural: int, best: int, ours: int, fair: real, now: real)

  datatype Kind = Pennied | MaxDurationExceeded | GapClosed | GatesMet | TargetMovedPast | Completed | CooldownExpired

  datatype Transition = Transition(from: StateName, to: StateName, kind: Kind)

  datatype Outcome = Outcome(view: SideView, price: int, name: StateName, log: seq<Transition>)

  // side_sign * x, with side_sign = 1 for an ask and -1 for a bid: relaxing an ask raises its price.
  function Signed(side: Side, x: int): int { if side.Ask? then x else -x }

  // natural_target moved in the aggressive direction past the price we hold.
  predicate IsPennied(side: Side, held: int, natural: int) {
    (side.Ask? && natural < held) || (side.Bid? && natural > held)
  }

  function AggressivePrice(cfg: StickyConfig, side: Side, c: Call): int {
    Clamp99(
      if side.Ask? then Max(c.best - cfg.desertJumpCents, RoundHalfEven(c.fair + cfg.minDistanceFromTheo as real))
      else Min(c.best + cfg.desertJumpCents, RoundHalfEven(c.fair - cfg.minDistanceFromTheo as real)))
  }

  predicate AtOneX(c: Call) { c.ours > 0 && c.ours == c.best }

  // deque(maxlen=n).append(x)
  function Push(n: int, b: seq<real>, x: real): seq<real>
    requires n >= 1
  {
    if |b| < n then b + [x] else b[1..] + [x]
  }

  function Highest(b: seq<real>): (m: real)
    requires |b| > 0
    ensures m in b && forall i :: 0 <= i < |b| ==> b[i] <= m
  {
    if |b| == 1 then b[0] else RMax(b[0], Highest(b[1..]))
  }

  function Lowest(b: seq<real>): (m: real)
    requires |b| > 0
    ensures m in b && forall i :: 0 <= i < |b| ==> m <= b[i]
  {
    if |b| == 1 then b[0]
    else var t := Lowest(b[1..]); if b[0] <= t then b[0] else t
  }

  // A first call, or one after the price was last set to 0: nothing to compare with yet.
  predicate Unset(s: SideView, c: Call) { s.price == 0 && c.ours == 0 }

  function Synced(s: SideView, c: Call): SideView {
    if c.ours > 0 && s.price == 0 then s.(price := c.ours) else s
  }

  function Step(cfg: StickyConfig, side: Side, s: SideView, c: Call): Outcome
    requires cfg.Valid()
  {
    if Unset(s, c) then Outcome(s.(price := c.natural), c.natural, s.state, [])
    else
      var t := Synced(s, c);
      if t.state.COOLDOWN? then StepCooldown(t, c)
      else if IsPennied(side, t.price, c.natural) then StepPennied(cfg, side, t, c)
      else if t.state.AGGRESSIVE? then
        var o := StepLocked(cfg, side, t, c);
        if o.name.RELAXING? then StepRelax(cfg, side, o.view, c, o.log) else o
      else if t.state.RELAXING? then StepRelax(cfg, side, t, c, [])
      else Outcome(t.(price := c.natural), c.natural, NORMAL, [])
  }

  function StepCooldown(s: SideView, c: Call): Outcome {
    if s.cooldownUntil.None? || c.now >= s.cooldownUntil.value then
      Outcome(s.(state := NORMAL, cooldownUntil := None, price := c.natural), c.natural, NORMAL,
              [Transition(COOLDOWN, NORMAL, CooldownExpired)])
    else Outcome(s, 0, COOLDOWN, [])
  }

  function StepPennied(cfg: StickyConfig, side: Side, s: SideView, c: Call): Outcome {
    var p := AggressivePrice(cfg, side, c);
    if s.state.NORMAL? || s.state.RELAXING? then
      Outcome(s.(state := AGGRESSIVE, enteredAt := Some(c.now), theoAtEntry := Some(c.fair), buffer := [],
                 count1x := 0, relaxStep := 0, relaxStartPrice := None, price := p),
              p, AGGRESSIVE, [Transition(s.state, AGGRESSIVE, Pennied)])
    else Outcome(s.(price := p), p, AGGRESSIVE, [])
  }

  predicate Expired(cfg: StickyConfig, s: SideView, c: Call) {
    s.enteredAt.Some? && c.now - s.enteredAt.value > cfg.maxAggressiveDurationSeconds
  }

  // All four gates of the release, on the counters this call has just updated.
  predicate GatesPass(cfg: StickyConfig, s: SideView, c: Call)
    requires |s.buffer| > 0
  {
    && s.count1x >= cfg.snapshotsAt1xRequired
    && s.theoAtEntry.Some? && RAbs(c.fair - s.theoAtEntry.value) < cfg.theoStabilityCents
    && |s.buffer| >= cfg.snapshotsAt1xRequired
    && Highest(s.buffer) - Lowest(s.buffer) < cfg.theoRangeCents
  }

  // The counter and the buffer after one more call that was not pennied.
  function Counted(cfg: StickyConfig, s: SideView, c: Call): SideView
    requires cfg.Valid()
  {
    s.(count1x := if AtOneX(c) then s.count1x + 1 else 0,
       buffer := Push(cfg.snapshotsAt1xRequired, s.buffer, c.fair))
  }

  function Released(cfg: StickyConfig, side: Side, s: SideView, c: Call): SideView
    requires cfg.Valid()
  {
    s.(state := RELAXING, relaxStartPrice := Some(s.price), relaxInitialTarget := Some(c.natural),
       relaxMinStep := Some(Ratio(Abs(Signed(side, c.natural - s.price)), cfg.relaxTotalSteps)), relaxStep := 0)
  }

  // Aggressive and not pennied, up to the fall-through: an outcome named RELAXING has no price yet.
  function StepLocked(cfg: StickyConfig, side: Side, s: SideView, c: Call): Outcome
    requires cfg.Valid()
  {
    var t := Counted(cfg, s, c);
    if Expired(cfg, s, c) then
      Outcome(s.(state := COOLDOWN, cooldownUntil := Some(c.now + cfg.cooldownSeconds)), 0, COOLDOWN,
              [Transition(AGGRESSIVE, COOLDOWN, MaxDurationExceeded)])
    else if !GatesPass(cfg, t, c) then Outcome(t, t.price, AGGRESSIVE, [])
    else if Signed(side, c.natural - t.price) <= 0 then
      Outcome(t.(state := NORMAL, price := c.natural), c.natural, NORMAL, [Transition(AGGRESSIVE, NORMAL, GapClosed)])
    else Outcome(Released(cfg, side, t, c), 0, RELAXING, [Transition(AGGRESSIVE, RELAXING, GatesMet)])
  }

  function Ratio(gap: int, n: int): real
    requires n != 0
  {
    gap as real / n as real
  }

  // relax_min_step or 1.0
  function MinStep(s: SideView): real {
    if s.relaxMinStep.None? || s.relaxMinStep.value == 0.0 then 1.0 else s.relaxMinStep.value
  }

  function RelaxedPrice(cfg: StickyConfig, side: Side, s: SideView, natural: int): int {
    var remaining := Max(1, cfg.relaxTotalSteps - s.relaxStep + 1);
    var gap := Signed(side, natural - s.price);
    var step := RMax(RMax(MinStep(s), Ratio(gap, remaining)), 1.0);
    var p := s.price + Signed(side, RoundHalfEven(step));
    Clamp99(if side.Ask? then Min(p, natural) else Max(p, natural))
  }

  // `log` holds the transition that led here in the same call, if any.
  function StepRelax(cfg: StickyConfig, side: Side, s: SideView, c: Call, log: seq<Transition>): Outcome {
    var t := s.(relaxStep := s.relaxStep + 1);
    var gap := Signed(side, c.natural - t.price);
    if gap <= 0 then
      Outcome(t.(state := NORMAL, price := c.natural), c.natural, NORMAL,
              log + [Transition(RELAXING, NORMAL, TargetMovedPast)])
    else
      var p := RelaxedPrice(cfg, side, t, c.natural);
      var u := t.(price := p);
      if u.relaxStep >= cfg.relaxTotalSteps || p == c.natural then
        Outcome(u.(state := NORMAL), p, NORMAL, log + [Transition(RELAXING, NORMAL, Completed)])
      else Outcome(u, p, RELAXING, log)
  }

  // ---- Several (ticker, side) machines in one quoter ------------------------------------------

  type Key = (string, string)

  datatype Event =
    | Compute(key: Key, call: Call)
    | Look(key: Key)               // state_of, snapshot: create the entry if it is missing
    | ResetTicker(ticker: string)
    | ResetAll

  function SideOf(side: string): Option<Side> {
    if side == "ask" then Some(Ask) else if side == "bid" then Some(Bid) else None
  }

  // _get_state, as a view.
  function Entry(m: map<Key, SideView>, k: Key): SideView { if k in m then m[k] else FRESH }

  // What one public call does to the dictionary; a compute on a bad side raises and changes nothing.
  function Apply(cfg: StickyConfig, m: map<Key, SideView>, e: Event): map<Key, SideView>
    requires cfg.Valid()
  {
    match e
    case Compute(k, c) =>
      var side := SideOf(k.1);
      if side.None? then m else m[k := Step(cfg, side.value, Entry(m, k), c).view]
    case Look(k) => m[k := Entry(m, k)]
    case ResetTicker(t) => map k | k in m && k.0 != t :: m[k]
    case ResetAll => map[]
  }

  // A compute finds the entry or creates it, and then moves it.
  lemma ComputeAfterLook(cfg: StickyConfig, m: map<Key, SideView>, k: Key, c: Call)
    requires cfg.Valid()
    ensures var seen := Apply(cfg, m, Look(k));
            && k in seen && seen[k] == Entry(m, k)
            && Apply(cfg, m, Compute(k, c)) ==
               if SideOf(k.1).None? then m else seen[k := Step(cfg, SideOf(k.1).value, seen[k], c).view]
  {
  }

  class SideState {
    var state: StateName
    var aggressiveEnteredAt: Option<real>
    var theoAtAggressiveEntry: Option<real>
    var theoBuffer: seq<real>
    var consecutive1xCount: int
    var relaxStartPrice: Option<int>
    var relaxInitialTarget: Option<int>
    var relaxMinStep: Option<real>
    var relaxStep: int
    var cooldownUntil: Option<real>
    var currentPrice: int

    ghost function View(): SideView
      reads this
    {
      SideView(state, aggressiveEnteredAt, theoAtAggressiveEntry, theoBuffer, consecutive1xCount, relaxStartPrice,
               relaxInitialTarget, relaxMinStep, relaxStep, cooldownUntil, currentPrice)
    }

    constructor ()
      ensures View() == FRESH
    {
      state := NORMAL;
      aggressiveEnteredAt, theoAtAggressiveEntry, theoBuffer, consecutive1xCount := None, None, [], 0;
      relaxStartPrice, relaxInitialTarget, relaxMinStep, relaxStep := None, None, None, 0;
      cooldownUntil, currentPrice := None, 0;
    }

    // The body of compute once the side is known and the state object found. Its last three sections
    // are the methods Race, Hold and Relax below.
    method Advance(cfg: StickyConfig, side: Side, c: Call)
      returns (price: int, name: StateName, transitions: seq<Transition>)
      requires cfg.Valid()
      modifies this
      ensures Outcome(View(), price, name, transitions) == Step(cfg, side, old(View()), c)
    {
      transitions := [];
      if currentPrice == 0 && c.ours == 0 {
        currentPrice := c.natural;
        return c.natural, state, transitions;
      }
      if c.ours > 0 && currentPrice == 0 {
        currentPrice := c.ours;
      }
      if state == COOLDOWN {
        if cooldownUntil == None || c.now >= cooldownUntil.value {
          transitions := [Transition(COOLDOWN, NORMAL, CooldownExpired)];
          state, cooldownUntil, currentPrice := NORMAL, None, c.natural;
          return c.natural, NORMAL, transitions;
        }
        return 0, COOLDOWN, transitions;
      }
      if (side == Ask && c.natural < currentPrice) || (side == Bid && c.natural > currentPrice) {
        price, name, transitions := Race(cfg, side, c);
        return;
      }
      if state == AGGRESSIVE {
        if aggressiveEnteredAt != None && c.now - aggressiveEnteredAt.value > cfg.maxAggressiveDurationSeconds {
          transitions := [Transition(AGGRESSIVE, COOLDOWN, MaxDurationExceeded)];
          state, cooldownUntil := COOLDOWN, Some(c.now + cfg.cooldownSeconds);
          return 0, COOLDOWN, transitions;
        }
        price, name, transitions := Hold(cfg, side, c);
        if state != RELAXING {
          return;
        }
      }
      if state == RELAXING {
        price, name, transitions := Relax(cfg, side, c, transitions);
        return;
      }
      currentPrice := c.natural;
      return c.natural, NORMAL, transitions;
    }

    // Pennied: jump inside the best price, bounded by the distance from theo.
    method Race(cfg: StickyConfig, side: Side, c: Call)
      returns (price: int, name: StateName, transitions: seq<Transition>)
      modifies this
      ensures Outcome(View(), price, name, transitions) == StepPennied(cfg, side, old(View()), c)
    {
      hide AggressivePrice;
      transitions := [];
      price := RacePrice(cfg, side, c);
      if state == NORMAL || state == RELAXING {
        transitions := [Transition(state, AGGRESSIVE, Pennied)];
        state := AGGRESSIVE;
        aggressiveEnteredAt, theoAtAggressiveEntry := Some(c.now), Some(c.fair);
        theoBuffer, consecutive1xCount, relaxStep, relaxStartPrice := [], 0, 0, None;
      }
      currentPrice := price;
      name := AGGRESSIVE;
    }

    method RacePrice(cfg: StickyConfig, side: Side, c: Call) returns (price: int)
      ensures price == AggressivePrice(cfg, side, c)
    {
      if side == Ask {
        var theoFloor := RoundHalfEven(c.fair + cfg.minDistanceFromTheo as real);
        price := Max(c.best - cfg.desertJumpCents, theoFloor);
      } else {
        var theoCeiling := RoundHalfEven(c.fair - cfg.minDistanceFromTheo as real);
        price := Min(c.best + cfg.desertJumpCents, theoCeiling);
      }
      price := Max(1, Min(99, price));
    }

    // Aggressive, not pennied and not expired: the counters and the gates. Ends in RELAXING, with no
    // price yet, when compute falls through to the relaxation.
    method Hold(cfg: StickyConfig, side: Side, c: Call)
      returns (price: int, name: StateName, transitions: seq<Transition>)
      requires cfg.Valid() && state == AGGRESSIVE && !Expired(cfg, View(), c)
      modifies this
      ensures Outcome(View(), price, name, transitions) == StepLocked(cfg, side, old(View()), c)
      ensures name == state
    {
      transitions := [];
      Count(cfg, c);
      var released := GatesOpen(cfg, c);
      hide GatesPass, Counted;
      if !released {
        return currentPrice, AGGRESSIVE, transitions;
      }
      var gap := Signed(side, c.natural - currentPrice);
      if gap <= 0 {
        transitions := [Transition(AGGRESSIVE, NORMAL, GapClosed)];
        state, currentPrice := NORMAL, c.natural;
        return c.natural, NORMAL, transitions;
      }
      transitions := [Transition(AGGRESSIVE, RELAXING, GatesMet)];
      state := RELAXING;
      relaxStartPrice, relaxInitialTarget := Some(currentPrice), Some(c.natural);
      relaxMinStep, relaxStep := Some(Ratio(Abs(gap), cfg.relaxTotalSteps)), 0;
      price, name := 0, RELAXING;
    }

    method GatesOpen(cfg: StickyConfig, c: Call) returns (released: bool)
      requires |theoBuffer| > 0
      ensures released == GatesPass(cfg, View(), c)
    {
      var bufferFull := |theoBuffer| >= cfg.snapshotsAt1xRequired;
      var cyclesOk := consecutive1xCount >= cfg.snapshotsAt1xRequired;
      var theoAnchorOk := theoAtAggressiveEntry != None
                          && RAbs(c.fair - theoAtAggressiveEntry.value) < cfg.theoStabilityCents;
      var theoRangeOk := !bufferFull || Highest(theoBuffer) - Lowest(theoBuffer) < cfg.theoRangeCents;
      released := cyclesOk && theoAnchorOk && theoRangeOk && bufferFull;
    }

    method Count(cfg: StickyConfig, c: Call)
      requires cfg.Valid()
      modifies this
      ensures View() == Counted(cfg, old(View()), c)
    {
      if c.ours > 0 && c.ours == c.best {
        consecutive1xCount := consecutive1xCount + 1;
      } else {
        consecutive1xCount := 0;
      }
      theoBuffer := Push(cfg.snapshotsAt1xRequired, theoBuffer, c.fair);
    }

    // One step of the walk back to the target, which may have moved since the last call.
    method Relax(cfg: StickyConfig, side: Side, c: Call, before: seq<Transition>)
      returns (price: int, name: StateName, transitions: seq<Transition>)
      requires state == RELAXING
      modifies this
      ensures Outcome(View(), price, name, transitions) == StepRelax(cfg, side, old(View()), c, before)
    {
      hide RelaxedPrice;
      transitions := before;
      relaxStep := relaxStep + 1;
      var gap := Signed(side, c.natural - currentPrice);
      if gap <= 0 {
        transitions := before + [Transition(RELAXING, NORMAL, TargetMovedPast)];
        state, currentPrice := NORMAL, c.natural;
        return c.natural, NORMAL, transitions;
      }
      price := Approach(cfg, side, c.natural);
      currentPrice := price;
      if relaxStep >= cfg.relaxTotalSteps || price == c.natural {
        transitions := before + [Transition(RELAXING, NORMAL, Completed)];
        state := NORMAL;
      }
      name := state;
    }

    // The price of that step, short of the target.
    method Approach(cfg: StickyConfig, side: Side, natural: int) returns (price: int)
      ensures price == RelaxedPrice(cfg, side, View(), natural)
    {
      var remaining := Max(1, cfg.relaxTotalSteps - relaxStep + 1);
      var gap := Signed(side, natural - currentPrice);
      var idealStep := Ratio(gap, remaining);
      var minStep := if relaxMinStep == None || relaxMinStep.value == 0.0 then 1.0 else relaxMinStep.value;
      var actualStep := RMax(RMax(minStep, idealStep), 1.0);
      price := currentPrice + Signed(side, RoundHalfEven(actualStep));
      if side == Ask {
        price := Min(price, natural);
      } else {
        price := Max(price, natural);
      }
      price := Max(1, Min(99, price));
    }
  }

  datatype Reply = BadSide | Quote(price: int, name: StateName, transitions: seq<Transition>)

  class StickyQuoter {
    const cfg: StickyConfig
    var states: map<Key, SideState>

    ghost predicate Valid()
      reads this
    {
      && cfg.Valid()
      && forall j, k :: j in states && k in states && j != k ==> states[j] != states[k]
    }

    ghost function Objects(): set<object>
      reads this
    {
      set k | k in states :: states[k]
    }

    ghost function Model(): map<Key, SideView>
      reads this, Objects()
    {
      map k | k in states :: states[k].View()
    }

    constructor (cfg: StickyConfig)
      requires cfg.Valid()
      ensures Valid() && this.cfg == cfg && Model() == map[]
    {
      this.cfg := cfg;
      states := map[];
    }

    method GetState(ticker: string, side: string) returns (st: SideState)
      requires Valid()
      modifies this`states
      ensures Valid() && (ticker, side) in states && states[(ticker, side)] == st
      ensures fresh(Objects() - old(Objects()))
      ensures Model() == Apply(cfg, old(Model()), Look((ticker, side)))
    {
      var key := (ticker, side);
      if key !in states {
        st := new SideState();
        states := states[key := st];
      }
      st := states[key];
    }

    method Snapshot(ticker: string, side: string) returns (v: SideView)
      requires Valid()
      modifies this`states
      ensures Valid() && fresh(Objects() - old(Objects()))
      ensures Model() == Apply(cfg, old(Model()), Look((ticker, side)))
      ensures v == Entry(old(Model()), (ticker, side))
    {
      var st := GetState(ticker, side);
      v := SideView(st.state, st.aggressiveEnteredAt, st.theoAtAggressiveEntry, st.theoBuffer, st.consecutive1xCount,
                    st.relaxStartPrice, st.relaxInitialTarget, st.relaxMinStep, st.relaxStep, st.cooldownUntil,
                    st.currentPrice);
      assert v == Model()[(ticker, side)];
    }

    method Compute(ticker: string, side: string, c: Call) returns (r: Reply)
      requires Valid()
      modifies this, Objects()
      ensures Valid() && fresh(Objects() - old(Objects()))
      ensures Model() == Apply(cfg, old(Model()), Event.Compute((ticker, side), c))
      ensures r == match SideOf(side)
                   case None => BadSide
                   case Some(s) =>
                     var o := Step(cfg, s, Entry(old(Model()), (ticker, side)), c);
                     Quote(o.price, o.name, o.log)
    {
      hide Step, Apply, SideOf;
      ghost var key := (ticker, side);
      ComputeAfterLook(cfg, Model(), key, c);
      var sd := SideOf(side);
      if sd == None {
        return BadSide;
      }
      var st := GetState(ticker, side);
      r := Drive((ticker, side), sd.value, c);
    }

    // compute on an entry that exists: no other entry moves.
    method Drive(key: Key, side: Side, c: Call) returns (r: Reply)
      requires Valid() && key in states
      modifies states[key]
      ensures Model() == old(Model())[key := Step(cfg, side, old(Model())[key], c).view]
      ensures var o := Step(cfg, side, old(Model())[key], c); r == Quote(o.price, o.name, o.log)
    {
      ghost var o := Step(cfg, side, Model()[key], c);
      var price, name, transitions := states[key].Advance(cfg, side, c);
      assert Outcome(states[key].View(), price, name, transitions) == o;
      assert forall k :: k in states && k != key ==> states[k].View() == old(states[k].View());
      r := Quote(price, name, transitions);
    }

    // reset(ticker), and reset() when no ticker is given.
    method Reset(ticker: Option<string>)
      requires Valid()
      modifies this`states
      ensures Valid() && Objects() <= old(Objects())
      ensures Model() == Apply(cfg, old(Model()), if ticker.None? then ResetAll else ResetTicker(ticker.value))
    {
      if ticker == None {
        states := map[];
      } else {
        states := map k | k in states && k.0 != ticker.value :: states[k];
      }
    }
  }
}
