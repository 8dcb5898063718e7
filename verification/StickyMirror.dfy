// The ask side and the bid side of the sticky machine are one machine seen from 0 and from 100 cents.
module StickyMirror {
  import opened Numeric
  import opened StickyQuote
  import opened StickyRuns

  // 0 means "no price", so it is its own mirror image.
  function MirrorPrice(p: int): int { if p == 0 then 0 else 100 - p }

  function MirrorCall(c: Call): Call {
    Call(100 - c.natural, 100 - c.best, MirrorPrice(c.ours), 100.0 - c.fair, c.now)
  }

  function MirrorCalls(calls: seq<Call>): seq<Call> {
    seq(|calls|, i requires 0 <= i < |calls| => MirrorCall(calls[i]))
  }

  function MirrorBuffer(b: seq<real>): seq<real> { seq(|b|, i requires 0 <= i < |b| => 100.0 - b[i]) }

  // A state whose price is a price, reflected in 100 cents.
  function Reflected(s: SideView): SideView {
    s.(theoAtEntry := if s.theoAtEntry.Some? then Some(100.0 - s.theoAtEntry.value) else None,
       buffer := MirrorBuffer(s.buffer),
       relaxStartPrice := if s.relaxStartPrice.Some? then Some(100 - s.relaxStartPrice.value) else None,
       relaxInitialTarget := if s.relaxInitialTarget.Some? then Some(100 - s.relaxInitialTarget.value) else None,
       price := 100 - s.price)
  }

  // Any state: "no price" stays that.
  function MirrorView(s: SideView): SideView { Reflected(s).(price := MirrorPrice(s.price)) }

  // Names, counters and log are kept; prices are reflected; COOLDOWN answers 0 on both sides.
  function ReflectedOutcome(o: Outcome): Outcome {
    Outcome(Reflected(o.view), if o.name.COOLDOWN? then 0 else 100 - o.price, o.name, o.log)
  }

  // Our own resting price, or 0 for none.
  predicate OwnPriceOk(c: Call) { 0 <= c.ours < 100 }

  lemma SpreadMirrors(b: seq<real>)
    requires |b| > 0
    ensures Highest(MirrorBuffer(b)) - Lowest(MirrorBuffer(b)) == Highest(b) - Lowest(b)
  {
    var m := MirrorBuffer(b);
    var i :| 0 <= i < |b| && b[i] == Highest(b);
    var j :| 0 <= j < |b| && b[j] == Lowest(b);
    var k :| 0 <= k < |m| && m[k] == Highest(m);
    var l :| 0 <= l < |m| && m[l] == Lowest(m);
    assert m[i] == 100.0 - b[i] && m[j] == 100.0 - b[j] && m[k] == 100.0 - b[k] && m[l] == 100.0 - b[l];
  }

  lemma AggressivePriceMirrors(cfg: StickyConfig, c: Call)
    ensures AggressivePrice(cfg, Bid, MirrorCall(c)) == 100 - AggressivePrice(cfg, Ask, c)
  {
    RoundMirror(c.fair + cfg.minDistanceFromTheo as real);
    assert 100.0 - c.fair - cfg.minDistanceFromTheo as real == 100.0 - (c.fair + cfg.minDistanceFromTheo as real);
  }

  lemma RelaxedPriceMirrors(cfg: StickyConfig, s: SideView, natural: int)
    ensures RelaxedPrice(cfg, Bid, Reflected(s), 100 - natural) == 100 - RelaxedPrice(cfg, Ask, s, natural)
  {
    assert Signed(Bid, 100 - natural - Reflected(s).price) == Signed(Ask, natural - s.price);
    assert MinStep(Reflected(s)) == MinStep(s);
  }

  lemma CountedStepMirrors(s: SideView)
    ensures Reflected(s.(relaxStep := s.relaxStep + 1)) == Reflected(s).(relaxStep := s.relaxStep + 1)
  {
  }

  lemma RelaxMirrors(cfg: StickyConfig, s: SideView, c: Call, log: seq<Transition>)
    requires s.state.RELAXING?
    ensures StepRelax(cfg, Bid, Reflected(s), MirrorCall(c), log) == ReflectedOutcome(StepRelax(cfg, Ask, s, c, log))
  {
    hide RelaxedPrice, Reflected;
    var t := s.(relaxStep := s.relaxStep + 1);
    ReflectedFields(s);
    CountedStepMirrors(s);
    RelaxedPriceMirrors(cfg, t, c.natural);
    MoveReflects(t, NORMAL, c.natural);
    MoveReflects(t, NORMAL, RelaxedPrice(cfg, Ask, t, c.natural));
    MoveReflects(t, RELAXING, RelaxedPrice(cfg, Ask, t, c.natural));
  }

  lemma GatesMirror(cfg: StickyConfig, s: SideView, c: Call)
    requires |s.buffer| > 0
    ensures GatesPass(cfg, Reflected(s), MirrorCall(c)) == GatesPass(cfg, s, c)
  {
    SpreadMirrors(s.buffer);
  }

  lemma CountedMirrors(cfg: StickyConfig, s: SideView, c: Call)
    requires cfg.Valid() && OwnPriceOk(c)
    ensures Counted(cfg, Reflected(s), MirrorCall(c)) == Reflected(Counted(cfg, s, c))
  {
    assert AtOneX(MirrorCall(c)) == AtOneX(c);
    assert Push(cfg.snapshotsAt1xRequired, MirrorBuffer(s.buffer), 100.0 - c.fair)
        == MirrorBuffer(Push(cfg.snapshotsAt1xRequired, s.buffer, c.fair));
  }

  lemma ReleasedMirrors(cfg: StickyConfig, s: SideView, c: Call)
    requires cfg.Valid()
    ensures Released(cfg, Bid, Reflected(s), MirrorCall(c)) == Reflected(Released(cfg, Ask, s, c))
  {
  }

  lemma LockedMirrors(cfg: StickyConfig, s: SideView, c: Call)
    requires cfg.Valid() && s.state.AGGRESSIVE? && OwnPriceOk(c)
    ensures var o := StepLocked(cfg, Ask, s, c);
            StepLocked(cfg, Bid, Reflected(s), MirrorCall(c)) ==
            if o.name.RELAXING? then o.(view := Reflected(o.view)) else ReflectedOutcome(o)
  {
    hide GatesPass, Reflected, Counted, Released, Ratio;
    ReflectedFields(s);
    if Expired(cfg, s, c) {
      TripReflects(s, c.now + cfg.cooldownSeconds);
    } else {
      HeldMirrors(cfg, s, c, Counted(cfg, s, c));
    }
  }

  lemma HeldMirrors(cfg: StickyConfig, s: SideView, c: Call, t: SideView)
    requires cfg.Valid() && s.state.AGGRESSIVE? && OwnPriceOk(c) && !Expired(cfg, s, c) && t == Counted(cfg, s, c)
    ensures var o := StepLocked(cfg, Ask, s, c);
            StepLocked(cfg, Bid, Reflected(s), MirrorCall(c)) ==
            if o.name.RELAXING? then o.(view := Reflected(o.view)) else ReflectedOutcome(o)
  {
    assert |t.buffer| > 0;
    hide GatesPass, Reflected, Counted, Released, Ratio, MirrorBuffer;
    ReflectedFields(s);
    ReflectedFields(t);
    CountedMirrors(cfg, s, c);
    GatesMirror(cfg, t, c);
    if !GatesPass(cfg, t, c) {
      assert StepLocked(cfg, Ask, s, c) == Outcome(t, t.price, AGGRESSIVE, []);
    } else if Signed(Ask, c.natural - t.price) <= 0 {
      MoveReflects(t, NORMAL, c.natural);
    } else {
      ReleasedMirrors(cfg, t, c);
    }
  }

  lemma ReflectedFields(s: SideView)
    ensures Reflected(s).price == 100 - s.price && Reflected(s).state == s.state
    ensures Reflected(s).enteredAt == s.enteredAt && Reflected(s).relaxStep == s.relaxStep
    ensures |Reflected(s).buffer| == |s.buffer|
  {
  }

  lemma MoveReflects(s: SideView, name: StateName, p: int)
    ensures Reflected(s.(state := name, price := p)) == Reflected(s).(state := name, price := 100 - p)
  {
  }

  lemma TripReflects(s: SideView, until: real)
    ensures Reflected(s.(state := COOLDOWN, cooldownUntil := Some(until)))
         == Reflected(s).(state := COOLDOWN, cooldownUntil := Some(until))
  {
  }

  // One step, from a state and its mirror image: every price it leaves is reflected.
  lemma StepReflects(cfg: StickyConfig, s: SideView, c: Call)
    requires cfg.Valid() && Inv(cfg, s) && s.price != 100 && OwnPriceOk(c)
    ensures Step(cfg, Bid, MirrorView(s), MirrorCall(c)) == ReflectedOutcome(Step(cfg, Ask, s, c))
  {
    hide RelaxedPrice, GatesPass, AggressivePrice, StepRelax, StepLocked, Ratio;
    var t := Synced(s, c);
    if !Unset(s, c) {
      assert Synced(MirrorView(s), MirrorCall(c)) == Reflected(t);
      if t.state.COOLDOWN? {
      } else if IsPennied(Ask, t.price, c.natural) {
        AggressivePriceMirrors(cfg, c);
        assert MirrorBuffer([]) == [];
      } else if t.state.AGGRESSIVE? {
        LockedMirrors(cfg, t, c);
        LockedNames(cfg, t, c);
        var o := StepLocked(cfg, Ask, t, c);
        if o.name.RELAXING? {
          RelaxMirrors(cfg, o.view, c, o.log);
        }
      } else if t.state.RELAXING? {
        RelaxMirrors(cfg, t, c, []);
      }
    }
  }

  lemma LockedNames(cfg: StickyConfig, s: SideView, c: Call)
    requires cfg.Valid() && s.state.AGGRESSIVE?
    ensures StepLocked(cfg, Ask, s, c).name == StepLocked(cfg, Ask, s, c).view.state
  {
  }

  // ---- Runs ----------------------------------------------------------------------------------------------

  // b is the mirror image of a, and each holds a price exactly when the other does.
  predicate Mirrored(a: SideView, b: SideView) { b == MirrorView(a) && (a.price == 0 <==> b.price == 0) }

  predicate InStep(o: Outcome, m: Outcome) { m == ReflectedOutcome(o) && Mirrored(o.view, m.view) }

  // Every call of the run, the mirrored run beside it.
  predicate InLockstep(cfg: StickyConfig, calls: seq<Call>)
    requires cfg.Valid()
  {
    calls == [] || (InLockstep(cfg, Front(calls)) && InStep(Out(cfg, Ask, calls), Out(cfg, Bid, MirrorCalls(calls))))
  }

  predicate AtEdge(p: int) { p == 0 || p == 100 }

  // No call of the run leaves the machine holding 0 or 100 cents.
  predicate KeepsOffEdges(cfg: StickyConfig, calls: seq<Call>)
    requires cfg.Valid()
  {
    calls == [] || (KeepsOffEdges(cfg, Front(calls)) && !AtEdge(After(cfg, Ask, calls).price))
  }

  // The two sides stay in lockstep through a run if and only if no call of it leaves a price of 0 or 100: one
  // of the two sides would read that as "no price".
  lemma {:induction false} RunsMirrorExactly(cfg: StickyConfig, calls: seq<Call>)
    requires cfg.Valid() && forall i :: 0 <= i < |calls| ==> OwnPriceOk(calls[i])
    ensures InLockstep(cfg, calls) <==> KeepsOffEdges(cfg, calls)
    ensures InLockstep(cfg, calls) ==> Mirrored(After(cfg, Ask, calls), After(cfg, Bid, MirrorCalls(calls)))
  {
    hide Step, Reflected;
    if calls == [] {
      FreshMirrors();
    } else {
      RunsMirrorExactly(cfg, Front(calls));
      assert Front(MirrorCalls(calls)) == MirrorCalls(Front(calls));
      if InLockstep(cfg, Front(calls)) {
        RunKeepsInv(cfg, Ask, Front(calls));
        StepReflects(cfg, After(cfg, Ask, Front(calls)), Last(calls));
        ReflectionMirrors(After(cfg, Ask, calls));
      }
    }
  }

  lemma FreshMirrors()
    ensures Mirrored(FRESH, FRESH)
  {
    assert MirrorBuffer([]) == [];
  }

  lemma ReflectionMirrors(s: SideView)
    ensures Mirrored(s, Reflected(s)) <==> !AtEdge(s.price)
  {
  }

  // Only a call that quotes its own natural target leaves such a price, so targets of 1 to 99 never do.
  lemma EdgesAreQuotedTargets(cfg: StickyConfig, calls: seq<Call>)
    requires cfg.Valid() && calls != [] && AtEdge(After(cfg, Ask, calls).price)
    ensures Last(calls).natural == After(cfg, Ask, calls).price == Out(cfg, Ask, calls).price
  {
    RunKeepsInv(cfg, Ask, Front(calls));
    RunKeepsInv(cfg, Ask, calls);
    StepKeepsInv(cfg, Ask, After(cfg, Ask, Front(calls)), Last(calls));
    NormalQuotesNatural(cfg, Ask, calls);
    NormalHoldsItsQuote(cfg, After(cfg, Ask, Front(calls)), Last(calls));
  }

  lemma NormalHoldsItsQuote(cfg: StickyConfig, s: SideView, c: Call)
    requires cfg.Valid() && Inv(cfg, s) && Step(cfg, Ask, s, c).name.NORMAL?
    ensures Step(cfg, Ask, s, c).price == Step(cfg, Ask, s, c).view.price
  {
  }

  lemma {:induction false} RunsMirror(cfg: StickyConfig, calls: seq<Call>)
    requires cfg.Valid() && forall i :: 0 <= i < |calls| ==> OwnPriceOk(calls[i]) && !AtEdge(calls[i].natural)
    ensures InLockstep(cfg, calls)
  {
    hide Step;
    RunsMirrorExactly(cfg, calls);
    if calls != [] {
      RunsMirror(cfg, Front(calls));
      RunsMirrorExactly(cfg, Front(calls));
      if AtEdge(After(cfg, Ask, calls).price) {
        EdgesAreQuotedTargets(cfg, calls);
      }
    }
  }

  // Outside the band of targets the mirror does break: one of 100 cents on the ask side is an ordinary price,
  // but its image, 0 on the bid side, reads as "never quoted" on the next call, and the penny is missed.
  lemma ZeroTargetBreaksTheMirror(cfg: StickyConfig)
    requires cfg.Valid()
    ensures var ask := [Call(100, 60, 0, 30.0, 0.0), Call(50, 60, 0, 30.0, 1.0)];
            Out(cfg, Ask, ask).name.AGGRESSIVE? && Out(cfg, Bid, MirrorCalls(ask)).name.NORMAL?
  {
    var first, second := Call(100, 60, 0, 30.0, 0.0), Call(50, 60, 0, 30.0, 1.0);
    var ask := [first, second];
    var bid := MirrorCalls(ask);
    FirstCalls(cfg, Ask, first, second);
    FirstCalls(cfg, Bid, MirrorCall(first), MirrorCall(second));
    assert bid == [MirrorCall(first), MirrorCall(second)];
  }

  lemma FirstCalls(cfg: StickyConfig, side: Side, first: Call, second: Call)
    requires cfg.Valid() && first.ours == 0
    ensures After(cfg, side, [first]) == FRESH.(price := first.natural)
    ensures Out(cfg, side, [first, second]) == Step(cfg, side, FRESH.(price := first.natural), second)
  {
    assert Front([first]) == [] && Front([first, second]) == [first];
  }
}
