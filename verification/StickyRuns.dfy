// Whole runs of one sticky machine: what any sequence of compute calls keeps, when the lock
// releases, how the relaxation ends, and what the breaker and the transition log promise.
module StickyRuns {
  import opened Numeric
  import opened StickyQuote

  function Last<T>(s: seq<T>): T
    requires s != []
  {
    s[|s| - 1]
  }

  function Front<T>(s: seq<T>): seq<T>
    requires s != []
  {
    s[..|s| - 1]
  }

  function After(cfg: StickyConfig, side: Side, calls: seq<Call>): SideView
    requires cfg.Valid()
  {
    if calls == [] then FRESH else Step(cfg, side, After(cfg, side, Front(calls)), Last(calls)).view
  }

  // The outcome of the last call of a run.
  function Out(cfg: StickyConfig, side: Side, calls: seq<Call>): Outcome
    requires cfg.Valid() && calls != []
  {
    Step(cfg, side, After(cfg, side, Front(calls)), Last(calls))
  }

  // ---- The invariant ---------------------------------------------------------------------------

  predicate Inv(cfg: StickyConfig, s: SideView)
    requires cfg.Valid()
  {
    && (!s.state.NORMAL? ==> 1 <= s.price <= 99)
    && (s.state.AGGRESSIVE? ==> s.enteredAt.Some? && s.theoAtEntry.Some? && |s.buffer| <= cfg.snapshotsAt1xRequired)
    && (s.state.RELAXING? ==> 1 <= s.relaxStep < cfg.relaxTotalSteps && s.relaxMinStep.Some?)
    && (s.state.COOLDOWN? ==> s.cooldownUntil.Some?)
  }

  lemma RelaxKeepsInv(cfg: StickyConfig, side: Side, s: SideView, c: Call, log: seq<Transition>)
    requires cfg.Valid() && s.state.RELAXING? && s.relaxStep >= 0 && s.relaxMinStep.Some?
    ensures var o := StepRelax(cfg, side, s, c, log);
            && Inv(cfg, o.view) && o.name == o.view.state
            && (o.name.RELAXING? ==> o.view.relaxStep == s.relaxStep + 1)
            && (o.name.RELAXING? || o.name.NORMAL?) && o.price == o.view.price
  {
  }

  lemma StepKeepsInv(cfg: StickyConfig, side: Side, s: SideView, c: Call)
    requires cfg.Valid() && Inv(cfg, s)
    ensures Inv(cfg, Step(cfg, side, s, c).view)
    ensures Step(cfg, side, s, c).name == Step(cfg, side, s, c).view.state
  {
    var t := Synced(s, c);
    if t.state.AGGRESSIVE? {
      var o := StepLocked(cfg, side, t, c);
      if o.name.RELAXING? {
        RelaxKeepsInv(cfg, side, o.view, c, o.log);
      }
    } else if t.state.RELAXING? {
      RelaxKeepsInv(cfg, side, t, c, []);
    }
  }

  lemma {:induction false} RunKeepsInv(cfg: StickyConfig, side: Side, calls: seq<Call>)
    requires cfg.Valid()
    ensures Inv(cfg, After(cfg, side, calls))
  {
    hide Step;
    if calls != [] {
      RunKeepsInv(cfg, side, Front(calls));
      StepKeepsInv(cfg, side, After(cfg, side, Front(calls)), Last(calls));
    }
  }

  lemma RelaxInBand(cfg: StickyConfig, side: Side, s: SideView, c: Call, log: seq<Transition>)
    requires 1 <= c.natural <= 99
    ensures 1 <= StepRelax(cfg, side, s, c, log).price <= 99
  {
  }

  lemma StepInBand(cfg: StickyConfig, side: Side, s: SideView, c: Call)
    requires cfg.Valid() && Inv(cfg, s) && 1 <= c.natural <= 99
    ensures var o := Step(cfg, side, s, c);
            if o.name.COOLDOWN? then o.price == 0 else 1 <= o.price <= 99
  {
    hide StepRelax, GatesPass, Ratio;
    var t := Synced(s, c);
    var o := StepLocked(cfg, side, t, c);
    RelaxInBand(cfg, side, o.view, c, o.log);
    RelaxInBand(cfg, side, t, c, []);
    if o.name.RELAXING? {
      NeverCooldown(cfg, side, o.view, c, o.log);
    }
    if t.state.RELAXING? {
      NeverCooldown(cfg, side, t, c, []);
    }
  }

  lemma NeverCooldown(cfg: StickyConfig, side: Side, s: SideView, c: Call, log: seq<Transition>)
    ensures !StepRelax(cfg, side, s, c, log).name.COOLDOWN?
  {
  }

  // Only COOLDOWN answers 0 ("do not post"); every other answer is a price the exchange accepts.
  lemma PricesInBand(cfg: StickyConfig, side: Side, calls: seq<Call>)
    requires cfg.Valid() && calls != [] && 1 <= Last(calls).natural <= 99
    ensures var o := Out(cfg, side, calls);
            if o.name.COOLDOWN? then o.price == 0 else 1 <= o.price <= 99
  {
    hide Step;
    RunKeepsInv(cfg, side, Front(calls));
    StepInBand(cfg, side, After(cfg, side, Front(calls)), Last(calls));
  }

  // ---- Relaxation ------------------------------------------------------------------------------

  // One relaxation step from short of the target: at least a cent towards it, never past it, and all
  // the way when no step remains.
  lemma RelaxLands(cfg: StickyConfig, side: Side, s: SideView, natural: int)
    requires Signed(side, natural - s.price) > 0
    ensures var p := RelaxedPrice(cfg, side, s, natural);
            && (1 <= s.price <= 99 && 1 <= natural <= 99 ==>
                  0 < Signed(side, p - s.price) <= Signed(side, natural - s.price))
            && (s.relaxStep >= cfg.relaxTotalSteps ==> p == Clamp99(natural))
  {
    var remaining := Max(1, cfg.relaxTotalSteps - s.relaxStep + 1);
    var gap := Signed(side, natural - s.price);
    var step := RMax(RMax(MinStep(s), Ratio(gap, remaining)), 1.0);
    RoundAtLeast(step, 1);
    if s.relaxStep >= cfg.relaxTotalSteps && remaining == 1 {
      assert Ratio(gap, 1) == gap as real;
      RoundAtLeast(step, gap);
    }
  }

  // The view StepRelax starts from, when the call reaches it.
  predicate Relaxes(cfg: StickyConfig, side: Side, s: SideView, c: Call)
    requires cfg.Valid()
  {
    && !Unset(s, c) && !IsPennied(side, Synced(s, c).price, c.natural)
    && (s.state.RELAXING? || (s.state.AGGRESSIVE? && StepLocked(cfg, side, Synced(s, c), c).name.RELAXING?))
  }

  lemma RelaxProgress(cfg: StickyConfig, side: Side, s: SideView, c: Call, log: seq<Transition>)
    requires cfg.Valid() && s.state.RELAXING?
    requires 1 <= s.price <= 99 && 1 <= c.natural <= 99 && Signed(side, c.natural - s.price) >= 0
    ensures var o := StepRelax(cfg, side, s, c, log);
            var gap := Signed(side, c.natural - s.price);
            && (if gap == 0 then o.price == s.price else 0 < Signed(side, o.price - s.price) <= gap)
            && (o.price == c.natural <==> o.view.state.NORMAL?)
  {
    if Signed(side, c.natural - s.price) > 0 {
      RelaxLands(cfg, side, s.(relaxStep := s.relaxStep + 1), c.natural);
    }
  }

  // A call that relaxes towards an in-band target, on the entry call or later, however the target
  // moved: strictly towards it and never past it, and NORMAL exactly on reaching it.
  lemma RelaxingCallProgresses(cfg: StickyConfig, side: Side, calls: seq<Call>)
    requires cfg.Valid() && calls != [] && 1 <= Last(calls).natural <= 99
    requires Relaxes(cfg, side, After(cfg, side, Front(calls)), Last(calls))
    ensures var s := After(cfg, side, Front(calls)); var o := Out(cfg, side, calls);
            var gap := Signed(side, Last(calls).natural - s.price);
            && gap >= 0
            && (if gap == 0 then o.price == s.price else 0 < Signed(side, o.price - s.price) <= gap)
            && (o.price == Last(calls).natural <==> o.view.state.NORMAL?)
  {
    hide Step, Relaxes;
    RunKeepsInv(cfg, side, Front(calls));
    StepProgresses(cfg, side, After(cfg, side, Front(calls)), Last(calls));
  }

  lemma StepProgresses(cfg: StickyConfig, side: Side, s: SideView, c: Call)
    requires cfg.Valid() && Inv(cfg, s) && 1 <= c.natural <= 99 && Relaxes(cfg, side, s, c)
    ensures var o := Step(cfg, side, s, c);
            var gap := Signed(side, c.natural - s.price);
            && gap >= 0
            && (if gap == 0 then o.price == s.price else 0 < Signed(side, o.price - s.price) <= gap)
            && (o.price == c.natural <==> o.view.state.NORMAL?)
  {
    hide StepRelax, RelaxedPrice, Ratio, GatesPass;
    if s.state.RELAXING? {
      RelaxProgress(cfg, side, s, c, []);
    } else {
      var o := StepLocked(cfg, side, s, c);
      RelaxProgress(cfg, side, o.view, c, o.log);
    }
  }

  lemma RelaxEndsAtNatural(cfg: StickyConfig, side: Side, s: SideView, c: Call, log: seq<Transition>)
    requires s.state.RELAXING? && StepRelax(cfg, side, s, c, log).name.NORMAL?
    ensures var o := StepRelax(cfg, side, s, c, log);
            || o.price == c.natural
            || (o.price == Clamp99(c.natural) && o.log == log + [Transition(RELAXING, NORMAL, Completed)])
  {
    if Signed(side, c.natural - s.price) > 0 {
      RelaxLands(cfg, side, s.(relaxStep := s.relaxStep + 1), c.natural);
    }
  }

  // Whatever the run was, a call that ends in NORMAL quotes that call's own natural target; the one
  // exception is a relaxation that completes towards a target outside the price band.
  lemma NormalQuotesNatural(cfg: StickyConfig, side: Side, calls: seq<Call>)
    requires cfg.Valid() && calls != [] && Out(cfg, side, calls).name.NORMAL?
    ensures var c := Last(calls); var o := Out(cfg, side, calls);
            o.price == c.natural || (o.price == Clamp99(c.natural) && o.log != [] && Last(o.log).kind.Completed?)
  {
    var s := After(cfg, side, Front(calls));
    var c := Last(calls);
    RunKeepsInv(cfg, side, Front(calls));
    if Relaxes(cfg, side, s, c) {
      if s.state.RELAXING? {
        RelaxEndsAtNatural(cfg, side, s, c, []);
      } else {
        var o := StepLocked(cfg, side, s, c);
        RelaxEndsAtNatural(cfg, side, o.view, c, o.log);
      }
    }
  }

  // How many calls in a row, counting back from the last, left the machine RELAXING.
  function RelaxingCalls(cfg: StickyConfig, side: Side, calls: seq<Call>): nat
    requires cfg.Valid()
  {
    if calls == [] || !After(cfg, side, calls).state.RELAXING? then 0
    else 1 + RelaxingCalls(cfg, side, Front(calls))
  }

  lemma {:induction false} RelaxStepCountsCalls(cfg: StickyConfig, side: Side, calls: seq<Call>)
    requires cfg.Valid() && After(cfg, side, calls).state.RELAXING?
    ensures After(cfg, side, calls).relaxStep == RelaxingCalls(cfg, side, calls) < cfg.relaxTotalSteps
  {
    var s := After(cfg, side, Front(calls));
    var c := Last(calls);
    RunKeepsInv(cfg, side, calls);
    RunKeepsInv(cfg, side, Front(calls));
    if s.state.RELAXING? {
      RelaxStepCountsCalls(cfg, side, Front(calls));
      RelaxKeepsInv(cfg, side, s, c, []);
    } else if s.state.AGGRESSIVE? {
      var o := StepLocked(cfg, side, s, c);
      RelaxKeepsInv(cfg, side, o.view, c, o.log);
    }
  }

  lemma RelaxingCallCounts(cfg: StickyConfig, side: Side, run: seq<Call>, c: Call)
    requires cfg.Valid() && After(cfg, side, run).state.RELAXING?
    requires 1 <= c.natural <= 99 && !IsPennied(side, After(cfg, side, run).price, c.natural)
    ensures var next := run + [c];
            if After(cfg, side, next).state.RELAXING?
            then RelaxingCalls(cfg, side, next) == RelaxingCalls(cfg, side, run) + 1 < cfg.relaxTotalSteps
            else Out(cfg, side, next).name.NORMAL? && Out(cfg, side, next).price == c.natural
  {
    var next := run + [c];
    assert Front(next) == run;
    RunKeepsInv(cfg, side, run);
    RelaxKeepsInv(cfg, side, After(cfg, side, run), c, []);
    RelaxProgress(cfg, side, After(cfg, side, run), c, []);
    if After(cfg, side, next).state.RELAXING? {
      RelaxStepCountsCalls(cfg, side, next);
    }
  }

  lemma MoveFirst<T>(run: seq<T>, more: seq<T>, i: nat)
    requires i < |more|
    ensures run + [more[0]] + more[1..][..i] == run + more[..i + 1]
  {
    assert more[..i + 1] == [more[0]] + more[1..][..i];
  }

  // The gap the release that opened the relaxation in progress had to close.
  function ReleaseGap(cfg: StickyConfig, side: Side, calls: seq<Call>): int
    requires cfg.Valid() && calls != []
  {
    var s := After(cfg, side, Front(calls));
    if s.state.RELAXING? && |calls| > 1 then ReleaseGap(cfg, side, Front(calls))
    else Abs(Last(calls).natural - s.price)
  }

  lemma {:induction false} MinStepIsReleaseGap(cfg: StickyConfig, side: Side, calls: seq<Call>)
    requires cfg.Valid() && After(cfg, side, calls).state.RELAXING?
    ensures After(cfg, side, calls).relaxMinStep == Some(Ratio(ReleaseGap(cfg, side, calls), cfg.relaxTotalSteps))
  {
    hide Step, Ratio;
    var s := After(cfg, side, Front(calls));
    RunKeepsInv(cfg, side, Front(calls));
    if s.state.RELAXING? {
      MinStepIsReleaseGap(cfg, side, Front(calls));
    }
    RelaxingKeepsMinStep(cfg, side, s, Last(calls));
  }

  lemma RelaxingKeepsMinStep(cfg: StickyConfig, side: Side, s: SideView, c: Call)
    requires cfg.Valid() && Inv(cfg, s) && Step(cfg, side, s, c).view.state.RELAXING?
    ensures s.state.RELAXING? || s.state.AGGRESSIVE?
    ensures Step(cfg, side, s, c).view.relaxMinStep ==
            if s.state.RELAXING? then s.relaxMinStep
            else Some(Ratio(Abs(c.natural - s.price), cfg.relaxTotalSteps))
  {
    hide GatesPass, Ratio, RelaxedPrice, AggressivePrice, Push;
    var t := Synced(s, c);
    if t.state.AGGRESSIVE? {
      var o := StepLocked(cfg, side, t, c);
      if o.name.RELAXING? {
        assert o.view == Released(cfg, side, Counted(cfg, t, c), c);
        assert Abs(Signed(side, c.natural - t.price)) == Abs(c.natural - t.price);
      }
    }
  }

  // To the nearest cent: an equal share of the gap to each of the calls left, but no less than `least` or one
  // cent; or the whole gap, if that is less.
  predicate AtPace(gap: int, left: int, least: real, moved: int) {
    left >= 1 && moved == Min(gap, RoundHalfEven(RMax(RMax(gap as real / left as real, least), 1.0)))
  }

  // Every relaxing call that starts short of its target keeps pace, the releasing call included: with an equal
  // share of the gap at the release as its least step, over the calls left of the total.
  lemma RelaxationKeepsPace(cfg: StickyConfig, side: Side, calls: seq<Call>, run: seq<Call>, held: SideView)
    requires cfg.Valid() && calls != [] && run == Front(calls) && held == After(cfg, side, run)
    requires Relaxes(cfg, side, held, Last(calls)) && 1 <= Last(calls).natural <= 99
    requires Signed(side, Last(calls).natural - held.price) > 0
    ensures AtPace(Signed(side, Last(calls).natural - held.price),
                   cfg.relaxTotalSteps - RelaxingCalls(cfg, side, run),
                   Ratio(ReleaseGap(cfg, side, calls), cfg.relaxTotalSteps),
                   Signed(side, Out(cfg, side, calls).price - held.price))
  {
    hide AtPace, Ratio, Step, StepLocked;
    RunKeepsInv(cfg, side, run);
    if held.state.RELAXING? {
      RelaxStepCountsCalls(cfg, side, run);
      MinStepIsReleaseGap(cfg, side, run);
      StepPaces(cfg, side, held, Last(calls));
    } else {
      ReleasePaces(cfg, side, held, Last(calls));
    }
  }

  lemma StepPaces(cfg: StickyConfig, side: Side, s: SideView, c: Call)
    requires cfg.Valid() && Inv(cfg, s) && s.state.RELAXING?
    requires 1 <= c.natural <= 99 && Signed(side, c.natural - s.price) > 0
    ensures AtPace(Signed(side, c.natural - s.price), cfg.relaxTotalSteps - s.relaxStep, s.relaxMinStep.value,
                   Signed(side, Step(cfg, side, s, c).price - s.price))
  {
    RelaxingPrice(cfg, side, s, c);
    RelaxPaces(cfg, side, s.(relaxStep := s.relaxStep + 1), c.natural);
  }

  lemma RelaxingPrice(cfg: StickyConfig, side: Side, s: SideView, c: Call)
    requires cfg.Valid() && Inv(cfg, s) && s.state.RELAXING? && Signed(side, c.natural - s.price) > 0
    ensures Step(cfg, side, s, c).price == RelaxedPrice(cfg, side, s.(relaxStep := s.relaxStep + 1), c.natural)
  {
  }

  lemma ReleasePaces(cfg: StickyConfig, side: Side, s: SideView, c: Call)
    requires cfg.Valid() && Inv(cfg, s) && s.state.AGGRESSIVE? && Relaxes(cfg, side, s, c)
    requires 1 <= c.natural <= 99 && Signed(side, c.natural - s.price) > 0
    ensures AtPace(Signed(side, c.natural - s.price), cfg.relaxTotalSteps,
                   Ratio(Abs(c.natural - s.price), cfg.relaxTotalSteps),
                   Signed(side, Step(cfg, side, s, c).price - s.price))
  {
    hide AtPace, Ratio, RelaxedPrice;
    var r := Released(cfg, side, Counted(cfg, s, c), c).(relaxStep := 1);
    ReleasePrice(cfg, side, s, c);
    assert Abs(Signed(side, c.natural - s.price)) == Abs(c.natural - s.price);
    RelaxPaces(cfg, side, r, c.natural);
  }

  lemma ReleasePrice(cfg: StickyConfig, side: Side, s: SideView, c: Call)
    requires cfg.Valid() && Inv(cfg, s) && s.state.AGGRESSIVE? && Relaxes(cfg, side, s, c)
    requires Signed(side, c.natural - s.price) > 0
    ensures Step(cfg, side, s, c).price ==
            RelaxedPrice(cfg, side, Released(cfg, side, Counted(cfg, s, c), c).(relaxStep := 1), c.natural)
  {
    hide GatesPass, Ratio, RelaxedPrice, Push;
  }

  lemma RelaxPaces(cfg: StickyConfig, side: Side, s: SideView, natural: int)
    requires Signed(side, natural - s.price) > 0 && 1 <= s.price <= 99 && 1 <= natural <= 99
    requires s.relaxStep <= cfg.relaxTotalSteps && s.relaxMinStep.Some?
    ensures AtPace(Signed(side, natural - s.price), cfg.relaxTotalSteps - s.relaxStep + 1, s.relaxMinStep.value,
                   Signed(side, RelaxedPrice(cfg, side, s, natural) - s.price))
  {
    var gap := Signed(side, natural - s.price);
    var left := cfg.relaxTotalSteps - s.relaxStep + 1;
    assert Max(1, left) == left;
    var step := RMax(RMax(MinStep(s), Ratio(gap, left)), 1.0);
    assert step == RMax(RMax(gap as real / left as real, s.relaxMinStep.value), 1.0);
    RoundAtLeast(step, 1);
    hide RoundHalfEven, Ratio;
  }

  // Calls with targets in the band, none of which pennies the price the machine then holds.
  predicate Quiet(cfg: StickyConfig, side: Side, run: seq<Call>, more: seq<Call>)
    requires cfg.Valid()
    decreases |more|
  {
    more == [] || (&& 1 <= more[0].natural <= 99
                   && !IsPennied(side, After(cfg, side, run).price, more[0].natural)
                   && Quiet(cfg, side, run + [more[0]], more[1..]))
  }

  // How many of the calls in `more` it takes to leave RELAXING (all of them, if they do not suffice).
  function CallsToLeave(cfg: StickyConfig, side: Side, run: seq<Call>, more: seq<Call>): (k: nat)
    requires cfg.Valid()
    ensures k <= |more|
    decreases |more|
  {
    if more == [] || !After(cfg, side, run).state.RELAXING? then 0
    else 1 + CallsToLeave(cfg, side, run + [more[0]], more[1..])
  }

  // From any relaxing run, as many quiet calls as make up the total steps, the entry call included,
  // always reach NORMAL: through RELAXING only, and at the natural target of the call that gets there.
  lemma {:induction false} RelaxationTerminates(cfg: StickyConfig, side: Side, run: seq<Call>, more: seq<Call>)
    requires cfg.Valid() && After(cfg, side, run).state.RELAXING?
    requires |more| >= cfg.relaxTotalSteps - RelaxingCalls(cfg, side, run)
    requires Quiet(cfg, side, run, more)
    ensures var k := CallsToLeave(cfg, side, run, more);
            && 1 <= k <= cfg.relaxTotalSteps - RelaxingCalls(cfg, side, run)
            && Out(cfg, side, run + more[..k]).name.NORMAL?
            && Out(cfg, side, run + more[..k]).price == more[k - 1].natural
    decreases |more|
  {
    hide Step;
    RelaxStepCountsCalls(cfg, side, run);
    var c := more[0];
    var next := run + [c];
    RelaxingCallCounts(cfg, side, run, c);
    if After(cfg, side, next).state.RELAXING? {
      RelaxationTerminates(cfg, side, next, more[1..]);
      MoveFirst(run, more, CallsToLeave(cfg, side, next, more[1..]));
    } else {
      assert next == run + more[..1];
    }
  }

  // ---- The lock: when it closes ------------------------------------------------------------------------

  // As near to theo as a race may go.
  function TheoBound(cfg: StickyConfig, side: Side, c: Call): real {
    c.fair + Signed(side, cfg.minDistanceFromTheo) as real
  }

  // From NORMAL or RELAXING the machine locks exactly when the target has moved past the price held, by however
  // little. It then answers and holds the race price, the jump inside the best price but no nearer to theo than the
  // bound to the nearest cent, and logs the one transition. From NORMAL it otherwise just quotes the target, as
  // it does while there is no price to compare with.
  lemma LocksExactlyWhenPennied(cfg: StickyConfig, side: Side, calls: seq<Call>, bound: int)
    requires cfg.Valid() && calls != [] && IsNearestEven(TheoBound(cfg, side, Last(calls)), bound)
    requires var s := After(cfg, side, Front(calls)).state; s.NORMAL? || s.RELAXING?
    ensures var s := After(cfg, side, Front(calls)); var c := Last(calls); var o := Out(cfg, side, calls);
            var held := if s.price == 0 && c.ours > 0 then c.ours else s.price;
            var pennied := if side.Ask? then c.natural < held else c.natural > held;
            var race := if side.Ask? then Max(c.best - cfg.desertJumpCents, bound)
                        else Min(c.best + cfg.desertJumpCents, bound);
            if s.price == 0 && c.ours == 0 then o.name.NORMAL? && o.price == c.natural && o.log == []
            else if pennied then
              && o.name.AGGRESSIVE? && o.view.price == o.price == Max(1, Min(99, race))
              && o.log == [Transition(s.state, AGGRESSIVE, Pennied)]
              && o.view.relaxStep == 0 && o.view.relaxStartPrice.None?
            else
              && !o.name.AGGRESSIVE?
              && (s.state.NORMAL? ==> o.name.NORMAL? && o.price == c.natural && o.log == [])
  {
    var s, c := After(cfg, side, Front(calls)), Last(calls);
    RunKeepsInv(cfg, side, Front(calls));
    RacePriceAt(cfg, side, c, bound);
    UnlockedCall(cfg, side, s, c);
    hide Step, AggressivePrice, RoundHalfEven;
  }

  lemma RacePriceAt(cfg: StickyConfig, side: Side, c: Call, bound: int)
    requires IsNearestEven(TheoBound(cfg, side, c), bound)
    ensures var race := if side.Ask? then Max(c.best - cfg.desertJumpCents, bound)
                        else Min(c.best + cfg.desertJumpCents, bound);
            AggressivePrice(cfg, side, c) == Max(1, Min(99, race))
  {
    RoundIsNearestEven(TheoBound(cfg, side, c), bound);
    hide RoundHalfEven, IsNearestEven;
  }

  // One call on a machine that is not locked.
  lemma UnlockedCall(cfg: StickyConfig, side: Side, s: SideView, c: Call)
    requires cfg.Valid() && Inv(cfg, s) && (s.state.NORMAL? || s.state.RELAXING?)
    ensures var o := Step(cfg, side, s, c); var held := if s.price == 0 && c.ours > 0 then c.ours else s.price;
            if s.price == 0 && c.ours == 0 then o.name.NORMAL? && o.price == c.natural && o.log == []
            else if if side.Ask? then c.natural < held else c.natural > held then
              && o.name.AGGRESSIVE? && o.view.price == o.price == AggressivePrice(cfg, side, c)
              && o.log == [Transition(s.state, AGGRESSIVE, Pennied)]
              && o.view.relaxStep == 0 && o.view.relaxStartPrice.None?
            else
              && !o.name.AGGRESSIVE?
              && (s.state.NORMAL? ==> o.name.NORMAL? && o.price == c.natural && o.log == [])
  {
    hide AggressivePrice, RelaxedPrice, Ratio, StepLocked;
    if s.state.RELAXING? {
      RelaxKeepsInv(cfg, side, s, c, []);
    }
    hide StepRelax;
  }

  // ---- The lock: its fields are the history of the episode ---------------------------------------

  // The calls of the AGGRESSIVE episode in progress that were not pennied.
  function Held(cfg: StickyConfig, side: Side, calls: seq<Call>): seq<Call>
    requires cfg.Valid()
  {
    if calls == [] || !After(cfg, side, calls).state.AGGRESSIVE? then []
    else
      var s := After(cfg, side, Front(calls));
      if !s.state.AGGRESSIVE? then []
      else if IsPennied(side, s.price, Last(calls).natural) then Held(cfg, side, Front(calls))
      else Held(cfg, side, Front(calls)) + [Last(calls)]
  }

  // The call that opened the episode in progress.
  function Opening(cfg: StickyConfig, side: Side, calls: seq<Call>): Call
    requires cfg.Valid() && calls != []
  {
    if After(cfg, side, Front(calls)).state.AGGRESSIVE? && |calls| > 1 then Opening(cfg, side, Front(calls))
    else Last(calls)
  }

  // The last pennied call of the episode in progress.
  function LastRace(cfg: StickyConfig, side: Side, calls: seq<Call>): Call
    requires cfg.Valid() && calls != []
  {
    var s := After(cfg, side, Front(calls));
    if s.state.AGGRESSIVE? && !IsPennied(side, s.price, Last(calls).natural) && |calls| > 1
    then LastRace(cfg, side, Front(calls))
    else Last(calls)
  }

  // The call that tripped the breaker, while in COOLDOWN.
  function Trip(cfg: StickyConfig, side: Side, calls: seq<Call>): Call
    requires cfg.Valid() && calls != []
  {
    if After(cfg, side, Front(calls)).state.COOLDOWN? && |calls| > 1 then Trip(cfg, side, Front(calls))
    else Last(calls)
  }

  function Streak(h: seq<Call>): nat {
    if h == [] || !AtOneX(Last(h)) then 0 else 1 + Streak(Front(h))
  }

  function Tail<T>(n: int, h: seq<T>): seq<T>
    requires n >= 1
  {
    if |h| <= n then h else h[|h| - n..]
  }

  function Fairs(h: seq<Call>): seq<real> { seq(|h|, i requires 0 <= i < |h| => h[i].fair) }

  lemma PushIsTail(n: int, h: seq<Call>, c: Call)
    requires n >= 1
    ensures Push(n, Fairs(Tail(n, h)), c.fair) == Fairs(Tail(n, h + [c]))
  {
  }

  lemma {:induction false} StreakAtLeast(h: seq<Call>, n: nat)
    ensures Streak(h) >= n <==> |h| >= n && forall i :: |h| - n <= i < |h| ==> AtOneX(h[i])
  {
    if h != [] && n > 0 {
      StreakAtLeast(Front(h), n - 1);
      assert forall i :: 0 <= i < |h| - 1 ==> Front(h)[i] == h[i];
    }
  }

  predicate FieldsAreHistory(cfg: StickyConfig, side: Side, calls: seq<Call>)
    requires cfg.Valid()
  {
    var s := After(cfg, side, calls);
    && (s.state.AGGRESSIVE? && calls != [] ==>
          && s.enteredAt == Some(Opening(cfg, side, calls).now)
          && s.theoAtEntry == Some(Opening(cfg, side, calls).fair)
          && s.buffer == Fairs(Tail(cfg.snapshotsAt1xRequired, Held(cfg, side, calls)))
          && s.count1x == Streak(Held(cfg, side, calls))
          && s.price == AggressivePrice(cfg, side, LastRace(cfg, side, calls)))
    && (s.state.COOLDOWN? && calls != [] ==>
          s.cooldownUntil == Some(Trip(cfg, side, calls).now + cfg.cooldownSeconds))
  }

  // What one call does to the fields of the lock, from s to v.
  predicate LockMoves(cfg: StickyConfig, side: Side, s: SideView, c: Call, v: SideView)
    requires cfg.Valid()
  {
    && (v.state.AGGRESSIVE? && !s.state.AGGRESSIVE? ==>
          v.enteredAt == Some(c.now) && v.theoAtEntry == Some(c.fair) && v.buffer == [] && v.count1x == 0
          && v.price == AggressivePrice(cfg, side, c))
    && (v.state.AGGRESSIVE? && s.state.AGGRESSIVE? ==>
          v == if IsPennied(side, s.price, c.natural) then s.(price := AggressivePrice(cfg, side, c))
               else Counted(cfg, s, c))
    && (v.state.COOLDOWN? ==>
          if s.state.COOLDOWN? then v == s
          else s.state.AGGRESSIVE? && v.cooldownUntil == Some(c.now + cfg.cooldownSeconds))
  }

  lemma LockStep(cfg: StickyConfig, side: Side, s: SideView, c: Call)
    requires cfg.Valid() && Inv(cfg, s)
    ensures LockMoves(cfg, side, s, c, Step(cfg, side, s, c).view)
  {
    var t := Synced(s, c);
    if t.state.AGGRESSIVE? {
      var o := StepLocked(cfg, side, t, c);
      if o.name.RELAXING? {
        RelaxKeepsInv(cfg, side, o.view, c, o.log);
      }
    } else if t.state.RELAXING? {
      RelaxKeepsInv(cfg, side, t, c, []);
    }
  }

  lemma {:induction false} LockFieldsAreHistory(cfg: StickyConfig, side: Side, calls: seq<Call>)
    requires cfg.Valid()
    ensures FieldsAreHistory(cfg, side, calls)
  {
    hide Step, FieldsAreHistory;
    if calls == [] {
      NoHistory(cfg, side);
    } else {
      var before := Front(calls);
      LockFieldsAreHistory(cfg, side, before);
      RunKeepsInv(cfg, side, before);
      LockStep(cfg, side, After(cfg, side, before), Last(calls));
      FieldsStep(cfg, side, calls);
    }
  }

  lemma NoHistory(cfg: StickyConfig, side: Side)
    requires cfg.Valid()
    ensures FieldsAreHistory(cfg, side, [])
  {
  }

  lemma FieldsStep(cfg: StickyConfig, side: Side, calls: seq<Call>)
    requires cfg.Valid() && calls != [] && FieldsAreHistory(cfg, side, Front(calls))
    requires LockMoves(cfg, side, After(cfg, side, Front(calls)), Last(calls), After(cfg, side, calls))
    ensures FieldsAreHistory(cfg, side, calls)
  {
    hide Step, AggressivePrice, Push, Fairs, Tail, AtOneX;
    var before, c := Front(calls), Last(calls);
    var s := After(cfg, side, before);
    if After(cfg, side, calls).state.AGGRESSIVE? && s.state.AGGRESSIVE? {
      assert before != [];
      var h := Held(cfg, side, before);
      PushIsTail(cfg.snapshotsAt1xRequired, h, c);
      assert Front(h + [c]) == h && Last(h + [c]) == c;
      assert Streak(h + [c]) == if AtOneX(c) then Streak(h) + 1 else 0;
    } else if After(cfg, side, calls).state.AGGRESSIVE? {
      assert Held(cfg, side, calls) == [];
      EmptyTail(cfg.snapshotsAt1xRequired);
    }
  }

  lemma EmptyTail(n: int)
    requires n >= 1
    ensures Fairs(Tail(n, [])) == []
  {
  }

  // What the release asks of the episode's unpennied calls h, the current one included.
  predicate Earned(cfg: StickyConfig, h: seq<Call>, opening: Call)
    requires cfg.Valid() && h != []
  {
    var n := cfg.snapshotsAt1xRequired;
    && |h| >= n
    && (forall i :: |h| - n <= i < |h| ==> h[i].ours > 0 && h[i].ours == h[i].best)
    && (forall i, j :: |h| - n <= i < |h| && |h| - n <= j < |h| ==> h[i].fair - h[j].fair < cfg.theoRangeCents)
    && RAbs(Last(h).fair - opening.fair) < cfg.theoStabilityCents
  }

  lemma SpreadIsPairwise(b: seq<real>, bound: real)
    requires |b| > 0
    ensures Highest(b) - Lowest(b) < bound <==> forall i, j :: 0 <= i < |b| && 0 <= j < |b| ==> b[i] - b[j] < bound
  {
  }

  lemma SpreadOfTail(n: int, h: seq<Call>, bound: real)
    requires 1 <= n <= |h|
    ensures var b := Fairs(Tail(n, h));
            Highest(b) - Lowest(b) < bound <==>
            forall i, j :: |h| - n <= i < |h| && |h| - n <= j < |h| ==> h[i].fair - h[j].fair < bound
  {
    var b := Fairs(Tail(n, h));
    SpreadIsPairwise(b, bound);
    assert forall k :: 0 <= k < n ==> b[k] == h[|h| - n + k].fair;
    assert forall i :: |h| - n <= i < |h| ==> h[i].fair == b[i - (|h| - n)];
  }

  lemma GatesAreEarned(cfg: StickyConfig, s: SideView, c: Call, h: seq<Call>, opening: Call)
    requires cfg.Valid() && h != [] && Last(h) == c
    requires s.theoAtEntry == Some(opening.fair) && s.count1x == Streak(h)
    requires s.buffer == Fairs(Tail(cfg.snapshotsAt1xRequired, h))
    ensures |s.buffer| > 0
    ensures GatesPass(cfg, s, c) <==> Earned(cfg, h, opening)
  {
    hide Highest, Lowest, Fairs, Tail, Streak;
    var n := cfg.snapshotsAt1xRequired;
    StreakAtLeast(h, n);
    TailLength(n, h);
    if |h| >= n {
      SpreadOfTail(n, h, cfg.theoRangeCents);
    }
  }

  lemma TailLength(n: int, h: seq<Call>)
    requires n >= 1
    ensures |Fairs(Tail(n, h))| == if |h| < n then |h| else n
  {
  }

  // A release of a lock held at this price: back to NORMAL at once if the target is there already, else the first
  // step of the way, an equal share of the gap.
  predicate StartsBack(cfg: StickyConfig, side: Side, held: int, c: Call, o: Outcome)
    requires cfg.Valid()
  {
    if c.natural == held then
      o.name.NORMAL? && o.price == held && o.log == [Transition(AGGRESSIVE, NORMAL, GapClosed)]
    else
      && (o.name.RELAXING? || o.name.NORMAL?)
      && o.log != [] && o.log[0] == Transition(AGGRESSIVE, RELAXING, GatesMet)
      && o.view.relaxStartPrice == Some(held) && o.view.relaxInitialTarget == Some(c.natural)
      && (1 <= c.natural <= 99 ==>
            AtPace(Signed(side, c.natural - held), cfg.relaxTotalSteps,
                   Ratio(Abs(c.natural - held), cfg.relaxTotalSteps), Signed(side, o.price - held)))
  }

  // The lock, decided on the history alone. A pennied call keeps it, and is answered with a fresh race;
  // otherwise the breaker comes first, and the lock releases exactly when the last N unpennied calls of
  // the episode earned it. A call that does neither repeats the price of the last race.
  lemma LockReleasesExactlyWhenEarned(cfg: StickyConfig, side: Side, calls: seq<Call>)
    requires cfg.Valid() && |calls| > 1 && After(cfg, side, Front(calls)).state.AGGRESSIVE?
    ensures var before := Front(calls); var c := Last(calls); var o := Out(cfg, side, calls);
            var opening := Opening(cfg, side, before);
            var late := c.now - opening.now > cfg.maxAggressiveDurationSeconds;
            if IsPennied(side, After(cfg, side, before).price, c.natural) then
              o.name.AGGRESSIVE? && o.log == [] && o.price == AggressivePrice(cfg, side, c)
            else if late then o.name.COOLDOWN? && o.price == 0
            else if Earned(cfg, Held(cfg, side, before) + [c], opening) then
              StartsBack(cfg, side, AggressivePrice(cfg, side, LastRace(cfg, side, before)), c, o)
            else
              o.name.AGGRESSIVE? && o.log == [] && o.price == AggressivePrice(cfg, side, LastRace(cfg, side, before))
  {
    hide Step, GatesPass, Earned, AggressivePrice, Push, Counted, StepLocked;
    var before := Front(calls);
    var c := Last(calls);
    LockFieldsAreHistory(cfg, side, before);
    RunKeepsInv(cfg, side, before);
    CountedOnHistory(cfg, side, before, c);
    LockedCall(cfg, side, After(cfg, side, before), c);
  }

  // The gates this call meets, on the history of the episode.
  lemma CountedOnHistory(cfg: StickyConfig, side: Side, before: seq<Call>, c: Call)
    requires cfg.Valid() && before != [] && After(cfg, side, before).state.AGGRESSIVE?
    ensures var s := Counted(cfg, After(cfg, side, before), c);
            && |s.buffer| > 0
            && (GatesPass(cfg, s, c) <==> Earned(cfg, Held(cfg, side, before) + [c], Opening(cfg, side, before)))
  {
    hide Step, GatesPass, Earned;
    LockFieldsAreHistory(cfg, side, before);
    var h := Held(cfg, side, before);
    PushIsTail(cfg.snapshotsAt1xRequired, h, c);
    assert Front(h + [c]) == h;
    GatesAreEarned(cfg, Counted(cfg, After(cfg, side, before), c), c, h + [c], Opening(cfg, side, before));
  }

  // One call on a locked machine, on its fields.
  lemma LockedCall(cfg: StickyConfig, side: Side, s: SideView, c: Call)
    requires cfg.Valid() && Inv(cfg, s) && s.state.AGGRESSIVE?
    ensures |Counted(cfg, s, c).buffer| > 0
    ensures var o := Step(cfg, side, s, c);
            if IsPennied(side, s.price, c.natural) then
              o.name.AGGRESSIVE? && o.log == [] && o.price == AggressivePrice(cfg, side, c)
            else if Expired(cfg, s, c) then o.name.COOLDOWN? && o.price == 0
            else if GatesPass(cfg, Counted(cfg, s, c), c) then StartsBack(cfg, side, s.price, c, o)
            else o.name.AGGRESSIVE? && o.log == [] && o.price == s.price
  {
    hide GatesPass, AggressivePrice, Ratio, RelaxedPrice, AtPace;
    var o := StepLocked(cfg, side, s, c);
    if o.name.RELAXING? && !IsPennied(side, s.price, c.natural) {
      RelaxKeepsInv(cfg, side, o.view, c, o.log);
      RelaxLogs(cfg, side, o.view, c, o.log);
      if 1 <= c.natural <= 99 {
        ReleasePaces(cfg, side, s, c);
      }
    }
  }

  // The locked price is the last race's: inside the best price by the jump, held back only by the distance
  // from theo at that race, to within rounding, or by the band. Nothing is promised about a theo that moved
  // since.
  lemma LockKeepsItsDistance(cfg: StickyConfig, side: Side, calls: seq<Call>)
    requires cfg.Valid() && calls != [] && After(cfg, side, calls).state.AGGRESSIVE?
    ensures var p := After(cfg, side, calls).price; var race := LastRace(cfg, side, calls);
            var jump, dist := cfg.desertJumpCents, cfg.minDistanceFromTheo as real;
            if side.Ask? then
              && (p == 99 || (p >= race.best - jump && p as real >= race.fair + dist - 0.5))
              && (p == 1 || p <= race.best - jump || p as real <= race.fair + dist + 0.5)
            else
              && (p == 1 || (p <= race.best + jump && p as real <= race.fair - dist + 0.5))
              && (p == 99 || p >= race.best + jump || p as real >= race.fair - dist - 0.5)
  {
    LockFieldsAreHistory(cfg, side, calls);
    var race := LastRace(cfg, side, calls);
    RoundIsNearestEven(race.fair + cfg.minDistanceFromTheo as real,
                       RoundHalfEven(race.fair + cfg.minDistanceFromTheo as real));
    RoundIsNearestEven(race.fair - cfg.minDistanceFromTheo as real,
                       RoundHalfEven(race.fair - cfg.minDistanceFromTheo as real));
  }

  // ---- The breaker -------------------------------------------------------------------------------

  // COOLDOWN answers 0 until cooldown_seconds after the call that tripped it, then NORMAL; nothing
  // else leaves it.
  lemma CooldownLastsExactly(cfg: StickyConfig, side: Side, calls: seq<Call>)
    requires cfg.Valid() && |calls| > 1 && After(cfg, side, Front(calls)).state.COOLDOWN?
    ensures var c := Last(calls); var o := Out(cfg, side, calls);
            if c.now < Trip(cfg, side, Front(calls)).now + cfg.cooldownSeconds
            then o.name.COOLDOWN? && o.price == 0 && o.log == []
            else o.name.NORMAL? && o.price == c.natural
  {
    LockFieldsAreHistory(cfg, side, Front(calls));
    RunKeepsInv(cfg, side, Front(calls));
  }

  lemma PenniedStaysAggressive(cfg: StickyConfig, side: Side, s: SideView, c: Call)
    requires cfg.Valid() && Inv(cfg, s) && s.state.AGGRESSIVE? && IsPennied(side, s.price, c.natural)
    ensures var p := AggressivePrice(cfg, side, c); Step(cfg, side, s, c) == Outcome(s.(price := p), p, AGGRESSIVE, [])
  {
  }

  // The breaker is not a bound on the time spent AGGRESSIVE: pennied on every call, the machine stays
  // there for as many calls, over as long a time, as one likes.
  lemma {:induction false} PenniedCallsNeverTrip(cfg: StickyConfig, side: Side, run: seq<Call>, more: seq<Call>)
    requires cfg.Valid() && run != [] && After(cfg, side, run).state.AGGRESSIVE?
    requires forall i :: 0 <= i < |more| ==>
               IsPennied(side, After(cfg, side, run + more[..i]).price, more[i].natural)
    ensures After(cfg, side, run + more).state.AGGRESSIVE?
    decreases |more|
  {
    hide Step, After, IsPennied, AggressivePrice;
    if more == [] {
      assert run + more == run;
    } else {
      var m := |more| - 1;
      forall i | 0 <= i < m
        ensures IsPennied(side, After(cfg, side, run + more[..m][..i]).price, more[..m][i].natural)
      {
        assert more[..m][..i] == more[..i];
      }
      PenniedCallsNeverTrip(cfg, side, run, more[..m]);
      PenniedOnce(cfg, side, run + more[..m], more[m]);
      assert run + more == run + more[..m] + [more[m]];
    }
  }

  lemma PenniedOnce(cfg: StickyConfig, side: Side, run: seq<Call>, c: Call)
    requires cfg.Valid() && After(cfg, side, run).state.AGGRESSIVE?
    requires IsPennied(side, After(cfg, side, run).price, c.natural)
    ensures After(cfg, side, run + [c]).state.AGGRESSIVE?
  {
    hide Step, AggressivePrice;
    assert Front(run + [c]) == run;
    RunKeepsInv(cfg, side, run);
    PenniedStaysAggressive(cfg, side, After(cfg, side, run), c);
  }

  // And it happens: with theo at 50 and a distance of 15 an ask races to 65 or more, so a natural target of 60
  // pennies it on every call, whatever the best price and however late.
  lemma {:induction false} OneTargetPenniesForever(cfg: StickyConfig, more: seq<Call>)
    requires cfg.Valid() && cfg.minDistanceFromTheo == 15 && more != []
    requires forall i :: 0 <= i < |more| ==> more[i].natural == 60 && more[i].fair == 50.0
    ensures var s := After(cfg, Ask, [Call(70, 72, 0, 50.0, 0.0)] + more);
            s.state.AGGRESSIVE? && IsPennied(Ask, s.price, 60)
  {
    hide Step, AggressivePrice;
    var first := [Call(70, 72, 0, 50.0, 0.0)];
    var run := first + Front(more);
    assert Front(first + more) == run && Last(first + more) == Last(more);
    RacesAbove60(cfg, Last(more));
    if |more| == 1 {
      assert run == first && Front(first) == [];
      assert After(cfg, Ask, first) == Step(cfg, Ask, FRESH, Last(first)).view;
      FirstRace(cfg, Last(first), Last(more));
    } else {
      OneTargetPenniesForever(cfg, Front(more));
      RunKeepsInv(cfg, Ask, run);
      PenniedStaysAggressive(cfg, Ask, After(cfg, Ask, run), Last(more));
    }
  }

  lemma FirstRace(cfg: StickyConfig, first: Call, c: Call)
    requires cfg.Valid() && first.natural == 70 && first.ours == 0 && c.natural == 60
    ensures var v := Step(cfg, Ask, Step(cfg, Ask, FRESH, first).view, c).view;
            v.state.AGGRESSIVE? && v.price == AggressivePrice(cfg, Ask, c)
  {
  }

  lemma RacesAbove60(cfg: StickyConfig, c: Call)
    requires cfg.minDistanceFromTheo == 15 && c.fair == 50.0
    ensures AggressivePrice(cfg, Ask, c) >= 65
  {
    RoundAtLeast(c.fair + 15.0, 65);
  }

  // ---- The transition log ------------------------------------------------------------------------

  predicate Legal(t: Transition) {
    match t.kind
    case Pennied => (t.from.NORMAL? || t.from.RELAXING?) && t.to.AGGRESSIVE?
    case MaxDurationExceeded => t.from.AGGRESSIVE? && t.to.COOLDOWN?
    case GapClosed => t.from.AGGRESSIVE? && t.to.NORMAL?
    case GatesMet => t.from.AGGRESSIVE? && t.to.RELAXING?
    case TargetMovedPast => t.from.RELAXING? && t.to.NORMAL?
    case Completed => t.from.RELAXING? && t.to.NORMAL?
    case CooldownExpired => t.from.COOLDOWN? && t.to.NORMAL?
  }

  predicate Path(from: StateName, log: seq<Transition>, to: StateName)
    decreases |log|
  {
    if log == [] then from == to
    else log[0].from == from && Legal(log[0]) && Path(log[0].to, log[1..], to)
  }

  lemma {:induction false} PathsJoin(a: StateName, x: seq<Transition>, b: StateName, y: seq<Transition>, c: StateName)
    requires Path(a, x, b) && Path(b, y, c)
    ensures Path(a, x + y, c)
    decreases |x|
  {
    if x == [] {
      assert x + y == y;
    } else {
      PathsJoin(x[0].to, x[1..], b, y, c);
      assert (x + y)[1..] == x[1..] + y;
    }
  }

  lemma StepLogsItsPath(cfg: StickyConfig, side: Side, s: SideView, c: Call)
    requires cfg.Valid() && Inv(cfg, s)
    ensures var o := Step(cfg, side, s, c);
            Path(s.state, o.log, o.view.state) && |o.log| <= 2 && (|o.log| == 2 ==> o.log[1].from.RELAXING?)
  {
    hide RelaxedPrice, Ratio, GatesPass, AggressivePrice, StepRelax;
    var t := Synced(s, c);
    if t.state.AGGRESSIVE? && !Unset(s, c) && !IsPennied(side, t.price, c.natural) {
      var o := StepLocked(cfg, side, t, c);
      if o.name.RELAXING? {
        RelaxLogs(cfg, side, o.view, c, o.log);
        var r := StepRelax(cfg, side, o.view, c, o.log);
        PathsJoin(AGGRESSIVE, o.log, RELAXING, r.log[|o.log|..], r.view.state);
        assert o.log + r.log[|o.log|..] == r.log;
      }
    } else if t.state.RELAXING? {
      RelaxLogs(cfg, side, t, c, []);
    }
  }

  lemma RelaxLogs(cfg: StickyConfig, side: Side, s: SideView, c: Call, log: seq<Transition>)
    requires cfg.Valid() && s.state.RELAXING?
    ensures var o := StepRelax(cfg, side, s, c, log);
            && |log| <= |o.log| <= |log| + 1 && o.log[..|log|] == log
            && Path(RELAXING, o.log[|log|..], o.view.state)
            && (|o.log| > |log| ==> o.log[|log|].from.RELAXING?)
  {
  }

  function Journal(cfg: StickyConfig, side: Side, calls: seq<Call>): seq<Transition>
    requires cfg.Valid()
  {
    if calls == [] then [] else Journal(cfg, side, Front(calls)) + Out(cfg, side, calls).log
  }

  // The transitions of a whole run, end to end, are a path of the machine from NORMAL to its state.
  lemma {:induction false} JournalIsAPath(cfg: StickyConfig, side: Side, calls: seq<Call>)
    requires cfg.Valid()
    ensures Path(NORMAL, Journal(cfg, side, calls), After(cfg, side, calls).state)
  {
    hide Step;
    if calls != [] {
      var s := After(cfg, side, Front(calls));
      JournalIsAPath(cfg, side, Front(calls));
      RunKeepsInv(cfg, side, Front(calls));
      StepLogsItsPath(cfg, side, s, Last(calls));
      PathsJoin(NORMAL, Journal(cfg, side, Front(calls)), s.state, Out(cfg, side, calls).log,
                After(cfg, side, calls).state);
    }
  }

  // ---- Interleaved keys --------------------------------------------------------------------------

  function Play(cfg: StickyConfig, events: seq<Event>): map<Key, SideView>
    requires cfg.Valid()
  {
    if events == [] then map[] else Apply(cfg, Play(cfg, Front(events)), Last(events))
  }

  // The calls one key has seen since it was last reset.
  function CallsFor(events: seq<Event>, k: Key): seq<Call> {
    if events == [] then []
    else
      var before := CallsFor(Front(events), k);
      match Last(events)
      case Compute(j, c) => if j == k then before + [c] else before
      case Look(_) => before
      case ResetTicker(t) => if t == k.0 then [] else before
      case ResetAll => []
  }

  // However calls on different tickers and sides, looks and resets interleave, each key's state is the
  // state of a machine of its own that saw only that key's calls.
  lemma {:induction false} KeysAreIndependent(cfg: StickyConfig, events: seq<Event>, k: Key)
    requires cfg.Valid() && SideOf(k.1).Some?
    ensures Entry(Play(cfg, events), k) == After(cfg, SideOf(k.1).value, CallsFor(events, k))
  {
    if events != [] {
      KeysAreIndependent(cfg, Front(events), k);
      match Last(events)
      case Compute(j, c) =>
        var before := CallsFor(Front(events), k);
        assert Front(before + [c]) == before;
      case Look(_) =>
      case ResetTicker(_) =>
      case ResetAll =>
    }
  }
}
