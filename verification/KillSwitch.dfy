// engine/kill.py: cancel a list of orders through an exchange that may answer anything, in chunks, with
// a fallback from batch to single cancels and a bounded number of retry rounds.
module KillSwitch {
  import opened Numeric

  const CHUNK := 100

  // A batch fails with the client's own error, which is caught, or with anything else, which is not.
  datatype BatchAnswer = BatchOk | BatchApiError | BatchCrash

  datatype Message =
    | Single(id: string, ok: bool)
    | Batch(ids: seq<string>, answer: BatchAnswer)

  // The ids a conversation covers by success responses, in order.
  function Confirmed(log: seq<Message>): seq<string> {
    if log == [] then []
    else
      Confirmed(log[..|log| - 1]) + Covered(log[|log| - 1])
  }

  function Covered(m: Message): seq<string> {
    match m
    case Single(id, ok) => if ok then [id] else []
    case Batch(ids, answer) => if answer.BatchOk? then ids else []
  }

  lemma ConfirmedSnoc(log: seq<Message>, m: Message)
    ensures Confirmed(log + [m]) == Confirmed(log) + Covered(m)
  {
    assert (log + [m])[..|log|] == log;
  }

  lemma {:induction false} ConfirmedJoins(a: seq<Message>, b: seq<Message>)
    ensures Confirmed(a + b) == Confirmed(a) + Confirmed(b)
  {
    hide Covered;
    if b == [] {
      assert a + b == a;
    } else {
      var front, m := b[..|b| - 1], b[|b| - 1];
      ConfirmedJoins(a, front);
      ConfirmedOfJoin(a, b, front);
      Regroup(Confirmed(a), Confirmed(front), Covered(m));
    }
  }

  lemma ConfirmedOfJoin(a: seq<Message>, b: seq<Message>, front: seq<Message>)
    requires b != [] && front == b[..|b| - 1]
    ensures Confirmed(a + b) == Confirmed(a + front) + Covered(b[|b| - 1])
  {
    hide Covered;
    assert (a + b)[..|a + b| - 1] == a + front;
  }

  lemma Regroup(x: seq<string>, y: seq<string>, z: seq<string>)
    ensures x + y + z == x + (y + z)
  {
  }

  // The ids whose single cancels were refused, in order.
  function Refused(log: seq<Message>): seq<string> {
    if log == [] then []
    else
      var m := log[|log| - 1];
      Refused(log[..|log| - 1]) + if m.Single? && !m.ok then [m.id] else []
  }

  lemma RefusedSnoc(log: seq<Message>, m: Message)
    ensures Refused(log + [m]) == Refused(log) + if m.Single? && !m.ok then [m.id] else []
  {
    assert (log + [m])[..|log|] == log;
  }

  lemma {:induction false} RefusedJoins(a: seq<Message>, b: seq<Message>)
    ensures Refused(a + b) == Refused(a) + Refused(b)
  {
    if b == [] {
      assert a + b == a;
    } else {
      var front, m := b[..|b| - 1], b[|b| - 1];
      RefusedJoins(a, front);
      hide Refused;
      assert a + b == a + front + [m] && b == front + [m];
      RefusedSnoc(a + front, m);
      RefusedSnoc(front, m);
      Regroup(Refused(a), Refused(front), if m.Single? && !m.ok then [m.id] else []);
    }
  }

  // The exchange, with its answers as an arbitrary script and every exchange of messages on record.
  class CancelClient {
    const singles: nat -> bool
    const batches: nat -> BatchAnswer
    var log: seq<Message>

    constructor (singles: nat -> bool, batches: nat -> BatchAnswer)
      ensures log == [] && this.singles == singles && this.batches == batches
    {
      this.singles, this.batches, log := singles, batches, [];
    }

    method CancelOrder(id: string) returns (ok: bool)
      modifies this
      ensures log == old(log) + [Single(id, ok)]
    {
      ok := singles(|log|);
      log := log + [Single(id, ok)];
    }

    method BatchCancelOrders(ids: seq<string>) returns (answer: BatchAnswer)
      modifies this
      ensures log == old(log) + [Batch(ids, answer)]
    {
      answer := batches(|log|);
      log := log + [Batch(ids, answer)];
    }
  }

  // What a conversation made of the orders it was about: what is reported cancelled is, in order, what the
  // exchange confirmed, and with what is reported failed it accounts for every order exactly once.
  ghost predicate Accounts(said: seq<Message>, ids: seq<string>, cancelled: seq<string>, failed: seq<string>) {
    && cancelled == Confirmed(said)
    && multiset(cancelled) + multiset(failed) == multiset(ids)
  }

  // One pass over the orders: besides, what failed is what a single cancel was refused for, in order, and
  // every batch is a proper one.
  ghost predicate Settles(said: seq<Message>, ids: seq<string>, cancelled: seq<string>, failed: seq<string>) {
    && Accounts(said, ids, cancelled, failed) && failed == Refused(said)
    && forall m :: m in said && m.Batch? ==> 2 <= |m.ids| <= 100
  }

  lemma SettlesJoin(s: seq<Message>, a: seq<string>, c: seq<string>, f: seq<string>,
                    t: seq<Message>, b: seq<string>, d: seq<string>, g: seq<string>)
    requires Settles(s, a, c, f) && Settles(t, b, d, g)
    ensures Settles(s + t, a + b, c + d, f + g)
  {
    ConfirmedJoins(s, t);
    RefusedJoins(s, t);
  }

  lemma NothingSaid()
    ensures Settles([], [], [], [])
  {
  }

  predicate EndsInCrash(said: seq<Message>) {
    said != [] && said[|said| - 1].Batch? && said[|said| - 1].answer.BatchCrash?
  }

  lemma OneMore(said: seq<Message>, chunk: seq<string>, i: nat, cancelled: seq<string>, failed: seq<string>, ok: bool)
    requires i < |chunk| && Settles(said, chunk[..i], cancelled, failed)
    ensures var more := said + [Single(chunk[i], ok)];
            if ok then Settles(more, chunk[..i + 1], cancelled + [chunk[i]], failed)
            else Settles(more, chunk[..i + 1], cancelled, failed + [chunk[i]])
  {
    hide Confirmed, Refused;
    ConfirmedSnoc(said, Single(chunk[i], ok));
    RefusedSnoc(said, Single(chunk[i], ok));
    assert chunk[..i + 1] == chunk[..i] + [chunk[i]];
  }

  // Each method below says, as `said`, the conversation it had.
  method CancelEach(client: CancelClient, chunk: seq<string>)
    returns (cancelled: seq<string>, failed: seq<string>, ghost said: seq<Message>)
    modifies client
    ensures client.log == old(client.log) + said && |said| == |chunk|
    ensures Settles(said, chunk, cancelled, failed)
  {
    hide Settles;
    NothingSaid();
    cancelled, failed, said := [], [], [];
    assert chunk[..0] == [];
    for i := 0 to |chunk|
      invariant client.log == old(client.log) + said && |said| == i
      invariant Settles(said, chunk[..i], cancelled, failed)
    {
      var ok := client.CancelOrder(chunk[i]);
      OneMore(said, chunk, i, cancelled, failed, ok);
      said := said + [Single(chunk[i], ok)];
      if ok {
        cancelled := cancelled + [chunk[i]];
      } else {
        failed := failed + [chunk[i]];
      }
    }
    assert chunk[..|chunk|] == chunk;
  }

  // One chunk: a single cancel for one order, else a batch with single cancels behind it.
  method CancelChunk(client: CancelClient, chunk: seq<string>)
    returns (crashed: bool, cancelled: seq<string>, failed: seq<string>, ghost said: seq<Message>)
    requires 1 <= |chunk| <= CHUNK
    modifies client
    ensures client.log == old(client.log) + said && |said| <= |chunk| + 1
    ensures if crashed then EndsInCrash(said) else Settles(said, chunk, cancelled, failed)
  {
    hide Settles;
    crashed, cancelled, failed := false, [], [];
    if |chunk| == 1 {
      cancelled, failed, said := CancelEach(client, chunk);
    } else {
      var answer := client.BatchCancelOrders(chunk);
      said := [Batch(chunk, answer)];
      match answer
      case BatchOk =>
        cancelled := chunk;
        BatchSettles(chunk);
      case BatchCrash =>
        crashed := true;
      case BatchApiError =>
        ghost var singles;
        cancelled, failed, singles := CancelEach(client, chunk);
        AfterRefusal(singles, chunk, cancelled, failed);
        said := said + singles;
    }
  }

  lemma BatchSettles(chunk: seq<string>)
    requires 2 <= |chunk| <= CHUNK
    ensures Settles([Batch(chunk, BatchOk)], chunk, chunk, [])
  {
    var said := [Batch(chunk, BatchOk)];
    assert said[..0] == [];
  }

  lemma AfterRefusal(singles: seq<Message>, chunk: seq<string>, cancelled: seq<string>, failed: seq<string>)
    requires Settles(singles, chunk, cancelled, failed) && 2 <= |chunk| <= CHUNK
    ensures Settles([Batch(chunk, BatchApiError)] + singles, chunk, cancelled, failed)
  {
    var batch := [Batch(chunk, BatchApiError)];
    assert batch[..0] == [] && Confirmed(batch) == [] && Refused(batch) == [];
    hide Confirmed, Refused;
    ConfirmedJoins(batch, singles);
    RefusedJoins(batch, singles);
  }

  // _execute_batch_cancel
  method ExecuteBatchCancel(client: CancelClient, ids: seq<string>)
    returns (crashed: bool, cancelled: seq<string>, failed: seq<string>, ghost said: seq<Message>)
    modifies client
    ensures client.log == old(client.log) + said && |said| <= 2 * |ids|
    ensures if crashed then EndsInCrash(said) else Settles(said, ids, cancelled, failed)
  {
    hide Settles;
    crashed, cancelled, failed, said := false, [], [], [];
    NothingSaid();
    assert ids[..0] == [];
    var i := 0;
    while i < |ids|
      invariant 0 <= i && client.log == old(client.log) + said && |said| <= 2 * Min(i, |ids|)
      invariant Settles(said, ids[..Min(i, |ids|)], cancelled, failed)
    {
      var end := Min(i + CHUNK, |ids|);
      var chunk := ids[i..end];
      var c, f;
      ghost var more;
      crashed, c, f, more := CancelChunk(client, chunk);
      if crashed {
        said := said + more;
        return;
      }
      SettlesJoin(said, ids[..i], cancelled, failed, more, chunk, c, f);
      assert ids[..i] + chunk == ids[..end];
      cancelled, failed, said := cancelled + c, failed + f, said + more;
      i := i + CHUNK;
    }
    assert ids[..|ids|] == ids;
  }

  // What batch_cancel_all does: return the cancelled ids, raise KillSwitchError with the ids that remain,
  // or let a batch call's other exceptions through.
  datatype Outcome = Returned(cancelled: seq<string>) | KillSwitchError(failed: seq<string>) | OtherException

  // What a raised KillSwitchError says of an order it lists n times: it was refused n times in every round.
  predicate RefusedThroughout(said: seq<Message>, failed: seq<string>, rounds: nat) {
    forall id :: id in failed ==> multiset(Refused(said))[id] >= Times(multiset(failed)[id], rounds)
  }

  // The outcome r of a conversation about these orders.
  ghost predicate Reports(said: seq<Message>, ids: seq<string>, maxRetries: int, r: Outcome) {
    && (match r
        case Returned(cancelled) => cancelled == Confirmed(said) && multiset(cancelled) == multiset(ids)
        case KillSwitchError(failed) =>
          && failed != [] && multiset(Confirmed(said)) + multiset(failed) == multiset(ids)
          && RefusedThroughout(said, failed, Max(0, maxRetries + 1))
        case OtherException => EndsInCrash(said))
    && |said| <= 2 * |ids| * Max(0, maxRetries + 1)
  }

  method BatchCancelAll(client: CancelClient, ids: seq<string>, maxRetries: int)
    returns (r: Outcome, ghost said: seq<Message>)
    modifies client
    ensures client.log == old(client.log) + said && Reports(said, ids, maxRetries, r)
  {
    hide After, Reports, Settles;
    if ids == [] {
      NothingToDo(maxRetries);
      return Returned([]), [];
    }
    var cancelled: seq<string>, remaining, attempt := [], ids, 0;
    said := [];
    BeforeAnyRound(ids);
    while attempt < maxRetries + 1 && remaining != []
      invariant 0 <= attempt <= Max(0, maxRetries + 1)
      invariant client.log == old(client.log) + said && After(said, ids, cancelled, remaining, attempt)
    {
      var crashed, c, f;
      ghost var more;
      crashed, c, f, more := ExecuteBatchCancel(client, remaining);
      if crashed {
        CrashedRound(said, more, ids, cancelled, remaining, attempt, maxRetries);
        return OtherException, said + more;
      }
      NextRound(said, more, ids, cancelled, remaining, c, f, attempt);
      cancelled, remaining, said := cancelled + c, f, said + more;
      attempt := attempt + 1;
    }
    RoundsDone(said, ids, cancelled, remaining, attempt, maxRetries);
    if remaining != [] {
      return KillSwitchError(remaining), said;
    }
    return Returned(cancelled), said;
  }

  // After k rounds.
  ghost predicate After(said: seq<Message>, ids: seq<string>, cancelled: seq<string>, remaining: seq<string>, k: nat) {
    && Accounts(said, ids, cancelled, remaining) && RefusedThroughout(said, remaining, k)
    && |said| <= Budget(|ids|, k)
  }

  lemma NothingToDo(maxRetries: int)
    ensures Reports([], [], maxRetries, Returned([]))
  {
  }

  lemma BeforeAnyRound(ids: seq<string>)
    ensures After([], ids, [], ids, 0)
  {
  }

  lemma RoundsDone(said: seq<Message>, ids: seq<string>, cancelled: seq<string>, remaining: seq<string>, k: nat,
                   maxRetries: int)
    requires After(said, ids, cancelled, remaining, k) && k <= Max(0, maxRetries + 1)
    requires remaining == [] || k == Max(0, maxRetries + 1)
    ensures Reports(said, ids, maxRetries, if remaining == [] then Returned(cancelled) else KillSwitchError(remaining))
  {
    BudgetGrows(|ids|, k, Max(0, maxRetries + 1));
    BudgetIsProduct(|ids|, Max(0, maxRetries + 1));
  }

  lemma CrashedRound(said: seq<Message>, more: seq<Message>, ids: seq<string>, c: seq<string>, f: seq<string>, k: nat,
                     maxRetries: int)
    requires After(said, ids, c, f, k) && k < maxRetries + 1 && EndsInCrash(more) && |more| <= 2 * |f|
    ensures Reports(said + more, ids, maxRetries, OtherException)
  {
    FailedAreFewer(said, ids, c, f);
    OneMoreRound(|ids|, |f|, k);
    BudgetGrows(|ids|, k + 1, maxRetries + 1);
    BudgetIsProduct(|ids|, maxRetries + 1);
  }

  // A retry round over what remained still accounts for everything.
  lemma NextRound(said: seq<Message>, more: seq<Message>, ids: seq<string>, c: seq<string>, f: seq<string>,
                  d: seq<string>, g: seq<string>, k: nat)
    requires After(said, ids, c, f, k) && Settles(more, f, d, g) && |more| <= 2 * |f|
    ensures After(said + more, ids, c + d, g, k + 1)
  {
    hide Confirmed, Refused, RefusedThroughout;
    ConfirmedJoins(said, more);
    RefusedAgain(said, more, f, d, g, k);
    FailedAreFewer(said, ids, c, f);
    OneMoreRound(|ids|, |f|, k);
  }

  // What fails again has been refused once more, for each time it is listed.
  lemma RefusedAgain(said: seq<Message>, more: seq<Message>, before: seq<string>, c: seq<string>, f: seq<string>,
                     rounds: nat)
    requires RefusedThroughout(said, before, rounds) && Settles(more, before, c, f)
    ensures RefusedThroughout(said + more, f, rounds + 1)
  {
    hide Confirmed, Refused, Times;
    RefusedJoins(said, more);
    assert multiset(Refused(said + more)) == multiset(Refused(said)) + multiset(f);
    forall id | id in f ensures multiset(Refused(said + more))[id] >= Times(multiset(f)[id], rounds + 1) {
      assert multiset(before)[id] == multiset(c)[id] + multiset(f)[id];
      assert id in multiset(before);
      OneTimeMore(multiset(before)[id], multiset(f)[id], rounds);
    }
  }

  // With at least one round, orders of which nothing is refused and nothing crashes are all cancelled.
  lemma WillingExchangeCancelsAll(said: seq<Message>, ids: seq<string>, maxRetries: int, r: Outcome)
    requires Reports(said, ids, maxRetries, r) && maxRetries >= 0
    requires forall m :: m in said ==> if m.Single? then m.ok else !m.answer.BatchCrash?
    ensures r.Returned? && multiset(r.cancelled) == multiset(ids)
  {
    NoneRefused(said);
    match r
    case Returned(_) =>
    case KillSwitchError(failed) =>
      assert failed[0] in failed && multiset(failed)[failed[0]] >= 1;
      AtLeastOne(multiset(failed)[failed[0]], maxRetries + 1);
    case OtherException =>
  }

  lemma {:induction false} NoneRefused(said: seq<Message>)
    requires forall m :: m in said ==> if m.Single? then m.ok else !m.answer.BatchCrash?
    ensures Refused(said) == [] && !EndsInCrash(said)
  {
    if said != [] {
      NoneRefused(said[..|said| - 1]);
      assert said[|said| - 1] in said;
    }
  }

  function Times(n: nat, k: nat): nat { n * k }

  lemma AtLeastOne(n: nat, k: nat)
    requires n >= 1 && k >= 1
    ensures Times(n, k) >= 1
  {
  }

  lemma OneTimeMore(n: nat, m: nat, k: nat)
    requires m <= n
    ensures Times(n, k) + m >= Times(m, k + 1)
  {
    assert (n - m) * k >= 0;
    assert Times(m, k + 1) == m * k + m;
  }

  // At most two messages an order in each round.
  function Budget(n: nat, rounds: nat): nat { if rounds == 0 then 0 else Budget(n, rounds - 1) + 2 * n }

  lemma OneMoreRound(n: nat, m: nat, rounds: nat)
    requires m <= n
    ensures Budget(n, rounds) + 2 * m <= Budget(n, rounds + 1)
  {
  }

  lemma {:induction false} BudgetGrows(n: nat, a: nat, b: nat)
    requires a <= b
    ensures Budget(n, a) <= Budget(n, b)
  {
    if a < b {
      BudgetGrows(n, a, b - 1);
    }
  }

  lemma {:induction false} BudgetIsProduct(n: nat, rounds: nat)
    ensures Budget(n, rounds) == 2 * n * rounds
  {
    if rounds > 0 {
      BudgetIsProduct(n, rounds - 1);
    }
  }

  lemma FailedAreFewer(said: seq<Message>, ids: seq<string>, cancelled: seq<string>, failed: seq<string>)
    requires Accounts(said, ids, cancelled, failed)
    ensures |failed| <= |ids|
  {
    assert |multiset(ids)| == |multiset(cancelled)| + |multiset(failed)|;
    assert |multiset(failed)| == |failed| && |multiset(ids)| == |ids|;
  }

  // ---- The trigger ---------------------------------------------------------------------------------------

  datatype TriggerResult = TriggerResult(fired: bool, name: string)

  class Switch {
    const client: CancelClient
    const maxRetries: int
    var armed: bool
    var triggers: seq<TriggerResult>  // what each registered condition says when evaluated

    constructor (client: CancelClient, maxRetries: int)
      ensures armed && triggers == [] && this.client == client && this.maxRetries == maxRetries
    {
      this.client, this.maxRetries, armed, triggers := client, maxRetries, true, [];
    }

    method SetArmed(on: bool)
      modifies this`armed
      ensures armed == on
    {
      armed := on;
    }

    method AddTrigger(t: TriggerResult)
      modifies this`triggers
      ensures triggers == old(triggers) + [t]
    {
      triggers := triggers + [t];
    }

    method CheckTriggers() returns (r: Option<TriggerResult>)
      ensures r.None? <==> !armed || forall i :: 0 <= i < |triggers| ==> !triggers[i].fired
      ensures r.Some? ==> exists i :: 0 <= i < |triggers| && r.value == triggers[i] && triggers[i].fired
                                      && forall j :: 0 <= j < i ==> !triggers[j].fired
    {
      if !armed {
        return None;
      }
      for i := 0 to |triggers|
        invariant forall j :: 0 <= j < i ==> !triggers[j].fired
      {
        if triggers[i].fired {
          return Some(triggers[i]);
        }
      }
      return None;
    }

    // Nothing is sent unless the switch is armed and a trigger fires; then every order is accounted for.
    method CheckAndFire(ids: seq<string>) returns (fired: Option<TriggerResult>, r: Outcome, ghost said: seq<Message>)
      modifies client
      ensures fired.None? <==> !armed || forall i :: 0 <= i < |triggers| ==> !triggers[i].fired
      ensures client.log == old(client.log) + said
      ensures if fired.None? then said == [] && r == Returned([]) else Reports(said, ids, maxRetries, r)
    {
      fired := CheckTriggers();
      if fired == None {
        return fired, Returned([]), [];
      }
      r, said := BatchCancelAll(client, ids, maxRetries);
    }
  }
}
