/**
 The hold a test puts on simulated turns: a stage of a turn runs at once, or waits until the hold
 lets it through. A hold and a stage each have a reach, and a hold stops the stages whose reach is
 not beyond its own.

 A stage's action is what running it does to the gate: the further stages it comes to, which run in
 its place when the hold lets them through, and the waiting ones it cancels. A waiting stage is
 named by the order it was made to wait in, which its cancel is for.

 Setting the hold goes through the stages that waited when it began. `ReleasesInOrder` says which of
 them run, `CancelledNeverRunsIff` when none of those had been cancelled meanwhile, and the lemmas on
 every run that nothing waits without need and nothing runs too soon or twice.
 */
module TurnGate {
  import opened Util

  datatype Hold = NoHold | Reply | End | Steps

  datatype Stage = Results | Ending | Finish

  datatype Action =
    | Done
    | Come(stage: Stage, action: Action, next: Action)
    | Cancel(order: nat, next: Action)

  datatype Held = Held(order: nat, stage: Stage, action: Action)

  /** A stage that ran: whether the hold then held it, and its order if it had waited. */
  datatype Ran = Ran(wasHeld: bool, waited: Option<nat>)

  /** `held` lists the waiting stages as they came, and `ran` every stage that ran. */
  datatype Gate = Gate(hold: Hold, held: seq<Held>, nextOrder: nat, ran: seq<Ran>)

  datatype Event = SetHold(hold: Hold) | Perform(action: Action)

  const OPEN: Gate := Gate(NoHold, [], 0, [])

  function HoldReach(hold: Hold): nat
  {
    match hold
    case NoHold => 0
    case Reply => 1
    case End => 2
    case Steps => 3
  }

  function StageReach(stage: Stage): nat
  {
    match stage
    case Finish => 1
    case Ending => 2
    case Results => 3
  }

  predicate Holds(hold: Hold, stage: Stage)
  {
    HoldReach(hold) >= StageReach(stage)
  }

  /** What each hold stops: nothing, a turn's finish, its end as well, or everything. */
  lemma HoldsIff(hold: Hold, stage: Stage)
    ensures Holds(hold, stage) <==>
      (hold == Reply && stage == Finish) || (hold == End && (stage == Finish || stage == Ending)) || hold == Steps
  {
  }

  function Without(held: seq<Held>, order: nat): seq<Held>
  {
    if held == [] then []
    else (if held[0].order == order then [] else [held[0]]) + Without(held[1..], order)
  }

  function Drop(g: Gate, order: nat): Gate
  {
    Gate(g.hold, Without(g.held, order), g.nextOrder, g.ran)
  }

  function Queue(g: Gate, stage: Stage, action: Action): Gate
  {
    Gate(g.hold, g.held + [Held(g.nextOrder, stage, action)], g.nextOrder + 1, g.ran)
  }

  /** Notes that the stage runs, before its action is carried out. */
  function Start(g: Gate, stage: Stage, waited: Option<nat>): Gate
  {
    Gate(g.hold, g.held, g.nextOrder, g.ran + [Ran(Holds(g.hold, stage), waited)])
  }

  /** An action is carried out: a stage it comes to runs in its place, or waits. */
  function Do(g: Gate, action: Action): Gate
    decreases action
  {
    match action
    case Done => g
    case Cancel(order, next) => Do(Drop(g, order), next)
    case Come(stage, inner, next) =>
      Do(if Holds(g.hold, stage) then Queue(g, stage, inner) else Do(Start(g, stage, None), inner), next)
  }

  /** The stages of `waiting` that the hold lets through run, one after the other. */
  function Release(g: Gate, waiting: seq<Held>): Gate
    decreases |waiting|
  {
    if waiting == [] then g
    else Release(if Holds(g.hold, waiting[0].stage) then g else ReleaseOne(g, waiting[0]), waiting[1..])
  }

  function ReleaseOne(g: Gate, e: Held): Gate
  {
    Do(Start(Drop(g, e.order), e.stage, Some(e.order)), e.action)
  }

  function Under(g: Gate, hold: Hold): Gate
  {
    Gate(hold, g.held, g.nextOrder, g.ran)
  }

  function Step(g: Gate, e: Event): Gate
  {
    match e
    case SetHold(hold) => Release(Under(g, hold), g.held)
    case Perform(action) => Do(g, action)
  }

  function Run(events: seq<Event>): Gate
  {
    if events == [] then OPEN else Step(Run(events[..|events| - 1]), events[|events| - 1])
  }

  // ---- Each waiting stage runs in its order ------------------------------------------------

  /** The orders of the stages that waited and ran, as they ran. */
  function WaitedOf(ran: seq<Ran>): seq<nat>
  {
    if ran == [] then []
    else
      var last := ran[|ran| - 1].waited;
      WaitedOf(ran[..|ran| - 1]) + if last.None? then [] else [last.value]
  }

  /** The orders of the stages a hold lets through. */
  function LetThrough(hold: Hold, waiting: seq<Held>): seq<nat>
  {
    if waiting == [] then []
    else (if Holds(hold, waiting[0].stage) then [] else [waiting[0].order]) + LetThrough(hold, waiting[1..])
  }

  lemma StartWaited(g: Gate, stage: Stage, waited: Option<nat>)
    ensures WaitedOf(Start(g, stage, waited).ran) == WaitedOf(g.ran) + if waited.None? then [] else [waited.value]
  {
    var r := Start(g, stage, waited).ran;
    assert r[..|g.ran|] == g.ran;
  }

  /** An action runs only stages that did not wait, and never moves the hold. */
  lemma {:induction false} DoWaited(g: Gate, action: Action)
    ensures WaitedOf(Do(g, action).ran) == WaitedOf(g.ran)
    ensures Do(g, action).hold == g.hold
    decreases action
  {
    match action
    case Done =>
    case Cancel(order, next) => DoWaited(Drop(g, order), next);
    case Come(stage, inner, next) =>
      if Holds(g.hold, stage) {
        DoWaited(Queue(g, stage, inner), next);
      } else {
        StartWaited(g, stage, None);
        DoWaited(Start(g, stage, None), inner);
        DoWaited(Do(Start(g, stage, None), inner), next);
      }
  }

  lemma ReleaseOneWaited(g: Gate, e: Held)
    ensures WaitedOf(ReleaseOne(g, e).ran) == WaitedOf(g.ran) + [e.order]
    ensures ReleaseOne(g, e).hold == g.hold
  {
    StartWaited(Drop(g, e.order), e.stage, Some(e.order));
    DoWaited(Start(Drop(g, e.order), e.stage, Some(e.order)), e.action);
  }

  /** Of the stages that wait, a release runs those the hold lets through, none twice and none out of turn. */
  lemma {:induction false} ReleasesInOrder(g: Gate, waiting: seq<Held>)
    ensures WaitedOf(Release(g, waiting).ran) == WaitedOf(g.ran) + LetThrough(g.hold, waiting)
    ensures Release(g, waiting).hold == g.hold
    decreases |waiting|
  {
    if waiting != [] {
      var e, rest := waiting[0], waiting[1..];
      if Holds(g.hold, e.stage) {
        ReleasesInOrder(g, rest);
        assert [] + LetThrough(g.hold, rest) == LetThrough(g.hold, rest);
      } else {
        ReleaseOneWaited(g, e);
        ReleasesInOrder(ReleaseOne(g, e), rest);
        Associative(WaitedOf(g.ran), [e.order], LetThrough(g.hold, rest));
      }
    }
  }

  // ---- Which stages wait -------------------------------------------------------------------

  ghost predicate HasOrder(held: seq<Held>, order: nat)
  {
    exists i :: 0 <= i < |held| && held[i].order == order
  }

  /** Whether an action carried out under a hold cancels the waiting stage `order`. */
  predicate Cancels(hold: Hold, action: Action, order: nat)
  {
    match action
    case Done => false
    case Cancel(o, next) => o == order || Cancels(hold, next, order)
    case Come(stage, inner, next) => (!Holds(hold, stage) && Cancels(hold, inner, order)) || Cancels(hold, next, order)
  }

  lemma {:induction false} WithoutIs(held: seq<Held>, order: nat)
    ensures forall e :: e in Without(held, order) <==> e in held && e.order != order
  {
    if held != [] {
      WithoutIs(held[1..], order);
      assert held == [held[0]] + held[1..];
    }
  }

  lemma WithoutOrder(held: seq<Held>, order: nat, o: nat)
    ensures HasOrder(Without(held, order), o) <==> HasOrder(held, o) && o != order
  {
    WithoutIs(held, order);
    if HasOrder(held, o) && o != order {
      var i :| 0 <= i < |held| && held[i].order == o;
      assert held[i] in Without(held, order);
    }
    if HasOrder(Without(held, order), o) {
      var i :| 0 <= i < |Without(held, order)| && Without(held, order)[i].order == o;
      assert Without(held, order)[i] in held;
    }
  }

  lemma QueueOrder(g: Gate, stage: Stage, action: Action, o: nat)
    requires o < g.nextOrder
    ensures HasOrder(Queue(g, stage, action).held, o) <==> HasOrder(g.held, o)
  {
    if HasOrder(g.held, o) {
      var i :| 0 <= i < |g.held| && g.held[i].order == o;
      assert Queue(g, stage, action).held[i].order == o;
    }
  }

  lemma {:induction false} OrdersGrow(g: Gate, action: Action)
    ensures Do(g, action).nextOrder >= g.nextOrder
    decreases action
  {
    match action
    case Done =>
    case Cancel(order, next) => OrdersGrow(Drop(g, order), next);
    case Come(stage, inner, next) =>
      if Holds(g.hold, stage) {
        OrdersGrow(Queue(g, stage, inner), next);
      } else {
        OrdersGrow(Start(g, stage, None), inner);
        OrdersGrow(Do(Start(g, stage, None), inner), next);
      }
  }

  /** An action takes away the waiting stages it cancels and no other. */
  lemma {:induction false} DoHeld(g: Gate, action: Action, o: nat)
    requires o < g.nextOrder
    ensures HasOrder(Do(g, action).held, o) <==> HasOrder(g.held, o) && !Cancels(g.hold, action, o)
    decreases action
  {
    match action
    case Done =>
    case Cancel(order, next) =>
      WithoutOrder(g.held, order, o);
      DoHeld(Drop(g, order), next, o);
    case Come(stage, inner, next) =>
      if Holds(g.hold, stage) {
        QueueOrder(g, stage, inner, o);
        DoHeld(Queue(g, stage, inner), next, o);
      } else {
        var r := Do(Start(g, stage, None), inner);
        DoHeld(Start(g, stage, None), inner, o);
        OrdersGrow(Start(g, stage, None), inner);
        DoWaited(Start(g, stage, None), inner);
        DoHeld(r, next, o);
      }
  }

  lemma ReleaseOneHeld(g: Gate, e: Held, o: nat)
    requires o < g.nextOrder
    ensures HasOrder(ReleaseOne(g, e).held, o) <==> HasOrder(g.held, o) && o != e.order && !Cancels(g.hold, e.action, o)
    ensures o < ReleaseOne(g, e).nextOrder
  {
    WithoutOrder(g.held, e.order, o);
    DoHeld(Start(Drop(g, e.order), e.stage, Some(e.order)), e.action, o);
    OrdersGrow(Start(Drop(g, e.order), e.stage, Some(e.order)), e.action);
  }

  // ---- Cancelling ---------------------------------------------------------------------------

  /** Each stage released is still held when its turn comes. */
  ghost predicate ReleasesOnlyHeld(g: Gate, waiting: seq<Held>)
    decreases |waiting|
  {
    waiting != [] ==>
      if Holds(g.hold, waiting[0].stage) then ReleasesOnlyHeld(g, waiting[1..])
      else HasOrder(g.held, waiting[0].order) && ReleasesOnlyHeld(ReleaseOne(g, waiting[0]), waiting[1..])
  }

  /** A stage that runs cancels none of the stages let through in `rest`. */
  ghost predicate Spares(hold: Hold, first: Held, rest: seq<Held>)
  {
    forall j :: 0 <= j < |rest| && !Holds(hold, rest[j].stage) ==> !Cancels(hold, first.action, rest[j].order)
  }

  /** No stage let through cancels one let through after it. */
  ghost predicate NoneCancelled(hold: Hold, waiting: seq<Held>)
  {
    waiting != [] ==>
      (Holds(hold, waiting[0].stage) || Spares(hold, waiting[0], waiting[1..])) && NoneCancelled(hold, waiting[1..])
  }

  /** Every stage let through is held. */
  ghost predicate AllHeld(g: Gate, waiting: seq<Held>)
  {
    forall i :: 0 <= i < |waiting| && !Holds(g.hold, waiting[i].stage) ==> HasOrder(g.held, waiting[i].order)
  }

  /** Orders that grow, up to a bound. */
  ghost predicate InOrder(held: seq<Held>, bound: nat)
  {
    && (forall i, j :: 0 <= i < j < |held| ==> held[i].order < held[j].order)
    && (forall i :: 0 <= i < |held| ==> held[i].order < bound)
  }

  lemma AllHeldAfter(g: Gate, e: Held, rest: seq<Held>)
    requires InOrder([e] + rest, g.nextOrder)
    ensures AllHeld(ReleaseOne(g, e), rest) <==> AllHeld(g, rest) && Spares(g.hold, e, rest)
  {
    ReleaseOneWaited(g, e);
    forall j | 0 <= j < |rest|
      ensures HasOrder(ReleaseOne(g, e).held, rest[j].order)
         <==> HasOrder(g.held, rest[j].order) && !Cancels(g.hold, e.action, rest[j].order)
    {
      assert ([e] + rest)[0].order < ([e] + rest)[j + 1].order;
      ReleaseOneHeld(g, e, rest[j].order);
    }
  }

  lemma AllHeldParts(g: Gate, waiting: seq<Held>)
    requires waiting != []
    ensures AllHeld(g, waiting)
       <==> AllHeld(g, waiting[1..]) && (Holds(g.hold, waiting[0].stage) || HasOrder(g.held, waiting[0].order))
  {
    assert forall i :: 0 <= i < |waiting| - 1 ==> waiting[1..][i] == waiting[i + 1];
    assert forall i :: 1 <= i < |waiting| ==> waiting[i] == waiting[1..][i - 1];
  }

  lemma RestInOrder(waiting: seq<Held>, bound: nat, more: nat)
    requires waiting != [] && InOrder(waiting, bound) && bound <= more
    ensures InOrder(waiting[1..], more)
  {
  }

  /** A release honours every cancellation exactly when all its stages are held and none cancels a later one. */
  lemma {:induction false} HonoursCancelIff(g: Gate, waiting: seq<Held>)
    requires InOrder(waiting, g.nextOrder)
    ensures ReleasesOnlyHeld(g, waiting) <==> AllHeld(g, waiting) && NoneCancelled(g.hold, waiting)
    decreases |waiting|
  {
    if waiting != [] {
      var e, rest := waiting[0], waiting[1..];
      AllHeldParts(g, waiting);
      RestInOrder(waiting, g.nextOrder, g.nextOrder);
      if Holds(g.hold, e.stage) {
        HonoursCancelIff(g, rest);
      } else {
        assert waiting == [e] + rest;
        AllHeldAfter(g, e, rest);
        ReleaseOneWaited(g, e);
        OrdersGrow(Start(Drop(g, e.order), e.stage, Some(e.order)), e.action);
        RestInOrder(waiting, g.nextOrder, ReleaseOne(g, e).nextOrder);
        HonoursCancelIff(ReleaseOne(g, e), rest);
      }
    }
  }

  /** Setting the hold releases only stages that still wait, if and only if none of them cancels a later one. */
  lemma CancelledNeverRunsIff(g: Gate, hold: Hold)
    requires InOrder(g.held, g.nextOrder)
    ensures ReleasesOnlyHeld(Under(g, hold), g.held) <==> NoneCancelled(hold, g.held)
  {
    HonoursCancelIff(Under(g, hold), g.held);
    assert AllHeld(Under(g, hold), g.held);
  }

  /** A stage cancelled by one released before it runs all the same. */
  lemma CancelledStillRuns(g: Gate, first: Held, second: Held, hold: Hold)
    requires g.held == [first, second] && first.action == Cancel(second.order, Done)
    requires !Holds(hold, first.stage) && !Holds(hold, second.stage)
    ensures WaitedOf(Step(g, SetHold(hold)).ran) == WaitedOf(g.ran) + [first.order, second.order]
    ensures !NoneCancelled(hold, g.held)
  {
    ReleasesInOrder(Under(g, hold), g.held);
    TwoLetThrough(hold, first, second);
    assert g.held[1..] == [second];
    assert Cancels(hold, first.action, [second][0].order);
  }

  /**
   A run that gets there: under a hold a stage that cancels the next comes, and then the next, and
   the hold is lifted.
   */
  lemma CancelledRuns()
    ensures var come := Come(Results, Cancel(1, Done), Come(Results, Done, Done));
            var before := Run([SetHold(Steps)] + [Perform(come)]);
            && before.held == [Held(0, Results, Cancel(1, Done)), Held(1, Results, Done)] && before.ran == []
            && WaitedOf(Run([SetHold(Steps)] + [Perform(come)] + [SetHold(NoHold)]).ran) == [0, 1]
  {
    var come := Come(Results, Cancel(1, Done), Come(Results, Done, Done));
    var first, second := Held(0, Results, Cancel(1, Done)), Held(1, Results, Done);
    assert [] + [SetHold(Steps)] == [SetHold(Steps)];
    RunMore([], SetHold(Steps));
    RunMore([SetHold(Steps)], Perform(come));
    RunMore([SetHold(Steps)] + [Perform(come)], SetHold(NoHold));
    var held := Under(OPEN, Steps);
    assert Run([SetHold(Steps)]) == held;
    assert Do(held, come) == Queue(Queue(held, Results, Cancel(1, Done)), Results, Done);
    assert [] + [first] + [second] == [first, second];
    CancelledStillRuns(Do(held, come), first, second, NoHold);
  }

  lemma RunMore(events: seq<Event>, e: Event)
    ensures Run(events + [e]) == Step(Run(events), e)
  {
    assert (events + [e])[..|events|] == events;
  }

  lemma TwoLetThrough(hold: Hold, first: Held, second: Held)
    requires !Holds(hold, first.stage) && !Holds(hold, second.stage)
    ensures LetThrough(hold, [first, second]) == [first.order, second.order]
  {
    assert [first, second][1..] == [second] && [second][1..] == [];
    assert LetThrough(hold, [second]) == [second.order];
  }

  // ---- Every run ---------------------------------------------------------------------------

  /** The waiting stages are in order, and only those of `waiting` wait although the hold lets them through. */
  ghost predicate Going(g: Gate, waiting: seq<Held>)
  {
    InOrder(g.held, g.nextOrder) && forall e :: e in g.held ==> Holds(g.hold, e.stage) || e in waiting
  }

  lemma {:induction false} WithoutInOrder(held: seq<Held>, order: nat, bound: nat)
    requires InOrder(held, bound)
    ensures InOrder(Without(held, order), bound)
  {
    if held != [] {
      var rest := Without(held[1..], order);
      RestInOrder(held, bound, bound);
      WithoutInOrder(held[1..], order, bound);
      WithoutIs(held[1..], order);
      forall j | 0 <= j < |rest| ensures held[0].order < rest[j].order {
        assert rest[j] in held[1..];
      }
    }
  }

  lemma DropGoing(g: Gate, order: nat, waiting: seq<Held>)
    requires Going(g, waiting)
    ensures Going(Drop(g, order), waiting)
  {
    WithoutIs(g.held, order);
    WithoutInOrder(g.held, order, g.nextOrder);
  }

  lemma {:induction false} DoGoing(g: Gate, action: Action, waiting: seq<Held>)
    requires Going(g, waiting)
    ensures Going(Do(g, action), waiting)
    decreases action
  {
    match action
    case Done =>
    case Cancel(order, next) =>
      DropGoing(g, order, waiting);
      DoGoing(Drop(g, order), next, waiting);
    case Come(stage, inner, next) =>
      if Holds(g.hold, stage) {
        DoGoing(Queue(g, stage, inner), next, waiting);
      } else {
        DoGoing(Start(g, stage, None), inner, waiting);
        DoGoing(Do(Start(g, stage, None), inner), next, waiting);
      }
  }

  lemma {:induction false} ReleaseGoing(g: Gate, waiting: seq<Held>)
    requires Going(g, waiting)
    ensures Going(Release(g, waiting), [])
    decreases |waiting|
  {
    if waiting != [] {
      var e, rest := waiting[0], waiting[1..];
      assert waiting == [e] + rest;
      if Holds(g.hold, e.stage) {
        ReleaseGoing(g, rest);
      } else {
        DropGoing(g, e.order, waiting);
        WithoutIs(g.held, e.order);
        assert Going(Drop(g, e.order), rest);
        DoGoing(Start(Drop(g, e.order), e.stage, Some(e.order)), e.action, rest);
        ReleaseOneWaited(g, e);
        ReleaseGoing(ReleaseOne(g, e), rest);
      }
    }
  }

  /** In every run, the waiting stages are in order and each is one the hold holds. */
  lemma {:induction false} RunGoing(events: seq<Event>)
    ensures Going(Run(events), [])
  {
    if events != [] {
      var before, e := Run(events[..|events| - 1]), events[|events| - 1];
      RunGoing(events[..|events| - 1]);
      match e
      case SetHold(hold) => ReleaseGoing(Under(before, hold), before.held);
      case Perform(action) => DoGoing(before, action, []);
    }
  }

  ghost predicate RanFreely(ran: seq<Ran>)
  {
    forall r :: r in ran ==> !r.wasHeld
  }

  lemma {:induction false} DoFreely(g: Gate, action: Action)
    requires RanFreely(g.ran)
    ensures RanFreely(Do(g, action).ran)
    decreases action
  {
    match action
    case Done =>
    case Cancel(order, next) => DoFreely(Drop(g, order), next);
    case Come(stage, inner, next) =>
      if Holds(g.hold, stage) {
        DoFreely(Queue(g, stage, inner), next);
      } else {
        DoFreely(Start(g, stage, None), inner);
        DoFreely(Do(Start(g, stage, None), inner), next);
      }
  }

  lemma {:induction false} ReleaseFreely(g: Gate, waiting: seq<Held>)
    requires RanFreely(g.ran)
    ensures RanFreely(Release(g, waiting).ran)
    decreases |waiting|
  {
    if waiting != [] {
      if Holds(g.hold, waiting[0].stage) {
        ReleaseFreely(g, waiting[1..]);
      } else {
        DoFreely(Start(Drop(g, waiting[0].order), waiting[0].stage, Some(waiting[0].order)), waiting[0].action);
        ReleaseFreely(ReleaseOne(g, waiting[0]), waiting[1..]);
      }
    }
  }

  /** In every run, no stage runs while the hold holds it. */
  lemma {:induction false} RunFreely(events: seq<Event>)
    ensures RanFreely(Run(events).ran)
  {
    if events != [] {
      var before, e := Run(events[..|events| - 1]), events[|events| - 1];
      RunFreely(events[..|events| - 1]);
      match e
      case SetHold(hold) => ReleaseFreely(Under(before, hold), before.held);
      case Perform(action) => DoFreely(before, action);
    }
  }

  /** A stage of this order can yet run after waiting only by waiting still. */
  ghost predicate Spent(g: Gate, order: nat)
  {
    order < g.nextOrder && !HasOrder(g.held, order)
  }

  lemma {:induction false} ReleaseSpends(g: Gate, waiting: seq<Held>, o: nat)
    requires InOrder(waiting, g.nextOrder) && o < g.nextOrder
    requires Spent(g, o) || o in LetThrough(g.hold, waiting)
    ensures Spent(Release(g, waiting), o)
    decreases |waiting|
  {
    if waiting != [] {
      var e, rest := waiting[0], waiting[1..];
      if Holds(g.hold, e.stage) {
        RestInOrder(waiting, g.nextOrder, g.nextOrder);
        ReleaseSpends(g, rest, o);
      } else {
        ReleaseOneHeld(g, e, o);
        ReleaseOneWaited(g, e);
        OrdersGrow(Start(Drop(g, e.order), e.stage, Some(e.order)), e.action);
        RestInOrder(waiting, g.nextOrder, ReleaseOne(g, e).nextOrder);
        ReleaseSpends(ReleaseOne(g, e), rest, o);
      }
    }
  }

  lemma {:induction false} LetThroughAre(hold: Hold, waiting: seq<Held>, bound: nat)
    requires InOrder(waiting, bound)
    ensures Distinct(LetThrough(hold, waiting))
    ensures forall o :: o in LetThrough(hold, waiting) ==> o < bound && HasOrder(waiting, o)
  {
    if waiting != [] {
      var first, rest := waiting[0], LetThrough(hold, waiting[1..]);
      RestInOrder(waiting, bound, bound);
      LetThroughAre(hold, waiting[1..], bound);
      forall o | o in rest ensures first.order < o && HasOrder(waiting, o) {
        var i :| 0 <= i < |waiting[1..]| && waiting[1..][i].order == o;
        assert waiting[i + 1].order == o;
      }
      assert HasOrder(waiting, first.order);
      if !Holds(hold, first.stage) {
        forall j | 0 <= j < |rest| ensures first.order != rest[j] {
          assert rest[j] in rest;
        }
      }
    }
  }

  lemma DistinctTogether(a: seq<nat>, b: seq<nat>)
    requires Distinct(a) && Distinct(b) && forall x :: x in b ==> x !in a
    ensures Distinct(a + b)
  {
    forall i, j | 0 <= i < j < |a + b| ensures (a + b)[i] != (a + b)[j] {
      if i < |a| <= j {
        assert (a + b)[i] in a && (a + b)[j] in b;
      }
    }
  }

  /** Stages that ran after waiting did so once, and wait no more. */
  ghost predicate RanOnce(g: Gate)
  {
    Distinct(WaitedOf(g.ran)) && forall o :: o in WaitedOf(g.ran) ==> Spent(g, o)
  }

  lemma SetHoldOnce(g: Gate, hold: Hold)
    requires Going(g, []) && RanOnce(g)
    ensures RanOnce(Step(g, SetHold(hold)))
  {
    var before, now := WaitedOf(g.ran), LetThrough(hold, g.held);
    ReleasesInOrder(Under(g, hold), g.held);
    LetThroughAre(hold, g.held, g.nextOrder);
    forall o | o in now ensures o !in before {
      assert HasOrder(g.held, o);
    }
    DistinctTogether(before, now);
    forall o | o in before + now ensures Spent(Step(g, SetHold(hold)), o) {
      assert o in before ==> Spent(g, o);
      ReleaseSpends(Under(g, hold), g.held, o);
    }
  }

  /** In every run, a stage that waited runs at most once. */
  lemma {:induction false} RunOnce(events: seq<Event>)
    ensures RanOnce(Run(events))
  {
    if events != [] {
      var before, e := Run(events[..|events| - 1]), events[|events| - 1];
      RunOnce(events[..|events| - 1]);
      RunGoing(events[..|events| - 1]);
      match e
      case SetHold(hold) => SetHoldOnce(before, hold);
      case Perform(action) =>
        DoWaited(before, action);
        OrdersGrow(before, action);
        forall o | o in WaitedOf(before.ran) ensures Spent(Do(before, action), o) {
          assert Spent(before, o);
          DoHeld(before, action, o);
        }
    }
  }

  // ---- The gate as it runs -----------------------------------------------------------------

  class MockGate {
    var turnHold: Hold
    var heldTurns: seq<Held>
    var nextOrder: nat
    ghost var ran: seq<Ran>

    constructor ()
      ensures State() == OPEN
    {
      turnHold, heldTurns, nextOrder, ran := NoHold, [], 0, [];
    }

    ghost function State(): Gate
      reads this
    {
      Gate(turnHold, heldTurns, nextOrder, ran)
    }

    /** A stage runs now, or waits; its cancel is by the order answered, when it waits. */
    method WhenTurnReleased(stage: Stage, action: Action) returns (order: Option<nat>)
      modifies this
      ensures State() == Do(old(State()), Come(stage, action, Done))
      ensures order == if Holds(old(turnHold), stage) then Some(old(nextOrder)) else None
      decreases action, 1
    {
      if !Holds(turnHold, stage) {
        ran := ran + [Ran(Holds(turnHold, stage), None)];
        CarryOut(action);
        return None;
      }
      heldTurns := heldTurns + [Held(nextOrder, stage, action)];
      order := Some(nextOrder);
      nextOrder := nextOrder + 1;
    }

    method CancelTurn(order: nat)
      modifies this`heldTurns
      ensures State() == Do(old(State()), Cancel(order, Done))
    {
      heldTurns := Without(heldTurns, order);
    }

    method CarryOut(action: Action)
      modifies this
      ensures State() == Do(old(State()), action)
      decreases action, 0
    {
      match action
      case Done =>
      case Come(stage, inner, next) =>
        var order := WhenTurnReleased(stage, inner);
        CarryOut(next);
      case Cancel(order, next) =>
        CancelTurn(order);
        CarryOut(next);
    }

    /** Sets the hold, and runs the stages that waited and that it lets through. */
    method HoldTurns(hold: Hold)
      modifies this
      ensures State() == Step(old(State()), SetHold(hold))
    {
      turnHold := hold;
      var waiting := heldTurns;
      ghost var result := Release(State(), waiting);
      for at := 0 to |waiting|
        invariant Release(State(), waiting[at..]) == result
      {
        var entry := waiting[at];
        assert waiting[at..][0] == entry && waiting[at..][1..] == waiting[at + 1..];
        if Holds(turnHold, entry.stage) {
          continue;
        }
        CancelTurn(entry.order);
        ran := ran + [Ran(Holds(turnHold, entry.stage), Some(entry.order))];
        CarryOut(entry.action);
      }
    }
  }
}
