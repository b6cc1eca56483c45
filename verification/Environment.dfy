/**
 The mock's environment as it lives: timers set and removed, moves and steps of manual time,
 switches to manual time and back, changes of scale, timers that ring on the wall clock, and resets.

 `World` is the environment with the mode it is in and its scale, `Next` what one event does to it,
 and `Lived` what a run of events does. What holds of one move of manual time (`SimulatedTime`) holds
 at every point of every run, because every event keeps the timers in order: each timer has an order
 of its own, and in manual time none is due in the past of what was fired.

 The class at the end carries the events out on its own fields. Its `fired` is a ghost: it lists the
 timers that ran since manual time was last entered, and is there for the order of firing alone.
 The wall clock is not part of the state. An event that reads it is told the instant.
 */
module Environment {
  import opened Util
  import opened SimulatedTime

  // ---- Every run ---------------------------------------------------------------------------

  /** What a reset goes back to. */
  datatype Origin = Origin(clock: real, scale: real)

  /** The environment, how time passes in it, and where it began. */
  datatype World<S, A> = World(env: Env<S, A>, mode: Mode, scale: real, origin: Origin)

  /**
   `SetTimer` and `Rings` are told the wall-clock instant `now`; a scaled timer rings when its
   moment comes. `Moves` is a move of manual time after `n` firings, which ends when none is left.
   */
  datatype Event<A> =
    | SetTimer(ms: real, action: A, now: real)
    | Remove(order: nat)
    | Moves(ms: real, n: nat)
    | Steps
    | Rings(order: nat, now: real)
    | Switch(next: Mode, now: real)
    | Rescale(scale: real)
    | Reset

  /** A bound no timer is due after. */
  function LatestDue<A>(timers: seq<Timer<A>>): real
  {
    if timers == [] then 0.0
    else
      var before, last := LatestDue(timers[..|timers| - 1]), timers[|timers| - 1].due;
      if last > before then last else before
  }

  /** The first timer of all runs; time goes forward to it, and never back. */
  function Stepped<S, A>(fire: Behaviour<S, A>, env: Env<S, A>): Env<S, A>
  {
    var next := NextDue(env.timers, LatestDue(env.timers));
    if next.None? then env
    else Run(fire, MoveTo(env, if next.value.due > env.simulatedMs then next.value.due else env.simulatedMs), next.value)
  }

  /** How far a move has come after `n` firings. */
  function Moved<S, A>(fire: Behaviour<S, A>, env: Env<S, A>, ms: real, n: nat): Env<S, A>
  {
    if Rests(fire, env, env.simulatedMs + ms, n) then Advanced(fire, env, ms, n)
    else Fires(fire, env, env.simulatedMs + ms, n)
  }

  /** When a timer set `ms` ahead is due: in simulated time, or on the wall clock. */
  function DueAt(mode: Mode, simulatedMs: real, scale: real, ms: real, now: real): real
  {
    if mode == Manual then simulatedMs + ms else now + ms * scale
  }

  /** What one command does at the wall-clock instant `now`, in either mode. */
  function Obey<S, A>(w: World<S, A>, cmd: Command<A>, now: real): World<S, A>
  {
    match cmd
    case After(ms, action) =>
      var timer := Timer(DueAt(w.mode, w.env.simulatedMs, w.scale, ms, now), w.env.timerOrder, action);
      w.(env := w.env.(timers := w.env.timers + [timer], timerOrder := w.env.timerOrder + 1))
    case Cancel(order) => w.(env := w.env.(timers := Without(w.env.timers, order)))
  }

  function ObeyAll<S, A>(w: World<S, A>, cmds: seq<Command<A>>, now: real): World<S, A>
    decreases |cmds|
  {
    if cmds == [] then w else ObeyAll(Obey(w, cmds[0], now), cmds[1..], now)
  }

  function OfOrder<A>(timers: seq<Timer<A>>, order: nat): Option<Timer<A>>
  {
    if timers == [] then None
    else if timers[0].order == order then Some(timers[0])
    else OfOrder(timers[1..], order)
  }

  function Rung<S, A>(fire: Behaviour<S, A>, w: World<S, A>, order: nat, now: real): World<S, A>
  {
    var timer := OfOrder(w.env.timers, order);
    if timer.None? then w
    else
      var (app, cmds) := fire(timer.value.action, w.env.app, w.env.clock, w.env.timerOrder);
      ObeyAll(w.(env := w.env.(timers := Without(w.env.timers, order), app := app)), cmds, now)
  }

  /** Into manual time simulated time begins anew, and so does what it fired. */
  function Switched<S, A>(w: World<S, A>, next: Mode, now: real): World<S, A>
  {
    if next == w.mode then w
    else if next == Manual then
      w.(env := w.env.(simulatedMs := 0.0, timers := IntoManual(w.env.timers, now, w.scale), fired := []), mode := Manual)
    else w.(env := w.env.(timers := OntoWallClock(w.env.timers, w.env.simulatedMs, now, w.scale)), mode := Scaled)
  }

  function Next<S, A>(fire: Behaviour<S, A>, w: World<S, A>, e: Event<A>): World<S, A>
  {
    match e
    case SetTimer(ms, action, now) => Obey(w, After(ms, action), now)
    case Remove(order) => Obey(w, Cancel(order), 0.0)
    case Moves(ms, n) => if w.mode == Manual then w.(env := Moved(fire, w.env, ms, n)) else w
    case Steps => if w.mode == Manual then w.(env := Stepped(fire, w.env)) else w
    case Rings(order, now) => if w.mode == Scaled then Rung(fire, w, order, now) else w
    case Switch(next, now) => Switched(w, next, now)
    case Rescale(scale) => w.(scale := scale)
    case Reset =>
      w.(env := w.env.(timers := [], simulatedMs := 0.0, clock := w.origin.clock, fired := []),
         mode := Scaled, scale := w.origin.scale)
  }

  function Lived<S, A>(fire: Behaviour<S, A>, start: World<S, A>, events: seq<Event<A>>): World<S, A>
    decreases |events|
  {
    if events == [] then start
    else Next(fire, Lived(fire, start, events[..|events| - 1]), events[|events| - 1])
  }

  function Begun<S, A>(app: S, clock: real, scale: real): World<S, A>
  {
    World(Env([], 0.0, clock, 0, app, []), Scaled, scale, Origin(clock, scale))
  }

  /** No time to wait is negative. */
  ghost predicate Forward<A>(e: Event<A>)
  {
    (e.SetTimer? ==> e.ms >= 0.0) && (e.Moves? ==> e.ms >= 0.0)
  }

  /** Timers go by orders of their own, and in manual time everything is in order. */
  ghost predicate Kept<S, A>(w: World<S, A>)
  {
    && DistinctOrders(w.env.timers)
    && (forall t :: t in w.env.timers ==> t.order < w.env.timerOrder)
    && (w.mode == Manual ==> Orderly(w.env))
  }

  lemma {:induction false} IntoManualKeeps<A>(timers: seq<Timer<A>>, now: real, scale: real, bound: nat)
    requires DistinctOrders(timers) && forall t :: t in timers ==> t.order < bound
    ensures DistinctOrders(IntoManual(timers, now, scale))
    ensures forall t :: t in IntoManual(timers, now, scale) ==> t.order < bound && t.due >= 0.0
    decreases |timers|
  {
    if timers != [] {
      var rest := IntoManual(timers[1..], now, scale);
      IntoManualKeeps(timers[1..], now, scale, bound);
      if |timers| > 1 {
        IntoManualAt(timers[1..], now, scale, 0);
      }
      forall k | 0 <= k < |rest| ensures rest[k].order != timers[0].order {
        IntoManualAt(timers[1..], now, scale, k);
      }
      assert IntoManual(timers, now, scale)[1..] == rest;
    }
  }

  lemma {:induction false} OntoWallClockKeeps<A>(timers: seq<Timer<A>>, simulatedMs: real, now: real, scale: real, bound: nat)
    requires DistinctOrders(timers) && forall t :: t in timers ==> t.order < bound
    ensures DistinctOrders(OntoWallClock(timers, simulatedMs, now, scale))
    ensures forall t :: t in OntoWallClock(timers, simulatedMs, now, scale) ==> t.order < bound
    decreases |timers|
  {
    if timers != [] {
      var rest := OntoWallClock(timers[1..], simulatedMs, now, scale);
      OntoWallClockKeeps(timers[1..], simulatedMs, now, scale, bound);
      if |timers| > 1 {
        OntoWallClockAt(timers[1..], simulatedMs, now, scale, 0);
      }
      forall k | 0 <= k < |rest| ensures rest[k].order != timers[0].order {
        OntoWallClockAt(timers[1..], simulatedMs, now, scale, k);
      }
      assert OntoWallClock(timers, simulatedMs, now, scale)[1..] == rest;
    }
  }

  lemma ObeyKeeps<S, A>(w: World<S, A>, cmd: Command<A>, now: real)
    requires Kept(w) && (w.mode == Manual && cmd.After? ==> cmd.ms >= 0.0)
    ensures Kept(Obey(w, cmd, now))
  {
    match cmd
    case After(ms, action) =>
      AppendDistinct(w.env.timers, Timer(DueAt(w.mode, w.env.simulatedMs, w.scale, ms, now), w.env.timerOrder, action));
    case Cancel(order) =>
      WithoutDistinct(w.env.timers, order);
      forall t | t in Without(w.env.timers, order) ensures t in w.env.timers {
        WithoutMember(w.env.timers, order, t);
      }
  }

  lemma {:induction false} ObeyAllKeeps<S, A>(w: World<S, A>, cmds: seq<Command<A>>, now: real)
    requires Kept(w) && w.mode == Scaled
    ensures Kept(ObeyAll(w, cmds, now))
    decreases |cmds|
  {
    if cmds != [] {
      ObeyKeeps(w, cmds[0], now);
      ObeyAllKeeps(Obey(w, cmds[0], now), cmds[1..], now);
    }
  }

  lemma {:induction false} LatestDueIs<A>(timers: seq<Timer<A>>)
    ensures forall t :: t in timers ==> t.due <= LatestDue(timers)
  {
    if timers != [] {
      LatestDueIs(timers[..|timers| - 1]);
      assert timers == timers[..|timers| - 1] + [timers[|timers| - 1]];
    }
  }

  /** The timer a step runs is the first of all. */
  lemma SteppedIs<S, A>(fire: Behaviour<S, A>, env: Env<S, A>) returns (t: Timer<A>)
    requires env.timers != []
    ensures t in env.timers && forall u :: u in env.timers ==> !Earlier(u, t)
    ensures Stepped(fire, env) == Run(fire, MoveTo(env, if t.due > env.simulatedMs then t.due else env.simulatedMs), t)
  {
    LatestDueIs(env.timers);
    NextDueIs(env.timers, LatestDue(env.timers));
    assert env.timers[0] in env.timers;
    t := NextDue(env.timers, LatestDue(env.timers)).value;
  }

  lemma {:induction false} MovedOrderly<S(!new), A(!new)>(fire: Behaviour<S, A>, env: Env<S, A>, ms: real, n: nat)
    requires Orderly(env) && Patient(fire) && ms >= 0.0
    ensures Orderly(Moved(fire, env, ms, n))
  {
    if Rests(fire, env, env.simulatedMs + ms, n) {
      AdvancedOrderly(fire, env, ms, n);
      assert Moved(fire, env, ms, n) == Advanced(fire, env, ms, n);
    } else {
      FiresOrderly(fire, env, env.simulatedMs + ms, n);
      assert Moved(fire, env, ms, n) == Fires(fire, env, env.simulatedMs + ms, n);
    }
  }

  lemma SteppedOrderly<S(!new), A(!new)>(fire: Behaviour<S, A>, env: Env<S, A>)
    requires Orderly(env) && Patient(fire)
    ensures Orderly(Stepped(fire, env))
  {
    if NextDue(env.timers, LatestDue(env.timers)).Some? {
      NextDueIs(env.timers, LatestDue(env.timers));
      RunOrderly(fire, env, LatestDue(env.timers));
    }
  }

  lemma NextKept<S(!new), A(!new)>(fire: Behaviour<S, A>, w: World<S, A>, e: Event<A>)
    requires Kept(w) && Patient(fire) && Forward(e)
    ensures Kept(Next(fire, w, e))
  {
    match e
    case SetTimer(ms, action, now) => ObeyKeeps(w, After(ms, action), now);
    case Remove(order) => ObeyKeeps(w, Cancel(order), 0.0);
    case Moves(ms, n) =>
      if w.mode == Manual {
        MovedOrderly(fire, w.env, ms, n);
      }
    case Steps =>
      if w.mode == Manual {
        SteppedOrderly(fire, w.env);
      }
    case Rings(order, now) => RingsKept(fire, w, order, now);
    case Switch(next, now) =>
      IntoManualKeeps(w.env.timers, now, w.scale, w.env.timerOrder);
      OntoWallClockKeeps(w.env.timers, w.env.simulatedMs, now, w.scale, w.env.timerOrder);
    case Rescale(scale) =>
    case Reset =>
  }

  lemma RingsKept<S, A>(fire: Behaviour<S, A>, w: World<S, A>, order: nat, now: real)
    requires Kept(w)
    ensures Kept(Next(fire, w, Rings(order, now)))
  {
    var timer := OfOrder(w.env.timers, order);
    if w.mode == Scaled && timer.Some? {
      var (app, cmds) := fire(timer.value.action, w.env.app, w.env.clock, w.env.timerOrder);
      ObeyKeeps(w, Cancel(order), now);
      ObeyAllKeeps(w.(env := w.env.(timers := Without(w.env.timers, order), app := app)), cmds, now);
    }
  }

  /**
   Through any setting and removing of timers, moves, steps, switches of mode, changes of scale and
   resets, timers keep orders of their own, and manual time is always in order.
   */
  lemma {:induction false} LivedKept<S(!new), A(!new)>(fire: Behaviour<S, A>, start: World<S, A>, events: seq<Event<A>>)
    requires Kept(start) && Patient(fire) && forall e :: e in events ==> Forward(e)
    ensures Kept(Lived(fire, start, events))
    decreases |events|
  {
    if events != [] {
      var before, last := events[..|events| - 1], events[|events| - 1];
      assert last in events && forall e :: e in before ==> e in events;
      LivedKept(fire, start, before);
      NextKept(fire, Lived(fire, start, before), last);
    }
  }

  lemma {:induction false} ObeyAllOrigin<S, A>(w: World<S, A>, cmds: seq<Command<A>>, now: real)
    ensures ObeyAll(w, cmds, now).origin == w.origin
    decreases |cmds|
  {
    if cmds != [] {
      ObeyAllOrigin(Obey(w, cmds[0], now), cmds[1..], now);
    }
  }

  lemma RungOrigin<S, A>(fire: Behaviour<S, A>, w: World<S, A>, order: nat, now: real)
    ensures Rung(fire, w, order, now).origin == w.origin
  {
    var timer := OfOrder(w.env.timers, order);
    if timer.Some? {
      var (app, cmds) := fire(timer.value.action, w.env.app, w.env.clock, w.env.timerOrder);
      ObeyAllOrigin(w.(env := w.env.(timers := Without(w.env.timers, order), app := app)), cmds, now);
    }
  }

  lemma {:induction false} LivedOrigin<S, A>(fire: Behaviour<S, A>, start: World<S, A>, events: seq<Event<A>>)
    ensures Lived(fire, start, events).origin == start.origin
    decreases |events|
  {
    if events != [] {
      var before, last := events[..|events| - 1], events[|events| - 1];
      LivedOrigin(fire, start, before);
      if last.Rings? {
        RungOrigin(fire, Lived(fire, start, before), last.order, last.now);
      }
    }
  }

  /**
   A reset after any run leaves the environment as it began, but for the application and the order
   the next timer gets: no order is given twice, before a reset and after it.
   */
  lemma ResetBegins<S, A>(fire: Behaviour<S, A>, app: S, clock: real, scale: real, events: seq<Event<A>>)
    ensures var w := Lived(fire, Begun(app, clock, scale), events);
            var again := Begun(w.env.app, clock, scale);
            Next(fire, w, Reset) == again.(env := again.env.(timerOrder := w.env.timerOrder))
  {
    LivedOrigin(fire, Begun(app, clock, scale), events);
  }

  /** An environment begins in order. */
  lemma BegunKept<S, A>(app: S, clock: real, scale: real)
    ensures Kept(Begun<S, A>(app, clock, scale))
  {
  }

  /**
   So a move at any point of any run fires what is due in order, leaves nothing due by its end,
   and takes the clock along by its length.
   */
  lemma EveryMoveInOrder<S(!new), A(!new)>(
    fire: Behaviour<S, A>, begun: World<S, A>, events: seq<Event<A>>, w: World<S, A>, ms: real, n: nat)
    requires begun == Begun(begun.env.app, begun.env.clock, begun.scale) && w == Lived(fire, begun, events)
    requires Patient(fire) && ms >= 0.0 && forall e :: e in events ==> Forward(e)
    requires w.mode == Manual && Rests(fire, w.env, w.env.simulatedMs + ms, n)
    ensures MovedInOrder(w.env, Advanced(fire, w.env, ms, n), ms)
  {
    BegunKept<S, A>(begun.env.app, begun.env.clock, begun.scale);
    LivedKept(fire, begun, events);
    MoveInOrder(fire, w, ms, n);
  }

  lemma MoveInOrder<S(!new), A(!new)>(fire: Behaviour<S, A>, w: World<S, A>, ms: real, n: nat)
    requires Kept(w) && w.mode == Manual && Patient(fire) && ms >= 0.0
    requires Rests(fire, w.env, w.env.simulatedMs + ms, n)
    ensures MovedInOrder(w.env, Advanced(fire, w.env, ms, n), ms)
  {
    AdvancedOrderly(fire, w.env, ms, n);
  }

  // ---- When a timer is due -----------------------------------------------------------------

  /** A timer set joins the others, with the next order. */
  lemma SetsTimer<S, A>(fire: Behaviour<S, A>, w: World<S, A>, ms: real, action: A, now: real)
    ensures var due := if w.mode == Manual then w.env.simulatedMs + ms else now + ms * w.scale;
            Next(fire, w, SetTimer(ms, action, now)) ==
              w.(env := w.env.(timers := w.env.timers + [Timer(due, w.env.timerOrder, action)],
                               timerOrder := w.env.timerOrder + 1))
  {
  }

  /** A switch puts each timer on the other clock: with its wait as it was, but scaled, and none for an overdue one. */
  lemma SwitchedTimer<S, A>(fire: Behaviour<S, A>, w: World<S, A>, now: real, i: nat)
    requires i < |w.env.timers|
    ensures var next := if w.mode == Manual then Scaled else Manual;
            var timer, r := w.env.timers[i], Next(fire, w, Switch(next, now)).env.timers;
            var left := timer.due - if w.mode == Manual then w.env.simulatedMs else now;
            |r| == |w.env.timers| && r[i] == timer.(due :=
              if w.mode == Manual then now + (if left > 0.0 then left else 0.0) * w.scale
              else if w.scale > 0.0 && left > 0.0 then left / w.scale else 0.0)
  {
    OntoWallClockAt(w.env.timers, w.env.simulatedMs, now, w.scale, i);
    IntoManualAt(w.env.timers, now, w.scale, i);
  }

  /**
   A timer set in scaled time, and `waited` on the wall clock, which uses up its share of the delay:
   the rest is left in manual time.
   */
  lemma SetThenManual<S, A>(fire: Behaviour<S, A>, w: World<S, A>, ms: real, action: A, now: real, waited: real)
    requires w.mode == Scaled && w.scale > 0.0
    ensures var manual := Next(fire, Next(fire, w, SetTimer(ms, action, now)), Switch(Manual, now + waited));
            var timers, left := manual.env.timers, ms - waited / w.scale;
            && manual.mode == Manual && manual.env.simulatedMs == 0.0 && |timers| == |w.env.timers| + 1
            && timers[|w.env.timers|] == Timer(if left > 0.0 then left else 0.0, w.env.timerOrder, action)
  {
    var begun := Next(fire, w, SetTimer(ms, action, now)).env.timers;
    assert begun[|w.env.timers|] == Timer(now + ms * w.scale, w.env.timerOrder, action);
    IntoManualAt(begun, now + waited, w.scale, |w.env.timers|);
    WaitShare(ms, now, waited, w.scale);
  }

  lemma {:induction false} ApplyKeepsTime<S, A>(env: Env<S, A>, cmds: seq<Command<A>>)
    ensures var r := Apply(env, cmds);
            r.simulatedMs == env.simulatedMs && r.clock == env.clock && r.app == env.app && r.fired == env.fired
    decreases |cmds|
  {
    if cmds != [] {
      ApplyKeepsTime(Do(env, cmds[0]), cmds[1..]);
    }
  }

  /** A timer set in manual time where no other waits: the next step runs it, just as much later as it was set ahead. */
  lemma SetThenStepped<S, A>(fire: Behaviour<S, A>, w: World<S, A>, ms: real, action: A, now: real)
    requires w.mode == Manual && w.env.timers == [] && ms >= 0.0
    ensures var r := Next(fire, Next(fire, w, SetTimer(ms, action, now)), Steps).env;
            && r.simulatedMs == w.env.simulatedMs + ms && r.clock == w.env.clock + ms
            && r.fired == w.env.fired + [Timer(w.env.simulatedMs + ms, w.env.timerOrder, action)]
            && r.app == fire(action, w.env.app, w.env.clock + ms, w.env.timerOrder + 1).0
  {
    var begun := Next(fire, w, SetTimer(ms, action, now)).env;
    var timer := Timer(w.env.simulatedMs + ms, w.env.timerOrder, action);
    assert begun.timers == [timer];
    var t := SteppedIs(fire, begun);
    assert t == timer;
    var moved := MoveTo(begun, w.env.simulatedMs + ms);
    var (app, cmds) := fire(action, moved.app, moved.clock, moved.timerOrder);
    ApplyKeepsTime(moved.(timers := Without(moved.timers, t.order), app := app, fired := moved.fired + [t]), cmds);
  }

  // ---- The environment ---------------------------------------------------------------------

  class MockEnv<S, A> {
    const fire: Behaviour<S, A>
    var timers: seq<Timer<A>>
    var simulatedMs: real
    var clock: real
    var timerOrder: nat
    var app: S
    var mode: Mode
    var scale: real
    const origin: Origin
    ghost var fired: seq<Timer<A>>

    constructor (fire: Behaviour<S, A>, start: real, scale: real, app: S)
      ensures this.fire == fire && Now() == Begun(app, start, scale)
    {
      this.fire := fire;
      timers, simulatedMs, clock, timerOrder := [], 0.0, start, 0;
      this.app, mode, this.scale, fired := app, Scaled, scale, [];
      origin := Origin(start, scale);
    }

    ghost function State(): Env<S, A>
      reads this
    {
      Env(timers, simulatedMs, clock, timerOrder, app, fired)
    }

    ghost function Now(): World<S, A>
      reads this
    {
      World(State(), mode, scale, origin)
    }

    /** Looks through the timers for the first that is due. */
    method FindNextDue(limit: real) returns (next: Option<Timer<A>>)
      ensures next == NextDue(timers, limit)
    {
      next := None;
      var i := 0;
      while i < |timers|
        invariant i <= |timers|
        invariant Earliest(timers[i..], limit, next) == NextDue(timers, limit)
      {
        var timer := timers[i];
        assert timers[i..][1..] == timers[i + 1..];
        if timer.due <= limit && (next.None? || Earlier(timer, next.value)) {
          next := Some(timer);
        }
        i := i + 1;
      }
    }

    /** Sets a timer `ms` from now, in simulated time or on the wall clock, and answers its order. */
    method AddTimer(ms: real, action: A, now: real) returns (order: nat)
      modifies this`timers, this`timerOrder
      ensures order == old(timerOrder) && timerOrder == order + 1
      ensures var due := old(if mode == Manual then simulatedMs + ms else now + ms * scale);
              timers == old(timers) + [Timer(due, order, action)]
      ensures Now() == Next(fire, old(Now()), SetTimer(ms, action, now))
    {
      var due := DueAt(mode, simulatedMs, scale, ms, now);
      assert due == if mode == Manual then simulatedMs + ms else now + ms * scale;
      order := timerOrder;
      timerOrder := timerOrder + 1;
      timers := timers + [Timer(due, order, action)];
    }

    method RemoveTimer(order: nat)
      modifies this`timers
      ensures Now() == Next(fire, old(Now()), Remove(order))
      ensures forall t: Timer<A> :: t in timers <==> t in old(timers) && t.order != order
    {
      timers := Without(timers, order);
      forall t: Timer<A> ensures t in timers <==> t in old(timers) && t.order != order {
        WithoutMember(old(timers), order, t);
      }
    }

    method MoveClockTo(target: real)
      modifies this`clock, this`simulatedMs
      ensures State() == MoveTo(old(State()), target)
    {
      clock := clock + (target - simulatedMs);
      simulatedMs := target;
    }

    /** One thing an action does to the timers in manual time. */
    method CarryOut(command: Command<A>)
      requires mode == Manual
      modifies this`timers, this`timerOrder
      ensures State() == Do(old(State()), command)
    {
      match command {
        case After(ms, action) =>
          var order := AddTimer(ms, action, 0.0);
        case Cancel(order) =>
          RemoveTimer(order);
      }
    }

    /** Runs a timer in manual time: it goes, and what it does sets and cancels others. */
    method RunTimer(timer: Timer<A>)
      requires mode == Manual
      modifies this`timers, this`timerOrder, this`app, this`fired
      ensures State() == Run(fire, old(State()), timer)
    {
      RemoveTimer(timer.order);
      fired := fired + [timer];
      var (app', cmds) := fire(timer.action, app, clock, timerOrder);
      app := app';
      var i := 0;
      while i < |cmds|
        invariant i <= |cmds|
        invariant Apply(State(), cmds[i..]) == Run(fire, old(State()), timer)
      {
        assert cmds[i..][1..] == cmds[i + 1..];
        CarryOut(cmds[i]);
        i := i + 1;
      }
    }

    /**
     Moves manual time forward by `ms`, and answers how many timers fired; refused (`None`) in
     scaled time. The move has to end: `n` firings leave nothing due by its target.
     */
    method Advance(ms: real, ghost n: nat) returns (count: Option<nat>)
      requires mode == Manual ==> Rests(fire, State(), simulatedMs + ms, n)
      modifies this`timers, this`timerOrder, this`app, this`fired, this`clock, this`simulatedMs
      ensures count.None? <==> mode == Scaled
      ensures State() == if mode == Scaled then old(State()) else Advanced(fire, old(State()), ms, n)
      ensures count.Some? ==> count.value == |fired| - |old(fired)|
      ensures Now() == Next(fire, old(Now()), Moves(ms, n))
    {
      if mode != Manual {
        return None;
      }
      var target := simulatedMs + ms;
      var total := 0;
      ghost var left := n;
      var next := FindNextDue(target);
      while next.Some?
        invariant next == NextDue(timers, target)
        invariant Fires(fire, State(), target, left) == Fires(fire, old(State()), target, n)
        invariant Rests(fire, State(), target, left)
        invariant total == |fired| - |old(fired)|
        decreases left
      {
        MoveClockTo(next.value.due);
        ghost var before := State();
        RunTimer(next.value);
        FiredByRun(fire, before, next.value);
        total := total + 1;
        left := left - 1;
        next := FindNextDue(target);
      }
      MoveClockTo(target);
      return Some(total);
    }

    /** Refused in scaled time; otherwise answers whether there was a timer to run. */
    method Step() returns (ran: Option<bool>)
      modifies this`timers, this`timerOrder, this`app, this`fired, this`clock, this`simulatedMs
      ensures ran.None? <==> mode == Scaled
      ensures ran == Some(true) <==> mode == Manual && old(timers) != []
      ensures ran != Some(true) ==> State() == old(State())
      ensures Now() == Next(fire, old(Now()), Steps)
      ensures ran == Some(true) ==>
        exists t: Timer<A> :: t in old(timers) && (forall u :: u in old(timers) ==> !Earlier(u, t))
          && State() == Run(fire, MoveTo(old(State()), if t.due > old(simulatedMs) then t.due else old(simulatedMs)), t)
    {
      if mode != Manual {
        return None;
      }
      if timers == [] {
        return Some(false);
      }
      var limit := FindLatestDue();
      LatestDueIs(timers);
      var next := FindNextDue(limit);
      NextDueIs(timers, limit);
      assert timers[0] in timers;
      MoveClockTo(if next.value.due > simulatedMs then next.value.due else simulatedMs);
      RunTimer(next.value);
      return Some(true);
    }

    /** A bound no waiting timer is due after: `step` looks for the next timer without a limit. */
    method FindLatestDue() returns (limit: real)
      ensures limit == LatestDue(timers)
    {
      limit := 0.0;
      for i := 0 to |timers|
        invariant limit == LatestDue(timers[..i])
      {
        assert timers[..i + 1][..i] == timers[..i];
        if timers[i].due > limit {
          limit := timers[i].due;
        }
      }
      assert timers[..|timers|] == timers;
    }

    method SetDelayScale(next: real)
      modifies this`scale
      ensures Now() == Next(fire, old(Now()), Rescale(next))
    {
      scale := next;
    }

    /** The wall clock runs a timer of scaled time, as its moment has come. */
    method Ring(order: nat, now: real)
      requires mode == Scaled
      modifies this`timers, this`timerOrder, this`app
      ensures Now() == Next(fire, old(Now()), Rings(order, now))
    {
      var timer := FindTimer(order);
      if timer.None? {
        return;
      }
      RemoveTimer(order);
      var (app', cmds) := fire(timer.value.action, app, clock, timerOrder);
      app := app';
      var i := 0;
      while i < |cmds|
        invariant i <= |cmds|
        invariant ObeyAll(Now(), cmds[i..], now) == Rung(fire, old(Now()), order, now)
      {
        assert cmds[i..][1..] == cmds[i + 1..];
        match cmds[i] {
          case After(ms, action) =>
            var newOrder := AddTimer(ms, action, now);
          case Cancel(other) =>
            RemoveTimer(other);
        }
        i := i + 1;
      }
    }

    method FindTimer(order: nat) returns (timer: Option<Timer<A>>)
      ensures timer == OfOrder(timers, order)
    {
      for i := 0 to |timers|
        invariant OfOrder(timers[i..], order) == OfOrder(timers, order)
      {
        assert timers[i..][1..] == timers[i + 1..];
        if timers[i].order == order {
          return Some(timers[i]);
        }
      }
      return None;
    }

    method SetTimeMode(next: Mode, now: real)
      modifies this`timers, this`simulatedMs, this`mode, this`fired
      ensures mode == next && Now() == Next(fire, old(Now()), Switch(next, now))
      ensures next == old(mode) ==> State() == old(State())
      ensures next == Manual && old(mode) == Scaled ==>
        simulatedMs == 0.0 && timers == IntoManual(old(timers), now, scale)
      ensures next == Scaled && old(mode) == Manual ==>
        simulatedMs == old(simulatedMs) && timers == OntoWallClock(old(timers), old(simulatedMs), now, scale)
    {
      if next == mode {
        return;
      }
      if next == Manual {
        simulatedMs, fired := 0.0, [];
        timers := ManualTimers(now);
      } else {
        timers := WallClockTimers(now);
      }
      mode := next;
    }

    /** All timers go, and time is as it was at the start. */
    method Reset()
      modifies this`timers, this`simulatedMs, this`clock, this`mode, this`scale, this`fired
      ensures timers == [] && mode == Scaled && Now() == Next(fire, old(Now()), Event.Reset)
    {
      timers, mode, simulatedMs, scale, fired := [], Scaled, 0.0, origin.scale, [];
      clock := origin.clock;
    }

    method ManualTimers(now: real) returns (moved: seq<Timer<A>>)
      ensures moved == IntoManual(timers, now, scale)
    {
      moved := [];
      var i := 0;
      while i < |timers|
        invariant i <= |timers| && moved + IntoManual(timers[i..], now, scale) == IntoManual(timers, now, scale)
      {
        assert timers[i..][1..] == timers[i + 1..];
        var timer := InManual(timers[i], now, scale);
        Associative(moved, [timer], IntoManual(timers[i + 1..], now, scale));
        moved := moved + [timer];
        i := i + 1;
      }
    }

    method WallClockTimers(now: real) returns (moved: seq<Timer<A>>)
      ensures moved == OntoWallClock(timers, simulatedMs, now, scale)
    {
      moved := [];
      var i := 0;
      while i < |timers|
        invariant i <= |timers|
        invariant moved + OntoWallClock(timers[i..], simulatedMs, now, scale) == OntoWallClock(timers, simulatedMs, now, scale)
      {
        assert timers[i..][1..] == timers[i + 1..];
        var timer := OnWallClock(timers[i], simulatedMs, now, scale);
        assert OntoWallClock(timers[i..], simulatedMs, now, scale)
            == [timer] + OntoWallClock(timers[i + 1..], simulatedMs, now, scale);
        Associative(moved, [timer], OntoWallClock(timers[i + 1..], simulatedMs, now, scale));
        moved := moved + [timer];
        i := i + 1;
      }
    }
  }

  lemma {:induction false} FiredByApply<S, A>(env: Env<S, A>, cmds: seq<Command<A>>)
    ensures Apply(env, cmds).fired == env.fired
    decreases |cmds|
  {
    if cmds != [] {
      FiredByApply(Do(env, cmds[0]), cmds[1..]);
    }
  }

  lemma FiredByRun<S, A>(fire: Behaviour<S, A>, env: Env<S, A>, t: Timer<A>)
    ensures Run(fire, env, t).fired == env.fired + [t]
  {
    var (app, cmds) := fire(t.action, env.app, env.clock, env.timerOrder);
    FiredByApply(env.(timers := Without(env.timers, t.order), app := app, fired := env.fired + [t]), cmds);
  }
}
