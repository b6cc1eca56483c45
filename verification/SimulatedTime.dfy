/**
 Simulated time: the timers of the mock environment, and how a test moves them.

 An action is a value; `fire` says what running it does to the application, given the clock
 and the order the next timer gets: a new application state, and timers set and cancelled.
 A timer is cancelled by its order, which names it.
 */
module SimulatedTime {
  import opened Util

  datatype Timer<A> = Timer(due: real, order: nat, action: A)

  datatype Command<A> = After(ms: real, action: A) | Cancel(order: nat)

  type Behaviour<!S, !A> = (A, S, real, nat) -> (S, seq<Command<A>>)

  /** `fired` lists the timers that ran, as they were. */
  datatype Env<S, A> = Env(timers: seq<Timer<A>>, simulatedMs: real, clock: real, timerOrder: nat, app: S,
                           fired: seq<Timer<A>>)

  /** Whether `a` runs before `b`: by when they are due, then by the order they were set in. */
  predicate Earlier<A>(a: Timer<A>, b: Timer<A>)
  {
    a.due < b.due || (a.due == b.due && a.order < b.order)
  }

  // ---- One firing --------------------------------------------------------------------------

  /** Of `best` and the timers due by `limit`, the one that runs first. */
  function Earliest<A>(timers: seq<Timer<A>>, limit: real, best: Option<Timer<A>>): Option<Timer<A>>
  {
    if timers == [] then best
    else
      var t := timers[0];
      Earliest(timers[1..], limit, if t.due <= limit && (best.None? || Earlier(t, best.value)) then Some(t) else best)
  }

  function NextDue<A>(timers: seq<Timer<A>>, limit: real): Option<Timer<A>>
  {
    Earliest(timers, limit, None)
  }

  function Without<A>(timers: seq<Timer<A>>, order: nat): seq<Timer<A>>
  {
    if timers == [] then []
    else (if timers[0].order != order then [timers[0]] else []) + Without(timers[1..], order)
  }

  /** What one command does: a timer joins the others, or goes. */
  function Do<S, A>(env: Env<S, A>, cmd: Command<A>): Env<S, A>
  {
    match cmd
    case After(ms, action) =>
      env.(timers := env.timers + [Timer(env.simulatedMs + ms, env.timerOrder, action)],
           timerOrder := env.timerOrder + 1)
    case Cancel(order) => env.(timers := Without(env.timers, order))
  }

  function Apply<S, A>(env: Env<S, A>, cmds: seq<Command<A>>): Env<S, A>
    decreases |cmds|
  {
    if cmds == [] then env else Apply(Do(env, cmds[0]), cmds[1..])
  }

  function MoveTo<S, A>(env: Env<S, A>, target: real): Env<S, A>
  {
    env.(clock := env.clock + (target - env.simulatedMs), simulatedMs := target)
  }

  function Run<S, A>(fire: Behaviour<S, A>, env: Env<S, A>, t: Timer<A>): Env<S, A>
  {
    var (app, cmds) := fire(t.action, env.app, env.clock, env.timerOrder);
    Apply(env.(timers := Without(env.timers, t.order), app := app, fired := env.fired + [t]), cmds)
  }

  // ---- A move of manual time ---------------------------------------------------------------

  /** Fires the timers due by `target` one after the other, up to `n` of them. */
  function Fires<S, A>(fire: Behaviour<S, A>, env: Env<S, A>, target: real, n: nat): Env<S, A>
    decreases n
  {
    var next := NextDue(env.timers, target);
    if n == 0 || next.None? then env
    else Fires(fire, Run(fire, MoveTo(env, next.value.due), next.value), target, n - 1)
  }

  /** After `n` firings nothing due by `target` is left: the move ends. */
  predicate Rests<S, A>(fire: Behaviour<S, A>, env: Env<S, A>, target: real, n: nat)
  {
    NextDue(Fires(fire, env, target, n).timers, target).None?
  }

  /** Where a move to `target` that rests after `n` firings leaves the environment. */
  function Reached<S, A>(fire: Behaviour<S, A>, env: Env<S, A>, target: real, n: nat): Env<S, A>
  {
    MoveTo(Fires(fire, env, target, n), target)
  }

  /** Where a move by `ms` that rests after `n` firings leaves the environment. */
  function Advanced<S, A>(fire: Behaviour<S, A>, env: Env<S, A>, ms: real, n: nat): Env<S, A>
  {
    Reached(fire, env, env.simulatedMs + ms, n)
  }

  lemma {:induction false} EarliestIs<A>(timers: seq<Timer<A>>, limit: real, best: Option<Timer<A>>)
    requires best.Some? ==> best.value.due <= limit
    ensures var r := Earliest(timers, limit, best);
            && (r.None? <==> best.None? && forall t :: t in timers ==> t.due > limit)
            && (r.Some? ==> (r.value in timers || r == best) && r.value.due <= limit)
            && (r.Some? ==> forall t :: t in timers && t.due <= limit ==> !Earlier(t, r.value))
            && (r.Some? && best.Some? ==> !Earlier(best.value, r.value))
    decreases |timers|
  {
    if timers != [] {
      var t := timers[0];
      EarliestIs(timers[1..], limit, if t.due <= limit && (best.None? || Earlier(t, best.value)) then Some(t) else best);
      assert forall u :: u in timers <==> u == t || u in timers[1..];
    }
  }

  /** Of the timers due by `limit`, `NextDue` is one that no other runs before. */
  lemma NextDueIs<A>(timers: seq<Timer<A>>, limit: real)
    ensures var r := NextDue(timers, limit);
            && (r.None? <==> forall t :: t in timers ==> t.due > limit)
            && (r.Some? ==> r.value in timers && r.value.due <= limit)
            && (r.Some? ==> forall t :: t in timers && t.due <= limit ==> !Earlier(t, r.value))
  {
    EarliestIs(timers, limit, None);
  }

  /** A later limit does not change which timer is next. */
  lemma {:induction false} SameNext<A>(timers: seq<Timer<A>>, near: real, far: real, best: Option<Timer<A>>, far': Option<Timer<A>>)
    requires near <= far
    requires best.Some? ==> far' == best && best.value.due <= near
    requires best.None? && far'.Some? ==> near < far'.value.due <= far
    ensures Earliest(timers, near, best).Some? ==> Earliest(timers, far, far') == Earliest(timers, near, best)
    decreases |timers|
  {
    if timers != [] {
      var t := timers[0];
      var best1 := if t.due <= near && (best.None? || Earlier(t, best.value)) then Some(t) else best;
      var far1 := if t.due <= far && (far'.None? || Earlier(t, far'.value)) then Some(t) else far';
      SameNext(timers[1..], near, far, best1, far1);
    }
  }

  /** Once a move rests, asking for more firings changes nothing. */
  lemma {:induction false} RestingStays<S, A>(fire: Behaviour<S, A>, env: Env<S, A>, target: real, n: nat, more: nat)
    requires Rests(fire, env, target, n) && n <= more
    ensures Fires(fire, env, target, more) == Fires(fire, env, target, n)
    decreases n
  {
    var next := NextDue(env.timers, target);
    if n > 0 && next.Some? {
      RestingStays(fire, Run(fire, MoveTo(env, next.value.due), next.value), target, n - 1, more - 1);
    }
  }

  /** Where a move leaves the environment does not depend on the number of firings it is given to end. */
  lemma AdvancedIsOne<S, A>(fire: Behaviour<S, A>, env: Env<S, A>, ms: real, n: nat, m: nat)
    requires Rests(fire, env, env.simulatedMs + ms, n) && Rests(fire, env, env.simulatedMs + ms, m)
    ensures Advanced(fire, env, ms, n) == Advanced(fire, env, ms, m)
  {
    if n <= m {
      RestingStays(fire, env, env.simulatedMs + ms, n, m);
    } else {
      RestingStays(fire, env, env.simulatedMs + ms, m, n);
    }
  }

  /** On its way to `far`, a move fires first exactly what a move to `near` fires. */
  lemma {:induction false} FiresNearFirst<S, A>(fire: Behaviour<S, A>, env: Env<S, A>, near: real, far: real, n: nat)
    returns (k: nat)
    requires near <= far && Rests(fire, env, far, n)
    ensures k <= n && Rests(fire, env, near, k)
    ensures Fires(fire, env, far, n) == Fires(fire, Fires(fire, env, near, k), far, n - k)
    decreases n
  {
    var next := NextDue(env.timers, near);
    if next.None? {
      k := 0;
    } else {
      SameNext(env.timers, near, far, None, None);
      var k' := FiresNearFirst(fire, Run(fire, MoveTo(env, next.value.due), next.value), near, far, n - 1);
      k := k' + 1;
    }
  }

  /** The other way round: firing up to `near` and on to `far` is firing up to `far`. */
  lemma {:induction false} FiresFurther<S, A>(fire: Behaviour<S, A>, env: Env<S, A>, near: real, far: real, k: nat, m: nat)
    returns (k': nat)
    requires near <= far && Rests(fire, env, near, k)
    ensures k' <= k && Fires(fire, env, far, k' + m) == Fires(fire, Fires(fire, env, near, k), far, m)
    decreases k
  {
    var next := NextDue(env.timers, near);
    if k == 0 || next.None? {
      k' := 0;
    } else {
      SameNext(env.timers, near, far, None, None);
      var less := FiresFurther(fire, Run(fire, MoveTo(env, next.value.due), next.value), near, far, k - 1, m);
      k' := less + 1;
    }
  }

  /** Standing still somewhere on the way changes nothing that fires later. */
  lemma MoveOnTheWay<S, A>(fire: Behaviour<S, A>, env: Env<S, A>, stop: real, target: real, n: nat)
    ensures Rests(fire, MoveTo(env, stop), target, n) <==> Rests(fire, env, target, n)
    ensures MoveTo(Fires(fire, MoveTo(env, stop), target, n), target) == MoveTo(Fires(fire, env, target, n), target)
  {
    var next := NextDue(env.timers, target);
    if n > 0 && next.Some? {
      assert MoveTo(MoveTo(env, stop), next.value.due) == MoveTo(env, next.value.due);
    }
  }

  lemma ReachedTwice<S, A>(fire: Behaviour<S, A>, env: Env<S, A>, near: real, far: real, n: nat) returns (k: nat)
    requires near <= far && Rests(fire, env, far, n)
    ensures k <= n && Rests(fire, env, near, k) && Rests(fire, Reached(fire, env, near, k), far, n - k)
    ensures Reached(fire, Reached(fire, env, near, k), far, n - k) == Reached(fire, env, far, n)
  {
    k := FiresNearFirst(fire, env, near, far, n);
    MoveOnTheWay(fire, Fires(fire, env, near, k), near, far, n - k);
  }

  /**
   Moving by `a` and then by `b` fires the same timers in the same states as moving by
   `a + b`, whatever the actions set and cancel on the way.
   */
  lemma AdvanceTwice<S, A>(fire: Behaviour<S, A>, env: Env<S, A>, a: real, b: real, n: nat) returns (k: nat)
    requires b >= 0.0 && Rests(fire, env, env.simulatedMs + a + b, n)
    ensures k <= n && Rests(fire, env, env.simulatedMs + a, k)
    ensures var mid := Advanced(fire, env, a, k);
            Rests(fire, mid, mid.simulatedMs + b, n - k)
            && Advanced(fire, mid, b, n - k) == Advanced(fire, env, a + b, n)
  {
    var near := env.simulatedMs + a;
    k := ReachedTwice(fire, env, near, near + b, n);
    assert Advanced(fire, env, a, k).simulatedMs == near;
  }

  /** If the move by `a` and the move by `b` after it both end, so does the move by `a + b`. */
  lemma AdvanceOnce<S, A>(fire: Behaviour<S, A>, env: Env<S, A>, a: real, b: real, k: nat, m: nat) returns (n: nat)
    requires b >= 0.0 && Rests(fire, env, env.simulatedMs + a, k)
    requires Rests(fire, Advanced(fire, env, a, k), env.simulatedMs + a + b, m)
    ensures Rests(fire, env, env.simulatedMs + a + b, n)
    ensures Advanced(fire, env, a + b, n) == Advanced(fire, Advanced(fire, env, a, k), b, m)
  {
    var near, far := env.simulatedMs + a, env.simulatedMs + a + b;
    MoveOnTheWay(fire, Fires(fire, env, near, k), near, far, m);
    var k' := FiresFurther(fire, env, near, far, k, m);
    n := k' + m;
  }

  // ---- The order of firing -----------------------------------------------------------------

  /** No action sets a timer in the past. */
  ghost predicate Patient<S(!new), A(!new)>(fire: Behaviour<S, A>)
  {
    forall action, app, clock, order, cmd ::
      cmd in fire(action, app, clock, order).1 && cmd.After? ==> cmd.ms >= 0.0
  }

  ghost predicate DistinctOrders<A>(timers: seq<Timer<A>>)
  {
    timers != [] ==> (forall t :: t in timers[1..] ==> t.order != timers[0].order) && DistinctOrders(timers[1..])
  }

  /** What holds in manual time: the timers lie ahead, and what fired fired in order and before them. */
  ghost predicate Orderly<S, A>(env: Env<S, A>)
  {
    && (forall t :: t in env.timers ==> t.order < env.timerOrder && t.due >= env.simulatedMs)
    && DistinctOrders(env.timers)
    && (forall i, j :: 0 <= i < j < |env.fired| ==> Earlier(env.fired[i], env.fired[j]))
    && (forall f, t :: f in env.fired && t in env.timers ==> Earlier(f, t))
    && (forall f :: f in env.fired ==> f.due <= env.simulatedMs && f.order < env.timerOrder)
  }

  lemma {:induction false} WithoutMember<A>(timers: seq<Timer<A>>, order: nat, t: Timer<A>)
    ensures t in Without(timers, order) <==> t in timers && t.order != order
  {
    if timers != [] {
      WithoutMember(timers[1..], order, t);
      assert t in timers <==> t == timers[0] || t in timers[1..];
      var head := if timers[0].order != order then [timers[0]] else [];
      assert Without(timers, order) == head + Without(timers[1..], order);
    }
  }

  /**
   Taking away an order takes its one timer and leaves the rest as they stood; an order no timer has
   changes nothing.
   */
  lemma {:induction false} WithoutTakesOne<A>(timers: seq<Timer<A>>, order: nat, i: nat)
    requires DistinctOrders(timers) && i <= |timers|
    requires i < |timers| ==> timers[i].order == order
    requires i == |timers| ==> forall t :: t in timers ==> t.order != order
    ensures Without(timers, order) == timers[..i] + if i < |timers| then timers[i + 1..] else []
    decreases |timers|
  {
    if timers != [] {
      var rest := timers[1..];
      if i == 0 {
        WithoutTakesOne(rest, order, |rest|);
        assert rest[..|rest|] + [] == rest;
      } else {
        assert i < |timers| ==> rest[i - 1] == timers[i] && rest[i - 1] in rest;
        WithoutTakesOne(rest, order, i - 1);
        assert timers[..i] == [timers[0]] + rest[..i - 1];
        assert i < |timers| ==> timers[i + 1..] == rest[i..];
      }
    }
  }

  lemma {:induction false} WithoutDistinct<A>(timers: seq<Timer<A>>, order: nat)
    requires DistinctOrders(timers)
    ensures DistinctOrders(Without(timers, order))
  {
    if timers != [] {
      WithoutDistinct(timers[1..], order);
      var rest := Without(timers[1..], order);
      forall t | t in rest ensures t.order != timers[0].order {
        WithoutMember(timers[1..], order, t);
      }
      if timers[0].order != order {
        assert Without(timers, order)[1..] == rest;
      } else {
        assert Without(timers, order) == rest;
      }
    }
  }

  lemma {:induction false} AppendDistinct<A>(timers: seq<Timer<A>>, t: Timer<A>)
    requires DistinctOrders(timers) && forall u :: u in timers ==> u.order != t.order
    ensures DistinctOrders(timers + [t])
  {
    if timers != [] {
      AppendDistinct(timers[1..], t);
      assert (timers + [t])[1..] == timers[1..] + [t];
    }
  }

  lemma DoOrderly<S, A>(env: Env<S, A>, cmd: Command<A>)
    requires Orderly(env) && (cmd.After? ==> cmd.ms >= 0.0)
    ensures Orderly(Do(env, cmd))
  {
    match cmd
    case After(ms, action) =>
      var t := Timer(env.simulatedMs + ms, env.timerOrder, action);
      AppendDistinct(env.timers, t);
    case Cancel(order) =>
      WithoutDistinct(env.timers, order);
      forall t | t in Without(env.timers, order) ensures t in env.timers {
        WithoutMember(env.timers, order, t);
      }
  }

  lemma {:induction false} ApplyOrderly<S, A>(env: Env<S, A>, cmds: seq<Command<A>>)
    requires Orderly(env) && forall cmd :: cmd in cmds && cmd.After? ==> cmd.ms >= 0.0
    ensures var r := Apply(env, cmds);
            Orderly(r) && r.fired == env.fired && r.simulatedMs == env.simulatedMs && r.clock == env.clock
    decreases |cmds|
  {
    if cmds != [] {
      assert cmds[0] in cmds && forall c :: c in cmds[1..] ==> c in cmds;
      DoOrderly(env, cmds[0]);
      ApplyOrderly(Do(env, cmds[0]), cmds[1..]);
    }
  }

  /** Running the timer that is next keeps everything in order. */
  lemma RunOrderly<S(!new), A(!new)>(fire: Behaviour<S, A>, env: Env<S, A>, target: real)
    requires Orderly(env) && Patient(fire) && NextDue(env.timers, target).Some?
    ensures var t := NextDue(env.timers, target).value;
            var r := Run(fire, MoveTo(env, t.due), t);
            && Orderly(r) && r.fired == env.fired + [t] && r.simulatedMs == t.due <= target
            && env.simulatedMs <= t.due && r.clock - r.simulatedMs == env.clock - env.simulatedMs
  {
    var t := NextDue(env.timers, target).value;
    NextDueIs(env.timers, target);
    var moved := MoveTo(env, t.due);
    var (app, cmds) := fire(t.action, moved.app, moved.clock, moved.timerOrder);
    var left := moved.(timers := Without(moved.timers, t.order), app := app, fired := moved.fired + [t]);
    WithoutDistinct(moved.timers, t.order);
    forall u | u in left.timers ensures u in env.timers && u.due >= t.due && Earlier(t, u) {
      WithoutMember(moved.timers, t.order, u);
      assert !Earlier(u, t) || u.due > target;
    }
    ApplyOrderly(left, cmds);
  }

  /**
   A move fires its timers by when they were due and then by when they were set, none before
   it starts or after it ends, and the clock moves with simulated time.
   */
  lemma {:induction false} FiresOrderly<S(!new), A(!new)>(fire: Behaviour<S, A>, env: Env<S, A>, target: real, n: nat)
    requires Orderly(env) && Patient(fire) && env.simulatedMs <= target
    ensures var r := Fires(fire, env, target, n);
            && Orderly(r) && env.simulatedMs <= r.simulatedMs <= target
            && r.clock - r.simulatedMs == env.clock - env.simulatedMs
            && env.fired <= r.fired
            && forall i :: |env.fired| <= i < |r.fired| ==> env.simulatedMs <= r.fired[i].due <= target
    decreases n
  {
    var next := NextDue(env.timers, target);
    if n > 0 && next.Some? {
      RunOrderly(fire, env, target);
      var env' := Run(fire, MoveTo(env, next.value.due), next.value);
      FiresOrderly(fire, env', target, n - 1);
      assert Fires(fire, env, target, n).fired[|env.fired|] == env'.fired[|env.fired|];
    }
  }

  /** A move by `ms` from `env` to `r` fired in order what was due, leaves nothing due, and moved the clock along. */
  ghost predicate MovedInOrder<S, A>(env: Env<S, A>, r: Env<S, A>, ms: real)
  {
    && Orderly(r) && r.simulatedMs == env.simulatedMs + ms && r.clock == env.clock + ms
    && (forall t :: t in r.timers ==> t.due > r.simulatedMs)
    && env.fired <= r.fired
    && forall i :: |env.fired| <= i < |r.fired| ==> env.simulatedMs <= r.fired[i].due <= r.simulatedMs
  }

  lemma {:induction false} AdvancedOrderly<S(!new), A(!new)>(fire: Behaviour<S, A>, env: Env<S, A>, ms: real, n: nat)
    requires Orderly(env) && Patient(fire) && ms >= 0.0 && Rests(fire, env, env.simulatedMs + ms, n)
    ensures MovedInOrder(env, Advanced(fire, env, ms, n), ms)
  {
    FiresOrderly(fire, env, env.simulatedMs + ms, n);
    NextDueIs(Fires(fire, env, env.simulatedMs + ms, n).timers, env.simulatedMs + ms);
  }

  // ---- When a move ends --------------------------------------------------------------------

  /** Every timer an action sets is due at least `delay` later. */
  ghost predicate Delays<S(!new), A(!new)>(fire: Behaviour<S, A>, delay: real)
  {
    forall action, app, clock, order, cmd ::
      cmd in fire(action, app, clock, order).1 && cmd.After? ==> cmd.ms >= delay
  }

  /** How many timers are due by `limit`. */
  function CountDue<A>(timers: seq<Timer<A>>, limit: real): nat
  {
    if timers == [] then 0 else (if timers[0].due <= limit then 1 else 0) + CountDue(timers[1..], limit)
  }

  lemma {:induction false} CountAppend<A>(timers: seq<Timer<A>>, t: Timer<A>, limit: real)
    ensures CountDue(timers + [t], limit) == CountDue(timers, limit) + if t.due <= limit then 1 else 0
  {
    if timers != [] {
      CountAppend(timers[1..], t, limit);
      assert (timers + [t])[1..] == timers[1..] + [t];
    } else {
      assert timers + [t] == [t];
    }
  }

  lemma {:induction false} CountWithout<A>(timers: seq<Timer<A>>, order: nat, limit: real)
    ensures CountDue(Without(timers, order), limit) <= CountDue(timers, limit)
    ensures (exists t :: t in timers && t.order == order && t.due <= limit)
        ==> CountDue(Without(timers, order), limit) < CountDue(timers, limit)
  {
    if timers != [] {
      CountWithout(timers[1..], order, limit);
      var rest := Without(timers[1..], order);
      assert forall t :: t in timers <==> t == timers[0] || t in timers[1..];
      if timers[0].order != order {
        assert Without(timers, order) == [timers[0]] + rest;
        assert ([timers[0]] + rest)[1..] == rest;
      } else {
        assert Without(timers, order) == rest;
      }
    }
  }

  lemma {:induction false} CountNone<A>(timers: seq<Timer<A>>, limit: real)
    ensures CountDue(timers, limit) == 0 <==> forall t :: t in timers ==> t.due > limit
  {
    if timers != [] {
      CountNone(timers[1..], limit);
      assert forall t :: t in timers <==> t == timers[0] || t in timers[1..];
    }
  }

  lemma {:induction false} ApplyCount<S, A>(env: Env<S, A>, cmds: seq<Command<A>>, limit: real)
    requires forall cmd :: cmd in cmds && cmd.After? ==> env.simulatedMs + cmd.ms > limit
    ensures CountDue(Apply(env, cmds).timers, limit) <= CountDue(env.timers, limit)
    ensures Apply(env, cmds).simulatedMs == env.simulatedMs
    decreases |cmds|
  {
    if cmds != [] {
      var cmd := cmds[0];
      assert cmd in cmds && forall c :: c in cmds[1..] ==> c in cmds;
      match cmd {
        case After(ms, action) =>
          CountAppend(env.timers, Timer(env.simulatedMs + ms, env.timerOrder, action), limit);
        case Cancel(order) =>
          CountWithout(env.timers, order, limit);
      }
      ApplyCount(Do(env, cmd), cmds[1..], limit);
    }
  }

  /**
   When no timer is set less than some positive delay ahead, every move ends: here, one that
   has timers due in the last `rounds` delays before its target.
   */
  lemma {:induction false} DelayedMoveRests<S(!new), A(!new)>(
    fire: Behaviour<S, A>, env: Env<S, A>, target: real, delay: real, rounds: nat) returns (n: nat)
    requires delay > 0.0 && Delays(fire, delay)
    requires forall t :: t in env.timers ==> t.due > target - rounds as real * delay
    ensures Rests(fire, env, target, n)
    decreases rounds, CountDue(env.timers, target - (rounds - 1) as real * delay)
  {
    NextDueIs(env.timers, target);
    var next := NextDue(env.timers, target);
    if rounds == 0 || next.None? {
      n := 0;
    } else {
      var limit := target - (rounds - 1) as real * delay;
      CountNone(env.timers, limit);
      if CountDue(env.timers, limit) == 0 {
        n := DelayedMoveRests(fire, env, target, delay, rounds - 1);
      } else {
        var env' := RoundStep(fire, env, target, delay, rounds);
        var m := DelayedMoveRests(fire, env', target, delay, rounds);
        n := m + 1;
      }
    }
  }

  /** One firing in a round: one timer fewer is due in it, and none is set before it. */
  lemma RoundStep<S(!new), A(!new)>(fire: Behaviour<S, A>, env: Env<S, A>, target: real, delay: real, rounds: nat)
    returns (env': Env<S, A>)
    requires delay > 0.0 && Delays(fire, delay) && rounds > 0
    requires forall t :: t in env.timers ==> t.due > target - rounds as real * delay
    requires NextDue(env.timers, target).Some?
    requires CountDue(env.timers, target - (rounds - 1) as real * delay) > 0
    ensures env' == Run(fire, MoveTo(env, NextDue(env.timers, target).value.due), NextDue(env.timers, target).value)
    ensures forall t :: t in env'.timers ==> t.due > target - rounds as real * delay
    ensures var limit := target - (rounds - 1) as real * delay;
            CountDue(env'.timers, limit) < CountDue(env.timers, limit)
  {
    var t := NextDue(env.timers, target).value;
    var limit, low := target - (rounds - 1) as real * delay, target - rounds as real * delay;
    assert limit == low + delay;
    NextDueIs(env.timers, target);
    CountNone(env.timers, limit);
    assert t.due <= limit;
    var moved := MoveTo(env, t.due);
    var (app, cmds) := fire(t.action, moved.app, moved.clock, moved.timerOrder);
    var left := moved.(timers := Without(moved.timers, t.order), app := app, fired := moved.fired + [t]);
    CountWithout(env.timers, t.order, limit);
    CountWithout(env.timers, t.order, low);
    CountNone(env.timers, low);
    ApplyCount(left, cmds, limit);
    ApplyCount(left, cmds, low);
    env' := Run(fire, moved, t);
    CountNone(env'.timers, low);
  }

  lemma EveryDelayedMoveRests<S(!new), A(!new)>(fire: Behaviour<S, A>, env: Env<S, A>, target: real, delay: real)
    returns (n: nat)
    requires delay > 0.0 && Delays(fire, delay)
    ensures Rests(fire, env, target, n)
  {
    var low := BelowAll(env.timers);
    var rounds := EnoughRounds(target - low, delay);
    n := DelayedMoveRests(fire, env, target, delay, rounds);
  }

  lemma {:induction false} BelowAll<A>(timers: seq<Timer<A>>) returns (low: real)
    ensures forall t :: t in timers ==> t.due >= low
  {
    if timers == [] {
      low := 0.0;
    } else {
      low := BelowAll(timers[1..]);
      if timers[0].due < low {
        low := timers[0].due;
      }
      assert forall t :: t in timers ==> t == timers[0] || t in timers[1..];
    }
  }

  lemma EnoughRounds(span: real, delay: real) returns (rounds: nat)
    requires delay > 0.0
    ensures rounds as real * delay > span
  {
    var share := span / delay;
    rounds := if share < 0.0 then 1 else share.Floor + 1;
    assert rounds as real > share;
    assert share * delay == span;
  }

  /** What an action that sets itself again at once does. */
  function Again(action: int, app: int, clock: real, order: nat): (int, seq<Command<int>>)
  {
    (app, [After(0.0, action)])
  }

  /** Such an action holds every move for ever: the move needs a positive delay to end. */
  lemma {:induction false} ZeroDelayNeverRests(env: Env<int, int>, target: real, n: nat)
    requires |env.timers| == 1 && env.timers[0].due <= target
    ensures !Rests(Again, env, target, n)
    decreases n
  {
    var t := env.timers[0];
    NextDueIs(env.timers, target);
    assert NextDue(env.timers, target) == Some(t);
    if n > 0 {
      var moved := MoveTo(env, t.due);
      var left := moved.(timers := Without(moved.timers, t.order), fired := moved.fired + [t]);
      assert env.timers == [t] && env.timers[1..] == [];
      assert left.timers == [] + Without(env.timers[1..], t.order) == [];
      var env' := Run(Again, moved, t);
      var cmd: Command<int> := After(0.0, t.action);
      assert [cmd][1..] == [];
      assert env' == Apply(left, [cmd]) == Apply(Do(left, cmd), []) == Do(left, cmd);
      ZeroDelayNeverRests(env', target, n - 1);
    } else {
      NextDueIs(Fires(Again, env, target, 0).timers, target);
    }
  }

  // ---- Switching how time passes -----------------------------------------------------------

  datatype Mode = Scaled | Manual

  function Later(a: real): real
  {
    if a > 0.0 then a else 0.0
  }

  function InManual<A>(t: Timer<A>, now: real, scale: real): Timer<A>
  {
    t.(due := if scale > 0.0 then Later(t.due - now) / scale else 0.0)
  }

  function OnWallClock<A>(t: Timer<A>, simulatedMs: real, now: real, scale: real): Timer<A>
  {
    t.(due := now + Later(t.due - simulatedMs) * scale)
  }

  /** The timers as they go into manual time, from wall-clock instants at `now`. */
  function IntoManual<A>(timers: seq<Timer<A>>, now: real, scale: real): seq<Timer<A>>
  {
    if timers == [] then []
    else [InManual(timers[0], now, scale)] + IntoManual(timers[1..], now, scale)
  }

  /** The timers as they go onto the wall clock at `now`, from simulated time `simulatedMs`. */
  function OntoWallClock<A>(timers: seq<Timer<A>>, simulatedMs: real, now: real, scale: real): seq<Timer<A>>
  {
    if timers == [] then []
    else [OnWallClock(timers[0], simulatedMs, now, scale)]
         + OntoWallClock(timers[1..], simulatedMs, now, scale)
  }

  lemma {:induction false} IntoManualAt<A>(timers: seq<Timer<A>>, now: real, scale: real, i: nat)
    requires i < |timers|
    ensures var r := IntoManual(timers, now, scale);
            |r| == |timers| && r[i] == InManual(timers[i], now, scale)
  {
    if i > 0 {
      IntoManualAt(timers[1..], now, scale, i - 1);
    } else if |timers| > 1 {
      IntoManualAt(timers[1..], now, scale, 0);
    }
  }

  lemma {:induction false} OntoWallClockAt<A>(timers: seq<Timer<A>>, simulatedMs: real, now: real, scale: real, i: nat)
    requires i < |timers|
    ensures var r := OntoWallClock(timers, simulatedMs, now, scale);
            |r| == |timers| && r[i] == OnWallClock(timers[i], simulatedMs, now, scale)
  {
    if i > 0 {
      OntoWallClockAt(timers[1..], simulatedMs, now, scale, i - 1);
    } else if |timers| > 1 {
      OntoWallClockAt(timers[1..], simulatedMs, now, scale, 0);
    }
  }

  /**
   Out of manual time, `waited` milliseconds on the wall clock, and back: a timer has what was
   left of its delay, less its share of the wait at this scale.
   */
  lemma ThroughWallClock<A>(timers: seq<Timer<A>>, simulatedMs: real, now: real, waited: real, scale: real, i: nat)
    requires i < |timers| && scale > 0.0 && waited >= 0.0
    ensures var r := IntoManual(OntoWallClock(timers, simulatedMs, now, scale), now + waited, scale);
            |r| == |timers| && r[i].order == timers[i].order && r[i].action == timers[i].action
            && r[i].due == Later(Later(timers[i].due - simulatedMs) - waited / scale)
  {
    var wall := OntoWallClock(timers, simulatedMs, now, scale);
    OntoWallClockAt(timers, simulatedMs, now, scale, i);
    IntoManualAt(wall, now + waited, scale, i);
    OneThroughWallClock(timers[i], simulatedMs, now, waited, scale);
  }

  lemma OneThroughWallClock<A>(t: Timer<A>, simulatedMs: real, now: real, waited: real, scale: real)
    requires scale > 0.0
    ensures InManual(OnWallClock(t, simulatedMs, now, scale), now + waited, scale)
         == t.(due := Later(Later(t.due - simulatedMs) - waited / scale))
  {
    WaitShare(Later(t.due - simulatedMs), now, waited, scale);
  }

  lemma WaitShare(left: real, now: real, waited: real, scale: real)
    requires scale > 0.0
    ensures Later(now + left * scale - (now + waited)) / scale == Later(left - waited / scale)
  {
    Share(left, waited, scale);
    Rescaled(left - waited / scale, scale);
    var scaled := left * scale;
    assert now + scaled - (now + waited) == scaled - waited;
  }

  lemma Share(left: real, waited: real, scale: real)
    requires scale > 0.0
    ensures left * scale - waited == (left - waited / scale) * scale
  {
    var part := waited / scale;
    assert part * scale == waited;
  }

  lemma Rescaled(x: real, scale: real)
    requires scale > 0.0
    ensures Later(x * scale) / scale == Later(x)
  {
    if x > 0.0 {
      assert x * scale > 0.0;
    } else {
      assert x * scale <= 0.0;
    }
  }

  /**
   A switch and back at one instant keeps every delay exactly when the scale is not zero, or nothing
   was left to wait.
   */
  lemma {:induction false} SwitchAndBack<A>(timers: seq<Timer<A>>, simulatedMs: real, now: real, scale: real)
    requires scale >= 0.0
    ensures var r := IntoManual(OntoWallClock(timers, simulatedMs, now, scale), now, scale);
            |r| == |timers|
            && ((forall i :: 0 <= i < |timers| ==> r[i].due == Later(timers[i].due - simulatedMs))
                <==> scale > 0.0 || (forall t :: t in timers ==> t.due <= simulatedMs))
  {
    var wall := OntoWallClock(timers, simulatedMs, now, scale);
    var r := IntoManual(wall, now, scale);
    if timers == [] {
      assert wall == [] && r == [];
    } else {
      OntoWallClockAt(timers, simulatedMs, now, scale, 0);
      IntoManualAt(wall, now, scale, 0);
    }
    forall i | 0 <= i < |timers|
      ensures r[i].due == if scale > 0.0 then Later(timers[i].due - simulatedMs) else 0.0
    {
      OntoWallClockAt(timers, simulatedMs, now, scale, i);
      IntoManualAt(wall, now, scale, i);
      if scale > 0.0 {
        ThroughWallClock(timers, simulatedMs, now, 0.0, scale, i);
      }
    }
    if scale == 0.0 && forall i :: 0 <= i < |timers| ==> r[i].due == Later(timers[i].due - simulatedMs) {
      forall t | t in timers ensures t.due <= simulatedMs {
        var i :| 0 <= i < |timers| && timers[i] == t;
        assert r[i].due == 0.0;
      }
    }
  }

  /** At scale zero a switch and back leaves a timer nothing to wait. */
  lemma SwitchForgetsDelay<A>(action: A, now: real)
    ensures var timers := [Timer(5.0, 0, action)];
            IntoManual(OntoWallClock(timers, 0.0, now, 0.0), now, 0.0) == [Timer(0.0, 0, action)]
  {
    var timers := [Timer(5.0, 0, action)];
    assert timers[1..] == [];
    var wall := OnWallClock(timers[0], 0.0, now, 0.0);
    assert OntoWallClock(timers, 0.0, now, 0.0) == [wall] && [wall][1..] == [];
  }
}
