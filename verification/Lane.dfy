/**
 The workbench SDK's request lanes. A lane has `limit` slots, and a queue of callers for them.
 Callers are numbered by arrival.

 A caller holds a slot from when it is granted until its task ends, well or not. A task that
 ends hands its slot over before the caller it goes to has resumed, so the steps here are the
 grants, not the resumptions.
 */
module Lane {
  import opened Util

  datatype Lane = Lane(
    limit: nat,
    active: nat,
    waiting: seq<nat>,
    /** The callers that hold a slot. */
    holders: set<nat>,
    /** The callers that were granted one, by when. */
    granted: seq<nat>,
    arrived: nat)

  datatype Event = Call | Done(caller: nat)

  function New(limit: nat): Lane
  {
    Lane(limit, 0, [], {}, [], 0)
  }

  function Step(l: Lane, e: Event): Lane
  {
    match e
    case Call =>
      var caller := l.arrived;
      if l.active >= l.limit then l.(waiting := l.waiting + [caller], arrived := caller + 1)
      else l.(active := l.active + 1, holders := l.holders + {caller}, granted := l.granted + [caller],
              arrived := caller + 1)
    case Done(caller) =>
      if caller !in l.holders then l
      else if l.waiting != [] then
        l.(waiting := l.waiting[1..], holders := l.holders - {caller} + {l.waiting[0]},
           granted := l.granted + [l.waiting[0]])
      else l.(active := if l.active > 0 then l.active - 1 else 0, holders := l.holders - {caller})
  }

  function Run(l: Lane, events: seq<Event>): Lane
    decreases |events|
  {
    if events == [] then l else Run(Step(l, events[0]), events[1..])
  }

  function UpTo(n: nat): seq<nat>
  {
    seq(n, i => i)
  }

  ghost predicate Valid(l: Lane)
  {
    && l.active == |l.holders| && l.active <= l.limit
    && (l.waiting != [] ==> l.active == l.limit)
    && l.granted + l.waiting == UpTo(l.arrived)
    && (forall c :: c in l.holders ==> c in l.granted)
  }

  lemma NotYetGranted(l: Lane, c: nat)
    requires Valid(l) && c in l.waiting
    ensures c !in l.granted
  {
    var all := l.granted + l.waiting;
    var i :| 0 <= i < |l.waiting| && l.waiting[i] == c;
    assert all[|l.granted| + i] == |l.granted| + i == c;
    forall j | 0 <= j < |l.granted| ensures l.granted[j] != c {
      assert all[j] == j;
    }
  }

  lemma StepValid(l: Lane, e: Event)
    requires Valid(l)
    ensures Valid(Step(l, e)) && Step(l, e).limit == l.limit
  {
    var r := Step(l, e);
    match e
    case Call =>
      assert UpTo(l.arrived + 1) == UpTo(l.arrived) + [l.arrived];
      if l.active < l.limit {
        assert l.waiting == [] && l.granted == UpTo(l.arrived);
        assert forall c :: c in UpTo(l.arrived) ==> c < l.arrived;
        assert l.arrived !in l.holders;
        assert r.granted + r.waiting == UpTo(r.arrived);
      } else {
        Associative(l.granted, l.waiting, [l.arrived]);
      }
    case Done(caller) =>
      if caller in l.holders && l.waiting != [] {
        var next := l.waiting[0];
        NotYetGranted(l, next);
        assert next !in l.holders;
        assert l.waiting == [next] + l.waiting[1..];
        Associative(l.granted, [next], l.waiting[1..]);
      }
  }

  /**
   In every interleaving, `active` counts the callers that hold a slot and stays within the
   limit, callers wait only while every slot is held, and slots go out in the order of arrival.
   */
  lemma {:induction false} RunValid(l: Lane, events: seq<Event>)
    requires Valid(l)
    ensures Valid(Run(l, events)) && Run(l, events).limit == l.limit
    decreases |events|
  {
    if events != [] {
      StepValid(l, events[0]);
      RunValid(Step(l, events[0]), events[1..]);
    }
  }

  /** The tasks that hold slots ending one after the other brings every waiting caller its slot. */
  lemma {:induction false} Drains(l: Lane) returns (ends: seq<Event>)
    requires Valid(l) && l.limit > 0
    ensures forall e :: e in ends ==> e.Done?
    ensures Run(l, ends).waiting == [] && Run(l, ends).holders == {} && Run(l, ends).arrived == l.arrived
    decreases |l.waiting|, l.active
  {
    if l.holders == {} {
      ends := [];
    } else {
      var caller :| caller in l.holders;
      StepValid(l, Done(caller));
      var rest := Drains(Step(l, Done(caller)));
      ends := [Done(caller)] + rest;
      assert ends[1..] == rest;
    }
  }

  /** With no slots nobody is ever granted one. */
  lemma {:induction false} NoSlots(l: Lane, events: seq<Event>)
    requires Valid(l) && l.limit == 0 && l.granted == []
    ensures Run(l, events).granted == []
    decreases |events|
  {
    if events != [] {
      assert l.holders == {};
      StepValid(l, events[0]);
      NoSlots(Step(l, events[0]), events[1..]);
    }
  }

  /** Every caller can come to its slot exactly when the limit is at least 1. */
  lemma ServesEveryoneIffSlots(limit: nat)
    ensures (forall events :: Serves(limit, events)) <==> limit > 0
  {
    assert UpTo(0) == [];
    assert Valid(New(limit));
    if limit > 0 {
      forall events ensures Serves(limit, events) {
        RunValid(New(limit), events);
        var l := Run(New(limit), events);
        var ends := Drains(l);
        RunValid(l, ends);
        assert ServesAll(l, ends);
      }
    } else {
      var l := Run(New(limit), [Call]);
      assert l == Run(Step(New(limit), Call), []) == Step(New(limit), Call);
      assert l.arrived == 1 && l.granted == [];
      StepValid(New(limit), Call);
      assert |UpTo(1)| == 1;
      forall ends ensures !ServesAll(l, ends) {
        NoSlots(l, ends);
      }
      assert !Serves(limit, [Call]);
    }
  }

  /** After `ends` every caller that had arrived has had its slot. */
  ghost predicate ServesAll(l: Lane, ends: seq<Event>)
  {
    Run(l, ends).granted == UpTo(l.arrived)
  }

  /** However a lane was used, the tasks in it can end so that every caller has had its slot. */
  ghost predicate Serves(limit: nat, events: seq<Event>)
  {
    exists ends :: ServesAll(Run(New(limit), events), ends)
  }

  /** The limiter itself: what `lane(limit)` closes over. */
  class Limiter {
    const limit: nat
    var active: nat
    var waiting: seq<nat>
    var arrived: nat
    ghost var holders: set<nat>
    ghost var granted: seq<nat>

    constructor (limit: nat)
      ensures State() == New(limit) && Valid(State())
    {
      this.limit := limit;
      active, waiting, arrived, holders, granted := 0, [], 0, {}, [];
    }

    ghost function State(): Lane
      reads this
    {
      Lane(limit, active, waiting, holders, granted, arrived)
    }

    /** A caller arrives: it gets a slot, or waits for one. */
    method Enter() returns (caller: nat, slot: bool)
      requires Valid(State())
      modifies this
      ensures State() == Step(old(State()), Call) && Valid(State())
      ensures caller == old(arrived) && (slot <==> caller in holders)
    {
      StepValid(State(), Call);
      caller := arrived;
      arrived := arrived + 1;
      if active >= limit {
        waiting := waiting + [caller];
        slot := false;
        assert waiting[|waiting| - 1] == caller;
        NotYetGranted(State(), caller);
      } else {
        active := active + 1;
        holders := holders + {caller};
        granted := granted + [caller];
        slot := true;
      }
    }

    /** A task ended: its slot goes to the caller that waited longest, or is free. */
    method Leave(caller: nat) returns (next: Option<nat>)
      requires Valid(State()) && caller in holders
      modifies this
      ensures State() == Step(old(State()), Done(caller)) && Valid(State())
      ensures next == if old(waiting) == [] then None else Some(old(waiting)[0])
    {
      StepValid(State(), Done(caller));
      holders := holders - {caller};
      if waiting != [] {
        next := Some(waiting[0]);
        waiting := waiting[1..];
        holders := holders + {next.value};
        granted := granted + [next.value];
      } else {
        next := None;
        active := active - 1;
      }
    }
  }
}
