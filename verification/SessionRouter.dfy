/**
 How the workbench SDK finds the handle for a frame. A page learns the address of a session it
 starts from the reply, which frames of that session may overtake. The router buffers what has no
 handle until the last start has its reply.

 A session is named by its key (agent and address). `handles` lists the handles made, each with
 the frames it was given when it was made (`early`) and those its route emitted since (`live`).
 */
module SessionRouter {
  import opened Util

  datatype Handle<F> = Handle(key: string, early: seq<F>, live: seq<F>)

  datatype Kept<F> = Kept(key: string, frame: F)

  datatype Router<F> = Router(
    /** The starts counted as in flight. */
    pending: set<nat>,
    unclaimed: seq<Kept<F>>,
    /** For each key a handle was made for, the newest such handle. */
    routes: map<string, nat>,
    handles: seq<Handle<F>>)

  datatype Event<F> =
    | Begin(start: nat)
    | Started(start: nat, key: string)
    | Failed(start: nat)
    | Received(key: string, frame: F)
    | Follow(key: string)

  function New<F>(): Router<F>
  {
    Router({}, [], map[], [])
  }

  function FramesOf<F>(kept: seq<Kept<F>>, key: string): seq<F>
  {
    if kept == [] then []
    else (if kept[0].key == key then [kept[0].frame] else []) + FramesOf(kept[1..], key)
  }

  /** A start is over: the buffer empties when it was the last. */
  function Ended<F>(r: Router<F>, start: nat): Router<F>
  {
    var left := r.pending - {start};
    r.(pending := left, unclaimed := if left == {} then [] else r.unclaimed)
  }

  function AddHandle<F>(r: Router<F>, key: string, early: seq<F>): Router<F>
  {
    r.(handles := r.handles + [Handle(key, early, [])], routes := r.routes[key := |r.handles|])
  }

  function Step<F>(r: Router<F>, e: Event<F>): Router<F>
  {
    match e
    case Begin(start) => r.(pending := r.pending + {start})
    case Started(start, key) => AddHandle(Ended(r, start), key, FramesOf(r.unclaimed, key))
    case Failed(start) => Ended(r, start)
    case Received(key, frame) =>
      if key in r.routes then
        var at := r.routes[key];
        if at < |r.handles| then
          r.(handles := r.handles[at := r.handles[at].(live := r.handles[at].live + [frame])])
        else r
      else if r.pending != {} then r.(unclaimed := r.unclaimed + [Kept(key, frame)])
      else r
    case Follow(key) => AddHandle(r, key, [])
  }

  /** The router after a trace, the latest event last. */
  function Run<F>(trace: seq<Event<F>>): Router<F>
  {
    if trace == [] then New() else Step(Run(trace[..|trace| - 1]), trace[|trace| - 1])
  }

  // ---- Traces ------------------------------------------------------------------------------

  /** A start begins once, and ends once while it is in flight. */
  ghost predicate WellFormed<F>(trace: seq<Event<F>>)
  {
    trace != [] ==>
      var before, e := trace[..|trace| - 1], trace[|trace| - 1];
      && WellFormed(before)
      && (e.Begin? ==> e !in before)
      && (e.Started? || e.Failed? ==> e.start in Run(before).pending)
  }

  /** The frames the trace brings for `key`. */
  function Frames<F>(trace: seq<Event<F>>, key: string): seq<F>
  {
    if trace == [] then []
    else
      Frames(trace[..|trace| - 1], key) +
      if trace[|trace| - 1].Received? && trace[|trace| - 1].key == key then [trace[|trace| - 1].frame] else []
  }

  /** The frames for `key` since no start was last in flight; none when none is. */
  function Waited<F>(trace: seq<Event<F>>, key: string): seq<F>
  {
    if trace == [] then []
    else
      var before, e := trace[..|trace| - 1], trace[|trace| - 1];
      if Run(trace).pending == {} then []
      else Waited(before, key) + if e.Received? && e.key == key then [e.frame] else []
  }

  /** Whether `e` makes a handle for `key`. */
  predicate Claims<F>(e: Event<F>, key: string)
  {
    (e.Started? || e.Follow?) && e.key == key
  }

  // ---- The buffer --------------------------------------------------------------------------

  lemma RunStep<F>(trace: seq<Event<F>>, e: Event<F>)
    ensures Run(trace + [e]) == Step(Run(trace), e)
  {
    assert (trace + [e])[..|trace|] == trace;
  }

  /** The buffer is empty whenever no start is in flight, and every route leads to a handle of its key. */
  lemma {:induction false} RouterValid<F>(trace: seq<Event<F>>)
    ensures var r := Run(trace);
            && (r.pending == {} ==> r.unclaimed == [])
            && (forall key :: key in r.routes ==> r.routes[key] < |r.handles| && r.handles[r.routes[key]].key == key)
  {
    if trace != [] {
      RouterValid(trace[..|trace| - 1]);
    }
  }

  lemma {:induction false} FramesOfAppend<F>(kept: seq<Kept<F>>, more: Kept<F>, key: string)
    ensures FramesOf(kept + [more], key) == FramesOf(kept, key) + if more.key == key then [more.frame] else []
  {
    if kept == [] {
      assert kept + [more] == [more] && [more][1..] == [];
    } else {
      FramesOfAppend(kept[1..], more, key);
      assert (kept + [more])[1..] == kept[1..] + [more];
      Associative(if kept[0].key == key then [kept[0].frame] else [], FramesOf(kept[1..], key),
                  if more.key == key then [more.frame] else []);
    }
  }

  ghost predicate Unclaimed<F>(trace: seq<Event<F>>, key: string)
  {
    forall i :: 0 <= i < |trace| ==> !Claims(trace[i], key)
  }

  lemma {:induction false} NoRoute<F>(trace: seq<Event<F>>, key: string)
    requires Unclaimed(trace, key)
    ensures key !in Run(trace).routes
  {
    if trace != [] {
      NoRoute(trace[..|trace| - 1], key);
      assert !Claims(trace[|trace| - 1], key);
    }
  }

  /** For a key no handle claimed, the buffer holds its frames since starts were last all over. */
  lemma {:induction false} BufferHoldsWaited<F>(trace: seq<Event<F>>, key: string)
    requires Unclaimed(trace, key)
    ensures FramesOf(Run(trace).unclaimed, key) == Waited(trace, key)
  {
    RouterValid(trace);
    if trace != [] {
      var before, e := trace[..|trace| - 1], trace[|trace| - 1];
      BufferHoldsWaited(before, key);
      NoRoute(before, key);
      RouterValid(before);
      assert !Claims(e, key);
      var r := Run(before);
      if Run(trace).pending != {} && e.Received? && e.key !in r.routes {
        FramesOfAppend(r.unclaimed, Kept(e.key, e.frame), key);
      }
    }
  }

  // ---- What a handle is given --------------------------------------------------------------

  /** The frames a handle's owner is given. */
  function Delivered<F>(h: Handle<F>): seq<F>
  {
    h.early + h.live
  }

  /** A start is in flight after `trace`, and as `more` follows. */
  ghost predicate InFlightDuring<F>(trace: seq<Event<F>>, more: seq<Event<F>>, start: nat)
  {
    forall i :: 0 <= i <= |more| ==> start in Run(trace + more[..i]).pending
  }

  /** While a start is in flight, frames only add up. */
  lemma {:induction false} WaitedSince<F>(trace: seq<Event<F>>, more: seq<Event<F>>, start: nat, key: string)
    requires InFlightDuring(trace, more, start)
    ensures Waited(trace + more, key) == Waited(trace, key) + Frames(more, key)
    decreases |more|
  {
    if more == [] {
      assert trace + more == trace;
    } else {
      var most, e := more[..|more| - 1], more[|more| - 1];
      forall i | 0 <= i <= |most| ensures start in Run(trace + most[..i]).pending {
        assert most[..i] == more[..i];
      }
      WaitedSince(trace, most, start, key);
      assert trace + more == (trace + most) + [e];
      assert (trace + more)[..|trace + more| - 1] == trace + most;
      assert more[..|more|] == more;
      Associative(Waited(trace, key), Frames(most, key), if e.Received? && e.key == key then [e.frame] else []);
    }
  }

  /** A start begun and not over yet is in flight. */
  lemma {:induction false} StaysPending<F>(trace: seq<Event<F>>, begun: nat, start: nat)
    requires begun < |trace| && trace[begun] == Begin(start)
    requires forall i :: begun < i < |trace| && (trace[i].Started? || trace[i].Failed?) ==> trace[i].start != start
    ensures start in Run(trace).pending
    decreases |trace|
  {
    if begun < |trace| - 1 {
      StaysPending(trace[..|trace| - 1], begun, start);
    }
  }

  /** Once a key has its handle, and no other is made for it, the handle's route emits each of its frames. */
  lemma {:induction false} LiveFrames<F>(trace: seq<Event<F>>, more: seq<Event<F>>, key: string, at: nat)
    requires var r := Run(trace); key in r.routes && r.routes[key] == at
    requires Unclaimed(more, key)
    ensures at < |Run(trace).handles| && GivenSince(Run(trace), Run(trace + more), key, at, Frames(more, key))
    decreases |more|
  {
    RouterValid(trace);
    if more == [] {
      assert trace + more == trace;
    } else {
      var most, e := more[..|more| - 1], more[|more| - 1];
      LiveFrames(trace, most, key, at);
      assert !Claims(e, key);
      assert trace + more == (trace + most) + [e];
      RunStep(trace + most, e);
      RouterValid(trace + most);
      LiveMore(Run(trace), Run(trace + most), e, key, at, Frames(most, key));
    }
  }

  /** The route still leads to the handle `at`, which was given `frames` since. */
  ghost predicate GivenSince<F>(r: Router<F>, s: Router<F>, key: string, at: nat, frames: seq<F>)
    requires at < |r.handles|
  {
    && key in s.routes && s.routes[key] == at && at < |s.handles|
    && s.handles[at] == r.handles[at].(live := r.handles[at].live + frames)
  }

  lemma LiveMore<F>(r: Router<F>, s: Router<F>, e: Event<F>, key: string, at: nat, frames: seq<F>)
    requires at < |r.handles| && GivenSince(r, s, key, at, frames) && !Claims(e, key)
    requires forall k :: k in s.routes && s.routes[k] == at ==> k == key
    ensures GivenSince(r, Step(s, e), key, at, frames + if e.Received? && e.key == key then [e.frame] else [])
  {
    Associative(r.handles[at].live, frames, if e.Received? && e.key == key then [e.frame] else []);
  }

  /** A start that is over stays over: it began before, and begins only once. */
  lemma {:induction false} StaysOver<F>(trace: seq<Event<F>>, begun: nat, over: nat, start: nat)
    requires WellFormed(trace) && begun < over < |trace| && trace[begun] == Begin(start)
    requires (trace[over].Started? || trace[over].Failed?) && trace[over].start == start
    ensures start !in Run(trace).pending
    decreases |trace|
  {
    if over < |trace| - 1 {
      var before, e := trace[..|trace| - 1], trace[|trace| - 1];
      assert before[begun] == Begin(start);
      StaysOver(before, begun, over, start);
      assert e != Begin(start);
    }
  }

  lemma {:induction false} WellFormedPrefix<F>(trace: seq<Event<F>>, n: nat)
    requires WellFormed(trace) && n <= |trace|
    ensures WellFormed(trace[..n])
  {
    if n < |trace| {
      WellFormedPrefix(trace[..|trace| - 1], n);
      assert trace[..|trace| - 1][..n] == trace[..n];
    } else {
      assert trace[..n] == trace;
    }
  }

  lemma {:induction false} FramesAppend<F>(a: seq<Event<F>>, b: seq<Event<F>>, key: string)
    ensures Frames(a + b, key) == Frames(a, key) + Frames(b, key)
    decreases |b|
  {
    if b == [] {
      assert a + b == a;
    } else {
      var most, e := b[..|b| - 1], b[|b| - 1];
      FramesAppend(a, most, key);
      assert (a + b)[..|a + b| - 1] == a + most;
      Associative(Frames(a, key), Frames(most, key), if e.Received? && e.key == key then [e.frame] else []);
    }
  }

  /** Between its beginning and its end a start is in flight. */
  lemma PendingBetween<F>(trace: seq<Event<F>>, begun: nat, start: nat, n: nat)
    requires WellFormed(trace) && begun < n <= |trace| && trace[begun] == Begin(start)
    requires start in Run(trace).pending
    ensures start in Run(trace[..n]).pending
  {
    var prefix := trace[..n];
    forall k | begun < k < |prefix| && (prefix[k].Started? || prefix[k].Failed?) ensures prefix[k].start != start {
      if prefix[k].start == start {
        StaysOver(trace, begun, k, start);
      }
    }
    StaysPending(prefix, begun, start);
  }

  /** While a start is in flight, what its key waited for since it was counted adds up. */
  lemma {:induction false} WaitedFrom<F>(trace: seq<Event<F>>, begun: nat, start: nat, key: string)
    requires WellFormed(trace) && begun < |trace| && trace[begun] == Begin(start)
    requires start in Run(trace).pending
    ensures Waited(trace, key) == Waited(trace[..begun], key) + Frames(trace[begun + 1..], key)
  {
    var first, more := trace[..begun + 1], trace[begun + 1..];
    PendingThroughout(trace, begun, start);
    WaitedSince(first, more, start, key);
    assert first + more == trace && first[..|first| - 1] == trace[..begun];
  }

  /** What a start waited for, from when it was counted to when its reply came. */
  lemma {:induction false} WaitedForStart<F>(trace: seq<Event<F>>, begun: nat, started: nat, start: nat, key: string)
    requires WellFormed(trace) && begun < started < |trace|
    requires trace[begun] == Begin(start) && trace[started] == Started(start, key)
    ensures Waited(trace[..started], key) == Waited(trace[..begun], key) + Frames(trace[begun + 1..started], key)
  {
    var before := trace[..started];
    WellFormedPrefix(trace, started);
    PendingAtReply(trace, started, start, key);
    WaitedFrom(before, begun, start, key);
    assert before[..begun] == trace[..begun] && before[begun + 1..] == trace[begun + 1..started];
  }

  lemma PendingAtReply<F>(trace: seq<Event<F>>, started: nat, start: nat, key: string)
    requires WellFormed(trace) && started < |trace| && trace[started] == Started(start, key)
    ensures start in Run(trace[..started]).pending
  {
    WellFormedPrefix(trace, started + 1);
    assert trace[..started + 1][..started] == trace[..started];
  }

  lemma {:induction false} PendingThroughout<F>(trace: seq<Event<F>>, begun: nat, start: nat)
    requires WellFormed(trace) && begun < |trace| && trace[begun] == Begin(start)
    requires start in Run(trace).pending
    ensures InFlightDuring(trace[..begun + 1], trace[begun + 1..], start)
  {
    var first, more := trace[..begun + 1], trace[begun + 1..];
    forall i | 0 <= i <= |more| ensures start in Run(first + more[..i]).pending {
      assert first + more[..i] == trace[..begun + 1 + i];
      PendingBetween(trace, begun, start, begun + 1 + i);
    }
  }

  /** The handle a start's reply makes. */
  lemma MadeByReply<F>(before: seq<Event<F>>, start: nat, key: string)
    requires Unclaimed(before, key)
    ensures var r, at := Run(before + [Started(start, key)]), |Run(before).handles|;
            && key in r.routes && r.routes[key] == at && at < |r.handles|
            && r.handles[at] == Handle(key, Waited(before, key), [])
  {
    BufferHoldsWaited(before, key);
    RunStep(before, Started(start, key));
  }

  /**
   A session's handle is given, in order and once each, the frames of its session since its
   start was counted, after any that were kept for its key when the start was counted.
   */
  lemma HandleIsGiven<F>(trace: seq<Event<F>>, begun: nat, started: nat, start: nat, key: string)
    returns (at: nat)
    requires WellFormed(trace) && begun < started < |trace|
    requires trace[begun] == Begin(start) && trace[started] == Started(start, key)
    requires forall i :: 0 <= i < |trace| && i != started ==> !Claims(trace[i], key)
    ensures var r := Run(trace);
            && at < |r.handles| && key in r.routes && r.routes[key] == at
            && Delivered(r.handles[at]) == Waited(trace[..begun], key) + Frames(trace[begun..], key)
  {
    var before, after := trace[..started], trace[started + 1..];
    var mid := before + [Started(start, key)];
    MadeByReply(before, start, key);
    at := |Run(before).handles|;
    assert trace == mid + after;
    forall i | 0 <= i < |after| ensures !Claims(after[i], key) {
      assert after[i] == trace[started + 1 + i];
    }
    LiveFrames(mid, after, key, at);
    WaitedForStart(trace, begun, started, start, key);
    FramesSplit(trace, begun, started, key);
    Associative(Waited(trace[..begun], key), Frames(trace[begun + 1..started], key), Frames(after, key));
    assert [] + Frames(after, key) == Frames(after, key);
  }

  /**
   The last handle made for a key, by a start's reply or for a followed session, is given every later
   frame of the key, in order; a followed session's is given those alone.
   */
  lemma {:induction false} LastHandleIsGiven<F>(trace: seq<Event<F>>, at: nat, key: string)
    requires at < |trace| && Claims(trace[at], key)
    requires forall i :: at < i < |trace| ==> !Claims(trace[i], key)
    ensures var r, made := Run(trace), |Run(trace[..at]).handles|;
            && made < |r.handles| && key in r.routes && r.routes[key] == made && r.handles[made].key == key
            && r.handles[made].live == Frames(trace[at + 1..], key)
            && (trace[at].Follow? ==> Delivered(r.handles[made]) == Frames(trace[at + 1..], key))
  {
    var before, after := trace[..at], trace[at + 1..];
    var mid := before + [trace[at]];
    var made := |Run(before).handles|;
    RunStep(before, trace[at]);
    assert trace == mid + after;
    forall i | 0 <= i < |after| ensures !Claims(after[i], key) {
      assert after[i] == trace[at + 1 + i];
    }
    LiveFrames(mid, after, key, made);
    assert [] + Frames(after, key) == Frames(after, key);
  }

  lemma FramesSplit<F>(trace: seq<Event<F>>, begun: nat, started: nat, key: string)
    requires begun < started < |trace| && !trace[begun].Received? && !trace[started].Received?
    ensures Frames(trace[begun..], key) == Frames(trace[begun + 1..started], key) + Frames(trace[started + 1..], key)
  {
    var first, mid, last, after := [trace[begun]], trace[begun + 1..started], [trace[started]], trace[started + 1..];
    assert trace[begun..] == first + (mid + (last + after));
    FramesAppend(first, mid + (last + after), key);
    FramesAppend(mid, last + after, key);
    FramesAppend(last, after, key);
    assert first[..0] == [] && last[..0] == [];
    assert Frames(first, key) == [] && Frames(last, key) == [];
  }

  /**
   The handle is given exactly the frames since its start was counted exactly when no frame
   for its key was kept before: when the session's frames come only after its start.
   */
  lemma GivenExactlySinceStart<F>(trace: seq<Event<F>>, begun: nat, started: nat, start: nat, key: string)
    requires WellFormed(trace) && begun < started < |trace|
    requires trace[begun] == Begin(start) && trace[started] == Started(start, key)
    requires forall i :: 0 <= i < |trace| && i != started ==> !Claims(trace[i], key)
    ensures var r := Run(trace);
            && key in r.routes && r.routes[key] < |r.handles|
            && (Delivered(r.handles[r.routes[key]]) == Frames(trace[begun..], key) <==> Waited(trace[..begun], key) == [])
  {
    var at := HandleIsGiven(trace, begun, started, start, key);
    var frames := Frames(trace[begun..], key);
    assert |Waited(trace[..begun], key) + frames| == |Waited(trace[..begun], key)| + |frames|;
  }

  lemma RunStarts<F>(key: string, frame: F)
    ensures Run([Begin(0), Received(key, frame), Begin(1)])
         == Router({0, 1}, [Kept(key, frame)], map[], [])
    ensures WellFormed([Begin(0), Received(key, frame), Begin(1)])
  {
    var one, two, three := [Begin(0)], [Begin(0), Received(key, frame)], [Begin(0), Received(key, frame), Begin(1)];
    assert three[..2] == two && two[..1] == one && one[..0] == [];
    assert Run(one) == Router({0}, [], map[], []);
    assert Run(two) == Router({0}, [Kept(key, frame)], map[], []);
    assert WellFormed(one) && WellFormed(two);
  }

  /** A frame kept because of another start is given to a session whose own start is counted only after it. */
  lemma GivenFromBefore<F>(key: string, frame: F)
    ensures var trace := [Begin(0), Received(key, frame), Begin(1), Started(1, key)];
            && WellFormed(trace) && Frames(trace[2..], key) == []
            && Run(trace).handles == [Handle(key, [frame], [])]
  {
    var trace := [Begin(0), Received(key, frame), Begin(1), Started(1, key)];
    RunStarts(key, frame);
    assert trace[..3] == [Begin(0), Received(key, frame), Begin(1)];
    assert [Kept(key, frame)][1..] == [] && FramesOf([Kept(key, frame)], key) == [frame];
    var more: seq<Event<F>>, first: seq<Event<F>> := trace[2..], [Begin(1)];
    assert more == [Begin(1), Started(1, key)] && more[..1] == first && first[..0] == [];
    var r := Run(trace[..3]);
    assert Run(trace) == Step(r, Started(1, key)) == AddHandle(Ended(r, 1), key, [frame]);
    assert Run(trace).handles == [Handle(key, [frame], [])];
    assert Frames(first, key) == [] && Frames(more, key) == [];
  }

  /** The router's variables: the starts are only counted. */
  class SessionRoutes<F> {
    var startsInFlight: nat
    var unclaimed: seq<Kept<F>>
    var routes: map<string, nat>
    var handles: seq<Handle<F>>
    ghost var pending: set<nat>

    constructor ()
      ensures State() == New() && Counted()
    {
      startsInFlight, unclaimed, routes, handles, pending := 0, [], map[], [], {};
    }

    ghost function State(): Router<F>
      reads this
    {
      Router(pending, unclaimed, routes, handles)
    }

    ghost predicate Counted()
      reads this
    {
      && startsInFlight == |pending|
      && forall key :: key in routes ==> routes[key] < |handles|
    }

    method CountStart(ghost start: nat)
      requires Counted() && start !in pending
      modifies this
      ensures Counted() && State() == Step(old(State()), Begin(start))
    {
      startsInFlight := startsInFlight + 1;
      pending := pending + {start};
    }

    method Route(key: string, frame: F)
      requires Counted()
      modifies this
      ensures Counted() && State() == Step(old(State()), Received(key, frame))
    {
      if key in routes {
        var at := routes[key];
        handles := handles[at := handles[at].(live := handles[at].live + [frame])];
      } else if startsInFlight > 0 {
        unclaimed := unclaimed + [Kept(key, frame)];
      }
    }

    method AddRoute(key: string, early: seq<F>)
      requires Counted()
      modifies this
      ensures Counted() && State() == AddHandle(old(State()), key, early)
    {
      routes := routes[key := |handles|];
      handles := handles + [Handle(key, early, [])];
    }

    /** The end of a start: with the session's key, or with none when the request failed. */
    method FinishStart(ghost start: nat, key: Option<string>)
      requires Counted() && start in pending
      modifies this
      ensures Counted()
      ensures State() == Step(old(State()), if key.Some? then Started(start, key.value) else Failed(start))
    {
      startsInFlight := startsInFlight - 1;
      assert pending == (pending - {start}) + {start};
      pending := pending - {start};
      var early := [];
      if key.Some? {
        early := FramesOf(unclaimed, key.value);
      }
      if startsInFlight == 0 {
        assert pending == {};
        unclaimed := [];
      }
      if key.Some? {
        AddRoute(key.value, early);
      }
    }

    method FollowSession(key: string)
      requires Counted()
      modifies this
      ensures Counted() && State() == Step(old(State()), Follow(key))
    {
      AddRoute(key, []);
    }
  }
}
