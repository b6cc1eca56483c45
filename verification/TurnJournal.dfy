/**
 The turn journal, from which a page that connects late learns what it missed: the frames of the
 turn, made fewer by joining deltas and dropping old usage, and the queue.

 `Raw` is the journal without its savings: every frame of the turn. The two agree on what the
 turn did (`JournalMeansRaw`).
 */
module TurnJournal {
  import opened Util
  import opened Protocol

  datatype Entry = Entry(at: nat, frame: Frame)

  datatype Turn = Turn(replyTo: string, startedAt: nat, frames: seq<Entry>)

  datatype Journal = Journal(turn: Option<Turn>, waiting: seq<Queued>)

  const EMPTY: Journal := Journal(None, [])

  // ---- Recording ---------------------------------------------------------------------------

  function WithoutMessage(waiting: seq<Queued>, id: string): seq<Queued>
  {
    if waiting == [] then []
    else (if waiting[0].id != id then [waiting[0]] else []) + WithoutMessage(waiting[1..], id)
  }

  function WithoutUsage(frames: seq<Entry>): seq<Entry>
  {
    if frames == [] then []
    else (if frames[0].frame.TurnUsage? then [] else [frames[0]]) + WithoutUsage(frames[1..])
  }

  /** Whether `next` carries on the stream of `last`. */
  predicate Continues(last: Frame, next: Frame)
  {
    last.Delta? && next.Delta? && last.kind == next.kind && last.call == next.call
  }

  /** Two pieces of one stream as one. */
  function Together(last: Frame, next: Frame): Frame
    requires Continues(last, next)
  {
    Delta(last.kind, last.turn, last.call, last.text + next.text)
  }

  /** The frames of a turn once `frame`, one of its own, is kept. */
  function Keep(frames: seq<Entry>, frame: Frame, at: nat): seq<Entry>
  {
    var kept := if frame.TurnUsage? then WithoutUsage(frames) else frames;
    if kept != [] && Continues(kept[|kept| - 1].frame, frame) then
      var last := kept[|kept| - 1];
      kept[..|kept| - 1] + [last.(frame := Together(last.frame, frame))]
    else kept + [Entry(at, frame)]
  }

  function RecordTurn(turn: Option<Turn>, frame: Frame, at: nat): Option<Turn>
  {
    var id := TurnOf(frame);
    if id.None? then turn
    else
      var own := turn.Some? && turn.value.replyTo == id.value;
      if frame.TurnEnded? then (if own then None else turn)
      else
        var open := if own then turn.value else Turn(id.value, at, []);
        Some(open.(frames := Keep(open.frames, frame, at)))
  }

  function RecordWaiting(waiting: seq<Queued>, frame: Frame): seq<Queued>
  {
    match frame
    case MessageQueued(message) => waiting + [message]
    case MessageWithdrawn(id) => WithoutMessage(waiting, id)
    case UserMessage(id, _, _, _) => WithoutMessage(waiting, id)
    case _ => waiting
  }

  function Record(journal: Journal, frame: Frame, at: nat): Journal
  {
    Journal(RecordTurn(journal.turn, frame, at), RecordWaiting(journal.waiting, frame))
  }

  /** The journal after the frames of `log`, each with when it was broadcast. */
  function RecordAll(log: seq<Entry>): Journal
  {
    if log == [] then EMPTY
    else
      var last := log[|log| - 1];
      Record(RecordAll(log[..|log| - 1]), last.frame, last.at)
  }

  /**
   The frames that belong to the turn `id`: its messages, its start and end, its usage, its pieces,
   its progress and its replies.
   */
  predicate Belongs(frame: Frame, id: string)
  {
    || (frame.UserMessage? && frame.turn == id)
    || (frame.TurnStarted? && frame.turn == id)
    || (frame.TurnEnded? && frame.turn == id)
    || (frame.TurnUsage? && frame.turn == id)
    || (frame.Delta? && frame.turn == id)
    || (frame.Progress? && frame.turn == id)
    || (frame.Response? && frame.turn == id && id != "")
  }

  lemma BelongsIff(frame: Frame, id: string)
    ensures TurnOf(frame) == Some(id) <==> Belongs(frame, id)
  {
  }

  /** A frame of no turn leaves the turn as it is; so does the end of another. The turn's own end leaves none. */
  lemma OthersLeaveTurn(turn: Option<Turn>, frame: Frame, at: nat)
    ensures (forall id :: !Belongs(frame, id)) ==> RecordTurn(turn, frame, at) == turn
    ensures frame.TurnEnded? ==>
      RecordTurn(turn, frame, at) == if turn.Some? && turn.value.replyTo == frame.turn then None else turn
  {
    if TurnOf(frame).Some? {
      BelongsIff(frame, TurnOf(frame).value);
    }
  }

  /** A frame of a turn that is not in flight begins it, with that frame alone. */
  lemma FrameBegins(turn: Option<Turn>, frame: Frame, at: nat, id: string)
    requires Belongs(frame, id) && !frame.TurnEnded? && (turn.Some? ==> turn.value.replyTo != id)
    ensures RecordTurn(turn, frame, at) == Some(Turn(id, at, [Entry(at, frame)]))
  {
    BelongsIff(frame, id);
    assert [] + [Entry(at, frame)] == [Entry(at, frame)];
  }

  /**
   A piece of a stream is put to the piece before it when that is of the same kind and call, and
   stands on its own otherwise.
   */
  lemma PieceJoins(turn: Turn, kept: seq<Entry>, last: Entry, piece: Frame, at: nat)
    requires turn.frames == kept + [last] && piece.Delta? && piece.turn == turn.replyTo
    ensures RecordTurn(Some(turn), piece, at) ==
      if last.frame.Delta? && last.frame.kind == piece.kind && last.frame.call == piece.call then
        var text := last.frame.text + piece.text;
        Some(turn.(frames := kept + [Entry(last.at, Delta(piece.kind, last.frame.turn, piece.call, text))]))
      else Some(turn.(frames := kept + [last] + [Entry(at, piece)]))
  {
    assert turn.frames[..|turn.frames| - 1] == kept && turn.frames[|turn.frames| - 1] == last;
  }

  /** Any other frame of the turn comes after those there; a usage takes the place of earlier ones. */
  lemma FrameFollows(turn: Turn, frame: Frame, at: nat)
    requires Belongs(frame, turn.replyTo) && !frame.TurnEnded? && !frame.Delta?
    ensures var r := RecordTurn(Some(turn), frame, at);
            && r.Some? && r.value.replyTo == turn.replyTo && r.value.startedAt == turn.startedAt
            && (!frame.TurnUsage? ==> r.value.frames == turn.frames + [Entry(at, frame)])
            && (frame.TurnUsage? ==> r.value.frames == WithoutUsage(turn.frames) + [Entry(at, frame)])
  {
  }

  class MockTurnJournal {
    var turn: Option<Turn>
    var waiting: seq<Queued>

    constructor ()
      ensures State() == EMPTY
    {
      turn, waiting := None, [];
    }

    ghost function State(): Journal
      reads this
    {
      Journal(turn, waiting)
    }

    method RemoveWaiting(id: string)
      modifies this`waiting
      ensures waiting == WithoutMessage(old(waiting), id)
    {
      var kept := [];
      var i := 0;
      while i < |waiting|
        invariant i <= |waiting| && waiting == old(waiting)
        invariant kept + WithoutMessage(waiting[i..], id) == WithoutMessage(waiting, id)
      {
        assert waiting[i..][1..] == waiting[i + 1..];
        var own := if waiting[i].id != id then [waiting[i]] else [];
        Associative(kept, own, WithoutMessage(waiting[i + 1..], id));
        kept := kept + own;
        i := i + 1;
      }
      waiting := kept;
    }

    /** Takes one broadcast frame into the queue and the turn; most frames concern only one of them. */
    method RecordFrame(frame: Frame, at: nat)
      modifies this
      ensures State() == Record(old(State()), frame, at)
    {
      if frame.MessageQueued? {
        waiting := waiting + [frame.message];
        return;
      }
      if frame.MessageWithdrawn? || frame.UserMessage? {
        RemoveWaiting(frame.id);
      }
      var id := TurnOf(frame);
      if id.None? {
        return;
      }
      if frame.TurnEnded? {
        if turn.Some? && turn.value.replyTo == id.value {
          turn := None;
        }
        return;
      }
      if turn.None? || turn.value.replyTo != id.value {
        turn := Some(Turn(id.value, at, []));
      }
      var frames := turn.value.frames;
      if frame.TurnUsage? {
        frames := WithoutUsage(frames);
      }
      if frames != [] && Continues(frames[|frames| - 1].frame, frame) {
        var last := frames[|frames| - 1];
        frames := frames[..|frames| - 1] + [last.(frame := Together(last.frame, frame))];
      } else {
        frames := frames + [Entry(at, frame)];
      }
      turn := Some(turn.value.(frames := frames));
    }

    method Clear()
      modifies this
      ensures State() == EMPTY
    {
      turn, waiting := None, [];
    }
  }

  // ---- What a journal means ----------------------------------------------------------------

  datatype RawTurn = RawTurn(replyTo: string, frames: seq<Frame>)

  /** The turn in flight with every frame it had, as `frame` leaves it. */
  function RawStep(raw: Option<RawTurn>, frame: Frame): Option<RawTurn>
  {
    var id := TurnOf(frame);
    var own := raw.Some? && id == Some(raw.value.replyTo);
    if id.None? then raw
    else if frame.TurnEnded? then (if own then None else raw)
    else if own then Some(raw.value.(frames := raw.value.frames + [frame]))
    else Some(RawTurn(id.value, [frame]))
  }

  function Raw(log: seq<Entry>): Option<RawTurn>
  {
    if log == [] then None else RawStep(Raw(log[..|log| - 1]), log[|log| - 1].frame)
  }

  function FramesOf(entries: seq<Entry>): seq<Frame>
  {
    if entries == [] then [] else [entries[0].frame] + FramesOf(entries[1..])
  }

  /** `frame` before frames that are joined already. */
  function JoinFront(frame: Frame, joined: seq<Frame>): seq<Frame>
  {
    if joined != [] && Continues(frame, joined[0]) then
      [Together(frame, joined[0])] + joined[1..]
    else [frame] + joined
  }

  /** Adjacent pieces of one stream as one. */
  function Join(frames: seq<Frame>): seq<Frame>
  {
    if frames == [] then [] else JoinFront(frames[0], Join(frames[1..]))
  }

  function NotUsage(frames: seq<Frame>): seq<Frame>
  {
    if frames == [] then []
    else (if frames[0].TurnUsage? then [] else [frames[0]]) + NotUsage(frames[1..])
  }

  function UsageOf(frames: seq<Frame>): seq<Frame>
  {
    if frames == [] then []
    else (if frames[0].TurnUsage? then [frames[0]] else []) + UsageOf(frames[1..])
  }

  /** What the turn did: its frames with its usage set aside and each stream joined. */
  function Meaning(frames: seq<Frame>): seq<Frame>
  {
    Join(NotUsage(frames))
  }

  /** The last of `s`, if there is one. */
  function LastOf<T>(s: seq<T>): seq<T>
  {
    if s == [] then [] else [s[|s| - 1]]
  }

  /** The journal's frames say what the turn's own frames say, and hold its newest usage alone. */
  ghost predicate Says(kept: seq<Entry>, raw: seq<Frame>)
  {
    Meaning(FramesOf(kept)) == Meaning(raw) && UsageOf(FramesOf(kept)) == LastOf(UsageOf(raw))
  }

  lemma {:induction false} FramesOfAppend(a: seq<Entry>, b: seq<Entry>)
    ensures FramesOf(a + b) == FramesOf(a) + FramesOf(b)
  {
    if a == [] {
      assert a + b == b;
    } else {
      FramesOfAppend(a[1..], b);
      assert (a + b)[1..] == a[1..] + b;
    }
  }

  lemma {:induction false} NotUsageAppend(a: seq<Frame>, b: seq<Frame>)
    ensures NotUsage(a + b) == NotUsage(a) + NotUsage(b)
  {
    if a == [] {
      assert a + b == b;
    } else {
      NotUsageAppend(a[1..], b);
      assert (a + b)[1..] == a[1..] + b && (a + b)[0] == a[0];
      var head := if a[0].TurnUsage? then [] else [a[0]];
      Associative(head, NotUsage(a[1..]), NotUsage(b));
    }
  }

  lemma {:induction false} UsageAppend(a: seq<Frame>, b: seq<Frame>)
    ensures UsageOf(a + b) == UsageOf(a) + UsageOf(b)
  {
    if a == [] {
      assert a + b == b;
    } else {
      UsageAppend(a[1..], b);
      assert (a + b)[1..] == a[1..] + b && (a + b)[0] == a[0];
      var head := if a[0].TurnUsage? then [a[0]] else [];
      Associative(head, UsageOf(a[1..]), UsageOf(b));
    }
  }

  /** Dropping the usage entries keeps every other frame. */
  lemma {:induction false} WithoutUsageFrames(entries: seq<Entry>)
    ensures FramesOf(WithoutUsage(entries)) == NotUsage(FramesOf(entries))
    ensures NotUsage(FramesOf(WithoutUsage(entries))) == NotUsage(FramesOf(entries))
    ensures UsageOf(FramesOf(WithoutUsage(entries))) == []
  {
    if entries != [] {
      WithoutUsageFrames(entries[1..]);
      var head := if entries[0].frame.TurnUsage? then [] else [entries[0]];
      FramesOfAppend(head, WithoutUsage(entries[1..]));
      var frames := FramesOf(WithoutUsage(entries[1..]));
      if head != [] {
        assert FramesOf(head) == [entries[0].frame];
        NotUsageAppend(FramesOf(head), frames);
        UsageAppend(FramesOf(head), frames);
        assert NotUsage(FramesOf(head)) == FramesOf(head) && UsageOf(FramesOf(head)) == [];
      } else {
        assert [] + frames == frames;
      }
    }
  }

  lemma JoinFrontTwice(a: Frame, b: Frame, joined: seq<Frame>)
    requires Continues(a, b)
    ensures JoinFront(a, JoinFront(b, joined)) == JoinFront(Together(a, b), joined)
  {
    if joined != [] && Continues(b, joined[0]) {
      assert (a.text + b.text) + joined[0].text == a.text + (b.text + joined[0].text);
    }
  }

  lemma JoinCons(first: Frame, rest: seq<Frame>)
    ensures Join([first] + rest) == JoinFront(first, Join(rest))
  {
    assert ([first] + rest)[1..] == rest;
  }

  /** A frame before a log, joined before or after the log is. */
  lemma JoinFrontOver(frame: Frame, log: seq<Frame>, b: seq<Frame>)
    ensures Join(JoinFront(frame, log) + b) == JoinFront(frame, Join(log + b))
  {
    if log != [] && Continues(frame, log[0]) {
      var tail, first := log[1..] + b, Together(frame, log[0]);
      assert log + b == [log[0]] + tail && JoinFront(frame, log) + b == [first] + tail;
      JoinCons(log[0], tail);
      JoinCons(first, tail);
      JoinFrontTwice(frame, log[0], Join(tail));
    } else {
      assert JoinFront(frame, log) + b == [frame] + (log + b);
      JoinCons(frame, log + b);
    }
  }

  /** Joining the start of a log first makes no difference. */
  lemma {:induction false} JoinStart(a: seq<Frame>, b: seq<Frame>)
    ensures Join(Join(a) + b) == Join(a + b)
    decreases |a|
  {
    if a == [] {
    } else {
      JoinStart(a[1..], b);
      assert (a + b)[1..] == a[1..] + b;
      JoinFrontOver(a[0], Join(a[1..]), b);
    }
  }

  /** A piece joined to the last one, or kept beside it, reads the same. */
  lemma {:induction false} JoinLast(a: seq<Frame>, last: Frame, next: Frame)
    requires Continues(last, next)
    ensures Join(a + [Together(last, next)]) == Join(a + [last, next])
  {
    var both := Together(last, next);
    if a == [] {
      assert a + [both] == [both] && a + [last, next] == [last, next];
      assert [last, next][1..] == [next];
      assert Join([next]) == [next];
    } else {
      JoinLast(a[1..], last, next);
      assert (a + [both])[1..] == a[1..] + [both];
      assert (a + [last, next])[1..] == a[1..] + [last, next];
    }
  }

  /** What a frame adds to the meaning depends only on the meaning so far. */
  lemma MeaningStep(a: seq<Frame>, b: seq<Frame>, next: Frame)
    requires Meaning(a) == Meaning(b)
    ensures Meaning(a + [next]) == Meaning(b + [next])
  {
    NotUsageAppend(a, [next]);
    NotUsageAppend(b, [next]);
    JoinStart(NotUsage(a), NotUsage([next]));
    JoinStart(NotUsage(b), NotUsage([next]));
  }

  lemma LastOfAppend<T>(s: seq<T>, x: T)
    ensures LastOf(s + [x]) == [x]
  {
  }

  /** Keeping a frame does to the journal what the frame does to the turn. */
  lemma KeepSays(kept: seq<Entry>, raw: seq<Frame>, frame: Frame, at: nat)
    requires Says(kept, raw)
    ensures Says(Keep(kept, frame, at), raw + [frame])
  {
    UsageAppend(raw, [frame]);
    NotUsageAppend(raw, [frame]);
    if frame.TurnUsage? {
      UsageKept(kept, raw, frame, at);
    } else {
      assert UsageOf([frame]) == [];
      assert UsageOf(raw) + [] == UsageOf(raw);
      MeaningStep(FramesOf(kept), raw, frame);
      if kept != [] && Continues(kept[|kept| - 1].frame, frame) {
        DeltaJoined(kept, frame, at);
      } else {
        FramesOfAppend(kept, [Entry(at, frame)]);
        UsageAppend(FramesOf(kept), [frame]);
        assert FramesOf([Entry(at, frame)]) == [frame];
      }
    }
  }

  lemma UsageKept(kept: seq<Entry>, raw: seq<Frame>, frame: Frame, at: nat)
    requires Says(kept, raw) && frame.TurnUsage?
    ensures Says(Keep(kept, frame, at), raw + [frame])
  {
    var rest := WithoutUsage(kept);
    WithoutUsageFrames(kept);
    FramesOfAppend(rest, [Entry(at, frame)]);
    assert FramesOf([Entry(at, frame)]) == [frame];
    assert [frame][1..] == [];
    assert UsageOf([frame]) == [frame] + UsageOf([]);
    NotUsageAppend(FramesOf(rest), [frame]);
    NotUsageAppend(raw, [frame]);
    UsageAppend(FramesOf(rest), [frame]);
    UsageAppend(raw, [frame]);
    LastOfAppend(UsageOf(raw), frame);
    assert NotUsage(FramesOf(rest)) + [] == NotUsage(FramesOf(rest));
    assert NotUsage(raw) + [] == NotUsage(raw);
  }

  lemma {:induction false} DeltaJoined(kept: seq<Entry>, frame: Frame, at: nat)
    requires kept != [] && Continues(kept[|kept| - 1].frame, frame)
    ensures Meaning(FramesOf(Keep(kept, frame, at))) == Meaning(FramesOf(kept) + [frame])
    ensures UsageOf(FramesOf(Keep(kept, frame, at))) == UsageOf(FramesOf(kept))
  {
    var start, last := kept[..|kept| - 1], kept[|kept| - 1];
    var both := last.(frame := Together(last.frame, frame));
    assert kept == start + [last];
    FramesOfAppend(start, [last]);
    FramesOfAppend(start, [both]);
    assert FramesOf([last]) == [last.frame] && FramesOf([both]) == [both.frame];
    var frames := FramesOf(start);
    UsageAppend(frames, [last.frame]);
    UsageAppend(frames, [both.frame]);
    assert UsageOf([last.frame]) == UsageOf([both.frame]) == [];
    assert Keep(kept, frame, at) == start + [both];
    NotUsageAppend(frames, [both.frame]);
    assert NotUsage([both.frame]) == [both.frame] + NotUsage([]);
    assert frames + [last.frame] + [frame] == frames + [last.frame, frame];
    NotUsageAppend(frames, [last.frame, frame]);
    assert [last.frame, frame][1..] == [frame];
    assert NotUsage([frame]) == [frame] + NotUsage([]);
    assert NotUsage([last.frame, frame]) == [last.frame] + NotUsage([frame]) == [last.frame, frame];
    JoinLast(NotUsage(frames), last.frame, frame);
    assert NotUsage(FramesOf(kept) + [frame]) == NotUsage(frames) + [last.frame, frame];
    assert NotUsage(FramesOf(Keep(kept, frame, at))) == NotUsage(frames) + [both.frame];
  }

  /** The journal and the turn it stands for. */
  ghost predicate Stands(turn: Option<Turn>, raw: Option<RawTurn>)
  {
    && (turn.Some? <==> raw.Some?)
    && (turn.Some? ==> turn.value.replyTo == raw.value.replyTo && Says(turn.value.frames, raw.value.frames))
  }

  /**
   Whatever frames are broadcast, the journal holds a turn when one is in flight, and its
   frames mean what all of the turn's frames mean, with the newest usage alone.
   */
  lemma {:induction false} JournalMeansRaw(log: seq<Entry>)
    ensures Stands(RecordAll(log).turn, Raw(log))
  {
    if log != [] {
      var before, last := log[..|log| - 1], log[|log| - 1];
      JournalMeansRaw(before);
      var turn, raw, id := RecordAll(before).turn, Raw(before), TurnOf(last.frame);
      if id.Some? && !last.frame.TurnEnded? {
        if turn.Some? && turn.value.replyTo == id.value {
          KeepSays(turn.value.frames, raw.value.frames, last.frame, last.at);
        } else {
          KeepSays([], [], last.frame, last.at);
          assert [] + [last.frame] == [last.frame];
        }
      }
    }
  }

  /** The frames of a log that belong to `turn`. */
  function FramesOfTurn(log: seq<Entry>, turn: string): seq<Frame>
  {
    if log == [] then []
    else
      FramesOfTurn(log[..|log| - 1], turn) +
      if TurnOf(log[|log| - 1].frame) == Some(turn) then [log[|log| - 1].frame] else []
  }

  /** Nothing of the log is another turn's, and `turn` has not ended. */
  ghost predicate OnlyTurn(log: seq<Entry>, turn: string)
  {
    forall e :: e in log && TurnOf(e.frame).Some? ==> TurnOf(e.frame).value == turn && !e.frame.TurnEnded?
  }

  /** While only one turn runs, the turn's own frames are all of its frames. */
  lemma {:induction false} OneTurnKeepsAll(log: seq<Entry>, turn: string)
    requires OnlyTurn(log, turn)
    ensures var frames := FramesOfTurn(log, turn);
            Raw(log) == if frames == [] then None else Some(RawTurn(turn, frames))
  {
    if log != [] {
      var last := log[|log| - 1];
      assert last in log && forall e :: e in log[..|log| - 1] ==> e in log;
      OneTurnKeepsAll(log[..|log| - 1], turn);
      var before := FramesOfTurn(log[..|log| - 1], turn);
      assert before + [] == before && [] + [last.frame] == [last.frame];
    }
  }

  /** A frame of another turn than `turn` comes, and does not end it. */
  ghost predicate Interrupted(since: seq<Entry>, turn: string)
  {
    exists e :: e in since && TurnOf(e.frame).Some? && TurnOf(e.frame).value != turn && !e.frame.TurnEnded?
  }

  /** `turn` does not end. */
  ghost predicate GoesOn(since: seq<Entry>, turn: string)
  {
    forall e :: e in since && e.frame.TurnEnded? ==> TurnOf(e.frame) != Some(turn)
  }

  /** An interrupted turn is left with some of its later frames at most. */
  lemma {:induction false} InterruptedLoses(before: seq<Entry>, since: seq<Entry>, turn: string)
    requires Interrupted(since, turn)
    ensures var raw := Raw(before + since);
            raw.Some? && raw.value.replyTo == turn ==> |raw.value.frames| <= |FramesOfTurn(since, turn)|
  {
    var log, last, earlier := before + since, since[|since| - 1], since[..|since| - 1];
    assert log[|log| - 1] == last && log[..|log| - 1] == before + earlier;
    assert since == earlier + [last];
    if Interrupted(earlier, turn) {
      InterruptedLoses(before, earlier, turn);
    }
  }

  lemma {:induction false} UninterruptedKeeps(before: seq<Entry>, since: seq<Entry>, turn: string)
    requires Raw(before).Some? && Raw(before).value.replyTo == turn
    requires GoesOn(since, turn) && !Interrupted(since, turn)
    ensures Raw(before + since) == Some(RawTurn(turn, Raw(before).value.frames + FramesOfTurn(since, turn)))
  {
    var frames := Raw(before).value.frames;
    if since == [] {
      assert before + since == before && frames + FramesOfTurn(since, turn) == frames;
    } else {
      var log, last, earlier := before + since, since[|since| - 1], since[..|since| - 1];
      assert log[|log| - 1] == last && log[..|log| - 1] == before + earlier;
      assert last in since && forall e :: e in earlier ==> e in since;
      UninterruptedKeeps(before, earlier, turn);
      Associative(frames, FramesOfTurn(earlier, turn), [last.frame]);
      assert FramesOfTurn(earlier, turn) + [] == FramesOfTurn(earlier, turn);
    }
  }

  lemma {:induction false} RawHasFrames(log: seq<Entry>)
    ensures Raw(log).Some? ==> Raw(log).value.frames != []
  {
    if log != [] {
      RawHasFrames(log[..|log| - 1]);
    }
  }

  /**
   While a turn goes on, the journal holds every frame it had and all of its frames since exactly
   when no frame of another turn came that did not end that one. A result that comes late for a
   turn that is over is such a frame.
   */
  lemma ForgetsExactlyForOtherTurn(before: seq<Entry>, since: seq<Entry>, turn: string)
    requires Raw(before).Some? && Raw(before).value.replyTo == turn && GoesOn(since, turn)
    ensures Raw(before + since) == Some(RawTurn(turn, Raw(before).value.frames + FramesOfTurn(since, turn)))
       <==> !Interrupted(since, turn)
  {
    if Interrupted(since, turn) {
      InterruptedLoses(before, since, turn);
      RawHasFrames(before);
    } else {
      UninterruptedKeeps(before, since, turn);
    }
  }
}
