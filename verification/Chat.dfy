/**
 The chat simulator's queue of turns: one turn runs at a time, messages that arrive meanwhile
 wait, and each message ends up in history.

 The operations are functions on a state (`Step`); the class at the end is the simulator that
 carries them out. A turn's own timers are reduced to two events: it sends a frame (`Emit`), and
 its ending comes (`Finish`). What a turn records of its own is a parameter, `Script`.
 */
module Chat {
  import opened Util
  import opened Protocol
  import TurnJournal

  datatype Message = Message(id: string, content: string, source: Source)

  /** What history keeps of a message someone sent. */
  datatype Said = Said(
    content: string,
    images: seq<string>,
    attachments: seq<string>,
    sender: Option<string>,
    agentSender: Option<string>)

  datatype Record =
    | User(said: Said, turnId: Option<string>)
    | Own(turn: string, detail: string)

  /** A turn in flight: `rerun` for a retry, `folded` what sessions sent into it. */
  datatype Running = Running(id: string, content: string, source: Source, rerun: bool, folded: seq<Record>)

  /**
   `inFlight` lists the turns by when they were set, `broadcast` every frame sent, and
   `withdrawn` the messages taken back.
   */
  datatype Chat = Chat(
    inFlight: seq<Running>,
    waiting: seq<Message>,
    latestFailure: Option<Message>,
    history: seq<Record>,
    broadcast: seq<Frame>,
    withdrawn: seq<Message>)

  const IDLE: Chat := Chat([], [], None, [], [], [])

  /** What a turn answering a message (again, for a rerun) writes down of its own. */
  type Script = (string, Source, bool) -> seq<string>

  datatype Event =
    | Arrive(message: Message)
    | FromSession(id: string, content: string, address: string)
    | Emit(frame: Frame)
    | Finish(id: string)
    | Cancel(id: string)
    | Retry(id: string)
    | SendNow(id: string)
    | Withdraw(id: string)

  // ---- The parts of an operation -----------------------------------------------------------

  function LowerCase(c: char): char
  {
    if 'A' <= c <= 'Z' then c - 'A' + 'a' else c
  }

  /** Whether `text` starts with `prefix`, letters compared without their case. */
  predicate StartsWith(text: string, prefix: string)
  {
    |prefix| <= |text| && forall i :: 0 <= i < |prefix| ==> LowerCase(text[i]) == prefix[i]
  }

  /** The scripted turn of a page's message that starts with "error" fails; a rerun never does. */
  predicate Fails(turn: Running)
  {
    !turn.rerun && turn.source.endpoint == "ws" && StartsWith(turn.content, "error")
  }

  function SaidOf(content: string, source: Source): Said
  {
    Said(content, source.images, source.attachments, source.sender, source.agentSender)
  }

  function QueuedOf(m: Message): Queued
  {
    Queued(m.id, m.content, m.source.images, m.source.attachments, m.source.sender, m.source.endpoint)
  }

  /** The turns once `turn` is set under its id. */
  function Put(inFlight: seq<Running>, turn: Running): seq<Running>
  {
    if inFlight == [] then [turn]
    else if inFlight[0].id == turn.id then [turn] + inFlight[1..]
    else [inFlight[0]] + Put(inFlight[1..], turn)
  }

  function Delete(inFlight: seq<Running>, id: string): seq<Running>
  {
    if inFlight == [] then []
    else if inFlight[0].id == id then inFlight[1..]
    else [inFlight[0]] + Delete(inFlight[1..], id)
  }

  function FindTurn(inFlight: seq<Running>, id: string): Option<Running>
  {
    if inFlight == [] then None
    else if inFlight[0].id == id then Some(inFlight[0])
    else FindTurn(inFlight[1..], id)
  }

  /** Where the message `id` waits: the first place of it, or the length. */
  function IndexOf(waiting: seq<Message>, id: string): (at: nat)
    ensures at <= |waiting| && (at < |waiting| ==> waiting[at].id == id)
  {
    if waiting == [] || waiting[0].id == id then 0 else 1 + IndexOf(waiting[1..], id)
  }

  function OwnRecords(turn: string, details: seq<string>): seq<Record>
  {
    if details == [] then [] else [Own(turn, details[0])] + OwnRecords(turn, details[1..])
  }

  /** What history gains of a turn: its message, and the sessions' messages before its own last one. */
  function Recorded(turn: Running, opening: Record, own: seq<Record>): seq<Record>
  {
    var last := if own == [] then 0 else |own| - 1;
    (if turn.rerun then [] else [opening]) + own[..last] + turn.folded + own[last..]
  }

  function Start(s: Chat, m: Message): Chat
  {
    s.(latestFailure := None,
       inFlight := Put(s.inFlight, Running(m.id, m.content, m.source, false, [])),
       broadcast := s.broadcast + [UserMessage(m.id, m.id, m.content, m.source), TurnStarted(m.id, m.source)])
  }

  /** With nothing in flight, the message at the head of the queue gets its turn. */
  function StartNext(s: Chat): Chat
  {
    if s.inFlight != [] || s.waiting == [] then s
    else Start(s.(waiting := s.waiting[1..]), s.waiting[0])
  }

  /** The turn's last frames: its usage, its reply or error, and its end. */
  function Ending(turn: Running): seq<Frame>
  {
    [TurnUsage(turn.id, 420), if Fails(turn) then Untracked("error") else Response(turn.id, ""), TurnEnded(turn.id)]
  }

  /** A turn that has run to its end, before the next starts. */
  function Finished(script: Script, s: Chat, turn: Running): Chat
  {
    s.(inFlight := Delete(s.inFlight, turn.id),
       broadcast := s.broadcast + Ending(turn),
       latestFailure := if Fails(turn) then Some(Message(turn.id, turn.content, turn.source)) else s.latestFailure,
       history := s.history + Recorded(turn, User(SaidOf(turn.content, turn.source), Some(turn.id)),
                                       OwnRecords(turn.id, script(turn.content, turn.source, turn.rerun))))
  }

  /** A turn that was stopped, before the next starts. Its message is recorded without the turn's id. */
  function Stopped(s: Chat, turn: Running): Chat
  {
    s.(inFlight := Delete(s.inFlight, turn.id),
       broadcast := s.broadcast + [TurnEnded(turn.id)],
       history := s.history + Recorded(turn, User(SaidOf(turn.content, turn.source), None), []))
  }

  function FinishTurn(script: Script, s: Chat, turn: Running): Chat
  {
    StartNext(Finished(script, s, turn))
  }

  function CancelTurn(s: Chat, turn: Running): Chat
  {
    StartNext(Stopped(s, turn))
  }

  function CancelById(s: Chat, id: string): Chat
  {
    var turn := FindTurn(s.inFlight, id);
    if turn.None? then s else CancelTurn(s, turn.value)
  }

  function CancelEach(s: Chat, turns: seq<Running>): Chat
    decreases |turns|
  {
    if turns == [] then s else CancelEach(CancelById(s, turns[0].id), turns[1..])
  }

  function ArriveStep(s: Chat, m: Message): Chat
  {
    if s.inFlight == [] && s.waiting == [] then Start(s, m)
    else s.(waiting := s.waiting + [m], broadcast := s.broadcast + [MessageQueued(QueuedOf(m))])
  }

  function FromSessionStep(s: Chat, id: string, content: string, address: string): Chat
  {
    var source := Source("background", None, [], [], Some(address));
    if s.inFlight == [] then Start(s, Message(id, content, source))
    else
      var turn := s.inFlight[0];
      s.(broadcast := s.broadcast + [UserMessage(id, turn.id, content, source)],
         inFlight := [turn.(folded := turn.folded + [User(SaidOf(content, source), Some(turn.id))])] + s.inFlight[1..])
  }

  predicate CanRetry(s: Chat, id: string)
  {
    s.latestFailure.Some? && s.latestFailure.value.id == id && s.inFlight == []
  }

  function RetryStep(s: Chat, id: string): Chat
  {
    if !CanRetry(s, id) then s
    else
      var m := s.latestFailure.value;
      s.(latestFailure := None,
         inFlight := Put(s.inFlight, Running(id, m.content, m.source, true, [])),
         broadcast := s.broadcast + [TurnStarted(id, m.source)])
  }

  /** The waiting messages with the one at `at` first. */
  function ToFront(waiting: seq<Message>, at: nat): seq<Message>
    requires at < |waiting|
  {
    [waiting[at]] + waiting[..at] + waiting[at + 1..]
  }

  function SendNowStep(s: Chat, id: string): Chat
  {
    var at := IndexOf(s.waiting, id);
    if at == |s.waiting| then s else CancelEach(s.(waiting := ToFront(s.waiting, at)), s.inFlight)
  }

  function WithdrawStep(s: Chat, id: string): Chat
  {
    var at := IndexOf(s.waiting, id);
    if at == |s.waiting| then s
    else s.(waiting := s.waiting[..at] + s.waiting[at + 1..],
            broadcast := s.broadcast + [MessageWithdrawn(id)],
            withdrawn := s.withdrawn + [s.waiting[at]])
  }

  /** A frame a turn sends on its way: none that tells of a message or ends the turn. */
  predicate OnTheWay(frame: Frame)
  {
    !frame.UserMessage? && !frame.MessageQueued? && !frame.MessageWithdrawn? && !frame.TurnEnded?
  }

  function Step(script: Script, s: Chat, e: Event): Chat
  {
    match e
    case Arrive(m) => ArriveStep(s, m)
    case FromSession(id, content, address) => FromSessionStep(s, id, content, address)
    case Emit(frame) => if OnTheWay(frame) then s.(broadcast := s.broadcast + [frame]) else s
    case Finish(id) => (var turn := FindTurn(s.inFlight, id); if turn.None? then s else FinishTurn(script, s, turn.value))
    case Cancel(id) => CancelById(s, id)
    case Retry(id) => RetryStep(s, id)
    case SendNow(id) => SendNowStep(s, id)
    case Withdraw(id) => WithdrawStep(s, id)
  }

  /** The state after a run of events, the latest last. */
  function Run(script: Script, events: seq<Event>): Chat
  {
    if events == [] then IDLE else Step(script, Run(script, events[..|events| - 1]), events[|events| - 1])
  }

  // ---- One turn at a time ------------------------------------------------------------------

  ghost predicate Orderly(s: Chat)
  {
    && |s.inFlight| <= 1
    && (s.waiting != [] ==> s.inFlight != [])
    && (s.latestFailure.Some? ==> s.inFlight == [])
  }

  lemma FoundIsFirst(s: Chat, id: string)
    requires |s.inFlight| <= 1
    ensures FindTurn(s.inFlight, id).Some? ==>
      s.inFlight == [FindTurn(s.inFlight, id).value] && Delete(s.inFlight, FindTurn(s.inFlight, id).value.id) == []
  {
    if s.inFlight != [] {
      assert FindTurn(s.inFlight[1..], id) == None;
    }
  }

  lemma StepOrderly(script: Script, s: Chat, e: Event)
    requires Orderly(s)
    ensures Orderly(Step(script, s, e))
  {
    match e
    case Finish(id) =>
      FoundIsFirst(s, id);
    case Cancel(id) =>
      FoundIsFirst(s, id);
    case SendNow(id) =>
      SendNowCancels(s, id);
    case _ =>
  }

  /** A message sent now stops the turn that runs, the only one, and starts the next. */
  lemma SendNowCancels(s: Chat, id: string)
    requires Orderly(s)
    ensures var at := IndexOf(s.waiting, id);
            at < |s.waiting| ==>
              && s.inFlight != []
              && SendNowStep(s, id) == CancelTurn(s.(waiting := ToFront(s.waiting, at)), s.inFlight[0])
              && Delete(s.inFlight, s.inFlight[0].id) == []
  {
    var at := IndexOf(s.waiting, id);
    if at < |s.waiting| {
      var front := s.(waiting := ToFront(s.waiting, at));
      assert CancelEach(front, s.inFlight) == CancelEach(CancelById(front, s.inFlight[0].id), s.inFlight[1..]);
      assert s.inFlight[1..] == [];
    }
  }

  /**
   In every run at most one turn is in flight, messages wait only while one is, and a failure can be
   retried only when none is.
   */
  lemma {:induction false} RunOrderly(script: Script, events: seq<Event>)
    ensures Orderly(Run(script, events))
  {
    if events != [] {
      RunOrderly(script, events[..|events| - 1]);
      StepOrderly(script, Run(script, events[..|events| - 1]), events[|events| - 1]);
    }
  }

  /** A message sent now is the one that runs next; what waited before and after it keeps its order. */
  lemma SentNowRuns(script: Script, s: Chat, id: string)
    requires Orderly(s) && IndexOf(s.waiting, id) < |s.waiting|
    ensures var at, r := IndexOf(s.waiting, id), Step(script, s, SendNow(id));
            && r.inFlight == [Running(id, s.waiting[at].content, s.waiting[at].source, false, [])]
            && r.waiting == s.waiting[..at] + s.waiting[at + 1..]
            && r.history == s.history + Recorded(s.inFlight[0], User(SaidOf(s.inFlight[0].content, s.inFlight[0].source), None), [])
  {
    var at := IndexOf(s.waiting, id);
    var front := s.(waiting := ToFront(s.waiting, at));
    SendNowCancels(s, id);
    CancelStartsNext(front, s.inFlight[0]);
    assert front.waiting[1..] == s.waiting[..at] + s.waiting[at + 1..];
  }

  lemma CancelStartsNext(s: Chat, turn: Running)
    requires s.waiting != [] && Delete(s.inFlight, turn.id) == []
    ensures var m, r := s.waiting[0], CancelTurn(s, turn);
            && r.inFlight == [Running(m.id, m.content, m.source, false, [])] && r.waiting == s.waiting[1..]
            && r.history == s.history + Recorded(turn, User(SaidOf(turn.content, turn.source), None), [])
  {
  }

  /** A failed turn's retry runs its message again, and a finished rerun adds no second record of it. */
  lemma RetryRunsAgain(script: Script, s: Chat, id: string)
    requires Orderly(s) && CanRetry(s, id)
    ensures var m, r := s.latestFailure.value, Step(script, s, Retry(id));
            && r.inFlight == [Running(id, m.content, m.source, true, [])] && !CanRetry(r, id)
            && r.history == s.history && r.waiting == []
            && var done := Step(script, r, Finish(id));
               && done.history == s.history + OwnRecords(id, script(m.content, m.source, true))
               && done.latestFailure == None && done.inFlight == []
  {
    var m, r := s.latestFailure.value, Step(script, s, Retry(id));
    var own := OwnRecords(id, script(m.content, m.source, true));
    FoundIsFirst(r, id);
    var last := if own == [] then 0 else |own| - 1;
    assert own[..last] + own[last..] == own;
    assert Recorded(r.inFlight[0], User(SaidOf(m.content, m.source), Some(id)), own) == own;
  }

  // ---- What each operation does ------------------------------------------------------------

  /** The first five letters are "error", each in either case. */
  predicate SaysError(content: string)
  {
    && |content| >= 5
    && (content[0] == 'e' || content[0] == 'E') && (content[1] == 'r' || content[1] == 'R')
    && (content[2] == 'r' || content[2] == 'R') && (content[3] == 'o' || content[3] == 'O')
    && (content[4] == 'r' || content[4] == 'R')
  }

  /** A first run of what a page says that starts with "error". */
  predicate Failing(turn: Running)
  {
    !turn.rerun && turn.source.endpoint == "ws" && SaysError(turn.content)
  }

  lemma FailsIff(turn: Running)
    ensures Fails(turn) <==> Failing(turn)
  {
    var content, prefix := turn.content, "error";
    if StartsWith(content, prefix) {
      assert LowerCase(content[0]) == prefix[0] && LowerCase(content[1]) == prefix[1] && LowerCase(content[2]) == prefix[2];
      assert LowerCase(content[3]) == prefix[3] && LowerCase(content[4]) == prefix[4];
    }
    if SaysError(content) {
      forall i | 0 <= i < |prefix| ensures LowerCase(content[i]) == prefix[i] {
        assert i == 0 || i == 1 || i == 2 || i == 3 || i == 4;
      }
    }
  }

  /** The frames that start a turn for the first of the waiting messages. */
  function NextFrames(waiting: seq<Message>): seq<Frame>
  {
    if waiting == [] then []
    else
      var m := waiting[0];
      [UserMessage(m.id, m.id, m.content, m.source), TurnStarted(m.id, m.source)]
  }

  function NextTurn(waiting: seq<Message>): seq<Running>
  {
    if waiting == [] then [] else [Running(waiting[0].id, waiting[0].content, waiting[0].source, false, [])]
  }

  /** What history keeps of the message a turn answers. */
  function Opening(t: Running, id: Option<string>): seq<Record>
  {
    if t.rerun then []
    else [User(Said(t.content, t.source.images, t.source.attachments, t.source.sender, t.source.agentSender), id)]
  }

  /** What a turn that ends leaves in flight and waiting: the oldest waiting message, if there is one, has its turn. */
  lemma NextStarts(s: Chat)
    requires s.inFlight == [] && (s.waiting == [] || s.latestFailure == None)
    ensures var r := StartNext(s);
            && r.inFlight == NextTurn(s.waiting) && r.broadcast == s.broadcast + NextFrames(s.waiting)
            && r.waiting == (if s.waiting == [] then [] else s.waiting[1..])
            && r.latestFailure == s.latestFailure && r.history == s.history && r.withdrawn == s.withdrawn
  {
    assert s.waiting == [] ==> s.broadcast + [] == s.broadcast;
  }

  /**
   The end of a turn. It tells of an error, and its message can be run again, exactly when it was
   the first run of a page's message that starts with "error" in any case; every other turn has its
   response. When another message waits, its turn starts, and what failed is not to be retried.
   */
  lemma {:induction false} TurnEnds(script: Script, s: Chat, id: string)
    requires Orderly(s) && FindTurn(s.inFlight, id).Some?
    ensures var t, r := s.inFlight[0], Step(script, s, Finish(id));
            && t.id == id && r.inFlight == NextTurn(s.waiting)
            && r.broadcast == s.broadcast
                 + [TurnUsage(id, 420), if Failing(t) then Untracked("error") else Response(id, ""), TurnEnded(id)]
                 + NextFrames(s.waiting)
            && r.latestFailure == if Failing(t) && s.waiting == [] then Some(Message(id, t.content, t.source)) else None
  {
    FoundIsFirst(s, id);
    var t := s.inFlight[0];
    FailsIff(t);
    if s.waiting == [] {
      NextStarts(Finished(script, s, t));
    } else {
      var ended := Finished(script, s, t);
      assert StartNext(ended) == Start(ended.(waiting := s.waiting[1..]), s.waiting[0]);
    }
  }

  lemma {:induction false} OwnRecordsAre(turn: string, details: seq<string>, k: nat)
    requires k < |details|
    ensures |OwnRecords(turn, details)| == |details| && OwnRecords(turn, details)[k] == Own(turn, details[k])
  {
    if k > 0 {
      OwnRecordsAre(turn, details[1..], k - 1);
    } else if |details| > 1 {
      OwnRecordsAre(turn, details[1..], 0);
    }
  }

  /** A turn's own records, one for each of what it writes down. */
  ghost predicate OwnOf(own: seq<Record>, turn: string, details: seq<string>)
  {
    |own| == |details| && forall k :: 0 <= k < |details| ==> own[k] == Own(turn, details[k])
  }

  lemma {:induction false} OwnIs(turn: string, details: seq<string>)
    ensures OwnOf(OwnRecords(turn, details), turn, details)
  {
    if details != [] {
      OwnRecordsAre(turn, details, 0);
    }
    forall k | 0 <= k < |details| ensures OwnRecords(turn, details)[k] == Own(turn, details[k]) {
      OwnRecordsAre(turn, details, k);
    }
  }

  /**
   What a finished turn leaves in history: its message, its own records, and before the last of those
   what sessions sent it.
   */
  lemma {:induction false} TurnRecorded(script: Script, s: Chat, id: string) returns (own: seq<Record>, last: nat)
    requires Orderly(s) && FindTurn(s.inFlight, id).Some?
    ensures var t := s.inFlight[0]; OwnOf(own, id, script(t.content, t.source, t.rerun))
    ensures last == if own == [] then 0 else |own| - 1
    ensures var t := s.inFlight[0];
            Step(script, s, Finish(id)).history == s.history + (Opening(t, Some(id)) + own[..last] + t.folded + own[last..])
  {
    FoundIsFirst(s, id);
    var t := s.inFlight[0];
    own := OwnRecords(id, script(t.content, t.source, t.rerun));
    last := if own == [] then 0 else |own| - 1;
    OwnIs(id, script(t.content, t.source, t.rerun));
    StepRecords(script, s, Finish(id));
  }

  /** A stopped turn: its end is told, its message is recorded without its id, and the next message has its turn. */
  lemma {:induction false} TurnStops(script: Script, s: Chat, id: string)
    requires Orderly(s) && FindTurn(s.inFlight, id).Some?
    ensures var t, r := s.inFlight[0], Step(script, s, Cancel(id));
            && t.id == id && r.inFlight == NextTurn(s.waiting) && r.latestFailure == None
            && r.broadcast == s.broadcast + [TurnEnded(id)] + NextFrames(s.waiting)
            && r.history == s.history + (Opening(t, None) + t.folded)
  {
    FoundIsFirst(s, id);
    NextStarts(Stopped(s, s.inFlight[0]));
    StepRecords(script, s, Cancel(id));
    var t := s.inFlight[0];
    assert Opening(t, None) + [] + t.folded + [] == Opening(t, None) + t.folded;
  }

  /** A message that comes has its turn at once when none runs, and otherwise waits, which every page is told. */
  lemma MessageComes(script: Script, s: Chat, m: Message)
    requires Orderly(s)
    ensures Step(script, s, Arrive(m)) ==
      if s.inFlight == [] then
        s.(latestFailure := None, inFlight := NextTurn([m]), broadcast := s.broadcast + NextFrames([m]))
      else
        var queued := Queued(m.id, m.content, m.source.images, m.source.attachments, m.source.sender, m.source.endpoint);
        s.(waiting := s.waiting + [m], broadcast := s.broadcast + [MessageQueued(queued)])
  {
  }

  /**
   A session's message has a turn of its own when none runs, and is otherwise told and recorded as
   one of the turn.
   */
  lemma SessionMessageComes(script: Script, s: Chat, id: string, content: string, address: string)
    requires Orderly(s)
    ensures var source := Source("background", None, [], [], Some(address));
            Step(script, s, FromSession(id, content, address)) ==
              if s.inFlight == [] then
                var m := Message(id, content, source);
                s.(latestFailure := None, inFlight := NextTurn([m]), broadcast := s.broadcast + NextFrames([m]))
              else
                var t := s.inFlight[0];
                var said := User(Said(content, [], [], None, Some(address)), Some(t.id));
                s.(inFlight := [t.(folded := t.folded + [said])],
                   broadcast := s.broadcast + [UserMessage(id, t.id, content, source)])
  {
  }

  /** The failure of a first run can be run again while nothing else runs; every page is told that the turn starts. */
  lemma {:induction false} RetryIff(script: Script, s: Chat, id: string)
    ensures var r := Step(script, s, Retry(id));
            if s.latestFailure.Some? && s.latestFailure.value.id == id && s.inFlight == [] then
              var m := s.latestFailure.value;
              && r.inFlight == [Running(id, m.content, m.source, true, [])] && r.latestFailure == None
              && r.broadcast == s.broadcast + [TurnStarted(id, m.source)]
            else r == s
  {
  }

  /** The place of a waiting message is the first that has its id. */
  lemma {:induction false} IndexOfIs(waiting: seq<Message>, id: string)
    ensures var at := IndexOf(waiting, id);
            (at < |waiting| ==> waiting[at].id == id) && forall i :: 0 <= i < at ==> waiting[i].id != id
  {
    if waiting != [] && waiting[0].id != id {
      IndexOfIs(waiting[1..], id);
    }
  }

  /**
   A message sent now: the turn that runs is told to end and recorded as stopped, and the message's
   turn is told to start.
   */
  lemma {:induction false} SentNowTells(script: Script, s: Chat, at: nat)
    requires Orderly(s) && at < |s.waiting| && forall i :: 0 <= i < at ==> s.waiting[i].id != s.waiting[at].id
    ensures s.inFlight != []
    ensures var m, t, r := s.waiting[at], s.inFlight[0], Step(script, s, SendNow(s.waiting[at].id));
            && r.inFlight == NextTurn([m]) && r.waiting == s.waiting[..at] + s.waiting[at + 1..]
            && r.broadcast == s.broadcast + [TurnEnded(t.id)] + NextFrames([m])
            && r.history == s.history + (Opening(t, None) + t.folded)
  {
    var m, t := s.waiting[at], s.inFlight[0];
    IndexOfIs(s.waiting, m.id);
    SendNowCancels(s, m.id);
    StoppedForNext(s, s.(waiting := ToFront(s.waiting, at)), m, s.waiting[..at] + s.waiting[at + 1..]);
  }

  lemma {:induction false} StoppedForNext(s: Chat, front: Chat, m: Message, rest: seq<Message>)
    requires s.inFlight != [] && Delete(s.inFlight, s.inFlight[0].id) == [] && s.latestFailure == None
    requires front.waiting == [m] + rest && front == s.(waiting := front.waiting)
    ensures var t, r := s.inFlight[0], CancelTurn(front, s.inFlight[0]);
            && r.inFlight == NextTurn([m]) && r.waiting == rest
            && r.broadcast == s.broadcast + [TurnEnded(t.id)] + NextFrames([m])
            && r.history == s.history + (Opening(t, None) + t.folded)
  {
    var t := s.inFlight[0];
    NextStarts(Stopped(front, t));
    assert Opening(t, None) + [] + t.folded + [] == Opening(t, None) + t.folded;
  }

  /** A message withdrawn leaves its place, and every page is told. */
  lemma {:induction false} WithdrawnTells(script: Script, s: Chat, at: nat)
    requires at < |s.waiting| && forall i :: 0 <= i < at ==> s.waiting[i].id != s.waiting[at].id
    ensures var m := s.waiting[at];
            Step(script, s, Withdraw(m.id)) ==
              s.(waiting := s.waiting[..at] + s.waiting[at + 1..], withdrawn := s.withdrawn + [m],
                 broadcast := s.broadcast + [MessageWithdrawn(m.id)])
  {
    IndexOfIs(s.waiting, s.waiting[at].id);
  }

  /** What is no message and no turn's end does nothing: sending now, withdrawing, finishing or cancelling it. */
  lemma {:induction false} UnknownDoesNothing(script: Script, s: Chat, id: string)
    ensures (forall m :: m in s.waiting ==> m.id != id) ==>
              Step(script, s, SendNow(id)) == s && Step(script, s, Withdraw(id)) == s
    ensures (forall t :: t in s.inFlight ==> t.id != id) ==>
              Step(script, s, Finish(id)) == s && Step(script, s, Cancel(id)) == s
  {
    var at := IndexOf(s.waiting, id);
    assert at < |s.waiting| ==> s.waiting[at] in s.waiting;
    FoundIn(s.inFlight, id);
  }

  lemma {:induction false} FoundIn(inFlight: seq<Running>, id: string)
    ensures FindTurn(inFlight, id).Some? <==> exists t :: t in inFlight && t.id == id
  {
    if inFlight != [] && inFlight[0].id != id {
      FoundIn(inFlight[1..], id);
      assert inFlight == [inFlight[0]] + inFlight[1..];
    }
  }

  /**
   What a turn sends on its way reaches every page and changes nothing else; it cannot speak for
   messages or end a turn.
   */
  lemma OnTheWayTells(script: Script, s: Chat, frame: Frame)
    ensures Step(script, s, Emit(frame)) ==
      if frame.TurnStarted? || frame.TurnUsage? || frame.Delta? || frame.Progress? || frame.Response? || frame.Untracked? then
        s.(broadcast := s.broadcast + [frame])
      else s
  {
  }

  /** From a page's message that finds nothing running to the end of its turn. */
  lemma {:induction false} FirstRunEnds(script: Script, s: Chat, m: Message)
    requires Orderly(s) && s.inFlight == []
    ensures var r := Step(script, Step(script, s, Arrive(m)), Finish(m.id));
            var failed := m.source.endpoint == "ws" && SaysError(m.content);
            && r.inFlight == [] && r.latestFailure == (if failed then Some(m) else None)
            && r.broadcast == s.broadcast + [UserMessage(m.id, m.id, m.content, m.source), TurnStarted(m.id, m.source)]
                 + [TurnUsage(m.id, 420), if failed then Untracked("error") else Response(m.id, ""), TurnEnded(m.id)]
  {
    var begun := Step(script, s, Arrive(m));
    MessageComes(script, s, m);
    FoundIn(begun.inFlight, m.id);
    assert begun.inFlight[0] in begun.inFlight;
    StepOrderly(script, s, Arrive(m));
    TurnEnds(script, begun, m.id);
    assert begun.broadcast + [TurnUsage(m.id, 420)] + [] == begun.broadcast + [TurnUsage(m.id, 420)];
  }

  // ---- The id of the turn ------------------------------------------------------------------

  /** The records carry the id of their turn. */
  ghost predicate CarryId(records: seq<Record>, id: string)
  {
    forall r :: r in records ==> if r.User? then r.turnId == Some(id) else r.turn == id
  }

  /** What was folded into a turn carries its id. */
  ghost predicate Folded(s: Chat)
  {
    forall t :: t in s.inFlight ==> CarryId(t.folded, t.id)
  }

  /** The turn an operation ends. */
  function Ended(s: Chat, e: Event): Option<Running>
  {
    match e
    case Finish(id) => FindTurn(s.inFlight, id)
    case Cancel(id) => FindTurn(s.inFlight, id)
    case SendNow(id) => if IndexOf(s.waiting, id) < |s.waiting| && s.inFlight != [] then Some(s.inFlight[0]) else None
    case _ => None
  }

  lemma {:induction false} OwnCarryId(turn: string, details: seq<string>)
    ensures CarryId(OwnRecords(turn, details), turn)
  {
    if details != [] {
      OwnCarryId(turn, details[1..]);
    }
  }

  /** What a turn leaves in history carries its id exactly when its opening does, or is not recorded again. */
  lemma RecordedCarryId(turn: Running, opening: Record, own: seq<Record>)
    requires opening.User? && CarryId(turn.folded, turn.id) && CarryId(own, turn.id)
    ensures CarryId(Recorded(turn, opening, own), turn.id) <==> turn.rerun || opening.turnId == Some(turn.id)
  {
    var records := Recorded(turn, opening, own);
    if turn.rerun || opening.turnId == Some(turn.id) {
      forall r | r in records ensures r in own || r in turn.folded || (r == opening && !turn.rerun) {
      }
    } else {
      assert records[0] == opening;
    }
  }

  /** History only grows, by what the turn that ends leaves. */
  lemma StepRecords(script: Script, s: Chat, e: Event)
    requires Orderly(s)
    ensures Step(script, s, e).history == s.history +
              if Ended(s, e).None? then []
              else
                var t := Ended(s, e).value;
                var opening := SaidOf(t.content, t.source);
                if e.Finish? then
                  Recorded(t, User(opening, Some(t.id)), OwnRecords(t.id, script(t.content, t.source, t.rerun)))
                else Recorded(t, User(opening, None), [])
  {
    if Ended(s, e).None? {
      assert s.history + [] == s.history;
    }
    if e.SendNow? {
      SendNowCancels(s, e.id);
    }
  }

  /**
   What an operation adds to history carries the id of the turn it ends, exactly when the turn ran
   to its end or was a rerun: a stopped turn's own message is recorded without it.
   */
  lemma StepCarriesIdIff(script: Script, s: Chat, e: Event)
    requires Orderly(s) && Folded(s)
    ensures s.history <= Step(script, s, e).history
    ensures var added := Step(script, s, e).history[|s.history|..];
            if Ended(s, e).None? then added == []
            else CarryId(added, Ended(s, e).value.id) <==> e.Finish? || Ended(s, e).value.rerun
  {
    StepRecords(script, s, e);
    if Ended(s, e).Some? {
      var t := Ended(s, e).value;
      EndedInFlight(s, e);
      var opening, own := SaidOf(t.content, t.source), OwnRecords(t.id, script(t.content, t.source, t.rerun));
      OwnCarryId(t.id, script(t.content, t.source, t.rerun));
      RecordedCarryId(t, User(opening, Some(t.id)), own);
      RecordedCarryId(t, User(opening, None), []);
    }
  }

  lemma EndedInFlight(s: Chat, e: Event)
    requires Orderly(s) && Ended(s, e).Some?
    ensures Ended(s, e).value in s.inFlight
  {
    if !e.SendNow? {
      FoundIsFirst(s, e.id);
    }
  }

  lemma StepFolded(script: Script, s: Chat, e: Event)
    requires Orderly(s) && Folded(s)
    ensures Folded(Step(script, s, e))
  {
    match e
    case Finish(id) => FoundIsFirst(s, id);
    case Cancel(id) => FoundIsFirst(s, id);
    case SendNow(id) => SendNowCancels(s, id);
    case _ =>
  }

  /** In every run what was folded into a turn carries its id. */
  lemma {:induction false} RunFolded(script: Script, events: seq<Event>)
    ensures Folded(Run(script, events))
  {
    if events != [] {
      var before, e := events[..|events| - 1], events[|events| - 1];
      RunFolded(script, before);
      RunOrderly(script, before);
      StepFolded(script, Run(script, before), e);
    }
  }

  /** Every message in history names a turn. */
  ghost predicate AllCarry(records: seq<Record>)
  {
    forall r :: r in records && r.User? ==> r.turnId.Some?
  }

  /** Somewhere in the run a turn that is no rerun was stopped. */
  ghost predicate StopsTurn(script: Script, events: seq<Event>)
  {
    events != [] &&
      var before, e := events[..|events| - 1], events[|events| - 1];
      var ended := Ended(Run(script, before), e);
      StopsTurn(script, before) || (!e.Finish? && ended.Some? && !ended.value.rerun)
  }

  /** In every run: all messages of history name their turn exactly when no turn was stopped but reruns. */
  lemma {:induction false} AllCarryIff(script: Script, events: seq<Event>)
    ensures AllCarry(Run(script, events).history) <==> !StopsTurn(script, events)
  {
    if events != [] {
      var before, e := events[..|events| - 1], events[|events| - 1];
      var s, r := Run(script, before), Run(script, events);
      AllCarryIff(script, before);
      RunOrderly(script, before);
      RunFolded(script, before);
      AddedCarryIff(script, s, e);
      var added := r.history[|s.history|..];
      assert r.history == s.history + added;
      assert AllCarry(r.history) <==> AllCarry(s.history) && AllCarry(added);
    }
  }

  lemma AddedCarryIff(script: Script, s: Chat, e: Event)
    requires Orderly(s) && Folded(s)
    ensures s.history <= Step(script, s, e).history
    ensures AllCarry(Step(script, s, e).history[|s.history|..])
       <==> Ended(s, e).None? || e.Finish? || Ended(s, e).value.rerun
  {
    StepCarriesIdIff(script, s, e);
    StepRecords(script, s, e);
    var added := Step(script, s, e).history[|s.history|..];
    if Ended(s, e).Some? && !e.Finish? && !Ended(s, e).value.rerun {
      assert added[0].User? && added[0].turnId == None;
    }
  }

  /** A message comes, and its turn is stopped: history has it without the turn's id. */
  lemma CancelledLosesId(script: Script, m: Message)
    ensures var run := [Arrive(m)] + [Cancel(m.id)];
            StopsTurn(script, run) && Run(script, run).history == [User(SaidOf(m.content, m.source), None)]
  {
    assert [] + [Arrive(m)] == [Arrive(m)];
    RunsOn(script, [], Arrive(m));
    RunsOn(script, [Arrive(m)], Cancel(m.id));
    var s := Run(script, [Arrive(m)]);
    assert s == Start(IDLE, m) && s.inFlight == [Running(m.id, m.content, m.source, false, [])];
    StepRecords(script, s, Cancel(m.id));
    assert ([Arrive(m)] + [Cancel(m.id)])[..1] == [Arrive(m)];
  }

  // ---- Every message is in one place -------------------------------------------------------

  function One(same: bool): nat
  {
    if same then 1 else 0
  }

  /** How often history has `said`. */
  function InHistory(records: seq<Record>, said: Said): nat
  {
    if records == [] then 0
    else One(records[0].User? && records[0].said == said) + InHistory(records[1..], said)
  }

  function InMessages(ms: seq<Message>, said: Said): nat
  {
    if ms == [] then 0 else One(SaidOf(ms[0].content, ms[0].source) == said) + InMessages(ms[1..], said)
  }

  /** How often a turn will bring `said` to history: its message, unless history has it, and what it read. */
  function InTurn(turn: Running, said: Said): nat
  {
    One(!turn.rerun && SaidOf(turn.content, turn.source) == said) + InHistory(turn.folded, said)
  }

  function InFlight(inFlight: seq<Running>, said: Said): nat
  {
    if inFlight == [] then 0 else InTurn(inFlight[0], said) + InFlight(inFlight[1..], said)
  }

  /** In how many places `said` is. */
  function Places(s: Chat, said: Said): nat
  {
    InHistory(s.history, said) + InFlight(s.inFlight, said) + InMessages(s.waiting, said) + InMessages(s.withdrawn, said)
  }

  predicate Brings(e: Event, said: Said)
  {
    match e
    case Arrive(m) => SaidOf(m.content, m.source) == said
    case FromSession(_, content, address) => SaidOf(content, Source("background", None, [], [], Some(address))) == said
    case _ => false
  }

  /** How often `said` came. */
  function Came(events: seq<Event>, said: Said): nat
  {
    if events == [] then 0 else Came(events[..|events| - 1], said) + One(Brings(events[|events| - 1], said))
  }

  lemma {:induction false} InHistoryAppend(a: seq<Record>, b: seq<Record>, said: Said)
    ensures InHistory(a + b, said) == InHistory(a, said) + InHistory(b, said)
  {
    if a == [] {
      assert a + b == b;
    } else {
      InHistoryAppend(a[1..], b, said);
      assert (a + b)[1..] == a[1..] + b && (a + b)[0] == a[0];
    }
  }

  lemma {:induction false} InMessagesAppend(a: seq<Message>, b: seq<Message>, said: Said)
    ensures InMessages(a + b, said) == InMessages(a, said) + InMessages(b, said)
  {
    if a == [] {
      assert a + b == b;
    } else {
      InMessagesAppend(a[1..], b, said);
      assert (a + b)[1..] == a[1..] + b && (a + b)[0] == a[0];
    }
  }

  lemma OneMessage(m: Message, said: Said)
    ensures InMessages([m], said) == One(SaidOf(m.content, m.source) == said)
  {
    assert [m][1..] == [];
  }

  /** A message taken out of the waiting ones is one of them. */
  lemma {:induction false} TakenOut(ms: seq<Message>, at: nat, said: Said)
    requires at < |ms|
    ensures InMessages(ms, said)
         == InMessages(ms[..at] + ms[at + 1..], said) + One(SaidOf(ms[at].content, ms[at].source) == said)
  {
    OneMessage(ms[at], said);
    InMessagesAppend(ms[..at], [ms[at]], said);
    InMessagesAppend(ms[..at] + [ms[at]], ms[at + 1..], said);
    InMessagesAppend(ms[..at], ms[at + 1..], said);
    assert ms == ms[..at] + [ms[at]] + ms[at + 1..];
  }

  lemma {:induction false} OwnBringNothing(turn: string, details: seq<string>, said: Said)
    ensures InHistory(OwnRecords(turn, details), said) == 0
  {
    if details != [] {
      OwnBringNothing(turn, details[1..], said);
      assert OwnRecords(turn, details)[1..] == OwnRecords(turn, details[1..]);
    }
  }

  /** Recording a turn moves to history what the turn held. */
  lemma RecordedBrings(turn: Running, opening: Record, own: seq<Record>, said: Said)
    requires opening.User? && opening.said == SaidOf(turn.content, turn.source) && InHistory(own, said) == 0
    ensures InHistory(Recorded(turn, opening, own), said) == InTurn(turn, said)
  {
    var last := if own == [] then 0 else |own| - 1;
    var first := if turn.rerun then [] else [opening];
    assert own == own[..last] + own[last..];
    InHistoryAppend(own[..last], own[last..], said);
    InHistoryAppend(first + own[..last] + turn.folded, own[last..], said);
    InHistoryAppend(first + own[..last], turn.folded, said);
    InHistoryAppend(first, own[..last], said);
    assert [opening][1..] == [];
    assert InHistory([opening], said) == One(opening.said == said) + InHistory([], said);
  }

  lemma OneInFlight(turn: Running, said: Said)
    ensures InFlight([turn], said) == InTurn(turn, said)
  {
    assert [turn][1..] == [];
  }

  lemma StartPlaces(s: Chat, m: Message, said: Said)
    requires s.inFlight == []
    ensures Places(Start(s, m), said) == Places(s, said) + One(SaidOf(m.content, m.source) == said)
  {
    OneInFlight(Running(m.id, m.content, m.source, false, []), said);
  }

  lemma StartNextPlaces(s: Chat, said: Said)
    ensures Places(StartNext(s), said) == Places(s, said)
  {
    if s.inFlight == [] && s.waiting != [] {
      StartPlaces(s.(waiting := s.waiting[1..]), s.waiting[0], said);
    }
  }

  /** A turn that ends, whichever way, leaves everything it held in history. */
  lemma EndPlaces(s: Chat, ended: Chat, turn: Running, opening: Record, own: seq<Record>, said: Said)
    requires s.inFlight == [turn] && opening.User? && InHistory(own, said) == 0
    requires opening.said == SaidOf(turn.content, turn.source)
    requires ended.inFlight == [] && ended.waiting == s.waiting && ended.withdrawn == s.withdrawn
    requires ended.history == s.history + Recorded(turn, opening, own)
    ensures Places(ended, said) == Places(s, said)
  {
    RecordedBrings(turn, opening, own, said);
    InHistoryAppend(s.history, Recorded(turn, opening, own), said);
    OneInFlight(turn, said);
  }

  lemma CancelPlaces(s: Chat, id: string, said: Said)
    requires Orderly(s)
    ensures Places(CancelById(s, id), said) == Places(s, said)
  {
    FoundIsFirst(s, id);
    var found := FindTurn(s.inFlight, id);
    if found.Some? {
      var turn := found.value;
      EndPlaces(s, Stopped(s, turn), turn, User(SaidOf(turn.content, turn.source), None), [], said);
      StartNextPlaces(Stopped(s, turn), said);
    }
  }

  lemma FinishPlaces(script: Script, s: Chat, id: string, said: Said)
    requires Orderly(s)
    ensures Places(Step(script, s, Finish(id)), said) == Places(s, said)
  {
    FoundIsFirst(s, id);
    var found := FindTurn(s.inFlight, id);
    if found.Some? {
      var turn := found.value;
      var details := script(turn.content, turn.source, turn.rerun);
      OwnBringNothing(turn.id, details, said);
      EndPlaces(s, Finished(script, s, turn), turn, User(SaidOf(turn.content, turn.source), Some(turn.id)),
                OwnRecords(turn.id, details), said);
      StartNextPlaces(Finished(script, s, turn), said);
    }
  }

  lemma FrontPlaces(waiting: seq<Message>, at: nat, said: Said)
    requires at < |waiting|
    ensures InMessages(ToFront(waiting, at), said) == InMessages(waiting, said)
  {
    var front := ToFront(waiting, at);
    TakenOut(waiting, at, said);
    TakenOut(front, 0, said);
    assert front[..0] + front[1..] == waiting[..at] + waiting[at + 1..];
  }

  lemma SendNowPlaces(s: Chat, id: string, said: Said)
    requires Orderly(s)
    ensures Places(SendNowStep(s, id), said) == Places(s, said)
  {
    var at := IndexOf(s.waiting, id);
    if at < |s.waiting| {
      SendNowCancels(s, id);
      FrontPlaces(s.waiting, at, said);
      var front := s.(waiting := ToFront(s.waiting, at));
      assert FindTurn(s.inFlight, s.inFlight[0].id) == Some(s.inFlight[0]);
      assert SendNowStep(s, id) == CancelById(front, s.inFlight[0].id);
      CancelPlaces(front, s.inFlight[0].id, said);
    }
  }

  lemma FromSessionPlaces(s: Chat, id: string, content: string, address: string, said: Said)
    requires Orderly(s)
    ensures Places(FromSessionStep(s, id, content, address), said)
         == Places(s, said) + One(Brings(FromSession(id, content, address), said))
  {
    var source := Source("background", None, [], [], Some(address));
    if s.inFlight == [] {
      StartPlaces(s, Message(id, content, source), said);
    } else {
      var turn := s.inFlight[0];
      var record := User(SaidOf(content, source), Some(turn.id));
      InHistoryAppend(turn.folded, [record], said);
      assert [record][1..] == [] && s.inFlight == [turn];
      OneInFlight(turn, said);
      OneInFlight(turn.(folded := turn.folded + [record]), said);
      assert [turn.(folded := turn.folded + [record])] + s.inFlight[1..] == [turn.(folded := turn.folded + [record])];
    }
  }

  lemma ArrivePlaces(s: Chat, m: Message, said: Said)
    ensures Places(ArriveStep(s, m), said) == Places(s, said) + One(Brings(Arrive(m), said))
  {
    if s.inFlight == [] && s.waiting == [] {
      StartPlaces(s, m, said);
    } else {
      InMessagesAppend(s.waiting, [m], said);
      OneMessage(m, said);
    }
  }

  lemma RetryPlaces(s: Chat, id: string, said: Said)
    ensures Places(RetryStep(s, id), said) == Places(s, said)
  {
    if CanRetry(s, id) {
      OneInFlight(Running(id, s.latestFailure.value.content, s.latestFailure.value.source, true, []), said);
    }
  }

  lemma WithdrawPlaces(s: Chat, id: string, said: Said)
    ensures Places(WithdrawStep(s, id), said) == Places(s, said)
  {
    var at := IndexOf(s.waiting, id);
    if at < |s.waiting| {
      TakenOut(s.waiting, at, said);
      InMessagesAppend(s.withdrawn, [s.waiting[at]], said);
      OneMessage(s.waiting[at], said);
    }
  }

  lemma StepPlaces(script: Script, s: Chat, e: Event, said: Said)
    requires Orderly(s)
    ensures Places(Step(script, s, e), said) == Places(s, said) + One(Brings(e, said))
  {
    match e
    case Arrive(m) => ArrivePlaces(s, m, said);
    case FromSession(id, content, address) => FromSessionPlaces(s, id, content, address, said);
    case Finish(id) => FinishPlaces(script, s, id, said);
    case Cancel(id) => CancelPlaces(s, id, said);
    case Retry(id) => RetryPlaces(s, id, said);
    case SendNow(id) => SendNowPlaces(s, id, said);
    case Withdraw(id) => WithdrawPlaces(s, id, said);
    case Emit(frame) =>
  }

  /**
   In every run, a message is in as many places as often as it came: history, the turn in
   flight, the waiting messages, and the withdrawn ones. One that came once is in one of them
   once; a turn run again does not bring its message a second time.
   */
  lemma {:induction false} EveryMessageInOnePlace(script: Script, events: seq<Event>, said: Said)
    ensures Places(Run(script, events), said) == Came(events, said)
  {
    if events != [] {
      var before := events[..|events| - 1];
      EveryMessageInOnePlace(script, before, said);
      RunOrderly(script, before);
      StepPlaces(script, Run(script, before), events[|events| - 1], said);
    }
  }

  // ---- The journal's queue -----------------------------------------------------------------

  /** The messages a journal that saw these frames holds as waiting. */
  function QueueAfter(frames: seq<Frame>): seq<Queued>
  {
    if frames == [] then []
    else TurnJournal.RecordWaiting(QueueAfter(frames[..|frames| - 1]), frames[|frames| - 1])
  }

  function QueuedAll(ms: seq<Message>): seq<Queued>
  {
    if ms == [] then [] else [QueuedOf(ms[0])] + QueuedAll(ms[1..])
  }

  /** The journal, which sees only frames, holds the messages that wait, in their order. */
  ghost predicate Synced(s: Chat)
  {
    QueueAfter(s.broadcast) == QueuedAll(s.waiting)
  }

  ghost predicate HasId(ms: seq<Message>, id: string)
  {
    exists m :: m in ms && m.id == id
  }

  /**
   What keeps the journal's queue: the message that leaves the queue shares its id with none
   that stays, and a session's message shares its id with none that waits.
   */
  ghost predicate KeepsQueue(s: Chat, e: Event)
  {
    match e
    case Arrive(_) => true
    case FromSession(id, _, _) => s.inFlight != [] ==> !HasId(s.waiting, id)
    case Emit(_) => true
    case Finish(id) => FindTurn(s.inFlight, id).Some? && s.waiting != [] ==> !HasId(s.waiting[1..], s.waiting[0].id)
    case Cancel(id) => FindTurn(s.inFlight, id).Some? && s.waiting != [] ==> !HasId(s.waiting[1..], s.waiting[0].id)
    case Retry(_) => true
    case SendNow(id) => (var at := IndexOf(s.waiting, id); at < |s.waiting| ==> !HasId(s.waiting[at + 1..], id))
    case Withdraw(id) => (var at := IndexOf(s.waiting, id); at < |s.waiting| ==> !HasId(s.waiting[at + 1..], id))
  }

  lemma QueueOne(frames: seq<Frame>, f: Frame)
    ensures QueueAfter(frames + [f]) == TurnJournal.RecordWaiting(QueueAfter(frames), f)
  {
    assert (frames + [f])[..|frames|] == frames;
  }

  lemma QueueTwo(frames: seq<Frame>, f: Frame, g: Frame)
    ensures QueueAfter(frames + [f, g])
         == TurnJournal.RecordWaiting(TurnJournal.RecordWaiting(QueueAfter(frames), f), g)
  {
    var more := frames + [f];
    assert frames + [f, g] == more + [g];
    QueueOne(more, g);
    QueueOne(frames, f);
  }

  /** A turn that starts tells the journal of its message. */
  lemma StartQueue(s: Chat, m: Message)
    ensures QueueAfter(Start(s, m).broadcast) == TurnJournal.WithoutMessage(QueueAfter(s.broadcast), m.id)
  {
    QueueTwo(s.broadcast, UserMessage(m.id, m.id, m.content, m.source), TurnStarted(m.id, m.source));
  }

  lemma {:induction false} QueuedAllAppend(a: seq<Message>, b: seq<Message>)
    ensures QueuedAll(a + b) == QueuedAll(a) + QueuedAll(b)
  {
    if a == [] {
      assert a + b == b;
    } else {
      QueuedAllAppend(a[1..], b);
      assert (a + b)[1..] == a[1..] + b && (a + b)[0] == a[0];
    }
  }

  lemma {:induction false} QueuedAllLength(ms: seq<Message>)
    ensures |QueuedAll(ms)| == |ms|
  {
    if ms != [] {
      QueuedAllLength(ms[1..]);
    }
  }

  /** Dropping an id leaves the queue as it was exactly when no message has it. */
  lemma {:induction false} DropsNothing(ms: seq<Message>, id: string)
    ensures |TurnJournal.WithoutMessage(QueuedAll(ms), id)| <= |ms|
    ensures !HasId(ms, id) <==> TurnJournal.WithoutMessage(QueuedAll(ms), id) == QueuedAll(ms)
    ensures HasId(ms, id) ==> |TurnJournal.WithoutMessage(QueuedAll(ms), id)| < |ms|
  {
    QueuedAllLength(ms);
    if ms != [] {
      DropsNothing(ms[1..], id);
      QueuedAllLength(ms[1..]);
      assert HasId(ms, id) <==> ms[0].id == id || HasId(ms[1..], id);
      assert QueuedAll(ms)[1..] == QueuedAll(ms[1..]);
    }
  }

  lemma {:induction false} DropAppend(a: seq<Queued>, b: seq<Queued>, id: string)
    ensures TurnJournal.WithoutMessage(a + b, id) == TurnJournal.WithoutMessage(a, id) + TurnJournal.WithoutMessage(b, id)
  {
    if a == [] {
      assert a + b == b;
    } else {
      DropAppend(a[1..], b, id);
      assert (a + b)[1..] == a[1..] + b && (a + b)[0] == a[0];
      Associative(if a[0].id != id then [a[0]] else [], TurnJournal.WithoutMessage(a[1..], id),
                  TurnJournal.WithoutMessage(b, id));
    }
  }

  lemma {:induction false} NoneBefore(ms: seq<Message>, id: string)
    ensures !HasId(ms[..IndexOf(ms, id)], id)
  {
    var at := IndexOf(ms, id);
    if !(ms == [] || ms[0].id == id) {
      NoneBefore(ms[1..], id);
      assert ms[..at] == [ms[0]] + ms[1..][..at - 1];
    }
  }

  /** Dropping an id takes out its first message alone exactly when it has no second. */
  lemma DropsFirst(ms: seq<Message>, id: string)
    requires IndexOf(ms, id) < |ms|
    ensures var at := IndexOf(ms, id);
            TurnJournal.WithoutMessage(QueuedAll(ms), id) == QueuedAll(ms[..at] + ms[at + 1..])
            <==> !HasId(ms[at + 1..], id)
  {
    var at := IndexOf(ms, id);
    var before, after := ms[..at], ms[at + 1..];
    NoneBefore(ms, id);
    DropsAround(before, ms[at], after);
    assert ms == before + ([ms[at]] + after);
    QueuedAllAppend(before, after);
    DropsNothing(after, id);
    SamePrefix(QueuedAll(before), TurnJournal.WithoutMessage(QueuedAll(after), id), QueuedAll(after));
  }

  lemma DropsAround(before: seq<Message>, m: Message, after: seq<Message>)
    requires !HasId(before, m.id)
    ensures TurnJournal.WithoutMessage(QueuedAll(before + ([m] + after)), m.id)
         == QueuedAll(before) + TurnJournal.WithoutMessage(QueuedAll(after), m.id)
  {
    var rest := QueuedAll(after);
    QueuedAllAppend(before, [m] + after);
    assert ([m] + after)[1..] == after;
    assert QueuedAll([m] + after) == [QueuedOf(m)] + rest;
    DropAppend(QueuedAll(before), [QueuedOf(m)] + rest, m.id);
    assert ([QueuedOf(m)] + rest)[1..] == rest;
    DropsNothing(before, m.id);
  }

  lemma SamePrefix<T>(a: seq<T>, b: seq<T>, c: seq<T>)
    ensures a + b == a + c <==> b == c
  {
    assert (a + b)[|a|..] == b && (a + c)[|a|..] == c;
  }

  /** A turn that starts from the queue tells the journal of its message. */
  lemma StartNextSynced(s: Chat)
    requires Synced(s) && s.inFlight == [] && s.waiting != []
    ensures Synced(StartNext(s)) <==> !HasId(s.waiting[1..], s.waiting[0].id)
  {
    var m := s.waiting[0];
    StartQueue(s.(waiting := s.waiting[1..]), m);
    assert IndexOf(s.waiting, m.id) == 0;
    DropsFirst(s.waiting, m.id);
    assert s.waiting[..0] + s.waiting[1..] == s.waiting[1..];
  }

  lemma StoppedSynced(s: Chat, turn: Running)
    ensures QueueAfter(Stopped(s, turn).broadcast) == QueueAfter(s.broadcast)
  {
    QueueOne(s.broadcast, TurnEnded(turn.id));
  }

  lemma FinishedSynced(script: Script, s: Chat, turn: Running)
    ensures QueueAfter(Finished(script, s, turn).broadcast) == QueueAfter(s.broadcast)
  {
    var ending := Ending(turn);
    QueueTwo(s.broadcast, ending[0], ending[1]);
    QueueOne(s.broadcast + [ending[0], ending[1]], ending[2]);
    assert s.broadcast + [ending[0], ending[1]] + [ending[2]] == s.broadcast + ending;
  }

  lemma CancelSynced(s: Chat, id: string)
    requires Orderly(s) && Synced(s)
    ensures Synced(CancelById(s, id)) <==> KeepsQueue(s, Cancel(id))
  {
    FoundIsFirst(s, id);
    var found := FindTurn(s.inFlight, id);
    if found.Some? {
      StoppedSynced(s, found.value);
      if s.waiting != [] {
        StartNextSynced(Stopped(s, found.value));
      }
    }
  }

  lemma FinishSynced(script: Script, s: Chat, id: string)
    requires Orderly(s) && Synced(s)
    ensures Synced(Step(script, s, Finish(id))) <==> KeepsQueue(s, Finish(id))
  {
    FoundIsFirst(s, id);
    var found := FindTurn(s.inFlight, id);
    if found.Some? {
      FinishedSynced(script, s, found.value);
      if s.waiting != [] {
        StartNextSynced(Finished(script, s, found.value));
      }
    }
  }

  /** The queue the journal held is not in the order of a message sent now, but once that starts the rest is. */
  lemma SendNowSynced(s: Chat, id: string)
    requires Orderly(s) && Synced(s)
    ensures Synced(SendNowStep(s, id)) <==> KeepsQueue(s, SendNow(id))
  {
    var at := IndexOf(s.waiting, id);
    if at < |s.waiting| {
      SendNowCancels(s, id);
      var front := s.(waiting := ToFront(s.waiting, at));
      FrontSynced(s, Stopped(front, s.inFlight[0]), at);
      StoppedSynced(front, s.inFlight[0]);
    }
  }

  lemma FrontSynced(s: Chat, stopped: Chat, at: nat)
    requires Synced(s) && at < |s.waiting| && IndexOf(s.waiting, s.waiting[at].id) == at
    requires stopped.inFlight == [] && stopped.waiting == ToFront(s.waiting, at)
    requires QueueAfter(stopped.broadcast) == QueueAfter(s.broadcast)
    ensures Synced(StartNext(stopped)) <==> !HasId(s.waiting[at + 1..], s.waiting[at].id)
  {
    var m, rest := s.waiting[at], s.waiting[..at] + s.waiting[at + 1..];
    assert stopped.waiting[1..] == rest;
    var next := stopped.(waiting := rest);
    StartQueue(next, m);
    DropsFirst(s.waiting, m.id);
    assert StartNext(stopped) == Start(next, m);
    assert QueueAfter(Start(next, m).broadcast) == TurnJournal.WithoutMessage(QueuedAll(s.waiting), m.id);
  }

  lemma WithdrawSynced(s: Chat, id: string)
    requires Synced(s)
    ensures Synced(WithdrawStep(s, id)) <==> KeepsQueue(s, Withdraw(id))
  {
    var at := IndexOf(s.waiting, id);
    if at < |s.waiting| {
      var r := WithdrawStep(s, id);
      QueueOne(s.broadcast, MessageWithdrawn(id));
      assert QueueAfter(r.broadcast) == TurnJournal.WithoutMessage(QueuedAll(s.waiting), id);
      assert r.waiting == s.waiting[..at] + s.waiting[at + 1..];
      DropsFirst(s.waiting, id);
    }
  }

  lemma ArriveSynced(s: Chat, m: Message)
    requires Synced(s)
    ensures Synced(ArriveStep(s, m))
  {
    if s.inFlight == [] && s.waiting == [] {
      StartQueue(s, m);
    } else {
      QueueOne(s.broadcast, MessageQueued(QueuedOf(m)));
      QueuedAllAppend(s.waiting, [m]);
      assert [m][1..] == [];
    }
  }

  lemma FromSessionSynced(s: Chat, id: string, content: string, address: string)
    requires Orderly(s) && Synced(s)
    ensures Synced(FromSessionStep(s, id, content, address)) <==> KeepsQueue(s, FromSession(id, content, address))
  {
    var source := Source("background", None, [], [], Some(address));
    if s.inFlight == [] {
      StartQueue(s, Message(id, content, source));
    } else {
      QueueOne(s.broadcast, UserMessage(id, s.inFlight[0].id, content, source));
      DropsNothing(s.waiting, id);
    }
  }

  lemma EmitSynced(script: Script, s: Chat, frame: Frame)
    requires Synced(s)
    ensures Synced(Step(script, s, Emit(frame)))
  {
    QueueOne(s.broadcast, frame);
  }

  lemma RetrySynced(s: Chat, id: string)
    requires Synced(s)
    ensures Synced(RetryStep(s, id))
  {
    if CanRetry(s, id) {
      QueueOne(s.broadcast, TurnStarted(id, s.latestFailure.value.source));
    }
  }

  /** An operation keeps the journal's queue right exactly when it meets `KeepsQueue`. */
  lemma StepSynced(script: Script, s: Chat, e: Event)
    requires Orderly(s) && Synced(s)
    ensures Synced(Step(script, s, e)) <==> KeepsQueue(s, e)
  {
    match e
    case Arrive(m) => ArriveSynced(s, m);
    case FromSession(id, content, address) => FromSessionSynced(s, id, content, address);
    case Emit(frame) => EmitSynced(script, s, frame);
    case Finish(id) => FinishSynced(script, s, id);
    case Cancel(id) => CancelSynced(s, id);
    case Retry(id) => RetrySynced(s, id);
    case SendNow(id) => SendNowSynced(s, id);
    case Withdraw(id) => WithdrawSynced(s, id);
  }

  lemma RunsOn(script: Script, events: seq<Event>, e: Event)
    ensures Run(script, events + [e]) == Step(script, Run(script, events), e)
  {
    assert (events + [e])[..|events|] == events;
  }

  lemma WaitsTwice(s: Chat, m: Message)
    requires Synced(s) && s.inFlight != [] && s.waiting == []
    ensures var waits := ArriveStep(ArriveStep(s, m), m); waits.waiting == [m, m] && Synced(waits)
  {
    ArriveSynced(s, m);
    ArriveSynced(ArriveStep(s, m), m);
  }

  lemma WithdrawnTwice(waits: Chat, m: Message)
    requires Synced(waits) && waits.waiting == [m, m]
    ensures WithdrawStep(waits, m.id).waiting == [m] && !Synced(WithdrawStep(waits, m.id))
  {
    assert IndexOf(waits.waiting, m.id) == 0;
    assert waits.waiting[1..][0] == m;
    WithdrawSynced(waits, m.id);
    assert [m, m][..0] + [m, m][1..] == [m];
  }

  /** Two messages that come under one id both wait; once one is withdrawn the journal holds neither. */
  lemma SharedIdForgotten(script: Script, a: Message, b: Message)
    ensures var waits := Run(script, [Arrive(a)] + [Arrive(b)] + [Arrive(b)]);
            && waits.waiting == [b, b] && Synced(waits)
            && WithdrawStep(waits, b.id).waiting == [b] && !Synced(WithdrawStep(waits, b.id))
  {
    assert [] + [Arrive(a)] == [Arrive(a)];
    RunsOn(script, [], Arrive(a));
    RunsOn(script, [Arrive(a)], Arrive(b));
    RunsOn(script, [Arrive(a)] + [Arrive(b)], Arrive(b));
    var s := ArriveStep(IDLE, a);
    ArriveSynced(IDLE, a);
    WaitsTwice(s, b);
    WithdrawnTwice(ArriveStep(ArriveStep(s, b), b), b);
  }

  /** No two waiting messages share an id. */
  ghost predicate DistinctIds(ms: seq<Message>)
  {
    forall i, j :: 0 <= i < j < |ms| ==> ms[i].id != ms[j].id
  }

  ghost predicate NewId(s: Chat, e: Event)
  {
    match e
    case Arrive(m) => !HasId(s.waiting, m.id)
    case FromSession(id, _, _) => !HasId(s.waiting, id)
    case _ => true
  }

  /** Each message that comes has an id no message then waiting has. */
  ghost predicate NewIds(script: Script, events: seq<Event>)
  {
    events != [] ==>
      NewIds(script, events[..|events| - 1]) && NewId(Run(script, events[..|events| - 1]), events[|events| - 1])
  }

  lemma DistinctKeepsQueue(s: Chat, e: Event)
    requires DistinctIds(s.waiting) && NewId(s, e)
    ensures KeepsQueue(s, e)
  {
  }

  lemma DistinctMore(ms: seq<Message>, m: Message)
    requires DistinctIds(ms) && !HasId(ms, m.id)
    ensures DistinctIds(ms + [m])
  {
    forall i | 0 <= i < |ms| ensures ms[i].id != m.id {
      assert ms[i] in ms;
    }
  }

  lemma DistinctCut(ms: seq<Message>, at: nat)
    requires DistinctIds(ms) && at < |ms|
    ensures DistinctIds(ms[..at] + ms[at + 1..])
  {
    var cut := ms[..at] + ms[at + 1..];
    forall k | 0 <= k < |cut| ensures cut[k] == ms[if k < at then k else k + 1] {
    }
  }

  lemma StartNextDistinct(s: Chat)
    requires DistinctIds(s.waiting)
    ensures DistinctIds(StartNext(s).waiting)
  {
  }

  lemma StepDistinct(script: Script, s: Chat, e: Event)
    requires Orderly(s) && DistinctIds(s.waiting) && (e.Arrive? ==> !HasId(s.waiting, e.message.id))
    ensures DistinctIds(Step(script, s, e).waiting)
  {
    match e
    case Arrive(m) => DistinctMore(s.waiting, m);
    case SendNow(id) => SendNowDistinct(script, s, id);
    case Finish(id) =>
      var turn := FindTurn(s.inFlight, id);
      if turn.Some? {
        StartNextDistinct(Finished(script, s, turn.value));
      }
    case Cancel(id) =>
      var turn := FindTurn(s.inFlight, id);
      if turn.Some? {
        StartNextDistinct(Stopped(s, turn.value));
      }
    case Withdraw(id) => WithdrawDistinct(s, id);
    case _ =>
  }

  lemma SendNowDistinct(script: Script, s: Chat, id: string)
    requires Orderly(s) && DistinctIds(s.waiting)
    ensures DistinctIds(SendNowStep(s, id).waiting)
  {
    var at := IndexOf(s.waiting, id);
    if at < |s.waiting| {
      SentNowRuns(script, s, id);
      DistinctCut(s.waiting, at);
    }
  }

  lemma WithdrawDistinct(s: Chat, id: string)
    requires DistinctIds(s.waiting)
    ensures DistinctIds(WithdrawStep(s, id).waiting)
  {
    var at := IndexOf(s.waiting, id);
    if at < |s.waiting| {
      DistinctCut(s.waiting, at);
    }
  }

  /**
   In a run whose messages come with ids of their own, the journal holds the waiting messages after
   every operation.
   */
  lemma {:induction false} JournalHoldsQueue(script: Script, events: seq<Event>)
    requires NewIds(script, events)
    ensures Synced(Run(script, events)) && DistinctIds(Run(script, events).waiting)
  {
    if events != [] {
      var before, e := events[..|events| - 1], events[|events| - 1];
      JournalHoldsQueue(script, before);
      RunOrderly(script, before);
      DistinctKeepsQueue(Run(script, before), e);
      StepSynced(script, Run(script, before), e);
      StepDistinct(script, Run(script, before), e);
    }
  }

  /** The queue of frames is the one the turn journal keeps. */
  lemma {:induction false} JournalQueueIs(log: seq<TurnJournal.Entry>)
    ensures TurnJournal.RecordAll(log).waiting == QueueAfter(TurnJournal.FramesOf(log))
  {
    if log != [] {
      var before, last := log[..|log| - 1], log[|log| - 1];
      JournalQueueIs(before);
      TurnJournal.FramesOfAppend(before, [last]);
      assert log == before + [last];
      assert TurnJournal.FramesOf([last]) == [last.frame];
      QueueOne(TurnJournal.FramesOf(before), last.frame);
    }
  }

  // ---- The simulator -----------------------------------------------------------------------

  class ChatSimulator {
    const script: Script
    var inFlight: seq<Running>
    var waiting: seq<Message>
    var latestFailure: Option<Message>
    var history: seq<Record>
    /** The frames sent, for every page and the journal. */
    var broadcast: seq<Frame>
    ghost var withdrawn: seq<Message>

    constructor (script: Script)
      ensures this.script == script && State() == IDLE
    {
      this.script := script;
      inFlight, waiting, latestFailure, history, broadcast, withdrawn := [], [], None, [], [], [];
    }

    ghost function State(): Chat
      reads this
    {
      Chat(inFlight, waiting, latestFailure, history, broadcast, withdrawn)
    }

    method StartTurn(m: Message)
      modifies this
      ensures State() == Start(old(State()), m)
    {
      latestFailure := None;
      inFlight := Put(inFlight, Running(m.id, m.content, m.source, false, []));
      broadcast := broadcast + [UserMessage(m.id, m.id, m.content, m.source), TurnStarted(m.id, m.source)];
    }

    method StartNextWaiting()
      modifies this
      ensures State() == StartNext(old(State()))
    {
      if inFlight != [] || waiting == [] {
        return;
      }
      var next := waiting[0];
      waiting := waiting[1..];
      StartTurn(next);
    }

    method MessageArrives(m: Message)
      modifies this
      ensures State() == Step(script, old(State()), Arrive(m))
    {
      if inFlight == [] && waiting == [] {
        StartTurn(m);
        return;
      }
      waiting := waiting + [m];
      broadcast := broadcast + [MessageQueued(QueuedOf(m))];
    }

    method ReceiveFromSession(id: string, content: string, address: string)
      modifies this
      ensures State() == Step(script, old(State()), FromSession(id, content, address))
    {
      var source := Source("background", None, [], [], Some(address));
      if inFlight == [] {
        StartTurn(Message(id, content, source));
        return;
      }
      var turn := inFlight[0];
      broadcast := broadcast + [UserMessage(id, turn.id, content, source)];
      inFlight := [turn.(folded := turn.folded + [User(SaidOf(content, source), Some(turn.id))])] + inFlight[1..];
    }

    /** The end of a turn's timers, when the turn still runs. */
    method TurnFinishes(id: string)
      modifies this
      ensures State() == Step(script, old(State()), Finish(id))
    {
      var found := FindTurn(inFlight, id);
      if found.None? {
        return;
      }
      var turn := found.value;
      inFlight := Delete(inFlight, turn.id);
      broadcast := broadcast + Ending(turn);
      if Fails(turn) {
        latestFailure := Some(Message(turn.id, turn.content, turn.source));
      }
      history := history + Recorded(turn, User(SaidOf(turn.content, turn.source), Some(turn.id)),
                                    OwnRecords(turn.id, script(turn.content, turn.source, turn.rerun)));
      StartNextWaiting();
    }

    method CancelRunning(id: string)
      modifies this
      ensures State() == Step(script, old(State()), Cancel(id))
    {
      var found := FindTurn(inFlight, id);
      if found.None? {
        return;
      }
      var turn := found.value;
      inFlight := Delete(inFlight, turn.id);
      broadcast := broadcast + [TurnEnded(turn.id)];
      history := history + Recorded(turn, User(SaidOf(turn.content, turn.source), None), []);
      StartNextWaiting();
    }

    method RetryTurn(id: string) returns (ok: bool)
      modifies this
      ensures ok == CanRetry(old(State()), id)
      ensures State() == Step(script, old(State()), Retry(id))
    {
      if latestFailure.None? || latestFailure.value.id != id || inFlight != [] {
        return false;
      }
      var turn := latestFailure.value;
      latestFailure := None;
      inFlight := Put(inFlight, Running(id, turn.content, turn.source, true, []));
      broadcast := broadcast + [TurnStarted(id, turn.source)];
      return true;
    }

    method SendWaitingNow(id: string) returns (ok: bool)
      modifies this
      ensures ok == (IndexOf(old(waiting), id) < |old(waiting)|)
      ensures State() == Step(script, old(State()), SendNow(id))
    {
      var index := IndexOf(waiting, id);
      if index == |waiting| {
        return false;
      }
      waiting := ToFront(waiting, index);
      var keys := inFlight;
      var i := 0;
      while i < |keys|
        invariant i <= |keys|
        invariant CancelEach(State(), keys[i..]) == Step(script, old(State()), SendNow(id))
      {
        assert keys[i..][1..] == keys[i + 1..];
        CancelRunning(keys[i].id);
        i := i + 1;
      }
      return true;
    }

    method WithdrawWaiting(id: string) returns (ok: bool)
      modifies this
      ensures ok == (IndexOf(old(waiting), id) < |old(waiting)|)
      ensures State() == Step(script, old(State()), Withdraw(id))
    {
      var index := IndexOf(waiting, id);
      if index == |waiting| {
        return false;
      }
      withdrawn := withdrawn + [waiting[index]];
      waiting := waiting[..index] + waiting[index + 1..];
      broadcast := broadcast + [MessageWithdrawn(id)];
      return true;
    }
  }
}
