/**
 Mail threads, as the hub derives them from the agents' inboxes. A thread gathers the messages
 that lead back, reply by reply, to one root. A chain goes from a message to the one it answers and
 stops at a message that answers nothing known, or where it would come back to itself.

 A message is a value here: messages have refs of their own, so no two are equal. `ThreadsOf` says
 what the threads are; the methods compute it with the maps they fill, and the lemmas say when the
 threads split the messages, how each is ordered, and what a delivered reply does to them.
 */
module MailThreads {
  import opened Util
  import opened MailRefs

  datatype Entry = Entry(
    /** Every ref that names the message, the one the thread shows it by first. */
    refs: seq<string>,
    /** Its sender, for an agent's message, or its recipients. */
    agents: seq<string>,
    /** When it was written. */
    ms: int,
    inReplyTo: Option<string>)

  datatype Thread = Thread(root: Entry, replies: seq<Entry>)

  // ---- Chains of replies -------------------------------------------------------------------

  /** The message `ref` names; the last of them, were there several. */
  function FindRef(entries: seq<Entry>, ref: string): (e: Option<Entry>)
    ensures e.Some? ==> e.value in entries && ref in e.value.refs
  {
    if entries == [] then None
    else if ref in entries[|entries| - 1].refs then Some(entries[|entries| - 1])
    else FindRef(entries[..|entries| - 1], ref)
  }

  function Parent(entries: seq<Entry>, e: Entry): (p: Option<Entry>)
    ensures p.Some? ==> p.value in entries
  {
    if e.inReplyTo.None? then None else FindRef(entries, e.inReplyTo.value)
  }

  /** The messages not on a chain yet. */
  ghost function Left(entries: seq<Entry>, chain: seq<Entry>): set<Entry>
  {
    set e | e in entries && e !in chain
  }

  /** The chain of replies on from `chain`, until a message answers none, or one already on it. */
  function ChainFrom(entries: seq<Entry>, chain: seq<Entry>): (r: seq<Entry>)
    requires chain != []
    ensures chain <= r
    decreases Left(entries, chain)
  {
    var p := Parent(entries, chain[|chain| - 1]);
    if p.None? || p.value in chain then chain
    else
      assert p.value in Left(entries, chain) && p.value in chain + [p.value];
      ChainFrom(entries, chain + [p.value])
  }

  function Chain(entries: seq<Entry>, e: Entry): (r: seq<Entry>)
    ensures r != [] && r[0] == e
  {
    ChainFrom(entries, [e])
  }

  /** Where the chain from a message ends. */
  function Root(entries: seq<Entry>, e: Entry): Entry
  {
    var chain := Chain(entries, e);
    chain[|chain| - 1]
  }

  function Depth(entries: seq<Entry>, e: Entry): nat
  {
    |Chain(entries, e)| - 1
  }

  // ---- The threads -------------------------------------------------------------------------

  function RefOf(e: Entry): string
  {
    if e.refs == [] then "" else e.refs[0]
  }

  /** Compares times first; a tie goes to the lesser depth, which puts parents first, and then to the ref. */
  function CompareReplies(entries: seq<Entry>, a: Entry, b: Entry): int
  {
    if a.ms != b.ms then a.ms - b.ms
    else if Depth(entries, a) != Depth(entries, b) then Depth(entries, a) - Depth(entries, b)
    else CompareRefs(RefOf(a), RefOf(b))
  }

  function InsertReply(entries: seq<Entry>, sorted: seq<Entry>, e: Entry): seq<Entry>
  {
    if sorted == [] then [e]
    else if CompareReplies(entries, e, sorted[0]) < 0 then [e] + sorted
    else [sorted[0]] + InsertReply(entries, sorted[1..], e)
  }

  function SortReplies(entries: seq<Entry>, replies: seq<Entry>): seq<Entry>
  {
    if replies == [] then []
    else InsertReply(entries, SortReplies(entries, replies[..|replies| - 1]), replies[|replies| - 1])
  }

  /** The roots of the messages of `list`, by when each first comes up. */
  function RootsOf(entries: seq<Entry>, list: seq<Entry>): seq<Entry>
  {
    if list == [] then []
    else
      var before, root := RootsOf(entries, list[..|list| - 1]), Root(entries, list[|list| - 1]);
      if root in before then before else before + [root]
  }

  /** The messages of `list` whose chain reaches `root`, but for the root itself. */
  function RepliesTo(entries: seq<Entry>, list: seq<Entry>, root: Entry): seq<Entry>
  {
    if list == [] then []
    else
      var before, e := RepliesTo(entries, list[..|list| - 1], root), list[|list| - 1];
      if Root(entries, e) == root && e != root then before + [e] else before
  }

  function ThreadsWith(entries: seq<Entry>, roots: seq<Entry>): seq<Thread>
  {
    if roots == [] then []
    else [Thread(roots[0], SortReplies(entries, RepliesTo(entries, entries, roots[0])))] + ThreadsWith(entries, roots[1..])
  }

  function ThreadsOf(entries: seq<Entry>): seq<Thread>
  {
    ThreadsWith(entries, RootsOf(entries, entries))
  }

  // ---- Building them -----------------------------------------------------------------------

  ghost predicate Indexes(byRef: map<string, Entry>, entries: seq<Entry>)
  {
    forall ref :: FindRef(entries, ref) == if ref in byRef then Some(byRef[ref]) else None
  }

  method IndexRefs(entries: seq<Entry>) returns (byRef: map<string, Entry>)
    ensures Indexes(byRef, entries)
  {
    byRef := map[];
    var i := 0;
    while i < |entries|
      invariant i <= |entries| && Indexes(byRef, entries[..i])
    {
      var entry := entries[i];
      ghost var before := byRef;
      var k := 0;
      while k < |entry.refs|
        invariant k <= |entry.refs|
        invariant forall ref :: ref in byRef <==> ref in before || ref in entry.refs[..k]
        invariant forall ref :: ref in byRef ==> byRef[ref] == if ref in entry.refs[..k] then entry else before[ref]
      {
        assert entry.refs[..k + 1] == entry.refs[..k] + [entry.refs[k]];
        byRef := byRef[entry.refs[k] := entry];
        k := k + 1;
      }
      assert entry.refs[..k] == entry.refs;
      assert entries[..i + 1][..i] == entries[..i] && entries[..i + 1][i] == entry;
      i := i + 1;
    }
    assert entries[..i] == entries;
  }

  method ChainOf(entries: seq<Entry>, byRef: map<string, Entry>, entry: Entry) returns (chain: seq<Entry>)
    requires Indexes(byRef, entries)
    ensures chain == Chain(entries, entry)
  {
    chain := [entry];
    var current := entry;
    while current.inReplyTo.Some?
      invariant chain != [] && chain[|chain| - 1] == current
      invariant ChainFrom(entries, chain) == Chain(entries, entry)
      decreases Left(entries, chain)
    {
      var ref := current.inReplyTo.value;
      assert FindRef(entries, ref) == if ref in byRef then Some(byRef[ref]) else None;
      if ref !in byRef || byRef[ref] in chain {
        break;
      }
      var parent := byRef[ref];
      assert parent in Left(entries, chain) && parent in chain + [parent];
      chain := chain + [parent];
      current := parent;
    }
  }

  method BuildThreads(entries: seq<Entry>) returns (threads: seq<Thread>)
    ensures threads == ThreadsOf(entries)
  {
    var byRef := IndexRefs(entries);
    var roots, replies := GroupByRoot(entries, byRef);
    threads := [];
    var k := 0;
    while k < |roots|
      invariant k <= |roots|
      invariant threads + ThreadsWith(entries, roots[k..]) == ThreadsOf(entries)
    {
      assert roots[k..][1..] == roots[k + 1..];
      var sorted := SortReplies(entries, replies[roots[k]]);
      Associative(threads, [Thread(roots[k], sorted)], ThreadsWith(entries, roots[k + 1..]));
      threads := threads + [Thread(roots[k], sorted)];
      k := k + 1;
    }
  }

  /** The roots in the order they come up, and the replies to each. */
  method GroupByRoot(entries: seq<Entry>, byRef: map<string, Entry>)
    returns (roots: seq<Entry>, replies: map<Entry, seq<Entry>>)
    requires Indexes(byRef, entries)
    ensures roots == RootsOf(entries, entries)
    ensures forall r :: r in roots ==> r in replies && replies[r] == RepliesTo(entries, entries, r)
  {
    roots, replies := [], map[];
    var i := 0;
    while i < |entries|
      invariant i <= |entries| && roots == RootsOf(entries, entries[..i])
      invariant forall r :: r in replies <==> r in roots
      invariant forall r :: r in roots ==> replies[r] == RepliesTo(entries, entries[..i], r)
    {
      var entry := entries[i];
      var chain := ChainOf(entries, byRef, entry);
      var root := chain[|chain| - 1];
      ghost var list, next := entries[..i], entries[..i + 1];
      assert next[..|next| - 1] == list && next[|next| - 1] == entry;
      if root !in replies {
        NoRepliesYet(entries, list, root);
        roots := roots + [root];
        replies := replies[root := []];
      }
      if root != entry {
        replies := replies[root := replies[root] + [entry]];
      }
      assert roots == RootsOf(entries, next);
      assert forall r :: r in roots ==> replies[r] == RepliesTo(entries, next, r);
      i := i + 1;
    }
    assert entries[..i] == entries;
  }

  lemma {:induction false} NoRepliesYet(entries: seq<Entry>, list: seq<Entry>, root: Entry)
    requires root !in RootsOf(entries, list)
    ensures RepliesTo(entries, list, root) == []
  {
    if list != [] {
      NoRepliesYet(entries, list[..|list| - 1], root);
    }
  }

  /** No message has a later time, and none after it the same one. */
  method LatestOf(thread: Thread) returns (latest: Entry)
    ensures var all := [thread.root] + thread.replies;
            exists at :: 0 <= at < |all| && all[at] == latest
              && (forall i :: 0 <= i < |all| ==> all[i].ms <= latest.ms)
              && (forall i :: at < i < |all| ==> all[i].ms < latest.ms)
  {
    var all := [thread.root] + thread.replies;
    latest := all[0];
    var i := 0;
    ghost var at := 0;
    while i < |all|
      invariant i <= |all| && 0 <= at < |all| && (if i > 0 then at < i else at == 0) && all[at] == latest
      invariant forall k :: 0 <= k < i ==> all[k].ms <= latest.ms
      invariant forall k :: at < k < i ==> all[k].ms < latest.ms
    {
      if all[i].ms >= latest.ms {
        latest := all[i];
        at := i;
      }
      i := i + 1;
    }
  }

  // ---- What a chain is ---------------------------------------------------------------------

  ghost predicate Linked(entries: seq<Entry>, chain: seq<Entry>)
  {
    forall i :: 0 <= i < |chain| - 1 ==> Parent(entries, chain[i]) == Some(chain[i + 1])
  }

  /** A chain visits no message twice, follows the replies, and stops where it has to. */
  lemma {:induction false} ChainIs(entries: seq<Entry>, chain: seq<Entry>)
    requires chain != [] && Distinct(chain) && Linked(entries, chain)
    ensures var r := ChainFrom(entries, chain);
            && Distinct(r) && Linked(entries, r)
            && (forall e :: e in r ==> e in chain || e in entries)
            && var p := Parent(entries, r[|r| - 1]); (p.Some? ==> p.value in r)
    decreases Left(entries, chain)
  {
    var p := Parent(entries, chain[|chain| - 1]);
    if !(p.None? || p.value in chain) {
      assert p.value in Left(entries, chain) && p.value in chain + [p.value];
      ChainIs(entries, chain + [p.value]);
    }
  }

  lemma RootIs(entries: seq<Entry>, e: Entry)
    ensures var chain := Chain(entries, e);
            && Distinct(chain) && Linked(entries, chain)
            && (e in entries ==> Root(entries, e) in entries)
            && var p := Parent(entries, Root(entries, e)); (p.Some? ==> p.value in chain)
  {
    ChainIs(entries, [e]);
  }

  /** What comes before a chain that stays clear of it makes no difference to where it goes. */
  lemma {:induction false} ChainAfter(entries: seq<Entry>, first: seq<Entry>, chain: seq<Entry>)
    requires chain != [] && forall e :: e in ChainFrom(entries, chain) ==> e !in first
    ensures ChainFrom(entries, first + chain) == first + ChainFrom(entries, chain)
    decreases Left(entries, chain)
  {
    var p := Parent(entries, chain[|chain| - 1]);
    assert (first + chain)[|first + chain| - 1] == chain[|chain| - 1];
    if p.Some? && p.value !in chain {
      var next := chain + [p.value];
      assert p.value in Left(entries, chain) && next[|chain|] == p.value;
      assert next <= ChainFrom(entries, next) && ChainFrom(entries, next)[|chain|] == p.value;
      assert first + next == (first + chain) + [p.value];
      ChainAfter(entries, first, next);
    }
  }

  // ---- Loops -------------------------------------------------------------------------------

  /** A walk along the replies that comes back to where it started. */
  ghost predicate ReplyLoop(entries: seq<Entry>, walk: seq<Entry>)
  {
    |walk| >= 2 && walk[0] == walk[|walk| - 1] && Linked(entries, walk)
  }

  ghost predicate Loopless(entries: seq<Entry>)
  {
    forall walk :: !ReplyLoop(entries, walk)
  }

  /** Part of a chain, closed by an answer to its first message. */
  lemma LoopOf(entries: seq<Entry>, chain: seq<Entry>, from: nat, to: nat) returns (walk: seq<Entry>)
    requires Linked(entries, chain) && from <= to < |chain| && Parent(entries, chain[to]) == Some(chain[from])
    ensures walk == chain[from..to + 1] + [chain[from]] && ReplyLoop(entries, walk)
  {
    walk := chain[from..to + 1] + [chain[from]];
    forall i | 0 <= i < |walk| - 1 ensures Parent(entries, walk[i]) == Some(walk[i + 1]) {
      if i < to - from {
        assert walk[i] == chain[from + i] && walk[i + 1] == chain[from + i + 1];
      } else {
        assert walk[i] == chain[to];
      }
    }
  }

  /** A loop that runs through two different messages. A message that answers itself makes none. */
  ghost predicate LoopsThroughTwo(entries: seq<Entry>)
  {
    exists walk, i :: ReplyLoop(entries, walk) && 0 <= i < |walk| && walk[i] != walk[0]
  }

  /** Every root of a message is a root of its own. */
  ghost predicate RootsAreRoots(entries: seq<Entry>)
  {
    forall e :: e in entries ==> Root(entries, Root(entries, e)) == Root(entries, e)
  }

  /** A message that answers another is not its own root. */
  lemma RootMoves(entries: seq<Entry>, e: Entry)
    ensures Root(entries, e) != e <==> Parent(entries, e).Some? && Parent(entries, e).value != e
  {
    var p := Parent(entries, e);
    if p.Some? && p.value != e {
      RootIs(entries, e);
      assert p.value in Left(entries, [e]) && p.value in [e] + [p.value];
      assert [e] + [p.value] <= Chain(entries, e);
      assert Chain(entries, e)[0] == e;
    }
  }

  /** From a message that answers itself a walk goes nowhere. */
  lemma {:induction false} SelfStays(entries: seq<Entry>, walk: seq<Entry>, from: nat, end: nat)
    requires Linked(entries, walk) && from <= end < |walk| && Parent(entries, walk[from]) == Some(walk[from])
    ensures walk[end] == walk[from]
    decreases end
  {
    if from < end {
      SelfStays(entries, walk, from, end - 1);
      assert Parent(entries, walk[end - 1]) == Some(walk[end - 1 + 1]);
    }
  }

  /** A chain that begins on a loop stays on it. */
  lemma {:induction false} StaysOnLoop(entries: seq<Entry>, walk: seq<Entry>, chain: seq<Entry>, k: nat) returns (at: nat)
    requires ReplyLoop(entries, walk) && Linked(entries, chain) && k < |chain| && chain[0] == walk[0]
    ensures at < |walk| - 1 && walk[at] == chain[k]
  {
    if k == 0 {
      at := 0;
    } else {
      var before := StaysOnLoop(entries, walk, chain, k - 1);
      assert Parent(entries, chain[k - 1]) == Some(chain[k - 1 + 1]);
      assert Parent(entries, walk[before]) == Some(walk[before + 1]);
      at := if before + 1 < |walk| - 1 then before + 1 else 0;
    }
  }

  /** A root is a root of its own for every message exactly when no loop runs through two of them. */
  lemma RootsAreRootsIff(entries: seq<Entry>)
    ensures RootsAreRoots(entries) <==> !LoopsThroughTwo(entries)
  {
    if !RootsAreRoots(entries) {
      var e :| e in entries && Root(entries, Root(entries, e)) != Root(entries, e);
      RootLoops(entries, e);
    } else if LoopsThroughTwo(entries) {
      var walk, i :| ReplyLoop(entries, walk) && 0 <= i < |walk| && walk[i] != walk[0];
      LoopMovesRoot(entries, walk, i);
      assert false;
    }
  }

  lemma RootLoops(entries: seq<Entry>, e: Entry)
    requires Root(entries, Root(entries, e)) != Root(entries, e)
    ensures LoopsThroughTwo(entries)
  {
    var chain, root := Chain(entries, e), Root(entries, e);
    RootIs(entries, e);
    RootMoves(entries, root);
    var from :| 0 <= from < |chain| && chain[from] == Parent(entries, root).value;
    var walk := LoopOf(entries, chain, from, |chain| - 1);
    assert walk[|chain| - 1 - from] == root != walk[0];
  }

  lemma LoopMovesRoot(entries: seq<Entry>, walk: seq<Entry>, i: nat)
    requires ReplyLoop(entries, walk) && i < |walk| && walk[i] != walk[0]
    ensures walk[0] in entries && Root(entries, Root(entries, walk[0])) != Root(entries, walk[0])
  {
    var chain, root := Chain(entries, walk[0]), Root(entries, walk[0]);
    assert Parent(entries, walk[|walk| - 2]) == Some(walk[|walk| - 2 + 1]);
    RootIs(entries, walk[0]);
    var at := StaysOnLoop(entries, walk, chain, |chain| - 1);
    assert Parent(entries, walk[at]) == Some(walk[at + 1]);
    if walk[at + 1] == root {
      SelfStays(entries, walk, at, |walk| - 1);
      SelfStays(entries, walk, 0, i);
    }
    RootMoves(entries, root);
  }

  /** No message of a chain but its last answers the first. */
  lemma NoWayBack(entries: seq<Entry>, chain: seq<Entry>, at: nat)
    requires Distinct(chain) && Linked(entries, chain) && at < |chain| - 1
    ensures Parent(entries, chain[at]) != Some(chain[0])
  {
    assert Parent(entries, chain[at]) == Some(chain[at + 1]);
  }

  /**
   A reply whose root is not itself is one step further from the root than what it answers: it is on
   no chain it would close.
   */
  lemma {:induction false} ReplyChain(entries: seq<Entry>, e: Entry)
    requires Parent(entries, e).Some? && Root(entries, Parent(entries, e).value) != e
    ensures var p := Parent(entries, e).value;
            Chain(entries, e) == [e] + Chain(entries, p) && Root(entries, e) == Root(entries, p)
  {
    var p := Parent(entries, e).value;
    var chain := Chain(entries, p);
    RootIs(entries, p);
    forall at | 0 <= at < |chain| ensures chain[at] != e {
      if at < |chain| - 1 {
        NoWayBack(entries, chain, at);
      }
    }
    ChainAfter(entries, [e], [p]);
    assert [e] + [p] == [e, p];
    assert p != e;
    assert ChainFrom(entries, [e]) == ChainFrom(entries, [e] + [p]);
  }

  // ---- Each message in one thread ----------------------------------------------------------

  function One(b: bool): nat
  {
    if b then 1 else 0
  }

  function Occurs(s: seq<Entry>, e: Entry): nat
  {
    if s == [] then 0 else One(s[0] == e) + Occurs(s[1..], e)
  }

  /** How often the threads list a message. */
  function Times(threads: seq<Thread>, e: Entry): nat
  {
    if threads == [] then 0
    else One(threads[0].root == e) + Occurs(threads[0].replies, e) + Times(threads[1..], e)
  }

  lemma {:induction false} OccursAppend(s: seq<Entry>, x: Entry, e: Entry)
    ensures Occurs(s + [x], e) == Occurs(s, e) + One(x == e)
  {
    if s == [] {
      assert s + [x] == [x] && [x][1..] == [];
    } else {
      OccursAppend(s[1..], x, e);
      assert (s + [x])[1..] == s[1..] + [x];
    }
  }

  lemma {:induction false} InsertOccurs(entries: seq<Entry>, sorted: seq<Entry>, x: Entry, e: Entry)
    ensures Occurs(InsertReply(entries, sorted, x), e) == Occurs(sorted, e) + One(x == e)
  {
    if sorted == [] {
      assert [x][1..] == [];
    } else if CompareReplies(entries, x, sorted[0]) < 0 {
      assert ([x] + sorted)[1..] == sorted;
    } else {
      InsertOccurs(entries, sorted[1..], x, e);
      var rest := InsertReply(entries, sorted[1..], x);
      assert ([sorted[0]] + rest)[1..] == rest;
    }
  }

  lemma {:induction false} SortOccurs(entries: seq<Entry>, replies: seq<Entry>, e: Entry)
    ensures Occurs(SortReplies(entries, replies), e) == Occurs(replies, e)
  {
    if replies != [] {
      var before, last := replies[..|replies| - 1], replies[|replies| - 1];
      SortOccurs(entries, before, e);
      InsertOccurs(entries, SortReplies(entries, before), last, e);
      OccursAppend(before, last, e);
      assert replies == before + [last];
    }
  }

  /** A message is among the replies to its own root, as often as it is listed, and to no other. */
  lemma {:induction false} RepliesOccur(entries: seq<Entry>, list: seq<Entry>, root: Entry, e: Entry)
    ensures Occurs(RepliesTo(entries, list, root), e)
         == if Root(entries, e) == root && e != root then Occurs(list, e) else 0
  {
    if list != [] {
      var before, last := list[..|list| - 1], list[|list| - 1];
      RepliesOccur(entries, before, root, e);
      OccursAppend(before, last, e);
      OccursAppend(RepliesTo(entries, before, root), last, e);
      assert list == before + [last];
    }
  }

  lemma {:induction false} RootsAre(entries: seq<Entry>, list: seq<Entry>)
    ensures Distinct(RootsOf(entries, list))
    ensures forall e :: e in list ==> Root(entries, e) in RootsOf(entries, list)
    ensures forall r :: r in RootsOf(entries, list) ==> exists e :: e in list && Root(entries, e) == r
  {
    if list != [] {
      var before, last := list[..|list| - 1], list[|list| - 1];
      RootsAre(entries, before);
      assert list == before + [last];
    }
  }

  /** How often threads with these roots list a message. */
  lemma {:induction false} TimesWith(entries: seq<Entry>, roots: seq<Entry>, e: Entry)
    requires Distinct(roots)
    ensures Times(ThreadsWith(entries, roots), e)
         == One(e in roots) + if Root(entries, e) in roots && Root(entries, e) != e then Occurs(entries, e) else 0
  {
    if roots != [] {
      var rest := roots[1..];
      TimesWith(entries, rest, e);
      SortOccurs(entries, RepliesTo(entries, entries, roots[0]), e);
      RepliesOccur(entries, entries, roots[0], e);
      assert ThreadsWith(entries, roots)[1..] == ThreadsWith(entries, rest);
      assert forall x :: x in roots <==> x == roots[0] || x in rest;
      assert roots[0] !in rest;
    }
  }

  lemma {:induction false} DistinctOccurs(s: seq<Entry>, e: Entry)
    requires Distinct(s)
    ensures Occurs(s, e) == One(e in s)
  {
    if s != [] {
      DistinctOccurs(s[1..], e);
      assert e in s <==> e == s[0] || e in s[1..];
    }
  }

  /** Every message is in exactly one thread, once, exactly when every thread's root is a root of its own. */
  lemma PartitionIffRootsAreRoots(entries: seq<Entry>)
    requires Distinct(entries)
    ensures (forall e :: e in entries ==> Times(ThreadsOf(entries), e) == 1) <==> RootsAreRoots(entries)
  {
    var roots := RootsOf(entries, entries);
    RootsAre(entries, entries);
    forall e | e in entries
      ensures Times(ThreadsOf(entries), e) == One(e in roots) + One(Root(entries, e) != e)
    {
      TimesWith(entries, roots, e);
      DistinctOccurs(entries, e);
    }
    if RootsAreRoots(entries) {
      forall e | e in entries ensures Times(ThreadsOf(entries), e) == 1 {
        if e in roots {
          var x :| x in entries && Root(entries, x) == e;
        }
      }
    } else {
      var e :| e in entries && Root(entries, Root(entries, e)) != Root(entries, e);
      RootIs(entries, e);
      assert Times(ThreadsOf(entries), Root(entries, e)) == 2;
    }
  }

  /** Every message is in exactly one thread, once, exactly when no chain of replies loops through two messages. */
  lemma PartitionIffNoLoopOfTwo(entries: seq<Entry>)
    requires Distinct(entries)
    ensures (forall e :: e in entries ==> Times(ThreadsOf(entries), e) == 1) <==> !LoopsThroughTwo(entries)
  {
    PartitionIffRootsAreRoots(entries);
    RootsAreRootsIff(entries);
  }

  lemma LooplessPartition(entries: seq<Entry>)
    requires Distinct(entries) && Loopless(entries)
    ensures forall e :: e in entries ==> Times(ThreadsOf(entries), e) == 1
  {
    PartitionIffNoLoopOfTwo(entries);
  }

  // ---- The order of a thread ---------------------------------------------------------------

  /** Every message has refs, which parse, and none that another has. */
  ghost predicate RefsOk(entries: seq<Entry>)
  {
    && (forall e :: e in entries ==> e.refs != [] && ParseRef(RefOf(e)).Some?)
    && (forall a, b, ref :: a in entries && b in entries && ref in a.refs && ref in b.refs ==> a == b)
  }

  ghost predicate SortedReplies(entries: seq<Entry>, replies: seq<Entry>)
  {
    forall i, j :: 0 <= i < j < |replies| ==> CompareReplies(entries, replies[i], replies[j]) < 0
  }

  /** `reply` answers `parent`, and carries the same time. */
  ghost predicate AnswersAtOnce(entries: seq<Entry>, parent: Entry, reply: Entry)
  {
    Parent(entries, reply) == Some(parent) && parent.ms == reply.ms
  }

  ghost predicate ParentsFirst(entries: seq<Entry>, replies: seq<Entry>)
  {
    forall i, j :: 0 <= i < |replies| && 0 <= j < |replies| && AnswersAtOnce(entries, replies[i], replies[j]) ==> i < j
  }

  lemma CompareRepliesOrder(entries: seq<Entry>, a: Entry, b: Entry)
    requires RefsOk(entries) && a in entries && b in entries
    ensures CompareReplies(entries, a, b) < 0 ==> CompareReplies(entries, b, a) > 0
    ensures a != b ==> CompareReplies(entries, a, b) != 0
    ensures CompareReplies(entries, a, b) > 0 ==> CompareReplies(entries, b, a) < 0
  {
    CompareRefsTotal(RefOf(a), RefOf(b));
    if RefOf(a) == RefOf(b) {
      assert RefOf(a) in a.refs && RefOf(b) in b.refs;
    }
  }

  lemma CompareRepliesTransitive(entries: seq<Entry>, a: Entry, b: Entry, c: Entry)
    requires RefsOk(entries) && a in entries && b in entries && c in entries
    requires CompareReplies(entries, a, b) < 0 && CompareReplies(entries, b, c) < 0
    ensures CompareReplies(entries, a, c) < 0
  {
    if a.ms == b.ms == c.ms && Depth(entries, a) == Depth(entries, b) == Depth(entries, c) {
      CompareRefsTransitive(RefOf(a), RefOf(b), RefOf(c));
    }
  }

  lemma {:induction false} InsertHolds(entries: seq<Entry>, sorted: seq<Entry>, x: Entry, e: Entry)
    ensures e in InsertReply(entries, sorted, x) <==> e in sorted || e == x
  {
    if sorted != [] {
      assert sorted == [sorted[0]] + sorted[1..];
      if CompareReplies(entries, x, sorted[0]) >= 0 {
        InsertHolds(entries, sorted[1..], x, e);
      }
    }
  }

  lemma {:induction false} InsertSorted(entries: seq<Entry>, sorted: seq<Entry>, x: Entry)
    requires RefsOk(entries) && SortedReplies(entries, sorted) && x in entries && x !in sorted
    requires forall e :: e in sorted ==> e in entries
    ensures SortedReplies(entries, InsertReply(entries, sorted, x))
  {
    if sorted != [] {
      var first := sorted[0];
      CompareRepliesOrder(entries, x, first);
      if CompareReplies(entries, x, first) < 0 {
        forall e | e in sorted ensures CompareReplies(entries, x, e) < 0 {
          if e != first {
            CompareRepliesTransitive(entries, x, first, e);
          }
        }
      } else {
        var rest := InsertReply(entries, sorted[1..], x);
        InsertSorted(entries, sorted[1..], x);
        forall e | e in rest ensures CompareReplies(entries, first, e) < 0 {
          InsertHolds(entries, sorted[1..], x, e);
        }
      }
    }
  }

  lemma {:induction false} SortSorted(entries: seq<Entry>, replies: seq<Entry>)
    requires RefsOk(entries) && Distinct(replies) && forall e :: e in replies ==> e in entries
    ensures SortedReplies(entries, SortReplies(entries, replies))
    ensures forall e :: e in SortReplies(entries, replies) <==> e in replies
  {
    if replies != [] {
      var before, last := replies[..|replies| - 1], replies[|replies| - 1];
      assert replies == before + [last];
      SortSorted(entries, before);
      assert last !in before;
      InsertSorted(entries, SortReplies(entries, before), last);
      forall e ensures e in SortReplies(entries, replies) <==> e in replies {
        InsertHolds(entries, SortReplies(entries, before), last, e);
      }
    }
  }

  lemma {:induction false} RepliesAre(entries: seq<Entry>, list: seq<Entry>, root: Entry)
    requires Distinct(list)
    ensures Distinct(RepliesTo(entries, list, root))
    ensures forall e :: e in RepliesTo(entries, list, root) <==> e in list && Root(entries, e) == root && e != root
  {
    if list != [] {
      var before, last := list[..|list| - 1], list[|list| - 1];
      RepliesAre(entries, before, root);
      assert list == before + [last] && last !in before;
    }
  }

  /** The thread of a root. */
  lemma {:induction false} ThreadOfRoot(entries: seq<Entry>, roots: seq<Entry>, t: Thread)
    ensures t in ThreadsWith(entries, roots)
       <==> t.root in roots && t.replies == SortReplies(entries, RepliesTo(entries, entries, t.root))
  {
    if roots != [] {
      ThreadOfRoot(entries, roots[1..], t);
      var first := Thread(roots[0], SortReplies(entries, RepliesTo(entries, entries, roots[0])));
      assert t in ThreadsWith(entries, roots) <==> t == first || t in ThreadsWith(entries, roots[1..]);
      assert t.root in roots <==> t.root == roots[0] || t.root in roots[1..];
    }
  }

  /** Replies of one thread that answer one another at one instant stand in that order. */
  lemma {:induction false} ParentBeforeReply(entries: seq<Entry>, replies: seq<Entry>, root: Entry, i: nat, j: nat)
    requires SortedReplies(entries, replies) && forall e :: e in replies ==> Root(entries, e) == root && e != root
    requires i < |replies| && j < |replies| && AnswersAtOnce(entries, replies[i], replies[j])
    ensures i < j
  {
    var p, e := replies[i], replies[j];
    assert p in replies && e in replies;
    ReplyChain(entries, e);
    assert Depth(entries, e) == Depth(entries, p) + 1;
    assert CompareReplies(entries, e, p) == 1;
  }

  /** `a` is written before `b`; or at one time, and its chain is shorter; or as long, and its ref comes before. */
  ghost predicate StandsBefore(entries: seq<Entry>, a: Entry, b: Entry)
    requires a.refs != [] && b.refs != [] && ParseRef(a.refs[0]).Some? && ParseRef(b.refs[0]).Some?
  {
    || a.ms < b.ms
    || (a.ms == b.ms && |Chain(entries, a)| < |Chain(entries, b)|)
    || (a.ms == b.ms && |Chain(entries, a)| == |Chain(entries, b)| && RefBefore(a.refs[0], b.refs[0]))
  }

  lemma StandsBeforeIff(entries: seq<Entry>, a: Entry, b: Entry)
    requires a.refs != [] && b.refs != [] && ParseRef(a.refs[0]).Some? && ParseRef(b.refs[0]).Some?
    ensures CompareReplies(entries, a, b) < 0 <==> StandsBefore(entries, a, b)
  {
    CompareRefsIs(a.refs[0], b.refs[0]);
  }

  /**
   A thread holds the messages whose chain reaches its root, by time and within one time by how far
   they are from the root and then by ref; and each reply after the message it answers when both
   carry one time, loops or not.
   */
  lemma {:induction false} ThreadInOrder(entries: seq<Entry>, t: Thread)
    requires Distinct(entries) && RefsOk(entries) && t in ThreadsOf(entries)
    ensures forall e :: e in t.replies <==> e in entries && Root(entries, e) == t.root && e != t.root
    ensures SortedReplies(entries, t.replies)
    ensures forall i, j :: 0 <= i < j < |t.replies| ==> t.replies[i].ms <= t.replies[j].ms
    ensures forall e :: e in t.replies ==> e.refs != [] && ParseRef(e.refs[0]).Some?
    ensures forall i, j :: 0 <= i < j < |t.replies| ==> StandsBefore(entries, t.replies[i], t.replies[j])
    ensures ParentsFirst(entries, t.replies)
  {
    ThreadSorted(entries, t);
    RefsOfThread(entries, t);
    forall i, j | 0 <= i < j < |t.replies| ensures StandsBefore(entries, t.replies[i], t.replies[j]) {
      assert t.replies[i] in t.replies && t.replies[j] in t.replies;
      StandsBeforeIff(entries, t.replies[i], t.replies[j]);
    }
    forall i, j | 0 <= i < |t.replies| && 0 <= j < |t.replies| && AnswersAtOnce(entries, t.replies[i], t.replies[j])
      ensures i < j
    {
      ParentBeforeReply(entries, t.replies, t.root, i, j);
    }
  }

  lemma RefsOfThread(entries: seq<Entry>, t: Thread)
    requires RefsOk(entries) && forall e :: e in t.replies ==> e in entries
    ensures forall e :: e in t.replies ==> e.refs != [] && ParseRef(e.refs[0]).Some?
  {
    forall e | e in t.replies ensures e.refs != [] && ParseRef(e.refs[0]).Some? {
      assert e in entries && RefOf(e) == e.refs[0];
    }
  }

  lemma {:induction false} ThreadSorted(entries: seq<Entry>, t: Thread)
    requires Distinct(entries) && RefsOk(entries) && t in ThreadsOf(entries)
    ensures forall e :: e in t.replies <==> e in entries && Root(entries, e) == t.root && e != t.root
    ensures SortedReplies(entries, t.replies)
  {
    ThreadOfRoot(entries, RootsOf(entries, entries), t);
    RepliesAre(entries, entries, t.root);
    SortSorted(entries, RepliesTo(entries, entries, t.root));
  }

  // ---- Delivering a reply ------------------------------------------------------------------

  /** `more` is `entries` and `e`, wherever it comes among them. */
  ghost predicate WithEntry(entries: seq<Entry>, more: seq<Entry>, e: Entry)
  {
    && Distinct(more) && e !in entries && forall x :: x in more <==> x in entries || x == e
  }

  /** A message answers a ref that only `e` will have. */
  ghost predicate Awaits(entries: seq<Entry>, e: Entry)
  {
    exists x :: x in entries && x.inReplyTo.Some? && x.inReplyTo.value in e.refs
  }

  lemma {:induction false} FindRefIs(entries: seq<Entry>, ref: string)
    ensures FindRef(entries, ref).None? ==> forall e :: e in entries ==> ref !in e.refs
  {
    if entries != [] && ref !in entries[|entries| - 1].refs {
      FindRefIs(entries[..|entries| - 1], ref);
      assert entries == entries[..|entries| - 1] + [entries[|entries| - 1]];
    }
  }

  /** What a message answers once `e` is there. */
  lemma ParentWith(entries: seq<Entry>, more: seq<Entry>, e: Entry, x: Entry)
    requires WithEntry(entries, more, e) && RefsOk(more)
    ensures Parent(more, x) ==
      if x.inReplyTo.Some? && x.inReplyTo.value in e.refs then Some(e) else Parent(entries, x)
    ensures x.inReplyTo.Some? && x.inReplyTo.value in e.refs ==> Parent(entries, x) == None
  {
    if x.inReplyTo.Some? {
      var ref := x.inReplyTo.value;
      FindRefIs(entries, ref);
      FindRefIs(more, ref);
    }
  }

  /** Chains of messages nobody new answers go as before. */
  lemma {:induction false} ChainWith(entries: seq<Entry>, more: seq<Entry>, e: Entry, chain: seq<Entry>)
    requires WithEntry(entries, more, e) && RefsOk(more) && !Awaits(entries, e)
    requires chain != [] && forall x :: x in chain ==> x in entries
    ensures ChainFrom(more, chain) == ChainFrom(entries, chain)
    decreases Left(entries, chain)
  {
    var last := chain[|chain| - 1];
    ParentWith(entries, more, e, last);
    var p := Parent(entries, last);
    if !(p.None? || p.value in chain) {
      assert p.value in Left(entries, chain) && p.value in chain + [p.value];
      ChainWith(entries, more, e, chain + [p.value]);
    }
  }

  /**
   A new message that answers `latest` joins its thread and leaves every other message in the
   thread it was in, exactly when no message answers a ref the new one takes.
   */
  lemma ReplyJoinsIff(entries: seq<Entry>, more: seq<Entry>, latest: Entry, e: Entry)
    requires WithEntry(entries, more, e) && RefsOk(more)
    requires latest in entries && e.inReplyTo == Some(RefOf(latest))
    ensures (forall x :: x in entries ==> Root(more, x) == Root(entries, x)) && Root(more, e) == Root(entries, latest)
       <==> !Awaits(entries, e)
  {
    if Awaits(entries, e) {
      AwaitingMoves(entries, more, e);
    } else {
      forall x | x in entries ensures Root(more, x) == Root(entries, x) {
        SameRoot(entries, more, e, x);
      }
      AnswersLatest(entries, more, latest, e);
    }
  }

  /** A reply that takes the ref `x/user/2`, which an older message answers, takes that message along. */
  lemma AwaitedReplyMoves()
    ensures var a := Entry(["x/user/1"], ["x"], 0, None);
            var older, e := Entry(["x/user/3"], ["x"], 1, Some("x/user/2")), Entry(["x/user/2"], ["x"], 2, Some("x/user/1"));
            Awaits([a, older], e) && Root([a, older], older) == older && Root([a, older, e], older) == a
  {
    var a := Entry(["x/user/1"], ["x"], 0, None);
    var older, e := Entry(["x/user/3"], ["x"], 1, Some("x/user/2")), Entry(["x/user/2"], ["x"], 2, Some("x/user/1"));
    var two, three := [a, older], [a, older, e];
    assert "x/user/2" in e.refs && "x/user/1" in a.refs;
    assert "x/user/1"[7] != "x/user/2"[7] && "x/user/2"[7] != "x/user/3"[7] && "x/user/3"[7] != "x/user/1"[7];
    assert two[..1] == [a] && [a][..0] == [] && three[..2] == two;
    assert Awaits(two, e) by {
      assert older in two;
    }
    assert Parent(two, older) == None by {
      assert FindRef([a], "x/user/2") == None;
    }
    assert Parent(three, older) == Some(e);
    assert FindRef(two, "x/user/1") == Some(a) by {
      assert FindRef([a], "x/user/1") == Some(a);
    }
    assert Parent(three, e) == Some(a) && Parent(three, a) == None;
    assert [older] + [e] == [older, e] && [older, e] + [a] == [older, e, a];
    assert ChainFrom(three, [older, e, a]) == [older, e, a];
    assert ChainFrom(three, [older, e]) == [older, e, a];
  }

  lemma SameRoot(entries: seq<Entry>, more: seq<Entry>, e: Entry, x: Entry)
    requires WithEntry(entries, more, e) && RefsOk(more) && !Awaits(entries, e) && x in entries
    ensures Root(more, x) == Root(entries, x)
  {
    ChainWith(entries, more, e, [x]);
  }

  /** A message that awaited the new one leaves the thread it was in. */
  lemma AwaitingMoves(entries: seq<Entry>, more: seq<Entry>, e: Entry)
    requires WithEntry(entries, more, e) && RefsOk(more) && Awaits(entries, e)
    ensures exists x :: x in entries && Root(more, x) != Root(entries, x)
  {
    var x :| x in entries && x.inReplyTo.Some? && x.inReplyTo.value in e.refs;
    ParentWith(entries, more, e, x);
    RootIs(more, x);
    var chain := Chain(more, x);
    assert Root(entries, x) == x;
    assert ChainFrom(more, [x]) == ChainFrom(more, [x] + [e]);
    assert |chain| >= 2 && chain[|chain| - 1] != chain[0];
  }

  lemma AnswersLatest(entries: seq<Entry>, more: seq<Entry>, latest: Entry, e: Entry)
    requires WithEntry(entries, more, e) && RefsOk(more) && !Awaits(entries, e)
    requires latest in entries && e.inReplyTo == Some(RefOf(latest))
    ensures Chain(more, e) == [e] + Chain(entries, latest)
    ensures Root(more, e) == Root(entries, latest)
  {
    assert latest in more && RefOf(latest) in latest.refs;
    FindRefIs(more, RefOf(latest));
    assert Parent(more, e) == Some(latest);
    ChainWith(entries, more, e, [latest]);
    ChainIs(entries, [latest]);
    ChainAfter(more, [e], [latest]);
    assert [e] + [latest] == [e, latest];
  }

  /** Whoever sent or received a message of the thread. */
  ghost function Participants(t: Thread): set<string>
  {
    set e, a | e in [t.root] + t.replies && a in e.agents :: a
  }

  /**
   A reply delivered to everyone in a thread, answering its latest message: the thread keeps
   its root, and so its id, gains that message alone, and has the participants it had.
   */
  lemma DeliveredReplyJoins(entries: seq<Entry>, more: seq<Entry>, t: Thread, latest: Entry, e: Entry)
    returns (t': Thread)
    requires Distinct(entries) && RefsOk(more) && WithEntry(entries, more, e) && !Awaits(entries, e)
    requires !LoopsThroughTwo(entries) && t in ThreadsOf(entries) && latest in [t.root] + t.replies
    requires e.inReplyTo == Some(RefOf(latest)) && (forall a :: a in e.agents <==> a in Participants(t))
    ensures t' in ThreadsOf(more) && t'.root == t.root
    ensures forall x :: x in t'.replies <==> x in t.replies || x == e
    ensures Participants(t') == Participants(t)
  {
    FewerRefsOk(entries, more, e);
    MemberRoot(entries, t, latest);
    SameRoot(entries, more, e, latest);
    t' := ThreadAt(more, latest);
    forall x ensures x in t'.replies <==> x in t.replies || x == e {
      Joins(entries, more, t, t', latest, e, x);
    }
    SameParticipants(t, t', e);
  }

  lemma FewerRefsOk(entries: seq<Entry>, more: seq<Entry>, e: Entry)
    requires WithEntry(entries, more, e) && RefsOk(more)
    ensures RefsOk(entries)
  {
  }

  /** What the thread holds once the reply is there. */
  lemma Joins(entries: seq<Entry>, more: seq<Entry>, t: Thread, t': Thread, latest: Entry, e: Entry, x: Entry)
    requires Distinct(entries) && RefsOk(entries) && RefsOk(more) && WithEntry(entries, more, e) && !Awaits(entries, e)
    requires t in ThreadsOf(entries) && t' in ThreadsOf(more) && t'.root == t.root && t.root in entries
    requires latest in entries && Root(entries, latest) == t.root && e.inReplyTo == Some(RefOf(latest))
    ensures x in t'.replies <==> x in t.replies || x == e
  {
    ThreadHolds(entries, t, x);
    ThreadHolds(more, t', x);
    if x in entries {
      SameRoot(entries, more, e, x);
    } else if x == e {
      AnswersLatest(entries, more, latest, e);
    }
  }

  lemma ThreadHolds(entries: seq<Entry>, t: Thread, x: Entry)
    requires Distinct(entries) && RefsOk(entries) && t in ThreadsOf(entries)
    ensures x in t.replies <==> x in entries && Root(entries, x) == t.root && x != t.root
  {
    ThreadInOrder(entries, t);
  }

  /** With no loop through two messages, all of a thread have the thread's root. */
  lemma MemberRoot(entries: seq<Entry>, t: Thread, x: Entry)
    requires Distinct(entries) && RefsOk(entries) && !LoopsThroughTwo(entries)
    requires t in ThreadsOf(entries) && x in [t.root] + t.replies
    ensures t.root in entries && x in entries && Root(entries, x) == t.root
  {
    var member := RootOfThread(entries, t);
    RootIs(entries, member);
    RootsAreRootsIff(entries);
    ThreadHolds(entries, t, x);
  }

  lemma SameParticipants(t: Thread, t': Thread, e: Entry)
    requires t'.root == t.root && forall x :: x in t'.replies <==> x in t.replies || x == e
    requires forall a :: a in e.agents <==> a in Participants(t)
    ensures Participants(t') == Participants(t)
  {
    assert forall x :: x in [t'.root] + t'.replies <==> x in [t.root] + t.replies || x == e;
  }

  /** A message whose chain reaches the thread's root. */
  lemma RootOfThread(entries: seq<Entry>, t: Thread) returns (member: Entry)
    requires t in ThreadsOf(entries)
    ensures member in entries && Root(entries, member) == t.root
  {
    ThreadOfRoot(entries, RootsOf(entries, entries), t);
    RootsAre(entries, entries);
    member :| member in entries && Root(entries, member) == t.root;
  }

  /** The thread a message is in. */
  lemma ThreadAt(entries: seq<Entry>, member: Entry) returns (t: Thread)
    requires member in entries
    ensures t in ThreadsOf(entries) && t.root == Root(entries, member)
  {
    var root := Root(entries, member);
    RootsAre(entries, entries);
    t := Thread(root, SortReplies(entries, RepliesTo(entries, entries, root)));
    ThreadOfRoot(entries, RootsOf(entries, entries), t);
  }

  // ---- A loop ------------------------------------------------------------------------------

  /** Of two messages that answer each other, one at least is not in exactly one thread. */
  lemma LoopListsTwice()
    ensures var a, b := Entry(["x/user/1"], ["x"], 0, Some("x/user/2")), Entry(["x/user/2"], ["x"], 0, Some("x/user/1"));
            LoopsThroughTwo([a, b]) && exists e :: e in [a, b] && Times(ThreadsOf([a, b]), e) != 1
  {
    var a, b := Entry(["x/user/1"], ["x"], 0, Some("x/user/2")), Entry(["x/user/2"], ["x"], 0, Some("x/user/1"));
    var entries := [a, b];
    assert entries[..1] == [a] && "x/user/2" in b.refs && "x/user/1" !in b.refs && "x/user/1" in a.refs;
    assert Parent(entries, a) == Some(b);
    assert FindRef([a], "x/user/1") == Some(a);
    assert Parent(entries, b) == Some(a);
    var walk := [a, b, a];
    assert ReplyLoop(entries, walk) && walk[1] != walk[0];
    PartitionIffNoLoopOfTwo(entries);
  }
}
