/**
 Watching workspace files: a page's watchers say which path prefixes they follow, the server keeps
 the page's prefixes and cuts each batch of changes to them, and the page cuts it again for each
 watcher.
 */
module Watches {
  import opened Util
  import opened Text
  import opened Reading

  datatype Kind = Created | Modified | Removed

  datatype Change = Change(path: string, kind: Kind)

  /** A frame of the change feed: a batch of changes, or a notice about the feed. */
  datatype Frame = Changed(changes: seq<Change>) | Notice(text: string)

  datatype Watcher = Watcher(id: nat, prefix: string)

  // ---- Paths -------------------------------------------------------------------------------

  /** How the page tells that `ancestor` covers `path`. */
  predicate IsWithin(path: string, ancestor: string)
  {
    ancestor == "" || path == ancestor || (ancestor <= path && |path| > |ancestor| && path[|ancestor|] == '/')
  }

  /** The server's. */
  predicate IsWithinByServer(path: string, ancestor: string)
  {
    ancestor == "" || path == ancestor || ancestor + "/" <= path
  }

  /** A change concerns a prefix at, under or above it. */
  predicate Concerns(path: string, prefix: string)
  {
    IsWithin(path, prefix) || IsWithin(prefix, path)
  }

  lemma GoesOnBelow(path: string, ancestor: string)
    ensures ancestor + "/" <= path <==> ancestor <= path && |path| > |ancestor| && path[|ancestor|] == '/'
  {
    var longer := ancestor + "/";
    assert longer[..|ancestor|] == ancestor && longer[|ancestor|] == '/';
    if longer <= path {
      assert path[..|ancestor|] == longer[..|ancestor|];
    }
  }

  /** `path` goes on from `above` with a slash; the root is above everything. */
  ghost predicate LiesUnder(path: string, above: string)
  {
    above == "" || exists k :: 0 <= k < |path| && path[k] == '/' && path[..k] == above
  }

  lemma WithinIff(path: string, ancestor: string)
    ensures IsWithin(path, ancestor) <==> path == ancestor || LiesUnder(path, ancestor)
  {
    if ancestor <= path && |path| > |ancestor| && path[|ancestor|] == '/' {
      assert path[..|ancestor|] == ancestor;
    }
  }

  /** A change concerns what it is at, what is above it, and what is under it. */
  lemma ConcernsIff(path: string, prefix: string)
    ensures Concerns(path, prefix) <==> path == prefix || LiesUnder(path, prefix) || LiesUnder(prefix, path)
  {
    WithinIff(path, prefix);
    WithinIff(prefix, path);
  }

  /** The two tests agree. */
  lemma SameWithin(path: string, ancestor: string)
    ensures IsWithin(path, ancestor) <==> IsWithinByServer(path, ancestor)
  {
    GoesOnBelow(path, ancestor);
  }

  lemma WithinTransitive(path: string, middle: string, ancestor: string)
    requires IsWithin(path, middle) && IsWithin(middle, ancestor) && middle != ""
    ensures IsWithin(path, ancestor)
  {
  }

  /** Two ancestors of one path are one above the other. */
  lemma AncestorsInLine(path: string, a: string, b: string)
    requires IsWithin(path, a) && IsWithin(path, b) && |a| <= |b|
    ensures IsWithin(b, a)
  {
    if a != "" && b != path && |a| < |b| {
      assert b == path[..|b|] && a == path[..|a|];
      assert b[|a|] == path[|a|];
      assert b[..|a|] == path[..|a|];
    }
  }

  // ---- Normal prefixes ---------------------------------------------------------------------

  /** A segment that names something. */
  predicate IsName(segment: string)
  {
    segment != "" && segment != "."
  }

  function Names(segments: seq<string>): seq<string>
  {
    Filter(IsName, segments)
  }

  /** A prefix without its empty and `.` segments: what the server keeps. */
  function NormalOf(prefix: string): string
  {
    Join(Names(Split(prefix, '/')), '/')
  }

  /** What the page makes of a prefix, `None` when it refuses it. */
  function Normalized(prefix: string): Option<string>
  {
    var segments := Split(prefix, '/');
    if '\\' in prefix || "/" <= prefix || ':' in segments[0] || ".." in segments then None
    else Some(NormalOf(prefix))
  }

  /** Whether the server refuses a prefix. */
  predicate Refused(prefix: string)
  {
    var segments := Split(prefix, '/');
    '\\' in prefix || '\0' in prefix || "/" <= prefix || ':' in segments[0] || ".." in segments
  }

  lemma {:induction false} FilterSame<T>(f: T -> bool, g: T -> bool, s: seq<T>)
    requires forall x :: x in s ==> f(x) == g(x)
    ensures Filter(f, s) == Filter(g, s)
  {
    if s != [] {
      assert s[0] in s;
      FilterSame(f, g, s[1..]);
    }
  }

  /** A normal prefix is the segments but the empty and `.` ones, with slashes between. */
  lemma NormalIs(prefix: string)
    ensures NormalOf(prefix) == Join(Filter((segment: string) => segment != "" && segment != ".", Split(prefix, '/')), '/')
  {
    FilterSame(IsName, (segment: string) => segment != "" && segment != ".", Split(prefix, '/'));
  }

  /** A colon stands before any slash. */
  ghost predicate ColonAtFront(prefix: string)
  {
    exists i :: 0 <= i < |prefix| && prefix[i] == ':' && '/' !in prefix[..i]
  }

  lemma {:induction false} FirstSegment(prefix: string)
    ensures ':' in Split(prefix, '/')[0] <==> ColonAtFront(prefix)
  {
    if prefix != "" && prefix[0] != '/' {
      FirstSegment(prefix[1..]);
      var rest := Split(prefix[1..], '/')[0];
      assert Split(prefix, '/')[0] == [prefix[0]] + rest;
      if prefix[0] == ':' {
        assert prefix[..0] == "";
      }
      if i :| 0 <= i < |prefix[1..]| && prefix[1..][i] == ':' && '/' !in prefix[1..][..i] {
        assert prefix[..i + 1] == [prefix[0]] + prefix[1..][..i];
        assert prefix[i + 1] == ':';
      }
      if i :| 0 < i < |prefix| && prefix[i] == ':' && '/' !in prefix[..i] {
        assert prefix[1..][i - 1] == ':' && prefix[1..][..i - 1] == prefix[..i][1..];
      }
    } else if prefix != "" {
      forall i | 0 <= i < |prefix| && prefix[i] == ':' ensures '/' in prefix[..i] {
        assert prefix[..i][0] == '/';
      }
    }
  }

  /**
   What either side refuses: backslashes, what starts with a slash or leaves the workspace, a colon
   up front; the server a NUL as well.
   */
  lemma RefusedIff(prefix: string)
    ensures var bad := '\\' in prefix || (prefix != "" && prefix[0] == '/') || ColonAtFront(prefix) || ".." in Split(prefix, '/');
            && (Normalized(prefix).None? <==> bad)
            && (Refused(prefix) <==> bad || '\0' in prefix)
  {
    FirstSegment(prefix);
    assert "/" <= prefix <==> prefix != "" && prefix[0] == '/';
  }

  /** The page's normalization as it runs. */
  method NormalizePrefix(prefix: string) returns (normal: Option<string>)
    ensures normal == Normalized(prefix)
  {
    var segments := Split(prefix, '/');
    if '\\' in prefix || "/" <= prefix || ':' in segments[0] {
      return None;
    }
    var kept: seq<string> := [];
    for at := 0 to |segments|
      invariant kept == Names(segments[..at]) && ".." !in segments[..at]
    {
      var segment := segments[at];
      assert segments[..at + 1] == segments[..at] + [segment];
      FilterAppend(IsName, segments[..at], [segment]);
      if segment != "" && segment != "." {
        if segment == ".." {
          return None;
        }
        kept := kept + [segment];
      }
    }
    assert segments[..|segments|] == segments;
    normal := Some(Join(kept, '/'));
  }

  lemma {:induction false} JoinLacks(parts: seq<string>, c: char)
    requires c != '/' && forall part :: part in parts ==> c !in part
    ensures c !in Join(parts, '/')
  {
    if |parts| > 0 {
      assert parts[0] in parts;
      if |parts| > 1 {
        forall part | part in parts[1..] ensures c !in part {
          assert part in parts;
        }
        JoinLacks(parts[1..], c);
      }
    }
  }

  /** The segments of a normal prefix. */
  lemma NormalParts(prefix: string)
    ensures var names := Names(Split(prefix, '/'));
            && (names == [] ==> Split(NormalOf(prefix), '/') == [""])
            && (names != [] ==> Split(NormalOf(prefix), '/') == names && IsName(names[0]))
  {
    var segments := Split(prefix, '/');
    var names := Names(segments);
    FilterMembers(IsName, segments);
    if names != [] {
      assert names[0] in names;
      forall part | part in names ensures '/' !in part {
        SplitLacks(prefix, '/', '/', part);
      }
      SplitJoin(names, '/');
    }
  }

  lemma NormalIsNormal(prefix: string)
    ensures NormalOf(NormalOf(prefix)) == NormalOf(prefix)
    ensures ".." in Split(NormalOf(prefix), '/') ==> ".." in Split(prefix, '/')
  {
    var segments := Split(prefix, '/');
    FilterMembers(IsName, segments);
    NormalParts(prefix);
    FilterAll(IsName, Names(segments));
  }

  lemma NormalLacks(prefix: string, c: char)
    requires c != '/' && c !in prefix
    ensures c !in NormalOf(prefix)
  {
    var segments := Split(prefix, '/');
    FilterMembers(IsName, segments);
    forall part | part in Names(segments) ensures c !in part {
      SplitLacks(prefix, '/', c, part);
    }
    JoinLacks(Names(segments), c);
  }

  lemma NormalNotAbsolute(prefix: string)
    ensures !("/" <= NormalOf(prefix))
  {
    NormalParts(prefix);
  }

  /** A character stays in some segment. */
  lemma {:induction false} SegmentHolds(s: string, c: char) returns (part: string)
    requires c in s && c != '/'
    ensures part in Split(s, '/') && c in part
  {
    assert s == [s[0]] + s[1..];
    var rest := Split(s[1..], '/');
    if s[0] == c {
      part := [c] + rest[0];
      assert Split(s, '/')[0] == part && part[0] == c;
    } else {
      part := SegmentHolds(s[1..], c);
      if s[0] == '/' {
        assert Split(s, '/') == [""] + rest;
      } else {
        assert Split(s, '/') == [[s[0]] + rest[0]] + rest[1..];
        if part == rest[0] {
          part := [s[0]] + rest[0];
        }
      }
    }
  }

  lemma {:induction false} JoinHolds(parts: seq<string>, part: string, c: char)
    requires part in parts && c in part
    ensures c in Join(parts, '/')
  {
    if |parts| > 1 {
      assert parts == [parts[0]] + parts[1..];
      if part != parts[0] {
        JoinHolds(parts[1..], part, c);
      }
    }
  }

  /** Normalizing drops no characters but dots and slashes. */
  lemma NormalHolds(prefix: string, c: char)
    requires c != '/' && c != '.'
    ensures c in NormalOf(prefix) <==> c in prefix
  {
    if c in prefix {
      var part := SegmentHolds(prefix, c);
      FilterMembers(IsName, Split(prefix, '/'));
      JoinHolds(Names(Split(prefix, '/')), part, c);
    } else {
      NormalLacks(prefix, c);
    }
  }

  /** The first segment of a prefix that names something holds a colon. */
  predicate ColonFirst(prefix: string)
  {
    var names := Names(Split(prefix, '/'));
    names != [] && ':' in names[0]
  }

  /**
   What the page sends for a prefix it accepted is normal already, and the server refuses it
   exactly when it holds a NUL or its first name holds a colon.
   */
  lemma NormalizedIsAccepted(prefix: string)
    requires Normalized(prefix).Some?
    ensures NormalOf(Normalized(prefix).value) == Normalized(prefix).value
    ensures Refused(Normalized(prefix).value) <==> '\0' in prefix || ColonFirst(prefix)
  {
    NormalIsNormal(prefix);
    NormalHolds(prefix, '\0');
    NormalLacks(prefix, '\\');
    NormalNotAbsolute(prefix);
    NormalParts(prefix);
  }

  /** Normalizing twice is normalizing once, but for a colon that moved to the front. */
  lemma NormalizeTwice(prefix: string)
    requires Normalized(prefix).Some?
    ensures Normalized(Normalized(prefix).value) == if ColonFirst(prefix) then None else Normalized(prefix)
  {
    NormalIsNormal(prefix);
    NormalLacks(prefix, '\\');
    NormalNotAbsolute(prefix);
    NormalParts(prefix);
  }

  // ---- Sorted changes ----------------------------------------------------------------------

  function InsertByPath(change: Change, sorted: seq<Change>): seq<Change>
  {
    if sorted == [] then [change]
    else if !Less(sorted[0].path, change.path) then [change] + sorted
    else [sorted[0]] + InsertByPath(change, sorted[1..])
  }

  /** The changes by path, those of one path in the order they came. */
  function SortByPath(changes: seq<Change>): seq<Change>
  {
    if changes == [] then [] else InsertByPath(changes[0], SortByPath(changes[1..]))
  }

  ghost predicate InPathOrder(changes: seq<Change>)
  {
    forall i, j :: 0 <= i < j < |changes| ==> !Less(changes[j].path, changes[i].path)
  }

  function AtPath(path: string): Change -> bool
  {
    (change: Change) => change.path == path
  }

  lemma {:induction false} NotLessTransitive(a: string, b: string, c: string)
    requires !Less(b, a) && !Less(c, b)
    ensures !Less(c, a)
  {
    LessTotal(a, b);
    if Less(c, a) && a != b {
      LessTransitive(c, a, b);
    }
  }

  lemma {:induction false} InsertMembers(change: Change, sorted: seq<Change>, x: Change)
    ensures x in InsertByPath(change, sorted) <==> x == change || x in sorted
  {
    if sorted != [] && Less(sorted[0].path, change.path) {
      InsertMembers(change, sorted[1..], x);
      assert sorted == [sorted[0]] + sorted[1..];
    }
  }

  lemma HeadIsLeast(sorted: seq<Change>, x: Change)
    requires InPathOrder(sorted) && x in sorted
    ensures !Less(x.path, sorted[0].path)
  {
    var k :| 0 <= k < |sorted| && sorted[k] == x;
    LessIrreflexive(x.path);
  }

  lemma {:induction false} InsertKeepsOrder(change: Change, sorted: seq<Change>)
    requires InPathOrder(sorted)
    ensures InPathOrder(InsertByPath(change, sorted))
  {
    if sorted != [] {
      if !Less(sorted[0].path, change.path) {
        forall x | x in sorted ensures !Less(x.path, change.path) {
          HeadIsLeast(sorted, x);
          NotLessTransitive(change.path, sorted[0].path, x.path);
        }
      } else {
        InsertKeepsOrder(change, sorted[1..]);
        forall x | x in InsertByPath(change, sorted[1..]) ensures !Less(x.path, sorted[0].path) {
          InsertMembers(change, sorted[1..], x);
          if x == change {
            LessAsymmetric(sorted[0].path, change.path);
          } else {
            HeadIsLeast(sorted, x);
          }
        }
      }
    }
  }

  lemma {:induction false} SortInOrder(changes: seq<Change>)
    ensures InPathOrder(SortByPath(changes))
  {
    if changes != [] {
      SortInOrder(changes[1..]);
      InsertKeepsOrder(changes[0], SortByPath(changes[1..]));
    }
  }

  lemma InsertInFront(change: Change, rest: seq<Change>)
    requires forall x :: x in rest ==> !Less(x.path, change.path)
    ensures InsertByPath(change, rest) == [change] + rest
  {
    if rest != [] {
      assert rest[0] in rest;
    }
  }

  lemma {:induction false} FilterInsert(keep: Change -> bool, change: Change, sorted: seq<Change>)
    requires InPathOrder(sorted)
    ensures Filter(keep, InsertByPath(change, sorted))
         == if keep(change) then InsertByPath(change, Filter(keep, sorted)) else Filter(keep, sorted)
  {
    if sorted == [] {
      assert [change][1..] == [];
    } else if !Less(sorted[0].path, change.path) {
      assert ([change] + sorted)[1..] == sorted;
      FilterMembers(keep, sorted);
      forall x | x in Filter(keep, sorted) ensures !Less(x.path, change.path) {
        HeadIsLeast(sorted, x);
        NotLessTransitive(change.path, sorted[0].path, x.path);
      }
      InsertInFront(change, Filter(keep, sorted));
    } else {
      FilterInsert(keep, change, sorted[1..]);
      assert [sorted[0]] + sorted[1..] == sorted;
      FilterCons(keep, sorted[0], sorted[1..]);
      FilterCons(keep, sorted[0], InsertByPath(change, sorted[1..]));
      InsertPast(change, sorted[0], Filter(keep, sorted[1..]));
    }
  }

  lemma FilterCons(keep: Change -> bool, first: Change, rest: seq<Change>)
    ensures Filter(keep, [first] + rest) == if keep(first) then [first] + Filter(keep, rest) else Filter(keep, rest)
  {
    assert ([first] + rest)[1..] == rest && [] + Filter(keep, rest) == Filter(keep, rest);
  }

  lemma InsertPast(change: Change, first: Change, rest: seq<Change>)
    requires Less(first.path, change.path)
    ensures InsertByPath(change, [first] + rest) == [first] + InsertByPath(change, rest)
  {
    assert ([first] + rest)[1..] == rest;
  }

  /** Choosing changes and sorting them can be done in either order. */
  lemma {:induction false} FilterSort(keep: Change -> bool, changes: seq<Change>)
    ensures Filter(keep, SortByPath(changes)) == SortByPath(Filter(keep, changes))
  {
    if changes != [] {
      var rest := changes[1..];
      FilterSort(keep, rest);
      SortInOrder(rest);
      FilterInsert(keep, changes[0], SortByPath(rest));
      if keep(changes[0]) {
        assert ([changes[0]] + Filter(keep, rest))[1..] == Filter(keep, rest);
      } else {
        assert [] + Filter(keep, rest) == Filter(keep, rest);
      }
    }
  }

  lemma {:induction false} SamePathSorted(changes: seq<Change>)
    requires forall i, j :: 0 <= i < |changes| && 0 <= j < |changes| ==> changes[i].path == changes[j].path
    ensures SortByPath(changes) == changes
  {
    if changes != [] {
      SamePathSorted(changes[1..]);
      forall x | x in changes[1..] ensures !Less(x.path, changes[0].path) {
        LessIrreflexive(x.path);
      }
      InsertInFront(changes[0], changes[1..]);
    }
  }

  /** Sorting puts the changes in order of path and keeps those of each path as they came. */
  lemma SortIsStable(changes: seq<Change>, path: string)
    ensures InPathOrder(SortByPath(changes))
    ensures Filter(AtPath(path), SortByPath(changes)) == Filter(AtPath(path), changes)
  {
    SortInOrder(changes);
    FilterSort(AtPath(path), changes);
    FilterMembers(AtPath(path), changes);
    var there := Filter(AtPath(path), changes);
    forall i | 0 <= i < |there| ensures there[i].path == path {
      assert there[i] in there;
    }
    SamePathSorted(there);
  }

  // ---- Both cuts ---------------------------------------------------------------------------

  predicate AnyConcerns(path: string, watching: seq<string>)
  {
    exists prefix :: prefix in watching && (IsWithinByServer(path, prefix) || IsWithinByServer(prefix, path))
  }

  function KeepAny(watching: seq<string>): Change -> bool
  {
    (change: Change) => AnyConcerns(change.path, watching)
  }

  function KeepFor(prefix: string): Change -> bool
  {
    (change: Change) => Concerns(change.path, prefix)
  }

  function Batch(changes: seq<Change>): Option<Frame>
  {
    if changes == [] then None else Some(Changed(changes))
  }

  /** What the server sends a page that watches `watching`. */
  function WatchedFrame(watching: seq<string>, frame: Frame): Option<Frame>
  {
    match frame
    case Changed(changes) => Batch(SortByPath(Filter(KeepAny(watching), changes)))
    case Notice(_) => if watching == [] then None else Some(frame)
  }

  /** What the page gives a watcher of a frame it received. */
  function CutTo(prefix: string, frame: Frame): Option<Frame>
  {
    match frame
    case Changed(changes) => Batch(Filter(KeepFor(prefix), changes))
    case Notice(_) => Some(frame)
  }

  /** What the page's watchers are given of a frame, in the order they were added. */
  function Deliveries(watchers: seq<Watcher>, frame: Frame): seq<(nat, Frame)>
  {
    if watchers == [] then []
    else
      var last := watchers[|watchers| - 1];
      var cut := CutTo(last.prefix, frame);
      Deliveries(watchers[..|watchers| - 1], frame) + if cut.None? then [] else [(last.id, cut.value)]
  }

  /** The page's delivery as it runs. */
  method DeliverToWatchers(watchers: seq<Watcher>, frame: Frame) returns (calls: seq<(nat, Frame)>)
    ensures calls == Deliveries(watchers, frame)
  {
    calls := [];
    for at := 0 to |watchers|
      invariant calls == Deliveries(watchers[..at], frame)
    {
      var watcher := watchers[at];
      assert watchers[..at + 1][..at] == watchers[..at];
      var delivered := frame;
      if frame.Changed? {
        var changes := Filter(KeepFor(watcher.prefix), frame.changes);
        if changes == [] {
          continue;
        }
        delivered := Changed(changes);
      }
      calls := calls + [(watcher.id, delivered)];
    }
    assert watchers[..|watchers|] == watchers;
  }

  /** Without a prefix to watch, no frame goes out. */
  lemma {:induction false} NothingWatched(frame: Frame)
    ensures WatchedFrame([], frame) == None
  {
    if frame.Changed? {
      NothingKept(frame.changes);
    }
  }

  lemma {:induction false} NothingKept(changes: seq<Change>)
    ensures Filter(KeepAny([]), changes) == []
  {
    if changes != [] {
      NothingKept(changes[1..]);
      assert !KeepAny([])(changes[0]);
    }
  }

  /** What a watcher of `prefix` hears of a frame, through the server and then the page. */
  function Heard(watching: seq<string>, prefix: string, frame: Frame): Option<Frame>
  {
    var sent := WatchedFrame(watching, frame);
    if sent.None? then None else CutTo(prefix, sent.value)
  }

  /** What it is due: the changes that concern it, by path, and every notice. */
  function DueTo(prefix: string, frame: Frame): Option<Frame>
  {
    match frame
    case Changed(changes) => Batch(SortByPath(Filter(KeepFor(prefix), changes)))
    case Notice(_) => Some(frame)
  }

  /** The server watches something the prefix is in. */
  predicate Covered(prefix: string, watching: seq<string>)
  {
    exists wider :: wider in watching && IsWithin(prefix, wider)
  }

  lemma {:induction false} FilterOfFilter<T>(fine: T -> bool, coarse: T -> bool, s: seq<T>)
    requires forall x :: x in s && fine(x) ==> coarse(x)
    ensures Filter(fine, Filter(coarse, s)) == Filter(fine, s)
  {
    if s != [] {
      FilterOfFilter(fine, coarse, s[1..]);
      var rest := Filter(coarse, s[1..]);
      assert s[0] in s;
      if coarse(s[0]) {
        assert ([s[0]] + rest)[1..] == rest;
      } else {
        assert [] + rest == rest && [] + Filter(fine, s[1..]) == Filter(fine, s[1..]);
      }
    }
  }

  /** A wider prefix concerns what a narrower one does. */
  lemma WiderConcerns(path: string, prefix: string, wider: string)
    requires IsWithin(prefix, wider) && Concerns(path, prefix)
    ensures Concerns(path, wider)
  {
    if IsWithin(path, prefix) {
      if prefix != "" {
        WithinTransitive(path, prefix, wider);
      }
    } else if |path| <= |wider| {
      AncestorsInLine(prefix, path, wider);
    } else {
      AncestorsInLine(prefix, wider, path);
    }
  }

  lemma CoveredConcerns(path: string, prefix: string, watching: seq<string>)
    requires Covered(prefix, watching) && Concerns(path, prefix)
    ensures AnyConcerns(path, watching)
  {
    var wider :| wider in watching && IsWithin(prefix, wider);
    WiderConcerns(path, prefix, wider);
    SameWithin(path, wider);
    SameWithin(wider, path);
  }

  lemma SortedEmpty(changes: seq<Change>)
    ensures SortByPath(changes) == [] <==> changes == []
  {
  }

  /** A covered watcher hears exactly what it is due. */
  lemma TwoStages(watching: seq<string>, prefix: string, frame: Frame)
    requires Covered(prefix, watching)
    ensures Heard(watching, prefix, frame) == DueTo(prefix, frame)
  {
    if frame.Changed? {
      var coarse := Filter(KeepAny(watching), frame.changes);
      forall change | change in frame.changes && KeepFor(prefix)(change) ensures KeepAny(watching)(change) {
        CoveredConcerns(change.path, prefix, watching);
      }
      FilterOfFilter(KeepFor(prefix), KeepAny(watching), frame.changes);
      FilterSort(KeepFor(prefix), coarse);
      SortedEmpty(coarse);
    }
  }

  function Longest(watching: seq<string>): nat
  {
    if watching == [] then 0
    else
      var rest := Longest(watching[1..]);
      if |watching[0]| > rest then |watching[0]| else rest
  }

  lemma {:induction false} LongestBounds(watching: seq<string>, prefix: string)
    requires prefix in watching
    ensures |prefix| <= Longest(watching)
  {
    if prefix != watching[0] {
      LongestBounds(watching[1..], prefix);
    }
  }

  /** A path right under a prefix, by a name of `n` letters. */
  function Under(prefix: string, n: nat): string
  {
    (if prefix == "" then "" else prefix + "/") + seq(n, _ => 'x')
  }

  /** The slashes of such a path are the prefix's and the one after it. */
  lemma SlashOfUnder(prefix: string, n: nat, at: nat)
    requires at < |Under(prefix, n)| && Under(prefix, n)[at] == '/'
    ensures prefix != "" && at <= |prefix| && Under(prefix, n)[..at] == prefix[..at]
    ensures at < |prefix| ==> prefix[at] == '/'
  {
  }

  /** Nothing shorter that does not hold the prefix concerns a path under it with a longer name. */
  lemma UnderIsOutside(prefix: string, n: nat, other: string)
    requires |other| < n && !IsWithin(prefix, other)
    ensures !Concerns(Under(prefix, n), other)
  {
    var path := Under(prefix, n);
    if IsWithin(path, other) {
      SlashOfUnder(prefix, n, |other|);
      assert false;
    }
  }

  lemma FilterOne<T>(keep: T -> bool, x: T)
    ensures Filter(keep, [x]) == if keep(x) then [x] else []
  {
    assert [x][1..] == [];
  }

  /** A change a watcher that is not covered is due and does not hear. */
  lemma UncoveredMisses(watching: seq<string>, prefix: string) returns (change: Change)
    requires !Covered(prefix, watching)
    ensures Heard(watching, prefix, Changed([change])) == None
    ensures DueTo(prefix, Changed([change])) == Some(Changed([change]))
  {
    var n := Longest(watching) + 1;
    var path := Under(prefix, n);
    change := Change(path, Modified);
    forall other | other in watching ensures !IsWithinByServer(path, other) && !IsWithinByServer(other, path) {
      LongestBounds(watching, other);
      UnderIsOutside(prefix, n, other);
      SameWithin(path, other);
      SameWithin(other, path);
    }
    UnderIsWithin(prefix, n);
    FilterOne(KeepFor(prefix), change);
    FilterOne(KeepAny(watching), change);
    SamePathSorted([change]);
  }

  lemma UnderIsWithin(prefix: string, n: nat)
    ensures IsWithin(Under(prefix, n), prefix)
  {
    if prefix != "" {
      var path := Under(prefix, n);
      assert path == prefix + "/" + seq(n, _ => 'x');
      assert path[..|prefix|] == prefix;
    }
  }

  /** A watcher hears exactly what it is due of every frame, exactly when it is covered. */
  lemma TwoStagesIff(watching: seq<string>, prefix: string)
    ensures (forall frame :: Heard(watching, prefix, frame) == DueTo(prefix, frame)) <==> Covered(prefix, watching)
  {
    if Covered(prefix, watching) {
      forall frame ensures Heard(watching, prefix, frame) == DueTo(prefix, frame) {
        TwoStages(watching, prefix, frame);
      }
    } else {
      var change := UncoveredMisses(watching, prefix);
      assert Heard(watching, prefix, Changed([change])) != DueTo(prefix, Changed([change]));
    }
  }

  // ---- The page and the server -------------------------------------------------------------

  /** A page's watchers, and the prefixes the server keeps for its connection. */
  datatype Link = Link(watchers: seq<Watcher>, watching: seq<string>, nextId: nat)

  datatype Event = Watch(prefix: string) | Unwatch(id: nat) | Reconnect

  /** The watchers' prefixes, each once, sorted. */
  function PrefixesOf(watchers: seq<Watcher>): seq<string>
  {
    if watchers == [] then []
    else
      var rest := PrefixesOf(watchers[1..]);
      if watchers[0].prefix in rest then rest else Insert(rest, watchers[0].prefix)
  }

  function NormalAll(prefixes: seq<string>): seq<string>
  {
    if prefixes == [] then [] else [NormalOf(prefixes[0])] + NormalAll(prefixes[1..])
  }

  /** Each string where it first comes. */
  function Unique(s: seq<string>): seq<string>
  {
    if s == [] then []
    else
      var before := Unique(s[..|s| - 1]);
      if s[|s| - 1] in before then before else before + [s[|s| - 1]]
  }

  /** What the server keeps after the page sends its prefixes: the old ones when it refuses any. */
  function Receive(watching: seq<string>, prefixes: seq<string>): seq<string>
  {
    if exists prefix :: prefix in prefixes && Refused(prefix) then watching else Unique(NormalAll(prefixes))
  }

  function Without(watchers: seq<Watcher>, id: nat): seq<Watcher>
  {
    if watchers == [] then []
    else if watchers[0].id == id then watchers[1..]
    else [watchers[0]] + Without(watchers[1..], id)
  }

  predicate HasWatcher(watchers: seq<Watcher>, id: nat)
  {
    exists i :: 0 <= i < |watchers| && watchers[i].id == id
  }

  function Step(link: Link, event: Event): Link
  {
    match event
    case Watch(prefix) =>
      var normal := Normalized(prefix);
      if normal.None? then link
      else
        var watchers := link.watchers + [Watcher(link.nextId, normal.value)];
        Link(watchers, Receive(link.watching, PrefixesOf(watchers)), link.nextId + 1)
    case Unwatch(id) =>
      if HasWatcher(link.watchers, id) then
        var watchers := Without(link.watchers, id);
        Link(watchers, Receive(link.watching, PrefixesOf(watchers)), link.nextId)
      else link
    case Reconnect =>
      var watching := if link.watchers == [] then [] else Receive([], PrefixesOf(link.watchers));
      Link(link.watchers, watching, link.nextId)
  }

  function Run(events: seq<Event>): Link
  {
    if events == [] then Link([], [], 0) else Step(Run(events[..|events| - 1]), events[|events| - 1])
  }

  /** The server refuses no watcher's prefix. */
  ghost predicate NoneRefused(watchers: seq<Watcher>)
  {
    forall i :: 0 <= i < |watchers| ==> !Refused(watchers[i].prefix)
  }

  ghost predicate AllNormal(watchers: seq<Watcher>)
  {
    forall i :: 0 <= i < |watchers| ==> NormalOf(watchers[i].prefix) == watchers[i].prefix
  }

  /** The server keeps what the page watches, as long as it refuses nothing of it. */
  ghost predicate InStep(link: Link)
  {
    AllNormal(link.watchers) && (NoneRefused(link.watchers) ==> link.watching == PrefixesOf(link.watchers))
  }

  function PrefixSet(watchers: seq<Watcher>): set<string>
  {
    if watchers == [] then {} else {watchers[0].prefix} + PrefixSet(watchers[1..])
  }

  lemma {:induction false} PrefixSetHolds(watchers: seq<Watcher>, prefix: string)
    ensures prefix in PrefixSet(watchers) <==> exists i :: 0 <= i < |watchers| && watchers[i].prefix == prefix
  {
    if watchers != [] {
      PrefixSetHolds(watchers[1..], prefix);
      if prefix in PrefixSet(watchers[1..]) {
        var i :| 0 <= i < |watchers| - 1 && watchers[1..][i].prefix == prefix;
        assert watchers[i + 1].prefix == prefix;
      } else if prefix != watchers[0].prefix {
        forall i | 0 <= i < |watchers| ensures watchers[i].prefix != prefix {
          assert i > 0 ==> watchers[1..][i - 1] == watchers[i];
        }
      }
    }
  }

  lemma {:induction false} PrefixesListed(watchers: seq<Watcher>)
    ensures Lists(PrefixesOf(watchers), PrefixSet(watchers))
  {
    if watchers != [] {
      PrefixesListed(watchers[1..]);
      var prefix, rest := watchers[0].prefix, PrefixSet(watchers[1..]);
      if prefix !in rest {
        InsertLists(PrefixesOf(watchers[1..]), rest, prefix);
        assert rest + {prefix} == {prefix} + rest;
      } else {
        assert {prefix} + rest == rest;
      }
    }
  }

  lemma AscendingDistinct(s: seq<string>)
    requires Ascending(s)
    ensures Distinct(s)
  {
    forall i, j | 0 <= i < j < |s| ensures s[i] != s[j] {
      LessIrreflexive(s[i]);
    }
  }

  lemma {:induction false} UniqueOfDistinct(s: seq<string>)
    requires Distinct(s)
    ensures Unique(s) == s
  {
    if s != [] {
      UniqueOfDistinct(s[..|s| - 1]);
      assert s == s[..|s| - 1] + [s[|s| - 1]];
    }
  }

  lemma {:induction false} NormalAllSame(prefixes: seq<string>)
    requires forall prefix :: prefix in prefixes ==> NormalOf(prefix) == prefix
    ensures NormalAll(prefixes) == prefixes
  {
    if prefixes != [] {
      NormalAllSame(prefixes[1..]);
      assert prefixes == [prefixes[0]] + prefixes[1..];
    }
  }

  /** The server takes over the prefixes of watchers it refuses none of. */
  lemma ReceiveTakesOver(watching: seq<string>, watchers: seq<Watcher>)
    requires AllNormal(watchers) && NoneRefused(watchers)
    ensures Receive(watching, PrefixesOf(watchers)) == PrefixesOf(watchers)
  {
    var prefixes := PrefixesOf(watchers);
    PrefixesListed(watchers);
    forall prefix | prefix in prefixes ensures NormalOf(prefix) == prefix && !Refused(prefix) {
      PrefixSetHolds(watchers, prefix);
    }
    AscendingDistinct(prefixes);
    NormalAllSame(prefixes);
    UniqueOfDistinct(prefixes);
  }

  lemma {:induction false} WithoutMembers(watchers: seq<Watcher>, id: nat)
    ensures forall w :: w in Without(watchers, id) ==> w in watchers
  {
    if watchers != [] {
      WithoutMembers(watchers[1..], id);
      assert watchers == [watchers[0]] + watchers[1..];
    }
  }

  lemma SomeNormal(watchers: seq<Watcher>, all: seq<Watcher>)
    requires AllNormal(all) && forall w :: w in watchers ==> w in all
    ensures AllNormal(watchers)
  {
    forall i | 0 <= i < |watchers| ensures NormalOf(watchers[i].prefix) == watchers[i].prefix {
      assert watchers[i] in all;
    }
  }

  lemma SyncKeepsStep(watching: seq<string>, watchers: seq<Watcher>, nextId: nat)
    requires AllNormal(watchers)
    ensures InStep(Link(watchers, Receive(watching, PrefixesOf(watchers)), nextId))
  {
    if NoneRefused(watchers) {
      ReceiveTakesOver(watching, watchers);
    }
  }

  lemma StepInStep(link: Link, event: Event)
    requires InStep(link)
    ensures InStep(Step(link, event))
  {
    match event
    case Watch(prefix) =>
      if Normalized(prefix).Some? {
        NormalizedIsAccepted(prefix);
        SyncKeepsStep(link.watching, link.watchers + [Watcher(link.nextId, Normalized(prefix).value)], link.nextId + 1);
      }
    case Unwatch(id) =>
      WithoutMembers(link.watchers, id);
      SomeNormal(Without(link.watchers, id), link.watchers);
      SyncKeepsStep(link.watching, Without(link.watchers, id), link.nextId);
    case Reconnect =>
      SyncKeepsStep([], link.watchers, link.nextId);
  }

  lemma {:induction false} RunInStep(events: seq<Event>)
    ensures InStep(Run(events))
  {
    if events != [] {
      RunInStep(events[..|events| - 1]);
      StepInStep(Run(events[..|events| - 1]), events[|events| - 1]);
    }
  }

  /**
   However watchers came and went and the connection was remade: while the server refuses no
   watcher's prefix, each watcher hears exactly the changes that concern it, and every notice.
   */
  lemma EveryWatcherHears(events: seq<Event>, at: nat, frame: Frame)
    requires at < |Run(events).watchers| && NoneRefused(Run(events).watchers)
    ensures Heard(Run(events).watching, Run(events).watchers[at].prefix, frame) == DueTo(Run(events).watchers[at].prefix, frame)
  {
    var link := Run(events);
    RunInStep(events);
    PrefixesListed(link.watchers);
    PrefixSetHolds(link.watchers, link.watchers[at].prefix);
    TwoStages(link.watching, link.watchers[at].prefix, frame);
  }

  // ---- The calls ---------------------------------------------------------------------------

  /** What the calls gave the watcher `id`. */
  function CallsOf(calls: seq<(nat, Frame)>, id: nat): seq<Frame>
  {
    if calls == [] then []
    else
      var last := calls[|calls| - 1];
      CallsOf(calls[..|calls| - 1], id) + if last.0 == id then [last.1] else []
  }

  ghost predicate DistinctIds(watchers: seq<Watcher>)
  {
    forall i, j :: 0 <= i < j < |watchers| ==> watchers[i].id != watchers[j].id
  }

  function Once(frame: Option<Frame>): seq<Frame>
  {
    if frame.None? then [] else [frame.value]
  }

  lemma {:induction false} NotCalled(watchers: seq<Watcher>, frame: Frame, id: nat)
    requires forall i :: 0 <= i < |watchers| ==> watchers[i].id != id
    ensures CallsOf(Deliveries(watchers, frame), id) == []
  {
    if watchers != [] {
      var last := watchers[|watchers| - 1];
      var before := Deliveries(watchers[..|watchers| - 1], frame);
      NotCalled(watchers[..|watchers| - 1], frame, id);
      CallsAfter(before, CutTo(last.prefix, frame), last.id, id);
    }
  }

  lemma CallsAfter(calls: seq<(nat, Frame)>, cut: Option<Frame>, last: nat, id: nat)
    ensures CallsOf(calls + if cut.None? then [] else [(last, cut.value)], id)
         == CallsOf(calls, id) + if last == id then Once(cut) else []
  {
    if cut.None? {
      assert calls + [] == calls;
    } else {
      assert (calls + [(last, cut.value)])[..|calls|] == calls;
    }
  }

  /** A frame is delivered to each watcher once, cut to its prefix, or not at all when nothing concerns it. */
  lemma {:induction false} EachCalledOnce(watchers: seq<Watcher>, frame: Frame, at: nat)
    requires DistinctIds(watchers) && at < |watchers|
    ensures CallsOf(Deliveries(watchers, frame), watchers[at].id) == Once(CutTo(watchers[at].prefix, frame))
  {
    var before, last := watchers[..|watchers| - 1], watchers[|watchers| - 1];
    if at == |before| {
      NotCalled(before, frame, last.id);
    } else {
      EachCalledOnce(before, frame, at);
    }
    CallsAfter(Deliveries(before, frame), CutTo(last.prefix, frame), last.id, watchers[at].id);
  }

  /** What the page's watchers are given when `frame` happens. */
  function Calls(link: Link, frame: Frame): seq<(nat, Frame)>
  {
    var sent := WatchedFrame(link.watching, frame);
    if sent.None? then [] else Deliveries(link.watchers, sent.value)
  }

  ghost predicate IdsBelow(link: Link)
  {
    DistinctIds(link.watchers) && forall i :: 0 <= i < |link.watchers| ==> link.watchers[i].id < link.nextId
  }

  lemma {:induction false} WithoutIds(watchers: seq<Watcher>, id: nat, bound: nat)
    requires IdsBelow(Link(watchers, [], bound))
    ensures IdsBelow(Link(Without(watchers, id), [], bound))
  {
    if watchers != [] && watchers[0].id != id {
      var rest := Without(watchers[1..], id);
      WithoutIds(watchers[1..], id, bound);
      WithoutMembers(watchers[1..], id);
      forall j | 0 <= j < |rest| ensures rest[j].id != watchers[0].id {
        assert rest[j] in watchers[1..];
      }
    }
  }

  lemma {:induction false} RunIds(events: seq<Event>)
    ensures IdsBelow(Run(events))
  {
    if events != [] {
      var before, e := Run(events[..|events| - 1]), events[|events| - 1];
      RunIds(events[..|events| - 1]);
      if e.Unwatch? {
        WithoutIds(before.watchers, e.id, before.nextId);
      }
    }
  }

  /**
   However watchers came and went and the connection was remade: while the server refuses no
   watcher's prefix, a frame calls each watcher once with exactly the changes that concern it,
   sorted, and does not call it when there are none.
   */
  lemma EveryWatcherIsCalled(events: seq<Event>, at: nat, frame: Frame)
    requires at < |Run(events).watchers| && NoneRefused(Run(events).watchers)
    ensures CallsOf(Calls(Run(events), frame), Run(events).watchers[at].id) == Once(DueTo(Run(events).watchers[at].prefix, frame))
  {
    var link := Run(events);
    EveryWatcherHears(events, at, frame);
    RunIds(events);
    var sent := WatchedFrame(link.watching, frame);
    if sent.Some? {
      EachCalledOnce(link.watchers, sent.value, at);
    }
  }

  // ---- A prefix the server refuses ---------------------------------------------------------

  /** One refused prefix keeps the server from taking over any. */
  lemma RefusedKeepsOld(watching: seq<string>, watchers: seq<Watcher>, at: nat)
    requires at < |watchers| && Refused(watchers[at].prefix)
    ensures Receive(watching, PrefixesOf(watchers)) == watching
  {
    PrefixesListed(watchers);
    PrefixSetHolds(watchers, watchers[at].prefix);
  }

  /** A single segment without special characters is fine on both sides. */
  lemma PlainPrefix(prefix: string)
    requires '/' !in prefix && '\\' !in prefix && ':' !in prefix && '\0' !in prefix
    requires IsName(prefix) && prefix != ".."
    ensures Normalized(prefix) == Some(prefix) && !Refused(prefix)
  {
    SplitNone('/', prefix);
    FilterOne(IsName, prefix);
  }

  lemma DottedParts()
    ensures Split("./b:c", '/') == [".", "b:c"] && Split("b:c", '/') == ["b:c"]
  {
    SplitAt('/', ".", "b:c");
    SplitNone('/', "b:c");
    assert "." + ['/'] + "b:c" == "./b:c";
  }

  lemma DottedNames()
    ensures Names([".", "b:c"]) == ["b:c"]
  {
    FilterOne(IsName, "b:c");
    assert [".", "b:c"][1..] == ["b:c"];
    assert [] + Names(["b:c"]) == ["b:c"];
  }

  lemma DottedColon()
    ensures Normalized("./b:c") == Some("b:c") && Refused("b:c")
  {
    DottedParts();
    DottedNames();
    assert "b:c"[1] == ':';
  }

  lemma RunWatch(events: seq<Event>, prefix: string, normal: string, watchers: seq<Watcher>)
    requires Normalized(prefix) == Some(normal)
    requires watchers == Run(events).watchers + [Watcher(Run(events).nextId, normal)]
    ensures Run(events + [Watch(prefix)])
         == Link(watchers, Receive(Run(events).watching, PrefixesOf(watchers)), Run(events).nextId + 1)
  {
    RunsOn(events, Watch(prefix));
  }

  lemma WatchA()
    ensures Run([] + [Watch("a")]) == Link([Watcher(0, "a")], ["a"], 1)
  {
    PlainPrefix("a");
    NormalizedIsAccepted("a");
    ReceiveTakesOver([], [Watcher(0, "a")]);
    RunWatch([], "a", "a", [Watcher(0, "a")]);
  }

  /** While a watcher's prefix is refused, one more watcher changes nothing on the server. */
  lemma WatchUnheard(events: seq<Event>, prefix: string, normal: string, watchers: seq<Watcher>, at: nat)
    requires Normalized(prefix) == Some(normal)
    requires watchers == Run(events).watchers + [Watcher(Run(events).nextId, normal)]
    requires at < |watchers| && Refused(watchers[at].prefix)
    ensures Run(events + [Watch(prefix)]) == Link(watchers, Run(events).watching, Run(events).nextId + 1)
  {
    RunWatch(events, prefix, normal, watchers);
    RefusedKeepsOld(Run(events).watching, watchers, at);
  }

  lemma WatchDottedColon()
    ensures Run([] + [Watch("a")] + [Watch("./b:c")]) == Link([Watcher(0, "a"), Watcher(1, "b:c")], ["a"], 2)
  {
    WatchA();
    DottedColon();
    WatchUnheard([] + [Watch("a")], "./b:c", "b:c", [Watcher(0, "a"), Watcher(1, "b:c")], 1);
  }

  /** The watcher of `d` leaves the server with the prefixes it had. */
  lemma {:induction false} WatchD(events: seq<Event>)
    requires Run(events) == Link([Watcher(0, "a"), Watcher(1, "b:c")], ["a"], 2)
    ensures Run(events + [Watch("d")]) == Link([Watcher(0, "a"), Watcher(1, "b:c"), Watcher(2, "d")], ["a"], 3)
  {
    PlainPrefix("d");
    DottedColon();
    WatchUnheard(events, "d", "d", [Watcher(0, "a"), Watcher(1, "b:c"), Watcher(2, "d")], 1);
  }

  /** In any run a watcher that stops goes alone, the others keep their order, and the server is sent what is left. */
  lemma Unwatched(events: seq<Event>, at: nat)
    requires at < |Run(events).watchers|
    ensures var link := Run(events);
            var left := link.watchers[..at] + link.watchers[at + 1..];
            Run(events + [Unwatch(link.watchers[at].id)]) ==
              Link(left, Receive(link.watching, PrefixesOf(left)), link.nextId)
  {
    var link := Run(events);
    RunIds(events);
    WithoutIs(link.watchers, at);
    RunsOn(events, Unwatch(link.watchers[at].id));
  }

  /** One that has stopped before stops nothing. */
  lemma UnwatchedBefore(events: seq<Event>, id: nat)
    requires forall i :: 0 <= i < |Run(events).watchers| ==> Run(events).watchers[i].id != id
    ensures Run(events + [Unwatch(id)]) == Run(events)
  {
    RunsOn(events, Unwatch(id));
  }

  lemma {:induction false} WithoutIs(watchers: seq<Watcher>, at: nat)
    requires DistinctIds(watchers) && at < |watchers|
    ensures Without(watchers, watchers[at].id) == watchers[..at] + watchers[at + 1..]
  {
    if at > 0 {
      WithoutIs(watchers[1..], at - 1);
      assert watchers[1..][at - 1] == watchers[at] && watchers[0].id != watchers[at].id;
      assert [watchers[0]] + watchers[1..][..at - 1] == watchers[..at];
    }
  }

  /** A page that watches `./b:c`, which it accepts, has a later watcher of `d` go unheard. */
  lemma DeafWatcher()
    ensures var link := Run([] + [Watch("a")] + [Watch("./b:c")] + [Watch("d")]);
            link == Link([Watcher(0, "a"), Watcher(1, "b:c"), Watcher(2, "d")], ["a"], 3) && !Covered("d", link.watching)
  {
    WatchDottedColon();
    WatchD([] + [Watch("a")] + [Watch("./b:c")]);
    NotUnderA();
  }

  lemma NotUnderA()
    ensures !Covered("d", ["a"])
  {
    assert "d"[0] == 'd' && "a"[0] == 'a';
  }

  lemma RunsOn(events: seq<Event>, event: Event)
    ensures Run(events + [event]) == Step(Run(events), event)
  {
    assert (events + [event])[..|events|] == events;
  }

  // ---- The page as it runs -----------------------------------------------------------------

  class WatchLink {
    var watchers: seq<Watcher>
    /** The server's side of the connection. */
    var watching: seq<string>
    var nextId: nat

    ghost function State(): Link
      reads this
    {
      Link(watchers, watching, nextId)
    }

    constructor ()
      ensures State() == Run([])
    {
      watchers, watching, nextId := [], [], 0;
    }

    /** The server takes over the watchers' prefixes, or keeps what it has. */
    method Sync()
      modifies this`watching
      ensures watching == Receive(old(watching), PrefixesOf(watchers))
    {
      watching := Receive(watching, PrefixesOf(watchers));
    }

    /** A new watcher's id, or `None` for a prefix the page refuses. */
    method AddWatcher(prefix: string) returns (id: Option<nat>)
      modifies this
      ensures State() == Step(old(State()), Watch(prefix))
      ensures id == if Normalized(prefix).None? then None else Some(old(nextId))
    {
      var normal := NormalizePrefix(prefix);
      if normal.None? {
        return None;
      }
      id := Some(nextId);
      watchers := watchers + [Watcher(nextId, normal.value)];
      nextId := nextId + 1;
      Sync();
    }

    /** For an id that is gone already, nothing changes. */
    method RemoveWatcher(id: nat)
      modifies this
      ensures State() == Step(old(State()), Unwatch(id))
    {
      if HasWatcher(watchers, id) {
        watchers := Without(watchers, id);
        Sync();
      }
    }

    method Opened()
      modifies this
      ensures State() == Step(old(State()), Reconnect)
    {
      watching := [];
      if watchers != [] {
        Sync();
      }
    }
  }
}
