/**
 The unified diff of one file that a checkpoint shows: a single hunk that spans
 the lines that changed and at most three unchanged ones before and after them.
 */
module UnifiedDiff {
  import opened Util
  import opened Reading

  const CONTEXT := 3

  /** The numbers of the hunk's header, lines counted from 1, and its body. */
  datatype Hunk = Hunk(oldStart: nat, oldCount: nat, newStart: nat, newCount: nat, body: seq<string>)

  // ---- Lines -------------------------------------------------------------------------------

  /** The lines of a file, without its last newline; none for no file. */
  function LinesOf(content: Option<string>): seq<string>
  {
    match content
    case None => []
    case Some(s) => Split(if s != "" && s[|s| - 1] == '\n' then s[..|s| - 1] else s, '\n')
  }

  /** The lines joined by newlines are the file again, but for a newline at its end. */
  lemma LinesJoin(content: string)
    ensures Join(LinesOf(Some(content)), '\n') ==
      if content != "" && content[|content| - 1] == '\n' then content[..|content| - 1] else content
    ensures LinesOf(None) == []
  {
    JoinSplit(if content != "" && content[|content| - 1] == '\n' then content[..|content| - 1] else content, '\n');
  }

  /** `lines`, each after `mark`. */
  function Marked(mark: char, lines: seq<string>): (r: seq<string>)
    ensures |r| == |lines|
  {
    if lines == [] then [] else [[mark] + lines[0]] + Marked(mark, lines[1..])
  }

  // ---- The diff ----------------------------------------------------------------------------

  /** `a` and `b` have their first `start` and their last lines from `endA` and `endB` in common, and no more. */
  ghost predicate ChangedBlock(a: seq<string>, b: seq<string>, start: nat, endA: nat, endB: nat)
  {
    && start <= endA <= |a| && start <= endB <= |b|
    && a[..start] == b[..start] && a[endA..] == b[endB..]
    && (start < endA && start < endB ==> a[start] != b[start] && a[endA - 1] != b[endB - 1])
    && (start < |a| && start < |b| ==> a[start] != b[start])
  }

  /** Where the context around a changed block begins and ends in the old lines. */
  function From(start: nat): nat
  {
    if start < CONTEXT then 0 else start - CONTEXT
  }

  function To(a: seq<string>, endA: nat): nat
  {
    if |a| < endA + CONTEXT then |a| else endA + CONTEXT
  }

  /** The hunk of a changed block. */
  function HunkOf(a: seq<string>, b: seq<string>, start: nat, endA: nat, endB: nat): Hunk
    requires start <= endA <= |a| && start <= endB <= |b|
  {
    var from, to := From(start), To(a, endA);
    Hunk(from + 1, to - from, from + 1, to - from - (endA - start) + (endB - start),
         Marked(' ', a[from..start]) + Marked('-', a[start..endA]) + Marked('+', b[start..endB]) + Marked(' ', a[endA..to]))
  }

  /**
   The hunk is a changed block's: it takes the old lines to the new ones, its reverse takes them
   back, and its counts are right.
   */
  ghost predicate HunkBetween(hunk: Hunk, a: seq<string>, b: seq<string>)
  {
    && (exists start, endA, endB :: ChangedBlock(a, b, start, endA, endB) && hunk == HunkOf(a, b, start, endA, endB))
    && Patched(hunk, a) == Some(b) && Patched(Reversed(hunk), b) == Some(a)
    && hunk.oldCount == CountMarks(hunk.body, '-') && hunk.newCount == CountMarks(hunk.body, '+')
  }

  /** What the longest common start and, past it, the longest common end leave of both. */
  method FindBlock(a: seq<string>, b: seq<string>) returns (start: nat, endA: nat, endB: nat)
    ensures ChangedBlock(a, b, start, endA, endB)
  {
    start := 0;
    while start < |a| && start < |b| && a[start] == b[start]
      invariant start <= |a| && start <= |b|
      invariant a[..start] == b[..start]
    {
      start := start + 1;
    }
    endA, endB := |a|, |b|;
    while endA > start && endB > start && a[endA - 1] == b[endB - 1]
      invariant start <= endA <= |a| && start <= endB <= |b|
      invariant a[endA..] == b[endB..]
    {
      assert a[endA - 1..] == [a[endA - 1]] + a[endA..];
      assert b[endB - 1..] == [b[endB - 1]] + b[endB..];
      endA, endB := endA - 1, endB - 1;
    }
  }

  function RangeText(start: nat, count: nat): string
  {
    Digits(start) + "," + Digits(count)
  }

  /** The header of a hunk. */
  function HeaderOf(hunk: Hunk): string
  {
    "@@ -" + RangeText(hunk.oldStart, hunk.oldCount) + " +" + RangeText(hunk.newStart, hunk.newCount) + " @@"
  }

  /** What names the file before its hunk, or that there is none. */
  function NamesOf(path: string, before: Option<string>, after: Option<string>): seq<string>
  {
    ["--- " + if before.None? then "/dev/null" else "a/" + path, "+++ " + if after.None? then "/dev/null" else "b/" + path]
  }

  function TextOf(path: string, before: Option<string>, after: Option<string>, hunk: Hunk): string
  {
    Join(NamesOf(path, before, after) + [HeaderOf(hunk)] + hunk.body + [""], '\n')
  }

  /**
   A hunk begins three lines before its block, or at the file's start, and ends three after it, or at
   the file's end.
   */
  lemma HunkSpans(a: seq<string>, b: seq<string>, start: nat, endA: nat, endB: nat)
    requires start <= endA <= |a| && start <= endB <= |b|
    ensures var hunk := HunkOf(a, b, start, endA, endB);
            && hunk.oldStart == hunk.newStart == (if start >= 3 then start - 3 else 0) + 1
            && hunk.oldStart - 1 + hunk.oldCount == (if endA + 3 <= |a| then endA + 3 else |a|)
            && hunk.newCount - hunk.oldCount == endB - endA
  {
  }

  /** The text begins with the names of the file on either side, and the hunk's numbers. */
  lemma TextBegins(path: string, before: Option<string>, after: Option<string>, hunk: Hunk)
    ensures "--- " + (if before.Some? then "a/" + path else "/dev/null") + "\n"
            + ("+++ " + (if after.Some? then "b/" + path else "/dev/null") + "\n"
               + ("@@ -" + Digits(hunk.oldStart) + "," + Digits(hunk.oldCount)
                  + " +" + Digits(hunk.newStart) + "," + Digits(hunk.newCount) + " @@" + "\n"))
         <= TextOf(path, before, after, hunk)
  {
    var names, header := NamesOf(path, before, after), HeaderOf(hunk);
    var rest := hunk.body + [""];
    assert names + [header] + hunk.body + [""] == [names[0]] + ([names[1]] + ([header] + rest));
    JoinCons(names[0], [names[1]] + ([header] + rest), '\n');
    JoinCons(names[1], [header] + rest, '\n');
    JoinCons(header, rest, '\n');
    assert header == "@@ -" + Digits(hunk.oldStart) + "," + Digits(hunk.oldCount)
                     + " +" + Digits(hunk.newStart) + "," + Digits(hunk.newCount) + " @@";
    var last := Join(rest, '\n');
    assert TextOf(path, before, after, hunk) == names[0] + "\n" + (names[1] + "\n" + (header + "\n" + last));
    assert TextOf(path, before, after, hunk) == (names[0] + "\n" + (names[1] + "\n" + (header + "\n"))) + last;
  }

  /**
   The diff as text. Unless the path breaks a line, whoever reads the text finds a hunk that takes
   either content to the other.
   */
  method Diff(path: string, before: Option<string>, after: Option<string>) returns (text: string)
    ensures exists hunk :: HunkBetween(hunk, LinesOf(before), LinesOf(after)) && text == TextOf(path, before, after, hunk)
    ensures '\n' !in path ==> ReadHunk(text).Some? && HunkBetween(ReadHunk(text).value, LinesOf(before), LinesOf(after))
  {
    var a, b := LinesOf(before), LinesOf(after);
    var start, endA, endB := FindBlock(a, b);
    BlockHunk(a, b, start, endA, endB);
    var hunk := HunkOf(a, b, start, endA, endB);
    text := TextOf(path, before, after, hunk);
    if '\n' !in path {
      DiffReads(path, before, after, start, endA, endB);
    }
  }

  // ---- Patching ----------------------------------------------------------------------------

  /** What is left of `a` once the hunk's body is carried out on its start; `None` when a line does not match. */
  function PatchBody(body: seq<string>, a: seq<string>): Option<seq<string>>
    decreases |body|
  {
    if body == [] then Some(a)
    else if body[0] == "" then None
    else
      var mark, text := body[0][0], body[0][1..];
      if mark == '+' then
        var rest := PatchBody(body[1..], a);
        if rest.None? then None else Some([text] + rest.value)
      else if (mark != ' ' && mark != '-') || a == [] || a[0] != text then None
      else
        var rest := PatchBody(body[1..], a[1..]);
        if rest.None? || mark == '-' then rest else Some([text] + rest.value)
  }

  function Patched(hunk: Hunk, a: seq<string>): Option<seq<string>>
  {
    if !(1 <= hunk.oldStart <= |a| + 1) then None
    else
      var rest := PatchBody(hunk.body, a[hunk.oldStart - 1..]);
      if rest.None? then None else Some(a[..hunk.oldStart - 1] + rest.value)
  }

  function Flip(line: string): string
  {
    if line == "" then line
    else if line[0] == '-' then "+" + line[1..]
    else if line[0] == '+' then "-" + line[1..]
    else line
  }

  function FlipAll(body: seq<string>): seq<string>
  {
    if body == [] then [] else [Flip(body[0])] + FlipAll(body[1..])
  }

  /** The hunk that takes the change back. */
  function Reversed(hunk: Hunk): Hunk
  {
    Hunk(hunk.newStart, hunk.newCount, hunk.oldStart, hunk.oldCount, FlipAll(hunk.body))
  }

  /** How many lines of the body are context or carry `mark`. */
  function CountMarks(body: seq<string>, mark: char): nat
  {
    if body == [] then 0
    else (if body[0] != "" && (body[0][0] == mark || body[0][0] == ' ') then 1 else 0) + CountMarks(body[1..], mark)
  }

  lemma MarkedCons(mark: char, lines: seq<string>, body: seq<string>)
    requires lines != []
    ensures Marked(mark, lines) + body == [[mark] + lines[0]] + (Marked(mark, lines[1..]) + body)
  {
  }

  /** Context over the lines it names, and then the rest. */
  lemma {:induction false} PatchContext(lines: seq<string>, body: seq<string>, a: seq<string>)
    requires PatchBody(body, a).Some?
    ensures PatchBody(Marked(' ', lines) + body, lines + a) == Some(lines + PatchBody(body, a).value)
    decreases |lines|
  {
    if lines == [] {
      assert Marked(' ', lines) + body == body && lines + a == a && lines + PatchBody(body, a).value == PatchBody(body, a).value;
    } else {
      var body1, a1 := Marked(' ', lines[1..]) + body, lines[1..] + a;
      PatchContext(lines[1..], body, a);
      MarkedCons(' ', lines, body);
      assert [lines[0]] + lines[1..] == lines;
      Associative([lines[0]], lines[1..], a);
      Associative([lines[0]], lines[1..], PatchBody(body, a).value);
    }
  }

  lemma {:induction false} PatchRemoved(lines: seq<string>, body: seq<string>, a: seq<string>)
    requires PatchBody(body, a).Some?
    ensures PatchBody(Marked('-', lines) + body, lines + a) == PatchBody(body, a)
    decreases |lines|
  {
    if lines == [] {
      assert Marked('-', lines) + body == body && lines + a == a;
    } else {
      var body1, a1 := Marked('-', lines[1..]) + body, lines[1..] + a;
      PatchRemoved(lines[1..], body, a);
      MarkedCons('-', lines, body);
      assert [lines[0]] + lines[1..] == lines;
      Associative([lines[0]], lines[1..], a);
    }
  }

  lemma {:induction false} PatchAdded(lines: seq<string>, body: seq<string>, a: seq<string>)
    requires PatchBody(body, a).Some?
    ensures PatchBody(Marked('+', lines) + body, a) == Some(lines + PatchBody(body, a).value)
    decreases |lines|
  {
    if lines == [] {
      assert Marked('+', lines) + body == body && lines + PatchBody(body, a).value == PatchBody(body, a).value;
    } else {
      var body1 := Marked('+', lines[1..]) + body;
      PatchAdded(lines[1..], body, a);
      MarkedCons('+', lines, body);
      assert [lines[0]] + lines[1..] == lines;
      Associative([lines[0]], lines[1..], PatchBody(body, a).value);
      assert PatchBody(body1, a).value == lines[1..] + PatchBody(body, a).value;
    }
  }

  lemma PatchBelow(below: seq<string>, rest: seq<string>)
    ensures PatchBody(Marked(' ', below), below + rest) == Some(below + rest)
  {
    PatchContext(below, [], rest);
    assert Marked(' ', below) + [] == Marked(' ', below);
  }

  /** A body of context, deletions, additions and context, carried out where it belongs. */
  lemma PatchBlock(above: seq<string>, gone: seq<string>, added: seq<string>, below: seq<string>, rest: seq<string>)
    ensures PatchBody(Marked(' ', above) + Marked('-', gone) + Marked('+', added) + Marked(' ', below),
                      above + (gone + (below + rest)))
         == Some(above + (added + (below + rest)))
  {
    var tail := Marked(' ', below);
    PatchBelow(below, rest);
    PatchAdded(added, tail, below + rest);
    PatchRemoved(gone, Marked('+', added) + tail, below + rest);
    PatchContext(above, Marked('-', gone) + (Marked('+', added) + tail), gone + (below + rest));
    Regroup(Marked(' ', above), Marked('-', gone), Marked('+', added), tail);
  }

  /** The same for a body whose additions come before its deletions. */
  lemma PatchFlipped(above: seq<string>, added: seq<string>, gone: seq<string>, below: seq<string>, rest: seq<string>)
    ensures PatchBody(Marked(' ', above) + Marked('+', added) + Marked('-', gone) + Marked(' ', below),
                      above + (gone + (below + rest)))
         == Some(above + (added + (below + rest)))
  {
    var tail := Marked(' ', below);
    PatchBelow(below, rest);
    PatchRemoved(gone, tail, below + rest);
    PatchAdded(added, Marked('-', gone) + tail, gone + (below + rest));
    PatchContext(above, Marked('+', added) + (Marked('-', gone) + tail), gone + (below + rest));
    Regroup(Marked(' ', above), Marked('+', added), Marked('-', gone), tail);
  }

  lemma FourParts<T>(s: seq<T>, from: nat, start: nat, end: nat, to: nat)
    requires from <= start <= end <= to <= |s|
    ensures s == s[..from] + (s[from..start] + (s[start..end] + (s[end..to] + s[to..])))
  {
    assert s[end..] == s[end..to] + s[to..];
    assert s[start..] == s[start..end] + s[end..];
    assert s[from..] == s[from..start] + s[start..];
  }

  /** The parts of the new lines around a changed block, the common ones as the old lines have them. */
  lemma NewParts(a: seq<string>, b: seq<string>, start: nat, endA: nat, endB: nat, from: nat, to: nat)
    requires start <= endA <= to <= |a| && from <= start <= endB <= |b|
    requires a[..start] == b[..start] && a[endA..] == b[endB..]
    ensures b == a[..from] + (a[from..start] + (b[start..endB] + (a[endA..to] + a[to..])))
  {
    assert a[..start][from..] == a[from..start] && b[..start][from..] == b[from..start];
    assert a[..start][..from] == a[..from] && b[..start][..from] == b[..from];
    assert a[endA..] == a[endA..to] + a[to..];
  }

  /** A hunk whose body fits after `front`. */
  lemma PatchedAfter(hunk: Hunk, front: seq<string>, was: seq<string>, becomes: seq<string>)
    requires hunk.oldStart == |front| + 1 && PatchBody(hunk.body, was) == Some(becomes)
    ensures Patched(hunk, front + was) == Some(front + becomes)
  {
    assert (front + was)[|front|..] == was && (front + was)[..|front|] == front;
  }

  lemma PatchGivesNew(a: seq<string>, b: seq<string>, start: nat, endA: nat, endB: nat)
    requires ChangedBlock(a, b, start, endA, endB)
    ensures Patched(HunkOf(a, b, start, endA, endB), a) == Some(b)
  {
    var from, to := From(start), To(a, endA);
    var above, gone, added, below, rest := a[from..start], a[start..endA], b[start..endB], a[endA..to], a[to..];
    FourParts(a, from, start, endA, to);
    NewParts(a, b, start, endA, endB, from, to);
    PatchBlock(above, gone, added, below, rest);
    PatchedAfter(HunkOf(a, b, start, endA, endB), a[..from], above + (gone + (below + rest)), above + (added + (below + rest)));
  }

  lemma {:induction false} FlipAppend(x: seq<string>, y: seq<string>)
    ensures FlipAll(x + y) == FlipAll(x) + FlipAll(y)
  {
    if x == [] {
      assert x + y == y;
    } else {
      FlipAppend(x[1..], y);
      assert (x + y)[1..] == x[1..] + y && (x + y)[0] == x[0];
    }
  }

  lemma {:induction false} FlipMarked(mark: char, lines: seq<string>)
    ensures FlipAll(Marked(mark, lines)) == Marked(if mark == '-' then '+' else if mark == '+' then '-' else mark, lines)
  {
    if lines != [] {
      FlipMarked(mark, lines[1..]);
      assert Marked(mark, lines)[1..] == Marked(mark, lines[1..]);
      assert ([mark] + lines[0])[1..] == lines[0];
    }
  }

  lemma FlipBlock(above: seq<string>, gone: seq<string>, added: seq<string>, below: seq<string>)
    ensures FlipAll(Marked(' ', above) + Marked('-', gone) + Marked('+', added) + Marked(' ', below))
         == Marked(' ', above) + Marked('+', gone) + Marked('-', added) + Marked(' ', below)
  {
    FlipMarked(' ', above);
    FlipMarked('-', gone);
    FlipMarked('+', added);
    FlipMarked(' ', below);
    FlipAppend(Marked(' ', above) + Marked('-', gone) + Marked('+', added), Marked(' ', below));
    FlipAppend(Marked(' ', above) + Marked('-', gone), Marked('+', added));
    FlipAppend(Marked(' ', above), Marked('-', gone));
  }

  lemma ReversedGivesOld(a: seq<string>, b: seq<string>, start: nat, endA: nat, endB: nat)
    requires ChangedBlock(a, b, start, endA, endB)
    ensures Patched(Reversed(HunkOf(a, b, start, endA, endB)), b) == Some(a)
  {
    var from, to := From(start), To(a, endA);
    var above, gone, added, below, rest := a[from..start], a[start..endA], b[start..endB], a[endA..to], a[to..];
    FourParts(a, from, start, endA, to);
    NewParts(a, b, start, endA, endB, from, to);
    FlipBlock(above, gone, added, below);
    PatchFlipped(above, gone, added, below, rest);
    PatchedAfter(Reversed(HunkOf(a, b, start, endA, endB)), a[..from],
                 above + (added + (below + rest)), above + (gone + (below + rest)));
  }

  lemma {:induction false} CountAppend(x: seq<string>, y: seq<string>, mark: char)
    ensures CountMarks(x + y, mark) == CountMarks(x, mark) + CountMarks(y, mark)
  {
    if x == [] {
      assert x + y == y;
    } else {
      CountAppend(x[1..], y, mark);
      assert (x + y)[1..] == x[1..] + y && (x + y)[0] == x[0];
    }
  }

  lemma {:induction false} CountMarked(own: char, lines: seq<string>, mark: char)
    ensures CountMarks(Marked(own, lines), mark) == if own == mark || own == ' ' then |lines| else 0
  {
    if lines != [] {
      CountMarked(own, lines[1..], mark);
      assert Marked(own, lines)[1..] == Marked(own, lines[1..]);
    }
  }

  lemma CountsAre(a: seq<string>, b: seq<string>, start: nat, endA: nat, endB: nat)
    requires start <= endA <= |a| && start <= endB <= |b|
    ensures var hunk := HunkOf(a, b, start, endA, endB);
            hunk.oldCount == CountMarks(hunk.body, '-') && hunk.newCount == CountMarks(hunk.body, '+')
  {
    var from, to := From(start), To(a, endA);
    BlockCounts(a[from..start], a[start..endA], b[start..endB], a[endA..to], '-');
    BlockCounts(a[from..start], a[start..endA], b[start..endB], a[endA..to], '+');
  }

  lemma BlockCounts(above: seq<string>, gone: seq<string>, added: seq<string>, below: seq<string>, mark: char)
    requires mark == '-' || mark == '+'
    ensures CountMarks(Marked(' ', above) + Marked('-', gone) + Marked('+', added) + Marked(' ', below), mark)
         == |above| + |below| + (if mark == '-' then |gone| else 0) + (if mark == '+' then |added| else 0)
  {
    CountMarked(' ', above, mark);
    CountMarked('-', gone, mark);
    CountMarked('+', added, mark);
    CountMarked(' ', below, mark);
    CountAppend(Marked(' ', above) + Marked('-', gone) + Marked('+', added), Marked(' ', below), mark);
    CountAppend(Marked(' ', above) + Marked('-', gone), Marked('+', added), mark);
    CountAppend(Marked(' ', above), Marked('-', gone), mark);
  }

  lemma BlockHunk(a: seq<string>, b: seq<string>, start: nat, endA: nat, endB: nat)
    requires ChangedBlock(a, b, start, endA, endB)
    ensures HunkBetween(HunkOf(a, b, start, endA, endB), a, b)
  {
    PatchGivesNew(a, b, start, endA, endB);
    ReversedGivesOld(a, b, start, endA, endB);
    CountsAre(a, b, start, endA, endB);
  }

  // ---- Reading a diff ----------------------------------------------------------------------

  function ReadRange(s: string): Option<(nat, nat)>
  {
    var parts := Split(s, ',');
    if |parts| != 2 || Number(parts[0]).None? || Number(parts[1]).None? then None
    else Some((Number(parts[0]).value, Number(parts[1]).value))
  }

  /** The hunk of a diff with one hunk. */
  function ReadHunk(text: string): Option<Hunk>
  {
    var lines := Split(text, '\n');
    if |lines| < 4 || lines[|lines| - 1] != "" then None
    else
      var words := Split(lines[2], ' ');
      if |words| != 4 || words[0] != "@@" || words[3] != "@@" || !("-" <= words[1]) || !("+" <= words[2]) then None
      else
        var was, becomes := ReadRange(words[1][1..]), ReadRange(words[2][1..]);
        if was.None? || becomes.None? then None
        else Some(Hunk(was.value.0, was.value.1, becomes.value.0, becomes.value.1, lines[3..|lines| - 1]))
  }

  lemma {:induction false} DigitsLack(n: nat, c: char)
    requires !IsDigit(c)
    ensures c !in Digits(n)
  {
    DigitsOnly(n);
  }

  lemma RangeReads(start: nat, count: nat)
    ensures ReadRange(RangeText(start, count)) == Some((start, count))
  {
    DigitsLack(start, ',');
    DigitsLack(count, ',');
    SplitAt(',', Digits(start), Digits(count));
    SplitNone(',', Digits(count));
    DigitsRead(start);
    DigitsRead(count);
  }

  lemma RangeLacks(start: nat, count: nat, c: char)
    requires !IsDigit(c) && c != ','
    ensures c !in RangeText(start, count)
  {
    DigitsLack(start, c);
    DigitsLack(count, c);
  }

  lemma HeaderWords(was: string, becomes: string)
    requires ' ' !in was && ' ' !in becomes
    ensures Split("@@ -" + was + " +" + becomes + " @@", ' ') == ["@@", "-" + was, "+" + becomes, "@@"]
  {
    var last, next := "@@", "+" + becomes + [' '] + "@@";
    SplitNone(' ', last);
    SplitAt(' ', "+" + becomes, last);
    SplitAt(' ', "-" + was, next);
    SplitAt(' ', "@@", "-" + was + [' '] + next);
    assert "@@ -" + was + " +" + becomes + " @@" == "@@" + [' '] + ("-" + was + [' '] + next);
  }

  lemma {:induction false} MarkedLack(mark: char, lines: seq<string>, c: char, line: string)
    requires mark != c && (forall l :: l in lines ==> c !in l) && line in Marked(mark, lines)
    ensures c !in line
  {
    if lines != [] {
      assert lines[0] in lines;
      if line in Marked(mark, lines[1..]) {
        MarkedLack(mark, lines[1..], c, line);
      }
    }
  }

  /** The lines of a content hold no newline. */
  lemma LinesLack(content: Option<string>, line: string)
    requires line in LinesOf(content)
    ensures '\n' !in line
  {
    var s := content.value;
    SplitLacks(if s != "" && s[|s| - 1] == '\n' then s[..|s| - 1] else s, '\n', '\n', line);
  }

  lemma BodyLacks(a: seq<string>, b: seq<string>, start: nat, endA: nat, endB: nat, line: string)
    requires start <= endA <= |a| && start <= endB <= |b| && line in HunkOf(a, b, start, endA, endB).body
    requires (forall l :: l in a ==> '\n' !in l) && (forall l :: l in b ==> '\n' !in l)
    ensures '\n' !in line
  {
    var from, to := From(start), To(a, endA);
    if line in Marked(' ', a[from..start]) {
      MarkedLack(' ', a[from..start], '\n', line);
    } else if line in Marked('-', a[start..endA]) {
      MarkedLack('-', a[start..endA], '\n', line);
    } else if line in Marked('+', b[start..endB]) {
      MarkedLack('+', b[start..endB], '\n', line);
    } else {
      MarkedLack(' ', a[endA..to], '\n', line);
    }
  }

  lemma {:induction false} HeaderReads(names: seq<string>, hunk: Hunk)
    requires |names| == 2 && forall line :: line in names + hunk.body ==> '\n' !in line
    ensures ReadHunk(Join(names + [HeaderOf(hunk)] + hunk.body + [""], '\n')) == Some(hunk)
  {
    var was, becomes := RangeText(hunk.oldStart, hunk.oldCount), RangeText(hunk.newStart, hunk.newCount);
    var lines := names + [HeaderOf(hunk)] + hunk.body + [""];
    RangeLacks(hunk.oldStart, hunk.oldCount, ' ');
    RangeLacks(hunk.newStart, hunk.newCount, ' ');
    RangeLacks(hunk.oldStart, hunk.oldCount, '\n');
    RangeLacks(hunk.newStart, hunk.newCount, '\n');
    forall line | line in lines ensures '\n' !in line {
      assert line in names + hunk.body || line == HeaderOf(hunk) || line == "";
    }
    SplitJoin(lines, '\n');
    HeaderWords(was, becomes);
    assert ("-" + was)[1..] == was && ("+" + becomes)[1..] == becomes;
    RangeReads(hunk.oldStart, hunk.oldCount);
    RangeReads(hunk.newStart, hunk.newCount);
    assert lines[3..|lines| - 1] == hunk.body;
  }

  lemma {:induction false} HunkLacks(before: Option<string>, after: Option<string>, start: nat, endA: nat, endB: nat)
    requires start <= endA <= |LinesOf(before)| && start <= endB <= |LinesOf(after)|
    ensures forall line :: line in HunkOf(LinesOf(before), LinesOf(after), start, endA, endB).body ==> '\n' !in line
  {
    var a, b := LinesOf(before), LinesOf(after);
    forall line | line in a ensures '\n' !in line {
      LinesLack(before, line);
    }
    forall line | line in b ensures '\n' !in line {
      LinesLack(after, line);
    }
    forall line | line in HunkOf(a, b, start, endA, endB).body ensures '\n' !in line {
      BodyLacks(a, b, start, endA, endB, line);
    }
  }

  lemma {:induction false} NamesLack(path: string, before: Option<string>, after: Option<string>)
    requires '\n' !in path
    ensures forall line :: line in NamesOf(path, before, after) ==> '\n' !in line
  {
  }

  /** The text of a diff reads back as its hunk. */
  lemma {:induction false} DiffReads(path: string, before: Option<string>, after: Option<string>, start: nat, endA: nat, endB: nat)
    requires '\n' !in path && start <= endA <= |LinesOf(before)| && start <= endB <= |LinesOf(after)|
    ensures var hunk := HunkOf(LinesOf(before), LinesOf(after), start, endA, endB);
            ReadHunk(TextOf(path, before, after, hunk)) == Some(hunk)
  {
    var a, b := LinesOf(before), LinesOf(after);
    var hunk, names := HunkOf(a, b, start, endA, endB), NamesOf(path, before, after);
    HunkLacks(before, after, start, endA, endB);
    NamesLack(path, before, after);
    HeaderReads(names, hunk);
  }
}
