/**
 The source scan's worklist for files that hold nothing but tests. It begins with what the test
 directories hold and what gated `mod x;` declarations name, and goes on through the declarations
 of each file it finds.

 The regular expression that reads a declaration, the file a module name refers to and
 the test directories are parameters.
 */
module TestFiles {
  import opened Util

  datatype Scan = Scan(
    /** The scanned files, as lines. */
    contents: map<string, seq<string>>,
    /** The module a line declares (`mod x;`), if it declares one. */
    declares: string -> Option<string>,
    /** The file that a module of a given name, declared in a given file, refers to. */
    moduleFile: (string, string) -> Option<string>,
    inTestDir: string -> bool)

  // ---- Lines -------------------------------------------------------------------------------

  predicate IsSpace(c: char)
  {
    c == ' ' || c == '\t' || c == '\r' || c == '\n'
  }

  function TrimStart(s: string): string
  {
    if s != "" && IsSpace(s[0]) then TrimStart(s[1..]) else s
  }

  function TrimEnd(s: string): string
  {
    if s != "" && IsSpace(s[|s| - 1]) then TrimEnd(s[..|s| - 1]) else s
  }

  function Count(c: char, s: string): nat
  {
    if s == "" then 0 else (if s[0] == c then 1 else 0) + Count(c, s[1..])
  }

  predicate IsTestGate(line: string)
  {
    var text := TrimEnd(TrimStart(line));
    text == "#[cfg(test)]" || text == "#[cfg(any(test, feature = \"test-support\"))]"
  }

  predicate IsOwnTestGate(line: string)
  {
    TrimEnd(TrimStart(line)) == "#[cfg(test)]"
  }

  ghost predicate AllSpace(s: string)
  {
    forall i :: 0 <= i < |s| ==> s[i] == ' ' || s[i] == '\t' || s[i] == '\r' || s[i] == '\n'
  }

  /** Trimming the start takes the whitespace there and nothing else. */
  lemma {:induction false} TrimStartIs(s: string) returns (lead: string)
    ensures s == lead + TrimStart(s) && AllSpace(lead)
    ensures TrimStart(s) != "" ==> !AllSpace([TrimStart(s)[0]])
  {
    if s != "" && IsSpace(s[0]) {
      lead := TrimStartIs(s[1..]);
      lead := [s[0]] + lead;
    } else {
      lead := "";
      assert s != "" ==> [TrimStart(s)[0]][0] == s[0];
    }
  }

  lemma {:induction false} TrimEndIs(s: string) returns (tail: string)
    ensures s == TrimEnd(s) + tail && AllSpace(tail)
    ensures TrimEnd(s) != "" ==> !IsSpace(TrimEnd(s)[|TrimEnd(s)| - 1])
  {
    if s != "" && IsSpace(s[|s| - 1]) {
      tail := TrimEndIs(s[..|s| - 1]);
      tail := tail + [s[|s| - 1]];
    } else {
      tail := "";
    }
  }

  lemma {:induction false} TrimStartOf(lead: string, text: string)
    requires AllSpace(lead) && text != "" && !IsSpace(text[0])
    ensures TrimStart(lead + text) == text
  {
    if lead == "" {
      assert lead + text == text;
    } else {
      assert AllSpace(lead[1..]);
      TrimStartOf(lead[1..], text);
      assert (lead + text)[1..] == lead[1..] + text;
    }
  }

  lemma {:induction false} TrimEndOf(text: string, tail: string)
    requires AllSpace(tail) && text != "" && !IsSpace(text[|text| - 1])
    ensures TrimEnd(text + tail) == text
    decreases |tail|
  {
    if tail == "" {
      assert text + tail == text;
    } else {
      TrimEndOf(text, tail[..|tail| - 1]);
      assert (text + tail)[..|text + tail| - 1] == text + tail[..|tail| - 1];
    }
  }

  /** A line is `text` with whitespace around it. */
  ghost predicate Around(line: string, text: string)
  {
    exists lead, tail :: AllSpace(lead) && AllSpace(tail) && line == lead + (text + tail)
  }

  lemma TrimmedIs(line: string, text: string)
    requires text != "" && !IsSpace(text[0]) && !IsSpace(text[|text| - 1])
    ensures TrimEnd(TrimStart(line)) == text <==> Around(line, text)
  {
    if TrimEnd(TrimStart(line)) == text {
      var lead := TrimStartIs(line);
      var tail := TrimEndIs(TrimStart(line));
      assert line == lead + (text + tail);
    }
    forall lead, tail | AllSpace(lead) && AllSpace(tail) && line == lead + (text + tail)
      ensures TrimEnd(TrimStart(line)) == text
    {
      TrimStartOf(lead, text + tail);
      TrimEndOf(text, tail);
    }
  }

  /** The two gates: the one for tests, with whitespace around it, and the one for tests and their support. */
  lemma GateIff(line: string)
    ensures IsOwnTestGate(line) <==> Around(line, "#[cfg(test)]")
    ensures IsTestGate(line) <==> Around(line, "#[cfg(test)]") || Around(line, "#[cfg(any(test, feature = \"test-support\"))]")
  {
    var own, both := "#[cfg(test)]", "#[cfg(any(test, feature = \"test-support\"))]";
    assert own[0] == both[0] == '#' && own[|own| - 1] == both[|both| - 1] == ']';
    TrimmedIs(line, own);
    TrimmedIs(line, both);
  }

  // ---- Where the gated item starts ---------------------------------------------------------

  predicate StartsAttribute(line: string)
  {
    "#[" <= TrimStart(line)
  }

  predicate BlankOrComment(line: string)
  {
    TrimStart(line) == "" || "//" <= TrimStart(line)
  }

  /** A line that begins with `mark`, past any whitespace. */
  ghost predicate BeginsWith(line: string, mark: string)
  {
    exists k :: 0 <= k <= |line| && AllSpace(line[..k]) && mark <= line[k..]
  }

  lemma BeginsIff(line: string, mark: string)
    requires mark != "" && !IsSpace(mark[0])
    ensures mark <= TrimStart(line) <==> BeginsWith(line, mark)
  {
    var lead := TrimStartIs(line);
    if mark <= TrimStart(line) {
      assert line[..|lead|] == lead && line[|lead|..] == TrimStart(line);
    }
    forall k | 0 <= k <= |line| && AllSpace(line[..k]) && mark <= line[k..] ensures mark <= TrimStart(line) {
      assert line[k..][0] == mark[0] && line == line[..k] + line[k..];
      TrimStartOf(line[..k], line[k..]);
    }
  }

  /** Attributes begin with `#[`; what else stands before an item is empty, whitespace, or begins with `//`. */
  lemma LinesBeforeItem(line: string)
    ensures StartsAttribute(line) <==> BeginsWith(line, "#[")
    ensures BlankOrComment(line) <==> AllSpace(line) || BeginsWith(line, "//")
  {
    BeginsIff(line, "#[");
    BeginsIff(line, "//");
    var lead := TrimStartIs(line);
    if TrimStart(line) == "" {
      assert line == lead;
    } else {
      assert line[|lead|] == TrimStart(line)[0];
    }
  }

  /** The line after the attribute whose brackets stand `depth` deep before line `at`. */
  function AttributeEnd(lines: seq<string>, at: nat, depth: int): (r: nat)
    requires at < |lines|
    ensures at < r <= |lines|
    decreases |lines| - at
  {
    var after := depth + Count('[', lines[at]) - Count(']', lines[at]);
    if after <= 0 || at + 1 == |lines| then at + 1 else AttributeEnd(lines, at + 1, after)
  }

  /** The first line from `at` on that is past the attributes, comments and blank lines. */
  function SkipToItem(lines: seq<string>, at: nat): (r: nat)
    ensures r < |lines| ==> !StartsAttribute(lines[r]) && !BlankOrComment(lines[r])
    decreases |lines| - at
  {
    if at >= |lines| then at
    else if StartsAttribute(lines[at]) then SkipToItem(lines, AttributeEnd(lines, at, 0))
    else if BlankOrComment(lines[at]) then SkipToItem(lines, at + 1)
    else at
  }

  /** A comment and a blank line stand between a gate and its item. */
  lemma ItemPastComment()
    ensures SkipToItem(["#[cfg(test)]", "// why", "", "mod x;"], 1) == 3
  {
    var lines := ["#[cfg(test)]", "// why", "", "mod x;"];
    assert lines[1][0] == '/' && lines[3][0] == 'm';
    assert SkipToItem(lines, 1) == SkipToItem(lines, 2) == SkipToItem(lines, 3);
  }

  /** How often a character stands in a text. */
  lemma {:induction false} CountIs(c: char, s: string)
    ensures Count(c, s) == multiset(s)[c]
  {
    if s != "" {
      CountIs(c, s[1..]);
      assert s == [s[0]] + s[1..];
    }
  }

  /** The brackets that stand open after some lines. */
  function Open(lines: seq<string>): int
  {
    if lines == [] then 0
    else
      var last := lines[|lines| - 1];
      Open(lines[..|lines| - 1]) + Count('[', last) - Count(']', last)
  }

  /** The brackets opened on line `a` close on the line before `b`, and on none before; or never. */
  ghost predicate Closes(lines: seq<string>, a: nat, b: nat)
    requires a < b <= |lines|
  {
    (forall k :: a < k < b ==> Open(lines[a..k]) > 0) && (Open(lines[a..b]) <= 0 || b == |lines|)
  }

  /** One attribute, or one line that is a comment or blank. */
  ghost predicate Skippable(lines: seq<string>, a: nat, b: nat)
  {
    && a < b <= |lines|
    && if StartsAttribute(lines[a]) then Closes(lines, a, b) else BlankOrComment(lines[a]) && b == a + 1
  }

  /**
   The lines from `at` to `r` are attributes, comments and blanks, which start at `starts`, and line
   `r` is no more of them.
   */
  ghost predicate Skips(lines: seq<string>, at: nat, r: nat, starts: seq<nat>)
  {
    && starts != [] && starts[0] == at && starts[|starts| - 1] == r <= |lines|
    && (forall i :: 0 <= i < |starts| - 1 ==> Skippable(lines, starts[i], starts[i + 1]))
    && (r < |lines| ==> !StartsAttribute(lines[r]) && !BlankOrComment(lines[r]))
  }

  lemma {:induction false} AttributeCloses(lines: seq<string>, first: nat, at: nat, depth: int)
    requires first <= at < |lines| && depth == Open(lines[first..at])
    requires forall k :: first < k <= at ==> Open(lines[first..k]) > 0
    ensures Closes(lines, first, AttributeEnd(lines, at, depth))
    decreases |lines| - at
  {
    var more := lines[first..at + 1];
    assert more[..|more| - 1] == lines[first..at] && more[|more| - 1] == lines[at];
    var after := Open(more);
    if after > 0 && at + 1 < |lines| {
      AttributeCloses(lines, first, at + 1, after);
    }
  }

  lemma ClosesOnce(lines: seq<string>, a: nat, b: nat, c: nat)
    requires a < b <= |lines| && a < c <= |lines| && Closes(lines, a, b) && Closes(lines, a, c)
    ensures b == c
  {
  }

  /** What is skipped comes apart into whole attributes, comments and blanks. */
  lemma {:induction false} SkipsToItem(lines: seq<string>, at: nat) returns (starts: seq<nat>)
    requires at <= |lines|
    ensures Skips(lines, at, SkipToItem(lines, at), starts)
    decreases |lines| - at
  {
    if at == |lines| || (!StartsAttribute(lines[at]) && !BlankOrComment(lines[at])) {
      starts := [at];
    } else {
      var next := at + 1;
      if StartsAttribute(lines[at]) {
        assert lines[at..at] == [];
        AttributeCloses(lines, at, at, 0);
        next := AttributeEnd(lines, at, 0);
      }
      var rest := SkipsToItem(lines, next);
      starts := [at] + rest;
      forall i | 0 <= i < |starts| - 1 ensures Skippable(lines, starts[i], starts[i + 1]) {
        assert starts[i + 1] == rest[i];
      }
    }
  }

  /** And there is no other line with only such before it. */
  lemma {:induction false} SkipsOnlyToItem(lines: seq<string>, at: nat, r: nat, starts: seq<nat>)
    requires Skips(lines, at, r, starts)
    ensures r == SkipToItem(lines, at)
    decreases |starts|
  {
    if |starts| > 1 {
      assert Skippable(lines, starts[0], starts[1]);
      if StartsAttribute(lines[at]) {
        assert lines[at..at] == [];
        AttributeCloses(lines, at, at, 0);
        ClosesOnce(lines, at, starts[1], AttributeEnd(lines, at, 0));
      }
      var rest := starts[1..];
      forall i | 0 <= i < |rest| - 1 ensures Skippable(lines, rest[i], rest[i + 1]) {
        assert rest[i] == starts[i + 1] && rest[i + 1] == starts[i + 1 + 1];
      }
      SkipsOnlyToItem(lines, starts[1], r, rest);
    }
  }

  method ItemStart(lines: seq<string>, at: nat) returns (idx: nat)
    ensures idx == SkipToItem(lines, at + 1)
  {
    idx := at + 1;
    while idx < |lines|
      invariant SkipToItem(lines, idx) == SkipToItem(lines, at + 1)
      decreases |lines| - idx
    {
      if StartsAttribute(lines[idx]) {
        ghost var first := idx;
        var depth := 0;
        while idx < |lines|
          invariant first <= idx < |lines|
          invariant AttributeEnd(lines, idx, depth) == AttributeEnd(lines, first, 0)
          decreases |lines| - idx
        {
          depth := depth + Count('[', lines[idx]) - Count(']', lines[idx]);
          if depth <= 0 || idx + 1 == |lines| {
            break;
          }
          idx := idx + 1;
        }
        idx := idx + 1;
      } else if BlankOrComment(lines[idx]) {
        idx := idx + 1;
      } else {
        break;
      }
    }
  }

  // ---- The set meant -----------------------------------------------------------------------

  ghost predicate DeclaredOn(scan: Scan, file: string, line: string, module_: string)
  {
    && scan.declares(line).Some?
    && scan.moduleFile(file, scan.declares(line).value) == Some(module_)
  }

  /** `file` holds a `mod x;` that refers to `module_`. */
  ghost predicate Declares(scan: Scan, file: string, module_: string)
  {
    file in scan.contents && exists line :: line in scan.contents[file] && DeclaredOn(scan, file, line, module_)
  }

  ghost predicate GatedAt(scan: Scan, gate: string -> bool, file: string, idx: nat, module_: string)
  {
    && file in scan.contents && idx < |scan.contents[file]|
    && gate(scan.contents[file][idx])
    && var item := SkipToItem(scan.contents[file], idx + 1);
       item < |scan.contents[file]| && DeclaredOn(scan, file, scan.contents[file][item], module_)
  }

  /** A gate before line `bound` of `file` covers a declaration of `module_`. */
  ghost predicate GatedBelow(scan: Scan, gate: string -> bool, file: string, bound: nat, module_: string)
  {
    exists idx: nat :: idx < bound && GatedAt(scan, gate, file, idx, module_)
  }

  lemma GatedMore(scan: Scan, gate: string -> bool, file: string, bound: nat, module_: string)
    ensures GatedBelow(scan, gate, file, bound + 1, module_)
       <==> GatedBelow(scan, gate, file, bound, module_) || GatedAt(scan, gate, file, bound, module_)
  {
  }

  ghost predicate GatedIn(scan: Scan, gate: string -> bool, file: string, module_: string)
  {
    file in scan.contents && GatedBelow(scan, gate, file, |scan.contents[file]|, module_)
  }

  /** A file of a test directory, or one that a gated `mod x;` declares. */
  ghost predicate Seed(scan: Scan, gate: string -> bool, path: string)
  {
    || (path in scan.contents && scan.inTestDir(path))
    || (exists file :: GatedIn(scan, gate, file, path))
  }

  /** Holds every seed, and every module one of its own files declares. */
  ghost predicate ClosedOverSeeds(scan: Scan, gate: string -> bool, s: set<string>)
  {
    && (forall path :: Seed(scan, gate, path) ==> path in s)
    && (forall file, module_ :: file in s && Declares(scan, file, module_) ==> module_ in s)
  }

  /** `s` is inside every set closed over the seeds. */
  ghost predicate WithinEveryClosed(scan: Scan, gate: string -> bool, s: set<string>)
  {
    forall t: set<string> :: ClosedOverSeeds(scan, gate, t) ==> s <= t
  }

  ghost predicate LeastTestFiles(scan: Scan, gate: string -> bool, s: set<string>)
  {
    ClosedOverSeeds(scan, gate, s) && WithinEveryClosed(scan, gate, s)
  }

  /** A looser gate finds at least the same files. */
  lemma MonotoneInGate(scan: Scan, narrow: string -> bool, wide: string -> bool, s: set<string>, t: set<string>)
    requires LeastTestFiles(scan, narrow, s) && LeastTestFiles(scan, wide, t)
    requires forall line :: narrow(line) ==> wide(line)
    ensures s <= t
  {
    forall path | Seed(scan, narrow, path) ensures Seed(scan, wide, path) {
      if !(path in scan.contents && scan.inTestDir(path)) {
        var file :| GatedIn(scan, narrow, file, path);
        var idx: nat :| idx < |scan.contents[file]| && GatedAt(scan, narrow, file, idx, path);
        assert GatedAt(scan, wide, file, idx, path);
        assert GatedIn(scan, wide, file, path);
      }
    }
    assert ClosedOverSeeds(scan, narrow, t);
  }

  // ---- The worklist ------------------------------------------------------------------------

  /** Every file the worklist can meet. */
  ghost function Known(scan: Scan): set<string>
  {
    scan.contents.Keys +
    set file, line | file in scan.contents && line in scan.contents[file] && scan.declares(line).Some?
                     && scan.moduleFile(file, scan.declares(line).value).Some?
      :: scan.moduleFile(file, scan.declares(line).value).value
  }

  /** The module `line` of `file` declares joins `found`; `pending` gets it if it is new. */
  method Follow(scan: Scan, file: string, line: string, found: set<string>, pending: seq<string>)
    returns (found': set<string>, pending': seq<string>)
    ensures forall m :: m in found' <==> m in found || DeclaredOn(scan, file, line, m)
    ensures pending <= pending'
    ensures forall f :: f in pending' <==> f in pending || f in found' - found
    ensures found' == found ==> pending' == pending
  {
    found', pending' := found, pending;
    var name := scan.declares(line);
    if name.Some? {
      var module_ := scan.moduleFile(file, name.value);
      if module_.Some? && module_.value !in found {
        found' := found + {module_.value};
        pending' := pending + [module_.value];
      }
    }
  }

  /** Every file found is followed, but for the ones that wait for it. */
  ghost predicate FollowedBut(scan: Scan, found: set<string>, pending: seq<string>)
  {
    && (forall file :: file in pending ==> file in found)
    && (forall file, m :: file in found && file !in pending && Declares(scan, file, m) ==> m in found)
  }

  lemma OneFollowed(scan: Scan, before: set<string>, waiting: seq<string>, found: set<string>, pending: seq<string>)
    requires waiting != [] && FollowedBut(scan, before, waiting) && before <= found
    requires forall m :: Declares(scan, waiting[|waiting| - 1], m) ==> m in found
    requires forall f :: f in pending <==> f in waiting[..|waiting| - 1] || f in found - before
    ensures FollowedBut(scan, found, pending)
  {
    assert forall f :: f in waiting <==> f in waiting[..|waiting| - 1] || f == waiting[|waiting| - 1];
  }

  method FindTestFiles(scan: Scan, order: seq<string>, gate: string -> bool) returns (found: set<string>)
    requires forall path :: path in order <==> path in scan.contents
    ensures LeastTestFiles(scan, gate, found)
  {
    found := set path | path in scan.contents && scan.inTestDir(path);
    var pending := [];
    found, pending := AddGated(scan, order, gate, found);
    var all: seq<string> := ListOf(found);
    pending := pending + all;
    while pending != []
      invariant found <= Known(scan)
      invariant forall path :: Seed(scan, gate, path) ==> path in found
      invariant FollowedBut(scan, found, pending)
      invariant WithinEveryClosed(scan, gate, found)
      decreases Known(scan) - found, |pending|
    {
      var path := pending[|pending| - 1];
      ghost var before, waiting := found, pending;
      pending := pending[..|pending| - 1];
      if path in scan.contents {
        found, pending := FollowAll(scan, gate, path, found, pending);
      }
      OneFollowed(scan, before, waiting, found, pending);
    }
  }

  /** Follows every declaration of `path`. */
  method FollowAll(scan: Scan, ghost gate: string -> bool, path: string, found: set<string>, pending: seq<string>)
    returns (found': set<string>, pending': seq<string>)
    requires path in scan.contents && path in found
    requires found <= Known(scan) && WithinEveryClosed(scan, gate, found)
    ensures found <= found' <= Known(scan) && WithinEveryClosed(scan, gate, found')
    ensures forall m :: Declares(scan, path, m) ==> m in found'
    ensures pending <= pending' && (found' == found ==> pending' == pending)
    ensures forall f :: f in pending' <==> f in pending || f in found' - found
  {
    found', pending' := found, pending;
    var lines := scan.contents[path];
    var i := 0;
    while i < |lines|
      invariant i <= |lines|
      invariant found <= found' <= Known(scan) && WithinEveryClosed(scan, gate, found')
      invariant forall k, m :: 0 <= k < i && DeclaredOn(scan, path, lines[k], m) ==> m in found'
      invariant pending <= pending' && (found' == found ==> pending' == pending)
      invariant forall f :: f in pending' <==> f in pending || f in found' - found
    {
      ghost var before := found';
      found', pending' := Follow(scan, path, lines[i], found', pending');
      forall m | DeclaredOn(scan, path, lines[i], m) ensures Declares(scan, path, m) {
        assert lines[i] in scan.contents[path];
      }
      i := i + 1;
    }
  }

  lemma GatedIsKnown(scan: Scan, gate: string -> bool, file: string, module_: string)
    requires GatedIn(scan, gate, file, module_)
    ensures module_ in Known(scan)
  {
    var lines := scan.contents[file];
    var idx: nat :| idx < |lines| && GatedAt(scan, gate, file, idx, module_);
    assert lines[SkipToItem(lines, idx + 1)] in lines;
  }

  /** Adds the modules that the gated declarations of `path` name. */
  method AddGatedOf(scan: Scan, path: string, gate: string -> bool, start: set<string>, waiting: seq<string>)
    returns (found: set<string>, pending: seq<string>)
    requires path in scan.contents
    ensures forall m :: m in found <==> m in start || GatedIn(scan, gate, path, m)
    ensures forall p :: p in pending ==> p in waiting || p in found
  {
    found, pending := start, waiting;
    var lines := scan.contents[path];
    var i := 0;
    while i < |lines|
      invariant i <= |lines|
      invariant forall m :: m in found <==> m in start || GatedBelow(scan, gate, path, i, m)
      invariant forall p :: p in pending ==> p in waiting || p in found
    {
      ghost var before := found;
      if gate(lines[i]) {
        var item := ItemStart(lines, i);
        if item < |lines| {
          found, pending := Follow(scan, path, lines[item], found, pending);
        }
      }
      forall m ensures m in found <==> m in start || GatedBelow(scan, gate, path, i + 1, m) {
        GatedMore(scan, gate, path, i, m);
        assert m in found <==> m in before || GatedAt(scan, gate, path, i, m);
      }
      i := i + 1;
    }
  }

  /** Adds the modules that gated declarations name. */
  method AddGated(scan: Scan, order: seq<string>, gate: string -> bool, start: set<string>)
    returns (found: set<string>, pending: seq<string>)
    requires forall path :: path in order <==> path in scan.contents
    requires start <= Known(scan) && forall path :: path in start ==> Seed(scan, gate, path)
    ensures start <= found <= Known(scan)
    ensures forall path :: path in found ==> Seed(scan, gate, path)
    ensures forall file, m :: GatedIn(scan, gate, file, m) ==> m in found
    ensures forall path :: path in pending ==> path in found
  {
    found, pending := start, [];
    var n := 0;
    while n < |order|
      invariant n <= |order|
      invariant start <= found <= Known(scan)
      invariant forall path :: path in found ==> Seed(scan, gate, path)
      invariant forall k, m :: 0 <= k < n && GatedIn(scan, gate, order[k], m) ==> m in found
      invariant forall path :: path in pending ==> path in found
    {
      assert order[n] in scan.contents;
      ghost var before := found;
      found, pending := AddGatedOf(scan, order[n], gate, found, pending);
      forall m | m in found && m !in before ensures m in Known(scan) && Seed(scan, gate, m) {
        GatedIsKnown(scan, gate, order[n], m);
      }
      n := n + 1;
    }
    assert forall file, m :: GatedIn(scan, gate, file, m) ==> file in order;
  }

  /** The elements of a set, in some order. */
  method ListOf(s: set<string>) returns (list: seq<string>)
    ensures forall x :: x in list <==> x in s
  {
    list := [];
    var rest := s;
    while rest != {}
      invariant rest <= s
      invariant forall x :: x in list <==> x in s - rest
      decreases rest
    {
      var x :| x in rest;
      rest := rest - {x};
      list := list + [x];
    }
  }

  /** Both classifications of the scan: what the test build compiles, and what only its own crate's does. */
  method Classify(scan: Scan, order: seq<string>) returns (test: set<string>, ownTest: set<string>)
    requires forall path :: path in order <==> path in scan.contents
    ensures LeastTestFiles(scan, IsTestGate, test) && LeastTestFiles(scan, IsOwnTestGate, ownTest)
    ensures ownTest <= test
  {
    test := FindTestFiles(scan, order, IsTestGate);
    ownTest := FindTestFiles(scan, order, IsOwnTestGate);
    MonotoneInGate(scan, IsOwnTestGate, IsTestGate, ownTest, test);
  }
}
