/**
 Checkpoint histories of a workspace or team repository: every checkpoint's whole tree, and the
 restores and undos answered from them.

 A tree maps each file's path to its content. A checkpoint is named by its place in the history,
 which its id stands for.
 */
module Checkpoints {
  import opened Util
  import opened Text

  type Files = map<string, string>

  datatype Kind = Added | Deleted | Modified

  datatype ChangedPath = ChangedPath(path: string, kind: Kind)

  function Get(files: Files, path: string): Option<string>
  {
    if path in files then Some(files[path]) else None
  }

  /** Whether `path` lies under the folder `dir`. */
  predicate Under(path: string, dir: string)
  {
    dir + "/" <= path
  }

  /** What lies under a folder has the folder's name, cut off before a slash. */
  lemma UnderIff(path: string, dir: string)
    ensures Under(path, dir) <==> |dir| < |path| && path[|dir|] == '/' && path[..|dir|] == dir
  {
    var start := dir + "/";
    if Under(path, dir) {
      assert path[..|start|] == start && path[..|dir|] == start[..|dir|] && path[|dir|] == start[|dir|];
    }
    if |dir| < |path| && path[|dir|] == '/' && path[..|dir|] == dir {
      assert path[..|start|] == dir + [path[|dir|]];
    }
  }

  // ---- The live tree -----------------------------------------------------------------------

  /** The tree without `path` and without all that lies under it. */
  function RemovePath(files: Files, path: string): Files
  {
    map p | p in files && p != path && !Under(p, path) :: files[p]
  }

  /** Writes a file of the live tree, or removes it when there is no content. */
  function WriteLive(files: Files, path: string, content: Option<string>): Files
  {
    if content.Some? then files[path := content.value] else RemovePath(files, path)
  }

  /** The tree with each of `paths` as `source` has it, one after the other. */
  function WriteAll(files: Files, source: Files, paths: seq<string>): Files
    decreases |paths|
  {
    if paths == [] then files else WriteAll(WriteLive(files, paths[0], Get(source, paths[0])), source, paths[1..])
  }

  /** No file stands where another's folder would: the trees a file system can hold. */
  ghost predicate IsTree(files: Files)
  {
    forall q, k :: q in files && 0 <= k < |q| && q[k] == '/' ==> q[..k] !in files
  }

  // ---- Changes -----------------------------------------------------------------------------

  predicate Changed(before: Files, after: Files, path: string)
  {
    Get(before, path) != Get(after, path)
  }

  /** What two trees disagree on. */
  function ChangedSet(before: Files, after: Files): set<string>
  {
    set p | p in before.Keys + after.Keys && Changed(before, after, p)
  }

  function PathsOf(changes: seq<ChangedPath>): seq<string>
  {
    if changes == [] then [] else [changes[0].path] + PathsOf(changes[1..])
  }

  method ChangedPaths(before: Files, after: Files) returns (changes: seq<ChangedPath>)
    ensures Lists(PathsOf(changes), ChangedSet(before, after))
    ensures forall c :: c in changes ==>
      c.kind == if c.path !in before then Added else if c.path !in after then Deleted else Modified
  {
    var paths := Sort(before.Keys + after.Keys);
    changes := [];
    var i := 0;
    while i < |paths|
      invariant i <= |paths|
      invariant Ascending(PathsOf(changes))
      invariant forall p :: p in PathsOf(changes) <==> p in paths[..i] && Changed(before, after, p)
      invariant forall c :: c in changes ==>
        c.kind == if c.path !in before then Added else if c.path !in after then Deleted else Modified
    {
      var path := paths[i];
      assert paths[..i + 1] == paths[..i] + [path];
      if Get(before, path) != Get(after, path) {
        var change := ChangedPath(path, if path !in before then Added else if path !in after then Deleted else Modified);
        PathsAppend(changes, change);
        forall k | 0 <= k < |PathsOf(changes)| ensures Less(PathsOf(changes)[k], path) {
          assert PathsOf(changes)[k] in paths[..i];
        }
        changes := changes + [change];
      }
      i := i + 1;
    }
    assert paths[..i] == paths;
  }

  lemma {:induction false} PathsAppend(changes: seq<ChangedPath>, more: ChangedPath)
    ensures PathsOf(changes + [more]) == PathsOf(changes) + [more.path]
  {
    if changes == [] {
      assert changes + [more] == [more] && [more][1..] == [];
    } else {
      PathsAppend(changes[1..], more);
      assert (changes + [more])[1..] == changes[1..] + [more];
    }
  }

  // ---- What writing sorted paths does ------------------------------------------------------

  /** A path of a list that `source` does not have, and that `path` lies under. */
  ghost predicate RemovedAbove(source: Files, paths: seq<string>, path: string)
  {
    exists k :: 0 <= k < |path| && path[k] == '/' && path[..k] in paths && path[..k] !in source
  }

  lemma RemovedAboveFirst(source: Files, paths: seq<string>, path: string)
    requires paths != []
    ensures RemovedAbove(source, paths, path)
       <==> (paths[0] !in source && Under(path, paths[0])) || RemovedAbove(source, paths[1..], path)
  {
    var first, rest := paths[0], paths[1..];
    assert forall p :: p in paths <==> p == first || p in rest;
    UnderIff(path, first);
    if Under(path, first) && first !in source {
      assert path[..|first|] in paths;
    }
    if RemovedAbove(source, rest, path) {
      var k :| 0 <= k < |path| && path[k] == '/' && path[..k] in rest && path[..k] !in source;
      assert path[..k] in paths;
    }
  }

  lemma {:induction false} UnderIsLater(path: string, dir: string)
    requires Under(path, dir)
    ensures Less(dir, path) && path != dir
  {
    PrefixLess(dir, path[|dir|..]);
    assert path == dir + path[|dir|..];
  }

  /**
   Writing sorted paths leaves each as `source` has it, and any other as it was, unless a path
   above it was removed.
   */
  lemma {:induction false} WrittenAll(files: Files, source: Files, paths: seq<string>, path: string)
    requires Ascending(paths)
    ensures Get(WriteAll(files, source, paths), path)
         == if path in paths then Get(source, path)
            else if RemovedAbove(source, paths, path) then None
            else Get(files, path)
    decreases |paths|
  {
    if paths != [] {
      var first, rest := paths[0], paths[1..];
      var next := WriteLive(files, first, Get(source, first));
      WrittenAll(next, source, rest, path);
      assert path in paths <==> path == first || path in rest;
      if path == first {
        forall i | 0 <= i < |rest| ensures rest[i] != path && !Under(path, rest[i]) {
          assert Less(paths[0], paths[i + 1]);
          LessAsymmetric(first, rest[i]);
          if Under(path, rest[i]) {
            UnderIsLater(path, rest[i]);
          }
        }
      }
      RemovedAboveFirst(source, paths, path);
      if path == first && RemovedAbove(source, rest, path) {
        var k :| 0 <= k < |path| && path[k] == '/' && path[..k] in rest && path[..k] !in source;
        UnderIff(path, path[..k]);
      }
    }
  }

  // ---- Undo --------------------------------------------------------------------------------

  /** Of the changed paths, those that are still as the checkpoint has them. */
  function Reverted(live: Files, after: Files, paths: seq<string>): seq<string>
  {
    if paths == [] then []
    else (if Get(live, paths[0]) == Get(after, paths[0]) then [paths[0]] else []) + Reverted(live, after, paths[1..])
  }

  function Skipped(live: Files, after: Files, paths: seq<string>): seq<string>
  {
    if paths == [] then []
    else (if Get(live, paths[0]) != Get(after, paths[0]) then [paths[0]] else []) + Skipped(live, after, paths[1..])
  }

  /** The live tree once the change from `before` to `after` is undone. */
  function Undone(live: Files, before: Files, after: Files, paths: seq<string>): Files
  {
    WriteAll(live, before, Reverted(live, after, paths))
  }

  lemma {:induction false} RevertedMember(live: Files, after: Files, paths: seq<string>, path: string)
    ensures path in Reverted(live, after, paths) <==> path in paths && Get(live, path) == Get(after, path)
    ensures path in Skipped(live, after, paths) <==> path in paths && Get(live, path) != Get(after, path)
  {
    if paths != [] {
      RevertedMember(live, after, paths[1..], path);
      assert path in paths <==> path == paths[0] || path in paths[1..];
      assert paths[0] in [paths[0]];
    }
  }

  lemma {:induction false} RevertedAscending(live: Files, after: Files, paths: seq<string>)
    requires Ascending(paths)
    ensures Ascending(Reverted(live, after, paths))
  {
    if paths != [] {
      RevertedAscending(live, after, paths[1..]);
      var rest := Reverted(live, after, paths[1..]);
      forall j | 0 <= j < |rest| ensures Less(paths[0], rest[j]) {
        RevertedMember(live, after, paths[1..], rest[j]);
        var k :| 0 <= k < |paths[1..]| && paths[1..][k] == rest[j];
        assert Less(paths[0], paths[k + 1]);
      }
    }
  }

  /** The undo puts `p` back: the checkpoint changed it, and it is still as the checkpoint has it. */
  ghost predicate PutBack(live: Files, before: Files, after: Files, p: string)
  {
    Changed(before, after, p) && Get(live, p) == Get(after, p)
  }

  /** The undo removes the file `p`, which the checkpoint added. */
  ghost predicate Removes(live: Files, before: Files, after: Files, p: string)
  {
    p in live && p !in before && Get(live, p) == Get(after, p)
  }

  /** A file that goes with one the undo removes, as what lies under it. */
  ghost predicate GoesAlong(live: Files, before: Files, after: Files, q: string)
  {
    exists k :: 0 <= k < |q| && q[k] == '/' && Removes(live, before, after, q[..k])
  }

  /** The undo removes a file that has a live file under it which is not the undo's to put back. */
  ghost predicate RemovesOverFile(live: Files, before: Files, after: Files)
  {
    exists q :: q in live && !PutBack(live, before, after, q) && GoesAlong(live, before, after, q)
  }

  /**
   What an undo should leave at a path: what was there before the checkpoint, if it puts that back,
   else what is there.
   */
  ghost function Meant(live: Files, before: Files, after: Files, path: string): Option<string>
  {
    if PutBack(live, before, after, path) then Get(before, path) else Get(live, path)
  }

  /** Reverted and skipped paths split the checkpoint's changes. */
  lemma UndoneSplits(live: Files, before: Files, after: Files, paths: seq<string>, path: string)
    requires Lists(paths, ChangedSet(before, after))
    ensures path in Reverted(live, after, paths) <==> PutBack(live, before, after, path)
    ensures path in Skipped(live, after, paths) <==> Changed(before, after, path) && !PutBack(live, before, after, path)
  {
    RevertedMember(live, after, paths, path);
    assert path in paths <==> path in ChangedSet(before, after);
  }

  /** What an undo leaves at any path, whatever the live files are. */
  lemma UndoneIs(live: Files, before: Files, after: Files, paths: seq<string>, path: string)
    requires Lists(paths, ChangedSet(before, after))
    ensures Get(Undone(live, before, after, paths), path)
         == if !PutBack(live, before, after, path) && GoesAlong(live, before, after, path) then None
            else Meant(live, before, after, path)
  {
    var reverted := Reverted(live, after, paths);
    RevertedAscending(live, after, paths);
    UndoneSplits(live, before, after, paths, path);
    WrittenAll(live, before, reverted, path);
    forall k | 0 <= k < |path| && path[k] == '/'
      ensures Removes(live, before, after, path[..k]) <==> path[..k] in reverted && path[..k] !in before
    {
      UndoneSplits(live, before, after, paths, path[..k]);
    }
  }

  /**
   Undoing a checkpoint puts back the paths that are still as it left them and changes no other,
   exactly when it removes no file that has another live file under it.
   */
  lemma UndoneExactlyIff(live: Files, before: Files, after: Files, paths: seq<string>)
    requires Lists(paths, ChangedSet(before, after))
    ensures (forall path :: Get(Undone(live, before, after, paths), path) == Meant(live, before, after, path))
       <==> !RemovesOverFile(live, before, after)
  {
    if RemovesOverFile(live, before, after) {
      var q :| q in live && !PutBack(live, before, after, q) && GoesAlong(live, before, after, q);
      UndoneIs(live, before, after, paths, q);
      assert Get(Undone(live, before, after, paths), q) != Meant(live, before, after, q);
    } else {
      forall path ensures Get(Undone(live, before, after, paths), path) == Meant(live, before, after, path) {
        UndoneIs(live, before, after, paths, path);
      }
    }
  }

  /** So it is on a tree, where nothing lies under a file. */
  lemma TreeKeepsFiles(live: Files, before: Files, after: Files)
    requires IsTree(live)
    ensures !RemovesOverFile(live, before, after)
  {
  }

  /** `a` is written, a checkpoint adds it, and `a/b` is written after it. Undoing the checkpoint loses both. */
  lemma UndoTakesMore()
    ensures var before: Files := map[];
            var after := WriteLive(before, "a", Some("x"));
            var live := WriteLive(after, "a/b", Some("y"));
            && live == map["a" := "x", "a/b" := "y"] && !IsTree(live) && RemovesOverFile(live, before, after)
            && !Changed(before, after, "a/b") && Lists(["a"], ChangedSet(before, after))
            && Undone(live, before, after, ["a"]) == map[]
  {
    var before, after, live: Files := map[], map["a" := "x"], map["a" := "x", "a/b" := "y"];
    var q: string := "a/b";
    assert q[1] == '/' && q[..1] == "a";
    assert Removes(live, before, after, q[..1]) && GoesAlong(live, before, after, q);
    UnderIff(q, "a");
    assert ["a"][1..] == [];
    assert ["a"][0] == "a";
    assert Reverted(live, after, ["a"]) == ["a"] + Reverted(live, after, []);
    var mid := WriteLive(live, "a", Get(before, "a"));
    assert Undone(live, before, after, ["a"]) == WriteAll(mid, before, []) == mid;
  }

  // ---- Undoing an undo ---------------------------------------------------------------------

  /** The undo restores the file `p`, which the checkpoint deleted and is still gone. */
  ghost predicate Restores(live: Files, before: Files, after: Files, p: string)
  {
    p in before && p !in after && p !in live
  }

  /** The undo restores a file over a folder of the live tree, with a file in it that the undo leaves as it is. */
  ghost predicate RestoresOverFolder(live: Files, before: Files, after: Files)
  {
    exists q :: q in live && RestoredAbove(live, before, after, q)
      && !PutBack(live, before, after, q) && !GoesAlong(live, before, after, q)
  }

  ghost predicate RestoredAbove(live: Files, before: Files, after: Files, path: string)
  {
    exists k :: 0 <= k < |path| && path[k] == '/' && Restores(live, before, after, path[..k])
  }

  /** Undoing the checkpoint an undo made skips nothing: the live tree is as that checkpoint has it. */
  lemma {:induction false} NothingSkipped(live: Files, paths: seq<string>)
    ensures Reverted(live, live, paths) == paths && Skipped(live, live, paths) == []
  {
    if paths != [] {
      NothingSkipped(live, paths[1..]);
      assert paths == [paths[0]] + paths[1..];
    }
  }

  lemma SameFiles(a: Files, b: Files)
    requires forall p :: Get(a, p) == Get(b, p)
    ensures a == b
  {
    forall p ensures p in a <==> p in b {
      assert Get(a, p) == Get(b, p);
    }
    forall p | p in a ensures a[p] == b[p] {
      assert Get(a, p) == Get(b, p);
    }
  }

  /** What the undo of an undo would remove again: the files the first one restored. */
  lemma RemovedAgain(live: Files, before: Files, after: Files, paths: seq<string>, p: string)
    requires Lists(paths, ChangedSet(before, after))
    ensures Restores(live, before, after, p) <==> p !in live && Changed(live, Undone(live, before, after, paths), p)
  {
    UndoneIs(live, before, after, paths, p);
  }

  /**
   Where undoing the undo leaves a path: as it was, unless a file restored above it is removed again
   with its folder.
   */
  lemma UndoneTwice(live: Files, before: Files, after: Files, paths: seq<string>, again: seq<string>, path: string)
    requires Lists(paths, ChangedSet(before, after))
    requires var mid := Undone(live, before, after, paths); Lists(again, ChangedSet(live, mid))
    ensures var mid := Undone(live, before, after, paths);
            Get(Undone(mid, live, mid, again), path) ==
              (if Get(mid, path) == Get(live, path) && RestoredAbove(live, before, after, path) then None
               else Get(live, path))
  {
    var mid := Undone(live, before, after, paths);
    NothingSkipped(mid, again);
    WrittenAll(mid, live, again, path);
    assert path in again <==> Changed(live, mid, path);
    forall k | 0 <= k < |path| && path[k] == '/'
      ensures Restores(live, before, after, path[..k]) <==> path[..k] in again && path[..k] !in live
    {
      RemovedAgain(live, before, after, paths, path[..k]);
      assert path[..k] in again <==> path[..k] in ChangedSet(live, mid);
    }
  }

  /**
   With the live files in the newest checkpoint, undoing any checkpoint and then that undo gives
   the live files back exactly when the first undo restores no file over a folder.
   */
  lemma UndoingUndoIsIdentityIff(live: Files, before: Files, after: Files, paths: seq<string>, again: seq<string>)
    requires Lists(paths, ChangedSet(before, after))
    requires var mid := Undone(live, before, after, paths); Lists(again, ChangedSet(live, mid))
    ensures var mid := Undone(live, before, after, paths);
            Undone(mid, live, mid, again) == live <==> !RestoresOverFolder(live, before, after)
  {
    var mid := Undone(live, before, after, paths);
    var back := Undone(mid, live, mid, again);
    if RestoresOverFolder(live, before, after) {
      var q :| q in live && RestoredAbove(live, before, after, q)
        && !PutBack(live, before, after, q) && !GoesAlong(live, before, after, q);
      UndoneIs(live, before, after, paths, q);
      UndoneTwice(live, before, after, paths, again, q);
      assert Get(back, q) == None;
    } else {
      forall path ensures Get(back, path) == Get(live, path) {
        UndoneTwice(live, before, after, paths, again, path);
        UndoneIs(live, before, after, paths, path);
      }
      SameFiles(back, live);
    }
  }

  /** A checkpoint deletes `a`, and `a/b` is written after it. Undoing it, and then that undo, loses both. */
  lemma UndoLosesFile()
    ensures var live, before, after := map["a/b" := "new"], map["a" := "old"], map[];
            var mid := Undone(live, before, after, ["a"]);
            && IsTree(live) && IsTree(before) && RestoresOverFolder(live, before, after)
            && mid == map["a" := "old", "a/b" := "new"] && !IsTree(mid) && Undone(mid, live, mid, ["a"]) == map[]
  {
    var live, before, after: Files := map["a/b" := "new"], map["a" := "old"], map[];
    var q: string := "a/b";
    assert q[1] == '/' && q[..1] == "a";
    assert Restores(live, before, after, q[..1]) && q in live;
    UnderIff(q, "a");
    assert !Changed(before, after, "a/b");
    TreeKeepsFiles(live, before, after);
    assert ["a"][1..] == [];
    assert Reverted(live, after, ["a"]) == ["a"] + Reverted(live, after, []);
    var mid := WriteLive(live, "a", Get(before, "a"));
    assert Undone(live, before, after, ["a"]) == WriteAll(mid, before, []) == mid;
    assert "a" in mid && "a/b" in mid;
    NothingSkipped(mid, ["a"]);
    var back := RemovePath(mid, "a");
    assert Undone(mid, live, mid, ["a"]) == WriteAll(back, live, []) == back;
  }

  // ---- Restore -----------------------------------------------------------------------------

  /** `path` without the slash it may end in. */
  function Folder(path: string): string
  {
    if path != "" && path[|path| - 1] == '/' then path[..|path| - 1] else path
  }

  /** A restore of `path` is to set the file `p` as well. */
  predicate Covers(path: string, p: string)
  {
    p == path || Under(p, Folder(path))
  }

  /** `p` is `path` or lies in the folder that `path` names, with or without a slash at its end. */
  ghost predicate AtOrIn(path: string, p: string)
  {
    p == path || exists k :: 0 <= k < |p| && p[k] == '/' && (p[..k] == path || p[..k] + "/" == path)
  }

  lemma CoversIff(path: string, p: string)
    ensures Covers(path, p) <==> AtOrIn(path, p)
  {
    var dir := Folder(path);
    UnderIff(p, dir);
    if Under(p, dir) {
      assert path != dir ==> p[..|dir|] + "/" == path;
    }
    if exists k :: 0 <= k < |p| && p[k] == '/' && (p[..k] == path || p[..k] + "/" == path) {
      var k :| 0 <= k < |p| && p[k] == '/' && (p[..k] == path || p[..k] + "/" == path);
      if p[..k] + "/" == path {
        assert dir == p[..k];
      } else if path != dir {
        assert path == dir + "/" && path <= p;
      }
    }
  }

  lemma AllCovered(path: string)
    ensures forall p :: Covers(path, p) <==> AtOrIn(path, p)
  {
    forall p ensures Covers(path, p) <==> AtOrIn(path, p) {
      CoversIff(path, p);
    }
  }

  function RestoredPaths(target: Files, path: string): set<string>
  {
    set p | p in target && Covers(path, p)
  }

  // ---- The repository ----------------------------------------------------------------------

  class Repository {
    var live: Files
    var history: seq<Files>

    constructor (live: Files)
      ensures this.live == live && history == []
    {
      this.live, history := live, [];
    }

    /** Records the live tree as the newest checkpoint, and answers its place and how many paths it changes. */
    method Record() returns (at: nat, changedCount: nat)
      modifies this`history
      ensures history == old(history) + [live] && at == |old(history)|
      ensures changedCount == |ChangedSet(if old(history) == [] then map[] else old(history)[|old(history)| - 1], live)|
    {
      var previous := if history == [] then map[] else history[|history| - 1];
      var changes := ChangedPaths(previous, live);
      CountListed(PathsOf(changes), ChangedSet(previous, live));
      PathsCount(changes);
      at, changedCount := |history|, |changes|;
      history := history + [live];
    }

    /** Before a change: makes sure the newest checkpoint equals the live tree, and names it. */
    method BeforeAction() returns (at: nat)
      modifies this`history
      ensures at == |history| - 1 && history[at] == live
      ensures old(history) <= history
      ensures history == old(history) <==> old(history) != [] && old(history)[|old(history)| - 1] == live
    {
      if history != [] {
        var changes := ChangedPaths(history[|history| - 1], live);
        if changes == [] {
          NoChanges(history[|history| - 1], live);
          return |history| - 1;
        }
        var first := changes[0].path;
        assert PathsOf(changes)[0] == first;
        assert first in ChangedSet(history[|history| - 1], live);
      }
      var counted;
      at, counted := Record();
    }

    method Undo(at: nat) returns (made: nat, reverted: seq<string>, skipped: seq<string>, ghost paths: seq<string>)
      requires at < |history|
      modifies this
      ensures made == |old(history)| && history == old(history) + [live]
      ensures var before := if at == 0 then map[] else old(history)[at - 1];
              && Lists(paths, ChangedSet(before, old(history)[at]))
              && live == Undone(old(live), before, old(history)[at], paths)
              && reverted == Reverted(old(live), old(history)[at], paths)
              && skipped == Skipped(old(live), old(history)[at], paths)
    {
      var before := if at == 0 then map[] else history[at - 1];
      var after := history[at];
      var changes := ChangedPaths(before, after);
      paths := PathsOf(changes);
      reverted, skipped := UndoPaths(before, after, PathsOf(changes));
      var counted;
      made, counted := Record();
    }

    /** Puts back those of `paths` that are still as `after` has them. */
    method UndoPaths(before: Files, after: Files, paths: seq<string>) returns (reverted: seq<string>, skipped: seq<string>)
      modifies this`live
      ensures live == Undone(old(live), before, after, paths)
      ensures reverted == Reverted(old(live), after, paths) && skipped == Skipped(old(live), after, paths)
    {
      var was := live;
      reverted, skipped := [], [];
      var i := 0;
      while i < |paths|
        invariant i <= |paths|
        invariant WriteAll(live, before, Reverted(was, after, paths[i..])) == Undone(was, before, after, paths)
        invariant reverted + Reverted(was, after, paths[i..]) == Reverted(was, after, paths)
        invariant skipped + Skipped(was, after, paths[i..]) == Skipped(was, after, paths)
      {
        var path := paths[i];
        SplitStep(was, after, paths, i);
        if Get(was, path) != Get(after, path) {
          Associative(skipped, [path], Skipped(was, after, paths[i + 1..]));
          skipped := skipped + [path];
        } else {
          Associative(reverted, [path], Reverted(was, after, paths[i + 1..]));
          live := WriteLive(live, path, Get(before, path));
          reverted := reverted + [path];
        }
        i := i + 1;
      }
    }

    /** Puts back the file or folder `path` as the checkpoint has it; refused when it has none there. */
    method Restore(at: nat, path: string) returns (restored: Option<seq<string>>)
      requires at < |history|
      modifies this
      ensures restored.None? <==> forall p :: p in old(history)[at] ==> !AtOrIn(path, p)
      ensures restored.None? ==> live == old(live) && history == old(history)
      ensures restored.Some? ==> history == old(history) + [live]
      ensures restored.Some? ==> Ascending(restored.value)
      ensures restored.Some? ==> forall p :: p in restored.value <==> p in old(history)[at] && AtOrIn(path, p)
      ensures restored.Some? ==> forall p ::
        Get(live, p) == if AtOrIn(path, p) then Get(old(history)[at], p) else Get(old(live), p)
    {
      var target := history[at];
      var paths := Sort(RestoredPaths(target, path));
      if paths == [] {
        forall p | p in target ensures !Covers(path, p) {
          assert p in RestoredPaths(target, path) ==> p in paths;
        }
        AllCovered(path);
        return None;
      }
      assert paths[0] in RestoredPaths(target, path);
      CoversIff(path, paths[0]);
      var gone := set p | p in live && Covers(path, p) && p !in RestoredPaths(target, path);
      while gone != {}
        invariant history == old(history)
        invariant forall p :: !Covers(path, p) ==> Get(live, p) == Get(old(live), p)
        invariant forall p :: p in live && Covers(path, p) ==> p in gone || p in RestoredPaths(target, path)
        invariant forall p :: p in gone ==> Covers(path, p)
        decreases gone
      {
        var p :| p in gone;
        forall q | Under(q, p) ensures Covers(path, q) {
          UnderCovered(path, p, q);
        }
        live := RemovePath(live, p);
        gone := gone - {p};
      }
      var i := 0;
      while i < |paths|
        invariant i <= |paths| && history == old(history)
        invariant forall p :: !Covers(path, p) ==> Get(live, p) == Get(old(live), p)
        invariant forall p :: p in live && Covers(path, p) ==> p in RestoredPaths(target, path)
        invariant forall k :: 0 <= k < i ==> Get(live, paths[k]) == Get(target, paths[k])
      {
        assert paths[i] in RestoredPaths(target, path);
        live := live[paths[i] := target[paths[i]]];
        i := i + 1;
      }
      forall p | Covers(path, p) ensures Get(live, p) == Get(target, p) {
        if p in target {
          assert p in paths;
        }
      }
      AllCovered(path);
      var made, counted := Record();
      return Some(paths);
    }
  }

  lemma SplitStep(live: Files, after: Files, paths: seq<string>, i: nat)
    requires i < |paths|
    ensures var same := Get(live, paths[i]) == Get(after, paths[i]);
            && Reverted(live, after, paths[i..]) == (if same then [paths[i]] else []) + Reverted(live, after, paths[i + 1..])
            && Skipped(live, after, paths[i..]) == (if same then [] else [paths[i]]) + Skipped(live, after, paths[i + 1..])
            && (same ==> Skipped(live, after, paths[i..]) == Skipped(live, after, paths[i + 1..]))
            && (!same ==> Reverted(live, after, paths[i..]) == Reverted(live, after, paths[i + 1..]))
  {
    assert paths[i..][1..] == paths[i + 1..];
  }

  lemma UnderCovered(path: string, p: string, q: string)
    requires Covers(path, p) && Under(q, p)
    ensures Covers(path, q)
  {
    var dir := Folder(path);
    if p == path {
      if path != dir {
        assert path == dir + "/";
      }
      assert dir + "/" <= p + "/";
    } else {
      assert dir + "/" <= p <= q;
    }
  }

  lemma NoChanges(a: Files, b: Files)
    requires ChangedSet(a, b) == {}
    ensures a == b
  {
    forall p ensures Get(a, p) == Get(b, p) {
      assert Changed(a, b, p) ==> p in ChangedSet(a, b);
    }
    SameFiles(a, b);
  }

  lemma {:induction false} PathsCount(changes: seq<ChangedPath>)
    ensures |PathsOf(changes)| == |changes|
  {
    if changes != [] {
      PathsCount(changes[1..]);
    }
  }

  lemma {:induction false} CountListed(s: seq<string>, all: set<string>)
    requires Lists(s, all)
    ensures |s| == |all|
    decreases |s|
  {
    if s == [] {
      assert all == {};
    } else {
      var rest := all - {s[0]};
      assert s[0] in s;
      LessIrreflexive(s[0]);
      forall x ensures x in s[1..] <==> x in rest {
        if x in s[1..] {
          var k :| 1 <= k < |s| && s[k] == x;
          assert Less(s[0], s[k]) && s[k] in s;
        }
        if x in rest {
          var k :| 0 <= k < |s| && s[k] == x;
        }
      }
      CountListed(s[1..], rest);
      assert all == rest + {s[0]};
    }
  }
}
