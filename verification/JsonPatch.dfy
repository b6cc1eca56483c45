/**
 Merging a settings diff into a document. A diff takes keys out (`null`), goes into tables, and puts
 other values in, as it does any value that stands alone under `$inline`. No table it goes into is
 left empty.
 */
module JsonPatch {
  import opened Util

  datatype Json = Null | Leaf(text: string) | List(items: seq<Json>) | Table(entries: map<string, Json>)

  const INLINE := "$inline"

  function Lookup(entries: map<string, Json>, key: string): Option<Json>
  {
    if key in entries then Some(entries[key]) else None
  }

  /** The table a key holds; anything else counts as an empty one. */
  function TableAt(existing: Option<Json>): map<string, Json>
  {
    if existing.Some? && existing.value.Table? then existing.value.entries else map[]
  }

  /** What a table still holds at a key once it has been merged. */
  function Kept(entries: map<string, Json>): Option<Json>
  {
    if entries == map[] then None else Some(Table(entries))
  }

  // ---- The merge ---------------------------------------------------------------------------

  /** The document after the diff. */
  function Patch(target: map<string, Json>, diff: Json): map<string, Json>
    requires diff.Table?
    decreases diff, 1
  {
    map k | k in target.Keys + diff.entries.Keys && (k in diff.entries ==> PatchedValue(Lookup(target, k), diff.entries[k]).Some?)
      :: if k in diff.entries then PatchedValue(Lookup(target, k), diff.entries[k]).value else target[k]
  }

  /** What a key holds after the diff's value for it. */
  function PatchedValue(existing: Option<Json>, value: Json): Option<Json>
    decreases value, 2
  {
    match value
    case Null => None
    case Table(entries) => if INLINE in entries then Some(entries[INLINE]) else Kept(Patch(TableAt(existing), value))
    case _ => Some(value)
  }

  lemma PatchAt(target: map<string, Json>, diff: Json, k: string)
    requires diff.Table?
    ensures Lookup(Patch(target, diff), k)
         == if k in diff.entries then PatchedValue(Lookup(target, k), diff.entries[k]) else Lookup(target, k)
  {
  }

  lemma SameTables(a: map<string, Json>, b: map<string, Json>)
    requires forall k :: Lookup(a, k) == Lookup(b, k)
    ensures a == b
  {
    forall k ensures k in a <==> k in b {
      assert Lookup(a, k) == Lookup(b, k);
    }
    forall k | k in a ensures a[k] == b[k] {
      assert Lookup(a, k) == Lookup(b, k);
    }
  }

  /** The merge as it runs, one key of the diff after another, in any order. */
  method ApplyJsonPatch(target: map<string, Json>, diff: Json) returns (patched: map<string, Json>)
    requires diff.Table?
    ensures patched == Patch(target, diff)
    decreases diff
  {
    patched := target;
    var keys := diff.entries.Keys;
    while keys != {}
      invariant keys <= diff.entries.Keys
      invariant forall k :: k in keys || k !in diff.entries ==> Lookup(patched, k) == Lookup(target, k)
      invariant forall k :: k in diff.entries && k !in keys ==>
        Lookup(patched, k) == PatchedValue(Lookup(target, k), diff.entries[k])
      decreases |keys|
    {
      var key :| key in keys;
      var value := diff.entries[key];
      assert Lookup(patched, key) == Lookup(target, key);
      if value.Null? {
        patched := patched - {key};
      } else if value.Table? {
        if INLINE in value.entries {
          patched := patched[key := value.entries[INLINE]];
        } else {
          var sub := if key in patched && patched[key].Table? then patched[key].entries else map[];
          sub := ApplyJsonPatch(sub, value);
          patched := patched[key := Table(sub)];
          if sub == map[] {
            patched := patched - {key};
          }
        }
      } else {
        patched := patched[key := value];
      }
      keys := keys - {key};
    }
    forall k ensures Lookup(patched, k) == Lookup(Patch(target, diff), k) {
      PatchAt(target, diff, k);
    }
    SameTables(patched, Patch(target, diff));
  }

  // ---- What every path holds ---------------------------------------------------------------

  /** What a document holds at a path of keys. */
  function At(entries: map<string, Json>, path: seq<string>): Option<Json>
    requires path != []
    decreases |path|
  {
    var here := Lookup(entries, path[0]);
    if |path| == 1 then here else At(TableAt(here), path[1..])
  }

  /** A diff leaves a path alone, removes it, sets it, or merges a table into what is there. */
  datatype Word = Silent | Removes | Sets(value: Json) | Merges

  /** What a diff says about a path. */
  function SaidOf(diff: Json, path: seq<string>): Word
    requires diff.Table? && path != []
  {
    if path[0] !in diff.entries then Silent
    else
      var value := diff.entries[path[0]];
      if value.Table? && "$inline" !in value.entries then (if |path| == 1 then Merges else SaidOf(value, path[1..]))
      else
        var put := if value.Null? then None else if value.Table? then Some(value.entries["$inline"]) else Some(value);
        var held := if |path| == 1 then put else At(TableAt(put), path[1..]);
        if held.None? then Removes else Sets(held.value)
  }

  lemma {:induction false} EmptyHolds(path: seq<string>)
    requires path != []
    ensures At(map[], path) == None
  {
    if |path| > 1 {
      EmptyHolds(path[1..]);
    }
  }

  /** After the merge, every path holds what the diff says: what it held, nothing, or the value set. */
  lemma {:induction false} EveryPath(target: map<string, Json>, diff: Json, path: seq<string>)
    requires diff.Table? && path != []
    ensures SaidOf(diff, path).Silent? ==> At(Patch(target, diff), path) == At(target, path)
    ensures SaidOf(diff, path).Removes? ==> At(Patch(target, diff), path) == None
    ensures SaidOf(diff, path).Sets? ==> At(Patch(target, diff), path) == Some(SaidOf(diff, path).value)
    ensures SaidOf(diff, path).Merges? ==> At(Patch(target, diff), path) != Some(Table(map[]))
    decreases |path|
  {
    var key := path[0];
    PatchAt(target, diff, key);
    if key in diff.entries {
      var value := diff.entries[key];
      if value.Table? && INLINE !in value.entries {
        if |path| > 1 {
          var sub := Patch(TableAt(Lookup(target, key)), value);
          EveryPath(TableAt(Lookup(target, key)), value, path[1..]);
        }
      } else if |path| > 1 {
        EmptyHolds(path[1..]);
      }
    }
  }

  // ---- Saving the same form twice ----------------------------------------------------------

  /** A key the diff removes from one document it leaves out of any. */
  lemma LeavesOutOfEmpty(existing: Option<Json>, value: Json)
    requires PatchedValue(existing, value).None?
    ensures PatchedValue(None, value).None?
    decreases value, 2
  {
    if value.Table? {
      EmptiesAnyTable(TableAt(existing), value);
    }
  }

  lemma EmptiesAnyTable(target: map<string, Json>, diff: Json)
    requires diff.Table? && Patch(target, diff) == map[]
    ensures Patch(map[], diff) == map[]
    decreases diff, 1
  {
    forall k ensures k !in Patch(map[], diff) {
      PatchAt(target, diff, k);
      PatchAt(map[], diff, k);
      if k in diff.entries {
        LeavesOutOfEmpty(Lookup(target, k), diff.entries[k]);
      }
    }
  }

  /** Applying a diff a second time changes nothing. */
  lemma PatchTwice(target: map<string, Json>, diff: Json)
    requires diff.Table?
    ensures Patch(Patch(target, diff), diff) == Patch(target, diff)
    decreases diff, 1
  {
    var once := Patch(target, diff);
    forall k ensures Lookup(Patch(once, diff), k) == Lookup(once, k) {
      PatchAt(once, diff, k);
      PatchAt(target, diff, k);
      if k in diff.entries {
        PatchedTwice(Lookup(target, k), diff.entries[k]);
      }
    }
    SameTables(Patch(once, diff), once);
  }

  lemma PatchedTwice(existing: Option<Json>, value: Json)
    ensures PatchedValue(PatchedValue(existing, value), value) == PatchedValue(existing, value)
    decreases value, 2
  {
    if value.Table? && INLINE !in value.entries {
      if Patch(TableAt(existing), value) == map[] {
        EmptiesAnyTable(TableAt(existing), value);
      } else {
        PatchTwice(TableAt(existing), value);
      }
    }
  }

  // ---- The standard merge ------------------------------------------------------------------

  /** MergePatch of section 2 of RFC 7396, `None` for an absent target. */
  function MergePatch(target: Option<Json>, patch: Json): Json
    decreases patch, 2
  {
    if patch.Table? then Table(MergeTables(TableAt(target), patch)) else patch
  }

  function MergeTables(target: map<string, Json>, patch: Json): map<string, Json>
    requires patch.Table?
    decreases patch, 1
  {
    map k | k in target.Keys + patch.entries.Keys && !(k in patch.entries && patch.entries[k].Null?)
      :: if k in patch.entries then MergePatch(Lookup(target, k), patch.entries[k]) else target[k]
  }

  /** Bottom-up removal of empty tables; a list keeps what it holds. */
  function Prune(value: Json): Option<Json>
    decreases value, 2
  {
    if value.Table? then Kept(PruneTable(value)) else Some(value)
  }

  function PruneTable(table: Json): map<string, Json>
    requires table.Table?
    decreases table, 1
  {
    map k | k in table.entries && Prune(table.entries[k]).Some? :: Prune(table.entries[k]).value
  }

  predicate NoInline(diff: Json)
  {
    diff.Table? ==> "$inline" !in diff.entries && forall k :: k in diff.entries ==> NoInline(diff.entries[k])
  }

  /** Neither the value nor anything below it, outside lists, is an empty table. */
  predicate NoEmptyTable(value: Json)
  {
    value.Table? ==> value.entries != map[] && forall k :: k in value.entries ==> NoEmptyTable(value.entries[k])
  }

  /** No empty table stands where the diff does not reach. */
  predicate TidyOutside(target: map<string, Json>, diff: Json)
    requires diff.Table?
    decreases diff
  {
    && (forall k :: k in target && k !in diff.entries ==> NoEmptyTable(target[k]))
    && (forall k :: k in diff.entries && diff.entries[k].Table? ==> TidyOutside(TableAt(Lookup(target, k)), diff.entries[k]))
  }

  /** Pruning keeps a value exactly when it has no empty table. */
  lemma {:induction false} PruneKeepsIff(value: Json)
    ensures Prune(value) == Some(value) <==> NoEmptyTable(value)
  {
    if value.Table? {
      if NoEmptyTable(value) {
        forall k ensures Lookup(PruneTable(value), k) == Lookup(value.entries, k) {
          if k in value.entries {
            PruneKeepsIff(value.entries[k]);
          }
        }
        SameTables(PruneTable(value), value.entries);
      } else if value.entries != map[] {
        var k :| k in value.entries && !NoEmptyTable(value.entries[k]);
        PruneKeepsIff(value.entries[k]);
        assert Lookup(PruneTable(value), k) != Lookup(value.entries, k);
      }
    }
  }

  /** The standard merge, then the removal of empty tables. */
  function PrunedMerge(target: map<string, Json>, diff: Json): map<string, Json>
    requires diff.Table?
  {
    PruneTable(Table(MergeTables(target, diff)))
  }

  lemma PrunedMergeAt(target: map<string, Json>, diff: Json, k: string)
    requires diff.Table?
    ensures Lookup(PrunedMerge(target, diff), k) ==
      if k !in diff.entries then (if k in target then Prune(target[k]) else None)
      else if diff.entries[k].Null? then None
      else Prune(MergePatch(Lookup(target, k), diff.entries[k]))
  {
  }

  /** Whether the two merges agree at one key. */
  predicate TidyAt(target: map<string, Json>, diff: Json, k: string)
    requires diff.Table?
  {
    if k in diff.entries then diff.entries[k].Table? ==> TidyOutside(TableAt(Lookup(target, k)), diff.entries[k])
    else k in target ==> NoEmptyTable(target[k])
  }

  lemma UntidyAt(target: map<string, Json>, diff: Json) returns (k: string)
    requires diff.Table? && !TidyOutside(target, diff)
    ensures !TidyAt(target, diff, k)
  {
    if key :| key in target && key !in diff.entries && !NoEmptyTable(target[key]) {
      k := key;
    } else {
      k :| k in diff.entries && diff.entries[k].Table? && !TidyOutside(TableAt(Lookup(target, k)), diff.entries[k]);
    }
  }

  lemma AgreeAt(target: map<string, Json>, diff: Json, k: string)
    requires diff.Table? && NoInline(diff)
    ensures Lookup(Patch(target, diff), k) == Lookup(PrunedMerge(target, diff), k) <==> TidyAt(target, diff, k)
    decreases diff, 0
  {
    PatchAt(target, diff, k);
    PrunedMergeAt(target, diff, k);
    if k in diff.entries {
      var value := diff.entries[k];
      assert NoInline(value);
      if value.Table? {
        PatchIsPrunedMergeIff(TableAt(Lookup(target, k)), value);
      }
    } else if k in target {
      PruneKeepsIff(target[k]);
    }
  }

  /**
   For a diff without `$inline`, the merge is the standard one followed by the removal of empty
   tables, exactly when no empty table stands where the diff does not reach.
   */
  lemma PatchIsPrunedMergeIff(target: map<string, Json>, diff: Json)
    requires diff.Table? && NoInline(diff)
    ensures Patch(target, diff) == PrunedMerge(target, diff) <==> TidyOutside(target, diff)
    decreases diff, 1
  {
    if TidyOutside(target, diff) {
      forall k ensures Lookup(Patch(target, diff), k) == Lookup(PrunedMerge(target, diff), k) {
        AgreeAt(target, diff, k);
      }
      SameTables(Patch(target, diff), PrunedMerge(target, diff));
    } else {
      var k := UntidyAt(target, diff);
      AgreeAt(target, diff, k);
    }
  }

  /** A document without empty tables below its root is tidy whatever the diff reaches. */
  lemma {:induction false} TidyDocument(target: map<string, Json>, diff: Json)
    requires diff.Table? && forall k :: k in target ==> NoEmptyTable(target[k])
    ensures TidyOutside(target, diff)
    decreases diff
  {
    forall k | k in diff.entries && diff.entries[k].Table?
      ensures TidyOutside(TableAt(Lookup(target, k)), diff.entries[k])
    {
      TidyDocument(TableAt(Lookup(target, k)), diff.entries[k]);
    }
  }

  /** Nor does the merge leave one behind. */
  lemma {:induction false} MergedStaysTidy(target: map<string, Json>, diff: Json)
    requires diff.Table? && NoInline(diff) && forall k :: k in target ==> NoEmptyTable(target[k])
    ensures forall k :: k in Patch(target, diff) ==> NoEmptyTable(Patch(target, diff)[k])
    decreases diff, 1
  {
    forall k | k in Patch(target, diff) ensures NoEmptyTable(Patch(target, diff)[k]) {
      PatchAt(target, diff, k);
      if k in diff.entries && diff.entries[k].Table? {
        assert NoInline(diff.entries[k]);
        MergedStaysTidy(TableAt(Lookup(target, k)), diff.entries[k]);
      }
    }
  }

  /** An empty table the diff does not reach stays, where the removal would take it. */
  lemma UntouchedEmptyTable()
    ensures var target, diff := map["a" := Table(map[])], Table(map[]);
            Patch(target, diff) == target && PrunedMerge(target, diff) == map[]
  {
    var target, diff := map["a" := Table(map[])], Table(map[]);
    forall k ensures Lookup(Patch(target, diff), k) == Lookup(target, k) && Lookup(PrunedMerge(target, diff), k) == None {
      PatchAt(target, diff, k);
      PrunedMergeAt(target, diff, k);
    }
    SameTables(Patch(target, diff), target);
    SameTables(PrunedMerge(target, diff), map[]);
  }
}
