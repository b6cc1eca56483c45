/**
 The names a message's attachments are stored under: each upload keeps its own, or gets a number
 when an earlier one of the message has it.
 */
module Filenames {
  import opened Util
  import opened Reading

  /** Where the last dot is, if there is one. */
  function LastDot(s: string): (at: Option<nat>)
    ensures at.Some? ==> at.value < |s| && s[at.value] == '.'
  {
    if s == "" then None
    else if s[|s| - 1] == '.' then Some(|s| - 1)
    else LastDot(s[..|s| - 1])
  }

  /** Where the extension starts; a name that starts with its only dot has none. */
  function StemLength(filename: string): (n: nat)
    ensures n <= |filename|
  {
    var dot := LastDot(filename);
    if dot.Some? && dot.value > 0 then dot.value else |filename|
  }

  /** The name with a number before its extension. */
  function Numbered(filename: string, n: nat): string
  {
    filename[..StemLength(filename)] + (" (" + (Digits(n) + (")" + filename[StemLength(filename)..])))
  }

  lemma {:induction false} LastDotIs(s: string, at: nat)
    requires at < |s| && s[at] == '.' && forall i :: at < i < |s| ==> s[i] != '.'
    ensures LastDot(s) == Some(at)
  {
    if at < |s| - 1 {
      LastDotIs(s[..|s| - 1], at);
    }
  }

  lemma {:induction false} NoDot(s: string)
    requires forall i :: 0 <= i < |s| ==> s[i] != '.'
    ensures LastDot(s) == None
  {
    if s != "" {
      NoDot(s[..|s| - 1]);
    }
  }

  /** The number stands before the last dot, with a space and brackets. */
  lemma NumberedWithin(stem: string, extension: string, n: nat)
    requires stem != "" && '.' !in extension
    ensures Numbered(stem + "." + extension, n) == stem + " (" + Digits(n) + ")" + "." + extension
  {
    var filename := stem + "." + extension;
    assert filename[|stem|] == '.';
    forall i | |stem| < i < |filename| ensures filename[i] != '.' {
      assert filename[i] == extension[i - |stem| - 1];
    }
    LastDotIs(filename, |stem|);
    assert filename[..|stem|] == stem && filename[|stem|..] == "." + extension;
  }

  /** A name without a dot, or with none but at its start, has its number at the end. */
  lemma NumberedAfter(filename: string, n: nat)
    requires forall i :: 0 < i < |filename| ==> filename[i] != '.'
    ensures Numbered(filename, n) == filename + " (" + Digits(n) + ")"
  {
    if filename != "" && filename[0] == '.' {
      LastDotIs(filename, 0);
    } else {
      NoDot(filename);
    }
    assert filename[..|filename|] == filename && filename[|filename|..] == "";
  }

  lemma SameMiddle(before: string, a: string, b: string, after: string)
    requires before + (a + after) == before + (b + after)
    ensures a == b
  {
    var x, y := before + (a + after), before + (b + after);
    assert x[|before|..] == a + after && y[|before|..] == b + after;
    assert (a + after)[..|a|] == a && (b + after)[..|b|] == b;
  }

  /** Different numbers give different names. */
  lemma NumberedApart(filename: string, m: nat, n: nat)
    requires Numbered(filename, m) == Numbered(filename, n)
    ensures m == n
  {
    var stem, extension := filename[..StemLength(filename)], filename[StemLength(filename)..];
    NumberedParts(filename, m);
    NumberedParts(filename, n);
    SameMiddle(stem + " (", Digits(m), Digits(n), ")" + extension);
    DigitsRead(m);
    DigitsRead(n);
  }

  lemma NumberedParts(filename: string, n: nat)
    ensures Numbered(filename, n)
         == (filename[..StemLength(filename)] + " (") + (Digits(n) + (")" + filename[StemLength(filename)..]))
  {
    Associative(filename[..StemLength(filename)], " (", Digits(n) + (")" + filename[StemLength(filename)..]));
  }

  /** The names numbered from 2 up to `n`. */
  function NamesBelow(filename: string, n: nat): set<string>
  {
    if n <= 2 then {} else NamesBelow(filename, n - 1) + {Numbered(filename, n - 1)}
  }

  lemma {:induction false} NamesBelowHold(filename: string, n: nat, name: string)
    ensures name in NamesBelow(filename, n) <==> exists k :: 2 <= k < n && Numbered(filename, k) == name
  {
    if n > 2 {
      NamesBelowHold(filename, n - 1, name);
    }
  }

  /** As many names as numbers. */
  lemma {:induction false} NamesBelowCount(filename: string, n: nat)
    ensures |NamesBelow(filename, n)| == if n <= 2 then 0 else n - 2
  {
    if n > 2 {
      NamesBelowCount(filename, n - 1);
      var last := Numbered(filename, n - 1);
      NamesBelowHold(filename, n - 1, last);
      if last in NamesBelow(filename, n - 1) {
        var k :| 2 <= k < n - 1 && Numbered(filename, k) == last;
        NumberedApart(filename, k, n - 1);
        assert false;
      }
    }
  }

  lemma FewerThanTaken(filename: string, taken: set<string>, n: nat)
    requires filename in taken && filename !in NamesBelow(filename, n) && NamesBelow(filename, n) <= taken
    ensures n <= |taken| + 1
  {
    NamesBelowCount(filename, n);
    CountWithin(NamesBelow(filename, n), taken - {filename});
  }

  lemma {:induction false} CountWithin<T>(a: set<T>, b: set<T>)
    requires a <= b
    ensures |a| <= |b|
    decreases |a|
  {
    if a != {} {
      var x :| x in a;
      CountWithin(a - {x}, b - {x});
    }
  }

  lemma {:induction false} NeverItself(filename: string, n: nat)
    ensures filename !in NamesBelow(filename, n)
  {
    NamesBelowHold(filename, n, filename);
    forall k ensures |Numbered(filename, k)| > |filename| {
    }
  }

  /**
   The name itself when it is free, else the first of its numbered names that is; the search ends
   because fewer names are taken than there are numbers.
   */
  method FreeFilename(filename: string, taken: set<string>) returns (name: string)
    ensures name !in taken
    ensures filename !in taken ==> name == filename
    ensures filename in taken ==>
      exists n :: 2 <= n <= |taken| + 1 && name == Numbered(filename, n) && NamesBelow(filename, n) <= taken
  {
    if filename !in taken {
      return filename;
    }
    var n := 2;
    while Numbered(filename, n) in taken
      invariant n >= 2 && NamesBelow(filename, n) <= taken
      decreases |taken| + 1 - n
    {
      n := n + 1;
      NeverItself(filename, n);
      FewerThanTaken(filename, taken, n);
    }
    NeverItself(filename, n);
    FewerThanTaken(filename, taken, n);
    name := Numbered(filename, n);
  }

  /** The names of a message's uploads: no two are one, and an upload keeps its own unless an earlier one has it. */
  method NameUploads(filenames: seq<string>) returns (names: seq<string>)
    ensures |names| == |filenames| && Distinct(names)
    ensures forall i :: 0 <= i < |names| ==>
      names[i] == filenames[i] || (filenames[i] in names[..i] && exists n :: n >= 2 && names[i] == Numbered(filenames[i], n))
  {
    names := [];
    var taken: set<string> := {};
    for at := 0 to |filenames|
      invariant |names| == at && Distinct(names)
      invariant forall name :: name in taken <==> name in names
      invariant forall i :: 0 <= i < at ==>
        names[i] == filenames[i] || (filenames[i] in names[..i] && exists n :: n >= 2 && names[i] == Numbered(filenames[i], n))
    {
      var name := FreeFilename(filenames[at], taken);
      taken := taken + {name};
      ghost var before := names;
      names := names + [name];
      assert forall i :: 0 <= i <= at ==> names[..i] == before[..i];
    }
  }
}
