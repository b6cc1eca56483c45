/** The order of strings the mock sorts names and paths by. */
module Text {

  /** Ascending order: the first character that differs decides, and a prefix comes first. */
  predicate Less(a: string, b: string)
  {
    b != "" && (a == "" || a[0] < b[0] || (a[0] == b[0] && Less(a[1..], b[1..])))
  }

  /** `a` and `b` part after `k` characters: `a` is over there and `b` is not, or `a` has the lesser character. */
  ghost predicate PartsBelow(a: string, b: string, k: nat)
  {
    k <= |a| && k < |b| && a[..k] == b[..k] && (k == |a| || a[k] < b[k])
  }

  /** The order, without recursion. */
  lemma {:induction false} LessIff(a: string, b: string)
    ensures Less(a, b) <==> exists k: nat :: PartsBelow(a, b, k)
  {
    if b == "" {
    } else if a == "" || a[0] < b[0] {
      assert PartsBelow(a, b, 0);
    } else if a[0] == b[0] {
      LessIff(a[1..], b[1..]);
      if Less(a, b) {
        var k: nat :| PartsBelow(a[1..], b[1..], k);
        assert a[..k + 1] == [a[0]] + a[1..][..k] && b[..k + 1] == [b[0]] + b[1..][..k];
        assert PartsBelow(a, b, k + 1);
      }
      forall k: nat | PartsBelow(a, b, k) ensures Less(a, b) {
        assert k > 0;
        assert a[1..][..k - 1] == a[..k][1..] && b[1..][..k - 1] == b[..k][1..];
        assert PartsBelow(a[1..], b[1..], k - 1);
      }
    } else {
      forall k: nat ensures !PartsBelow(a, b, k) {
        if k > 0 && k <= |a| && k < |b| {
          assert a[..k][0] == a[0] && b[..k][0] == b[0];
        }
      }
    }
  }

  lemma {:induction false} LessIrreflexive(a: string)
    ensures !Less(a, a)
  {
    if a != "" {
      LessIrreflexive(a[1..]);
    }
  }

  lemma {:induction false} LessTransitive(a: string, b: string, c: string)
    requires Less(a, b) && Less(b, c)
    ensures Less(a, c)
  {
    if a != "" && a[0] == b[0] && b[0] == c[0] {
      LessTransitive(a[1..], b[1..], c[1..]);
    }
  }

  lemma {:induction false} LessTotal(a: string, b: string)
    ensures a == b || Less(a, b) || Less(b, a)
  {
    if a != "" && b != "" && a[0] == b[0] {
      LessTotal(a[1..], b[1..]);
      assert a == [a[0]] + a[1..] && b == [b[0]] + b[1..];
    }
  }

  lemma {:induction false} LessAsymmetric(a: string, b: string)
    requires Less(a, b)
    ensures !Less(b, a) && a != b
  {
    LessIrreflexive(a);
    if Less(b, a) {
      LessTransitive(a, b, a);
    }
  }

  /** A string comes before what it starts. */
  lemma {:induction false} PrefixLess(a: string, more: string)
    requires more != ""
    ensures Less(a, a + more)
  {
    if a != "" {
      PrefixLess(a[1..], more);
      assert (a + more)[1..] == a[1..] + more;
    } else {
      assert a + more == more;
    }
  }

  /** In ascending order, and none twice. */
  ghost predicate Ascending(s: seq<string>)
  {
    forall i, j :: 0 <= i < j < |s| ==> Less(s[i], s[j])
  }

  /** `s` lists the strings of `all`, sorted. */
  ghost predicate Lists(s: seq<string>, all: set<string>)
  {
    Ascending(s) && forall x :: x in s <==> x in all
  }

  /** `s` with `x` in its place. */
  function Insert(s: seq<string>, x: string): seq<string>
  {
    if s == [] then [x]
    else if Less(x, s[0]) then [x] + s
    else [s[0]] + Insert(s[1..], x)
  }

  lemma {:induction false} InsertLists(s: seq<string>, all: set<string>, x: string)
    requires Lists(s, all) && x !in all
    ensures Lists(Insert(s, x), all + {x})
    decreases |s|
  {
    if s == [] {
    } else if Less(x, s[0]) {
      forall j | 0 <= j < |s| ensures Less(x, s[j]) {
        if j > 0 {
          LessTransitive(x, s[0], s[j]);
        }
      }
    } else {
      LessTotal(x, s[0]);
      LessIrreflexive(s[0]);
      var rest := all - {s[0]};
      forall y ensures y in s[1..] <==> y in rest {
        if y in s[1..] {
          var k :| 1 <= k < |s| && s[k] == y;
          assert Less(s[0], s[k]);
          assert y in s;
        }
        if y in rest {
          var k :| 0 <= k < |s| && s[k] == y;
        }
      }
      InsertLists(s[1..], rest, x);
      var more := Insert(s[1..], x);
      forall j | 0 <= j < |more| ensures Less(s[0], more[j]) {
        assert more[j] in rest + {x};
        if more[j] != x {
          assert more[j] in s[1..];
        }
      }
      assert all + {x} == {s[0]} + (rest + {x});
    }
  }

  /** The strings of a set, sorted. */
  method Sort(all: set<string>) returns (s: seq<string>)
    ensures Lists(s, all)
  {
    s := [];
    var rest := all;
    while rest != {}
      invariant rest <= all && Lists(s, all - rest)
      decreases rest
    {
      var x :| x in rest;
      InsertLists(s, all - rest, x);
      s := Insert(s, x);
      rest := rest - {x};
      assert (all - (rest + {x})) + {x} == all - rest;
    }
  }
}
