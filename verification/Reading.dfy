/** Taking text apart: at a separator, at a character, and into numbers. */
module Reading {
  import opened Util

  /** The pieces of `s` between each `sep`. */
  function Split(s: string, sep: char): (parts: seq<string>)
    ensures parts != []
  {
    if s == "" then [""]
    else if s[0] == sep then [""] + Split(s[1..], sep)
    else
      var rest := Split(s[1..], sep);
      [[s[0]] + rest[0]] + rest[1..]
  }

  function Join(parts: seq<string>, sep: char): string
  {
    if parts == [] then ""
    else if |parts| == 1 then parts[0] else parts[0] + [sep] + Join(parts[1..], sep)
  }

  lemma JoinCons(first: string, rest: seq<string>, sep: char)
    requires rest != []
    ensures Join([first] + rest, sep) == first + [sep] + Join(rest, sep)
  {
    assert ([first] + rest)[1..] == rest;
  }

  lemma JoinPush(c: char, parts: seq<string>, sep: char)
    requires parts != []
    ensures Join([[c] + parts[0]] + parts[1..], sep) == [c] + Join(parts, sep)
  {
    if |parts| > 1 {
      JoinCons([c] + parts[0], parts[1..], sep);
      assert parts == [parts[0]] + parts[1..];
      JoinCons(parts[0], parts[1..], sep);
    }
  }

  lemma {:induction false} JoinSplit(s: string, sep: char)
    ensures Join(Split(s, sep), sep) == s
  {
    if s != "" {
      JoinSplit(s[1..], sep);
      var rest := Split(s[1..], sep);
      if s[0] == sep {
        JoinCons("", rest, sep);
      } else {
        JoinPush(s[0], rest, sep);
      }
    }
  }

  lemma {:induction false} SplitNone(sep: char, s: string)
    requires sep !in s
    ensures Split(s, sep) == [s]
  {
    if s != "" {
      assert s[0] in s;
      SplitNone(sep, s[1..]);
      assert [s[0]] + s[1..] == s;
    }
  }

  lemma {:induction false} SplitAt(sep: char, first: string, rest: string)
    requires sep !in first
    ensures Split(first + [sep] + rest, sep) == [first] + Split(rest, sep)
  {
    var s := first + [sep] + rest;
    if first == "" {
      assert s[1..] == rest;
    } else {
      assert s[1..] == first[1..] + [sep] + rest && s[0] == first[0];
      SplitAt(sep, first[1..], rest);
      assert [first[0]] + first[1..] == first;
    }
  }

  /** No piece holds a separator, or any character the text does not. */
  lemma {:induction false} SplitLacks(s: string, sep: char, c: char, part: string)
    requires part in Split(s, sep) && (c == sep || c !in s)
    ensures c !in part
  {
    if s != "" {
      assert s == [s[0]] + s[1..];
      var rest := Split(s[1..], sep);
      if s[0] == sep {
        if part != "" {
          SplitLacks(s[1..], sep, c, part);
        }
      } else {
        assert s[0] in s;
        SplitLacks(s[1..], sep, c, rest[0]);
        if part in rest[1..] {
          SplitLacks(s[1..], sep, c, part);
        }
      }
    }
  }

  /** Pieces joined come apart again. */
  lemma {:induction false} SplitJoin(parts: seq<string>, sep: char)
    requires parts != [] && forall part :: part in parts ==> sep !in part
    ensures Split(Join(parts, sep), sep) == parts
  {
    assert parts[0] in parts;
    if |parts| == 1 {
      SplitNone(sep, parts[0]);
    } else {
      forall part | part in parts[1..] ensures sep !in part {
        assert part in parts;
      }
      SplitJoin(parts[1..], sep);
      SplitAt(sep, parts[0], Join(parts[1..], sep));
      assert parts == [parts[0]] + parts[1..];
    }
  }

  /** Where `c` first occurs in `s`. */
  function IndexOf(c: char, s: string): (at: Option<nat>)
    ensures at.Some? ==> at.value < |s| && s[at.value] == c
  {
    if s == "" then None
    else if s[0] == c then Some(0)
    else
      var rest := IndexOf(c, s[1..]);
      if rest.None? then None else Some(rest.value + 1)
  }

  lemma {:induction false} FirstOccurrence(c: char, s: string, rest: string)
    requires c !in s
    ensures IndexOf(c, s + [c] + rest) == Some(|s|)
  {
    if s != "" {
      assert s[0] in s;
      FirstOccurrence(c, s[1..], rest);
      assert (s + [c] + rest)[1..] == s[1..] + [c] + rest;
    }
  }

  /** Two texts around a character. */
  lemma Parted(a: string, c: char, b: string)
    ensures (a + [c] + b)[..|a|] == a && (a + [c] + b)[|a| + 1..] == b
  {
  }

  function Digits(n: nat): string
  {
    if n < 10 then [Digit(n)] else Digits(n / 10) + [Digit(n % 10)]
  }

  function Digit(n: nat): char
    requires n < 10
  {
    ['0', '1', '2', '3', '4', '5', '6', '7', '8', '9'][n]
  }

  predicate IsDigit(c: char)
  {
    '0' <= c <= '9'
  }

  function DigitValue(c: char): nat
    requires IsDigit(c)
  {
    (c - '0') as nat
  }

  /** The number a string of digits writes. */
  function Number(s: string): Option<nat>
  {
    if s == "" then Some(0)
    else if !IsDigit(s[|s| - 1]) then None
    else
      var rest := Number(s[..|s| - 1]);
      if rest.None? then None else Some(rest.value * 10 + DigitValue(s[|s| - 1]))
  }

  /** What reads as a number is digits alone. */
  lemma {:induction false} NumberIff(s: string)
    ensures Number(s).Some? <==> forall i :: 0 <= i < |s| ==> '0' <= s[i] <= '9'
  {
    if s != "" {
      NumberIff(s[..|s| - 1]);
      assert forall i :: 0 <= i < |s| - 1 ==> s[..|s| - 1][i] == s[i];
    }
  }

  lemma DigitIs(n: nat)
    requires n < 10
    ensures IsDigit(Digit(n)) && DigitValue(Digit(n)) == n
  {
  }

  lemma NumberMore(s: string, c: char)
    requires IsDigit(c) && Number(s).Some?
    ensures Number(s + [c]) == Some(Number(s).value * 10 + DigitValue(c))
  {
    assert (s + [c])[..|s|] == s;
  }

  lemma {:induction false} DigitsOnly(n: nat)
    ensures forall c :: c in Digits(n) ==> IsDigit(c)
  {
    DigitIs(n % 10);
    if n >= 10 {
      DigitsOnly(n / 10);
    }
  }

  lemma TenParts(n: nat)
    ensures n / 10 * 10 + n % 10 == n
  {
  }

  lemma DigitsReadMore(s: string, tens: nat, units: nat)
    requires Number(s) == Some(tens) && units < 10
    ensures Number(s + [Digit(units)]) == Some(tens * 10 + units)
  {
    DigitIs(units);
    NumberMore(s, Digit(units));
  }

  /** Zeros before a number change nothing. */
  lemma {:induction false} LeadingZero(s: string)
    ensures Number("0" + s) == Number(s)
  {
    if s == "" {
      assert ("0" + s)[..0] == "";
    } else {
      LeadingZero(s[..|s| - 1]);
      assert ("0" + s)[..|s|] == "0" + s[..|s| - 1];
    }
  }

  /** A number is written without zeros before it. */
  lemma {:induction false} DigitsShort(n: nat)
    ensures Digits(n) != "" && (n > 0 ==> Digits(n)[0] != '0')
  {
    if n >= 10 {
      DigitsShort(n / 10);
    }
  }

  /** A number reads back from its digits. */
  lemma {:induction false} DigitsRead(n: nat)
    ensures Digits(n) != "" && Number(Digits(n)) == Some(n)
  {
    if n >= 10 {
      DigitsRead(n / 10);
      DigitsReadMore(Digits(n / 10), n / 10, n % 10);
      TenParts(n);
    } else {
      DigitsReadMore("", 0, n);
      assert "" + [Digit(n)] == [Digit(n)];
    }
  }
}
