/**
 How a scenario streams a text: cut into pieces at word breaks, one delta frame a piece, which
 the turn journal joins again.
 */
module Pieces {
  import opened Util
  import opened Protocol
  import opened TurnJournal

  const PIECE_CHARS := 28

  predicate IsSpace(c: char)
  {
    c == ' ' || c == '\t' || c == '\n' || c == '\r' || c == '\U{0B}' || c == '\U{0C}' || c == '\U{A0}'
  }

  /** How many characters `s` starts with that are spaces, or that are not. */
  function RunLength(s: string, spaces: bool): (n: nat)
    ensures n <= |s|
  {
    if s != "" && IsSpace(s[0]) == spaces then 1 + RunLength(s[1..], spaces) else 0
  }

  function TrimStart(s: string): string
  {
    s[RunLength(s, true)..]
  }

  /** The length of the word, with the spaces after it, that `s` starts with. */
  function WordLength(s: string): (n: nat)
    ensures n <= |s|
  {
    var letters := RunLength(s, false);
    letters + RunLength(s[letters..], true)
  }

  /** The words of `text`, each with the spaces after it. */
  function Words(text: string): seq<string>
    decreases |text|
  {
    var t := TrimStart(text);
    if t == "" || WordLength(t) == 0 then []
    else [t[..WordLength(t)]] + Words(t[WordLength(t)..])
  }

  /** One word and the spaces after it. */
  ghost predicate IsWord(s: string)
  {
    s != "" && !IsSpace(s[0]) && WordLength(s) == |s|
  }

  /** No whitespace. */
  ghost predicate AllLetters(s: string)
  {
    forall i :: 0 <= i < |s| ==> s[i] !in " \t\n\r\U{0B}\U{0C}\U{A0}"
  }

  ghost predicate AllSpaces(s: string)
  {
    forall i :: 0 <= i < |s| ==> s[i] in " \t\n\r\U{0B}\U{0C}\U{A0}"
  }

  lemma SpaceIff(c: char)
    ensures IsSpace(c) <==> c in " \t\n\r\U{0B}\U{0C}\U{A0}"
  {
    var all := " \t\n\r\U{0B}\U{0C}\U{A0}";
    assert all[0] == ' ' && all[1] == '\t' && all[2] == '\n' && all[3] == '\r';
    assert all[4] == '\U{0B}' && all[5] == '\U{0C}' && all[6] == '\U{A0}';
  }

  /** A word is characters without whitespace, at least one, and then whitespace. */
  lemma {:induction false} IsWordIff(s: string)
    ensures IsWord(s) <==> exists k :: 0 < k <= |s| && AllLetters(s[..k]) && AllSpaces(s[k..])
  {
    forall i | 0 <= i < |s| ensures IsSpace(s[i]) <==> s[i] in " \t\n\r\U{0B}\U{0C}\U{A0}" {
      SpaceIff(s[i]);
    }
    if IsWord(s) {
      var letters := RunLength(s, false);
      RunLengthIs(s, false);
      RunLengthIs(s[letters..], true);
      assert AllLetters(s[..letters]) && AllSpaces(s[letters..]);
    }
    forall k | 0 < k <= |s| && AllLetters(s[..k]) && AllSpaces(s[k..]) ensures IsWord(s) {
      assert s[..k][0] == s[0];
      assert forall i :: 0 <= i < k ==> s[..k][i] == s[i];
      assert forall i :: k <= i < |s| ==> s[k..][i - k] == s[i];
      RunLengthOf(s, false, k);
      RunLengthOf(s[k..], true, |s| - k);
    }
  }

  /** A run as far as it goes. */
  lemma {:induction false} RunLengthOf(s: string, spaces: bool, n: nat)
    requires n <= |s| && (forall i :: 0 <= i < n ==> IsSpace(s[i]) == spaces) && (n < |s| ==> IsSpace(s[n]) != spaces)
    ensures RunLength(s, spaces) == n
  {
    if n > 0 {
      RunLengthOf(s[1..], spaces, n - 1);
    }
  }

  function Concat(pieces: seq<string>): string
  {
    if pieces == [] then "" else pieces[0] + Concat(pieces[1..])
  }

  /** The pieces of what is left: `piece` so far, then `words`. */
  function Pack(piece: string, words: seq<string>): seq<string>
    decreases |words|
  {
    if words == [] then (if piece == "" then [] else [piece])
    else if piece != "" && |piece| + |words[0]| > PIECE_CHARS then [piece] + Pack(words[0], words[1..])
    else Pack(piece + words[0], words[1..])
  }

  function PiecesOf(text: string): seq<string>
  {
    Pack("", Words(text))
  }

  method CutPieces(text: string) returns (out: seq<string>)
    ensures out == PiecesOf(text)
  {
    out := [];
    var piece := "";
    var words := Words(text);
    var i := 0;
    while i < |words|
      invariant i <= |words|
      invariant out + Pack(piece, words[i..]) == PiecesOf(text)
    {
      var word := words[i];
      assert words[i..][1..] == words[i + 1..];
      if piece != "" && |piece| + |word| > PIECE_CHARS {
        Associative(out, [piece], Pack(word, words[i + 1..]));
        out := out + [piece];
        piece := "";
        assert "" + word == word;
      }
      piece := piece + word;
      i := i + 1;
    }
    if piece != "" {
      out := out + [piece];
    }
  }

  // ---- The words and pieces of a text ------------------------------------------------------

  lemma {:induction false} RunLengthIs(s: string, spaces: bool)
    ensures var n := RunLength(s, spaces);
            && (forall k :: 0 <= k < n ==> IsSpace(s[k]) == spaces)
            && (n < |s| ==> IsSpace(s[n]) != spaces)
  {
    if s != "" && IsSpace(s[0]) == spaces {
      RunLengthIs(s[1..], spaces);
    }
  }

  /** A run that stops inside `s` stops there whatever comes after. */
  lemma {:induction false} RunLengthPrefix(s: string, n: nat, spaces: bool)
    requires RunLength(s, spaces) <= n <= |s|
    ensures RunLength(s[..n], spaces) == RunLength(s, spaces)
  {
    if n > 0 && IsSpace(s[0]) == spaces {
      RunLengthPrefix(s[1..], n - 1, spaces);
      assert s[..n][1..] == s[1..][..n - 1];
    }
  }

  lemma FirstWordIsWord(t: string)
    requires t != "" && !IsSpace(t[0])
    ensures WordLength(t) > 0 && IsWord(t[..WordLength(t)])
  {
    var n, letters := WordLength(t), RunLength(t, false);
    RunLengthPrefix(t, n, false);
    RunLengthPrefix(t[letters..], n - letters, true);
    assert t[..n][letters..] == t[letters..][..n - letters];
  }

  /** After a word and its spaces comes the next word, or nothing. */
  lemma AfterWord(t: string)
    ensures var rest := t[WordLength(t)..];
            rest != "" && t != "" && !IsSpace(t[0]) ==> !IsSpace(rest[0])
  {
    var letters := RunLength(t, false);
    RunLengthIs(t, false);
    RunLengthIs(t[letters..], true);
    assert t[WordLength(t)..] == t[letters..][RunLength(t[letters..], true)..];
  }

  /** The words of a text are words, and make up the text but for its leading spaces. */
  lemma {:induction false} WordsAre(text: string)
    ensures (forall w :: w in Words(text) ==> IsWord(w)) && Concat(Words(text)) == TrimStart(text)
    decreases |text|
  {
    var t := TrimStart(text);
    RunLengthIs(text, true);
    if t != "" {
      FirstWordIsWord(t);
      AfterWord(t);
      var rest := t[WordLength(t)..];
      assert rest == "" || RunLength(rest, true) == 0;
      WordsAre(rest);
      assert TrimStart(rest) == rest;
      assert Words(text) == [t[..WordLength(t)]] + Words(rest);
      assert t == t[..WordLength(t)] + rest;
    }
  }

  lemma {:induction false} PackConcat(piece: string, words: seq<string>)
    ensures Concat(Pack(piece, words)) == piece + Concat(words)
    decreases |words|
  {
    if words == [] {
      assert piece != "" ==> Concat([piece]) == piece + Concat([]);
    } else if piece != "" && |piece| + |words[0]| > PIECE_CHARS {
      PackConcat(words[0], words[1..]);
      var rest := Pack(words[0], words[1..]);
      assert ([piece] + rest)[1..] == rest;
    } else {
      PackConcat(piece + words[0], words[1..]);
      Associative(piece, words[0], Concat(words[1..]));
    }
  }

  /** The pieces together are the text without its leading spaces. */
  lemma PiecesConcat(text: string)
    ensures Concat(PiecesOf(text)) == TrimStart(text)
  {
    WordsAre(text);
    PackConcat("", Words(text));
  }

  /** A piece is one word, or is no longer than a piece should be; none is empty. */
  ghost predicate PieceOk(piece: string)
  {
    piece != "" && !IsSpace(piece[0]) && (|piece| > 28 ==> IsWord(piece))
  }

  lemma {:induction false} PackOk(piece: string, words: seq<string>)
    requires (forall w :: w in words ==> IsWord(w)) && (piece == "" || PieceOk(piece))
    ensures forall p :: p in Pack(piece, words) ==> PieceOk(p)
    ensures Pack(piece, words) != [] && piece != "" ==> piece <= Pack(piece, words)[0]
    ensures piece != "" ==> Pack(piece, words) != []
    decreases |words|
  {
    if words != [] {
      assert IsWord(words[0]) && forall w :: w in words[1..] ==> w in words;
      if piece != "" && |piece| + |words[0]| > PIECE_CHARS {
        PackOk(words[0], words[1..]);
      } else {
        assert piece == "" ==> piece + words[0] == words[0];
        PackOk(piece + words[0], words[1..]);
      }
    }
  }

  /** Every piece is one word with its spaces, or has at most 28 characters. */
  lemma PiecesOk(text: string)
    ensures forall p :: p in PiecesOf(text) ==> PieceOk(p)
  {
    WordsAre(text);
    PackOk("", Words(text));
  }

  /** The next word would have made each piece but the last too long. */
  ghost predicate Greedy(pieces: seq<string>)
  {
    forall i :: 0 <= i < |pieces| - 1 ==> |pieces[i]| + WordLength(pieces[i + 1]) > 28
  }

  lemma {:induction false} RunStops(s: string, t: string, spaces: bool)
    requires RunLength(s, spaces) < |s|
    ensures RunLength(s + t, spaces) == RunLength(s, spaces)
  {
    if IsSpace(s[0]) == spaces {
      RunStops(s[1..], t, spaces);
      assert (s + t)[1..] == s[1..] + t;
    }
  }

  lemma {:induction false} WholeRun(s: string, t: string)
    requires RunLength(s, true) == |s| && (t == "" || !IsSpace(t[0]))
    ensures RunLength(s + t, true) == |s|
  {
    if s == "" {
      assert s + t == t;
    } else {
      WholeRun(s[1..], t);
      assert (s + t)[1..] == s[1..] + t;
    }
  }

  predicate EndsInSpace(s: string)
  {
    s != "" && IsSpace(s[|s| - 1])
  }

  /** A word that ends in spaces is as long whatever word comes after it. */
  lemma WordLengthKept(piece: string, next: string)
    requires EndsInSpace(piece) && next != "" && !IsSpace(next[0])
    ensures WordLength(piece + next) == WordLength(piece)
  {
    var letters := RunLength(piece, false);
    RunLengthIs(piece, false);
    RunStops(piece, next, false);
    var tail := piece[letters..];
    assert (piece + next)[letters..] == tail + next;
    if RunLength(tail, true) < |tail| {
      RunStops(tail, next, true);
    } else {
      WholeRun(tail, next);
    }
  }

  /** All words but the last end in spaces. */
  lemma {:induction false} WordsSeparated(text: string)
    ensures forall i :: 0 <= i < |Words(text)| - 1 ==> EndsInSpace(Words(text)[i])
    decreases |text|
  {
    var t := TrimStart(text);
    RunLengthIs(text, true);
    if t != "" {
      var n, letters := WordLength(t), RunLength(t, false);
      FirstWordIsWord(t);
      AfterWord(t);
      WordsSeparated(t[n..]);
      RunLengthIs(t, false);
      RunLengthIs(t[letters..], true);
      assert Words(text) == [t[..n]] + Words(t[n..]);
      if t[n..] != "" {
        assert t[n - 1] == t[letters..][n - 1 - letters];
      }
    }
  }

  lemma {:induction false} PackGreedy(piece: string, words: seq<string>)
    requires forall w :: w in words ==> IsWord(w)
    requires forall i :: 0 <= i < |words| - 1 ==> EndsInSpace(words[i])
    requires piece != "" && words != [] ==> EndsInSpace(piece)
    ensures Greedy(Pack(piece, words))
    ensures piece != "" ==> Pack(piece, words) != [] && WordLength(Pack(piece, words)[0]) == WordLength(piece)
    decreases |words|
  {
    if words != [] {
      var word := words[0];
      assert IsWord(word) && forall w :: w in words[1..] ==> w in words;
      assert |words| > 1 ==> EndsInSpace(word);
      if piece != "" && |piece| + |word| > PIECE_CHARS {
        PackGreedy(word, words[1..]);
      } else {
        if piece != "" {
          WordLengthKept(piece, word);
        } else {
          assert piece + word == word;
        }
        PackGreedy(piece + word, words[1..]);
      }
    }
  }

  /** No piece but the last could have taken the next word too. */
  lemma PiecesGreedy(text: string)
    ensures Greedy(PiecesOf(text))
  {
    WordsAre(text);
    WordsSeparated(text);
    PackGreedy("", Words(text));
  }

  // ---- Streaming a text --------------------------------------------------------------------

  function DeltaFrames(replyTo: string, kind: DeltaKind, call: nat, pieces: seq<string>): seq<Frame>
  {
    if pieces == [] then []
    else [Delta(kind, replyTo, call, pieces[0])] + DeltaFrames(replyTo, kind, call, pieces[1..])
  }

  /** The turn after each of `frames` is broadcast, the first at `ats[0]`. */
  function RecordStream(turn: Option<Turn>, frames: seq<Frame>, ats: seq<nat>): Option<Turn>
    requires |ats| == |frames|
    decreases |frames|
  {
    if frames == [] then turn else RecordStream(RecordTurn(turn, frames[0], ats[0]), frames[1..], ats[1..])
  }

  lemma {:induction false} StreamJoins(turn: Turn, kept: seq<Entry>, at: nat, kind: DeltaKind, call: nat, text: string,
                                       pieces: seq<string>, ats: seq<nat>)
    requires |ats| == |DeltaFrames(turn.replyTo, kind, call, pieces)|
    requires turn.frames == kept + [Entry(at, Delta(kind, turn.replyTo, call, text))]
    ensures RecordStream(Some(turn), DeltaFrames(turn.replyTo, kind, call, pieces), ats)
         == Some(turn.(frames := kept + [Entry(at, Delta(kind, turn.replyTo, call, text + Concat(pieces)))]))
    decreases |pieces|
  {
    if pieces == [] {
      assert text + "" == text;
    } else {
      var frames := DeltaFrames(turn.replyTo, kind, call, pieces);
      var joined := Entry(at, Delta(kind, turn.replyTo, call, text + pieces[0]));
      assert turn.frames[..|turn.frames| - 1] == kept;
      assert RecordTurn(Some(turn), frames[0], ats[0]) == Some(turn.(frames := kept + [joined]));
      assert frames[1..] == DeltaFrames(turn.replyTo, kind, call, pieces[1..]);
      StreamJoins(turn.(frames := kept + [joined]), kept, at, kind, call, text + pieces[0], pieces[1..], ats[1..]);
      Associative(text, pieces[0], Concat(pieces[1..]));
    }
  }

  /**
   A text that is not blank, streamed without interruption after anything but its own stream,
   stands in the journal as one delta holding it without its leading spaces.
   */
  lemma StreamedTextIsOneDelta(turn: Turn, kind: DeltaKind, call: nat, text: string, ats: seq<nat>)
    requires TrimStart(text) != ""
    requires |ats| == |DeltaFrames(turn.replyTo, kind, call, PiecesOf(text))|
    requires turn.frames != [] ==>
      !Continues(turn.frames[|turn.frames| - 1].frame, Delta(kind, turn.replyTo, call, ""))
    ensures ats != []
    ensures RecordStream(Some(turn), DeltaFrames(turn.replyTo, kind, call, PiecesOf(text)), ats)
         == Some(turn.(frames := turn.frames + [Entry(ats[0], Delta(kind, turn.replyTo, call, TrimStart(text)))]))
  {
    var pieces := PiecesOf(text);
    PiecesConcat(text);
    assert pieces != [];
    var frames := DeltaFrames(turn.replyTo, kind, call, pieces);
    var first := Entry(ats[0], Delta(kind, turn.replyTo, call, pieces[0]));
    var started := turn.(frames := turn.frames + [first]);
    assert RecordTurn(Some(turn), frames[0], ats[0]) == Some(started);
    assert frames[1..] == DeltaFrames(turn.replyTo, kind, call, pieces[1..]);
    StreamJoins(started, turn.frames, ats[0], kind, call, pieces[0], pieces[1..], ats[1..]);
  }
}
