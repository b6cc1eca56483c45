/**
 The pages of the thread list: a cursor names the last thread of a page, and the next page is
 what comes after it in the order of the list, newest first.
 */
module MailPages {
  import opened Util
  import opened MailRefs
  import opened Reading

  /** What a thread is listed by: the time of its latest message, and its id. */
  datatype Key = Key(ms: int, threadId: string)

  datatype Row<T> = Row(key: Key, summary: T)

  datatype Page<T> = Page(rows: seq<Row<T>>, next: Option<string>)

  // ---- Cursors -----------------------------------------------------------------------------

  function NumberOf(ms: int): string
  {
    if ms < 0 then "-" + Digits(-ms) else Digits(ms)
  }

  function RenderCursor(key: Key): string
  {
    NumberOf(key.ms) + ":" + key.threadId
  }

  /** The characters `.` does not match in a cursor's pattern. */
  predicate EndsLine(c: char)
  {
    c == '\n' || c == '\r' || c == '\U{2028}' || c == '\U{2029}'
  }

  predicate OneLine(s: string)
  {
    forall i :: 0 <= i < |s| ==> !EndsLine(s[i])
  }

  /** Reads back a rendered cursor; none for text no list hands out. */
  function ParseCursor(raw: string): Option<Key>
  {
    var colon := IndexOf(':', raw);
    if colon.None? then None else FromParts(raw[..colon.value], raw[colon.value + 1..])
  }

  function FromParts(number: string, threadId: string): Option<Key>
  {
    var negative := number != "" && number[0] == '-';
    var digits := if negative then number[1..] else number;
    var ms := Number(digits);
    var size: int := if ms.None? then 0 else ms.value;
    if digits == "" || ms.None? || threadId == "" || !OneLine(threadId) || ParseRef(threadId).None? then None
    else Some(Key(if negative then -size else size, threadId))
  }

  /** The thread's id is a ref on one line. */
  predicate Sound(key: Key)
  {
    ParseRef(key.threadId).Some? && OneLine(key.threadId)
  }

  /** A line ends at a line feed, a carriage return, and the two separators of Unicode. */
  lemma OneLineIff(s: string)
    ensures OneLine(s) <==> '\n' !in s && '\r' !in s && '\U{2028}' !in s && '\U{2029}' !in s
  {
  }

  /** A cursor's text: the time in milliseconds, which can be before the epoch, a colon, and the thread. */
  lemma CursorText(key: Key)
    ensures key.ms >= 0 ==> RenderCursor(key) == Digits(key.ms) + ":" + key.threadId
    ensures key.ms < 0 ==> RenderCursor(key) == "-" + Digits(-key.ms) + ":" + key.threadId
  {
  }

  /** A cursor's text splits into the parts it was put together from. */
  lemma CursorParts(number: string, threadId: string)
    requires ':' !in number
    ensures ParseCursor(number + ":" + threadId) == FromParts(number, threadId)
  {
    FirstOccurrence(':', number, threadId);
    Parted(number, ':', threadId);
  }

  lemma NumberReadsBack(ms: int, threadId: string)
    ensures ':' !in NumberOf(ms)
    ensures FromParts(NumberOf(ms), threadId) == if Sound(Key(ms, threadId)) then Some(Key(ms, threadId)) else None
  {
    var digits := Digits(if ms < 0 then -ms else ms);
    DigitsRead(if ms < 0 then -ms else ms);
    DigitsOnly(if ms < 0 then -ms else ms);
    assert digits[0] in digits;
    if ms < 0 {
      assert ("-" + digits)[1..] == digits;
    }
  }

  /** A cursor reads back as what it was rendered from exactly when the thread's id is a ref on one line. */
  lemma CursorRoundTrip(key: Key)
    ensures ParseCursor(RenderCursor(key)) == if Sound(key) then Some(key) else None
  {
    NumberReadsBack(key.ms, key.threadId);
    CursorParts(NumberOf(key.ms), key.threadId);
  }

  // ---- The order of the list ---------------------------------------------------------------

  /** Times compare in reverse, and refs as `CompareRefs` has them. */
  function CompareKeys(a: Key, b: Key): int
  {
    if a.ms != b.ms then (if a.ms < b.ms then 1 else -1) else CompareRefs(a.threadId, b.threadId)
  }

  /** On threads whose ids are refs, the order is strict and total. */
  lemma CompareKeysTotal(a: Key, b: Key)
    requires Sound(a) && Sound(b)
    ensures CompareKeys(a, b) < 0 <==> CompareKeys(b, a) > 0
    ensures CompareKeys(a, b) == 0 <==> a == b
  {
    CompareRefsTotal(a.threadId, b.threadId);
  }

  lemma CompareKeysTransitive(a: Key, b: Key, c: Key)
    requires Sound(a) && Sound(b) && Sound(c) && CompareKeys(a, b) < 0 && CompareKeys(b, c) < 0
    ensures CompareKeys(a, c) < 0
  {
    if a.ms == b.ms == c.ms {
      CompareRefsTransitive(a.threadId, b.threadId, c.threadId);
    }
  }

  /** The list shows the thread with the later message first, and at one time the one with the ref before. */
  lemma CompareKeysIs(a: Key, b: Key)
    requires Sound(a) && Sound(b)
    ensures CompareKeys(a, b) < 0 <==> a.ms > b.ms || (a.ms == b.ms && RefBefore(a.threadId, b.threadId))
  {
    CompareRefsIs(a.threadId, b.threadId);
  }

  /** A list in order, of threads whose ids are refs. */
  ghost predicate Listed<T>(rows: seq<Row<T>>)
  {
    && (forall i :: 0 <= i < |rows| ==> Sound(rows[i].key))
    && (forall i, j :: 0 <= i < j < |rows| ==> CompareKeys(rows[i].key, rows[j].key) < 0)
  }

  // ---- A page ------------------------------------------------------------------------------

  /** The rows after a cursor. */
  function RowsAfter<T>(rows: seq<Row<T>>, before: Key): seq<Row<T>>
  {
    if rows == [] then []
    else (if CompareKeys(rows[0].key, before) > 0 then [rows[0]] else []) + RowsAfter(rows[1..], before)
  }

  function Remaining<T>(rows: seq<Row<T>>, before: Option<Key>): seq<Row<T>>
  {
    if before.None? then rows else RowsAfter(rows, before.value)
  }

  /** The page the list answers, or `None` for a cursor it refuses. */
  function ListPage<T>(rows: seq<Row<T>>, cursor: Option<string>, limit: nat): Option<Page<T>>
  {
    var before := ReadCursor(cursor);
    if before.None? then None else Some(PageAfter(rows, before.value, limit))
  }

  /** The place a request starts at: the front for no cursor; `None` for a cursor it refuses. */
  function ReadCursor(cursor: Option<string>): Option<Option<Key>>
  {
    if cursor.None? then Some(None)
    else
      var key := ParseCursor(cursor.value);
      if key.None? then None else Some(key)
  }

  function PageAfter<T>(rows: seq<Row<T>>, before: Option<Key>, limit: nat): Page<T>
  {
    var after := Remaining(rows, before);
    var page := if |after| < limit then after else after[..limit];
    Page(page, if |after| > limit && page != [] then Some(RenderCursor(page[|page| - 1].key)) else None)
  }

  /** Rows that all come after a cursor. */
  lemma {:induction false} AllAfter<T>(rows: seq<Row<T>>, before: Key)
    requires forall i :: 0 <= i < |rows| ==> CompareKeys(rows[i].key, before) > 0
    ensures RowsAfter(rows, before) == rows
  {
    if rows != [] {
      AllAfter(rows[1..], before);
      assert rows == [rows[0]] + rows[1..];
    }
  }

  /** After the cursor of a row comes what is listed after it. */
  lemma {:induction false} AfterRow<T>(rows: seq<Row<T>>, at: nat)
    requires Listed(rows) && at < |rows|
    ensures RowsAfter(rows, rows[at].key) == rows[at + 1..]
  {
    CompareKeysTotal(rows[0].key, rows[at].key);
    if at == 0 {
      forall i | 0 <= i < |rows[1..]| ensures CompareKeys(rows[1..][i].key, rows[0].key) > 0 {
        CompareKeysTotal(rows[0].key, rows[i + 1].key);
      }
      AllAfter(rows[1..], rows[0].key);
    } else {
      AfterRow(rows[1..], at - 1);
      assert CompareKeys(rows[0].key, rows[at].key) < 0;
      assert rows[1..][at..] == rows[at + 1..];
    }
  }

  lemma AfterRowOfEnd<T>(rows: seq<Row<T>>, start: nat, at: nat)
    requires Listed(rows) && start + at < |rows|
    ensures RowsAfter(rows, rows[start..][at].key) == rows[start..][at + 1..]
  {
    AfterRow(rows, start + at);
  }

  /** Among the rows after one cursor, those after a later row are what is listed after it. */
  lemma AfterRowOfRest<T>(rows: seq<Row<T>>, before: Option<Key>, at: nat)
    requires Listed(rows) && at < |Remaining(rows, before)|
    requires before.Some? ==> Sound(before.value)
    ensures RowsAfter(rows, Remaining(rows, before)[at].key) == Remaining(rows, before)[at + 1..]
  {
    if before.None? {
      AfterRow(rows, at);
    } else {
      var start := Suffix(rows, before.value);
      AfterRowOfEnd(rows, start, at);
    }
  }

  /** The rows after a cursor are the end of the list. */
  lemma {:induction false} Suffix<T>(rows: seq<Row<T>>, before: Key) returns (start: nat)
    requires Listed(rows) && Sound(before)
    ensures start <= |rows| && RowsAfter(rows, before) == rows[start..]
  {
    if rows == [] {
      start := 0;
    } else {
      CompareKeysTotal(rows[0].key, before);
      if CompareKeys(rows[0].key, before) > 0 {
        forall i | 0 <= i < |rows| ensures CompareKeys(rows[i].key, before) > 0 {
          CompareKeysTotal(rows[i].key, before);
          if i > 0 {
            CompareKeysTransitive(before, rows[0].key, rows[i].key);
          }
        }
        AllAfter(rows, before);
        start := 0;
      } else {
        var rest := Suffix(rows[1..], before);
        start := rest + 1;
      }
    }
  }

  // ---- Following the pages -----------------------------------------------------------------

  /** The rows of the pages from `cursor` on, each asked of the list as it is by then, as far as the lists go. */
  function Follow<T>(lists: seq<seq<Row<T>>>, cursor: Option<string>, limit: nat): seq<Row<T>>
    decreases |lists|
  {
    if lists == [] then []
    else
      var page := ListPage(lists[0], cursor, limit);
      if page.None? then []
      else page.value.rows + if page.value.next.None? then [] else Follow(lists[1..], page.value.next, limit)
  }

  /** Between two requests, only threads before the place reached came or went. */
  ghost predicate OnlyNewer<T>(rows: seq<Row<T>>, later: seq<Row<T>>, reached: Key)
  {
    RowsAfter(later, reached) == RowsAfter(rows, reached)
  }

  predicate MoreThan<T>(rows: seq<Row<T>>, before: Option<Key>, limit: nat)
  {
    0 < limit < |Remaining(rows, before)|
  }

  /** The place a full page reaches. */
  function Reached<T>(rows: seq<Row<T>>, before: Option<Key>, limit: nat): Key
    requires MoreThan(rows, before, limit)
  {
    Remaining(rows, before)[limit - 1].key
  }

  /** The lists of the requests: each in order, and after each page changed only before its end. */
  ghost predicate Steady<T>(lists: seq<seq<Row<T>>>, before: Option<Key>, limit: nat)
    decreases |lists|
  {
    lists != [] ==> Listed(lists[0]) && (|lists| > 1 && MoreThan(lists[0], before, limit) ==> SteadyOn(lists, before, limit))
  }

  ghost predicate SteadyOn<T>(lists: seq<seq<Row<T>>>, before: Option<Key>, limit: nat)
    requires |lists| > 1 && MoreThan(lists[0], before, limit)
    decreases |lists|, 0
  {
    && OnlyNewer(lists[0], lists[1], Reached(lists[0], before, limit))
    && Steady(lists[1..], Some(Reached(lists[0], before, limit)), limit)
  }

  function CursorOf(before: Option<Key>): Option<string>
  {
    if before.None? then None else Some(RenderCursor(before.value))
  }

  /** The page of the rows that remain. */
  function PageOf<T>(rest: seq<Row<T>>, limit: nat): Page<T>
    requires limit > 0
  {
    if |rest| > limit then Page(rest[..limit], Some(RenderCursor(rest[limit - 1].key))) else Page(rest, None)
  }

  /**
   Following the cursors from anywhere, with any limit of at least 1, gives every row the list
   had after that place, in order and once, even when newer threads come in between.
   */
  lemma {:induction false} FollowGivesAll<T>(lists: seq<seq<Row<T>>>, before: Option<Key>, limit: nat)
    requires limit > 0 && lists != [] && Steady(lists, before, limit)
    requires before.Some? ==> Sound(before.value)
    requires |lists| > |Remaining(lists[0], before)|
    ensures Follow(lists, CursorOf(before), limit) == Remaining(lists[0], before)
    decreases |lists|
  {
    var rows := lists[0];
    PageFrom(rows, before, limit);
    if MoreThan(rows, before, limit) {
      var reached := Reached(rows, before, limit);
      NextRemaining(rows, lists[1], before, limit);
      FollowGivesAll(lists[1..], Some(reached), limit);
      Parts(Remaining(rows, before), limit);
    }
  }

  lemma Parts<T>(rows: seq<T>, at: nat)
    requires at <= |rows|
    ensures rows[..at] + rows[at..] == rows
  {
  }

  /** What remains after a full page. */
  lemma NextRemaining<T>(rows: seq<Row<T>>, later: seq<Row<T>>, before: Option<Key>, limit: nat)
    requires Listed(rows) && (before.Some? ==> Sound(before.value)) && MoreThan(rows, before, limit)
    requires OnlyNewer(rows, later, Reached(rows, before, limit))
    ensures Sound(Reached(rows, before, limit))
    ensures RowsAfter(later, Reached(rows, before, limit)) == Remaining(rows, before)[limit..]
  {
    AfterRowOfRest(rows, before, limit - 1);
    RestSound(rows, before, limit - 1);
  }

  /** The page at a cursor this list issued. */
  lemma PageFrom<T>(rows: seq<Row<T>>, before: Option<Key>, limit: nat)
    requires limit > 0 && (before.Some? ==> Sound(before.value))
    ensures ListPage(rows, CursorOf(before), limit) == Some(PageOf(Remaining(rows, before), limit))
  {
    if before.Some? {
      CursorRoundTrip(before.value);
    }
    assert ReadCursor(CursorOf(before)) == Some(before);
    PageAfterIs(rows, before, limit);
  }

  lemma PageAfterIs<T>(rows: seq<Row<T>>, before: Option<Key>, limit: nat)
    requires limit > 0
    ensures PageAfter(rows, before, limit) == PageOf(Remaining(rows, before), limit)
  {
    var rest := Remaining(rows, before);
    assert |rest| == limit ==> rest[..limit] == rest;
  }

  lemma RestSound<T>(rows: seq<Row<T>>, before: Option<Key>, at: nat)
    requires Listed(rows) && at < |Remaining(rows, before)|
    requires before.Some? ==> Sound(before.value)
    ensures Sound(Remaining(rows, before)[at].key)
  {
    if before.Some? {
      var start := Suffix(rows, before.value);
    }
  }

  /** A list that does not change between requests is steady. */
  lemma {:induction false} UnchangedIsSteady<T>(lists: seq<seq<Row<T>>>, rows: seq<Row<T>>, before: Option<Key>, limit: nat)
    requires Listed(rows) && forall l :: l in lists ==> l == rows
    ensures Steady(lists, before, limit)
    decreases |lists|
  {
    if lists != [] {
      assert lists[0] in lists && (|lists| > 1 ==> lists[1] in lists);
      if |lists| > 1 && MoreThan(lists[0], before, limit) {
        assert forall l :: l in lists[1..] ==> l in lists;
        UnchangedIsSteady(lists[1..], rows, Some(Reached(lists[0], before, limit)), limit);
      }
    }
  }

  /** From the first page of a list that does not change, following the cursors gives the whole list. */
  lemma FollowGivesWholeList<T>(rows: seq<Row<T>>, limit: nat, requests: nat)
    requires limit > 0 && Listed(rows) && requests > |rows|
    ensures Follow(seq(requests, _ => rows), None, limit) == rows
  {
    var lists := seq(requests, _ => rows);
    UnchangedIsSteady(lists, rows, None, limit);
    FollowGivesAll(lists, None, limit);
  }

  // ---- Lists that change in any way --------------------------------------------------------

  ghost predicate AllListed<T>(lists: seq<seq<Row<T>>>)
  {
    forall l :: l in lists ==> Listed(l)
  }

  ghost predicate AllPast<T>(rows: seq<Row<T>>, before: Option<Key>)
  {
    before.Some? ==> forall row :: row in rows ==> CompareKeys(row.key, before.value) > 0
  }

  lemma {:induction false} RowsAfterAre<T>(rows: seq<Row<T>>, before: Key, row: Row<T>)
    ensures row in RowsAfter(rows, before) <==> row in rows && CompareKeys(row.key, before) > 0
  {
    if rows != [] {
      RowsAfterAre(rows[1..], before, row);
      assert rows == [rows[0]] + rows[1..];
    }
  }

  /** What remains is in order, and past the cursor. */
  lemma RestListed<T>(rows: seq<Row<T>>, before: Option<Key>)
    requires Listed(rows) && (before.Some? ==> Sound(before.value))
    ensures Listed(Remaining(rows, before)) && AllPast(Remaining(rows, before), before)
  {
    if before.Some? {
      var start := Suffix(rows, before.value);
      forall row | row in Remaining(rows, before) ensures CompareKeys(row.key, before.value) > 0 {
        RowsAfterAre(rows, before.value, row);
      }
    }
  }

  /** The first page, and what following its cursor gives. */
  lemma FollowOne<T>(lists: seq<seq<Row<T>>>, before: Option<Key>, limit: nat)
    requires limit > 0 && lists != [] && (before.Some? ==> Sound(before.value))
    ensures var rest := Remaining(lists[0], before);
            Follow(lists, CursorOf(before), limit) ==
              if MoreThan(lists[0], before, limit) then
                rest[..limit] + Follow(lists[1..], CursorOf(Some(Reached(lists[0], before, limit))), limit)
              else rest
  {
    PageFrom(lists[0], before, limit);
    assert Remaining(lists[0], before) + [] == Remaining(lists[0], before);
  }

  /** Rows in order, and rows past the last of them. */
  lemma ListedThen<T>(a: seq<Row<T>>, b: seq<Row<T>>)
    requires a != [] && Listed(a) && Listed(b) && AllPast(b, Some(a[|a| - 1].key))
    ensures Listed(a + b)
  {
    var last := a[|a| - 1].key;
    forall i, j | 0 <= i < |a| && 0 <= j < |b| ensures CompareKeys(a[i].key, b[j].key) < 0 {
      assert b[j] in b;
      CompareKeysTotal(last, b[j].key);
      if i < |a| - 1 {
        CompareKeysTransitive(a[i].key, last, b[j].key);
      }
    }
    forall i, j | 0 <= i < j < |a + b| ensures CompareKeys((a + b)[i].key, (a + b)[j].key) < 0 {
    }
  }

  lemma PastLater<T>(rows: seq<Row<T>>, before: Option<Key>, later: Key)
    requires Listed(rows) && AllPast(rows, Some(later)) && Sound(later)
    requires before.Some? ==> Sound(before.value) && CompareKeys(later, before.value) > 0
    ensures AllPast(rows, before)
  {
    if before.Some? {
      forall row | row in rows ensures CompareKeys(row.key, before.value) > 0 {
        CompareKeysTotal(row.key, later);
        CompareKeysTotal(later, before.value);
        CompareKeysTotal(row.key, before.value);
        CompareKeysTransitive(before.value, later, row.key);
      }
    }
  }

  /** A full page, and rows past its end. */
  lemma {:induction false} PageThen<T>(rest: seq<Row<T>>, more: seq<Row<T>>, before: Option<Key>, limit: nat)
    requires Listed(rest) && AllPast(rest, before) && 0 < limit < |rest| && (before.Some? ==> Sound(before.value))
    requires Listed(more) && AllPast(more, Some(rest[limit - 1].key))
    ensures Listed(rest[..limit] + more) && AllPast(rest[..limit] + more, before)
  {
    var page := rest[..limit];
    assert page[limit - 1] == rest[limit - 1] && rest[limit - 1] in rest;
    ListedThen(page, more);
    PastLater(more, before, rest[limit - 1].key);
    assert forall row :: row in page ==> row in rest;
  }

  /**
   However the list changes between requests, threads that move included: the rows given are in
   the list's order and past the place asked from, so no key is given twice.
   */
  lemma {:induction false} FollowAscends<T>(lists: seq<seq<Row<T>>>, before: Option<Key>, limit: nat)
    requires limit > 0 && AllListed(lists) && (before.Some? ==> Sound(before.value))
    ensures var given := Follow(lists, CursorOf(before), limit); Listed(given) && AllPast(given, before)
    decreases |lists|
  {
    if lists != [] {
      var rest := Remaining(lists[0], before);
      RestListed(lists[0], before);
      FollowOne(lists, before, limit);
      if MoreThan(lists[0], before, limit) {
        var reached := Reached(lists[0], before, limit);
        FollowAscends(lists[1..], Some(reached), limit);
        PageThen(rest, Follow(lists[1..], CursorOf(Some(reached)), limit), before, limit);
      }
    }
  }

  /** Every row given is one of a list asked. */
  lemma {:induction false} GivenFrom<T>(lists: seq<seq<Row<T>>>, before: Option<Key>, limit: nat, row: Row<T>)
    requires limit > 0 && AllListed(lists) && (before.Some? ==> Sound(before.value))
    requires row in Follow(lists, CursorOf(before), limit)
    ensures exists l :: l in lists && row in l
    decreases |lists|
  {
    RestListed(lists[0], before);
    FollowOne(lists, before, limit);
    if row in Remaining(lists[0], before) {
      if before.Some? {
        RowsAfterAre(lists[0], before.value, row);
      }
    } else {
      GivenFrom(lists[1..], Some(Reached(lists[0], before, limit)), limit, row);
    }
  }

  /** The latest message of a thread only gets later from one request to the next. */
  ghost predicate NeverOlder<T>(lists: seq<seq<Row<T>>>)
  {
    forall i, j, row, later ::
      0 <= i <= j < |lists| && row in lists[i] && later in lists[j] && row.key.threadId == later.key.threadId ==>
        row.key.ms <= later.key.ms
  }

  lemma {:induction false} NeverOlderOn<T>(lists: seq<seq<Row<T>>>)
    requires lists != [] && NeverOlder(lists)
    ensures NeverOlder(lists[1..])
  {
    var rest := lists[1..];
    forall i, j, row: Row<T>, later: Row<T>
      | 0 <= i <= j < |rest| && row in rest[i] && later in rest[j] && row.key.threadId == later.key.threadId
      ensures row.key.ms <= later.key.ms
    {
      assert rest[i] == lists[i + 1] && rest[j] == lists[j + 1];
    }
  }

  /** A row of the first list and one given that the list's order has after it are two threads'. */
  lemma {:induction false} LaterIsOther<T>(lists: seq<seq<Row<T>>>, row: Row<T>, later: Row<T>, l: seq<Row<T>>)
    requires NeverOlder(lists) && lists != [] && row in lists[0] && l in lists && later in l
    requires Sound(row.key) && Sound(later.key) && CompareKeys(row.key, later.key) < 0
    ensures row.key.threadId != later.key.threadId
  {
    var at :| 0 <= at < |lists| && lists[at] == l;
    CompareKeysTotal(row.key, later.key);
    assert row.key.threadId == later.key.threadId ==> row.key.ms <= later.key.ms;
  }

  ghost predicate OneRowEach<T>(rows: seq<Row<T>>)
  {
    forall i, j :: 0 <= i < j < |rows| ==> rows[i].key.threadId != rows[j].key.threadId
  }

  lemma OneRowThen<T>(rows: seq<Row<T>>, page: nat)
    requires page <= |rows| && OneRowEach(rows[page..])
    requires forall i, j :: 0 <= i < page && i < j < |rows| ==> rows[i].key.threadId != rows[j].key.threadId
    ensures OneRowEach(rows)
  {
    var more := rows[page..];
    forall i, j | page <= i < j < |rows| ensures rows[i].key.threadId != rows[j].key.threadId {
      assert rows[i] == more[i - page] && rows[j] == more[j - page];
    }
  }

  lemma FewerListed<T>(lists: seq<seq<Row<T>>>)
    requires lists != [] && AllListed(lists)
    ensures Listed(lists[0]) && AllListed(lists[1..])
  {
    forall l | l in lists[1..] ensures Listed(l) {
      assert l in lists;
    }
  }

  /** So no thread is given twice, as long as latest messages only get later. */
  lemma {:induction false} NoThreadTwice<T>(lists: seq<seq<Row<T>>>, before: Option<Key>, limit: nat)
    requires limit > 0 && AllListed(lists) && NeverOlder(lists) && (before.Some? ==> Sound(before.value))
    ensures OneRowEach(Follow(lists, CursorOf(before), limit))
    decreases |lists|
  {
    if lists != [] {
      if MoreThan(lists[0], before, limit) {
        FewerListed(lists);
        NeverOlderOn(lists);
        RestSound(lists[0], before, limit - 1);
        NoThreadTwice(lists[1..], Some(Reached(lists[0], before, limit)), limit);
        OneRowMore(lists, before, limit);
      } else {
        OneRowPage(lists, before, limit);
      }
    }
  }

  lemma {:induction false} OneRowPage<T>(lists: seq<seq<Row<T>>>, before: Option<Key>, limit: nat)
    requires limit > 0 && AllListed(lists) && NeverOlder(lists) && (before.Some? ==> Sound(before.value)) && lists != []
    requires !MoreThan(lists[0], before, limit)
    ensures OneRowEach(Follow(lists, CursorOf(before), limit))
  {
    FirstPageOthers(lists, before, limit);
    FollowOne(lists, before, limit);
    var given := Follow(lists, CursorOf(before), limit);
    OneRowThen(given, |given|);
  }

  lemma {:induction false} OneRowMore<T>(lists: seq<seq<Row<T>>>, before: Option<Key>, limit: nat)
    requires limit > 0 && AllListed(lists) && NeverOlder(lists) && (before.Some? ==> Sound(before.value)) && lists != []
    requires MoreThan(lists[0], before, limit)
    requires OneRowEach(Follow(lists[1..], CursorOf(Some(Reached(lists[0], before, limit))), limit))
    ensures OneRowEach(Follow(lists, CursorOf(before), limit))
  {
    FirstPageOthers(lists, before, limit);
    AfterPage(lists, before, limit);
    OneRowThen(Follow(lists, CursorOf(before), limit), limit);
  }

  lemma {:induction false} AfterPage<T>(lists: seq<seq<Row<T>>>, before: Option<Key>, limit: nat)
    requires limit > 0 && lists != [] && MoreThan(lists[0], before, limit) && (before.Some? ==> Sound(before.value))
    ensures var given := Follow(lists, CursorOf(before), limit);
            |given| >= limit && given[limit..] == Follow(lists[1..], CursorOf(Some(Reached(lists[0], before, limit))), limit)
  {
    FollowOne(lists, before, limit);
  }

  /** How many rows the first page has. */
  function FirstPage<T>(rows: seq<Row<T>>, before: Option<Key>, limit: nat): nat
  {
    if MoreThan(rows, before, limit) then limit else |Remaining(rows, before)|
  }

  lemma {:induction false} FirstPageOthers<T>(lists: seq<seq<Row<T>>>, before: Option<Key>, limit: nat)
    requires limit > 0 && AllListed(lists) && NeverOlder(lists) && (before.Some? ==> Sound(before.value)) && lists != []
    ensures var given := Follow(lists, CursorOf(before), limit);
            forall i, j :: 0 <= i < FirstPage(lists[0], before, limit) && i < j < |given| ==>
              given[i].key.threadId != given[j].key.threadId
  {
    var given := Follow(lists, CursorOf(before), limit);
    forall i, j | 0 <= i < FirstPage(lists[0], before, limit) && i < j < |given|
      ensures given[i].key.threadId != given[j].key.threadId
    {
      FirstPageOther(lists, before, limit, i, j);
    }
  }

  /** The row `i` of the first page and any row after it. */
  lemma {:induction false} FirstPageOther<T>(lists: seq<seq<Row<T>>>, before: Option<Key>, limit: nat, i: nat, j: nat)
    requires limit > 0 && AllListed(lists) && NeverOlder(lists) && (before.Some? ==> Sound(before.value))
    requires lists != [] && i < FirstPage(lists[0], before, limit)
    requires i < j < |Follow(lists, CursorOf(before), limit)|
    ensures var given := Follow(lists, CursorOf(before), limit); given[i].key.threadId != given[j].key.threadId
  {
    var given := Follow(lists, CursorOf(before), limit);
    FollowAscends(lists, before, limit);
    FollowOne(lists, before, limit);
    var row, later := given[i], given[j];
    assert row == Remaining(lists[0], before)[i];
    if before.Some? {
      RowsAfterAre(lists[0], before.value, row);
    }
    GivenFrom(lists, before, limit, later);
    var l :| l in lists && later in l;
    LaterIsOther(lists, row, later, l);
  }

  /** The last page is asked for: one that names no next. */
  predicate Ends<T>(lists: seq<seq<Row<T>>>, cursor: Option<string>, limit: nat)
    decreases |lists|
  {
    && lists != []
    && var page := ListPage(lists[0], cursor, limit);
       page.Some? && (page.value.next.Some? ==> Ends(lists[1..], page.value.next, limit))
  }

  ghost predicate HasKey<T>(rows: seq<Row<T>>, key: Key)
  {
    exists row :: row in rows && row.key == key
  }

  /** A thread that stays under one key in every list asked is given, whatever comes, goes or moves around it. */
  lemma {:induction false} StayingIsGiven<T>(lists: seq<seq<Row<T>>>, before: Option<Key>, limit: nat, key: Key)
    requires limit > 0 && AllListed(lists) && (before.Some? ==> Sound(before.value))
    requires Ends(lists, CursorOf(before), limit)
    requires (forall l :: l in lists ==> HasKey(l, key)) && (before.Some? ==> CompareKeys(key, before.value) > 0)
    ensures HasKey(Follow(lists, CursorOf(before), limit), key)
    decreases |lists|
  {
    var rest := Remaining(lists[0], before);
    assert lists[0] in lists;
    var row :| row in lists[0] && row.key == key;
    if before.Some? {
      RowsAfterAre(lists[0], before.value, row);
    }
    assert row in rest;
    RestListed(lists[0], before);
    FollowOne(lists, before, limit);
    PageFrom(lists[0], before, limit);
    var given := Follow(lists, CursorOf(before), limit);
    var at :| 0 <= at < |rest| && rest[at] == row;
    if MoreThan(lists[0], before, limit) && at >= limit {
      var reached := Reached(lists[0], before, limit);
      CompareKeysTotal(reached, key);
      StayingIsGiven(lists[1..], Some(reached), limit, key);
      var found :| found in Follow(lists[1..], CursorOf(Some(reached)), limit) && found.key == key;
      assert found in given;
    } else {
      assert given[at] == row;
    }
  }

  lemma SoundOne(ms: int, id: string)
    requires '/' !in id && id != "" && OneLine(id) && !HasDots(id) && '\\' !in id && '\0' !in id
    ensures Sound(Key(ms, "x" + "/" + ("user" + "/" + id)))
  {
    ParsesAs("x", "user", id);
    var start: string := "x" + "/" + ("user" + "/");
    assert "x" + "/" + ("user" + "/" + id) == start + id;
  }

  /** What the rows of a list in which the last thread moves to the front leave to the next page. */
  lemma NothingAfter<T>(moved: Row<T>, first: Row<T>, second: Row<T>)
    requires moved.key.ms > first.key.ms > second.key.ms && Sound(second.key)
    ensures RowsAfter([moved, first, second], second.key) == []
  {
    CompareKeysTotal(second.key, second.key);
    assert [second][1..] == [] && [first, second][1..] == [second] && [moved, first, second][1..] == [first, second];
    assert RowsAfter([second], second.key) == [];
    assert RowsAfter([first, second], second.key) == [];
  }

  /** A thread that moves to the front while its page is to come is in no page. */
  lemma MovedIsMissed<T>(x: T)
    ensures var a, b := Row(Key(3, "x/user/1"), x), Row(Key(2, "x/user/2"), x);
            var c, moved := Row(Key(1, "x/user/3"), x), Row(Key(4, "x/user/3"), x);
            var lists := [[a, b, c], [moved, a, b]];
            Ends(lists, None, 2) && Follow(lists, None, 2) == [a, b]
  {
    var a, b := Row(Key(3, "x/user/1"), x), Row(Key(2, "x/user/2"), x);
    var c, moved := Row(Key(1, "x/user/3"), x), Row(Key(4, "x/user/3"), x);
    var lists := [[a, b, c], [moved, a, b]];
    SoundOne(2, "2");
    assert "x" + "/" + ("user" + "/" + "2") == "x/user/2";
    NothingAfter(moved, a, b);
    assert lists[1..] == [[moved, a, b]];
    FollowOne(lists, None, 2);
    PageFrom([a, b, c], None, 2);
    FollowOne(lists[1..], Some(b.key), 2);
    PageFrom([moved, a, b], Some(b.key), 2);
    assert [a, b, c][..2] == [a, b] && [a, b] + [] == [a, b];
  }
}
