/**
 Cursor pagination on the server (server/api/messages.py, fetch_messages) and the client loop that
 consumes it (client/ui/app.py, _sync_chat_history_from_server), against a fixed conversation.
 */
module Paging {
  import opened Common
  import opened Protocol

  const CLIENT_LIMIT := 50
  const SERVER_LIMIT := 100

  datatype Page = Page(messages: seq<Envelope>, hasMore: bool, nextCursor: Option<string>)

  datatype PageError = CursorNotFound

  /** Message identifiers are a primary key, and never empty since they must be UUIDs. */
  predicate KeyedById(table: set<Envelope>)
  {
    && (forall m :: m in table ==> m.id != "")
    && forall m, n :: m in table && n in table && m.id == n.id ==> m == n
  }

  // ---------------------------------------------------------------- the query

  predicate LatestFirst(rows: seq<Envelope>)
  {
    forall i, j :: 0 <= i < j < |rows| ==> rows[i].sentAt >= rows[j].sentAt
  }

  /** ORDER BY sent_at DESC LIMIT n: rows with equal sent_at come in any order the database likes. */
  ghost predicate IsTop(rows: seq<Envelope>, matching: set<Envelope>, n: nat)
  {
    && Distinct(rows) && LatestFirst(rows)
    && Elements(rows) <= matching
    && |rows| == (if |matching| < n then |matching| else n)
    && forall m, i :: m in matching && m !in rows && 0 <= i < |rows| ==> m.sentAt <= rows[i].sentAt
  }

  lemma LatestExists(s: set<Envelope>) returns (m: Envelope)
    requires s != {}
    ensures m in s && forall x :: x in s ==> x.sentAt <= m.sentAt
  {
    m :| m in s;
    if s != {m} {
      var other := LatestExists(s - {m});
      m := if m.sentAt < other.sentAt then other else m;
    }
  }

  /** Rows picked so far, latest first, ahead of all the rest. */
  ghost predicate IsSelection(rows: seq<Envelope>, rest: set<Envelope>, matching: set<Envelope>)
  {
    && Distinct(rows) && LatestFirst(rows)
    && Elements(rows) + rest == matching && Elements(rows) !! rest
    && forall m, i :: m in rest && 0 <= i < |rows| ==> m.sentAt <= rows[i].sentAt
  }

  lemma SelectionGrows(rows: seq<Envelope>, rest: set<Envelope>, matching: set<Envelope>, m: Envelope)
    requires IsSelection(rows, rest, matching)
    requires m in rest && forall x :: x in rest ==> x.sentAt <= m.sentAt
    ensures IsSelection(rows + [m], rest - {m}, matching)
  {
    assert Elements(rows + [m]) == Elements(rows) + {m};
    assert m !in Elements(rows);
  }

  lemma SelectionIsTop(rows: seq<Envelope>, rest: set<Envelope>, matching: set<Envelope>, n: nat)
    requires IsSelection(rows, rest, matching) && |rows| <= n && (rest == {} || |rows| == n)
    ensures IsTop(rows, matching, n)
  {
    DistinctCount(rows);
    assert |matching| == |Elements(rows)| + |rest|;
    forall m | m in matching && m !in rows
      ensures m in rest
    {
      assert m !in Elements(rows);
    }
  }

  method SelectLatest(matching: set<Envelope>, n: nat) returns (rows: seq<Envelope>)
    ensures IsTop(rows, matching, n)
  {
    rows := [];
    var rest := matching;
    while rest != {} && |rows| < n
      invariant IsSelection(rows, rest, matching) && |rows| <= n
      decreases |rest|
    {
      ghost var latest := LatestExists(rest);
      var m :| m in rest && forall x :: x in rest ==> x.sentAt <= m.sentAt;
      SelectionGrows(rows, rest, matching, m);
      rows, rest := rows + [m], rest - {m};
    }
    SelectionIsTop(rows, rest, matching, n);
  }

  function SentBefore(table: set<Envelope>, cutoff: Option<int>): set<Envelope>
  {
    set m | m in table && (cutoff.Some? ==> m.sentAt < cutoff.value)
  }

  /** The first rows up to the limit; a negative limit counts from the end. */
  function Kept(rows: seq<Envelope>, limit: int): seq<Envelope>
  {
    var n := if limit < 0 then |rows| + limit else limit;
    if n < 0 then [] else if n < |rows| then rows[..n] else rows
  }

  /** One row more than asked for tells whether there is a next page. */
  function PageOf(rows: seq<Envelope>, limit: int): Page
  {
    var hasMore, kept := |rows| > limit, Kept(rows, limit);
    Page(kept, hasMore, if hasMore && kept != [] then Some(kept[|kept| - 1].id) else None)
  }

  /** The sent_at of the cursor; an absent or empty cursor is no cursor. */
  ghost predicate IsCutoff(table: set<Envelope>, beforeId: Option<string>, cutoff: Option<int>)
  {
    if beforeId.None? || beforeId.value == "" then cutoff.None?
    else cutoff.Some? && exists m :: m in table && m.id == beforeId.value && m.sentAt == cutoff.value
  }

  /** LIMIT limit + 1: a negative number of rows means all of them. */
  function RowLimit(limit: int, total: nat): nat
  {
    if limit + 1 < 0 then total else limit + 1
  }

  /** The page made of the latest rows before the cursor. */
  ghost predicate IsAnswer(table: set<Envelope>, beforeId: Option<string>, limit: int, page: Page)
  {
    exists cutoff, rows :: IsCutoff(table, beforeId, cutoff) && IsRowsOf(rows, SentBefore(table, cutoff), limit)
                           && page == PageOf(rows, limit)
  }

  ghost predicate IsRowsOf(rows: seq<Envelope>, matching: set<Envelope>, limit: int)
  {
    IsTop(rows, matching, RowLimit(limit, |matching|))
  }

  method FetchMessages(table: set<Envelope>, beforeId: Option<string>, limit: int)
    returns (r: Result<Page, PageError>)
    requires KeyedById(table) && limit <= SERVER_LIMIT
    ensures r.Err? <==> beforeId.Some? && beforeId.value != "" && forall m :: m in table ==> m.id != beforeId.value
    ensures r.Ok? ==> IsAnswer(table, beforeId, limit, r.value)
  {
    var cutoff: Option<int> := None;
    if beforeId.Some? && beforeId.value != "" {
      var found := set m | m in table && m.id == beforeId.value;
      if found == {} {
        assert forall m :: m in table && m.id == beforeId.value ==> m in found;
        return Err(CursorNotFound);
      }
      var cursor :| cursor in found;
      cutoff := Some(cursor.sentAt);
    }
    var matching := SentBefore(table, cutoff);
    var rows := SelectLatest(matching, RowLimit(limit, |matching|));
    assert IsRowsOf(rows, SentBefore(table, cutoff), limit);
    r := Ok(PageOf(rows, limit));
  }

  /** A limit of -1 gets no row, and one of -k all rows that match but the k earliest; both claim a next page. */
  lemma NegativeLimits(table: set<Envelope>, limit: int, page: Page)
    requires IsAnswer(table, None, limit, page) && limit < 0
    ensures page.hasMore && (page.nextCursor.Some? <==> page.messages != [])
    ensures limit == -1 ==> page.messages == []
    ensures limit < -1 ==>
              exists rows :: IsTop(rows, table, |table|)
                             && page.messages == rows[..if |rows| < -limit then 0 else |rows| + limit]
  {
    var cutoff, rows :| IsCutoff(table, None, cutoff) && IsRowsOf(rows, SentBefore(table, cutoff), limit)
                        && page == PageOf(rows, limit);
    assert SentBefore(table, cutoff) == table;
    if limit < -1 {
      assert IsTop(rows, table, |table|);
    }
  }

  // ---------------------------------------------------------------- the client loop

  /** The sent_at of the last row of page k - 1, the cursor that page k is fetched with. */
  function CursorTime(pages: seq<seq<Envelope>>, k: nat): Option<int>
    requires k <= |pages| && (k > 0 ==> pages[k - 1] != [])
  {
    if k == 0 then None else Some(Last(pages[k - 1]).sentAt)
  }

  function Last(page: seq<Envelope>): Envelope
    requires page != []
  {
    page[|page| - 1]
  }

  /** What page k is taken from: everything sent before the last row of page k - 1. */
  function Matching(table: set<Envelope>, pages: seq<seq<Envelope>>, k: nat): set<Envelope>
    requires k <= |pages| && (k > 0 ==> pages[k - 1] != [])
  {
    SentBefore(table, CursorTime(pages, k))
  }

  /** Page k is full and more rows match than it holds. */
  ghost predicate IsInnerPage(table: set<Envelope>, pages: seq<seq<Envelope>>, k: nat, limit: nat)
  {
    && k < |pages| && pages[k] != [] && (k > 0 ==> pages[k - 1] != [])
    && |Matching(table, pages, k)| > limit
    && IsTop(pages[k], Matching(table, pages, k), limit)
  }

  ghost predicate IsFinalPage(table: set<Envelope>, pages: seq<seq<Envelope>>, k: nat, limit: nat)
  {
    && k < |pages| && (k > 0 ==> pages[k - 1] != [])
    && |Matching(table, pages, k)| <= limit
    && IsTop(pages[k], Matching(table, pages, k), limit)
  }

  ghost predicate InnerPages(table: set<Envelope>, pages: seq<seq<Envelope>>, n: nat, limit: nat)
  {
    forall k :: 0 <= k < n ==> IsInnerPage(table, pages, k, limit)
  }

  /** A complete walk through the history: inner pages, then a final one. */
  ghost predicate IsWalk(table: set<Envelope>, pages: seq<seq<Envelope>>, limit: nat)
  {
    && pages != []
    && InnerPages(table, pages, |pages| - 1, limit)
    && IsFinalPage(table, pages, |pages| - 1, limit)
  }

  lemma FirstRowsAreTop(rows: seq<Envelope>, matching: set<Envelope>, limit: nat)
    requires IsTop(rows, matching, limit + 1)
    ensures IsTop(PageOf(rows, limit).messages, matching, limit)
    ensures PageOf(rows, limit).hasMore <==> |matching| > limit
  {
    var kept := PageOf(rows, limit).messages;
    assert forall j :: 0 <= j < |kept| ==> kept[j] == rows[j];
    forall m, i | m in matching && m !in kept && 0 <= i < |kept|
      ensures m.sentAt <= kept[i].sentAt
    {
      if m in rows {
        var j :| 0 <= j < |rows| && rows[j] == m;
        assert i < j;
      }
    }
  }

  /** Earlier pages do not look at later ones. */
  lemma AppendKeepsPages(table: set<Envelope>, pages: seq<seq<Envelope>>, page: seq<Envelope>, limit: nat)
    requires InnerPages(table, pages, |pages|, limit)
    ensures InnerPages(table, pages + [page], |pages|, limit)
  {
    forall k | 0 <= k < |pages|
      ensures IsInnerPage(table, pages + [page], k, limit)
    {
      assert IsInnerPage(table, pages, k, limit);
      assert Matching(table, pages + [page], k) == Matching(table, pages, k);
    }
  }

  /** The next page is taken from fewer rows, since it leaves out at least its own cursor row. */
  lemma MatchingShrinks(table: set<Envelope>, pages: seq<seq<Envelope>>, k: nat, limit: nat)
    requires IsInnerPage(table, pages, k, limit)
    ensures |Matching(table, pages, k + 1)| < |Matching(table, pages, k)|
  {
    var last := Last(pages[k]);
    assert last in Elements(pages[k]);
    assert Matching(table, pages, k + 1) <= Matching(table, pages, k) - {last};
    SubsetIsSmaller(Matching(table, pages, k + 1), Matching(table, pages, k) - {last});
  }

  lemma LastRowIsInTable(table: set<Envelope>, pages: seq<seq<Envelope>>, k: nat, limit: nat)
    requires IsInnerPage(table, pages, k, limit)
    ensures Last(pages[k]) in table
  {
    assert Last(pages[k]) in Elements(pages[k]);
  }

  /** The request of one turn of the loop: its answer continues the walk. */
  method FetchNext(table: set<Envelope>, ghost pages: seq<seq<Envelope>>, beforeId: Option<string>)
    returns (page: Page)
    requires KeyedById(table) && InnerPages(table, pages, |pages|, CLIENT_LIMIT)
    requires if pages == [] then beforeId.None?
             else pages[|pages| - 1] != [] && beforeId == Some(Last(pages[|pages| - 1]).id)
    ensures
      var matching := Matching(table, pages, |pages|);
      && IsTop(page.messages, matching, CLIENT_LIMIT)
      && (page.hasMore <==> |matching| > CLIENT_LIMIT)
      && page.nextCursor == if page.hasMore && page.messages != [] then Some(Last(page.messages).id) else None
  {
    if pages != [] {
      LastRowIsInTable(table, pages, |pages| - 1, CLIENT_LIMIT);
    }
    var response := FetchMessages(table, beforeId, CLIENT_LIMIT);
    page := response.value;
    AnswerIsTheNextPage(table, pages, beforeId, page);
  }

  lemma CutoffIsTheCursor(
    table: set<Envelope>, pages: seq<seq<Envelope>>, beforeId: Option<string>, cutoff: Option<int>)
    requires KeyedById(table) && IsCutoff(table, beforeId, cutoff)
    requires if pages == [] then beforeId.None?
             else pages[|pages| - 1] != [] && Last(pages[|pages| - 1]) in table
                  && beforeId == Some(Last(pages[|pages| - 1]).id)
    ensures cutoff == CursorTime(pages, |pages|)
  {
  }

  lemma AnswerIsTheNextPage(table: set<Envelope>, pages: seq<seq<Envelope>>, beforeId: Option<string>, page: Page)
    requires KeyedById(table) && IsAnswer(table, beforeId, CLIENT_LIMIT, page)
    requires if pages == [] then beforeId.None?
             else pages[|pages| - 1] != [] && Last(pages[|pages| - 1]) in table
                  && beforeId == Some(Last(pages[|pages| - 1]).id)
    ensures
      var matching := Matching(table, pages, |pages|);
      && IsTop(page.messages, matching, CLIENT_LIMIT)
      && (page.hasMore <==> |matching| > CLIENT_LIMIT)
      && page.nextCursor == if page.hasMore && page.messages != [] then Some(Last(page.messages).id) else None
  {
    var cutoff, rows :| IsCutoff(table, beforeId, cutoff) && IsRowsOf(rows, SentBefore(table, cutoff), CLIENT_LIMIT)
                        && page == PageOf(rows, CLIENT_LIMIT);
    CutoffIsTheCursor(table, pages, beforeId, cutoff);
    FirstRowsAreTop(rows, Matching(table, pages, |pages|), CLIENT_LIMIT);
  }

  lemma AppendInnerPage(table: set<Envelope>, pages: seq<seq<Envelope>>, page: seq<Envelope>, limit: nat)
    requires InnerPages(table, pages, |pages|, limit) && (pages != [] ==> pages[|pages| - 1] != []) && page != []
    requires IsTop(page, Matching(table, pages, |pages|), limit) && |Matching(table, pages, |pages|)| > limit
    ensures InnerPages(table, pages + [page], |pages| + 1, limit)
    ensures |Matching(table, pages + [page], |pages| + 1)| < |Matching(table, pages, |pages|)|
  {
    AppendKeepsPages(table, pages, page, limit);
    assert Matching(table, pages + [page], |pages|) == Matching(table, pages, |pages|);
    assert IsInnerPage(table, pages + [page], |pages|, limit);
    MatchingShrinks(table, pages + [page], |pages|, limit);
  }

  lemma AppendFinalPage(table: set<Envelope>, pages: seq<seq<Envelope>>, page: seq<Envelope>, limit: nat)
    requires InnerPages(table, pages, |pages|, limit) && (pages != [] ==> pages[|pages| - 1] != [])
    requires IsTop(page, Matching(table, pages, |pages|), limit) && |Matching(table, pages, |pages|)| <= limit
    ensures IsWalk(table, pages + [page], limit)
  {
    AppendKeepsPages(table, pages, page, limit);
    assert Matching(table, pages + [page], |pages|) == Matching(table, pages, |pages|);
  }

  /** The first loop of the history synchronisation; request number `failAt`, if it comes to that, fails. */
  method CollectPages(table: set<Envelope>, failAt: nat) returns (r: Option<seq<seq<Envelope>>>)
    requires KeyedById(table)
    ensures r.Some? ==> IsWalk(table, r.value, CLIENT_LIMIT) && |r.value| <= failAt
    ensures r.None? ==> exists pages :: |pages| == failAt && InnerPages(table, pages, failAt, CLIENT_LIMIT)
  {
    var pages: seq<seq<Envelope>> := [];
    var beforeId: Option<string> := None;
    while true
      invariant InnerPages(table, pages, |pages|, CLIENT_LIMIT) && |pages| <= failAt
      invariant if pages == [] then beforeId.None?
                else pages[|pages| - 1] != [] && beforeId == Some(Last(pages[|pages| - 1]).id)
      decreases |Matching(table, pages, |pages|)|
    {
      if |pages| == failAt {
        return None;
      }
      var page := FetchNext(table, pages, beforeId);
      if !page.hasMore || page.nextCursor.None? {
        AppendFinalPage(table, pages, page.messages, CLIENT_LIMIT);
        return Some(pages + [page.messages]);
      }
      AppendInnerPage(table, pages, page.messages, CLIENT_LIMIT);
      pages := pages + [page.messages];
      beforeId := page.nextCursor;
    }
  }

  // ---------------------------------------------------------------- what a walk does and does not see

  /** A message fetched on some page. */
  predicate Fetched(pages: seq<seq<Envelope>>, m: Envelope)
  {
    exists k :: 0 <= k < |pages| && m in pages[k]
  }

  /** Cut off by a tie: sent at the same second as the last row of a page that has a successor. */
  predicate TiedWithACursor(pages: seq<seq<Envelope>>, m: Envelope)
  {
    exists k :: 0 <= k < |pages| - 1 && pages[k] != [] && m !in pages[k] && m.sentAt == Last(pages[k]).sentAt
  }

  lemma PageOfWalk(table: set<Envelope>, pages: seq<seq<Envelope>>, k: nat, limit: nat)
    requires IsWalk(table, pages, limit) && k < |pages|
    ensures k > 0 ==> pages[k - 1] != []
    ensures IsTop(pages[k], Matching(table, pages, k), limit)
    ensures k < |pages| - 1 ==> pages[k] != []
    ensures k == |pages| - 1 ==> |Matching(table, pages, k)| <= limit
  {
    if k < |pages| - 1 {
      assert IsInnerPage(table, pages, k, limit);
    }
  }

  /** Everything on a later page was sent before everything on an earlier one. */
  lemma {:induction false} PagesDescend(
    table: set<Envelope>, pages: seq<seq<Envelope>>, j: nat, k: nat, limit: nat, m: Envelope, n: Envelope)
    requires IsWalk(table, pages, limit) && j < k < |pages| && m in pages[j] && n in pages[k]
    ensures n.sentAt < m.sentAt
  {
    PageOfWalk(table, pages, k - 1, limit);
    BeforeTheCursor(table, pages, k, limit, n);
    if j == k - 1 {
      LastIsEarliest(pages[j], m);
    } else {
      PagesDescend(table, pages, j, k - 1, limit, m, Last(pages[k - 1]));
    }
  }

  lemma BeforeTheCursor(table: set<Envelope>, pages: seq<seq<Envelope>>, k: nat, limit: nat, m: Envelope)
    requires IsWalk(table, pages, limit) && 0 < k < |pages| && m in pages[k]
    ensures pages[k - 1] != [] && Last(pages[k - 1]) in pages[k - 1] && m.sentAt < Last(pages[k - 1]).sentAt
  {
    PageOfWalk(table, pages, k, limit);
    assert m in Elements(pages[k]);
  }

  lemma LastIsEarliest(page: seq<Envelope>, m: Envelope)
    requires LatestFirst(page) && m in page
    ensures Last(page).sentAt <= m.sentAt
  {
    var i :| 0 <= i < |page| && page[i] == m;
  }

  /** No message is on two pages. */
  lemma PagesAreDisjoint(table: set<Envelope>, pages: seq<seq<Envelope>>, j: nat, k: nat, limit: nat)
    requires IsWalk(table, pages, limit) && j < k < |pages|
    ensures Elements(pages[j]) !! Elements(pages[k])
    ensures Distinct(pages[j]) && Distinct(pages[k])
  {
    PageOfWalk(table, pages, j, limit);
    PageOfWalk(table, pages, k, limit);
    forall m | m in pages[j] && m in pages[k]
      ensures false
    {
      PagesDescend(table, pages, j, k, limit, m, m);
    }
  }

  /** A message that page k could have held is held by page k or later, or is tied with a cursor. */
  lemma {:induction false} MatchedIsFetchedOrTied(
    table: set<Envelope>, pages: seq<seq<Envelope>>, k: nat, limit: nat, m: Envelope)
    requires IsWalk(table, pages, limit) && k < |pages| && (k > 0 ==> pages[k - 1] != [])
    requires m in Matching(table, pages, k)
    ensures Fetched(pages, m) || TiedWithACursor(pages, m)
    decreases |pages| - k
  {
    PageOfWalk(table, pages, k, limit);
    if m !in pages[k] {
      if k == |pages| - 1 {
        DistinctCount(pages[k]);
        assert m !in Elements(pages[k]);
        SubsetIsSmaller(Elements(pages[k]) + {m}, Matching(table, pages, k));
        assert false;
      } else if m.sentAt < Last(pages[k]).sentAt {
        MatchedIsFetchedOrTied(table, pages, k + 1, limit, m);
      }
    }
  }

  /** What ties with the cursor of page k without being on it is on no page at all. */
  lemma TiedIsMissed(table: set<Envelope>, pages: seq<seq<Envelope>>, limit: nat, m: Envelope)
    requires IsWalk(table, pages, limit) && TiedWithACursor(pages, m)
    ensures !Fetched(pages, m)
  {
    var k :| 0 <= k < |pages| - 1 && pages[k] != [] && m !in pages[k] && m.sentAt == Last(pages[k]).sentAt;
    var last := Last(pages[k]);
    assert last in pages[k];
    forall j | 0 <= j < |pages| && m in pages[j]
      ensures false
    {
      if j < k {
        PagesDescend(table, pages, j, k, limit, m, last);
      } else if k < j {
        PagesDescend(table, pages, k, j, limit, last, m);
      }
    }
  }

  /** A walk misses exactly the messages that tie in sent_at with the last row of a page with a successor. */
  lemma MissedAreExactlyTheTied(table: set<Envelope>, pages: seq<seq<Envelope>>, limit: nat, m: Envelope)
    requires IsWalk(table, pages, limit) && m in table
    ensures !Fetched(pages, m) <==> TiedWithACursor(pages, m)
  {
    if TiedWithACursor(pages, m) {
      TiedIsMissed(table, pages, limit, m);
    } else {
      MatchedIsFetchedOrTied(table, pages, 0, limit, m);
    }
  }

  /** With distinct timestamps every message of the conversation is fetched. */
  lemma DistinctTimesMissNothing(table: set<Envelope>, pages: seq<seq<Envelope>>, limit: nat, m: Envelope)
    requires IsWalk(table, pages, limit) && m in table
    requires forall x, y :: x in table && y in table && x.sentAt == y.sentAt ==> x == y
    ensures Fetched(pages, m)
  {
    if TiedWithACursor(pages, m) {
      var k :| 0 <= k < |pages| - 1 && pages[k] != [] && m !in pages[k] && m.sentAt == Last(pages[k]).sentAt;
      assert IsInnerPage(table, pages, k, limit);
      LastRowIsInTable(table, pages, k, limit);
    }
    MissedAreExactlyTheTied(table, pages, limit, m);
  }

  // ---------------------------------------------------------------- when nothing is missed

  function SentFrom(table: set<Envelope>, t: int): set<Envelope>
  {
    set m | m in table && m.sentAt >= t
  }

  /** Exactly n messages were sent at or after some moment. */
  ghost predicate BreaksAfter(table: set<Envelope>, n: nat)
  {
    exists t :: |SentFrom(table, t)| == n
  }

  function Rows(k: nat, limit: nat): nat { k * limit }

  lemma OnePageMore(k: nat, limit: nat)
    ensures Rows(k + 1, limit) == Rows(k, limit) + limit
  {
  }

  lemma FewerPagesFewerRows(j: nat, k: nat, limit: nat)
    requires j <= k
    ensures Rows(j, limit) <= Rows(k, limit)
  {
    assert k * limit == j * limit + (k - j) * limit;
  }

  /** Full pages counted from the latest message never end between two messages of the same second. */
  ghost predicate BreaksCleanly(table: set<Envelope>, limit: nat)
  {
    forall k: nat :: k >= 1 && Rows(k, limit) < |table| ==> BreaksAfter(table, Rows(k, limit))
  }

  /** Everything that page k leaves over was sent strictly before its last row. */
  ghost predicate EndsCleanly(table: set<Envelope>, pages: seq<seq<Envelope>>, k: nat)
    requires k < |pages| && pages[k] != [] && (k > 0 ==> pages[k - 1] != [])
  {
    forall m :: m in Matching(table, pages, k) && m !in pages[k] ==> m.sentAt < Last(pages[k]).sentAt
  }

  lemma CleanPageTakesItsRows(table: set<Envelope>, pages: seq<seq<Envelope>>, k: nat, limit: nat)
    requires IsInnerPage(table, pages, k, limit) && EndsCleanly(table, pages, k)
    ensures |Matching(table, pages, k + 1)| == |Matching(table, pages, k)| - limit
  {
    var page, matching := pages[k], Matching(table, pages, k);
    DistinctCount(page);
    forall m
      ensures m in Matching(table, pages, k + 1) <==> m in matching - Elements(page)
    {
      if m in Elements(page) {
        var i :| 0 <= i < |page| && page[i] == m;
        assert m.sentAt >= Last(page).sentAt;
      }
    }
    assert Matching(table, pages, k + 1) == matching - Elements(page);
    assert |matching - Elements(page)| == |matching| - |Elements(page)|;
  }

  /** As long as every page ends cleanly, page k is taken from all but the k pages before it. */
  lemma {:induction false} CleanPagesCount(table: set<Envelope>, pages: seq<seq<Envelope>>, k: nat, limit: nat)
    requires k <= |pages| && InnerPages(table, pages, k, limit)
    requires forall j: nat :: j < k ==> IsInnerPage(table, pages, j, limit) && EndsCleanly(table, pages, j)
    ensures k > 0 ==> pages[k - 1] != []
    ensures |Matching(table, pages, k)| == |table| - Rows(k, limit)
  {
    if k == 0 {
      assert Matching(table, pages, 0) == table;
    } else {
      CleanPagesCount(table, pages, k - 1, limit);
      CleanPageTakesItsRows(table, pages, k - 1, limit);
      OnePageMore(k - 1, limit);
    }
  }

  /** A page that could break after its last row does. */
  lemma BreakEndsThePage(table: set<Envelope>, pages: seq<seq<Envelope>>, k: nat, limit: nat, t: int)
    requires IsInnerPage(table, pages, k, limit)
    requires |SentFrom(Matching(table, pages, k), t)| == limit
    ensures EndsCleanly(table, pages, k)
  {
    var page, top := pages[k], SentFrom(Matching(table, pages, k), t);
    DistinctCount(page);
    if !(Elements(page) <= top) {
      var i :| 0 <= i < |page| && page[i] !in top;
      assert page[i] in Elements(page);
      assert page[i].sentAt < t;
      forall m | m in top
        ensures m in Elements(page)
      {
      }
      SameSizeSubset(top, Elements(page));
    }
    SameSizeSubset(Elements(page), top);
    assert Last(page) in Elements(page);
    forall m | m in Matching(table, pages, k) && m !in page
      ensures m.sentAt < Last(page).sentAt
    {
      assert m !in Elements(page);
    }
  }

  /** A break of the table below the cursor is a break of what the page is taken from. */
  lemma BreakBelowTheCursor(table: set<Envelope>, cutoff: Option<int>, t: int, limit: nat)
    requires |SentFrom(table, t)| == |table| - |SentBefore(table, cutoff)| + limit && limit > 0
    ensures |SentFrom(SentBefore(table, cutoff), t)| == limit
  {
    var rest := SentBefore(table, cutoff);
    var done := table - rest;
    assert |done| == |table| - |rest|;
    if cutoff.Some? && t > cutoff.value {
      assert SentFrom(table, t) <= done;
      SubsetIsSmaller(SentFrom(table, t), done);
    } else {
      assert SentFrom(table, t) == done + SentFrom(rest, t);
    }
  }

  lemma {:induction false} CleanBreaksMakeCleanPages(
    table: set<Envelope>, pages: seq<seq<Envelope>>, k: nat, limit: nat)
    requires limit > 0 && BreaksCleanly(table, limit)
    requires k <= |pages| && InnerPages(table, pages, k, limit)
    ensures forall j: nat :: j < k ==> IsInnerPage(table, pages, j, limit) && EndsCleanly(table, pages, j)
  {
    if k > 0 {
      CleanBreaksMakeCleanPages(table, pages, k - 1, limit);
      CleanPagesCount(table, pages, k - 1, limit);
      assert IsInnerPage(table, pages, k - 1, limit);
      CleanBreakMakesACleanPage(table, pages, k - 1, limit);
    }
  }

  lemma CleanBreakMakesACleanPage(table: set<Envelope>, pages: seq<seq<Envelope>>, k: nat, limit: nat)
    requires limit > 0 && BreaksCleanly(table, limit) && IsInnerPage(table, pages, k, limit)
    requires |Matching(table, pages, k)| == |table| - Rows(k, limit)
    ensures EndsCleanly(table, pages, k)
  {
    OnePageMore(k, limit);
    assert BreaksAfter(table, Rows(k + 1, limit));
    var t :| |SentFrom(table, t)| == Rows(k + 1, limit);
    BreakBelowTheCursor(table, CursorTime(pages, k), t, limit);
    BreakEndsThePage(table, pages, k, limit, t);
  }

  lemma CompleteWalkEndsCleanly(table: set<Envelope>, pages: seq<seq<Envelope>>, k: nat, limit: nat)
    requires IsWalk(table, pages, limit) && (forall m :: m in table ==> Fetched(pages, m)) && k < |pages| - 1
    ensures IsInnerPage(table, pages, k, limit) && EndsCleanly(table, pages, k)
  {
    assert IsInnerPage(table, pages, k, limit);
    forall m | m in Matching(table, pages, k) && m !in pages[k]
      ensures m.sentAt < Last(pages[k]).sentAt
    {
      MissedAreExactlyTheTied(table, pages, limit, m);
    }
  }

  lemma CompleteWalkBreaksCleanly(table: set<Envelope>, pages: seq<seq<Envelope>>, k: nat, limit: nat)
    requires IsWalk(table, pages, limit) && (forall m :: m in table ==> Fetched(pages, m))
    requires k >= 1 && Rows(k, limit) < |table|
    ensures BreaksAfter(table, Rows(k, limit))
  {
    forall j: nat | j < |pages| - 1
      ensures IsInnerPage(table, pages, j, limit) && EndsCleanly(table, pages, j)
    {
      CompleteWalkEndsCleanly(table, pages, j, limit);
    }
    var final := |pages| - 1;
    CleanPagesCount(table, pages, final, limit);
    OnePageMore(final, limit);
    if k > final {
      FewerPagesFewerRows(final + 1, k, limit);
    } else {
      CleanPagesCount(table, pages, k, limit);
      var t := Last(pages[k - 1]).sentAt;
      assert SentFrom(table, t) == table - Matching(table, pages, k);
      assert |SentFrom(table, t)| == Rows(k, limit);
    }
  }

  /**
   When nothing is missed. Any walk through a table fetches all of it if and only if no full page, counted
   off from the latest message, has to end between two messages of the same second.
   */
  lemma WalkIsCompleteExactlyWhen(table: set<Envelope>, pages: seq<seq<Envelope>>, limit: nat)
    requires IsWalk(table, pages, limit) && limit > 0
    ensures (forall m :: m in table ==> Fetched(pages, m)) <==> BreaksCleanly(table, limit)
  {
    if BreaksCleanly(table, limit) {
      CleanBreaksMakeCleanPages(table, pages, |pages| - 1, limit);
      forall m | m in table
        ensures Fetched(pages, m)
      {
        CleanPagesMissNothing(table, pages, limit, m);
      }
    }
    if forall m :: m in table ==> Fetched(pages, m) {
      forall k: nat | k >= 1 && Rows(k, limit) < |table|
        ensures BreaksAfter(table, Rows(k, limit))
      {
        CompleteWalkBreaksCleanly(table, pages, k, limit);
      }
    }
  }

  lemma CleanPagesMissNothing(table: set<Envelope>, pages: seq<seq<Envelope>>, limit: nat, m: Envelope)
    requires IsWalk(table, pages, limit) && m in table
    requires forall j: nat :: j < |pages| - 1 ==> IsInnerPage(table, pages, j, limit) && EndsCleanly(table, pages, j)
    ensures Fetched(pages, m)
  {
    forall k: nat | k < |pages| - 1 && pages[k] != [] && m !in pages[k]
      ensures m.sentAt != Last(pages[k]).sentAt
    {
      assert IsInnerPage(table, pages, k, limit) && EndsCleanly(table, pages, k);
      assert Last(pages[k]) in Elements(pages[k]);
    }
    MissedAreExactlyTheTied(table, pages, limit, m);
  }

  /** Such tables are missed: more messages than a page holds, all sent in the same second. */
  lemma OneBusySecondIsCutOff(table: set<Envelope>, pages: seq<seq<Envelope>>, limit: nat)
    requires IsWalk(table, pages, limit) && 0 < limit < |table|
    requires forall m, n :: m in table && n in table ==> m.sentAt == n.sentAt
    ensures exists m :: m in table && !Fetched(pages, m)
  {
    WalkIsCompleteExactlyWhen(table, pages, limit);
    forall t
      ensures |SentFrom(table, t)| != Rows(1, limit)
    {
      assert SentFrom(table, t) == {} || SentFrom(table, t) == table;
    }
    assert !BreaksAfter(table, Rows(1, limit));
  }

  // ---------------------------------------------------------------- the seconds that pages cut

  /** A full page taken from `matching` ends in second t, which holds the limit-th latest message. */
  predicate EndsIn(matching: set<Envelope>, limit: nat, t: int)
  {
    |SentFrom(matching, t + 1)| < limit <= |SentFrom(matching, t)|
  }

  /** In paging through the table some page has to end within second t, with messages of t left over. */
  ghost predicate CutsSecond(table: set<Envelope>, limit: nat, t: int)
    decreases |table|, 1
  {
    |table| > limit && exists end :: EndsIn(table, limit, end) && CutsFrom(table, limit, t, end)
  }

  /** The page that ends in this second cuts t, or a later page does. */
  ghost predicate CutsFrom(table: set<Envelope>, limit: nat, t: int, end: int)
    decreases |table|, 0
  {
    var rest := SentBefore(table, Some(end));
    (end == t && |SentFrom(table, t)| > limit) || (|rest| < |table| && CutsSecond(rest, limit, t))
  }

  lemma SentFromShrinks(table: set<Envelope>, t: int, u: int)
    requires t <= u
    ensures SentFrom(table, u) <= SentFrom(table, t) && |SentFrom(table, u)| <= |SentFrom(table, t)|
  {
    SubsetIsSmaller(SentFrom(table, u), SentFrom(table, t));
  }

  lemma OneEnd(matching: set<Envelope>, limit: nat, t: int, u: int)
    requires EndsIn(matching, limit, t) && EndsIn(matching, limit, u)
    ensures t == u
  {
    if t < u {
      SentFromShrinks(matching, t + 1, u);
    } else if u < t {
      SentFromShrinks(matching, u + 1, t);
    }
  }

  /** A full page ends in the second that the table prescribes. */
  lemma PageEndsThere(rows: seq<Envelope>, matching: set<Envelope>, limit: nat)
    requires IsTop(rows, matching, limit) && 0 < limit < |matching|
    ensures rows != [] && EndsIn(matching, limit, Last(rows).sentAt)
    ensures Last(rows) in matching && |SentBefore(matching, Some(Last(rows).sentAt))| < |matching|
  {
    var last := Last(rows);
    DistinctCount(rows);
    assert last in Elements(rows);
    forall m | m in Elements(rows)
      ensures m in SentFrom(matching, last.sentAt)
    {
      LastIsEarliest(rows, m);
    }
    SubsetIsSmaller(Elements(rows), SentFrom(matching, last.sentAt));
    forall m | m in SentFrom(matching, last.sentAt + 1)
      ensures m in Elements(rows) - {last}
    {
    }
    SubsetIsSmaller(SentFrom(matching, last.sentAt + 1), Elements(rows) - {last});
    SubsetIsSmaller(SentBefore(matching, Some(last.sentAt)), matching - {last});
  }

  /** What a full page leaves over is sent before its end, or cut off within its last second. */
  lemma LeftOverOfAPage(rows: seq<Envelope>, matching: set<Envelope>, limit: nat, m: Envelope)
    requires IsTop(rows, matching, limit) && 0 < limit < |matching| && m in matching && m !in rows
    ensures rows != [] && m.sentAt <= Last(rows).sentAt
    ensures m.sentAt == Last(rows).sentAt ==> |SentFrom(matching, m.sentAt)| > limit
  {
    DistinctCount(rows);
    if m.sentAt == Last(rows).sentAt {
      assert m !in Elements(rows);
      forall x | x in Elements(rows)
        ensures x in SentFrom(matching, m.sentAt)
      {
        LastIsEarliest(rows, x);
      }
      SubsetIsSmaller(Elements(rows) + {m}, SentFrom(matching, m.sentAt));
    }
  }

  // ---------------------------------------------------------------- walks, page by page

  lemma SentBeforeTwice(table: set<Envelope>, end: int, cutoff: int)
    requires cutoff <= end
    ensures SentBefore(SentBefore(table, Some(end)), Some(cutoff)) == SentBefore(table, Some(cutoff))
  {
  }

  /** A walk is a last page, or a full page and a walk through what was sent before its end. */
  ghost predicate IsWalkFrom(table: set<Envelope>, pages: seq<seq<Envelope>>, limit: nat)
    decreases |pages|
  {
    && pages != [] && IsTop(pages[0], table, limit)
    && if |table| <= limit then |pages| == 1
       else pages[0] != [] && IsWalkFrom(SentBefore(table, Some(Last(pages[0]).sentAt)), pages[1..], limit)
  }

  /** Pages from k on are a walk through what page k is taken from. */
  lemma {:induction false} RestIsAWalk(table: set<Envelope>, pages: seq<seq<Envelope>>, k: nat, limit: nat)
    requires IsWalk(table, pages, limit) && k < |pages|
    ensures k > 0 ==> pages[k - 1] != []
    ensures IsWalkFrom(Matching(table, pages, k), pages[k..], limit)
    decreases |pages| - k
  {
    PageOfWalk(table, pages, k, limit);
    if k < |pages| - 1 {
      assert IsInnerPage(table, pages, k, limit);
      RestIsAWalk(table, pages, k + 1, limit);
      assert pages[k..][1..] == pages[k + 1..];
      NextIsBefore(table, pages, k, limit);
    }
  }

  lemma NextIsBefore(table: set<Envelope>, pages: seq<seq<Envelope>>, k: nat, limit: nat)
    requires IsInnerPage(table, pages, k, limit)
    ensures SentBefore(Matching(table, pages, k), Some(Last(pages[k]).sentAt)) == Matching(table, pages, k + 1)
  {
    assert Last(pages[k]) in Elements(pages[k]);
  }

  lemma LastPageHoldsAll(rows: seq<Envelope>, table: set<Envelope>, limit: nat, m: Envelope)
    requires IsTop(rows, table, limit) && |table| <= limit && m in table
    ensures m in rows
  {
    DistinctCount(rows);
    SameSizeSubset(Elements(rows), table);
    assert m in Elements(rows);
  }

  /** What a walk from the table misses lies in a second that paging cuts. */
  lemma {:induction false} MissedSecondIsCut(table: set<Envelope>, pages: seq<seq<Envelope>>, limit: nat, m: Envelope)
    requires IsWalkFrom(table, pages, limit) && limit > 0 && m in table && !Fetched(pages, m)
    ensures CutsSecond(table, limit, m.sentAt)
    decreases |pages|
  {
    assert m !in pages[0];
    if |table| <= limit {
      LastPageHoldsAll(pages[0], table, limit, m);
    } else {
      var end := Last(pages[0]).sentAt;
      PageEndsThere(pages[0], table, limit);
      LeftOverOfAPage(pages[0], table, limit, m);
      if m.sentAt < end {
        forall k | 0 <= k < |pages[1..]|
          ensures m !in pages[1..][k]
        {
          assert pages[1..][k] == pages[k + 1];
        }
        MissedSecondIsCut(SentBefore(table, Some(end)), pages[1..], limit, m);
      }
    }
  }

  lemma TopExists(matching: set<Envelope>, n: nat) returns (rows: seq<Envelope>)
    ensures IsTop(rows, matching, n)
  {
    rows := [];
    var rest := matching;
    while rest != {} && |rows| < n
      invariant IsSelection(rows, rest, matching) && |rows| <= n
      decreases |rest|
    {
      var m := LatestExists(rest);
      SelectionGrows(rows, rest, matching, m);
      rows, rest := rows + [m], rest - {m};
    }
    SelectionIsTop(rows, rest, matching, n);
  }

  /** From every table some walk can be taken. */
  lemma {:induction false} WalkExists(table: set<Envelope>, limit: nat) returns (pages: seq<seq<Envelope>>)
    requires limit > 0
    ensures IsWalkFrom(table, pages, limit)
    decreases |table|
  {
    var rows := TopExists(table, limit);
    pages := [rows];
    if |table| > limit {
      PageEndsThere(rows, table, limit);
      var rest := WalkExists(SentBefore(table, Some(Last(rows).sentAt)), limit);
      pages := [rows] + rest;
      assert pages[1..] == rest;
    }
  }

  /** A page that ends within the second of a message can be taken without that message. */
  lemma TopWithout(table: set<Envelope>, limit: nat, m: Envelope) returns (rows: seq<Envelope>)
    requires m in table && limit > 0 && |SentFrom(table, m.sentAt)| > limit
    ensures IsTop(rows, table, limit) && m !in rows
  {
    var others := table - {m};
    rows := TopExists(others, limit);
    assert SentFrom(table, m.sentAt) == SentFrom(others, m.sentAt) + {m};
    SubsetIsSmaller(SentFrom(table, m.sentAt), table);
    DistinctCount(rows);
    assert m !in Elements(rows);
    forall i | 0 <= i < |rows|
      ensures m.sentAt <= rows[i].sentAt
    {
      if rows[i].sentAt < m.sentAt {
        forall x | x in SentFrom(others, m.sentAt)
          ensures x in Elements(rows) - {rows[i]}
        {
        }
        assert rows[i] in Elements(rows);
        SubsetIsSmaller(SentFrom(others, m.sentAt), Elements(rows) - {rows[i]});
      }
    }
  }

  lemma {:induction false} WalksHoldTheTable(table: set<Envelope>, pages: seq<seq<Envelope>>, limit: nat, m: Envelope)
    requires IsWalkFrom(table, pages, limit) && Fetched(pages, m)
    ensures m in table
    decreases |pages|
  {
    if m in pages[0] {
      assert m in Elements(pages[0]);
    } else {
      var k :| 0 <= k < |pages| && m in pages[k];
      assert pages[1..][k - 1] == pages[k];
      WalksHoldTheTable(SentBefore(table, Some(Last(pages[0]).sentAt)), pages[1..], limit, m);
    }
  }

  lemma {:induction false} CutSecondIsInTheTable(table: set<Envelope>, limit: nat, t: int) returns (x: Envelope)
    requires limit > 0 && CutsSecond(table, limit, t)
    ensures x in table && x.sentAt == t
    decreases |table|
  {
    var end :| EndsIn(table, limit, end) && CutsFrom(table, limit, t, end);
    if end == t {
      assert SentFrom(table, t) != SentFrom(table, t + 1);
      x :| x in SentFrom(table, t) - SentFrom(table, t + 1);
    } else {
      x := CutSecondIsInTheTable(SentBefore(table, Some(end)), limit, t);
    }
  }

  /** Some walk misses any given message of a second that paging cuts. */
  lemma {:induction false} WalkWithout(table: set<Envelope>, limit: nat, m: Envelope)
    returns (pages: seq<seq<Envelope>>)
    requires m in table && limit > 0 && CutsSecond(table, limit, m.sentAt)
    ensures IsWalkFrom(table, pages, limit) && !Fetched(pages, m)
    decreases |table|
  {
    var end :| EndsIn(table, limit, end) && CutsFrom(table, limit, m.sentAt, end);
    var rows, rest;
    if end == m.sentAt && |SentFrom(table, m.sentAt)| > limit {
      rows := TopWithout(table, limit, m);
      PageEndsThere(rows, table, limit);
      OneEnd(table, limit, end, Last(rows).sentAt);
      rest := WalkExists(SentBefore(table, Some(end)), limit);
      if Fetched(rest, m) {
        WalksHoldTheTable(SentBefore(table, Some(end)), rest, limit, m);
      }
    } else {
      var x := CutSecondIsInTheTable(SentBefore(table, Some(end)), limit, m.sentAt);
      rows := TopExists(table, limit);
      PageEndsThere(rows, table, limit);
      OneEnd(table, limit, end, Last(rows).sentAt);
      rest := WalkWithout(SentBefore(table, Some(end)), limit, m);
      if m in rows {
        LastIsEarliest(rows, m);
      }
    }
    pages := [rows] + rest;
    assert pages[1..] == rest;
    forall k | 0 <= k < |pages|
      ensures m !in pages[k]
    {
      if k > 0 {
        assert pages[k] == rest[k - 1];
      }
    }
  }

  lemma MatchingOfTheRest(table: set<Envelope>, pages: seq<seq<Envelope>>, k: nat, limit: nat)
    requires pages != [] && pages[0] != [] && k < |pages[1..]|
    requires
      var rest := SentBefore(table, Some(Last(pages[0]).sentAt));
      k > 0 ==> pages[1..][k - 1] != [] && Last(pages[1..][k - 1]) in rest
    ensures pages[k] != []
    ensures Matching(table, pages, k + 1)
         == Matching(SentBefore(table, Some(Last(pages[0]).sentAt)), pages[1..], k)
  {
    if k > 0 {
      assert pages[1..][k - 1] == pages[k];
      SentBeforeTwice(table, Last(pages[0]).sentAt, Last(pages[k]).sentAt);
    }
  }

  lemma FirstPageOfAWalk(table: set<Envelope>, pages: seq<seq<Envelope>>, limit: nat)
    requires IsWalkFrom(table, pages, limit) && |table| > limit
    ensures IsInnerPage(table, pages, 0, limit)
  {
    assert Matching(table, pages, 0) == table;
  }

  lemma LaterPageOfAWalk(table: set<Envelope>, pages: seq<seq<Envelope>>, k: nat, limit: nat)
    requires pages != [] && pages[0] != [] && k < |pages[1..]|
    requires IsWalk(SentBefore(table, Some(Last(pages[0]).sentAt)), pages[1..], limit)
    ensures k < |pages[1..]| - 1 ==> IsInnerPage(table, pages, k + 1, limit)
    ensures k == |pages[1..]| - 1 ==> IsFinalPage(table, pages, k + 1, limit)
  {
    var rest := SentBefore(table, Some(Last(pages[0]).sentAt));
    if k > 0 {
      assert IsInnerPage(rest, pages[1..], k - 1, limit);
      LastRowIsInTable(rest, pages[1..], k - 1, limit);
    }
    MatchingOfTheRest(table, pages, k, limit);
    assert pages[1..][k] == pages[k + 1];
    if k < |pages[1..]| - 1 {
      assert IsInnerPage(rest, pages[1..], k, limit);
    }
  }

  lemma {:induction false} WalkFromIsAWalk(table: set<Envelope>, pages: seq<seq<Envelope>>, limit: nat)
    requires IsWalkFrom(table, pages, limit)
    ensures IsWalk(table, pages, limit)
    decreases |pages|
  {
    if |table| <= limit {
      assert Matching(table, pages, 0) == table;
    } else {
      FirstPageOfAWalk(table, pages, limit);
      WalkFromIsAWalk(SentBefore(table, Some(Last(pages[0]).sentAt)), pages[1..], limit);
      forall k | 0 <= k < |pages| - 1
        ensures IsInnerPage(table, pages, k, limit)
      {
        if k > 0 {
          LaterPageOfAWalk(table, pages, k - 1, limit);
        }
      }
      LaterPageOfAWalk(table, pages, |pages| - 2, limit);
    }
  }

  lemma UncutIsFetched(table: set<Envelope>, pages: seq<seq<Envelope>>, limit: nat, m: Envelope)
    requires IsWalk(table, pages, limit) && limit > 0 && m in table && !CutsSecond(table, limit, m.sentAt)
    ensures Fetched(pages, m)
  {
    RestIsAWalk(table, pages, 0, limit);
    assert pages[0..] == pages && Matching(table, pages, 0) == table;
    if !Fetched(pages, m) {
      MissedSecondIsCut(table, pages, limit, m);
    }
  }

  /** A message is fetched by every walk that can be taken. */
  ghost predicate AlwaysFetched(table: set<Envelope>, limit: nat, m: Envelope)
  {
    forall pages :: IsWalk(table, pages, limit) ==> Fetched(pages, m)
  }

  /**
   Which messages are sure to be fetched: those, and only those, that no page end cuts off from others of
   their second. Which seconds are cut depends on the table alone.
   */
  lemma AlwaysFetchedExactlyWhen(table: set<Envelope>, limit: nat, m: Envelope)
    requires limit > 0 && m in table
    ensures AlwaysFetched(table, limit, m) <==> !CutsSecond(table, limit, m.sentAt)
  {
    if CutsSecond(table, limit, m.sentAt) {
      var pages := WalkWithout(table, limit, m);
      WalkFromIsAWalk(table, pages, limit);
      assert !Fetched(pages, m);
    } else {
      forall pages | IsWalk(table, pages, limit)
        ensures Fetched(pages, m)
      {
        UncutIsFetched(table, pages, limit, m);
      }
    }
  }

  // ---------------------------------------------------------------- processing

  function Reversed<T>(s: seq<T>): (r: seq<T>)
    ensures |r| == |s| && forall i :: 0 <= i < |s| ==> r[i] == s[|s| - 1 - i]
  {
    if s == [] then [] else [s[|s| - 1]] + Reversed(s[..|s| - 1])
  }

  /** Pages in reverse, and each page in reverse. */
  function ProcessingOrder(pages: seq<seq<Envelope>>): seq<Envelope>
  {
    if pages == [] then [] else ProcessingOrder(pages[1..]) + Reversed(pages[0])
  }

  /** The envelopes that others sent, in order. */
  function FromOthers(s: seq<Envelope>, me: string): seq<Envelope>
  {
    if s == [] then []
    else
      var init, last := s[..|s| - 1], s[|s| - 1];
      if last.senderId == me then FromOthers(init, me) else FromOthers(init, me) + [last]
  }

  lemma {:induction false} ProcessingOrderHoldsPages(pages: seq<seq<Envelope>>, m: Envelope)
    ensures m in ProcessingOrder(pages) <==> Fetched(pages, m)
  {
    if pages != [] {
      ProcessingOrderHoldsPages(pages[1..], m);
      var s := Reversed(pages[0]);
      if m in pages[0] {
        var i :| 0 <= i < |pages[0]| && pages[0][i] == m;
        assert s[|s| - 1 - i] == m;
      }
      if Fetched(pages[1..], m) {
        var k :| 0 <= k < |pages| - 1 && m in pages[1..][k];
        assert m in pages[k + 1];
      }
      if Fetched(pages, m) && m !in pages[0] {
        var k :| 0 <= k < |pages| && m in pages[k];
        assert pages[1..][k - 1] == pages[k];
      }
    }
  }

  predicate OldestFirst(s: seq<Envelope>)
  {
    forall i, j :: 0 <= i < j < |s| ==> s[i].sentAt <= s[j].sentAt
  }

  lemma ReversedRunsForward(page: seq<Envelope>)
    requires LatestFirst(page) && Distinct(page)
    ensures OldestFirst(Reversed(page)) && Distinct(Reversed(page))
  {
  }

  lemma JoinRunsForward(older: seq<Envelope>, newer: seq<Envelope>)
    requires OldestFirst(older) && Distinct(older) && OldestFirst(newer) && Distinct(newer)
    requires forall i, j :: 0 <= i < |older| && 0 <= j < |newer| ==> older[i].sentAt < newer[j].sentAt
    ensures OldestFirst(older + newer) && Distinct(older + newer)
  {
  }

  /** From page k on, the double reversal runs forward in time and repeats nothing. */
  lemma {:induction false} SuffixRunsForward(table: set<Envelope>, pages: seq<seq<Envelope>>, k: nat, limit: nat)
    requires IsWalk(table, pages, limit) && k <= |pages|
    ensures OldestFirst(ProcessingOrder(pages[k..])) && Distinct(ProcessingOrder(pages[k..]))
    decreases |pages| - k
  {
    if k < |pages| {
      SuffixRunsForward(table, pages, k + 1, limit);
      PageOfWalk(table, pages, k, limit);
      var older, newer := ProcessingOrder(pages[k + 1..]), Reversed(pages[k]);
      assert pages[k..][1..] == pages[k + 1..] && pages[k..][0] == pages[k];
      forall i, j | 0 <= i < |older| && 0 <= j < |newer|
        ensures older[i].sentAt < newer[j].sentAt
      {
        ProcessingOrderHoldsPages(pages[k + 1..], older[i]);
        var l :| 0 <= l < |pages[k + 1..]| && older[i] in pages[k + 1..][l];
        PagesDescend(table, pages, k, k + 1 + l, limit, newer[j], older[i]);
      }
      ReversedRunsForward(pages[k]);
      JoinRunsForward(older, newer);
    }
  }

  /** The client processes what it fetched in non-decreasing order of sent_at, each message once. */
  lemma ProcessingRunsForward(table: set<Envelope>, pages: seq<seq<Envelope>>, limit: nat)
    requires IsWalk(table, pages, limit)
    ensures OldestFirst(ProcessingOrder(pages)) && Distinct(ProcessingOrder(pages))
  {
    SuffixRunsForward(table, pages, 0, limit);
    assert pages[0..] == pages;
  }

  lemma {:induction false} FromOthersConcat(s: seq<Envelope>, t: seq<Envelope>, me: string)
    ensures FromOthers(s + t, me) == FromOthers(s, me) + FromOthers(t, me)
  {
    if t == [] {
      assert s + t == s;
    } else {
      var init := t[..|t| - 1];
      FromOthersConcat(s, init, me);
      assert (s + t)[..|s + t| - 1] == s + init;
    }
  }

  lemma {:induction false} FromOthersHolds(s: seq<Envelope>, me: string, m: Envelope)
    ensures m in FromOthers(s, me) <==> m in s && m.senderId != me
  {
    if s != [] {
      FromOthersHolds(s[..|s| - 1], me, m);
      assert s == s[..|s| - 1] + [s[|s| - 1]];
    }
  }

  lemma LastIsLatest(s: seq<Envelope>, m: Envelope)
    requires OldestFirst(s) && s != [] && m in s[..|s| - 1]
    ensures m.sentAt <= s[|s| - 1].sentAt
  {
  }

  lemma AppendRunsForward(s: seq<Envelope>, m: Envelope)
    requires OldestFirst(s) && forall x :: x in s ==> x.sentAt <= m.sentAt
    ensures OldestFirst(s + [m])
  {
    assert forall i :: 0 <= i < |s| ==> s[i] in s;
  }

  lemma {:induction false} FromOthersRunsForward(s: seq<Envelope>, me: string)
    requires OldestFirst(s)
    ensures OldestFirst(FromOthers(s, me))
  {
    if s != [] {
      var init, last := s[..|s| - 1], s[|s| - 1];
      FromOthersRunsForward(init, me);
      forall x | x in FromOthers(init, me)
        ensures x.sentAt <= last.sentAt
      {
        FromOthersHolds(init, me, x);
        LastIsLatest(s, x);
      }
      AppendRunsForward(FromOthers(init, me), last);
    }
  }

  lemma {:induction false} FromOthersRepeatsNothing(s: seq<Envelope>, me: string)
    requires Distinct(s)
    ensures Distinct(FromOthers(s, me))
  {
    if s != [] {
      var init, last := s[..|s| - 1], s[|s| - 1];
      FromOthersRepeatsNothing(init, me);
      FromOthersHolds(init, me, last);
      assert last !in init;
    }
  }

  method ProcessPage(page: seq<Envelope>, me: string) returns (handed: seq<Envelope>)
    ensures handed == FromOthers(Reversed(page), me)
  {
    handed := [];
    ghost var order := Reversed(page);
    var i := |page|;
    while i > 0
      invariant 0 <= i <= |page|
      invariant handed == FromOthers(order[..|page| - i], me)
    {
      i := i - 1;
      var envelope := page[i];
      assert order[..|page| - i] == order[..|page| - i - 1] + [envelope];
      if envelope.senderId != me {
        handed := handed + [envelope];
      }
    }
    assert order[..|page|] == order;
  }

  /** The second loop: walk the pages backwards and hand over everything the user did not send. */
  method ProcessPages(pages: seq<seq<Envelope>>, me: string) returns (handed: seq<Envelope>)
    ensures handed == FromOthers(ProcessingOrder(pages), me)
  {
    handed := [];
    var k := |pages|;
    while k > 0
      invariant 0 <= k <= |pages|
      invariant handed == FromOthers(ProcessingOrder(pages[k..]), me)
    {
      k := k - 1;
      assert pages[k..][1..] == pages[k + 1..] && pages[k..][0] == pages[k];
      var more := ProcessPage(pages[k], me);
      FromOthersConcat(ProcessingOrder(pages[k + 1..]), Reversed(pages[k]), me);
      handed := handed + more;
    }
    assert pages[0..] == pages;
  }

  // ---------------------------------------------------------------- the whole synchronisation

  lemma WalkIsFromTheTable(table: set<Envelope>, pages: seq<seq<Envelope>>, limit: nat, m: Envelope)
    requires IsWalk(table, pages, limit) && Fetched(pages, m)
    ensures m in table
  {
    var k :| 0 <= k < |pages| && m in pages[k];
    PageOfWalk(table, pages, k, limit);
    assert m in Elements(pages[k]);
  }

  /** What is handed over of a walk: in order of time, each once, and exactly what was fetched of others. */
  lemma HandedOverOfAWalk(table: set<Envelope>, pages: seq<seq<Envelope>>, limit: nat, me: string)
    requires IsWalk(table, pages, limit)
    ensures
      var handed := FromOthers(ProcessingOrder(pages), me);
      && OldestFirst(handed) && Distinct(handed)
      && (forall m :: m in handed <==> Fetched(pages, m) && m.senderId != me)
      && (forall m :: m in handed ==> m in table)
  {
    ProcessingRunsForward(table, pages, limit);
    FromOthersRunsForward(ProcessingOrder(pages), me);
    FromOthersRepeatsNothing(ProcessingOrder(pages), me);
    forall m
      ensures m in FromOthers(ProcessingOrder(pages), me) <==> Fetched(pages, m) && m.senderId != me
      ensures Fetched(pages, m) ==> m in table
    {
      FromOthersHolds(ProcessingOrder(pages), me, m);
      ProcessingOrderHoldsPages(pages, m);
      if Fetched(pages, m) {
        WalkIsFromTheTable(table, pages, limit, m);
      }
    }
  }

  /** If no page has to end within a second, no second is cut. */
  lemma CleanBreaksCutNothing(table: set<Envelope>, limit: nat, me: string)
    requires limit > 0 && BreaksCleanly(table, limit)
    ensures OthersAreUncut(table, limit, me)
  {
    forall m | m in table
      ensures !CutsSecond(table, limit, m.sentAt)
    {
      forall pages | IsWalk(table, pages, limit)
        ensures Fetched(pages, m)
      {
        WalkIsCompleteExactlyWhen(table, pages, limit);
      }
      AlwaysFetchedExactlyWhen(table, limit, m);
    }
  }

  /** Every walk hands over all that others sent. */
  ghost predicate AlwaysHandsOverAll(table: set<Envelope>, limit: nat, me: string)
  {
    forall pages, m :: IsWalk(table, pages, limit) && m in table && m.senderId != me ==>
      m in FromOthers(ProcessingOrder(pages), me)
  }

  /** Nobody else sent anything in a second that paging cuts. */
  ghost predicate OthersAreUncut(table: set<Envelope>, limit: nat, me: string)
  {
    forall m :: m in table && m.senderId != me ==> !CutsSecond(table, limit, m.sentAt)
  }

  /**
   When the synchronisation is complete. Whatever order the database gives to messages of one second, all
   that others sent is handed over if and only if none of it lies in a second that a page end cuts.
   */
  lemma SynchronisationIsCompleteExactlyWhen(table: set<Envelope>, limit: nat, me: string)
    requires limit > 0
    ensures AlwaysHandsOverAll(table, limit, me) <==> OthersAreUncut(table, limit, me)
  {
    if OthersAreUncut(table, limit, me) {
      forall pages, m | IsWalk(table, pages, limit) && m in table && m.senderId != me
        ensures m in FromOthers(ProcessingOrder(pages), me)
      {
        UncutIsFetched(table, pages, limit, m);
        HandedOverOfAWalk(table, pages, limit, me);
      }
    } else {
      var m :| m in table && m.senderId != me && CutsSecond(table, limit, m.sentAt);
      AlwaysFetchedExactlyWhen(table, limit, m);
      var pages :| IsWalk(table, pages, limit) && !Fetched(pages, m);
      HandedOverOfAWalk(table, pages, limit, me);
      assert m !in FromOthers(ProcessingOrder(pages), me);
    }
  }

  /** There are no more inner pages than messages. */
  lemma {:induction false} InnerPagesAreFew(table: set<Envelope>, pages: seq<seq<Envelope>>, k: nat, limit: nat)
    requires k <= |pages| && InnerPages(table, pages, k, limit)
    ensures k > 0 ==> pages[k - 1] != []
    ensures |Matching(table, pages, k)| + k <= |table|
  {
    if k == 0 {
      assert Matching(table, pages, 0) == table;
    } else {
      InnerPagesAreFew(table, pages, k - 1, limit);
      assert IsInnerPage(table, pages, k - 1, limit);
      MatchingShrinks(table, pages, k - 1, limit);
    }
  }

  /**
   Both loops together. Only messages that others sent are handed over, in order of time and each once;
   and all of them, provided no request fails, if nobody else wrote in a second that a page end cuts. A
   request that fails means that nothing is handed over, not that something is handed over in part.
   */
  method SyncHistory(table: set<Envelope>, me: string, failAt: nat) returns (handed: seq<Envelope>)
    requires KeyedById(table)
    ensures OldestFirst(handed) && Distinct(handed)
    ensures forall m :: m in handed ==> m in table && m.senderId != me
    ensures failAt > |table| && OthersAreUncut(table, CLIENT_LIMIT, me) ==>
              forall m :: m in table && m.senderId != me ==> m in handed
    ensures || (exists pages :: IsWalk(table, pages, CLIENT_LIMIT) && |pages| <= failAt
                                && handed == FromOthers(ProcessingOrder(pages), me))
            || (handed == [] && exists pages :: |pages| == failAt && InnerPages(table, pages, failAt, CLIENT_LIMIT))
  {
    var pages := CollectPages(table, failAt);
    if pages.None? {
      ghost var inner :| |inner| == failAt && InnerPages(table, inner, failAt, CLIENT_LIMIT);
      InnerPagesAreFew(table, inner, failAt, CLIENT_LIMIT);
      return [];
    }
    handed := ProcessPages(pages.value, me);
    HandedOverOfAWalk(table, pages.value, CLIENT_LIMIT, me);
    SynchronisationIsCompleteExactlyWhen(table, CLIENT_LIMIT, me);
  }
}
