/** Paging a thread: take one row too many, slice, then filter out what this company may not see. */
module MessagePaging {
  import opened Common

  type MessageId = string

  datatype Metadata = Metadata(kind: string, status: string, targetCompany: Option<CompanyId>, side: string,
                               company: Option<CompanyId>)

  datatype Message = Message(id: MessageId, system: bool, metadata: Option<Metadata>)

  /** Denied pack requests stay with the asked company; a company-side notice stays with that company. */
  predicate VisibleTo(m: Message, viewer: CompanyId) {
    match m.metadata
    case None => true
    case Some(meta) =>
      if (meta.kind == "collection_view_request" || meta.kind == "relist_request") && meta.status == "denied"
      then meta.targetCompany == Some(viewer)
      else if !m.system then true
      else if meta.side == "company" then meta.company == Some(viewer)
      else true
  }

  /**
   * A denied request is hidden from everybody but the company it asked; of the other messages only a system notice
   * for one company's side is hidden, from everybody but that company.
   */
  lemma HiddenExactly(m: Message, viewer: CompanyId)
    ensures !VisibleTo(m, viewer) <==>
            && m.metadata.Some?
            && var meta := m.metadata.value;
            && if meta.kind in {"collection_view_request", "relist_request"} && meta.status == "denied"
               then meta.targetCompany != Some(viewer)
               else m.system && meta.side == "company" && meta.company != Some(viewer)
  {
  }

  function Visible(rows: seq<Message>, viewer: CompanyId): seq<Message> {
    if rows == [] then []
    else if VisibleTo(rows[0], viewer) then [rows[0]] + Visible(rows[1..], viewer)
    else Visible(rows[1..], viewer)
  }

  /** Rows in list order, newest first; ids are unique. */
  ghost predicate UniqueIds(rows: seq<Message>) {
    forall i, j :: 0 <= i < j < |rows| ==> rows[i].id != rows[j].id
  }

  /** Where the page after `cursor` starts: past the cursor row; past everything when the row is gone. */
  function StartOf(rows: seq<Message>, cursor: Option<MessageId>): (start: nat)
    ensures start <= |rows|
  {
    if cursor.None? then 0 else AfterId(rows, cursor.value)
  }

  function AfterId(rows: seq<Message>, id: MessageId): (start: nat)
    ensures start <= |rows|
  {
    if rows == [] then 0 else if rows[0].id == id then 1 else 1 + AfterId(rows[1..], id)
  }

  datatype Page = Page(results: seq<Message>, nextCursor: Option<MessageId>)

  function Min(a: int, b: int): int { if a < b then a else b }

  function List(rows: seq<Message>, cursor: Option<MessageId>, limit: nat, viewer: CompanyId): Page {
    var start := StartOf(rows, cursor);
    var fetched := rows[start..Min(start + limit + 1, |rows|)];
    var hasMore := |fetched| > limit;
    var page := Visible(if hasMore then fetched[..limit] else fetched, viewer);
    Page(page, if hasMore && page != [] then Some(page[|page| - 1].id) else None)
  }

  lemma {:induction false} AfterIdOfRow(rows: seq<Message>, k: nat)
    requires UniqueIds(rows) && k < |rows|
    ensures AfterId(rows, rows[k].id) == k + 1
  {
    if k > 0 {
      assert rows[0].id != rows[k].id;
      AfterIdOfRow(rows[1..], k - 1);
    }
  }

  lemma {:induction false} VisibleConcat(a: seq<Message>, b: seq<Message>, viewer: CompanyId)
    ensures Visible(a + b, viewer) == Visible(a, viewer) + Visible(b, viewer)
  {
    if a == [] {
      assert a + b == b;
    } else {
      assert (a + b)[1..] == a[1..] + b;
      VisibleConcat(a[1..], b, viewer);
    }
  }

  /** Filtering keeps each visible row as often as it occurs, and no other. */
  lemma {:induction false} VisibleExactly(rows: seq<Message>, viewer: CompanyId, m: Message)
    ensures multiset(Visible(rows, viewer))[m] == if VisibleTo(m, viewer) then multiset(rows)[m] else 0
  {
    if rows != [] {
      VisibleExactly(rows[1..], viewer, m);
      assert rows == [rows[0]] + rows[1..];
    }
  }

  /** A page shows what is visible of the next `limit` rows, and names its last row exactly when rows are left. */
  lemma PageExactly(rows: seq<Message>, cursor: Option<MessageId>, limit: nat, viewer: CompanyId)
    ensures var start, page := StartOf(rows, cursor), List(rows, cursor, limit, viewer);
            && page.results == Visible(rows[start..if start + limit < |rows| then start + limit else |rows|], viewer)
            && page.nextCursor == if start + limit < |rows| && page.results != []
                                  then Some(page.results[|page.results| - 1].id) else None
  {
    var start := StartOf(rows, cursor);
    if start + limit < |rows| {
      assert rows[start..start + limit + 1][..limit] == rows[start..start + limit];
    }
  }

  /** Paging starts at the top, goes on right after the cursor's row, and is over when that row is gone. */
  lemma {:induction false} StartExactly(rows: seq<Message>, cursor: Option<MessageId>)
    requires UniqueIds(rows)
    ensures cursor.None? ==> StartOf(rows, cursor) == 0
    ensures forall k :: 0 <= k < |rows| && cursor == Some(rows[k].id) ==> StartOf(rows, cursor) == k + 1
    ensures cursor.Some? && (forall k :: 0 <= k < |rows| ==> rows[k].id != cursor.value) ==> StartOf(rows, cursor) == |rows|
  {
    if cursor.Some? {
      forall k: nat | k < |rows| && cursor == Some(rows[k].id)
        ensures AfterId(rows, cursor.value) == k + 1
      {
        AfterIdOfRow(rows, k);
      }
      AfterIdOfGone(rows, cursor.value);
    }
  }

  lemma {:induction false} AfterIdOfGone(rows: seq<Message>, id: MessageId)
    ensures (forall k :: 0 <= k < |rows| ==> rows[k].id != id) ==> AfterId(rows, id) == |rows|
  {
    if rows != [] {
      AfterIdOfGone(rows[1..], id);
      assert forall k :: 0 < k < |rows| ==> rows[k] == rows[1..][k - 1];
    }
  }

  lemma {:induction false} NothingVisible(rows: seq<Message>, viewer: CompanyId)
    ensures Visible(rows, viewer) == [] <==> forall i :: 0 <= i < |rows| ==> !VisibleTo(rows[i], viewer)
  {
    if rows != [] {
      NothingVisible(rows[1..], viewer);
      assert forall i :: 1 <= i < |rows| ==> rows[i] == rows[1..][i - 1];
    }
  }

  /** The last visible row of a non-empty filtered page. */
  lemma {:induction false} LastVisible(rows: seq<Message>, viewer: CompanyId) returns (k: nat)
    requires Visible(rows, viewer) != []
    ensures k < |rows| && VisibleTo(rows[k], viewer)
    ensures Visible(rows, viewer) == Visible(rows[..k + 1], viewer)
    ensures Visible(rows, viewer)[|Visible(rows, viewer)| - 1] == rows[k]
  {
    var front, last := rows[..|rows| - 1], rows[|rows| - 1];
    assert rows == front + [last];
    VisibleConcat(front, [last], viewer);
    if VisibleTo(last, viewer) {
      k := |rows| - 1;
      assert rows[..k + 1] == rows;
    } else {
      k := LastVisible(front, viewer);
      assert rows[..k + 1] == front[..k + 1];
    }
  }

  /** Everything a client collects by following `nextCursor` from `cursor`. */
  function Crawl(rows: seq<Message>, cursor: Option<MessageId>, limit: nat, viewer: CompanyId): seq<Message>
    requires UniqueIds(rows)
    decreases |rows| - StartOf(rows, cursor)
  {
    var page := List(rows, cursor, limit, viewer);
    if page.nextCursor.None? then page.results
    else
      CursorAdvances(rows, cursor, limit, viewer);
      page.results + Crawl(rows, page.nextCursor, limit, viewer)
  }

  lemma CursorAdvances(rows: seq<Message>, cursor: Option<MessageId>, limit: nat, viewer: CompanyId)
    requires UniqueIds(rows) && List(rows, cursor, limit, viewer).nextCursor.Some?
    ensures StartOf(rows, cursor) < StartOf(rows, List(rows, cursor, limit, viewer).nextCursor)
  {
    var k := NextStart(rows, cursor, limit, viewer);
  }

  /** A page that names a next cursor ends at a visible row `k`, and the next page starts right after it. */
  lemma NextStart(rows: seq<Message>, cursor: Option<MessageId>, limit: nat, viewer: CompanyId) returns (k: nat)
    requires UniqueIds(rows) && List(rows, cursor, limit, viewer).nextCursor.Some?
    ensures var start := StartOf(rows, cursor);
            && start <= k < start + limit < |rows| && VisibleTo(rows[k], viewer)
            && List(rows, cursor, limit, viewer).results == Visible(rows[start..k + 1], viewer)
            && StartOf(rows, List(rows, cursor, limit, viewer).nextCursor) == k + 1
  {
    var start := StartOf(rows, cursor);
    assert rows[start..start + limit + 1][..limit] == rows[start..start + limit];
    k := LastVisibleIn(rows, start, limit, viewer);
    AfterIdOfRow(rows, k);
  }

  /** The last visible row of a window of the list. */
  lemma LastVisibleIn(rows: seq<Message>, start: nat, limit: nat, viewer: CompanyId) returns (k: nat)
    requires start + limit <= |rows| && Visible(rows[start..start + limit], viewer) != []
    ensures start <= k < start + limit && VisibleTo(rows[k], viewer)
    ensures var page := Visible(rows[start..start + limit], viewer);
            page == Visible(rows[start..k + 1], viewer) && page[|page| - 1] == rows[k]
  {
    var window := rows[start..start + limit];
    var i := LastVisible(window, viewer);
    k := start + i;
    assert window[..i + 1] == rows[start..k + 1];
    assert window[i] == rows[k];
  }

  /** From row `from` on, `limit` hidden rows in a row with a visible row somewhere after them. */
  ghost predicate Stalls(rows: seq<Message>, from: nat, limit: nat, viewer: CompanyId) {
    exists i, j :: StallAt(rows, from, limit, viewer, i, j)
  }

  ghost predicate StallAt(rows: seq<Message>, from: nat, limit: nat, viewer: CompanyId, i: int, j: int) {
    && from <= i && i + limit <= j < |rows| && VisibleTo(rows[j], viewer)
    && forall h :: i <= h < i + limit ==> !VisibleTo(rows[h], viewer)
  }

  /** A page with no visible row ends the crawl; it was complete exactly when nothing visible comes later. */
  lemma StallsAtHiddenPage(rows: seq<Message>, start: nat, limit: nat, viewer: CompanyId)
    requires start + limit < |rows|
    requires forall h :: start <= h < start + limit ==> !VisibleTo(rows[h], viewer)
    ensures Visible(rows[start..], viewer) == [] <==> !Stalls(rows, start, limit, viewer)
  {
    NothingVisible(rows[start..], viewer);
    assert forall j :: start <= j < |rows| ==> rows[j] == rows[start..][j - start];
    if Visible(rows[start..], viewer) != [] {
      var d :| 0 <= d < |rows[start..]| && VisibleTo(rows[start..][d], viewer);
      assert StallAt(rows, start, limit, viewer, start, start + d);
    }
  }

  /** A visible row inside the page cannot be part of a stall, so only later rows matter. */
  lemma StallsPastVisible(rows: seq<Message>, start: nat, k: nat, limit: nat, viewer: CompanyId)
    requires start <= k < start + limit && k < |rows| && VisibleTo(rows[k], viewer)
    ensures Stalls(rows, start, limit, viewer) <==> Stalls(rows, k + 1, limit, viewer)
  {
    if Stalls(rows, start, limit, viewer) {
      var i, j :| StallAt(rows, start, limit, viewer, i, j);
      assert StallAt(rows, k + 1, limit, viewer, i, j);
    }
    if Stalls(rows, k + 1, limit, viewer) {
      var i, j :| StallAt(rows, k + 1, limit, viewer, i, j);
      assert StallAt(rows, start, limit, viewer, i, j);
    }
  }

  /** A page that ends at row `k` joins whatever is collected from row `k + 1` on. */
  lemma JoinedPages(rows: seq<Message>, start: nat, k: nat, later: seq<Message>, viewer: CompanyId)
    requires start <= k < |rows| && later <= Visible(rows[k + 1..], viewer)
    ensures var got, all := Visible(rows[start..k + 1], viewer) + later, Visible(rows[start..], viewer);
            got <= all && (got == all <==> later == Visible(rows[k + 1..], viewer))
  {
    assert rows[start..] == rows[start..k + 1] + rows[k + 1..];
    VisibleConcat(rows[start..k + 1], rows[k + 1..], viewer);
  }

  /** A page that names no next cursor: a hidden one, or the last. */
  lemma LastPage(rows: seq<Message>, cursor: Option<MessageId>, limit: nat, viewer: CompanyId)
    requires UniqueIds(rows) && List(rows, cursor, limit, viewer).nextCursor.None?
    ensures var start, got := StartOf(rows, cursor), List(rows, cursor, limit, viewer).results;
            && got <= Visible(rows[start..], viewer)
            && (got == Visible(rows[start..], viewer) <==> !Stalls(rows, start, limit, viewer))
  {
    var start := StartOf(rows, cursor);
    if start + limit < |rows| {
      var window := rows[start..start + limit];
      assert rows[start..start + limit + 1][..limit] == window;
      NothingVisible(window, viewer);
      assert forall h :: start <= h < start + limit ==> rows[h] == window[h - start];
      StallsAtHiddenPage(rows, start, limit, viewer);
    } else {
      assert rows[start..Min(start + limit + 1, |rows|)] == rows[start..];
    }
  }

  lemma {:induction false} CrawlFrom(rows: seq<Message>, cursor: Option<MessageId>, limit: nat, viewer: CompanyId)
    requires UniqueIds(rows)
    ensures var start, got := StartOf(rows, cursor), Crawl(rows, cursor, limit, viewer);
            && got <= Visible(rows[start..], viewer)
            && (got == Visible(rows[start..], viewer) <==> !Stalls(rows, start, limit, viewer))
    decreases |rows| - StartOf(rows, cursor)
  {
    var start, page := StartOf(rows, cursor), List(rows, cursor, limit, viewer);
    if page.nextCursor.None? {
      LastPage(rows, cursor, limit, viewer);
    } else {
      var k := NextStart(rows, cursor, limit, viewer);
      CrawlFrom(rows, page.nextCursor, limit, viewer);
      JoinedPages(rows, start, k, Crawl(rows, page.nextCursor, limit, viewer), viewer);
      StallsPastVisible(rows, start, k, limit, viewer);
    }
  }

  /**
   * Following the cursor from the first page always yields a prefix of the visible messages, in order and once
   * each; it yields all of them if and only if no `limit` consecutive hidden rows stand before a visible one.
   */
  lemma PagingIsCompleteExactly(rows: seq<Message>, limit: nat, viewer: CompanyId)
    requires UniqueIds(rows)
    ensures Crawl(rows, None, limit, viewer) <= Visible(rows, viewer)
    ensures Crawl(rows, None, limit, viewer) == Visible(rows, viewer) <==> !Stalls(rows, 0, limit, viewer)
  {
    CrawlFrom(rows, None, limit, viewer);
    assert rows[0..] == rows;
  }

  function Notice(id: MessageId, company: CompanyId): Message {
    Message(id, true, Some(Metadata("", "", None, "company", Some(company))))
  }

  /** Two notices for another company hide the third message from a client that pages by two. */
  lemma AllHiddenPageLosesTheRest()
    ensures var rows := [Notice("3", "b"), Notice("2", "b"), Notice("1", "a")];
            Crawl(rows, None, 2, "a") == [] && Visible(rows, "a") == [Notice("1", "a")]
  {
    var rows := [Notice("3", "b"), Notice("2", "b"), Notice("1", "a")];
    assert !VisibleTo(rows[0], "a") && !VisibleTo(rows[1], "a") && VisibleTo(rows[2], "a");
    assert rows[1..][1..] == [rows[2]] && rows[2..][1..] == [];
    assert rows[0..3][..2] == [rows[0], rows[1]];
    NothingVisible([rows[0], rows[1]], "a");
  }
}
