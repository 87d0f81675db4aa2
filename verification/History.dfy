/**
 * History by seq: the query behind "all conversations" (server/history.go) and the forward sync loop of the web
 * client (web/js/history.js).
 */
module History {
  import opened Common
  import opened MessageTable
  import opened Paging

  // ── The query ───────────────────────────────────────────────────────────

  /** What a page leaves out lies above everything in it. */
  lemma PageIsLowest(rows: seq<Row>, p: Row -> bool, n: nat, r: Row, x: Row)
    requires Ascending(rows) && r in rows && p(r) && r !in Select(rows, p, n) && x in Select(rows, p, n)
    ensures x.number < r.number
  {
    SelectSound(rows, p, n);
    var i :| 0 <= i < |rows| && rows[i] == x;
    var j :| 0 <= j < |rows| && rows[j] == r;
    PageComesFirst(rows, p, n, i, j);
  }

  function SentBy(me: string, since: nat): Row -> bool {
    (r: Row) => r.msg.from == me && r.number > since
  }

  function SentTo(me: string, since: nat): Row -> bool {
    (r: Row) => r.msg.to == me && r.number > since
  }

  function SentToAny(groups: seq<string>, since: nat): Row -> bool {
    (r: Row) => r.msg.to in groups && r.number > since
  }

  /** The condition the query stands for. */
  function VisibleAbove(me: string, groups: seq<string>, since: nat): Row -> bool {
    (r: Row) => (r.msg.from == me || r.msg.to == me || r.msg.to in groups) && r.number > since
  }

  function Numbers(rows: seq<Row>): set<nat> {
    set r | r in rows :: r.number
  }

  /** The UNION ALL: one limited branch each, and none for groups when there is no group. */
  function Branches(rows: seq<Row>, me: string, groups: seq<string>, since: nat, limit: nat): set<nat> {
    Numbers(Select(rows, SentBy(me, since), limit))
    + Numbers(Select(rows, SentTo(me, since), limit))
    + if groups == [] then {} else Numbers(Select(rows, SentToAny(groups, since), limit))
  }

  /** The query as it is written: the rows whose seq is IN the branches, in order, limited once more. */
  function AllConversations(rows: seq<Row>, me: string, groups: seq<string>, since: nat, limit: nat): seq<Row> {
    var numbers := Branches(rows, me, groups, since, limit);
    Select(rows, (r: Row) => r.number in numbers, limit)
  }

  lemma SameNumberSameRow(rows: seq<Row>, r: Row, x: Row)
    requires Ascending(rows) && r in rows && x in rows && r.number == x.number
    ensures r == x
  {
    var i :| 0 <= i < |rows| && rows[i] == r;
    var j :| 0 <= j < |rows| && rows[j] == x;
  }

  /** A number from one branch belongs to a row that is visible. */
  lemma BranchIsVisible(rows: seq<Row>, branch: Row -> bool, visible: Row -> bool, limit: nat, r: Row)
    requires Ascending(rows) && r in rows && r.number in Numbers(Select(rows, branch, limit))
    requires forall x | x in rows && branch(x) :: visible(x)
    ensures visible(r)
  {
    SelectSound(rows, branch, limit);
    var x :| x in Select(rows, branch, limit) && x.number == r.number;
    SameNumberSameRow(rows, r, x);
  }

  /** Three limited branches, merged by seq and limited again, are the first rows of the plain condition. */
  lemma ThreeBranchesAreThePlainQuery(rows: seq<Row>, me: string, groups: seq<string>, since: nat, limit: nat)
    requires Ascending(rows)
    ensures AllConversations(rows, me, groups, since, limit) == Select(rows, VisibleAbove(me, groups, since), limit)
  {
    hide Select, Ascending;
    var a, b, c := SentBy(me, since), SentTo(me, since), SentToAny(groups, since);
    var wide := VisibleAbove(me, groups, since);
    var numbers := Branches(rows, me, groups, since, limit);
    var narrow := (r: Row) => r.number in numbers;
    SelectSound(rows, wide, limit);
    forall r | r in rows && narrow(r)
      ensures wide(r)
    {
      if r.number in Numbers(Select(rows, a, limit)) {
        BranchIsVisible(rows, a, wide, limit, r);
      } else if r.number in Numbers(Select(rows, b, limit)) {
        BranchIsVisible(rows, b, wide, limit, r);
      } else {
        BranchIsVisible(rows, c, wide, limit, r);
      }
    }
    forall r | r in Select(rows, wide, limit)
      ensures narrow(r)
    {
      if r.msg.from == me {
        NarrowerKeeps(rows, a, wide, limit, r);
      } else if r.msg.to == me {
        NarrowerKeeps(rows, b, wide, limit, r);
      } else {
        NarrowerKeeps(rows, c, wide, limit, r);
      }
    }
    SamePage(rows, narrow, wide, limit);
  }

  // ── Merging a page ──────────────────────────────────────────────────────

  type Chats = map<string, seq<Row>>

  /** The conversation a message belongs to, as its reader sees it. */
  function PeerOf(me: string, m: Message): string {
    if IsGroup(m.to) then m.to else if m.from == me then m.to else m.from
  }

  function Chat(chats: Chats, peer: string): seq<Row> {
    if peer in chats then chats[peer] else []
  }

  /** The first entry with the id is overwritten; without one the row is appended. */
  function Put(chat: seq<Row>, r: Row): seq<Row> {
    if chat == [] then [r]
    else if chat[0].msg.id == r.msg.id then [r] + chat[1..]
    else [chat[0]] + Put(chat[1..], r)
  }

  function Merge(chats: Chats, me: string, r: Row): Chats {
    var peer := PeerOf(me, r.msg);
    chats[peer := Put(Chat(chats, peer), r)]
  }

  /** No conversation holds an id twice. */
  ghost predicate NoTwins(chats: Chats) {
    forall p | p in chats :: UniqueIds(chats[p])
  }

  lemma {:induction false} PutOnce(chat: seq<Row>, r: Row)
    requires UniqueIds(chat)
    ensures UniqueIds(Put(chat, r)) && r in Put(chat, r)
    ensures forall x | x in Put(chat, r) :: x == r || (x in chat && x.msg.id != r.msg.id)
    ensures forall x | x in chat && x.msg.id != r.msg.id :: x in Put(chat, r)
  {
    if chat != [] {
      var tail := chat[1..];
      if chat[0].msg.id == r.msg.id {
        assert chat == [chat[0]] + tail;
      } else {
        assert UniqueIds(tail);
        PutOnce(tail, r);
        assert chat == [chat[0]] + tail;
        var rest := Put(tail, r);
        forall j | 0 <= j < |rest|
          ensures rest[j].msg.id != chat[0].msg.id
        {
          if rest[j] != r {
            var k :| 0 <= k < |tail| && tail[k] == rest[j];
            assert chat[k + 1] == rest[j];
          }
        }
      }
    }
  }

  /** Merging a row leaves every other row of the table where it was. */
  lemma MergeKeeps(chats: Chats, me: string, r: Row, x: Row)
    requires NoTwins(chats)
    ensures NoTwins(Merge(chats, me, r))
    ensures r in Chat(Merge(chats, me, r), PeerOf(me, r.msg))
    ensures x in Chat(chats, PeerOf(me, x.msg)) && (x == r || x.msg.id != r.msg.id) ==>
              x in Chat(Merge(chats, me, r), PeerOf(me, x.msg))
  {
    PutOnce(Chat(chats, PeerOf(me, r.msg)), r);
  }

  /** A page, row by row. */
  function MergeAll(chats: Chats, me: string, page: seq<Row>, k: nat): Chats
    requires k <= |page|
  {
    if k == 0 then chats else Merge(MergeAll(chats, me, page, k - 1), me, page[k - 1])
  }

  function Highest(since: nat, page: seq<Row>, k: nat): nat
    requires k <= |page|
  {
    if k == 0 then since
    else if page[k - 1].number > Highest(since, page, k - 1) then page[k - 1].number
    else Highest(since, page, k - 1)
  }

  lemma {:induction false} MergeAllKeeps(chats: Chats, me: string, rows: seq<Row>, page: seq<Row>, k: nat, x: Row)
    requires NoTwins(chats) && UniqueIds(rows) && x in rows && (forall r | r in page :: r in rows) && k <= |page|
    ensures NoTwins(MergeAll(chats, me, page, k))
    ensures x in Chat(chats, PeerOf(me, x.msg)) || x in page[..k] ==>
              x in Chat(MergeAll(chats, me, page, k), PeerOf(me, x.msg))
  {
    hide UniqueIds, NoTwins, PeerOf, Merge;
    if k > 0 {
      var m := page[k - 1];
      MergeAllKeeps(chats, me, rows, page, k - 1, x);
      SameIdSameRow(rows, x, m);
      MergeKeeps(MergeAll(chats, me, page, k - 1), me, m, x);
      assert page[..k] == page[..k - 1] + [m];
    }
  }

  lemma {:induction false} HighestOf(since: nat, page: seq<Row>, k: nat)
    requires k <= |page|
    ensures Highest(since, page, k) >= since
    ensures forall i :: 0 <= i < k ==> page[i].number <= Highest(since, page, k)
    ensures Highest(since, page, k) == since || exists r | r in page :: r.number == Highest(since, page, k)
  {
    if k > 0 {
      HighestOf(since, page, k - 1);
    }
  }

  /** How far each conversation has been cleared by its reader. */
  type Cleared = map<string, nat>

  /** The key under which the server keeps a reader's settings for a conversation (chatKeyFor). */
  function ChatKeyFor(me: string, from: string, to: string): string {
    if IsGroup(to) then to
    else if from == me then to
    else from
  }

  /** The row has not been cleared away. */
  predicate Shown(me: string, cleared: Cleared, r: Row) {
    var key := ChatKeyFor(me, r.msg.from, r.msg.to);
    key in cleared ==> cleared[key] < r.number
  }

  predicate HiddenIn(cleared: Cleared, conversation: string, number: nat) {
    conversation in cleared && number <= cleared[conversation]
  }

  /**
   * Where a row has to be, unless it was cleared there: one sent to a group in that group's conversation, one's own in
   * the recipient's, and any other in the sender's.
   */
  ghost predicate InItsPlace(me: string, cleared: Cleared, chats: Chats, r: Row) {
    if "g:" <= r.msg.to then HiddenIn(cleared, r.msg.to, r.number) || r in Chat(chats, r.msg.to)
    else if r.msg.from == me then HiddenIn(cleared, r.msg.to, r.number) || r in Chat(chats, r.msg.to)
    else HiddenIn(cleared, r.msg.from, r.number) || r in Chat(chats, r.msg.from)
  }

  /** Server and client agree on what a conversation is called, and a boundary hides the rows of its own one alone. */
  lemma PlacesAgree(me: string, cleared: Cleared, r: Row)
    ensures ChatKeyFor(me, r.msg.from, r.msg.to) == PeerOf(me, r.msg)
    ensures "g:" <= r.msg.to ==> PeerOf(me, r.msg) == r.msg.to
    ensures !("g:" <= r.msg.to) ==> PeerOf(me, r.msg) == if r.msg.from == me then r.msg.to else r.msg.from
    ensures Shown(me, cleared, r) <==> !HiddenIn(cleared, PeerOf(me, r.msg), r.number)
  {}

  /** Between the cursors every row that concerns the reader is in its place. */
  ghost predicate AllInPlace(rows: seq<Row>, me: string, groups: seq<string>, cleared: Cleared, from: nat, to: nat,
                             chats: Chats) {
    forall r | r in rows && from < r.number <= to && (r.msg.from == me || r.msg.to == me || r.msg.to in groups) ::
      InItsPlace(me, cleared, chats, r)
  }

  lemma SyncedInPlace(rows: seq<Row>, me: string, groups: seq<string>, cleared: Cleared, from: nat, to: nat, chats: Chats)
    ensures Synced(rows, me, groups, cleared, from, to, chats) <==> AllInPlace(rows, me, groups, cleared, from, to, chats)
  {
    forall r
      ensures InItsPlace(me, cleared, chats, r) <==> Shown(me, cleared, r) ==> r in Chat(chats, PeerOf(me, r.msg))
    {
      PlacesAgree(me, cleared, r);
    }
    hide InItsPlace, Shown, PeerOf;
  }

  /** The loop over the rows of a page, which passes cleared ones over. */
  function Kept(page: seq<Row>, me: string, cleared: Cleared): seq<Row> {
    if page == [] then []
    else Kept(page[..|page| - 1], me, cleared)
         + if Shown(me, cleared, page[|page| - 1]) then [page[|page| - 1]] else []
  }

  lemma {:induction false} KeptAre(page: seq<Row>, me: string, cleared: Cleared)
    ensures forall r :: r in Kept(page, me, cleared) <==> r in page && Shown(me, cleared, r)
    ensures |Kept(page, me, cleared)| <= |page|
    ensures |Kept(page, me, cleared)| == |page| ==> Kept(page, me, cleared) == page
    ensures cleared == map[] ==> Kept(page, me, cleared) == page
  {
    hide Shown;
    NothingIsHidden(me, cleared);
    if page != [] {
      KeptAre(page[..|page| - 1], me, cleared);
      assert page == page[..|page| - 1] + [page[|page| - 1]];
    }
  }

  lemma NothingIsHidden(me: string, cleared: Cleared)
    ensures cleared == map[] ==> forall r :: Shown(me, cleared, r)
  {}

  /** Something was passed over exactly if something had been cleared. */
  lemma {:induction false} KeptIsShorter(page: seq<Row>, me: string, cleared: Cleared)
    ensures |Kept(page, me, cleared)| < |page| <==> exists r :: r in page && !Shown(me, cleared, r)
  {
    hide Shown;
    if page != [] {
      var init, last := page[..|page| - 1], page[|page| - 1];
      KeptIsShorter(init, me, cleared);
      KeptAre(init, me, cleared);
      assert page == init + [last];
      assert forall r :: r in page <==> r in init || r == last;
      assert Kept(page, me, cleared) == Kept(init, me, cleared) + if Shown(me, cleared, last) then [last] else [];
    }
  }

  /** What the reader is to see above a cursor. */
  predicate Due(me: string, groups: seq<string>, cleared: Cleared, since: nat, r: Row) {
    VisibleAbove(me, groups, since)(r) && Shown(me, cleared, r)
  }

  /** Every row of the table that is due between the cursors is in its conversation. */
  ghost predicate Synced(rows: seq<Row>, me: string, groups: seq<string>, cleared: Cleared, from: nat, to: nat,
                         chats: Chats) {
    forall r | r in rows && Due(me, groups, cleared, from, r) && r.number <= to :: r in Chat(chats, PeerOf(me, r.msg))
  }

  /** No row above the cursor is due. */
  ghost predicate NothingAbove(rows: seq<Row>, me: string, groups: seq<string>, cleared: Cleared, cursor: nat) {
    forall r | r in rows :: !Due(me, groups, cleared, cursor, r)
  }

  /** The cursor is the number of a visible row above the start. */
  ghost predicate RowAt(rows: seq<Row>, me: string, groups: seq<string>, start: nat, cursor: nat) {
    exists r | r in rows && VisibleAbove(me, groups, start)(r) :: r.number == cursor
  }

  /** Every entry was there before or is a visible row, in its own conversation. */
  ghost predicate NothingForeign(rows: seq<Row>, me: string, groups: seq<string>, start: nat, before: Chats,
                                 chats: Chats) {
    forall p | p in chats :: EntriesKnown(rows, me, groups, start, before, p, chats[p])
  }

  ghost predicate EntriesKnown(rows: seq<Row>, me: string, groups: seq<string>, start: nat, before: Chats, p: string,
                               chat: seq<Row>) {
    forall x | x in chat ::
      x in Chat(before, p) || (x in rows && VisibleAbove(me, groups, start)(x) && PeerOf(me, x.msg) == p)
  }

  datatype Response = Page(msgs: seq<Row>) | TooManyRequests | ServerError

  /**
   * The history endpoint for one signed-in user; the table may grow at its end before every request. A server that is
   * up answers what it does not refuse, and it refuses so many requests at most. On a whole one no iteration ends early
   * and the boundaries of cleared conversations can be read.
   */
  class Server {
    var rows: seq<Row>
    var refused: nat
    const up: bool
    const most: nat
    const whole: bool
    const me: string
    const groups: seq<string>
    const cleared: Cleared

    constructor (rows: seq<Row>, me: string, groups: seq<string>, cleared: Cleared, up: bool, most: nat, whole: bool)
      ensures this.rows == rows && this.me == me && this.groups == groups && this.cleared == cleared
      ensures this.up == up && this.most == most && this.whole == whole && refused == 0
    {
      this.rows, this.me, this.groups, this.cleared := rows, me, groups, cleared;
      this.up, this.most, this.whole, this.refused := up, most, whole, 0;
    }

    ghost predicate Valid()
      reads this
    {
      Ascending(rows) && UniqueIds(rows) && refused <= most
    }

    /**
     * The iteration over the rows may end early, and nothing looks at why: `read` rows of the result are seen. Cleared
     * ones are passed over after the limit was applied, or none if the boundaries cannot be read.
     */
    method Fetch(since: nat, limit: nat) returns (resp: Response, ghost read: nat)
      requires Valid()
      modifies this`rows, this`refused
      ensures refused == old(refused) + if resp.TooManyRequests? then 1 else 0
      ensures up ==> !resp.ServerError?
      ensures resp.Page? && whole ==>
                && read == |Select(rows, VisibleAbove(me, groups, since), limit)|
                && resp.msgs == Kept(Select(rows, VisibleAbove(me, groups, since), limit), me, cleared)
      ensures Valid() && old(rows) <= rows && read <= |Select(rows, VisibleAbove(me, groups, since), limit)|
      ensures resp.Page? ==> PageOf(resp.msgs, Select(rows, VisibleAbove(me, groups, since), limit)[..read], me, cleared)
    {
      var more: seq<Row> := *;
      if Ascending(rows + more) && UniqueIds(rows + more) {
        rows := rows + more;
      }
      var luck: nat := *;
      if luck == 0 && refused < most {
        refused := refused + 1;
        return TooManyRequests, 0;
      }
      if luck == 1 && !up {
        return ServerError, 0;
      }
      ThreeBranchesAreThePlainQuery(rows, me, groups, since, limit);
      var all := AllConversations(rows, me, groups, since, limit);
      var n :| 0 <= n <= |all| && (whole ==> n == |all|);
      var known: bool := *;
      KeptAre(all[..n], me, map[]);
      assert whole ==> all[..n] == all;
      return Page(Kept(all[..n], me, if known || whole then cleared else map[])), n;
    }
  }

  /** What is sent of the rows that were read. */
  predicate PageOf(page: seq<Row>, whole: seq<Row>, me: string, cleared: Cleared) {
    page == Kept(whole, me, cleared) || page == whole
  }

  lemma PageHolds(page: seq<Row>, whole: seq<Row>, me: string, cleared: Cleared)
    requires PageOf(page, whole, me, cleared)
    ensures (forall r | r in page :: r in whole) && forall r | r in whole && Shown(me, cleared, r) :: r in page
    ensures |page| <= |whole| && (|page| == |whole| ==> page == whole) && (cleared == map[] ==> page == whole)
  {
    KeptAre(whole, me, cleared);
  }

  const PAGE := 1000
  const MAX_PAGES := 2000
  const MAX_RETRIES := 6

  /** What the browser holds: the conversations, and the cursor it keeps in localStorage. */
  class Browser {
    var chats: Chats
    var cursor: nat

    constructor (chats: Chats, cursor: nat)
      ensures this.chats == chats && this.cursor == cursor
    {
      this.chats, this.cursor := chats, cursor;
    }

    /** The loop over one page: advance the cursor, file the message under its conversation. */
    method MergePage(me: string, page: seq<Row>)
      modifies this
      ensures chats == MergeAll(old(chats), me, page, |page|)
      ensures cursor == Highest(old(cursor), page, |page|)
    {
      hide Merge;
      for k := 0 to |page|
        invariant chats == MergeAll(old(chats), me, page, k) && cursor == Highest(old(cursor), page, k)
      {
        if page[k].number > cursor {
          cursor := page[k].number;
        }
        chats := Merge(chats, me, page[k]);
      }
    }

    /**
     * The forward sync of loadHistory. It always terminates; whatever ends it, nothing between the two cursors is
     * missing. Only refusals, a failing server or the page ceiling can make it incomplete: the cursor never stalls.
     * Otherwise, if pages are whole, nothing above the cursor is due exactly if no full page of the table has a cleared
     * row in it and something due behind it. In general the last page decides: one that was cut is short and passes
     * for the last, too.
     */
    method LoadHistory(server: Server)
      returns (incomplete: bool, refusals: nat, failed: bool, pages: nat, ghost last: LastPage)
      requires server.Valid() && NoTwins(chats)
      modifies this, server`rows, server`refused
      ensures server.Valid() && NoTwins(chats) && old(server.rows) <= server.rows && cursor >= old(cursor)
      ensures Synced(server.rows, server.me, server.groups, server.cleared, old(cursor), cursor, chats)
      ensures AllInPlace(server.rows, server.me, server.groups, server.cleared, old(cursor), cursor, chats)
      ensures NothingForeign(server.rows, server.me, server.groups, old(cursor), old(chats), chats)
      ensures cursor == old(cursor) || RowAt(server.rows, server.me, server.groups, old(cursor), cursor)
      ensures !incomplete && server.whole ==>
                (NothingAbove(server.rows, server.me, server.groups, server.cleared, cursor)
                 <==> !EndsEarly(server.rows, server.me, server.groups, server.cleared, old(cursor)))
      ensures !incomplete && server.whole && server.cleared == map[] ==>
                NothingAbove(server.rows, server.me, server.groups, server.cleared, cursor)
      ensures !incomplete ==>
                Ended(server.rows, server.me, server.groups, server.cleared, old(cursor), cursor, last)
      ensures !incomplete && ReadToTheEnd(server.rows, server.me, server.groups, last) ==>
                NothingAbove(server.rows, server.me, server.groups, server.cleared, cursor)
      ensures !incomplete && server.cleared == map[] ==>
                (NothingAbove(server.rows, server.me, server.groups, server.cleared, cursor)
                 <==> ReadToTheEnd(server.rows, server.me, server.groups, last))
      ensures incomplete <==> refusals > MAX_RETRIES || failed || pages > MAX_PAGES
      ensures refusals == server.refused - old(server.refused) && (failed ==> !server.up)
      ensures pages > MAX_PAGES ==> |Visible(server.rows, server.me, server.groups, old(cursor))| >= MAX_PAGES * PAGE
    {
      hide Ascending, UniqueIds, Select, MergeAll, Highest, NoTwins, Kept, PageOf, PageFrom, At, EndsEarly, Visible;
      hide Synced, AllInPlace, NothingAbove, NothingForeign;
      ghost var start := cursor;
      incomplete, failed, pages, refusals, last := false, false, 0, 0, LastPage(0, 0, []);
      var stalled := 0;
      SyncedAtStart(server.rows, server.me, server.groups, server.cleared, start, chats);
      KnownAtStart(server.rows, server.me, server.groups, start, chats);
      AtStart(server.rows, server.me, server.groups, server.cleared, start, server.whole);
      while true
        invariant server.Valid() && NoTwins(chats) && old(server.rows) <= server.rows && cursor >= start
        invariant Synced(server.rows, server.me, server.groups, server.cleared, start, cursor, chats)
        invariant cursor == start || RowAt(server.rows, server.me, server.groups, start, cursor)
        invariant NothingForeign(server.rows, server.me, server.groups, start, old(chats), chats)
        invariant !incomplete && !failed && stalled == 0 && pages <= MAX_PAGES && refusals <= MAX_RETRIES
        invariant refusals == server.refused - old(server.refused)
        invariant At(server.rows, server.me, server.groups, server.cleared, start, server.whole, pages, cursor)
        decreases MAX_PAGES - pages, MAX_RETRIES - refusals
      {
        pages := pages + 1;
        if pages > MAX_PAGES {
          AtHasRows(server.rows, server.me, server.groups, server.cleared, start, server.whole, MAX_PAGES, cursor);
          break;
        }
        var before := cursor;
        ghost var known := server.rows;
        var resp;
        ghost var read;
        resp, read := server.Fetch(cursor, PAGE);
        KnownSurvivesGrowth(known, server.rows, server.me, server.groups, start, old(chats), chats);
        SyncedSurvivesGrowth(known, server.rows, server.me, server.groups, server.cleared, start, cursor, chats);
        AtSurvivesGrowth(known, server.rows, server.me, server.groups, server.cleared, start, server.whole, pages - 1, cursor);
        if resp.TooManyRequests? {
          refusals := refusals + 1;
          if refusals > MAX_RETRIES {
            incomplete := true;
            break;
          }
          pages := pages - 1;
          continue;
        }
        if resp.ServerError? {
          failed, incomplete := true, true;
          break;
        }
        last := LastPage(cursor, read, resp.msgs);
        IsFrom(server.rows, server.me, server.groups, server.cleared, cursor, read, resp.msgs);
        if |resp.msgs| < PAGE {
          ShortPageEnds(server.rows, server.me, server.groups, server.cleared, cursor, read, resp.msgs);
          if server.whole {
            WholePageEnds(server.rows, server.me, server.groups, server.cleared, start, pages - 1, cursor, resp.msgs);
          }
        } else {
          FullPage(server.rows, server.me, server.groups, server.cleared, start, server.whole, pages - 1, cursor, read, resp.msgs);
        }
        if resp.msgs == [] {
          break;
        }
        PageExtends(server.rows, server.me, server.groups, server.cleared, start, cursor, chats, read, resp.msgs);
        PageIsKnown(server.rows, server.me, server.groups, server.cleared, start, cursor, old(chats), chats, read, resp.msgs);
        MergePage(server.me, resp.msgs);
        if cursor <= before {
          stalled := stalled + 1;
          if stalled >= 2 {
            incomplete := true;
            break;
          }
        } else {
          stalled := 0;
        }
        if |resp.msgs| < PAGE {
          break;
        }
      }
      if pages > MAX_PAGES {
        incomplete := true;
      }
      SyncedInPlace(server.rows, server.me, server.groups, server.cleared, start, cursor, chats);
      UnclearedEndsWell(server.rows, server.me, server.groups, server.cleared, start);
    }
  }

  /** The page a sync ended on: where it began, how many rows of the query were read, and what was sent of them. */
  datatype LastPage = LastPage(since: nat, read: nat, msgs: seq<Row>)

  /** The page is one the server may have sent, it is not full, and the cursor stands where it ends. */
  predicate Ended(rows: seq<Row>, me: string, groups: seq<string>, cleared: Cleared, start: nat, cursor: nat, last: LastPage) {
    && start <= last.since && PageFrom(rows, me, groups, cleared, last.since, last.read, last.msgs)
    && |last.msgs| < PAGE && cursor == Highest(last.since, last.msgs, |last.msgs|)
  }

  /** The query had fewer rows than a page, and all of them were read. */
  predicate ReadToTheEnd(rows: seq<Row>, me: string, groups: seq<string>, last: LastPage) {
    last.read == |Select(rows, VisibleAbove(me, groups, last.since), PAGE)| < PAGE
  }

  // ── Where the pages fall ────────────────────────────────────────────────

  /** What the query is about, without a limit. */
  function Visible(rows: seq<Row>, me: string, groups: seq<string>, since: nat): seq<Row> {
    Filter(rows, VisibleAbove(me, groups, since))
  }

  /** Page number `k` of the visible rows is full and has a cleared one in it. */
  ghost predicate ClearedIn(visible: seq<Row>, me: string, cleared: Cleared, k: nat) {
    (k + 1) * PAGE <= |visible| && exists i :: k * PAGE <= i < (k + 1) * PAGE && !Shown(me, cleared, visible[i])
  }

  ghost predicate DueFrom(visible: seq<Row>, me: string, cleared: Cleared, n: nat) {
    exists i :: n <= i < |visible| && Shown(me, cleared, visible[i])
  }

  /** A full page has a cleared row in it, and something due stands behind it. */
  ghost predicate EndsEarly(rows: seq<Row>, me: string, groups: seq<string>, cleared: Cleared, since: nat) {
    var visible := Visible(rows, me, groups, since);
    exists k: nat :: ClearedIn(visible, me, cleared, k) && DueFrom(visible, me, cleared, (k + 1) * PAGE)
  }

  lemma NothingClearedEndsEarly(rows: seq<Row>, me: string, groups: seq<string>, cleared: Cleared, since: nat)
    requires forall r | r in rows && VisibleAbove(me, groups, since)(r) :: Shown(me, cleared, r)
    ensures !EndsEarly(rows, me, groups, cleared, since)
  {
    FilterSound(rows, VisibleAbove(me, groups, since));
    var visible := Visible(rows, me, groups, since);
    assert forall i :: 0 <= i < |visible| ==> visible[i] in visible;
  }

  lemma UnclearedEndsWell(rows: seq<Row>, me: string, groups: seq<string>, cleared: Cleared, since: nat)
    ensures cleared == map[] ==> !EndsEarly(rows, me, groups, cleared, since)
  {
    if cleared == map[] {
      NothingClearedEndsEarly(rows, me, groups, cleared, since);
    }
  }

  /** So many full pages behind the start; on a whole server no row of them was cleared. */
  ghost predicate At(rows: seq<Row>, me: string, groups: seq<string>, cleared: Cleared, start: nat, whole: bool,
                     pages: nat, cursor: nat) {
    var visible := Visible(rows, me, groups, start);
    && pages * PAGE <= |visible|
    && cursor == (if pages == 0 then start else visible[pages * PAGE - 1].number)
    && (whole ==> forall i :: 0 <= i < pages * PAGE ==> Shown(me, cleared, visible[i]))
  }

  lemma AtStart(rows: seq<Row>, me: string, groups: seq<string>, cleared: Cleared, start: nat, whole: bool)
    ensures At(rows, me, groups, cleared, start, whole, 0, start)
  {}

  lemma AtHasRows(rows: seq<Row>, me: string, groups: seq<string>, cleared: Cleared, start: nat, whole: bool,
                  pages: nat, cursor: nat)
    requires At(rows, me, groups, cleared, start, whole, pages, cursor)
    ensures |Visible(rows, me, groups, start)| >= pages * PAGE
  {}

  lemma AtSurvivesGrowth(known: seq<Row>, rows: seq<Row>, me: string, groups: seq<string>, cleared: Cleared, start: nat,
                         whole: bool, pages: nat, cursor: nat)
    requires known <= rows && At(known, me, groups, cleared, start, whole, pages, cursor)
    ensures At(rows, me, groups, cleared, start, whole, pages, cursor)
  {
    assert rows == known + rows[|known|..];
    FilterConcat(known, rows[|known|..], VisibleAbove(me, groups, start));
    hide Filter;
  }

  lemma {:induction false} FilterAscends(rows: seq<Row>, p: Row -> bool)
    requires Ascending(rows)
    ensures Ascending(Filter(rows, p))
  {
    SelectIsFront(rows, p, |Filter(rows, p)|);
    SelectAscends(rows, p, |Filter(rows, p)|);
    assert Filter(rows, p)[..|Filter(rows, p)|] == Filter(rows, p);
  }

  /** Splitting a table at a number. */
  lemma {:induction false} SplitAtNumber(rows: seq<Row>, cursor: nat) returns (i: nat)
    requires Ascending(rows)
    ensures i <= |rows| && (forall r | r in rows[..i] :: r.number <= cursor) && forall r | r in rows[i..] :: r.number > cursor
  {
    i := 0;
    while i < |rows| && rows[i].number <= cursor
      invariant i <= |rows| && forall j :: 0 <= j < i ==> rows[j].number <= cursor
    {
      i := i + 1;
    }
  }

  /** Moving the cursor to a visible row leaves the visible rows behind it. */
  lemma VisibleBehind(rows: seq<Row>, me: string, groups: seq<string>, start: nat, cursor: nat, n: nat)
    requires Ascending(rows) && n <= |Visible(rows, me, groups, start)|
    requires cursor == if n == 0 then start else Visible(rows, me, groups, start)[n - 1].number
    ensures Visible(rows, me, groups, cursor) == Visible(rows, me, groups, start)[n..]
  {
    var p, q := VisibleAbove(me, groups, start), VisibleAbove(me, groups, cursor);
    var visible := Filter(rows, p);
    FilterSound(rows, p);
    if n > 0 {
      assert visible[n - 1] in visible;
      FilterAscends(rows, p);
      var i := SplitAtNumber(rows, cursor);
      var a, b := rows[..i], rows[i..];
      assert rows == a + b;
      FilterConcat(a, b, p);
      FilterConcat(a, b, q);
      FilterNothing(a, q);
      FilterSame(b, p, q);
      FilterSound(a, p);
      FilterSound(b, p);
      hide Filter;
      FrontHasLength(visible, Filter(a, p), Filter(b, p), n);
    }
  }

  /** The front of an ascending table up to its row `n - 1` has `n` rows. */
  lemma FrontHasLength(all: seq<Row>, a: seq<Row>, b: seq<Row>, n: nat)
    requires all == a + b && Ascending(all) && 0 < n <= |all|
    requires (forall r | r in a :: r.number <= all[n - 1].number) && forall r | r in b :: r.number > all[n - 1].number
    ensures |a| == n
  {
    forall i | 0 <= i < |all|
      ensures i < |a| <==> all[i].number <= all[n - 1].number
    {
      assert if i < |a| then all[i] == a[i] && a[i] in a else all[i] == b[i - |a|] && b[i - |a|] in b;
    }
    assert n < |all| ==> all[n].number > all[n - 1].number;
  }

  /** The next page is the next thousand of the visible rows. */
  lemma PageIsBlock(rows: seq<Row>, me: string, groups: seq<string>, cleared: Cleared, start: nat, whole: bool,
                    pages: nat, cursor: nat)
    requires Ascending(rows) && At(rows, me, groups, cleared, start, whole, pages, cursor)
    ensures var visible, n := Visible(rows, me, groups, start), pages * PAGE;
            && n <= |visible|
            && Select(rows, VisibleAbove(me, groups, cursor), PAGE)
               == visible[n..if n + PAGE < |visible| then n + PAGE else |visible|]
  {
    var visible, n := Visible(rows, me, groups, start), pages * PAGE;
    VisibleBehind(rows, me, groups, start, cursor, n);
    SelectIsFront(rows, VisibleAbove(me, groups, cursor), PAGE);
    assert Visible(rows, me, groups, cursor) == visible[n..];
  }

  lemma IsFrom(rows: seq<Row>, me: string, groups: seq<string>, cleared: Cleared, since: nat, read: nat, page: seq<Row>)
    requires read <= |Select(rows, VisibleAbove(me, groups, since), PAGE)|
    requires PageOf(page, Select(rows, VisibleAbove(me, groups, since), PAGE)[..read], me, cleared)
    ensures PageFrom(rows, me, groups, cleared, since, read, page)
  {}

  lemma HighestOfAscending(since: nat, page: seq<Row>)
    requires Ascending(page) && page != [] && page[0].number > since
    ensures Highest(since, page, |page|) == page[|page| - 1].number
  {
    HighestOf(since, page, |page|);
    var last := page[|page| - 1];
    assert last.number >= page[0].number;
  }

  /** A page of a thousand is a full one, read to its end, with nothing taken out. */
  lemma FullPageIsBlock(rows: seq<Row>, me: string, groups: seq<string>, cleared: Cleared, since: nat, read: nat,
                        page: seq<Row>)
    requires Ascending(rows) && PageFrom(rows, me, groups, cleared, since, read, page) && |page| >= PAGE
    ensures page == Select(rows, VisibleAbove(me, groups, since), PAGE) && |page| == PAGE
    ensures page == Kept(Select(rows, VisibleAbove(me, groups, since), PAGE), me, cleared) ==>
              forall r | r in page :: Shown(me, cleared, r)
    ensures Highest(since, page, |page|) == page[PAGE - 1].number
  {
    var block := Select(rows, VisibleAbove(me, groups, since), PAGE);
    PageHolds(page, block[..read], me, cleared);
    assert block[..read] == block == page;
    SelectAscends(rows, VisibleAbove(me, groups, since), PAGE);
    SelectSound(rows, VisibleAbove(me, groups, since), PAGE);
    KeptAre(block, me, cleared);
    hide Select, Kept, Highest;
    assert page[0] in page && page[0].number > since;
    HighestOfAscending(since, page);
  }

  /** A full page moves on by a page. */
  lemma FullPage(rows: seq<Row>, me: string, groups: seq<string>, cleared: Cleared, start: nat, whole: bool,
                 pages: nat, cursor: nat, read: nat, page: seq<Row>)
    requires Ascending(rows) && At(rows, me, groups, cleared, start, whole, pages, cursor)
    requires PageFrom(rows, me, groups, cleared, cursor, read, page) && |page| >= PAGE
    requires whole ==> page == Kept(Select(rows, VisibleAbove(me, groups, cursor), PAGE), me, cleared)
    ensures At(rows, me, groups, cleared, start, whole, pages + 1, Highest(cursor, page, |page|))
  {
    hide Select, Filter, Kept, Highest, PageFrom, Ascending, Shown;
    var visible, n := Visible(rows, me, groups, start), pages * PAGE;
    PageIsBlock(rows, me, groups, cleared, start, whole, pages, cursor);
    FullPageIsBlock(rows, me, groups, cleared, cursor, read, page);
    assert page == visible[n..n + PAGE] && page[PAGE - 1] == visible[n + PAGE - 1];
    if whole {
      forall i | n <= i < n + PAGE
        ensures Shown(me, cleared, visible[i])
      {
        assert visible[i] == page[i - n];
      }
    }
  }

  /** A short page of a whole server is the last one, unless a cleared row has made it short. */
  lemma WholePageEnds(rows: seq<Row>, me: string, groups: seq<string>, cleared: Cleared, start: nat, pages: nat,
                      cursor: nat, page: seq<Row>)
    requires Ascending(rows) && At(rows, me, groups, cleared, start, true, pages, cursor) && |page| < PAGE
    requires page == Kept(Select(rows, VisibleAbove(me, groups, cursor), PAGE), me, cleared)
    ensures NothingAbove(rows, me, groups, cleared, Highest(cursor, page, |page|))
       <==> !EndsEarly(rows, me, groups, cleared, start)
  {
    var visible, n := Visible(rows, me, groups, start), pages * PAGE;
    var block := Select(rows, VisibleAbove(me, groups, cursor), PAGE);
    PageIsBlock(rows, me, groups, cleared, start, true, pages, cursor);
    assert block[..|block|] == block;
    IsFrom(rows, me, groups, cleared, cursor, |block|, page);
    hide Select, Filter, Kept, Highest, NothingAbove, Ascending;
    if |block| < PAGE {
      ShortPageEnds(rows, me, groups, cleared, cursor, |block|, page);
      NoClearedBlock(visible, me, cleared, pages);
    } else {
      ClearedBlock(visible, me, cleared, pages, block, page);
      DueIsAbove(rows, me, groups, cleared, start, pages, cursor, page);
    }
  }

  lemma NoClearedBlock(visible: seq<Row>, me: string, cleared: Cleared, pages: nat)
    requires pages * PAGE <= |visible| < (pages + 1) * PAGE
    requires forall i :: 0 <= i < pages * PAGE ==> Shown(me, cleared, visible[i])
    ensures forall k: nat :: !ClearedIn(visible, me, cleared, k)
  {}

  lemma ClearedBlock(visible: seq<Row>, me: string, cleared: Cleared, pages: nat, block: seq<Row>, page: seq<Row>)
    requires (pages + 1) * PAGE <= |visible| && block == visible[pages * PAGE..(pages + 1) * PAGE]
    requires forall i :: 0 <= i < pages * PAGE ==> Shown(me, cleared, visible[i])
    requires page == Kept(block, me, cleared) && |page| < PAGE
    ensures (exists k: nat :: ClearedIn(visible, me, cleared, k) && DueFrom(visible, me, cleared, (k + 1) * PAGE))
       <==> DueFrom(visible, me, cleared, (pages + 1) * PAGE)
  {
    KeptIsShorter(block, me, cleared);
    var r :| r in block && !Shown(me, cleared, r);
    var i :| 0 <= i < |block| && block[i] == r;
    assert visible[pages * PAGE + i] == r;
    assert ClearedIn(visible, me, cleared, pages);
    forall k: nat | ClearedIn(visible, me, cleared, k)
      ensures k >= pages
    {}
  }

  /** A row that is due above the short page stands behind the block the page was taken from. */
  lemma AboveIsBehind(visible: seq<Row>, me: string, cleared: Cleared, n: nat, page: seq<Row>, top: nat, r: Row)
    requires n + PAGE <= |visible| && r in visible[n..] && Shown(me, cleared, r) && r.number > top
    requires page == Kept(visible[n..n + PAGE], me, cleared) && forall i :: 0 <= i < |page| ==> page[i].number <= top
    ensures DueFrom(visible, me, cleared, n + PAGE)
  {
    hide Kept, Shown;
    var block, tail := visible[n..n + PAGE], visible[n + PAGE..];
    assert visible[n..] == block + tail;
    KeptAre(block, me, cleared);
    forall x | x in block && Shown(me, cleared, x)
      ensures x.number <= top
    {
      var j :| 0 <= j < |page| && page[j] == x;
    }
    var i :| 0 <= i < |tail| && tail[i] == r;
    assert visible[n + PAGE + i] == r;
  }

  /** And what stands there is not of the block. */
  lemma BehindIsUnread(visible: seq<Row>, n: nat, i: nat)
    requires Ascending(visible) && n + PAGE <= i < |visible|
    ensures visible[i] !in visible[n..n + PAGE]
  {
    var block := visible[n..n + PAGE];
    forall j | 0 <= j < |block|
      ensures block[j] != visible[i]
    {
      assert block[j] == visible[n + j] && visible[n + j].number < visible[i].number;
    }
  }

  /** Behind a full page from which a row was taken, what is due above the cursor is what is due behind the page. */
  lemma DueIsAbove(rows: seq<Row>, me: string, groups: seq<string>, cleared: Cleared, start: nat, pages: nat,
                   cursor: nat, page: seq<Row>)
    requires Ascending(rows) && At(rows, me, groups, cleared, start, true, pages, cursor)
    requires var block := Select(rows, VisibleAbove(me, groups, cursor), PAGE);
             |block| == PAGE && page == Kept(block, me, cleared)
    ensures NothingAbove(rows, me, groups, cleared, Highest(cursor, page, |page|))
       <==> !DueFrom(Visible(rows, me, groups, start), me, cleared, (pages + 1) * PAGE)
  {
    hide Select, Filter, Kept, Highest, PageFrom, Ascending, Shown;
    var visible, n, top := Visible(rows, me, groups, start), pages * PAGE, Highest(cursor, page, |page|);
    var block := Select(rows, VisibleAbove(me, groups, cursor), PAGE);
    PageIsBlock(rows, me, groups, cleared, start, true, pages, cursor);
    VisibleBehind(rows, me, groups, start, cursor, n);
    FilterSound(rows, VisibleAbove(me, groups, cursor));
    FilterAscends(rows, VisibleAbove(me, groups, start));
    assert block[..PAGE] == block == visible[n..n + PAGE];
    IsFrom(rows, me, groups, cleared, cursor, PAGE, page) by {
      assert PageOf(page, block[..PAGE], me, cleared);
    }
    HighestOf(cursor, page, |page|);
    hide Visible, At;
    forall r | r in rows && Due(me, groups, cleared, top, r)
      ensures DueFrom(visible, me, cleared, n + PAGE)
    {
      assert r in visible[n..];
      AboveIsBehind(visible, me, cleared, n, page, top, r);
    }
    forall i | n + PAGE <= i < |visible| && Shown(me, cleared, visible[i])
      ensures Due(me, groups, cleared, top, visible[i]) && visible[i] in rows
    {
      BehindIsUnread(visible, n, i);
      assert visible[n..][i - n] == visible[i];
      UnreadIsAbove(rows, me, groups, cleared, cursor, PAGE, page, visible[i]);
    }
  }

  lemma SameIdSameRow(rows: seq<Row>, r: Row, x: Row)
    requires UniqueIds(rows) && r in rows && x in rows
    ensures r == x || r.msg.id != x.msg.id
  {
    var i :| 0 <= i < |rows| && rows[i] == r;
    var j :| 0 <= j < |rows| && rows[j] == x;
  }

  /** `page` is what was sent of the first `read` rows of the query. */
  predicate PageFrom(rows: seq<Row>, me: string, groups: seq<string>, cleared: Cleared, since: nat, read: nat,
                     page: seq<Row>) {
    var whole := Select(rows, VisibleAbove(me, groups, since), PAGE);
    read <= |whole| && PageOf(page, whole[..read], me, cleared)
  }

  lemma PageFromHolds(rows: seq<Row>, me: string, groups: seq<string>, cleared: Cleared, since: nat, read: nat,
                      page: seq<Row>)
    requires PageFrom(rows, me, groups, cleared, since, read, page)
    ensures var start := Select(rows, VisibleAbove(me, groups, since), read);
            && (forall r | r in page :: r in start && r in rows && VisibleAbove(me, groups, since)(r))
            && (forall r | r in start && Shown(me, cleared, r) :: r in page)
  {
    var visible := VisibleAbove(me, groups, since);
    CutPage(rows, visible, PAGE, read);
    PageHolds(page, Select(rows, visible, PAGE)[..read], me, cleared);
    SelectSound(rows, visible, read);
  }

  /** A merged page extends what is synced up to its largest number, and moves the cursor if it holds anything. */
  lemma PageExtends(rows: seq<Row>, me: string, groups: seq<string>, cleared: Cleared, start: nat, since: nat,
                    chats: Chats, read: nat, page: seq<Row>)
    requires Ascending(rows) && UniqueIds(rows) && NoTwins(chats) && start <= since
    requires PageFrom(rows, me, groups, cleared, since, read, page)
    requires Synced(rows, me, groups, cleared, start, since, chats)
    ensures var cursor, merged := Highest(since, page, |page|), MergeAll(chats, me, page, |page|);
            && NoTwins(merged) && Synced(rows, me, groups, cleared, start, cursor, merged)
            && cursor >= since && (page != [] ==> cursor > since)
            && (forall r | r in page :: r.number <= cursor)
            && (cursor == since || exists r | r in rows && VisibleAbove(me, groups, since)(r) :: r.number == cursor)
  {
    hide Ascending, UniqueIds, NoTwins, Select, MergeAll, Highest, PeerOf, Chat, PageFrom, Shown;
    var cursor, merged := Highest(since, page, |page|), MergeAll(chats, me, page, |page|);
    var visible := VisibleAbove(me, groups, since);
    PageFromHolds(rows, me, groups, cleared, since, read, page);
    HighestOf(since, page, |page|);
    assert page[..|page|] == page;
    NoTwinsAfter(chats, me, rows, page);
    forall r | r in rows && Due(me, groups, cleared, start, r) && r.number <= cursor
      ensures r in Chat(merged, PeerOf(me, r.msg))
    {
      MergeAllKeeps(chats, me, rows, page, |page|, r);
      if r.number > since && r !in page {
        var x :| x in page && x.number == cursor;
        PageIsLowest(rows, visible, read, r, x);
      }
    }
    if page != [] {
      assert page[0] in page;
    }
  }

  lemma NoTwinsAfter(chats: Chats, me: string, rows: seq<Row>, page: seq<Row>)
    requires NoTwins(chats) && UniqueIds(rows) && forall r | r in page :: r in rows
    ensures NoTwins(MergeAll(chats, me, page, |page|))
  {
    if page == [] {
    } else {
      MergeAllKeeps(chats, me, rows, page, |page|, page[0]);
    }
  }

  lemma KnownAtStart(rows: seq<Row>, me: string, groups: seq<string>, start: nat, chats: Chats)
    ensures NothingForeign(rows, me, groups, start, chats, chats)
  {}

  lemma SyncedAtStart(rows: seq<Row>, me: string, groups: seq<string>, cleared: Cleared, start: nat, chats: Chats)
    ensures Synced(rows, me, groups, cleared, start, start, chats)
  {}

  /** New rows come behind the old ones, hence above any cursor that is the number of an old one. */
  lemma SyncedSurvivesGrowth(known: seq<Row>, rows: seq<Row>, me: string, groups: seq<string>, cleared: Cleared,
                             start: nat, cursor: nat, chats: Chats)
    requires known <= rows && Ascending(rows) && Synced(known, me, groups, cleared, start, cursor, chats)
    requires cursor == start || RowAt(known, me, groups, start, cursor)
    ensures Synced(rows, me, groups, cleared, start, cursor, chats)
    ensures cursor == start || RowAt(rows, me, groups, start, cursor)
  {
    forall r | r in rows && Due(me, groups, cleared, start, r) && r.number <= cursor
      ensures r in Chat(chats, PeerOf(me, r.msg))
    {
      var x :| x in known && x.number == cursor;
      var i :| 0 <= i < |known| && known[i] == x;
      var j :| 0 <= j < |rows| && rows[j] == r;
      assert rows[i] == x;
      assert j < |known| && known[j] == r;
    }
  }

  lemma {:induction false} SelectAscends(rows: seq<Row>, p: Row -> bool, n: nat)
    requires Ascending(rows)
    ensures Ascending(Select(rows, p, n))
  {
    if rows != [] && n > 0 {
      SelectAscends(rows[1..], p, n - 1);
      SelectAscends(rows[1..], p, n);
      SelectSound(rows[1..], p, n - 1);
      forall r | r in rows[1..]
        ensures rows[0].number < r.number
      {
        var i :| 0 <= i < |rows| - 1 && rows[1..][i] == r;
        assert rows[i + 1] == r;
      }
    }
  }

  /** What was not read stands above everything in the page. */
  lemma UnreadIsAbove(rows: seq<Row>, me: string, groups: seq<string>, cleared: Cleared, since: nat, read: nat,
                      page: seq<Row>, r: Row)
    requires Ascending(rows) && PageFrom(rows, me, groups, cleared, since, read, page)
    requires r in rows && VisibleAbove(me, groups, since)(r) && r !in Select(rows, VisibleAbove(me, groups, since), read)
    ensures VisibleAbove(me, groups, Highest(since, page, |page|))(r)
  {
    hide Ascending, Select, PageFrom, Highest;
    PageFromHolds(rows, me, groups, cleared, since, read, page);
    HighestOf(since, page, |page|);
    if Highest(since, page, |page|) != since {
      var x :| x in page && x.number == Highest(since, page, |page|);
      PageIsLowest(rows, VisibleAbove(me, groups, since), read, r, x);
    }
  }

  /**
   * A page that is not full shows that nothing above its largest number is due, if the query had fewer rows and all
   * were read; and only then, if nothing was cleared.
   */
  lemma ShortPageEnds(rows: seq<Row>, me: string, groups: seq<string>, cleared: Cleared, since: nat, read: nat,
                      page: seq<Row>)
    requires Ascending(rows) && |page| < PAGE && PageFrom(rows, me, groups, cleared, since, read, page)
    ensures var last := read == |Select(rows, VisibleAbove(me, groups, since), PAGE)| < PAGE;
            && (last ==> NothingAbove(rows, me, groups, cleared, Highest(since, page, |page|)))
            && (cleared == map[] ==> (NothingAbove(rows, me, groups, cleared, Highest(since, page, |page|)) <==> last))
    ensures page == [] ==> Highest(since, page, |page|) == since
  {
    var visible := VisibleAbove(me, groups, since);
    var whole := Select(rows, visible, PAGE);
    HighestOf(since, page, |page|);
    PageFromHolds(rows, me, groups, cleared, since, read, page);
    if read == |whole| < PAGE {
      assert whole[..read] == whole;
      CutPage(rows, visible, PAGE, read);
      forall r | r in rows
        ensures !Due(me, groups, cleared, Highest(since, page, |page|), r)
      {
        if Due(me, groups, cleared, since, r) {
          ShortPageIsAll(rows, visible, PAGE, r);
        }
      }
    } else if cleared == map[] {
      PageHolds(page, whole[..read], me, cleared);
      SelectAscends(rows, visible, PAGE);
      SelectSound(rows, visible, PAGE);
      CutPage(rows, visible, PAGE, read);
      var r := whole[read];
      assert r in whole;
      assert r !in whole[..read];
      UnreadIsAbove(rows, me, groups, cleared, since, read, page, r);
      assert Due(me, groups, cleared, Highest(since, page, |page|), r);
    }
  }

  /**
   * A full page with a cleared row in it is sent short, and the client stops: whatever is due behind it is not asked
   * for, and the sync does not call itself incomplete.
   */
  lemma AClearedRowEndsTheSync(rows: seq<Row>, me: string, groups: seq<string>, cleared: Cleared, since: nat, r: Row)
    requires Ascending(rows) && Due(me, groups, cleared, since, r) && r in rows
    requires var whole := Select(rows, VisibleAbove(me, groups, since), PAGE);
             |whole| == PAGE && r !in whole && exists x :: x in whole && !Shown(me, cleared, x)
    ensures var page := Kept(Select(rows, VisibleAbove(me, groups, since), PAGE), me, cleared);
            |page| < PAGE && !NothingAbove(rows, me, groups, cleared, Highest(since, page, |page|))
  {
    var whole := Select(rows, VisibleAbove(me, groups, since), PAGE);
    KeptIsShorter(whole, me, cleared);
    assert whole[..PAGE] == whole;
    var page := Kept(whole, me, cleared);
    UnreadIsAbove(rows, me, groups, cleared, since, PAGE, page, r);
    assert Due(me, groups, cleared, Highest(since, page, |page|), r);
  }

  lemma {:induction false} SelectsTheFirst(rows: seq<Row>, p: Row -> bool, n: nat)
    requires n <= |rows| && forall r | r in rows :: p(r)
    ensures Select(rows, p, n) == rows[..n]
  {
    if n > 0 {
      SelectsTheFirst(rows[1..], p, n - 1);
    }
  }

  /** One message from `a`, and `n` from `b`. */
  function OneAndMany(me: string, a: string, b: string, n: nat): (rows: seq<Row>)
    ensures |rows| == n + 1
    ensures forall i :: 0 <= i <= n ==>
              rows[i].number == i + 1 && |rows[i].msg.id| == i && rows[i].msg.to == me && rows[i].msg.from == if i == 0 then a else b
  {
    seq(n + 1, i requires 0 <= i < n + 1 =>
      Row(i + 1, 0, Message(seq(i, _ => 'x'), if i == 0 then a else b, me, "", "", "", false)))
  }

  lemma OneAndManyIsATable(me: string, a: string, b: string, n: nat)
    ensures Ascending(OneAndMany(me, a, b, n)) && UniqueIds(OneAndMany(me, a, b, n))
    ensures forall r | r in OneAndMany(me, a, b, n) :: VisibleAbove(me, [], 0)(r)
  {
    var rows := OneAndMany(me, a, b, n);
    forall i, j | 0 <= i < j < |rows|
      ensures rows[i].msg.id != rows[j].msg.id
    {
      assert |rows[i].msg.id| == i && |rows[j].msg.id| == j;
    }
  }

  lemma {:induction false} FilterAll(rows: seq<Row>, p: Row -> bool)
    requires forall r | r in rows :: p(r)
    ensures Filter(rows, p) == rows
  {
    if rows != [] {
      FilterAll(rows[1..], p);
    }
  }

  lemma FirstPageEndsEarly(rows: seq<Row>, me: string, cleared: Cleared)
    requires |rows| == PAGE + 1 && forall r | r in rows :: VisibleAbove(me, [], 0)(r)
    requires !Shown(me, cleared, rows[0]) && Shown(me, cleared, rows[PAGE])
    ensures EndsEarly(rows, me, [], cleared, 0)
  {
    FilterAll(rows, VisibleAbove(me, [], 0));
    hide Filter, Shown;
    var visible, k: nat := Visible(rows, me, [], 0), 0;
    assert visible == rows && ClearedIn(visible, me, cleared, k) && DueFrom(visible, me, cleared, (k + 1) * PAGE);
  }

  /** One cleared message and a page of others do it. */
  lemma AClearedConversation(me: string, a: string, b: string)
    requires me != a && me != b && a != b && !IsGroup(me)
    ensures var rows, cleared: Cleared := OneAndMany(me, a, b, PAGE), map[a := 1];
            && Ascending(rows) && UniqueIds(rows) && EndsEarly(rows, me, [], cleared, 0)
            && var page := Kept(Select(rows, VisibleAbove(me, [], 0), PAGE), me, cleared);
               |page| < PAGE && !NothingAbove(rows, me, [], cleared, Highest(0, page, |page|))
  {
    var rows, cleared: Cleared := OneAndMany(me, a, b, PAGE), map[a := 1];
    OneAndManyIsATable(me, a, b, PAGE);
    SelectsTheFirst(rows, VisibleAbove(me, [], 0), PAGE);
    FirstPageEndsEarly(rows, me, cleared);
    hide EndsEarly, Filter, Ascending, UniqueIds, OneAndMany, Select, Kept, Highest, NothingAbove;
    var first, last := rows[0], rows[PAGE];
    assert !Shown(me, cleared, first) && Shown(me, cleared, last);
    assert rows[..PAGE][0] == first;
    forall i | 0 <= i < PAGE
      ensures rows[..PAGE][i] != last
    {
      assert rows[i].number != last.number;
    }
    AClearedRowEndsTheSync(rows, me, [], cleared, 0, last);
  }

  lemma KnownSurvivesGrowth(known: seq<Row>, rows: seq<Row>, me: string, groups: seq<string>, start: nat,
                            before: Chats, chats: Chats)
    requires known <= rows && NothingForeign(known, me, groups, start, before, chats)
    ensures NothingForeign(rows, me, groups, start, before, chats)
  {
    hide VisibleAbove, PeerOf, Chat;
    forall p | p in chats
      ensures EntriesKnown(rows, me, groups, start, before, p, chats[p])
    {
      assert EntriesKnown(known, me, groups, start, before, p, chats[p]);
    }
  }

  lemma {:induction false} PutAdds(chat: seq<Row>, r: Row)
    ensures forall x | x in Put(chat, r) :: x == r || x in chat
  {
    if chat != [] {
      PutAdds(chat[1..], r);
    }
  }

  lemma PageIsKnown(rows: seq<Row>, me: string, groups: seq<string>, cleared: Cleared, start: nat, since: nat,
                    before: Chats, chats: Chats, read: nat, page: seq<Row>)
    requires start <= since && PageFrom(rows, me, groups, cleared, since, read, page)
    requires NothingForeign(rows, me, groups, start, before, chats)
    ensures NothingForeign(rows, me, groups, start, before, MergeAll(chats, me, page, |page|))
  {
    PageFromHolds(rows, me, groups, cleared, since, read, page);
    MergedIsKnown(rows, me, groups, start, before, chats, page, |page|);
  }

  lemma {:induction false} MergedIsKnown(rows: seq<Row>, me: string, groups: seq<string>, start: nat, before: Chats,
                                         chats: Chats,
                                         page: seq<Row>, k: nat)
    requires k <= |page| && forall r | r in page :: r in rows && VisibleAbove(me, groups, start)(r)
    requires NothingForeign(rows, me, groups, start, before, chats)
    ensures NothingForeign(rows, me, groups, start, before, MergeAll(chats, me, page, k))
  {
    hide VisibleAbove, PeerOf, Put;
    if k > 0 {
      MergedIsKnown(rows, me, groups, start, before, chats, page, k - 1);
      var merged, m := MergeAll(chats, me, page, k - 1), page[k - 1];
      var peer := PeerOf(me, m.msg);
      PutAdds(Chat(merged, peer), m);
      assert peer in merged ==> EntriesKnown(rows, me, groups, start, before, peer, merged[peer]);
    }
  }
}
