/** The messages table under the idempotent insert (server/msgwriter.go, insertMessageRows). */
module MessageTable {
  import opened Common

  datatype Message = Message(
    id: string, from: string, to: string, body: string,
    mediaType: string, replyTo: string, forwarded: bool)

  datatype Row = Row(number: nat, createdAt: int, msg: Message)

  /** Rows in the order of their seq, and the next value of the sequence. */
  datatype Db = Db(rows: seq<Row>, next: nat)

  function Find(rows: seq<Row>, id: string): (r: Option<Row>)
    ensures r.Some? ==> r.value in rows && r.value.msg.id == id
    ensures r.None? ==> forall row | row in rows :: row.msg.id != id
  {
    if rows == [] then None
    else if rows[|rows| - 1].msg.id == id then Some(rows[|rows| - 1])
    else Find(rows[..|rows| - 1], id)
  }

  /** The id is a key. */
  predicate UniqueIds(rows: seq<Row>) {
    forall i, j :: 0 <= i < j < |rows| ==> rows[i].msg.id != rows[j].msg.id
  }

  /** Rows of one insert. */
  const BATCH_MAX_ROWS := 200

  predicate Ascending(rows: seq<Row>) {
    forall i, j :: 0 <= i < j < |rows| ==> rows[i].number < rows[j].number
  }

  predicate WellFormed(d: Db) {
    && UniqueIds(d.rows) && Ascending(d.rows)
    && forall i :: 0 <= i < |d.rows| ==> d.rows[i].number < d.next
  }

  /** INSERT ... ON CONFLICT (id) DO UPDATE SET id = messages.id: a known id keeps its row and burns a number. */
  function Upsert(d: Db, m: Message, at: int): Db {
    Db(if Find(d.rows, m.id).Some? then d.rows else d.rows + [Row(d.next, at, m)], d.next + 1)
  }

  /** The multi-row form: the rows of VALUES in order. */
  function UpsertAll(d: Db, ms: seq<Message>, at: int): Db {
    if ms == [] then d else Upsert(UpsertAll(d, ms[..|ms| - 1], at), ms[|ms| - 1], at)
  }

  lemma UpsertKeeps(d: Db, m: Message, at: int)
    requires WellFormed(d)
    ensures WellFormed(Upsert(d, m, at)) && d.rows <= Upsert(d, m, at).rows
    ensures Find(Upsert(d, m, at).rows, m.id)
         == if Find(d.rows, m.id).Some? then Find(d.rows, m.id) else Some(Row(d.next, at, m))
  {
    if Find(d.rows, m.id).None? {
      forall i | 0 <= i < |d.rows|
        ensures d.rows[i].msg.id != m.id
      {
        assert d.rows[i] in d.rows;
      }
    }
  }

  lemma {:induction false} UpsertAllKeeps(d: Db, ms: seq<Message>, at: int)
    requires WellFormed(d)
    ensures WellFormed(UpsertAll(d, ms, at)) && d.rows <= UpsertAll(d, ms, at).rows
  {
    if ms != [] {
      UpsertAllKeeps(d, ms[..|ms| - 1], at);
      UpsertKeeps(UpsertAll(d, ms[..|ms| - 1], at), ms[|ms| - 1], at);
    }
  }

  lemma {:induction false} UpsertAllStores(d: Db, ms: seq<Message>, at: int, k: nat)
    requires WellFormed(d) && k < |ms|
    ensures Find(UpsertAll(d, ms, at).rows, ms[k].id).Some?
  {
    hide UniqueIds, Ascending, Upsert;
    var init, m := ms[..|ms| - 1], ms[|ms| - 1];
    UpsertAllKeeps(d, init, at);
    UpsertKeeps(UpsertAll(d, init, at), m, at);
    if k < |init| {
      UpsertAllStores(d, init, at, k);
      FindStays(UpsertAll(d, init, at).rows, UpsertAll(d, ms, at).rows, ms[k].id);
    }
  }

  /** A row that was found once is found for good, as it was: an id never changes its seq. */
  lemma {:induction false} FindStays(rows: seq<Row>, more: seq<Row>, id: string)
    requires rows <= more && Find(rows, id).Some?
    requires UniqueIds(more)
    ensures Find(more, id) == Find(rows, id)
    decreases |more|
  {
    if |more| == |rows| {
      assert more == rows;
    } else {
      var init := more[..|more| - 1];
      FindStays(rows, init, id);
      assert Find(rows, id).value in init;
    }
  }

  // ── What the table says, numbers aside ──────────────────────────────────

  /** The stored messages in seq order: the table up to the gaps and values of its numbers. */
  function Contents(rows: seq<Row>): seq<Message> {
    seq(|rows|, i requires 0 <= i < |rows| => rows[i].msg)
  }

  predicate HasId(ms: seq<Message>, id: string) {
    exists i :: 0 <= i < |ms| && ms[i].id == id
  }

  /** One request on its own: refused when its data is bad, without effect when its id is known. */
  function Insert(c: seq<Message>, m: Message, bad: Message -> bool): seq<Message> {
    if bad(m) || HasId(c, m.id) then c else c + [m]
  }

  /** The reference: the requests one at a time, in queue order. */
  function InsertEach(c: seq<Message>, ms: seq<Message>, bad: Message -> bool): seq<Message> {
    if ms == [] then c else Insert(InsertEach(c, ms[..|ms| - 1], bad), ms[|ms| - 1], bad)
  }

  lemma FindIsHasId(rows: seq<Row>, id: string)
    ensures Find(rows, id).Some? <==> HasId(Contents(rows), id)
  {
    if Find(rows, id).Some? {
      var i :| 0 <= i < |rows| && rows[i] == Find(rows, id).value;
      assert Contents(rows)[i].id == id;
    }
  }

  /** The multi-row insert of good rows does what inserting them one at a time does. */
  lemma {:induction false} UpsertAllContents(d: Db, ms: seq<Message>, at: int, bad: Message -> bool)
    requires forall m | m in ms :: !bad(m)
    ensures Contents(UpsertAll(d, ms, at).rows) == InsertEach(Contents(d.rows), ms, bad)
  {
    if ms != [] {
      var init, m := ms[..|ms| - 1], ms[|ms| - 1];
      UpsertAllContents(d, init, at, bad);
      FindIsHasId(UpsertAll(d, init, at).rows, m.id);
    }
  }

  // ── Deduplication inside a batch ────────────────────────────────────────

  /** The first request of each id, in queue order. */
  function Firsts(ms: seq<Message>): seq<Message> {
    if ms == [] then []
    else
      var init, m := ms[..|ms| - 1], ms[|ms| - 1];
      if HasId(init, m.id) then Firsts(init) else Firsts(init) + [m]
  }

  predicate DistinctIds(ms: seq<Message>) {
    forall i, j :: 0 <= i < j < |ms| ==> ms[i].id != ms[j].id
  }

  lemma {:induction false} FirstsIds(ms: seq<Message>)
    ensures DistinctIds(Firsts(ms))
    ensures forall id :: HasId(Firsts(ms), id) <==> HasId(ms, id)
  {
    if ms != [] {
      var init, m := ms[..|ms| - 1], ms[|ms| - 1];
      FirstsIds(init);
      forall id
        ensures HasId(Firsts(ms), id) <==> HasId(ms, id)
      {
        HasIdSnoc(init, m, id);
        HasIdSnoc(Firsts(init), m, id);
        assert init + [m] == ms;
      }
    }
  }

  lemma HasIdSnoc(ms: seq<Message>, m: Message, id: string)
    ensures HasId(ms + [m], id) <==> HasId(ms, id) || m.id == id
  {
    if HasId(ms, id) {
      var i :| 0 <= i < |ms| && ms[i].id == id;
      assert (ms + [m])[i].id == id;
    }
    assert (ms + [m])[|ms|] == m;
  }

  /** Request `j` is good and new to the table, yet the first request with its id is bad. */
  predicate Overruled(c: seq<Message>, ms: seq<Message>, bad: Message -> bool, i: nat, j: nat) {
    && i < j < |ms| && ms[i].id == ms[j].id
    && (forall h :: 0 <= h < i ==> ms[h].id != ms[i].id)
    && bad(ms[i]) && !bad(ms[j]) && !HasId(c, ms[j].id)
  }

  predicate FirstsDecide(c: seq<Message>, ms: seq<Message>, bad: Message -> bool) {
    forall i, j :: 0 <= i < j < |ms| ==> !Overruled(c, ms, bad, i, j)
  }

  lemma {:induction false} InsertEachHas(c: seq<Message>, ms: seq<Message>, bad: Message -> bool, id: string)
    ensures HasId(InsertEach(c, ms, bad), id)
       <==> HasId(c, id) || exists j :: 0 <= j < |ms| && ms[j].id == id && !bad(ms[j])
  {
    if ms != [] {
      var init, m := ms[..|ms| - 1], ms[|ms| - 1];
      InsertEachHas(c, init, bad, id);
      HasIdSnoc(InsertEach(c, init, bad), m, id);
      if j :| 0 <= j < |init| && init[j].id == id && !bad(init[j]) {
        assert ms[j] == init[j];
      }
      if j :| 0 <= j < |ms| && ms[j].id == id && !bad(ms[j]) && j < |init| {
        assert init[j] == ms[j];
      }
    }
  }

  /** The first occurrence of an id that occurs. */
  lemma {:induction false} FirstOccurrence(ms: seq<Message>, id: string) returns (i: nat)
    requires HasId(ms, id)
    ensures i < |ms| && ms[i].id == id && forall h :: 0 <= h < i ==> ms[h].id != id
  {
    i := 0;
    while ms[i].id != id
      invariant i < |ms| && forall h :: 0 <= h < i ==> ms[h].id != id
      decreases |ms| - i
    {
      assert exists j :: i < j < |ms| && ms[j].id == id;
      i := i + 1;
    }
  }

  /** A deduplicated batch stores what the whole batch would, whenever the first request of each id decides. */
  lemma {:induction false} DedupIsHarmless(c: seq<Message>, ms: seq<Message>, bad: Message -> bool)
    requires FirstsDecide(c, ms, bad)
    ensures InsertEach(c, Firsts(ms), bad) == InsertEach(c, ms, bad)
  {
    if ms != [] {
      var init, m := ms[..|ms| - 1], ms[|ms| - 1];
      forall i, j | 0 <= i < j < |init|
        ensures !Overruled(c, init, bad, i, j)
      {
        assert !Overruled(c, ms, bad, i, j);
      }
      DedupIsHarmless(c, init, bad);
      if HasId(init, m.id) {
        var i := FirstOccurrence(init, m.id);
        assert !Overruled(c, ms, bad, i, |init|);
        InsertEachHas(c, init, bad, m.id);
        assert init[i] == ms[i];
      } else {
        assert (Firsts(init) + [m])[..|Firsts(init)|] == Firsts(init);
      }
    }
  }

  lemma {:induction false} FirstsHoldsFirst(ms: seq<Message>, i: nat)
    requires i < |ms| && forall h :: 0 <= h < i ==> ms[h].id != ms[i].id
    ensures ms[i] in Firsts(ms)
  {
    var init := ms[..|ms| - 1];
    if i < |init| {
      FirstsHoldsFirst(init, i);
    }
  }

  /** The exact condition: deduplication changes the outcome precisely when a bad first request hides a good one. */
  lemma DedupRefinesInsertion(c: seq<Message>, ms: seq<Message>, bad: Message -> bool)
    ensures InsertEach(c, Firsts(ms), bad) == InsertEach(c, ms, bad) <==> FirstsDecide(c, ms, bad)
  {
    if FirstsDecide(c, ms, bad) {
      DedupIsHarmless(c, ms, bad);
    } else {
      var i, j :| 0 <= i < j < |ms| && Overruled(c, ms, bad, i, j);
      var id := ms[j].id;
      InsertEachHas(c, ms, bad, id);
      InsertEachHas(c, Firsts(ms), bad, id);
      FirstsIds(ms);
      FirstsHoldsFirst(ms, i);
      var k :| 0 <= k < |Firsts(ms)| && Firsts(ms)[k] == ms[i];
      assert !HasId(InsertEach(c, Firsts(ms), bad), id);
    }
  }
}
