/** The batched message writer (server/msgwriter.go): one writer, its batches, its reply channels, its failure paths. */
module MsgWriter {
  import opened Common
  import opened MessageTable

  datatype DbError = RowLevel | Infrastructure

  datatype SaveError = Statement(cause: DbError) | NoReturningRow | WriterPanic

  datatype SaveResult = Saved(number: nat, createdAt: int) | Failed(error: SaveError)

  /** What a lookup of an absent id yields. */
  const ZERO_RESULT := Saved(0, 0)

  /** A reply channel with room for one value. A send into a full one would block for ever. */
  class Reply {
    var slot: Option<SaveResult>

    constructor ()
      ensures slot == None
    {
      slot := None;
    }

    method Send(r: SaveResult)
      requires slot.None?
      modifies this
      ensures slot == Some(r)
    {
      slot := Some(r);
    }

    /** The select with a default branch: a channel that already holds a verdict keeps it. */
    method TrySend(r: SaveResult)
      modifies this
      ensures slot == if old(slot).None? then Some(r) else old(slot)
    {
      if slot.None? {
        slot := Some(r);
      }
    }
  }

  datatype SaveRequest = SaveRequest(msg: Message, reply: Reply)

  type Batch = seq<SaveRequest>

  function Messages(batch: Batch): seq<Message> {
    seq(|batch|, i requires 0 <= i < |batch| => batch[i].msg)
  }

  function Replies(batch: Batch): set<Reply> {
    set r | r in batch :: r.reply
  }

  /** saveMessage makes a channel of its own for every request. */
  predicate OwnReplies(batch: Batch) {
    forall i, j :: 0 <= i < j < |batch| ==> batch[i].reply != batch[j].reply
  }

  ghost predicate Unanswered(batch: Batch)
    reads Replies(batch)
  {
    forall i :: 0 <= i < |batch| ==> batch[i].reply.slot.None?
  }

  ghost predicate Answered(batch: Batch)
    reads Replies(batch)
  {
    forall i :: 0 <= i < |batch| ==> batch[i].reply.slot.Some?
  }

  /** Nobody is told of a number that is not the number of the row stored under the id. */
  predicate Truthful(rows: seq<Row>, id: string, r: SaveResult) {
    r.Saved? ==> Find(rows, id).Some? && Find(rows, id).value.number == r.number && Find(rows, id).value.createdAt == r.createdAt
  }

  ghost predicate AllTruthful(rows: seq<Row>, batch: Batch)
    reads Replies(batch)
  {
    forall i :: 0 <= i < |batch| && batch[i].reply.slot.Some? ==> Truthful(rows, batch[i].msg.id, batch[i].reply.slot.value)
  }

  /** What RETURNING yields for the statement's ids. */
  function Returned(rows: seq<Row>, ms: seq<Message>): map<string, SaveResult> {
    map m | m in ms && Find(rows, m.id).Some? ::
      m.id := Saved(Find(rows, m.id).value.number, Find(rows, m.id).value.createdAt)
  }

  /**
   * The database as one writer sees it. `bad` is the data its constraints refuse; a healthy database has no
   * failures of its own, an unhealthy one may fail before or after a statement took effect. In a steady run nothing
   * panics.
   */
  class Database {
    var db: Db
    const bad: Message -> bool
    const healthy: bool
    const steady: bool

    /** How every statement so far has ended. */
    ghost var calls: seq<Option<DbError>>

    constructor (db: Db, bad: Message -> bool, healthy: bool, steady: bool)
      ensures this.db == db && this.bad == bad && this.healthy == healthy && this.steady == steady && calls == []
    {
      this.db, this.bad, this.healthy, this.steady, calls := db, bad, healthy, steady, [];
    }

    /** insertMessageRows. One statement may not touch the same row twice. */
    method InsertMessageRows(ms: seq<Message>, at: int) returns (out: map<string, SaveResult>, error: Option<DbError>)
      requires WellFormed(db) && DistinctIds(ms)
      modifies this
      ensures WellFormed(db) && old(db).rows <= db.rows && calls == old(calls) + [error]
      ensures error.None? ==> (forall m | m in ms :: !bad(m))
      ensures error.None? ==> db == UpsertAll(old(db), ms, at) && out == Returned(db.rows, ms)
      ensures error == Some(RowLevel) ==> (exists m :: m in ms && bad(m)) && db.rows == old(db).rows
      ensures error == Some(Infrastructure) ==> !healthy
    {
      UpsertAllKeeps(db, ms, at);
      if ms == [] {
        calls := calls + [None];
        return map[], None;
      }
      var luck: nat := *;
      if !healthy && luck == 0 {
        calls := calls + [Some(Infrastructure)];
        return map[], Some(Infrastructure);
      }
      if exists m :: m in ms && bad(m) {
        db := db.(next := db.next + 1);
        calls := calls + [Some(RowLevel)];
        return map[], Some(RowLevel);
      }
      db := UpsertAll(db, ms, at);
      if !healthy && luck == 1 {
        calls := calls + [Some(Infrastructure)];
        return map[], Some(Infrastructure);
      }
      calls := calls + [None];
      return Returned(db.rows, ms), None;
    }
  }

  // ── Waiters ─────────────────────────────────────────────────────────────

  /** The channels that wait for one id, in queue order. */
  function WaitersOf(batch: Batch, id: string): seq<Reply> {
    if batch == [] then []
    else WaitersOf(batch[..|batch| - 1], id) +
         if batch[|batch| - 1].msg.id == id then [batch[|batch| - 1].reply] else []
  }

  lemma {:induction false} WaitersAreTheRequesters(batch: Batch, id: string)
    requires OwnReplies(batch)
    ensures forall i :: 0 <= i < |batch| ==> (batch[i].reply in WaitersOf(batch, id) <==> batch[i].msg.id == id)
    ensures forall r | r in WaitersOf(batch, id) :: r in Replies(batch)
    ensures forall i, j :: 0 <= i < j < |WaitersOf(batch, id)| ==> WaitersOf(batch, id)[i] != WaitersOf(batch, id)[j]
  {
    if batch != [] {
      var init, last := batch[..|batch| - 1], batch[|batch| - 1];
      WaitersAreTheRequesters(init, id);
      forall r | r in init
        ensures r.reply != last.reply
      {
        var i :| 0 <= i < |init| && init[i] == r;
        assert batch[i] == r;
      }
      assert last.reply !in Replies(init);
      forall i | 0 <= i < |batch|
        ensures batch[i].reply in WaitersOf(batch, id) <==> batch[i].msg.id == id
      {
        if i < |init| {
          assert init[i] == batch[i];
        }
      }
    }
  }

  /** Exactly the requests whose id has a verdict have received it. */
  ghost predicate Delivered(batch: Batch, verdicts: map<string, SaveResult>)
    reads Replies(batch)
  {
    forall i :: 0 <= i < |batch| ==>
      batch[i].reply.slot == if batch[i].msg.id in verdicts then Some(verdicts[batch[i].msg.id]) else None
  }

  /** deliverSaveResult: the verdict goes to everyone who waits for the id, and no send finds a full channel. */
  method DeliverSaveResult(waiters: map<string, seq<Reply>>, id: string, r: SaveResult,
                           ghost batch: Batch, ghost verdicts: map<string, SaveResult>)
    returns (rest: map<string, seq<Reply>>)
    requires OwnReplies(batch) && Delivered(batch, verdicts)
    requires id in waiters && id !in verdicts && waiters[id] == WaitersOf(batch, id)
    modifies Replies(batch)
    ensures Delivered(batch, verdicts[id := r])
    ensures rest == waiters - {id}
  {
    WaitersAreTheRequesters(batch, id);
    var channels := waiters[id];
    for k := 0 to |channels|
      invariant forall i :: 0 <= i < |batch| && batch[i].reply !in channels[..k] ==>
        batch[i].reply.slot == if batch[i].msg.id in verdicts then Some(verdicts[batch[i].msg.id]) else None
      invariant forall i :: 0 <= i < |batch| && batch[i].reply in channels[..k] ==> batch[i].reply.slot == Some(r)
    {
      assert channels[k] in channels;
      assert channels[k] !in channels[..k];
      ghost var q :| q in batch && q.reply == channels[k];
      ghost var n :| 0 <= n < |batch| && batch[n] == q;
      channels[k].Send(r);
    }
    assert channels[..|channels|] == channels;
    rest := waiters - {id};
  }

  // ── One batch ───────────────────────────────────────────────────────────

  /** The requests that wait without a verdict: exactly their ids are keys of the waiters map. */
  ghost predicate Waiting(batch: Batch, waiters: map<string, seq<Reply>>, verdicts: map<string, SaveResult>) {
    && (forall id | id in waiters :: id !in verdicts && waiters[id] == WaitersOf(batch, id))
    && (forall id :: id in waiters || id in verdicts <==> HasId(Messages(batch), id))
  }

  ghost predicate TruthfulVerdicts(rows: seq<Row>, verdicts: map<string, SaveResult>) {
    forall id | id in verdicts :: Truthful(rows, id, verdicts[id])
  }

  /** The first loop of flushMessageBatch: one request per id goes to the database, everyone waits. */
  method Deduplicate(batch: Batch) returns (uniq: seq<Message>, waiters: map<string, seq<Reply>>)
    ensures uniq == Firsts(Messages(batch))
    ensures Waiting(batch, waiters, map[])
  {
    hide Waiting, WaitersOf, Messages;
    uniq, waiters := [], map[];
    NothingWaits();
    for k := 0 to |batch|
      invariant uniq == Firsts(Messages(batch[..k]))
      invariant Waiting(batch[..k], waiters, map[])
    {
      var r := batch[k];
      WaitingGrows(batch[..k], waiters, r);
      assert batch[..k + 1] == batch[..k] + [r];
      if r.msg.id !in waiters {
        uniq := uniq + [r.msg];
      }
      waiters := Enrol(waiters, r);
    }
    assert batch[..|batch|] == batch;
  }

  /** The waiters once a request has joined those of its id. */
  function Enrol(waiters: map<string, seq<Reply>>, r: SaveRequest): map<string, seq<Reply>> {
    waiters[r.msg.id := (if r.msg.id in waiters then waiters[r.msg.id] else []) + [r.reply]]
  }

  lemma NothingWaits()
    ensures Waiting([], map[], map[]) && Firsts(Messages([])) == []
  {}

  lemma WaitingGrows(batch: Batch, waiters: map<string, seq<Reply>>, r: SaveRequest)
    requires Waiting(batch, waiters, map[])
    ensures Waiting(batch + [r], Enrol(waiters, r), map[])
    ensures Firsts(Messages(batch + [r])) == Firsts(Messages(batch)) + if r.msg.id in waiters then [] else [r.msg]
  {
    var more := batch + [r];
    assert Messages(more) == Messages(batch) + [r.msg];
    assert more[..|more| - 1] == batch;
    forall id
      ensures HasId(Messages(more), id) <==> HasId(Messages(batch), id) || id == r.msg.id
    {
      HasIdSnoc(Messages(batch), r.msg, id);
    }
    if r.msg.id !in waiters {
      NobodyWaits(batch, r.msg.id);
    }
  }

  lemma {:induction false} NobodyWaits(batch: Batch, id: string)
    requires !HasId(Messages(batch), id)
    ensures WaitersOf(batch, id) == []
  {
    if batch != [] {
      var init := batch[..|batch| - 1];
      assert Messages(batch)[|init|] == batch[|init|].msg;
      assert Messages(init) == Messages(batch)[..|init|];
      NobodyWaits(init, id);
    }
  }

  lemma WaitingNext(batch: Batch, waiters: map<string, seq<Reply>>, verdicts: map<string, SaveResult>,
                    id: string, r: SaveResult)
    requires Waiting(batch, waiters, verdicts) && HasId(Messages(batch), id) && id !in verdicts
    ensures id in waiters && waiters[id] == WaitersOf(batch, id)
    ensures Waiting(batch, waiters - {id}, verdicts[id := r])
  {}

  /** Exactly the first `k` of the ids have a verdict. */
  ghost predicate Decided(uniq: seq<Message>, k: nat, verdicts: map<string, SaveResult>)
    requires k <= |uniq|
  {
    forall id :: id in verdicts <==> HasId(uniq[..k], id)
  }

  lemma DecidedNext(uniq: seq<Message>, k: nat, verdicts: map<string, SaveResult>, r: SaveResult)
    requires DistinctIds(uniq) && k < |uniq| && Decided(uniq, k, verdicts)
    ensures HasId(uniq, uniq[k].id) && uniq[k].id !in verdicts
    ensures Decided(uniq, k + 1, verdicts[uniq[k].id := r])
  {
    assert uniq[..k + 1] == uniq[..k] + [uniq[k]];
    forall id
      ensures HasId(uniq[..k + 1], id) <==> HasId(uniq[..k], id) || id == uniq[k].id
    {
      HasIdSnoc(uniq[..k], uniq[k], id);
    }
  }

  /** Deliver the verdicts of one statement, or of its failure, to everyone; a panic may cut this short. */
  method Distribute(uniq: seq<Message>, waiters0: map<string, seq<Reply>>, results: map<string, SaveResult>,
                    otherwise: SaveResult, steady: bool, ghost batch: Batch)
    returns (panicked: bool, ghost verdicts: map<string, SaveResult>)
    requires OwnReplies(batch) && Delivered(batch, map[]) && Waiting(batch, waiters0, map[])
    requires uniq == Firsts(Messages(batch))
    modifies Replies(batch)
    ensures Delivered(batch, verdicts)
    ensures steady ==> !panicked
    ensures !panicked ==> Decided(uniq, |uniq|, verdicts)
    ensures forall id | id in verdicts :: verdicts[id] == if id in results then results[id] else otherwise
  {
    hide Delivered, Waiting, WaitersOf, Firsts;
    verdicts := map[];
    var waiters := waiters0;
    FirstsIds(Messages(batch));
    for k := 0 to |uniq|
      invariant Delivered(batch, verdicts) && Waiting(batch, waiters, verdicts)
      invariant Decided(uniq, k, verdicts)
      invariant forall id | id in verdicts :: verdicts[id] == if id in results then results[id] else otherwise
    {
      var panics: bool := *;
      if panics && !steady {
        return true, verdicts;
      }
      var id := uniq[k].id;
      var verdict := if id in results then results[id] else otherwise;
      DecidedNext(uniq, k, verdicts, verdict);
      WaitingNext(batch, waiters, verdicts, id, verdict);
      waiters := DeliverSaveResult(waiters, id, verdict, batch, verdicts);
      verdicts := verdicts[id := verdict];
    }
    panicked := false;
  }

  /** In a healthy database a request is saved exactly if its data is good. */
  ghost predicate Fair(uniq: seq<Message>, bad: Message -> bool, verdicts: map<string, SaveResult>) {
    forall k :: 0 <= k < |uniq| && uniq[k].id in verdicts ==> (verdicts[uniq[k].id].Saved? <==> !bad(uniq[k]))
  }

  lemma StillTruthful(rows: seq<Row>, more: seq<Row>, id: string, r: SaveResult)
    requires rows <= more && UniqueIds(more) && Truthful(rows, id, r)
    ensures Truthful(more, id, r)
  {
    hide UniqueIds;
    if r.Saved? {
      FindStays(rows, more, id);
    }
  }

  lemma TruthStays(rows: seq<Row>, more: seq<Row>, verdicts: map<string, SaveResult>)
    requires rows <= more && UniqueIds(more) && TruthfulVerdicts(rows, verdicts)
    ensures TruthfulVerdicts(more, verdicts)
  {
    hide UniqueIds;
    forall id | id in verdicts
      ensures Truthful(more, id, verdicts[id])
    {
      StillTruthful(rows, more, id, verdicts[id]);
    }
  }

  /** The body of the retry loop: one row in a statement of its own. */
  method SaveOne(db: Database, m: Message, at: int) returns (r: SaveResult)
    requires WellFormed(db.db)
    modifies db
    ensures WellFormed(db.db) && old(db.db).rows <= db.db.rows
    ensures Truthful(db.db.rows, m.id, r)
    ensures |db.calls| == |old(db.calls)| + 1 && old(db.calls) <= db.calls
    ensures db.healthy ==> (r.Saved? <==> !db.bad(m))
    ensures db.healthy ==> Contents(db.db.rows) == Insert(Contents(old(db.db).rows), m, db.bad)
  {
    hide WellFormed, Find;
    ghost var before := db.db;
    var one, error := db.InsertMessageRows([m], at);
    if error.Some? {
      match error.value {
        case RowLevel =>
          ghost var m' :| m' in [m] && db.bad(m');
          assert m' == m;
        case Infrastructure =>
      }
      return Failed(Statement(error.value));
    }
    assert m in [m];
    EveryRowReturned(before, [m], at);
    UpsertAllContents(before, [m], at, db.bad);
    assert InsertEach(Contents(before.rows), [m], db.bad) == Insert(Contents(before.rows), m, db.bad) by {
      assert [m][..0] == [];
    }
    assert [m][0].id in one;
    r := if m.id in one then one[m.id] else ZERO_RESULT;
  }

  /** The retry after a row-level failure: each unique row on its own, and its verdict at once. */
  method RowByRow(db: Database, uniq: seq<Message>, waiters0: map<string, seq<Reply>>, at: int, ghost batch: Batch)
    returns (panicked: bool, ghost verdicts: map<string, SaveResult>)
    requires WellFormed(db.db)
    requires OwnReplies(batch) && Delivered(batch, map[]) && Waiting(batch, waiters0, map[])
    requires uniq == Firsts(Messages(batch))
    modifies db, Replies(batch)
    ensures WellFormed(db.db) && old(db.db).rows <= db.db.rows
    ensures Delivered(batch, verdicts) && TruthfulVerdicts(db.db.rows, verdicts)
    ensures old(db.calls) <= db.calls && (!panicked ==> |db.calls| == |old(db.calls)| + |uniq|)
    ensures db.steady ==> !panicked
    ensures !panicked ==> Decided(uniq, |uniq|, verdicts)
    ensures db.healthy ==> Fair(uniq, db.bad, verdicts)
    ensures !panicked && db.healthy ==> Contents(db.db.rows) == InsertEach(Contents(old(db.db).rows), uniq, db.bad)
  {
    hide Delivered, Waiting, WaitersOf, Firsts, UniqueIds, Ascending, Truthful, Insert;
    verdicts := map[];
    var waiters := waiters0;
    FirstsIds(Messages(batch));
    ghost var c0 := Contents(db.db.rows);
    for k := 0 to |uniq|
      invariant WellFormed(db.db) && old(db.db).rows <= db.db.rows
      invariant old(db.calls) <= db.calls && |db.calls| == |old(db.calls)| + k
      invariant Delivered(batch, verdicts) && Waiting(batch, waiters, verdicts)
      invariant Decided(uniq, k, verdicts) && TruthfulVerdicts(db.db.rows, verdicts)
      invariant db.healthy ==> Fair(uniq, db.bad, verdicts)
      invariant db.healthy ==> Contents(db.db.rows) == InsertEach(c0, uniq[..k], db.bad)
    {
      var panics: bool := *;
      if panics && !db.steady {
        return true, verdicts;
      }
      var id := uniq[k].id;
      ghost var rows := db.db.rows;
      var verdict := SaveOne(db, uniq[k], at);
      TruthStays(rows, db.db.rows, verdicts);
      assert uniq[..k + 1][..k] == uniq[..k];
      DecidedNext(uniq, k, verdicts, verdict);
      WaitingNext(batch, waiters, verdicts, id, verdict);
      waiters := DeliverSaveResult(waiters, id, verdict, batch, verdicts);
      verdicts := verdicts[id := verdict];
    }
    assert uniq[..|uniq|] == uniq;
    panicked := false;
  }

  /**
   * One statement for the batch. If the database itself fails that is the end of it and everybody is told so; only a bad
   * row makes the others be tried one by one, each once.
   */
  ghost predicate FailsFast(before: seq<Option<DbError>>, calls: seq<Option<DbError>>, verdicts: map<string, SaveResult>,
                            requests: nat, panicked: bool) {
    && before <= calls
    && (|calls| == |before| ==> panicked)
    && (|calls| > |before| && calls[|before|] == Some(Infrastructure) ==>
          |calls| == |before| + 1 && forall id | id in verdicts :: verdicts[id] == Failed(Statement(Infrastructure)))
    && (|calls| > |before| && calls[|before|] == None ==> |calls| == |before| + 1)
    && (|calls| > |before| && calls[|before|] == Some(RowLevel) && !panicked ==> |calls| == |before| + 1 + requests)
  }

  /**
   * flushMessageBatch. Whatever happens, the table only grows and every verdict is true of it; unless a panic
   * cuts it short everybody has a verdict; and a healthy database holds what the first requests store.
   */
  method FlushMessageBatch(db: Database, batch: Batch, at: int)
    returns (panicked: bool, ghost verdicts: map<string, SaveResult>)
    requires WellFormed(db.db) && OwnReplies(batch) && Unanswered(batch)
    modifies db, Replies(batch)
    ensures WellFormed(db.db) && old(db.db).rows <= db.db.rows
    ensures Delivered(batch, verdicts) && TruthfulVerdicts(db.db.rows, verdicts)
    ensures FailsFast(old(db.calls), db.calls, verdicts, |Firsts(Messages(batch))|, panicked)
    ensures db.steady ==> !panicked
    ensures !panicked ==> forall i :: 0 <= i < |batch| ==> batch[i].msg.id in verdicts
    ensures db.healthy ==> Fair(Firsts(Messages(batch)), db.bad, verdicts)
    ensures !panicked && db.healthy ==>
              Contents(db.db.rows) == InsertEach(Contents(old(db.db).rows), Firsts(Messages(batch)), db.bad)
  {
    hide Waiting, WaitersOf, Firsts, UniqueIds, Ascending, Find, Contents, InsertEach, UpsertAll;
    var panics: bool := *;
    if panics && !db.steady {
      return true, map[];
    }
    var uniq, waiters := Deduplicate(batch);
    FirstsIds(Messages(batch));
    ghost var before := db.db;
    var rows, error := db.InsertMessageRows(uniq, at);
    match error {
      case Some(Infrastructure) =>
        panicked, verdicts := Distribute(uniq, waiters, map[], Failed(Statement(Infrastructure)), db.steady, batch);
      case Some(RowLevel) =>
        panicked, verdicts := RowByRow(db, uniq, waiters, at, batch);
      case None =>
        EveryRowReturned(before, uniq, at);
        UpsertAllContents(before, uniq, at, db.bad);
        panicked, verdicts := Distribute(uniq, waiters, rows, Failed(NoReturningRow), db.steady, batch);
    }
    assert db.calls[|old(db.calls)|] == error;
    assert uniq[..|uniq|] == uniq;
    forall i | 0 <= i < |batch|
      ensures HasId(uniq, batch[i].msg.id)
    {
      assert Messages(batch)[i].id == batch[i].msg.id;
    }
  }

  /** RETURNING has a row for every id of the statement. */
  lemma {:induction false} EveryRowReturned(d: Db, ms: seq<Message>, at: int)
    requires WellFormed(d)
    ensures var rows := UpsertAll(d, ms, at).rows;
            && TruthfulVerdicts(rows, Returned(rows, ms))
            && forall k :: 0 <= k < |ms| ==> ms[k].id in Returned(rows, ms) && Returned(rows, ms)[ms[k].id].Saved?
  {
    forall k | 0 <= k < |ms|
      ensures Find(UpsertAll(d, ms, at).rows, ms[k].id).Some?
    {
      UpsertAllStores(d, ms, at, k);
    }
  }

  /** What a waiter ends up with: what the flush told it, or that the writer panicked. */
  ghost function FinalVerdict(told: map<string, SaveResult>, id: string): SaveResult {
    if id in told then told[id] else Failed(WriterPanic)
  }

  /**
   * safeFlush: a panic is caught and everyone still without a verdict is told so. `told` is what had been
   * delivered when the flush ended, and none of it is overtaken.
   */
  method SafeFlush(db: Database, batch: Batch, at: int) returns (panicked: bool, ghost told: map<string, SaveResult>)
    requires WellFormed(db.db) && OwnReplies(batch) && Unanswered(batch)
    modifies db, Replies(batch)
    ensures WellFormed(db.db) && old(db.db).rows <= db.db.rows
    ensures Answered(batch) && AllTruthful(db.db.rows, batch)
    ensures forall i :: 0 <= i < |batch| ==> batch[i].reply.slot == Some(FinalVerdict(told, batch[i].msg.id))
    ensures db.steady ==> !panicked
    ensures !panicked ==> forall i :: 0 <= i < |batch| ==> batch[i].msg.id in told
    ensures db.healthy ==> Fair(Firsts(Messages(batch)), db.bad, told)
    ensures !panicked && db.healthy ==>
              Contents(db.db.rows) == InsertEach(Contents(old(db.db).rows), Firsts(Messages(batch)), db.bad)
  {
    hide WellFormed, Fair, Contents, InsertEach, Firsts;
    panicked, told := FlushMessageBatch(db, batch, at);
    ghost var after := db.db;
    if panicked {
      for k := 0 to |batch|
        invariant db.db == after
        invariant forall i :: 0 <= i < k ==> batch[i].reply.slot == Some(FinalVerdict(told, batch[i].msg.id))
        invariant forall i :: k <= i < |batch| && batch[i].msg.id in told ==> batch[i].reply.slot == Some(told[batch[i].msg.id])
        invariant forall i :: k <= i < |batch| && batch[i].msg.id !in told ==> batch[i].reply.slot == None
      {
        batch[k].reply.TrySend(Failed(WriterPanic));
      }
    }
  }

  lemma RestReplies(all: Batch, done: nat)
    requires done <= |all|
    ensures Replies(all[done..]) <= Replies(all)
  {
    forall r | r in all[done..]
      ensures r in all
    {}
  }

  lemma NobodyAnswered(batch: Batch)
    requires Unanswered(batch)
    ensures forall i :: 0 <= i < |batch| ==> batch[i].reply.slot.None?
  {}

  lemma StaysTruthful(rows: seq<Row>, d: Db, id: string, r: SaveResult)
    requires rows <= d.rows && WellFormed(d) && Truthful(rows, id, r)
    ensures Truthful(d.rows, id, r)
  {
    StillTruthful(rows, d.rows, id, r);
  }

  // ── One writer ──────────────────────────────────────────────────────────

  /** The queue of accepted requests, closed when nobody adds to it any more. */
  class Queue {
    var items: Batch

    constructor (items: Batch)
      ensures this.items == items
    {
      this.items := items;
    }

    method Receive() returns (r: SaveRequest)
      requires items != []
      modifies this
      ensures r == old(items)[0] && items == old(items)[1..]
    {
      r, items := items[0], items[1..];
    }
  }

  /** The receive loop of runMessageWriter: block for the first request, top up with what is there, never wait. */
  method TakeBatch(queue: Queue) returns (batch: Batch)
    requires queue.items != []
    modifies queue
    ensures 0 < |batch| <= BATCH_MAX_ROWS && batch + queue.items == old(queue.items)
    ensures |batch| == BATCH_MAX_ROWS || queue.items == []
  {
    var first := queue.Receive();
    batch := [first];
    while |batch| < BATCH_MAX_ROWS && queue.items != []
      invariant 0 < |batch| <= BATCH_MAX_ROWS && batch + queue.items == old(queue.items)
      decreases |queue.items|
    {
      var r := queue.Receive();
      batch := batch + [r];
    }
  }

  /** Requests that carry the same id carry data of the same quality, as resends of one envelope do. */
  predicate SameIdSameData(ms: seq<Message>, bad: Message -> bool) {
    forall i, j :: 0 <= i < j < |ms| && ms[i].id == ms[j].id ==> (bad(ms[i]) <==> bad(ms[j]))
  }

  /** The front of a closed queue that goes into the next batch. */
  function NextSize(waiting: nat): (n: nat)
    ensures n <= waiting && (waiting > 0 ==> n > 0)
  {
    if waiting < BATCH_MAX_ROWS then waiting else BATCH_MAX_ROWS
  }

  /** In every batch the first request of each id decides rightly. */
  predicate BatchesDecide(c: seq<Message>, ms: seq<Message>, bad: Message -> bool)
    decreases |ms|
  {
    ms != [] ==>
      var n := NextSize(|ms|);
      FirstsDecide(c, ms[..n], bad) && BatchesDecide(InsertEach(c, ms[..n], bad), ms[n..], bad)
  }

  /** As it does where an id always comes with the same data, however the queue is cut into batches. */
  lemma {:induction false} ResendsDecide(c: seq<Message>, ms: seq<Message>, bad: Message -> bool)
    requires SameIdSameData(ms, bad)
    ensures BatchesDecide(c, ms, bad)
    decreases |ms|
  {
    if ms != [] {
      var n := NextSize(|ms|);
      assert forall i :: 0 <= i < |ms| - n ==> ms[n..][i] == ms[n + i];
      ResendsDecide(InsertEach(c, ms[..n], bad), ms[n..], bad);
    }
  }

  /** A batch off the front of the queue shares no channel with the rest. */
  lemma BatchOf(all: Batch, done: nat, batch: Batch, rest: Batch)
    requires OwnReplies(all) && done <= |all| && batch + rest == all[done..]
    ensures done + |batch| <= |all| && rest == all[done + |batch|..]
    ensures forall i :: 0 <= i < |batch| ==> batch[i] == all[done + i]
    ensures OwnReplies(batch) && Replies(batch) <= Replies(all)
    ensures forall i :: 0 <= i < |all| ==> (all[i].reply in Replies(batch) <==> done <= i < done + |batch|)
  {
    forall i | 0 <= i < |batch|
      ensures batch[i] == all[done + i]
    {
      assert batch[i] == (batch + rest)[i];
    }
    forall i | 0 <= i < |all|
      ensures all[i].reply in Replies(batch) <==> done <= i < done + |batch|
    {
      if done <= i < done + |batch| {
        assert batch[i - done] == all[i] && batch[i - done] in batch;
      }
    }
  }

  lemma {:induction false} InsertEachConcat(c: seq<Message>, a: seq<Message>, b: seq<Message>, bad: Message -> bool)
    ensures InsertEach(c, a + b, bad) == InsertEach(InsertEach(c, a, bad), b, bad)
  {
    if b == [] {
      assert a + b == a;
    } else {
      assert (a + b)[..|a + b| - 1] == a + b[..|b| - 1];
      InsertEachConcat(c, a, b[..|b| - 1], bad);
    }
  }

  /** So far the table says what one-at-a-time insertion would, and what is waiting will be decided rightly. */
  ghost predicate OnCourse(c: seq<Message>, now: seq<Message>, all: Batch, done: nat, bad: Message -> bool)
    requires done <= |all|
  {
    now == InsertEach(c, Messages(all[..done]), bad) && BatchesDecide(now, Messages(all[done..]), bad)
  }

  /** Flushing the next batch by its first requests continues the one-at-a-time insertion of the queue. */
  lemma BatchContents(c: seq<Message>, now: seq<Message>, all: Batch, done: nat, batch: Batch, bad: Message -> bool)
    requires done < |all| && |batch| == NextSize(|all| - done) && forall i :: 0 <= i < |batch| ==> batch[i] == all[done + i]
    requires OnCourse(c, now, all, done, bad)
    ensures OnCourse(c, InsertEach(now, Firsts(Messages(batch)), bad), all, done + |batch|, bad)
  {
    var before, ms, next := Messages(all[..done]), Messages(batch), done + |batch|;
    assert Messages(all[..next]) == before + ms;
    var rest := Messages(all[done..]);
    assert rest[..|batch|] == ms && rest[|batch|..] == Messages(all[next..]);
    hide InsertEach, FirstsDecide, Firsts;
    InsertEachConcat(c, before, ms, bad);
    DedupIsHarmless(now, ms, bad);
  }

  lemma CourseBegins(c: seq<Message>, all: Batch, bad: Message -> bool)
    ensures OnCourse(c, c, all, 0, bad) <==> BatchesDecide(c, Messages(all), bad)
  {
    assert all[..0] == [] && all[0..] == all;
  }

  lemma CourseEnds(c: seq<Message>, now: seq<Message>, all: Batch, bad: Message -> bool)
    requires OnCourse(c, now, all, |all|, bad)
    ensures now == InsertEach(c, Messages(all), bad)
  {
    assert all[..|all|] == all;
  }

  /** One turn of the writer: a batch off the queue is flushed, and nobody else's channel is touched. */
  method FlushNext(queue: Queue, db: Database, at: int, ghost all: Batch, ghost done: nat)
    returns (panicked: bool, ghost next: nat)
    requires WellFormed(db.db) && OwnReplies(all) && done < |all| && queue.items == all[done..]
    requires forall i :: done <= i < |all| ==> all[i].reply.slot.None?
    modifies queue, db, Replies(queue.items)
    ensures WellFormed(db.db) && old(db.db).rows <= db.db.rows
    ensures db.steady ==> !panicked
    ensures next == done + NextSize(|all| - done) && queue.items == all[next..]
    ensures forall i :: done <= i < next ==>
              all[i].reply.slot.Some? && Truthful(db.db.rows, all[i].msg.id, all[i].reply.slot.value)
    ensures forall i :: 0 <= i < |all| && !(done <= i < next) ==> all[i].reply.slot == old(all[i].reply.slot)
    ensures !panicked && db.healthy ==>
              Contents(db.db.rows) == InsertEach(Contents(old(db.db).rows), Firsts(Messages(all[done..next])), db.bad)
  {
    hide WellFormed, Contents, InsertEach, Firsts, Fair, Truthful, Messages;
    var batch := TakeBatch(queue);
    next := done + |batch|;
    BatchOf(all, done, batch, queue.items);
    assert all[done..next] == batch;
    ghost var told;
    panicked, told := SafeFlush(db, batch, at);
    forall i | done <= i < next
      ensures all[i].reply.slot.Some? && Truthful(db.db.rows, all[i].msg.id, all[i].reply.slot.value)
    {
      assert batch[i - done] == all[i];
    }
  }

  /**
   * runMessageWriter over a queue that has been closed: everybody is answered, and with a healthy database and
   * no panic, as in a steady run, the table says what inserting the requests one at a time in queue order would have said, if in every
   * batch the first request of each id decides rightly.
   */
  method RunMessageWriter(queue: Queue, db: Database, at: int) returns (panics: nat)
    requires WellFormed(db.db) && OwnReplies(queue.items) && Unanswered(queue.items)
    modifies queue, db, Replies(queue.items)
    ensures WellFormed(db.db) && old(db.db).rows <= db.db.rows
    ensures queue.items == [] && (db.steady ==> panics == 0)
    ensures forall i :: 0 <= i < |old(queue.items)| ==> old(queue.items)[i].reply.slot.Some?
    ensures forall i :: 0 <= i < |old(queue.items)| ==>
              Truthful(db.db.rows, old(queue.items)[i].msg.id, old(queue.items)[i].reply.slot.value)
    ensures (panics == 0 || db.steady) && db.healthy
            && BatchesDecide(Contents(old(db.db).rows), Messages(old(queue.items)), db.bad) ==>
              Contents(db.db.rows) == InsertEach(Contents(old(db.db).rows), Messages(old(queue.items)), db.bad)
  {
    hide *;
    ghost var all := queue.items;
    ghost var done, c := 0, Contents(db.db.rows);
    panics := 0;
    CourseBegins(c, all, db.bad);
    NobodyAnswered(all);
    while queue.items != []
      invariant WellFormed(db.db) && old(db.db).rows <= db.db.rows
      invariant 0 <= done <= |all| && queue.items == all[done..] && (db.steady ==> panics == 0)
      invariant forall i :: 0 <= i < done ==> all[i].reply.slot.Some?
      invariant forall i :: 0 <= i < done ==> Truthful(db.db.rows, all[i].msg.id, all[i].reply.slot.value)
      invariant forall i :: done <= i < |all| ==> all[i].reply.slot.None?
      invariant panics == 0 && db.healthy && BatchesDecide(c, Messages(all), db.bad) ==>
                  OnCourse(c, Contents(db.db.rows), all, done, db.bad)
      decreases |queue.items|
    {
      ghost var rows := db.db.rows;
      var panicked;
      ghost var next;
      RestReplies(all, done);
      panicked, next := FlushNext(queue, db, at, all, done);
      if panicked {
        panics := panics + 1;
      }
      forall i | 0 <= i < done
        ensures all[i].reply.slot.Some? && Truthful(db.db.rows, all[i].msg.id, all[i].reply.slot.value)
      {
        StaysTruthful(rows, db.db, all[i].msg.id, all[i].reply.slot.value);
      }
      if panics == 0 && db.healthy && BatchesDecide(c, Messages(all), db.bad) {
        BatchContents(c, Contents(rows), all, done, all[done..next], db.bad);
      }
      done := next;
    }
    if panics == 0 && db.healthy && BatchesDecide(c, Messages(all), db.bad) {
      CourseEnds(c, Contents(db.db.rows), all, db.bad);
    }
  }
}
