/**
 * The rotate-enc-key subcommand itself (server/rotatekey.go), with failures and crashes at every effect,
 * and the start-up guard (server/enckeyguard.go). Every effect the code has is one of the steps of module
 * Rotation; the recorded history of worlds is what connects the two.
 */
module RotateKey {
  import opened Common
  import opened FileCrypt
  import opened Rotation
  import Paging
  import Text

  /** Crashed: the process is gone. Failed: the call returned an error and had no effect. */
  datatype Io = Ok | Failed | Crashed

  datatype Stats = Stats(rotated: nat, already: nat, foreign: nat, failed: nat) {
    function Total(): nat { rotated + already + foreign + failed }
  }

  datatype Visit = Moved | Already | Foreign | Broken

  datatype Outcome = Refused | DryDone | Finished | Incomplete | Interrupted

  const ROTATE_BATCH: nat := 500

  /** `SELECT ... WHERE id > cursor ORDER BY id LIMIT limit` over a table kept in id order. */
  function SelectAfter(rows: Table, cursor: int, limit: nat): (page: Table)
    ensures |page| <= limit
  {
    Paging.Select(rows, Behind(cursor), limit)
  }

  function Behind(cursor: int): Cell -> bool {
    (row: Cell) => row.id > cursor
  }

  predicate InIdOrder(rows: Table) {
    && (forall i :: 0 <= i < |rows| ==> rows[i].id > 0)
    && (forall i, j :: 0 <= i < j < |rows| ==> rows[i].id < rows[j].id)
  }

  predicate SameIds(before: Table, now: Table) {
    |now| == |before| && forall i :: 0 <= i < |now| ==> now[i].id == before[i].id
  }

  /** The rows from number `k` on are exactly those behind the cursor. */
  predicate SplitAt(rows: Table, k: nat, cursor: int) {
    k <= |rows| && forall i :: 0 <= i < |rows| ==> (rows[i].id > cursor <==> i >= k)
  }

  /** Keyset paging: the next page starts at the first row behind the cursor and skips nothing. */
  lemma {:induction false} SelectsNextRows(rows: Table, k: nat, cursor: int, limit: nat)
    requires SplitAt(rows, k, cursor)
    ensures SelectAfter(rows, cursor, limit) == rows[k..if k + limit < |rows| then k + limit else |rows|]
  {
    var end := if k + limit < |rows| then k + limit else |rows|;
    if rows == [] || limit == 0 {
    } else if k > 0 {
      SelectsNextRows(rows[1..], k - 1, cursor, limit);
      SliceOfTail(rows, 1, k - 1, end - 1);
    } else {
      assert rows[0].id > cursor;
      SelectsNextRows(rows[1..], 0, cursor, limit - 1);
      assert [rows[0]] + rows[1..][..end - 1] == rows[..end];
    }
  }

  // ── The account of a pass over a table ──────────────────────────────────

  /** A row the pass has dealt with: moved to the new key with its text, or not touched. */
  predicate RowRotated(job: Job, before: Cell, now: Cell) {
    && now.id == before.id
    && if job.Needs(before.body)
       then !job.Needs(now.body) && job.c.open(job.newKey, now.body) == job.c.open(job.oldKey, before.body)
       else now == before
  }

  /** The listed rows are dealt with, the others are as they were. */
  predicate Progress(job: Job, before: Table, now: Table, at: seq<nat>) {
    && |now| == |before|
    && (forall i :: 0 <= i < |now| ==> if i in at then RowRotated(job, before[i], now[i]) else now[i] == before[i])
  }

  /** How far a pass has come; a dry run leaves the table as it is. */
  predicate Passed(job: Job, before: Table, now: Table, at: seq<nat>, dry: bool) {
    if dry then now == before else Progress(job, before, now, at)
  }

  /** Rows that are there, each at most once. */
  predicate Listing(rows: Table, at: seq<nat>) {
    (forall i :: 0 <= i < |at| ==> at[i] < |rows|) && forall i, j :: 0 <= i < j < |at| ==> at[i] != at[j]
  }

  /** The rows from `k` on, `n` of them. */
  function Span(k: nat, n: nat): (at: seq<nat>)
    ensures |at| == n && forall i :: 0 <= i < n ==> at[i] == k + i
  {
    seq(n, i requires 0 <= i < n => k + i)
  }

  lemma SpanGrows(k: nat, n: nat)
    ensures Span(0, k) + Span(k, n) == Span(0, k + n)
  {}

  lemma SpanHolds(n: nat)
    ensures forall i: nat :: i in Span(0, n) <==> i < n
  {
    forall i: nat | i < n
      ensures i in Span(0, n)
    {
      assert Span(0, n)[i] == i;
    }
  }

  function Classify(job: Job, body: string): Visit {
    if job.c.open(job.newKey, body).Some? then Already
    else if job.c.open(job.oldKey, body).None? then Foreign
    else Moved
  }

  function Counted(st: Stats, v: Visit): Stats {
    match v
    case Moved => st.(rotated := st.rotated + 1)
    case Already => st.(already := st.already + 1)
    case Foreign => st.(foreign := st.foreign + 1)
    case Broken => st.(failed := st.failed + 1)
  }

  /** The account of the listed rows: each is counted once, as what it was when the pass began. */
  function Tally(job: Job, rows: Table, at: seq<nat>): Stats
    requires Listing(rows, at)
  {
    if at == [] then Stats(0, 0, 0, 0)
    else Counted(Tally(job, rows, at[..|at| - 1]), Classify(job, rows[at[|at| - 1]].body))
  }

  lemma TallyNext(job: Job, rows: Table, at: seq<nat>, k: nat)
    requires Listing(rows, at + [k])
    ensures Listing(rows, at) && k < |rows|
    ensures Tally(job, rows, at + [k]) == Counted(Tally(job, rows, at), Classify(job, rows[k].body))
  {
    assert (at + [k])[..|at|] == at && (at + [k])[|at|] == k;
    assert forall i :: 0 <= i < |at| ==> at[i] == (at + [k])[i];
  }

  /** The next row of the list is as it was. One that is not to be written is dealt with as it stands. */
  lemma NextRow(job: Job, before: Table, now: Table, at: seq<nat>, k: nat, dry: bool)
    requires Listing(before, at + [k]) && Passed(job, before, now, at, dry)
    ensures k < |before| == |now| && now[k] == before[k]
    ensures dry || !job.Needs(before[k].body) ==> Passed(job, before, now, at + [k], dry)
  {
    assert (at + [k])[|at|] == k;
    forall i | 0 <= i < |at|
      ensures at[i] != k
    {
      assert (at + [k])[i] == at[i];
    }
  }

  /** One that is sealed anew is dealt with, too. */
  lemma NextRowMoved(job: Job, before: Table, now: Table, at: seq<nat>, k: nat, nonce: Bytes)
    requires Ideal(job.c) && Listing(before, at + [k]) && Passed(job, before, now, at, false)
    requires k < |now| && job.Needs(now[k].body)
    ensures var sealed := job.c.seal(job.newKey, nonce, job.c.open(job.oldKey, now[k].body).value);
            Passed(job, before, now[k := now[k].(body := sealed)], at + [k], false)
  {
    NextRow(job, before, now, at, k, false);
  }

  /** How many of the listed rows are of a kind. */
  function HowMany(rows: Table, at: seq<nat>, p: Cell -> bool): nat
    requires Listing(rows, at)
  {
    if at == [] then 0
    else HowMany(rows, at[..|at| - 1], p) + if p(rows[at[|at| - 1]]) then 1 else 0
  }

  function UnderTheOld(job: Job): Cell -> bool {
    (row: Cell) => job.c.open(job.newKey, row.body).None? && job.c.open(job.oldKey, row.body).Some?
  }

  function UnderTheNew(job: Job): Cell -> bool {
    (row: Cell) => job.c.open(job.newKey, row.body).Some?
  }

  lemma {:induction false} TallyCounts(job: Job, rows: Table, at: seq<nat>)
    requires Listing(rows, at)
    ensures Tally(job, rows, at).Total() == |at| && Tally(job, rows, at).failed == 0
    ensures Tally(job, rows, at).rotated == HowMany(rows, at, UnderTheOld(job))
    ensures Tally(job, rows, at).already == HowMany(rows, at, UnderTheNew(job))
  {
    hide *;
    if at == [] {
      NothingListed(job, rows);
    } else {
      var init, k := at[..|at| - 1], at[|at| - 1];
      assert init + [k] == at;
      TallyNext(job, rows, init, k);
      TallyCounts(job, rows, init);
      CountedAs(job, Tally(job, rows, init), rows[k]);
      HowManyNext(rows, init, k, UnderTheOld(job));
      HowManyNext(rows, init, k, UnderTheNew(job));
    }
  }

  lemma NothingListed(job: Job, rows: Table)
    ensures Listing(rows, []) && Tally(job, rows, []) == Stats(0, 0, 0, 0) && Stats(0, 0, 0, 0).Total() == 0
    ensures forall p :: HowMany(rows, [], p) == 0
  {}

  lemma HowManyNext(rows: Table, at: seq<nat>, k: nat, p: Cell -> bool)
    requires Listing(rows, at + [k])
    ensures Listing(rows, at) && k < |rows| && HowMany(rows, at + [k], p) == HowMany(rows, at, p) + if p(rows[k]) then 1 else 0
  {
    assert (at + [k])[..|at|] == at && (at + [k])[|at|] == k;
    assert forall i :: 0 <= i < |at| ==> at[i] == (at + [k])[i];
  }

  lemma {:induction false} HowManyNone(rows: Table, at: seq<nat>, p: Cell -> bool)
    requires Listing(rows, at)
    ensures HowMany(rows, at, p) == 0 <==> forall i :: 0 <= i < |at| ==> !p(rows[at[i]])
  {
    if at != [] {
      HowManyNone(rows, at[..|at| - 1], p);
    }
  }

  /**
   * Every listed row is in the account: as moved if only the old key opens it, as done if the new one does, as foreign
   * if neither does. It shows nothing to write exactly when nothing of that was left to move.
   */
  lemma TallyIsComplete(job: Job, rows: Table, at: seq<nat>)
    requires Listing(rows, at)
    ensures Tally(job, rows, at).Total() == |at| && Tally(job, rows, at).failed == 0
    ensures Tally(job, rows, at).rotated == HowMany(rows, at, UnderTheOld(job))
    ensures Tally(job, rows, at).already == HowMany(rows, at, UnderTheNew(job))
    ensures Tally(job, rows, at).rotated == 0 <==> forall i :: 0 <= i < |at| ==> !job.Needs(rows[at[i]].body)
  {
    hide Tally, HowMany;
    TallyCounts(job, rows, at);
    HowManyNone(rows, at, UnderTheOld(job));
  }

  lemma CountedAs(job: Job, st: Stats, row: Cell)
    ensures var more := Counted(st, Classify(job, row.body));
            && more.Total() == st.Total() + 1 && more.failed == st.failed
            && more.rotated == st.rotated + (if UnderTheOld(job)(row) then 1 else 0)
            && more.already == st.already + (if UnderTheNew(job)(row) then 1 else 0)
    ensures UnderTheOld(job)(row) <==> job.Needs(row.body)
  {}

  /** The file a complete copy loop leaves. */
  function RekeyedCopy(job: Job, source: Bytes, newIV: Block): Bytes
    requires HasHeader(source)
  {
    EncryptedFile(job.Cipher(job.newKey), newIV, DecryptedFile(job.Cipher(job.oldKey), source))
  }

  lemma NothingEncrypted(E: BlockCipher, iv: Block)
    ensures EncryptedFile(E, iv, []) == FILE_MAGIC + iv
  {}

  lemma CopyIsRekeyed(job: Job, source: Bytes, newIV: Block)
    requires HasHeader(source)
    ensures job.Rekeyed(RekeyedCopy(job, source, newIV), source)
  {
    FileRoundTrip(job.Cipher(job.newKey), newIV, DecryptedFile(job.Cipher(job.oldKey), source));
  }

  /** A file with the magic but without room for a header: never done, and reported as a failure by every run. */
  predicate Stuck(job: Job, w: World, name: string)
    requires name in w.files
  {
    !job.Journaled(w, name) && HasMagic(w.files[name].orig) && !HasHeader(w.files[name].orig)
  }

  /** The database says that the data is under a key that is neither of the two. */
  predicate ForeignKey(job: Job, w: World) {
    w.fingerprint.Some? && w.fingerprint.value != job.NewFP() && w.fingerprint.value != job.OldFP()
  }

  /** A read that counts for less than it should: a journaled file taken for open, or its copy overlooked. */
  predicate Misread(job: Job, w: World, name: string, journalRead: bool, statRead: bool)
    requires name in w.files
  {
    job.Journaled(w, name) && (!journalRead || (w.files[name].tmp.Some? && !statRead))
  }

  /** What a step leaves alone. */
  lemma StepFrame(job: Job, w: World, s: Step)
    requires job.Possible(w, s)
    ensures var w' := job.After(w, s);
            && w'.files.Keys == w.files.Keys && SameIds(w.messages, w'.messages)
            && (!(s.Rewrite? && s.kind == Secrets) ==> w'.secrets == w.secrets)
            && (!s.Record? ==> w'.journal == w.journal)
            && (s.Record? ==> w'.journal == w.journal + {(s.name, job.NewFP())})
  {}

  /** What becomes of an entry when no write fails, given what the two reads answered. */
  ghost predicate Undisturbed(job: Job, w: World, w': World, name: string, dry: bool, v: Visit,
                              journalRead: bool, statRead: bool)
    requires name in w.files
  {
    if job.Journaled(w, name) && journalRead then
      v == Already && w' == if w.files[name].tmp.Some? && statRead then job.After(w, Rename(name)) else w
    else Opened(job, w, w', name, dry, v)
  }

  /** Clearing the temporary file first makes no difference. */
  lemma ReplacedAnyway(job: Job, w: World, w': World, name: string)
    requires name in w.files && Replaced(job, w.WithTmp(name, None), w', name)
    ensures Replaced(job, w, w', name)
  {}

  ghost predicate Opened(job: Job, w: World, w': World, name: string, dry: bool, v: Visit)
    requires name in w.files
  {
    if !HasMagic(w.files[name].orig) then v == Foreign && w' == w.WithTmp(name, None)
    else if dry then v == Moved && w' == w.WithTmp(name, None)
    else if !HasHeader(w.files[name].orig) then v == Broken && w' == w.WithTmp(name, None)
    else v == Moved && Replaced(job, w, w', name)
  }

  /** The file was re-keyed from its original as it stood, journaled and renamed. */
  ghost predicate Replaced(job: Job, w: World, w': World, name: string)
    requires name in w.files
  {
    && name in w'.files && w'.files[name].tmp.None? && job.Rekeyed(w'.files[name].orig, w.files[name].orig)
    && w' == w.(files := w.files[name := w'.files[name]], journal := w.journal + {(name, job.NewFP())})
  }

  /** Numbers of rows of either table. */
  datatype Seen = Seen(messages: set<nat>, secrets: set<nat>) {
    function Of(kind: Kind): set<nat> {
      if kind == Messages then messages else secrets
    }

    function Plus(kind: Kind, at: seq<nat>): Seen {
      if kind == Messages then this.(messages := messages + set i | i in at) else this.(secrets := secrets + set i | i in at)
    }
  }

  lemma ListedOn(seen: Seen, k: nat, n: nat)
    ensures seen.Plus(Messages, Span(0, k)).Plus(Messages, Span(k, n)) == seen.Plus(Messages, Span(0, k + n))
    ensures seen.Plus(Messages, Span(0, 0)) == seen
  {
    SpanGrows(k, n);
  }

  lemma PlusHolds(seen: Seen, kind: Kind, at: seq<nat>)
    ensures forall i | i in at :: i in seen.Plus(kind, at).Of(kind)
  {}

  /** A list that holds every row but some that it may miss. */
  predicate Listed(rows: Table, seen: set<nat>, missed: set<nat>) {
    forall i :: 0 <= i < |rows| ==> i in seen || i in missed
  }

  /** What was never listed is as it was. */
  ghost predicate Unvisited(before: Table, now: Table, seen: set<nat>) {
    |now| == |before| && forall i :: 0 <= i < |now| && i !in seen ==> now[i] == before[i]
  }

  class Host {
    const job: Job
    var world: World
    /** Temporary files whose contents have not reached the disk for certain. */
    var unsynced: set<string>
    /** In a reliable environment no write fails, files can be opened and the process does not die. */
    const reliable: bool
    /** In a sighted one no query of the journal or the fingerprint and no look at a temporary file fails. */
    const sighted: bool
    /** Whether the process is running. */
    var up: bool
    /** Every durable state there has been, and the first of them. */
    ghost var trace: seq<World>
    ghost const origin: World
    /** Whether a failed read has ever been taken at its word, and the rows that were ever listed. */
    ghost var misled: bool
    ghost var listed: Seen

    /**
     * The past is a history of the step system, a wild one only if a read misled the program. Nothing unsynced is
     * journaled otherwise, and no row was written that was not listed.
     */
    ghost predicate Valid()
      reads this
    {
      && job.WildHistory(trace) && trace[0] == origin && trace[|trace| - 1] == world
      && SameIds(origin.messages, world.messages) && world.files.Keys == origin.files.Keys
      && (forall name | name in unsynced :: name in world.files)
      && (!misled ==> job.History(trace) && forall name | name in unsynced :: !job.Journaled(world, name))
      && Unvisited(origin.messages, world.messages, listed.messages)
      && Unvisited(origin.secrets, world.secrets, listed.secrets)
    }

    ghost predicate Ready()
      reads this
    {
      Valid() && up
    }

    constructor (job: Job, world: World, reliable: bool, sighted: bool)
      ensures Ready() && this.job == job && this.reliable == reliable && this.sighted == sighted
      ensures this.world == origin == world && trace == [world] && !misled && listed == Seen({}, {})
    {
      this.job, this.world, this.origin, this.trace := job, world, world, [world];
      this.reliable, this.sighted, this.unsynced, this.up := reliable, sighted, {}, true;
      this.misled, this.listed := false, Seen({}, {});
    }

    /** The same machine later, with all that happened to it, in an environment of its own. */
    constructor Resume(past: Host, reliable: bool, sighted: bool)
      requires past.Valid()
      ensures Ready() && job == past.job && world == past.world && origin == past.origin && trace == past.trace
      ensures this.reliable == reliable && this.sighted == sighted && misled == past.misled && listed == past.listed
    {
      this.job, this.world, this.origin, this.trace := past.job, past.world, past.origin, past.trace;
      this.reliable, this.sighted, this.unsynced, this.up := reliable, sighted, past.unsynced, true;
      this.misled, this.listed := past.misled, past.listed;
    }

    // ── Effects ───────────────────────────────────────────────────────────

    /** What the program may do now: a step of the step system, or a stray one if a read misled it. */
    ghost predicate Permitted(s: Step)
      reads this
    {
      && (if misled then job.Possible(world, s) else job.Enabled(world, s))
      && (s.Record? && !misled ==> s.name !in unsynced)
      && (s.Rewrite? ==> s.i in listed.Of(s.kind))
    }

    /** One atomic effect on durable state: it happens, or fails, or the process dies before or after it. */
    method Perform(s: Step) returns (r: Io)
      requires Ready() && Permitted(s)
      modifies `world, `unsynced, `up, `trace
      ensures Valid()
      ensures r == Ok ==> Ready() && world == job.After(old(world), s) && unsynced == old(unsynced)
                          && trace == old(trace) + [world]
      ensures r == Failed ==> Ready() && world == old(world) && unsynced == old(unsynced) && trace == old(trace)
      ensures r == Crashed ==> !up && unsynced == {}
      ensures reliable ==> r == Ok
    {
      hide Valid, Job.Enabled, Job.Possible;
      var attempt: nat := *;
      if reliable {
        attempt := 2;
      }
      if attempt == 0 {
        return Failed;
      }
      if attempt != 1 {
        Advance(s);
      }
      if attempt == 2 {
        return Ok;
      }
      Crash();
      return Crashed;
    }

    method Advance(s: Step)
      requires Valid() && Permitted(s)
      modifies `world, `trace
      ensures Valid() && world == job.After(old(world), s) && trace == old(trace) + [world]
    {
      var after := job.After(world, s);
      assert job.WildNext(world, after) && (!misled ==> job.Next(world, after));
      StepFrame(job, world, s);
      world := after;
      trace := trace + [world];
      assert trace[..|trace| - 1] == old(trace);
    }

    /** The process dies. Whatever was not flushed may turn out to be anything at all. */
    method Crash()
      requires Valid()
      modifies `world, `unsynced, `up, `trace
      ensures Valid() && !up && unsynced == {}
    {
      up := false;
      while unsynced != {}
        invariant Valid() && !up
        decreases |unsynced|
      {
        var name :| name in unsynced;
        var remains: Option<Bytes> := *;
        Advance(SetTmp(name, remains));
        unsynced := unsynced - {name};
      }
    }

    /** The operator starts the subcommand again. */
    method Restart()
      requires Valid()
      modifies `up
      ensures Ready()
    {
      up := true;
    }

    // ── Rows ──────────────────────────────────────────────────────────────

    /**
     * One row of either table: the new key is tried first, then the old one, and a row that neither opens is
     * left alone. Row `k` of `before` is dealt with and counted, or nothing has changed.
     */
    method RotateRow(kind: Kind, k: nat, body: string, dry: bool, st0: Stats, ghost before: Table, ghost at: seq<nat>)
      returns (r: Io, st: Stats)
      requires Ready() && Ideal(job.c) && Listing(before, at + [k]) && k in listed.Of(kind)
      requires k < |before| && body == before[k].body
      requires Listing(before, at) && Passed(job, before, world.Rows(kind), at, dry) && st0 == Tally(job, before, at)
      modifies `world, `unsynced, `up, `trace
      ensures Valid()
      ensures r == Crashed ==> !up
      ensures r != Crashed ==> Ready() && unsynced == old(unsynced)
      ensures r != Crashed ==> world == old(world).WithRows(kind, world.Rows(kind))
      ensures r == Ok ==> Passed(job, before, world.Rows(kind), at + [k], dry)
      ensures r == Ok ==> st == Tally(job, before, at + [k])
      ensures r == Ok ==> |trace| - |old(trace)| == if dry then 0 else st.rotated - st0.rotated
      ensures r == Failed || (r == Ok && (dry || !job.Needs(body))) ==> world == old(world) && trace == old(trace)
      ensures reliable ==> r == Ok
    {
      TallyNext(job, before, at, k);
      NextRow(job, before, world.Rows(kind), at, k, dry);
      hide Valid, Tally, Passed, Listing;
      if job.c.open(job.newKey, body).Some? {
        return Ok, Counted(st0, Already);
      }
      if job.c.open(job.oldKey, body).None? {
        return Ok, Counted(st0, Foreign);
      }
      st := Counted(st0, Moved);
      if dry {
        return Ok, st;
      }
      var nonce: Bytes := *;
      NextRowMoved(job, before, world.Rows(kind), at, k, nonce);
      r := RewriteRow(kind, k, nonce);
    }

    /** The UPDATE of one row. */
    method RewriteRow(kind: Kind, k: nat, nonce: Bytes) returns (r: Io)
      requires Ready() && k in listed.Of(kind) && k < |world.Rows(kind)| && job.Needs(world.Rows(kind)[k].body)
      modifies `world, `unsynced, `up, `trace
      ensures Valid() && (r == Crashed ==> !up)
      ensures r != Crashed ==> Ready() && unsynced == old(unsynced)
      ensures r == Failed ==> world == old(world) && trace == old(trace)
      ensures r == Ok ==> |trace| == |old(trace)| + 1
      ensures r == Ok ==>
                var row := old(world).Rows(kind)[k];
                var sealed := job.c.seal(job.newKey, nonce, job.c.open(job.oldKey, row.body).value);
                && world == old(world).WithRows(kind, world.Rows(kind))
                && world.Rows(kind) == old(world).Rows(kind)[k := row.(body := sealed)]
      ensures reliable ==> r == Ok
    {
      hide Valid;
      r := Perform(Rewrite(kind, k, nonce));
    }

    /** The loop over one fetched batch, which holds the rows `next` of the table. */
    method RotateBatch(kind: Kind, next: seq<nat>, batch: Table, dry: bool, st0: Stats, ghost before: Table,
                       ghost at: seq<nat>)
      returns (r: Io, st: Stats)
      requires Ready() && Ideal(job.c) && Listing(before, at) && Listing(before, at + next)
      requires forall i | i in next :: i in listed.Of(kind)
      requires |batch| == |next| && forall i :: 0 <= i < |batch| ==> next[i] < |before| && batch[i] == before[next[i]]
      requires Passed(job, before, world.Rows(kind), at, dry) && st0 == Tally(job, before, at)
      modifies `world, `unsynced, `up, `trace
      ensures Valid()
      ensures r == Crashed ==> !up
      ensures r != Crashed ==> Ready() && unsynced == old(unsynced)
      ensures r != Crashed ==> world == old(world).WithRows(kind, world.Rows(kind))
      ensures r == Ok ==> Passed(job, before, world.Rows(kind), at + next, dry)
      ensures r == Ok ==> st == Tally(job, before, at + next)
      ensures r == Ok ==> |trace| - |old(trace)| == if dry then 0 else st.rotated - st0.rotated
      ensures r == Ok && (dry || job.Moved(batch)) ==> world == old(world) && trace == old(trace)
      ensures reliable ==> r == Ok
    {
      hide Valid, Passed, Tally, Listing;
      r, st := Ok, st0;
      assert at + next[..0] == at;
      for m := 0 to |next|
        invariant Ready() && unsynced == old(unsynced) && r == Ok
        invariant world == old(world).WithRows(kind, world.Rows(kind))
        invariant Listing(before, at + next[..m]) && Passed(job, before, world.Rows(kind), at + next[..m], dry)
        invariant st == Tally(job, before, at + next[..m])
        invariant |trace| - |old(trace)| == if dry then 0 else st.rotated - st0.rotated
        invariant dry || job.Moved(batch) ==> world == old(world) && trace == old(trace)
      {
        var row := batch[m];
        assert at + next[..m] + [next[m]] == at + next[..m + 1];
        FewerListed(before, at, next, m + 1);
        r, st := RotateRow(kind, next[m], row.body, dry, st, before, at + next[..m]);
        if r != Ok {
          return;
        }
      }
      assert next[..|next|] == next;
    }

    /** The rows were read; they may be written from now on. */
    method List(kind: Kind, at: seq<nat>)
      requires Ready()
      modifies `listed
      ensures Ready() && listed == old(listed).Plus(kind, at)
      ensures forall i | i in at :: i in listed.Of(kind)
    {
      listed := listed.Plus(kind, at);
      PlusHolds(old(listed), kind, at);
    }

    /** A page of messages. The iteration over it may end early, and nothing looks at why. */
    method FetchPage(cursor: int) returns (r: Io, batch: Table)
      requires Ready()
      ensures r == Ok || r == Failed
      ensures r == Ok ==> batch <= SelectAfter(world.messages, cursor, ROTATE_BATCH)
      ensures r == Ok && batch == [] && SelectAfter(world.messages, cursor, ROTATE_BATCH) != [] ==> MayMissFrom(cursor)
      ensures reliable ==> r == Ok
    {
      var answered: bool := *;
      if !answered && !reliable {
        return Failed, [];
      }
      var page := SelectAfter(world.messages, cursor, ROTATE_BATCH);
      var n :| 0 <= n <= |page| && (n == 0 ==> page == [] || MayMissFrom(cursor));
      return Ok, page[..n];
    }

    /** A page behind this cursor may come back empty although there are rows left. */
    predicate MayMissFrom(cursor: int)
      reads this
    {
      forall i :: 0 <= i < |world.messages| && world.messages[i].id > cursor ==> i in job.missedMessages
    }

    lemma RestMayBeMissed(k: nat, cursor: int)
      requires MayMissFrom(cursor) && SplitAt(world.messages, k, cursor)
      ensures forall i :: k <= i < |world.messages| ==> i in job.missedMessages
    {}

    /**
     * rotateMessages: page after page behind a cursor, until one comes back empty. A page that was cut short makes no
     * difference, as the next one begins behind it; one that was cut to nothing ends the pass.
     */
    method RotateMessages(dry: bool) returns (r: Io, st: Stats, ghost reached: nat, ghost emptied: bool)
      requires Ready() && Ideal(job.c) && InIdOrder(world.messages)
      modifies `world, `unsynced, `up, `trace, `listed
      ensures Valid()
      ensures r == Crashed ==> !up
      ensures r != Crashed ==> Ready() && unsynced == old(unsynced)
      ensures r != Crashed ==> world == old(world).(messages := world.messages)
      ensures reached <= |old(world).messages| && listed == old(listed).Plus(Messages, Span(0, reached))
      ensures r == Ok ==> Passed(job, old(world).messages, world.messages, Span(0, reached), dry)
      ensures r == Ok ==> st == Tally(job, old(world).messages, Span(0, reached))
      ensures r == Ok ==> (emptied <==> reached < |old(world).messages|)
      ensures r == Ok ==> forall i :: reached <= i < |old(world).messages| ==> i in job.missedMessages
      ensures r == Ok ==> |trace| - |old(trace)| == if dry then 0 else st.rotated
      ensures r == Ok && (dry || job.Moved(old(world).messages)) ==> world == old(world) && trace == old(trace)
      ensures reliable ==> r == Ok
    {
      hide Valid, Passed, Tally, SelectAfter, Seen.Plus, Span, Listing, SplitAt, MayMissFrom, InIdOrder, Job.Moved;
      ghost var before := world.messages;
      PassBegins(job, before, dry);
      CursorBegins(before);
      ListedOn(listed, 0, 0);
      var cursor, k := 0, 0;
      r, st, reached, emptied := Ok, Stats(0, 0, 0, 0), 0, false;
      while true
        invariant Ready() && unsynced == old(unsynced) && r == Ok && reached == k <= |before|
        invariant world == old(world).(messages := world.messages)
        invariant Listing(before, Span(0, k)) && Passed(job, before, world.messages, Span(0, k), dry)
        invariant st == Tally(job, before, Span(0, k))
        invariant SplitAt(before, k, cursor) && listed == old(listed).Plus(Messages, Span(0, k)) && !emptied
        invariant |trace| - |old(trace)| == if dry then 0 else st.rotated
        invariant dry || job.Moved(before) ==> world == old(world) && trace == old(trace)
        decreases |before| - k
      {
        PageIsNext(job, before, world.messages, k, cursor, dry);
        ghost var page := SelectAfter(world.messages, cursor, ROTATE_BATCH);
        var batch;
        r, batch := FetchPage(cursor);
        if r != Ok {
          return;
        }
        if |batch| == 0 {
          emptied := page != [];
          if emptied {
            RestMayBeMissed(k, cursor);
          }
          break;
        }
        cursor := batch[|batch| - 1].id;
        var next := Span(k, |batch|);
        BatchIsNext(job, before, k, page, batch);
        ListedOn(old(listed), k, |batch|);
        List(Messages, next);
        k, reached := k + |batch|, k + |batch|;
        CursorMoves(before, k);
        r, st := RotateBatch(Messages, next, batch, dry, st, before, Span(0, k - |batch|));
        if r != Ok {
          return;
        }
      }
    }

    /**
     * The list of secrets. A table that cannot be read is passed over, a row that cannot be scanned is left out, and an
     * iteration that ends early is taken for the whole.
     */
    method ListSecrets() returns (next: seq<nat>)
      ensures Listing(world.secrets, next)
      ensures forall i :: 0 <= i < |world.secrets| ==> i in next || i in job.missedSecrets
    {
      next := [];
      for i := 0 to |world.secrets|
        invariant forall j :: 0 <= j < |next| ==> next[j] < i
        invariant forall j, k :: 0 <= j < k < |next| ==> next[j] != next[k]
        invariant forall j :: 0 <= j < i ==> j in next || j in job.missedSecrets
      {
        var scanned: bool := *;
        if scanned || i !in job.missedSecrets {
          next := next + [i];
        }
      }
    }

    /** rotateTOTPSecrets: one fetched list. What is not on it is not written, and neither is what has moved already. */
    method RotateTOTPSecrets(dry: bool) returns (r: Io, st: Stats, ghost at: seq<nat>)
      requires Ready() && Ideal(job.c)
      modifies `world, `unsynced, `up, `trace, `listed
      ensures Valid()
      ensures r == Crashed ==> !up
      ensures r != Crashed ==> Ready() && unsynced == old(unsynced)
      ensures r != Crashed ==> world == old(world).(secrets := world.secrets)
      ensures Listing(old(world).secrets, at) && listed == old(listed).Plus(Secrets, at)
      ensures forall i :: 0 <= i < |old(world).secrets| ==> i in at || i in job.missedSecrets
      ensures r == Ok ==> Passed(job, old(world).secrets, world.secrets, at, dry)
      ensures r == Ok ==> st == Tally(job, old(world).secrets, at)
      ensures r == Ok ==> |trace| - |old(trace)| == if dry then 0 else st.rotated
      ensures r == Ok && (dry || job.Moved(old(world).secrets)) ==> world == old(world) && trace == old(trace)
      ensures reliable ==> r == Ok
    {
      hide Valid, Passed, Tally;
      PassBegins(job, world.secrets, dry);
      var next := ListSecrets();
      at := next;
      var before := world.secrets;
      var batch := seq(|next|, i requires 0 <= i < |next| => before[next[i]]);
      List(Secrets, next);
      assert [] + next == next;
      assert job.Moved(before) ==> job.Moved(batch);
      hide Job.Moved, Listing;
      r, st := RotateBatch(Secrets, next, batch, dry, Stats(0, 0, 0, 0), before, []);
    }

    /** Both tables in turn. Afterwards a table needs the old key exactly if something that was not listed did. */
    method RotateRows(dry: bool) returns (r: Io, ghost seen: Seen)
      requires Ready() && Ideal(job.c) && InIdOrder(world.messages)
      modifies `world, `unsynced, `up, `trace, `listed
      ensures Valid()
      ensures r == Crashed ==> !up
      ensures r != Crashed ==> Ready() && world == old(world).(messages := world.messages, secrets := world.secrets)
      ensures r == Ok ==> listed == Seen(old(listed).messages + seen.messages, old(listed).secrets + seen.secrets)
      ensures r == Ok ==> forall kind :: Listed(old(world).Rows(kind), seen.Of(kind), job.Missed(kind))
      ensures r == Ok && !dry ==> job.RowsDone(world)
      ensures r == Ok && !dry ==> forall kind :: job.Moved(world.Rows(kind)) <==> job.MovedBut(old(world).Rows(kind), seen.Of(kind))
      ensures r == Ok && dry ==> world == old(world)
      ensures r == Ok ==> forall kind :: job.Moved(old(world).Rows(kind)) ==> world.Rows(kind) == old(world).Rows(kind)
      ensures reliable ==> r == Ok
    {
      hide Valid, Job.Moved, Job.MovedBut, Passed, Tally, InIdOrder;
      ghost var messages, secrets := world.messages, world.secrets;
      ghost var at, reached, emptied;
      seen := Seen({}, {});
      var st;
      r, st, reached, emptied := RotateMessages(dry);
      if r != Ok { return; }
      seen := seen.Plus(Messages, Span(0, reached));
      SpanHolds(reached);
      if !dry { PassedMeansMoved(job, messages, world.messages, Span(0, reached), seen.messages, job.missedMessages); }
      r, st, at := RotateTOTPSecrets(dry);
      if r != Ok { return; }
      seen := seen.Plus(Secrets, at);
      if !dry { PassedMeansMoved(job, secrets, world.secrets, at, seen.secrets, job.missedSecrets); }
    }

    // ── Files ─────────────────────────────────────────────────────────────

    /** What holds between the effects on one file: at most its temporary file has changed. */
    ghost predicate OnlyTmp(before: World, name: string)
      requires name in before.files
      reads this
    {
      name in world.files && world == before.WithTmp(name, world.files[name].tmp)
    }

    /** os.OpenFile with O_CREATE and O_TRUNC. */
    method OpenTmp(name: string) returns (r: Io)
      requires Ready() && name in world.files && (job.Journaled(world, name) ==> misled)
      modifies `world, `unsynced, `up, `trace
      ensures Valid() && (r == Crashed ==> !up)
      ensures r != Crashed ==> Ready() && OnlyTmp(old(world), name) && unsynced == old(unsynced) + {name}
      ensures r == Ok ==> world.files[name].tmp == Some([])
      ensures reliable ==> r == Ok
    {
      unsynced := unsynced + {name};
      r := Perform(SetTmp(name, Some([])));
    }

    /** A write to the open temporary file; one that fails may have written a part. */
    method WriteTmp(name: string, data: Bytes) returns (r: Io)
      requires Ready() && name in world.files && (job.Journaled(world, name) ==> misled)
      requires name in unsynced && world.files[name].tmp.Some?
      modifies `world, `unsynced, `up, `trace
      ensures Valid() && (r == Crashed ==> !up)
      ensures r != Crashed ==> Ready() && OnlyTmp(old(world), name) && unsynced == old(unsynced)
      ensures r == Ok ==> world.files[name].tmp == Some(old(world).files[name].tmp.value + data)
      ensures reliable ==> r == Ok
    {
      var content := world.files[name].tmp.value;
      var written :| 0 <= written <= |data| && (reliable ==> written == |data|);
      r := Perform(SetTmp(name, Some(content + data[..written])));
      if r == Ok && written < |data| {
        r := Failed;
      }
      assert data[..|data|] == data;
    }

    /** dst.Sync and dst.Close. */
    method SyncTmp(name: string) returns (r: Io)
      requires Ready()
      modifies `world, `unsynced, `up, `trace
      ensures Valid() && (r == Crashed ==> !up)
      ensures r != Crashed ==> Ready() && world == old(world)
      ensures r == Ok ==> unsynced == old(unsynced) - {name}
      ensures r == Failed ==> unsynced == old(unsynced)
      ensures reliable ==> r == Ok
    {
      var attempt: nat := *;
      if reliable {
        attempt := 2;
      }
      if attempt == 0 {
        return Failed;
      }
      if attempt == 1 {
        Crash();
        return Crashed;
      }
      unsynced := unsynced - {name};
      return Ok;
    }

    /** os.Remove of the temporary file; its error is ignored by every caller. */
    method RemoveTmp(name: string) returns (r: Io)
      requires Ready() && name in world.files && (job.Journaled(world, name) ==> misled)
      modifies `world, `unsynced, `up, `trace
      ensures Valid() && (r == Crashed ==> !up)
      ensures r != Crashed ==> Ready() && OnlyTmp(old(world), name) && unsynced == old(unsynced)
      ensures r == Ok ==> world == old(world).WithTmp(name, None)
      ensures reliable ==> r == Ok
    {
      r := Perform(SetTmp(name, None));
    }

    /** The new file's header. */
    method StartCopy(name: string, newIV: Block) returns (r: Io)
      requires Ready() && name in world.files && (job.Journaled(world, name) ==> misled)
      modifies `world, `unsynced, `up, `trace
      ensures Valid() && (r == Crashed ==> !up)
      ensures r != Crashed ==> Ready() && OnlyTmp(old(world), name) && unsynced == old(unsynced) + {name}
      ensures r == Ok ==> world.files[name].tmp == Some(FILE_MAGIC + newIV)
      ensures reliable ==> r == Ok
    {
      hide Valid;
      r := OpenTmp(name);
      if r != Ok { return; }
      r := WriteTmp(name, FILE_MAGIC);
      if r != Ok { return; }
      r := WriteTmp(name, newIV);
      if r != Ok { return; }
      assert [] + FILE_MAGIC + newIV == FILE_MAGIC + newIV;
    }

    /** rotateOneFile: the whole payload into the temporary file under the new key, flushed; the original stays. */
    method RotateOneFile(name: string) returns (r: Io)
      requires Ready() && name in world.files && (job.Journaled(world, name) ==> misled) && HasMagic(world.files[name].orig)
      modifies `world, `unsynced, `up, `trace
      ensures Valid() && (r == Crashed ==> !up)
      ensures r != Crashed ==> Ready() && OnlyTmp(old(world), name)
      ensures r != Crashed ==> old(unsynced) - {name} <= unsynced <= old(unsynced) + {name}
      ensures r == Ok ==> name !in unsynced && world.files[name].tmp.Some?
      ensures r == Ok ==> job.Rekeyed(world.files[name].tmp.value, world.files[name].orig)
      ensures r == Ok ==> HasHeader(world.files[name].orig)
      ensures reliable ==> r == if HasHeader(old(world).files[name].orig) then Ok else Failed
    {
      hide Valid, EncryptedFile, DecryptedFile, Job.Rekeyed;
      var readable: bool := *;
      var source := world.files[name].orig;
      if !(readable || reliable) || |source| < FILE_HEADER_SIZE {
        return Failed;
      }
      var newIV: Block := *;
      r := StartCopy(name, newIV);
      if r != Ok { return; }
      r := CopyRekeyed(name, source, newIV);
      if r != Ok { return; }
      CopyIsRekeyed(job, source, newIV);
      r := SyncTmp(name);
    }

    /** The copy loop of rotateOneFile: decrypted with the old stream, encrypted with the new one, piece by piece. */
    method CopyRekeyed(name: string, source: Bytes, newIV: Block) returns (r: Io)
      requires Ready() && name in world.files && (job.Journaled(world, name) ==> misled) && HasHeader(source)
      requires name in unsynced && world.files[name].tmp == Some(FILE_MAGIC + newIV)
      modifies `world, `unsynced, `up, `trace
      ensures Valid() && (r == Crashed ==> !up)
      ensures r != Crashed ==> Ready() && OnlyTmp(old(world), name) && unsynced == old(unsynced)
      ensures r == Ok ==> world.files[name].tmp == Some(RekeyedCopy(job, source, newIV))
      ensures reliable ==> r == Ok
    {
      hide Valid, EncryptedFile, XorStream;
      var decrypt := new CtrStream(job.Cipher(job.oldKey), FileIV(source));
      var encrypt := new CtrStream(job.Cipher(job.newKey), newIV);
      var stored := source[FILE_HEADER_SIZE..];
      ghost var plain := DecryptedFile(job.Cipher(job.oldKey), source);
      r := Ok;
      var done := 0;
      NothingEncrypted(encrypt.E, newIV);
      assert plain[..done] == [];
      while done < |stored|
        invariant r == Ok && done <= |stored| && decrypt.pos == encrypt.pos == done
        invariant Ready() && unsynced == old(unsynced) && OnlyTmp(old(world), name)
        invariant world.files[name].tmp == Some(EncryptedFile(encrypt.E, newIV, plain[..done]))
      {
        var next := if |stored| - done < COPY_BUFFER then |stored| else done + COPY_BUFFER;
        var piece := decrypt.XORKeyStream(stored[done..next]);
        XorStreamSlice(decrypt.E, decrypt.iv, stored, done, next);
        assert plain[..done] + piece == plain[..next];
        EncryptedFileGrows(encrypt.E, newIV, plain[..done], piece);
        piece := encrypt.XORKeyStream(piece);
        r := WriteTmp(name, piece);
        if r != Ok { return; }
        done := next;
      }
      assert plain[..done] == plain;
    }

    /** Nothing but one file and its journal entry may differ. */
    ghost predicate OnlyFile(before: World, name: string)
      requires name in before.files
      reads this
    {
      && name in world.files
      && world == before.(files := before.files[name := world.files[name]], journal := world.journal)
      && before.journal <= world.journal <= before.journal + {(name, job.NewFP())}
    }

    /** os.Rename of the temporary file over the original. */
    method RenameTmp(name: string) returns (r: Io)
      requires Ready() && name in world.files && job.Journaled(world, name) && world.files[name].tmp.Some?
      modifies `world, `unsynced, `up, `trace
      ensures Valid() && (r == Crashed ==> !up)
      ensures r != Crashed ==> Ready() && OnlyFile(old(world), name)
      ensures r == Ok ==> world == job.After(old(world), Rename(name))
      ensures reliable ==> r == Ok
    {
      r := Perform(Rename(name));
    }

    /** Copy, journal, rename, in this order; a failure before the entry takes the copy away again. */
    method ReplaceFile(name: string) returns (r: Io, v: Visit)
      requires Ready() && name in world.files && (job.Journaled(world, name) ==> misled) && HasMagic(world.files[name].orig)
      modifies `world, `unsynced, `up, `trace
      ensures Valid() && r != Failed && (r == Crashed ==> !up)
      ensures r == Ok ==> Ready() && OnlyFile(old(world), name) && (v == Moved || v == Broken)
      ensures r == Ok && v == Moved ==> job.FileDone(world, name)
      ensures r == Ok ==> (Stuck(job, world, name) <==> Stuck(job, old(world), name))
      ensures reliable ==> r == Ok && if HasHeader(old(world).files[name].orig)
                                      then v == Moved && Replaced(job, old(world), world, name)
                                      else v == Broken && world == old(world).WithTmp(name, None)
    {
      hide Valid, Job.Rekeyed;
      r := RotateOneFile(name);
      if r == Crashed { return r, Broken; }
      if r == Ok {
        r := Perform(Record(name));
        if r == Crashed { return r, Broken; }
      }
      if r == Failed {
        r := RemoveTmp(name);
        if r == Crashed { return r, Broken; }
        return Ok, Broken;
      }
      r := RenameTmp(name);
      if r == Crashed { return r, Broken; }
      if r == Failed { return Ok, Broken; }
      return Ok, Moved;
    }

    /** An entry that is taken for open: away with the rubbish, then copy, journal and rename. */
    method RotateOpenEntry(name: string, dry: bool) returns (r: Io, v: Visit)
      requires Ready() && name in world.files && (job.Journaled(world, name) ==> misled)
      modifies `world, `unsynced, `up, `trace
      ensures Valid() && r != Failed && (r == Crashed ==> !up)
      ensures r == Ok ==> Ready() && OnlyFile(old(world), name) && v != Already
      ensures r == Ok && v != Broken && !(dry && v == Moved) && !job.Journaled(old(world), name) ==> job.FileDone(world, name)
      ensures r == Ok ==> (Stuck(job, world, name) <==> Stuck(job, old(world), name))
      ensures reliable ==> r == Ok && Opened(job, old(world), world, name, dry, v)
    {
      hide Valid, Replaced;
      r := RemoveTmp(name);
      if r == Crashed { return r, Broken; }
      ghost var cleared := world;
      var readable: bool := *;
      if !(readable || reliable) {
        return Ok, Broken;
      }
      if !HasMagic(world.files[name].orig) {
        return Ok, Foreign;
      }
      if dry {
        return Ok, Moved;
      }
      r, v := ReplaceFile(name);
      if reliable && HasHeader(cleared.files[name].orig) {
        ReplacedAnyway(job, old(world), world, name);
      }
    }

    /**
     * One directory entry: what the journal answers decides, and the entry is written before the rename. Unless a
     * read misled it, the entry is done or counted as a failure; undisturbed, its outcome is exactly `Undisturbed`.
     */
    method RotateEntry(name: string, dry: bool) returns (r: Io, v: Visit, ghost journalRead: bool, ghost statRead: bool)
      requires Ready() && name in world.files
      modifies `world, `unsynced, `up, `trace, `misled
      ensures Valid() && r != Failed && (r == Crashed ==> !up)
      ensures misled == (old(misled) || Misread(job, old(world), name, journalRead, statRead))
      ensures sighted ==> journalRead && statRead
      ensures r == Ok ==> Ready() && OnlyFile(old(world), name)
      ensures r == Ok && !Misread(job, old(world), name, journalRead, statRead) ==>
                (v != Broken && !(dry && v == Moved) ==> job.FileDone(world, name))
                && (v == Already ==> job.Journaled(old(world), name))
      ensures r == Ok ==> (Stuck(job, world, name) <==> Stuck(job, old(world), name))
      ensures reliable ==> r == Ok && Undisturbed(job, old(world), world, name, dry, v, journalRead, statRead)
    {
      hide Opened, Job.WildHistory, Job.History;
      var answered: bool := *;
      var looked: bool := *;
      journalRead, statRead := answered || sighted, looked || sighted;
      var done := (answered || sighted) && job.Journaled(world, name);
      misled := misled || Misread(job, world, name, journalRead, statRead);
      assert Ready();
      hide Valid;
      if !done {
        r, v := RotateOpenEntry(name, dry);
        return r, v, journalRead, statRead;
      }
      if world.files[name].tmp.Some? && (looked || sighted) {
        r := RenameTmp(name);
        if r == Crashed { return r, Broken, journalRead, statRead; }
        if r == Failed { return Ok, Broken, journalRead, statRead; }
      }
      return Ok, Already, journalRead, statRead;
    }

    /** One entry more of the listing, and what it means for the account so far. */
    method CountEntry(entries: seq<string>, k: nat, dry: bool, st0: Stats, ghost start: World)
      returns (r: Io, st: Stats, ghost misread: bool)
      requires Ready() && k < |entries| && entries[k] in world.files && SameStuck(job, start, world)
      modifies `world, `unsynced, `up, `trace, `misled
      ensures Valid() && r != Failed && (r == Crashed ==> !up)
      ensures misled == (old(misled) || misread) && (sighted ==> !misread)
      ensures r == Ok ==> Ready() && st.Total() == st0.Total() + 1 && SameStuck(job, start, world)
      ensures r == Ok ==> world == old(world).(files := world.files, journal := world.journal)
      ensures r == Ok && st.failed == 0 && !dry && !misread ==>
                st0.failed == 0 && (DoneUpTo(job, old(world), entries, k) ==> DoneUpTo(job, world, entries, k + 1))
      ensures reliable ==> r == Ok
      ensures reliable && !misread ==>
                (st.failed == 0 <==> st0.failed == 0 && (dry || !Stuck(job, old(world), entries[k])))
      ensures r == Ok ==>
                (StuckUpTo(job, start, entries, k + 1) <==> StuckUpTo(job, start, entries, k) || Stuck(job, old(world), entries[k]))
    {
      hide Valid, Undisturbed, DoneUpTo, StuckUpTo, SameStuck, Misread, Job.FileDone, Stuck;
      ghost var before := world;
      var v;
      ghost var journalRead, statRead;
      r, v, journalRead, statRead := RotateEntry(entries[k], dry);
      misread := Misread(job, before, entries[k], journalRead, statRead);
      SightedReadsRight(job, before, entries[k], journalRead, statRead);
      st := Counted(st0, v);
      if r == Crashed { return; }
      if reliable {
        BrokenMeansStuck(job, before, world, entries[k], dry, v, journalRead, statRead);
      }
      EntryCounts(job, start, before, world, entries, k);
    }

    lemma ReadyMeans()
      requires Ready()
      ensures Valid() && up
    {}

    /** rotateFiles: every entry of the directory listing; failures are counted and the rest goes on. */
    method RotateFiles(entries: seq<string>, dry: bool) returns (r: Io, st: Stats, ghost misread: bool)
      requires Ready() && IsDirectory(entries, world)
      modifies `world, `unsynced, `up, `trace, `misled
      ensures Valid() && r != Failed && (r == Crashed ==> !up)
      ensures misled == (old(misled) || misread) && (sighted ==> !misread)
      ensures r == Ok ==> Ready() && st.Total() == |entries|
      ensures r == Ok ==> world == old(world).(files := world.files, journal := world.journal)
      ensures r == Ok && st.failed == 0 && !dry && !misread ==> job.FilesDone(world)
      ensures reliable ==> r == Ok
      ensures reliable && !misread ==> (st.failed == 0 <==> dry || NoneStuck(job, old(world)))
    {
      hide *;
      r, st, misread := Ok, Stats(0, 0, 0, 0), false;
      ghost var start := world;
      NoEntries(job, start, entries);
      NothingCounted();
      for k := 0 to |entries|
        invariant r == Ok && Ready() && st.Total() == k
        invariant misled == (old(misled) || misread) && (sighted ==> !misread)
        invariant world.files.Keys == start.files.Keys && SameStuck(job, start, world)
        invariant world == start.(files := world.files, journal := world.journal)
        invariant st.failed == 0 && !dry && !misread ==> DoneUpTo(job, world, entries, k)
        invariant reliable && !misread ==> (st.failed == 0 <==> dry || !StuckUpTo(job, start, entries, k))
      {
        EntryIsThere(entries, start, k);
        ghost var wrong;
        r, st, wrong := CountEntry(entries, k, dry, st, start);
        misread := misread || wrong;
        if r == Crashed { return; }
        SameKeys(job, start, world);
      }
      AllEntries(job, start, world, entries);
      ReadyMeans();
    }

    // ── The run ───────────────────────────────────────────────────────────

    /**
     * runRotateEncKey after the keys are loaded. `Refused` and `Incomplete` are the fatal exits before and
     * after the work; the new fingerprint is written last and only when nothing failed. Unless a read misled the
     * run, the files are then done; the rows that could not be missed are in any case, and a table needs the old key
     * exactly if a row that was not listed did when the run began.
     */
    method RunRotateEncKey(entries: seq<string>, dry: bool, yes: bool)
      returns (outcome: Outcome, ghost misread: bool, ghost seen: Seen)
      requires Ready() && Ideal(job.c) && InIdOrder(world.messages)
      requires forall name :: name in entries <==> name in world.files
      modifies this
      ensures Valid()
      ensures misled == (old(misled) || misread) && (sighted ==> !misread)
      ensures outcome == Refused ==> world == old(world)
      ensures job.OldFP() == job.NewFP() || (!dry && !yes) || (sighted && ForeignKey(job, old(world))) ==> outcome == Refused
      ensures outcome == Refused ==> job.OldFP() == job.NewFP() || (!dry && !yes) || ForeignKey(job, old(world))
      ensures sighted && old(world).fingerprint.Some? ==>
                old(world).fingerprint.value !in {job.OldFP(), job.NewFP()} ==> outcome == Refused
      ensures outcome == Finished ==> !dry && world.fingerprint == Some(job.NewFP()) && job.RowsDone(world)
      ensures outcome == Finished ==>
                forall kind :: job.Moved(world.Rows(kind)) <==> job.MovedBut(old(world).Rows(kind), seen.Of(kind))
      ensures outcome == Finished ==> listed == Seen(old(listed).messages + seen.messages, old(listed).secrets + seen.secrets)
      ensures outcome == Finished ==> forall kind :: Listed(old(world).Rows(kind), seen.Of(kind), job.Missed(kind))
      ensures outcome == Finished && !misread ==> job.AllDone(world)
      ensures outcome in {DryDone, Incomplete} ==> world.fingerprint == old(world).fingerprint
      ensures outcome == DryDone ==> world == old(world).(files := world.files, journal := world.journal)
      ensures outcome == Finished ==>
                forall kind :: job.Moved(old(world).Rows(kind)) ==> world.Rows(kind) == old(world).Rows(kind)
      ensures outcome != Interrupted ==> up
      ensures reliable && !misread && outcome != Refused && !dry ==>
                outcome == if NoneStuck(job, old(world)) then Finished else Incomplete
    {
      hide Valid, Job.Moved, Job.MovedBut, NoneStuck;
      misread, seen := false, Seen({}, {});
      var known: bool := *;
      if job.OldFP() == job.NewFP() {
        return Refused, misread, seen;
      }
      if (known || sighted) && ForeignKey(job, world) {
        return Refused, misread, seen;
      }
      if !dry && !yes {
        return Refused, misread, seen;
      }
      ghost var before := world;
      var r;
      r, seen := RotateRows(dry);
      if r != Ok { return if r == Failed then Incomplete else Interrupted, misread, seen; }
      SameFilesSameStuck(job, before, world);
      var st;
      r, st, misread := RotateFiles(entries, dry);
      if r != Ok { return Interrupted, misread, seen; }
      if dry {
        return DryDone, misread, seen;
      }
      if st.failed > 0 {
        return Incomplete, misread, seen;
      }
      r := Perform(WriteFingerprint);
      if r != Ok { return if r == Failed then Incomplete else Interrupted, misread, seen; }
      return Finished, misread, seen;
    }

    /**
     * Any number of runs, each of which may fail or die anywhere and misread anything. No row is lost on the way. When
     * one finishes, a table is rotated if its list held every row that needed it, and only if some run listed each of
     * those; so exactly then if no earlier run listed more. If no run was misled by what it read of the files, nothing
     * is lost at all, and a finished one leaves everything under the new key that a listing could not miss.
     */
    method RunUntilFinished(entries: seq<string>, attempts: nat) returns (finished: bool, ghost seen: Seen)
      requires Valid() && Ideal(job.c) && InIdOrder(origin.messages) && job.Fresh(origin)
      requires job.OldFP() != job.NewFP() && !ForeignKey(job, origin)
      requires forall name :: name in entries <==> name in world.files
      modifies this
      ensures Valid() && (old(misled) ==> misled) && (sighted ==> misled == old(misled))
      ensures job.RowsKept(origin.messages, world.messages) && job.RowsKept(origin.secrets, world.secrets)
      ensures finished ==> forall kind ::
                && seen.Of(kind) <= listed.Of(kind) && Listed(origin.Rows(kind), seen.Of(kind), job.Missed(kind))
                && (job.MovedBut(origin.Rows(kind), seen.Of(kind)) ==> job.RowsRotated(origin.Rows(kind), world.Rows(kind)))
                && (job.RowsRotated(origin.Rows(kind), world.Rows(kind)) ==> job.MovedBut(origin.Rows(kind), listed.Of(kind)))
                && job.RowsRotatedBut(origin.Rows(kind), world.Rows(kind), job.Missed(kind))
      ensures !misled ==> job.Inv(origin, world) && (finished ==> job.Rotated(origin, world))
      ensures reliable && sighted && !old(misled) && attempts > 0 && NoneStuck(job, old(world)) ==> finished
    {
      hide Valid, Job.Rotated, Job.RowsRotated, Job.RowsRotatedBut, Job.RowsKept, Job.Moved, Job.MovedBut, NoneStuck;
      finished, seen := false, Seen({}, {});
      ghost var misread;
      WhatThePastShows();
      for n := 0 to attempts
        invariant Valid() && (old(misled) ==> misled) && (sighted ==> misled == old(misled))
        invariant forall name :: name in entries <==> name in world.files
        invariant n == 0 ==> world == old(world)
        invariant reliable && sighted && !old(misled) && n > 0 ==> !NoneStuck(job, old(world))
      {
        Restart();
        WhatThePastShows();
        ghost var found := world;
        var outcome;
        outcome, misread, seen := RunRotateEncKey(entries, false, true);
        WhatThePastShows();
        if outcome == Finished {
          FinishedTable(found, seen, Messages);
          FinishedTable(found, seen, Secrets);
          return true, seen;
        }
      }
      WhatThePastShows();
    }

    /** What was never listed is rotated only if it did not need to be. */
    lemma RotatedWasListed(kind: Kind)
      requires Valid() && job.RowsRotated(origin.Rows(kind), world.Rows(kind))
      ensures job.MovedBut(origin.Rows(kind), listed.Of(kind))
    {
      assert Unvisited(origin.Rows(kind), world.Rows(kind), listed.Of(kind));
    }

    /** What a finished pass that listed `seen` means for a table from its first day on. */
    lemma FinishedTable(found: World, seen: Seen, kind: Kind)
      requires Valid() && job.RowsKept(origin.Rows(kind), found.Rows(kind))
      requires job.RowsKept(origin.Rows(kind), world.Rows(kind)) && job.MovedBut(world.Rows(kind), job.Missed(kind))
      requires job.Moved(world.Rows(kind)) <==> job.MovedBut(found.Rows(kind), seen.Of(kind))
      ensures job.MovedBut(origin.Rows(kind), seen.Of(kind)) ==> job.RowsRotated(origin.Rows(kind), world.Rows(kind))
      ensures job.RowsRotated(origin.Rows(kind), world.Rows(kind)) ==> job.MovedBut(origin.Rows(kind), listed.Of(kind))
      ensures job.RowsRotatedBut(origin.Rows(kind), world.Rows(kind), job.Missed(kind))
    {
      hide Valid, Job.RowsRotated, Job.RowsRotatedBut, Job.RowsKept, Job.Moved, Job.MovedBut;
      var before, now := origin.Rows(kind), world.Rows(kind);
      job.DoneRowsAreRotated(before, now, job.Missed(kind));
      RotatedMeansMoved(job, before, now);
      if job.MovedBut(before, seen.Of(kind)) {
        KeptStaysMoved(job, before, found.Rows(kind), seen.Of(kind));
      }
      if job.RowsRotated(before, now) {
        RotatedWasListed(kind);
      }
    }

    /** What a finished run of a host that was never misled means for the world its own past began with. */
    lemma FinishedFrom(w0: World)
      requires Valid() && Ideal(job.c) && !misled && job.WildFiles(w0, origin)
      requires job.RowsKept(w0.messages, origin.messages) && job.RowsKept(w0.secrets, origin.secrets)
      requires job.AllDone(world)
      ensures job.RowsRotatedBut(w0.messages, world.messages, job.missedMessages)
      ensures job.RowsRotatedBut(w0.secrets, world.secrets, job.missedSecrets)
      ensures job.RowsKept(w0.messages, world.messages) && job.RowsKept(w0.secrets, world.secrets)
      ensures job.FilesRotated(w0.files, world.files) <==> job.FilesMendable(w0, origin)
    {
      job.WildKeepsRows(w0, trace, |trace| - 1);
      job.HistoryMends(w0, trace, |trace| - 1);
      job.DoneFilesAreRotated(w0, world);
      job.DoneRowsAreRotated(w0.messages, world.messages, job.missedMessages);
      job.DoneRowsAreRotated(w0.secrets, world.secrets, job.missedSecrets);
    }

    /** The theorems about histories, for the history of this host. */
    lemma WhatThePastShows()
      requires Valid() && Ideal(job.c) && InIdOrder(origin.messages) && job.Fresh(origin)
      ensures InIdOrder(world.messages) && world.files.Keys == origin.files.Keys
      ensures job.RowsKept(origin.messages, world.messages) && job.RowsKept(origin.secrets, world.secrets)
      ensures !misled ==> job.Inv(origin, world)
      ensures !misled && world.fingerprint == Some(job.NewFP()) ==> job.Rotated(origin, world)
    {
      job.RowsKeepThemselves(origin.messages);
      job.RowsKeepThemselves(origin.secrets);
      job.WildKeepsRows(origin, trace, |trace| - 1);
      KeepsOrder(origin.messages, world.messages);
      if !misled {
        job.HistoryKeepsInv(trace, |trace| - 1);
        if world.fingerprint == Some(job.NewFP()) {
          job.FingerprintMeansRotated(trace, |trace| - 1);
        }
      }
    }
  }

  predicate NoneStuck(job: Job, w: World) {
    forall name | name in w.files :: !Stuck(job, w, name)
  }

  lemma SameFilesSameStuck(job: Job, w: World, w': World)
    requires w'.files == w.files && w'.journal == w.journal
    ensures NoneStuck(job, w) <==> NoneStuck(job, w')
  {}

  lemma KeptStaysMoved(job: Job, before: Table, now: Table, rest: set<nat>)
    requires job.RowsKept(before, now) && job.MovedBut(before, rest)
    ensures job.MovedBut(now, rest)
  {}

  /** A table kept from the first day on is rotated exactly if nothing in it needs the old key any more. */
  lemma RotatedMeansMoved(job: Job, before: Table, now: Table)
    requires job.RowsKept(before, now)
    ensures job.RowsRotated(before, now) <==> job.Moved(now)
  {
    if job.Moved(now) {
      job.DoneRowsAreRotated(before, now, {});
    }
  }

  lemma BrokenMeansStuck(job: Job, w: World, w': World, name: string, dry: bool, v: Visit,
                         journalRead: bool, statRead: bool)
    requires name in w.files && Undisturbed(job, w, w', name, dry, v, journalRead, statRead)
    ensures !Misread(job, w, name, journalRead, statRead) ==> (v == Broken <==> !dry && Stuck(job, w, name))
  {}

  /** The entries are the names of the files. */
  ghost predicate IsDirectory(entries: seq<string>, w: World) {
    forall name :: name in entries <==> name in w.files
  }

  predicate DoneUpTo(job: Job, w: World, entries: seq<string>, k: nat) {
    k <= |entries| && forall i :: 0 <= i < k ==> entries[i] in w.files && job.FileDone(w, entries[i])
  }

  predicate StuckUpTo(job: Job, w: World, entries: seq<string>, k: nat) {
    exists i :: 0 <= i < k <= |entries| && entries[i] in w.files && Stuck(job, w, entries[i])
  }

  predicate SameStuck(job: Job, w: World, w': World) {
    w'.files.Keys == w.files.Keys && forall name | name in w.files :: Stuck(job, w', name) <==> Stuck(job, w, name)
  }

  /** What one entry does concerns no other. */
  lemma EntriesApart(job: Job, w: World, w': World, name: string, other: string)
    requires name in w.files && name in w'.files && other in w.files && other != name
    requires w' == w.(files := w.files[name := w'.files[name]], journal := w'.journal)
    requires w.journal <= w'.journal <= w.journal + {(name, job.NewFP())}
    ensures other in w'.files && (job.FileDone(w, other) ==> job.FileDone(w', other))
    ensures Stuck(job, w', other) <==> Stuck(job, w, other)
  {}

  lemma EntryIsThere(entries: seq<string>, w: World, k: nat)
    requires IsDirectory(entries, w) && k < |entries|
    ensures entries[k] in w.files
  {
    assert entries[k] in entries;
  }

  lemma NothingCounted()
    ensures Stats(0, 0, 0, 0).Total() == 0
  {}

  lemma SameKeys(job: Job, w: World, w': World)
    requires SameStuck(job, w, w')
    ensures w'.files.Keys == w.files.Keys
  {}

  lemma SightedReadsRight(job: Job, w: World, name: string, journalRead: bool, statRead: bool)
    requires name in w.files
    ensures journalRead && statRead ==> !Misread(job, w, name, journalRead, statRead)
  {}

  lemma NoEntries(job: Job, w: World, entries: seq<string>)
    ensures SameStuck(job, w, w) && DoneUpTo(job, w, entries, 0) && !StuckUpTo(job, w, entries, 0)
  {}

  /** One entry more. */
  lemma EntryCounts(job: Job, start: World, w: World, w': World, entries: seq<string>, k: nat)
    requires k < |entries| && entries[k] in w.files && entries[k] in w'.files && SameStuck(job, start, w)
    requires w' == w.(files := w.files[entries[k] := w'.files[entries[k]]], journal := w'.journal)
    requires w.journal <= w'.journal <= w.journal + {(entries[k], job.NewFP())}
    requires Stuck(job, w', entries[k]) <==> Stuck(job, w, entries[k])
    ensures SameStuck(job, start, w')
    ensures DoneUpTo(job, w, entries, k) && job.FileDone(w', entries[k]) ==> DoneUpTo(job, w', entries, k + 1)
    ensures StuckUpTo(job, start, entries, k + 1) <==> StuckUpTo(job, start, entries, k) || Stuck(job, w, entries[k])
  {
    hide Stuck, Job.FileDone;
    forall other | other in w.files && other != entries[k]
      ensures (job.FileDone(w, other) ==> job.FileDone(w', other)) && (Stuck(job, w', other) <==> Stuck(job, w, other))
    {
      EntriesApart(job, w, w', entries[k], other);
    }
  }

  lemma AllEntries(job: Job, start: World, w: World, entries: seq<string>)
    requires IsDirectory(entries, start) && w.files.Keys == start.files.Keys
    ensures DoneUpTo(job, w, entries, |entries|) ==> job.FilesDone(w)
    ensures StuckUpTo(job, start, entries, |entries|) <==> !NoneStuck(job, start)
  {
    hide Stuck, Job.FileDone;
  }

  /** The failed reads that do harm although nothing else fails: one loses a copy, one re-keys twice, one overlooks. */
  predicate Harmful(job: Job, w: World, name: string, dry: bool, journalRead: bool, statRead: bool)
    requires name in w.files
  {
    && job.Journaled(w, name)
    && if journalRead then w.files[name].tmp.Some? && !statRead else dry == w.files[name].tmp.Some?
  }

  /**
   * The exact condition for one undisturbed entry: the data is kept, and what is not reported as failed is done,
   * exactly if its reads were not harmful. Only a file on which the keys agree gets away with more.
   */
  lemma EntryIsSafeExactlyIf(job: Job, w0: World, w: World, w': World, name: string, dry: bool, v: Visit,
                             journalRead: bool, statRead: bool)
    requires job.Kept(w0, w) && name in w.files && Undisturbed(job, w, w', name, dry, v, journalRead, statRead)
    requires HasHeader(w.files[name].orig) ==> !job.KeysAgreeOn(w.files[name].orig)
    ensures job.Kept(w0, w') && (v != Broken && !(dry && v == Moved) ==> job.FileDone(w', name))
       <==> !Harmful(job, w, name, dry, journalRead, statRead)
  {
    hide Job.KeysAgreeOn, Job.Kept;
    job.FileIsKept(w0, w, name);
    job.KeptElsewhere(w0, w, w', name);
    if HasHeader(w.files[name].orig) {
      job.AgreeingDecrypts(w.files[name].orig);
    }
  }

  /** Where an entry that is taken for open may be cut short: its copy just removed, or all of it done. */
  ghost predicate PointOfEntry(job: Job, w: World, w': World, name: string, dry: bool)
    requires name in w.files
  {
    w' == w.WithTmp(name, None) || (!dry && Replaced(job, w, w', name))
  }

  /** The exact condition under interruption: taking a journaled file for open is safe in a dry run without a copy only. */
  lemma MisreadIsSafeExactlyIf(job: Job, w0: World, w: World, name: string, dry: bool)
    requires job.Kept(w0, w) && name in w.files && job.Journaled(w, name) && HasHeader(w.files[name].orig)
    requires !job.KeysAgreeOn(w.files[name].orig)
    ensures (forall w' :: PointOfEntry(job, w, w', name, dry) ==> job.Kept(w0, w')) <==> dry && w.files[name].tmp.None?
  {
    hide Job.Kept, Job.KeysAgreeOn;
    job.FileIsKept(w0, w, name);
    var once := w.files[name].orig;
    if w.files[name].tmp.Some? {
      var cut := w.WithTmp(name, None);
      job.KeptElsewhere(w0, w, cut, name);
      job.AgreeingDecrypts(once);
      assert PointOfEntry(job, w, cut, name, dry);
    } else {
      assert w.WithTmp(name, None).files == w.files;
      if !dry {
        var iv: Block := FileIV(once);
        job.RekeyedTwice(w0, w, name, iv);
        CopyIsRekeyed(job, once, iv);
        var after := job.After(job.After(w, SetTmp(name, Some(RekeyedCopy(job, once, iv)))), Rename(name));
        assert after.files == w.files[name := after.files[name]];
        assert PointOfEntry(job, w, after, name, dry);
      }
    }
  }

  /** A file that no run can ever finish: the magic, and not enough bytes behind it. */
  predicate Truncated(file: Bytes) {
    HasMagic(file) && !HasHeader(file)
  }

  /** Whatever has happened, the files that are stuck are those that were truncated from the beginning. */
  lemma StuckSinceTheBeginning(job: Job, origin: World, world: World, name: string)
    requires job.WildFiles(origin, world) && name in world.files
    ensures Stuck(job, world, name) <==> Truncated(origin.files[name].orig)
  {
    assert job.WildFile(origin.files[name].orig, world.files[name], job.Journaled(world, name));
  }

  /**
   * After any past, interrupted anywhere and misled any number of times, one undisturbed run finishes exactly if no
   * file was truncated from the beginning. Then a table is rotated exactly if no row that was not listed needed the old
   * key when the run began, and the files exactly if each one journaled by then still had its true copy, or was it; a
   * past that was never misled has seen to that.
   */
  method FinishUndisturbed(past: Host, entries: seq<string>) returns (host: Host, finished: bool, ghost seen: Seen)
    requires past.Valid() && Ideal(past.job.c) && InIdOrder(past.origin.messages) && past.job.Fresh(past.origin)
    requires past.job.OldFP() != past.job.NewFP() && !ForeignKey(past.job, past.origin)
    requires forall name :: name in entries <==> name in past.world.files
    ensures host.Valid() && host.job == past.job && fresh(host)
    ensures finished <==> forall name | name in past.origin.files :: !Truncated(past.origin.files[name].orig)
    ensures finished ==> host.world.fingerprint == Some(host.job.NewFP())
    ensures host.origin == past.world && (finished ==> host.listed == seen)
    ensures finished ==> forall kind :: Listed(past.world.Rows(kind), seen.Of(kind), host.job.Missed(kind))
    ensures finished ==> forall kind ::
              && (host.job.RowsRotated(past.origin.Rows(kind), host.world.Rows(kind))
                  <==> host.job.MovedBut(past.world.Rows(kind), seen.Of(kind)))
              && host.job.RowsRotatedBut(past.origin.Rows(kind), host.world.Rows(kind), host.job.Missed(kind))
    ensures finished ==> (host.job.FilesRotated(past.origin.files, host.world.files)
                     <==> host.job.FilesMendable(past.origin, past.world))
    ensures !past.misled ==> past.job.FilesMendable(past.origin, past.world)
  {
    hide Job.RowsRotated, Job.RowsRotatedBut, Job.RowsKept, Job.Moved, Job.MovedBut, Job.FilesRotated, Job.FilesMendable, Job.WildFiles, Job.Kept;
    hide Truncated, Stuck, ForeignKey;
    past.WhatThePastShows();
    past.job.WildKeepsFiles(past.trace, |past.trace| - 1);
    NobodyElsesKey(past.job, past.origin, past.world);
    TruncatedAreStuck(past.job, past.origin, past.world);
    if !past.misled {
      past.job.KeptIsMendable(past.origin, past.world);
    }
    host := new Host(past.job, past.world, true, true);
    var outcome;
    ghost var misread;
    outcome, misread, seen := host.RunRotateEncKey(entries, false, true);
    finished := outcome == Finished;
    if finished {
      host.FinishedFrom(past.origin);
      RotatedMeansMoved(past.job, past.origin.messages, host.world.messages);
      RotatedMeansMoved(past.job, past.origin.secrets, host.world.secrets);
    }
  }

  lemma NobodyElsesKey(job: Job, origin: World, world: World)
    requires job.WildFiles(origin, world) && !ForeignKey(job, origin)
    ensures !ForeignKey(job, world)
  {}

  lemma TruncatedAreStuck(job: Job, origin: World, world: World)
    requires job.WildFiles(origin, world)
    ensures NoneStuck(job, world) <==> forall name | name in origin.files :: !Truncated(origin.files[name].orig)
  {
    hide Stuck, Truncated;
    forall name | name in world.files
      ensures Stuck(job, world, name) <==> Truncated(origin.files[name].orig)
    {
      StuckSinceTheBeginning(job, origin, world, name);
    }
  }

  lemma KeepsOrder(before: Table, now: Table)
    requires SameIds(before, now) && InIdOrder(before)
    ensures InIdOrder(now)
  {}

  lemma PassBegins(job: Job, rows: Table, dry: bool)
    ensures Span(0, 0) == [] && Listing(rows, []) && Passed(job, rows, rows, [], dry) && Tally(job, rows, []) == Stats(0, 0, 0, 0)
  {}

  /** Behind a pass a row needs the old key exactly if it did and was not listed. */
  lemma PassedMeansMoved(job: Job, before: Table, now: Table, at: seq<nat>, seen: set<nat>, missed: set<nat>)
    requires Passed(job, before, now, at, false) && seen == set i | i in at
    requires forall i :: 0 <= i < |before| ==> i in at || i in missed
    ensures job.MovedBut(now, missed)
    ensures job.Moved(now) <==> job.MovedBut(before, seen)
  {
    forall i | 0 <= i < |now|
      ensures job.Needs(now[i].body) <==> i !in seen && job.Needs(before[i].body)
    {
      assert i in at ==> RowRotated(job, before[i], now[i]);
    }
  }

  /** The first rows of a listing without repetitions. */
  lemma FewerListed(rows: Table, at: seq<nat>, next: seq<nat>, m: nat)
    requires Listing(rows, at + next) && m <= |next|
    ensures Listing(rows, at + next[..m])
  {
    assert at + next[..m] == (at + next)[..|at| + m];
  }

  /** The page behind the cursor is the rows from `k` on, which no run has touched since the pass began. */
  lemma PageIsNext(job: Job, before: Table, now: Table, k: nat, cursor: int, dry: bool)
    requires k <= |before| && Passed(job, before, now, Span(0, k), dry) && SplitAt(before, k, cursor)
    ensures |now| == |before| && SplitAt(now, k, cursor)
    ensures var page := SelectAfter(now, cursor, ROTATE_BATCH);
            && k + |page| <= |before|
            && (forall i :: 0 <= i < |page| ==> page[i] == before[k + i])
            && (|page| == 0 <==> k == |before|)
  {
    assert SplitAt(now, k, cursor) by {
      forall i | 0 <= i < |now|
        ensures now[i].id == before[i].id
      {}
    }
    SelectsNextRows(now, k, cursor, ROTATE_BATCH);
    forall i | k <= i < |now|
      ensures now[i] == before[i]
    {
      assert i !in Span(0, k);
    }
  }

  /** However early it ended, the batch holds the next rows. */
  lemma BatchIsNext(job: Job, before: Table, k: nat, page: Table, batch: Table)
    requires batch <= page && k + |page| <= |before| && forall i :: 0 <= i < |page| ==> page[i] == before[k + i]
    ensures var next := Span(k, |batch|);
            && (forall i :: 0 <= i < |batch| ==> next[i] < |before| && batch[i] == before[next[i]])
            && Span(0, k) + next == Span(0, k + |batch|) && Listing(before, Span(0, k + |batch|))
    ensures |batch| > 0 ==> batch[|batch| - 1] == before[k + |batch| - 1]
    ensures job.Moved(before) ==> job.Moved(batch)
  {
    SpanGrows(k, |batch|);
  }

  lemma CursorBegins(rows: Table)
    requires InIdOrder(rows)
    ensures SplitAt(rows, 0, 0)
  {}

  lemma CursorMoves(rows: Table, k: nat)
    requires InIdOrder(rows) && 0 < k <= |rows|
    ensures SplitAt(rows, k, rows[k - 1].id)
  {}

  // ── The start-up guard ──────────────────────────────────────────────────

  datatype Verdict = Start | Refuse | Fatal

  /** What the guard decides from the recorded fingerprint; an unreadable table is no reason not to start. */
  function GuardVerdict(recorded: Option<string>, canRead: bool, canWrite: bool, fp: string, ack: string): Verdict {
    if !canRead || recorded.None? || recorded == Some(fp) then Start
    else if Text.TrimSpace(ack) != fp then Refuse
    else if canWrite then Start
    else Fatal
  }

  /** The row of server_meta that holds the fingerprint, and whether the table can be read and written. */
  class MetaStore {
    var value: Option<string>
    const canRead: bool
    const canWrite: bool

    constructor (value: Option<string>, canRead: bool, canWrite: bool)
      ensures this.value == value && this.canRead == canRead && this.canWrite == canWrite
    {
      this.value, this.canRead, this.canWrite := value, canRead, canWrite;
    }

    /** encKeyGuardStatus: a first start records its key, an acknowledged change replaces it, nothing else writes. */
    method EncKeyGuardStatus(fp: string, ack: string) returns (stored: string, verdict: Verdict)
      modifies this
      ensures verdict == GuardVerdict(old(value), canRead, canWrite, fp, ack)
      ensures value == if canRead && canWrite && verdict == Start then Some(fp) else old(value)
      ensures !canRead || old(value).None? || old(value) == Some(fp) ==> verdict == Start
      ensures canRead && old(value).None? && canWrite ==> value == Some(fp)
      ensures canRead && old(value).Some? && old(value) != Some(fp) ==>
                && (verdict == Refuse <==> Text.TrimSpace(ack) != fp)
                && (verdict == Start <==> Text.TrimSpace(ack) == fp && canWrite)
                && (verdict == Start ==> value == Some(fp)) && (verdict != Start ==> value == old(value))
      ensures !canRead || !canWrite ==> value == old(value)
      ensures stored == if !canRead then "" else if old(value).None? then fp else old(value).value
    {
      if !canRead {
        return "", Start;
      }
      if value.None? {
        if canWrite {
          value := Some(fp);
        }
        return fp, Start;
      }
      stored := value.value;
      if stored == fp {
        return stored, Start;
      }
      if Text.TrimSpace(ack) != fp {
        return stored, Refuse;
      }
      if !canWrite {
        return stored, Fatal;
      }
      value := Some(fp);
      return stored, Start;
    }
  }

  /**
   * The first start of an installation records its key, whatever the acknowledgement says. From then on the same key
   * starts, and another one only if it is acknowledged by its fingerprint, which then takes the place of the first.
   */
  method FirstStarts(store: MetaStore, first: string, ack: string, second: string, ack': string)
    returns (once: Verdict, again: Verdict, changed: Verdict)
    requires store.value.None? && store.canRead && store.canWrite && first != second
    modifies store
    ensures once == Start && again == Start
    ensures changed == if Text.TrimSpace(ack') == second then Start else Refuse
    ensures store.value == Some(if Text.TrimSpace(ack') == second then second else first)
  {
    hide *;
    var stored;
    stored, once := store.EncKeyGuardStatus(first, ack);
    stored, again := store.EncKeyGuardStatus(first, "");
    stored, changed := store.EncKeyGuardStatus(second, ack');
  }

  /**
   * After a completed rotation a server starts without acknowledgement exactly on a key with the new
   * fingerprint, and what it then finds is the data it had, readable under the new key.
   */
  lemma {:induction false} GuardAdmitsTheNewKeyOnly(job: Job, trace: seq<World>, k: nat, key: Key, ack: string,
                                                    canWrite: bool)
    requires Ideal(job.c) && job.History(trace) && job.Fresh(trace[0]) && k < |trace|
    requires trace[k].fingerprint == Some(job.NewFP())
    ensures job.Rotated(trace[0], trace[k])
    ensures var fp := job.c.fingerprint(key);
            GuardVerdict(trace[k].fingerprint, true, canWrite, fp, ack) == Start
            <==> fp == job.NewFP() || (Text.TrimSpace(ack) == fp && canWrite)
  {
    job.FingerprintMeansRotated(trace, k);
  }
}
