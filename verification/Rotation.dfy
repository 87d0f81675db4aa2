/**
 * Changing the at-rest key while keeping the data (server/rotatekey.go): the durable state, the atomic
 * effects a rotation may have on it, and what every sequence of those effects preserves. Nothing volatile
 * is part of the state, so a crash is simply a point at which the sequence goes on in another process.
 */
module Rotation {
  import opened Common
  import opened FileCrypt

  type Key = Bytes

  /** The primitives, left uninterpreted. `Ideal` is all that is assumed about them. */
  datatype Crypto = Crypto(
    seal: (Key, Bytes, string) -> string,
    open: (Key, string) -> Option<string>,
    aes: (Key, Block) -> Block,
    fingerprint: Key -> string)

  /** Authenticated encryption: what one key sealed opens under that key and under no other. */
  ghost predicate Ideal(c: Crypto) {
    forall k, k', nonce, text {:trigger c.open(k, c.seal(k', nonce, text))} ::
      c.open(k, c.seal(k', nonce, text)) == if k == k' then Some(text) else None
  }

  // ── The durable state ───────────────────────────────────────────────────

  datatype Cell = Cell(id: int, body: string)
  type Table = seq<Cell>

  /** An uploaded file and, when there is one, its `.rotating` neighbour. */
  datatype File = File(orig: Bytes, tmp: Option<Bytes>)

  datatype Kind = Messages | Secrets

  datatype World = World(
    messages: Table,
    secrets: Table,
    files: map<string, File>,
    journal: set<(string, string)>,
    fingerprint: Option<string>)
  {
    function Rows(kind: Kind): Table {
      if kind == Messages then messages else secrets
    }

    function WithRows(kind: Kind, rows: Table): World {
      if kind == Messages then this.(messages := rows) else this.(secrets := rows)
    }

    function WithTmp(name: string, tmp: Option<Bytes>): World
      requires name in files
    {
      this.(files := files[name := files[name].(tmp := tmp)])
    }
  }

  /** What fileIsEncrypted looks at: the magic alone. */
  predicate HasMagic(file: Bytes) {
    |file| >= |FILE_MAGIC| && file[..|FILE_MAGIC|] == FILE_MAGIC
  }

  /**
   * One rotation: the primitives, the two keys, and the rows that a listing may leave out without anybody noticing,
   * because the iteration over the result ends early or the table cannot be read.
   */
  datatype Job = Job(c: Crypto, oldKey: Key, newKey: Key, missedMessages: set<nat>, missedSecrets: set<nat>) {

    function Missed(kind: Kind): set<nat> {
      if kind == Messages then missedMessages else missedSecrets
    }

    function Cipher(key: Key): BlockCipher {
      (b: Block) => c.aes(key, b)
    }

    function OldFP(): string { c.fingerprint(oldKey) }

    function NewFP(): string { c.fingerprint(newKey) }

    /** A body that is sealed under the old key and not under the new one. */
    predicate Needs(body: string) {
      c.open(newKey, body).None? && c.open(oldKey, body).Some?
    }

    /** rotationDone: the journal knows the file under the new fingerprint. */
    predicate Journaled(w: World, name: string) {
      (name, NewFP()) in w.journal
    }

    /** `file` holds under the new key what `before` holds under the old one. */
    predicate Rekeyed(file: Bytes, before: Bytes) {
      && HasHeader(file) && HasHeader(before)
      && DecryptedFile(Cipher(newKey), file) == DecryptedFile(Cipher(oldKey), before)
    }

    /** No row of the table still needs the old key. */
    predicate Moved(rows: Table) {
      MovedBut(rows, {})
    }

    /** None but these. */
    predicate MovedBut(rows: Table, rest: set<nat>) {
      forall i :: 0 <= i < |rows| && i !in rest ==> !Needs(rows[i].body)
    }

    predicate FileDone(w: World, name: string)
      requires name in w.files
    {
      if Journaled(w, name) then w.files[name].tmp.None? else !HasMagic(w.files[name].orig)
    }

    predicate FilesDone(w: World) {
      forall name | name in w.files :: FileDone(w, name)
    }

    /** What the code has established when it writes the new fingerprint. */
    predicate AllDone(w: World) {
      RowsDone(w) && FilesDone(w)
    }

    predicate RowsDone(w: World) {
      MovedBut(w.messages, missedMessages) && MovedBut(w.secrets, missedSecrets)
    }

    // ── Atomic effects ────────────────────────────────────────────────────

    /** The guard of an effect: what must hold whenever the program performs it. */
    predicate Enabled(w: World, s: Step) {
      match s
      case Rewrite(kind, i, _) => i < |w.Rows(kind)| && Needs(w.Rows(kind)[i].body)
      case SetTmp(name, _) => name in w.files && !Journaled(w, name)
      case Record(name) =>
        && name in w.files && !Journaled(w, name)
        && w.files[name].tmp.Some? && Rekeyed(w.files[name].tmp.value, w.files[name].orig)
      case Rename(name) => name in w.files && Journaled(w, name) && w.files[name].tmp.Some?
      case WriteFingerprint => AllDone(w)
    }

    /**
     * What a failed read adds. A journal query that fails reads as "not done", so the temporary file of a journaled
     * file may be removed or overwritten and its entry written again; a failed look at the temporary file passes a
     * file for done that is not, so the fingerprint may come early.
     */
    predicate Stray(w: World, s: Step) {
      match s
      case Rewrite(_, _, _) => false
      case SetTmp(name, _) => name in w.files && Journaled(w, name)
      case Record(name) => name in w.files && Journaled(w, name)
      case Rename(_) => false
      case WriteFingerprint => RowsDone(w)
    }

    predicate Possible(w: World, s: Step) {
      Enabled(w, s) || Stray(w, s)
    }

    function After(w: World, s: Step): World
      requires Possible(w, s)
    {
      match s
      case Rewrite(kind, i, nonce) =>
        var row := w.Rows(kind)[i];
        var sealed := c.seal(newKey, nonce, c.open(oldKey, row.body).value);
        w.WithRows(kind, w.Rows(kind)[i := row.(body := sealed)])
      case SetTmp(name, tmp) => w.WithTmp(name, tmp)
      case Record(name) => w.(journal := w.journal + {(name, NewFP())})
      case Rename(name) => w.(files := w.files[name := File(w.files[name].tmp.value, None)])
      case WriteFingerprint => w.(fingerprint := Some(NewFP()))
    }

    ghost predicate Next(w: World, w': World) {
      exists s :: Enabled(w, s) && w' == After(w, s)
    }

    /** Any number of runs, complete or cut short anywhere: the worlds that follow one another. */
    ghost predicate History(trace: seq<World>) {
      && trace != []
      && (|trace| > 1 ==> History(trace[..|trace| - 1]) && Next(trace[|trace| - 2], trace[|trace| - 1]))
    }

    ghost predicate WildNext(w: World, w': World) {
      exists s :: Possible(w, s) && w' == After(w, s)
    }

    /** The same with any number of failed reads. */
    ghost predicate WildHistory(trace: seq<World>) {
      && trace != []
      && (|trace| > 1 ==> WildHistory(trace[..|trace| - 1]) && WildNext(trace[|trace| - 2], trace[|trace| - 1]))
    }

    /** A history in which every listing left out all the rows it may leave out, so that none of them was written. */
    ghost predicate CutHistory(trace: seq<World>) {
      && trace != []
      && (|trace| > 1 ==> CutHistory(trace[..|trace| - 1]) && CutNext(trace[|trace| - 2], trace[|trace| - 1]))
    }

    ghost predicate CutNext(w: World, w': World) {
      exists s :: Enabled(w, s) && !(s.Rewrite? && s.i in Missed(s.kind)) && w' == After(w, s)
    }

    /** Before the first run: no file is journaled for the new key, and another key's fingerprint is recorded. */
    ghost predicate Fresh(w: World) {
      && (forall name | name in w.files :: !Journaled(w, name))
      && w.fingerprint != Some(NewFP())
    }

    // ── What every effect preserves ───────────────────────────────────────

    /** A body that is untouched, or was moved to the new key with the same text. */
    predicate BodyKept(before: string, now: string) {
      || now == before
      || (Needs(before) && c.open(newKey, now) == c.open(oldKey, before))
    }

    predicate RowsKept(before: Table, now: Table) {
      && |now| == |before|
      && forall i :: 0 <= i < |now| ==> now[i].id == before[i].id && BodyKept(before[i].body, now[i].body)
    }

    /** The three states of a file that the crash argument distinguishes. */
    predicate FileKept(before: Bytes, now: File, journaled: bool) {
      if !journaled then now.orig == before
      else if now.tmp.Some? then now.orig == before && Rekeyed(now.tmp.value, before)
      else Rekeyed(now.orig, before)
    }

    /** The data of the first world is all there. */
    ghost predicate Kept(w0: World, w: World) {
      && RowsKept(w0.messages, w.messages)
      && RowsKept(w0.secrets, w.secrets)
      && w.files.Keys == w0.files.Keys
      && (forall name | name in w.files :: FileKept(w0.files[name].orig, w.files[name], Journaled(w, name)))
    }

    ghost predicate Inv(w0: World, w: World) {
      && Kept(w0, w)
      && (w.fingerprint == w0.fingerprint || (w.fingerprint == Some(NewFP()) && AllDone(w)))
    }

    lemma RewriteKeepsRows(before: Table, now: Table, i: nat, nonce: Bytes)
      requires Ideal(c) && RowsKept(before, now) && i < |now| && Needs(now[i].body)
      ensures var sealed := c.seal(newKey, nonce, c.open(oldKey, now[i].body).value);
              !Needs(sealed) && RowsKept(before, now[i := now[i].(body := sealed)])
    {
      assert c.open(newKey, now[i].body).None?;
      assert now[i].body == before[i].body;
    }

    lemma RewriteKeepsInv(w0: World, w: World, kind: Kind, i: nat, nonce: Bytes)
      requires Ideal(c) && Inv(w0, w) && Enabled(w, Rewrite(kind, i, nonce))
      ensures Inv(w0, After(w, Rewrite(kind, i, nonce)))
    {
      var w' := After(w, Rewrite(kind, i, nonce));
      RewriteKeepsRows(w0.Rows(kind), w.Rows(kind), i, nonce);
      hide RowsKept, FileKept, FileDone, Needs;
      assert AllDone(w) ==> AllDone(w');
    }

    lemma StepKeepsInv(w0: World, w: World, s: Step)
      requires Ideal(c) && Inv(w0, w) && Enabled(w, s)
      ensures Inv(w0, After(w, s))
    {
      if s.Rewrite? {
        RewriteKeepsInv(w0, w, s.kind, s.i, s.nonce);
      } else {
        hide RowsKept, MovedBut, Rekeyed;
        assert AllDone(w) ==> AllDone(After(w, s));
      }
    }

    lemma {:induction false} NextKeepsInv(w0: World, w: World, w': World)
      requires Ideal(c) && Inv(w0, w) && Next(w, w')
      ensures Inv(w0, w')
    {
      var s :| Enabled(w, s) && w' == After(w, s);
      StepKeepsInv(w0, w, s);
    }

    /** The crash invariant holds in every world of every history. */
    lemma {:induction false} HistoryKeepsInv(trace: seq<World>, k: nat)
      requires Ideal(c) && History(trace) && Fresh(trace[0]) && k < |trace|
      ensures Inv(trace[0], trace[k])
    {
      if |trace| > 1 {
        var before := trace[..|trace| - 1];
        if k < |before| {
          HistoryKeepsInv(before, k);
        } else {
          HistoryKeepsInv(before, k - 1);
          NextKeepsInv(trace[0], trace[k - 1], trace[k]);
        }
      }
    }

    // ── What that means for the data ──────────────────────────────────────

    /** Where the next run will find a file's plaintext. */
    function Recovered(w: World, name: string): Option<Bytes>
      requires name in w.files
    {
      var f := w.files[name];
      var source, key := if Journaled(w, name) && f.tmp.Some? then f.tmp.value else f.orig,
                         if Journaled(w, name) then newKey else oldKey;
      if HasHeader(source) then Some(DecryptedFile(Cipher(key), source)) else None
    }

    /** The text of a body for a reader who has both keys and tries the new one first. */
    function Text(body: string): Option<string> {
      match c.open(newKey, body)
      case Some(text) => Some(text)
      case None => c.open(oldKey, body)
    }

    /** At no crash point of any history is anything lost: every plaintext can be reached, legacy data is untouched. */
    lemma NothingIsEverLost(trace: seq<World>, k: nat)
      requires Ideal(c) && History(trace) && Fresh(trace[0]) && k < |trace|
      ensures forall i :: 0 <= i < |trace[0].messages| ==>
        |trace[k].messages| == |trace[0].messages| && Text(trace[k].messages[i].body) == Text(trace[0].messages[i].body)
      ensures forall i :: 0 <= i < |trace[0].secrets| ==>
        |trace[k].secrets| == |trace[0].secrets| && Text(trace[k].secrets[i].body) == Text(trace[0].secrets[i].body)
      ensures trace[k].files.Keys == trace[0].files.Keys
      ensures forall name | name in trace[0].files ::
                && Recovered(trace[k], name) == Recovered(trace[0], name)
                && (!HasHeader(trace[0].files[name].orig) ==> trace[k].files[name].orig == trace[0].files[name].orig)
    {
      HistoryKeepsInv(trace, k);
    }

    /** Everything that was listed is readable with the new key alone, everything else byte for byte as it was. */
    ghost predicate Rotated(w0: World, w: World) {
      && RowsRotatedBut(w0.messages, w.messages, missedMessages)
      && RowsRotatedBut(w0.secrets, w.secrets, missedSecrets)
      && FilesRotated(w0.files, w.files)
    }

    predicate RowsRotated(before: Table, now: Table) {
      RowsRotatedBut(before, now, {})
    }

    predicate RowsRotatedBut(before: Table, now: Table, rest: set<nat>) {
      && RowsKept(before, now)
      && forall i :: 0 <= i < |now| && i !in rest ==>
        if Needs(before[i].body) then c.open(newKey, now[i].body) == c.open(oldKey, before[i].body)
        else now[i].body == before[i].body
    }

    predicate FilesRotated(before: map<string, File>, now: map<string, File>) {
      && now.Keys == before.Keys
      && forall name | name in now ::
        if HasMagic(before[name].orig) then Rekeyed(now[name].orig, before[name].orig)
        else now[name].orig == before[name].orig
    }

    lemma DoneRowsAreRotated(before: Table, now: Table, rest: set<nat>)
      requires RowsKept(before, now)
      requires MovedBut(now, rest)
      ensures RowsRotatedBut(before, now, rest)
    {
      forall i | 0 <= i < |now| && i !in rest
        ensures if Needs(before[i].body) then c.open(newKey, now[i].body) == c.open(oldKey, before[i].body)
                else now[i].body == before[i].body
      {
        assert !Needs(now[i].body);
      }
    }

    /** A row that was left alone is rotated only if it did not need to be. */
    lemma LeftAloneIsRotated(before: Table, now: Table, left: set<nat>)
      requires RowsRotatedBut(before, now, left)
      requires forall i :: 0 <= i < |now| && i in left ==> now[i] == before[i]
      ensures RowsRotated(before, now) <==> forall i :: 0 <= i < |before| && i in left ==> !Needs(before[i].body)
    {
      if i :| 0 <= i < |before| && i in left && Needs(before[i].body) {
        assert now[i].body == before[i].body;
      }
    }

    /** Once the new fingerprint is recorded, at that point and ever after, the rotation is complete. */
    lemma {:induction false} FingerprintMeansRotated(trace: seq<World>, k: nat)
      requires Ideal(c) && History(trace) && Fresh(trace[0]) && k < |trace|
      requires trace[k].fingerprint == Some(NewFP())
      ensures Rotated(trace[0], trace[k])
    {
      HistoryKeepsInv(trace, k);
      var w0, w := trace[0], trace[k];
      assert AllDone(w);
      DoneRowsAreRotated(w0.messages, w.messages, missedMessages);
      DoneRowsAreRotated(w0.secrets, w.secrets, missedSecrets);
      forall name | name in w.files
        ensures if HasMagic(w0.files[name].orig) then Rekeyed(w.files[name].orig, w0.files[name].orig)
                else w.files[name].orig == w0.files[name].orig
      {
        assert FileDone(w, name);
      }
    }

    /**
     * End to end, for whatever the primitives are: once the new fingerprint is recorded, a file uploaded under the old key
     * decrypts under the new one, and a row sealed under the old key that the new one did not open opens under it.
     */
    lemma AfterRotation(trace: seq<World>, k: nat, name: string, iv: Block, plain: Bytes, kind: Kind, i: nat, nonce: Bytes,
                        text: string)
      requires Ideal(c) && History(trace) && Fresh(trace[0]) && k < |trace| && trace[k].fingerprint == Some(NewFP())
      ensures name in trace[0].files && trace[0].files[name].orig == EncryptedFile(Cipher(oldKey), iv, plain) ==>
                && name in trace[k].files && HasHeader(trace[k].files[name].orig)
                && DecryptedFile(Cipher(newKey), trace[k].files[name].orig) == plain
      ensures i < |trace[0].Rows(kind)| && oldKey != newKey && trace[0].Rows(kind)[i].body == c.seal(oldKey, nonce, text)
              && i !in Missed(kind) ==>
                i < |trace[k].Rows(kind)| && c.open(newKey, trace[k].Rows(kind)[i].body) == Some(text)
    {
      FingerprintMeansRotated(trace, k);
      FileRoundTrip(Cipher(oldKey), iv, plain);
      hide History, EncryptedFile, DecryptedFile;
    }

    /** What "can be read" means: a reader with both keys gets the text of a body sealed under either. */
    lemma TextIsWhatWasSealed(key: Key, nonce: Bytes, text: string)
      requires Ideal(c) && key in {oldKey, newKey}
      ensures Text(c.seal(key, nonce, text)) == Some(text)
    {}

    /** And a file that no run has touched is recovered as what was uploaded. */
    lemma RecoveredIsWhatWasUploaded(w: World, name: string, iv: Block, plain: Bytes)
      requires name in w.files && !Journaled(w, name) && w.files[name].orig == EncryptedFile(Cipher(oldKey), iv, plain)
      ensures Recovered(w, name) == Some(plain)
    {
      FileRoundTrip(Cipher(oldKey), iv, plain);
    }

    // ── Listings that end early ───────────────────────────────────────────

    ghost predicate LeftAlone(before: Table, now: Table, left: set<nat>) {
      |now| == |before| && forall i :: 0 <= i < |now| && i in left ==> now[i] == before[i]
    }

    lemma {:induction false} CutLeavesAlone(trace: seq<World>, k: nat)
      requires CutHistory(trace) && k < |trace|
      ensures History(trace)
      ensures LeftAlone(trace[0].messages, trace[k].messages, missedMessages)
      ensures LeftAlone(trace[0].secrets, trace[k].secrets, missedSecrets)
    {
      hide CutNext, Next;
      if |trace| > 1 {
        var before := trace[..|trace| - 1];
        CutLeavesAlone(before, if k < |before| then k else k - 1);
        CutStep(trace[|trace| - 2], trace[|trace| - 1]);
      }
    }

    lemma CutStep(w: World, w': World)
      requires CutNext(w, w')
      ensures Next(w, w')
      ensures LeftAlone(w.messages, w'.messages, missedMessages) && LeftAlone(w.secrets, w'.secrets, missedSecrets)
    {
      var s :| Enabled(w, s) && !(s.Rewrite? && s.i in Missed(s.kind)) && w' == After(w, s);
    }

    /**
     * Nothing looks at why an iteration ended. If every run left out the same rows, be it the end of a list or all of
     * it, a recorded fingerprint means a rotated table exactly if none of those was under the old key to begin with.
     */
    lemma CutListingsStay(trace: seq<World>, k: nat, kind: Kind)
      requires Ideal(c) && CutHistory(trace) && Fresh(trace[0]) && k < |trace|
      requires trace[k].fingerprint == Some(NewFP())
      ensures LeftAlone(trace[0].Rows(kind), trace[k].Rows(kind), Missed(kind)) && Rotated(trace[0], trace[k])
      ensures RowsRotated(trace[0].Rows(kind), trace[k].Rows(kind))
         <==> forall i :: 0 <= i < |trace[0].Rows(kind)| && i in Missed(kind) ==> !Needs(trace[0].Rows(kind)[i].body)
    {
      CutLeavesAlone(trace, k);
      FingerprintMeansRotated(trace, k);
      LeftAloneIsRotated(trace[0].Rows(kind), trace[k].Rows(kind), Missed(kind));
    }

    /** Two rows and a listing that ends after the first: a finished rotation with the second under the old key only. */
    lemma ACutListing(kind: Kind, a: Cell, b: Cell, nonce: Bytes) returns (trace: seq<World>)
      requires Ideal(c) && Missed(kind) == {1} && Needs(a.body) && Needs(b.body) && OldFP() != NewFP()
      ensures CutHistory(trace) && Fresh(trace[0]) && trace[0] == OnlyRows(kind, [a, b])
      ensures |trace| == 3 && trace[2].fingerprint == Some(NewFP())
      ensures RowsRotatedBut([a, b], trace[2].Rows(kind), {1}) && trace[2].Rows(kind)[1] == b
      ensures !RowsRotated([a, b], trace[2].Rows(kind))
    {
      var w := OnlyRows(kind, [a, b]);
      RewriteKeepsRows([a, b], [a, b], 0, nonce);
      var w1 := After(w, Rewrite(kind, 0, nonce));
      assert CutNext(w, w1);
      var w2 := After(w1, WriteFingerprint);
      assert CutNext(w1, w2);
      trace := [w, w1, w2];
      assert trace[..2] == [w, w1] && [w, w1][..1] == [w] && CutHistory([w]) && CutHistory([w, w1]);
      CutListingsStay(trace, 2, kind);
      assert [a, b][1] == b;
    }

    /** A table that could not be listed at all, and a single row in it. */
    lemma OneUnreadSecret(row: Cell) returns (trace: seq<World>)
      requires Missed(Secrets) == {0} && Needs(row.body) && OldFP() != NewFP()
      ensures |trace| == 2 && trace[0] == OnlyRows(Secrets, [row]) && CutHistory(trace) && Fresh(trace[0])
      ensures trace[1].fingerprint == Some(NewFP()) && trace[1].secrets == [row] && !RowsRotated([row], trace[1].secrets)
    {
      var w := OnlyRows(Secrets, [row]);
      trace := [w, After(w, WriteFingerprint)];
      assert trace[..1] == [w] && CutHistory([w]);
      assert CutNext(w, trace[1]);
      assert [row][0] == row;
    }

    function OnlyRows(kind: Kind, rows: Table): World {
      World([], [], map[], {}, Some(OldFP())).WithRows(kind, rows)
    }

    // ── Failed reads ──────────────────────────────────────────────────────

    /** The two keys decrypt a file alike: their key streams coincide over its payload. */
    predicate KeysAgreeOn(file: Bytes)
      requires HasHeader(file)
    {
      StreamsAgree(Cipher(oldKey), Cipher(newKey), FileIV(file), |file| - FILE_HEADER_SIZE)
    }

    /** No row is ever lost, whatever was misread. */
    lemma {:induction false} WildKeepsRows(w0: World, trace: seq<World>, k: nat)
      requires Ideal(c) && WildHistory(trace) && k < |trace|
      requires RowsKept(w0.messages, trace[0].messages) && RowsKept(w0.secrets, trace[0].secrets)
      ensures RowsKept(w0.messages, trace[k].messages) && RowsKept(w0.secrets, trace[k].secrets)
      ensures trace[k].files.Keys == trace[0].files.Keys
    {
      hide WildNext, RowsKept;
      if |trace| > 1 {
        var before := trace[..|trace| - 1];
        if k < |before| {
          WildKeepsRows(w0, before, k);
        } else {
          WildKeepsRows(w0, before, k - 1);
          WildStepKeepsRows(w0, trace[k - 1], trace[k]);
        }
      }
    }

    /** What a misread cannot change: files that are not journaled, and which ones can be. */
    predicate WildFile(before: Bytes, now: File, journaled: bool) {
      if journaled then HasHeader(before) else now.orig == before
    }

    ghost predicate WildFiles(w0: World, w: World) {
      && w.files.Keys == w0.files.Keys && (w.fingerprint == w0.fingerprint || w.fingerprint == Some(NewFP()))
      && forall name | name in w.files :: WildFile(w0.files[name].orig, w.files[name], Journaled(w, name))
    }

    lemma WildStepKeepsFile(w0: World, w: World, s: Step, name: string)
      requires Possible(w, s) && name in w.files && name in w0.files
      requires WildFile(w0.files[name].orig, w.files[name], Journaled(w, name))
      ensures var w' := After(w, s);
              name in w'.files && WildFile(w0.files[name].orig, w'.files[name], Journaled(w', name))
    {}

    lemma WildStepKeepsFiles(w0: World, w: World, w': World)
      requires WildNext(w, w') && WildFiles(w0, w)
      ensures WildFiles(w0, w')
    {
      var s :| Possible(w, s) && w' == After(w, s);
      hide WildFile, Enabled, Stray;
      forall name | name in w.files
        ensures name in w'.files && WildFile(w0.files[name].orig, w'.files[name], Journaled(w', name))
      {
        WildStepKeepsFile(w0, w, s, name);
      }
    }

    lemma {:induction false} WildKeepsFiles(trace: seq<World>, k: nat)
      requires WildHistory(trace) && Fresh(trace[0]) && k < |trace|
      ensures WildFiles(trace[0], trace[k])
    {
      hide WildNext;
      if |trace| > 1 {
        hide WildFiles;
        var before := trace[..|trace| - 1];
        if k < |before| {
          WildKeepsFiles(before, k);
        } else {
          WildKeepsFiles(before, k - 1);
          WildStepKeepsFiles(trace[0], trace[k - 1], trace[k]);
        }
      }
    }

    /** A run that misreads nothing can still put the file right. */
    predicate Mendable(before: Bytes, now: File, journaled: bool) {
      if !journaled then now.orig == before
      else Rekeyed(if now.tmp.Some? then now.tmp.value else now.orig, before)
    }

    ghost predicate FilesMendable(w0: World, w: World) {
      && w.files.Keys == w0.files.Keys
      && forall name | name in w.files :: Mendable(w0.files[name].orig, w.files[name], Journaled(w, name))
    }

    lemma KeptIsMendable(w0: World, w: World)
      requires Kept(w0, w)
      ensures FilesMendable(w0, w)
    {}

    lemma StepMendsFile(w0: World, w: World, s: Step, name: string)
      requires Enabled(w, s) && name in w.files && name in w0.files
      requires WildFile(w0.files[name].orig, w.files[name], Journaled(w, name))
      ensures var w' := After(w, s);
              && name in w'.files
              && (Mendable(w0.files[name].orig, w'.files[name], Journaled(w', name))
                  <==> Mendable(w0.files[name].orig, w.files[name], Journaled(w, name)))
    {
      hide Rekeyed, RowsDone, FilesDone;
    }

    lemma StepMends(w0: World, w: World, w': World)
      requires Next(w, w') && WildFiles(w0, w)
      ensures FilesMendable(w0, w) <==> FilesMendable(w0, w')
    {
      var s :| Enabled(w, s) && w' == After(w, s);
      assert w'.files.Keys == w.files.Keys;
      hide Enabled, Mendable, WildFile, After;
      forall name | name in w.files
        ensures Mendable(w0.files[name].orig, w'.files[name], Journaled(w', name))
           <==> Mendable(w0.files[name].orig, w.files[name], Journaled(w, name))
      {
        StepMendsFile(w0, w, s, name);
      }
    }

    /** Steps that follow true reads neither lose what can be mended nor mend what is lost. */
    lemma {:induction false} HistoryMends(w0: World, trace: seq<World>, k: nat)
      requires History(trace) && WildFiles(w0, trace[0]) && k < |trace|
      ensures WildFiles(w0, trace[k]) && (FilesMendable(w0, trace[0]) <==> FilesMendable(w0, trace[k]))
    {
      hide Next, WildNext, FilesMendable, WildFiles;
      if |trace| > 1 {
        var before := trace[..|trace| - 1];
        if k < |before| {
          HistoryMends(w0, before, k);
        } else {
          HistoryMends(w0, before, k - 1);
          StepMends(w0, trace[k - 1], trace[k]);
          StepIsWild(trace[k - 1], trace[k]);
          WildStepKeepsFiles(w0, trace[k - 1], trace[k]);
        }
      }
    }

    lemma StepIsWild(w: World, w': World)
      requires Next(w, w')
      ensures WildNext(w, w')
    {
      var s :| Enabled(w, s) && w' == After(w, s);
      assert Possible(w, s);
    }

    /** When every file passes for done, they are rotated exactly if they could be mended. */
    lemma DoneFilesAreRotated(w0: World, w: World)
      requires WildFiles(w0, w) && FilesDone(w)
      ensures FilesRotated(w0.files, w.files) <==> FilesMendable(w0, w)
    {
      hide Rekeyed;
      forall name | name in w.files
        ensures Mendable(w0.files[name].orig, w.files[name], Journaled(w, name))
           <==> if HasMagic(w0.files[name].orig) then Rekeyed(w.files[name].orig, w0.files[name].orig)
                else w.files[name].orig == w0.files[name].orig
      {
        assert FileDone(w, name) && WildFile(w0.files[name].orig, w.files[name], Journaled(w, name));
        RekeyedHasMagic(w.files[name].orig, w0.files[name].orig);
      }
    }

    lemma RekeyedHasMagic(file: Bytes, before: Bytes)
      ensures Rekeyed(file, before) ==> HasMagic(file) && HasMagic(before)
    {}

    lemma SameLength(before: Table, now: Table)
      requires RowsKept(before, now)
      ensures |before| == |now|
    {}

    lemma RowsKeepThemselves(rows: Table)
      ensures RowsKept(rows, rows)
    {}

    lemma WildStepKeepsRows(w0: World, w: World, w': World)
      requires Ideal(c) && WildNext(w, w') && RowsKept(w0.messages, w.messages) && RowsKept(w0.secrets, w.secrets)
      ensures RowsKept(w0.messages, w'.messages) && RowsKept(w0.secrets, w'.secrets) && w'.files.Keys == w.files.Keys
    {
      hide RowsKept;
      var s :| Possible(w, s) && w' == After(w, s);
      match s
      case Rewrite(kind, i, nonce) =>
        SameLength(w0.Rows(kind), w.Rows(kind));
        RewriteKeepsRows(w0.Rows(kind), w.Rows(kind), i, nonce);
      case _ =>
    }

    /** Only one file and the journal differ: the rest is kept as it was. */
    lemma KeptElsewhere(w0: World, w: World, w': World, name: string)
      requires Kept(w0, w) && name in w.files && name in w'.files
      requires w' == w.(files := w.files[name := w'.files[name]], journal := w'.journal)
      requires w.journal <= w'.journal <= w.journal + {(name, NewFP())}
      ensures Kept(w0, w') <==> FileKept(w0.files[name].orig, w'.files[name], Journaled(w', name))
    {
      hide FileKept;
      forall other | other in w.files && other != name
        ensures w'.files[other] == w.files[other] && (Journaled(w', other) <==> Journaled(w, other))
      {}
    }

    /**
     * The journal query fails for a file that is journaled and not yet renamed, and its complete copy is removed, as
     * a dry run would. From then on the file passes for done, and its plaintext is there exactly if the keys agree.
     */
    lemma CopyLost(w0: World, w: World, name: string)
      requires Kept(w0, w) && name in w.files && Journaled(w, name) && w.files[name].tmp.Some? && !Journaled(w0, name)
      ensures var w' := After(w, SetTmp(name, None));
              && FileDone(w', name)
              && (Kept(w0, w') <==> KeysAgreeOn(w0.files[name].orig))
              && (Recovered(w', name) == Recovered(w0, name) <==> KeysAgreeOn(w0.files[name].orig))
    {
      var w' := After(w, SetTmp(name, None));
      assert FileKept(w0.files[name].orig, w.files[name], true);
      DecryptsAlike(Cipher(oldKey), Cipher(newKey), w0.files[name].orig);
      hide Kept;
      KeptElsewhere(w0, w, w', name);
    }

    /** A file that passes for done is never touched again by a run that reads its journal. */
    lemma {:induction false} DoneIsLeftAlone(trace: seq<World>, k: nat, name: string)
      requires History(trace) && k < |trace| && name in trace[0].files
      requires Journaled(trace[0], name) && trace[0].files[name].tmp.None?
      ensures name in trace[k].files && trace[k].files[name] == trace[0].files[name] && Journaled(trace[k], name)
    {
      hide Next;
      if |trace| > 1 {
        var before := trace[..|trace| - 1];
        if k < |before| {
          DoneIsLeftAlone(before, k, name);
        } else {
          DoneIsLeftAlone(before, k - 1, name);
          DoneStepLeavesAlone(trace[k - 1], trace[k], name);
        }
      }
    }

    lemma DoneStepLeavesAlone(w: World, w': World, name: string)
      requires Next(w, w') && name in w.files && Journaled(w, name) && w.files[name].tmp.None?
      ensures name in w'.files && w'.files[name] == w.files[name] && Journaled(w', name)
    {
      var s :| Enabled(w, s) && w' == After(w, s);
    }

    /** So no later run brings a lost copy back, and the fingerprint certifies a file that cannot be read. */
    lemma LostForGood(w0: World, w: World, name: string, trace: seq<World>, k: nat)
      requires Kept(w0, w) && name in w.files && Journaled(w, name) && w.files[name].tmp.Some? && !Journaled(w0, name)
      requires History(trace) && trace[0] == After(w, SetTmp(name, None)) && k < |trace|
      ensures name in trace[k].files && FileDone(trace[k], name)
      ensures Recovered(trace[k], name) == Recovered(w0, name) <==> KeysAgreeOn(w0.files[name].orig)
      ensures FilesRotated(w0.files, trace[k].files) ==> KeysAgreeOn(w0.files[name].orig)
    {
      hide History, Kept, KeysAgreeOn;
      CopyLost(w0, w, name);
      DoneIsLeftAlone(trace, k, name);
      FileIsKept(w0, w, name);
      DecryptsAlike(Cipher(oldKey), Cipher(newKey), w0.files[name].orig);
      AgreeingDecrypts(w0.files[name].orig);
    }

    /**
     * From the first run on: copy, entry, a crash before the rename; the next run misreads the journal and removes the
     * copy; the one after it finds nothing to do and writes the fingerprint. The file is lost unless the keys agree.
     */
    lemma ALostFile(name: string, file: Bytes, iv: Block) returns (trace: seq<World>)
      requires HasHeader(file) && OldFP() != NewFP()
      ensures |trace| == 5 && trace[0] == World([], [], map[name := File(file, None)], {}, Some(OldFP())) && Fresh(trace[0])
      ensures WildHistory(trace) && History([trace[0], trace[1], trace[2]]) && History([trace[3], trace[4]])
      ensures Journaled(trace[2], name) && name in trace[2].files && trace[3] == trace[2].WithTmp(name, None)
      ensures trace[4].fingerprint == Some(NewFP())
      ensures name in trace[4].files && (Recovered(trace[4], name) == Recovered(trace[0], name) <==> KeysAgreeOn(file))
    {
      var w0 := World([], [], map[name := File(file, None)], {}, Some(OldFP()));
      var copy := EncryptedFile(Cipher(newKey), iv, DecryptedFile(Cipher(oldKey), file));
      FileRoundTrip(Cipher(newKey), iv, DecryptedFile(Cipher(oldKey), file));
      hide EncryptedFile, DecryptedFile, KeysAgreeOn, History, WildHistory, Next, WildNext;
      var w1 := Taken(w0, SetTmp(name, Some(copy)));
      var w2 := Taken(w1, Record(name));
      var w3 := Taken(w2, SetTmp(name, None));
      var w4 := Taken(w3, WriteFingerprint);
      Short(w0, w1, w2, w3, w4);
      KeptElsewhere(w0, w0, w2, name);
      CopyLost(w0, w2, name);
      assert Recovered(w4, name) == Recovered(w3, name);
      trace := [w0, w1, w2, w3, w4];
    }

    lemma Taken(w: World, s: Step) returns (w': World)
      requires Possible(w, s)
      ensures w' == After(w, s) && WildNext(w, w') && (Enabled(w, s) ==> Next(w, w'))
    {
      w' := After(w, s);
    }

    lemma Short(w0: World, w1: World, w2: World, w3: World, w4: World)
      requires Next(w0, w1) && Next(w1, w2) && Next(w3, w4)
      requires WildNext(w0, w1) && WildNext(w1, w2) && WildNext(w2, w3) && WildNext(w3, w4)
      ensures WildHistory([w0, w1, w2, w3, w4]) && History([w0, w1, w2]) && History([w3, w4])
    {
      hide WildNext, Next;
      assert [w0, w1, w2, w3, w4][..4] == [w0, w1, w2, w3] && [w0, w1, w2, w3][..3] == [w0, w1, w2];
      assert [w0, w1, w2][..2] == [w0, w1] && [w0, w1][..1] == [w0] && [w3, w4][..1] == [w3];
      assert WildHistory([w0]) && WildHistory([w0, w1]) && WildHistory([w0, w1, w2]) && WildHistory([w0, w1, w2, w3]);
      assert History([w0]) && History([w0, w1]) && History([w3]);
    }

    lemma FileIsKept(w0: World, w: World, name: string)
      requires Kept(w0, w) && name in w.files
      ensures name in w0.files && FileKept(w0.files[name].orig, w.files[name], Journaled(w, name))
    {}

    lemma AgreeingDecrypts(file: Bytes)
      requires HasHeader(file)
      ensures KeysAgreeOn(file) <==> DecryptedFile(Cipher(oldKey), file) == DecryptedFile(Cipher(newKey), file)
    {
      DecryptsAlike(Cipher(oldKey), Cipher(newKey), file);
    }

    /**
     * The journal query fails for a file that was moved already, and it is re-keyed once more: the plaintext
     * survives exactly if the keys agree on the file as it stands.
     */
    lemma RekeyedTwice(w0: World, w: World, name: string, iv: Block)
      requires Kept(w0, w) && name in w.files && Journaled(w, name) && w.files[name].tmp.None?
      ensures HasHeader(w.files[name].orig)
      ensures var once := w.files[name].orig;
              var twice := EncryptedFile(Cipher(newKey), iv, DecryptedFile(Cipher(oldKey), once));
              var w' := After(After(w, SetTmp(name, Some(twice))), Rename(name));
              FileDone(w', name) && (Kept(w0, w') <==> KeysAgreeOn(once))
    {
      FileIsKept(w0, w, name);
      var once := w.files[name].orig;
      var twice := EncryptedFile(Cipher(newKey), iv, DecryptedFile(Cipher(oldKey), once));
      var w' := After(After(w, SetTmp(name, Some(twice))), Rename(name));
      FileRoundTrip(Cipher(newKey), iv, DecryptedFile(Cipher(oldKey), once));
      AgreeingDecrypts(once);
      assert w'.files == w.files[name := File(twice, None)];
      hide Kept, KeysAgreeOn, EncryptedFile, DecryptedFile;
      KeptElsewhere(w0, w, w', name);
    }

    /**
     * The insert into the journal is applied but reported as failed, and the code removes the copy it just made:
     * the entry is in the journal, no later run looks again, and it is true exactly if the keys agree.
     */
    lemma EntryWithoutCopy(w0: World, w: World, name: string)
      requires Kept(w0, w) && Enabled(w, Record(name)) && !Journaled(w0, name)
      ensures var w' := After(After(w, Record(name)), SetTmp(name, None));
              && FileDone(w', name) && w'.files[name].orig == w0.files[name].orig
              && (Kept(w0, w') <==> KeysAgreeOn(w0.files[name].orig))
    {
      FileIsKept(w0, w, name);
      KeptElsewhere(w0, w, After(w, Record(name)), name);
      CopyLost(w0, After(w, Record(name)), name);
    }

    /** A fingerprint that comes early loses no data, but it is true exactly if every file is done. */
    lemma FingerprintTooEarly(w0: World, w: World)
      requires Kept(w0, w) && Stray(w, WriteFingerprint) && w0.fingerprint != Some(NewFP())
      ensures Kept(w0, After(w, WriteFingerprint))
      ensures Inv(w0, After(w, WriteFingerprint)) <==> FilesDone(w)
    {}

    /**
     * A file under a third key, taken for one under the old key: the copy under the new key holds its plaintext
     * exactly if the old key and the third one cannot be told apart on it.
     */
    lemma WrongOldKey(third: Key, iv: Block, plain: Bytes, newIV: Block)
      ensures var file := EncryptedFile(Cipher(third), iv, plain);
              var copy := EncryptedFile(Cipher(newKey), newIV, DecryptedFile(Cipher(oldKey), file));
              DecryptedFile(Cipher(newKey), copy) == plain <==> StreamsAgree(Cipher(oldKey), Cipher(third), iv, |plain|)
    {
      var file := EncryptedFile(Cipher(third), iv, plain);
      FileRoundTrip(Cipher(newKey), newIV, DecryptedFile(Cipher(oldKey), file));
      FileRoundTrip(Cipher(third), iv, plain);
      assert FileIV(file) == iv && |file| - FILE_HEADER_SIZE == |plain|;
      DecryptsAlike(Cipher(oldKey), Cipher(third), file);
    }
  }

  datatype Step =
    | Rewrite(kind: Kind, i: nat, nonce: Bytes)   // UPDATE of one row
    | SetTmp(name: string, tmp: Option<Bytes>)    // create, extend, damage or remove the temporary file
    | Record(name: string)                        // INSERT into the journal
    | Rename(name: string)                        // the temporary file replaces the original
    | WriteFingerprint
}
