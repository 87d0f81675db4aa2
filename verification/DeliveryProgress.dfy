/** No state of the system is a dead end: from every one of them an outbox can be delivered to its last envelope. */
module DeliveryProgress {
  import opened Common
  import opened MessageTable
  import opened Outbox
  import opened Delivery
  import opened DeliveryRuns

  // ── What single steps do ────────────────────────────────────────────────

  /** Apart from one connection and one device nothing is touched. */
  predicate Elsewhere(s: State, s': State, c: nat) {
    && |s'.conns| == |s.conns| && |s'.devices| == |s.devices| && |s'.writers| == |s.writers|
    && forall i :: 0 <= i < |s.conns| && i != c ==> s'.conns[i] == s.conns[i]
  }

  /**
   * A save that went through is acknowledged once, on the sender's connection, under the id of the request and with the
   * number it was stored under; and the handler is free for the next frame.
   */
  lemma SaveIsAcknowledged(s: State, c: nat, delivered: bool)
    requires Inv(s) && Enabled(s, HandlerReturns(c, delivered)) && s.replies[s.conns[c].handler.ticket].Saved?
    ensures var s', id := Next(s, HandlerReturns(c, delivered)), s.asked[s.conns[c].handler.ticket].id;
            && Find(s.db.rows, id).Some? && Elsewhere(s, s', c) && s'.devices == s.devices && s'.db == s.db
            && s'.conns[c].down == s.conns[c].down
               + [Ack(id, if delivered then Delivered else Sent, Find(s.db.rows, id).value.number)]
            && s'.conns[c].up == s.conns[c].up && s'.conns[c].handler == Idle
            && s'.conns[c].outcomes == s.conns[c].outcomes + [Outcome(id, Find(s.db.rows, id).value.number)]
  {
    hide Find, ConnsOk, DevicesOk, OnePlace, RowsOk;
    assert VerdictTrue(s.db.rows, s.asked[s.conns[c].handler.ticket].id, s.replies[s.conns[c].handler.ticket]);
  }

  /** The save was given up: the queue was full, the answer came too late, or it was a failure. */
  predicate GivesUp(s: State, a: Action, c: nat, id: string) {
    && c < |s.conns|
    && match s.conns[c].handler
       case Idle => false
       case Enqueuing(m) => a == Overload(c) && id == m.id
       case Waiting(t) =>
         && t < |s.asked| && id == s.asked[t].id
         && (a == HandlerTimesOut(c) || (a.HandlerReturns? && a.c == c && t in s.replies && s.replies[t].Failed?))
  }

  /** Every connection of the author hears of it once and nobody else's; only this handler stops waiting. */
  lemma GivingUpIsToldToAll(s: State, a: Action, c: nat, id: string)
    requires GivesUp(s, a, c, id)
    ensures Enabled(s, a)
    ensures var s' := Next(s, a);
            && |s'.conns| == |s.conns| && s'.devices == s.devices && s'.db == s.db && s'.queue == s.queue
            && forall i :: 0 <= i < |s.conns| ==>
                 && s'.conns[i].down == s.conns[i].down
                    + (if s.conns[i].user == s.conns[c].user then [Ack(id, Refused, 0)] else [])
                 && s'.conns[i].handler == (if i == c then Idle else s.conns[i].handler)
                 && s'.conns[i].up == s.conns[i].up && s'.conns[i].user == s.conns[i].user
  {
    assert forall i :: 0 <= i < |s.conns| ==> s.conns[i].down + [] == s.conns[i].down;
  }

  /** A delivery or a reading is told to every connection of the author, and to no other. */
  lemma StatusIsToldToAll(s: State, id: string, read: bool)
    requires Find(s.db.rows, id).Some?
    ensures Enabled(s, StatusAck(id, read))
    ensures var s', row := Next(s, StatusAck(id, read)), Find(s.db.rows, id).value;
            && row.msg.id == id && |s'.conns| == |s.conns| && s' == s.(conns := s'.conns)
            && forall i :: 0 <= i < |s.conns| ==>
                 s'.conns[i] == if s.conns[i].user == row.msg.from
                                then s.conns[i].(down := s.conns[i].down + [Ack(id, if read then Read else Delivered,
                                                                               if read then 0 else row.number)])
                                else s.conns[i]
  {}

  /** The id under which the server deals with a frame. */
  function IdOf(m: Message, gen: string): string {
    if |m.id| > 64 || (m.id == "" && |m.body| <= 4096) then gen else m.id
  }

  /** A frame is refused at once, with one acknowledgement, or it is the handler's, as it came but for its id. */
  lemma FrameIsRefusedOrTaken(s: State, c: nat, refuse: bool, gen: string)
    requires Enabled(s, ReadFrame(c, refuse, gen))
    ensures var s', m := Next(s, ReadFrame(c, refuse, gen)), s.conns[c].up[0];
            && Elsewhere(s, s', c) && s' == s.(conns := s'.conns, made := s'.made) && s'.conns[c].up == s.conns[c].up[1..]
            && s'.conns[c].user == s.conns[c].user
            && (refuse || |m.body| > 4096 ==>
                  s'.conns[c].handler == Idle && s'.conns[c].down == s.conns[c].down + [Ack(IdOf(m, gen), Refused, 0)])
            && (!refuse && |m.body| <= 4096 ==>
                  s'.conns[c].handler == Enqueuing(m.(id := IdOf(m, gen))) && s'.conns[c].down == s.conns[c].down)
  {}

  /** A batch that is stored leaves every id of it in the table, and no row that was there changes. */
  lemma BatchIsStored(s: State, w: nat, at: int, t: nat)
    requires Inv(s) && w < |s.writers| && s.writers[w].flushing && t in s.writers[w].batch
    ensures t < |s.asked| && Enabled(s, StoreBatch(w, at))
    ensures var s' := Next(s, StoreBatch(w, at));
            && s' == s.(db := s'.db) && s.db.rows <= s'.db.rows
            && Find(s'.db.rows, s.asked[t].id).Some?
  {
    hide Find, UpsertAll, Upsert, ConnsOk, DevicesOk, RequestsOk, Firsts;
    BatchIsKnown(s, w);
    var i :| 0 <= i < |s.writers[w].batch| && s.writers[w].batch[i] == t;
    var ms := BatchMessages(s, s.writers[w].batch);
    FirstsIds(ms);
    UpsertAllKeeps(s.db, Firsts(ms), at);
    assert HasId(ms, ms[i].id);
    var k :| 0 <= k < |Firsts(ms)| && Firsts(ms)[k].id == ms[i].id;
    UpsertAllStores(s.db, Firsts(ms), at, k);
  }

  lemma BatchIsKnown(s: State, w: nat)
    requires Inv(s) && w < |s.writers|
    ensures Knows(s, s.writers[w].batch)
  {
    hide RowsOk, RequestsOk, ConnsOk, DevicesOk;
    forall t | t in s.writers[w].batch
      ensures t < |s.asked|
    {
      HeldByWriter(s.writers, w, t);
      assert Places(s, t) == if t < |s.asked| then 1 else 0;
    }
  }

  lemma {:induction false} HeldByWriter(writers: seq<Writer>, w: nat, t: nat)
    requires w < |writers| && t in writers[w].batch
    ensures Held(writers, t) > 0
  {
    if w < |writers| - 1 {
      HeldByWriter(writers[..|writers| - 1], w, t);
    }
  }

  /** A socket that is lost takes the end of what was sent with it, and all that was to come; the outbox stays. */
  lemma DisconnectLosesFrames(s: State, d: nat, arrived: nat)
    requires d < |s.devices| && s.devices[d].socket.Some? && s.devices[d].socket.value < |s.conns|
    requires arrived <= |s.conns[s.devices[d].socket.value].up|
    ensures Enabled(s, Disconnect(d, arrived))
    ensures var s', c := Next(s, Disconnect(d, arrived)), s.devices[d].socket.value;
            && Elsewhere(s, s', c) && s'.devices == s.devices[d := s.devices[d].(socket := None)]
            && s'.conns[c] == s.conns[c].(up := s.conns[c].up[..arrived], down := [])
            && s' == s.(devices := s'.devices, conns := s'.conns)
  {}

  /** A restart loses what was under way; the table, the outboxes and what was told stay. */
  lemma RestartKeepsTheLasting(s: State)
    ensures var s' := Next(s, RestartServer);
            && s'.db == s.db && s'.replies == s.replies && s'.asked == s.asked && s'.queue == []
            && |s'.devices| == |s.devices| && |s'.conns| == |s.conns| && |s'.writers| == |s.writers|
            && (forall d :: 0 <= d < |s.devices| ==> s'.devices[d] == s.devices[d].(socket := None))
            && (forall c :: 0 <= c < |s.conns| ==>
                  s'.conns[c] == Conn(s.conns[c].user, [], [], Idle, s.conns[c].outcomes))
            && (forall w :: 0 <= w < |s.writers| ==> s'.writers[w] == Writer([], false))
  {}

  /** A new socket is given the whole outbox in its order, twice over. */
  lemma ConnectSendsTheOutbox(s: State, d: nat)
    requires d < |s.devices| && s.devices[d].socket.None?
    ensures Enabled(s, Connect(d))
    ensures var s', c := Next(s, Connect(d)), |s.conns|;
            && |s'.conns| == c + 1 && s'.conns[..c] == s.conns && s'.devices == s.devices[d := s.devices[d].(socket := Some(c))]
            && s'.conns[c].up == s.devices[d].pending + s.devices[d].pending
            && s'.conns[c].user == s.devices[d].user && s'.conns[c].handler == Idle && s'.conns[c].down == []
            && s'.queue == s.queue && s'.writers == s.writers && s'.asked == s.asked && s'.replies == s.replies && s'.db == s.db
  {}

  // ── The queue ───────────────────────────────────────────────────────────

  /** The queue holds the latest requests in the order in which they were accepted, so the oldest is taken first. */
  ghost predicate LatestFirstCome(s: State) {
    |s.queue| <= |s.asked| && forall i :: 0 <= i < |s.queue| ==> s.queue[i] == |s.asked| - |s.queue| + i
  }

  lemma {:induction false} QueueIsFirstComeFirstServed(s: State, actions: seq<Action>)
    requires Init(s)
    ensures LatestFirstCome(Run(s, actions))
  {
    hide Init, Next, Enabled;
    if actions == [] {
      EmptyQueue(s);
    } else {
      var init, a := actions[..|actions| - 1], actions[|actions| - 1];
      QueueIsFirstComeFirstServed(s, init);
      if Enabled(Run(s, init), a) {
        QueueStaysInOrder(Run(s, init), a);
      }
    }
  }

  lemma EmptyQueue(s: State)
    requires Init(s)
    ensures LatestFirstCome(s)
  {}

  lemma QueueStaysInOrder(s: State, a: Action)
    requires LatestFirstCome(s) && Enabled(s, a)
    ensures LatestFirstCome(Next(s, a))
  {
    hide Find, Upsert, UpsertAll, Put, Forget, ToAll, Bounded, Named;
  }

  // ── One frame, from the socket to the acknowledgement ───────────────────

  /** A device alone with its connection, and a server with nothing to do. */
  ghost predicate Calm(s: State, d: nat, c: nat) {
    && WellFormed(s.db) && |s.writers| > 0 && s.queue == [] && s.writers[0] == Writer([], false)
    && d < |s.devices| && s.devices[d].socket == Some(c) && c < |s.conns|
    && s.conns[c].handler == Idle && s.conns[c].down == []
  }

  lemma Then(s: State, before: seq<Action>, a: Action) returns (actions: seq<Action>)
    ensures Run(s, actions) == Do(Run(s, before), a)
  {
    RunSnoc(s, before, a);
    actions := before + [a];
  }

  lemma DoEnabled(s: State, a: Action)
    requires Enabled(s, a)
    ensures Do(s, a) == Next(s, a)
  {}

  lemma Enqueues(s: State, c: nat)
    requires c < |s.conns| && s.conns[c].handler.Enqueuing? && s.queue == []
    ensures var s' := Do(s, Enqueue(c));
            && s' == s.(conns := s.conns[c := s.conns[c].(handler := Waiting(|s.asked|))],
                        asked := s.asked + [s.conns[c].handler.msg], queue := [|s.asked|])
  {
    assert [] + [|s.asked|] == [|s.asked|];
  }

  lemma Takes(s: State, t: nat)
    requires s.queue == [t] && |s.writers| > 0 && s.writers[0] == Writer([], false)
    ensures Do(Do(s, Receive(0)), BeginFlush(0)) == s.(queue := [], writers := s.writers[0 := Writer([t], true)])
  {
    var s1 := Do(s, Receive(0));
    assert [] + [t] == [t] && [t][1..] == [];
    assert s1.writers[0] == Writer([t], false);
    assert s.writers[0 := Writer([t], false)][0 := Writer([t], true)] == s.writers[0 := Writer([t], true)];
  }

  lemma Stores(s: State, t: nat)
    requires |s.writers| > 0 && s.writers[0] == Writer([t], true) && t < |s.asked| && WellFormed(s.db)
    ensures var s' := Do(s, StoreOne(0, 0, 0));
            && s' == s.(db := s'.db) && WellFormed(s'.db) && s.db.rows <= s'.db.rows && Find(s'.db.rows, s.asked[t].id).Some?
            && forall i :: |s.db.rows| <= i < |s'.db.rows| ==> s'.db.rows[i].msg == s.asked[t]
  {
    UpsertKeeps(s.db, s.asked[t], 0);
    hide Find, WellFormed;
  }

  lemma Answers(s: State, t: nat)
    requires |s.writers| > 0 && s.writers[0] == Writer([t], true) && t < |s.asked| && Find(s.db.rows, s.asked[t].id).Some?
    ensures Do(s, Answer(0, 0, false))
         == s.(writers := s.writers[0 := Writer([], false)],
               replies := s.replies[t := Saved(Find(s.db.rows, s.asked[t].id).value.number)])
  {
    assert Without([t], 0) == [];
  }

  lemma Returns(s: State, c: nat, t: nat)
    requires c < |s.conns| && s.conns[c].handler == Waiting(t) && t < |s.asked| && t in s.replies && s.replies[t].Saved?
    requires s.conns[c].down == []
    ensures var s' := Do(s, HandlerReturns(c, false));
            && s' == s.(conns := s'.conns) && Elsewhere(s, s', c)
            && s'.conns[c].down == [Ack(s.asked[t].id, Sent, s.replies[t].number)] && s'.conns[c].handler == Idle
            && s'.conns[c].up == s.conns[c].up && s'.conns[c].user == s.conns[c].user
  {}

  lemma TakesAck(s: State, d: nat, c: nat, ack: Ack)
    requires d < |s.devices| && s.devices[d].socket == Some(c) && c < |s.conns| && s.conns[c].down == [ack]
    ensures var s', dev := Do(s, TakeAck(d)), s.devices[d];
            && s' == s.(conns := s'.conns, devices := s'.devices) && Elsewhere(s, s', c)
            && s'.conns[c] == s.conns[c].(down := [])
            && s'.devices == s.devices[d := dev.(pending := Forget(dev.pending, ack.id),
                                                 refused := dev.refused + if ack.status.Refused? then {ack.id} else {})]
  {
    assert [ack][1..] == [] && s.devices[d].refused + {} == s.devices[d].refused;
  }

  /** What a frame's passage leaves: one frame fewer, its id off the outbox, and stored unless it was too long. */
  ghost predicate Passed(s: State, s': State, d: nat, c: nat, gen: string) {
    && Calm(s, d, c) && Calm(s', d, c) && s.conns[c].up != [] && |s'.devices| == |s.devices|
    && var m := s.conns[c].up[0];
       var id := IdOf(m, gen);
       && s'.conns[c].up == s.conns[c].up[1..]
       && s.db.rows <= s'.db.rows
       && (forall i :: |s.db.rows| <= i < |s'.db.rows| ==> s'.db.rows[i].msg == m.(id := id))
       && s'.devices[d].pending == Forget(s.devices[d].pending, id)
       && (if |m.body| > MAX_MESSAGE_RUNES then s'.devices[d].refused == s.devices[d].refused + {id}
           else s'.devices[d].refused == s.devices[d].refused && Find(s'.db.rows, id).Some?)
  }

  lemma TooLongPasses(s: State, d: nat, c: nat, gen: string) returns (actions: seq<Action>)
    requires Calm(s, d, c) && s.conns[c].up != [] && 0 < |gen| <= MAX_ID_BYTES && |s.conns[c].up[0].body| > MAX_MESSAGE_RUNES
    ensures Passed(s, Run(s, actions), d, c, gen)
  {
    hide Run, Do, Next, WellFormed, Find, Forget;
    FrameIsRefusedOrTaken(s, c, false, gen);
    DoEnabled(s, ReadFrame(c, false, gen));
    var s1 := Do(s, ReadFrame(c, false, gen));
    var ack := Ack(IdOf(s.conns[c].up[0], gen), Refused, 0);
    assert s1.conns[c].down == [ack];
    TakesAck(s1, d, c, ack);
    RunSnoc(s, [], ReadFrame(c, false, gen));
    Nowhere(s);
    actions := Then(s, [] + [ReadFrame(c, false, gen)], TakeAck(d));
  }

  lemma Nowhere(s: State)
    ensures Run(s, []) == s
  {}

  /** A frame that the handler has taken, stored and answered. */
  lemma TakenIsStored(s: State, d: nat, c: nat, m: Message) returns (actions: seq<Action>)
    requires WellFormed(s.db) && |s.writers| > 0 && s.queue == [] && s.writers[0] == Writer([], false)
    requires c < |s.conns| && s.conns[c].handler == Enqueuing(m) && s.conns[c].down == []
    ensures var s' := Run(s, actions);
            && WellFormed(s'.db) && s.db.rows <= s'.db.rows && Find(s'.db.rows, m.id).Some?
            && (forall i :: |s.db.rows| <= i < |s'.db.rows| ==> s'.db.rows[i].msg == m)
            && Elsewhere(s, s', c) && s'.devices == s.devices && s'.queue == [] && s'.writers[0] == Writer([], false)
            && s'.conns[c].up == s.conns[c].up && s'.conns[c].user == s.conns[c].user && s'.conns[c].handler == Idle
            && s'.conns[c].down == [Ack(m.id, Sent, Find(s'.db.rows, m.id).value.number)]
  {
    hide Run, Do, Next, WellFormed, Find;
    var t := |s.asked|;
    Nowhere(s);
    Enqueues(s, c);
    actions := Then(s, [], Enqueue(c));
    Takes(Run(s, actions), t);
    actions := Then(s, actions, Receive(0));
    actions := Then(s, actions, BeginFlush(0));
    Stores(Run(s, actions), t);
    actions := Then(s, actions, StoreOne(0, 0, 0));
    Answers(Run(s, actions), t);
    actions := Then(s, actions, Answer(0, 0, false));
    Returns(Run(s, actions), c, t);
    actions := Then(s, actions, HandlerReturns(c, false));
  }

  lemma FittingPasses(s: State, d: nat, c: nat, gen: string) returns (actions: seq<Action>)
    requires Calm(s, d, c) && s.conns[c].up != [] && 0 < |gen| <= MAX_ID_BYTES && |s.conns[c].up[0].body| <= MAX_MESSAGE_RUNES
    ensures Passed(s, Run(s, actions), d, c, gen)
  {
    hide Run, Do, Next, WellFormed, Find, Forget;
    var m := s.conns[c].up[0].(id := IdOf(s.conns[c].up[0], gen));
    Nowhere(s);
    FrameIsRefusedOrTaken(s, c, false, gen);
    DoEnabled(s, ReadFrame(c, false, gen));
    var first := Then(s, [], ReadFrame(c, false, gen));
    var s1 := Run(s, first);
    var rest := TakenIsStored(s1, d, c, m);
    RunConcat(s, first, rest);
    var s2 := Run(s, first + rest);
    TakesAck(s2, d, c, s2.conns[c].down[0]);
    actions := Then(s, first + rest, TakeAck(d));
  }

  // ── The whole outbox ────────────────────────────────────────────────────

  /** The ids under which frames that are too long are refused. */
  function TooLong(frames: seq<Message>, gen: string): set<string> {
    set m | m in frames && |m.body| > MAX_MESSAGE_RUNES :: IdOf(m, gen)
  }

  predicate OwnId(m: Message) {
    0 < |m.id| <= MAX_ID_BYTES
  }

  /** Off the outbox, and in the table or refused for its length. */
  predicate Settled(rows: seq<Row>, dev: Device, m: Message) {
    !HasId(dev.pending, m.id) && if |m.body| <= MAX_MESSAGE_RUNES then Find(rows, m.id).Some? else m.id in dev.refused
  }

  /** What became of the frames. */
  ghost predicate Drained(s: State, s': State, d: nat, c: nat, gen: string) {
    && Calm(s, d, c) && Calm(s', d, c) && s'.conns[c].up == [] && s.db.rows <= s'.db.rows && |s'.devices| == |s.devices|
    && (forall m | m in s.conns[c].up && OwnId(m) :: Settled(s'.db.rows, s'.devices[d], m))
    && (forall m | m in s'.devices[d].pending :: m in s.devices[d].pending)
    && s.devices[d].refused <= s'.devices[d].refused <= s.devices[d].refused + TooLong(s.conns[c].up, gen)
    && (forall i :: |s.db.rows| <= i < |s'.db.rows| ==> FromFrames(s.conns[c].up, gen, s'.db.rows[i].msg))
  }

  ghost predicate FromFrames(frames: seq<Message>, gen: string, stored: Message) {
    exists m :: m in frames && stored == m.(id := IdOf(m, gen))
  }

  lemma NoFrames(s: State, d: nat, c: nat, gen: string)
    requires Calm(s, d, c) && s.conns[c].up == []
    ensures Drained(s, s, d, c, gen)
  {}

  lemma OwnIdStays(m: Message, gen: string)
    requires OwnId(m)
    ensures IdOf(m, gen) == m.id && m.(id := m.id) == m
  {}

  /** What is settled stays settled while the rest passes. */
  lemma StaysSettled(s1: State, s2: State, d: nat, m: Message)
    requires d < |s1.devices| == |s2.devices| && WellFormed(s2.db) && s1.db.rows <= s2.db.rows
    requires Settled(s1.db.rows, s1.devices[d], m) && s1.devices[d].refused <= s2.devices[d].refused
    requires forall x | x in s2.devices[d].pending :: x in s1.devices[d].pending
    ensures Settled(s2.db.rows, s2.devices[d], m)
  {
    hide Find;
    if |m.body| <= MAX_MESSAGE_RUNES {
      FindStays(s1.db.rows, s2.db.rows, m.id);
    }
    forall i | 0 <= i < |s2.devices[d].pending|
      ensures s2.devices[d].pending[i] in s1.devices[d].pending
    {}
  }

  lemma FirstIsSettled(s: State, s1: State, d: nat, c: nat, gen: string)
    requires Passed(s, s1, d, c, gen)
    ensures OwnId(s.conns[c].up[0]) ==> Settled(s1.db.rows, s1.devices[d], s.conns[c].up[0])
    ensures forall m | m in s1.devices[d].pending :: m in s.devices[d].pending
  {
    hide Find, WellFormed, Forget;
    var m := s.conns[c].up[0];
    ForgetHas(s.devices[d].pending, IdOf(m, gen), m.id);
  }

  lemma DrainedOn(s: State, s1: State, s2: State, d: nat, c: nat, gen: string)
    requires Passed(s, s1, d, c, gen) && Drained(s1, s2, d, c, gen)
    ensures Drained(s, s2, d, c, gen)
  {
    var up, dev := s.conns[c].up, s.devices[d];
    assert up == [up[0]] + up[1..] && up[0] in up;
    FirstIsSettled(s, s1, d, c, gen);
    hide Find, WellFormed, Settled, Forget, Elsewhere;
    forall m | m in up && OwnId(m)
      ensures Settled(s2.db.rows, s2.devices[d], m)
    {
      if m in up[1..] {
      } else {
        StaysSettled(s1, s2, d, m);
      }
    }
    RowsFromFrames(s, s1, s2, d, c, gen);
    assert TooLong(up[1..], gen) <= TooLong(up, gen);
  }

  lemma RowsFromFrames(s: State, s1: State, s2: State, d: nat, c: nat, gen: string)
    requires Passed(s, s1, d, c, gen) && Drained(s1, s2, d, c, gen)
    ensures s.db.rows <= s2.db.rows
    ensures forall i :: |s.db.rows| <= i < |s2.db.rows| ==> FromFrames(s.conns[c].up, gen, s2.db.rows[i].msg)
  {
    hide Find, WellFormed, Settled, Forget, Elsewhere;
    var up := s.conns[c].up;
    forall i | |s.db.rows| <= i < |s2.db.rows|
      ensures FromFrames(up, gen, s2.db.rows[i].msg)
    {
      if i < |s1.db.rows| {
        assert s2.db.rows[i] == s1.db.rows[i] && up[0] in up;
      } else {
        var m :| m in up[1..] && s2.db.rows[i].msg == m.(id := IdOf(m, gen));
        assert m in up;
      }
    }
  }

  lemma {:induction false} FramesCanPass(s: State, d: nat, c: nat, gen: string) returns (actions: seq<Action>)
    requires Calm(s, d, c) && 0 < |gen| <= MAX_ID_BYTES
    ensures Drained(s, Run(s, actions), d, c, gen)
    decreases |s.conns[c].up|
  {
    hide Run, Drained, Settled, FromFrames, WellFormed, Find, Forget;
    actions := [];
    Nowhere(s);
    if s.conns[c].up == [] {
      NoFrames(s, d, c, gen);
    } else {
      var first;
      if |s.conns[c].up[0].body| > MAX_MESSAGE_RUNES {
        first := TooLongPasses(s, d, c, gen);
      } else {
        first := FittingPasses(s, d, c, gen);
      }
      var s1 := Run(s, first);
      var rest := FramesCanPass(s1, d, c, gen);
      RunConcat(s, first, rest);
      DrainedOn(s, s1, Run(s1, rest), d, c, gen);
      actions := first + rest;
    }
  }

  /** A restarted server and a fresh socket: everybody is calm, and the outbox is on its way. */
  lemma AfterARestart(s: State, d: nat) returns (actions: seq<Action>)
    requires WellFormed(s.db) && |s.writers| > 0 && d < |s.devices|
    ensures var s', c := Run(s, actions), |s.conns|;
            && Calm(s', d, c) && s'.conns[c].up == s.devices[d].pending + s.devices[d].pending && s'.db == s.db
            && s'.devices[d] == s.devices[d].(socket := Some(c)) && |s'.devices| == |s.devices|
  {
    hide Run, Do, Next, WellFormed, Find;
    Nowhere(s);
    DoEnabled(s, RestartServer);
    RestartKeepsTheLasting(s);
    actions := Then(s, [], RestartServer);
    var s1 := Run(s, actions);
    DoEnabled(s1, Connect(d));
    ConnectSendsTheOutbox(s1, d);
    actions := Then(s, actions, Connect(d));
  }

  /**
   * Wherever the system has got to, it can go on so that the outbox of a device is delivered: every envelope with an id
   * of its own is off it and in the table, or refused for its length and nothing else; only envelopes whose ids the
   * server replaces are left; and nothing came into the table but what the outbox held.
   */
  lemma OutboxCanBeDelivered(s: State, d: nat, gen: string) returns (actions: seq<Action>)
    requires WellFormed(s.db) && |s.writers| > 0 && d < |s.devices| && 0 < |gen| <= MAX_ID_BYTES
    ensures var s', pending := Run(s, actions), s.devices[d].pending;
            && |s'.devices| == |s.devices| && s.db.rows <= s'.db.rows
            && (forall m | m in pending && OwnId(m) :: Settled(s'.db.rows, s'.devices[d], m))
            && (forall m | m in s'.devices[d].pending :: m in pending && !OwnId(m))
            && s'.devices[d].refused <= s.devices[d].refused + TooLong(pending, gen)
            && forall i :: |s.db.rows| <= i < |s'.db.rows| ==> FromFrames(pending, gen, s'.db.rows[i].msg)
  {
    hide Run, WellFormed, Find, FromFrames;
    var first := AfterARestart(s, d);
    var s1, c := Run(s, first), |s.conns|;
    var rest := FramesCanPass(s1, d, c, gen);
    RunConcat(s, first, rest);
    actions := first + rest;
    var pending := s.devices[d].pending;
    assert forall m :: m in pending + pending <==> m in pending;
    assert TooLong(pending + pending, gen) == TooLong(pending, gen);
    SameFrames(pending + pending, pending, gen);
    var dev := Run(s1, rest).devices[d];
    forall m | m in dev.pending
      ensures !OwnId(m)
    {
      var i :| 0 <= i < |dev.pending| && dev.pending[i] == m;
      assert HasId(dev.pending, m.id);
    }
  }

  lemma SameFrames(a: seq<Message>, b: seq<Message>, gen: string)
    requires forall m :: m in a <==> m in b
    ensures forall x :: FromFrames(a, gen, x) <==> FromFrames(b, gen, x)
  {}

  /** From a fresh server on: an envelope is written offline, sent, stored as it is, acknowledged and off the outbox. */
  lemma DeliveredReachable(s: State, e: Message, gen: string) returns (actions: seq<Action>)
    requires Plain(s, e) && Find(s.db.rows, e.id).None? && 0 < |gen| <= MAX_ID_BYTES
    ensures var s' := Run(s, actions);
            && |s'.devices| == |s.devices| && (forall m :: m !in s'.devices[0].pending) && e.id !in s'.devices[0].refused
            && Find(s'.db.rows, e.id).Some? && Find(s'.db.rows, e.id).value.msg == e
  {
    hide Run, WellFormed, Find;
    assert s.devices[0] in s.devices && InitDevice(s, s.devices[0]);
    Nowhere(s);
    ComposedOffline(s, e);
    var first := Then(s, [], Compose(0, e, true));
    var s1 := Run(s, first);
    var rest := OutboxCanBeDelivered(s1, 0, gen);
    RunConcat(s, first, rest);
    actions := first + rest;
    var s2 := Run(s1, rest);
    assert e in s1.devices[0].pending && OwnId(e);
    assert TooLong([e], gen) == {};
    assert forall m | m in s2.devices[0].pending :: m == e;
    StoredIsThis(s.db.rows, s2.db.rows, e, gen);
  }

  lemma ComposedOffline(s: State, e: Message)
    requires |s.devices| > 0 && s.devices[0].socket.None? && s.devices[0].pending == [] && e.from == s.devices[0].user
    ensures var s', dev := Do(s, Compose(0, e, true)), s.devices[0];
            && s'.devices == s.devices[0 := dev.(pending := [e], recorded := dev.recorded + {e.id})]
            && s'.db == s.db && s'.writers == s.writers
  {}

  lemma StoredIsThis(rows: seq<Row>, more: seq<Row>, e: Message, gen: string)
    requires rows <= more && Find(rows, e.id).None? && Find(more, e.id).Some? && OwnId(e)
    requires forall i :: |rows| <= i < |more| ==> FromFrames([e], gen, more[i].msg)
    ensures Find(more, e.id).value.msg == e
  {
    forall k | 0 <= k < |rows|
      ensures more[k].msg.id != e.id
    {
      assert rows[k] in rows;
    }
    var i :| 0 <= i < |more| && more[i] == Find(more, e.id).value;
    OwnIdStays(e, gen);
  }
}
