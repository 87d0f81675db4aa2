/** A run of the whole system, from its start, in which a refusal is overtaken by the table. */
module DeliveryRuns {
  import opened Common
  import opened MessageTable
  import opened Outbox
  import opened Delivery

  lemma RunSnoc(s: State, actions: seq<Action>, a: Action)
    ensures Run(s, actions + [a]) == Do(Run(s, actions), a)
  {
    assert (actions + [a])[..|actions|] == actions;
  }

  lemma {:induction false} RunConcat(s: State, a: seq<Action>, b: seq<Action>)
    ensures Run(s, a + b) == Run(Run(s, a), b)
  {
    if b == [] {
      assert a + b == a;
    } else {
      assert (a + b)[..|a + b| - 1] == a + b[..|b| - 1];
      RunConcat(s, a, b[..|b| - 1]);
    }
  }

  lemma RunOfThree(s: State, a: Action, b: Action, c: Action)
    ensures Run(s, [a, b, c]) == Do(Do(Do(s, a), b), c)
  {
    hide Do;
    RunSnoc(s, [], a);
    RunSnoc(s, [a], b);
    RunSnoc(s, [a, b], c);
    assert [] + [a] == [a] && [a] + [b] == [a, b] && [a, b] + [c] == [a, b, c];
  }

  /** A fresh server, a device with an empty outbox, and an envelope the server has nothing against. */
  ghost predicate Plain(s: State, e: Message) {
    && Init(s) && |s.devices| > 0 && |s.writers| > 0 && s.devices[0].pending == []
    && e.from == s.devices[0].user && 0 < |e.id| <= MAX_ID_BYTES && |e.body| <= MAX_MESSAGE_RUNES
  }

  /** The server has done nothing yet. */
  predicate Untouched(s: State, s': State) {
    s'.queue == s.queue && s'.asked == s.asked && s'.writers == s.writers && s'.replies == s.replies && s'.db == s.db
  }

  lemma Connected(s: State)
    requires |s.devices| > 0 && s.devices[0].socket.None? && s.devices[0].pending == [] && s.conns == []
    ensures var s' := Do(s, Connect(0));
            && s'.conns == [Conn(s.devices[0].user, [], [], Idle, [])] && |s'.devices| == |s.devices|
            && s'.devices[0] == s.devices[0].(socket := Some(0)) && Untouched(s, s')
  {
    var dev, s' := s.devices[0], Do(s, Connect(0));
    assert dev.pending + dev.pending == [];
    assert s'.conns[0] == Conn(dev.user, [], [], Idle, []) && |s'.conns| == 1;
  }

  lemma Composed(s: State, e: Message)
    requires |s.devices| > 0 && s.devices[0].socket == Some(0) && e.from == s.devices[0].user
    requires s.conns == [Conn(s.devices[0].user, [], [], Idle, [])]
    ensures var s' := Do(s, Compose(0, e, true));
            s'.conns == [Conn(s.devices[0].user, [e], [], Idle, [])] && Untouched(s, s')
  {
    hide Put;
    var s' := Do(s, Compose(0, e, true));
    assert [] + [e] == [e];
    assert |s'.conns| == 1 && s'.conns[0] == Conn(s.devices[0].user, [e], [], Idle, []);
  }

  lemma Received(s: State, e: Message, user: string)
    requires s.conns == [Conn(user, [e], [], Idle, [])] && 0 < |e.id| <= MAX_ID_BYTES && |e.body| <= MAX_MESSAGE_RUNES
    ensures var s' := Do(s, ReadFrame(0, false, "x"));
            s'.conns == [Conn(user, [], [], Enqueuing(e), [])] && Untouched(s, s')
  {
    var s' := Do(s, ReadFrame(0, false, "x"));
    assert [e][1..] == [] && Named(Bounded(e, "x"), "x") == e;
    assert |s'.conns| == 1 && s'.conns[0] == Conn(user, [], [], Enqueuing(e), []);
  }

  /** The envelope reaches the handler. */
  lemma Arrives(s: State, e: Message)
    requires Plain(s, e)
    ensures var s' := Run(s, [Connect(0), Compose(0, e, true), ReadFrame(0, false, "x")]);
            s'.conns == [Conn(s.devices[0].user, [], [], Enqueuing(e), [])] && Untouched(s, s')
  {
    assert s.devices[0] in s.devices && InitDevice(s, s.devices[0]);
    RunOfThree(s, Connect(0), Compose(0, e, true), ReadFrame(0, false, "x"));
    hide Run, Do, Find, Init;
    Connected(s);
    var s1 := Do(s, Connect(0));
    Composed(s1, e);
    Received(Do(s1, Compose(0, e, true)), e, s.devices[0].user);
  }

  /** The handler queues it, and a writer takes it into a batch. */
  lemma IsTaken(s: State, e: Message, user: string)
    requires s.conns == [Conn(user, [], [], Enqueuing(e), [])] && s.queue == [] && s.asked == []
    requires |s.writers| > 0 && s.writers[0] == Writer([], false)
    ensures var s' := Run(s, [Enqueue(0), Receive(0), BeginFlush(0)]);
            && s'.asked == [e] && |s'.conns| == 1 && s'.conns[0].handler == Waiting(0)
            && |s'.writers| == |s.writers| && s'.writers[0] == Writer([0], true)
  {
    RunOfThree(s, Enqueue(0), Receive(0), BeginFlush(0));
    hide Run, Do, Find;
    var s1 := Do(s, Enqueue(0));
    Enqueued(s, e, user);
    Batched(s1);
  }

  lemma Enqueued(s: State, e: Message, user: string)
    requires s.conns == [Conn(user, [], [], Enqueuing(e), [])] && s.queue == [] && s.asked == []
    ensures var s' := Do(s, Enqueue(0));
            && s'.asked == [e] && s'.queue == [0] && s'.writers == s.writers
            && |s'.conns| == 1 && s'.conns[0].handler == Waiting(0)
  {}

  lemma Batched(s: State)
    requires s.queue == [0] && |s.writers| > 0 && s.writers[0] == Writer([], false)
    ensures var s' := Do(Do(s, Receive(0)), BeginFlush(0));
            && s'.asked == s.asked && s'.conns == s.conns
            && |s'.writers| == |s.writers| && s'.writers[0] == Writer([0], true)
  {
    assert Do(s, Receive(0)).writers[0] == Writer([0], false);
  }

  /** The handler waits for a request that is in a batch being written. */
  ghost predicate BeingWritten(s: State, e: Message) {
    && Inv(s) && s.asked == [e] && |s.conns| == 1 && s.conns[0].handler == Waiting(0)
    && |s.writers| > 0 && s.writers[0] == Writer([0], true)
  }

  lemma BeingWrittenReachable(s: State, e: Message) returns (actions: seq<Action>)
    requires Plain(s, e)
    ensures BeingWritten(Run(s, actions), e)
  {
    hide Run, Do, Inv, Find;
    var first := [Connect(0), Compose(0, e, true), ReadFrame(0, false, "x")];
    var second := [Enqueue(0), Receive(0), BeginFlush(0)];
    Arrives(s, e);
    InitInv(s);
    assert s.writers[0] in s.writers;
    hide Init, InitDevice, Plain;
    RunKeeps(s, first);
    IsTaken(Run(s, first), e, s.devices[0].user);
    RunKeeps(Run(s, first), second);
    RunConcat(s, first, second);
    actions := first + second;
  }

  /** Sent, accepted, refused for taking too long, and stored after all. */
  lemma TimedOutReachable(s: State, e: Message, at: int) returns (actions: seq<Action>)
    requires Plain(s, e)
    ensures var s' := Run(s, actions);
            |s'.conns| == 1 && Ack(e.id, Refused, 0) in s'.conns[0].down && Find(s'.db.rows, e.id).Some?
  {
    hide Run, Do, Inv, Find, Init, InitDevice, Plain;
    var before := BeingWrittenReachable(s, e);
    var s1 := Run(s, before);
    TimedOutYetStored(s1, 0, 0, 0, at);
    SameConns(s1, HandlerTimesOut(0), StoreOne(0, 0, at));
    RunConcat(s, before, [HandlerTimesOut(0), StoreOne(0, 0, at)]);
    actions := before + [HandlerTimesOut(0), StoreOne(0, 0, at)];
  }

  lemma SameConns(s: State, a: Action, b: Action)
    requires a.HandlerTimesOut? && b.StoreOne?
    ensures |Run(s, [a, b]).conns| == |s.conns|
  {
    hide Upsert, Find;
    RunSnoc(s, [], a);
    RunSnoc(s, [a], b);
    assert [] + [a] == [a] && [a] + [b] == [a, b] && Run(s, []) == s;
    hide Run;
    assert |Do(s, a).conns| == |s.conns|;
  }
}
