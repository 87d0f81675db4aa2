/**
 * End-to-end delivery: the client's persistent outbox (web/js/transport.js), the connection handlers and their
 * acknowledgements (server/ws.go) and the writers (server/msgwriter.go) as one system of interleaved steps.
 */
module Delivery {
  import opened Common
  import opened MessageTable
  import opened Outbox

  const MAX_ID_BYTES := 64
  const MAX_MESSAGE_RUNES := 4096
  const QUEUE_CAP := 4096

  datatype Status = Sent | Delivered | Read | Refused

  datatype Ack = Ack(id: string, status: Status, number: nat)

  /** What a writer puts into a reply channel. */
  datatype Verdict = Saved(number: nat) | Failed

  /** A connection's goroutine reads no further frame until the save of the current one is over. */
  datatype Handler = Idle | Enqueuing(msg: Message) | Waiting(ticket: nat)

  datatype Outcome = Outcome(id: string, number: nat)

  /** Frames on their way in both directions, and the saves the handler has seen through. */
  datatype Conn = Conn(user: string, up: seq<Message>, down: seq<Ack>, handler: Handler, outcomes: seq<Outcome>)

  /** `pending` outlives a reload; `recorded` and `refused` remember every id queued and every refusal shown. */
  datatype Device = Device(
    user: string, socket: Option<nat>, pending: seq<Message>, recorded: set<string>, refused: set<string>)

  datatype Writer = Writer(batch: seq<nat>, flushing: bool)

  /**
   * Save requests are numbered by acceptance: `asked[t]` is the message of ticket `t`, and queue, batches and
   * replies hold tickets; `dropped` are those a restart of the server took with it. `composed` and `made` remember
   * the envelopes queued and the ids the server made up; `base` is the number of rows there were before.
   */
  datatype State = State(
    devices: seq<Device>, conns: seq<Conn>,
    asked: seq<Message>, queue: seq<nat>, writers: seq<Writer>, replies: map<nat, Verdict>, dropped: set<nat>,
    db: Db, composed: set<Message>, made: set<string>, base: nat)

  datatype Action =
    | Compose(d: nat, e: Message, kept: bool)
    | Connect(d: nat)
    | Disconnect(d: nat, arrived: nat)
    | TakeAck(d: nat)
    | ReadFrame(c: nat, refuse: bool, gen: string)
    | Enqueue(c: nat)
    | Overload(c: nat)
    | HandlerReturns(c: nat, delivered: bool)
    | HandlerTimesOut(c: nat)
    | Receive(w: nat)
    | BeginFlush(w: nat)
    | StoreBatch(w: nat, at: int)
    | StoreOne(w: nat, i: nat, at: int)
    | BurnNumber
    | Answer(w: nat, i: nat, failed: bool)
    | StatusAck(id: string, read: bool)
    | RestartServer

  // ── The server ──────────────────────────────────────────────────────────

  /** A client-supplied id is bounded; one that is too long is replaced. */
  function Bounded(m: Message, gen: string): Message {
    if |m.id| > MAX_ID_BYTES then m.(id := gen) else m
  }

  function Named(m: Message, gen: string): Message {
    if m.id == "" then m.(id := gen) else m
  }

  function Push(c: Conn, ack: Ack): Conn {
    c.(down := c.down + [ack])
  }

  /** sendACKToAll: every connection of the user. */
  function ToAll(conns: seq<Conn>, user: string, ack: Ack): seq<Conn> {
    seq(|conns|, i requires 0 <= i < |conns| => if conns[i].user == user then Push(conns[i], ack) else conns[i])
  }

  function BatchMessages(s: State, batch: seq<nat>): seq<Message>
    requires forall t | t in batch :: t < |s.asked|
  {
    seq(|batch|, i requires 0 <= i < |batch| => assert batch[i] in batch; s.asked[batch[i]])
  }

  function Without(batch: seq<nat>, i: nat): seq<nat>
    requires i < |batch|
  {
    batch[..i] + batch[i + 1..]
  }

  // ── Steps ───────────────────────────────────────────────────────────────

  predicate Online(s: State, d: nat) {
    d < |s.devices| && s.devices[d].socket.Some? && s.devices[d].socket.value < |s.conns|
  }

  predicate Knows(s: State, batch: seq<nat>) {
    forall t | t in batch :: t < |s.asked|
  }

  predicate Enabled(s: State, a: Action) {
    match a
    case Compose(d, e, _) => d < |s.devices| && e.from == s.devices[d].user
    case Connect(d) => d < |s.devices| && s.devices[d].socket.None?
    case Disconnect(d, arrived) => Online(s, d) && arrived <= |s.conns[s.devices[d].socket.value].up|
    case TakeAck(d) => Online(s, d) && s.conns[s.devices[d].socket.value].down != []
    case ReadFrame(c, _, gen) =>
      c < |s.conns| && s.conns[c].handler.Idle? && s.conns[c].up != [] && 0 < |gen| <= MAX_ID_BYTES
    case Enqueue(c) => c < |s.conns| && s.conns[c].handler.Enqueuing? && |s.queue| < QUEUE_CAP
    case Overload(c) => c < |s.conns| && s.conns[c].handler.Enqueuing?
    case HandlerReturns(c, _) =>
      c < |s.conns| && s.conns[c].handler.Waiting? && s.conns[c].handler.ticket < |s.asked|
      && s.conns[c].handler.ticket in s.replies
    case HandlerTimesOut(c) =>
      c < |s.conns| && s.conns[c].handler.Waiting? && s.conns[c].handler.ticket < |s.asked|
    case Receive(w) =>
      w < |s.writers| && !s.writers[w].flushing && |s.writers[w].batch| < BATCH_MAX_ROWS && s.queue != []
    case BeginFlush(w) => w < |s.writers| && !s.writers[w].flushing && s.writers[w].batch != []
    case StoreBatch(w, _) => w < |s.writers| && s.writers[w].flushing && Knows(s, s.writers[w].batch)
    case StoreOne(w, i, _) =>
      w < |s.writers| && s.writers[w].flushing && i < |s.writers[w].batch| && s.writers[w].batch[i] < |s.asked|
    case BurnNumber => true
    case Answer(w, i, failed) =>
      w < |s.writers| && s.writers[w].flushing && i < |s.writers[w].batch| && s.writers[w].batch[i] < |s.asked|
      && (failed || Find(s.db.rows, s.asked[s.writers[w].batch[i]].id).Some?)
    case StatusAck(id, _) => Find(s.db.rows, id).Some?
    case RestartServer => true
  }

  function WithConn(s: State, c: nat, conn: Conn): State
    requires c < |s.conns|
  {
    s.(conns := s.conns[c := conn])
  }

  function WithDevice(s: State, d: nat, device: Device): State
    requires d < |s.devices|
  {
    s.(devices := s.devices[d := device])
  }

  function ComposeStep(s: State, d: nat, e: Message, kept: bool): State
    requires d < |s.devices|
  {
    var dev := s.devices[d];
    var recorded := if kept then dev.(pending := Put(dev.pending, e), recorded := dev.recorded + {e.id}) else dev;
    var s1 := WithDevice(s, d, recorded).(composed := s.composed + {e});
    if Online(s, d) then
      var c := dev.socket.value;
      WithConn(s1, c, s.conns[c].(up := s.conns[c].up + [e]))
    else s1
  }

  /** onopen hands everything pending to the socket, once in _flushOutbox and once more on its own. */
  function ConnectStep(s: State, d: nat): State
    requires d < |s.devices|
  {
    var dev := s.devices[d];
    WithDevice(s, d, dev.(socket := Some(|s.conns|)))
      .(conns := s.conns + [Conn(dev.user, dev.pending + dev.pending, [], Idle, [])])
  }

  function TakeAckStep(s: State, d: nat): State
    requires Online(s, d) && s.conns[s.devices[d].socket.value].down != []
  {
    var dev := s.devices[d];
    var c := dev.socket.value;
    var ack := s.conns[c].down[0];
    var refused := if ack.status.Refused? then dev.refused + {ack.id} else dev.refused;
    WithDevice(WithConn(s, c, s.conns[c].(down := s.conns[c].down[1..])), d,
               dev.(pending := Forget(dev.pending, ack.id), refused := refused))
  }

  function ReadStep(s: State, c: nat, refuse: bool, gen: string): State
    requires c < |s.conns| && s.conns[c].up != []
  {
    var conn := s.conns[c].(up := s.conns[c].up[1..]);
    var bounded := Bounded(s.conns[c].up[0], gen);
    var own := 0 < |s.conns[c].up[0].id| <= MAX_ID_BYTES;
    var s1 := if own then s else s.(made := s.made + {gen});
    if |bounded.body| > MAX_MESSAGE_RUNES then WithConn(s1, c, Push(conn, Ack(bounded.id, Refused, 0)))
    else
      var msg := Named(bounded, gen);
      if refuse then WithConn(s1, c, Push(conn, Ack(msg.id, Refused, 0)))
      else WithConn(s1, c, conn.(handler := Enqueuing(msg)))
  }

  function EnqueueStep(s: State, c: nat): State
    requires c < |s.conns| && s.conns[c].handler.Enqueuing?
  {
    WithConn(s, c, s.conns[c].(handler := Waiting(|s.asked|)))
      .(asked := s.asked + [s.conns[c].handler.msg], queue := s.queue + [|s.asked|])
  }

  /** The save failed or took too long: every connection of the author hears "failed". */
  function GiveUp(s: State, c: nat, id: string): State
    requires c < |s.conns|
  {
    WithConn(s, c, s.conns[c].(handler := Idle))
      .(conns := ToAll(s.conns[c := s.conns[c].(handler := Idle)], s.conns[c].user, Ack(id, Refused, 0)))
  }

  function ReturnStep(s: State, c: nat, delivered: bool): State
    requires Enabled(s, HandlerReturns(c, delivered))
  {
    var t := s.conns[c].handler.ticket;
    var id := s.asked[t].id;
    match s.replies[t]
    case Failed => GiveUp(s, c, id)
    case Saved(number) =>
      var conn := s.conns[c].(handler := Idle, outcomes := s.conns[c].outcomes + [Outcome(id, number)]);
      WithConn(s, c, Push(conn, Ack(id, if delivered then Delivered else Sent, number)))
  }

  /** Sockets, handlers, the queue and the batches are gone; the table and the outboxes remain. */
  function RestartStep(s: State): State {
    s.(devices := seq(|s.devices|, i requires 0 <= i < |s.devices| => s.devices[i].(socket := None)),
       conns := seq(|s.conns|, i requires 0 <= i < |s.conns| => s.conns[i].(up := [], down := [], handler := Idle)),
       queue := [],
       writers := seq(|s.writers|, i requires 0 <= i < |s.writers| => Writer([], false)),
       dropped := s.dropped + set t: nat | 0 <= t < |s.asked| && t !in s.replies)
  }

  function AnswerStep(s: State, w: nat, i: nat, failed: bool): State
    requires Enabled(s, Answer(w, i, failed))
  {
    var t := s.writers[w].batch[i];
    var rest := Without(s.writers[w].batch, i);
    var verdict := if failed then Failed else Saved(Find(s.db.rows, s.asked[t].id).value.number);
    s.(writers := s.writers[w := Writer(rest, rest != [])], replies := s.replies[t := verdict])
  }

  function Next(s: State, a: Action): State
    requires Enabled(s, a)
  {
    match a
    case Compose(d, e, kept) => ComposeStep(s, d, e, kept)
    case Connect(d) => ConnectStep(s, d)
    case Disconnect(d, arrived) =>
      var c := s.devices[d].socket.value;
      WithDevice(WithConn(s, c, s.conns[c].(up := s.conns[c].up[..arrived], down := [])), d,
                 s.devices[d].(socket := None))
    case TakeAck(d) => TakeAckStep(s, d)
    case ReadFrame(c, refuse, gen) => ReadStep(s, c, refuse, gen)
    case Enqueue(c) => EnqueueStep(s, c)
    case Overload(c) => GiveUp(s, c, s.conns[c].handler.msg.id)
    case HandlerReturns(c, delivered) => ReturnStep(s, c, delivered)
    case HandlerTimesOut(c) => GiveUp(s, c, s.asked[s.conns[c].handler.ticket].id)
    case Receive(w) =>
      s.(queue := s.queue[1..], writers := s.writers[w := Writer(s.writers[w].batch + [s.queue[0]], false)])
    case BeginFlush(w) => s.(writers := s.writers[w := s.writers[w].(flushing := true)])
    case StoreBatch(w, at) => s.(db := UpsertAll(s.db, Firsts(BatchMessages(s, s.writers[w].batch)), at))
    case StoreOne(w, i, at) => s.(db := Upsert(s.db, s.asked[s.writers[w].batch[i]], at))
    case BurnNumber => s.(db := s.db.(next := s.db.next + 1))
    case Answer(w, i, failed) => AnswerStep(s, w, i, failed)
    case StatusAck(id, read) =>
      var row := Find(s.db.rows, id).value;
      s.(conns := ToAll(s.conns, row.msg.from, if read then Ack(id, Read, 0) else Ack(id, Delivered, row.number)))
    case RestartServer => RestartStep(s)
  }

  /** A run: steps that are not enabled do nothing. */
  function Run(s: State, actions: seq<Action>): State {
    if actions == [] then s else Do(Run(s, actions[..|actions| - 1]), actions[|actions| - 1])
  }

  function Do(s: State, a: Action): State {
    if Enabled(s, a) then Next(s, a) else s
  }

  // ── What every step keeps ───────────────────────────────────────────────

  /** An acknowledgement that is not a refusal speaks of a stored row, and one with a number of that row's. */
  predicate AckTrue(rows: seq<Row>, ack: Ack) {
    match ack.status
    case Refused => true
    case Read => Find(rows, ack.id).Some?
    case _ => Find(rows, ack.id).Some? && Find(rows, ack.id).value.number == ack.number
  }

  predicate OutcomeTrue(rows: seq<Row>, o: Outcome) {
    Find(rows, o.id).Some? && Find(rows, o.id).value.number == o.number
  }

  predicate VerdictTrue(rows: seq<Row>, id: string, v: Verdict) {
    v.Saved? ==> Find(rows, id).Some? && Find(rows, id).value.number == v.number
  }

  /** What the server handles is an envelope some client queued, but for an id the server made up. */
  predicate Genuine(s: State, m: Message) {
    |m.id| <= MAX_ID_BYTES && (m in s.composed || m.id in s.made)
  }

  predicate HandlerOk(s: State, h: Handler) {
    match h
    case Idle => true
    case Enqueuing(m) => Genuine(s, m)
    case Waiting(t) => t < |s.asked|
  }

  ghost predicate AcksOk(rows: seq<Row>, down: seq<Ack>) {
    forall ack | ack in down :: AckTrue(rows, ack) && |ack.id| <= MAX_ID_BYTES
  }

  ghost predicate ConnOk(s: State, c: Conn) {
    && (forall m | m in c.up :: m in s.composed)
    && AcksOk(s.db.rows, c.down)
    && (forall o | o in c.outcomes :: OutcomeTrue(s.db.rows, o))
    && HandlerOk(s, c.handler)
  }

  /** The promise of the outbox for one id: still pending, or stored, or refused to the user's face. */
  predicate Accounted(rows: seq<Row>, d: Device, id: string) {
    HasId(d.pending, id) || Find(rows, id).Some? || id in d.refused
  }

  ghost predicate DeviceOk(s: State, d: Device) {
    && (forall m | m in d.pending :: m in s.composed)
    && (forall id | id in d.recorded :: Accounted(s.db.rows, d, id))
    && (forall id | id in d.recorded && |id| > MAX_ID_BYTES :: HasId(d.pending, id))
  }

  ghost predicate ConnsOk(s: State) {
    forall c | c in s.conns :: ConnOk(s, c)
  }

  ghost predicate DevicesOk(s: State) {
    forall d | d in s.devices :: DeviceOk(s, d)
  }

  ghost predicate RowsOk(s: State) {
    && WellFormed(s.db)
    && forall i :: 0 <= i < |s.db.rows| ==> |s.db.rows[i].msg.id| <= MAX_ID_BYTES && (s.base <= i ==> s.db.rows[i].msg in s.asked)
  }

  ghost predicate RequestsOk(s: State) {
    && (forall m | m in s.asked :: Genuine(s, m))
    && (forall t | t in s.replies :: t < |s.asked| && VerdictTrue(s.db.rows, s.asked[t].id, s.replies[t]))
  }

  // Every accepted request is in exactly one place.

  function Held(writers: seq<Writer>, t: nat): nat {
    if writers == [] then 0 else Held(writers[..|writers| - 1], t) + multiset(writers[|writers| - 1].batch)[t]
  }

  /** In how many places ticket `t` is: the queue, the batches, the answered ones, those lost in a restart. */
  function Places(s: State, t: nat): nat {
    multiset(s.queue)[t] + Held(s.writers, t) + (if t in s.replies then 1 else 0) + if t in s.dropped then 1 else 0
  }

  ghost predicate OnePlace(s: State) {
    && |s.queue| <= QUEUE_CAP
    && (forall w | w in s.writers :: |w.batch| <= BATCH_MAX_ROWS)
    && forall t: nat :: Places(s, t) == if t < |s.asked| then 1 else 0
  }

  ghost predicate Inv(s: State) {
    RowsOk(s) && RequestsOk(s) && ConnsOk(s) && DevicesOk(s) && OnePlace(s)
  }

  /** The facts a later state can only add to. */
  ghost predicate Grown(s: State, s': State) {
    && s.db.rows <= s'.db.rows && WellFormed(s'.db)
    && s.composed <= s'.composed && s.made <= s'.made && s.asked <= s'.asked
  }

  lemma StillStored(s: State, s': State, id: string)
    requires Grown(s, s') && Find(s.db.rows, id).Some?
    ensures Find(s'.db.rows, id) == Find(s.db.rows, id)
  {
    FindStays(s.db.rows, s'.db.rows, id);
  }

  lemma ConnStays(s: State, s': State, c: Conn)
    requires Grown(s, s') && ConnOk(s, c)
    ensures ConnOk(s', c)
  {
    hide WellFormed, Find;
    forall ack | ack in c.down
      ensures AckTrue(s'.db.rows, ack)
    {
      if !ack.status.Refused? {
        StillStored(s, s', ack.id);
      }
    }
    forall o | o in c.outcomes
      ensures OutcomeTrue(s'.db.rows, o)
    {
      StillStored(s, s', o.id);
    }
  }

  lemma DeviceStays(s: State, s': State, d: Device)
    requires Grown(s, s') && DeviceOk(s, d)
    ensures DeviceOk(s', d)
  {
    hide WellFormed, Find;
    forall id | id in d.recorded
      ensures Accounted(s'.db.rows, d, id)
    {
      assert Accounted(s.db.rows, d, id);
      if Find(s.db.rows, id).Some? {
        StillStored(s, s', id);
      }
    }
  }

  lemma RequestsStay(s: State, s': State)
    requires Grown(s, s') && RequestsOk(s)
    ensures forall m | m in s.asked :: Genuine(s', m)
    ensures forall t | t in s.replies :: VerdictTrue(s'.db.rows, s.asked[t].id, s.replies[t])
  {
    hide WellFormed, Find;
    forall t | t in s.replies
      ensures VerdictTrue(s'.db.rows, s.asked[t].id, s.replies[t])
    {
      if s.replies[t].Saved? {
        StillStored(s, s', s.asked[t].id);
      }
    }
  }

  /** The connections and devices of a later state: the old ones, or ones that are right by themselves. */
  lemma PeersStay(s: State, s': State)
    requires Inv(s) && Grown(s, s')
    requires forall c | c in s'.conns :: c in s.conns || ConnOk(s', c)
    requires forall d | d in s'.devices :: d in s.devices || DeviceOk(s', d)
    ensures ConnsOk(s') && DevicesOk(s')
  {
    hide WellFormed, Find, ConnOk, DeviceOk, Grown, OnePlace, RowsOk, RequestsOk;
    forall c | c in s'.conns
      ensures ConnOk(s', c)
    {
      if c in s.conns {
        ConnStays(s, s', c);
      }
    }
    forall d | d in s'.devices
      ensures DeviceOk(s', d)
    {
      if d in s.devices {
        DeviceStays(s, s', d);
      }
    }
  }

  // ── Each step ───────────────────────────────────────────────────────────

  /** A step of the clients or the handlers' reading leaves the table and the requests alone. */
  lemma ServerUntouched(s: State, s': State)
    requires Inv(s) && s'.db == s.db && s'.base == s.base && s'.asked == s.asked && s'.queue == s.queue
    requires s'.writers == s.writers && s'.replies == s.replies && s'.dropped == s.dropped
    requires s.composed <= s'.composed && s.made <= s'.made
    ensures Grown(s, s') && RowsOk(s') && RequestsOk(s') && OnePlace(s')
  {
    hide Find, WellFormed, ConnOk, DeviceOk, Held;
    RequestsStay(s, s');
    forall t: nat
      ensures Places(s', t) == Places(s, t)
    {}
  }

  lemma ComposeKeeps(s: State, d: nat, e: Message, kept: bool)
    requires Inv(s) && Enabled(s, Compose(d, e, kept))
    ensures Inv(ComposeStep(s, d, e, kept))
  {
    hide Find, WellFormed, AcksOk, Held;
    var s' := ComposeStep(s, d, e, kept);
    ServerUntouched(s, s');
    var dev := s.devices[d];
    assert dev in s.devices;
    DeviceStays(s, s', dev);
    if kept {
      var dev' := dev.(pending := Put(dev.pending, e), recorded := dev.recorded + {e.id});
      PutHas(dev.pending, e, e.id);
      forall id | id in dev'.recorded
        ensures Accounted(s'.db.rows, dev', id) && (|id| > MAX_ID_BYTES ==> HasId(dev'.pending, id))
      {
        PutHas(dev.pending, e, id);
        assert id in dev.recorded ==> Accounted(s.db.rows, dev, id);
      }
      assert DeviceOk(s', dev');
    }
    if Online(s, d) {
      var c := s.conns[dev.socket.value];
      ConnStays(s, s', c);
      assert ConnOk(s', c.(up := c.up + [e]));
    }
    PeersStay(s, s');
  }

  lemma ConnectKeeps(s: State, d: nat)
    requires Inv(s) && Enabled(s, Connect(d))
    ensures Inv(ConnectStep(s, d))
  {
    hide Find, WellFormed, Held;
    var s' := ConnectStep(s, d);
    ServerUntouched(s, s');
    var dev := s.devices[d];
    assert dev in s.devices;
    DeviceStays(s, s', dev);
    forall id | id in dev.recorded
      ensures Accounted(s'.db.rows, dev.(socket := Some(|s.conns|)), id)
    {
      assert Accounted(s.db.rows, dev, id);
    }
    PeersStay(s, s');
  }

  lemma DisconnectKeeps(s: State, d: nat, arrived: nat)
    requires Inv(s) && Enabled(s, Disconnect(d, arrived))
    ensures Inv(Next(s, Disconnect(d, arrived)))
  {
    hide Find, WellFormed, Held;
    var s' := Next(s, Disconnect(d, arrived));
    ServerUntouched(s, s');
    var dev := s.devices[d];
    var c := s.conns[dev.socket.value];
    assert dev in s.devices && c in s.conns;
    forall id | id in dev.recorded
      ensures Accounted(s'.db.rows, dev.(socket := None), id)
    {
      assert Accounted(s.db.rows, dev, id);
    }
    assert ConnOk(s', c.(up := c.up[..arrived], down := []));
    PeersStay(s, s');
  }

  /** Whatever acknowledgement takes an envelope off the outbox, its id remains accounted for. */
  lemma TakeAckKeeps(s: State, d: nat)
    requires Inv(s) && Enabled(s, TakeAck(d))
    ensures Inv(TakeAckStep(s, d))
  {
    hide Find, WellFormed, Held;
    var s' := TakeAckStep(s, d);
    ServerUntouched(s, s');
    var dev, dev' := s.devices[d], s'.devices[d];
    var c := s.conns[dev.socket.value];
    var ack := c.down[0];
    assert dev in s.devices && c in s.conns && ack in c.down;
    forall id | id in dev'.recorded
      ensures Accounted(s'.db.rows, dev', id) && (|id| > MAX_ID_BYTES ==> HasId(dev'.pending, id))
    {
      ForgetHas(dev.pending, ack.id, id);
      assert Accounted(s.db.rows, dev, id);
    }
    ForgetHas(dev.pending, ack.id, "");
    assert ConnOk(s', c.(down := c.down[1..]));
    PeersStay(s, s');
  }

  lemma PushOk(s: State, c: Conn, ack: Ack)
    requires ConnOk(s, c) && AckTrue(s.db.rows, ack) && |ack.id| <= MAX_ID_BYTES
    ensures ConnOk(s, Push(c, ack))
  {}

  lemma ReadKeeps(s: State, c: nat, refuse: bool, gen: string)
    requires Inv(s) && Enabled(s, ReadFrame(c, refuse, gen))
    ensures Inv(ReadStep(s, c, refuse, gen))
  {
    hide Find, WellFormed, Held, OutcomeTrue;
    var s' := ReadStep(s, c, refuse, gen);
    ServerUntouched(s, s');
    var was, conn := s.conns[c], s.conns[c].(up := s.conns[c].up[1..]);
    assert was in s.conns;
    ConnStays(s, s', was);
    assert ConnOk(s', conn);
    var f := was.up[0];
    assert f in s.composed;
    var bounded := Bounded(f, gen);
    if |bounded.body| > MAX_MESSAGE_RUNES {
      PushOk(s', conn, Ack(bounded.id, Refused, 0));
    } else {
      var msg := Named(bounded, gen);
      assert Genuine(s', msg);
      PushOk(s', conn, Ack(msg.id, Refused, 0));
    }
    assert ConnOk(s', s'.conns[c]);
    PeersStay(s, s');
  }

  lemma EnqueueKeeps(s: State, c: nat)
    requires Inv(s) && Enabled(s, Enqueue(c))
    ensures Inv(EnqueueStep(s, c))
  {
    hide Find, WellFormed, Held, AcksOk, DeviceOk, OutcomeTrue;
    var s' := EnqueueStep(s, c);
    assert s.conns[c] in s.conns;
    assert s.asked <= s'.asked && s'.db == s.db && Grown(s, s') by {
      assert RowsOk(s);
    }
    ConnStays(s, s', s.conns[c]);
    PeersStay(s, s');
    RequestsStay(s, s');
    assert RowsOk(s');
    assert RequestsOk(s');
    forall t: nat
      ensures Places(s', t) == if t < |s'.asked| then 1 else 0
    {
      assert Places(s, t) == if t < |s.asked| then 1 else 0;
    }
  }

  lemma ToAllOk(s: State, conns: seq<Conn>, user: string, ack: Ack)
    requires (forall c | c in conns :: ConnOk(s, c)) && AckTrue(s.db.rows, ack) && |ack.id| <= MAX_ID_BYTES
    ensures forall c | c in ToAll(conns, user, ack) :: ConnOk(s, c)
  {
    hide ConnOk, AckTrue;
    forall c | c in ToAll(conns, user, ack)
      ensures ConnOk(s, c)
    {
      var i :| 0 <= i < |conns| && c == if conns[i].user == user then Push(conns[i], ack) else conns[i];
      PushOk(s, conns[i], ack);
    }
  }

  lemma GiveUpKeeps(s: State, c: nat, id: string)
    requires Inv(s) && c < |s.conns| && |id| <= MAX_ID_BYTES
    ensures Inv(GiveUp(s, c, id))
  {
    hide Find, WellFormed, Held, AcksOk, DeviceOk, OutcomeTrue;
    var s' := GiveUp(s, c, id);
    ServerUntouched(s, s');
    assert s.conns[c] in s.conns;
    var idle := s.conns[c := s.conns[c].(handler := Idle)];
    forall x | x in idle
      ensures ConnOk(s', x)
    {
      if x in s.conns {
        ConnStays(s, s', x);
      } else {
        ConnStays(s, s', s.conns[c]);
      }
    }
    ToAllOk(s', idle, s.conns[c].user, Ack(id, Refused, 0));
    PeersStay(s, s');
  }

  lemma ReturnKeeps(s: State, c: nat, delivered: bool)
    requires Inv(s) && Enabled(s, HandlerReturns(c, delivered))
    ensures Inv(ReturnStep(s, c, delivered))
  {
    hide Find, WellFormed, Held, DeviceOk;
    var t := s.conns[c].handler.ticket;
    var m := s.asked[t];
    assert m in s.asked;
    match s.replies[t]
    case Failed => GiveUpKeeps(s, c, m.id);
    case Saved(number) =>
      var s' := ReturnStep(s, c, delivered);
      ServerUntouched(s, s');
      var was := s.conns[c];
      assert was in s.conns;
      ConnStays(s, s', was);
      assert VerdictTrue(s.db.rows, m.id, s.replies[t]);
      var conn := was.(handler := Idle, outcomes := was.outcomes + [Outcome(m.id, number)]);
      assert ConnOk(s', conn);
      PushOk(s', conn, Ack(m.id, if delivered then Delivered else Sent, number));
      PeersStay(s, s');
  }

  lemma StatusKeeps(s: State, id: string, read: bool)
    requires Inv(s) && Enabled(s, StatusAck(id, read))
    ensures Inv(Next(s, StatusAck(id, read)))
  {
    hide WellFormed, Held, DeviceOk;
    var s' := Next(s, StatusAck(id, read));
    ServerUntouched(s, s');
    var row := Find(s.db.rows, id).value;
    var i :| 0 <= i < |s.db.rows| && s.db.rows[i] == row;
    var ack := if read then Ack(id, Read, 0) else Ack(id, Delivered, row.number);
    assert AckTrue(s'.db.rows, ack);
    forall x | x in s.conns
      ensures ConnOk(s', x)
    {
      ConnStays(s, s', x);
    }
    ToAllOk(s', s.conns, row.msg.from, ack);
    PeersStay(s, s');
  }

  lemma {:induction false} HeldAfter(writers: seq<Writer>, w: nat, changed: Writer, t: nat)
    requires w < |writers|
    ensures Held(writers[w := changed], t) == Held(writers, t) - multiset(writers[w].batch)[t] + multiset(changed.batch)[t]
  {
    var init, last := writers[..|writers| - 1], |writers| - 1;
    var after := writers[w := changed];
    if w == last {
      assert after[..last] == init;
    } else {
      HeldAfter(init, w, changed, t);
      assert after[..last] == init[w := changed];
    }
  }

  lemma {:induction false} HeldAtLeast(writers: seq<Writer>, w: nat, t: nat)
    requires w < |writers|
    ensures Held(writers, t) >= multiset(writers[w].batch)[t]
  {
    if w < |writers| - 1 {
      HeldAtLeast(writers[..|writers| - 1], w, t);
    }
  }

  /** A step of a writer that leaves table and replies alone: only places can change. */
  lemma TableUntouched(s: State, s': State)
    requires Inv(s) && s' == s.(queue := s'.queue, writers := s'.writers)
    ensures RowsOk(s') && RequestsOk(s') && ConnsOk(s') && DevicesOk(s')
  {
    hide Find, WellFormed, ConnOk, DeviceOk, Held, OnePlace;
    assert Grown(s, s');
    forall c | c in s'.conns
      ensures ConnOk(s', c)
    {
      ConnStays(s, s', c);
    }
    PeersStay(s, s');
    RequestsStay(s, s');
  }

  lemma ReceiveKeeps(s: State, w: nat)
    requires Inv(s) && Enabled(s, Receive(w))
    ensures Inv(Next(s, Receive(w)))
  {
    hide Find, WellFormed, ConnOk, DeviceOk, Held;
    var s' := Next(s, Receive(w));
    TableUntouched(s, s');
    forall t: nat
      ensures Places(s', t) == Places(s, t)
    {
      HeldAfter(s.writers, w, s'.writers[w], t);
      assert s.queue == [s.queue[0]] + s.queue[1..];
    }
    assert s.writers[w] in s.writers;
  }

  lemma BeginFlushKeeps(s: State, w: nat)
    requires Inv(s) && Enabled(s, BeginFlush(w))
    ensures Inv(Next(s, BeginFlush(w)))
  {
    hide Find, WellFormed, ConnOk, DeviceOk, Held;
    var s' := Next(s, BeginFlush(w));
    TableUntouched(s, s');
    forall t: nat
      ensures Places(s', t) == Places(s, t)
    {
      HeldAfter(s.writers, w, s'.writers[w], t);
    }
    assert s.writers[w] in s.writers;
  }

  lemma {:induction false} NewRows(d: Db, ms: seq<Message>, at: int)
    ensures forall i :: |d.rows| <= i < |UpsertAll(d, ms, at).rows| ==> UpsertAll(d, ms, at).rows[i].msg in ms
  {
    if ms != [] {
      NewRows(d, ms[..|ms| - 1], at);
    }
  }

  lemma {:induction false} FirstsAmong(ms: seq<Message>)
    ensures forall m | m in Firsts(ms) :: m in ms
  {
    if ms != [] {
      FirstsAmong(ms[..|ms| - 1]);
    }
  }

  /** A statement stores messages that were asked for and leaves every row as it is. */
  lemma {:induction false} StatementKeeps(s: State, ms: seq<Message>, at: int)
    requires Inv(s) && forall m | m in ms :: m in s.asked
    ensures Inv(s.(db := UpsertAll(s.db, ms, at)))
  {
    hide Find, WellFormed, ConnOk, DeviceOk, Held, Upsert;
    var s' := s.(db := UpsertAll(s.db, ms, at));
    UpsertAllKeeps(s.db, ms, at);
    NewRows(s.db, ms, at);
    assert Grown(s, s');
    PeersStay(s, s');
    RequestsStay(s, s');
    assert forall m | m in s.asked :: Genuine(s, m);
    forall t: nat
      ensures Places(s', t) == Places(s, t)
    {}
  }

  lemma StoreBatchKeeps(s: State, w: nat, at: int)
    requires Inv(s) && Enabled(s, StoreBatch(w, at))
    ensures Inv(Next(s, StoreBatch(w, at)))
  {
    hide Inv, UpsertAll;
    var ms := BatchMessages(s, s.writers[w].batch);
    FirstsAmong(ms);
    forall m | m in ms
      ensures m in s.asked
    {
      assert forall t | t in s.writers[w].batch :: s.asked[t] in s.asked;
    }
    StatementKeeps(s, Firsts(ms), at);
  }

  lemma {:induction false} StoreOneKeeps(s: State, w: nat, i: nat, at: int)
    requires Inv(s) && Enabled(s, StoreOne(w, i, at))
    ensures Inv(Next(s, StoreOne(w, i, at)))
  {
    hide Inv, Upsert;
    var m := s.asked[s.writers[w].batch[i]];
    StatementKeeps(s, [m], at);
    assert UpsertAll(s.db, [m], at) == Upsert(s.db, m, at) by {
      assert [m][..0] == [] && UpsertAll(s.db, [], at) == s.db;
    }
  }

  lemma BurnKeeps(s: State)
    requires Inv(s)
    ensures Inv(Next(s, BurnNumber))
  {
    hide Find, ConnOk, DeviceOk, Held;
    var s' := Next(s, BurnNumber);
    assert Grown(s, s');
    PeersStay(s, s');
    RequestsStay(s, s');
    forall t: nat
      ensures Places(s', t) == Places(s, t)
    {}
  }

  lemma WithoutOne(batch: seq<nat>, i: nat, t: nat)
    requires i < |batch|
    ensures multiset(Without(batch, i))[t] == multiset(batch)[t] - if t == batch[i] then 1 else 0
  {
    assert batch == batch[..i] + [batch[i]] + batch[i + 1..];
  }

  /** The slot of a request in a batch is empty, so the send of its verdict does not block. */
  lemma BatchUnanswered(s: State, w: nat, i: nat)
    requires OnePlace(s) && w < |s.writers| && i < |s.writers[w].batch|
    ensures s.writers[w].batch[i] !in s.replies && s.writers[w].batch[i] < |s.asked|
  {
    hide Held;
    var t := s.writers[w].batch[i];
    HeldAtLeast(s.writers, w, t);
    assert t in multiset(s.writers[w].batch);
    assert Places(s, t) <= 1;
  }

  lemma AnswerPlaces(s: State, w: nat, i: nat, failed: bool)
    requires OnePlace(s) && Enabled(s, Answer(w, i, failed))
    ensures OnePlace(AnswerStep(s, w, i, failed))
  {
    hide Find, Held, Without;
    var s' := AnswerStep(s, w, i, failed);
    BatchUnanswered(s, w, i);
    forall u: nat
      ensures Places(s', u) == Places(s, u)
    {
      HeldAfter(s.writers, w, s'.writers[w], u);
      WithoutOne(s.writers[w].batch, i, u);
    }
    assert s.writers[w] in s.writers && |s'.writers[w].batch| < |s.writers[w].batch| by {
      WithoutShorter(s.writers[w].batch, i);
    }
  }

  lemma WithoutShorter(batch: seq<nat>, i: nat)
    requires i < |batch|
    ensures |Without(batch, i)| == |batch| - 1
  {}

  lemma AnswerKeeps(s: State, w: nat, i: nat, failed: bool)
    requires Inv(s) && Enabled(s, Answer(w, i, failed))
    ensures Inv(AnswerStep(s, w, i, failed))
  {
    hide Find, WellFormed, ConnOk, DeviceOk, OnePlace;
    var s' := AnswerStep(s, w, i, failed);
    AnswerPlaces(s, w, i, failed);
    assert Grown(s, s') by {
      assert RowsOk(s);
    }
    PeersStay(s, s');
    RequestsStay(s, s');
    assert RowsOk(s') && RequestsOk(s');
  }

  lemma NextKeeps(s: State, a: Action)
    requires Inv(s) && Enabled(s, a)
    ensures Inv(Next(s, a))
  {
    hide Inv;
    match a
    case Compose(d, e, kept) => ComposeKeeps(s, d, e, kept);
    case Connect(d) => ConnectKeeps(s, d);
    case Disconnect(d, arrived) => DisconnectKeeps(s, d, arrived);
    case TakeAck(d) => TakeAckKeeps(s, d);
    case ReadFrame(c, refuse, gen) => ReadKeeps(s, c, refuse, gen);
    case Enqueue(c) => EnqueueKeeps(s, c);
    case Overload(c) => OverloadKeeps(s, c);
    case HandlerReturns(c, delivered) => ReturnKeeps(s, c, delivered);
    case HandlerTimesOut(c) => TimeoutKeeps(s, c);
    case Receive(w) => ReceiveKeeps(s, w);
    case BeginFlush(w) => BeginFlushKeeps(s, w);
    case StoreBatch(w, at) => StoreBatchKeeps(s, w, at);
    case StoreOne(w, i, at) => StoreOneKeeps(s, w, i, at);
    case BurnNumber => BurnKeeps(s);
    case Answer(w, i, failed) => AnswerKeeps(s, w, i, failed);
    case StatusAck(id, read) => StatusKeeps(s, id, read);
    case RestartServer => RestartKeeps(s);
  }

  lemma RestartPlaces(s: State)
    requires OnePlace(s)
    ensures OnePlace(RestartStep(s))
  {
    hide Held;
    var s' := RestartStep(s);
    forall t: nat
      ensures Places(s', t) == if t < |s'.asked| then 1 else 0
    {
      NothingHeld(s'.writers, t);
      assert Places(s, t) == if t < |s.asked| then 1 else 0;
    }
  }

  /** A restart forgets what was on its way and nothing that was promised. */
  lemma RestartKeeps(s: State)
    requires Inv(s)
    ensures Inv(RestartStep(s))
  {
    hide Find, WellFormed, OnePlace;
    var s' := RestartStep(s);
    RestartPlaces(s);
    assert Grown(s, s') by {
      assert RowsOk(s);
    }
    RequestsStay(s, s');
    assert RowsOk(s') && RequestsOk(s');
    forall c | c in s'.conns
      ensures ConnOk(s', c)
    {
      var i :| 0 <= i < |s.conns| && c == s.conns[i].(up := [], down := [], handler := Idle);
      assert s.conns[i] in s.conns;
    }
    forall d | d in s'.devices
      ensures DeviceOk(s', d)
    {
      var i :| 0 <= i < |s.devices| && d == s.devices[i].(socket := None);
      assert s.devices[i] in s.devices;
      forall id | id in d.recorded
        ensures Accounted(s'.db.rows, d, id)
      {
        assert Accounted(s.db.rows, s.devices[i], id);
      }
    }
  }

  lemma OverloadKeeps(s: State, c: nat)
    requires Inv(s) && Enabled(s, Overload(c))
    ensures Inv(Next(s, Overload(c)))
  {
    assert s.conns[c] in s.conns && ConnOk(s, s.conns[c]);
    GiveUpKeeps(s, c, s.conns[c].handler.msg.id);
  }

  lemma TimeoutKeeps(s: State, c: nat)
    requires Inv(s) && Enabled(s, HandlerTimesOut(c))
    ensures Inv(Next(s, HandlerTimesOut(c)))
  {
    var m := s.asked[s.conns[c].handler.ticket];
    assert m in s.asked && Genuine(s, m);
    GiveUpKeeps(s, c, m.id);
  }

  // ── Whole runs ──────────────────────────────────────────────────────────

  /** A fresh server over any table; outboxes may hold envelopes of an earlier visit. */
  ghost predicate Init(s: State) {
    && s.conns == [] && s.asked == [] && s.queue == [] && s.replies == map[] && s.dropped == {}
    && (forall w | w in s.writers :: w == Writer([], false))
    && WellFormed(s.db) && s.base == |s.db.rows|
    && (forall i :: 0 <= i < |s.db.rows| ==> |s.db.rows[i].msg.id| <= MAX_ID_BYTES)
    && forall d | d in s.devices :: InitDevice(s, d)
  }

  ghost predicate InitDevice(s: State, d: Device) {
    && d.socket.None? && d.refused == {}
    && (forall m | m in d.pending :: m in s.composed)
    && (forall id | id in d.recorded :: HasId(d.pending, id))
  }

  lemma {:induction false} NothingHeld(writers: seq<Writer>, t: nat)
    requires forall w | w in writers :: w.batch == []
    ensures Held(writers, t) == 0
  {
    if writers != [] {
      NothingHeld(writers[..|writers| - 1], t);
      assert writers[|writers| - 1] in writers;
    }
  }

  lemma InitInv(s: State)
    requires Init(s)
    ensures Inv(s)
  {
    hide Find, WellFormed;
    forall t: nat
      ensures Places(s, t) == 0
    {
      NothingHeld(s.writers, t);
    }
    forall d | d in s.devices
      ensures DeviceOk(s, d)
    {
      assert InitDevice(s, d);
    }
  }

  lemma {:induction false} RunKeeps(s: State, actions: seq<Action>)
    requires Inv(s)
    ensures Inv(Run(s, actions))
  {
    hide Inv, Next, Enabled;
    if actions != [] {
      RunKeeps(s, actions[..|actions| - 1]);
      var before, a := Run(s, actions[..|actions| - 1]), actions[|actions| - 1];
      if Enabled(before, a) {
        NextKeeps(before, a);
      }
    }
  }

  /** Nobody forgets: tables and answers only grow, devices remember what was queued. */
  ghost predicate Remembered(s: State, s': State) {
    s.db.rows <= s'.db.rows && s.asked <= s'.asked && AnswersStand(s, s') && DevicesRemember(s, s')
  }

  ghost predicate AnswersStand(s: State, s': State) {
    forall t | t in s.replies :: t in s'.replies && s'.replies[t] == s.replies[t]
  }

  ghost predicate DevicesRemember(s: State, s': State) {
    && |s.devices| == |s'.devices|
    && forall d :: 0 <= d < |s.devices| ==> s.devices[d].recorded <= s'.devices[d].recorded
  }

  lemma NextRemembers(s: State, a: Action)
    requires Inv(s) && Enabled(s, a)
    ensures Remembered(s, Next(s, a))
  {
    hide Find, WellFormed, ConnsOk, DevicesOk, DevicesRemember, AnswersStand, OnePlace, ToAll, Put, Forget, Upsert, UpsertAll;
    NextRemembersDevices(s, a);
    AnswersStandNext(s, a);
    RowsStayNext(s, a);
  }

  lemma RowsStayNext(s: State, a: Action)
    requires RowsOk(s) && Enabled(s, a)
    ensures s.db.rows <= Next(s, a).db.rows
  {
    hide Find, WellFormed, ToAll, Put, Forget, Upsert, UpsertAll;
    match a
    case StoreBatch(w, at) => UpsertAllKeeps(s.db, Firsts(BatchMessages(s, s.writers[w].batch)), at);
    case StoreOne(w, i, at) => UpsertKeeps(s.db, s.asked[s.writers[w].batch[i]], at);
    case _ =>
  }

  lemma AnswersStandNext(s: State, a: Action)
    requires OnePlace(s) && Enabled(s, a)
    ensures AnswersStand(s, Next(s, a))
  {
    hide OnePlace, Find, ToAll, Put, Forget, Upsert, UpsertAll, BatchMessages;
    if a.Answer? {
      BatchUnanswered(s, a.w, a.i);
    }
  }

  lemma NextRemembersDevices(s: State, a: Action)
    requires Enabled(s, a)
    ensures DevicesRemember(s, Next(s, a))
  {
    hide Find, ToAll, Put, Forget, Upsert, UpsertAll, BatchMessages;
  }

  lemma {:induction false} RunRemembers(s: State, actions: seq<Action>)
    requires Inv(s)
    ensures Remembered(s, Run(s, actions))
  {
    hide Inv, Next, Enabled;
    if actions != [] {
      var init, a := actions[..|actions| - 1], actions[|actions| - 1];
      RunKeeps(s, init);
      RunRemembers(s, init);
      if Enabled(Run(s, init), a) {
        NextRemembers(Run(s, init), a);
      }
    }
  }

  /** An id is stored at most once and its seq never changes, whatever is resent, lost, saved or reloaded. */
  lemma StoredOnce(s: State, actions: seq<Action>, more: seq<Action>, id: string)
    requires Init(s)
    ensures var then0, later := Run(s, actions), Run(Run(s, actions), more);
            && (forall i, j :: 0 <= i < j < |later.db.rows| ==> later.db.rows[i].msg.id != later.db.rows[j].msg.id)
            && (Find(then0.db.rows, id).Some? ==> Find(later.db.rows, id) == Find(then0.db.rows, id))
  {
    hide Find, ConnsOk, DevicesOk, OnePlace, RequestsOk;
    InitInv(s);
    RunKeeps(s, actions);
    RunKeeps(Run(s, actions), more);
    RunRemembers(Run(s, actions), more);
    if Find(Run(s, actions).db.rows, id).Some? {
      FindStays(Run(s, actions).db.rows, Run(Run(s, actions), more).db.rows, id);
    }
  }

  /** An acknowledgement on its way to a client, unless it says "failed", is about a stored row. */
  lemma {:induction false} AckMeansStored(s: State, actions: seq<Action>, c: nat, k: nat)
    requires Init(s)
    requires c < |Run(s, actions).conns| && k < |Run(s, actions).conns[c].down|
    ensures var s' := Run(s, actions);
            var ack := s'.conns[c].down[k];
            && (ack.status != Refused ==> Find(s'.db.rows, ack.id).Some?)
            && (ack.status == Sent || ack.status == Delivered ==> Find(s'.db.rows, ack.id).value.number == ack.number)
  {
    hide Find, RowsOk, DevicesOk, OnePlace, RequestsOk;
    InitInv(s);
    RunKeeps(s, actions);
    var s' := Run(s, actions);
    assert ConnOk(s', s'.conns[c]);
    assert AckTrue(s'.db.rows, s'.conns[c].down[k]);
  }

  /**
   * The outbox keeps its promise: an envelope that was recorded is, at every later moment, still pending on its
   * device, or stored, or its author has been told that it failed.
   */
  lemma NothingQueuedIsLost(s: State, actions: seq<Action>, d: nat, e: Message, more: seq<Action>)
    requires Init(s) && Enabled(Run(s, actions), Compose(d, e, true))
    ensures var s' := Run(Next(Run(s, actions), Compose(d, e, true)), more);
            && d < |s'.devices|
            && (HasId(s'.devices[d].pending, e.id) || Find(s'.db.rows, e.id).Some? || e.id in s'.devices[d].refused)
  {
    hide Find, RowsOk, ConnsOk, OnePlace, RequestsOk;
    var s1 := Next(Run(s, actions), Compose(d, e, true));
    InitInv(s);
    RunKeeps(s, actions);
    NextKeeps(Run(s, actions), Compose(d, e, true));
    RunKeeps(s1, more);
    RunRemembers(s1, more);
    var s' := Run(s1, more);
    assert e.id in s1.devices[d].recorded;
    assert DeviceOk(s', s'.devices[d]);
    assert Accounted(s'.db.rows, s'.devices[d], e.id);
  }

  /** An id the server replaces is never answered under its own name: its envelope stays pending for good. */
  lemma LongIdsStayPending(s: State, actions: seq<Action>, d: nat, e: Message, more: seq<Action>)
    requires Init(s) && Enabled(Run(s, actions), Compose(d, e, true)) && |e.id| > MAX_ID_BYTES
    ensures var s' := Run(Next(Run(s, actions), Compose(d, e, true)), more);
            d < |s'.devices| && HasId(s'.devices[d].pending, e.id)
  {
    hide Find, RowsOk, ConnsOk, OnePlace, RequestsOk;
    var s1 := Next(Run(s, actions), Compose(d, e, true));
    InitInv(s);
    RunKeeps(s, actions);
    NextKeeps(Run(s, actions), Compose(d, e, true));
    RunKeeps(s1, more);
    RunRemembers(s1, more);
    var s' := Run(s1, more);
    assert e.id in s1.devices[d].recorded;
    assert DeviceOk(s', s'.devices[d]);
  }

  /** A row found only later stands behind the rows there were. */
  lemma {:induction false} NewRow(rows: seq<Row>, later: seq<Row>, id: string) returns (j: nat)
    requires rows <= later && Find(rows, id).None? && Find(later, id).Some?
    ensures |rows| <= j < |later| && later[j] == Find(later, id).value
  {
    j :| 0 <= j < |later| && later[j] == Find(later, id).value;
    forall i | 0 <= i < |rows|
      ensures later[i].msg.id != id
    {
      assert rows[i] in rows;
    }
  }

  /** No two envelopes share an id, and the server never makes up an id that a client uses. */
  ghost predicate UniqueEnvelopes(s: State) {
    && (forall m, n | m in s.composed && n in s.composed && m.id == n.id :: m == n)
    && (forall m | m in s.composed :: m.id !in s.made)
  }

  /** What is stored under an id is what its author queued under it. */
  lemma StoredAsQueued(s: State, actions: seq<Action>, e: Message)
    requires Init(s) && Find(s.db.rows, e.id).None?
    requires UniqueEnvelopes(Run(s, actions)) && e in Run(s, actions).composed
    ensures Find(Run(s, actions).db.rows, e.id).Some? ==> Find(Run(s, actions).db.rows, e.id).value.msg == e
  {
    hide ConnsOk, DevicesOk, OnePlace, WellFormed;
    InitInv(s);
    RunKeeps(s, actions);
    RunRemembers(s, actions);
    BaseStays(s, actions);
    var s' := Run(s, actions);
    if Find(s'.db.rows, e.id).Some? {
      var row := Find(s'.db.rows, e.id).value;
      var i := NewRow(s.db.rows, s'.db.rows, e.id);
      assert row.msg in s'.asked;
      assert Genuine(s', row.msg);
    }
  }

  lemma {:induction false} BaseStays(s: State, actions: seq<Action>)
    ensures Run(s, actions).base == s.base
  {
    hide Enabled, ToAll, Upsert, UpsertAll, Put, Forget;
    if actions != [] {
      BaseStays(s, actions[..|actions| - 1]);
    }
  }

  /** Only what the server accepted is ever stored: a message refused before the queue stays out of the table. */
  lemma NeverAcceptedNeverStored(s: State, actions: seq<Action>, id: string)
    requires Init(s) && Find(s.db.rows, id).None?
    ensures Find(Run(s, actions).db.rows, id).Some? ==> HasId(Run(s, actions).asked, id)
  {
    hide ConnsOk, DevicesOk, OnePlace, WellFormed, RequestsOk;
    InitInv(s);
    RunKeeps(s, actions);
    RunRemembers(s, actions);
    BaseStays(s, actions);
    var s' := Run(s, actions);
    if Find(s'.db.rows, id).Some? {
      var row := Find(s'.db.rows, id).value;
      var i := NewRow(s.db.rows, s'.db.rows, id);
      var k :| 0 <= k < |s'.asked| && s'.asked[k] == row.msg;
      assert s'.asked[k].id == id;
    }
  }

  /** After acceptance a "failed" decides nothing: a save that timed out can still reach the table. */
  lemma TimedOutYetStored(s: State, c: nat, w: nat, i: nat, at: int)
    requires Inv(s) && Enabled(s, HandlerTimesOut(c)) && Enabled(s, StoreOne(w, i, at))
    requires s.conns[c].handler.ticket == s.writers[w].batch[i]
    ensures var s' := Run(s, [HandlerTimesOut(c), StoreOne(w, i, at)]);
            var id := s.asked[s.writers[w].batch[i]].id;
            && c < |s'.conns| && Ack(id, Refused, 0) in s'.conns[c].down
            && Find(s'.db.rows, id).Some?
  {
    hide Find, ConnsOk, DevicesOk, OnePlace, RequestsOk, WellFormed, Upsert, GiveUp;
    var a, b := HandlerTimesOut(c), StoreOne(w, i, at);
    var m := s.asked[s.writers[w].batch[i]];
    assert Run(s, [a]) == Next(s, a) by {
      assert [a][..0] == [] && Run(s, []) == s;
    }
    assert [a, b][..1] == [a];
    GiveUpRefuses(s, c, m.id);
    UpsertKeeps(s.db, m, at);
  }

  lemma GiveUpRefuses(s: State, c: nat, id: string)
    requires c < |s.conns|
    ensures var s' := GiveUp(s, c, id);
            && |s'.conns| == |s.conns| && Ack(id, Refused, 0) in s'.conns[c].down
            && s' == s.(conns := s'.conns)
  {
    var s' := GiveUp(s, c, id);
    assert s'.conns[c].down[|s.conns[c].down|] == Ack(id, Refused, 0);
  }

  /** Accepted requests are conserved: each is queued, in one batch, answered, or lost in a restart, and only once. */
  lemma {:induction false} Conservation(s: State, actions: seq<Action>, t: nat)
    requires Init(s)
    ensures var s' := Run(s, actions);
            && Places(s', t) == (if t < |s'.asked| then 1 else 0)
            && |s'.queue| <= QUEUE_CAP
            && forall w, i :: 0 <= w < |s'.writers| && 0 <= i < |s'.writers[w].batch| ==> s'.writers[w].batch[i] !in s'.replies
  {
    hide Find, RowsOk, ConnsOk, DevicesOk, RequestsOk, Places;
    InitInv(s);
    RunKeeps(s, actions);
    var s' := Run(s, actions);
    forall w, i | 0 <= w < |s'.writers| && 0 <= i < |s'.writers[w].batch|
      ensures s'.writers[w].batch[i] !in s'.replies
    {
      BatchUnanswered(s', w, i);
    }
  }

  /** A verdict once given is final. */
  lemma VerdictsStay(s: State, actions: seq<Action>, more: seq<Action>, t: nat)
    requires Init(s) && t in Run(s, actions).replies
    ensures var later := Run(Run(s, actions), more);
            t in later.replies && later.replies[t] == Run(s, actions).replies[t]
  {
    hide Inv;
    InitInv(s);
    RunKeeps(s, actions);
    RunRemembers(Run(s, actions), more);
  }

  /**
   * One sender's order survives four writers: if a connection has seen a save return before it puts the next
   * message, not yet stored, into the queue, then the next message gets the larger seq.
   */
  lemma {:induction false} SendersOrderIsKept(s: State, actions: seq<Action>, c: nat, k: nat, more: seq<Action>)
    requires Init(s) && Enabled(Run(s, actions), Enqueue(c))
    requires k < |Run(s, actions).conns[c].outcomes|
    requires Find(Run(s, actions).db.rows, Run(s, actions).conns[c].handler.msg.id).None?
    ensures var s1 := Run(s, actions);
            var later := Run(s1, [Enqueue(c)] + more);
            var id := s1.conns[c].handler.msg.id;
            Find(later.db.rows, id).Some? ==> s1.conns[c].outcomes[k].number < Find(later.db.rows, id).value.number
  {
    hide Find, DevicesOk, OnePlace, RequestsOk, Next, Run, UniqueIds, Ascending;
    var s1 := Run(s, actions);
    InitInv(s);
    RunKeeps(s, actions);
    RunKeeps(s1, [Enqueue(c)] + more);
    RunRemembers(s1, [Enqueue(c)] + more);
    assert ConnOk(s1, s1.conns[c]);
    assert OutcomeTrue(s1.db.rows, s1.conns[c].outcomes[k]);
    var later, id := Run(s1, [Enqueue(c)] + more), s1.conns[c].handler.msg.id;
    if Find(later.db.rows, id).Some? {
      NewerIsLarger(s1.db.rows, later.db, s1.conns[c].outcomes[k].id, id);
    }
  }

  /** A row added later has a larger number than any row there was. */
  lemma NewerIsLarger(rows: seq<Row>, later: Db, id: string, id2: string)
    requires rows <= later.rows && WellFormed(later)
    requires Find(rows, id).Some? && Find(rows, id2).None? && Find(later.rows, id2).Some?
    ensures Find(rows, id).value.number < Find(later.rows, id2).value.number
  {
    var i :| 0 <= i < |rows| && rows[i] == Find(rows, id).value;
    var j := NewRow(rows, later.rows, id2);
    assert later.rows[i] == rows[i];
  }
}
