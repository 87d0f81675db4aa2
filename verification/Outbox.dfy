/** The persistent outbox of the web client (web/js/transport.js). */
module Outbox {
  import opened Common
  import opened MessageTable

  /** queueMessage: an envelope of the same id is replaced, otherwise appended. */
  function Put(pending: seq<Message>, e: Message): seq<Message> {
    if pending == [] then [e]
    else if pending[0].id == e.id then [e] + pending[1..]
    else [pending[0]] + Put(pending[1..], e)
  }

  /** ackPending. */
  function Forget(pending: seq<Message>, id: string): seq<Message> {
    if pending == [] then []
    else (if pending[0].id != id then [pending[0]] else []) + Forget(pending[1..], id)
  }

  lemma {:induction false} PutHas(pending: seq<Message>, e: Message, id: string)
    ensures HasId(Put(pending, e), id) <==> HasId(pending, id) || id == e.id
    ensures forall m | m in Put(pending, e) :: m in pending || m == e
  {
    if pending == [] {
      HasIdCons(e, [], id);
    } else {
      PutHas(pending[1..], e, id);
      assert pending == [pending[0]] + pending[1..];
      HasIdCons(pending[0], pending[1..], id);
      HasIdCons(e, pending[1..], id);
      HasIdCons(pending[0], Put(pending[1..], e), id);
    }
  }

  lemma {:induction false} ForgetHas(pending: seq<Message>, gone: string, id: string)
    ensures HasId(Forget(pending, gone), id) <==> HasId(pending, id) && id != gone
    ensures forall m | m in Forget(pending, gone) :: m in pending
  {
    if pending != [] {
      ForgetHas(pending[1..], gone, id);
      assert pending == [pending[0]] + pending[1..];
      HasIdCons(pending[0], pending[1..], id);
      HasIdCons(pending[0], Forget(pending[1..], gone), id);
      assert [] + Forget(pending[1..], gone) == Forget(pending[1..], gone);
    }
  }

  lemma HasIdCons(m: Message, ms: seq<Message>, id: string)
    ensures HasId([m] + ms, id) <==> m.id == id || HasId(ms, id)
  {
    assert ([m] + ms)[0] == m;
    if HasId(ms, id) {
      var i :| 0 <= i < |ms| && ms[i].id == id;
      assert ([m] + ms)[i + 1].id == id;
    }
  }

  /** Replacing the first envelope of the id, or appending, is what Put says. */
  lemma {:induction false} PutAt(pending: seq<Message>, e: Message, i: nat)
    requires i <= |pending| && forall k :: 0 <= k < i ==> pending[k].id != e.id
    requires i < |pending| ==> pending[i].id == e.id
    ensures Put(pending, e) == if i < |pending| then pending[i := e] else pending + [e]
  {
    if pending != [] && i > 0 {
      PutAt(pending[1..], e, i - 1);
    }
  }

  lemma {:induction false} ForgetSnoc(pending: seq<Message>, m: Message, id: string)
    ensures Forget(pending + [m], id) == Forget(pending, id) + if m.id != id then [m] else []
  {
    var more := pending + [m];
    if pending == [] {
      assert more[1..] == [];
    } else {
      assert more[1..] == pending[1..] + [m];
      ForgetSnoc(pending[1..], m, id);
    }
  }

  /** `pending` is the list in localStorage; `wire` is what the current socket was given. */
  class Client {
    var pending: seq<Message>
    var open: bool
    var wire: seq<Message>

    constructor (pending: seq<Message>)
      ensures this.pending == pending && !open && wire == []
    {
      this.pending, open, wire := pending, false, [];
    }

    /** _trySend: a dead socket swallows nothing, it just says no. */
    method TrySend(e: Message) returns (sent: bool)
      modifies this`wire
      ensures sent == open && wire == old(wire) + if open then [e] else []
    {
      if open {
        wire := wire + [e];
      }
      sent := open;
    }

    /** queueMessage: into the list first, onto the wire second. Storage that is full is passed over in silence. */
    method QueueMessage(e: Message, storageFull: bool) returns (sent: bool)
      modifies this`pending, this`wire
      ensures pending == (if storageFull then old(pending) else Put(old(pending), e))
      ensures sent == open && wire == old(wire) + if open then [e] else []
    {
      var list := pending;
      var i := 0;
      while i < |list| && list[i].id != e.id
        invariant 0 <= i <= |list| && forall k :: 0 <= k < i ==> list[k].id != e.id
      {
        i := i + 1;
      }
      PutAt(list, e, i);
      list := if i < |list| then list[i := e] else list + [e];
      if !storageFull {
        pending := list;
      }
      sent := TrySend(e);
    }

    /** ackPending: written back only when something was taken off. */
    method AckPending(id: string)
      modifies this`pending
      ensures pending == Forget(old(pending), id)
    {
      var list, next: seq<Message> := pending, [];
      for i := 0 to |list|
        invariant pending == list && next == Forget(list[..i], id) && |next| <= i
        invariant |next| == i ==> next == list[..i]
      {
        ForgetSnoc(list[..i], list[i], id);
        assert list[..i + 1] == list[..i] + [list[i]];
        if list[i].id != id {
          next := next + [list[i]];
        }
      }
      assert list[..|list|] == list;
      assert next == Forget(list, id);
      if |next| != |list| {
        pending := next;
      }
    }

    /** flushPendingMessages: everything not yet acknowledged, in the order it was queued. */
    method FlushPendingMessages()
      modifies this`wire
      ensures wire == old(wire) + if open then pending else []
    {
      if !open {
        return;
      }
      for i := 0 to |pending|
        invariant wire == old(wire) + pending[..i]
      {
        var _ := TrySend(pending[i]);
        assert pending[..i + 1] == pending[..i] + [pending[i]];
      }
      assert pending[..|pending|] == pending;
    }

    /** onopen on a fresh socket: _flushOutbox flushes the pending list, and onopen does so once more. */
    method OnOpen()
      modifies this`open, this`wire
      ensures open && wire == pending + pending
    {
      open, wire := true, [];
      FlushPendingMessages();
      FlushPendingMessages();
    }
  }
}
