/**
 * Reactions: the log that keeps only the last toggle of each (message, user, emoji) (server/ws.go, the reactions
 * endpoint of server/history.go) and its replay in the web client (web/js/history.js).
 */
module Reactions {
  import opened Common
  import opened MessageTable
  import opened Paging
  import opened History

  datatype Key = Key(msg: string, user: string, emoji: string)

  datatype Event = Event(rseq: nat, key: Key, removed: bool)

  /** The reactions table in the order of rseq, and the next value of its sequence. */
  datatype Log = Log(events: seq<Event>, next: nat)

  function Last(events: seq<Event>, k: Key): (e: Option<Event>)
    ensures e.Some? ==> e.value in events && e.value.key == k
    ensures e.None? ==> forall x | x in events :: x.key != k
  {
    if events == [] then None
    else if events[0].key == k then Some(events[0])
    else Last(events[1..], k)
  }

  function Drop(events: seq<Event>, k: Key): seq<Event> {
    if events == [] then []
    else (if events[0].key == k then [] else [events[0]]) + Drop(events[1..], k)
  }

  /** INSERT ... ON CONFLICT DO UPDATE SET removed = NOT removed, rseq = nextval: a conflict draws two numbers. */
  function Toggle(log: Log, k: Key): Log {
    match Last(log.events, k)
    case None => Log(log.events + [Event(log.next, k, false)], log.next + 1)
    case Some(e) => Log(Drop(log.events, k) + [Event(log.next + 1, k, !e.removed)], log.next + 2)
  }

  function ToggleAll(log: Log, keys: seq<Key>): Log {
    if keys == [] then log else Toggle(ToggleAll(log, keys[..|keys| - 1]), keys[|keys| - 1])
  }

  /** The log some toggles later. */
  ghost predicate Toggled(before: Log, now: Log) {
    exists keys :: now == ToggleAll(before, keys)
  }

  lemma {:induction false} ToggleConcat(log: Log, a: seq<Key>, b: seq<Key>)
    ensures ToggleAll(log, a + b) == ToggleAll(ToggleAll(log, a), b)
  {
    if b == [] {
      assert a + b == a;
    } else {
      assert (a + b)[..|a + b| - 1] == a + b[..|b| - 1];
      ToggleConcat(log, a, b[..|b| - 1]);
    }
  }

  lemma ToggledOn(first: Log, then_: Log, last: Log)
    requires Toggled(first, then_) && Toggled(then_, last)
    ensures Toggled(first, last)
  {
    var a :| then_ == ToggleAll(first, a);
    var b :| last == ToggleAll(then_, b);
    ToggleConcat(first, a, b);
  }

  lemma ManyToggles(log: Log, keys: seq<Key>)
    ensures Toggled(log, ToggleAll(log, keys))
  {}

  lemma Untoggled(log: Log)
    ensures Toggled(log, log)
  {
    ManyToggles(log, []);
  }

  /** The primary key, and the order. */
  ghost predicate InOrder(events: seq<Event>) {
    forall i, j :: 0 <= i < j < |events| ==> events[i].rseq < events[j].rseq && events[i].key != events[j].key
  }

  ghost predicate LogOk(log: Log) {
    InOrder(log.events) && forall e | e in log.events :: e.rseq < log.next
  }

  predicate Active(log: Log, k: Key) {
    Last(log.events, k).Some? && !Last(log.events, k).value.removed
  }

  lemma HeadFirst(events: seq<Event>)
    requires InOrder(events) && events != []
    ensures InOrder(events[1..])
    ensures forall e | e in events[1..] :: events[0].rseq < e.rseq && events[0].key != e.key
  {
    forall e | e in events[1..]
      ensures events[0].rseq < e.rseq && events[0].key != e.key
    {
      var i :| 0 <= i < |events[1..]| && events[1..][i] == e;
      assert events[i + 1] == e;
    }
  }

  lemma PutFirst(head: Event, rest: seq<Event>)
    requires InOrder(rest) && forall e | e in rest :: head.rseq < e.rseq && head.key != e.key
    ensures InOrder([head] + rest)
  {}

  lemma {:induction false} DropKeeps(events: seq<Event>, k: Key)
    requires InOrder(events)
    ensures InOrder(Drop(events, k))
    ensures forall e :: e in Drop(events, k) <==> e in events && e.key != k
  {
    if events != [] {
      var tail, rest := events[1..], Drop(events[1..], k);
      HeadFirst(events);
      DropKeeps(tail, k);
      hide InOrder;
      assert events == [events[0]] + tail;
      if events[0].key == k {
        assert Drop(events, k) == rest;
      } else {
        PutFirst(events[0], rest);
      }
    }
  }

  lemma LastIs(events: seq<Event>, e: Event)
    requires InOrder(events) && e in events
    ensures Last(events, e.key) == Some(e)
  {
    var x := Last(events, e.key).value;
    var i :| 0 <= i < |events| && events[i] == e;
    var j :| 0 <= j < |events| && events[j] == x;
  }

  /** A toggle moves its key to the end under a fresh rseq and leaves every other event alone. */
  lemma ToggleKeeps(log: Log, k: Key)
    requires LogOk(log)
    ensures LogOk(Toggle(log, k)) && log.next < Toggle(log, k).next
    ensures Last(Toggle(log, k).events, k).Some? && Last(Toggle(log, k).events, k).value.rseq >= log.next
    ensures Active(Toggle(log, k), k) <==> !Active(log, k)
    ensures forall x | x != k :: Last(Toggle(log, k).events, x) == Last(log.events, x) && (Active(Toggle(log, k), x) <==> Active(log, x))
  {
    hide Last, Drop;
    var log' := Toggle(log, k);
    DropKeeps(log.events, k);
    var added := log'.events[|log'.events| - 1];
    assert LogOk(log');
    LastIs(log'.events, added);
    forall x | x != k
      ensures Last(log'.events, x) == Last(log.events, x)
    {
      if Last(log.events, x).Some? {
        assert Last(log.events, x).value in log'.events;
        LastIs(log'.events, Last(log.events, x).value);
      }
    }
  }

  function Times(keys: seq<Key>, k: Key): nat {
    if keys == [] then 0 else Times(keys[..|keys| - 1], k) + if keys[|keys| - 1] == k then 1 else 0
  }

  /** Keeping the last toggle is enough: a reaction stands exactly if it was toggled an odd number of times. */
  lemma {:induction false} LogIsParity(keys: seq<Key>, k: Key)
    ensures LogOk(ToggleAll(Log([], 1), keys))
    ensures Active(ToggleAll(Log([], 1), keys), k) <==> Times(keys, k) % 2 == 1
    ensures Last(ToggleAll(Log([], 1), keys).events, k).Some? <==> Times(keys, k) > 0
  {
    hide LogOk, Active, Toggle, Last;
    if keys == [] {
      EmptyLog(k);
    } else {
      var init := keys[..|keys| - 1];
      LogIsParity(init, k);
      ToggleKeeps(ToggleAll(Log([], 1), init), keys[|keys| - 1]);
    }
  }

  lemma EmptyLog(k: Key)
    ensures LogOk(Log([], 1)) && !Active(Log([], 1), k) && Last([], k).None?
  {}

  // ── The client ──────────────────────────────────────────────────────────

  /** A message's reactions: the emoji of each user. */
  type Marks = map<string, seq<string>>

  /** Conversations, and in each the loaded messages by id. */
  type Loaded = map<string, map<string, Marks>>

  function EmojiOf(marks: Marks, user: string): seq<string> {
    if user in marks then marks[user] else []
  }

  predicate Holds(loaded: Loaded, peer: string, id: string) {
    peer in loaded && id in loaded[peer]
  }

  predicate Shown(loaded: Loaded, peer: string, k: Key) {
    Holds(loaded, peer, k.msg) && k.emoji in EmojiOf(loaded[peer][k.msg], k.user)
  }

  function Splice(list: seq<string>, emoji: string): seq<string> {
    if list == [] then []
    else if list[0] == emoji then list[1..]
    else [list[0]] + Splice(list[1..], emoji)
  }

  /** Set or unset, whatever the state is. */
  function Mark(marks: Marks, user: string, emoji: string, removed: bool): Marks {
    var list := EmojiOf(marks, user);
    marks[user := if removed then Splice(list, emoji) else if emoji in list then list else list + [emoji]]
  }

  /** Where the replay looks for the message. */
  function ReplayPeer(me: string, m: Message): string {
    if m.from == me then m.to else m.from
  }

  type Messages = map<string, Message>

  function Apply(loaded: Loaded, me: string, messages: Messages, e: Event): Loaded
    requires e.key.msg in messages
  {
    var peer := ReplayPeer(me, messages[e.key.msg]);
    if Holds(loaded, peer, e.key.msg) then
      loaded[peer := loaded[peer][e.key.msg := Mark(loaded[peer][e.key.msg], e.key.user, e.key.emoji, e.removed)]]
    else loaded
  }

  ghost predicate Joined(messages: Messages, page: seq<Event>) {
    forall e | e in page :: e.key.msg in messages
  }

  function Replay(loaded: Loaded, me: string, messages: Messages, page: seq<Event>, n: nat): Loaded
    requires n <= |page| && Joined(messages, page)
  {
    if n == 0 then loaded else Apply(Replay(loaded, me, messages, page, n - 1), me, messages, page[n - 1])
  }

  predicate NoRepeats(list: seq<string>) {
    forall i, j :: 0 <= i < j < |list| ==> list[i] != list[j]
  }

  ghost predicate MarksNeat(marks: Marks) {
    forall u | u in marks :: NoRepeats(marks[u])
  }

  ghost predicate ChatNeat(chat: map<string, Marks>) {
    forall id | id in chat :: MarksNeat(chat[id])
  }

  /** Nobody has put the same emoji on a message twice. */
  ghost predicate Neat(loaded: Loaded) {
    forall p | p in loaded :: ChatNeat(loaded[p])
  }

  lemma {:induction false} SpliceRemoves(list: seq<string>, emoji: string)
    requires NoRepeats(list)
    ensures NoRepeats(Splice(list, emoji))
    ensures forall x :: x in Splice(list, emoji) <==> x in list && x != emoji
  {
    if list != [] {
      var tail := list[1..];
      assert list == [list[0]] + tail;
      SpliceRemoves(tail, emoji);
      if list[0] != emoji {
        forall i | 0 <= i < |Splice(tail, emoji)|
          ensures Splice(tail, emoji)[i] != list[0]
        {
          assert Splice(tail, emoji)[i] in tail;
        }
      }
    }
  }

  lemma MarkSets(marks: Marks, user: string, emoji: string, removed: bool)
    requires MarksNeat(marks)
    ensures MarksNeat(Mark(marks, user, emoji, removed))
    ensures emoji in EmojiOf(Mark(marks, user, emoji, removed), user) <==> !removed
    ensures forall u, x | u != user || x != emoji ::
              x in EmojiOf(Mark(marks, user, emoji, removed), u) <==> x in EmojiOf(marks, u)
  {
    assert NoRepeats(EmojiOf(marks, user));
    SpliceRemoves(EmojiOf(marks, user), emoji);
  }

  /** An event sets its own key where the message is found, and nothing else. */
  lemma ApplySets(loaded: Loaded, me: string, messages: Messages, e: Event, p: string, k: Key)
    requires Neat(loaded) && e.key.msg in messages
    ensures var after := Apply(loaded, me, messages, e);
            && Neat(after) && (Holds(after, p, k.msg) <==> Holds(loaded, p, k.msg))
            && (Shown(after, p, k) <==>
                if p == ReplayPeer(me, messages[e.key.msg]) && k == e.key && Holds(loaded, p, k.msg) then !e.removed else Shown(loaded, p, k))
  {
    hide Mark, MarksNeat, EmojiOf;
    var peer := ReplayPeer(me, messages[e.key.msg]);
    if Holds(loaded, peer, e.key.msg) {
      assert ChatNeat(loaded[peer]);
      MarkSets(loaded[peer][e.key.msg], e.key.user, e.key.emoji, e.removed);
    }
  }

  lemma {:induction false} ReplaySets(loaded: Loaded, me: string, messages: Messages, page: seq<Event>, n: nat,
                                      p: string, k: Key)
    requires Neat(loaded) && Joined(messages, page) && n <= |page| && InOrder(page)
    ensures var after := Replay(loaded, me, messages, page, n);
            && Neat(after) && (Holds(after, p, k.msg) <==> Holds(loaded, p, k.msg))
            && (Shown(after, p, k) <==> ShownAfter(loaded, me, messages, page, n, p, k))
  {
    hide Neat, Apply, Holds, Shown;
    if n > 0 {
      ReplaySets(loaded, me, messages, page, n - 1, p, k);
      ApplySets(Replay(loaded, me, messages, page, n - 1), me, messages, page[n - 1], p, k);
    }
  }

  /** What a replay should leave: the event of the key decides, if there is one and its message is found there. */
  ghost predicate ShownAfter(loaded: Loaded, me: string, messages: Messages, page: seq<Event>, n: nat, p: string,
                             k: Key)
    requires n <= |page| && Joined(messages, page)
  {
    if Holds(loaded, p, k.msg) && exists i :: 0 <= i < n && page[i].key == k && p == ReplayPeer(me, messages[k.msg]) then
      exists i :: 0 <= i < n && page[i].key == k && !page[i].removed
    else Shown(loaded, p, k)
  }

  // ── Agreement ───────────────────────────────────────────────────────────

  predicate VisibleTo(me: string, groups: seq<string>, m: Message) {
    m.from == me || m.to == me || m.to in groups
  }

  /** The condition of the reactions query. */
  ghost predicate Newer(me: string, groups: seq<string>, messages: Messages, since: nat, e: Event) {
    e.rseq > since && e.key.msg in messages && VisibleTo(me, groups, messages[e.key.msg])
  }

  ghost function NewerThan(me: string, groups: seq<string>, messages: Messages, since: nat): Event -> bool {
    (e: Event) => Newer(me, groups, messages, since, e)
  }

  /** Loaded messages lie in their own conversation, and only messages one may see are loaded. */
  ghost predicate Filed(me: string, groups: seq<string>, messages: Messages, loaded: Loaded) {
    forall p, id | Holds(loaded, p, id) :: id in messages && Belongs(me, groups, messages[id], p)
  }

  /** A message to a group lies under the group, one's own under its recipient, any other under its sender. */
  predicate Belongs(me: string, groups: seq<string>, m: Message, p: string) {
    && (m.from == me || m.to == me || m.to in groups)
    && p == if "g:" <= m.to || m.from == me then m.to else m.from
  }

  lemma BelongsToItsPeer(me: string, groups: seq<string>, m: Message, p: string)
    ensures Belongs(me, groups, m, p) <==> p == PeerOf(me, m) && VisibleTo(me, groups, m)
  {}

  /** The messages the replay can find: those of direct chats and one's own. */
  predicate Findable(me: string, m: Message) {
    !IsGroup(m.to) || m.from == me
  }

  /** The exact condition: the replay looks in the right conversation for findable messages and no others. */
  lemma ReplayLooksRight(me: string, m: Message)
    requires !IsGroup(m.from)
    ensures ReplayPeer(me, m) == PeerOf(me, m) <==> Findable(me, m)
  {}

  /** Up to the cursor the client shows what the server has. */
  ghost predicate AgreesOn(log: Log, loaded: Loaded, p: string, k: Key, cursor: nat) {
    match Last(log.events, k)
    case None => !Shown(loaded, p, k)
    case Some(e) => e.rseq <= cursor ==> (Shown(loaded, p, k) <==> !e.removed)
  }

  /** A loaded message that the replay can find. */
  predicate Reached(me: string, messages: Messages, loaded: Loaded, id: string) {
    id in messages && Findable(me, messages[id]) && Holds(loaded, PeerOf(me, messages[id]), id)
  }

  ghost predicate Agree(log: Log, me: string, messages: Messages, loaded: Loaded, cursor: nat) {
    forall k: Key | Reached(me, messages, loaded, k.msg) ::
      AgreesOn(log, loaded, PeerOf(me, messages[k.msg]), k, cursor)
  }

  /** Toggles that happen in the meantime get numbers above the cursor and break no agreement. */
  lemma {:induction false} AgreementSurvivesToggles(log: Log, keys: seq<Key>, me: string, messages: Messages,
                                                    loaded: Loaded, cursor: nat)
    requires LogOk(log) && cursor < log.next && Agree(log, me, messages, loaded, cursor)
    ensures LogOk(ToggleAll(log, keys)) && cursor < ToggleAll(log, keys).next
    ensures Agree(ToggleAll(log, keys), me, messages, loaded, cursor)
  {
    hide LogOk, Toggle, Last, Shown, Holds, Findable, Active, PeerOf;
    if keys != [] {
      var init, key := keys[..|keys| - 1], keys[|keys| - 1];
      AgreementSurvivesToggles(log, init, me, messages, loaded, cursor);
      var before := ToggleAll(log, init);
      ToggleKeeps(before, key);
      forall k: Key | Reached(me, messages, loaded, k.msg)
        ensures AgreesOn(Toggle(before, key), loaded, PeerOf(me, messages[k.msg]), k, cursor)
      {
        assert AgreesOn(before, loaded, PeerOf(me, messages[k.msg]), k, cursor);
      }
    }
  }

  // ── The replay loop ─────────────────────────────────────────────────────

  const REACTION_PAGE := 500
  const MAX_ROUNDS := 20

  function Latest(since: nat, page: seq<Event>, n: nat): nat
    requires n <= |page|
  {
    if n == 0 then since
    else if page[n - 1].rseq > Latest(since, page, n - 1) then page[n - 1].rseq
    else Latest(since, page, n - 1)
  }

  lemma {:induction false} LatestOf(since: nat, page: seq<Event>, n: nat)
    requires n <= |page|
    ensures Latest(since, page, n) >= since
    ensures forall i :: 0 <= i < n ==> page[i].rseq <= Latest(since, page, n)
    ensures Latest(since, page, n) == since || exists e | e in page :: e.rseq == Latest(since, page, n)
  {
    if n > 0 {
      LatestOf(since, page, n - 1);
    }
  }

  lemma {:induction false} PageInOrder(events: seq<Event>, p: Event -> bool, n: nat)
    requires InOrder(events)
    ensures InOrder(Select(events, p, n))
  {
    if events != [] && n > 0 {
      HeadFirst(events);
      var m := if p(events[0]) then n - 1 else n;
      PageInOrder(events[1..], p, m);
      hide InOrder;
      SelectSound(events[1..], p, m);
      if p(events[0]) {
        PutFirst(events[0], Select(events[1..], p, m));
      }
    }
  }

  /** What the page leaves out is newer than all of it. */
  lemma PageIsOldest(events: seq<Event>, p: Event -> bool, n: nat, e: Event, x: Event)
    requires InOrder(events) && e in events && p(e) && e !in Select(events, p, n) && x in Select(events, p, n)
    ensures x.rseq < e.rseq
  {
    SelectSound(events, p, n);
    var i :| 0 <= i < |events| && events[i] == x;
    var j :| 0 <= j < |events| && events[j] == e;
    PageComesFirst(events, p, n, i, j);
  }

  ghost predicate PeopleAreNoGroups(messages: Messages) {
    forall id | id in messages :: !IsGroup(messages[id].from)
  }

  /** Replaying a page carries the agreement up to the page's last number. */
  lemma PageAgrees(log: Log, me: string, groups: seq<string>, messages: Messages, loaded: Loaded, cursor: nat,
                   page: seq<Event>)
    requires LogOk(log) && Neat(loaded) && Filed(me, groups, messages, loaded) && PeopleAreNoGroups(messages)
    requires Agree(log, me, messages, loaded, cursor)
    requires page == Select(log.events, NewerThan(me, groups, messages, cursor), |page|)
    ensures Joined(messages, page) && Latest(cursor, page, |page|) >= cursor
    ensures var after := Replay(loaded, me, messages, page, |page|);
            && Neat(after) && Filed(me, groups, messages, after)
            && Agree(log, me, messages, after, Latest(cursor, page, |page|))
  {
    hide Neat, Shown, Holds, Replay, Latest, Select, InOrder, Findable, PeerOf;
    var newer := NewerThan(me, groups, messages, cursor);
    SelectSound(log.events, newer, |page|);
    LatestOf(cursor, page, |page|);
    PageInOrder(log.events, newer, |page|);
    var after := Replay(loaded, me, messages, page, |page|);
    forall p, id
      ensures Neat(after) && (Holds(after, p, id) <==> Holds(loaded, p, id))
    {
      ReplaySets(loaded, me, messages, page, |page|, p, Key(id, "", ""));
    }
    assert Neat(after) by {
      ReplaySets(loaded, me, messages, page, |page|, "", Key("", "", ""));
    }
    forall k: Key | Reached(me, messages, after, k.msg)
      ensures AgreesOn(log, after, PeerOf(me, messages[k.msg]), k, Latest(cursor, page, |page|))
    {
      KeyAgrees(log, me, groups, messages, loaded, cursor, page, k);
    }
  }

  lemma {:induction false} KeyAgrees(log: Log, me: string, groups: seq<string>, messages: Messages, loaded: Loaded,
                                     cursor: nat, page: seq<Event>, k: Key)
    requires LogOk(log) && Neat(loaded) && Filed(me, groups, messages, loaded) && PeopleAreNoGroups(messages)
    requires Reached(me, messages, loaded, k.msg) && AgreesOn(log, loaded, PeerOf(me, messages[k.msg]), k, cursor)
    requires page == Select(log.events, NewerThan(me, groups, messages, cursor), |page|) && Joined(messages, page)
    ensures AgreesOn(log, Replay(loaded, me, messages, page, |page|), PeerOf(me, messages[k.msg]), k, Latest(cursor, page, |page|))
  {
    hide Neat, Shown, Holds, Replay, Latest, Select, InOrder, Last;
    var newer := NewerThan(me, groups, messages, cursor);
    var p := PeerOf(me, messages[k.msg]);
    SelectSound(log.events, newer, |page|);
    PageInOrder(log.events, newer, |page|);
    ReplaySets(loaded, me, messages, page, |page|, p, k);
    ReplayLooksRight(me, messages[k.msg]);
    LatestOf(cursor, page, |page|);
    match Last(log.events, k)
    case None =>
    case Some(e) =>
      forall x | x in page && x.key == k
        ensures x == e
      {
        LastIs(log.events, x);
      }
      if e in page {
        var i :| 0 <= i < |page| && page[i] == e;
      } else if cursor < e.rseq <= Latest(cursor, page, |page|) {
        var x :| x in page && x.rseq == Latest(cursor, page, |page|);
        PageIsOldest(log.events, newer, |page|, e, x);
      }
  }

  /**
   * The reactions endpoint; people may toggle reactions before every request. A server that is up answers every request,
   * and on a whole one no iteration ends early.
   */
  class ReactionServer {
    var log: Log
    const me: string
    const groups: seq<string>
    const messages: Messages
    const up: bool
    const whole: bool

    constructor (log: Log, me: string, groups: seq<string>, messages: Messages, up: bool, whole: bool)
      ensures this.log == log && this.me == me && this.groups == groups && this.messages == messages
      ensures this.up == up && this.whole == whole
    {
      this.log, this.me, this.groups, this.messages, this.up, this.whole := log, me, groups, messages, up, whole;
    }

    /** The iteration over the rows may end early, and nothing looks at why. */
    method Fetch(since: nat, ghost loaded: Loaded) returns (page: Option<seq<Event>>)
      requires LogOk(log) && since < log.next && Agree(log, me, messages, loaded, since)
      modifies this
      ensures Toggled(old(log), log)
      ensures LogOk(log) && since < log.next && Agree(log, me, messages, loaded, since)
      ensures page.Some? ==> page.value <= Select(log.events, NewerThan(me, groups, messages, since), REACTION_PAGE)
      ensures page.Some? && whole ==> page.value == Select(log.events, NewerThan(me, groups, messages, since), REACTION_PAGE)
      ensures up ==> page.Some?
    {
      var toggles: seq<Key> := *;
      AgreementSurvivesToggles(log, toggles, me, messages, loaded, since);
      ManyToggles(log, toggles);
      log := ToggleAll(log, toggles);
      var answered: bool := *;
      if !answered && !up {
        return None;
      }
      var pass := (e: Event) => e.rseq > since && e.key.msg in messages && VisibleTo(me, groups, messages[e.key.msg]);
      SamePage(log.events, pass, NewerThan(me, groups, messages, since), REACTION_PAGE) by {
        SelectSound(log.events, NewerThan(me, groups, messages, since), REACTION_PAGE);
      }
      var all := Select(log.events, pass, REACTION_PAGE);
      var n :| 0 <= n <= |all| && (whole ==> n == |all|);
      page := Some(all[..n]);
    }
  }

  class ReactionSync {
    var loaded: Loaded
    var rseq: nat

    constructor (loaded: Loaded, rseq: nat)
      ensures this.loaded == loaded && this.rseq == rseq
    {
      this.loaded, this.rseq := loaded, rseq;
    }

    /** The loop over one page of events. */
    method ReplayPage(me: string, messages: Messages, page: seq<Event>)
      requires Joined(messages, page)
      modifies this
      ensures loaded == Replay(old(loaded), me, messages, page, |page|)
      ensures rseq == Latest(old(rseq), page, |page|)
    {
      hide Apply;
      for n := 0 to |page|
        invariant loaded == Replay(old(loaded), me, messages, page, n) && rseq == Latest(old(rseq), page, n)
      {
        if page[n].rseq > rseq {
          rseq := page[n].rseq;
        }
        loaded := Apply(loaded, me, messages, page[n]);
      }
    }

    /**
     * The second half of loadHistory. However it ends, the client shows what the server has up to its new cursor; if it
     * ends by itself, it shows all the server has for every message the replay can find, unless the last page was cut:
     * such a page is short and passes for the last. Only a failing server or ten thousand new numbers keep it from that.
     */
    method SyncReactions(server: ReactionServer) returns (complete: bool, failed: bool, rounds: nat, ghost last: LastEvents)
      requires LogOk(server.log) && PeopleAreNoGroups(server.messages) && rseq < server.log.next
      requires Neat(loaded) && Filed(server.me, server.groups, server.messages, loaded)
      requires Agree(server.log, server.me, server.messages, loaded, rseq)
      modifies this, server
      ensures LogOk(server.log) && Neat(loaded) && Filed(server.me, server.groups, server.messages, loaded) && rseq >= old(rseq)
      ensures Agree(server.log, server.me, server.messages, loaded, rseq) && Toggled(old(server.log), server.log)
      ensures complete && server.whole ==> ShowsAll(server.log, server.me, server.messages, loaded)
      ensures complete && server.whole ==> ShowsEverywhere(server.log, server.me, server.messages, loaded)
      ensures complete ==> ReplayEnded(server.log, server.me, server.groups, server.messages, old(rseq), rseq, last)
      ensures complete && last.events == Newest(server.log, server.me, server.groups, server.messages, last.since) ==>
                ShowsAll(server.log, server.me, server.messages, loaded)
      ensures complete <==> !failed && rounds <= MAX_ROUNDS
      ensures failed ==> !server.up
      ensures rounds > MAX_ROUNDS ==> server.log.next > old(rseq) + MAX_ROUNDS * REACTION_PAGE
    {
      hide LogOk, PeopleAreNoGroups, Neat, Filed, Agree, Select, Replay, Latest, ShowsAll, ShowsEverywhere;
      hide Toggled;
      complete, failed, rounds, last := false, false, 0, LastEvents(0, []);
      Untoggled(server.log);
      while true
        invariant LogOk(server.log) && Neat(loaded) && Filed(server.me, server.groups, server.messages, loaded)
        invariant Agree(server.log, server.me, server.messages, loaded, rseq)
        invariant rseq < server.log.next && !complete && !failed && rounds <= MAX_ROUNDS
        invariant Toggled(old(server.log), server.log)
        invariant rseq >= old(rseq) + rounds * REACTION_PAGE
        decreases MAX_ROUNDS - rounds
      {
        rounds := rounds + 1;
        if rounds > MAX_ROUNDS {
          break;
        }
        ghost var known := server.log;
        var page := server.Fetch(rseq, loaded);
        ToggledOn(old(server.log), known, server.log);
        if page.None? {
          failed := true;
          break;
        }
        CutPage(server.log.events, NewerThan(server.me, server.groups, server.messages, rseq), REACTION_PAGE, |page.value|);
        PageAgrees(server.log, server.me, server.groups, server.messages, loaded, rseq, page.value);
        PageBelowNext(server.log, server.me, server.groups, server.messages, rseq, page.value);
        PageMoves(server.log, server.me, server.groups, server.messages, rseq, page.value);
        ghost var was := loaded;
        last := LastEvents(rseq, page.value);
        if page.value != [] {
          ReplayPage(server.me, server.messages, page.value);
        }
        if |page.value| < REACTION_PAGE {
          if page.value == Newest(server.log, server.me, server.groups, server.messages, last.since) {
            ShortPageShowsAll(server.log, server.me, server.groups, server.messages, was, last.since, page.value);
          }
          complete := true;
          break;
        }
      }
      AllIsEverywhere(server.log, server.me, server.groups, server.messages, loaded);
    }
  }

  /** The page a replay ended on. */
  datatype LastEvents = LastEvents(since: nat, events: seq<Event>)

  /** What a whole page behind a cursor holds. */
  ghost function Newest(log: Log, me: string, groups: seq<string>, messages: Messages, since: nat): seq<Event> {
    Select(log.events, NewerThan(me, groups, messages, since), REACTION_PAGE)
  }

  /** The page is one the server may have sent, it is not full, and the cursor stands where it ends. */
  ghost predicate ReplayEnded(log: Log, me: string, groups: seq<string>, messages: Messages, start: nat, rseq: nat, last: LastEvents) {
    && start <= last.since && last.events <= Newest(log, me, groups, messages, last.since)
    && |last.events| < REACTION_PAGE && rseq == Latest(last.since, last.events, |last.events|)
  }

  /** The numbers of a page are distinct, so the cursor moves by at least its length. */
  lemma PageMoves(log: Log, me: string, groups: seq<string>, messages: Messages, since: nat, page: seq<Event>)
    requires LogOk(log) && page == Select(log.events, NewerThan(me, groups, messages, since), |page|)
    ensures Latest(since, page, |page|) >= since + |page|
  {
    var newer := NewerThan(me, groups, messages, since);
    hide Select, InOrder, Latest;
    SelectSound(log.events, newer, |page|);
    PageInOrder(log.events, newer, |page|);
    InOrderMoves(since, page, |page|);
  }

  lemma {:induction false} InOrderMoves(since: nat, page: seq<Event>, n: nat)
    requires InOrder(page) && n <= |page| && forall e | e in page :: e.rseq > since
    ensures Latest(since, page, n) >= since + n && (n > 0 ==> page[n - 1].rseq >= since + n)
  {
    if n > 0 {
      InOrderMoves(since, page, n - 1);
      assert page[n - 1] in page;
    }
  }

  /** Every message the replay can find shows the server's reactions. */
  ghost predicate ShowsAll(log: Log, me: string, messages: Messages, loaded: Loaded) {
    forall k: Key | Reached(me, messages, loaded, k.msg) :: Shown(loaded, PeerOf(me, messages[k.msg]), k) <==> Active(log, k)
  }

  /** Wherever a message of a direct chat, or one's own, is loaded, it shows what stands on the server. */
  ghost predicate ShowsEverywhere(log: Log, me: string, messages: Messages, loaded: Loaded) {
    forall p, k: Key | Holds(loaded, p, k.msg) && k.msg in messages :: ShownAsItIs(log, me, messages[k.msg], loaded, p, k)
  }

  ghost predicate ShownAsItIs(log: Log, me: string, m: Message, loaded: Loaded, p: string, k: Key) {
    !("g:" <= m.to) || m.from == me ==> (Shown(loaded, p, k) <==> Active(log, k))
  }

  lemma AllIsEverywhere(log: Log, me: string, groups: seq<string>, messages: Messages, loaded: Loaded)
    requires Filed(me, groups, messages, loaded)
    ensures ShowsAll(log, me, messages, loaded) ==> ShowsEverywhere(log, me, messages, loaded)
  {
    hide Shown, Active, Holds;
    if ShowsAll(log, me, messages, loaded) {
      forall p, k: Key | Holds(loaded, p, k.msg) && k.msg in messages
        ensures ShownAsItIs(log, me, messages[k.msg], loaded, p, k)
      {
        BelongsToItsPeer(me, groups, messages[k.msg], p);
        assert Findable(me, messages[k.msg]) ==> Reached(me, messages, loaded, k.msg);
      }
    }
  }

  lemma PageBelowNext(log: Log, me: string, groups: seq<string>, messages: Messages, since: nat, page: seq<Event>)
    requires LogOk(log) && since < log.next
    requires page == Select(log.events, NewerThan(me, groups, messages, since), |page|)
    ensures Latest(since, page, |page|) < log.next
    ensures page == [] ==> Latest(since, page, |page|) == since
  {
    SelectSound(log.events, NewerThan(me, groups, messages, since), |page|);
    LatestOf(since, page, |page|);
  }

  /** A page that is not full reaches the newest event of every message one may see. */
  lemma ShortPageShowsAll(log: Log, me: string, groups: seq<string>, messages: Messages, loaded: Loaded, cursor: nat,
                          page: seq<Event>)
    requires LogOk(log) && Neat(loaded) && Filed(me, groups, messages, loaded) && PeopleAreNoGroups(messages)
    requires Agree(log, me, messages, loaded, cursor)
    requires page == Select(log.events, NewerThan(me, groups, messages, cursor), REACTION_PAGE) && |page| < REACTION_PAGE
    ensures Joined(messages, page) && ShowsAll(log, me, messages, Replay(loaded, me, messages, page, |page|))
    ensures page == [] ==> Replay(loaded, me, messages, page, |page|) == loaded
  {
    hide LogOk, Neat, Shown, Holds, Select, Last;
    CutPage(log.events, NewerThan(me, groups, messages, cursor), REACTION_PAGE, |page|);
    assert page[..|page|] == page;
    PageAgrees(log, me, groups, messages, loaded, cursor, page);
    LatestOf(cursor, page, |page|);
    var after, last := Replay(loaded, me, messages, page, |page|), Latest(cursor, page, |page|);
    forall k: Key | Reached(me, messages, after, k.msg)
      ensures Shown(after, PeerOf(me, messages[k.msg]), k) <==> Active(log, k)
    {
      assert AgreesOn(log, after, PeerOf(me, messages[k.msg]), k, last);
      match Last(log.events, k)
      case None =>
      case Some(e) =>
        if e.rseq > cursor {
          ShortPageIsAll(log.events, NewerThan(me, groups, messages, cursor), REACTION_PAGE, e);
          var i :| 0 <= i < |page| && page[i] == e;
        }
    }
  }

  // ── Replaying again ─────────────────────────────────────────────────────

  /** The event has been dealt with: its message is not found, or shows what the event says. */
  ghost predicate Settled(loaded: Loaded, me: string, messages: Messages, e: Event)
    requires e.key.msg in messages
  {
    var peer := ReplayPeer(me, messages[e.key.msg]);
    Holds(loaded, peer, e.key.msg) ==>
      var marks := loaded[peer][e.key.msg];
      e.key.user in marks && (e.key.emoji in marks[e.key.user] <==> !e.removed)
  }

  lemma {:induction false} SpliceAbsent(list: seq<string>, emoji: string)
    requires emoji !in list
    ensures Splice(list, emoji) == list
  {
    if list != [] {
      SpliceAbsent(list[1..], emoji);
    }
  }

  lemma SettledIsNoop(loaded: Loaded, me: string, messages: Messages, e: Event)
    requires e.key.msg in messages && Settled(loaded, me, messages, e)
    ensures Apply(loaded, me, messages, e) == loaded
  {
    var peer := ReplayPeer(me, messages[e.key.msg]);
    if Holds(loaded, peer, e.key.msg) {
      var marks := loaded[peer][e.key.msg];
      if e.removed {
        SpliceAbsent(marks[e.key.user], e.key.emoji);
      }
      assert Mark(marks, e.key.user, e.key.emoji, e.removed) == marks;
      assert loaded[peer][e.key.msg := marks] == loaded[peer];
    }
  }

  lemma {:induction false} ApplySettles(loaded: Loaded, me: string, messages: Messages, e: Event, other: Event)
    requires Neat(loaded) && e.key.msg in messages && other.key.msg in messages
    ensures Neat(Apply(loaded, me, messages, e))
    ensures Settled(Apply(loaded, me, messages, e), me, messages, e)
    ensures Settled(loaded, me, messages, other) && other.key != e.key ==> Settled(Apply(loaded, me, messages, e), me, messages, other)
  {
    ApplySets(loaded, me, messages, e, "", e.key);
    hide NoRepeats;
    var peer := ReplayPeer(me, messages[e.key.msg]);
    if Holds(loaded, peer, e.key.msg) {
      assert ChatNeat(loaded[peer]);
      MarkSets(loaded[peer][e.key.msg], e.key.user, e.key.emoji, e.removed);
    }
  }

  lemma {:induction false} ReplaySettles(loaded: Loaded, me: string, messages: Messages, page: seq<Event>, n: nat)
    requires Neat(loaded) && Joined(messages, page) && InOrder(page) && n <= |page|
    ensures Neat(Replay(loaded, me, messages, page, n))
    ensures forall i :: 0 <= i < n ==> Settled(Replay(loaded, me, messages, page, n), me, messages, page[i])
  {
    hide Neat, Apply, Settled;
    if n > 0 {
      ReplaySettles(loaded, me, messages, page, n - 1);
      forall i | 0 <= i < n
        ensures Settled(Replay(loaded, me, messages, page, n), me, messages, page[i])
      {
        ApplySettles(Replay(loaded, me, messages, page, n - 1), me, messages, page[n - 1], page[i]);
      }
      ApplySettles(Replay(loaded, me, messages, page, n - 1), me, messages, page[n - 1], page[n - 1]);
    }
  }

  lemma {:induction false} SettledReplayIsNoop(loaded: Loaded, me: string, messages: Messages, page: seq<Event>, n: nat)
    requires Joined(messages, page) && n <= |page| && forall i :: 0 <= i < n ==> Settled(loaded, me, messages, page[i])
    ensures Replay(loaded, me, messages, page, n) == loaded
  {
    hide Settled, Apply;
    if n > 0 {
      SettledReplayIsNoop(loaded, me, messages, page, n - 1);
      SettledIsNoop(loaded, me, messages, page[n - 1]);
    }
  }

  /** Replaying a page a second time, as after a lost cursor, changes nothing at all. */
  lemma ReplayTwice(log: Log, me: string, groups: seq<string>, messages: Messages, loaded: Loaded, since: nat)
    requires LogOk(log) && Neat(loaded)
    ensures var page := Select(log.events, NewerThan(me, groups, messages, since), REACTION_PAGE);
            && Joined(messages, page)
            && var once := Replay(loaded, me, messages, page, |page|); Replay(once, me, messages, page, |page|) == once
  {
    hide Neat, Settled, Replay, Select, InOrder;
    var newer := NewerThan(me, groups, messages, since);
    var page := Select(log.events, newer, REACTION_PAGE);
    SelectSound(log.events, newer, REACTION_PAGE);
    PageInOrder(log.events, newer, REACTION_PAGE);
    ReplaySettles(loaded, me, messages, page, |page|);
    SettledReplayIsNoop(Replay(loaded, me, messages, page, |page|), me, messages, page, |page|);
  }

  /** For other people's messages in groups the replay is blind: what they show is left as it was. */
  lemma {:induction false} UnfindableStays(loaded: Loaded, me: string, messages: Messages, page: seq<Event>, n: nat,
                                           id: string)
    requires n <= |page| && Joined(messages, page) && id in messages && PeopleAreNoGroups(messages)
    requires !Findable(me, messages[id]) && Holds(loaded, PeerOf(me, messages[id]), id)
    ensures var after := Replay(loaded, me, messages, page, n);
            Holds(after, PeerOf(me, messages[id]), id) && after[PeerOf(me, messages[id])][id] == loaded[PeerOf(me, messages[id])][id]
  {
    if n > 0 {
      UnfindableStays(loaded, me, messages, page, n - 1, id);
      ReplayLooksRight(me, messages[id]);
    }
  }
}
