/** The sliding-window limiter (server/limiter.go): a store that forgets in place and answers as if it did not. */
module Limiter {
  import opened Common

  // ── Time stamps in a window ─────────────────────────────────────────────

  /** The time stamps later than the cutoff, in order. */
  function After(times: seq<int>, cutoff: int): seq<int> {
    if times == [] then []
    else
      var init, last := times[..|times| - 1], times[|times| - 1];
      After(init, cutoff) + if last > cutoff then [last] else []
  }

  lemma {:induction false} AfterAfter(times: seq<int>, early: int, late: int)
    requires early <= late
    ensures After(After(times, early), late) == After(times, late)
  {
    if times != [] {
      var init, last := times[..|times| - 1], times[|times| - 1];
      AfterAfter(init, early, late);
      AfterSnoc(After(init, early), last, late);
      assert After(init, early) + [] == After(init, early);
    }
  }

  lemma AfterSnoc(times: seq<int>, t: int, cutoff: int)
    ensures After(times + [t], cutoff) == After(times, cutoff) + if t > cutoff then [t] else []
  {
    assert (times + [t])[..|times|] == times;
  }

  /** As many as were recorded after the cutoff. */
  lemma {:induction false} AfterCounts(times: seq<int>, cutoff: int)
    ensures |After(times, cutoff)| == |set i | 0 <= i < |times| && times[i] > cutoff|
    ensures forall t :: t in After(times, cutoff) <==> t in times && t > cutoff
  {
    if times != [] {
      var init, last := times[..|times| - 1], times[|times| - 1];
      AfterCounts(init, cutoff);
      assert times == init + [last];
      var early := set i | 0 <= i < |init| && init[i] > cutoff;
      var all := set i | 0 <= i < |times| && times[i] > cutoff;
      assert all == early + if last > cutoff then {|init|} else {};
    }
  }

  /** Two stores answer alike from some cutoff on. */
  lemma AgreeLater(a: seq<int>, b: seq<int>, early: int, late: int)
    requires After(a, early) == After(b, early) && early <= late
    ensures After(a, late) == After(b, late)
  {
    AfterAfter(a, early, late);
    AfterAfter(b, early, late);
  }

  // ── Slices ──────────────────────────────────────────────────────────────

  /** A slice of time stamps: the first `len` cells of its backing array. */
  datatype Slice = Slice(cells: array<int>, len: nat)

  ghost function Contents(s: Slice): seq<int>
    requires s.len <= s.cells.Length
    reads s.cells
  {
    s.cells[..s.len]
  }

  /** append: in place while there is room, otherwise into a larger array of its own. */
  method Append(s: Slice, t: int) returns (r: Slice)
    requires s.len <= s.cells.Length
    modifies s.cells
    ensures r.len == s.len + 1 <= r.cells.Length && Contents(r) == old(Contents(s)) + [t]
    ensures if s.len < s.cells.Length then r.cells == s.cells else fresh(r.cells)
    ensures forall i :: s.len < i < s.cells.Length ==> s.cells[i] == old(s.cells[i])
  {
    if s.len < s.cells.Length {
      s.cells[s.len] := t;
      return Slice(s.cells, s.len + 1);
    }
    var larger := new int[2 * s.len + 1];
    for i := 0 to s.len
      invariant larger[..i] == s.cells[..i]
      invariant s.cells[..s.len] == old(s.cells[..s.len])
    {
      larger[i] := s.cells[i];
    }
    larger[s.len] := t;
    r := Slice(larger, s.len + 1);
  }

  /** alive := times[:0], then append what survives: the writes never overtake the reads. */
  method Compact(times: Slice, cutoff: int) returns (alive: Slice)
    requires times.len <= times.cells.Length
    modifies times.cells
    ensures alive.cells == times.cells && alive.len <= times.len
    ensures Contents(alive) == After(old(Contents(times)), cutoff)
  {
    alive := Slice(times.cells, 0);
    ghost var was := times.cells[..times.len];
    for i := 0 to times.len
      invariant alive.cells == times.cells && alive.len <= i
      invariant Contents(alive) == After(was[..i], cutoff)
      invariant forall k :: i <= k < times.len ==> times.cells[k] == was[k]
    {
      assert was[..i + 1] == was[..i] + [was[i]];
      AfterSnoc(was[..i], was[i], cutoff);
      var t := times.cells[i];
      if t > cutoff {
        alive := Append(alive, t);
      }
    }
    assert was[..times.len] == was;
  }

  /** valid := []int64{}, then append what survives: a copy, the old array is left alone. */
  method Survivors(times: Option<Slice>, cutoff: int) returns (valid: Slice)
    requires times.Some? ==> times.value.len <= times.value.cells.Length
    ensures valid.len <= valid.cells.Length && fresh(valid.cells)
    ensures Contents(valid) == After(if times.Some? then Contents(times.value) else [], cutoff)
  {
    var none := new int[0];
    valid := Slice(none, 0);
    if times.None? {
      return;
    }
    var s := times.value;
    for i := 0 to s.len
      invariant valid.len <= valid.cells.Length && fresh(valid.cells)
      invariant Contents(valid) == After(s.cells[..i], cutoff)
    {
      assert s.cells[..i + 1] == s.cells[..i] + [s.cells[i]];
      AfterSnoc(s.cells[..i], s.cells[i], cutoff);
      if s.cells[i] > cutoff {
        valid := Append(valid, s.cells[i]);
      }
    }
  }

  // ── The limiter ─────────────────────────────────────────────────────────

  class RateLimiter {
    var attempts: map<string, Slice>
    const maxAttempts: int
    const windowSecs: int

    /** Everything ever recorded, and the last reading of the clock. */
    ghost var history: map<string, seq<int>>
    ghost var clock: int

    constructor (maxAttempts: int, windowSecs: int, ghost start: int)
      ensures Valid() && this.maxAttempts == maxAttempts && this.windowSecs == windowSecs
      ensures history == map[] && clock == start && attempts == map[]
    {
      this.maxAttempts, this.windowSecs, attempts := maxAttempts, windowSecs, map[];
      history, clock := map[], start;
    }

    ghost function Cells(): set<object>
      reads this
    {
      set k | k in attempts :: attempts[k].cells
    }

    ghost predicate Separate()
      reads this
    {
      && (forall k | k in attempts :: attempts[k].len <= attempts[k].cells.Length)
      && (forall j, k | j in attempts && k in attempts && j != k :: attempts[j].cells != attempts[k].cells)
    }

    ghost function Stored(key: string): seq<int>
      requires Separate()
      reads this, Cells()
    {
      if key in attempts then Contents(attempts[key]) else []
    }

    ghost function Recorded(key: string): seq<int>
      reads this`history
    {
      if key in history then history[key] else []
    }

    /** What is stored and what was recorded do not differ inside any window that is still to be asked about. */
    ghost predicate Faithful(now: int)
      requires Separate()
      reads this, Cells()
    {
      forall k :: After(Stored(k), now - windowSecs) == After(Recorded(k), now - windowSecs)
    }

    ghost predicate Valid()
      reads this, Cells()
    {
      Separate() && Faithful(clock)
    }

    /** Blocked exactly if the window holds that many records, however much has been forgotten. */
    method IsBlocked(key: string, now: int) returns (blocked: bool)
      requires Valid() && now >= clock
      modifies this`attempts, this`clock
      ensures Valid() && clock == now && fresh(Cells() - old(Cells()))
      ensures blocked <==> |set i | 0 <= i < |Recorded(key)| && Recorded(key)[i] > now - windowSecs| >= maxAttempts
      ensures blocked <==> |After(Recorded(key), now - windowSecs)| >= maxAttempts
    {
      hide After;
      var cutoff := now - windowSecs;
      StillFaithful(now);
      AfterAfter(Stored(key), cutoff, cutoff);
      var valid := Survivors(if key in attempts then Some(attempts[key]) else None, cutoff);
      assert forall k | k in attempts :: attempts[k].cells != valid.cells;
      attempts := attempts[key := valid];
      clock := now;
      assert Separate();
      assert Stored(key) == After(old(Stored(key)), cutoff);
      assert forall k | k != key :: Stored(k) == old(Stored(k));
      AfterCounts(Recorded(key), cutoff);
      blocked := valid.len >= maxAttempts;
    }

    lemma StillFaithful(now: int)
      requires Valid() && now >= clock
      ensures Faithful(now)
    {
      forall k
        ensures After(Stored(k), now - windowSecs) == After(Recorded(k), now - windowSecs)
      {
        AgreeLater(Stored(k), Recorded(k), clock - windowSecs, now - windowSecs);
      }
    }

    /** The slice of a key; for an absent key an empty one of its own. */
    method SliceOf(key: string) returns (times: Slice)
      requires Separate()
      ensures if key in attempts then times == attempts[key] else fresh(times.cells)
      ensures times.len <= times.cells.Length && Contents(times) == Stored(key)
      ensures forall k | k in attempts && k != key :: attempts[k].cells != times.cells
    {
      if key in attempts {
        return attempts[key];
      }
      var none := new int[0];
      times := Slice(none, 0);
    }

    /** attempts[key] = append(attempts[key], now). */
    method AppendTo(key: string, now: int)
      requires Separate()
      modifies this`attempts, Cells()
      ensures Separate() && fresh(Cells() - old(Cells()))
      ensures Stored(key) == old(Stored(key)) + [now]
      ensures forall k | k != key :: Stored(k) == old(Stored(k))
    {
      var times := SliceOf(key);
      var longer := Append(times, now);
      attempts := attempts[key := longer];
    }

    method RecordFailure(key: string, now: int)
      requires Valid() && now >= clock
      modifies this`attempts, this`history, this`clock, Cells()
      ensures Valid() && clock == now && fresh(Cells() - old(Cells()))
      ensures history == old(history)[key := old(Recorded(key)) + [now]]
    {
      hide After;
      StillFaithful(now);
      ghost var cutoff := now - windowSecs;
      AfterSnoc(Stored(key), now, cutoff);
      AfterSnoc(Recorded(key), now, cutoff);
      history := history[key := Recorded(key) + [now]];
      clock := now;
      assert Separate() && forall k :: Stored(k) == old(Stored(k));
      AppendTo(key, now);
      assert Recorded(key) == old(Recorded(key)) + [now] && forall k | k != key :: Recorded(k) == old(Recorded(k));
    }

    /** One round of the janitor's loop. */
    method CleanKey(key: string, now: int)
      requires Separate() && Faithful(now) && key in attempts
      modifies this`attempts, Cells()
      ensures Separate() && Faithful(now) && Cells() <= old(Cells())
      ensures attempts.Keys == old(attempts).Keys - (if After(Recorded(key), now - windowSecs) == [] then {key} else {})
    {
      hide After;
      var cutoff := now - windowSecs;
      AfterAfter(Stored(key), cutoff, cutoff);
      var alive := Compact(attempts[key], cutoff);
      if alive.len == 0 {
        attempts := attempts - {key};
      } else {
        attempts := attempts[key := alive];
      }
      assert Separate();
      assert Stored(key) == After(old(Stored(key)), cutoff);
      assert forall k | k != key :: Stored(k) == old(Stored(k));
    }

    /** The janitor: keys whose records have all aged out disappear, and no answer changes. */
    method Cleanup(now: int)
      requires Valid() && now >= clock
      modifies this`attempts, this`clock, Cells()
      ensures Valid() && clock == now && Cells() <= old(Cells())
      ensures forall k :: k in attempts <==> k in old(attempts) && After(Recorded(k), now - windowSecs) != []
      ensures forall k | k in old(attempts) && k !in attempts :: forall t | t in Recorded(k) :: t <= now - windowSecs
    {
      hide After;
      StillFaithful(now);
      forall k
        ensures After(Recorded(k), now - windowSecs) == [] ==> forall t | t in Recorded(k) :: t <= now - windowSecs
      {
        AfterCounts(Recorded(k), now - windowSecs);
      }
      var todo := attempts.Keys;
      clock := now;
      while todo != {}
        invariant clock == now && Separate() && Faithful(now) && Cells() <= old(Cells()) && todo <= attempts.Keys
        invariant forall k :: k in attempts <==> k in old(attempts) && (k in todo || After(Recorded(k), now - windowSecs) != [])
        decreases |todo|
      {
        var key :| key in todo;
        CleanKey(key, now);
        todo := todo - {key};
      }
    }

    /** No window holds more records of a key than the limit. */
    ghost predicate WithinLimit()
      reads this
    {
      forall k :: Bounded(Recorded(k), maxAttempts, windowSecs, clock)
    }

    /** A call that is checked and recorded in one step. */
    method Admit(key: string, now: int) returns (admitted: bool)
      requires Valid() && now >= clock && WithinLimit()
      modifies this`attempts, this`history, this`clock, Cells()
      ensures Valid() && clock == now && WithinLimit() && fresh(Cells() - old(Cells()))
      ensures admitted <==> |After(old(Recorded(key)), now - windowSecs)| < maxAttempts
      ensures admitted <==> |set i | 0 <= i < |old(Recorded(key))| && old(Recorded(key))[i] > now - windowSecs| < maxAttempts
      ensures history == if admitted then old(history)[key := old(Recorded(key)) + [now]] else old(history)
    {
      hide After, Faithful, Bounded;
      forall k
        ensures Bounded(Recorded(k), maxAttempts, windowSecs, now)
      {
        BoundedLater(Recorded(k), maxAttempts, windowSecs, clock, now);
      }
      var blocked := IsBlocked(key, now);
      if !blocked {
        OneMoreFits(Recorded(key), maxAttempts, windowSecs, now);
        RecordFailure(key, now);
        assert forall k | k != key :: Recorded(k) == old(Recorded(k));
      }
      admitted := !blocked;
    }
  }

  // ── The bound on every window ───────────────────────────────────────────

  /** How many of the time stamps lie in the window of `width` seconds that starts after `from`. */
  function InWindow(times: seq<int>, from: int, width: int): nat {
    if times == [] then 0
    else
      var last := times[|times| - 1];
      InWindow(times[..|times| - 1], from, width) + if from < last <= from + width then 1 else 0
  }

  /** Every window holds at most `most`, and nothing was recorded after the clock. */
  ghost predicate Bounded(times: seq<int>, most: int, width: int, clock: int) {
    && (forall t | t in times :: t <= clock)
    && (forall from :: InWindow(times, from, width) <= if most > 0 then most else 0)
  }

  lemma BoundedLater(times: seq<int>, most: int, width: int, clock: int, now: int)
    requires Bounded(times, most, width, clock) && clock <= now
    ensures Bounded(times, most, width, now)
  {}

  /** A window that ends at or before now holds no more than the limiter looks at. */
  lemma {:induction false} WindowIsSeen(times: seq<int>, from: int, width: int, now: int)
    requires now <= from + width
    ensures InWindow(times, from, width) <= |After(times, now - width)|
  {
    if times != [] {
      WindowIsSeen(times[..|times| - 1], from, width, now);
    }
  }

  lemma OneMoreFits(times: seq<int>, most: int, width: int, now: int)
    requires Bounded(times, most, width, now) && |After(times, now - width)| < most
    ensures Bounded(times + [now], most, width, now)
  {
    forall from
      ensures InWindow(times + [now], from, width) <= most
    {
      assert (times + [now])[..|times|] == times;
      if from < now <= from + width {
        WindowIsSeen(times, from, width, now);
      }
    }
  }

  // ── Checked and recorded in two steps ───────────────────────────────────

  /** One key as its callers see it: the records, and the calls that were let through and have yet to be recorded. */
  datatype Gate = Gate(times: seq<int>, pending: nat, clock: int)

  datatype Call = Check(now: int) | Record(now: int)

  /** `together` bounds how many calls are between their two steps at once. */
  predicate Possible(g: Gate, call: Call, most: int, width: int, together: nat) {
    && call.now >= g.clock
    && if call.Check? then |After(g.times, call.now - width)| < most && g.pending < together else g.pending > 0
  }

  function GateNext(g: Gate, call: Call): Gate
    requires call.Record? ==> g.pending > 0
  {
    match call
    case Check(now) => Gate(g.times, g.pending + 1, now)
    case Record(now) => Gate(g.times + [now], g.pending - 1, now)
  }

  function GateRun(g: Gate, calls: seq<Call>, most: int, width: int, together: nat): Gate {
    if calls == [] then g
    else
      var before := GateRun(g, calls[..|calls| - 1], most, width, together);
      var call := calls[|calls| - 1];
      if Possible(before, call, most, width, together) then GateNext(before, call) else before
  }

  /** The bound, and room for those still to be recorded in every window that is not over. */
  ghost predicate GateOk(g: Gate, width: int, limit: nat, together: nat) {
    && g.pending <= together <= limit && (forall t | t in g.times :: t <= g.clock)
    && (forall from :: InWindow(g.times, from, width) <= limit)
    && (forall from :: from + width >= g.clock ==> InWindow(g.times, from, width) + g.pending <= limit)
  }

  lemma {:induction false} NothingAhead(times: seq<int>, from: int, width: int)
    requires forall t | t in times :: t <= from
    ensures InWindow(times, from, width) == 0
  {
    if times != [] {
      var init := times[..|times| - 1];
      assert forall t | t in init :: t in times;
      assert times[|times| - 1] in times;
      NothingAhead(init, from, width);
    }
  }

  lemma GateKeeps(g: Gate, call: Call, most: int, width: int, together: nat)
    requires 0 < most && 0 < together && GateOk(g, width, most - 1 + together, together)
    requires Possible(g, call, most, width, together)
    ensures GateOk(GateNext(g, call), width, most - 1 + together, together)
  {
    var after := GateNext(g, call);
    forall from
      ensures InWindow(after.times, from, width) <= most - 1 + together
      ensures from + width >= call.now ==> InWindow(after.times, from, width) + after.pending <= most - 1 + together
    {
      if call.Check? {
        if from + width >= call.now {
          WindowIsSeen(g.times, from, width, call.now);
        }
      } else {
        assert after.times[..|g.times|] == g.times;
        if from >= call.now {
          NothingAhead(g.times, from, width);
        }
      }
    }
  }

  /** The callers check and record in two steps; with `c` of them at it at once a window holds at most `c - 1` more. */
  lemma {:induction false} TwoStepBound(calls: seq<Call>, start: int, most: int, width: int, together: nat)
    requires 0 < most && 0 < together
    ensures var g := GateRun(Gate([], 0, start), calls, most, width, together);
            && GateOk(g, width, most - 1 + together, together)
            && forall from :: InWindow(g.times, from, width) <= most - 1 + together
  {
    hide Possible, GateNext;
    if calls != [] {
      var init, call := calls[..|calls| - 1], calls[|calls| - 1];
      TwoStepBound(init, start, most, width, together);
      var g := GateRun(Gate([], 0, start), init, most, width, together);
      if Possible(g, call, most, width, together) {
        GateKeeps(g, call, most, width, together);
      }
    }
  }

  /** `n` times the same call. */
  function Repeat(call: Call, n: nat): seq<Call> {
    if n == 0 then [] else Repeat(call, n - 1) + [call]
  }

  lemma {:induction false} RunConcat(g: Gate, a: seq<Call>, b: seq<Call>, most: int, width: int, together: nat)
    ensures GateRun(g, a + b, most, width, together) == GateRun(GateRun(g, a, most, width, together), b, most, width, together)
  {
    if b == [] {
      assert a + b == a;
    } else {
      assert (a + b)[..|a + b| - 1] == a + b[..|b| - 1];
      RunConcat(g, a, b[..|b| - 1], most, width, together);
    }
  }

  lemma GateSnoc(g: Gate, calls: seq<Call>, call: Call, most: int, width: int, together: nat)
    ensures var before := GateRun(g, calls, most, width, together);
            GateRun(g, calls + [call], most, width, together)
            == if Possible(before, call, most, width, together) then GateNext(before, call) else before
  {
    assert (calls + [call])[..|calls|] == calls;
  }

  lemma RepeatNext(call: Call, n: nat)
    ensures n > 0 ==> Repeat(call, n) == Repeat(call, n - 1) + [call]
    ensures n == 0 ==> Repeat(call, n) == []
  {}

  lemma NoCalls(g: Gate, most: int, width: int, together: nat)
    ensures GateRun(g, [], most, width, together) == g
  {}

  lemma {:induction false} ManyChecks(g: Gate, n: nat, most: int, width: int, together: nat)
    requires g.pending == 0 && n <= together && |After(g.times, g.clock - width)| < most
    ensures GateRun(g, Repeat(Check(g.clock), n), most, width, together) == g.(pending := n)
  {
    hide *;
    RepeatNext(Check(g.clock), n);
    NoCalls(g, most, width, together);
    if n > 0 {
      ManyChecks(g, n - 1, most, width, together);
      GateSnoc(g, Repeat(Check(g.clock), n - 1), Check(g.clock), most, width, together);
      OneCheck(g.(pending := n - 1), most, width, together);
    }
  }

  lemma OneCheck(g: Gate, most: int, width: int, together: nat)
    requires g.pending < together && |After(g.times, g.clock - width)| < most
    ensures Possible(g, Check(g.clock), most, width, together) && GateNext(g, Check(g.clock)) == g.(pending := g.pending + 1)
  {}

  lemma OneRecord(g: Gate, most: int, width: int, together: nat)
    requires g.pending > 0 && 0 < width
    ensures Possible(g, Record(g.clock), most, width, together)
    ensures var after := GateNext(g, Record(g.clock));
            && after.pending == g.pending - 1 && after.clock == g.clock
            && InWindow(after.times, g.clock - width, width) == InWindow(g.times, g.clock - width, width) + 1
  {
    hide InWindow, After;
    InWindowSnoc(g.times, g.clock, g.clock - width, width);
  }

  lemma {:induction false} ManyRecords(g: Gate, n: nat, most: int, width: int, together: nat)
    requires n <= g.pending && 0 < width
    ensures var after := GateRun(g, Repeat(Record(g.clock), n), most, width, together);
            && after.pending == g.pending - n && after.clock == g.clock
            && InWindow(after.times, g.clock - width, width) == InWindow(g.times, g.clock - width, width) + n
  {
    hide *;
    RepeatNext(Record(g.clock), n);
    NoCalls(g, most, width, together);
    if n > 0 {
      ManyRecords(g, n - 1, most, width, together);
      GateSnoc(g, Repeat(Record(g.clock), n - 1), Record(g.clock), most, width, together);
      OneRecord(GateRun(g, Repeat(Record(g.clock), n - 1), most, width, together), most, width, together);
    }
  }

  /** `n` calls one after the other, each checked and recorded before the next. */
  function OneByOne(now: int, n: nat): seq<Call> {
    if n == 0 then [] else OneByOne(now, n - 1) + [Check(now)] + [Record(now)]
  }

  lemma {:induction false} ManyOneByOne(start: int, n: nat, most: int, width: int, together: nat)
    requires n < most && 0 < width && 0 < together
    ensures var g := GateRun(Gate([], 0, start), OneByOne(start, n), most, width, together);
            && g.pending == 0 && g.clock == start
            && |After(g.times, start - width)| == n == InWindow(g.times, start - width, width)
  {
    hide *;
    OneByOneNext(start, n);
    NoCalls(Gate([], 0, start), most, width, together);
    if n > 0 {
      var before := OneByOne(start, n - 1);
      ManyOneByOne(start, n - 1, most, width, together);
      GateSnoc(Gate([], 0, start), before, Check(start), most, width, together);
      GateSnoc(Gate([], 0, start), before + [Check(start)], Record(start), most, width, together);
      var g := GateRun(Gate([], 0, start), before, most, width, together);
      OneCheck(g, most, width, together);
      OneRecord(g.(pending := 1), most, width, together);
      AfterSnoc(g.times, start, start - width);
      Recorded(g.(pending := 1));
    } else {
      NothingRecorded(start, width);
    }
  }

  lemma Recorded(g: Gate)
    requires g.pending > 0
    ensures GateNext(g, Record(g.clock)).times == g.times + [g.clock]
  {}

  lemma NothingRecorded(start: int, width: int)
    ensures After([], start - width) == [] && InWindow([], start - width, width) == 0
  {}

  lemma OneByOneNext(now: int, n: nat)
    ensures n > 0 ==> OneByOne(now, n) == OneByOne(now, n - 1) + [Check(now)] + [Record(now)]
    ensures n == 0 ==> OneByOne(now, n) == []
  {}

  lemma InWindowSnoc(times: seq<int>, t: int, from: int, width: int)
    ensures InWindow(times + [t], from, width) == InWindow(times, from, width) + if from < t <= from + width then 1 else 0
  {
    assert (times + [t])[..|times|] == times;
  }

  /** With one record to spare, `together` calls that check before any records all get in. */
  lemma RoomForAll(g: Gate, most: int, width: int, together: nat)
    requires g.pending == 0 && 0 < width && 0 < most && 0 < together
    requires |After(g.times, g.clock - width)| == most - 1 == InWindow(g.times, g.clock - width, width)
    ensures var calls := Repeat(Check(g.clock), together) + Repeat(Record(g.clock), together);
            InWindow(GateRun(g, calls, most, width, together).times, g.clock - width, width) == most - 1 + together
  {
    RunConcat(g, Repeat(Check(g.clock), together), Repeat(Record(g.clock), together), most, width, together);
    ManyChecks(g, together, most, width, together);
    ManyRecords(g.(pending := together), together, most, width, together);
  }

  /** The bound is reached, from an empty gate and for every limit, window and number of callers. */
  lemma TwoStepBoundIsTight(start: int, most: int, width: int, together: nat) returns (calls: seq<Call>)
    requires 0 < width && 0 < most && 0 < together
    ensures InWindow(GateRun(Gate([], 0, start), calls, most, width, together).times, start - width, width) == most - 1 + together
  {
    var first := OneByOne(start, most - 1);
    var rest := Repeat(Check(start), together) + Repeat(Record(start), together);
    ManyOneByOne(start, most - 1, most, width, together);
    RoomForAll(GateRun(Gate([], 0, start), first, most, width, together), most, width, together);
    RunConcat(Gate([], 0, start), first, rest, most, width, together);
    calls := first + rest;
  }
}
