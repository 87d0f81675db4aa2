/** The two-layer cache of link previews (server/unfurlcache.go, server/unfurl.go). */
module UnfurlCache {
  import opened Common

  /** Seconds. */
  const TTL := 21600
  const FAIL_TTL := 900
  const MEM_CAP := 500
  const TABLE_CAP := 20000

  datatype Preview = Preview(url: string, title: string, description: string, image: string, site: string)

  datatype Entry = Entry(res: Preview, ok: bool, at: int)

  predicate Fresh(e: Entry, now: int) {
    now - e.at < if e.ok then TTL else FAIL_TTL
  }

  /** What the janitor calls stale; a row exactly as old as its time is neither fresh nor stale. */
  predicate Stale(e: Entry, now: int) {
    now - e.at > if e.ok then TTL else FAIL_TTL
  }

  /** The table has no column for the address; a row read back carries the key instead. */
  function WithUrl(e: Entry, url: string): Entry {
    e.(res := e.res.(url := url))
  }

  predicate SameButUrl(a: Entry, b: Entry) {
    && a.ok == b.ok && a.at == b.at
    && a.res.title == b.res.title && a.res.description == b.res.description
    && a.res.image == b.res.image && a.res.site == b.res.site
  }

  // ── Oldest first ────────────────────────────────────────────────────────

  /** A selection by age: what stays is part of the cache, and nothing that stays is older than anything dropped. */
  ghost predicate KeepsTheNewest(before: map<string, Entry>, after: map<string, Entry>, dropped: nat) {
    && after.Keys <= before.Keys && |after| + dropped == |before|
    && (forall k | k in after :: after[k] == before[k] && NotOlder(before, after, before[k].at))
  }

  ghost predicate NotOlder(before: map<string, Entry>, after: map<string, Entry>, at: int) {
    forall d | d in before && d !in after :: before[d].at <= at
  }

  lemma OneLess(cache: map<string, Entry>, key: string)
    requires key in cache
    ensures |cache - {key}| == |cache| - 1
  {
    assert (cache - {key}).Keys == cache.Keys - {key};
  }

  /** The next in the order of age. */
  method Oldest(cache: map<string, Entry>) returns (key: string)
    requires cache != map[]
    ensures key in cache && forall k | k in cache :: cache[key].at <= cache[k].at
  {
    key :| key in cache;
    var todo := cache.Keys - {key};
    while todo != {}
      invariant todo <= cache.Keys && key in cache && forall k | k in cache && k !in todo :: cache[key].at <= cache[k].at
      decreases |todo|
    {
      var k :| k in todo;
      if cache[k].at < cache[key].at {
        key := k;
      }
      todo := todo - {k};
    }
  }

  /** Delete the first `n` in the order of age. */
  method DropOldest(cache: map<string, Entry>, n: nat) returns (rest: map<string, Entry>)
    requires n <= |cache|
    ensures KeepsTheNewest(cache, rest, n)
  {
    rest := cache;
    for i := 0 to n
      invariant KeepsTheNewest(cache, rest, i)
    {
      var key := Oldest(rest);
      OneLess(rest, key);
      rest := rest - {key};
    }
  }

  // ── The two layers ──────────────────────────────────────────────────────

  ghost predicate Known(layer: map<string, Entry>, last: map<string, Entry>, unwritten: set<string>) {
    forall k | k in layer :: k in last && (SameButUrl(layer[k], last[k]) || k in unwritten)
  }

  ghost predicate Covered(last: map<string, Entry>, now: int, table: map<string, Entry>, excused: set<string>) {
    forall k | k in last && Fresh(last[k], now) :: k in table || k in excused
  }

  /** A new result replaces the old ones of its key and leaves the rest of a layer known. */
  lemma StoredIsKnown(layer: map<string, Entry>, last: map<string, Entry>, unwritten: set<string>, key: string,
                      e: Entry, kept: Entry)
    requires Known(layer, last, unwritten) && SameButUrl(kept, e)
    ensures Known(layer[key := kept], last[key := e], unwritten - {key})
  {}

  /** The memory layer after a put: some old entries and the new one. */
  lemma PutIsKnown(before: map<string, Entry>, after: map<string, Entry>, last: map<string, Entry>,
                   unwritten: set<string>, key: string, e: Entry)
    requires Known(before, last, unwritten) && key in after && after[key] == e
    requires forall k | k in after && k != key :: k in before && after[k] == before[k]
    ensures Known(after, last[key := e], unwritten - {key})
  {}

  lemma FewerExcuses(layer: map<string, Entry>, last: map<string, Entry>, few: set<string>, many: set<string>)
    requires Known(layer, last, few) && few <= many
    ensures Known(layer, last, many)
  {}

  lemma Same(e: Entry)
    ensures SameButUrl(WithUrl(e, ""), e) && SameButUrl(e, e)
  {}

  lemma UnwrittenIsKnown(layer: map<string, Entry>, last: map<string, Entry>, unwritten: set<string>, key: string,
                         e: Entry)
    requires Known(layer, last, unwritten)
    ensures Known(layer, last[key := e], unwritten + {key})
  {}

  lemma FewerIsKnown(layer: map<string, Entry>, less: map<string, Entry>, last: map<string, Entry>,
                     unwritten: set<string>)
    requires Known(layer, last, unwritten) && forall k | k in less :: k in layer && less[k] == layer[k]
    ensures Known(less, last, unwritten)
  {}

  /** A channel on which others wait for the one who fetches. Closing it twice would be a panic. */
  class Channel {
    var closed: bool

    constructor ()
      ensures !closed
    {
      closed := false;
    }

    method Close()
      requires !closed
      modifies this
      ensures closed
    {
      closed := true;
    }
  }

  class PreviewCache {
    var mem: map<string, Entry>
    var table: map<string, Entry>

    /** The last stored result of every key; the keys whose row never reached the table; those trimmed off it. */
    ghost var last: map<string, Entry>
    ghost var unwritten: set<string>
    ghost var trimmed: set<string>
    ghost var clock: int

    constructor (ghost start: int)
      ensures Valid() && last == map[] && unwritten == {} && clock == start
    {
      mem, table, last, unwritten, trimmed, clock := map[], map[], map[], {}, {}, start;
    }

    /** Both layers hold last results, the table all that are fresh, but for what the ghost sets own up to. */
    ghost predicate Valid()
      reads this
    {
      && |mem| <= MEM_CAP && Known(mem, last, unwritten) && Known(table, last, unwritten)
      && Covered(last, clock, table, trimmed + unwritten)
    }

    method MemPut(key: string, e: Entry)
      requires |mem| <= MEM_CAP
      modifies this`mem
      ensures |mem| <= MEM_CAP && key in mem && mem[key] == e
      ensures forall k | k in mem && k != key :: k in old(mem) && mem[k] == old(mem)[k]
      ensures |old(mem)| < MEM_CAP ==> mem == old(mem)[key := e]
      ensures |old(mem)| == MEM_CAP ==> exists kept :: KeepsTheNewest(old(mem), kept, MEM_CAP / 2) && mem == kept[key := e]
    {
      if |mem| >= MEM_CAP {
        mem := DropOldest(mem, |mem| / 2);
      }
      PutSize(mem, key, e);
      mem := mem[key := e];
    }

    /**
     * A hit is the last stored result, address aside, and unexpired; a miss is for want of one, or of an answer when
     * the result is not in memory.
     */
    method Lookup(key: string, now: int, answered: bool) returns (hit: Option<Entry>)
      requires Valid() && now >= clock
      modifies this`mem, this`clock
      ensures Valid() && clock == now
      ensures hit.Some? ==> Fresh(hit.value, now) && key in last && (SameButUrl(hit.value, last[key]) || key in unwritten)
      ensures hit.Some? ==> now - hit.value.at < if hit.value.ok then 6 * 3600 else 15 * 60
      ensures answered && key in last && key !in trimmed && key !in unwritten ==>
                now - last[key].at < (if last[key].ok then 6 * 3600 else 15 * 60) ==> hit.Some?
      ensures answered && hit.None? ==> key !in last || !Fresh(last[key], now) || key in trimmed || key in unwritten
      ensures key in old(mem) && Fresh(old(mem)[key], now) ==> hit == Some(old(mem)[key]) && mem == old(mem)
      ensures !answered && !(key in old(mem) && Fresh(old(mem)[key], now)) ==> hit.None? && mem == old(mem)
      ensures hit.Some? && mem != old(mem) ==> key in mem && mem[key] == hit.value
    {
      clock := now;
      if key in mem && Fresh(mem[key], now) {
        return Some(mem[key]);
      }
      if !answered || key !in table {
        return None;
      }
      var row := WithUrl(table[key], key);
      if !Fresh(row, now) {
        return None;
      }
      MemPut(key, row);
      hit := Some(row);
    }

    /** Into both layers; the write to the table may fail and is passed over. */
    method Store(key: string, res: Preview, ok: bool, now: int, written: bool)
      requires Valid() && now >= clock
      modifies this
      ensures Valid() && clock == now
      ensures last == old(last)[key := Entry(res, ok, now)] && key in mem && mem[key] == last[key]
      ensures written ==> table == old(table)[key := WithUrl(last[key], "")]
      ensures !written ==> table == old(table)
      ensures unwritten == if written then old(unwritten) - {key} else old(unwritten) + {key}
      ensures trimmed == if written then old(trimmed) - {key} else old(trimmed)
    {
      hide Known, KeepsTheNewest, SameButUrl;
      var e := Entry(res, ok, now);
      ghost var before := mem;
      MemPut(key, e);
      Same(e);
      PutIsKnown(before, mem, last, unwritten, key, e);
      ghost var told := last[key := e];
      if written {
        StoredIsKnown(table, last, unwritten, key, e, WithUrl(e, ""));
        table := table[key := WithUrl(e, "")];
        unwritten, trimmed := unwritten - {key}, trimmed - {key};
      } else {
        UnwrittenIsKnown(table, last, unwritten, key, e);
        FewerExcuses(mem, told, unwritten - {key}, unwritten + {key});
        unwritten := unwritten + {key};
      }
      last := told;
      clock := now;
    }

    /** The janitor: what is stale, then the oldest beyond the ceiling. Either statement may fail. */
    method Clean(now: int, swept: bool, capped: bool) returns (stale: nat)
      requires Valid() && now >= clock
      modifies this
      ensures Valid() && clock == now && mem == old(mem) && last == old(last) && unwritten == old(unwritten)
      ensures !swept ==> table == old(table) && trimmed == old(trimmed) && stale == 0
      ensures swept && capped ==> |table| <= TABLE_CAP
      ensures swept && !capped ==> trimmed == old(trimmed)
      ensures forall k | k in old(trimmed) :: k in trimmed
      ensures forall k | k in trimmed && k !in old(trimmed) :: k in old(table) && |table| == TABLE_CAP
      ensures forall k | k in table :: k in old(table) && table[k] == old(table)[k]
      ensures swept ==> forall k | k in table :: now - table[k].at <= if table[k].ok then 6 * 3600 else 15 * 60
      ensures forall k | k in old(table) && k !in table ::
                now - old(table)[k].at > (if old(table)[k].ok then 6 * 3600 else 15 * 60)
                || (|table| == TABLE_CAP && k in trimmed)
      ensures forall k | k in old(table) && k !in table ::
                now - old(table)[k].at > (if old(table)[k].ok then 6 * 3600 else 15 * 60) || forall j | j in table :: old(table)[k].at <= table[j].at
      ensures forall d, k | d in trimmed && d !in old(trimmed) && k in table :: old(table)[d].at <= table[k].at
    {
      hide Known, KeepsTheNewest;
      if !swept {
        CleanedIsCovered(table, table, table, last, clock, now, trimmed, unwritten);
        assert trimmed + {} + unwritten == trimmed + unwritten;
        clock := now;
        return 0;
      }
      var kept := map k | k in table && !Stale(table[k], now) :: table[k];
      SubsetSize(kept.Keys, table.Keys);
      stale := |table| - |kept|;
      var rest := kept;
      if capped && |kept| > TABLE_CAP {
        rest := DropOldest(kept, |kept| - TABLE_CAP);
        Selected(kept, rest, |kept| - TABLE_CAP);
      }
      FewerIsKnown(table, rest, last, unwritten);
      CleanedIsCovered(table, kept, rest, last, clock, now, trimmed, unwritten);
      trimmed := trimmed + (kept.Keys - rest.Keys);
      table := rest;
      clock := now;
    }
  }

  lemma Selected(before: map<string, Entry>, after: map<string, Entry>, dropped: nat)
    requires KeepsTheNewest(before, after, dropped)
    ensures |after| == |before| - dropped && after.Keys <= before.Keys && forall k | k in after :: after[k] == before[k]
    ensures forall d, k | d in before && d !in after && k in after :: before[d].at <= after[k].at
  {}

  /** What cleaning takes off the table is stale or goes on record as trimmed. */
  lemma CleanedIsCovered(table: map<string, Entry>, kept: map<string, Entry>, rest: map<string, Entry>,
                         last: map<string, Entry>,
                         clock: int, now: int, trimmed: set<string>, unwritten: set<string>)
    requires Covered(last, clock, table, trimmed + unwritten) && Known(table, last, unwritten) && clock <= now
    requires forall k | k in table && Fresh(table[k], now) :: k in kept
    ensures Covered(last, now, rest, trimmed + (kept.Keys - rest.Keys) + unwritten)
  {}

  lemma PutSize(cache: map<string, Entry>, key: string, e: Entry)
    ensures |cache[key := e]| <= |cache| + 1
  {
    assert cache[key := e].Keys == cache.Keys + {key};
  }

  lemma SubsetSize(a: set<string>, b: set<string>)
    requires a <= b
    ensures |a| <= |b|
  {
    if a != {} {
      var x :| x in a;
      SubsetSize(a - {x}, b - {x});
    }
  }

  // ── One trip for everyone ───────────────────────────────────────────────

  class Flights {
    var flight: map<string, Channel>

    /** The keys somebody is fetching right now. */
    ghost var fetching: set<string>

    constructor ()
      ensures Valid() && fetching == {}
    {
      flight, fetching := map[], {};
    }

    ghost function Channels(): set<Channel>
      reads this
    {
      set k | k in flight :: flight[k]
    }

    /** Exactly the keys being fetched have a channel, open and their own. */
    ghost predicate Valid()
      reads this, Channels()
    {
      && flight.Keys == fetching
      && (forall k | k in flight :: !flight[k].closed)
      && (forall j, k | j in flight && k in flight && j != k :: flight[j] != flight[k])
    }

    /** It is our turn exactly if nobody is fetching; otherwise the channel will be closed when they are done. */
    method BeginFetch(key: string) returns (mine: bool, wait: Option<Channel>)
      requires Valid()
      modifies this
      ensures Valid() && fresh(Channels() - old(Channels()))
      ensures mine <==> key !in old(fetching)
      ensures fetching == old(fetching) + {key}
      ensures if mine then wait == None else wait.Some? && !wait.value.closed && flight == old(flight) && wait.value == flight[key]
    {
      if key in flight {
        return false, Some(flight[key]);
      }
      var ch := new Channel();
      flight := flight[key := ch];
      fetching := fetching + {key};
      return true, None;
    }

    /** The fetch is over: those who waited are released, by one close and no second one. */
    method EndFetch(key: string)
      requires Valid()
      modifies this, Channels()
      ensures Valid() && fetching == old(fetching) - {key} && Channels() <= old(Channels())
      ensures key in old(fetching) ==> old(flight)[key].closed
      ensures forall k | k in flight :: k in old(flight) && flight[k] == old(flight)[k]
    {
      if key in flight {
        var ch := flight[key];
        flight := flight - {key};
        ch.Close();
        fetching := fetching - {key};
      }
    }
  }
}
