/** The worker's persisted state (state_store.py): per-item timestamps
    under `items`, the slots already handled under `sent_slots`, the
    forgiving loader and the TTL pruning of old items. The file system and
    the clock are parameters. */
module StateStore {
  import opened Wrappers

  /** One entry of `state["items"]`; either timestamp may be absent. */
  datatype ItemRecord = ItemRecord(lastSeen: Option<int>, lastAlerted: Option<int>)

  /** `int(rec.get(field, 0) or 0)`: an absent or zero stamp reads as 0. */
  function Stamp(t: Option<int>): int {
    match t
    case None => 0
    case Some(v) => v
  }

  /** The value stored under `items`: normally a table, but a hand-edited
      or foreign file may hold something else there. */
  datatype ItemsValue = ItemTable(table: map<string, ItemRecord>) | NotATable

  /** The top-level JSON object, with each key possibly absent. */
  datatype Snapshot = Snapshot(items: Option<ItemsValue>, sentSlots: Option<map<string, int>>)

  /** What reading the state file can give. */
  datatype ReadResult = NotFound | Unparsable | Parsed(snapshot: Snapshot)

  const EmptyState := Snapshot(None, None)

  /** `load_state`: a missing or corrupt file yields the empty object, never
      an error; a parsed one is returned as it is. */
  function LoadState(r: ReadResult): (s: Snapshot)
    ensures !r.Parsed? ==> s == EmptyState
    ensures r.Parsed? ==> s == r.snapshot
  {
    match r
    case Parsed(snapshot) => snapshot
    case _ => EmptyState
  }

  /** The table `prune_old` starts from: `state.get("items", {})`, and `{}`
      again when that is not a dict. */
  function TableOf(items: Option<ItemsValue>): map<string, ItemRecord> {
    match items
    case Some(ItemTable(t)) => t
    case _ => map[]
  }

  /** An item seen within the last `ttl` seconds before `now`. */
  predicate Fresh(rec: ItemRecord, now: int, ttl: int) {
    now - Stamp(rec.lastSeen) <= ttl
  }

  /** The item table after `prune_old`. */
  function Pruned(items: Option<ItemsValue>, now: int, ttl: int): map<string, ItemRecord> {
    var t := TableOf(items);
    map k | k in t && Fresh(t[k], now, ttl) :: t[k]
  }

  /** Pruning keeps exactly the fresh entries, each unchanged, and a
      missing or non-table `items` prunes to the empty table. */
  lemma PrunedKeepsFresh(items: Option<ItemsValue>, now: int, ttl: int)
    ensures forall k :: k in Pruned(items, now, ttl)
              <==> items.Some? && items.value.ItemTable? && k in items.value.table && Fresh(items.value.table[k], now, ttl)
    ensures forall k :: k in Pruned(items, now, ttl) ==> Pruned(items, now, ttl)[k] == items.value.table[k]
    ensures Pruned(items, now, ttl).Keys <= TableOf(items).Keys
    ensures items.None? || items == Some(NotATable) ==> Pruned(items, now, ttl) == map[]
  {
  }

  /** Pruning twice with the same clock and TTL is pruning once. */
  lemma PruneIdempotent(items: Option<ItemsValue>, now: int, ttl: int)
    ensures Pruned(Some(ItemTable(Pruned(items, now, ttl))), now, ttl) == Pruned(items, now, ttl)
  {
  }

  /** A longer TTL keeps at least as much; an item seen at `now` itself
      survives any TTL that is not negative. */
  lemma PruneMonotone(items: Option<ItemsValue>, now: int, ttl1: int, ttl2: int)
    requires ttl1 <= ttl2
    ensures Pruned(items, now, ttl1).Keys <= Pruned(items, now, ttl2).Keys
    ensures ttl1 >= 0 ==> forall k :: k in TableOf(items) && TableOf(items)[k].lastSeen == Some(now)
                                     ==> k in Pruned(items, now, ttl1)
  {
  }

  /** `state`, after `load_state` and the two `setdefault` calls of
      `run_once`, as the mutable dict the worker updates in place. */
  class StateDoc {
    var items: Option<ItemsValue>
    var sentSlots: map<string, int>

    /** `load_state()` then `setdefault("items", {})` and
        `setdefault("sent_slots", {})`. */
    constructor Load(r: ReadResult)
      ensures items == Some(match LoadState(r).items case None => ItemTable(map[]) case Some(v) => v)
      ensures sentSlots == match LoadState(r).sentSlots case None => map[] case Some(s) => s
    {
      var s := LoadState(r);
      items := Some(match s.items case None => ItemTable(map[]) case Some(v) => v);
      sentSlots := match s.sentSlots case None => map[] case Some(m) => m;
    }

    /** The item table, once pruning has made `items` a table. */
    function Table(): map<string, ItemRecord>
      reads this
    {
      TableOf(items)
    }

    /** What `save_state` would write. */
    function Saved(): Snapshot
      reads this
    {
      Snapshot(items, Some(sentSlots))
    }

    /** `prune_old(state, ttl)` with its clock reading `now` as a
        parameter: rebuilds `items` from the fresh entries and leaves the
        rest of the state alone. */
    method PruneOld(now: int, ttl: int)
      modifies this
      ensures items == Some(ItemTable(Pruned(old(items), now, ttl)))
      ensures sentSlots == old(sentSlots)
    {
      var t := TableOf(items);
      var kept: map<string, ItemRecord> := map[];
      var todo := t.Keys;
      while todo != {}
        invariant todo <= t.Keys
        invariant kept == map k | k in t && k !in todo && Fresh(t[k], now, ttl) :: t[k]
        decreases |todo|
      {
        var k :| k in todo;
        if now - Stamp(t[k].lastSeen) <= ttl {
          kept := kept[k := t[k]];
        }
        todo := todo - {k};
      }
      assert kept == Pruned(items, now, ttl) by {
        assert forall k :: k in kept <==> k in Pruned(items, now, ttl);
      }
      items := Some(ItemTable(kept));
    }

    /** `state["sent_slots"].get(sid)` is truthy: present and not 0. */
    function SlotSent(sid: string): bool
      reads this
    {
      sid in sentSlots && sentSlots[sid] != 0
    }

    /** The "marca visto" step of `run_once`: the item's record, created
        empty when missing, gets `last_seen = ts`. */
    method MarkSeen(key: string, ts: int)
      requires items.Some? && items.value.ItemTable?
      modifies this
      ensures items == Some(ItemTable(Touch(old(Table()), key, ts)))
      ensures sentSlots == old(sentSlots)
    {
      items := Some(ItemTable(Touch(Table(), key, ts)));
    }

    /** `state["items"][key]["last_alerted"] = ts` for an item already in
        the table. */
    method MarkAlerted(key: string, ts: int)
      requires items.Some? && items.value.ItemTable? && key in items.value.table
      modifies this
      ensures items == Some(ItemTable(Alert(old(Table()), key, ts)))
      ensures sentSlots == old(sentSlots)
    {
      items := Some(ItemTable(Alert(Table(), key, ts)));
    }

    /** `state["sent_slots"][sid] = ts`. */
    method MarkSlotSent(sid: string, ts: int)
      modifies this
      ensures sentSlots == old(sentSlots)[sid := ts]
      ensures items == old(items)
    {
      sentSlots := sentSlots[sid := ts];
    }
  }

  /** The table after an item is seen at `ts`. */
  function Touch(t: map<string, ItemRecord>, key: string, ts: int): (r: map<string, ItemRecord>)
    ensures r.Keys == t.Keys + {key}
    ensures r[key].lastSeen == Some(ts)
    ensures key in t ==> r[key].lastAlerted == t[key].lastAlerted
    ensures key !in t ==> r[key].lastAlerted.None?
    ensures forall k :: k in t && k != key ==> r[k] == t[k]
  {
    var rec := if key in t then t[key] else ItemRecord(None, None);
    t[key := rec.(lastSeen := Some(ts))]
  }

  /** The table after an item is alerted at `ts`. */
  function Alert(t: map<string, ItemRecord>, key: string, ts: int): (r: map<string, ItemRecord>)
    requires key in t
    ensures r.Keys == t.Keys
    ensures r[key].lastAlerted == Some(ts) && r[key].lastSeen == t[key].lastSeen
    ensures forall k :: k in t && k != key ==> r[k] == t[k]
  {
    t[key := t[key].(lastAlerted := Some(ts))]
  }
}
