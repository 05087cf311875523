/** One polling cycle of the worker (`run_once` in main.py): load and
    prune the state, find the active send slot, skip a slot already handled,
    mark every fetched item as seen, pick the items worth a notification,
    send them, stamp them as alerted, and record the slot.

    The clocks (`now`, `ts`, and the separate reading inside `prune_old`),
    the fetched items (`build_items` over the mailbox, `None` when that
    raises) and whether the sender succeeds are parameters. */
module Worker {
  import opened Wrappers
  import opened Calendar
  import opened Scheduler
  import opened StateStore

  /** A scored digest item as `build_items` hands it over. */
  datatype Item = Item(key: string, score: int, bucket: string)

  /** The environment-driven settings of main.py. */
  datatype Config = Config(sendTimes: string, window: int, minScore: int, ttlSeconds: int, reAlertHours: int)

  /** The defaults used when the environment sets nothing. */
  const Defaults := Config("06:00,12:00,18:00", 4, 35, 14 * 24 * 3600, 12)

  /** How a cycle ends. Only `Completed` saves the state. */
  datatype Outcome =
    | Raised                                          // a slot setting raised ValueError: nothing fetched, sent or saved
    | NoActiveSlot                                    // no slot window contains now: nothing fetched, sent or saved
    | SlotAlreadySent(sid: string)                    // slot handled earlier: nothing fetched, sent or saved
    | FetchFailed(sid: string)                        // fetching or scoring the mail raised: nothing sent or saved
    | SendFailed(sid: string, message: seq<Item>)     // the sender raised: nothing saved
    | Completed(sid: string, message: seq<Item>, saved: Snapshot)  // `message` sent when not empty; `saved` written

  /** `int(rec.get("last_alerted", 0) or 0)` for the item's record, 0 when
      there is none. */
  function LastAlerted(t: map<string, ItemRecord>, key: string): int {
    if key in t then Stamp(t[key].lastAlerted) else 0
  }

  /** The notification filter: not BAIXA, score at least the cut-off, and
      never alerted or last alerted at least `reAlertHours` ago. */
  predicate Eligible(cfg: Config, t: map<string, ItemRecord>, ts: int, it: Item) {
    it.bucket != "BAIXA" && it.score >= cfg.minScore
    && (LastAlerted(t, it.key) == 0 || ts - LastAlerted(t, it.key) >= cfg.reAlertHours * 3600)
  }

  /** The eligible items, in fetch order, judged against table `t`. */
  function Select(cfg: Config, t: map<string, ItemRecord>, ts: int, items: seq<Item>): (r: seq<Item>)
  {
    if items == [] then []
    else
      var p := Select(cfg, t, ts, items[..|items| - 1]);
      var it := items[|items| - 1];
      if Eligible(cfg, t, ts, it) then p + [it] else p
  }

  /** The selection holds exactly the eligible fetched items. */
  lemma {:induction false} SelectMembers(cfg: Config, t: map<string, ItemRecord>, ts: int, items: seq<Item>)
    ensures forall x :: x in Select(cfg, t, ts, items) <==> x in items && Eligible(cfg, t, ts, x)
    ensures |Select(cfg, t, ts, items)| <= |items|
  {
    if items != [] {
      var p := items[..|items| - 1];
      SelectMembers(cfg, t, ts, p);
      assert items == p + [items[|items| - 1]];
    }
  }

  function ItemKeys(items: seq<Item>): set<string> {
    set i | 0 <= i < |items| :: items[i].key
  }

  /** State of the item loop of `run_once`: the table and the items picked
      so far. */
  datatype Scanned = Scanned(table: map<string, ItemRecord>, notified: seq<Item>)

  /** The item loop as the code runs it: each item is first marked seen,
      then judged against its record as it now stands. */
  function Scan(t: map<string, ItemRecord>, items: seq<Item>, cfg: Config, ts: int): Scanned {
    if items == [] then Scanned(t, [])
    else
      var s := Scan(t, items[..|items| - 1], cfg, ts);
      var it := items[|items| - 1];
      var t2 := Touch(s.table, it.key, ts);
      Scanned(t2, if Eligible(cfg, t2, ts, it) then s.notified + [it] else s.notified)
  }

  /** What the item loop does: every fetched key gets `last_seen = ts`,
      other records are untouched, no `last_alerted` changes, and since
      marking seen leaves `last_alerted` alone, the picked items are exactly
      those eligible against the table before the loop. */
  lemma ScanFacts(t: map<string, ItemRecord>, items: seq<Item>, cfg: Config, ts: int)
    ensures Scan(t, items, cfg, ts).table.Keys == t.Keys + ItemKeys(items)
    ensures forall k :: k in ItemKeys(items) ==> Scan(t, items, cfg, ts).table[k].lastSeen == Some(ts)
    ensures forall k :: k in t && k !in ItemKeys(items) ==> Scan(t, items, cfg, ts).table[k] == t[k]
    ensures forall k :: k in Scan(t, items, cfg, ts).table ==> LastAlerted(Scan(t, items, cfg, ts).table, k) == LastAlerted(t, k)
    ensures Scan(t, items, cfg, ts).notified == Select(cfg, t, ts, items)
  {
    ScanTable(t, items, cfg, ts);
    ScanPicks(t, items, cfg, ts);
  }

  lemma {:induction false} ScanTable(t: map<string, ItemRecord>, items: seq<Item>, cfg: Config, ts: int)
    ensures Scan(t, items, cfg, ts).table.Keys == t.Keys + ItemKeys(items)
    ensures forall k :: k in ItemKeys(items) ==> Scan(t, items, cfg, ts).table[k].lastSeen == Some(ts)
    ensures forall k :: k in t && k !in ItemKeys(items) ==> Scan(t, items, cfg, ts).table[k] == t[k]
    ensures forall k :: k in Scan(t, items, cfg, ts).table ==> LastAlerted(Scan(t, items, cfg, ts).table, k) == LastAlerted(t, k)
  {
    if items != [] {
      var p, it := items[..|items| - 1], items[|items| - 1];
      ScanTable(t, p, cfg, ts);
      ItemKeysSnoc(items);
    }
  }

  lemma ItemKeysSnoc(items: seq<Item>)
    requires items != []
    ensures ItemKeys(items) == ItemKeys(items[..|items| - 1]) + {items[|items| - 1].key}
  {
    var p := items[..|items| - 1];
    assert forall i :: 0 <= i < |p| ==> p[i] == items[i];
  }

  lemma {:induction false} ScanPicks(t: map<string, ItemRecord>, items: seq<Item>, cfg: Config, ts: int)
    ensures Scan(t, items, cfg, ts).notified == Select(cfg, t, ts, items)
  {
    if items != [] {
      var p, it := items[..|items| - 1], items[|items| - 1];
      ScanPicks(t, p, cfg, ts);
      ScanTable(t, p, cfg, ts);
      var s := Scan(t, p, cfg, ts);
      var t2 := Touch(s.table, it.key, ts);
      assert LastAlerted(t2, it.key) == LastAlerted(t, it.key);
    }
  }

  /** Stamping the picked items as alerted. */
  function AlertAll(t: map<string, ItemRecord>, items: seq<Item>, ts: int): (r: map<string, ItemRecord>)
    requires ItemKeys(items) <= t.Keys
    ensures r.Keys == t.Keys
  {
    if items == [] then t
    else
      var p := items[..|items| - 1];
      assert ItemKeys(p) <= ItemKeys(items) by {
        assert forall i :: 0 <= i < |p| ==> p[i] == items[i];
      }
      assert items[|items| - 1].key in ItemKeys(items);
      Alert(AlertAll(t, p, ts), items[|items| - 1].key, ts)
  }

  /** Alerting writes `last_alerted = ts` on exactly the picked keys and
      changes nothing else. */
  lemma {:induction false} AlertAllFacts(t: map<string, ItemRecord>, items: seq<Item>, ts: int)
    requires ItemKeys(items) <= t.Keys
    ensures forall k :: k in ItemKeys(items) ==> AlertAll(t, items, ts)[k] == t[k].(lastAlerted := Some(ts))
    ensures forall k :: k in t && k !in ItemKeys(items) ==> AlertAll(t, items, ts)[k] == t[k]
  {
    if items != [] {
      var p := items[..|items| - 1];
      assert ItemKeys(items) == ItemKeys(p) + {items[|items| - 1].key} by {
        assert forall i :: 0 <= i < |p| ==> p[i] == items[i];
      }
      AlertAllFacts(t, p, ts);
    }
  }

  /** The item table right after loading, `setdefault` and pruning. */
  function LoadedTable(s: Snapshot, cfg: Config, pruneNow: int): map<string, ItemRecord> {
    Pruned(Some(match s.items case None => ItemTable(map[]) case Some(v) => v), pruneNow, cfg.ttlSeconds)
  }

  function LoadedSlots(s: Snapshot): map<string, int> {
    match s.sentSlots
    case None => map[]
    case Some(m) => m
  }

  /** Parsing the configured times, then searching them for the active
      slot; `Err` when either raises. */
  function ActiveResult(cfg: Config, now: DateTime): Result<Option<Slot>> {
    match Times(cfg.sendTimes)
    case None => Err
    case Some(times) => ActiveSlot(times, now, cfg.window)
  }

  /** The slot id of the active slot, when there is one. */
  function ActiveSid(cfg: Config, now: DateTime): Option<string> {
    match ActiveResult(cfg, now)
    case Ok(Some(slot)) => Some(SlotId(now.date, slot.hh, slot.mm))
    case _ => None
  }

  /** `state["sent_slots"].get(sid)` is truthy. */
  predicate Sent(slots: map<string, int>, sid: string) {
    sid in slots && slots[sid] != 0
  }

  /** The cycle from the fetch on, for a slot not yet handled. */
  function Deliver(table: map<string, ItemRecord>, slots: map<string, int>, sid: string,
                   fetched: seq<Item>, cfg: Config, ts: int, sendOk: bool): Outcome
  {
    var scan := Scan(table, fetched, cfg, ts);
    if scan.notified != [] && !sendOk then SendFailed(sid, scan.notified)
    else
      ScanFacts(table, fetched, cfg, ts);
      SelectKeys(cfg, table, ts, fetched);
      Completed(sid, scan.notified,
                Snapshot(Some(ItemTable(AlertAll(scan.table, scan.notified, ts))), Some(slots[sid := ts])))
  }

  /** The whole cycle. `fetched` is `None` when `list_recent_emails` or
      `build_items` raises; the exception leaves `run_once` before
      `save_state`, so the slot stays unrecorded. */
  function Cycle(r: ReadResult, cfg: Config, now: DateTime, ts: int, pruneNow: int,
                 fetched: Option<seq<Item>>, sendOk: bool): Outcome
  {
    var s := LoadState(r);
    match ActiveResult(cfg, now)
    case Err => Raised
    case Ok(None) => NoActiveSlot
    case Ok(Some(slot)) =>
      var sid := SlotId(now.date, slot.hh, slot.mm);
      if Sent(LoadedSlots(s), sid) then SlotAlreadySent(sid)
      else match fetched
        case None => FetchFailed(sid)
        case Some(items) => Deliver(LoadedTable(s, cfg, pruneNow), LoadedSlots(s), sid, items, cfg, ts, sendOk)
  }

  lemma SelectKeys(cfg: Config, t: map<string, ItemRecord>, ts: int, items: seq<Item>)
    ensures ItemKeys(Select(cfg, t, ts, items)) <= ItemKeys(items)
  {
    SelectMembers(cfg, t, ts, items);
    forall k | k in ItemKeys(Select(cfg, t, ts, items))
      ensures k in ItemKeys(items)
    {
      var sel := Select(cfg, t, ts, items);
      var i :| 0 <= i < |sel| && sel[i].key == k;
      assert sel[i] in items;
      var j :| 0 <= j < |items| && items[j] == sel[i];
    }
  }

  /** `run_once`. */
  method RunOnce(r: ReadResult, cfg: Config, now: DateTime, ts: int, pruneNow: int,
                 fetched: Option<seq<Item>>, sendOk: bool) returns (outcome: Outcome)
    ensures outcome == Cycle(r, cfg, now, ts, pruneNow, fetched, sendOk)
  {
    var doc := new StateDoc.Load(r);
    doc.PruneOld(pruneNow, cfg.ttlSeconds);
    assert doc.Table() == LoadedTable(LoadState(r), cfg, pruneNow);
    assert doc.sentSlots == LoadedSlots(LoadState(r));
    var times := ParseTimes(cfg.sendTimes);
    if times.None? {
      return Raised;
    }
    var active := FindActiveSlot(times.value, now, cfg.window);
    if active.Err? {
      return Raised;
    }
    if active.value.None? {
      return NoActiveSlot;
    }
    var slot := active.value.value;
    var sid := SlotId(now.date, slot.hh, slot.mm);
    if doc.SlotSent(sid) {
      return SlotAlreadySent(sid);
    }
    if fetched.None? {
      return FetchFailed(sid);
    }
    outcome := Send(doc, sid, fetched.value, cfg, ts, sendOk);
  }

  /** The part of `run_once` after the sent-slot guard: mark, pick, send,
      stamp, record the slot. */
  method Send(doc: StateDoc, sid: string, fetched: seq<Item>, cfg: Config, ts: int, sendOk: bool)
    returns (outcome: Outcome)
    requires doc.items.Some? && doc.items.value.ItemTable?
    modifies doc
    ensures outcome == Deliver(old(doc.Table()), old(doc.sentSlots), sid, fetched, cfg, ts, sendOk)
  {
    ghost var table := doc.Table();
    var notified := ScanItems(doc, fetched, cfg, ts);
    if notified != [] {
      if !sendOk {
        return SendFailed(sid, notified);
      }
      ScanFacts(table, fetched, cfg, ts);
      SelectKeys(cfg, table, ts, fetched);
      AlertItems(doc, notified, ts);
    }
    doc.MarkSlotSent(sid, ts);
    outcome := Completed(sid, notified, doc.Saved());
  }

  /** The item loop of `run_once` over the state document. */
  method ScanItems(doc: StateDoc, fetched: seq<Item>, cfg: Config, ts: int) returns (notified: seq<Item>)
    requires doc.items.Some? && doc.items.value.ItemTable?
    modifies doc
    ensures doc.items == Some(ItemTable(Scan(old(doc.Table()), fetched, cfg, ts).table))
    ensures notified == Scan(old(doc.Table()), fetched, cfg, ts).notified
    ensures doc.sentSlots == old(doc.sentSlots)
  {
    ghost var t0 := doc.Table();
    notified := [];
    for i := 0 to |fetched|
      invariant doc.items == Some(ItemTable(Scan(t0, fetched[..i], cfg, ts).table))
      invariant notified == Scan(t0, fetched[..i], cfg, ts).notified
      invariant doc.sentSlots == old(doc.sentSlots)
    {
      assert fetched[..i + 1][..i] == fetched[..i];
      var it := fetched[i];
      doc.MarkSeen(it.key, ts);
      var rec := doc.Table()[it.key];
      var lastAlerted := Stamp(rec.lastAlerted);
      if it.bucket == "BAIXA" || it.score < cfg.minScore {
        continue;
      }
      if lastAlerted == 0 || ts - lastAlerted >= cfg.reAlertHours * 3600 {
        notified := notified + [it];
      }
    }
    assert fetched[..|fetched|] == fetched;
  }

  /** The "marca alertado" loop of `run_once`. */
  method AlertItems(doc: StateDoc, notified: seq<Item>, ts: int)
    requires doc.items.Some? && doc.items.value.ItemTable? && ItemKeys(notified) <= doc.items.value.table.Keys
    modifies doc
    ensures doc.items == Some(ItemTable(AlertAll(old(doc.Table()), notified, ts)))
    ensures doc.sentSlots == old(doc.sentSlots)
  {
    ghost var t0 := doc.Table();
    for j := 0 to |notified|
      invariant ItemKeys(notified[..j]) <= t0.Keys
      invariant doc.items == Some(ItemTable(AlertAll(t0, notified[..j], ts)))
      invariant doc.sentSlots == old(doc.sentSlots)
    {
      assert notified[..j + 1][..j] == notified[..j];
      assert ItemKeys(notified[..j + 1]) <= t0.Keys by {
        assert forall i :: 0 <= i < j + 1 ==> notified[..j + 1][i] == notified[i];
      }
      assert notified[j].key in ItemKeys(notified);
      doc.MarkAlerted(notified[j].key, ts);
    }
    assert notified[..|notified|] == notified;
  }

  // ---------------------------------------------------------------------
  // Properties of a cycle
  // ---------------------------------------------------------------------

  /** After a completed cycle the saved state has: every fetched item seen
      at `ts`; `last_alerted = ts` on exactly the notified items; every
      other surviving record as pruning left it; and the slot recorded at
      `ts`, whether or not anything was notified. The message is exactly
      the eligible fetched items. */
  lemma CompletedCycle(r: ReadResult, cfg: Config, now: DateTime, ts: int, pruneNow: int,
                       fetched: seq<Item>, sendOk: bool)
    requires Cycle(r, cfg, now, ts, pruneNow, Some(fetched), sendOk).Completed?
    ensures var o := Cycle(r, cfg, now, ts, pruneNow, Some(fetched), sendOk);
            var table := LoadedTable(LoadState(r), cfg, pruneNow);
            && o.message == Select(cfg, table, ts, fetched)
            && o.saved.sentSlots == Some(LoadedSlots(LoadState(r))[o.sid := ts])
            && o.saved.items.Some? && o.saved.items.value.ItemTable?
            && var saved := o.saved.items.value.table;
            && saved.Keys == table.Keys + ItemKeys(fetched)
            && ItemKeys(o.message) <= ItemKeys(fetched)
            && (forall k :: k in ItemKeys(fetched) ==> saved[k].lastSeen == Some(ts))
            && (forall k :: k in ItemKeys(o.message) ==> saved[k].lastAlerted == Some(ts))
            && (forall k :: k in saved && k !in ItemKeys(o.message) ==> LastAlerted(saved, k) == LastAlerted(table, k))
            && (forall k :: k in table && k !in ItemKeys(fetched) ==> saved[k] == table[k])
  {
    var s := LoadState(r);
    var slot := ActiveResult(cfg, now).value.value;
    var sid := SlotId(now.date, slot.hh, slot.mm);
    DeliverFacts(LoadedTable(s, cfg, pruneNow), LoadedSlots(s), sid, fetched, cfg, ts, sendOk);
  }

  lemma DeliverFacts(table: map<string, ItemRecord>, slots: map<string, int>, sid: string,
                     fetched: seq<Item>, cfg: Config, ts: int, sendOk: bool)
    requires Deliver(table, slots, sid, fetched, cfg, ts, sendOk).Completed?
    ensures var o := Deliver(table, slots, sid, fetched, cfg, ts, sendOk);
            && o.sid == sid
            && o.message == Select(cfg, table, ts, fetched)
            && o.saved.sentSlots == Some(slots[sid := ts])
            && o.saved.items.Some? && o.saved.items.value.ItemTable?
            && var saved := o.saved.items.value.table;
            && saved.Keys == table.Keys + ItemKeys(fetched)
            && ItemKeys(o.message) <= ItemKeys(fetched)
            && (forall k :: k in ItemKeys(fetched) ==> saved[k].lastSeen == Some(ts))
            && (forall k :: k in ItemKeys(o.message) ==> saved[k].lastAlerted == Some(ts))
            && (forall k :: k in saved && k !in ItemKeys(o.message) ==> LastAlerted(saved, k) == LastAlerted(table, k))
            && (forall k :: k in table && k !in ItemKeys(fetched) ==> saved[k] == table[k])
  {
    var scan := Scan(table, fetched, cfg, ts);
    ScanFacts(table, fetched, cfg, ts);
    SelectKeys(cfg, table, ts, fetched);
    AlertAllFacts(scan.table, scan.notified, ts);
    var saved := AlertAll(scan.table, scan.notified, ts);
    forall k | k in saved && k !in ItemKeys(scan.notified)
      ensures LastAlerted(saved, k) == LastAlerted(table, k)
    {
      assert saved[k] == scan.table[k];
    }
    forall k | k in ItemKeys(fetched)
      ensures saved[k].lastSeen == Some(ts)
    {
      if k in ItemKeys(scan.notified) {
        assert saved[k] == scan.table[k].(lastAlerted := Some(ts));
      } else {
        assert saved[k] == scan.table[k];
      }
    }
  }

  /** At most one send per slot: once a cycle has completed a slot (at a
      real, non-zero timestamp) and its state is saved, any later cycle
      whose active slot has the same id stops before fetching or sending. */
  lemma AtMostOneSendPerSlot(r: ReadResult, cfg: Config, now: DateTime, ts: int, pruneNow: int,
                             fetched: seq<Item>, sendOk: bool,
                             now2: DateTime, ts2: int, pruneNow2: int, fetched2: Option<seq<Item>>, sendOk2: bool)
    requires ts != 0
    requires Cycle(r, cfg, now, ts, pruneNow, Some(fetched), sendOk).Completed?
    requires ActiveSid(cfg, now2) == ActiveSid(cfg, now)
    ensures var o := Cycle(r, cfg, now, ts, pruneNow, Some(fetched), sendOk);
            Cycle(Parsed(o.saved), cfg, now2, ts2, pruneNow2, fetched2, sendOk2) == SlotAlreadySent(o.sid)
  {
    CompletedRecordsSlot(r, cfg, now, ts, pruneNow, fetched, sendOk);
    var o := Cycle(r, cfg, now, ts, pruneNow, Some(fetched), sendOk);
    SentSlotStops(o.saved, cfg, now2, ts2, pruneNow2, fetched2, sendOk2);
  }

  /** A completed cycle handled the active slot and recorded it at `ts`. */
  lemma CompletedRecordsSlot(r: ReadResult, cfg: Config, now: DateTime, ts: int, pruneNow: int,
                             fetched: seq<Item>, sendOk: bool)
    requires Cycle(r, cfg, now, ts, pruneNow, Some(fetched), sendOk).Completed?
    ensures var o := Cycle(r, cfg, now, ts, pruneNow, Some(fetched), sendOk);
      ActiveSid(cfg, now) == Some(o.sid)
      && LoadedSlots(o.saved) == LoadedSlots(LoadState(r))[o.sid := ts]
  {
    var s := LoadState(r);
    var slot := ActiveResult(cfg, now).value.value;
    var sid := SlotId(now.date, slot.hh, slot.mm);
    DeliverRecordsSlot(LoadedTable(s, cfg, pruneNow), LoadedSlots(s), sid, fetched, cfg, ts, sendOk);
  }

  lemma DeliverRecordsSlot(table: map<string, ItemRecord>, slots: map<string, int>, sid: string,
                           fetched: seq<Item>, cfg: Config, ts: int, sendOk: bool)
    ensures var o := Deliver(table, slots, sid, fetched, cfg, ts, sendOk);
      o.Completed? ==> o.sid == sid && LoadedSlots(o.saved) == slots[sid := ts]
  {
  }

  /** A state whose `sent_slots` records the active slot with a non-zero
      stamp stops the cycle before anything is fetched. */
  lemma SentSlotStops(saved: Snapshot, cfg: Config, now: DateTime, ts: int, pruneNow: int,
                      fetched: Option<seq<Item>>, sendOk: bool)
    requires ActiveSid(cfg, now).Some? && Sent(LoadedSlots(saved), ActiveSid(cfg, now).value)
    ensures Cycle(Parsed(saved), cfg, now, ts, pruneNow, fetched, sendOk) == SlotAlreadySent(ActiveSid(cfg, now).value)
  {
  }

  /** A slot recorded with the value 0 reads as not yet sent: the cycle
      goes on to fetch and, if needed, send. */
  lemma ZeroStampIsNotSent(r: ReadResult, cfg: Config, now: DateTime, ts: int, pruneNow: int,
                           fetched: Option<seq<Item>>, sendOk: bool)
    requires ActiveSid(cfg, now).Some?
    requires LoadedSlots(LoadState(r)) == map[ActiveSid(cfg, now).value := 0]
    ensures Cycle(r, cfg, now, ts, pruneNow, fetched, sendOk).Completed?
            || Cycle(r, cfg, now, ts, pruneNow, fetched, sendOk).SendFailed?
            || Cycle(r, cfg, now, ts, pruneNow, fetched, sendOk).FetchFailed?
  {
  }

  /** With no active slot the cycle ends before fetching, sending or
      saving; a slot already handled ends it the same way. */
  lemma QuietCycles(r: ReadResult, cfg: Config, now: DateTime, ts: int, pruneNow: int,
                    fetched: Option<seq<Item>>, sendOk: bool)
    ensures ActiveSid(cfg, now).None? ==>
              Cycle(r, cfg, now, ts, pruneNow, fetched, sendOk) in {Raised, NoActiveSlot}
    ensures ActiveSid(cfg, now).Some? && ActiveSid(cfg, now).value in LoadedSlots(LoadState(r))
            && LoadedSlots(LoadState(r))[ActiveSid(cfg, now).value] != 0 ==>
              Cycle(r, cfg, now, ts, pruneNow, fetched, sendOk) == SlotAlreadySent(ActiveSid(cfg, now).value)
  {
  }

  /** A fetch that raises ends a cycle for a slot not yet handled without
      sending or saving anything, so the slot stays open and a later cycle
      in the same window, from the same stored state, fetches again. */
  lemma FailedFetchRetries(r: ReadResult, cfg: Config, now: DateTime, ts: int, pruneNow: int, sendOk: bool,
                           now2: DateTime, ts2: int, pruneNow2: int, fetched2: Option<seq<Item>>, sendOk2: bool)
    requires ActiveSid(cfg, now).Some? && !Sent(LoadedSlots(LoadState(r)), ActiveSid(cfg, now).value)
    requires ActiveSid(cfg, now2) == ActiveSid(cfg, now)
    ensures Cycle(r, cfg, now, ts, pruneNow, None, sendOk) == FetchFailed(ActiveSid(cfg, now).value)
    ensures !Cycle(r, cfg, now2, ts2, pruneNow2, fetched2, sendOk2).SlotAlreadySent?
  {
  }
}
