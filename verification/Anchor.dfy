/** The double-buffered freshness anchor: load, save and record (vfs.rs), and what its runs keep. */
module Anchor {
  import opened Bytes
  import opened Crypto

  const ANCHOR_FILE := "anchor.bin"
  /** How many databases one anchor block can track. */
  const ANCHOR_CAP: nat := (BLOCK_SIZE - 20) / 40

  datatype AnchorEntry = AnchorEntry(uuid: Uuid, committed: nat, inFlight: nat, epochFloor: nat)

  /** The payload of one slot. */
  datatype Table = Table(seqno: nat, entries: seq<AnchorEntry>)

  function Read(dek: Dek, a: Slots<Table>, i: nat): Option<Table> {
    a.At(i).Open(AnchorKey(dek), ANCHOR_FILE, NO_DOMAIN, i)
  }

  /** `anchor_load`: the authentic slot with the highest sequence number, or an empty table. */
  function Load(dek: Dek, a: Slots<Table>): Table {
    match (Read(dek, a, 0), Read(dek, a, 1))
    case (None, None) => Table(0, [])
    case (Some(t), None) => t
    case (None, Some(t)) => t
    case (Some(t0), Some(t1)) => if t1.seqno > t0.seqno then t1 else t0
  }

  /** The two-slot loop of `anchor_load`. */
  method AnchorLoad(dek: Dek, a: Slots<Table>) returns (t: Table)
    ensures t == Load(dek, a)
  {
    var best: Option<Table> := None;
    for slot := 0 to 2
      invariant slot == 0 ==> best == None
      invariant slot == 1 ==> best == Read(dek, a, 0)
      invariant slot == 2 ==> best == if Read(dek, a, 0).None? && Read(dek, a, 1).None? then None else Some(Load(dek, a))
    {
      var read := a.At(slot).Open(AnchorKey(dek), ANCHOR_FILE, NO_DOMAIN, slot);
      if read.Some? && (best.None? || read.value.seqno > best.value.seqno) {
        best := read;
      }
    }
    t := if best.Some? then best.value else Table(0, []);
  }

  function Seal(dek: Dek, t: Table): Cell<Table> {
    Sealed(AnchorKey(dek), ANCHOR_FILE, NO_DOMAIN, t.seqno % 2, t)
  }

  /** `anchor_save`: one durable write to the slot of the sequence number's parity. */
  function Save(dek: Dek, a: Slots<Table>, t: Table): Slots<Table> {
    With(a, t.seqno % 2, Seal(dek, t))
  }

  /** A save the power failed in: the slot it aimed at no longer authenticates. */
  function TornSave(a: Slots<Table>, t: Table): Slots<Table> {
    With(a, t.seqno % 2, Torn)
  }

  /** The position of a database in a table, or its length. */
  function Find(es: seq<AnchorEntry>, uuid: Uuid): (i: nat)
    ensures i <= |es|
    ensures i < |es| ==> es[i].uuid == uuid
    ensures forall k :: 0 <= k < i ==> es[k].uuid != uuid
  {
    if es == [] || es[0].uuid == uuid then 0 else 1 + Find(es[1..], uuid)
  }

  function Raise(was: nat, offered: Option<nat>): nat {
    if offered.Some? then Max(was, offered.value) else was
  }

  function Init(offered: Option<nat>): nat {
    if offered.Some? then offered.value else 0
  }

  /** The values one record call offers. */
  datatype Bump = Bump(uuid: Uuid, committed: Option<nat>, inFlight: Option<nat>, epochFloor: Option<nat>)

  /** The upsert: values only move forward; a full table refuses a new database. */
  function Upsert(es: seq<AnchorEntry>, b: Bump): Option<seq<AnchorEntry>> {
    var i := Find(es, b.uuid);
    if i < |es| then
      Some(es[i := AnchorEntry(b.uuid, Raise(es[i].committed, b.committed), Raise(es[i].inFlight, b.inFlight),
                               Raise(es[i].epochFloor, b.epochFloor))])
    else if |es| >= ANCHOR_CAP then None
    else Some(es + [AnchorEntry(b.uuid, Init(b.committed), Init(b.inFlight), Init(b.epochFloor))])
  }

  /** The saves a record call makes, in order: one, or one to each slot when it raises an epoch floor. */
  function Saves(t: Table, b: Bump): Option<seq<Table>> {
    match Upsert(t.entries, b)
    case None => None
    case Some(es) =>
      if b.epochFloor.Some? then Some([Table(t.seqno + 1, es), Table(t.seqno + 2, es)])
      else Some([Table(t.seqno + 1, es)])
  }

  function SaveAll(dek: Dek, a: Slots<Table>, ts: seq<Table>): Slots<Table> {
    if ts == [] then a else Save(dek, SaveAll(dek, a, ts[..|ts| - 1]), ts[|ts| - 1])
  }

  /** `open_main_db`'s freshness check: one generation of slack against the local high-water mark,
      none against the peer-attested floor. */
  predicate Fresh(t: Table, uuid: Uuid, gen: nat) {
    var i := Find(t.entries, uuid);
    i < |t.entries| ==>
      && !(gen + 1 < t.entries[i].committed)
      && !(t.entries[i].epochFloor > 0 && gen < t.entries[i].epochFloor)
  }

  // ------------------------------------------------------------------------- what runs keep

  /** Every authentic slot carries a sequence number of its own parity. */
  ghost predicate Wf(dek: Dek, a: Slots<Table>) {
    && (Read(dek, a, 0).Some? ==> Read(dek, a, 0).value.seqno % 2 == 0)
    && (Read(dek, a, 1).Some? ==> Read(dek, a, 1).value.seqno % 2 == 1)
  }

  /** The slot `Load` chose, when one authenticates. */
  function Chosen(dek: Dek, a: Slots<Table>): Option<nat> {
    if Read(dek, a, 0).None? && Read(dek, a, 1).None? then None
    else Some(Load(dek, a).seqno % 2)
  }

  /** A save never overwrites the slot the load chose; landed, it is the next load; torn, the next
      load is unchanged. */
  lemma SaveIsAtomic(dek: Dek, a: Slots<Table>, t: Table)
    requires Wf(dek, a) && t.seqno == Load(dek, a).seqno + 1
    ensures Chosen(dek, a) != Some(t.seqno % 2)
    ensures Wf(dek, Save(dek, a, t)) && Load(dek, Save(dek, a, t)) == t
    ensures Wf(dek, TornSave(a, t)) && Load(dek, TornSave(a, t)) == Load(dek, a)
  {
    var n := Load(dek, a).seqno;
    assert n % 2 == 0 <==> (n + 1) % 2 == 1;
    if t.seqno % 2 == 0 {
      assert Read(dek, Save(dek, a, t), 0) == Some(t);
      assert Read(dek, Save(dek, a, t), 1) == Read(dek, a, 1);
    } else {
      assert Read(dek, Save(dek, a, t), 1) == Some(t);
      assert Read(dek, Save(dek, a, t), 0) == Read(dek, a, 0);
    }
  }

  lemma FindIs(es: seq<AnchorEntry>, uuid: Uuid, i: nat)
    requires i < |es| && es[i].uuid == uuid && forall k :: 0 <= k < i ==> es[k].uuid != uuid
    ensures Find(es, uuid) == i
  {
    hide *;
    assert Find(es, uuid) >= i;
  }

  lemma UpsertUnfolds(es: seq<AnchorEntry>, b: Bump)
    requires Upsert(es, b).Some?
    ensures
      var (later, i) := (Upsert(es, b).value, Find(es, b.uuid));
      if i < |es| then
        later == es[i := AnchorEntry(b.uuid, Raise(es[i].committed, b.committed), Raise(es[i].inFlight, b.inFlight),
                                     Raise(es[i].epochFloor, b.epochFloor))]
      else
        |es| < ANCHOR_CAP && later == es + [AnchorEntry(b.uuid, Init(b.committed), Init(b.inFlight), Init(b.epochFloor))]
  {
    hide Find, Raise, Init;
  }

  /** An upsert leaves the database's entry where it was looked for, with the offered values taken in. */
  lemma UpsertPlace(es: seq<AnchorEntry>, b: Bump)
    requires Upsert(es, b).Some?
    ensures
      var (later, i) := (Upsert(es, b).value, Find(es, b.uuid));
      && i < |later| && Find(later, b.uuid) == i && |later| <= Max(|es|, ANCHOR_CAP)
      && later[i].committed == (if i < |es| then Raise(es[i].committed, b.committed) else Init(b.committed))
      && later[i].inFlight == (if i < |es| then Raise(es[i].inFlight, b.inFlight) else Init(b.inFlight))
      && later[i].epochFloor == (if i < |es| then Raise(es[i].epochFloor, b.epochFloor) else Init(b.epochFloor))
  {
    hide Find, Upsert, Raise, Init;
    var later, i := Upsert(es, b).value, Find(es, b.uuid);
    UpsertUnfolds(es, b);
    if i < |es| {
      assert forall k :: 0 <= k < i ==> later[k] == es[k];
    } else {
      assert i == |es| && forall k :: 0 <= k < i ==> later[k] == es[k];
    }
    FindIs(later, b.uuid, i);
  }

  /** Every entry of `es` is still there in `later`, with no smaller value. */
  ghost predicate Below(es: seq<AnchorEntry>, later: seq<AnchorEntry>) {
    && |es| <= |later|
    && forall i :: 0 <= i < |es| ==> NoLess(es[i], later[i])
  }

  predicate NoLess(e: AnchorEntry, l: AnchorEntry) {
    l.uuid == e.uuid && l.committed >= e.committed && l.inFlight >= e.inFlight && l.epochFloor >= e.epochFloor
  }

  /** One thing that can happen to the anchor file. `landed` saves of a record call are durable and
      the one after them may be torn; a slot may also be lost outright. */
  datatype Event = Recorded(bump: Bump, landed: nat, torn: bool) | Lost(slot: nat)

  function Step(dek: Dek, a: Slots<Table>, e: Event): Slots<Table> {
    match e
    case Lost(i) => With(a, i, Torn)
    case Recorded(b, landed, torn) =>
      match Saves(Load(dek, a), b)
      case None => a
      case Some(ts) =>
        var n := Min(landed, |ts|);
        var done := SaveAll(dek, a, ts[..n]);
        if torn && n < |ts| then TornSave(done, ts[n]) else done
  }

  /** The state after a record call, wherever the power failed in it. */
  lemma RecordKeeps(dek: Dek, a: Slots<Table>, b: Bump, landed: nat, torn: bool)
    requires Wf(dek, a)
    ensures
      var a' := Step(dek, a, Recorded(b, landed, torn));
      && Wf(dek, a')
      && match Saves(Load(dek, a), b)
         case None => a' == a
         case Some(ts) => if landed == 0 then Load(dek, a') == Load(dek, a)
                          else Load(dek, a') == ts[Min(landed, |ts|) - 1]
  {
    var t := Load(dek, a);
    var saves := Saves(t, b);
    if saves.Some? {
      var ts := saves.value;
      SaveIsAtomic(dek, a, ts[0]);
      var a1 := Save(dek, a, ts[0]);
      assert ts[..1] == [ts[0]] && SaveAll(dek, a, ts[..1]) == a1;
      assert ts[..0] == [];
      if |ts| == 2 {
        SaveIsAtomic(dek, a1, ts[1]);
        assert ts[..2] == ts && ts[..2][..1] == ts[..1];
      }
    }
  }

  lemma UpsertRaises(es: seq<AnchorEntry>, b: Bump)
    requires Upsert(es, b).Some?
    ensures Below(es, Upsert(es, b).value)
  {
  }

  function Run(dek: Dek, a: Slots<Table>, events: seq<Event>): Slots<Table> {
    if events == [] then a else Step(dek, Run(dek, a, events[..|events| - 1]), events[|events| - 1])
  }

  /** Over every run of records and torn saves, no loaded value ever decreases and no entry vanishes. */
  lemma {:induction false} LoadedNeverDecreases(dek: Dek, a: Slots<Table>, events: seq<Event>)
    requires Wf(dek, a) && forall e <- events :: e.Recorded?
    ensures Wf(dek, Run(dek, a, events))
    ensures Below(Load(dek, a).entries, Load(dek, Run(dek, a, events)).entries)
  {
    if events != [] {
      var before, e := Run(dek, a, events[..|events| - 1]), events[|events| - 1];
      LoadedNeverDecreases(dek, a, events[..|events| - 1]);
      assert e in events && e.Recorded?;
      RecordKeeps(dek, before, e.bump, e.landed, e.torn);
      var t := Load(dek, before);
      if Upsert(t.entries, e.bump).Some? { UpsertRaises(t.entries, e.bump); }
    }
  }

  /** Some slot authenticates, and every one that does holds the floor `f` for `uuid`. */
  ghost predicate FloorHeld(dek: Dek, a: Slots<Table>, uuid: Uuid, f: nat) {
    && Wf(dek, a)
    && (Read(dek, a, 0).Some? || Read(dek, a, 1).Some?)
    && forall i :: 0 <= i < 2 && Read(dek, a, i).Some? ==> HasFloor(Read(dek, a, i).value, uuid, f)
  }

  predicate HasFloor(t: Table, uuid: Uuid, f: nat) {
    var i := Find(t.entries, uuid);
    i < |t.entries| && t.entries[i].epochFloor >= f
  }

  lemma UpsertKeepsFloor(es: seq<AnchorEntry>, b: Bump, uuid: Uuid, f: nat, seqno: nat)
    requires HasFloor(Table(seqno, es), uuid, f) && Upsert(es, b).Some?
    ensures forall n :: HasFloor(Table(n, Upsert(es, b).value), uuid, f)
  {
    var later := Upsert(es, b).value;
    var i, j := Find(es, uuid), Find(later, uuid);
    UpsertRaises(es, b);
    assert forall k :: 0 <= k <= i ==> NoLess(es[k], later[k]);
    assert j == i;
  }

  lemma UpsertSetsFloor(es: seq<AnchorEntry>, b: Bump)
    requires Upsert(es, b).Some? && b.epochFloor.Some?
    ensures forall n :: HasFloor(Table(n, Upsert(es, b).value), b.uuid, b.epochFloor.value)
  {
    var later := Upsert(es, b).value;
    var i, j := Find(es, b.uuid), Find(later, b.uuid);
    assert later[i].uuid == b.uuid && forall k :: 0 <= k < i ==> later[k] == es[k];
    assert j == i;
  }

  /** An applied epoch writes the floor to both slots. */
  lemma EpochSetsFloor(dek: Dek, a: Slots<Table>, uuid: Uuid, f: nat)
    requires Wf(dek, a)
    requires Saves(Load(dek, a), Bump(uuid, Some(f), Some(f), Some(f))).Some?
    ensures FloorHeld(dek, Step(dek, a, Recorded(Bump(uuid, Some(f), Some(f), Some(f)), 2, false)), uuid, f)
  {
    var b := Bump(uuid, Some(f), Some(f), Some(f));
    var t := Load(dek, a);
    var ts := Saves(t, b).value;
    UpsertSetsFloor(t.entries, b);
    RecordKeeps(dek, a, b, 2, false);
    assert ts[..2] == ts && ts[..1] == [ts[0]];
    var done := Save(dek, Save(dek, a, ts[0]), ts[1]);
    assert SaveAll(dek, a, ts[..1]) == Save(dek, a, ts[0]);
    assert SaveAll(dek, a, ts) == done;
    assert Read(dek, done, ts[0].seqno % 2) == Some(ts[0]);
    assert Read(dek, done, ts[1].seqno % 2) == Some(ts[1]);
  }

  /** A slot may be lost only while the other one authenticates. */
  ghost predicate Bearable(dek: Dek, a: Slots<Table>, e: Event) {
    e.Lost? ==> e.slot < 2 && Read(dek, a, 1 - e.slot).Some?
  }

  ghost predicate AllBearable(dek: Dek, a: Slots<Table>, events: seq<Event>) {
    events == [] || (AllBearable(dek, a, events[..|events| - 1])
                     && Bearable(dek, Run(dek, a, events[..|events| - 1]), events[|events| - 1]))
  }

  lemma SaveKeepsFloor(dek: Dek, a: Slots<Table>, uuid: Uuid, f: nat, t: Table)
    requires FloorHeld(dek, a, uuid, f) && t.seqno == Load(dek, a).seqno + 1 && HasFloor(t, uuid, f)
    ensures FloorHeld(dek, Save(dek, a, t), uuid, f) && FloorHeld(dek, TornSave(a, t), uuid, f)
    ensures Load(dek, Save(dek, a, t)) == t
  {
    SaveIsAtomic(dek, a, t);
    var i := t.seqno % 2;
    forall b | b == Save(dek, a, t) || b == TornSave(a, t) ensures FloorHeld(dek, b, uuid, f) {
      assert b.At(1 - i) == a.At(1 - i);
      assert Read(dek, b, 1 - i) == Read(dek, a, 1 - i);
      assert Read(dek, b, i) == None || Read(dek, b, i) == Some(t);
    }
  }

  lemma StepKeepsFloor(dek: Dek, a: Slots<Table>, uuid: Uuid, f: nat, e: Event)
    requires FloorHeld(dek, a, uuid, f) && Bearable(dek, a, e)
    ensures FloorHeld(dek, Step(dek, a, e), uuid, f)
  {
    if e.Recorded? {
      var t := Load(dek, a);
      assert Read(dek, a, 0) == Some(t) || Read(dek, a, 1) == Some(t);
      var saves := Saves(t, e.bump);
      if saves.Some? {
        var ts := saves.value;
        UpsertKeepsFloor(t.entries, e.bump, uuid, f, t.seqno);
        SaveKeepsFloor(dek, a, uuid, f, ts[0]);
        assert ts[..1] == [ts[0]] && ts[..0] == [] && ts[..|ts|] == ts;
        assert SaveAll(dek, a, ts[..1]) == Save(dek, a, ts[0]);
        if |ts| == 2 { SaveKeepsFloor(dek, Save(dek, a, ts[0]), uuid, f, ts[1]); }
      }
    }
  }

  // ------------------------------------------------------------------------- one entry a database

  predicate DistinctUuids(es: seq<AnchorEntry>) {
    forall i, j :: 0 <= i < j < |es| ==> es[i].uuid != es[j].uuid
  }

  /** Every authentic slot has at most one entry for a database. */
  ghost predicate SlotsDistinct(dek: Dek, a: Slots<Table>) {
    forall i :: 0 <= i < 2 && Read(dek, a, i).Some? ==> DistinctUuids(Read(dek, a, i).value.entries)
  }

  lemma UpsertDistinct(es: seq<AnchorEntry>, b: Bump)
    requires DistinctUuids(es) && Upsert(es, b).Some?
    ensures DistinctUuids(Upsert(es, b).value)
  {
    hide Find, Upsert, Raise, Init;
    var later, i := Upsert(es, b).value, Find(es, b.uuid);
    UpsertUnfolds(es, b);
    forall j, k | 0 <= j < k < |later| ensures later[j].uuid != later[k].uuid {
      assert j < |es| && later[j].uuid == es[j].uuid;
      if k < |es| { assert later[k].uuid == es[k].uuid; }
    }
  }

  lemma SlotKept(dek: Dek, a: Slots<Table>, i: nat, c: Cell<Table>)
    requires SlotsDistinct(dek, a) && i < 2 && (c.Torn? || DistinctUuids(c.plain.entries))
    ensures SlotsDistinct(dek, With(a, i, c))
  {
    hide DistinctUuids;
    var b := With(a, i, c);
    forall k | 0 <= k < 2 && Read(dek, b, k).Some? ensures DistinctUuids(Read(dek, b, k).value.entries) {
      if k != i { assert b.At(k) == a.At(k); assert Read(dek, b, k) == Read(dek, a, k); }
    }
  }

  lemma StepKeepsDistinct(dek: Dek, a: Slots<Table>, e: Event)
    requires SlotsDistinct(dek, a) && (e.Lost? ==> e.slot < 2)
    ensures SlotsDistinct(dek, Step(dek, a, e))
  {
    match e
    case Lost(i) => SlotKept(dek, a, i, Torn);
    case Recorded(b, landed, torn) =>
      var t := Load(dek, a);
      LoadedDistinct(dek, a);
      if Saves(t, b).Some? {
        var ts := Saves(t, b).value;
        UpsertDistinct(t.entries, b);
        hide Upsert, Load, DistinctUuids, SlotsDistinct;
        var n := Min(landed, |ts|);
        assert forall k :: 0 <= k < |ts| ==> ts[k].entries == ts[0].entries;
        SavesKeepDistinct(dek, a, ts[..n]);
        var done := SaveAll(dek, a, ts[..n]);
        if torn && n < |ts| { SlotKept(dek, done, ts[n].seqno % 2, Torn); }
      }
  }

  lemma {:induction false} SavesKeepDistinct(dek: Dek, a: Slots<Table>, ts: seq<Table>)
    requires SlotsDistinct(dek, a) && forall k :: 0 <= k < |ts| ==> DistinctUuids(ts[k].entries)
    ensures SlotsDistinct(dek, SaveAll(dek, a, ts))
  {
    hide DistinctUuids, SlotsDistinct;
    if ts != [] {
      var n := |ts| - 1;
      SavesKeepDistinct(dek, a, ts[..n]);
      SlotKept(dek, SaveAll(dek, a, ts[..n]), ts[n].seqno % 2, Seal(dek, ts[n]));
    }
  }

  lemma LoadedDistinct(dek: Dek, a: Slots<Table>)
    requires SlotsDistinct(dek, a)
    ensures DistinctUuids(Load(dek, a).entries)
  {
    assert Read(dek, a, 0).Some? ==> DistinctUuids(Read(dek, a, 0).value.entries);
    assert Read(dek, a, 1).Some? ==> DistinctUuids(Read(dek, a, 1).value.entries);
  }

  /** From an empty anchor on, over every run of records, torn saves and losses, the loaded table has at
      most one entry for a database. */
  lemma {:induction false} RunIsDistinct(dek: Dek, events: seq<Event>)
    requires forall e <- events :: e.Lost? ==> e.slot < 2
    ensures SlotsDistinct(dek, Run(dek, Slots(Torn, Torn), events))
    ensures DistinctUuids(Load(dek, Run(dek, Slots(Torn, Torn), events)).entries)
  {
    var start: Slots<Table> := Slots(Torn, Torn);
    if events != [] {
      var n := |events| - 1;
      assert events[n] in events;
      RunIsDistinct(dek, events[..n]);
      StepKeepsDistinct(dek, Run(dek, start, events[..n]), events[n]);
    }
    LoadedDistinct(dek, Run(dek, start, events));
  }

  /** Once an epoch at `f` is applied, no later open below `f` passes the check, through every run of
      records, torn saves and losses of either single slot. */
  lemma {:induction false} FloorSurvives(dek: Dek, a: Slots<Table>, uuid: Uuid, f: nat, events: seq<Event>, gen: nat)
    requires FloorHeld(dek, a, uuid, f) && AllBearable(dek, a, events)
    ensures FloorHeld(dek, Run(dek, a, events), uuid, f)
    ensures gen < f ==> !Fresh(Load(dek, Run(dek, a, events)), uuid, gen)
  {
    if events != [] {
      var n := |events| - 1;
      FloorSurvives(dek, a, uuid, f, events[..n], gen);
      StepKeepsFloor(dek, Run(dek, a, events[..n]), uuid, f, events[n]);
    }
    var end := Run(dek, a, events);
    assert Read(dek, end, 0) == Some(Load(dek, end)) || Read(dek, end, 1) == Some(Load(dek, end));
  }
}
