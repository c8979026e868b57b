/** The operations of the address manager on values, composed of the elementary changes. */
module AddrOps {
  import opened AddrTables
  import Division
  import opened Wrappers

  const MAX_COLLISIONS := 10
  const MINUTE := 60
  const HOUR := 3600
  const DAY := 86400

  /** An address as announced by a peer. */
  datatype Address = Address(service: Service, services: set<nat>, time: int)

  /** The whole manager: the tables, the time of the last success anywhere, and the ids that
      wait for a test because their tried slot is taken. */
  datatype Man = Man(st: State, lastGood: int, collisions: set<int>)

  function Max(a: int, b: int): int { if a < b then b else a }

  function Find(st: State, a: Service): Option<int> {
    if a in st.ids && st.ids[a] in st.info then Some(st.ids[a]) else None
  }

  /** What is found for an address is the one entry with that address. */
  lemma FindExact(h: Env, st: State, a: Service)
    requires Links(h, st)
    ensures Find(st, a).Some? ==> Find(st, a).value in st.info && st.info[Find(st, a).value].addr == a
    ensures forall id :: id in st.info && st.info[id].addr == a ==> Find(st, a) == Some(id)
  {
    forall id | id in st.info && st.info[id].addr == a ensures Find(st, a) == Some(id) {
      assert InfoOk(h, st, id);
    }
  }

  /** Bad enough to be overwritten. */
  predicate IsTerrible(i: Info, now: int) {
    if now - i.lastTry <= MINUTE then false
    else
      || i.time > now + 10 * MINUTE
      || now - i.time > 30 * DAY
      || (i.lastSuccess == 0 && i.attempts >= 3)
      || (now - i.lastSuccess > 7 * DAY && i.attempts >= 10)
  }

  // ----- what an operation leaves alone -----

  predicate SamePeer(i: Info, j: Info) {
    i.addr == j.addr && i.source == j.source && i.inTried == j.inTried &&
    i.lastTry == j.lastTry && i.lastSuccess == j.lastSuccess
  }

  /** Only the entries of `hit` lose references or vanish; nothing appears. */
  predicate Spares(st: State, st': State, hit: set<int>) {
    && st'.tried == st.tried && st'.nextId == st.nextId
    && (forall x :: x in st'.info ==> x in st.info && SamePeer(st.info[x], st'.info[x]))
    && (forall x :: x in st.info && x !in hit ==> x in st'.info && st'.info[x].refCount == st.info[x].refCount)
  }

  /** Over a whole operation tried slots stay taken, ids are not reused and an id keeps its
      address. */
  predicate Grows(st: State, st': State) {
    && st.tried.Keys <= st'.tried.Keys && st.nextId <= st'.nextId
    && forall x :: x in st'.info ==> (x in st.info && st'.info[x].addr == st.info[x].addr) || x >= st.nextId
  }

  lemma GrowsTransitive(a: State, b: State, c: State)
    requires Grows(a, b) && Grows(b, c)
    ensures Grows(a, c)
  {
  }

  // ----- clearing a slot of the new table -----

  function Holder(t: Table, s: Slot): set<int> { if s in t then {t[s]} else {} }

  function ClearNew(h: Env, st: State, s: Slot): State
    requires Links(h, st)
  {
    if s !in st.newTable then st
    else
      var id := st.newTable[s];
      var d := DropRef(st, s);
      DropRefLinks(h, st, s);
      assert InfoOk(h, d, id);
      if d.info[id].refCount == 0 then Delete(d, id) else d
  }

  lemma DeleteSpares(h: Env, st: State, id: int)
    requires Links(h, st) && id in st.info && InfoOk(h, st, id)
    ensures Spares(st, Delete(st, id), {id}) && id !in Delete(st, id).info
    ensures Delete(st, id).newTable == st.newTable
  {
    hide Links, TriedSlot;
    LinksRandom(h, st);
  }

  lemma ClearNewSpares(h: Env, st: State, s: Slot)
    requires Links(h, st)
    ensures Spares(st, ClearNew(h, st, s), Holder(st.newTable, s)) && s !in ClearNew(h, st, s).newTable
    ensures ClearNew(h, st, s).newTable == st.newTable - {s}
  {
    hide Links, InfoOk;
    if s in st.newTable {
      LinksNew(h, st, s);
      var d, id := DropRef(st, s), st.newTable[s];
      DropRefLinks(h, st, s);
      LinksInfo(h, d, id);
      if d.info[id].refCount == 0 {
        DeleteSpares(h, d, id);
      }
    }
  }

  /** Whoever held the slot loses one reference and is deleted with the last one; the
      assertions on the way hold. */
  lemma ClearNewKeeps(h: Env, st: State, s: Slot, floating: set<int>, lag: int)
    requires Inv(h, st, floating, lag)
    ensures Inv(h, ClearNew(h, st, s), floating, lag)
  {
    hide Links, Refs, Counts, Delete, RandomOk;
    if s in st.newTable {
      LinksNew(h, st, s);
      RefsHolder(st, floating, s);
      var d, id := DropRef(st, s), st.newTable[s];
      DropRefKeeps(h, st, s, floating, lag);
      LinksInfo(h, d, id);
      LinksRandom(h, d);
      if d.info[id].refCount == 0 {
        DeleteKeeps(h, d, id, floating + {id}, lag);
        assert floating + {id} - {id} == floating;
      }
    }
  }

  // ----- moving an address into the tried table -----

  /** Where an address goes when it is thrown out of the tried table. */
  function HomeSlot(h: Env, i: Info): Slot {
    NewSlot(h, i.addr, NewBucket(h, i.addr, i.source))
  }

  /** The present holder of a tried slot goes back to its new bucket. */
  function Evict(h: Env, st: State, slot: Slot): State
    requires Links(h, st) && slot in st.tried && |Slots(st.newTable, st.tried[slot])| == 0
  {
    var e := st.tried[slot];
    var u := Untry(st, slot);
    var s := HomeSlot(h, u.info[e]);
    UntryLinks(h, st, slot);
    Unreferenced(u.newTable, e);
    ClearNewSpares(h, u, s);
    Recount(AddRef(ClearNew(h, u, s), s, e), 1)
  }

  lemma EvictKeeps(h: Env, st: State, slot: Slot, floating: set<int>, lag: int)
    requires Inv(h, st, floating, lag) && slot in st.tried && |Slots(st.newTable, st.tried[slot])| == 0
    ensures Inv(h, Evict(h, st, slot), floating, lag)
  {
    hide Links, Refs, Counts;
    LinksTried(h, st, slot);
    RefsInfo(st, floating, st.tried[slot]);
    var e, u, more := st.tried[slot], Untry(st, slot), lag + 1;
    UntryKeeps(h, st, slot, floating, lag);
    var s := HomeSlot(h, u.info[e]);
    Unreferenced(u.newTable, e);
    ClearNewKeeps(h, u, s, floating + {e}, more);
    ClearNewSpares(h, u, s);
    var c := ClearNew(h, u, s);
    AddRefKeeps(h, c, s, e, floating + {e}, more);
    assert floating + {e} - {e} == floating;
    RecountKeeps(h, AddRef(c, s, e), 1, floating, more);
  }

  lemma EvictSpares(h: Env, st: State, slot: Slot)
    requires Links(h, st) && slot in st.tried && |Slots(st.newTable, st.tried[slot])| == 0
    ensures var st', e := Evict(h, st, slot), st.tried[slot];
      && st'.tried == st.tried - {slot} && st'.nextId == st.nextId
      && e in st'.info && !st'.info[e].inTried && st'.info[e].refCount == st.info[e].refCount + 1
      && (forall x :: x in st'.info && x != e ==> x in st.info && SamePeer(st.info[x], st'.info[x]))
      && SamePeer(st.info[e].(inTried := false), st'.info[e])
      && (forall x :: x in st.info && (forall s :: s in st.newTable ==> st.newTable[s] != x) ==> x in st'.info)
  {
    hide Links, ClearNew;
    LinksTried(h, st, slot);
    var e, u := st.tried[slot], Untry(st, slot);
    UntryLinks(h, st, slot);
    Unreferenced(u.newTable, e);
    ClearNewSpares(h, u, HomeSlot(h, u.info[e]));
  }

  /** The entry with its references gone, counted out of the new table. */
  function Lift(st: State, id: int): State
    requires id in st.info
  {
    Recount(DropAllRefs(st, id), -1)
  }

  lemma LiftKeeps(h: Env, st: State, id: int)
    requires Inv(h, st, {}, 0) && id in st.info && !st.info[id].inTried
    ensures Inv(h, Lift(st, id), {id}, 1)
    ensures forall s :: s in st.tried ==> |Slots(Lift(st, id).newTable, st.tried[s])| == 0
    ensures forall s :: s in Lift(st, id).newTable ==> Lift(st, id).newTable[s] != id
    ensures Sides(st, Lift(st, id), {}, {}) && Lift(st, id).tried == st.tried
  {
    hide Links, Refs, Counts;
    DropAllRefsKeeps(h, st, id, {}, 0);
    assert {} + {id} == {id};
    RecountKeeps(h, DropAllRefs(st, id), -1, {id}, 0);
    var a := Lift(st, id);
    forall s | s in st.tried ensures |Slots(a.newTable, st.tried[s])| == 0 {
      LinksTried(h, st, s);
      RefsInfo(a, {id}, st.tried[s]);
    }
  }

  /** Make room in a tried slot. */
  function Vacate(h: Env, st: State, slot: Slot): State
    requires Links(h, st) && (slot in st.tried ==> |Slots(st.newTable, st.tried[slot])| == 0)
  {
    if slot in st.tried then Evict(h, st, slot) else st
  }

  lemma VacateKeeps(h: Env, st: State, slot: Slot, floating: set<int>, lag: int)
    requires Inv(h, st, floating, lag) && (slot in st.tried ==> |Slots(st.newTable, st.tried[slot])| == 0)
    ensures Inv(h, Vacate(h, st, slot), floating, lag)
  {
    hide Links, Refs, Counts;
    if slot in st.tried {
      EvictKeeps(h, st, slot, floating, lag);
    }
  }

  /** Nobody but the evicted entry changes sides, and only entries of the new table go. */
  lemma VacateSpares(h: Env, st: State, slot: Slot)
    requires Links(h, st) && (slot in st.tried ==> |Slots(st.newTable, st.tried[slot])| == 0)
    ensures var st', hit := Vacate(h, st, slot), Holder(st.tried, slot);
      && st'.tried == st.tried - {slot} && st'.nextId == st.nextId
      && Sides(st, st', hit, {})
      && (forall x :: x in hit ==> x in st'.info && st'.info[x].refCount == st.info[x].refCount + 1)
      && (forall x :: x in st.info && (forall s :: s in st.newTable ==> st.newTable[s] != x) ==> x in st'.info)
  {
    hide Links, Evict;
    if slot in st.tried {
      LinksTried(h, st, slot);
      EvictSpares(h, st, slot);
    }
  }

  /** The same peer, now on the given side. */
  predicate Moved(i: Info, j: Info, inTried: bool) {
    i.addr == j.addr && i.source == j.source && i.lastTry == j.lastTry && i.lastSuccess == j.lastSuccess &&
    j.inTried == inTried
  }

  /** No entry appears, and only those of `leave` and `enter` change sides. */
  predicate Sides(st: State, st': State, leave: set<int>, enter: set<int>) {
    forall x :: x in st'.info ==>
      x in st.info && Moved(st.info[x], st'.info[x], x in enter || (st.info[x].inTried && x !in leave))
  }

  /** From the new table to the tried table, evicting whoever holds the tried slot. */
  function MakeTried(h: Env, st: State, id: int): State
    requires Inv(h, st, {}, 0) && id in st.info && !st.info[id].inTried
  {
    var a := Lift(st, id);
    var slot := TriedSlot(h, st.info[id].addr);
    LiftKeeps(h, st, id);
    VacateSpares(h, a, slot);
    PutTried(h, Vacate(h, a, slot), id)
  }

  lemma MakeTriedKeeps(h: Env, st: State, id: int)
    requires Inv(h, st, {}, 0) && id in st.info && !st.info[id].inTried
    ensures Inv(h, MakeTried(h, st, id), {}, 0)
  {
    hide Links, Refs, Counts, Vacate;
    var a, slot := Lift(st, id), TriedSlot(h, st.info[id].addr);
    LiftKeeps(h, st, id);
    VacateKeeps(h, a, slot, {id}, 1);
    VacateSpares(h, a, slot);
    var v := Vacate(h, a, slot);
    assert {id} - {id} == {};
    PutTriedKeeps(h, v, id, {id}, 1);
    assert MakeTried(h, st, id) == PutTried(h, v, id);
  }

  predicate EndsInTried(st: State, st': State, id: int, slot: Slot) {
    && st'.tried == st.tried[slot := id] && st'.nextId == st.nextId && id in st'.info
    && Sides(st, st', Holder(st.tried, slot), {id})
    && (forall x :: x in Holder(st.tried, slot) ==> x in st'.info && st'.info[x].refCount == 1)
  }

  lemma PutTriedMoves(h: Env, st: State, id: int, v: State)
    requires id in st.info && !st.info[id].inTried && id in v.info
    requires var slot := TriedSlot(h, st.info[id].addr);
      && v.tried == st.tried - {slot} && v.nextId == st.nextId
      && Sides(st, v, Holder(st.tried, slot), {})
      && (forall x :: x in Holder(st.tried, slot) ==> x in v.info && v.info[x].refCount == 1)
    ensures EndsInTried(st, PutTried(h, v, id), id, TriedSlot(h, st.info[id].addr))
  {
  }

  lemma LiftAndVacate(h: Env, st: State, id: int, slot: Slot)
    requires Inv(h, st, {}, 0) && id in st.info && !st.info[id].inTried
    ensures Inv(h, Lift(st, id), {id}, 1) && (slot in st.tried ==> |Slots(Lift(st, id).newTable, st.tried[slot])| == 0)
    ensures var v := Vacate(h, Lift(st, id), slot);
      && id in v.info && v.tried == st.tried - {slot} && v.nextId == st.nextId
      && Sides(st, v, Holder(st.tried, slot), {})
      && (forall x :: x in Holder(st.tried, slot) ==> x in v.info && v.info[x].refCount == 1)
  {
    hide Links, Refs, Counts, Vacate;
    LiftKeeps(h, st, id);
    var a := Lift(st, id);
    VacateSpares(h, a, slot);
    assert Holder(a.tried, slot) == Holder(st.tried, slot);
    forall x | x in Holder(st.tried, slot) ensures a.info[x].refCount == 0 {
      LinksTried(h, st, slot);
      RefsInfo(a, {id}, x);
    }
  }

  /** The slot now holds the entry, its former holder is in the new table again, and no other
      entry changes sides. */
  lemma MakeTriedMoves(h: Env, st: State, id: int)
    requires Inv(h, st, {}, 0) && id in st.info && !st.info[id].inTried
    ensures EndsInTried(st, MakeTried(h, st, id), id, TriedSlot(h, st.info[id].addr))
  {
    hide Links, Refs, Counts, Vacate;
    var slot := TriedSlot(h, st.info[id].addr);
    LiftAndVacate(h, st, id, slot);
    PutTriedMoves(h, st, id, Vacate(h, Lift(st, id), slot));
  }

  // ----- entering an address into the new table -----

  /** The outcome of offering an entry a place in the bucket its source assigns. */
  function Insert(h: Env, st: State, id: int, source: NetAddr, now: int): (State, bool)
    requires Links(h, st) && id in st.info && InfoOk(h, st, id)
  {
    var i := st.info[id];
    var s := NewSlot(h, i.addr, NewBucket(h, i.addr, source));
    if s in st.newTable && st.newTable[s] == id then (st, false)
    else if
      || s !in st.newTable
      || IsTerrible(st.info[st.newTable[s]], now)
      || (st.info[st.newTable[s]].refCount > 1 && i.refCount == 0)
    then ClearNewSpares(h, st, s); (AddRef(ClearNew(h, st, s), s, id), true)
    else if i.refCount == 0 then (Delete(st, id), false)
    else (st, false)
  }

  /** The entries that are in neither table because this one has no reference yet. */
  function Pending(st: State, id: int): set<int>
    requires id in st.info
  {
    if st.info[id].refCount == 0 then {id} else {}
  }

  lemma InsertKeeps(h: Env, st: State, id: int, source: NetAddr, now: int)
    requires id in st.info && !st.info[id].inTried && st.info[id].refCount < MAX_REFS
    requires Inv(h, st, Pending(st, id), 0)
    ensures InfoOk(h, st, id) && Inv(h, Insert(h, st, id, source, now).0, {}, 0)
  {
    hide Links, Refs, Counts, ClearNew;
    var i, floating := st.info[id], Pending(st, id);
    var s := NewSlot(h, i.addr, NewBucket(h, i.addr, source));
    LinksInfo(h, st, id);
    LinksRandom(h, st);
    RefsInfo(st, floating, id);
    if s in st.newTable && st.newTable[s] == id {
      assert s in Slots(st.newTable, id);
    } else if Insert(h, st, id, source, now).1 {
      ClearNewKeeps(h, st, s, floating, 0);
      ClearNewSpares(h, st, s);
      AddRefKeeps(h, ClearNew(h, st, s), s, id, floating, 0);
      assert floating - {id} == {};
    } else if i.refCount == 0 {
      DeleteKeeps(h, st, id, floating, 0);
      assert floating - {id} == {};
    }
  }

  /** Nobody changes sides; success means one more reference, in the slot of the source. */
  lemma InsertSpares(h: Env, st: State, id: int, source: NetAddr, now: int)
    requires Links(h, st) && id in st.info && InfoOk(h, st, id)
    ensures var (st', ok) := Insert(h, st, id, source, now);
      && Sides(st, st', {}, {}) && st'.tried == st.tried && st'.nextId == st.nextId
      && (ok ==>
            && id in st'.info && st'.info[id].refCount == st.info[id].refCount + 1
            && var s := NewSlot(h, st.info[id].addr, NewBucket(h, st.info[id].addr, source));
               s in st'.newTable && st'.newTable[s] == id)
      && (!ok ==> st' == st || (st.info[id].refCount == 0 && st' == Delete(st, id)))
  {
    hide Links, ClearNew;
    LinksRandom(h, st);
    var i := st.info[id];
    var s := NewSlot(h, i.addr, NewBucket(h, i.addr, source));
    if s in st.newTable { LinksNew(h, st, s); }
    if Insert(h, st, id, source, now).1 {
      ClearNewSpares(h, st, s);
    } else if i.refCount == 0 {
      DeleteSpares(h, st, id);
    }
  }

  /** What an announcement changes about an entry that is known already. */
  function Refresh(i: Info, a: Address, penalty: int, now: int): Info {
    var interval := if now - a.time < DAY then HOUR else DAY;
    i.(time := if i.time < a.time - interval - penalty then Max(0, a.time - penalty) else i.time,
       services := i.services + a.services)
  }

  /** Every reference an entry has makes the next one twice as unlikely; `draw` stands for the
      random number. */
  predicate Lucky(i: Info, draw: nat) {
    draw % Division.Pow2(Max(0, i.refCount)) == 0
  }

  function NewEntry(st: State, a: Address, source: NetAddr, penalty: int): State {
    Recount(Create(st, a.service, a.services, Max(0, a.time - penalty), source), 1)
  }

  lemma NewEntryKeeps(h: Env, st: State, a: Address, source: NetAddr, penalty: int)
    requires Inv(h, st, {}, 0) && Find(st, a.service).None? && st.nextId >= 0
    ensures var c := NewEntry(st, a, source, penalty);
      && Inv(h, c, {st.nextId}, 0) && st.nextId in c.info && InfoOk(h, c, st.nextId)
      && st.nextId !in st.info && c.tried == st.tried && c.nextId == st.nextId + 1
      && (forall x :: x in c.info && x != st.nextId ==> x in st.info && c.info[x] == st.info[x])
      && c.info[st.nextId].addr == a.service && c.info[st.nextId].refCount == 0 && !c.info[st.nextId].inTried
      && c.info[st.nextId].lastTry == 0 && c.info[st.nextId].lastSuccess == 0
  {
    hide Links, Refs, Counts;
    var time := Max(0, a.time - penalty);
    FreshId(h, st);
    CreateKeeps(h, st, a.service, a.services, time, source, 0);
    RecountKeeps(h, Create(st, a.service, a.services, time, source), 1, {st.nextId}, 1);
    LinksInfo(h, NewEntry(st, a, source, penalty), st.nextId);
  }

  function AddSingle(h: Env, st: State, a: Address, source: NetAddr, timePenalty: int, now: int, draw: nat)
    : (State, bool)
    requires Inv(h, st, {}, 0) && st.nextId >= 0
  {
    if !h.routable(a.service) then (st, false)
    else
      var penalty := if a.service.ip == source then 0 else timePenalty;
      match Find(st, a.service)
      case Some(id) => AddKnown(h, st, id, a, source, penalty, now, draw)
      case None => AddUnknown(h, st, a, source, penalty, now)
  }

  function AddKnown(h: Env, st: State, id: int, a: Address, source: NetAddr, penalty: int, now: int, draw: nat)
    : (State, bool)
    requires Inv(h, st, {}, 0) && id in st.info
  {
    var i := Refresh(st.info[id], a, penalty, now);
    var t := Touch(st, id, i);
    TouchKeeps(h, st, id, i, {}, 0);
    assert InfoOk(h, t, id);
    if a.time <= i.time || i.inTried || i.refCount == MAX_REFS || !Lucky(i, draw) then (t, false)
    else Insert(h, t, id, source, now)
  }

  function AddUnknown(h: Env, st: State, a: Address, source: NetAddr, penalty: int, now: int): (State, bool)
    requires Inv(h, st, {}, 0) && Find(st, a.service).None? && st.nextId >= 0
  {
    NewEntryKeeps(h, st, a, source, penalty);
    var c := NewEntry(st, a, source, penalty);
    Insert(h, c, st.nextId, source, now)
  }

  /** Announcing an address keeps everything in step, moves nobody between the tables and
      frees no tried slot; success means the very address is now referenced from the slot its
      source assigns. */
  lemma AddSingleKeeps(h: Env, st: State, a: Address, source: NetAddr, timePenalty: int, now: int, draw: nat)
    requires Inv(h, st, {}, 0) && st.nextId >= 0
    ensures var (st', ok) := AddSingle(h, st, a, source, timePenalty, now, draw);
      && Inv(h, st', {}, 0) && Grows(st, st') && (TimesOk(st.info) ==> TimesOk(st'.info))
      && (ok ==> Find(st', a.service).Some? && OwnsSlotOf(h, st', Find(st', a.service).value, source))
  {
    hide Links, Refs, Counts, AddKnown, AddUnknown, OwnsSlotOf;
    FindExact(h, st, a.service);
    var penalty := if a.service.ip == source then 0 else timePenalty;
    if h.routable(a.service) {
      match Find(st, a.service) {
        case Some(id) => AddKnownKeeps(h, st, id, a, source, penalty, now, draw);
        case None => AddUnknownKeeps(h, st, a, source, penalty, now);
      }
      FindExact(h, AddSingle(h, st, a, source, timePenalty, now, draw).0, a.service);
    }
  }

  /** An entry sits in the bucket a given source assigns to it. */
  predicate OwnsSlotOf(h: Env, st: State, id: int, source: NetAddr)
    requires id in st.info
  {
    var s := NewSlot(h, st.info[id].addr, NewBucket(h, st.info[id].addr, source));
    s in st.newTable && st.newTable[s] == id
  }

  lemma AddKnownKeeps(h: Env, st: State, id: int, a: Address, source: NetAddr, penalty: int, now: int, draw: nat)
    requires Inv(h, st, {}, 0) && id in st.info
    ensures var (st', ok) := AddKnown(h, st, id, a, source, penalty, now, draw);
      && Inv(h, st', {}, 0) && Grows(st, st') && (TimesOk(st.info) ==> TimesOk(st'.info))
      && (ok ==> id in st'.info && st'.info[id].addr == st.info[id].addr && OwnsSlotOf(h, st', id, source))
  {
    hide Links, Refs, Counts, Insert;
    var i := Refresh(st.info[id], a, penalty, now);
    var t := Touch(st, id, i);
    TouchKeeps(h, st, id, i, {}, 0);
    LinksInfo(h, t, id);
    RefsInfo(t, {}, id);
    if !i.inTried && i.refCount != MAX_REFS {
      assert Pending(t, id) == {};
      InsertKeeps(h, t, id, source, now);
      InsertSpares(h, t, id, source, now);
    }
  }

  lemma AddUnknownKeeps(h: Env, st: State, a: Address, source: NetAddr, penalty: int, now: int)
    requires Inv(h, st, {}, 0) && Find(st, a.service).None? && st.nextId >= 0
    ensures var (st', ok) := AddUnknown(h, st, a, source, penalty, now);
      && Inv(h, st', {}, 0) && Grows(st, st') && (TimesOk(st.info) ==> TimesOk(st'.info))
      && (ok ==> st.nextId in st'.info && st'.info[st.nextId].addr == a.service && OwnsSlotOf(h, st', st.nextId, source))
  {
    hide Links, Refs, Counts, Insert, NewEntry;
    NewEntryKeeps(h, st, a, source, penalty);
    var c, id := NewEntry(st, a, source, penalty), st.nextId;
    assert Pending(c, id) == {id};
    InsertKeeps(h, c, id, source, now);
    InsertSpares(h, c, id, source, now);
  }

  datatype Batch = Batch(st: State, added: nat)

  /** The first n of a batch of announcements, with the number that led to an insertion; the
      clock and the dice are read once for each. */
  function AddMany(h: Env, st: State, addrs: seq<Address>, n: nat, source: NetAddr, timePenalty: int,
                   clock: nat -> int, dice: nat -> nat): (r: Batch)
    requires Inv(h, st, {}, 0) && st.nextId >= 0 && n <= |addrs|
    ensures Inv(h, r.st, {}, 0) && r.st.nextId >= 0
  {
    if n == 0 then Batch(st, 0)
    else AddNext(h, AddMany(h, st, addrs, n - 1, source, timePenalty, clock, dice),
                 addrs[n - 1], source, timePenalty, clock(n - 1), dice(n - 1))
  }

  function AddNext(h: Env, b: Batch, a: Address, source: NetAddr, timePenalty: int, now: int, draw: nat): (r: Batch)
    requires Inv(h, b.st, {}, 0) && b.st.nextId >= 0
    ensures Inv(h, r.st, {}, 0) && r.st.nextId >= 0
  {
    AddSingleKeeps(h, b.st, a, source, timePenalty, now, draw);
    var (st', ok) := AddSingle(h, b.st, a, source, timePenalty, now, draw);
    Batch(st', if ok then b.added + 1 else b.added)
  }

  lemma {:induction false} AddManyKeeps(h: Env, st: State, addrs: seq<Address>, n: nat, source: NetAddr,
                                        timePenalty: int, clock: nat -> int, dice: nat -> nat)
    requires Inv(h, st, {}, 0) && st.nextId >= 0 && n <= |addrs|
    ensures var st' := AddMany(h, st, addrs, n, source, timePenalty, clock, dice).st;
      Grows(st, st') && (TimesOk(st.info) ==> TimesOk(st'.info))
  {
    hide Inv, AddSingle;
    if n > 0 {
      var k := n - 1;
      AddManyKeeps(h, st, addrs, k, source, timePenalty, clock, dice);
      var st' := AddMany(h, st, addrs, k, source, timePenalty, clock, dice).st;
      AddSingleKeeps(h, st', addrs[k], source, timePenalty, clock(k), dice(k));
      GrowsTransitive(st, st', AddSingle(h, st', addrs[k], source, timePenalty, clock(k), dice(k)).0);
    }
  }

  // ----- a successful connection -----

  function Good(h: Env, m: Man, a: Service, testBeforeEvict: bool, time: int): (Man, bool)
    requires Inv(h, m.st, {}, 0)
  {
    match Find(m.st, a)
    case None => (m.(lastGood := time), false)
    case Some(id) =>
      SucceededKeeps(h, m.st, id, time);
      Promote(h, Man(Succeeded(m.st, id, time), time, m.collisions), id, testBeforeEvict)
  }

  /** An entry has just proved useful: move it to the tried table, or let it wait. */
  function Promote(h: Env, m: Man, id: int, testBeforeEvict: bool): (Man, bool)
    requires Inv(h, m.st, {}, 0) && id in m.st.info
  {
    var i := m.st.info[id];
    if i.inTried || i.refCount <= 0 then (m, false)
    else if testBeforeEvict && TriedSlot(h, i.addr) in m.st.tried then
      (m.(collisions := if |m.collisions| < MAX_COLLISIONS then m.collisions + {id} else m.collisions), false)
    else (m.(st := MakeTried(h, m.st, id)), true)
  }

  function Succeeded(st: State, id: int, time: int): State
    requires id in st.info
  {
    Touch(st, id, st.info[id].(lastSuccess := time, lastTry := time, attempts := 0))
  }

  lemma SucceededKeeps(h: Env, st: State, id: int, time: int)
    requires Inv(h, st, {}, 0) && id in st.info
    ensures Inv(h, Succeeded(st, id, time), {}, 0)
  {
    hide Inv;
    TouchKeeps(h, st, id, st.info[id].(lastSuccess := time, lastTry := time, attempts := 0), {}, 0);
  }

  /** No more than ten ids wait, each handed out before, and as long as one is known the tried
      slot of its address is taken. */
  predicate CollisionsOk(h: Env, st: State, collisions: set<int>) {
    && |collisions| <= MAX_COLLISIONS
    && forall id :: id in collisions ==> id < st.nextId && (id in st.info ==> TriedSlot(h, st.info[id].addr) in st.tried)
  }

  /** What holds between operations, whatever the clock says. */
  predicate ManInv(h: Env, m: Man) {
    Inv(h, m.st, {}, 0) && m.st.nextId >= 0 && CollisionsOk(h, m.st, m.collisions)
  }

  lemma CollisionsStay(h: Env, st: State, st': State, collisions: set<int>)
    requires CollisionsOk(h, st, collisions) && Grows(st, st')
    ensures CollisionsOk(h, st', collisions)
  {
  }

  /** A success keeps everything in step whatever time is given; a move happens exactly if the
      address is known, not tried yet and not held back, and puts that very address into its
      tried slot. */
  lemma GoodKeeps(h: Env, m: Man, a: Service, testBeforeEvict: bool, time: int)
    requires ManInv(h, m)
    ensures var (m', moved) := Good(h, m, a, testBeforeEvict, time);
      && ManInv(h, m') && Grows(m.st, m'.st)
      && (!testBeforeEvict ==> m'.collisions == m.collisions)
      && (moved <==> Find(m.st, a).Some? && !m.st.info[Find(m.st, a).value].inTried
                     && !(testBeforeEvict && TriedSlot(h, a) in m.st.tried))
      && (moved ==>
            && Find(m'.st, a) == Find(m.st, a) && m'.st.info[Find(m.st, a).value].inTried
            && m'.st.info[Find(m.st, a).value].addr == a
            && TriedSlot(h, a) in m'.st.tried && m'.st.tried[TriedSlot(h, a)] == Find(m.st, a).value)
  {
    hide Links, Refs, Counts, MakeTried;
    if Find(m.st, a).Some? {
      var id := Find(m.st, a).value;
      var t := Succeeded(m.st, id, time);
      SucceededKeeps(h, m.st, id, time);
      RefsInfo(t, {}, id);
      LinksInfo(h, m.st, id);
      FindExact(h, m.st, a);
      assert Grows(m.st, t);
      if Good(h, m, a, testBeforeEvict, time).1 {
        MakeTriedKeeps(h, t, id);
        MakeTriedMoves(h, t, id);
        assert Grows(m.st, MakeTried(h, t, id));
        assert MakeTried(h, t, id).info[id].addr == t.info[id].addr;
        FindExact(h, MakeTried(h, t, id), a);
      }
      CollisionsStay(h, m.st, Good(h, m, a, testBeforeEvict, time).0.st, m.collisions);
    }
  }

  /** The times survive a success exactly when the address is unknown, the time is positive, or
      it is zero and the entry is to stay in the new table because its slot is taken. */
  lemma GoodKeepsTimesIff(h: Env, m: Man, a: Service, testBeforeEvict: bool, time: int)
    requires ManInv(h, m) && TimesOk(m.st.info)
    ensures TimesOk(Good(h, m, a, testBeforeEvict, time).0.st.info) <==>
      || Find(m.st, a).None? || time > 0
      || (time == 0 && testBeforeEvict && !m.st.info[Find(m.st, a).value].inTried
          && TriedSlot(h, m.st.info[Find(m.st, a).value].addr) in m.st.tried)
  {
    hide Links, Refs, Counts, MakeTried;
    if Find(m.st, a).Some? {
      var id := Find(m.st, a).value;
      var t := Succeeded(m.st, id, time);
      SucceededKeeps(h, m.st, id, time);
      RefsInfo(t, {}, id);
      SucceededTimes(m.st, id, time);
      if Good(h, m, a, testBeforeEvict, time).1 {
        MakeTriedMoves(h, t, id);
        MovedTimes(t, MakeTried(h, t, id), id, TriedSlot(h, t.info[id].addr));
      }
    }
  }

  lemma SucceededTimes(st: State, id: int, time: int)
    requires id in st.info && TimesOk(st.info)
    ensures TimesOk(Succeeded(st, id, time).info) <==> time > 0 || (time == 0 && !st.info[id].inTried)
  {
    var t := Succeeded(st, id, time);
    assert id in t.info;
  }

  lemma MovedTimes(t: State, st': State, id: int, slot: Slot)
    requires EndsInTried(t, st', id, slot) && t.info.Keys >= {id}
    requires forall x :: x in t.info && x != id ==>
      t.info[x].lastTry >= 0 && t.info[x].lastSuccess >= 0 && (t.info[x].inTried ==> t.info[x].lastSuccess > 0)
    ensures TimesOk(st'.info) <==> t.info[id].lastSuccess > 0 && t.info[id].lastTry >= 0
  {
    assert Moved(t.info[id], st'.info[id], true);
  }

  // ----- statistics -----

  function Attempted(i: Info, countFailure: bool, lastGood: int, time: int): Info {
    if countFailure && i.lastCount < lastGood
    then i.(lastTry := time, lastCount := time, attempts := i.attempts + 1) else i.(lastTry := time)
  }

  function Attempt(m: Man, a: Service, countFailure: bool, time: int): Man {
    match Find(m.st, a)
    case None => m
    case Some(id) => m.(st := Touch(m.st, id, Attempted(m.st.info[id], countFailure, m.lastGood, time)))
  }

  function Seen(i: Info, time: int): Info {
    if time - i.time > 20 * MINUTE then i.(time := time) else i
  }

  function Connected(m: Man, a: Service, time: int): Man {
    match Find(m.st, a)
    case None => m
    case Some(id) => m.(st := Touch(m.st, id, Seen(m.st.info[id], time)))
  }

  function SetServices(m: Man, a: Service, services: set<nat>): Man {
    match Find(m.st, a)
    case None => m
    case Some(id) => m.(st := Touch(m.st, id, m.st.info[id].(services := services)))
  }

  lemma TouchKeepsMan(h: Env, m: Man, id: int, i: Info)
    requires ManInv(h, m) && id in m.st.info
    ensures ManInv(h, m.(st := Touch(m.st, id, i))) && Grows(m.st, Touch(m.st, id, i))
  {
    hide Inv, CollisionsOk;
    TouchKeeps(h, m.st, id, i, {}, 0);
    CollisionsStay(h, m.st, Touch(m.st, id, i), m.collisions);
  }

  lemma TouchKeepsTimesIff(st: State, id: int, i: Info)
    requires TimesOk(st.info) && id in st.info
    ensures TimesOk(Touch(st, id, i).info)
       <==> i.lastTry >= 0 && i.lastSuccess >= 0 && (st.info[id].inTried ==> i.lastSuccess > 0)
  {
    assert id in Touch(st, id, i).info;
  }

  /** An attempt keeps the times exactly when the address is unknown or the attempt is not
      before the epoch. */
  lemma AttemptKeeps(h: Env, m: Man, a: Service, countFailure: bool, time: int)
    requires ManInv(h, m)
    ensures ManInv(h, Attempt(m, a, countFailure, time))
    ensures TimesOk(m.st.info) ==>
      (TimesOk(Attempt(m, a, countFailure, time).st.info) <==> Find(m.st, a).None? || time >= 0)
  {
    hide ManInv, Touch;
    if Find(m.st, a).Some? {
      var id := Find(m.st, a).value;
      var i := Attempted(m.st.info[id], countFailure, m.lastGood, time);
      TouchKeepsMan(h, m, id, i);
      if TimesOk(m.st.info) {
        TouchKeepsTimesIff(m.st, id, i);
      }
    }
  }

  lemma ConnectedKeeps(h: Env, m: Man, a: Service, time: int)
    requires ManInv(h, m)
    ensures ManInv(h, Connected(m, a, time))
    ensures TimesOk(m.st.info) ==> TimesOk(Connected(m, a, time).st.info)
  {
    hide ManInv, Touch;
    if Find(m.st, a).Some? {
      var id := Find(m.st, a).value;
      TouchKeepsMan(h, m, id, Seen(m.st.info[id], time));
      if TimesOk(m.st.info) {
        TouchKeepsTimesIff(m.st, id, Seen(m.st.info[id], time));
      }
    }
  }

  lemma SetServicesKeeps(h: Env, m: Man, a: Service, services: set<nat>)
    requires ManInv(h, m)
    ensures ManInv(h, SetServices(m, a, services))
    ensures TimesOk(m.st.info) ==> TimesOk(SetServices(m, a, services).st.info)
  {
    hide ManInv, Touch;
    if Find(m.st, a).Some? {
      var id := Find(m.st, a).value;
      TouchKeepsMan(h, m, id, m.st.info[id].(services := services));
      if TimesOk(m.st.info) {
        TouchKeepsTimesIff(m.st, id, m.st.info[id].(services := services));
      }
    }
  }

  // ----- addresses that wait because their tried slot is taken -----

  /** What to do about one of them. */
  datatype Verdict = Forget | Replace | Wait

  function Judge(h: Env, st: State, id: int, now: int): Verdict
    requires Links(h, st)
  {
    if id !in st.info then Forget
    else
      var i := st.info[id];
      var slot := TriedSlot(h, i.addr);
      if !h.valid(i.addr) then Forget
      else if slot !in st.tried then Replace
      else
        var holder := st.info[st.tried[slot]];
        if now - holder.lastSuccess < 4 * HOUR then Forget
        else if now - holder.lastTry < 4 * HOUR then (if now - holder.lastTry > MINUTE then Replace else Wait)
        else if now - i.lastSuccess > 40 * MINUTE then Replace
        else Wait
  }

  function ResolveOne(h: Env, m: Man, id: int, now: int): Man
    requires Inv(h, m.st, {}, 0)
  {
    match Judge(h, m.st, id, now)
    case Wait => m
    case Forget => m.(collisions := m.collisions - {id})
    case Replace =>
      var g := Good(h, m, m.st.info[id].addr, false, now).0;
      g.(collisions := g.collisions - {id})
  }

  lemma ForgetOne(h: Env, m: Man, id: int)
    requires ManInv(h, m)
    ensures ManInv(h, m.(collisions := m.collisions - {id}))
  {
    assert |m.collisions - {id}| <= |m.collisions| by {
      if id in m.collisions {
        assert |m.collisions - {id}| == |m.collisions| - 1;
      } else {
        assert m.collisions - {id} == m.collisions;
      }
    }
  }

  lemma ResolveOneKeeps(h: Env, m: Man, id: int, now: int)
    requires ManInv(h, m) && TimesOk(m.st.info) && now > 0
    ensures var m' := ResolveOne(h, m, id, now);
      && ManInv(h, m') && TimesOk(m'.st.info) && Grows(m.st, m'.st)
      && m'.collisions <= m.collisions
      && (Judge(h, m.st, id, now).Replace? ==> Find(m.st, m.st.info[id].addr) == Some(id))
  {
    hide Links, Refs, Counts, Good;
    match Judge(h, m.st, id, now) {
      case Wait =>
      case Forget => ForgetOne(h, m, id);
      case Replace =>
        LinksInfo(h, m.st, id);
        var a := m.st.info[id].addr;
        GoodKeeps(h, m, a, false, now);
        GoodKeepsTimesIff(h, m, a, false, now);
        ForgetOne(h, Good(h, m, a, false, now).0, id);
    }
  }

  /** The collisions in turn; `clock` gives the time read when an id is looked at. */
  function ResolveAll(h: Env, m: Man, order: seq<int>, clock: int -> int): Man
    requires ManInv(h, m) && TimesOk(m.st.info) && forall x :: x in order ==> clock(x) > 0
    decreases |order|, 0
  {
    if order == [] then m
    else
      var last := order[|order| - 1];
      var before := order[..|order| - 1];
      ResolveAllKeeps(h, m, before, clock);
      ResolveOne(h, ResolveAll(h, m, before, clock), last, clock(last))
  }

  lemma ResolveAllKeeps(h: Env, m: Man, order: seq<int>, clock: int -> int)
    requires ManInv(h, m) && TimesOk(m.st.info) && forall x :: x in order ==> clock(x) > 0
    ensures var m' := ResolveAll(h, m, order, clock);
      ManInv(h, m') && TimesOk(m'.st.info) && Grows(m.st, m'.st) && m'.collisions <= m.collisions
    decreases |order|, 1
  {
    hide ManInv, TimesOk, ResolveOne;
    if order != [] {
      var last := order[|order| - 1];
      var before := order[..|order| - 1];
      ResolveAllKeeps(h, m, before, clock);
      ResolveOneKeeps(h, ResolveAll(h, m, before, clock), last, clock(last));
    }
  }

  lemma ResolveAllStep(h: Env, m: Man, order: seq<int>, k: nat, clock: int -> int)
    requires ManInv(h, m) && TimesOk(m.st.info) && (forall x :: x in order ==> clock(x) > 0) && k < |order|
    ensures var before := ResolveAll(h, m, order[..k], clock);
      && Inv(h, before.st, {}, 0)
      && ResolveAll(h, m, order[..k + 1], clock) == ResolveOne(h, before, order[k], clock(order[k]))
  {
    hide Inv, CollisionsOk, ResolveOne, TimesOk;
    ResolveAllKeeps(h, m, order[..k], clock);
    var prefix := order[..k + 1];
    assert prefix[..|prefix| - 1] == order[..k] && prefix[|prefix| - 1] == order[k];
  }

  /** The id drawn is dropped when it is no longer known; otherwise the tried entry it competes
      with is the answer, and there always is one. */
  function SelectTriedCollision(h: Env, m: Man, pick: int): (Man, Option<Info>)
    requires Inv(h, m.st, {}, 0)
  {
    if pick !in m.collisions then (m, None)
    else if pick !in m.st.info then (m.(collisions := m.collisions - {pick}), None)
    else
      var slot := TriedSlot(h, m.st.info[pick].addr);
      (m, if slot in m.st.tried then Some(m.st.info[m.st.tried[slot]]) else None)
  }

  lemma SelectTriedCollisionFinds(h: Env, m: Man, pick: int)
    requires ManInv(h, m) && pick in m.collisions
    ensures var (m', r) := SelectTriedCollision(h, m, pick);
      && ManInv(h, m') && m'.st == m.st
      && (pick in m.st.info ==>
            && m' == m && r.Some? && r.value.inTried
            && TriedSlot(h, r.value.addr) == TriedSlot(h, m.st.info[pick].addr))
  {
    hide Refs, Counts;
    ForgetOne(h, m, pick);
  }

  // ----- whole runs -----

  datatype Event =
    | AddEvent(a: Address, source: NetAddr, penalty: int, now: int, draw: nat)
    | GoodEvent(service: Service, time: int)
    | AttemptEvent(service: Service, countFailure: bool, time: int)
    | ConnectedEvent(service: Service, time: int)
    | SetServicesEvent(service: Service, services: set<nat>)
    | ResolveEvent(order: seq<int>, clock: int -> int)
    | SelectEvent(pick: int)
    | SwapEvent(i: nat, j: nat)   // one of the swaps by which addresses are drawn for a peer

  /** The clock never shows a time before the epoch, nor the epoch itself for a success. */
  ghost predicate Timely(e: Event) {
    match e
    case GoodEvent(_, time) => time > 0
    case AttemptEvent(_, _, time) => time >= 0
    case ResolveEvent(_, clock) => forall x :: clock(x) > 0
    case _ => true
  }

  ghost predicate Sound(h: Env, m: Man) { ManInv(h, m) && TimesOk(m.st.info) }

  ghost function Step(h: Env, m: Man, e: Event): Man
    requires Sound(h, m) && Timely(e)
  {
    match e
    case AddEvent(a, source, penalty, now, draw) => m.(st := AddSingle(h, m.st, a, source, penalty, now, draw).0)
    case GoodEvent(a, time) => Good(h, m, a, true, time).0
    case AttemptEvent(a, countFailure, time) => Attempt(m, a, countFailure, time)
    case ConnectedEvent(a, time) => Connected(m, a, time)
    case SetServicesEvent(a, services) => SetServices(m, a, services)
    case ResolveEvent(order, clock) => ResolveAll(h, m, order, clock)
    case SelectEvent(pick) => SelectTriedCollision(h, m, pick).0
    case SwapEvent(i, j) =>
      if i < |m.st.random| && j < |m.st.random| then m.(st := SwapRandom(m.st, i, j)) else m
  }

  lemma SoundAfter(h: Env, m: Man, st': State)
    requires Sound(h, m) && Inv(h, st', {}, 0) && Grows(m.st, st') && TimesOk(st'.info)
    ensures Sound(h, m.(st := st'))
  {
    CollisionsStay(h, m.st, st', m.collisions);
  }

  lemma SwapRandomSound(h: Env, m: Man, i: nat, j: nat)
    requires Sound(h, m) && i < |m.st.random| && j < |m.st.random|
    ensures Sound(h, m.(st := SwapRandom(m.st, i, j)))
  {
    hide Links, Refs, Counts;
    LinksRandom(h, m.st);
    var st' := SwapRandom(m.st, i, j);
    SwapRandomKeeps(h, m.st, i, j, {}, 0);
    assert Inv(h, st', {}, 0);
    SoundAfter(h, m, st');
  }

  lemma StepKeeps(h: Env, m: Man, e: Event)
    requires Sound(h, m) && Timely(e)
    ensures Sound(h, Step(h, m, e))
  {
    hide Links, Refs, Counts, CollisionsOk, TimesOk, AddSingle, Good, Attempt, Connected, SetServices, ResolveAll;
    match e {
      case AddEvent(a, source, penalty, now, draw) =>
        AddSingleKeeps(h, m.st, a, source, penalty, now, draw);
        SoundAfter(h, m, AddSingle(h, m.st, a, source, penalty, now, draw).0);
      case GoodEvent(a, time) =>
        GoodKeeps(h, m, a, true, time);
        GoodKeepsTimesIff(h, m, a, true, time);
      case AttemptEvent(a, countFailure, time) => AttemptKeeps(h, m, a, countFailure, time);
      case ConnectedEvent(a, time) => ConnectedKeeps(h, m, a, time);
      case SetServicesEvent(a, services) => SetServicesKeeps(h, m, a, services);
      case ResolveEvent(order, clock) => ResolveAllKeeps(h, m, order, clock);
      case SelectEvent(pick) =>
        if pick in m.collisions { SelectTriedCollisionFinds(h, m, pick); }
      case SwapEvent(i, j) =>
        if i < |m.st.random| && j < |m.st.random| {
          LinksRandom(h, m.st);
          SwapRandomSound(h, m, i, j);
        }
    }
  }

  /** The manager right after construction. */
  function Empty(): Man { Man(State(map[], map[], [], map[], map[], 0, 0, 0), 1, {}) }

  lemma EmptySound(h: Env)
    ensures Sound(h, Empty())
  {
    assert TriedIds(map[]) == {} && NewIds(map[]) == {};
  }

  /** A success reported at time 0 for a manager with one new address makes the times fail. */
  lemma SuccessAtZero(h: Env, a: Service)
    ensures Inv(h, Empty().st, {}, 0)
    ensures var m := Man(AddUnknown(h, Empty().st, Address(a, {}, 0), a.ip, 0, 0).0, 1, {});
      Sound(h, m) && !TimesOk(Good(h, m, a, true, 0).0.st.info)
  {
    EmptySound(h);
    var st, address := Empty().st, Address(a, {}, 0);
    AddUnknownKeeps(h, st, address, a.ip, 0, 0);
    NewEntryKeeps(h, st, address, a.ip, 0);
    var c := NewEntry(st, address, a.ip, 0);
    InsertSpares(h, c, 0, a.ip, 0);
    hide Links, Refs, Counts, ClearNew;
    var m := Man(AddUnknown(h, st, address, a.ip, 0, 0).0, 1, {});
    ClearNewSpares(h, c, NewSlot(h, a, NewBucket(h, a, a.ip)));
    assert Find(m.st, a) == Some(0) && m.st.tried == map[];
    GoodKeepsTimesIff(h, m, a, true, 0);
  }

  ghost function Run(h: Env, m: Man, es: seq<Event>): Man
    requires Sound(h, m) && forall e :: e in es ==> Timely(e)
    decreases |es|
  {
    if es == [] then m
    else
      StepKeeps(h, m, es[0]);
      Run(h, Step(h, m, es[0]), es[1..])
  }

  /** After any sequence of operations with sane clocks, from any sound manager, such as the
      empty one, all tables, counters and cross references are in step, at most ten collisions wait,
      and each of them that is still known competes for a tried slot that is taken. */
  lemma {:induction false} RunSound(h: Env, m: Man, es: seq<Event>)
    requires Sound(h, m) && forall e :: e in es ==> Timely(e)
    ensures Sound(h, Run(h, m, es))
    decreases |es|
  {
    if es != [] {
      hide Sound, Step;
      StepKeeps(h, m, es[0]);
      RunSound(h, Step(h, m, es[0]), es[1..]);
    }
  }
}
