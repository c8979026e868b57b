/** The peer address tables on values: the redundant structures, their consistency and the
    elementary changes every operation is made of. */
module AddrTables {

  const TRIED_BUCKETS := 256
  const NEW_BUCKETS := 1024
  const BUCKET_SIZE := 64
  /** In how many new buckets one address may occur. */
  const MAX_REFS := 8

  datatype NetAddr = NetAddr(bytes: seq<nat>)
  datatype Service = Service(ip: NetAddr, port: nat)

  datatype Info = Info(
    addr: Service, services: set<nat>, time: int, source: NetAddr,
    lastTry: int, lastCount: int, lastSuccess: int, attempts: int,
    refCount: int, inTried: bool, randomPos: int)

  type Slot = (nat, nat)
  type Table = map<Slot, int>

  /** What the tables take as given: the keyed hashes that place an address, of which only the
      range matters, and the classification of addresses. */
  datatype Env = Env(
    tried: Service -> nat,
    fromSource: (Service, NetAddr) -> nat,
    position: (bool, nat, Service) -> nat,
    routable: Service -> bool,
    valid: Service -> bool)

  function TriedSlot(h: Env, a: Service): (s: Slot)
    ensures s.0 < TRIED_BUCKETS && s.1 < BUCKET_SIZE
  {
    var b := h.tried(a) % TRIED_BUCKETS;
    (b, h.position(false, b, a) % BUCKET_SIZE)
  }

  function NewSlot(h: Env, a: Service, bucket: nat): (s: Slot)
    ensures s.0 == bucket && s.1 < BUCKET_SIZE
  {
    (bucket, h.position(true, bucket, a) % BUCKET_SIZE)
  }

  function NewBucket(h: Env, a: Service, source: NetAddr): (b: nat)
    ensures b < NEW_BUCKETS
  {
    h.fromSource(a, source) % NEW_BUCKETS
  }

  /** mapInfo, mapAddr, vRandom, vvTried, vvNew and the counters. */
  datatype State = State(
    info: map<int, Info>, ids: map<Service, int>, random: seq<int>,
    tried: Table, newTable: Table, nTried: int, nNew: int, nextId: int)

  function Slots(t: Table, id: int): set<Slot> { set s | s in t && t[s] == id }
  function TriedIds(info: map<int, Info>): set<int> { set id | id in info && info[id].inTried }
  function NewIds(info: map<int, Info>): set<int> { set id | id in info && !info[id].inTried }

  // ----- consistency -----

  /** One entry against mapAddr, vRandom and the tried table. */
  predicate InfoOk(h: Env, st: State, id: int)
    requires id in st.info
  {
    var i := st.info[id];
    && 0 <= id < st.nextId
    && i.addr in st.ids && st.ids[i.addr] == id
    && 0 <= i.randomPos < |st.random| && st.random[i.randomPos] == id
    && (i.inTried ==> TriedSlot(h, i.addr) in st.tried && st.tried[TriedSlot(h, i.addr)] == id)
  }

  predicate RandomOk(st: State) {
    forall j :: 0 <= j < |st.random| ==> st.random[j] in st.info && st.info[st.random[j]].randomPos == j
  }

  /** Every key of mapAddr leads to an entry with that address. */
  predicate NamesOk(st: State) {
    forall a :: a in st.ids ==> st.ids[a] in st.info && st.info[st.ids[a]].addr == a
  }

  predicate NewOk(h: Env, st: State) {
    forall s :: s in st.newTable ==>
      && s.0 < NEW_BUCKETS && st.newTable[s] in st.info
      && s == NewSlot(h, st.info[st.newTable[s]].addr, s.0)
  }

  predicate TriedOk(h: Env, st: State) {
    forall s :: s in st.tried ==>
      && st.tried[s] in st.info && st.info[st.tried[s]].inTried
      && s == TriedSlot(h, st.info[st.tried[s]].addr)
  }

  predicate Links(h: Env, st: State) {
    && (forall id :: id in st.info ==> InfoOk(h, st, id))
    && RandomOk(st) && NamesOk(st) && NewOk(h, st) && TriedOk(h, st)
  }

  /** One entry's reference count against the new table. */
  predicate RefOk(i: Info, id: int, t: Table, floating: set<int>) {
    && i.refCount == |Slots(t, id)| <= MAX_REFS
    && (if i.inTried then i.refCount == 0 && id !in floating else (i.refCount == 0 <==> id in floating))
  }

  predicate Refs(st: State, floating: set<int>) {
    && floating <= st.info.Keys
    && forall id :: id in st.info ==> RefOk(st.info[id], id, st.newTable, floating)
  }

  predicate Counts(st: State, lag: int) {
    st.nTried == |TriedIds(st.info)| && st.nNew == |NewIds(st.info)| - lag
  }

  /** Everything in step, except that the ids of `floating` are in neither table and that
      `nNew` is behind by `lag`. */
  predicate Inv(h: Env, st: State, floating: set<int>, lag: int) {
    Links(h, st) && Refs(st, floating) && Counts(st, lag)
  }

  /** No time lies before the epoch, and an address was never tried without success. */
  predicate TimesOk(info: map<int, Info>) {
    forall id :: id in info ==>
      info[id].lastTry >= 0 && info[id].lastSuccess >= 0 && (info[id].inTried ==> info[id].lastSuccess > 0)
  }

  /** What the consistency check accepts. */
  predicate Consistent(h: Env, st: State) { Inv(h, st, {}, 0) && TimesOk(st.info) }

  // ----- what depends on what -----

  lemma SameFlags(a: map<int, Info>, b: map<int, Info>)
    requires a.Keys == b.Keys && forall id :: id in a ==> a[id].inTried == b[id].inTried
    ensures TriedIds(a) == TriedIds(b) && NewIds(a) == NewIds(b)
  {
    forall id ensures id in TriedIds(a) <==> id in TriedIds(b) {
      assert id in a.Keys <==> id in b.Keys;
    }
    forall id ensures id in NewIds(a) <==> id in NewIds(b) {
      assert id in a.Keys <==> id in b.Keys;
    }
  }

  lemma CountsFrame(st: State, st': State, lag: int)
    requires Counts(st, lag) && st'.nTried == st.nTried && st'.nNew == st.nNew
    requires st.info.Keys == st'.info.Keys && forall id :: id in st.info ==> st.info[id].inTried == st'.info[id].inTried
    ensures Counts(st', lag)
  {
    SameFlags(st.info, st'.info);
  }

  lemma SlotsAfterDrop(t: Table, s: Slot, id: int)
    requires s in t
    ensures |Slots(t - {s}, id)| == |Slots(t, id)| - if id == t[s] then 1 else 0
  {
    assert Slots(t - {s}, id) == Slots(t, id) - {s};
    assert s in Slots(t, id) <==> id == t[s];
  }

  lemma SlotsAfterAdd(t: Table, s: Slot, x: int, id: int)
    requires s !in t
    ensures |Slots(t[s := x], id)| == |Slots(t, id)| + if id == x then 1 else 0
  {
    assert Slots(t[s := x], id) == if id == x then Slots(t, id) + {s} else Slots(t, id);
  }

  /** Nothing in the new table mentions an id without references. */
  lemma Unreferenced(t: Table, id: int)
    requires |Slots(t, id)| == 0
    ensures forall s :: s in t ==> t[s] != id
  {
    forall s | s in t ensures t[s] != id {
      assert t[s] == id ==> s in Slots(t, id);
    }
  }

  // ----- what the links say about single entries -----

  lemma LinksRandom(h: Env, st: State)
    requires Links(h, st)
    ensures RandomOk(st)
  {
  }

  lemma LinksInfo(h: Env, st: State, id: int)
    requires Links(h, st) && id in st.info
    ensures InfoOk(h, st, id)
  {
  }

  lemma LinksNew(h: Env, st: State, s: Slot)
    requires Links(h, st) && s in st.newTable
    ensures s.0 < NEW_BUCKETS && st.newTable[s] in st.info && s == NewSlot(h, st.info[st.newTable[s]].addr, s.0)
  {
  }

  lemma LinksTried(h: Env, st: State, s: Slot)
    requires Links(h, st) && s in st.tried
    ensures st.tried[s] in st.info && st.info[st.tried[s]].inTried && s == TriedSlot(h, st.info[st.tried[s]].addr)
  {
  }

  lemma FreshId(h: Env, st: State)
    requires Links(h, st)
    ensures st.nextId !in st.info
  {
    assert st.nextId in st.info ==> InfoOk(h, st, st.nextId);
  }

  lemma RefsInfo(st: State, floating: set<int>, id: int)
    requires Refs(st, floating) && id in st.info
    ensures RefOk(st.info[id], id, st.newTable, floating)
  {
  }

  lemma FloatingKnown(st: State, floating: set<int>, id: int)
    requires Refs(st, floating) && id in floating
    ensures id in st.info && !st.info[id].inTried && st.info[id].refCount == 0
  {
    assert RefOk(st.info[id], id, st.newTable, floating);
  }

  /** Whoever holds a slot of the new table is referenced and not in the tried table. */
  lemma RefsHolder(st: State, floating: set<int>, s: Slot)
    requires Refs(st, floating) && s in st.newTable && st.newTable[s] in st.info
    ensures st.info[st.newTable[s]].refCount > 0 && !st.info[st.newTable[s]].inTried && st.newTable[s] !in floating
  {
    var id := st.newTable[s];
    assert RefOk(st.info[id], id, st.newTable, floating) && s in Slots(st.newTable, id);
  }

  // ----- swapping two places of vRandom -----

  function SwapRandom(st: State, i: int, j: int): (r: State)
    requires RandomOk(st) && 0 <= i < |st.random| && 0 <= j < |st.random|
    ensures |r.random| == |st.random| && r.random[j] == st.random[i] && r.random[i] == st.random[j]
    ensures r.info.Keys == st.info.Keys
  {
    if i == j then st else
    var a, b := st.random[i], st.random[j];
    st.(random := st.random[i := b][j := a],
        info := st.info[a := st.info[a].(randomPos := j)][b := st.info[b].(randomPos := i)])
  }

  lemma SwapRandomLinks(h: Env, st: State, i: int, j: int)
    requires Links(h, st) && 0 <= i < |st.random| && 0 <= j < |st.random|
    ensures Links(h, SwapRandom(st, i, j))
  {
    hide NamesOk, TriedSlot, NewSlot;
    var st' := SwapRandom(st, i, j);
    SwapRandomEntries(st, i, j);
    hide SwapRandom, RandomOk;
    NamesFrame(st, st');
    forall id | id in st'.info ensures InfoOk(h, st', id) {
      assert InfoOk(h, st, id);
    }
  }

  /** Entries differ in their places only, and each place that was right is right again. */
  lemma SwapRandomEntries(st: State, i: int, j: int)
    requires RandomOk(st) && 0 <= i < |st.random| && 0 <= j < |st.random|
    ensures var st' := SwapRandom(st, i, j);
      && st' == st.(random := st'.random, info := st'.info) && RandomOk(st')
      && forall id :: id in st.info ==>
           && st'.info[id] == st.info[id].(randomPos := st'.info[id].randomPos)
           && (0 <= st.info[id].randomPos < |st.random| && st.random[st.info[id].randomPos] == id ==>
                 0 <= st'.info[id].randomPos < |st'.random| && st'.random[st'.info[id].randomPos] == id)
  {
    var st' := SwapRandom(st, i, j);
    assert i != j ==> st.random[i] != st.random[j] by {
      assert st.info[st.random[i]].randomPos == i && st.info[st.random[j]].randomPos == j;
    }
    forall id | id in st.info && 0 <= st.info[id].randomPos < |st.random| && st.random[st.info[id].randomPos] == id
      ensures 0 <= st'.info[id].randomPos < |st'.random| && st'.random[st'.info[id].randomPos] == id
    {
      if i != j && id != st.random[i] && id != st.random[j] {
        assert st'.info[id] == st.info[id];
      }
    }
  }

  lemma NamesFrame(st: State, st': State)
    requires NamesOk(st) && st'.ids == st.ids && st'.info.Keys == st.info.Keys
    requires forall id :: id in st.info ==> st'.info[id].addr == st.info[id].addr
    ensures NamesOk(st')
  {
    forall a | a in st'.ids ensures st'.ids[a] in st'.info && st'.info[st'.ids[a]].addr == a {
      var id := st.ids[a];
      assert id in st.info && st'.info[id].addr == st.info[id].addr;
    }
  }

  lemma SwapRandomRefs(st: State, i: int, j: int, floating: set<int>)
    requires RandomOk(st) && Refs(st, floating) && 0 <= i < |st.random| && 0 <= j < |st.random|
    ensures Refs(SwapRandom(st, i, j), floating)
  {
  }

  lemma SwapRandomCounts(st: State, i: int, j: int, lag: int)
    requires RandomOk(st) && Counts(st, lag) && 0 <= i < |st.random| && 0 <= j < |st.random|
    ensures Counts(SwapRandom(st, i, j), lag)
  {
    CountsFrame(st, SwapRandom(st, i, j), lag);
  }

  lemma SwapRandomKeeps(h: Env, st: State, i: int, j: int, floating: set<int>, lag: int)
    requires Inv(h, st, floating, lag) && 0 <= i < |st.random| && 0 <= j < |st.random|
    ensures Inv(h, SwapRandom(st, i, j), floating, lag)
  {
    hide Links, Refs, Counts;
    LinksRandom(h, st);
    SwapRandomLinks(h, st, i, j);
    SwapRandomRefs(st, i, j, floating);
    SwapRandomCounts(st, i, j, lag);
  }

  // ----- creating an entry that is in neither table yet -----

  function Create(st: State, addr: Service, services: set<nat>, time: int, source: NetAddr): State {
    var id := st.nextId;
    st.(nextId := id + 1,
        info := st.info[id := Info(addr, services, time, source, 0, 0, 0, 0, 0, false, |st.random|)],
        ids := st.ids[addr := id],
        random := st.random + [id])
  }

  lemma CreateLinks(h: Env, st: State, addr: Service, services: set<nat>, time: int, source: NetAddr)
    requires Links(h, st) && (addr in st.ids ==> st.ids[addr] !in st.info) && st.nextId >= 0
    ensures Links(h, Create(st, addr, services, time, source))
  {
    var st' := Create(st, addr, services, time, source);
    forall id | id in st'.info ensures InfoOk(h, st', id) {
      assert id in st.info ==> InfoOk(h, st, id);
    }
  }

  lemma CreateRefs(h: Env, st: State, addr: Service, services: set<nat>, time: int, source: NetAddr)
    requires Refs(st, {}) && Links(h, st) && st.nextId !in st.info
    ensures Refs(Create(st, addr, services, time, source), {st.nextId})
  {
    assert Slots(st.newTable, st.nextId) == {} by { assert NewOk(h, st); }
  }

  lemma CreateCounts(st: State, addr: Service, services: set<nat>, time: int, source: NetAddr, lag: int)
    requires Counts(st, lag) && st.nextId !in st.info
    ensures Counts(Create(st, addr, services, time, source), lag + 1)
  {
    var st' := Create(st, addr, services, time, source);
    assert TriedIds(st'.info) == TriedIds(st.info);
    assert NewIds(st'.info) == NewIds(st.info) + {st.nextId};
  }

  lemma CreateKeeps(h: Env, st: State, addr: Service, services: set<nat>, time: int, source: NetAddr, lag: int)
    requires Inv(h, st, {}, lag) && (addr in st.ids ==> st.ids[addr] !in st.info) && st.nextId >= 0
    ensures Inv(h, Create(st, addr, services, time, source), {st.nextId}, lag + 1)
  {
    hide Links, Refs, Counts;
    FreshId(h, st);
    CreateLinks(h, st, addr, services, time, source);
    CreateRefs(h, st, addr, services, time, source);
    CreateCounts(st, addr, services, time, source, lag);
  }

  // ----- deleting an entry that is in neither table -----

  /** The last place of vRandom. */
  function Last(st: State): int { |st.random| - 1 }

  function Delete(st: State, id: int): State
    requires RandomOk(st) && id in st.info && 0 <= st.info[id].randomPos < |st.random|
  {
    Pop(SwapRandom(st, st.info[id].randomPos, Last(st)), id)
  }

  function Pop(st: State, id: int): State
    requires id in st.info && st.random != []
  {
    st.(random := st.random[..|st.random| - 1], ids := st.ids - {st.info[id].addr},
        info := st.info - {id}, nNew := st.nNew - 1)
  }

  lemma PopLinks(h: Env, st: State, id: int)
    requires Links(h, st) && st.random != [] && st.random[|st.random| - 1] == id
    requires id in st.info && !st.info[id].inTried && (forall s :: s in st.newTable ==> st.newTable[s] != id)
    ensures Links(h, Pop(st, id))
  {
    var st' := Pop(st, id);
    assert InfoOk(h, st, id);
    forall x | x in st'.info ensures InfoOk(h, st', x) {
      assert InfoOk(h, st, x);
    }
  }

  /** Where an entry sits before it is popped. */
  lemma SwapToEnd(st: State, id: int)
    requires RandomOk(st) && id in st.info && 0 <= st.info[id].randomPos < |st.random|
    requires st.random[st.info[id].randomPos] == id
    ensures var sw := SwapRandom(st, st.info[id].randomPos, Last(st));
            && sw.random[|sw.random| - 1] == id && sw.newTable == st.newTable
            && sw.info.Keys == st.info.Keys && sw.info[id].inTried == st.info[id].inTried
  {
  }

  lemma DeleteLinks(h: Env, st: State, id: int)
    requires Links(h, st) && id in st.info && !st.info[id].inTried && |Slots(st.newTable, id)| == 0
    requires InfoOk(h, st, id)
    ensures Links(h, Delete(st, id))
  {
    SwapRandomLinks(h, st, st.info[id].randomPos, Last(st));
    Unreferenced(st.newTable, id);
    SwapToEnd(st, id);
    hide Links;
    PopLinks(h, SwapRandom(st, st.info[id].randomPos, Last(st)), id);
  }

  lemma DeleteRefs(st: State, id: int, floating: set<int>)
    requires Refs(st, floating) && RandomOk(st) && id in st.info && 0 <= st.info[id].randomPos < |st.random|
    ensures Refs(Delete(st, id), floating - {id})
  {
    SwapRandomRefs(st, st.info[id].randomPos, Last(st), floating);
  }

  lemma DeleteCounts(st: State, id: int, lag: int)
    requires Counts(st, lag) && RandomOk(st) && id in st.info && 0 <= st.info[id].randomPos < |st.random|
    requires !st.info[id].inTried
    ensures Counts(Delete(st, id), lag)
  {
    var sw := SwapRandom(st, st.info[id].randomPos, Last(st));
    SwapRandomCounts(st, st.info[id].randomPos, Last(st), lag);
    assert TriedIds(sw.info - {id}) == TriedIds(sw.info);
    assert NewIds(sw.info - {id}) == NewIds(sw.info) - {id};
    assert id in NewIds(sw.info);
  }

  /** Only an entry that floats may be deleted. */
  lemma DeleteKeeps(h: Env, st: State, id: int, floating: set<int>, lag: int)
    requires Inv(h, st, floating, lag) && id in floating
    ensures Inv(h, Delete(st, id), floating - {id}, lag)
  {
    hide Links, Refs, Counts;
    assert id in st.info by { FloatingKnown(st, floating, id); }
    RefsInfo(st, floating, id);
    LinksInfo(h, st, id);
    LinksRandom(h, st);
    DeleteLinks(h, st, id);
    DeleteRefs(st, id, floating);
    DeleteCounts(st, id, lag);
  }

  // ----- taking one reference out of the new table -----

  function DropRef(st: State, s: Slot): State
    requires s in st.newTable && st.newTable[s] in st.info
  {
    var id := st.newTable[s];
    st.(newTable := st.newTable - {s}, info := st.info[id := st.info[id].(refCount := st.info[id].refCount - 1)])
  }

  lemma DropRefLinks(h: Env, st: State, s: Slot)
    requires Links(h, st) && s in st.newTable
    ensures Links(h, DropRef(st, s))
  {
    var st' := DropRef(st, s);
    forall x | x in st'.info ensures InfoOk(h, st', x) {
      assert InfoOk(h, st, x);
    }
  }

  lemma DropRefRefs(st: State, s: Slot, floating: set<int>)
    requires Refs(st, floating) && s in st.newTable && st.newTable[s] in st.info
    ensures st.info[st.newTable[s]].refCount > 0
    ensures var st' := DropRef(st, s);
            Refs(st', if st'.info[st.newTable[s]].refCount == 0 then floating + {st.newTable[s]} else floating)
  {
    var st', id := DropRef(st, s), st.newTable[s];
    assert s in Slots(st.newTable, id) && RefOk(st.info[id], id, st.newTable, floating);
    var floating' := if st'.info[id].refCount == 0 then floating + {id} else floating;
    forall x | x in st'.info ensures RefOk(st'.info[x], x, st'.newTable, floating') {
      SlotsAfterDrop(st.newTable, s, x);
      assert RefOk(st.info[x], x, st.newTable, floating);
    }
  }

  lemma DropRefCounts(st: State, s: Slot, lag: int)
    requires Counts(st, lag) && s in st.newTable && st.newTable[s] in st.info
    ensures Counts(DropRef(st, s), lag)
  {
    CountsFrame(st, DropRef(st, s), lag);
  }

  lemma DropRefKeeps(h: Env, st: State, s: Slot, floating: set<int>, lag: int)
    requires Inv(h, st, floating, lag) && s in st.newTable
    ensures st.info[st.newTable[s]].refCount > 0
    ensures var st' := DropRef(st, s);
            Inv(h, st', if st'.info[st.newTable[s]].refCount == 0 then floating + {st.newTable[s]} else floating, lag)
  {
    hide Links, Refs, Counts;
    LinksNew(h, st, s);
    DropRefLinks(h, st, s);
    DropRefRefs(st, s, floating);
    DropRefCounts(st, s, lag);
  }

  // ----- entering an address into a free slot of the new table -----

  function AddRef(st: State, s: Slot, id: int): State
    requires id in st.info
  {
    st.(newTable := st.newTable[s := id], info := st.info[id := st.info[id].(refCount := st.info[id].refCount + 1)])
  }

  lemma AddRefLinks(h: Env, st: State, s: Slot, id: int)
    requires Links(h, st) && id in st.info && s.0 < NEW_BUCKETS && s == NewSlot(h, st.info[id].addr, s.0)
    ensures Links(h, AddRef(st, s, id))
  {
    hide NamesOk, TriedSlot;
    var st' := AddRef(st, s, id);
    NamesFrame(st, st');
    forall x | x in st'.info ensures InfoOk(h, st', x) {
      assert InfoOk(h, st, x);
    }
  }

  lemma AddRefRefs(st: State, s: Slot, id: int, floating: set<int>)
    requires Refs(st, floating) && s !in st.newTable && id in st.info
    requires !st.info[id].inTried && st.info[id].refCount < MAX_REFS
    ensures Refs(AddRef(st, s, id), floating - {id})
  {
    var st' := AddRef(st, s, id);
    forall x | x in st'.info ensures RefOk(st'.info[x], x, st'.newTable, floating - {id}) {
      SlotsAfterAdd(st.newTable, s, id, x);
      assert RefOk(st.info[x], x, st.newTable, floating);
    }
  }

  lemma AddRefCounts(st: State, s: Slot, id: int, lag: int)
    requires Counts(st, lag) && id in st.info
    ensures Counts(AddRef(st, s, id), lag)
  {
    CountsFrame(st, AddRef(st, s, id), lag);
  }

  lemma AddRefKeeps(h: Env, st: State, s: Slot, id: int, floating: set<int>, lag: int)
    requires Inv(h, st, floating, lag) && id in st.info && !st.info[id].inTried && st.info[id].refCount < MAX_REFS
    requires s !in st.newTable && s.0 < NEW_BUCKETS && s == NewSlot(h, st.info[id].addr, s.0)
    ensures Inv(h, AddRef(st, s, id), floating - {id}, lag)
  {
    hide Links, Refs, Counts;
    AddRefLinks(h, st, s, id);
    AddRefRefs(st, s, id, floating);
    AddRefCounts(st, s, id, lag);
  }

  // ----- removing an address from all its new buckets -----

  function DropAllRefs(st: State, id: int): State
    requires id in st.info
  {
    st.(newTable := st.newTable - Slots(st.newTable, id), info := st.info[id := st.info[id].(refCount := 0)])
  }

  lemma DropAllRefsLinks(h: Env, st: State, id: int)
    requires Links(h, st) && id in st.info
    ensures Links(h, DropAllRefs(st, id))
  {
    var st' := DropAllRefs(st, id);
    forall x | x in st'.info ensures InfoOk(h, st', x) {
      assert InfoOk(h, st, x);
    }
  }

  lemma DropAllRefsRefs(st: State, id: int, floating: set<int>)
    requires Refs(st, floating) && id in st.info && !st.info[id].inTried
    ensures Refs(DropAllRefs(st, id), floating + {id})
  {
    var st' := DropAllRefs(st, id);
    forall x | x in st'.info ensures RefOk(st'.info[x], x, st'.newTable, floating + {id}) {
      assert Slots(st'.newTable, x) == if x == id then {} else Slots(st.newTable, x);
      assert RefOk(st.info[x], x, st.newTable, floating);
    }
  }

  lemma DropAllRefsCounts(st: State, id: int, lag: int)
    requires Counts(st, lag) && id in st.info
    ensures Counts(DropAllRefs(st, id), lag)
  {
    CountsFrame(st, DropAllRefs(st, id), lag);
  }

  lemma DropAllRefsKeeps(h: Env, st: State, id: int, floating: set<int>, lag: int)
    requires Inv(h, st, floating, lag) && id in st.info && !st.info[id].inTried
    ensures Inv(h, DropAllRefs(st, id), floating + {id}, lag)
  {
    hide Links, Refs, Counts;
    DropAllRefsLinks(h, st, id);
    DropAllRefsRefs(st, id, floating);
    DropAllRefsCounts(st, id, lag);
  }

  // ----- taking an address out of the tried table -----

  function Untry(st: State, s: Slot): State
    requires s in st.tried && st.tried[s] in st.info
  {
    var id := st.tried[s];
    st.(tried := st.tried - {s}, info := st.info[id := st.info[id].(inTried := false)], nTried := st.nTried - 1)
  }

  lemma UntryLinks(h: Env, st: State, s: Slot)
    requires Links(h, st) && s in st.tried
    ensures Links(h, Untry(st, s))
  {
    var st' := Untry(st, s);
    assert InfoOk(h, st, st.tried[s]);
    forall x | x in st'.info ensures InfoOk(h, st', x) {
      assert InfoOk(h, st, x);
    }
  }

  lemma UntryRefs(st: State, s: Slot, floating: set<int>)
    requires Refs(st, floating) && s in st.tried && st.tried[s] in st.info && st.info[st.tried[s]].inTried
    ensures Refs(Untry(st, s), floating + {st.tried[s]})
  {
  }

  lemma UntryCounts(st: State, s: Slot, lag: int)
    requires Counts(st, lag) && s in st.tried && st.tried[s] in st.info && st.info[st.tried[s]].inTried
    ensures Counts(Untry(st, s), lag + 1)
  {
    var st', id := Untry(st, s), st.tried[s];
    assert TriedIds(st'.info) == TriedIds(st.info) - {id};
    assert NewIds(st'.info) == NewIds(st.info) + {id};
  }

  lemma UntryKeeps(h: Env, st: State, s: Slot, floating: set<int>, lag: int)
    requires Inv(h, st, floating, lag) && s in st.tried
    ensures Inv(h, Untry(st, s), floating + {st.tried[s]}, lag + 1)
  {
    hide Links, Refs, Counts;
    LinksTried(h, st, s);
    UntryLinks(h, st, s);
    UntryRefs(st, s, floating);
    UntryCounts(st, s, lag);
  }

  // ----- putting an address into its free slot of the tried table -----

  function PutTried(h: Env, st: State, id: int): State
    requires id in st.info
  {
    st.(tried := st.tried[TriedSlot(h, st.info[id].addr) := id],
        info := st.info[id := st.info[id].(inTried := true)], nTried := st.nTried + 1)
  }

  lemma PutTriedLinks(h: Env, st: State, id: int)
    requires Links(h, st) && id in st.info
    requires TriedSlot(h, st.info[id].addr) !in st.tried
    ensures Links(h, PutTried(h, st, id))
  {
    var st' := PutTried(h, st, id);
    forall x | x in st'.info ensures InfoOk(h, st', x) {
      assert InfoOk(h, st, x);
    }
  }

  lemma PutTriedRefs(h: Env, st: State, id: int, floating: set<int>)
    requires Refs(st, floating) && id in floating
    ensures Refs(PutTried(h, st, id), floating - {id})
  {
    assert RefOk(st.info[id], id, st.newTable, floating);
  }

  lemma PutTriedCounts(h: Env, st: State, id: int, lag: int)
    requires Counts(st, lag) && id in st.info && !st.info[id].inTried
    ensures Counts(PutTried(h, st, id), lag - 1)
  {
    var st' := PutTried(h, st, id);
    assert TriedIds(st'.info) == TriedIds(st.info) + {id};
    assert NewIds(st'.info) == NewIds(st.info) - {id};
  }

  lemma PutTriedKeeps(h: Env, st: State, id: int, floating: set<int>, lag: int)
    requires Inv(h, st, floating, lag) && id in floating
    requires TriedSlot(h, st.info[id].addr) !in st.tried
    ensures Inv(h, PutTried(h, st, id), floating - {id}, lag - 1)
  {
    hide Links, Refs, Counts;
    FloatingKnown(st, floating, id);
    PutTriedLinks(h, st, id);
    PutTriedRefs(h, st, id, floating);
    PutTriedCounts(h, st, id, lag);
  }

  // ----- new statistics of one entry, on which no table depends -----

  function Touch(st: State, id: int, i: Info): State
    requires id in st.info
  {
    var was := st.info[id];
    st.(info := st.info[id := i.(addr := was.addr, source := was.source, refCount := was.refCount,
                                 inTried := was.inTried, randomPos := was.randomPos)])
  }

  lemma TouchLinks(h: Env, st: State, id: int, i: Info)
    requires Links(h, st) && id in st.info
    ensures Links(h, Touch(st, id, i))
  {
    var st' := Touch(st, id, i);
    forall x | x in st.info ensures InfoOk(h, st', x) {
      assert InfoOk(h, st, x);
    }
  }

  lemma TouchRefs(st: State, id: int, i: Info, floating: set<int>)
    requires Refs(st, floating) && id in st.info
    ensures Refs(Touch(st, id, i), floating)
  {
    assert RefOk(st.info[id], id, st.newTable, floating);
  }

  lemma TouchCounts(st: State, id: int, i: Info, lag: int)
    requires Counts(st, lag) && id in st.info
    ensures Counts(Touch(st, id, i), lag)
  {
    CountsFrame(st, Touch(st, id, i), lag);
  }

  lemma TouchKeeps(h: Env, st: State, id: int, i: Info, floating: set<int>, lag: int)
    requires Inv(h, st, floating, lag) && id in st.info
    ensures Inv(h, Touch(st, id, i), floating, lag)
  {
    hide Links, Refs, Counts;
    TouchLinks(h, st, id, i);
    TouchRefs(st, id, i, floating);
    TouchCounts(st, id, i, lag);
  }

  // ----- correcting the number of new entries -----

  function Recount(st: State, d: int): State { st.(nNew := st.nNew + d) }

  lemma RecountLinks(h: Env, st: State, d: int)
    requires Links(h, st)
    ensures Links(h, Recount(st, d))
  {
    forall x | x in st.info ensures InfoOk(h, Recount(st, d), x) {
      assert InfoOk(h, st, x);
    }
  }

  lemma RecountRefs(st: State, d: int, floating: set<int>)
    requires Refs(st, floating)
    ensures Refs(Recount(st, d), floating)
  {
  }

  lemma RecountKeeps(h: Env, st: State, d: int, floating: set<int>, lag: int)
    requires Inv(h, st, floating, lag)
    ensures Inv(h, Recount(st, d), floating, lag - d)
  {
    hide Links, Refs;
    RecountLinks(h, st, d);
    RecountRefs(st, d, floating);
  }
}
