/** The consistency check as it runs, with its scratch sets and its error codes, and what a
    result of zero means. */
module AddrCheck {
  import opened AddrTables
  import A = AddrMan
  import Ops = AddrOps
  import Sets

  predicate EntryPasses(st: State, id: int)
    requires id in st.info
  {
    var i := st.info[id];
    && (if i.inTried then i.lastSuccess != 0 && i.refCount == 0 else 0 < i.refCount <= MAX_REFS)
    && i.addr in st.ids && st.ids[i.addr] == id
    && 0 <= i.randomPos < |st.random| && st.random[i.randomPos] == id
    && i.lastTry >= 0 && i.lastSuccess >= 0
  }

  predicate TriedPasses(h: Env, st: State) {
    && TriedOk(h, st)
    && forall id :: id in TriedIds(st.info) ==> Homed(h, st, id)
  }

  predicate NewPasses(h: Env, st: State) {
    && (forall s :: s in st.newTable ==> NewSlotPasses(h, st, s))
    && forall id :: id in NewIds(st.info) ==> st.info[id].refCount == |Slots(st.newTable, id)|
  }

  predicate NewSlotPasses(h: Env, st: State, s: Slot)
    requires s in st.newTable
  {
    st.newTable[s] in NewIds(st.info) && s == NewSlot(h, st.info[st.newTable[s]].addr, s.0)
  }

  /** Everything the check tests. */
  predicate Passes(h: Env, st: State) {
    && |st.random| == st.nTried + st.nNew
    && (forall id :: id in st.info ==> EntryPasses(st, id))
    && st.nTried == |TriedIds(st.info)| && st.nNew == |NewIds(st.info)|
    && TriedPasses(h, st) && NewPasses(h, st)
  }

  // ----- the check -----

  function RefCounts(info: map<int, Info>): map<int, int> {
    map id | id in NewIds(info) :: info[id].refCount
  }

  /** The entries: fills the two scratch collections. */
  method CheckEntries(m: A.AddrManImpl) returns (code: int, setTried: set<int>, mapNew: map<int, int>)
    ensures code == 0 <==> forall id :: id in m.mapInfo ==> EntryPasses(m.Tables(), id)
    ensures code == 0 ==> setTried == TriedIds(m.mapInfo) && mapNew == RefCounts(m.mapInfo)
  {
    setTried, mapNew := {}, map[];
    var todo := m.mapInfo.Keys;
    while todo != {}
      invariant todo <= m.mapInfo.Keys
      invariant forall id :: id in m.mapInfo && id !in todo ==> EntryPasses(m.Tables(), id)
      invariant setTried == TriedIds(m.mapInfo) - todo
      invariant mapNew == map id | id in NewIds(m.mapInfo) && id !in todo :: m.mapInfo[id].refCount
      decreases todo
    {
      ghost var some := Sets.Pick(todo);
      var n :| n in todo;
      var info := m.mapInfo[n];
      if info.inTried {
        if info.lastSuccess == 0 { return -1, setTried, mapNew; }
        if info.refCount != 0 { return -2, setTried, mapNew; }
        setTried := setTried + {n};
      } else {
        if info.refCount < 0 || info.refCount > MAX_REFS { return -3, setTried, mapNew; }
        if info.refCount == 0 { return -4, setTried, mapNew; }
        mapNew := mapNew[n := info.refCount];
      }
      if info.addr !in m.mapAddr || m.mapAddr[info.addr] != n { return -5, setTried, mapNew; }
      if info.randomPos < 0 || info.randomPos >= |m.vRandom| || m.vRandom[info.randomPos] != n {
        return -14, setTried, mapNew;
      }
      if info.lastTry < 0 { return -6, setTried, mapNew; }
      if info.lastSuccess < 0 { return -8, setTried, mapNew; }
      todo := todo - {n};
    }
    code := 0;
  }

  /** The slots of the first n buckets and the first i slots of bucket n. */
  predicate Before(s: Slot, n: int, i: int) { s.0 < n || (s.0 == n && s.1 < i) }

  ghost predicate TriedSoFar(h: Env, st: State, left: set<int>, n: int, i: int) {
    && left <= TriedIds(st.info)
    && (forall s :: s in st.tried && Before(s, n, i) ==>
          && st.tried[s] in TriedIds(st.info) && st.tried[s] !in left
          && s == TriedSlot(h, st.info[st.tried[s]].addr))
    && (forall id :: id in TriedIds(st.info) && id !in left ==> Homed(h, st, id) && Before(TriedSlot(h, st.info[id].addr), n, i))
  }

  /** The entry is in its tried slot. */
  predicate Homed(h: Env, st: State, id: int)
    requires id in st.info
  {
    TriedSlot(h, st.info[id].addr) in st.tried && st.tried[TriedSlot(h, st.info[id].addr)] == id
  }

  lemma TriedStep(h: Env, st: State, left: set<int>, s: Slot)
    requires TriedSoFar(h, st, left, s.0, s.1)
    ensures s !in st.tried ==> TriedSoFar(h, st, left, s.0, s.1 + 1)
    ensures s in st.tried && st.tried[s] in left && s == TriedSlot(h, st.info[st.tried[s]].addr) ==>
      TriedSoFar(h, st, left - {st.tried[s]}, s.0, s.1 + 1)
    ensures s in st.tried && !(st.tried[s] in left && s == TriedSlot(h, st.info[st.tried[s]].addr)) ==>
      !TriedPasses(h, st)
  {
    if s in st.tried && TriedPasses(h, st) {
      var id := st.tried[s];
      assert id in TriedIds(st.info) && Homed(h, st, id);
      assert s == TriedSlot(h, st.info[id].addr);
      assert id in left;
    }
  }

  lemma TriedRow(h: Env, st: State, left: set<int>, n: int, i: int)
    requires TriedSoFar(h, st, left, n, i) && i == BUCKET_SIZE && forall s :: s in st.tried ==> s.1 < BUCKET_SIZE
    ensures TriedSoFar(h, st, left, n + 1, 0)
  {
  }

  lemma TriedEnd(h: Env, st: State, left: set<int>, n: int)
    requires TriedSoFar(h, st, left, n, 0) && n == TRIED_BUCKETS && forall s :: s in st.tried ==> s.0 < TRIED_BUCKETS
    ensures left == {} <==> TriedPasses(h, st)
  {
    if TriedPasses(h, st) {
      forall id ensures id !in left {
      }
    } else {
      assert left == {} ==> TriedOk(h, st);
    }
  }

  method CheckTried(m: A.AddrManImpl, setTried: set<int>) returns (code: int, left: set<int>)
    requires m.Shape() && setTried == TriedIds(m.mapInfo)
    ensures code == 0 && left == {} <==> TriedPasses(m.h, m.Tables())
  {
    ghost var st := m.Tables();
    left := setTried;
    var n := 0;
    while n < TRIED_BUCKETS
      invariant 0 <= n <= TRIED_BUCKETS && TriedSoFar(m.h, st, left, n, 0)
    {
      var i := 0;
      while i < BUCKET_SIZE
        invariant 0 <= i <= BUCKET_SIZE && TriedSoFar(m.h, st, left, n, i)
      {
        var id := m.vvTried[n, i];
        ghost var s: Slot := (n, i);
        TriedStep(m.h, st, left, s);
        assert (s in st.tried <==> id != -1) && (s in st.tried ==> st.tried[s] == id);
        if id != -1 {
          if id !in left { return -11, left; }
          if TriedSlot(m.h, m.mapInfo[id].addr).0 != n { return -17, left; }
          if TriedSlot(m.h, m.mapInfo[id].addr).1 != i { return -18, left; }
          left := left - {id};
        }
        i := i + 1;
      }
      TriedRow(m.h, st, left, n, i);
      n := n + 1;
    }
    TriedEnd(m.h, st, left, n);
    code := 0;
  }

  // ----- the new table -----

  /** The slots of an id that the scan has passed. */
  function Seen(t: Table, id: int, n: int, i: int): set<Slot> { set s | s in Slots(t, id) && Before(s, n, i) }

  /** Each id still owes the references that have not been seen. */
  ghost predicate NewSoFar(h: Env, st: State, owed: map<int, int>, n: int, i: int) {
    && owed.Keys <= NewIds(st.info)
    && (forall id :: id in owed ==> owed[id] > 0)
    && (forall id :: id in NewIds(st.info) ==> Owes(st, owed, id, n, i))
    && (forall s :: s in st.newTable && Before(s, n, i) ==> NewSlotPasses(h, st, s))
  }

  predicate Owes(st: State, owed: map<int, int>, id: int, n: int, i: int)
    requires id in st.info
  {
    st.info[id].refCount == |Seen(st.newTable, id, n, i)| + if id in owed then owed[id] else 0
  }

  function Pay(owed: map<int, int>, id: int): map<int, int>
    requires id in owed
  {
    if owed[id] == 1 then owed - {id} else owed[id := owed[id] - 1]
  }

  lemma SeenStep(t: Table, id: int, s: Slot)
    ensures |Seen(t, id, s.0, s.1 + 1)| == |Seen(t, id, s.0, s.1)| + if s in t && t[s] == id then 1 else 0
  {
    if s in t && t[s] == id {
      assert Seen(t, id, s.0, s.1 + 1) == Seen(t, id, s.0, s.1) + {s};
    } else {
      assert Seen(t, id, s.0, s.1 + 1) == Seen(t, id, s.0, s.1);
    }
  }

  lemma NewStep(h: Env, st: State, owed: map<int, int>, s: Slot)
    requires NewSoFar(h, st, owed, s.0, s.1)
    ensures s !in st.newTable ==> NewSoFar(h, st, owed, s.0, s.1 + 1)
    ensures s in st.newTable && st.newTable[s] in owed && s == NewSlot(h, st.info[st.newTable[s]].addr, s.0) ==>
      NewSoFar(h, st, Pay(owed, st.newTable[s]), s.0, s.1 + 1)
  {
    if s !in st.newTable {
      forall id | id in NewIds(st.info) ensures Owes(st, owed, id, s.0, s.1 + 1) {
        SeenStep(st.newTable, id, s);
        assert Owes(st, owed, id, s.0, s.1);
      }
    } else if st.newTable[s] in owed && s == NewSlot(h, st.info[st.newTable[s]].addr, s.0) {
      var paid := Pay(owed, st.newTable[s]);
      forall id | id in NewIds(st.info) ensures Owes(st, paid, id, s.0, s.1 + 1) {
        SeenStep(st.newTable, id, s);
        assert Owes(st, owed, id, s.0, s.1);
      }
      assert NewSlotPasses(h, st, s);
    }
  }

  lemma NewFails(h: Env, st: State, owed: map<int, int>, s: Slot)
    requires NewSoFar(h, st, owed, s.0, s.1) && s in st.newTable
    requires !(st.newTable[s] in owed && s == NewSlot(h, st.info[st.newTable[s]].addr, s.0))
    ensures !NewPasses(h, st)
  {
    if NewPasses(h, st) {
      var id := st.newTable[s];
      assert NewSlotPasses(h, st, s);
      assert Owes(st, owed, id, s.0, s.1);
      SeenStep(st.newTable, id, s);
      SeenAtMost(st.newTable, id, s.0, s.1 + 1);
    }
  }

  lemma SeenAtMost(t: Table, id: int, n: int, i: int)
    ensures |Seen(t, id, n, i)| <= |Slots(t, id)|
  {
    assert Slots(t, id) == Seen(t, id, n, i) + (Slots(t, id) - Seen(t, id, n, i));
  }

  /** One slot of the array, -1 or an id. */
  lemma NewScan(h: Env, st: State, owed: map<int, int>, n: nat, i: nat, id: int)
    requires NewSoFar(h, st, owed, n, i)
    requires if id == -1 then (n, i) !in st.newTable else (n, i) in st.newTable && st.newTable[(n, i)] == id
    ensures id in owed ==> id in st.info
    ensures id == -1 ==> NewSoFar(h, st, owed, n, i + 1)
    ensures id != -1 && id in owed && NewSlot(h, st.info[id].addr, n).1 == i ==> NewSoFar(h, st, Pay(owed, id), n, i + 1)
    ensures id != -1 && !(id in owed && NewSlot(h, st.info[id].addr, n).1 == i) ==> !NewPasses(h, st)
  {
    var s: Slot := (n, i);
    NewStep(h, st, owed, s);
    if id != -1 && !(id in owed && NewSlot(h, st.info[id].addr, n).1 == i) {
      NewFails(h, st, owed, s);
    }
  }

  lemma NewRow(h: Env, st: State, owed: map<int, int>, n: int, i: int, next: int)
    requires NewSoFar(h, st, owed, n, i) && i == BUCKET_SIZE && next == n + 1 && forall s :: s in st.newTable ==> s.1 < BUCKET_SIZE
    ensures NewSoFar(h, st, owed, next, 0)
  {
    forall id | id in NewIds(st.info) ensures Owes(st, owed, id, next, 0) {
      assert Owes(st, owed, id, n, i);
      assert Seen(st.newTable, id, next, 0) == Seen(st.newTable, id, n, i);
    }
  }

  lemma NewEnd(h: Env, st: State, owed: map<int, int>, n: int)
    requires NewSoFar(h, st, owed, n, 0) && n == NEW_BUCKETS && forall s :: s in st.newTable ==> s.0 < NEW_BUCKETS
    ensures owed == map[] <==> NewPasses(h, st)
  {
    forall id | id in NewIds(st.info)
      ensures st.info[id].refCount == |Slots(st.newTable, id)| + if id in owed then owed[id] else 0
    {
      assert Owes(st, owed, id, n, 0);
      assert Seen(st.newTable, id, n, 0) == Slots(st.newTable, id);
    }
    if NewPasses(h, st) {
      forall id ensures id !in owed {
      }
    }
  }

  lemma NewBegin(h: Env, st: State, owed: map<int, int>)
    requires owed == RefCounts(st.info)
    requires forall id :: id in owed ==> owed[id] > 0
    ensures NewSoFar(h, st, owed, 0, 0)
  {
    forall id | id in NewIds(st.info) ensures Owes(st, owed, id, 0, 0) {
      assert Seen(st.newTable, id, 0, 0) == {};
    }
  }

  method CheckNewSlot(m: A.AddrManImpl, ghost st: State, n: nat, i: nat, before: map<int, int>)
    returns (code: int, owed: map<int, int>)
    requires m.Shape() && st == m.Tables() && n < NEW_BUCKETS && i < BUCKET_SIZE && NewSoFar(m.h, st, before, n, i)
    ensures if code == 0 then NewSoFar(m.h, st, owed, n, i + 1) else !NewPasses(m.h, st)
  {
    owed := before;
    var id := m.vvNew[n, i];
    ghost var s: Slot := (n, i);
    assert if id == -1 then s !in st.newTable else s in st.newTable && st.newTable[s] == id;
    NewScan(m.h, st, owed, n, i, id);
    if id != -1 {
      if id !in owed { return -12, owed; }
      if NewSlot(m.h, m.mapInfo[id].addr, n).1 != i { return -19, owed; }
      owed := Pay(owed, id);
    }
    code := 0;
  }

  method CheckNewBucket(m: A.AddrManImpl, ghost st: State, n: nat, before: map<int, int>)
    returns (code: int, owed: map<int, int>, next: nat)
    requires m.Shape() && st == m.Tables() && n < NEW_BUCKETS && NewSoFar(m.h, st, before, n, 0)
    ensures next == n + 1
    ensures code == 0 ==> NewSoFar(m.h, st, owed, next, 0)
    ensures code != 0 ==> !NewPasses(m.h, st)
  {
    hide NewSoFar, NewPasses;
    next := n + 1;
    owed := before;
    var i := 0;
    while i < BUCKET_SIZE
      invariant 0 <= i <= BUCKET_SIZE && NewSoFar(m.h, st, owed, n, i)
    {
      code, owed := CheckNewSlot(m, st, n, i, owed);
      if code != 0 { return; }
      i := i + 1;
    }
    NewRow(m.h, st, owed, n, i, next);
    return 0, owed, next;
  }

  method CheckNew(m: A.AddrManImpl, mapNew: map<int, int>) returns (code: int, owed: map<int, int>)
    requires m.Shape() && mapNew == RefCounts(m.mapInfo)
    requires forall id :: id in mapNew ==> mapNew[id] > 0
    ensures code == 0 && owed == map[] <==> NewPasses(m.h, m.Tables())
  {
    ghost var st := m.Tables();
    owed := mapNew;
    NewBegin(m.h, st, owed);
    var n := 0;
    while n < NEW_BUCKETS
      invariant 0 <= n <= NEW_BUCKETS && NewSoFar(m.h, st, owed, n, 0)
    {
      code, owed, n := CheckNewBucket(m, st, n, owed);
      if code != 0 { return; }
    }
    NewEnd(m.h, st, owed, n);
    code := 0;
  }

  /** Zero if and only if everything the check tests holds and the key is set. */
  method CheckAddrman(m: A.AddrManImpl, keyIsNull: bool) returns (code: int)
    requires m.Shape()
    ensures code == 0 <==> Passes(m.h, m.Tables()) && !keyIsNull
  {
    if |m.vRandom| != m.nTried + m.nNew { return -7; }
    var entries, setTried, mapNew := CheckEntries(m);
    if entries != 0 { return entries; }
    if |setTried| != m.nTried { return -9; }
    assert mapNew.Keys == NewIds(m.mapInfo);
    if |mapNew| != m.nNew { return -10; }
    var tried, leftTried := CheckTried(m, setTried);
    if tried != 0 { return tried; }
    var fresh', leftNew := CheckNew(m, mapNew);
    if fresh' != 0 { return fresh'; }
    if leftTried != {} { return -13; }
    if leftNew != map[] { return -15; }
    if keyIsNull { return -16; }
    return 0;
  }

  // ----- what passing means -----

  /** The check accepts exactly the consistent states, apart from ids that were never handed
      out and keys of mapAddr that lead nowhere, which it does not look for. */
  lemma PassesIffConsistent(h: Env, st: State)
    requires forall s :: s in st.newTable ==> s.0 < NEW_BUCKETS
    ensures Consistent(h, st) <==> Passes(h, st) && NamesOk(st) && forall id :: id in st.info ==> 0 <= id < st.nextId
  {
    if Passes(h, st) && NamesOk(st) && forall id :: id in st.info ==> 0 <= id < st.nextId {
      PlacesFilled(st);
      PassesLinks(h, st);
      PassesRefs(h, st);
    }
    if Consistent(h, st) {
      ConsistentEntries(h, st);
      ConsistentTables(h, st);
      forall id | id in st.info ensures InPlace(st, id) { assert EntryPasses(st, id); }
      EveryPlaceUsed(st);
    }
  }

  /** What the check does not look at: the range of ids and buckets, the keys of mapAddr, and the
      waiting ids. */
  ghost predicate Unlooked(h: Env, m: Ops.Man) {
    && NamesOk(m.st)
    && (forall s :: s in m.st.newTable ==> s.0 < NEW_BUCKETS)
    && (forall id :: id in m.st.info ==> 0 <= id < m.st.nextId)
    && m.st.nextId >= 0 && Ops.CollisionsOk(h, m.st, m.collisions)
  }

  lemma SoundIffPasses(h: Env, m: Ops.Man)
    ensures Ops.Sound(h, m) <==> Passes(h, m.st) && Unlooked(h, m)
  {
    if (forall s :: s in m.st.newTable ==> s.0 < NEW_BUCKETS) { PassesIffConsistent(h, m.st); }
    hide Passes, Ops.CollisionsOk, Refs, Counts, TimesOk;
  }

  /** Run from a state that passes the check, and with sane clocks, any sequence of operations
      ends in one that passes it. */
  lemma RunPasses(h: Env, m: Ops.Man, es: seq<Ops.Event>)
    requires Passes(h, m.st) && Unlooked(h, m) && forall e :: e in es ==> Ops.Timely(e)
    ensures Ops.Sound(h, m)
    ensures Passes(h, Ops.Run(h, m, es).st) && Unlooked(h, Ops.Run(h, m, es))
  {
    hide Passes, Unlooked, Ops.Sound, Ops.Timely;
    SoundIffPasses(h, m);
    Ops.RunSound(h, m, es);
    SoundIffPasses(h, Ops.Run(h, m, es));
  }

  lemma PassesLinks(h: Env, st: State)
    requires Passes(h, st) && RandomOk(st) && NamesOk(st)
    requires forall id :: id in st.info ==> 0 <= id < st.nextId
    requires forall s :: s in st.newTable ==> s.0 < NEW_BUCKETS
    ensures Links(h, st) && TimesOk(st.info)
  {
    forall id | id in st.info ensures InfoOk(h, st, id) {
      assert EntryPasses(st, id);
      assert id in TriedIds(st.info) <==> st.info[id].inTried;
    }
    forall s | s in st.newTable ensures st.newTable[s] in st.info && s == NewSlot(h, st.info[st.newTable[s]].addr, s.0) {
      assert NewSlotPasses(h, st, s);
    }
    forall id | id in st.info
      ensures st.info[id].lastTry >= 0 && st.info[id].lastSuccess >= 0 && (st.info[id].inTried ==> st.info[id].lastSuccess > 0)
    {
      assert EntryPasses(st, id);
    }
  }

  lemma PassesRefs(h: Env, st: State)
    requires NewPasses(h, st) && forall id :: id in st.info ==> EntryPasses(st, id)
    ensures Refs(st, {})
  {
    forall id | id in st.info ensures RefOk(st.info[id], id, st.newTable, {}) {
      assert EntryPasses(st, id);
      if st.info[id].inTried {
        forall s | s in st.newTable ensures st.newTable[s] != id {
          assert NewSlotPasses(h, st, s);
        }
        assert Slots(st.newTable, id) == {};
      } else {
        assert id in NewIds(st.info);
      }
    }
  }

  lemma ConsistentEntries(h: Env, st: State)
    requires Consistent(h, st)
    ensures forall id :: id in st.info ==> EntryPasses(st, id)
  {
    forall id | id in st.info ensures EntryPasses(st, id) {
      assert InfoOk(h, st, id) && RefOk(st.info[id], id, st.newTable, {});
    }
  }

  lemma ConsistentTables(h: Env, st: State)
    requires Consistent(h, st)
    ensures TriedPasses(h, st) && NewPasses(h, st)
  {
    forall id | id in TriedIds(st.info)
      ensures Homed(h, st, id)
    {
      assert InfoOk(h, st, id);
    }
    forall s | s in st.newTable ensures NewSlotPasses(h, st, s) {
      var id := st.newTable[s];
      assert RefOk(st.info[id], id, st.newTable, {}) && s in Slots(st.newTable, id);
    }
    forall id | id in NewIds(st.info) ensures st.info[id].refCount == |Slots(st.newTable, id)| {
      assert RefOk(st.info[id], id, st.newTable, {});
    }
  }

  // ----- counting places -----

  function Places(n: nat): (r: set<int>)
    ensures |r| == n && forall j :: j in r <==> 0 <= j < n
  {
    if n == 0 then {} else Places(n - 1) + {n - 1}
  }

  lemma EntriesCount(st: State)
    ensures |st.info.Keys| == |TriedIds(st.info)| + |NewIds(st.info)|
  {
    assert st.info.Keys == TriedIds(st.info) + NewIds(st.info);
    assert TriedIds(st.info) !! NewIds(st.info);
  }

  function PlacesOf(info: map<int, Info>, ids: set<int>): set<int>
    requires ids <= info.Keys
  {
    set id | id in ids :: info[id].randomPos
  }

  /** The entry sits where it says. */
  predicate InPlace(st: State, id: int)
    requires id in st.info
  {
    0 <= st.info[id].randomPos < |st.random| && st.random[st.info[id].randomPos] == id
  }

  lemma {:induction false} PlacesOfCount(st: State, ids: set<int>)
    requires ids <= st.info.Keys && forall id :: id in ids ==> InPlace(st, id)
    ensures |PlacesOf(st.info, ids)| == |ids|
    decreases ids
  {
    if ids != {} {
      var id := Sets.Pick(ids);
      var rest := ids - {id};
      PlacesOfCount(st, rest);
      assert PlacesOf(st.info, ids) == PlacesOf(st.info, rest) + {st.info[id].randomPos};
      forall x | x in rest ensures st.info[x].randomPos != st.info[id].randomPos {
        assert InPlace(st, x) && InPlace(st, id);
      }
    }
  }

  /** As many places as entries, each entry in a place of its own: no place is left over. */
  lemma PlacesFilled(st: State)
    requires |st.random| == st.nTried + st.nNew && st.nTried == |TriedIds(st.info)| && st.nNew == |NewIds(st.info)|
    requires forall id :: id in st.info ==> EntryPasses(st, id)
    ensures RandomOk(st)
  {
    var used := PlacesOf(st.info, st.info.Keys);
    EntriesCount(st);
    forall id | id in st.info ensures InPlace(st, id) { assert EntryPasses(st, id); }
    PlacesOfCount(st, st.info.Keys);
    forall j | j in used ensures j in Places(|st.random|) {
      var id :| id in st.info && st.info[id].randomPos == j;
      assert EntryPasses(st, id);
    }
    Sets.SubsetSameSize(used, Places(|st.random|));
    forall j | 0 <= j < |st.random| ensures st.random[j] in st.info && st.info[st.random[j]].randomPos == j {
      assert j in used;
      var id :| id in st.info && st.info[id].randomPos == j;
      assert EntryPasses(st, id);
    }
  }

  lemma EveryPlaceUsed(st: State)
    requires RandomOk(st) && Counts(st, 0) && forall id :: id in st.info ==> InPlace(st, id)
    ensures |st.random| == st.nTried + st.nNew
  {
    EntriesCount(st);
    PlacesOfCount(st, st.info.Keys);
    var used := PlacesOf(st.info, st.info.Keys);
    forall j ensures j in used <==> j in Places(|st.random|) {
      if j in used {
        var id :| id in st.info && st.info[id].randomPos == j;
        assert InPlace(st, id);
      }
      if 0 <= j < |st.random| {
        var id := st.random[j];
        assert id in st.info.Keys && st.info[id].randomPos in used;
      }
    }
    assert used == Places(|st.random|);
  }
}
