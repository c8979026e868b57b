/** Reading saved address tables. Ids and the order of vRandom are not saved. */
module AddrFile {
  import opened AddrTables
  import Check = AddrCheck

  const MAX_NEW := NEW_BUCKETS * BUCKET_SIZE
  const MAX_TRIED := TRIED_BUCKETS * BUCKET_SIZE

  /** What a saved entry keeps. */
  datatype Saved = Saved(addr: Service, services: set<nat>, time: int, source: NetAddr, lastSuccess: int, attempts: int)

  function Load(s: Saved, tried: bool, pos: int): Info {
    Info(s.addr, s.services, s.time, s.source, 0, 0, s.lastSuccess, s.attempts, 0, tried, pos)
  }

  /** The header, the entries, new ones first, and the new buckets slot by slot: the bucket and the
      number of the entry. */
  datatype Stream = Stream(
    keyIsNull: bool, nNew: int, nTried: int, entries: seq<Saved>, slots: seq<(nat, int)>, bucketCount: int, asmap: nat)

  /** A bucket is numbered by its place in the stream. */
  type File = f: Stream | forall j :: 0 <= j < |f.slots| ==> f.slots[j].0 < f.bucketCount
    witness Stream(false, 0, 0, [], [], 0, 0)

  /** The counts are in range and the stream does not end too early. */
  predicate Headed(f: File) { 0 <= f.nNew <= MAX_NEW && 0 <= f.nTried <= MAX_TRIED && f.nNew + f.nTried <= |f.entries| }

  predicate NoDup<T(==)>(s: seq<T>) { forall i, j :: 0 <= i < j < |s| ==> s[i] != s[j] }

  // ----- reading -----

  /** One entry more, under the next id. */
  function Append(h: Env, st: State, e: Saved, tried: bool): State {
    var id := st.nextId;
    st.(info := st.info[id := Load(e, tried, |st.random|)], ids := st.ids[e.addr := id], random := st.random + [id],
        tried := if tried then st.tried[TriedSlot(h, e.addr) := id] else st.tried,
        nTried := st.nTried + (if tried then 1 else 0), nNew := st.nNew + (if tried then 0 else 1), nextId := id + 1)
  }

  function ReadNew(h: Env, es: seq<Saved>): State {
    if es == [] then State(map[], map[], [], map[], map[], 0, 0, 0)
    else Append(h, ReadNew(h, es[..|es| - 1]), es[|es| - 1], false)
  }

  /** A tried entry is dropped if it is not valid or its slot is taken. */
  function ReadTried(h: Env, st: State, es: seq<Saved>): State {
    if es == [] then st
    else
      var mid, e := ReadTried(h, st, es[..|es| - 1]), es[|es| - 1];
      if h.valid(e.addr) && TriedSlot(h, e.addr) !in mid.tried then Append(h, mid, e, true) else mid
  }

  /** The slot an entry goes to: the saved one, or the one its source assigns if the bucketing has
      changed or the saved one is taken. */
  function Target(h: Env, t: Table, i: Info, bucket: nat, restore: bool): Slot {
    var s := NewSlot(h, i.addr, bucket);
    if restore && s !in t then s else NewSlot(h, i.addr, NewBucket(h, i.addr, i.source))
  }

  /** The entry exists, is valid, has not too many references, and its slot is free. */
  predicate Accepts(h: Env, st: State, bucket: nat, id: int, restore: bool) {
    && 0 <= id < st.nNew && id in st.info && h.valid(st.info[id].addr) && st.info[id].refCount < MAX_REFS
    && Target(h, st.newTable, st.info[id], bucket, restore) !in st.newTable
  }

  function ReadSlot(h: Env, st: State, bucket: nat, id: int, restore: bool): State {
    if Accepts(h, st, bucket, id, restore)
    then AddRef(st, Target(h, st.newTable, st.info[id], bucket, restore), id) else st
  }

  function ReadSlots(h: Env, st: State, slots: seq<(nat, int)>, restore: bool): State {
    if slots == [] then st
    else
      var last := slots[|slots| - 1];
      ReadSlot(h, ReadSlots(h, st, slots[..|slots| - 1], restore), last.0, last.1, restore)
  }

  /** The tables before entries without a slot are deleted and the consistency check is run. */
  function Read(h: Env, f: File, asmap: nat): State
    requires Headed(f)
  {
    ReadSlots(h, ReadTried(h, ReadNew(h, f.entries[..f.nNew]), f.entries[f.nNew..f.nNew + f.nTried]), f.slots, Restores(f, asmap))
  }

  predicate Restores(f: File, asmap: nat) { f.bucketCount == NEW_BUCKETS && f.asmap == asmap }

  // ----- what the first two phases build, whatever they read -----

  /** The tried entries that are valid and whose slot is free when their turn comes. */
  ghost function Taken(h: Env, es: seq<Saved>): seq<Saved> {
    if es == [] then []
    else
      var r, e := Taken(h, es[..|es| - 1]), es[|es| - 1];
      if h.valid(e.addr) && !SlotTaken(h, r, e) then r + [e] else r
  }

  ghost predicate SlotTaken(h: Env, r: seq<Saved>, e: Saved) {
    exists i :: 0 <= i < |r| && TriedSlot(h, r[i].addr) == TriedSlot(h, e.addr)
  }

  /** Each address leads to the last entry that has it. */
  ghost predicate LastNamed(ids: map<Service, int>, all: seq<Saved>) {
    && (forall i :: 0 <= i < |all| ==> all[i].addr in ids)
    && (forall a :: a in ids ==> 0 <= ids[a] < |all| && all[ids[a]].addr == a)
    && (forall i :: 0 <= i < |all| && all[i].addr in ids ==> i <= ids[all[i].addr])
  }

  /** All entries loaded in order, the first m of them new. */
  ghost predicate Loaded(st: State, all: seq<Saved>, m: nat) {
    && m <= |all| && st.nextId == |all| == |st.random| && st.nNew == m && st.nTried == |all| - m && st.newTable == map[]
    && (forall i :: 0 <= i < |all| ==> st.random[i] == i)
    && (forall i :: i in st.info <==> 0 <= i < |all|)
    && (forall i :: 0 <= i < |all| ==> st.info[i] == Load(all[i], i >= m, i))
    && LastNamed(st.ids, all)
  }

  /** The tried ones stand in their slots. */
  ghost predicate InSlots(h: Env, t: Table, all: seq<Saved>, m: nat) {
    && (forall i :: m <= i < |all| ==> TriedSlot(h, all[i].addr) in t && t[TriedSlot(h, all[i].addr)] == i)
    && (forall s :: s in t ==> m <= t[s] < |all| && s == TriedSlot(h, all[t[s]].addr))
  }

  lemma AppendNames(ids: map<Service, int>, all: seq<Saved>, e: Saved)
    requires LastNamed(ids, all)
    ensures LastNamed(ids[e.addr := |all|], all + [e])
  {
    var all' := all + [e];
    assert forall i :: 0 <= i < |all'| ==> all'[i] == if i < |all| then all[i] else e;
  }

  lemma AppendLoads(h: Env, st: State, all: seq<Saved>, m: nat, e: Saved, tried: bool)
    requires Loaded(st, all, m) && (tried || m == |all|)
    ensures Loaded(Append(h, st, e, tried), all + [e], if tried then m else m + 1)
  {
    hide TriedSlot, Load, LastNamed;
    var st', all' := Append(h, st, e, tried), all + [e];
    AppendNames(st.ids, all, e);
    assert forall i :: 0 <= i < |all'| ==> all'[i] == if i < |all| then all[i] else e;
  }

  lemma AppendInSlots(h: Env, t: Table, all: seq<Saved>, m: nat, e: Saved)
    requires InSlots(h, t, all, m) && m <= |all| && TriedSlot(h, e.addr) !in t
    ensures InSlots(h, t[TriedSlot(h, e.addr) := |all|], all + [e], m)
  {
    hide TriedSlot;
    var all' := all + [e];
    assert forall i :: 0 <= i < |all'| ==> all'[i] == if i < |all| then all[i] else e;
  }

  lemma {:induction false} ReadNewLoads(h: Env, es: seq<Saved>)
    ensures Loaded(ReadNew(h, es), es, |es|) && ReadNew(h, es).tried == map[]
  {
    if es != [] {
      var init, e := es[..|es| - 1], es[|es| - 1];
      ReadNewLoads(h, init);
      AppendLoads(h, ReadNew(h, init), init, |init|, e, false);
      assert es == init + [e];
      hide Loaded, TriedSlot;
    }
  }

  lemma SlotTakenIff(h: Env, t: Table, news: seq<Saved>, r: seq<Saved>, e: Saved)
    requires InSlots(h, t, news + r, |news|)
    ensures SlotTaken(h, r, e) <==> TriedSlot(h, e.addr) in t
  {
    hide TriedSlot;
    var all, s := news + r, TriedSlot(h, e.addr);
    if s in t { assert all[t[s]] == r[t[s] - |news|]; }
    if SlotTaken(h, r, e) {
      var i :| 0 <= i < |r| && TriedSlot(h, r[i].addr) == s;
      assert all[|news| + i] == r[i];
    }
  }

  /** Whatever a file holds, its entries get consecutive ids; a tried entry is lost exactly if it is
      not valid or an earlier one took its slot. */
  lemma {:induction false} ReadTriedLoads(h: Env, news: seq<Saved>, es: seq<Saved>)
    ensures var (st, all) := (ReadTried(h, ReadNew(h, news), es), news + Taken(h, es));
      Loaded(st, all, |news|) && InSlots(h, st.tried, all, |news|)
  {
    hide TriedSlot, Loaded, SlotTaken;
    if es == [] {
      assert news + [] == news;
      ReadNewLoads(h, news);
    } else {
      var init, e := es[..|es| - 1], es[|es| - 1];
      ReadTriedLoads(h, news, init);
      var mid, r := ReadTried(h, ReadNew(h, news), init), Taken(h, init);
      SlotTakenIff(h, mid.tried, news, r, e);
      if h.valid(e.addr) && !SlotTaken(h, r, e) {
        assert news + (r + [e]) == (news + r) + [e];
        AppendLoads(h, mid, news + r, |news|, e, true);
        AppendInSlots(h, mid.tried, news + r, |news|, e);
        LoadedSize(mid, news + r, |news|);
      }
    }
  }

  lemma LoadedSize(st: State, all: seq<Saved>, m: nat)
    requires Loaded(st, all, m)
    ensures st.nextId == |all| && m <= |all| && st.newTable == map[] && st.nNew == m
  {
  }

  // ----- tables that are in step but for mapAddr and entries without references -----

  ghost predicate Placed(h: Env, st: State, id: int)
    requires id in st.info
  {
    && 0 <= id < st.nextId && Check.InPlace(st, id) && (st.info[id].inTried ==> Check.Homed(h, st, id))
  }

  ghost predicate Slack(h: Env, st: State) {
    (forall id :: id in st.info ==> Placed(h, st, id)) && RandomOk(st) && NamesOk(st) && NewOk(h, st) && TriedOk(h, st)
  }

  function Floating(info: map<int, Info>): set<int> { set id | id in info && !info[id].inTried && info[id].refCount == 0 }

  ghost predicate Draft(h: Env, st: State) { Slack(h, st) && Refs(st, Floating(st.info)) && Counts(st, 0) }

  lemma {:induction false} RangeSize(a: int, b: int, r: set<int>)
    requires a <= b && forall x :: x in r <==> a <= x < b
    ensures |r| == b - a
    decreases b - a
  {
    if a == b {
      assert forall x: int :: x !in r;
      assert r == {};
    } else {
      RangeSize(a, b - 1, r - {b - 1});
    }
  }

  lemma LoadedDraft(h: Env, st: State, all: seq<Saved>, m: nat)
    requires Loaded(st, all, m) && InSlots(h, st.tried, all, m)
    ensures Draft(h, st) && forall id :: id in st.info ==> st.info[id].inTried == (id >= m)
  {
    LoadedSlack(h, st, all, m);
    LoadedCounts(st, all, m);
    hide Slack, Counts, Refs, InSlots;
  }

  lemma LoadedCounts(st: State, all: seq<Saved>, m: nat)
    requires Loaded(st, all, m)
    ensures Counts(st, 0) && Refs(st, Floating(st.info))
  {
    RangeSize(0, m, NewIds(st.info));
    RangeSize(m, |all|, TriedIds(st.info));
    hide LastNamed;
    forall id | id in st.info ensures RefOk(st.info[id], id, st.newTable, Floating(st.info)) {
      assert Slots(st.newTable, id) == {};
    }
  }

  lemma LoadedSlack(h: Env, st: State, all: seq<Saved>, m: nat)
    requires Loaded(st, all, m) && InSlots(h, st.tried, all, m)
    ensures Slack(h, st)
  {
    hide TriedSlot, NewSlot;
  }

  // ----- the slots, whatever they say -----

  /** The new entries are those with ids below nNew. */
  predicate SplitAt(st: State) { forall id :: id in st.info ==> st.info[id].inTried == (id >= st.nNew) }

  /** Only references and new slots differ. */
  predicate Referenced(base: State, st: State) {
    && st == base.(newTable := st.newTable, info := st.info) && st.info.Keys == base.info.Keys
    && forall id :: id in base.info ==> st.info[id] == base.info[id].(refCount := st.info[id].refCount)
  }

  lemma AddRefSlack(h: Env, st: State, s: Slot, id: int)
    requires Slack(h, st) && id in st.info && s.0 < NEW_BUCKETS && s == NewSlot(h, st.info[id].addr, s.0)
    ensures Slack(h, AddRef(st, s, id))
  {
    hide NamesOk, TriedSlot;
    var st' := AddRef(st, s, id);
    NamesFrame(st, st');
    forall x | x in st'.info ensures Placed(h, st', x) { assert Placed(h, st, x); }
  }

  lemma AddRefDraft(h: Env, st: State, s: Slot, id: int)
    requires Draft(h, st) && id in st.info && !st.info[id].inTried && st.info[id].refCount < MAX_REFS
    requires s !in st.newTable && s.0 < NEW_BUCKETS && s == NewSlot(h, st.info[id].addr, s.0)
    ensures Draft(h, AddRef(st, s, id))
  {
    AddRefSlack(h, st, s, id);
    AddRefRefs(st, s, id, Floating(st.info));
    AddRefCounts(st, s, id, 0);
    FloatingAfterRef(st, s, id);
    hide Slack, Refs, Counts, NewSlot;
  }

  lemma FloatingAfterRef(st: State, s: Slot, id: int)
    requires id in st.info && (st.info[id].refCount >= 0)
    ensures Floating(AddRef(st, s, id).info) == Floating(st.info) - {id}
  {
  }

  lemma ReadSlotKeeps(h: Env, st: State, bucket: nat, id: int, restore: bool)
    requires Draft(h, st) && SplitAt(st) && (restore ==> bucket < NEW_BUCKETS)
    ensures var st' := ReadSlot(h, st, bucket, id, restore); Draft(h, st') && SplitAt(st') && Referenced(st, st')
  {
    hide Slack, Counts, NewSlot, Refs;
    if Accepts(h, st, bucket, id, restore) {
      var s := Target(h, st.newTable, st.info[id], bucket, restore);
      RefsInfo(st, Floating(st.info), id);
      assert s.0 < NEW_BUCKETS && s == NewSlot(h, st.info[id].addr, s.0);
      AddRefDraft(h, st, s, id);
      hide Draft, Accepts, Target, RefOk;
    }
  }

  lemma ReferencedTwice(a: State, b: State, c: State)
    requires Referenced(a, b) && Referenced(b, c)
    ensures Referenced(a, c)
  {
    forall id | id in a.info ensures c.info[id] == a.info[id].(refCount := c.info[id].refCount) {
      assert b.info[id] == a.info[id].(refCount := b.info[id].refCount);
    }
  }

  lemma {:induction false} ReadSlotsKeep(h: Env, st: State, slots: seq<(nat, int)>, restore: bool)
    requires Draft(h, st) && SplitAt(st) && (restore ==> forall j :: 0 <= j < |slots| ==> slots[j].0 < NEW_BUCKETS)
    ensures var st' := ReadSlots(h, st, slots, restore); Draft(h, st') && SplitAt(st') && Referenced(st, st')
  {
    hide Draft, SplitAt, ReadSlot;
    if slots != [] {
      var init, last := slots[..|slots| - 1], slots[|slots| - 1];
      ReadSlotsKeep(h, st, init, restore);
      var mid := ReadSlots(h, st, init, restore);
      ReadSlotKeeps(h, mid, last.0, last.1, restore);
      ReferencedTwice(st, mid, ReadSlot(h, mid, last.0, last.1, restore));
    }
  }

  /** The entries a file yields, in the order of their ids. */
  ghost function AllEntries(h: Env, f: File): seq<Saved>
    requires Headed(f)
  {
    f.entries[..f.nNew] + Taken(h, f.entries[f.nNew..f.nNew + f.nTried])
  }

  /** Any file at all: the tables are in step but for mapAddr and entries without references, and
      hold exactly the entries of the file. */
  lemma ReadIsDraft(h: Env, f: File, asmap: nat)
    requires Headed(f)
    ensures Draft(h, Read(h, f, asmap)) && Holds(h, f, Read(h, f, asmap))
  {
    hide Draft, Loaded, InSlots, ReadSlots, ReadTried, ReadNew, Referenced, SplitAt, Taken;
    var news, es := f.entries[..f.nNew], f.entries[f.nNew..f.nNew + f.nTried];
    ReadTriedLoads(h, news, es);
    var base := ReadTried(h, ReadNew(h, news), es);
    LoadedDraft(h, base, AllEntries(h, f), f.nNew);
    LoadedSplit(base, AllEntries(h, f), f.nNew);
    ReadSlotsKeep(h, base, f.slots, Restores(f, asmap));
    LoadedHolds(h, f, base, Read(h, f, asmap));
  }

  lemma LoadedSplit(st: State, all: seq<Saved>, m: nat)
    requires Loaded(st, all, m)
    ensures SplitAt(st)
  {
  }

  ghost predicate Holds(h: Env, f: File, st: State)
    requires Headed(f)
  {
    var all := AllEntries(h, f);
    && (forall id :: id in st.info <==> 0 <= id < |all|)
    && (forall id :: 0 <= id < |all| ==>
          st.info[id] == Load(all[id], id >= f.nNew, id).(refCount := st.info[id].refCount, randomPos := st.info[id].randomPos))
    && LastNamed(st.ids, all)
  }

  lemma LoadedHolds(h: Env, f: File, base: State, st: State)
    requires Headed(f) && Loaded(base, AllEntries(h, f), f.nNew) && Referenced(base, st)
    ensures Holds(h, f, st)
  {
    hide LastNamed, AllEntries;
    var all := AllEntries(h, f);
    forall id | 0 <= id < |all|
      ensures id in st.info &&
        st.info[id] == Load(all[id], id >= f.nNew, id).(refCount := st.info[id].refCount, randomPos := st.info[id].randomPos)
    {
      assert id in base.info && base.info[id] == Load(all[id], id >= f.nNew, id);
    }
  }

  // ----- deleting entries without references -----

  lemma DeleteEffect(st: State, id: int)
    requires RandomOk(st) && id in st.info && 0 <= st.info[id].randomPos < |st.random|
    ensures var st' := Delete(st, id);
      && st'.info.Keys == st.info.Keys - {id} && st'.ids == st.ids - {st.info[id].addr}
      && st'.tried == st.tried && st'.newTable == st.newTable && st'.nextId == st.nextId
      && forall x :: x in st'.info ==> st'.info[x] == st.info[x].(randomPos := st'.info[x].randomPos)
  {
    SwapRandomEntries(st, st.info[id].randomPos, Last(st));
    hide SwapRandom;
  }

  lemma DeleteSlack(h: Env, st: State, id: int)
    requires Slack(h, st) && id in st.info && !st.info[id].inTried && |Slots(st.newTable, id)| == 0 && Placed(h, st, id)
    ensures Slack(h, Delete(st, id))
  {
    hide TriedSlot, NewSlot;
    Unreferenced(st.newTable, id);
    SwapRandomEntries(st, st.info[id].randomPos, Last(st));
    SwapToEnd(st, id);
    var sw := SwapRandom(st, st.info[id].randomPos, Last(st));
    hide SwapRandom;
    PopSlack(h, st, sw, id);
  }

  lemma PopSlack(h: Env, st: State, sw: State, id: int)
    requires Slack(h, st) && sw == st.(random := sw.random, info := sw.info) && RandomOk(sw) && id in st.info
    requires sw.random != [] && |sw.random| == |st.random| && sw.random[|sw.random| - 1] == id && sw.info.Keys == st.info.Keys
    requires forall x :: x in st.info ==> sw.info[x] == st.info[x].(randomPos := sw.info[x].randomPos) && Check.InPlace(sw, x)
    requires !st.info[id].inTried && forall s :: s in st.newTable ==> st.newTable[s] != id
    ensures Slack(h, Pop(sw, id))
  {
    hide TriedSlot, NewSlot;
    var st' := Pop(sw, id);
    PopNames(st, sw, id);
    PopTables(h, st, sw, id);
    forall x | x in st'.info ensures Placed(h, st', x) {
      assert Placed(h, st, x) && Check.InPlace(sw, x) && Check.InPlace(sw, id);
    }
    hide NamesOk, RandomOk, NewOk, TriedOk, Placed;
  }

  lemma PopTables(h: Env, st: State, sw: State, id: int)
    requires NewOk(h, st) && TriedOk(h, st) && RandomOk(sw) && sw == st.(random := sw.random, info := sw.info)
    requires id in st.info && sw.random != [] && sw.random[|sw.random| - 1] == id && sw.info.Keys == st.info.Keys
    requires forall x :: x in st.info ==> sw.info[x].addr == st.info[x].addr && sw.info[x].inTried == st.info[x].inTried
    requires !st.info[id].inTried && forall s :: s in st.newTable ==> st.newTable[s] != id
    ensures var st' := Pop(sw, id); NewOk(h, st') && TriedOk(h, st') && RandomOk(st')
  {
    hide TriedSlot, NewSlot;
    var st' := Pop(sw, id);
    forall s | s in st'.tried
      ensures st'.tried[s] in st'.info && st'.info[st'.tried[s]].inTried && s == TriedSlot(h, st'.info[st'.tried[s]].addr)
    {
      var x := st.tried[s];
      assert x in st.info && st.info[x].inTried && x != id;
    }
  }

  lemma PopNames(st: State, sw: State, id: int)
    requires NamesOk(st) && sw.ids == st.ids && sw.info.Keys == st.info.Keys && sw.random != [] && id in st.info
    requires forall x :: x in st.info ==> sw.info[x].addr == st.info[x].addr
    ensures NamesOk(Pop(sw, id))
  {
    var st' := Pop(sw, id);
    forall a | a in st'.ids ensures st'.ids[a] in st'.info && st'.info[st'.ids[a]].addr == a {
      var x := st.ids[a];
      assert a in st.ids && x in st.info && st.info[x].addr == a;
      assert sw.info[x].addr == a && sw.info[id].addr != a;
    }
  }

  /** For every file the assertions met while deleting hold: the entry exists, is not tried, has no
      references and sits where it says, and so it is for the next one. */
  lemma DeleteDraft(h: Env, st: State, id: int)
    requires Draft(h, st) && id in Floating(st.info)
    ensures Check.InPlace(st, id) && RandomOk(st) && Draft(h, Delete(st, id))
    ensures Floating(Delete(st, id).info) == Floating(st.info) - {id}
  {
    assert Placed(h, st, id) && RefOk(st.info[id], id, st.newTable, Floating(st.info));
    DeleteSlack(h, st, id);
    DeleteRefs(st, id, Floating(st.info));
    DeleteCounts(st, id, 0);
    DeleteEffect(st, id);
    hide Slack, Refs, Counts, Delete;
    var st' := Delete(st, id);
    forall x ensures x in Floating(st'.info) <==> x in Floating(st.info) - {id} {
      if x in st'.info { assert st'.info[x] == st.info[x].(randomPos := st'.info[x].randomPos); }
    }
  }

  /** `order` stands for the enumeration of mapInfo. */
  ghost function Prune(h: Env, st: State, order: seq<int>): (r: State)
    requires Draft(h, st)
    ensures Draft(h, r)
  {
    if order == [] then st
    else
      var mid, id := Prune(h, st, order[..|order| - 1]), order[|order| - 1];
      if id in Floating(mid.info) then DeleteDraft(h, mid, id); Delete(mid, id) else mid
  }

  function Names(info: map<int, Info>, ids: set<int>): set<Service> { set id | id in ids && id in info :: info[id].addr }

  /** Some entries are gone, with the keys of their addresses; places apart, nothing else differs. */
  ghost predicate Without(st: State, st': State, gone: set<int>) {
    && gone <= st.info.Keys && st'.info.Keys == st.info.Keys - gone && st'.ids == st.ids - Names(st.info, gone)
    && st'.tried == st.tried && st'.newTable == st.newTable && st'.nextId == st.nextId
    && forall x :: x in st'.info ==> st'.info[x] == st.info[x].(randomPos := st'.info[x].randomPos)
  }

  lemma {:induction false} PruneRemoves(h: Env, st: State, order: seq<int>)
    requires Draft(h, st)
    ensures var gone := set id | id in order && id in Floating(st.info);
      Without(st, Prune(h, st, order), gone) && Floating(Prune(h, st, order).info) == Floating(st.info) - gone
  {
    hide Draft, Delete;
    if order != [] {
      var init, id := order[..|order| - 1], order[|order| - 1];
      PruneRemoves(h, st, init);
      var mid := Prune(h, st, init);
      var gone, gone' := (set x | x in init && x in Floating(st.info)), (set x | x in order && x in Floating(st.info));
      assert order == init + [id];
      if id in Floating(mid.info) {
        assert gone' == gone + {id};
        DeleteDraft(h, mid, id);
        DeleteEffect(mid, id);
        WithoutMore(st, mid, Delete(mid, id), gone, id);
      } else {
        assert gone' == gone;
      }
    }
  }

  lemma {:induction false} NothingToPrune(h: Env, st: State, order: seq<int>)
    requires Draft(h, st) && Floating(st.info) == {}
    ensures Prune(h, st, order) == st
  {
    hide Draft;
    if order != [] { NothingToPrune(h, st, order[..|order| - 1]); }
  }

  lemma WithoutMore(st: State, mid: State, st': State, gone: set<int>, id: int)
    requires Without(st, mid, gone) && id in mid.info
    requires st'.info.Keys == mid.info.Keys - {id} && st'.ids == mid.ids - {mid.info[id].addr}
    requires st'.tried == mid.tried && st'.newTable == mid.newTable && st'.nextId == mid.nextId
    requires forall x :: x in st'.info ==> st'.info[x] == mid.info[x].(randomPos := st'.info[x].randomPos)
    ensures Without(st, st', gone + {id})
  {
    assert Names(st.info, gone + {id}) == Names(st.info, gone) + {st.info[id].addr};
    forall x | x in st'.info ensures st'.info[x] == st.info[x].(randomPos := st'.info[x].randomPos) {
      assert mid.info[x] == st.info[x].(randomPos := mid.info[x].randomPos);
    }
  }

  // ----- whether the check passes -----

  predicate Survives(i: Info) { i.inTried || i.refCount != 0 }

  /** No entry that stays shares its address with another one that was loaded. */
  ghost predicate Unshared(info: map<int, Info>) {
    forall i, j :: i in info && j in info && i != j && Survives(info[i]) ==> info[i].addr != info[j].addr
  }

  /** The saved times of the entries that stay are not negative, and those of tried ones not zero. */
  predicate Timed(info: map<int, Info>) {
    forall i :: i in info && Survives(info[i]) ==> info[i].lastSuccess >= 0 && (info[i].inTried ==> info[i].lastSuccess > 0)
  }

  predicate Named(st: State, id: int)
    requires id in st.info
  {
    st.info[id].addr in st.ids && st.ids[st.info[id].addr] == id
  }

  predicate TimesPass(i: Info) { i.lastTry >= 0 && i.lastSuccess >= 0 && (i.inTried ==> i.lastSuccess != 0) }

  /** Tables without floating entries pass the check if and only if mapAddr finds every entry and
      the times are right. */
  lemma DraftPasses(h: Env, st: State)
    requires Draft(h, st) && Floating(st.info) == {}
    ensures Check.Passes(h, st) <==> forall id :: id in st.info ==> Named(st, id) && TimesPass(st.info[id])
  {
    hide TriedSlot, NewSlot;
    forall id | id in st.info
      ensures Check.InPlace(st, id) && (Check.EntryPasses(st, id) <==> Named(st, id) && TimesPass(st.info[id]))
    {
      assert Placed(h, st, id) && RefOk(st.info[id], id, st.newTable, {});
    }
    Check.EveryPlaceUsed(st);
    DraftTables(h, st);
    hide Draft, Check.EntryPasses, Named, TimesPass, Check.TriedPasses, Check.NewPasses;
  }

  lemma DraftTables(h: Env, st: State)
    requires Draft(h, st) && Floating(st.info) == {}
    ensures Check.TriedPasses(h, st) && Check.NewPasses(h, st) && Counts(st, 0)
  {
    hide TriedSlot, NewSlot;
    forall id | id in TriedIds(st.info) ensures Check.Homed(h, st, id) { assert Placed(h, st, id); }
    forall s | s in st.newTable ensures Check.NewSlotPasses(h, st, s) {
      var id := st.newTable[s];
      assert RefOk(st.info[id], id, st.newTable, {}) && s in Slots(st.newTable, id);
    }
    forall id | id in NewIds(st.info) ensures st.info[id].refCount == |Slots(st.newTable, id)| {
      assert RefOk(st.info[id], id, st.newTable, {});
    }
  }

  /** After the deletions mapAddr finds all entries if and only if none of them shared its address. */
  lemma NamedIffUnshared(st: State, st': State, all: seq<Saved>)
    requires Listed(st, all) && Without(st, st', Floating(st.info))
    ensures (forall id :: id in st'.info ==> Named(st', id)) <==> Unshared(st.info)
  {
    hide Listed, Without, Named, Survives, Floating;
    if Unshared(st.info) {
      forall id | id in st'.info ensures Named(st', id) { UnsharedNamed(st, st', all, id); }
    } else {
      var i, j :| i in st.info && j in st.info && i != j && Survives(st.info[i]) && st.info[i].addr == st.info[j].addr;
      SharedFails(st, st', all, i, j);
    }
  }

  ghost predicate Listed(st: State, all: seq<Saved>) {
    && LastNamed(st.ids, all) && (forall k :: k in st.info <==> 0 <= k < |all|)
    && forall k :: 0 <= k < |all| ==> st.info[k].addr == all[k].addr
  }

  lemma UnsharedNamed(st: State, st': State, all: seq<Saved>, id: int)
    requires Listed(st, all) && Without(st, st', Floating(st.info)) && id in st'.info && Unshared(st.info)
    ensures Named(st', id)
  {
    var a := st.info[id].addr;
    assert id in st.info && id !in Floating(st.info) && st'.info[id].addr == a;
    assert a in st.ids && all[st.ids[a]].addr == a && st.ids[a] in st.info;
    assert a !in Names(st.info, Floating(st.info));
  }

  lemma SharedFails(st: State, st': State, all: seq<Saved>, i: int, j: int)
    requires Listed(st, all) && Without(st, st', Floating(st.info)) && i in st.info && j in st.info && i != j
    requires Survives(st.info[i]) && st.info[i].addr == st.info[j].addr
    ensures exists id :: id in st'.info && !Named(st', id)
  {
    var a := st.info[i].addr;
    assert i in st'.info && st'.info[i].addr == a;
    if Survives(st.info[j]) {
      assert j in st'.info && st'.info[j].addr == a;
      assert !Named(st', i) || !Named(st', j);
    } else {
      assert j in Floating(st.info) && a in Names(st.info, Floating(st.info));
      assert !Named(st', i);
    }
  }

  lemma TimesPassIff(h: Env, f: File, st: State, st': State)
    requires Headed(f) && Holds(h, f, st) && Without(st, st', Floating(st.info))
    ensures (forall id :: id in st'.info ==> TimesPass(st'.info[id])) <==> Timed(st.info)
  {
    hide AllEntries, LastNamed, Names;
    forall id | id in st'.info
      ensures id in st.info && Survives(st.info[id]) && st'.info[id] == st.info[id].(randomPos := st'.info[id].randomPos)
      ensures st.info[id].lastTry == 0
    {
      assert id in st.info && id !in Floating(st.info);
    }
    forall id | id in st.info && Survives(st.info[id]) ensures id in st'.info { assert id !in Floating(st.info); }
  }

  // ----- a whole file -----

  datatype Outcome = Corrupt | Ready(st: State)

  ghost predicate Lists(order: seq<int>, info: map<int, Info>) {
    NoDup(order) && forall id :: id in order <==> id in info
  }

  /** Corrupt stands for the exceptions; `order` for the enumeration of the entries read. */
  ghost function Unserialize(h: Env, f: File, asmap: nat, order: seq<int>): Outcome
    requires Headed(f) ==> Lists(order, Read(h, f, asmap).info)
  {
    if !Headed(f) then Corrupt
    else
      ReadIsDraft(h, f, asmap);
      var st := Prune(h, Read(h, f, asmap), order);
      if Check.Passes(h, st) && !f.keyIsNull then Ready(st) else Corrupt
  }

  /** Any file whatsoever either is refused or gives consistent tables, and it is accepted if and only
      if its counts are in range, its key is set, no entry that stays shares its address with
      another one read, and the saved times of the entries that stay are right. */
  lemma UnserializeIff(h: Env, f: File, asmap: nat, order: seq<int>)
    requires Headed(f) ==> Lists(order, Read(h, f, asmap).info)
    ensures Unserialize(h, f, asmap, order).Ready? <==>
      Headed(f) && !f.keyIsNull && Unshared(Read(h, f, asmap).info) && Timed(Read(h, f, asmap).info)
    ensures Unserialize(h, f, asmap, order).Ready? ==>
      var st := Unserialize(h, f, asmap, order).st;
      Consistent(h, st) && Without(Read(h, f, asmap), st, Floating(Read(h, f, asmap).info))
  {
    if Headed(f) {
      hide *;
      ReadIsDraft(h, f, asmap);
      UnserializeStep(h, f, asmap, order);
      PruneDecides(h, f, Read(h, f, asmap), order);
    }
  }

  lemma UnserializeStep(h: Env, f: File, asmap: nat, order: seq<int>)
    requires Headed(f) && Lists(order, Read(h, f, asmap).info) && Draft(h, Read(h, f, asmap))
    ensures var st := Prune(h, Read(h, f, asmap), order);
      Unserialize(h, f, asmap, order) == if Check.Passes(h, st) && !f.keyIsNull then Ready(st) else Corrupt
  {
    hide Headed, Read, Draft, Check.Passes, Prune, Lists;
  }

  lemma PruneDecides(h: Env, f: File, st: State, order: seq<int>)
    requires Headed(f) && Lists(order, st.info) && Draft(h, st) && Holds(h, f, st)
    ensures var st' := Prune(h, st, order);
      && (Check.Passes(h, st') <==> Unshared(st.info) && Timed(st.info))
      && (Check.Passes(h, st') ==> Consistent(h, st')) && Without(st, st', Floating(st.info))
  {
    hide Draft, Check.Passes, Prune, Headed, Holds, Without, Unshared, Timed, Named, TimesPass, Consistent, NoDup, Floating;
    var st' := Prune(h, st, order);
    PruneRemoves(h, st, order);
    FloatingListed(st.info, order);
    DraftPasses(h, st');
    HoldsListed(h, f, st);
    NamedIffUnshared(st, st', AllEntries(h, f));
    TimesPassIff(h, f, st, st');
    if Check.Passes(h, st') { PassingDraft(h, st'); }
  }

  lemma FloatingListed(info: map<int, Info>, order: seq<int>)
    requires Lists(order, info)
    ensures (set id | id in order && id in Floating(info)) == Floating(info) && Floating(info) - Floating(info) == {}
  {
    assert forall id :: id in Floating(info) ==> id in order;
  }

  lemma HoldsListed(h: Env, f: File, st: State)
    requires Headed(f) && Holds(h, f, st)
    ensures Listed(st, AllEntries(h, f))
  {
    hide LastNamed, AllEntries;
  }

  lemma PassingDraft(h: Env, st: State)
    requires Draft(h, st) && Check.Passes(h, st)
    ensures Consistent(h, st)
  {
    assert forall id :: id in st.info ==> Placed(h, st, id);
    Check.PassesIffConsistent(h, st);
    hide Check.Passes, Consistent;
  }
}
