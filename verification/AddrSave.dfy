/** Writing the address tables, and reading back what was written. */
module AddrSave {
  import opened AddrTables
  import opened AddrFile
  import Sets

  function Save(i: Info): Saved { Saved(i.addr, i.services, i.time, i.source, i.lastSuccess, i.attempts) }

  /** The ids in the order of enumeration that have references, or that are in the tried table. */
  function Select(order: seq<int>, info: map<int, Info>, tried: bool): seq<int> {
    if order == [] then []
    else
      var id, rest := order[|order| - 1], Select(order[..|order| - 1], info, tried);
      if id in info && (if tried then info[id].inTried else info[id].refCount != 0) then rest + [id] else rest
  }

  predicate AllIn(ids: seq<int>, info: map<int, Info>) { forall i :: 0 <= i < |ids| ==> ids[i] in info }

  function Saves(ids: seq<int>, info: map<int, Info>): (r: seq<Saved>)
    requires AllIn(ids, info)
    ensures |r| == |ids|
  {
    seq(|ids|, i requires 0 <= i < |ids| => Save(info[ids[i]]))
  }

  function IndexIn(s: seq<int>, x: int): (k: nat)
    ensures k <= |s| && (k < |s| ==> s[k] == x) && (x in s ==> k < |s|)
  {
    if s == [] || s[0] == x then 0 else 1 + IndexIn(s[1..], x)
  }

  /** `order` stands for the enumeration of mapInfo, `slots` for the occupied new slots in order. */
  ghost predicate Enumerated(st: State, order: seq<int>, slots: seq<Slot>) {
    && Lists(order, st.info)
    && NoDup(slots) && (forall s :: s in slots <==> s in st.newTable)
    && forall j :: 0 <= j < |slots| ==> slots[j].0 < NEW_BUCKETS
  }

  lemma {:induction false} SelectFacts(order: seq<int>, info: map<int, Info>, tried: bool)
    requires NoDup(order)
    ensures var r := Select(order, info, tried);
      && NoDup(r)
      && forall id :: id in r <==>
           id in order && id in info && (if tried then info[id].inTried else info[id].refCount != 0)
  {
    if order != [] {
      var init := order[..|order| - 1];
      assert order == init + [order[|order| - 1]];
      SelectFacts(init, info, tried);
    }
  }

  lemma SelectIn(order: seq<int>, info: map<int, Info>, tried: bool)
    requires NoDup(order)
    ensures AllIn(Select(order, info, tried), info)
  {
    SelectFacts(order, info, tried);
    hide Select;
    var r := Select(order, info, tried);
    forall i | 0 <= i < |r| ensures r[i] in info {
      var id := r[i];
      assert id in r;
    }
  }

  ghost function Write(st: State, order: seq<int>, slots: seq<Slot>, asmap: nat, keyIsNull: bool): File
    requires Enumerated(st, order, slots)
  {
    SelectIn(order, st.info, false);
    SelectIn(order, st.info, true);
    var news := Select(order, st.info, false);
    Stream(keyIsNull, st.nNew, st.nTried, Saves(news, st.info) + Saves(Select(order, st.info, true), st.info),
           seq(|slots|, j requires 0 <= j < |slots| => SlotEntry(st, news, slots[j])), NEW_BUCKETS, asmap)
  }

  function SlotEntry(st: State, news: seq<int>, s: Slot): (nat, int) {
    (s.0, if s in st.newTable then IndexIn(news, st.newTable[s]) else -1)
  }

  // ----- reading entries that do not get in each other's way -----

  /** No address twice, no tried slot twice, all valid. */
  ghost predicate Separate(h: Env, all: seq<Saved>, m: nat) {
    && (forall i, j :: 0 <= i < j < |all| ==> all[i].addr != all[j].addr)
    && (forall i, j :: m <= i < j < |all| ==> TriedSlot(h, all[i].addr) != TriedSlot(h, all[j].addr))
    && (forall i :: 0 <= i < |all| ==> h.valid(all[i].addr))
  }

  lemma {:induction false} TakenAll(h: Env, news: seq<Saved>, es: seq<Saved>)
    requires Separate(h, news + es, |news|)
    ensures Taken(h, es) == es
  {
    hide TriedSlot;
    if es != [] {
      var init, e := es[..|es| - 1], es[|es| - 1];
      var all, before := news + es, news + init;
      assert forall i :: 0 <= i < |before| ==> before[i] == all[i];
      TakenAll(h, news, init);
      assert all[|before|] == e;
      forall i | 0 <= i < |init| ensures TriedSlot(h, init[i].addr) != TriedSlot(h, e.addr) {
        assert all[|news| + i] == init[i];
      }
      assert es == init + [e];
    }
  }

  // ----- the new slots -----

  /** How often an entry occurs among the first k slots. */
  function Uses(slots: seq<(nat, int)>, k: nat, id: int): (n: nat)
    requires k <= |slots|
    ensures n <= k
  {
    if k == 0 then 0 else Uses(slots, k - 1, id) + if slots[k - 1].1 == id then 1 else 0
  }

  lemma {:induction false} UsesGrow(slots: seq<(nat, int)>, k: nat, n: nat, id: int)
    requires k <= n <= |slots|
    ensures Uses(slots, k, id) <= Uses(slots, n, id)
  {
    if k < n { UsesGrow(slots, k, n - 1, id); }
  }

  /** Slot j of the list is where entry slots[j].1 belongs, each slot once and no entry too often. */
  ghost predicate Fitting(h: Env, all: seq<Saved>, m: nat, where: seq<Slot>, slots: seq<(nat, int)>) {
    && |where| == |slots| && NoDup(where) && m <= |all|
    && (forall j :: 0 <= j < |slots| ==>
          0 <= slots[j].1 < m && slots[j].0 == where[j].0 && where[j] == NewSlot(h, all[slots[j].1].addr, where[j].0))
    && (forall id :: 0 <= id < m ==> Uses(slots, |slots|, id) <= MAX_REFS)
    && (forall i :: 0 <= i < |all| ==> h.valid(all[i].addr))
  }

  /** After k slots: those are filled. */
  ghost predicate FilledTable(t: Table, where: seq<Slot>, slots: seq<(nat, int)>, k: nat)
    requires k <= |where| == |slots|
  {
    && (forall s :: s in t ==> s in where[..k])
    && (forall j :: 0 <= j < k ==> where[j] in t && t[where[j]] == slots[j].1)
  }

  /** And they are counted at their entries. */
  ghost predicate Counted(base: map<int, Info>, info: map<int, Info>, slots: seq<(nat, int)>, k: nat)
    requires k <= |slots|
  {
    && info.Keys == base.Keys
    && forall i :: i in base ==> info[i] == base[i].(refCount := base[i].refCount + Uses(slots, k, i))
  }

  ghost predicate Filled(base: State, st: State, where: seq<Slot>, slots: seq<(nat, int)>, k: nat)
    requires k <= |where| == |slots|
  {
    && st == base.(newTable := st.newTable, info := st.info)
    && Counted(base.info, st.info, slots, k) && FilledTable(st.newTable, where, slots, k)
  }

  lemma {:induction false} ReadSlotsFills(h: Env, base: State, all: seq<Saved>, m: nat, where: seq<Slot>, slots: seq<(nat, int)>,
                                          k: nat)
    requires Loaded(base, all, m) && Fitting(h, all, m, where, slots) && k <= |slots| == |where|
    ensures Filled(base, ReadSlots(h, base, slots[..k], true), where, slots, k)
  {
    hide Filled, Fitting, Loaded, ReadSlot;
    if k == 0 {
      LoadedSize(base, all, m);
      NothingFilled(base, where, slots);
      assert slots[..0] == [];
    } else {
      var i := k - 1;
      ReadSlotsFills(h, base, all, m, where, slots, i);
      assert slots[..k][..|slots[..k]| - 1] == slots[..i] && slots[..k][|slots[..k]| - 1] == slots[i];
      FillOne(h, base, ReadSlots(h, base, slots[..i], true), all, m, where, slots, i, k);
    }
  }

  lemma NothingFilled(base: State, where: seq<Slot>, slots: seq<(nat, int)>)
    requires |where| == |slots| && base.newTable == map[]
    ensures Filled(base, base, where, slots, 0)
  {
  }

  lemma FillOne(h: Env, base: State, st: State, all: seq<Saved>, m: nat, where: seq<Slot>, slots: seq<(nat, int)>, k: nat, next: nat)
    requires Loaded(base, all, m) && Fitting(h, all, m, where, slots) && k < |slots| == |where|
    requires Filled(base, st, where, slots, k) && next == k + 1
    ensures Filled(base, ReadSlot(h, st, slots[k].0, slots[k].1, true), where, slots, next)
  {
    hide Filled, Fitting, Loaded;
    FillTarget(h, base, st, all, m, where, slots, k);
    FillKeeps(base, st, where, slots, k, next);
  }

  lemma FillTarget(h: Env, base: State, st: State, all: seq<Saved>, m: nat, where: seq<Slot>, slots: seq<(nat, int)>, k: nat)
    requires Loaded(base, all, m) && Fitting(h, all, m, where, slots) && k < |slots| == |where|
    requires Filled(base, st, where, slots, k)
    ensures slots[k].1 in st.info && Accepts(h, st, slots[k].0, slots[k].1, true)
    ensures Target(h, st.newTable, st.info[slots[k].1], slots[k].0, true) == where[k] && where[k] !in st.newTable
  {
    hide NewSlot, Uses, Loaded, Counted, FilledTable;
    var id := slots[k].1;
    EntryNow(base, st, all, m, slots, k, id);
    OneMoreUse(slots, k);
    NextSlotFree(st.newTable, where, slots, k);
  }

  lemma EntryNow(base: State, st: State, all: seq<Saved>, m: nat, slots: seq<(nat, int)>, k: nat, id: int)
    requires Loaded(base, all, m) && k <= |slots| && Counted(base.info, st.info, slots, k) && 0 <= id < m
    ensures id in st.info && st.info[id].addr == all[id].addr && st.info[id].refCount == Uses(slots, k, id) && base.nNew == m
  {
    assert id in base.info && base.info[id] == Load(all[id], id >= m, id);
    hide Uses;
  }

  lemma OneMoreUse(slots: seq<(nat, int)>, k: nat)
    requires k < |slots|
    ensures Uses(slots, k, slots[k].1) < Uses(slots, |slots|, slots[k].1)
  {
    UsesGrow(slots, k + 1, |slots|, slots[k].1);
  }

  lemma NextSlotFree(t: Table, where: seq<Slot>, slots: seq<(nat, int)>, k: nat)
    requires k < |where| == |slots| && NoDup(where) && FilledTable(t, where, slots, k)
    ensures where[k] !in t
  {
    forall s | s in t ensures s != where[k] {
      var j :| 0 <= j < k && where[..k][j] == s;
      assert where[j] == s;
    }
  }

  lemma FillKeeps(base: State, st: State, where: seq<Slot>, slots: seq<(nat, int)>, k: nat, next: nat)
    requires k < |slots| == |where| && next == k + 1 && Filled(base, st, where, slots, k)
    requires where[k] !in st.newTable && slots[k].1 in st.info
    ensures Filled(base, AddRef(st, where[k], slots[k].1), where, slots, next)
  {
    CountOne(base.info, st.info, slots, k, next);
    TableOne(st.newTable, where, slots, k, next);
    hide Counted, FilledTable;
  }

  lemma CountOne(base: map<int, Info>, info: map<int, Info>, slots: seq<(nat, int)>, k: nat, next: nat)
    requires k < |slots| && next == k + 1 && Counted(base, info, slots, k) && slots[k].1 in info
    ensures var id := slots[k].1; Counted(base, info[id := info[id].(refCount := info[id].refCount + 1)], slots, next)
  {
    forall i ensures Uses(slots, next, i) == Uses(slots, k, i) + if slots[k].1 == i then 1 else 0 { }
    hide Uses;
  }

  lemma TableOne(t: Table, where: seq<Slot>, slots: seq<(nat, int)>, k: nat, next: nat)
    requires k < |where| == |slots| && next == k + 1 && FilledTable(t, where, slots, k) && where[k] !in t
    ensures FilledTable(t[where[k] := slots[k].1], where, slots, next)
  {
    assert where[..next] == where[..k] + [where[k]];
  }

  // ----- what is written -----

  /** The ids in the order in which their entries are written. */
  function Written(st: State, order: seq<int>): seq<int> {
    Select(order, st.info, false) + Select(order, st.info, true)
  }

  lemma {:induction false} NoDupSize(s: seq<int>, t: set<int>)
    requires NoDup(s) && forall x :: x in t <==> x in s
    ensures |t| == |s|
  {
    if s == [] {
      assert forall x: int :: x !in t;
      assert t == {};
    } else {
      var init, x := s[..|s| - 1], s[|s| - 1];
      assert s == init + [x];
      NoDupSize(init, t - {x});
    }
  }

  /** Every entry is written once, the counters are right, and the entries with references are
      those outside the tried table. */
  lemma WrittenOnce(h: Env, st: State, order: seq<int>, slots: seq<Slot>)
    requires Consistent(h, st) && Enumerated(st, order, slots)
    ensures var (news, tried) := (Select(order, st.info, false), Select(order, st.info, true));
      && |news| == st.nNew && |tried| == st.nTried
      && (forall id :: id in news <==> id in st.info && !st.info[id].inTried)
      && (forall id :: id in tried <==> id in st.info && st.info[id].inTried)
      && NoDup(Written(st, order)) && forall id :: id in Written(st, order) <==> id in st.info
  {
    SelectFacts(order, st.info, false);
    SelectFacts(order, st.info, true);
    hide Links, Select;
    var news, tried := Select(order, st.info, false), Select(order, st.info, true);
    forall id | id in st.info ensures st.info[id].refCount != 0 <==> !st.info[id].inTried {
      assert RefOk(st.info[id], id, st.newTable, {});
    }
    NoDupSize(news, NewIds(st.info));
    NoDupSize(tried, TriedIds(st.info));
    NoDupBoth(news, tried);
  }

  lemma NoDupBoth(a: seq<int>, b: seq<int>)
    requires NoDup(a) && NoDup(b) && forall x :: x in a ==> x !in b
    ensures NoDup(a + b) && forall x :: x in a + b <==> x in a || x in b
  {
    var s := a + b;
    forall i, j | 0 <= i < j < |s| ensures s[i] != s[j] {
      if i < |a| <= j {
        assert s[i] in a && s[j] in b;
      }
    }
  }

  /** The saved entries as one list, in the order of the ids. */
  lemma SavedInOrder(st: State, news: seq<int>, tried: seq<int>)
    requires forall i :: 0 <= i < |news| ==> news[i] in st.info
    requires forall i :: 0 <= i < |tried| ==> tried[i] in st.info
    ensures var (ids, all) := (news + tried, Saves(news, st.info) + Saves(tried, st.info));
      |all| == |ids| && forall i :: 0 <= i < |ids| ==> ids[i] in st.info && all[i] == Save(st.info[ids[i]])
  {
  }

  lemma SeparateSaved(h: Env, st: State, ids: seq<int>, all: seq<Saved>, m: nat)
    requires Links(h, st) && NoDup(ids) && |all| == |ids| && forall id :: id in st.info ==> h.valid(st.info[id].addr)
    requires forall i :: 0 <= i < |ids| ==> ids[i] in st.info && all[i] == Save(st.info[ids[i]])
    requires forall i :: m <= i < |ids| ==> st.info[ids[i]].inTried
    ensures Separate(h, all, m)
  {
    hide TriedSlot, RandomOk, NewOk, TriedOk;
    forall i, j | 0 <= i < j < |all| ensures all[i].addr != all[j].addr {
      assert InfoOk(h, st, ids[i]) && InfoOk(h, st, ids[j]);
    }
    forall i, j | m <= i < j < |all| ensures TriedSlot(h, all[i].addr) != TriedSlot(h, all[j].addr) {
      assert InfoOk(h, st, ids[i]) && InfoOk(h, st, ids[j]);
    }
    forall i | 0 <= i < |all| ensures h.valid(all[i].addr) {
      var id := ids[i];
      assert id in st.info && all[i].addr == st.info[id].addr;
    }
  }

  /** The slots that hold an id, among the first k listed. */
  ghost function HeldIn(t: Table, where: seq<Slot>, k: nat, id: int): set<Slot>
    requires k <= |where|
  {
    set s | s in t && t[s] == id && s in where[..k]
  }

  lemma {:induction false} UsesAreSlots(t: Table, news: seq<int>, where: seq<Slot>, slots: seq<(nat, int)>, k: nat, n: nat)
    requires NoDup(where) && k <= |where| == |slots| && NoDup(news) && n < |news|
    requires forall j :: 0 <= j < |where| ==> where[j] in t && 0 <= slots[j].1 < |news| && news[slots[j].1] == t[where[j]]
    ensures Uses(slots, k, n) == |HeldIn(t, where, k, news[n])|
  {
    var id := news[n];
    if k == 0 {
      assert HeldIn(t, where, 0, id) == {};
    } else {
      var i := k - 1;
      UsesAreSlots(t, news, where, slots, i, n);
      assert where[..k] == where[..i] + [where[i]] && where[i] !in where[..i];
      if t[where[i]] == id {
        assert HeldIn(t, where, k, id) == HeldIn(t, where, i, id) + {where[i]};
      } else {
        assert HeldIn(t, where, k, id) == HeldIn(t, where, i, id);
      }
    }
  }

  /** The slot list names, for each occupied slot, the entry that holds it. */
  ghost predicate Located(st: State, news: seq<int>, where: seq<Slot>, slots: seq<(nat, int)>) {
    && NoDup(news) && (forall i :: 0 <= i < |news| ==> news[i] in st.info && !st.info[news[i]].inTried)
    && NoDup(where) && |where| == |slots| && (forall s :: s in where <==> s in st.newTable)
    && (forall j :: 0 <= j < |where| ==>
          0 <= slots[j].1 < |news| && news[slots[j].1] == st.newTable[where[j]] && slots[j].0 == where[j].0)
  }

  lemma WriteLists(h: Env, st: State, news: seq<int>, where: seq<Slot>, slots: seq<(nat, int)>)
    requires Links(h, st) && Refs(st, {}) && NoDup(news) && NoDup(where) && |where| == |slots|
    requires forall id :: id in news <==> id in st.info && !st.info[id].inTried
    requires forall s :: s in where <==> s in st.newTable
    requires forall j :: 0 <= j < |where| ==> slots[j] == SlotEntry(st, news, where[j])
    ensures Located(st, news, where, slots)
  {
    hide Links, Refs, SlotEntry;
    forall i | 0 <= i < |news| ensures news[i] in st.info && !st.info[news[i]].inTried {
      var id := news[i];
      assert id in news;
    }
    forall j | 0 <= j < |where|
      ensures 0 <= slots[j].1 < |news| && news[slots[j].1] == st.newTable[where[j]] && slots[j].0 == where[j].0
    {
      SlotSaved(h, st, news, where[j]);
    }
  }

  /** What an entry is counted equals its references. */
  lemma UsesAreReferences(st: State, news: seq<int>, where: seq<Slot>, slots: seq<(nat, int)>, n: nat)
    requires Refs(st, {}) && Located(st, news, where, slots) && n < |news|
    ensures Uses(slots, |slots|, n) == st.info[news[n]].refCount <= MAX_REFS
  {
    hide Uses;
    UsesAreSlots(st.newTable, news, where, slots, |where|, n);
    assert where[..|where|] == where;
    assert HeldIn(st.newTable, where, |where|, news[n]) == Slots(st.newTable, news[n]);
    assert RefOk(st.info[news[n]], news[n], st.newTable, {});
  }

  lemma FittingSaved(h: Env, st: State, news: seq<int>, all: seq<Saved>, where: seq<Slot>, slots: seq<(nat, int)>)
    requires Links(h, st) && Refs(st, {}) && Located(st, news, where, slots) && |news| <= |all|
    requires forall i :: 0 <= i < |news| ==> all[i] == Save(st.info[news[i]])
    requires forall i :: 0 <= i < |all| ==> h.valid(all[i].addr)
    ensures Fitting(h, all, |news|, where, slots)
  {
    hide NewSlot, Uses, Refs, RandomOk, TriedOk, InfoOk;
    forall j | 0 <= j < |where| ensures where[j] == NewSlot(h, all[slots[j].1].addr, where[j].0) {
      assert where[j] in st.newTable;
    }
    forall n | 0 <= n < |news| ensures Uses(slots, |slots|, n) <= MAX_REFS {
      UsesAreReferences(st, news, where, slots, n);
    }
  }

  lemma SlotSaved(h: Env, st: State, news: seq<int>, s: Slot)
    requires Links(h, st) && Refs(st, {}) && s in st.newTable
    requires forall id :: id in news <==> id in st.info && !st.info[id].inTried
    ensures var k := SlotEntry(st, news, s).1;
      0 <= k < |news| && news[k] == st.newTable[s] && SlotEntry(st, news, s).0 == s.0
  {
    hide NewSlot;
    var id := st.newTable[s];
    assert id in st.info && RefOk(st.info[id], id, st.newTable, {});
    assert s in Slots(st.newTable, id);
  }

  // ----- what comes back -----

  /** The same entry under another id: all that is saved, its references and its table. */
  predicate SameEntry(i: Info, j: Info) {
    Save(j) == Save(i) && j.refCount == i.refCount && j.inTried == i.inTried && j.lastTry == 0 && j.lastCount == 0
  }

  /** The tables hold the same entries in the same slots; entry k had the id ids[k]. */
  ghost predicate Restored(st: State, st': State, ids: seq<int>) {
    && NoDup(ids) && (forall id :: id in ids <==> id in st.info)
    && (forall k :: k in st'.info <==> 0 <= k < |ids|)
    && (forall k :: 0 <= k < |ids| ==> ids[k] in st.info && SameEntry(st.info[ids[k]], st'.info[k]))
    && SameTable(st.tried, st'.tried, ids) && SameTable(st.newTable, st'.newTable, ids)
    && st'.nNew == st.nNew && st'.nTried == st.nTried
  }

  ghost predicate SameTable(t: Table, t': Table, ids: seq<int>) {
    t'.Keys == t.Keys && forall s :: s in t ==> 0 <= t'[s] < |ids| && ids[t'[s]] == t[s]
  }

  lemma NewTableSame(t: Table, t': Table, news: seq<int>, ids: seq<int>, where: seq<Slot>, slots: seq<(nat, int)>)
    requires |where| == |slots| && FilledTable(t', where, slots, |where|) && |news| <= |ids|
    requires forall i :: 0 <= i < |news| ==> ids[i] == news[i]
    requires forall s :: s in where <==> s in t
    requires forall j :: 0 <= j < |where| ==> 0 <= slots[j].1 < |news| && news[slots[j].1] == t[where[j]]
    ensures SameTable(t, t', ids)
  {
    assert where[..|where|] == where;
    forall s | s in t ensures s in t' && 0 <= t'[s] < |ids| && ids[t'[s]] == t[s] {
      var j :| 0 <= j < |where| && where[j] == s;
      assert t'[where[j]] == slots[j].1;
    }
  }

  lemma TriedTableSame(h: Env, st: State, t': Table, ids: seq<int>, all: seq<Saved>, m: nat)
    requires Links(h, st) && InSlots(h, t', all, m) && |all| == |ids| && m <= |ids|
    requires forall i :: 0 <= i < |ids| ==> ids[i] in st.info && all[i] == Save(st.info[ids[i]])
    requires forall id :: id in st.info && st.info[id].inTried ==> exists i :: m <= i < |ids| && ids[i] == id
    requires forall i :: m <= i < |ids| ==> st.info[ids[i]].inTried
    ensures SameTable(st.tried, t', ids)
  {
    hide TriedSlot, RandomOk, NamesOk, NewOk;
    forall s | s in st.tried ensures s in t' && 0 <= t'[s] < |ids| && ids[t'[s]] == st.tried[s] {
      var id := st.tried[s];
      assert id in st.info && st.info[id].inTried && s == TriedSlot(h, st.info[id].addr);
      var i :| m <= i < |ids| && ids[i] == id;
      assert s == TriedSlot(h, all[i].addr);
    }
    forall s | s in t' ensures s in st.tried {
      assert InfoOk(h, st, ids[t'[s]]);
    }
  }

  lemma EntryRestored(st: State, st': State, base: State, ids: seq<int>, all: seq<Saved>, news: seq<int>, where: seq<Slot>,
                      slots: seq<(nat, int)>, k: nat)
    requires k < |ids| == |all| && |news| <= |ids| && ids[k] in st.info && all[k] == Save(st.info[ids[k]])
    requires Refs(st, {}) && Located(st, news, where, slots) && (k < |news| ==> ids[k] == news[k])
    requires st.info[ids[k]].inTried == (k >= |news|)
    requires Loaded(base, all, |news|) && Counted(base.info, st'.info, slots, |slots|)
    ensures k in st'.info && SameEntry(st.info[ids[k]], st'.info[k])
  {
    hide Uses;
    assert k in base.info && base.info[k] == Load(all[k], k >= |news|, k);
    assert st'.info[k] == base.info[k].(refCount := Uses(slots, |slots|, k));
    if k < |news| {
      UsesAreReferences(st, news, where, slots, k);
    } else {
      NoUses(slots, |slots|, |news|, k);
      assert RefOk(st.info[ids[k]], ids[k], st.newTable, {});
    }
  }

  lemma {:induction false} NoUses(slots: seq<(nat, int)>, k: nat, m: nat, id: int)
    requires k <= |slots| && id >= m && forall j :: 0 <= j < |slots| ==> slots[j].1 < m
    ensures Uses(slots, k, id) == 0
  {
    if k > 0 { NoUses(slots, k - 1, m, id); }
  }

  // ----- the counts are in range -----

  lemma {:induction false} RowBound(s: set<Slot>, row: nat, n: nat)
    requires forall x :: x in s ==> x.0 == row && x.1 < n
    ensures |s| <= n
  {
    if n == 0 {
      assert forall x: Slot :: x !in s;
      assert s == {};
    } else {
      RowBound(s - {(row, n - 1)}, row, n - 1);
    }
  }

  lemma {:induction false} SlotsBound(s: set<Slot>, rows: nat, n: nat)
    requires forall x :: x in s ==> x.0 < rows && x.1 < n
    ensures |s| <= rows * n
  {
    if rows == 0 {
      assert forall x: Slot :: x !in s;
      assert s == {};
    } else {
      var low, high := (set x | x in s && x.0 < rows - 1), (set x | x in s && x.0 == rows - 1);
      SlotsBound(low, rows - 1, n);
      RowBound(high, rows - 1, n);
      assert s == low + high;
      assert rows * n == (rows - 1) * n + n;
    }
  }

  predicate HoldsSlot(t: Table, id: int) { Slots(t, id) != {} }

  /** A table has no fewer slots than entries that hold one. */
  lemma {:induction false} HoldersBound(t: Table, ids: set<int>)
    requires forall id :: id in ids ==> HoldsSlot(t, id)
    ensures |ids| <= |t.Keys|
    decreases |ids|
  {
    hide Holds;
    var id := Sets.Pick(ids);
    if ids != {} {
      var s := FreeOthers(t, ids, id);
      HoldersBound(t - {s}, ids - {id});
      assert (t - {s}).Keys == t.Keys - {s};
    }
  }

  lemma FreeOthers(t: Table, ids: set<int>, id: int) returns (s: Slot)
    requires id in ids && forall x :: x in ids ==> HoldsSlot(t, x)
    ensures s in t && forall x :: x in ids - {id} ==> HoldsSlot(t - {s}, x)
  {
    assert HoldsSlot(t, id);
    s :| s in Slots(t, id);
    forall x | x in ids - {id} ensures HoldsSlot(t - {s}, x) {
      assert HoldsSlot(t, x);
      var z :| z in Slots(t, x);
      assert z in Slots(t - {s}, x);
    }
  }

  lemma NewFits(h: Env, st: State)
    requires NewOk(h, st) && Refs(st, {})
    ensures |NewIds(st.info)| <= MAX_NEW
  {
    hide NewSlot;
    forall id | id in NewIds(st.info) ensures HoldsSlot(st.newTable, id) {
      assert RefOk(st.info[id], id, st.newTable, {});
    }
    HoldersBound(st.newTable, NewIds(st.info));
    SlotsBound(st.newTable.Keys, NEW_BUCKETS, BUCKET_SIZE);
  }

  lemma TriedFits(h: Env, st: State)
    requires Links(h, st)
    ensures |TriedIds(st.info)| <= MAX_TRIED
  {
    hide TriedSlot, RandomOk, NamesOk, NewOk;
    forall id | id in TriedIds(st.info) ensures HoldsSlot(st.tried, id) {
      assert InfoOk(h, st, id);
      assert TriedSlot(h, st.info[id].addr) in Slots(st.tried, id);
    }
    HoldersBound(st.tried, TriedIds(st.info));
    SlotsBound(st.tried.Keys, TRIED_BUCKETS, BUCKET_SIZE);
  }

  lemma CountsFit(h: Env, st: State)
    requires Consistent(h, st)
    ensures 0 <= st.nNew <= MAX_NEW && 0 <= st.nTried <= MAX_TRIED
  {
    assert NewOk(h, st);
    hide Links, Refs, TimesOk, NewOk;
    NewFits(h, st);
    TriedFits(h, st);
  }

  // ----- what was written is read back -----

  /** What was saved comes back: the same entries, in the same slots, with the same references, under
      new ids. Nothing is deleted, and the final check passes unless the key is null. */
  lemma ReadOfWrite(h: Env, st: State, order: seq<int>, where: seq<Slot>, asmap: nat, keyIsNull: bool, order': seq<int>)
    requires Consistent(h, st) && Enumerated(st, order, where) && forall id :: id in st.info ==> h.valid(st.info[id].addr)
    requires var f := Write(st, order, where, asmap, keyIsNull); Headed(f) ==> Lists(order', Read(h, f, asmap).info)
    ensures var f := Write(st, order, where, asmap, keyIsNull);
      && Headed(f) && Restored(st, Read(h, f, asmap), Written(st, order)) && Consistent(h, Read(h, f, asmap))
      && Unserialize(h, f, asmap, order') == if keyIsNull then Corrupt else Ready(Read(h, f, asmap))
  {
    hide *;
    var f := Write(st, order, where, asmap, keyIsNull);
    WriteHeaded(h, st, order, where, asmap, keyIsNull);
    ReadRestores(h, st, order, where, asmap, keyIsNull);
    RestoredAccepted(h, st, f, asmap, Written(st, order), order');
    WriteParts(st, order, where, asmap, keyIsNull);
  }

  lemma WriteHeaded(h: Env, st: State, order: seq<int>, where: seq<Slot>, asmap: nat, keyIsNull: bool)
    requires Consistent(h, st) && Enumerated(st, order, where)
    ensures Headed(Write(st, order, where, asmap, keyIsNull))
  {
    CountsFit(h, st);
    WrittenOnce(h, st, order, where);
    WriteParts(st, order, where, asmap, keyIsNull);
    hide Consistent, Enumerated, Select, Write;
  }

  lemma RestoredAccepted(h: Env, st: State, f: File, asmap: nat, ids: seq<int>, order: seq<int>)
    requires Consistent(h, st) && Headed(f) && Lists(order, Read(h, f, asmap).info) && Restored(st, Read(h, f, asmap), ids)
    ensures Consistent(h, Read(h, f, asmap))
    ensures Unserialize(h, f, asmap, order) == if f.keyIsNull then Corrupt else Ready(Read(h, f, asmap))
  {
    hide *;
    var st' := Read(h, f, asmap);
    ReadIsDraft(h, f, asmap);
    RestoredStays(h, st, st', ids);
    RestoredUnshared(h, st, st', ids);
    NothingToPrune(h, st', order);
    PruneDecides(h, f, st', order);
    UnserializeStep(h, f, asmap, order);
  }

  lemma RestoredStays(h: Env, st: State, st': State, ids: seq<int>)
    requires Consistent(h, st) && Restored(st, st', ids)
    ensures Floating(st'.info) == {} && Timed(st'.info)
  {
    hide Links, Counts, SameTable, NoDup;
    forall k | k in st'.info
      ensures Survives(st'.info[k]) && st'.info[k].lastSuccess >= 0 && (st'.info[k].inTried ==> st'.info[k].lastSuccess > 0)
    {
      var id := ids[k];
      assert id in st.info && SameEntry(st.info[id], st'.info[k]) && RefOk(st.info[id], id, st.newTable, {});
    }
  }

  lemma RestoredUnshared(h: Env, st: State, st': State, ids: seq<int>)
    requires Consistent(h, st) && Restored(st, st', ids)
    ensures Unshared(st'.info)
  {
    hide Refs, Counts, TimesOk, SameTable, RandomOk, NamesOk, NewOk, TriedOk, TriedSlot;
    forall i, j | i in st'.info && j in st'.info && i != j ensures st'.info[i].addr != st'.info[j].addr {
      assert SameEntry(st.info[ids[i]], st'.info[i]) && SameEntry(st.info[ids[j]], st'.info[j]);
      assert InfoOk(h, st, ids[i]) && InfoOk(h, st, ids[j]) && ids[i] != ids[j];
    }
  }

  lemma ReadRestores(h: Env, st: State, order: seq<int>, where: seq<Slot>, asmap: nat, keyIsNull: bool)
    requires Consistent(h, st) && Enumerated(st, order, where) && forall id :: id in st.info ==> h.valid(st.info[id].addr)
    requires Headed(Write(st, order, where, asmap, keyIsNull))
    ensures Restored(st, Read(h, Write(st, order, where, asmap, keyIsNull), asmap), Written(st, order))
  {
    hide Links, Refs, Counts, TimesOk, Select, Write, Read, Restored, Written, NoDup, Enumerated;
    var f := Write(st, order, where, asmap, keyIsNull);
    var news, tried := Select(order, st.info, false), Select(order, st.info, true);
    WrittenIs(st, order);
    WrittenOnce(h, st, order, where);
    WriteParts(st, order, where, asmap, keyIsNull);
    Positions(st, news, tried);
    SavedInOrder(st, news, tried);
    ReadBack(h, st, news, tried, where, f, asmap);
  }

  lemma WrittenIs(st: State, order: seq<int>)
    ensures Written(st, order) == Select(order, st.info, false) + Select(order, st.info, true)
  {
  }

  lemma WriteParts(st: State, order: seq<int>, where: seq<Slot>, asmap: nat, keyIsNull: bool)
    requires Enumerated(st, order, where)
    ensures var f := Write(st, order, where, asmap, keyIsNull);
      var (news, tried) := (Select(order, st.info, false), Select(order, st.info, true));
      && (forall i :: 0 <= i < |news| ==> news[i] in st.info) && (forall i :: 0 <= i < |tried| ==> tried[i] in st.info)
      && f.entries == Saves(news, st.info) + Saves(tried, st.info) && f.nNew == st.nNew && f.nTried == st.nTried
      && |f.slots| == |where| && (forall j :: 0 <= j < |where| ==> f.slots[j] == SlotEntry(st, news, where[j]))
      && f.bucketCount == NEW_BUCKETS && f.asmap == asmap && f.keyIsNull == keyIsNull
      && NoDup(where) && (forall s :: s in where <==> s in st.newTable)
  {
    SelectIn(order, st.info, false);
    SelectIn(order, st.info, true);
    hide Select, SlotEntry;
  }

  lemma ReadBack(h: Env, st: State, news: seq<int>, tried: seq<int>, where: seq<Slot>, f: File, asmap: nat)
    requires Consistent(h, st) && forall id :: id in st.info ==> h.valid(st.info[id].addr)
    requires NoDup(news + tried) && (forall id :: id in news + tried <==> id in st.info)
    requires |news| == st.nNew && |tried| == st.nTried
    requires forall id :: id in news <==> id in st.info && !st.info[id].inTried
    requires forall id :: id in tried <==> id in st.info && st.info[id].inTried
    requires Headed(f) && f.nNew == |news| && f.nTried == |tried|
    requires var (ids, all) := (news + tried, f.entries);
      |all| == |ids| && forall i :: 0 <= i < |ids| ==> ids[i] in st.info && all[i] == Save(st.info[ids[i]])
    requires NoDup(where) && (forall s :: s in where <==> s in st.newTable)
    requires |f.slots| == |where| && (forall j :: 0 <= j < |where| ==> f.slots[j] == SlotEntry(st, news, where[j]))
    requires f.bucketCount == NEW_BUCKETS && f.asmap == asmap
    ensures Restored(st, Read(h, f, asmap), news + tried)
  {
    hide Links, Refs, Counts, TimesOk, ReadSlots, ReadTried, ReadNew, Loaded, Filled, InSlots, Fitting, Located, SlotEntry,
      Separate, Restored, Taken;
    var ids, all, slots := news + tried, f.entries, f.slots;
    var first, second := all[..|news|], all[|news|..];
    assert all == first + second;
    Positions(st, news, tried);
    NoDupPrefix(news, tried);
    SeparateSaved(h, st, ids, all, |news|);
    TakenAll(h, first, second);
    ReadTriedLoads(h, first, second);
    var base := ReadTried(h, ReadNew(h, first), second);
    WriteLists(h, st, news, where, slots);
    AllValid(h, all, |news|);
    FittingSaved(h, st, news, all, where, slots);
    ReadSlotsFills(h, base, all, |news|, where, slots, |slots|);
    assert slots[..|slots|] == slots && all[|news|..|news| + |tried|] == second;
    assert Read(h, f, asmap) == ReadSlots(h, base, slots, true);
    Finish(h, st, Read(h, f, asmap), base, ids, all, news, where, slots);
  }

  lemma NoDupPrefix(a: seq<int>, b: seq<int>)
    requires NoDup(a + b)
    ensures NoDup(a) && forall i :: 0 <= i < |a| ==> (a + b)[i] == a[i]
  {
    var s := a + b;
    assert forall i :: 0 <= i < |a| ==> s[i] == a[i];
  }

  lemma AllValid(h: Env, all: seq<Saved>, m: nat)
    requires Separate(h, all, m)
    ensures forall i :: 0 <= i < |all| ==> h.valid(all[i].addr)
  {
  }

  lemma Positions(st: State, news: seq<int>, tried: seq<int>)
    requires forall id :: id in news <==> id in st.info && !st.info[id].inTried
    requires forall id :: id in tried <==> id in st.info && st.info[id].inTried
    ensures forall i :: 0 <= i < |news| ==> news[i] in st.info && !st.info[news[i]].inTried
    ensures forall i :: 0 <= i < |tried| ==> tried[i] in st.info && st.info[tried[i]].inTried
    ensures var ids := news + tried;
      && (forall i :: 0 <= i < |ids| ==> ids[i] in st.info && st.info[ids[i]].inTried == (i >= |news|))
      && forall id :: id in st.info && st.info[id].inTried ==> exists i :: |news| <= i < |ids| && ids[i] == id
  {
    var ids := news + tried;
    forall i | 0 <= i < |news| ensures news[i] in st.info && !st.info[news[i]].inTried {
      var id := news[i];
      assert id in news;
    }
    forall i | 0 <= i < |tried| ensures tried[i] in st.info && st.info[tried[i]].inTried {
      var id := tried[i];
      assert id in tried;
    }
    forall id | id in st.info && st.info[id].inTried ensures exists i :: |news| <= i < |ids| && ids[i] == id {
      var j :| 0 <= j < |tried| && tried[j] == id;
      assert ids[|news| + j] == id;
    }
  }

  lemma Finish(h: Env, st: State, st': State, base: State, ids: seq<int>, all: seq<Saved>, news: seq<int>, where: seq<Slot>,
               slots: seq<(nat, int)>)
    requires Consistent(h, st) && Located(st, news, where, slots) && |news| <= |ids| == |all| && NoDup(ids)
    requires forall id :: id in ids <==> id in st.info
    requires forall i :: 0 <= i < |ids| ==>
      ids[i] in st.info && all[i] == Save(st.info[ids[i]]) && st.info[ids[i]].inTried == (i >= |news|)
    requires forall i :: 0 <= i < |news| ==> ids[i] == news[i]
    requires forall id :: id in st.info && st.info[id].inTried ==> exists i :: |news| <= i < |ids| && ids[i] == id
    requires |news| == st.nNew && |ids| - |news| == st.nTried
    requires Loaded(base, all, |news|) && InSlots(h, base.tried, all, |news|) && Filled(base, st', where, slots, |slots|)
    ensures Restored(st, st', ids)
  {
    hide Links, Refs, Counts, TimesOk, Uses, Counted, FilledTable, InSlots, NoDup, TriedSlot;
    forall k | 0 <= k < |ids| ensures k in st'.info && SameEntry(st.info[ids[k]], st'.info[k]) {
      EntryRestored(st, st', base, ids, all, news, where, slots, k);
    }
    NewTableSame(st.newTable, st'.newTable, news, ids, where, slots);
    TriedTableSame(h, st, st'.tried, ids, all, |news|);
    KeysKept(base, st', all, |news|, slots);
    hide Located, SameTable;
  }

  lemma KeysKept(base: State, st': State, all: seq<Saved>, m: nat, slots: seq<(nat, int)>)
    requires Loaded(base, all, m) && Counted(base.info, st'.info, slots, |slots|)
    ensures forall k :: k in st'.info <==> 0 <= k < |all|
  {
    hide Uses;
  }

  // ----- reading under another bucketing -----

  predicate AddrsDiffer(es: seq<Saved>) { forall i, j :: 0 <= i < j < |es| ==> es[i].addr != es[j].addr }

  predicate TimesSaved(es: seq<Saved>, m: int) {
    forall i :: 0 <= i < |es| ==> es[i].lastSuccess >= 0 && (i >= m ==> es[i].lastSuccess > 0)
  }

  /** Of the tried entries some are taken, each once. */
  lemma {:induction false} TakenAmong(h: Env, es: seq<Saved>)
    ensures forall i :: 0 <= i < |Taken(h, es)| ==> Taken(h, es)[i] in es
    ensures AddrsDiffer(es) ==> AddrsDiffer(Taken(h, es))
  {
    if es != [] {
      hide SlotTaken;
      var init, e := es[..|es| - 1], es[|es| - 1];
      TakenAmong(h, init);
      assert es == init + [e];
      var r := Taken(h, init);
      if AddrsDiffer(es) {
        forall i | 0 <= i < |r| ensures r[i].addr != e.addr {
          var k :| 0 <= k < |init| && init[k] == r[i];
          assert es[k] == r[i];
        }
      }
    }
  }

  lemma AllEntriesDiffer(h: Env, f: File)
    requires Headed(f) && AddrsDiffer(f.entries)
    ensures AddrsDiffer(AllEntries(h, f))
  {
    var es, all := f.entries[f.nNew..f.nNew + f.nTried], AllEntries(h, f);
    TakenAmong(h, es);
    hide Taken;
    assert forall k :: 0 <= k < |es| ==> es[k] == f.entries[f.nNew + k];
    forall i, j | 0 <= i < j < |all| ensures all[i].addr != all[j].addr {
      if i < f.nNew <= j {
        var k :| 0 <= k < |es| && es[k] == all[j];
        assert f.entries[i] == all[i] && f.entries[f.nNew + k] == all[j];
      }
    }
  }

  lemma AllEntriesTimes(h: Env, f: File)
    requires Headed(f) && TimesSaved(f.entries, f.nNew)
    ensures TimesSaved(AllEntries(h, f), f.nNew)
  {
    var es, all := f.entries[f.nNew..f.nNew + f.nTried], AllEntries(h, f);
    TakenAmong(h, es);
    hide Taken;
    forall i | 0 <= i < |all| ensures all[i].lastSuccess >= 0 && (i >= f.nNew ==> all[i].lastSuccess > 0) {
      if i < f.nNew {
        assert all[i] == f.entries[i];
      } else {
        var k :| 0 <= k < |es| && es[k] == all[i];
        assert f.entries[f.nNew + k] == all[i];
      }
    }
  }

  lemma HoldsGood(h: Env, f: File, st: State)
    requires Headed(f) && Holds(h, f, st) && AddrsDiffer(AllEntries(h, f)) && TimesSaved(AllEntries(h, f), f.nNew)
    ensures Unshared(st.info) && Timed(st.info)
  {
    hide AllEntries, LastNamed, Survives;
    var all := AllEntries(h, f);
    forall i, j | i in st.info && j in st.info && i != j ensures st.info[i].addr != st.info[j].addr {
      assert st.info[i].addr == all[i].addr && st.info[j].addr == all[j].addr;
    }
    forall i | i in st.info ensures st.info[i].lastSuccess >= 0 && (st.info[i].inTried ==> st.info[i].lastSuccess > 0) {
      assert st.info[i].lastSuccess == all[i].lastSuccess && st.info[i].inTried == (i >= f.nNew);
    }
  }

  lemma SavedGood(h: Env, st: State, ids: seq<int>, all: seq<Saved>, m: nat)
    requires Links(h, st) && TimesOk(st.info) && NoDup(ids) && |all| == |ids|
    requires forall i :: 0 <= i < |ids| ==> ids[i] in st.info && all[i] == Save(st.info[ids[i]])
    requires forall i :: m <= i < |ids| ==> st.info[ids[i]].inTried
    ensures AddrsDiffer(all) && TimesSaved(all, m)
  {
    hide TriedSlot, RandomOk, NamesOk, NewOk, TriedOk;
    forall i, j | 0 <= i < j < |all| ensures all[i].addr != all[j].addr {
      assert InfoOk(h, st, ids[i]) && InfoOk(h, st, ids[j]);
    }
    hide Links;
    forall i | 0 <= i < |all| ensures all[i].lastSuccess >= 0 && (i >= m ==> all[i].lastSuccess > 0) {
      var id := ids[i];
      assert id in st.info && all[i] == Save(st.info[id]);
    }
  }

  lemma WriteGood(h: Env, st: State, order: seq<int>, where: seq<Slot>, asmap: nat, keyIsNull: bool)
    requires Consistent(h, st) && Enumerated(st, order, where)
    ensures var f := Write(st, order, where, asmap, keyIsNull); AddrsDiffer(f.entries) && TimesSaved(f.entries, f.nNew)
  {
    hide Links, Refs, Counts, TimesOk, Select, Write, Written, NoDup, Enumerated, AddrsDiffer, TimesSaved;
    var f := Write(st, order, where, asmap, keyIsNull);
    var news, tried := Select(order, st.info, false), Select(order, st.info, true);
    WrittenIs(st, order);
    WrittenOnce(h, st, order, where);
    WriteParts(st, order, where, asmap, keyIsNull);
    Positions(st, news, tried);
    SavedInOrder(st, news, tried);
    SavedGood(h, st, news + tried, f.entries, |news|);
  }

  /** Written tables are accepted under any key, grouping of addresses and AS map, whatever entries
      are then dropped for want of a slot. */
  lemma WrittenAccepted(h: Env, st: State, order: seq<int>, where: seq<Slot>, asmap: nat, keyIsNull: bool, h': Env, asmap': nat,
                        order': seq<int>)
    requires Consistent(h, st) && Enumerated(st, order, where)
    requires var f := Write(st, order, where, asmap, keyIsNull); Headed(f) ==> Lists(order', Read(h', f, asmap').info)
    ensures var r := Unserialize(h', Write(st, order, where, asmap, keyIsNull), asmap', order');
      (r.Ready? <==> !keyIsNull) && (r.Ready? ==> Consistent(h', r.st))
  {
    hide *;
    var f := Write(st, order, where, asmap, keyIsNull);
    WriteHeaded(h, st, order, where, asmap, keyIsNull);
    WriteGood(h, st, order, where, asmap, keyIsNull);
    WriteParts(st, order, where, asmap, keyIsNull);
    AllEntriesDiffer(h', f);
    AllEntriesTimes(h', f);
    ReadIsDraft(h', f, asmap');
    HoldsGood(h', f, Read(h', f, asmap'));
    UnserializeIff(h', f, asmap', order');
  }
}
