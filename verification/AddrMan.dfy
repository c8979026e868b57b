/** The address manager as an object: maps and vectors that are reassigned and two bucket
    arrays that are written in place. It stands for a value of AddrOps.Man. */
module AddrMan {
  import opened AddrTables
  import Ops = AddrOps
  import Wrappers

  /** What a bucket array holds: the slots that are not -1. */
  ghost function TableOf(a: array2<int>): Table
    reads a
  {
    map b: nat, p: nat | b < a.Length0 && p < a.Length1 && a[b, p] != -1 :: (b, p) := a[b, p]
  }

  predicate InArray(a: array2<int>, s: Slot) { s.0 < a.Length0 && s.1 < a.Length1 }

  method Put(a: array2<int>, s: Slot, id: int)
    requires InArray(a, s) && id != -1
    modifies a
    ensures TableOf(a) == old(TableOf(a))[s := id]
  {
    a[s.0, s.1] := id;
  }

  method Clear(a: array2<int>, s: Slot)
    requires InArray(a, s)
    modifies a
    ensures TableOf(a) == old(TableOf(a)) - {s}
  {
    a[s.0, s.1] := -1;
  }

  /** An array cell against the table. */
  lemma Cell(a: array2<int>, s: Slot)
    requires InArray(a, s)
    ensures if a[s.0, s.1] == -1 then s !in TableOf(a) else s in TableOf(a) && TableOf(a)[s] == a[s.0, s.1]
  {
  }

  class AddrManImpl {
    var mapInfo: map<int, Info>
    var mapAddr: map<Service, int>
    var vRandom: seq<int>
    var nTried: int
    var nNew: int
    var nIdCount: int
    var lastGood: int
    var triedCollisions: set<int>
    const vvTried: array2<int>
    const vvNew: array2<int>
    const h: Env

    ghost predicate Shape() {
      && vvTried != vvNew
      && vvTried.Length0 == TRIED_BUCKETS && vvTried.Length1 == BUCKET_SIZE
      && vvNew.Length0 == NEW_BUCKETS && vvNew.Length1 == BUCKET_SIZE
    }

    ghost function Tables(): State
      reads this, vvTried, vvNew
    {
      State(mapInfo, mapAddr, vRandom, TableOf(vvTried), TableOf(vvNew), nTried, nNew, nIdCount)
    }

    ghost function Model(): Ops.Man
      reads this, vvTried, vvNew
    {
      Ops.Man(Tables(), lastGood, triedCollisions)
    }

    constructor (h: Env)
      ensures Shape() && this.h == h && fresh(vvTried) && fresh(vvNew)
      ensures Model() == Ops.Empty() && Ops.Sound(h, Model())
    {
      mapInfo, mapAddr, vRandom := map[], map[], [];
      nTried, nNew, nIdCount, lastGood, triedCollisions := 0, 0, 0, 1, {};
      vvTried := new int[TRIED_BUCKETS, BUCKET_SIZE]((b, p) => -1);
      vvNew := new int[NEW_BUCKETS, BUCKET_SIZE]((b, p) => -1);
      this.h := h;
      new;
      assert TableOf(vvTried) == map[] && TableOf(vvNew) == map[];
      Ops.EmptySound(h);
    }

    method SwapRandomPlaces(i: int, j: int)
      requires Shape() && RandomOk(Tables()) && 0 <= i < |vRandom| && 0 <= j < |vRandom|
      modifies this`mapInfo, this`vRandom
      ensures Tables() == SwapRandom(old(Tables()), i, j)
    {
      if i == j { return; }
      var id1, id2 := vRandom[i], vRandom[j];
      assert id1 in mapInfo && id2 in mapInfo;
      mapInfo := mapInfo[id1 := mapInfo[id1].(randomPos := j)];
      mapInfo := mapInfo[id2 := mapInfo[id2].(randomPos := i)];
      vRandom := vRandom[i := id2];
      vRandom := vRandom[j := id1];
    }

    method CreateEntry(addr: Service, services: set<nat>, time: int, source: NetAddr) returns (id: int)
      requires Shape()
      modifies this`nIdCount, this`mapInfo, this`mapAddr, this`vRandom
      ensures id == old(nIdCount) && Tables() == Create(old(Tables()), addr, services, time, source)
    {
      id := nIdCount;
      nIdCount := nIdCount + 1;
      mapInfo := mapInfo[id := Info(addr, services, time, source, 0, 0, 0, 0, 0, false, -1)];
      mapAddr := mapAddr[addr := id];
      mapInfo := mapInfo[id := mapInfo[id].(randomPos := |vRandom|)];
      vRandom := vRandom + [id];
    }

    /** The entry must be in neither table. */
    method DeleteEntry(id: int)
      requires Shape() && RandomOk(Tables()) && id in mapInfo && !mapInfo[id].inTried && mapInfo[id].refCount == 0
      requires 0 <= mapInfo[id].randomPos < |vRandom|
      modifies this`mapInfo, this`mapAddr, this`vRandom, this`nNew
      ensures Tables() == Delete(old(Tables()), id)
    {
      hide TableOf;
      ghost var st := Tables();
      var addr := mapInfo[id].addr;
      var i, j := mapInfo[id].randomPos, |vRandom| - 1;
      assert j == Last(st);
      SwapRandomPlaces(i, j);
      ghost var sw := Tables();
      assert sw == SwapRandom(st, i, j);
      assert sw.info[id].addr == addr;
      vRandom := vRandom[..|vRandom| - 1];
      mapAddr := mapAddr - {addr};
      mapInfo := mapInfo - {id};
      nNew := nNew - 1;
      assert Tables() == Pop(sw, id);
    }

    method ClearNewSlot(s: Slot, ghost floating: set<int>)
      requires Shape() && InArray(vvNew, s) && Links(h, Tables()) && Refs(Tables(), floating)
      modifies this`mapInfo, this`mapAddr, this`vRandom, this`nNew, vvNew
      ensures Tables() == Ops.ClearNew(h, old(Tables()), s)
    {
      hide TableOf, Links, Refs, Delete, RandomOk;
      ghost var st := Tables();
      Cell(vvNew, s);
      if vvNew[s.0, s.1] != -1 {
        var id := vvNew[s.0, s.1];
        LinksNew(h, st, s);
        RefsHolder(st, floating, s);
        assert mapInfo[id].refCount > 0;
        DropRefLinks(h, st, s);
        mapInfo := mapInfo[id := mapInfo[id].(refCount := mapInfo[id].refCount - 1)];
        Clear(vvNew, s);
        ghost var d := Tables();
        assert d == DropRef(st, s);
        LinksInfo(h, d, id);
        LinksRandom(h, d);
        if mapInfo[id].refCount == 0 {
          DeleteEntry(id);
        }
      }
    }

    /** Entries in the new table sit where their address belongs. */
    lemma RefsPlaced(id: int)
      requires Links(h, Tables()) && Refs(Tables(), {}) && id in mapInfo
      ensures id != -1 && mapInfo[id].refCount == |Slots(TableOf(vvNew), id)|
      ensures forall s :: s in Slots(TableOf(vvNew), id) ==> s == NewSlot(h, mapInfo[id].addr, s.0)
    {
      assert InfoOk(h, Tables(), id) && RefOk(mapInfo[id], id, TableOf(vvNew), {});
    }

    method LiftEntry(id: int)
      requires Shape() && Links(h, Tables()) && Refs(Tables(), {}) && id in mapInfo
      modifies this`mapInfo, this`nNew, vvNew
      ensures Tables() == Ops.Lift(old(Tables()), id)
    {
      hide TableOf, Links, Refs;
      RefsPlaced(id);
      var refs := RemoveFromBuckets(vvNew, h, mapInfo[id], id);
      mapInfo := mapInfo[id := mapInfo[id].(refCount := refs)];
      nNew := nNew - 1;
    }

    method UntryEntry(slot: Slot)
      requires Shape() && InArray(vvTried, slot) && vvTried[slot.0, slot.1] != -1 && vvTried[slot.0, slot.1] in mapInfo
      modifies this`mapInfo, this`nTried, vvTried
      ensures slot in old(Tables()).tried && Tables() == Untry(old(Tables()), slot)
    {
      hide TableOf;
      Cell(vvTried, slot);
      var id := vvTried[slot.0, slot.1];
      mapInfo := mapInfo[id := mapInfo[id].(inTried := false)];
      Clear(vvTried, slot);
      nTried := nTried - 1;
    }

    method AddRefEntry(s: Slot, id: int)
      requires Shape() && InArray(vvNew, s) && id in mapInfo && id != -1
      modifies this`mapInfo, vvNew
      ensures Tables() == AddRef(old(Tables()), s, id)
    {
      hide TableOf;
      mapInfo := mapInfo[id := mapInfo[id].(refCount := mapInfo[id].refCount + 1)];
      Put(vvNew, s, id);
    }

    method PutTriedEntry(id: int)
      requires Shape() && id in mapInfo && id != -1
      modifies this`mapInfo, this`nTried, vvTried
      ensures Tables() == PutTried(h, old(Tables()), id)
    {
      hide TableOf;
      Put(vvTried, TriedSlot(h, mapInfo[id].addr), id);
      nTried := nTried + 1;
      mapInfo := mapInfo[id := mapInfo[id].(inTried := true)];
    }

    /** Enter an unreferenced entry into the new bucket of its own source, whoever is there. */
    method EnterHome(id: int, ghost floating: set<int>)
      requires Shape() && Links(h, Tables()) && Refs(Tables(), floating) && id in mapInfo && id != -1
      requires forall s :: s in TableOf(vvNew) ==> TableOf(vvNew)[s] != id
      modifies this`mapInfo, this`mapAddr, this`vRandom, this`nNew, vvNew
      ensures var st, s := old(Tables()), Ops.HomeSlot(h, old(mapInfo[id]));
              && id in Ops.ClearNew(h, st, s).info
              && Tables() == Recount(AddRef(Ops.ClearNew(h, st, s), s, id), 1)
    {
      hide TableOf, Links, Refs, Ops.ClearNew;
      ghost var st := Tables();
      var s := Ops.HomeSlot(h, mapInfo[id]);
      Ops.ClearNewSpares(h, st, s);
      ClearNewSlot(s, floating);
      ghost var c := Tables();
      assert s !in c.newTable;
      AddRefEntry(s, id);
      nNew := nNew + 1;
      assert Tables() == Recount(AddRef(c, s, id), 1);
    }

    /** Whoever holds the tried slot moves back into its new bucket. */
    method EvictFrom(slot: Slot, ghost floating: set<int>)
      requires Shape() && InArray(vvTried, slot) && vvTried[slot.0, slot.1] != -1
      requires Links(h, Tables()) && Refs(Tables(), floating)
      requires |Slots(TableOf(vvNew), vvTried[slot.0, slot.1])| == 0
      modifies this`mapInfo, this`mapAddr, this`vRandom, this`nNew, this`nTried, vvNew, vvTried
      ensures slot in old(Tables()).tried && Tables() == Ops.Evict(h, old(Tables()), slot)
    {
      hide TableOf, Links, Refs, Ops.ClearNew;
      ghost var st := Tables();
      var id := vvTried[slot.0, slot.1];
      Cell(vvTried, slot);
      LinksTried(h, st, slot);
      assert id in mapInfo;
      UntryLinks(h, st, slot);
      UntryRefs(st, slot, floating);
      Unreferenced(st.newTable, id);
      UntryEntry(slot);
      EnterHome(id, floating + {id});
    }

    method VacateSlot(slot: Slot, ghost floating: set<int>)
      requires Shape() && InArray(vvTried, slot) && Links(h, Tables()) && Refs(Tables(), floating)
      requires slot in Tables().tried ==> |Slots(TableOf(vvNew), Tables().tried[slot])| == 0
      modifies this`mapInfo, this`mapAddr, this`vRandom, this`nNew, this`nTried, vvNew, vvTried
      ensures Tables() == Ops.Vacate(h, old(Tables()), slot)
    {
      hide TableOf, Links, Refs, Ops.Evict;
      Cell(vvTried, slot);
      if vvTried[slot.0, slot.1] != -1 {
        EvictFrom(slot, floating);
      }
    }

    method MakeTriedEntry(id: int)
      requires Shape() && Inv(h, Tables(), {}, 0) && id in mapInfo && !mapInfo[id].inTried
      modifies this`mapInfo, this`mapAddr, this`vRandom, this`nNew, this`nTried, vvNew, vvTried
      ensures Tables() == Ops.MakeTried(h, old(Tables()), id)
    {
      hide TableOf, Links, Refs, Counts, Ops.Vacate;
      ghost var st := Tables();
      var slot := TriedSlot(h, mapInfo[id].addr);
      LinksInfo(h, st, id);
      Ops.LiftAndVacate(h, st, id, slot);
      LiftEntry(id);
      assert mapInfo[id].refCount == 0;
      VacateSlot(slot, {id});
      ghost var v := Tables();
      assert slot !in v.tried;
      PutTriedEntry(id);
      assert Tables() == PutTried(h, v, id);
    }

    function FindId(addr: Service): (r: Wrappers.Option<int>)
      reads this, vvTried, vvNew
      ensures r == Ops.Find(Tables(), addr)
    {
      if addr in mapAddr && mapAddr[addr] in mapInfo then Wrappers.Some(mapAddr[addr]) else Wrappers.None
    }

    method TouchEntry(id: int, i: Info)
      requires Shape() && id in mapInfo
      requires i.addr == mapInfo[id].addr && i.source == mapInfo[id].source && i.refCount == mapInfo[id].refCount
      requires i.inTried == mapInfo[id].inTried && i.randomPos == mapInfo[id].randomPos
      modifies this`mapInfo
      ensures Tables() == Touch(old(Tables()), id, i)
    {
      hide TableOf;
      mapInfo := mapInfo[id := i];
    }

    method InsertEntry(id: int, source: NetAddr, now: int, ghost floating: set<int>) returns (inserted: bool)
      requires Shape() && Links(h, Tables()) && Refs(Tables(), floating) && id in mapInfo && InfoOk(h, Tables(), id)
      requires !mapInfo[id].inTried
      modifies this`mapInfo, this`mapAddr, this`vRandom, this`nNew, vvNew
      ensures Tables() == Ops.Insert(h, old(Tables()), id, source, now).0
      ensures inserted == Ops.Insert(h, old(Tables()), id, source, now).1
    {
      hide TableOf, Links, Refs, Ops.ClearNew, Delete;
      ghost var st := Tables();
      LinksRandom(h, st);
      var s := NewSlot(h, mapInfo[id].addr, NewBucket(h, mapInfo[id].addr, source));
      var there := vvNew[s.0, s.1];
      Cell(vvNew, s);
      if there != -1 { LinksNew(h, st, s); }
      inserted := there == -1;
      if there != id {
        if !inserted {
          var existing := mapInfo[there];
          if Ops.IsTerrible(existing, now) || (existing.refCount > 1 && mapInfo[id].refCount == 0) {
            inserted := true;
          }
        }
        if inserted {
          Ops.ClearNewSpares(h, st, s);
          ClearNewSlot(s, floating);
          AddRefEntry(s, id);
        } else if mapInfo[id].refCount == 0 {
          DeleteEntry(id);
        }
      }
    }

    method AddKnownAddress(id: int, a: Ops.Address, source: NetAddr, penalty: int, now: int, draw: nat)
      returns (inserted: bool)
      requires Shape() && Inv(h, Tables(), {}, 0) && id in mapInfo
      modifies this`mapInfo, this`mapAddr, this`vRandom, this`nNew, vvNew
      ensures Tables() == Ops.AddKnown(h, old(Tables()), id, a, source, penalty, now, draw).0
      ensures inserted == Ops.AddKnown(h, old(Tables()), id, a, source, penalty, now, draw).1
    {
      hide TableOf, Links, Refs, Counts, Ops.Insert;
      ghost var st := Tables();
      var i := Ops.Refresh(mapInfo[id], a, penalty, now);
      TouchKeeps(h, st, id, i, {}, 0);
      TouchEntry(id, i);
      if a.time <= i.time { return false; }
      if i.inTried { return false; }
      if i.refCount == MAX_REFS { return false; }
      if !Ops.Lucky(i, draw) { return false; }
      LinksInfo(h, Tables(), id);
      inserted := InsertEntry(id, source, now, {});
    }

    method AddUnknownAddress(a: Ops.Address, source: NetAddr, penalty: int, now: int) returns (inserted: bool)
      requires Shape() && Inv(h, Tables(), {}, 0) && nIdCount >= 0 && Ops.Find(Tables(), a.service).None?
      modifies this`mapInfo, this`mapAddr, this`vRandom, this`nNew, this`nIdCount, vvNew
      ensures Tables() == Ops.AddUnknown(h, old(Tables()), a, source, penalty, now).0
      ensures inserted == Ops.AddUnknown(h, old(Tables()), a, source, penalty, now).1
    {
      hide TableOf, Links, Refs, Counts, Ops.Insert;
      ghost var st := Tables();
      Ops.NewEntryKeeps(h, st, a, source, penalty);
      var id := NewEntryFor(a, source, penalty);
      inserted := InsertEntry(id, source, now, {id});
    }

    method NewEntryFor(a: Ops.Address, source: NetAddr, penalty: int) returns (id: int)
      requires Shape()
      modifies this`mapInfo, this`mapAddr, this`vRandom, this`nNew, this`nIdCount
      ensures id == old(nIdCount) && Tables() == Ops.NewEntry(old(Tables()), a, source, penalty)
    {
      var time := Ops.Max(0, a.time - penalty);
      id := CreateEntry(a.service, a.services, time, source);
      nNew := nNew + 1;
    }

    method AddSingleAddress(a: Ops.Address, source: NetAddr, timePenalty: int, now: int, draw: nat)
      returns (inserted: bool)
      requires Shape() && Inv(h, Tables(), {}, 0) && nIdCount >= 0
      modifies this`mapInfo, this`mapAddr, this`vRandom, this`nNew, this`nIdCount, vvNew
      ensures Tables() == Ops.AddSingle(h, old(Tables()), a, source, timePenalty, now, draw).0
      ensures inserted == Ops.AddSingle(h, old(Tables()), a, source, timePenalty, now, draw).1
    {
      hide TableOf, Inv, Ops.AddKnown, Ops.AddUnknown;
      if !h.routable(a.service) { return false; }
      var found := FindId(a.service);
      var penalty := if a.service.ip == source then 0 else timePenalty;
      if found.Some? {
        inserted := AddKnownAddress(found.value, a, source, penalty, now, draw);
      } else {
        inserted := AddUnknownAddress(a, source, penalty, now);
      }
    }

    method AddNextAddress(a: Ops.Address, source: NetAddr, timePenalty: int, now: int, draw: nat, before: nat)
      returns (added: nat)
      requires Shape() && Inv(h, Tables(), {}, 0) && nIdCount >= 0
      modifies this`mapInfo, this`mapAddr, this`vRandom, this`nNew, this`nIdCount, vvNew
      ensures Ops.Batch(Tables(), added) == Ops.AddNext(h, Ops.Batch(old(Tables()), before), a, source, timePenalty, now, draw)
      ensures Inv(h, Tables(), {}, 0) && nIdCount >= 0
    {
      hide TableOf, Inv, Ops.AddSingle;
      ghost var st := Tables();
      Ops.AddSingleKeeps(h, st, a, source, timePenalty, now, draw);
      var inserted := AddSingleAddress(a, source, timePenalty, now, draw);
      added := if inserted then before + 1 else before;
    }

    method AddAddresses(addrs: seq<Ops.Address>, source: NetAddr, timePenalty: int, clock: nat -> int, dice: nat -> nat)
      returns (added: nat)
      requires Shape() && Inv(h, Tables(), {}, 0) && nIdCount >= 0
      modifies this`mapInfo, this`mapAddr, this`vRandom, this`nNew, this`nIdCount, vvNew
      ensures Ops.Batch(Tables(), added) == Ops.AddMany(h, old(Tables()), addrs, |addrs|, source, timePenalty, clock, dice)
    {
      hide TableOf, Inv, Ops.AddNext;
      added := 0;
      var k := 0;
      while k < |addrs|
        invariant 0 <= k <= |addrs| && Inv(h, Tables(), {}, 0) && nIdCount >= 0
        invariant Ops.Batch(Tables(), added) == Ops.AddMany(h, old(Tables()), addrs, k, source, timePenalty, clock, dice)
      {
        added := AddNextAddress(addrs[k], source, timePenalty, clock(k), dice(k), added);
        k := k + 1;
      }
    }

    method PromoteEntry(id: int, testBeforeEvict: bool) returns (moved: bool)
      requires Shape() && Inv(h, Tables(), {}, 0) && id in mapInfo
      modifies this`mapInfo, this`mapAddr, this`vRandom, this`nNew, this`nTried, this`triedCollisions, vvNew, vvTried
      ensures Model() == Ops.Promote(h, old(Model()), id, testBeforeEvict).0
      ensures moved == Ops.Promote(h, old(Model()), id, testBeforeEvict).1
    {
      hide TableOf, Inv, Ops.MakeTried;
      var i := mapInfo[id];
      if i.inTried { return false; }
      if !(i.refCount > 0) { return false; }
      var slot := TriedSlot(h, i.addr);
      Cell(vvTried, slot);
      if testBeforeEvict && vvTried[slot.0, slot.1] != -1 {
        if |triedCollisions| < Ops.MAX_COLLISIONS {
          triedCollisions := triedCollisions + {id};
        }
        return false;
      }
      MakeTriedEntry(id);
      return true;
    }

    method GoodAddress(a: Service, testBeforeEvict: bool, time: int) returns (moved: bool)
      requires Shape() && Inv(h, Tables(), {}, 0)
      modifies this, vvNew, vvTried
      ensures Model() == Ops.Good(h, old(Model()), a, testBeforeEvict, time).0
      ensures moved == Ops.Good(h, old(Model()), a, testBeforeEvict, time).1
    {
      hide TableOf, Inv, Ops.Promote;
      ghost var st := Tables();
      lastGood := time;
      var found := FindId(a);
      if found.None? { return false; }
      var id := found.value;
      TouchEntry(id, mapInfo[id].(lastSuccess := time, lastTry := time, attempts := 0));
      Ops.SucceededKeeps(h, st, id, time);
      moved := PromoteEntry(id, testBeforeEvict);
    }

    method AttemptAddress(a: Service, countFailure: bool, time: int)
      requires Shape()
      modifies this`mapInfo
      ensures Model() == Ops.Attempt(old(Model()), a, countFailure, time)
    {
      var found := FindId(a);
      if found.None? { return; }
      var i := mapInfo[found.value].(lastTry := time);
      if countFailure && i.lastCount < lastGood {
        i := i.(lastCount := time, attempts := i.attempts + 1);
      }
      TouchEntry(found.value, i);
    }

    method ConnectedAddress(a: Service, time: int)
      requires Shape()
      modifies this`mapInfo
      ensures Model() == Ops.Connected(old(Model()), a, time)
    {
      var found := FindId(a);
      if found.None? { return; }
      TouchEntry(found.value, Ops.Seen(mapInfo[found.value], time));
    }

    method SetServicesOf(a: Service, services: set<nat>)
      requires Shape()
      modifies this`mapInfo
      ensures Model() == Ops.SetServices(old(Model()), a, services)
    {
      var found := FindId(a);
      if found.None? { return; }
      TouchEntry(found.value, mapInfo[found.value].(services := services));
    }

    method JudgeCollision(id: int, now: int) returns (v: Ops.Verdict)
      requires Shape() && Links(h, Tables())
      ensures v == Ops.Judge(h, Tables(), id, now)
    {
      hide TableOf, Links;
      if id !in mapInfo { return Ops.Forget; }
      var i := mapInfo[id];
      var slot := TriedSlot(h, i.addr);
      if !h.valid(i.addr) { return Ops.Forget; }
      var there := vvTried[slot.0, slot.1];
      Cell(vvTried, slot);
      if there == -1 { return Ops.Replace; }
      LinksTried(h, Tables(), slot);
      var holder := mapInfo[there];
      if now - holder.lastSuccess < 4 * Ops.HOUR {
        return Ops.Forget;
      } else if now - holder.lastTry < 4 * Ops.HOUR {
        return if now - holder.lastTry > Ops.MINUTE then Ops.Replace else Ops.Wait;
      } else if now - i.lastSuccess > 40 * Ops.MINUTE {
        return Ops.Replace;
      }
      return Ops.Wait;
    }

    method ResolveOneCollision(id: int, now: int)
      requires Shape() && Inv(h, Tables(), {}, 0)
      modifies this, vvNew, vvTried
      ensures Model() == Ops.ResolveOne(h, old(Model()), id, now)
    {
      hide TableOf, Links, Refs, Counts, Ops.Good;
      var v := JudgeCollision(id, now);
      if v.Wait? { return; }
      if v.Replace? {
        var _ := GoodAddress(mapInfo[id].addr, false, now);
      }
      triedCollisions := triedCollisions - {id};
    }

    /** The waiting ids in ascending order; nothing is added to them on the way. */
    method ResolveCollisions(order: seq<int>, clock: int -> int)
      requires Shape() && Ops.Sound(h, Model()) && (forall x :: x in order ==> clock(x) > 0)
      requires (forall x :: x in order <==> x in triedCollisions) && forall i, j :: 0 <= i < j < |order| ==> order[i] < order[j]
      modifies this, vvNew, vvTried
      ensures Model() == Ops.ResolveAll(h, old(Model()), order, clock) && Ops.Sound(h, Model())
    {
      hide TableOf, Ops.ResolveOne, TimesOk, Inv, Ops.CollisionsOk;
      var k := 0;
      ghost var m := Model();
      while k < |order|
        invariant 0 <= k <= |order| && Shape()
        invariant Ops.Sound(h, Model()) && Model() == Ops.ResolveAll(h, m, order[..k], clock)
      {
        ghost var before := Model();
        Ops.ResolveOneKeeps(h, before, order[k], clock(order[k]));
        ResolveOneCollision(order[k], clock(order[k]));
        Ops.ResolveAllStep(h, m, order, k, clock);
        k := k + 1;
      }
      assert order[..k] == order;
    }

    /** The tried entry a waiting address competes with; `pick` is the id drawn. */
    method SelectTriedCollision(pick: int) returns (r: Wrappers.Option<Info>)
      requires Shape() && Ops.Sound(h, Model()) && (triedCollisions != {} ==> pick in triedCollisions)
      modifies this`triedCollisions
      ensures Model() == Ops.SelectTriedCollision(h, old(Model()), pick).0
      ensures r == Ops.SelectTriedCollision(h, old(Model()), pick).1 && Ops.Sound(h, Model())
    {
      hide TableOf, Links, Refs, Counts, TimesOk;
      if triedCollisions == {} { return Wrappers.None; }
      Ops.SelectTriedCollisionFinds(h, Model(), pick);
      if pick !in mapInfo {
        triedCollisions := triedCollisions - {pick};
        return Wrappers.None;
      }
      var slot := TriedSlot(h, mapInfo[pick].addr);
      Cell(vvTried, slot);
      LinksTried(h, Tables(), slot);
      return Wrappers.Some(mapInfo[vvTried[slot.0, slot.1]]);
    }

    /** A random sample for a peer: at most the given number and share of all entries, none bad or
        of another network, none twice; fewer than allowed only if there are no others. `now`
        and `dice` stand for the clock and the random numbers. */
    method GetAddr(maxAddresses: nat, maxPct: nat, network: Service -> bool, now: int, dice: nat -> nat)
      returns (r: seq<Info>)
      requires Shape() && Inv(h, Tables(), {}, 0)
      modifies this`mapInfo, this`vRandom
      ensures Inv(h, Tables(), {}, 0) && Shuffled(old(mapInfo), mapInfo)
      ensures |r| <= SampleSize(|vRandom|, maxAddresses, maxPct)
      ensures forall i, j :: 0 <= i < j < |r| ==> r[i].addr != r[j].addr
      ensures forall k :: 0 <= k < |r| ==> Wanted(r[k], network, now) && Listed(Tables(), r[k])
      ensures |r| < SampleSize(|vRandom|, maxAddresses, maxPct) ==>
        forall id :: id in mapInfo && Wanted(mapInfo[id], network, now) ==> exists k :: 0 <= k < |r| && r[k].addr == mapInfo[id].addr
    {
      assert Sampled(Tables(), [], [], 0, network, now) && Shuffled(mapInfo, mapInfo);
      InvLinks(h, Tables(), {}, 0);
      hide TableOf, Inv, Links, RandomOk, SwapRandom, Sampled, DrawPlace, SampleSize, Wanted, Shuffled;
      var nodes := SampleSize(|vRandom|, maxAddresses, maxPct);
      r := [];
      ghost var ids: seq<int> := [];
      var n := 0;
      while n < |vRandom| && |r| < nodes
        invariant 0 <= n <= |vRandom| == |old(vRandom)| && |r| <= nodes
        invariant Inv(h, Tables(), {}, 0) && RandomOk(Tables()) && Shuffled(old(mapInfo), mapInfo)
        invariant Sampled(Tables(), ids, r, n, network, now)
        decreases |vRandom| - n
      {
        ghost var info := mapInfo;
        r, ids := Draw(r, ids, n, n + 1, network, now, dice(n));
        ShuffledTwice(old(mapInfo), info, mapInfo);
        n := n + 1;
      }
      InvLinks(h, Tables(), {}, 0);
      SampledDone(h, Tables(), ids, r, n, network, now);
    }

    /** One draw of the sample: a random entry moves to place n and is taken if wanted. */
    method Draw(r: seq<Info>, ghost ids: seq<int>, n: nat, ghost next: nat, network: Service -> bool, now: int, die: nat)
      returns (r': seq<Info>, ghost ids': seq<int>)
      requires Shape() && Inv(h, Tables(), {}, 0) && n < |vRandom| && next == n + 1
      requires RandomOk(Tables()) && Sampled(Tables(), ids, r, n, network, now)
      modifies this`mapInfo, this`vRandom
      ensures Inv(h, Tables(), {}, 0) && RandomOk(Tables()) && |vRandom| == |old(vRandom)| && |r'| <= |r| + 1
      ensures Shuffled(old(mapInfo), mapInfo) && Sampled(Tables(), ids', r', next, network, now)
    {
      hide TableOf, Inv, Links, RandomOk, SwapRandom, Sampled, DrawPlace, Wanted, Shuffled;
      var pos := DrawPlace(die, n, |vRandom|);
      ghost var st := Tables();
      InvLinks(h, st, {}, 0);
      SwapRandomKeeps(h, st, n, pos, {}, 0);
      SampledSwap(h, st, ids, r, n, pos, network, now);
      SwapRandomPlaces(n, pos);
      InvLinks(h, Tables(), {}, 0);
      SampledNext(h, Tables(), ids, r, n, network, now);
      r', ids' := r, ids;
      var id := vRandom[n];
      if Wanted(mapInfo[id], network, now) {
        r', ids' := r + [mapInfo[id]], ids + [id];
      }
    }
  }

  /** Remove an id from one slot, if it is there. */
  method RemoveFrom(a: array2<int>, s: Slot, id: int) returns (hit: bool)
    requires InArray(a, s) && id != -1
    modifies a
    ensures hit <==> s in Slots(old(TableOf(a)), id)
    ensures TableOf(a) == old(TableOf(a)) - if hit then {s} else {}
  {
    Cell(a, s);
    hide TableOf;
    hit := a[s.0, s.1] == id;
    if hit {
      Clear(a, s);
    }
  }

  lemma RemoveStep(table: Table, gone: set<Slot>, s: Slot, id: int)
    requires gone <= Slots(table, id) && s in Slots(table - gone, id)
    ensures table - gone - {s} == table - (gone + {s})
    ensures |gone + {s}| == |gone| + 1 && gone + {s} <= Slots(table, id)
  {
  }

  /** Remove an id from all new buckets, starting at the one of its own source, and stop when no
      reference is left; returns the references that remain. */
  method RemoveFromBuckets(a: array2<int>, h: Env, i: Info, id: int) returns (refs: int)
    requires a.Length0 == NEW_BUCKETS && a.Length1 == BUCKET_SIZE && id != -1
    requires i.refCount == |Slots(TableOf(a), id)|
    requires forall s :: s in Slots(TableOf(a), id) ==> s == NewSlot(h, i.addr, s.0)
    modifies a
    ensures TableOf(a) == old(TableOf(a)) - Slots(old(TableOf(a)), id) && refs == 0
  {
    ghost var table := TableOf(a);
    ghost var all, gone := Slots(table, id), {};
    assert forall s :: s in all ==> s.0 < NEW_BUCKETS;
    assert table == table - gone;
    hide *;
    var start := NewBucket(h, i.addr, i.source);
    refs := i.refCount;
    var n := 0;
    while n < NEW_BUCKETS
      invariant 0 <= n <= NEW_BUCKETS && gone <= all && refs == |all| - |gone|
      invariant TableOf(a) == table - gone
      invariant forall s :: s in all && s !in gone ==> Turn(start, s.0) >= n
    {
      var s := NewSlot(h, i.addr, BucketAt(start, n));
      var hit := RemoveFrom(a, s, id);
      if hit {
        RemoveStep(table, gone, s, id);
        refs := refs - 1;
        gone := gone + {s};
        if refs == 0 { break; }
      } else {
        StillThere(table, gone, s, id);
      }
      NextTurn(h, i, all, gone, start, n);
      n := n + 1;
    }
    AllGone(all, gone);
  }

  lemma StillThere(table: Table, gone: set<Slot>, s: Slot, id: int)
    requires s !in Slots(table - gone, id)
    ensures s in Slots(table, id) ==> s in gone
    ensures table - gone - {} == table - gone
  {
  }

  lemma NextTurn(h: Env, i: Info, all: set<Slot>, gone: set<Slot>, start: nat, n: nat)
    requires start < NEW_BUCKETS && n < NEW_BUCKETS
    requires forall s :: s in all ==> s.0 < NEW_BUCKETS && s == NewSlot(h, i.addr, s.0)
    requires forall s :: s in all && s !in gone ==> Turn(start, s.0) >= n
    requires NewSlot(h, i.addr, BucketAt(start, n)) in all ==> NewSlot(h, i.addr, BucketAt(start, n)) in gone
    ensures forall s :: s in all && s !in gone ==> Turn(start, s.0) >= n + 1
  {
    TurnOf(start, n);
    forall x | x in all && x !in gone ensures Turn(start, x.0) >= n + 1 {
      TurnInjective(start, x.0, BucketAt(start, n));
    }
  }

  /** The n-th bucket of the walk. */
  function BucketAt(start: nat, n: nat): (b: nat)
    ensures b < NEW_BUCKETS
  {
    (start + n) % NEW_BUCKETS
  }

  /** How many buckets come before the given one when the walk begins at `start`. */
  function Turn(start: nat, bucket: nat): int { (bucket - start) % NEW_BUCKETS }

  lemma TurnOf(start: nat, n: nat)
    requires start < NEW_BUCKETS && n < NEW_BUCKETS
    ensures Turn(start, BucketAt(start, n)) == n
  {
  }

  lemma TurnInjective(start: nat, a: nat, b: nat)
    requires start < NEW_BUCKETS && a < NEW_BUCKETS && b < NEW_BUCKETS
    ensures Turn(start, a) == Turn(start, b) ==> a == b
  {
  }

  lemma AllGone(all: set<Slot>, gone: set<Slot>)
    requires gone <= all && (|gone| == |all| || forall s :: s in all ==> s in gone)
    ensures gone == all
  {
    assert all == gone + (all - gone);
  }

  /** How many addresses may be handed out; zero means no limit of that kind. */
  function SampleSize(total: nat, maxAddresses: nat, maxPct: nat): nat {
    var share := if maxPct != 0 then maxPct * total / 100 else total;
    if maxAddresses != 0 && maxAddresses < share then maxAddresses else share
  }

  /** A place that has not been drawn yet. */
  function DrawPlace(random: nat, n: nat, size: nat): (pos: nat)
    requires n < size
    ensures n <= pos < size
  {
    random % (size - n) + n
  }

  predicate Wanted(i: Info, network: Service -> bool, now: int) {
    network(i.addr) && !Ops.IsTerrible(i, now)
  }

  lemma InvLinks(h: Env, st: State, floating: set<int>, lag: int)
    requires Inv(h, st, floating, lag)
    ensures Links(h, st) && RandomOk(st)
  {
  }

  lemma ShuffledTwice(a: map<int, Info>, b: map<int, Info>, c: map<int, Info>)
    requires Shuffled(a, b) && Shuffled(b, c)
    ensures Shuffled(a, c)
  {
  }

  /** Nothing but places in vRandom differs. */
  predicate Shuffled(a: map<int, Info>, b: map<int, Info>) {
    a.Keys == b.Keys && forall id :: id in a ==> b[id] == a[id].(randomPos := b[id].randomPos)
  }

  /** The entry is one of ours, as far as anyone outside can tell. */
  predicate Listed(st: State, i: Info) {
    && i.addr in st.ids && st.ids[i.addr] in st.info
    && SameButPlace(st.info[st.ids[i.addr]], i)
  }

  predicate SameButPlace(i: Info, j: Info) { j == i.(randomPos := j.randomPos) }

  /** The wanted entries among the first n places of vRandom are the ones collected. */
  predicate Sampled(st: State, ids: seq<int>, r: seq<Info>, n: int, network: Service -> bool, now: int) {
    && |ids| == |r| && n <= |st.random|
    && (forall k :: 0 <= k < |ids| ==>
          ids[k] in st.info && st.info[ids[k]].randomPos < n && SameButPlace(st.info[ids[k]], r[k]) && Wanted(r[k], network, now))
    && (forall i, j :: 0 <= i < j < |ids| ==> ids[i] != ids[j])
    && (forall m :: 0 <= m < n && st.random[m] in st.info && Wanted(st.info[st.random[m]], network, now) ==> st.random[m] in ids)
  }

  lemma SampledSwap(h: Env, st: State, ids: seq<int>, r: seq<Info>, n: int, pos: int, network: Service -> bool, now: int)
    requires RandomOk(st) && Sampled(st, ids, r, n, network, now) && 0 <= n <= pos < |st.random|
    ensures Sampled(SwapRandom(st, n, pos), ids, r, n, network, now)
    ensures Shuffled(st.info, SwapRandom(st, n, pos).info)
  {
    var st' := SwapRandom(st, n, pos);
    forall k | 0 <= k < |ids| ensures ids[k] in st'.info && st'.info[ids[k]].randomPos < n && SameButPlace(st'.info[ids[k]], r[k]) {
      assert ids[k] in st.info;
    }
    forall m | 0 <= m < n && st'.random[m] in st'.info && Wanted(st'.info[st'.random[m]], network, now)
      ensures st'.random[m] in ids
    {
      assert st.random[m] == st'.random[m];
    }
  }

  lemma SampledNext(h: Env, st: State, ids: seq<int>, r: seq<Info>, n: int, network: Service -> bool, now: int)
    requires RandomOk(st) && Sampled(st, ids, r, n, network, now) && 0 <= n < |st.random|
    ensures var id := st.random[n];
      id in st.info &&
      if Wanted(st.info[id], network, now)
      then Sampled(st, ids + [id], r + [st.info[id]], n + 1, network, now)
      else Sampled(st, ids, r, n + 1, network, now)
  {
  }

  lemma SampledDone(h: Env, st: State, ids: seq<int>, r: seq<Info>, n: int, network: Service -> bool, now: int)
    requires Links(h, st) && Sampled(st, ids, r, n, network, now)
    ensures forall i, j :: 0 <= i < j < |r| ==> r[i].addr != r[j].addr
    ensures forall k :: 0 <= k < |r| ==> Wanted(r[k], network, now) && Listed(st, r[k])
    ensures n == |st.random| ==>
      forall id :: id in st.info && Wanted(st.info[id], network, now) ==> exists k :: 0 <= k < |r| && r[k].addr == st.info[id].addr
  {
    forall k | 0 <= k < |r| ensures Listed(st, r[k]) && st.ids[r[k].addr] == ids[k] {
      assert InfoOk(h, st, ids[k]);
    }
    if n == |st.random| {
      forall id | id in st.info && Wanted(st.info[id], network, now)
        ensures exists k :: 0 <= k < |r| && r[k].addr == st.info[id].addr
      {
        assert InfoOk(h, st, id);
        assert id in ids;
        var k :| 0 <= k < |ids| && ids[k] == id;
        assert r[k].addr == st.info[id].addr;
      }
    }
  }
}
