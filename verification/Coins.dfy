/** The coins view hierarchy on values: a database at the bottom and a stack of write-back
    caches on top of it, each entry of a cache carrying the DIRTY and FRESH flags. */
module Coins {
  import opened Wrappers

  /** Block hashes; 0 stands for the null hash. */
  type Hash = nat

  const NULL_HASH: Hash := 0
  const OP_RETURN := 0x6a
  const MAX_SCRIPT_SIZE := 10000

  datatype OutPoint = OutPoint(hash: Hash, n: nat)

  datatype TxOut = TxOut(nValue: int, scriptPubKey: seq<nat>) {
    predicate IsNull() { nValue == -1 }
    predicate IsUnspendable() {
      (|scriptPubKey| > 0 && scriptPubKey[0] == OP_RETURN) || |scriptPubKey| > MAX_SCRIPT_SIZE
    }
  }

  datatype Coin = Coin(out: TxOut, coinBase: bool, height: nat, nType: nat, commitment: seq<nat>) {
    predicate IsSpent() { out.IsNull() }
    /** The type and the commitment survive clearing. */
    function Clear(): Coin { this.(out := TxOut(-1, []), coinBase := false, height := 0) }
  }

  datatype Entry = Entry(coin: Coin, isDirty: bool, isFresh: bool)

  type CoinsMap = map<OutPoint, Entry>

  datatype View =
    | Db(coins: map<OutPoint, Coin>, best: Hash)
    | Cache(entries: CoinsMap, hashBlock: Hash, base: View)

  // ----- what a view means -----

  function Visible(c: Coin): Option<Coin> { if c.IsSpent() then None else Some(c) }

  /** The unspent coin a view shows for an outpoint. A database may hold empty entries. */
  function Lookup(v: View, o: OutPoint): Option<Coin> {
    match v
    case Db(coins, _) => if o in coins then Visible(coins[o]) else None
    case Cache(entries, _, base) => if o in entries then Visible(entries[o].coin) else Lookup(base, o)
  }

  /** What FRESH and the absence of DIRTY promise about the level below. */
  predicate Truthful(e: Entry, below: Option<Coin>) {
    && (e.isFresh ==> below.None?)
    && (!e.isDirty ==> Visible(e.coin) == below)
  }

  /** The combinations of spent, DIRTY and FRESH documented as the only valid ones. */
  predicate DocumentedState(e: Entry) {
    if e.coin.IsSpent() then e.isFresh != e.isDirty else e.isDirty || !e.isFresh
  }

  predicate Wf(v: View) {
    v.Cache? ==>
      && Wf(v.base)
      && forall o :: o in v.entries ==> Truthful(v.entries[o], Lookup(v.base, o)) && DocumentedState(v.entries[o])
  }

  function BestBlock(v: View): Hash {
    match v
    case Db(_, best) => best
    case Cache(_, hashBlock, base) => if hashBlock == NULL_HASH then BestBlock(base) else hashBlock
  }

  /** The view knows its best block itself. */
  predicate Pinned(v: View) { v.Db? || v.hashBlock != NULL_HASH }

  /** One plain outpoint-to-coin map with a best block. */
  datatype Level = Level(coins: map<OutPoint, Coin>, best: Hash, pinned: bool)

  /** A stack of plain maps, top first, describes what every level of a view shows. */
  ghost predicate Agree(v: View, fs: seq<Level>) {
    && fs != [] && fs[0].best == BestBlock(v) && fs[0].pinned == Pinned(v)
    && (forall o :: Lookup(v, o) == Find(fs[0].coins, o))
    && if v.Cache? then Agree(v.base, fs[1..]) else |fs| == 1
  }

  /** Two views that cannot be told apart, at any level. */
  ghost predicate Same(v: View, w: View) {
    && v.Cache? == w.Cache? && BestBlock(v) == BestBlock(w) && Pinned(v) == Pinned(w)
    && (forall o :: Lookup(v, o) == Lookup(w, o))
    && (v.Cache? ==> Same(v.base, w.base))
  }

  lemma {:induction false} SameAgree(v: View, w: View, fs: seq<Level>)
    requires Same(v, w) && Agree(v, fs)
    ensures Agree(w, fs)
  {
    if v.Cache? {
      SameAgree(v.base, w.base, fs[1..]);
    }
  }

  lemma {:induction false} SameReflexive(v: View)
    ensures Same(v, v)
  {
    if v.Cache? {
      SameReflexive(v.base);
    }
  }

  /** Every view has its stack of plain maps. */
  function Levels(v: View): seq<Level> {
    [Level(map o | o in Outpoints(v) && Lookup(v, o).Some? :: Lookup(v, o).value, BestBlock(v), Pinned(v))]
    + if v.Cache? then Levels(v.base) else []
  }

  function Outpoints(v: View): set<OutPoint> {
    match v
    case Db(coins, _) => coins.Keys
    case Cache(entries, _, base) => entries.Keys + Outpoints(base)
  }

  lemma {:induction false} LookupInOutpoints(v: View, o: OutPoint)
    requires Lookup(v, o).Some?
    ensures o in Outpoints(v)
  {
    if v.Cache? && o !in v.entries {
      LookupInOutpoints(v.base, o);
    }
  }

  lemma {:induction false} LevelsAgree(v: View)
    ensures Agree(v, Levels(v))
  {
    forall o ensures Lookup(v, o) == Find(Levels(v)[0].coins, o) {
      if Lookup(v, o).Some? {
        LookupInOutpoints(v, o);
      }
    }
    if v.Cache? {
      LevelsAgree(v.base);
      assert Levels(v)[1..] == Levels(v.base);
    }
  }

  // ----- operations -----

  /** Pull an entry into the cache from the level below, filling every cache on the way. */
  function Fetch(v: View, o: OutPoint): View
    requires v.Cache?
    decreases v, 0
  {
    if o in v.entries then v else
    match Get(v.base, o)
    case (base, None) => v.(base := base)
    case (base, Some(c)) => v.(base := base, entries := v.entries[o := Entry(c, false, c.IsSpent())])
  }

  function Get(v: View, o: OutPoint): (View, Option<Coin>)
    decreases v, 1
  {
    match v
    case Db(coins, _) => (v, if o in coins then Some(coins[o]) else None)
    case Cache(_, _, _) =>
      var w := Fetch(v, o);
      (w, if o in w.entries && !w.entries[o].coin.IsSpent() then Some(w.entries[o].coin) else None)
  }

  /** None is the logic_error of overwriting a coin that the cache knows to be unspent. */
  function Add(v: View, o: OutPoint, c: Coin, overwrite: bool): Option<View>
    requires v.Cache?
  {
    if c.out.IsUnspendable() then Some(v)
    else
      var prior := if o in v.entries then v.entries[o] else Entry(EmptyCoin(), false, false);
      if !overwrite && !prior.coin.IsSpent() then None
      else
        var unknownBelow := !overwrite && !prior.isDirty;
        Some(v.(entries := v.entries[o := Entry(c, true, prior.isFresh || unknownBelow)]))
  }

  function EmptyCoin(): Coin { Coin(TxOut(-1, []), false, 0, 0, []) }

  function Spend(v: View, o: OutPoint): (View, Option<Coin>)
    requires v.Cache?
  {
    var w := Fetch(v, o);
    if o !in w.entries then (w, None) else (SpendEntry(w, o), Some(w.entries[o].coin))
  }

  /** A FRESH entry goes; any other one records that the coin is spent. */
  function SpendEntry(v: View, o: OutPoint): View
    requires v.Cache? && o in v.entries
  {
    var e := v.entries[o];
    if e.isFresh then v.(entries := v.entries - {o})
    else v.(entries := v.entries[o := Entry(e.coin.Clear(), true, false)])
  }

  function Uncache(v: View, o: OutPoint): View
    requires v.Cache?
  {
    if o in v.entries && !v.entries[o].isDirty && !v.entries[o].isFresh
    then v.(entries := v.entries - {o}) else v
  }

  // ----- writing a child's entries into its parent -----

  /** The child calls a coin FRESH that the parent cache holds unspent. */
  predicate Misapplied(us: CoinsMap, o: OutPoint, e: Entry) {
    e.isDirty && e.isFresh && o in us && !us[o].coin.IsSpent()
  }

  /** What the parent cache holds for an outpoint after one child entry was written. */
  function WriteEntry(us: Option<Entry>, e: Entry): Option<Entry> {
    if !e.isDirty then us
    else match us
      case None => if e.isFresh && e.coin.IsSpent() then None else Some(e)
      case Some(p) =>
        if p.isFresh && e.coin.IsSpent() then None else Some(Entry(e.coin, true, p.isFresh))
  }

  function Find<T>(m: map<OutPoint, T>, o: OutPoint): Option<T> {
    if o in m then Some(m[o]) else None
  }

  /** All child entries written, with no mention of an order. */
  function Merge(us: CoinsMap, them: CoinsMap): CoinsMap {
    map o | o in us.Keys + them.Keys && Merged(us, them, o).Some? :: Merged(us, them, o).value
  }

  function Merged(us: CoinsMap, them: CoinsMap, o: OutPoint): Option<Entry> {
    if o in them then WriteEntry(Find(us, o), them[o]) else Find(us, o)
  }

  /** The database keeps no spent coin that is written to it. */
  function MergeDb(coins: map<OutPoint, Coin>, them: CoinsMap): map<OutPoint, Coin> {
    map o | o in coins.Keys + them.Keys &&
            (if o in them && them[o].isDirty then !them[o].coin.IsSpent() else o in coins)
         :: if o in them && them[o].isDirty then them[o].coin else coins[o]
  }

  predicate BatchThrows(v: View, them: CoinsMap) {
    v.Cache? && exists o :: o in them && Misapplied(v.entries, o, them[o])
  }

  function BatchWrite(v: View, them: CoinsMap, hashBlock: Hash): View {
    match v
    case Db(coins, _) => Db(MergeDb(coins, them), hashBlock)
    case Cache(entries, _, base) => Cache(Merge(entries, them), hashBlock, base)
  }

  /** None is the misapplied flag, or the database's refusal of a null best block. */
  function Flush(v: View): Option<View>
    requires v.Cache?
  {
    if BatchThrows(v.base, v.entries) || (v.base.Db? && v.hashBlock == NULL_HASH) then None
    else Some(Cache(map[], v.hashBlock, BatchWrite(v.base, v.entries, v.hashBlock)))
  }

  /** Asking for the best block remembers the answer at every level asked. */
  function Learn(v: View): View {
    if Pinned(v) then v else v.(base := Learn(v.base), hashBlock := BestBlock(v.base))
  }

  // ----- what each operation shows -----

  /** Fetching changes what is cached at every level and what is visible at none. */
  lemma {:induction false} GetIsTransparent(v: View, o: OutPoint)
    requires Wf(v)
    ensures var (w, r) := Get(v, o);
            && Wf(w) && Same(v, w)
            && Lookup(v, o) == (if r.Some? then Visible(r.value) else None)
    decreases v, 1
  {
    if v.Cache? {
      FetchIsTransparent(v, o);
    }
  }

  lemma {:induction false} FetchIsTransparent(v: View, o: OutPoint)
    requires Wf(v) && v.Cache?
    ensures var w := Fetch(v, o);
            && w.Cache? && Wf(w) && Same(v, w) && w.hashBlock == v.hashBlock
            && Lookup(v, o) == (if o in w.entries then Visible(w.entries[o].coin) else None)
            && (o !in w.entries ==> Lookup(w.base, o).None?)
    decreases v, 0
  {
    if o in v.entries {
      SameReflexive(v);
    } else {
      GetIsTransparent(v.base, o);
    }
  }

  /** Adding a coin; one with an unspendable script is ignored. The caller's duty when it rules
      out an overwrite is exact: the entry stays truthful if and only if the outpoint is cached
      here or unspent nowhere below. */
  lemma AddIsUpdate(v: View, o: OutPoint, c: Coin, overwrite: bool)
    requires Wf(v) && v.Cache? && !c.IsSpent()
    ensures Add(v, o, c, overwrite).None?
       <==> !c.out.IsUnspendable() && !overwrite && o in v.entries && !v.entries[o].coin.IsSpent()
    ensures var w := Add(v, o, c, overwrite);
            w.Some? ==>
              && w.value.Cache? && w.value.base == v.base && w.value.hashBlock == v.hashBlock
              && (forall x :: Lookup(w.value, x) == if x == o && !c.out.IsUnspendable() then Some(c) else Lookup(v, x))
              && (Wf(w.value) <==> c.out.IsUnspendable() || overwrite || o in v.entries || Lookup(v.base, o).None?)
  {
    var w := Add(v, o, c, overwrite);
    if w.Some? && !c.out.IsUnspendable() {
      assert o in w.value.entries;
    }
  }

  /** Spending removes the coin, whether the entry is deleted or its spentness is recorded. */
  lemma SpendIsRemove(v: View, o: OutPoint)
    requires Wf(v) && v.Cache?
    ensures var (w, r) := Spend(v, o);
            && w.Cache? && Wf(w) && Same(v.base, w.base) && w.hashBlock == v.hashBlock
            && (forall x :: Lookup(w, x) == if x == o then None else Lookup(v, x))
            && Lookup(v, o) == (if r.Some? then Visible(r.value) else None)
  {
    FetchIsTransparent(v, o);
    var f := Fetch(v, o);
    hide Fetch, Wf;
    if o in f.entries { SpendEntryRemoves(f, o); }
  }

  lemma SpendEntryRemoves(v: View, o: OutPoint)
    requires Wf(v) && v.Cache? && o in v.entries
    ensures var w := SpendEntry(v, o);
            && w.Cache? && Wf(w) && w.base == v.base && w.hashBlock == v.hashBlock
            && (forall x :: Lookup(w, x) == if x == o then None else Lookup(v, x))
  {
  }

  lemma UncacheIsTransparent(v: View, o: OutPoint)
    requires Wf(v) && v.Cache?
    ensures Wf(Uncache(v, o)) && Same(v, Uncache(v, o))
  {
    SameReflexive(v.base);
  }

  /** Asking for the best block changes nothing visible; afterwards the view knows it itself,
      unless there is none. */
  lemma {:induction false} LearnIsTransparent(v: View)
    requires Wf(v)
    ensures var w := Learn(v);
            && Wf(w) && BestBlock(w) == BestBlock(v) && w.Cache? == v.Cache?
            && (Pinned(w) <==> Pinned(v) || BestBlock(v) != NULL_HASH)
            && forall o :: Lookup(w, o) == Lookup(v, o)
  {
    if !Pinned(v) {
      LearnIsTransparent(v.base);
    }
  }

  /** A truthful child never triggers the "FRESH flag misapplied" error in its parent, and
      after the flush the parent shows what the child showed; the levels further down are
      untouched. */
  lemma FlushMovesTheView(v: View)
    requires Wf(v) && v.Cache?
    ensures !BatchThrows(v.base, v.entries)
    ensures var w := BatchWrite(v.base, v.entries, v.hashBlock);
            && Wf(w) && w.Cache? == v.base.Cache? && (w.Cache? ==> w.base == v.base.base && w.hashBlock == v.hashBlock)
            && (w.Db? ==> w.best == v.hashBlock)
            && forall o :: Lookup(w, o) == Lookup(v, o)
  {
    var b, w := v.base, BatchWrite(v.base, v.entries, v.hashBlock);
    forall o ensures Lookup(w, o) == Lookup(v, o) {
      if b.Cache? {
        assert o in w.entries <==> Merged(b.entries, v.entries, o).Some?;
      }
    }
    if b.Cache? {
      forall o | o in w.entries
        ensures Truthful(w.entries[o], Lookup(w.base, o)) && DocumentedState(w.entries[o])
      {
        assert w.entries[o] == Merged(b.entries, v.entries, o).value;
      }
    }
  }

  /** A flush hands the child's best block to the parent exactly when the child has one of its
      own, or when the parent's own best block is no different from that of the level below. */
  lemma FlushBestBlock(v: View)
    requires Wf(v) && v.Cache? && v.base.Cache?
    ensures Flush(v).Some?
    ensures BestBlock(Flush(v).value.base) == BestBlock(v)
       <==> v.hashBlock != NULL_HASH || BestBlock(v.base) == BestBlock(v.base.base)
  {
    FlushMovesTheView(v);
  }

  /** A cache that never asked for its best block erases its parent's by flushing. */
  lemma FlushLosesBestBlock()
    ensures var v := Cache(map[], NULL_HASH, Cache(map[], 1, Db(map[], 2)));
            Wf(v) && BestBlock(v) == 1 && Flush(v).Some? && BestBlock(Flush(v).value.base) == 2
  {
    FlushMovesTheView(Cache(map[], NULL_HASH, Cache(map[], 1, Db(map[], 2))));
  }

  // ----- whole runs -----

  datatype Op =
    | FetchOp(o: OutPoint)
    | AddOp(o: OutPoint, c: Coin, overwrite: bool)
    | SpendOp(o: OutPoint)
    | UncacheOp(o: OutPoint)
    | SetBestOp(hash: Hash)
    | GetBestOp
    | FlushOp
    | PushOp     // a new cache on top of the stack
    | DropOp     // the top cache is destroyed without being flushed

  function Step(v: View, op: Op): Option<View> {
    if op.PushOp? then Some(Cache(map[], NULL_HASH, v))
    else if v.Db? then None
    else if op.FetchOp? then Some(Fetch(v, op.o))
    else if op.AddOp? then if op.c.IsSpent() then None else Add(v, op.o, op.c, op.overwrite)
    else if op.SpendOp? then Some(Spend(v, op.o).0)
    else if op.UncacheOp? then Some(Uncache(v, op.o))
    else if op.SetBestOp? then Some(v.(hashBlock := op.hash))
    else if op.GetBestOp? then Some(Learn(v))
    else if op.FlushOp? then Flush(v)
    else Some(v.base)
  }

  function Run(v: View, ops: seq<Op>): Option<View>
    decreases |ops|
  {
    if ops == [] then Some(v) else
    match Step(v, ops[0])
    case None => None
    case Some(w) => Run(w, ops[1..])
  }

  /** What a caller must respect, in terms of the plain maps alone: among the rest, that the
      database is handed a best block. */
  predicate Legal(fs: seq<Level>, op: Op)
    requires fs != []
  {
    && (!op.PushOp? ==> |fs| >= 2)
    && (op.AddOp? ==> !op.c.IsSpent() && (op.overwrite || op.c.out.IsUnspendable() || op.o !in fs[0].coins))
    && (op.FlushOp? && |fs| == 2 ==> fs[0].pinned)
  }

  /** The reference: one plain map per level. */
  function FlatStep(fs: seq<Level>, op: Op): (r: seq<Level>)
    requires fs != [] && Legal(fs, op)
    ensures r != []
  {
    match op
    case PushOp => [fs[0].(pinned := false)] + fs
    case FetchOp(_) => fs
    case UncacheOp(_) => fs
    case AddOp(o, c, _) => if c.out.IsUnspendable() then fs else fs[0 := fs[0].(coins := fs[0].coins[o := c])]
    case SpendOp(o) => fs[0 := fs[0].(coins := fs[0].coins - {o})]
    case SetBestOp(hash) =>
      fs[0 := fs[0].(best := if hash == NULL_HASH then fs[1].best else hash, pinned := hash != NULL_HASH)]
    case GetBestOp => FlatLearn(fs)
    case FlushOp => FlatFlush(fs)
    case DropOp => fs[1..]
  }

  function FlatLearn(fs: seq<Level>): (r: seq<Level>)
    ensures |r| == |fs|
  {
    if fs == [] || fs[0].pinned then fs
    else [fs[0].(pinned := fs[0].best != NULL_HASH)] + FlatLearn(fs[1..])
  }

  /** The level below takes over the map and the child's own best block; if the child has none,
      that of the next level shows through, at both. */
  function FlatFlush(fs: seq<Level>): (r: seq<Level>)
    requires |fs| >= 2 && (|fs| == 2 ==> fs[0].pinned)
    ensures r != []
  {
    var best := if fs[0].pinned then fs[0].best else fs[2].best;
    var new0 := fs[0].(best := best);
    fs[0 := new0][1 := new0]
  }

  predicate LegalRun(fs: seq<Level>, ops: seq<Op>)
    requires fs != []
    decreases |ops|
  {
    ops == [] || (Legal(fs, ops[0]) && LegalRun(FlatStep(fs, ops[0]), ops[1..]))
  }

  function FlatRun(fs: seq<Level>, ops: seq<Op>): (r: seq<Level>)
    requires fs != [] && LegalRun(fs, ops)
    ensures r != []
    decreases |ops|
  {
    if ops == [] then fs else FlatRun(FlatStep(fs, ops[0]), ops[1..])
  }

  lemma {:induction false} LearnAgrees(v: View, fs: seq<Level>)
    requires Wf(v) && Agree(v, fs)
    ensures Wf(Learn(v)) && Agree(Learn(v), FlatLearn(fs))
  {
    LearnIsTransparent(v);
    if !Pinned(v) {
      LearnAgrees(v.base, fs[1..]);
      assert FlatLearn(fs)[1..] == FlatLearn(fs[1..]);
    }
  }

  lemma FlushAgrees(v: View, fs: seq<Level>)
    requires Wf(v) && v.Cache? && Agree(v, fs) && |fs| >= 2 && (|fs| == 2 ==> fs[0].pinned)
    ensures Flush(v).Some? && Wf(Flush(v).value) && Agree(Flush(v).value, FlatFlush(fs))
  {
    FlushMovesTheView(v);
    var below, gs, rest := BatchWrite(v.base, v.entries, v.hashBlock), FlatFlush(fs), fs[2..];
    assert v.base.Cache? ==> Agree(v.base.base, rest) by { assert fs[1..][1..] == rest; }
    assert v.base.Cache? ==> rest[0] == fs[2];
    assert v.base.Db? ==> rest == [];
    assert Flush(v).Some? && forall o :: Lookup(v, o) == Find(fs[0].coins, o);
    hide Wf, BatchWrite, BatchThrows;
    AgreeTop(below, gs[0], rest);
    AgreeTop(Flush(v).value, gs[0], [gs[0]] + rest);
    assert gs == [gs[0]] + ([gs[0]] + rest);
  }

  lemma AgreeTop(v: View, l: Level, rest: seq<Level>)
    requires l.best == BestBlock(v) && l.pinned == Pinned(v) && forall o :: Lookup(v, o) == Find(l.coins, o)
    requires if v.Cache? then Agree(v.base, rest) else rest == []
    ensures Agree(v, [l] + rest)
  {
    assert ([l] + rest)[1..] == rest;
  }

  lemma AddAgrees(v: View, o: OutPoint, c: Coin, overwrite: bool, fs: seq<Level>)
    requires Wf(v) && Agree(v, fs) && Legal(fs, AddOp(o, c, overwrite))
    ensures var w := Add(v, o, c, overwrite);
            w.Some? && Wf(w.value) && Agree(w.value, FlatStep(fs, AddOp(o, c, overwrite)))
  {
    assert Lookup(v, o) == Find(fs[0].coins, o);
    AddIsUpdate(v, o, c, overwrite);
    var gs := FlatStep(fs, AddOp(o, c, overwrite));
    assert gs[1..] == fs[1..];
    hide Wf, Add;
  }

  lemma SpendAgrees(v: View, o: OutPoint, fs: seq<Level>)
    requires Wf(v) && v.Cache? && Agree(v, fs) && Legal(fs, SpendOp(o))
    ensures Wf(Spend(v, o).0) && Agree(Spend(v, o).0, FlatStep(fs, SpendOp(o)))
  {
    SpendIsRemove(v, o);
    SameAgree(v.base, Spend(v, o).0.base, fs[1..]);
    hide Wf, Spend;
    var gs := FlatStep(fs, SpendOp(o));
    assert gs[1..] == fs[1..];
  }

  lemma StepAgrees(v: View, op: Op, fs: seq<Level>)
    requires Wf(v) && Agree(v, fs) && Legal(fs, op)
    ensures Step(v, op).Some?
    ensures Wf(Step(v, op).value) && Agree(Step(v, op).value, FlatStep(fs, op))
  {
    var gs := FlatStep(fs, op);
    hide Add, Spend, Fetch, Uncache, Learn, Flush;
    match op {
      case PushOp =>
        assert gs[1..] == fs;
      case FetchOp(o) =>
        FetchIsTransparent(v, o);
        SameAgree(v, Fetch(v, o), fs);
      case UncacheOp(o) =>
        UncacheIsTransparent(v, o);
        SameAgree(v, Uncache(v, o), fs);
      case AddOp(o, c, overwrite) =>
        AddAgrees(v, o, c, overwrite, fs);
      case SpendOp(o) =>
        SpendAgrees(v, o, fs);
      case SetBestOp(_) =>
        assert gs[1..] == fs[1..];
      case GetBestOp =>
        LearnAgrees(v, fs);
      case FlushOp =>
        FlushAgrees(v, fs);
      case DropOp =>
    }
  }

  /** Any stack of caches, after any legal sequence of operations, has thrown nothing and failed
      no assertion, has only truthful entries in documented states, and shows at every level
      exactly what plain maps with a best block would. */
  lemma {:induction false} RunAgrees(v: View, ops: seq<Op>, fs: seq<Level>)
    requires Wf(v) && Agree(v, fs) && LegalRun(fs, ops)
    ensures Run(v, ops).Some?
    ensures Wf(Run(v, ops).value) && Agree(Run(v, ops).value, FlatRun(fs, ops))
    decreases |ops|
  {
    if ops != [] {
      StepAgrees(v, ops[0], fs);
      RunAgrees(Step(v, ops[0]).value, ops[1..], FlatStep(fs, ops[0]));
    }
  }
}
