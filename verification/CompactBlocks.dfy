/** Compact blocks: a block as short transaction ids, and its reconstruction from transactions
    at hand. */
module CompactBlocks {
  import opened Wrappers
  import Sets

  const MAX_TRANSACTIONS := 100_000
  const MAX_INDEX := 65535

  type Tx = nat

  /** What is known of transactions: a witness hash, the short id of a hash, and nullness. */
  datatype Env = Env(hash: Tx -> nat, short: nat -> nat, isNull: Tx -> bool)

  function ShortId(env: Env, tx: Tx): nat { env.short(env.hash(tx)) }

  /** The index counts from the place after the previous prefilled transaction. */
  datatype Prefilled = Prefilled(index: nat, tx: Tx)

  datatype Cmpct = Cmpct(nullHeader: bool, shortIds: seq<nat>, prefilled: seq<Prefilled>)

  type Places = seq<Option<Tx>>

  datatype Status = OK | INVALID | FAILED | CHECKBLOCK_FAILED

  /** The answer of the block check. */
  datatype Verdict = Valid | Mutated | Wrong

  /** The compact form of a block: its first transaction and the short ids of the others. */
  function Shorten(env: Env, vtx: seq<Tx>): Cmpct
    requires vtx != []
  {
    Cmpct(false, seq(|vtx| - 1, i requires 0 <= i < |vtx| - 1 => ShortId(env, vtx[i + 1])), [Prefilled(0, vtx[0])])
  }

  // ----- counting what is missing -----

  /** How many of the first n places are open. */
  function Open(p: Places, n: nat): (k: nat)
    requires n <= |p|
    ensures k <= n
  {
    if n == 0 then 0 else Open(p, n - 1) + if p[n - 1].None? then 1 else 0
  }

  /** The number of open places before a place, or -1 where there is no place. */
  function Rank(p: Places, i: nat): int { if i <= |p| then Open(p, i) else -1 }

  lemma {:induction false} OpenGrows(p: Places, m: nat, n: nat)
    requires m <= n <= |p|
    ensures Open(p, m) <= Open(p, n) <= Open(p, m) + (n - m)
  {
    if m < n { OpenGrows(p, m, n - 1); }
  }

  lemma {:induction false} OpenAfterFill(p: Places, at: nat, tx: Tx, n: nat)
    requires at < |p| && p[at].None? && n <= |p|
    ensures Open(p[at := Some(tx)], n) == Open(p, n) - if at < n then 1 else 0
  {
    if n > 0 { OpenAfterFill(p, at, tx, n - 1); }
  }

  lemma {:induction false} AllOpen(p: Places, n: nat)
    requires n <= |p| && forall i :: 0 <= i < n ==> p[i].None?
    ensures Open(p, n) == n
  {
    if n > 0 { AllOpen(p, n - 1); }
  }

  // ----- the prefilled transactions -----

  /** The places after the prefilled transactions from number i on were entered, or None where
      the message is invalid. */
  function Enter(env: Env, c: Cmpct, p: Places, last: int, i: nat): Option<Places>
    requires i <= |c.prefilled| && -1 <= last && |p| == |c.shortIds| + |c.prefilled|
    decreases |c.prefilled| - i
  {
    if i == |c.prefilled| then Some(p)
    else
      var at := last + c.prefilled[i].index + 1;
      if env.isNull(c.prefilled[i].tx) || at > MAX_INDEX || at > |c.shortIds| + i then None
      else Enter(env, c, p[at := Some(c.prefilled[i].tx)], at, i + 1)
  }

  function Empty(c: Cmpct): Places { seq(|c.shortIds| + |c.prefilled|, _ => None) }

  function Entered(env: Env, c: Cmpct): Option<Places> { Enter(env, c, Empty(c), -1, 0) }

  /** Each prefilled transaction takes an open place, so as many stay open as there are short ids. */
  lemma {:induction false} EnterLeavesOpen(env: Env, c: Cmpct, p: Places, last: int, i: nat)
    requires i <= |c.prefilled| && -1 <= last && |p| == |c.shortIds| + |c.prefilled|
    requires (forall k :: last < k < |p| ==> p[k].None?) && Open(p, |p|) == |p| - i
    requires Enter(env, c, p, last, i).Some?
    ensures var q := Enter(env, c, p, last, i).value; |q| == |p| && Open(q, |q|) == |c.shortIds|
    decreases |c.prefilled| - i
  {
    if i < |c.prefilled| {
      var at := last + c.prefilled[i].index + 1;
      OpenAfterFill(p, at, c.prefilled[i].tx, |p|);
      EnterLeavesOpen(env, c, p[at := Some(c.prefilled[i].tx)], at, i + 1);
    }
  }

  lemma EnteredLeavesOpen(env: Env, c: Cmpct)
    requires Entered(env, c).Some?
    ensures var q := Entered(env, c).value;
      |q| == |c.shortIds| + |c.prefilled| && Open(q, |q|) == |c.shortIds|
  {
    AllOpen(Empty(c), |Empty(c)|);
    EnterLeavesOpen(env, c, Empty(c), -1, 0);
  }

  // ----- reconstruction -----

  /** A place holds what was prefilled there; an open one, nothing or a transaction on offer whose
      short id is the one that stands for the place. */
  ghost predicate Fits(env: Env, c: Cmpct, placed: Places, offered: set<Tx>, i: nat, content: Option<Tx>)
    requires i < |placed| && Open(placed, |placed|) == |c.shortIds|
  {
    if placed[i].Some? then content == placed[i]
    else
      OpenPlace(placed, i);
      content.Some? ==> content.value in offered && ShortId(env, content.value) == c.shortIds[Open(placed, i)]
  }

  lemma OpenPlace(p: Places, i: nat)
    requires i < |p| && p[i].None?
    ensures Open(p, i) < Open(p, |p|)
  {
    OpenGrows(p, i + 1, |p|);
  }

  /** Every place holds something that fits. */
  ghost predicate AllFit(env: Env, c: Cmpct, placed: Places, offered: set<Tx>, available: Places)
    requires Open(placed, |placed|) == |c.shortIds|
  {
    |available| == |placed| && forall i :: 0 <= i < |placed| ==> Fits(env, c, placed, offered, i, available[i])
  }

  lemma ChangeFits(env: Env, c: Cmpct, placed: Places, offered: set<Tx>, available: Places, at: nat, content: Option<Tx>)
    requires Open(placed, |placed|) == |c.shortIds| && AllFit(env, c, placed, offered, available) && at < |placed|
    requires Fits(env, c, placed, offered, at, content)
    ensures AllFit(env, c, placed, offered, available[at := content])
  {
    hide Fits, Open;
  }

  /** The transactions of a pool, under their witness hashes. */
  type Pool = seq<(nat, Tx)>

  ghost predicate Hashed(env: Env, pool: Pool) { forall i :: 0 <= i < |pool| ==> pool[i].0 == env.hash(pool[i].1) }

  ghost function Offered(pool: Pool): set<Tx> { set i | 0 <= i < |pool| :: pool[i].1 }

  /** Every short id leads to an open place it stands for. */
  ghost predicate Leads(c: Cmpct, placed: Places, ids: map<nat, nat>)
    requires Open(placed, |placed|) == |c.shortIds|
  {
    forall id :: id in ids ==>
      && ids[id] < |placed| && placed[ids[id]].None? && Open(placed, ids[id]) < |c.shortIds|
      && c.shortIds[Open(placed, ids[id])] == id
  }

  /** The first i short ids, each at the place it stands for if no two of them are equal. */
  ghost predicate Mapped(c: Cmpct, placed: Places, ids: map<nat, nat>, i: nat)
    requires Open(placed, |placed|) == |c.shortIds|
  {
    && i <= |c.shortIds| && Leads(c, placed, ids) && |ids| <= i
    && (forall k :: 0 <= k < i ==> c.shortIds[k] in ids)
    && (|ids| == i ==> forall k :: 0 <= k < i ==> Rank(placed, ids[c.shortIds[k]]) == k)
  }

  lemma NoneMapped(c: Cmpct, placed: Places)
    requires Open(placed, |placed|) == |c.shortIds|
    ensures Mapped(c, placed, map[], 0) && Open(placed, 0) == 0
  {
  }

  lemma MapOne(c: Cmpct, placed: Places, ids: map<nat, nat>, i: nat, at: nat)
    requires Open(placed, |placed|) == |c.shortIds| && Mapped(c, placed, ids, i) && i < |c.shortIds|
    requires at < |placed| && placed[at].None? && Open(placed, at) == i
    ensures Mapped(c, placed, ids[c.shortIds[i] := at], i + 1)
  {
    hide Open, Leads, Rank;
    var id, ids' := c.shortIds[i], ids[c.shortIds[i] := at];
    MapGrows(ids, id, at);
    LeadsMore(c, placed, ids, i, at);
    assert Rank(placed, at) == i by { RankIs(placed, at); }
    forall k | 0 <= k < i && id !in ids ensures ids'[c.shortIds[k]] == ids[c.shortIds[k]] {
      assert c.shortIds[k] in ids;
    }
  }

  lemma RankIs(p: Places, i: nat)
    requires i <= |p|
    ensures Rank(p, i) == Open(p, i)
  {
  }

  lemma MapGrows(ids: map<nat, nat>, id: nat, at: nat)
    ensures |ids[id := at]| == |ids| + if id in ids then 0 else 1
  {
    assert ids[id := at].Keys == ids.Keys + {id};
    assert |ids[id := at].Keys| == |ids.Keys| + if id in ids then 0 else 1;
  }

  lemma LeadsMore(c: Cmpct, placed: Places, ids: map<nat, nat>, i: nat, at: nat)
    requires Open(placed, |placed|) == |c.shortIds| && Leads(c, placed, ids) && i < |c.shortIds|
    requires at < |placed| && placed[at].None? && Open(placed, at) == i
    ensures Leads(c, placed, ids[c.shortIds[i] := at])
  {
    hide Open;
  }

  lemma AllMapped(c: Cmpct, placed: Places, ids: map<nat, nat>, i: nat)
    requires Open(placed, |placed|) == |c.shortIds| && Mapped(c, placed, ids, i)
    ensures Leads(c, placed, ids)
    ensures i == |c.shortIds| == |ids| ==>
      forall k :: 0 <= k < |c.shortIds| ==> c.shortIds[k] in ids && Rank(placed, ids[c.shortIds[k]]) == k
  {
  }

  // ----- what is found -----

  /** No short id occurs twice in the pool, and offers with equal short ids are the same transaction. */
  ghost predicate Unambiguous(env: Env, pool: Pool, offered: set<Tx>) {
    && (forall i, j :: 0 <= i < j < |pool| ==> env.short(pool[i].0) != env.short(pool[j].0))
    && SameHash(env, offered)
  }

  ghost predicate SameHash(env: Env, offered: set<Tx>) {
    forall a, b :: a in offered && b in offered && ShortId(env, a) == ShortId(env, b) ==> env.hash(a) == env.hash(b)
  }

  /** Exactly the places of the given short ids are filled and marked. */
  ghost predicate Found(ids: map<nat, nat>, available: Places, have: seq<bool>, got: set<nat>) {
    && got <= ids.Keys && |have| == |available|
    && forall id :: id in ids ==>
         ids[id] < |available| && (id in got <==> have[ids[id]]) && (id in got <==> available[ids[id]].Some?)
  }

  lemma FoundOne(c: Cmpct, placed: Places, ids: map<nat, nat>, available: Places, have: seq<bool>, got: set<nat>, id: nat, tx: Tx)
    requires Open(placed, |placed|) == |c.shortIds| && Leads(c, placed, ids) && Found(ids, available, have, got)
    requires id in ids && id !in got
    ensures var at := ids[id]; Found(ids, available[at := Some(tx)], have[at := true], got + {id})
  {
    hide Open;
  }

  lemma FitLength(env: Env, c: Cmpct, placed: Places, offered: set<Tx>, available: Places)
    requires Open(placed, |placed|) == |c.shortIds| && AllFit(env, c, placed, offered, available)
    ensures |available| == |placed|
  {
  }

  /** At the place of its short id an offered transaction fits, and so does nothing; what is there
      already is, where equal short ids mean equal transactions, the same one. */
  lemma LeadsTo(env: Env, c: Cmpct, placed: Places, ids: map<nat, nat>, offered: set<Tx>, available: Places, tx: Tx)
    requires Open(placed, |placed|) == |c.shortIds| && Leads(c, placed, ids) && AllFit(env, c, placed, offered, available)
    requires tx in offered && ShortId(env, tx) in ids
    ensures var at := ids[ShortId(env, tx)];
      && at < |placed| == |available|
      && Fits(env, c, placed, offered, at, Some(tx)) && Fits(env, c, placed, offered, at, None)
      && (SameHash(env, offered) && available[at].Some? ==> env.hash(available[at].value) == env.hash(tx))
  {
    hide Open;
    var at := ids[ShortId(env, tx)];
    assert Fits(env, c, placed, offered, at, available[at]);
    hide AllFit;
  }

  lemma FoundAt(ids: map<nat, nat>, available: Places, have: seq<bool>, got: set<nat>)
    requires Found(ids, available, have, got)
    ensures got <= ids.Keys && forall id :: id in ids ==> ids[id] < |available| && |have| == |available| && (id in got <==> have[ids[id]])
  {
  }

  lemma NoneFound(c: Cmpct, placed: Places, ids: map<nat, nat>, have: seq<bool>)
    requires Open(placed, |placed|) == |c.shortIds| && Leads(c, placed, ids)
    requires |have| == |placed| && forall i :: 0 <= i < |have| ==> !have[i]
    ensures Found(ids, placed, have, {})
  {
    hide Open;
  }

  lemma SameRank(p: Places, i: nat, j: nat)
    requires i < |p| && j < |p| && p[i].None? && p[j].None? && Open(p, i) == Open(p, j)
    ensures i == j
  {
    RankBelow(p, i, j);
    RankBelow(p, j, i);
  }

  lemma RankBelow(p: Places, i: nat, j: nat)
    requires i < |p| && j < |p| && p[i].None?
    ensures i < j ==> Open(p, i) < Open(p, j)
  {
    if i < j { OpenGrows(p, i + 1, j); }
  }

  /** The short ids of the first n entries of a pool. */
  ghost function Shorts(env: Env, pool: Pool, n: nat): set<nat>
    requires n <= |pool|
  {
    set k | 0 <= k < n :: env.short(pool[k].0)
  }

  lemma MoreShorts(env: Env, pool: Pool, n: nat)
    requires n < |pool|
    ensures Shorts(env, pool, n + 1) == Shorts(env, pool, n) + {env.short(pool[n].0)}
  {
  }

  lemma NewShort(env: Env, pool: Pool, n: nat, offered: set<Tx>)
    requires n < |pool| && Unambiguous(env, pool, offered)
    ensures env.short(pool[n].0) !in Shorts(env, pool, n)
  {
    forall k | 0 <= k < n ensures env.short(pool[k].0) != env.short(pool[n].0) { }
  }

  /** Every open place whose short id is on offer is filled. */
  ghost predicate AllFound(env: Env, c: Cmpct, offered: set<Tx>, placed: Places, available: Places)
    requires Open(placed, |placed|) == |c.shortIds| && |available| == |placed|
  {
    forall i, tx :: 0 <= i < |placed| && placed[i].None? && tx in offered && ShortId(env, tx) == IdAt(c, placed, i) ==>
      available[i].Some?
  }

  function IdAt(c: Cmpct, placed: Places, i: nat): nat
    requires i < |placed| && placed[i].None? && Open(placed, |placed|) == |c.shortIds|
  {
    OpenPlace(placed, i);
    c.shortIds[Open(placed, i)]
  }

  lemma FoundIsAll(env: Env, c: Cmpct, placed: Places, ids: map<nat, nat>, available: Places, have: seq<bool>, got: set<nat>,
                   offered: set<Tx>)
    requires Open(placed, |placed|) == |c.shortIds| && Leads(c, placed, ids) && |available| == |placed|
    requires Found(ids, available, have, got)
    requires forall k :: 0 <= k < |c.shortIds| ==> c.shortIds[k] in ids && Rank(placed, ids[c.shortIds[k]]) == k
    requires forall tx :: tx in offered && ShortId(env, tx) in ids ==> ShortId(env, tx) in got
    ensures AllFound(env, c, offered, placed, available)
  {
    hide Open;
    forall i, tx | 0 <= i < |placed| && placed[i].None? && tx in offered && ShortId(env, tx) == IdAt(c, placed, i)
      ensures available[i].Some?
    {
      OpenPlace(placed, i);
      var id := c.shortIds[Open(placed, i)];
      SameRank(placed, i, ids[id]);
    }
  }

  class PartiallyDownloadedBlock {
    var available: Places
    var mempoolCount: int
    const env: Env

    constructor (env: Env)
      ensures this.env == env && available == [] && mempoolCount == 0
    {
      this.env := env;
      available, mempoolCount := [], 0;
    }

    /** The prefilled transactions; no index leaves the block. */
    method EnterPrefilled(c: Cmpct) returns (ok: bool)
      modifies `available
      ensures ok <==> Entered(env, c).Some?
      ensures ok ==> available == Entered(env, c).value
    {
      available := Empty(c);
      var last, i := -1, 0;
      while i < |c.prefilled|
        invariant i <= |c.prefilled| && -1 <= last && |available| == |c.shortIds| + |c.prefilled|
        invariant Entered(env, c) == Enter(env, c, available, last, i)
      {
        if env.isNull(c.prefilled[i].tx) { return false; }
        last := last + c.prefilled[i].index + 1;
        if last > MAX_INDEX { return false; }
        if last > |c.shortIds| + i { return false; }
        available := available[last := Some(c.prefilled[i].tx)];
        i := i + 1;
      }
      return true;
    }

    /** The i-th short id stands for the i-th open place, and the search never leaves the block.
        `crowded` is the hash table's answer to whether a bucket got too full. */
    method MapShortIds(c: Cmpct, crowded: nat -> bool) returns (ids: map<nat, nat>, ok: bool)
      requires Open(available, |available|) == |c.shortIds|
      ensures Leads(c, available, ids)
      ensures ok ==> |ids| == |c.shortIds|
      ensures ok ==> forall i :: 0 <= i < |c.shortIds| ==> c.shortIds[i] in ids && Rank(available, ids[c.shortIds[i]]) == i
      ensures !ok ==> (exists i :: 0 <= i < |c.shortIds| && crowded(i)) || |ids| != |c.shortIds|
    {
      hide Open, Mapped;
      ids := map[];
      var offset, i := 0, 0;
      NoneMapped(c, available);
      while i < |c.shortIds|
        invariant i <= |c.shortIds| && i + offset <= |available| && Open(available, i + offset) == i
        invariant Mapped(c, available, ids, i)
      {
        offset := SkipFilled(i, offset);
        MapOne(c, available, ids, i, i + offset);
        ids := ids[c.shortIds[i] := i + offset];
        i := i + 1;
        if crowded(i - 1) {
          AllMapped(c, available, ids, i);
          return ids, false;
        }
      }
      AllMapped(c, available, ids, i);
      return ids, |ids| == |c.shortIds|;
    }

    /** The next open place; there is one as long as fewer have been passed than there are. */
    method SkipFilled(i: nat, from: nat) returns (offset: nat)
      requires i + from <= |available| && Open(available, i + from) == i < Open(available, |available|)
      ensures from <= offset && i + offset < |available| && available[i + offset].None?
      ensures Open(available, i + offset) == i && Open(available, i + offset + 1) == i + 1
    {
      offset := from;
      while available[i + offset].Some?
        invariant from <= offset && i + offset < |available| && Open(available, i + offset) == i
        decreases |available| - offset
      {
        OpenGrows(available, i + offset + 1, |available|);
        offset := offset + 1;
      }
    }

    /** One transaction on offer. A second one for the same place empties it again, unless it is
        the same one from the extra pool. */
    method Offer(tx: Tx, hash: nat, extra: bool, ids: map<nat, nat>, have: seq<bool>, ghost c: Cmpct, ghost placed: Places,
                 ghost offered: set<Tx>, ghost clean: bool, ghost got: set<nat>)
      returns (have': seq<bool>, ghost got': set<nat>)
      requires Open(placed, |placed|) == |c.shortIds| && Leads(c, placed, ids) && AllFit(env, c, placed, offered, available)
      requires tx in offered && hash == env.hash(tx) && |have| == |placed|
      requires clean ==> Found(ids, available, have, got) && mempoolCount == |got| && SameHash(env, offered)
      requires clean && !extra ==> env.short(hash) !in got
      modifies `available, `mempoolCount
      ensures AllFit(env, c, placed, offered, available) && |have'| == |placed|
      ensures clean ==> Found(ids, available, have', got') && mempoolCount == |got'|
      ensures clean ==> got' == got + if env.short(hash) in ids then {env.short(hash)} else {}
    {
      hide Open, Found, AllFit, SameHash, Leads;
      have', got' := have, got;
      if clean { FoundAt(ids, available, have, got); }
      var id := env.short(hash);
      FitLength(env, c, placed, offered, available);
      if id in ids {
        var at := ids[id];
        LeadsTo(env, c, placed, ids, offered, available, tx);
        if !have[at] {
          if clean { FoundOne(c, placed, ids, available, have, got, id, tx); }
          ChangeFits(env, c, placed, offered, available, at, Some(tx));
          available := available[at := Some(tx)];
          have' := have[at := true];
          mempoolCount := mempoolCount + 1;
          got' := got + {id};
        } else if available[at].Some? && (!extra || env.hash(available[at].value) != env.hash(tx)) {
          ChangeFits(env, c, placed, offered, available, at, None);
          available := available[at := None];
          mempoolCount := mempoolCount - 1;
        }
      }
    }

    method Scan(pool: Pool, extra: bool, ids: map<nat, nat>, have: seq<bool>, ghost c: Cmpct, ghost placed: Places,
                ghost offered: set<Tx>, ghost clean: bool, ghost got: set<nat>)
      returns (have': seq<bool>, ghost got': set<nat>)
      requires Open(placed, |placed|) == |c.shortIds| && Leads(c, placed, ids) && AllFit(env, c, placed, offered, available)
      requires Hashed(env, pool) && Offered(pool) <= offered && |have| == |placed|
      requires clean ==> Found(ids, available, have, got) && mempoolCount == |got| && SameHash(env, offered)
      requires clean && !extra ==> got == {} && Unambiguous(env, pool, offered)
      modifies `available, `mempoolCount
      ensures AllFit(env, c, placed, offered, available) && |have'| == |placed|
      ensures clean ==> Found(ids, available, have', got') && mempoolCount == |got'| && got <= got'
      ensures clean ==> Shorts(env, pool, |pool|) * ids.Keys <= got'
    {
      hide Fits, Leads, Open, Found, SameHash, Shorts, Unambiguous, Hashed, Offered, AllFit;
      assert Shorts(env, pool, 0) == {} by { NoShorts(env, pool); }
      have', got' := have, got;
      var i := 0;
      while i < |pool|
        invariant i <= |pool| && AllFit(env, c, placed, offered, available) && |have'| == |placed|
        invariant clean ==> Found(ids, available, have', got') && mempoolCount == |got'| && got <= got'
        invariant clean ==> Shorts(env, pool, i) * ids.Keys <= got' && (!extra ==> got' <= Shorts(env, pool, i))
      {
        MoreShorts(env, pool, i);
        if clean && !extra { NewShort(env, pool, i, offered); }
        OneOffered(env, pool, i, offered);
        have', got' := Offer(pool[i].1, pool[i].0, extra, ids, have', c, placed, offered, clean, got');
        if mempoolCount == |ids| {
          if clean { EverythingFound(ids, available, have', got'); }
          return;
        }
        i := i + 1;
      }
    }

    /** A message is invalid exactly if it is malformed; on success every place holds what was
        prefilled, nothing, or an offered transaction with the short id of the place, and nothing
        only if none is on offer or the offers are ambiguous. */
    method InitData(c: Cmpct, pool: Pool, extra: Pool, crowded: nat -> bool) returns (status: Status)
      requires available == [] && mempoolCount == 0 && Hashed(env, pool) && Hashed(env, extra)
      modifies this
      ensures status == INVALID <==>
        || c.nullHeader || (c.shortIds == [] && c.prefilled == [])
        || |c.shortIds| + |c.prefilled| > MAX_TRANSACTIONS || Entered(env, c).None?
      ensures status == OK ==> Complete(env, c, Offered(pool) + Offered(extra), available)
      ensures status == OK && Unambiguous(env, pool, Offered(pool) + Offered(extra)) ==>
        Exhausted(env, c, Offered(pool) + Offered(extra), available)
      ensures status in {OK, INVALID, FAILED}
    {
      hide Open, Enter, Fits, Leads, Offered, Found, Unambiguous, SameHash, AllFound, Shorts, Hashed;
      if c.nullHeader || (c.shortIds == [] && c.prefilled == []) { return INVALID; }
      if |c.shortIds| + |c.prefilled| > MAX_TRANSACTIONS { return INVALID; }
      var entered := EnterPrefilled(c);
      if !entered { return INVALID; }
      ghost var placed, offered := available, Offered(pool) + Offered(extra);
      EnteredLeavesOpen(env, c);
      var ids, ok := MapShortIds(c, crowded);
      if !ok { return FAILED; }
      var have := seq(|available|, _ => false);
      NothingYet(env, c, placed, offered);
      NoneFound(c, placed, ids, have);
      ghost var clean := Unambiguous(env, pool, offered);
      if clean { OffersAgree(env, pool, offered); }
      ghost var first, second;
      have, first := Scan(pool, false, ids, have, c, placed, offered, clean, {});
      have, second := Scan(extra, true, ids, have, c, placed, offered, clean, first);
      if clean {
        OfferedFound(env, pool, extra, ids, second);
        FoundIsAll(env, c, placed, ids, available, have, second, offered);
      }
      return OK;
    }

    /** The missing transactions in order fill the open places, all of them and no others; then the
        block check decides. */
    method FillBlock(missing: seq<Tx>, check: seq<Tx> -> Verdict) returns (status: Status, vtx: seq<Tx>)
      modifies this
      ensures status == INVALID <==> |missing| != Open(old(available), |old(available)|)
      ensures status != INVALID ==> vtx == Filled(old(available), missing) && available == []
      ensures status != INVALID ==>
        status == match check(vtx) { case Valid => OK case Mutated => FAILED case Wrong => CHECKBLOCK_FAILED }
    {
      vtx := [];
      var offset, i := 0, 0;
      while i < |available|
        invariant i <= |available| == |vtx| + |available| - i && available == old(available)
        invariant offset == Open(available, i) <= |missing| && |vtx| == i
        invariant forall k :: 0 <= k < i ==> vtx[k] == Content(available, missing, k)
      {
        OpenGrows(available, i + 1, |available|);
        if available[i].None? {
          if |missing| <= offset { return INVALID, []; }
          vtx := vtx + [missing[offset]];
          offset := offset + 1;
        } else {
          vtx := vtx + [available[i].value];
        }
        i := i + 1;
      }
      available := [];
      if |missing| != offset { return INVALID, []; }
      var verdict := check(vtx);
      if verdict != Valid {
        return if verdict == Mutated then FAILED else CHECKBLOCK_FAILED, vtx;
      }
      return OK, vtx;
    }
  }

  ghost predicate Complete(env: Env, c: Cmpct, offered: set<Tx>, available: Places) {
    Entered(env, c).Some? &&
    var placed := Entered(env, c).value;
    EnteredLeavesOpen(env, c);
    |available| == |placed| && forall i :: 0 <= i < |placed| ==> Fits(env, c, placed, offered, i, available[i])
  }

  ghost predicate Exhausted(env: Env, c: Cmpct, offered: set<Tx>, available: Places) {
    Entered(env, c).Some? &&
    var placed := Entered(env, c).value;
    EnteredLeavesOpen(env, c);
    |available| == |placed| && AllFound(env, c, offered, placed, available)
  }

  lemma EverythingFound(ids: map<nat, nat>, available: Places, have: seq<bool>, got: set<nat>)
    requires Found(ids, available, have, got) && |got| == |ids|
    ensures got == ids.Keys
  {
    assert |ids| == |ids.Keys|;
    Sets.SubsetSameSize(got, ids.Keys);
  }

  lemma OffersAgree(env: Env, pool: Pool, offered: set<Tx>)
    requires Unambiguous(env, pool, offered)
    ensures SameHash(env, offered)
  {
  }

  lemma NoShorts(env: Env, pool: Pool)
    ensures Shorts(env, pool, 0) == {}
  {
  }

  lemma OneOffered(env: Env, pool: Pool, i: nat, offered: set<Tx>)
    requires Hashed(env, pool) && Offered(pool) <= offered && i < |pool|
    ensures pool[i].1 in offered && pool[i].0 == env.hash(pool[i].1)
  {
    assert pool[i].1 in Offered(pool);
  }

  lemma OfferedFound(env: Env, pool: Pool, extra: Pool, ids: map<nat, nat>, got: set<nat>)
    requires Hashed(env, pool) && Hashed(env, extra)
    requires Shorts(env, pool, |pool|) * ids.Keys <= got && Shorts(env, extra, |extra|) * ids.Keys <= got
    ensures forall tx :: tx in Offered(pool) + Offered(extra) && ShortId(env, tx) in ids ==> ShortId(env, tx) in got
  {
    forall tx | tx in Offered(pool) + Offered(extra) && ShortId(env, tx) in ids ensures ShortId(env, tx) in got {
      if tx in Offered(pool) {
        var k :| 0 <= k < |pool| && pool[k].1 == tx;
        assert env.short(pool[k].0) in Shorts(env, pool, |pool|) * ids.Keys;
      } else {
        var k :| 0 <= k < |extra| && extra[k].1 == tx;
        assert env.short(extra[k].0) in Shorts(env, extra, |extra|) * ids.Keys;
      }
    }
  }

  lemma NothingYet(env: Env, c: Cmpct, placed: Places, offered: set<Tx>)
    requires Open(placed, |placed|) == |c.shortIds|
    ensures AllFit(env, c, placed, offered, placed)
  {
  }

  function Content(p: Places, missing: seq<Tx>, i: nat): Tx
    requires i < |p|
  {
    if p[i].Some? then p[i].value else if Open(p, i) < |missing| then missing[Open(p, i)] else 0
  }

  function Filled(p: Places, missing: seq<Tx>): seq<Tx> {
    seq(|p|, i requires 0 <= i < |p| => Content(p, missing, i))
  }

  // ----- a block comes back -----

  /** The transactions at the open places among the first n, in order. */
  function Missing(vtx: seq<Tx>, p: Places, n: nat): (m: seq<Tx>)
    requires |vtx| == |p| && n <= |p|
    ensures |m| == Open(p, n)
  {
    if n == 0 then [] else Missing(vtx, p, n - 1) + if p[n - 1].None? then [vtx[n - 1]] else []
  }

  lemma {:induction false} MissingAt(vtx: seq<Tx>, p: Places, i: nat, n: nat)
    requires |vtx| == |p| && i < n <= |p| && p[i].None?
    ensures Open(p, i) < Open(p, n) && Missing(vtx, p, n)[Open(p, i)] == vtx[i]
  {
    if i < n - 1 { MissingAt(vtx, p, i, n - 1); }
  }

  /** A block's own compact form is entered unless its first transaction is null, and then place
      i stands for short id i - 1. */
  lemma OwnPlaces(env: Env, vtx: seq<Tx>)
    requires vtx != []
    ensures var c := Shorten(env, vtx);
      && (Entered(env, c).Some? <==> !env.isNull(vtx[0]))
      && (Entered(env, c).Some? ==> Entered(env, c).value == Empty(c)[0 := Some(vtx[0])])
  {
    var c := Shorten(env, vtx);
    var p := Empty(c)[0 := Some(vtx[0])];
    assert Enter(env, c, p, 0, 1) == Some(p);
  }

  lemma {:induction false} OwnRank(p: Places, i: nat)
    requires 0 < i <= |p| && p[0].Some? && forall k :: 0 < k < |p| ==> p[k].None?
    ensures Open(p, i) == i - 1
  {
    if i > 1 { OwnRank(p, i - 1); }
  }

  ghost predicate DistinctIds(env: Env, txs: set<Tx>) {
    forall a, b :: a in txs && b in txs && ShortId(env, a) == ShortId(env, b) ==> a == b
  }

  /** If no two transactions involved share a short id, whatever was found is the right one, and the
      missing transactions complete the very block. */
  lemma Reconstructs(env: Env, vtx: seq<Tx>, offered: set<Tx>, available: Places)
    requires vtx != [] && DistinctIds(env, offered + (set t | t in vtx))
    requires Complete(env, Shorten(env, vtx), offered, available)
    ensures |available| == |vtx|
    ensures Filled(available, Missing(vtx, available, |available|)) == vtx
  {
    hide Open, Enter, Fits, Missing;
    OwnPlaces(env, vtx);
    EnteredLeavesOpen(env, Shorten(env, vtx));
    forall i | 0 <= i < |vtx| ensures Content(available, Missing(vtx, available, |available|), i) == vtx[i] {
      ContentRight(env, vtx, offered, available, i);
    }
  }

  lemma ContentRight(env: Env, vtx: seq<Tx>, offered: set<Tx>, available: Places, i: nat)
    requires vtx != [] && DistinctIds(env, offered + (set t | t in vtx)) && i < |vtx| == |available|
    requires Complete(env, Shorten(env, vtx), offered, available)
    ensures Content(available, Missing(vtx, available, |available|), i) == vtx[i]
  {
    hide Open, Enter, Missing, DistinctIds;
    var c := Shorten(env, vtx);
    OwnPlaces(env, vtx);
    EnteredLeavesOpen(env, c);
    var placed := Entered(env, c).value;
    assert Fits(env, c, placed, offered, i, available[i]);
    if available[i].None? {
      MissingAt(vtx, available, i, |available|);
    } else if i > 0 {
      OwnRank(placed, i);
      RightOne(env, vtx, offered, available[i].value, i);
    }
  }

  lemma RightOne(env: Env, vtx: seq<Tx>, offered: set<Tx>, tx: Tx, i: nat)
    requires DistinctIds(env, offered + (set t | t in vtx)) && i < |vtx| && tx in offered
    requires ShortId(env, tx) == ShortId(env, vtx[i])
    ensures tx == vtx[i]
  {
    assert vtx[i] in offered + (set t | t in vtx);
  }
}
