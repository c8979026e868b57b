/** Header download in two phases: the first remembers one bit for every 584th header of the
    peer's chain, the second replays them against what the peer sends again. */
module HeadersSync {

  const HEADER_COMMITMENT_PERIOD := 584
  const REDOWNLOAD_BUFFER_SIZE := 13959
  const TWO_31 := 0x8000_0000
  const TWO_32 := 0x1_0000_0000
  const TWO_64 := 0x1_0000_0000_0000_0000
  const TWO_256 := 0x1_0000000000000000_0000000000000000_0000000000000000_0000000000000000

  /** Block hashes; 0 is the null hash. */
  type Hash = nat

  datatype Header = Header(version: int, prev: Hash, merkle: Hash, witnessRoot: Hash, time: nat, bits: nat, nonce: nat)

  /** A header without the hash of its predecessor and without the witness root. */
  datatype Compressed = Compressed(version: int, merkle: Hash, time: nat, bits: nat, nonce: nat)

  function Compress(h: Header): Compressed { Compressed(h.version, h.merkle, h.time, h.bits, h.nonce) }

  function GetFullHeader(c: Compressed, prev: Hash): Header {
    Header(c.version, prev, c.merkle, 0, c.time, c.bits, c.nonce)
  }

  /** What a sync is given: the block it starts from, its parameters, and the functions it relies
      on: the block hash, the salted bit, the proof of work of a target, and the rule for how
      fast the difficulty may change. */
  datatype Env = Env(
    start: Header, startHeight: nat, startWork: nat, minWork: nat, offset: nat, maxCommitments: nat,
    hash: Header -> Hash, bit: Hash -> bool, proof: nat -> nat, permitted: (int, nat, nat) -> bool)

  datatype Phase = Presync | Redownload | Final

  datatype Sync = Sync(
    phase: Phase, work: nat, commitments: seq<bool>, last: Header, height: int,
    buffer: seq<Compressed>, bufferHeight: int, lastHash: Hash, firstPrev: Hash, redownloadWork: nat, processAll: bool)

  datatype Result = Result(headers: seq<Header>, success: bool, requestMore: bool)

  const NULL_HEADER := Header(0, 0, 0, 0, 0, 0, 0)

  function AddWork(a: nat, b: nat): nat { (a + b) % TWO_256 }

  /** The height of the first phase passes through a 32-bit integer. */
  function ToInt32(x: int): int { (x + TWO_31) % TWO_32 - TWO_31 }

  predicate CommitAt(env: Env, height: int) { height % TWO_64 % HEADER_COMMITMENT_PERIOD == env.offset }

  function Begin(env: Env): Sync {
    Sync(Presync, env.startWork, [], env.start, env.startHeight, [], 0, 0, 0, 0, false)
  }

  // ----- the two phases, header by header -----

  function PresyncOne(env: Env, st: Sync, h: Header): (Sync, bool) {
    var next := ToInt32(st.height + 1);
    if !env.permitted(next, st.last.bits, h.bits) then (st, false)
    else
      var st' := if CommitAt(env, next) then st.(commitments := st.commitments + [env.bit(env.hash(h))]) else st;
      if CommitAt(env, next) && |st'.commitments| > env.maxCommitments then (st', false)
      else (st'.(work := AddWork(st.work, env.proof(h.bits)), last := h, height := next), true)
  }

  function PresyncAll(env: Env, st: Sync, hs: seq<Header>): (Sync, bool) {
    if hs == [] then (st, true)
    else
      var (mid, ok) := PresyncAll(env, st, hs[..|hs| - 1]);
      if ok then PresyncOne(env, mid, hs[|hs| - 1]) else (mid, false)
  }

  /** A whole message of the first phase; enough work starts the second. */
  function StoreCommitments(env: Env, st: Sync, hs: seq<Header>): (Sync, bool)
    requires hs != []
  {
    if hs[0].prev != env.hash(st.last) then (st, false)
    else
      var (st', ok) := PresyncAll(env, st, hs);
      if ok && st'.work >= env.minWork then (ToRedownload(env, st'), true) else (st', ok)
  }

  function ToRedownload(env: Env, st: Sync): Sync {
    st.(buffer := [], bufferHeight := env.startHeight, firstPrev := env.hash(env.start),
        lastHash := env.hash(env.start), redownloadWork := env.startWork, phase := Redownload)
  }

  function PreviousBits(env: Env, st: Sync): nat {
    if st.buffer != [] then st.buffer[|st.buffer| - 1].bits else env.start.bits
  }

  function RedownloadOne(env: Env, st: Sync, h: Header): (Sync, bool) {
    var next := st.bufferHeight + 1;
    if h.prev != st.lastHash then (st, false)
    else if !env.permitted(next, PreviousBits(env, st), h.bits) then (st, false)
    else
      var work := AddWork(st.redownloadWork, env.proof(h.bits));
      var all := st.processAll || work >= env.minWork;
      var st1 := st.(redownloadWork := work, processAll := all);
      var due := !all && CommitAt(env, next);
      if due && st.commitments == [] then (st1, false)
      else
        var st2 := if due then st1.(commitments := st.commitments[1..]) else st1;
        if due && st.commitments[0] != env.bit(env.hash(h)) then (st2, false)
        else (st2.(buffer := st.buffer + [Compress(h)], bufferHeight := next, lastHash := env.hash(h)), true)
  }

  function RedownloadAll(env: Env, st: Sync, hs: seq<Header>): (Sync, bool) {
    if hs == [] then (st, true)
    else
      var (mid, ok) := RedownloadAll(env, st, hs[..|hs| - 1]);
      if ok then RedownloadOne(env, mid, hs[|hs| - 1]) else (mid, false)
  }

  predicate Ready(st: Sync) {
    |st.buffer| > REDOWNLOAD_BUFFER_SIZE || (st.buffer != [] && st.processAll)
  }

  function Release(env: Env, st: Sync): (Sync, seq<Header>)
    decreases |st.buffer|
  {
    if !Ready(st) then (st, [])
    else
      var h := GetFullHeader(st.buffer[0], st.firstPrev);
      var (st', rest) := Release(env, st.(buffer := st.buffer[1..], firstPrev := env.hash(h)));
      (st', [h] + rest)
  }

  function Finalize(st: Sync): Sync {
    st.(phase := Final, commitments := [], last := NULL_HEADER, buffer := [], lastHash := 0, firstPrev := 0,
        processAll := false, height := 0)
  }

  function Process(env: Env, st: Sync, hs: seq<Header>, full: bool): (Sync, Result) {
    if hs == [] || st.phase.Final? then (st, Result([], false, false))
    else if st.phase.Presync? then
      var (st', ok) := StoreCommitments(env, st, hs);
      var more := ok && (full || st'.phase.Redownload?);
      (if more then st' else Finalize(st'), Result([], ok, more))
    else
      var (st', ok) := RedownloadAll(env, st, hs);
      if !ok then (Finalize(st'), Result([], false, false))
      else
        var (st'', headers) := Release(env, st');
        var more := !(st''.buffer == [] && st''.processAll) && full;
        (if more then st'' else Finalize(st''), Result(headers, true, more))
  }

  // ----- what the headers of a chain amount to -----

  /** The work of the start block and the given headers. */
  function WorkOf(env: Env, hs: seq<Header>): nat {
    if hs == [] then env.startWork else AddWork(WorkOf(env, hs[..|hs| - 1]), env.proof(hs[|hs| - 1].bits))
  }

  /** Whether the work was enough at some point of the chain. */
  predicate Enough(env: Env, hs: seq<Header>) {
    hs != [] && (Enough(env, hs[..|hs| - 1]) || WorkOf(env, hs) >= env.minWork)
  }

  /** The bits of all headers at commitment heights. */
  function Bits(env: Env, hs: seq<Header>): seq<bool> {
    if hs == [] then []
    else Bits(env, hs[..|hs| - 1]) + BitOf(env, HeightOf(env, hs), hs[|hs| - 1])
  }

  function BitOf(env: Env, height: int, h: Header): seq<bool> {
    if CommitAt(env, height) then [env.bit(env.hash(h))] else []
  }

  /** The bits of those headers that come before the work is enough. */
  function CheckedBits(env: Env, hs: seq<Header>): seq<bool> {
    if hs == [] then []
    else CheckedBits(env, hs[..|hs| - 1]) +
         if Enough(env, hs) then [] else BitOf(env, HeightOf(env, hs), hs[|hs| - 1])
  }

  function TipOf(env: Env, hs: seq<Header>): Header { if hs == [] then env.start else hs[|hs| - 1] }

  function HeightOf(env: Env, hs: seq<Header>): int { env.startHeight + |hs| }

  /** Each header names its predecessor, the first one the start block. */
  predicate Linked(env: Env, hs: seq<Header>) {
    hs == [] || (Linked(env, hs[..|hs| - 1]) && hs[|hs| - 1].prev == env.hash(TipOf(env, hs[..|hs| - 1])))
  }

  /** No change of difficulty is too steep. */
  predicate Gradual(env: Env, hs: seq<Header>) {
    hs == [] ||
    (Gradual(env, hs[..|hs| - 1]) &&
     env.permitted(HeightOf(env, hs), TipOf(env, hs[..|hs| - 1]).bits, hs[|hs| - 1].bits))
  }

  /** The headers accepted in each phase and those handed out. */
  datatype History = History(pre: seq<Header>, red: seq<Header>, out: seq<Header>)

  /** Handed-out headers are the redownloaded ones, compressed, relinked and without witness root. */
  predicate Rebuilt(env: Env, red: seq<Header>, out: seq<Header>) {
    && |out| <= |red| && Linked(env, out)
    && forall i :: 0 <= i < |out| ==> Compress(out[i]) == Compress(red[i]) && out[i].witnessRoot == 0
  }

  predicate PresyncOk(env: Env, st: Sync, pre: seq<Header>) {
    && st.work == WorkOf(env, pre) && st.commitments == Bits(env, pre) && |st.commitments| <= env.maxCommitments
    && st.last == TipOf(env, pre) && st.height == HeightOf(env, pre)
    && Linked(env, pre) && Gradual(env, pre)
  }

  /** The commitments that are left are those of the first chain above the second one's tip. */
  predicate CommitmentsOk(env: Env, st: Sync, hist: History) {
    && WorkOf(env, hist.pre) >= env.minWork && Linked(env, hist.pre) && Gradual(env, hist.pre)
    && |Bits(env, hist.pre)| <= env.maxCommitments
    && Bits(env, hist.pre) == CheckedBits(env, hist.red) + st.commitments
    && st.processAll == Enough(env, hist.red) && st.redownloadWork == WorkOf(env, hist.red)
  }

  predicate BufferOk(env: Env, st: Sync, hist: History) {
    && Linked(env, hist.red) && Rebuilt(env, hist.red, hist.out)
    && |st.buffer| == |hist.red| - |hist.out|
    && (forall i :: 0 <= i < |st.buffer| ==> st.buffer[i] == Compress(hist.red[|hist.out| + i]))
    && st.bufferHeight == HeightOf(env, hist.red) && st.lastHash == env.hash(TipOf(env, hist.red))
    && st.firstPrev == env.hash(TipOf(env, hist.out))
  }

  /** The buffer holds the last header of the second chain, so its difficulty is never lost. */
  predicate GradualOk(env: Env, st: Sync, hist: History) {
    Gradual(env, hist.red) && (st.buffer == [] ==> hist.red == [])
  }

  predicate RedownloadOk(env: Env, st: Sync, hist: History) {
    CommitmentsOk(env, st, hist) && BufferOk(env, st, hist) && GradualOk(env, st, hist)
  }

  /** Once anything has left the buffer, a whole buffer of checked headers stays behind. */
  predicate Withheld(env: Env, hist: History) {
    hist.out == [] || |hist.red| - |hist.out| >= REDOWNLOAD_BUFFER_SIZE
  }

  function Bit(env: Env, h: Header): bool { env.bit(env.hash(h)) }

  /** Header k of the second chain stands at a commitment height, before the work is enough. */
  predicate Checked(env: Env, red: seq<Header>, k: nat)
    requires k < |red|
  {
    CommitAt(env, HeightOf(env, red[..k + 1])) && !Enough(env, red[..k + 1])
  }

  /** Every checked header of the second chain has the bit of the first chain's header at the
      same height. */
  predicate SameBits(env: Env, red: seq<Header>, pre: seq<Header>) {
    forall k :: 0 <= k < |red| && Checked(env, red, k) ==> k < |pre| && Bit(env, red[k]) == Bit(env, pre[k])
  }

  /** What the second chain owes to the first: the first had enough work before anything was
      redownloaded, and the bits of the second agree with it until its own work is enough. */
  predicate Committed(env: Env, hist: History) {
    hist.red == [] ||
    (&& WorkOf(env, hist.pre) >= env.minWork && Linked(env, hist.pre) && Gradual(env, hist.pre)
     && |Bits(env, hist.pre)| <= env.maxCommitments && SameBits(env, hist.red, hist.pre)
     && Linked(env, hist.red) && Gradual(env, hist.red))
  }

  /** What holds of the headers whatever the phase. */
  predicate Sound(env: Env, hist: History) {
    && Committed(env, hist) && Rebuilt(env, hist.red, hist.out)
    && (Withheld(env, hist) || Enough(env, hist.red))
  }

  predicate Inv(env: Env, st: Sync, hist: History) {
    match st.phase
    case Presync =>
      PresyncOk(env, st, hist.pre) && hist.red == [] && hist.out == [] && !st.processAll && st.buffer == []
    case Redownload => RedownloadOk(env, st, hist) && Withheld(env, hist) && !st.processAll && !Ready(st)
    case Final => st.commitments == [] && st.buffer == [] && Sound(env, hist)
  }

  // ----- one more header -----

  lemma Snoc(env: Env, hs: seq<Header>, h: Header)
    ensures var all := hs + [h];
      && WorkOf(env, all) == AddWork(WorkOf(env, hs), env.proof(h.bits))
      && (Enough(env, all) <==> Enough(env, hs) || WorkOf(env, all) >= env.minWork)
      && Bits(env, all) == Bits(env, hs) + BitOf(env, HeightOf(env, all), h)
      && CheckedBits(env, all) ==
         CheckedBits(env, hs) + (if Enough(env, all) then [] else BitOf(env, HeightOf(env, all), h))
      && TipOf(env, all) == h && HeightOf(env, all) == HeightOf(env, hs) + 1
      && (Linked(env, all) <==> Linked(env, hs) && h.prev == env.hash(TipOf(env, hs)))
      && (Gradual(env, all) <==> Gradual(env, hs) && env.permitted(HeightOf(env, all), TipOf(env, hs).bits, h.bits))
  {
    hide AddWork, CommitAt;
    var all := hs + [h];
    assert all[..|all| - 1] == hs && all[|all| - 1] == h;
  }

  // ----- the first phase -----

  lemma PresyncOneKeeps(env: Env, st: Sync, pre: seq<Header>, h: Header)
    requires PresyncOk(env, st, pre) && h.prev == env.hash(TipOf(env, pre)) && env.startHeight + |pre| + 1 < TWO_31
    requires PresyncOne(env, st, h).1
    ensures PresyncOk(env, PresyncOne(env, st, h).0, pre + [h])
    ensures var st' := PresyncOne(env, st, h).0;
      st'.phase == st.phase && st'.processAll == st.processAll && st'.buffer == st.buffer
  {
    Snoc(env, pre, h);
    assert ToInt32(st.height + 1) == HeightOf(env, pre + [h]);
    hide Bits, WorkOf, Linked, Gradual, TipOf, AddWork, CommitAt, ToInt32, HeightOf;
  }

  /** What the caller has checked about a message. */
  predicate Continuous(env: Env, hs: seq<Header>) {
    forall i :: 0 < i < |hs| ==> hs[i].prev == env.hash(hs[i - 1])
  }

  lemma {:induction false} PresyncAllKeeps(env: Env, st: Sync, pre: seq<Header>, hs: seq<Header>)
    requires PresyncOk(env, st, pre) && Continuous(env, hs) && env.startHeight + |pre| + |hs| < TWO_31
    requires hs != [] ==> hs[0].prev == env.hash(TipOf(env, pre))
    requires PresyncAll(env, st, hs).1
    ensures PresyncOk(env, PresyncAll(env, st, hs).0, pre + hs)
    ensures var st' := PresyncAll(env, st, hs).0;
      st'.phase == st.phase && st'.processAll == st.processAll && st'.buffer == st.buffer
  {
    hide PresyncOk, PresyncOne;
    if hs == [] {
      assert pre + hs == pre;
    } else {
      var init, h := hs[..|hs| - 1], hs[|hs| - 1];
      assert init != [] ==> init[0] == hs[0];
      PresyncAllKeeps(env, st, pre, init);
      if init == [] {
        assert pre + init == pre;
      } else {
        assert TipOf(env, pre + init) == init[|init| - 1] == hs[|hs| - 2];
      }
      PresyncOneKeeps(env, PresyncAll(env, st, init).0, pre + init, h);
      assert pre + init + [h] == pre + hs;
    }
  }

  lemma StoreCommitmentsKeeps(env: Env, st: Sync, hist: History, hs: seq<Header>)
    requires Inv(env, st, hist) && st.phase.Presync? && hs != []
    requires Continuous(env, hs) && env.startHeight + |hist.pre| + |hs| < TWO_31
    requires StoreCommitments(env, st, hs).1
    ensures Inv(env, StoreCommitments(env, st, hs).0, hist.(pre := hist.pre + hs))
  {
    PresyncAllKeeps(env, st, hist.pre, hs);
    var pre := hist.pre + hs;
    hide Linked, Gradual, WorkOf, Bits, TipOf;
    if StoreCommitments(env, st, hs).0.phase.Redownload? {
      BeginRedownload(env, PresyncAll(env, st, hs).0, pre);
    }
  }

  lemma BeginRedownload(env: Env, mid: Sync, pre: seq<Header>)
    requires PresyncOk(env, mid, pre) && mid.work >= env.minWork && !mid.processAll
    ensures Inv(env, ToRedownload(env, mid), History(pre, [], []))
  {
  }

  // ----- the second phase -----

  lemma RedownloadOneKeeps(env: Env, st: Sync, hist: History, h: Header)
    requires RedownloadOk(env, st, hist) && RedownloadOne(env, st, h).1
    ensures RedownloadOk(env, RedownloadOne(env, st, h).0, hist.(red := hist.red + [h]))
    ensures RedownloadOne(env, st, h).0.phase == st.phase
  {
    CommitmentStep(env, st, hist, h);
    BufferStep(env, st, hist, h);
    GradualStep(env, st, hist, h);
    hide CommitmentsOk, BufferOk, GradualOk, RedownloadOne;
  }

  lemma LastBits(env: Env, st: Sync, hist: History)
    requires BufferOk(env, st, hist) && GradualOk(env, st, hist)
    ensures PreviousBits(env, st) == TipOf(env, hist.red).bits
  {
    hide Linked, Gradual, HeightOf, Rebuilt;
    if st.buffer != [] {
      var i := |st.buffer| - 1;
      assert st.buffer[i] == Compress(hist.red[|hist.out| + i]);
    }
  }

  lemma AcceptedOne(env: Env, st: Sync, h: Header)
    requires RedownloadOne(env, st, h).1
    ensures var st' := RedownloadOne(env, st, h).0;
      && h.prev == st.lastHash && env.permitted(st.bufferHeight + 1, PreviousBits(env, st), h.bits)
      && st'.phase == st.phase && st'.buffer == st.buffer + [Compress(h)] && st'.firstPrev == st.firstPrev
      && st'.bufferHeight == st.bufferHeight + 1 && st'.lastHash == env.hash(h)
      && st'.redownloadWork == AddWork(st.redownloadWork, env.proof(h.bits))
      && st'.processAll == (st.processAll || st'.redownloadWork >= env.minWork)
      && st.commitments == (if st'.processAll then [] else BitOf(env, st.bufferHeight + 1, h)) + st'.commitments
  {
    hide CommitAt, AddWork, PreviousBits, Compress;
  }

  lemma GradualStep(env: Env, st: Sync, hist: History, h: Header)
    requires BufferOk(env, st, hist) && GradualOk(env, st, hist) && RedownloadOne(env, st, h).1
    ensures GradualOk(env, RedownloadOne(env, st, h).0, hist.(red := hist.red + [h]))
  {
    LastBits(env, st, hist);
    AcceptedOne(env, st, h);
    Snoc(env, hist.red, h);
    assert st.bufferHeight + 1 == HeightOf(env, hist.red + [h]);
    hide BufferOk, Gradual, HeightOf, TipOf, PreviousBits, RedownloadOne;
  }

  lemma BufferStep(env: Env, st: Sync, hist: History, h: Header)
    requires BufferOk(env, st, hist) && RedownloadOne(env, st, h).1
    ensures BufferOk(env, RedownloadOne(env, st, h).0, hist.(red := hist.red + [h]))
    ensures RedownloadOne(env, st, h).0.phase == st.phase
  {
    AcceptedOne(env, st, h);
    Snoc(env, hist.red, h);
    hide Linked, HeightOf, TipOf, RedownloadOne, Compress;
    var st', hist' := RedownloadOne(env, st, h).0, hist.(red := hist.red + [h]);
    forall i | 0 <= i < |st'.buffer| ensures st'.buffer[i] == Compress(hist'.red[|hist'.out| + i]) {
      if i < |st.buffer| { assert st'.buffer[i] == st.buffer[i]; }
    }
  }

  /** A header at a checked height uses up the commitment in front. */
  lemma CommitmentStep(env: Env, st: Sync, hist: History, h: Header)
    requires CommitmentsOk(env, st, hist) && st.bufferHeight == HeightOf(env, hist.red)
    requires RedownloadOne(env, st, h).1
    ensures CommitmentsOk(env, RedownloadOne(env, st, h).0, hist.(red := hist.red + [h]))
  {
    AcceptedOne(env, st, h);
    Snoc(env, hist.red, h);
    assert st.bufferHeight + 1 == HeightOf(env, hist.red + [h]);
    hide Linked, Gradual, WorkOf, Enough, CheckedBits, Bits, BitOf, AddWork, HeightOf, RedownloadOne, TipOf;
    var st' := RedownloadOne(env, st, h).0;
    var now := if st'.processAll then [] else BitOf(env, st.bufferHeight + 1, h);
    assert CheckedBits(env, hist.red + [h]) == CheckedBits(env, hist.red) + now;
    MoveBits(Bits(env, hist.pre), CheckedBits(env, hist.red), now, st'.commitments);
  }

  lemma MoveBits(all: seq<bool>, seen: seq<bool>, now: seq<bool>, left: seq<bool>)
    requires all == seen + (now + left)
    ensures all == (seen + now) + left
  {
  }

  lemma {:induction false} RedownloadAllKeeps(env: Env, st: Sync, hist: History, hs: seq<Header>)
    requires RedownloadOk(env, st, hist) && RedownloadAll(env, st, hs).1
    ensures RedownloadOk(env, RedownloadAll(env, st, hs).0, hist.(red := hist.red + hs))
    ensures RedownloadAll(env, st, hs).0.phase == st.phase
  {
    hide RedownloadOk, RedownloadOne;
    if hs == [] {
      assert hist.red + hs == hist.red;
    } else {
      var init, h := hs[..|hs| - 1], hs[|hs| - 1];
      RedownloadAllKeeps(env, st, hist, init);
      RedownloadOneKeeps(env, RedownloadAll(env, st, init).0, hist.(red := hist.red + init), h);
      assert hist.red + init + [h] == hist.red + hs;
    }
  }

  /** Released headers continue the chain handed out so far; at least a full buffer stays
      behind unless the work is enough, in which case nothing does. */
  lemma {:induction false} ReleaseKeeps(env: Env, st: Sync, hist: History)
    requires BufferOk(env, st, hist)
    ensures var (st', out) := Release(env, st);
      var hist' := hist.(out := hist.out + out);
      && BufferOk(env, st', hist') && !Ready(st')
      && st' == st.(buffer := st'.buffer, firstPrev := st'.firstPrev)
      && (out == [] || st.processAll || |hist'.red| - |hist'.out| >= REDOWNLOAD_BUFFER_SIZE)
    decreases |st.buffer|
  {
    hide BufferOk;
    if !Ready(st) {
      assert hist.out + [] == hist.out;
    } else {
      var h := GetFullHeader(st.buffer[0], st.firstPrev);
      var mid, hist1 := st.(buffer := st.buffer[1..], firstPrev := env.hash(h)), hist.(out := hist.out + [h]);
      PopOne(env, st, hist);
      ReleaseKeeps(env, mid, hist1);
      assert |mid.buffer| == |hist1.red| - |hist1.out|;
      var (st', rest) := Release(env, mid);
      assert hist.out + ([h] + rest) == hist1.out + rest;
    }
  }

  lemma PopOne(env: Env, st: Sync, hist: History)
    requires BufferOk(env, st, hist) && st.buffer != []
    ensures var h := GetFullHeader(st.buffer[0], st.firstPrev);
      BufferOk(env, st.(buffer := st.buffer[1..], firstPrev := env.hash(h)), hist.(out := hist.out + [h]))
    ensures |st.buffer| == |hist.red| - |hist.out|
  {
    var h := GetFullHeader(st.buffer[0], st.firstPrev);
    assert Compress(h) == Compress(hist.red[|hist.out|]);
    RebuildOne(env, hist.red, hist.out, h);
    hide Linked, HeightOf, Rebuilt, Compress, TipOf, GetFullHeader;
    var st', hist' := st.(buffer := st.buffer[1..], firstPrev := env.hash(h)), hist.(out := hist.out + [h]);
    forall i | 0 <= i < |st'.buffer| ensures st'.buffer[i] == Compress(hist'.red[|hist'.out| + i]) {
      assert st'.buffer[i] == st.buffer[i + 1];
    }
  }

  lemma RebuildOne(env: Env, red: seq<Header>, out: seq<Header>, h: Header)
    requires Rebuilt(env, red, out) && |out| < |red| && Compress(h) == Compress(red[|out|])
    requires h.witnessRoot == 0 && h.prev == env.hash(TipOf(env, out))
    ensures Rebuilt(env, red, out + [h]) && TipOf(env, out + [h]) == h
  {
    Snoc(env, out, h);
    hide Linked, Compress;
  }

  // ----- commitments by height -----

  lemma {:induction false} BitsPrefix(env: Env, hs: seq<Header>, k: nat)
    requires k <= |hs|
    ensures Bits(env, hs[..k]) <= Bits(env, hs)
  {
    if k == |hs| {
      assert hs[..k] == hs;
    } else {
      var init := hs[..|hs| - 1];
      BitsPrefix(env, init, k);
      assert init[..k] == hs[..k];
    }
  }

  lemma {:induction false} AllChecked(env: Env, hs: seq<Header>)
    requires !Enough(env, hs)
    ensures CheckedBits(env, hs) == Bits(env, hs)
  {
    if hs != [] { AllChecked(env, hs[..|hs| - 1]); }
  }

  lemma {:induction false} CheckedPrefix(env: Env, hs: seq<Header>, k: nat)
    requires k <= |hs|
    ensures CheckedBits(env, hs[..k]) <= CheckedBits(env, hs)
  {
    if k == |hs| {
      assert hs[..k] == hs;
    } else {
      var init := hs[..|hs| - 1];
      CheckedPrefix(env, init, k);
      assert init[..k] == hs[..k];
    }
  }

  /** How many bits there are depends on the heights alone. */
  lemma {:induction false} SameCount(env: Env, a: seq<Header>, b: seq<Header>)
    requires |a| == |b|
    ensures |Bits(env, a)| == |Bits(env, b)|
  {
    hide CommitAt;
    if a != [] { SameCount(env, a[..|a| - 1], b[..|b| - 1]); }
  }

  lemma FewerBits(env: Env, a: seq<Header>, b: seq<Header>)
    requires |a| <= |b|
    ensures |Bits(env, a)| <= |Bits(env, b)|
  {
    hide Bits;
    SameCount(env, a, b[..|a|]);
    BitsPrefix(env, b, |a|);
  }

  lemma LastBit(env: Env, hs: seq<Header>, k: nat)
    requires k < |hs| && CommitAt(env, HeightOf(env, hs[..k + 1]))
    ensures Bits(env, hs[..k + 1]) == Bits(env, hs[..k]) + [Bit(env, hs[k])]
  {
    assert hs[..k + 1] == hs[..k] + [hs[k]];
    Snoc(env, hs[..k], hs[k]);
  }

  /** An accepted header at a checked height has the very bit recorded for that height. */
  lemma CheckedMatches(env: Env, red: seq<Header>, pre: seq<Header>)
    requires CheckedBits(env, red) <= Bits(env, pre)
    ensures SameBits(env, red, pre)
  {
    forall k | 0 <= k < |red| && Checked(env, red, k) ensures k < |pre| && Bit(env, red[k]) == Bit(env, pre[k]) {
      CheckedMatchesAt(env, red, pre, k);
    }
  }

  lemma CheckedMatchesAt(env: Env, red: seq<Header>, pre: seq<Header>, k: nat)
    requires CheckedBits(env, red) <= Bits(env, pre) && k < |red| && Checked(env, red, k)
    ensures k < |pre| && Bit(env, red[k]) == Bit(env, pre[k])
  {
    hide Bits, CheckedBits, Enough, CommitAt, Bit;
    CheckedPrefix(env, red, k + 1);
    AllChecked(env, red[..k + 1]);
    LastBit(env, red, k);
    if k >= |pre| {
      FewerBits(env, pre, red[..k]);
    } else {
      assert HeightOf(env, red[..k + 1]) == HeightOf(env, pre[..k + 1]);
      LastBit(env, pre, k);
      BitsPrefix(env, pre, k + 1);
      SameCount(env, red[..k], pre[..k]);
      var n := |Bits(env, red[..k])|;
      assert Bits(env, pre)[n] == Bits(env, red[..k + 1])[n] == Bits(env, pre[..k + 1])[n];
    }
  }

  /** The bits of the headers from place n on. */
  function BitsFrom(env: Env, hs: seq<Header>, n: nat): seq<bool>
    decreases |hs| - n
  {
    if n >= |hs| then [] else BitOf(env, HeightOf(env, hs[..n + 1]), hs[n]) + BitsFrom(env, hs, n + 1)
  }

  lemma {:induction false} BitsSplit(env: Env, hs: seq<Header>, n: nat)
    requires n <= |hs|
    ensures Bits(env, hs) == Bits(env, hs[..n]) + BitsFrom(env, hs, n)
    decreases |hs| - n
  {
    hide BitOf, HeightOf;
    if n == |hs| {
      assert hs[..n] == hs;
    } else {
      BitsSplit(env, hs, n + 1);
      assert hs[..n + 1] == hs[..n] + [hs[n]];
      Snoc(env, hs[..n], hs[n]);
    }
  }

  /** Until the work is enough, the queue holds exactly the bits recorded for the commitment
      heights above the second chain's tip, in order: its front belongs to the next of them. */
  lemma QueueIsRecorded(env: Env, st: Sync, hist: History)
    requires CommitmentsOk(env, st, hist) && !st.processAll
    ensures st.commitments == BitsFrom(env, hist.pre, |hist.red|)
  {
    hide Bits, CheckedBits, Enough, BitsFrom, Linked, Gradual, WorkOf;
    var n := |hist.red|;
    AllChecked(env, hist.red);
    if n <= |hist.pre| {
      BitsSplit(env, hist.pre, n);
      SameCount(env, hist.red, hist.pre[..n]);
      SamePrefix(Bits(env, hist.red), st.commitments, Bits(env, hist.pre[..n]), BitsFrom(env, hist.pre, n));
    } else {
      FewerBits(env, hist.pre, hist.red);
      NothingFrom(env, hist.pre, n);
    }
  }

  lemma NothingFrom(env: Env, hs: seq<Header>, n: nat)
    requires n >= |hs|
    ensures BitsFrom(env, hs, n) == []
  {
  }

  lemma SamePrefix(a: seq<bool>, b: seq<bool>, c: seq<bool>, d: seq<bool>)
    requires a + b == c + d && |a| == |c|
    ensures b == d
  {
    assert b == (a + b)[|a|..] && d == (c + d)[|c|..];
  }

  // ----- whole calls -----

  /** The history after a call: accepted messages join the chain of their phase. */
  function Track(env: Env, st: Sync, hist: History, hs: seq<Header>, full: bool): History {
    if hs == [] || st.phase.Final? then hist
    else if st.phase.Presync? then
      if StoreCommitments(env, st, hs).1 then hist.(pre := hist.pre + hs) else hist
    else if RedownloadAll(env, st, hs).1 then
      hist.(red := hist.red + hs, out := hist.out + Release(env, RedownloadAll(env, st, hs).0).1)
    else hist
  }

  lemma InvSound(env: Env, st: Sync, hist: History)
    requires Inv(env, st, hist)
    ensures Sound(env, hist) && |st.commitments| <= env.maxCommitments && |st.buffer| <= REDOWNLOAD_BUFFER_SIZE
    ensures st.phase.Redownload? ==> st.commitments == BitsFrom(env, hist.pre, |hist.red|)
  {
    hide Gradual, WorkOf, Bits, Enough, HeightOf, SameBits, BitsFrom;
    if st.phase.Redownload? {
      BitsAgree(env, st, hist);
      QueueIsRecorded(env, st, hist);
    }
  }

  lemma BitsAgree(env: Env, st: Sync, hist: History)
    requires CommitmentsOk(env, st, hist)
    ensures SameBits(env, hist.red, hist.pre) && |st.commitments| <= env.maxCommitments
  {
    hide Linked, Gradual, WorkOf, Bits, Enough, CheckedBits, SameBits;
    CheckedMatches(env, hist.red, hist.pre);
  }

  lemma ReleaseSound(env: Env, st: Sync, hist: History)
    requires RedownloadOk(env, st, hist) && Withheld(env, hist) && st.phase.Redownload?
    ensures var (st', out) := Release(env, st);
      var hist' := hist.(out := hist.out + out);
      && Sound(env, hist') && st'.phase == st.phase && st'.processAll == st.processAll == Enough(env, hist.red)
      && (st'.processAll ==> st'.buffer == [] && |hist'.out| == |hist'.red|)
      && (!st'.processAll ==> Inv(env, st', hist'))
  {
    ReleaseKeeps(env, st, hist);
    BitsAgree(env, st, hist);
    var (st', out) := Release(env, st);
    var hist' := hist.(out := hist.out + out);
    assert CommitmentsOk(env, st', hist') by { hide Linked, Gradual, WorkOf, Bits, Enough, CheckedBits; }
    hide Linked, Gradual, WorkOf, Bits, Enough, CheckedBits, HeightOf, TipOf, Rebuilt, CommitmentsOk, Release, SameBits;
  }

  lemma PresyncCallKeeps(env: Env, st: Sync, hist: History, hs: seq<Header>, full: bool)
    requires Inv(env, st, hist) && Continuous(env, hs) && st.phase.Presync? && hs != []
    requires env.startHeight + |Track(env, st, hist, hs, full).pre| < TWO_31
    ensures Inv(env, Process(env, st, hs, full).0, Track(env, st, hist, hs, full))
  {
    hide StoreCommitments, Sound, PresyncOk, RedownloadOk;
    InvSound(env, st, hist);
    if StoreCommitments(env, st, hs).1 {
      StoreCommitmentsKeeps(env, st, hist, hs);
      InvSound(env, StoreCommitments(env, st, hs).0, hist.(pre := hist.pre + hs));
    }
  }

  lemma RedownloadCallKeeps(env: Env, st: Sync, hist: History, hs: seq<Header>, full: bool)
    requires Inv(env, st, hist) && st.phase.Redownload? && hs != []
    ensures Inv(env, Process(env, st, hs, full).0, Track(env, st, hist, hs, full))
  {
    hide RedownloadAll, Release, Sound, RedownloadOk, PresyncOk;
    InvSound(env, st, hist);
    if RedownloadAll(env, st, hs).1 {
      RedownloadAllKeeps(env, st, hist, hs);
      ReleaseSound(env, RedownloadAll(env, st, hs).0, hist.(red := hist.red + hs));
    }
  }

  /** Every call keeps the invariant, and a finished sync stays as it is. */
  lemma ProcessKeeps(env: Env, st: Sync, hist: History, hs: seq<Header>, full: bool)
    requires Inv(env, st, hist) && Continuous(env, hs)
    requires env.startHeight + |Track(env, st, hist, hs, full).pre| < TWO_31
    ensures Inv(env, Process(env, st, hs, full).0, Track(env, st, hist, hs, full))
    ensures st.phase.Final? ==> Process(env, st, hs, full) == (st, Result([], false, false))
    ensures Track(env, st, hist, hs, full).out == hist.out + Process(env, st, hs, full).1.headers
  {
    hide Inv, StoreCommitments, RedownloadAll, Release;
    if hs != [] && st.phase.Presync? {
      PresyncCallKeeps(env, st, hist, hs, full);
    } else if hs != [] && st.phase.Redownload? {
      RedownloadCallKeeps(env, st, hist, hs, full);
    }
  }

  // ----- whole runs -----

  datatype Message = Message(headers: seq<Header>, full: bool)

  function Run(env: Env, msgs: seq<Message>): (Sync, History) {
    if msgs == [] then (Begin(env), History([], [], []))
    else
      var (st, hist) := Run(env, msgs[..|msgs| - 1]);
      var m := msgs[|msgs| - 1];
      (Process(env, st, m.headers, m.full).0, Track(env, st, hist, m.headers, m.full))
  }

  /** The headers that all the calls of a run returned. */
  function Returned(env: Env, msgs: seq<Message>): seq<Header> {
    if msgs == [] then []
    else
      var m := msgs[|msgs| - 1];
      Returned(env, msgs[..|msgs| - 1]) +
      Process(env, Run(env, msgs[..|msgs| - 1]).0, m.headers, m.full).1.headers
  }

  /** Whatever a peer sends, in as many messages as it likes: memory stays bounded, and the headers
      returned form one chain above the start block that repeats what was redownloaded, agrees
      with the first download in every checked bit, and lags a buffer behind until the work is
      enough. */
  lemma {:induction false} RunIsSound(env: Env, msgs: seq<Message>)
    requires forall i :: 0 <= i < |msgs| ==> Continuous(env, msgs[i].headers)
    requires env.startHeight + |Run(env, msgs).1.pre| < TWO_31
    ensures var (st, hist) := Run(env, msgs);
      && Inv(env, st, hist) && Sound(env, hist) && hist.out == Returned(env, msgs)
      && |st.commitments| <= env.maxCommitments && |st.buffer| <= REDOWNLOAD_BUFFER_SIZE
      && (st.phase.Redownload? ==> st.commitments == BitsFrom(env, hist.pre, |hist.red|))
  {
    if msgs == [] {
      assert Inv(env, Begin(env), History([], [], []));
      InvSound(env, Begin(env), History([], [], []));
    } else {
      var init, m := msgs[..|msgs| - 1], msgs[|msgs| - 1];
      RunIsSound(env, init);
      var (st, hist) := Run(env, init);
      ProcessKeeps(env, st, hist, m.headers, m.full);
      InvSound(env, Run(env, msgs).0, Run(env, msgs).1);
      hide Inv, Sound, Continuous, Process, StoreCommitments, RedownloadAll, Release;
    }
  }

  /** What is handed out is exactly what was redownloaded just when no witness root was set:
      the compressed form drops that field. */
  lemma {:induction false} RebuiltIff(env: Env, red: seq<Header>, out: seq<Header>)
    requires Rebuilt(env, red, out) && Linked(env, red)
    ensures out == red[..|out|] <==> forall i :: 0 <= i < |out| ==> red[i].witnessRoot == 0
  {
    if out == red[..|out|] {
      forall i | 0 <= i < |out| ensures red[i].witnessRoot == 0 { assert out[i] == red[i]; }
    } else if forall i :: 0 <= i < |out| ==> red[i].witnessRoot == 0 {
      SameChain(env, red, out, |out|);
    }
  }

  /** A header that brings enough work, sent twice, is returned without its witness root. */
  lemma WitnessRootIsLost(env: Env, h: Header)
    requires h.prev == env.hash(env.start) && h.witnessRoot != 0 && env.startHeight + 1 < TWO_31
    requires env.permitted(env.startHeight + 1, env.start.bits, h.bits) && env.maxCommitments >= 1
    requires AddWork(env.startWork, env.proof(h.bits)) >= env.minWork
    ensures Returned(env, [Message([h], true), Message([h], true)]) == [h.(witnessRoot := 0)] != [h]
  {
    hide AddWork, CommitAt, Process;
    var m := Message([h], true);
    var st := FirstSent(env, h);
    SecondSent(env, st, h);
    assert [m, m][..1] == [m] && [m][..0] == [];
    assert Run(env, []) == (Begin(env), History([], [], []));
    assert Run(env, [m]).0 == st;
    assert Returned(env, [m]) == Returned(env, []) + Process(env, Begin(env), [h], true).1.headers;
  }

  lemma FirstSent(env: Env, h: Header) returns (st: Sync)
    requires h.prev == env.hash(env.start) && env.startHeight + 1 < TWO_31
    requires env.permitted(env.startHeight + 1, env.start.bits, h.bits) && env.maxCommitments >= 1
    requires AddWork(env.startWork, env.proof(h.bits)) >= env.minWork
    ensures st == Process(env, Begin(env), [h], true).0 && Process(env, Begin(env), [h], true).1.headers == []
    ensures st.phase.Redownload? && st.buffer == [] && st.bufferHeight == env.startHeight && !st.processAll
    ensures st.firstPrev == st.lastHash == env.hash(env.start) && st.redownloadWork == env.startWork
  {
    assert ToInt32(env.startHeight + 1) == env.startHeight + 1;
    hide AddWork, CommitAt, ToInt32;
    var st0 := Begin(env);
    assert [h][..0] == [] && PresyncAll(env, st0, []) == (st0, true);
    assert PresyncAll(env, st0, [h]) == PresyncOne(env, st0, h);
    hide PresyncAll;
    st := Process(env, st0, [h], true).0;
  }

  lemma SecondSent(env: Env, st: Sync, h: Header)
    requires st.phase.Redownload? && st.buffer == [] && st.bufferHeight == env.startHeight && h.prev == st.lastHash
    requires st.firstPrev == env.hash(env.start) == st.lastHash && st.redownloadWork == env.startWork
    requires env.permitted(env.startHeight + 1, env.start.bits, h.bits)
    requires AddWork(env.startWork, env.proof(h.bits)) >= env.minWork
    ensures Process(env, st, [h], true).1.headers == [h.(witnessRoot := 0)]
  {
    hide AddWork, CommitAt;
    assert [h][..0] == [] && RedownloadAll(env, st, []) == (st, true);
    var (st', ok) := RedownloadOne(env, st, h);
    assert RedownloadAll(env, st, [h]) == (st', ok);
    hide RedownloadAll;
    assert ok && st'.buffer == [Compress(h)] && st'.processAll && st'.firstPrev == h.prev;
    var g := GetFullHeader(st'.buffer[0], st'.firstPrev);
    assert g == h.(witnessRoot := 0);
    var last := st'.(buffer := st'.buffer[1..], firstPrev := env.hash(g));
    assert Release(env, last) == (last, []);
    assert Release(env, st') == (last, [g] + []);
  }

  lemma {:induction false} SameChain(env: Env, red: seq<Header>, out: seq<Header>, n: nat)
    requires Rebuilt(env, red, out) && Linked(env, red) && n <= |out|
    requires forall i :: 0 <= i < n ==> red[i].witnessRoot == 0
    ensures out[..n] == red[..n]
  {
    if n != 0 {
      SameChain(env, red, out, n - 1);
      LinkAt(env, red, n - 1);
      LinkAt(env, out, n - 1);
      assert Compress(out[n - 1]) == Compress(red[n - 1]);
      assert out[..n] == out[..n - 1] + [out[n - 1]] && red[..n] == red[..n - 1] + [red[n - 1]];
    }
  }

  lemma {:induction false} LinkAt(env: Env, hs: seq<Header>, k: nat)
    requires Linked(env, hs) && k < |hs|
    ensures hs[k].prev == env.hash(TipOf(env, hs[..k])) && Linked(env, hs[..k])
  {
    var init := hs[..|hs| - 1];
    if k < |hs| - 1 {
      LinkAt(env, init, k);
      assert init[..k] == hs[..k];
    }
  }

  lemma {:induction false} GradualAt(env: Env, hs: seq<Header>, k: nat)
    requires Gradual(env, hs) && k < |hs|
    ensures env.permitted(HeightOf(env, hs[..k + 1]), TipOf(env, hs[..k]).bits, hs[k].bits)
  {
    var init := hs[..|hs| - 1];
    if k < |hs| - 1 {
      GradualAt(env, init, k);
      assert init[..k] == hs[..k] && init[..k + 1] == hs[..k + 1];
    } else {
      assert hs[..k + 1] == hs;
    }
  }

  // ----- a peer that sends the same chain again -----

  /** The peer's chain now: the first one, perhaps continued. */
  predicate Continues(env: Env, pre: seq<Header>, chain: seq<Header>) {
    pre != [] && pre <= chain && Linked(env, chain) && Gradual(env, chain)
  }

  lemma {:induction false} StaysEnough(env: Env, hs: seq<Header>, k: nat)
    requires k <= |hs| && Enough(env, hs[..k])
    ensures Enough(env, hs)
  {
    if k == |hs| {
      assert hs[..k] == hs;
    } else {
      var init := hs[..|hs| - 1];
      assert init[..k] == hs[..k];
      StaysEnough(env, init, k);
    }
  }

  /** The next header of the chain is accepted: at a checked height the bit in front is its own, and
      beyond the first chain nothing is checked any more. */
  lemma HonestOne(env: Env, st: Sync, hist: History, chain: seq<Header>)
    requires RedownloadOk(env, st, hist) && Continues(env, hist.pre, chain)
    requires |hist.red| < |chain| && hist.red == chain[..|hist.red|]
    ensures RedownloadOne(env, st, chain[|hist.red|]).1
  {
    hide Linked, Gradual, WorkOf, Bits, Enough, CheckedBits, TipOf, Rebuilt, AddWork, CommitAt, PreviousBits,
      RedownloadOne, BitOf, Compress;
    var k := |hist.red|;
    var h, upto := chain[k], chain[..k + 1];
    assert upto == hist.red + [h];
    LinkAt(env, chain, k);
    GradualAt(env, chain, k);
    LastBits(env, st, hist);
    Snoc(env, hist.red, h);
    var next := HeightOf(env, upto);
    assert st.bufferHeight + 1 == next;
    hide HeightOf;
    if !Enough(env, upto) {
      PastEnough(env, st, hist, upto);
      assert upto == chain[..|upto|] <= hist.pre;
      HonestBits(env, st, hist, h, upto);
    }
    AcceptOne(env, st, h, next);
  }

  lemma PastEnough(env: Env, st: Sync, hist: History, upto: seq<Header>)
    requires CommitmentsOk(env, st, hist) && hist.pre != [] && !Enough(env, upto)
    requires upto <= hist.pre || hist.pre <= upto
    ensures |upto| <= |hist.pre|
  {
    WholeIsEnough(env, st, hist);
    hide Enough, CommitmentsOk;
    if |upto| > |hist.pre| {
      assert upto[..|hist.pre|] == hist.pre;
      StaysEnough(env, upto, |hist.pre|);
    }
  }

  lemma HonestBits(env: Env, st: Sync, hist: History, h: Header, upto: seq<Header>)
    requires CommitmentsOk(env, st, hist) && upto == hist.red + [h] && upto <= hist.pre && !Enough(env, upto)
    ensures BitOf(env, HeightOf(env, upto), h) <= st.commitments
  {
    hide Linked, Gradual, WorkOf, Bits, Enough, CheckedBits, TipOf, AddWork, BitOf, HeightOf;
    assert hist.pre[..|upto|] == upto;
    BitsPrefix(env, hist.pre, |upto|);
    Snoc(env, hist.red, h);
    AllChecked(env, hist.red);
    PrefixRest(Bits(env, hist.red), st.commitments, BitOf(env, HeightOf(env, upto), h), Bits(env, hist.pre));
  }

  lemma AcceptOne(env: Env, st: Sync, h: Header, next: int)
    requires next == st.bufferHeight + 1 && h.prev == st.lastHash
    requires env.permitted(next, PreviousBits(env, st), h.bits)
    requires st.processAll || AddWork(st.redownloadWork, env.proof(h.bits)) >= env.minWork || BitOf(env, next, h) <= st.commitments
    ensures RedownloadOne(env, st, h).1
  {
    hide AddWork, CommitAt, PreviousBits;
  }

  lemma PrefixRest(seen: seq<bool>, left: seq<bool>, next: seq<bool>, all: seq<bool>)
    requires all == seen + left && seen + next <= all
    ensures next <= left
  {
    forall i | 0 <= i < |next| ensures left[i] == next[i] {
      assert all[|seen| + i] == (seen + next)[|seen| + i];
    }
  }

  lemma {:induction false} HonestAll(env: Env, st: Sync, hist: History, hs: seq<Header>, chain: seq<Header>)
    requires RedownloadOk(env, st, hist) && Continues(env, hist.pre, chain) && hist.red + hs <= chain
    ensures RedownloadAll(env, st, hs).1
  {
    hide RedownloadOk, RedownloadOne, Continues;
    if hs != [] {
      var init, h := hs[..|hs| - 1], hs[|hs| - 1];
      assert hist.red + hs == hist.red + init + [h];
      HonestAll(env, st, hist, init, chain);
      RedownloadAllKeeps(env, st, hist, init);
      HonestOne(env, RedownloadAll(env, st, init).0, hist.(red := hist.red + init), chain);
    }
  }

  /** One message of the chain: it succeeds, and once the work is enough it empties the buffer,
      whether it is full or not. */
  lemma HonestCall(env: Env, st: Sync, hist: History, m: Message, chain: seq<Header>)
    requires Inv(env, st, hist) && st.phase.Redownload? && Continues(env, hist.pre, chain)
    requires m.headers != [] && hist.red + m.headers <= chain && (m.full || Enough(env, hist.red + m.headers))
    ensures var (st', r) := Process(env, st, m.headers, m.full);
      var hist' := Track(env, st, hist, m.headers, m.full);
      && r.success && hist'.pre == hist.pre && hist'.red == hist.red + m.headers
      && (r.requestMore <==> !Enough(env, hist'.red))
      && (if Enough(env, hist'.red) then
            st'.phase.Final? && |hist'.out| == |hist'.red| && Rebuilt(env, hist'.red, hist'.out)
          else st'.phase.Redownload? && Inv(env, st', hist'))
  {
    hide RedownloadOk, RedownloadAll, Release, Enough, Rebuilt, Committed, Ready, Continues;
    HonestAll(env, st, hist, m.headers, chain);
    RedownloadAllKeeps(env, st, hist, m.headers);
    ReleaseSound(env, RedownloadAll(env, st, m.headers).0, hist.(red := hist.red + m.headers));
  }

  lemma WholeIsEnough(env: Env, st: Sync, hist: History)
    requires CommitmentsOk(env, st, hist) && hist.pre != []
    ensures Enough(env, hist.pre)
  {
  }

  lemma {:induction false} Settled(env: Env, st: Sync, hist: History, parts: seq<Message>)
    requires st.phase.Final?
    ensures Replay(env, st, hist, parts) == (st, hist)
    decreases |parts|
  {
    if parts != [] { Settled(env, st, hist, parts[1..]); }
  }

  function Replay(env: Env, st: Sync, hist: History, parts: seq<Message>): (Sync, History)
    decreases |parts|
  {
    if parts == [] then (st, hist)
    else
      var (hs, full) := (parts[0].headers, parts[0].full);
      Replay(env, Process(env, st, hs, full).0, Track(env, st, hist, hs, full), parts[1..])
  }

  /** The messages spell out the chain at least as far as it was known, and only one that brings
      enough work may be less than full. */
  ghost predicate Serves(env: Env, red: seq<Header>, parts: seq<Message>, known: nat, chain: seq<Header>)
    decreases |parts|
  {
    if parts == [] then |red| >= known
    else
      var red' := red + parts[0].headers;
      && parts[0].headers != [] && (parts[0].full || Enough(env, red')) && red' <= chain
      && Serves(env, red', parts[1..], known, chain)
  }

  /** A peer that serves its chain a second time, perhaps grown by now, cut into messages in any way,
      never fails a check: the sync ends, and has handed out all that it redownloaded. */
  lemma {:induction false} HonestPeerCompletes(env: Env, st: Sync, hist: History, parts: seq<Message>, chain: seq<Header>)
    requires Inv(env, st, hist) && st.phase.Redownload? && Continues(env, hist.pre, chain) && hist.red <= chain
    requires Serves(env, hist.red, parts, |hist.pre|, chain)
    ensures var (st', hist') := Replay(env, st, hist, parts);
      && st'.phase.Final? && Enough(env, hist'.red) && hist'.red <= chain && hist'.pre == hist.pre
      && |hist'.out| == |hist'.red| && Rebuilt(env, hist'.red, hist'.out)
    decreases |parts|
  {
    hide Sound, PresyncOk, Gradual, Linked, Bits, CheckedBits, WorkOf, Rebuilt, Process, Track;
    if parts == [] {
      WholeIsEnough(env, st, hist);
      assert hist.red[..|hist.pre|] == hist.pre;
      StaysEnough(env, hist.red, |hist.pre|);
      assert false;
    } else {
      var m := parts[0];
      HonestCall(env, st, hist, m, chain);
      var st', hist' := Process(env, st, m.headers, m.full).0, Track(env, st, hist, m.headers, m.full);
      if Enough(env, hist'.red) {
        Settled(env, st', hist', parts[1..]);
      } else {
        HonestPeerCompletes(env, st', hist', parts[1..], chain);
      }
    }
  }

  // ----- the object -----

  lemma {:induction false} PresyncStops(env: Env, st: Sync, hs: seq<Header>, k: nat)
    requires k <= |hs| && !PresyncAll(env, st, hs[..k]).1
    ensures PresyncAll(env, st, hs) == PresyncAll(env, st, hs[..k])
  {
    if k == |hs| {
      assert hs[..k] == hs;
    } else {
      var init := hs[..|hs| - 1];
      assert init[..k] == hs[..k];
      PresyncStops(env, st, init, k);
    }
  }

  lemma {:induction false} RedownloadStops(env: Env, st: Sync, hs: seq<Header>, k: nat)
    requires k <= |hs| && !RedownloadAll(env, st, hs[..k]).1
    ensures RedownloadAll(env, st, hs) == RedownloadAll(env, st, hs[..k])
  {
    if k == |hs| {
      assert hs[..k] == hs;
    } else {
      var init := hs[..|hs| - 1];
      assert init[..k] == hs[..k];
      RedownloadStops(env, st, init, k);
    }
  }

  class HeadersSyncState {
    const env: Env
    var phase: Phase
    var work: nat
    var commitments: seq<bool>
    var last: Header
    var height: int
    var buffer: seq<Compressed>
    var bufferHeight: int
    var lastHash: Hash
    var firstPrev: Hash
    var redownloadWork: nat
    var processAll: bool
    ghost var hist: History

    function State(): Sync
      reads this
    {
      Sync(phase, work, commitments, last, height, buffer, bufferHeight, lastHash, firstPrev, redownloadWork, processAll)
    }

    ghost predicate Valid()
      reads this
    {
      Inv(env, State(), hist)
    }

    constructor (env: Env)
      ensures this.env == env && State() == Begin(env) && hist == History([], [], []) && Valid()
    {
      this.env := env;
      phase, work, commitments, last, height := Presync, env.startWork, [], env.start, env.startHeight;
      buffer, bufferHeight, lastHash, firstPrev, redownloadWork, processAll := [], 0, 0, 0, 0, false;
      hist := History([], [], []);
    }

    method ValidateAndProcessSingleHeader(h: Header) returns (ok: bool)
      modifies this
      ensures (State(), ok) == PresyncOne(env, old(State()), h) && hist == old(hist)
    {
      var next := ToInt32(height + 1);
      hide CommitAt, ToInt32, AddWork;
      if !env.permitted(next, last.bits, h.bits) {
        return false;
      }
      if CommitAt(env, next) {
        commitments := commitments + [env.bit(env.hash(h))];
        if |commitments| > env.maxCommitments {
          return false;
        }
      }
      work := AddWork(work, env.proof(h.bits));
      last := h;
      height := next;
      return true;
    }

    method ValidateAndStoreHeadersCommitments(hs: seq<Header>) returns (ok: bool)
      requires hs != []
      modifies this
      ensures (State(), ok) == StoreCommitments(env, old(State()), hs) && hist == old(hist)
    {
      hide PresyncOne, ToRedownload;
      if hs[0].prev != env.hash(last) {
        return false;
      }
      ghost var st := State();
      var i := 0;
      while i < |hs|
        invariant i <= |hs| && PresyncAll(env, st, hs[..i]) == (State(), true) && hist == old(hist)
      {
        ok := ValidateAndProcessSingleHeader(hs[i]);
        assert hs[..i + 1][..i] == hs[..i];
        if !ok {
          PresyncStops(env, st, hs, i + 1);
          return false;
        }
        i := i + 1;
      }
      assert hs[..i] == hs;
      if work >= env.minWork {
        EnterRedownload();
      }
      return true;
    }

    method EnterRedownload()
      modifies `buffer, `bufferHeight, `firstPrev, `lastHash, `redownloadWork, `phase
      ensures State() == ToRedownload(env, old(State()))
    {
      buffer := [];
      bufferHeight := env.startHeight;
      firstPrev := env.hash(env.start);
      lastHash := env.hash(env.start);
      redownloadWork := env.startWork;
      phase := Redownload;
    }

    method ValidateAndStoreRedownloadedHeader(h: Header) returns (ok: bool)
      modifies this
      ensures (State(), ok) == RedownloadOne(env, old(State()), h) && hist == old(hist)
    {
      hide CommitAt, AddWork;
      var next := bufferHeight + 1;
      if h.prev != lastHash {
        return false;
      }
      var previousBits := if buffer != [] then buffer[|buffer| - 1].bits else env.start.bits;
      if !env.permitted(next, previousBits, h.bits) {
        return false;
      }
      redownloadWork := AddWork(redownloadWork, env.proof(h.bits));
      if redownloadWork >= env.minWork {
        processAll := true;
      }
      if !processAll && CommitAt(env, next) {
        var good := UseCommitment(h);
        if !good {
          return false;
        }
      }
      buffer := buffer + [Compress(h)];
      bufferHeight := next;
      lastHash := env.hash(h);
      return true;
    }

    method UseCommitment(h: Header) returns (good: bool)
      modifies `commitments
      ensures good <==> old(commitments) != [] && old(commitments)[0] == env.bit(env.hash(h))
      ensures commitments == if old(commitments) == [] then [] else old(commitments)[1..]
    {
      if commitments == [] {
        return false;
      }
      var expected := commitments[0];
      commitments := commitments[1..];
      return env.bit(env.hash(h)) == expected;
    }

    method PopHeadersReadyForAcceptance() returns (ret: seq<Header>)
      modifies this
      ensures State() == Release(env, old(State())).0 && ret == Release(env, old(State())).1 && hist == old(hist)
    {
      ret := [];
      ghost var goal := Release(env, State());
      while Ready(State())
        invariant goal.0 == Release(env, State()).0 && goal.1 == ret + Release(env, State()).1 && hist == old(hist)
        decreases |buffer|
      {
        ghost var rest := Release(env, State()).1;
        var h := GetFullHeader(buffer[0], firstPrev);
        ret := ret + [h];
        buffer := buffer[1..];
        firstPrev := env.hash(h);
        assert rest == [h] + Release(env, State()).1;
        hide Release;
      }
    }

    method EndSync()
      modifies this
      ensures State() == Finalize(old(State())) && hist == old(hist)
    {
      commitments, last, buffer, lastHash, firstPrev := [], NULL_HEADER, [], 0, 0;
      processAll, height, phase := false, 0, Final;
    }

    method StoreRedownloadedHeaders(hs: seq<Header>) returns (ok: bool)
      modifies this
      ensures (State(), ok) == RedownloadAll(env, old(State()), hs) && hist == old(hist)
    {
      hide RedownloadOne;
      ghost var st := State();
      ok := true;
      var i := 0;
      while i < |hs| && ok
        invariant i <= |hs| && RedownloadAll(env, st, hs[..i]) == (State(), ok) && hist == old(hist)
      {
        ok := ValidateAndStoreRedownloadedHeader(hs[i]);
        assert hs[..i + 1][..i] == hs[..i];
        i := i + 1;
      }
      if ok { assert hs[..i] == hs; } else { RedownloadStops(env, st, hs, i); }
    }

    /** The chains grow as the specification says, and stay sound. */
    method ProcessNextHeaders(hs: seq<Header>, full: bool) returns (r: Result)
      requires Valid() && Continuous(env, hs)
      requires env.startHeight + |Track(env, State(), hist, hs, full).pre| < TWO_31
      modifies this
      ensures Valid() && Sound(env, hist) && hist.out == old(hist.out) + r.headers
      ensures |commitments| <= env.maxCommitments && |buffer| <= REDOWNLOAD_BUFFER_SIZE
      ensures hist == Track(env, old(State()), old(hist), hs, full)
      ensures (State(), r) == Process(env, old(State()), hs, full)
    {
      ProcessKeeps(env, State(), hist, hs, full);
      InvSound(env, Process(env, State(), hs, full).0, Track(env, State(), hist, hs, full));
      hide Inv, Sound, StoreCommitments, RedownloadAll, Release, Track, Finalize;
      ghost var st := State();
      hist := Track(env, st, hist, hs, full);
      r := Result([], false, false);
      if hs == [] || phase.Final? {
        return;
      }
      if phase.Presync? {
        var ok := ValidateAndStoreHeadersCommitments(hs);
        r := Result([], ok, ok && (full || phase.Redownload?));
      } else {
        var ok := StoreRedownloadedHeaders(hs);
        if ok {
          var headers := PopHeadersReadyForAcceptance();
          r := Result(headers, true, !(buffer == [] && processAll) && full);
        }
      }
      if !(r.success && r.requestMore) {
        EndSync();
      }
    }
  }
}
