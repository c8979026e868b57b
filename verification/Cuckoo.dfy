/** The cuckoo cache: a fixed table in which an insertion may move elements along a bounded
    chain of places. */
module Cuckoo {
  import opened Division

  /** Elements are 256-bit numbers; 0 fills the table at first. */
  type Element = nat

  const PLACES := 8
  const TWO_32 := 0x1_0000_0000

  /** Maps a 32-bit hash onto the table. */
  function FastRange(x: nat, size: nat): (r: nat)
    requires size > 0
    ensures r < size
  {
    Scaled(x % TWO_32, size);
    (x % TWO_32) * size / TWO_32
  }

  lemma Scaled(x: nat, size: nat)
    requires x < TWO_32 && size > 0
    ensures 0 <= x * size / TWO_32 < size
  {
    Below(x, TWO_32, size);
  }

  function Max(a: nat, b: nat): nat { if a < b then b else a }

  /** The elements that may not be overwritten. */
  ghost function LiveOf(table: seq<Element>, garbage: seq<bool>): set<Element>
    requires |table| == |garbage|
  {
    set i | 0 <= i < |table| && !garbage[i] :: table[i]
  }

  /** Filling a place that was free, or keeping what is there, adds the element. */
  lemma PutLive(t: seq<Element>, g: seq<bool>, loc: nat, x: Element)
    requires |t| == |g| && loc < |t| && (g[loc] || t[loc] == x)
    ensures LiveOf(t[loc := x], g[loc := false]) == LiveOf(t, g) + {x}
  {
    var t', g' := t[loc := x], g[loc := false];
    assert !g'[loc] && t'[loc] == x;
    forall y | y in LiveOf(t, g) ensures y in LiveOf(t', g') {
      var i :| 0 <= i < |t| && !g[i] && t[i] == y;
      assert !g'[i] && t'[i] == y;
    }
  }

  /** An exchange hands back exactly what it replaces. */
  lemma SwapLive(t: seq<Element>, g: seq<bool>, loc: nat, x: Element)
    requires |t| == |g| && loc < |t| && !g[loc]
    ensures LiveOf(t[loc := x], g) + {t[loc]} == LiveOf(t, g) + {x}
  {
    var t' := t[loc := x];
    assert t'[loc] == x && t[loc] in LiveOf(t, g);
    forall y | y in LiveOf(t, g) ensures y in LiveOf(t', g) + {t[loc]} {
      var i :| 0 <= i < |t| && !g[i] && t[i] == y;
      assert i != loc ==> t'[i] == y;
    }
  }

  /** Freeing a place loses at most what is there. */
  lemma FreeLive(t: seq<Element>, g: seq<bool>, loc: nat)
    requires |t| == |g| && loc < |t|
    ensures LiveOf(t, g[loc := true]) <= LiveOf(t, g) <= LiveOf(t, g[loc := true]) + {t[loc]}
  {
    var g' := g[loc := true];
    forall y | y in LiveOf(t, g) ensures y in LiveOf(t, g') + {t[loc]} {
      var i :| 0 <= i < |t| && !g[i] && t[i] == y;
      assert i != loc ==> !g'[i];
    }
  }

  /** How many of the given places are recent and not garbage. */
  function Recent(epoch: seq<bool>, garbage: seq<bool>): (n: nat)
    requires |epoch| == |garbage|
    ensures n <= |epoch|
  {
    if epoch == [] then 0
    else
      var k := |epoch| - 1;
      Recent(epoch[..k], garbage[..k]) + if epoch[k] && !garbage[k] then 1 else 0
  }

  /** The garbage flags after aging: whatever is not recent becomes garbage. */
  ghost function AgedFlags(garbage: seq<bool>, epoch: seq<bool>, aged: bool): (r: seq<bool>)
    requires |garbage| == |epoch|
    ensures |r| == |garbage|
  {
    if aged then seq(|garbage|, i requires 0 <= i < |garbage| => garbage[i] || !epoch[i]) else garbage
  }

  class Cache {
    const size: nat
    const table: array<Element>
    const garbage: array<bool>
    const epoch: array<bool>
    const epochSize: nat
    const depthLimit: nat
    const hash: (Element, nat) -> nat
    var counter: nat
    ghost var inserted: set<Element>

    ghost predicate Shape() {
      && size > 0 && table.Length == garbage.Length == epoch.Length == size && garbage != epoch
    }

    function Places(e: Element): (p: seq<nat>)
      requires size > 0
      ensures |p| == PLACES && forall k :: 0 <= k < PLACES ==> p[k] < size
    {
      [FastRange(hash(e, 0), size), FastRange(hash(e, 1), size), FastRange(hash(e, 2), size), FastRange(hash(e, 3), size),
       FastRange(hash(e, 4), size), FastRange(hash(e, 5), size), FastRange(hash(e, 6), size), FastRange(hash(e, 7), size)]
    }

    ghost function Live(): set<Element>
      requires Shape()
      reads table, garbage
    {
      LiveOf(table[..], garbage[..])
    }

    /** Live elements stand at one of their places and were inserted, as was all else but zeros. */
    ghost predicate Valid()
      reads this, table, garbage
    {
      && Shape()
      && (forall i :: 0 <= i < size && !garbage[i] ==> i in Places(table[i]) && table[i] in inserted)
      && (forall i :: 0 <= i < size ==> table[i] in inserted || table[i] == 0)
    }

    constructor (newSize: nat, depthLimit: nat, hash: (Element, nat) -> nat)
      ensures Valid() && fresh(table) && fresh(garbage) && fresh(epoch) && inserted == {} && Live() == {}
      ensures size == (if newSize < 2 then 2 else newSize) && this.depthLimit == depthLimit && this.hash == hash
    {
      var n := if newSize < 2 then 2 else newSize;
      size, this.depthLimit, this.hash := n, depthLimit, hash;
      table := new Element[n](_ => 0);
      garbage := new bool[n](_ => true);
      epoch := new bool[n](_ => false);
      epochSize := Max(1, 45 * n / 100);
      counter := Max(1, 45 * n / 100);
      inserted := {};
    }

    /** When enough recent elements have gathered, the older ones are given up and the recent
        ones grow old. */
    method EpochCheck()
      requires Valid()
      modifies garbage, epoch, this`counter
      ensures Valid() && Live() <= old(Live())
      ensures old(counter) != 0 ==> counter == old(counter) - 1 && garbage[..] == old(garbage[..]) && epoch[..] == old(epoch[..])
      ensures var aged := old(counter) == 0 && old(Recent(epoch[..], garbage[..])) >= epochSize;
        && (aged ==> counter == epochSize && forall i :: 0 <= i < size ==>
              garbage[i] == (old(garbage[i]) || !old(epoch[i])) && !epoch[i])
        && (!aged ==> garbage[..] == old(garbage[..]) && epoch[..] == old(epoch[..]))
        && (!aged && old(counter) == 0 ==>
              counter == Max(1, Max(epochSize / 16, epochSize - old(Recent(epoch[..], garbage[..])))))
    {
      if counter != 0 {
        counter := counter - 1;
        return;
      }
      var unused := CountRecent();
      if unused >= epochSize {
        Age();
        counter := epochSize;
      } else {
        counter := Max(1, Max(epochSize / 16, epochSize - unused));
      }
    }

    method CountRecent() returns (n: nat)
      requires Shape()
      ensures n == Recent(epoch[..], garbage[..])
    {
      n := 0;
      var i := 0;
      while i < size
        invariant i <= size && n == Recent(epoch[..i], garbage[..i])
      {
        assert epoch[..i + 1][..i] == epoch[..i] && garbage[..i + 1][..i] == garbage[..i];
        if epoch[i] && !garbage[i] { n := n + 1; }
        i := i + 1;
      }
      assert epoch[..i] == epoch[..] && garbage[..i] == garbage[..];
    }

    method Age()
      requires Valid()
      modifies garbage, epoch
      ensures forall i :: 0 <= i < size ==> garbage[i] == (old(garbage[i]) || !old(epoch[i])) && !epoch[i]
      ensures Valid() && Live() <= old(Live())
    {
      var i := 0;
      while i < size
        invariant i <= size
        invariant forall k :: 0 <= k < i ==> garbage[k] == (old(garbage[k]) || !old(epoch[k])) && !epoch[k]
        invariant forall k :: i <= k < size ==> garbage[k] == old(garbage[k]) && epoch[k] == old(epoch[k])
      {
        if epoch[i] { epoch[i] := false; } else { garbage[i] := true; }
        i := i + 1;
      }
    }

    /** The place of an element among the given ones, or their number. */
    method FindElement(e: Element, locs: seq<nat>) returns (k: nat)
      requires Shape() && |locs| == PLACES && forall j :: 0 <= j < PLACES ==> locs[j] < size
      ensures k <= PLACES && (k < PLACES ==> table[locs[k]] == e) && forall j :: 0 <= j < k ==> table[locs[j]] != e
    {
      k := 0;
      while k < PLACES && table[locs[k]] != e
        invariant k <= PLACES && forall j :: 0 <= j < k ==> table[locs[j]] != e
      {
        k := k + 1;
      }
    }

    method FindGarbage(locs: seq<nat>) returns (k: nat)
      requires Shape() && |locs| == PLACES && forall j :: 0 <= j < PLACES ==> locs[j] < size
      ensures k <= PLACES && (k < PLACES ==> garbage[locs[k]]) && forall j :: 0 <= j < k ==> !garbage[locs[j]]
    {
      k := 0;
      while k < PLACES && !garbage[locs[k]]
        invariant k <= PLACES && forall j :: 0 <= j < k ==> !garbage[locs[j]]
      {
        k := k + 1;
      }
    }

    /** Put an element where nothing is lost by it. */
    method Keep(e: Element, loc: nat, recent: bool)
      requires Valid() && loc in Places(e) && e in inserted && (garbage[loc] || table[loc] == e) && loc < size
      modifies table, garbage, epoch
      ensures Valid() && Live() == old(Live()) + {e}
    {
      ghost var t, g := table[..], garbage[..];
      PutLive(t, g, loc, e);
      table[loc] := e;
      garbage[loc] := false;
      epoch[loc] := recent;
      assert table[..] == t[loc := e] && garbage[..] == g[loc := false];
    }

    /** Take the place of another element and hand it on. */
    method Displace(e: Element, loc: nat, recent: bool) returns (next: Element, nextRecent: bool)
      requires Valid() && loc in Places(e) && e in inserted && loc < size && !garbage[loc]
      modifies table, epoch
      ensures Valid() && Live() + {next} == old(Live()) + {e} && loc in Places(next) && next in inserted
    {
      ghost var t, g := table[..], garbage[..];
      SwapLive(t, g, loc, e);
      next, nextRecent := table[loc], epoch[loc];
      table[loc] := e;
      epoch[loc] := recent;
      assert table[..] == t[loc := e];
    }

    /** What is live after aging, and the new element, stays live except for at most one of them:
        `lost`, if anything was. */
    method Insert(e: Element) returns (ghost kept: set<Element>, ghost complete: bool, ghost lost: Element)
      requires Valid()
      modifies table, garbage, epoch, this`counter, this`inserted
      ensures Valid() && inserted == old(inserted) + {e}
      ensures kept == LiveOf(old(table[..]), AgedFlags(old(garbage[..]), old(epoch[..]),
                               old(counter) == 0 && old(Recent(epoch[..], garbage[..])) >= epochSize))
      ensures complete ==> Live() == kept + {e}
      ensures !complete ==> Live() + {lost} == kept + {e}
    {
      hide LiveOf, Places;
      EpochCheck();
      assert garbage[..] == AgedFlags(old(garbage[..]), old(epoch[..]),
                                      old(counter) == 0 && old(Recent(epoch[..], garbage[..])) >= epochSize);
      hide AgedFlags;
      kept, complete, lost := Live(), true, e;
      inserted := inserted + {e};
      var cur, recent, last, locs := e, true, size, Places(e);
      var k := FindElement(cur, locs);
      if k < PLACES {
        Keep(cur, locs[k], recent);
        return;
      }
      var depth := 0;
      while depth < depthLimit
        invariant Valid() && inserted == old(inserted) + {e} && cur in inserted && locs == Places(cur)
        invariant Live() + {cur} == kept + {e}
      {
        k := FindGarbage(locs);
        if k < PLACES {
          Keep(cur, locs[k], recent);
          return;
        }
        last := locs[(1 + IndexOf(locs, last)) % PLACES];
        cur, recent := Displace(cur, last, recent);
        locs := Places(cur);
        depth := depth + 1;
      }
      complete, lost := false, cur;
    }

    /** Finds every live element, and nothing that was never inserted except zero. Erasing frees
        one place and leaves the table as it is. */
    method Contains(e: Element, erase: bool) returns (found: bool)
      requires Valid()
      modifies garbage
      ensures Valid() && table[..] == old(table[..])
      ensures found <==> exists k :: 0 <= k < PLACES && table[Places(e)[k]] == e
      ensures e in old(Live()) ==> found
      ensures found ==> e in inserted || e == 0
      ensures !erase ==> garbage[..] == old(garbage[..])
      ensures Live() <= old(Live()) <= Live() + {e}
    {
      var locs := Places(e);
      var k := FindElement(e, locs);
      found := k < PLACES;
      if found && erase {
        ghost var t, g := table[..], garbage[..];
        FreeLive(t, g, locs[k]);
        garbage[locs[k]] := true;
        assert garbage[..] == g[locs[k] := true];
      }
    }
  }

  /** The first position of a value, or the length. */
  function IndexOf(s: seq<nat>, x: nat): (k: nat)
    ensures k <= |s| && (k < |s| ==> s[k] == x) && forall j :: 0 <= j < k ==> s[j] != x
  {
    if s == [] || s[0] == x then 0 else 1 + IndexOf(s[1..], x)
  }

  /** The first element an insertion displaces stands at its second place, not at its first:
      the search for a place that does not occur ends behind the last one. */
  lemma FirstDisplaced(locs: seq<nat>, invalid: nat)
    requires |locs| == PLACES && invalid !in locs
    ensures locs[(1 + IndexOf(locs, invalid)) % PLACES] == locs[1]
  {
  }
}
