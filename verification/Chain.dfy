/** The block index: ancestors through skip links, and the active chain. */
module Chain {
  import opened Division

  // ----- how far a skip link goes -----

  function And(x: nat, y: nat): nat
    decreases x
  {
    if x == 0 || y == 0 then 0 else 2 * And(x / 2, y / 2) + (if x % 2 == 1 && y % 2 == 1 then 1 else 0)
  }

  lemma {:induction false} AndSmaller(x: nat, y: nat)
    ensures And(x, y) <= x && And(x, y) <= y
  {
    if x != 0 && y != 0 { AndSmaller(x / 2, y / 2); }
  }

  lemma {:induction false} AndSame(x: nat)
    ensures And(x, x) == x
  {
    if x != 0 { AndSame(x / 2); }
  }

  function InvertLowestOne(n: nat): (r: nat)
    ensures r <= n && (n > 0 ==> r < n)
  {
    if n == 0 then 0 else AndSmaller(n, n - 1); And(n, n - 1)
  }

  lemma AndHalves(x: nat, y: nat)
    ensures And(2 * x, 2 * y + 1) == 2 * And(x, y) == And(2 * x + 1, 2 * y)
  {
    assert (2 * x) / 2 == x && (2 * y + 1) / 2 == y && (2 * x + 1) / 2 == x && (2 * y) / 2 == y;
  }

  /** The lowest one bit of a number, here the one below m and above k zeros, becomes a zero. */
  lemma {:induction false} InvertsLowestOne(m: nat, k: nat)
    ensures InvertLowestOne((2 * m + 1) * Pow2(k)) == 2 * m * Pow2(k)
  {
    hide And;
    if k == 0 {
      AndHalves(m, m);
      AndSame(m);
    } else {
      var p := Pow2(k - 1);
      var half := (2 * m + 1) * p;
      InvertsLowestOne(m, k - 1);
      hide Pow2;
      Below(0, 2 * m + 1, p);
      AndHalves(half, half - 1);
      assert (2 * m + 1) * (2 * p) == 2 * half && 2 * m * (2 * p) == 2 * (2 * m * p);
    }
  }

  function GetSkipHeight(height: nat): (s: nat)
    ensures height >= 1 ==> s < height
  {
    if height < 2 then 0
    else if height % 2 == 1 then InvertLowestOne(InvertLowestOne(height - 1)) + 1
    else InvertLowestOne(height)
  }

  // ----- blocks -----

  class BlockIndex {
    const pprev: BlockIndex?
    const height: nat
    var pskip: BlockIndex?

    /** Heights count the predecessors. */
    ghost predicate Linked()
      decreases height
    {
      if pprev == null then height == 0 else pprev.height + 1 == height && pprev.Linked()
    }

    constructor (pprev: BlockIndex?)
      requires pprev != null ==> pprev.Linked()
      ensures this.pprev == pprev && Linked() && pskip == null
    {
      this.pprev := pprev;
      height := if pprev == null then 0 else pprev.height + 1;
      pskip := null;
    }

    /** A skip link, where there is one, leads to the ancestor at the skip height. */
    ghost predicate SkipOk()
      requires Linked()
      reads this
    {
      pskip != null ==> height >= 1 && pskip == Ancestor(this, GetSkipHeight(height))
    }

    /** The ancestor at a height, or null where there is none; uses whatever skip links exist. */
    method GetAncestor(target: int, ghost all: set<BlockIndex>) returns (r: BlockIndex?)
      requires this in all && Index(all)
      ensures if 0 <= target <= height then r == Ancestor(this, target) else r == null
    {
      if target > height || target < 0 { return null; }
      var walk, heightWalk := this, height;
      while heightWalk > target
        invariant walk in all && walk.Linked() && heightWalk == walk.height >= target
        invariant Ancestor(walk, target) == Ancestor(this, target)
        decreases heightWalk
      {
        var heightSkip := GetSkipHeight(heightWalk);
        var heightSkipPrev := GetSkipHeight(heightWalk - 1);
        if walk.pskip != null &&
           (heightSkip == target || (heightSkip > target && !(heightSkipPrev < heightSkip - 2 && heightSkipPrev >= target)))
        {
          AncestorOfAncestor(walk, heightSkip, target);
          AncestorKnown(all, walk, heightSkip);
          walk, heightWalk := walk.pskip, heightSkip;
        } else {
          walk, heightWalk := walk.pprev, heightWalk - 1;
        }
      }
      r := walk;
    }

    /** Adds the skip link that GetAncestor may then use. */
    method BuildSkip(ghost all: set<BlockIndex>)
      requires Linked() && this !in all && Index(all) && (pprev != null ==> pprev in all)
      modifies this
      ensures pprev == null ==> pskip == old(pskip)
      ensures pprev != null ==> SkipOk() && pskip != null && Index(all + {this})
    {
      if pprev != null {
        pskip := pprev.GetAncestor(GetSkipHeight(height), all);
      }
    }
  }

  /** The reference: follow the predecessor links. */
  ghost function Ancestor(b: BlockIndex, h: nat): (r: BlockIndex)
    requires b.Linked() && h <= b.height
    ensures r.Linked() && r.height == h
    decreases b.height
  {
    if h == b.height then b else Ancestor(b.pprev, h)
  }

  /** A set of blocks that holds all ancestors and whose skip links are right. */
  ghost predicate Index(all: set<BlockIndex>)
    reads all
  {
    forall b :: b in all ==> b.Linked() && (b.pprev != null ==> b.pprev in all) && b.SkipOk()
  }

  lemma {:induction false} AncestorOfAncestor(b: BlockIndex, h: nat, g: nat)
    requires b.Linked() && g <= h <= b.height
    ensures Ancestor(Ancestor(b, h), g) == Ancestor(b, g)
    decreases b.height
  {
    if h < b.height { AncestorOfAncestor(b.pprev, h, g); }
  }

  /** One step down a chain. */
  lemma Parent(b: BlockIndex, h: nat)
    requires b.Linked() && h <= b.height
    ensures var p := Ancestor(b, h).pprev;
      && (p == null <==> h == 0)
      && (p != null ==> p.Linked() && p.height == h - 1 && p == Ancestor(b, h - 1))
  {
    if h > 0 { AncestorOfAncestor(b, h, h - 1); }
  }

  lemma Itself(b: BlockIndex)
    requires b.Linked()
    ensures Ancestor(b, b.height) == b
  {
  }

  lemma {:induction false} AncestorKnown(all: set<BlockIndex>, b: BlockIndex, h: nat)
    requires Index(all) && b in all && h <= b.height
    ensures Ancestor(b, h) in all
    decreases b.height
  {
    if h < b.height { AncestorKnown(all, b.pprev, h); }
  }

  // ----- the active chain -----

  class ActiveChain {
    var vChain: seq<BlockIndex>

    /** The chain lists the ancestors of its tip by height. */
    ghost predicate Valid()
      reads this
    {
      vChain != [] ==>
        && vChain[|vChain| - 1].Linked() && vChain[|vChain| - 1].height == |vChain| - 1
        && forall i :: 0 <= i < |vChain| ==> vChain[i] == Ancestor(vChain[|vChain| - 1], i)
    }

    constructor ()
      ensures Valid() && vChain == []
    {
      vChain := [];
    }

    predicate Contains(b: BlockIndex)
      reads this
    {
      b.height < |vChain| && vChain[b.height] == b
    }

    /** Every place up to the new tip is filled; the walk stops where the old chain agrees. */
    method SetTip(block: BlockIndex)
      requires Valid() && block.Linked()
      modifies this
      ensures Valid() && |vChain| == block.height + 1 && vChain[block.height] == block
      ensures forall i :: 0 <= i <= block.height ==> vChain[i] == Ancestor(block, i)
    {
      ghost var before := vChain;
      var n := block.height + 1;
      var resized: seq<BlockIndex?> := if |vChain| >= n then vChain[..n] else vChain + seq(n - |vChain|, _ => null);
      var p: BlockIndex? := block;
      while p != null && resized[p.height] != p
        invariant |resized| == n
        invariant p != null ==> p.Linked() && p.height < n && p == Ancestor(block, p.height)
        invariant forall i :: 0 <= i < n && (p == null || i > p.height) ==> resized[i] == Ancestor(block, i)
        invariant forall i :: 0 <= i < n && p != null && i <= p.height ==>
          resized[i] == if i < |before| then before[i] else null
        decreases if p == null then 0 else p.height + 1
      {
        resized := resized[p.height := p];
        Parent(block, p.height);
        p := p.pprev;
      }
      if p != null {
        forall i | 0 <= i <= p.height ensures resized[i] == Ancestor(block, i) {
          AncestorOfAncestor(before[|before| - 1], p.height, i);
          AncestorOfAncestor(block, p.height, i);
        }
      }
      vChain := resized;
    }

    /** The highest ancestor of a block that is on the chain. */
    method FindFork(b: BlockIndex?, ghost all: set<BlockIndex>) returns (r: BlockIndex?)
      requires Valid() && (b != null ==> b in all && Index(all))
      ensures b == null ==> r == null
      ensures b != null && r != null ==>
        && r.height <= b.height && r == Ancestor(b, r.height) && Contains(r)
        && forall h :: r.height < h <= b.height ==> !Contains(Ancestor(b, h))
      ensures b != null && r == null ==> forall h :: 0 <= h <= b.height ==> !Contains(Ancestor(b, h))
    {
      hide Ancestor, BlockIndex.Linked, BlockIndex.SkipOk;
      if b == null { return null; }
      r := b;
      Itself(b);
      if b.height > |vChain| - 1 {
        r := b.GetAncestor(|vChain| - 1, all);
      }
      while r != null && !Contains(r)
        invariant r != null ==> r.Linked() && r.height <= b.height && r == Ancestor(b, r.height)
        invariant forall h :: 0 <= h <= b.height && (r == null || h > r.height) ==> !Contains(Ancestor(b, h))
        decreases if r == null then 0 else r.height + 1
      {
        Parent(b, r.height);
        r := r.pprev;
      }
    }
  }

  /** The highest block both descend from; null if even their first blocks differ. */
  method LastCommonAncestor(a: BlockIndex, b: BlockIndex, ghost all: set<BlockIndex>) returns (r: BlockIndex?)
    requires a in all && b in all && Index(all)
    ensures r != null <==> Ancestor(a, 0) == Ancestor(b, 0)
    ensures r != null ==>
      && r.height <= a.height && r.height <= b.height && r == Ancestor(a, r.height) == Ancestor(b, r.height)
      && forall h :: r.height < h && h <= a.height && h <= b.height ==> Ancestor(a, h) != Ancestor(b, h)
  {
    hide Ancestor, BlockIndex.Linked, BlockIndex.SkipOk;
    var pa: BlockIndex?, pb: BlockIndex? := a, b;
    Itself(a);
    Itself(b);
    if a.height > b.height {
      pa := a.GetAncestor(b.height, all);
    } else if b.height > a.height {
      pb := b.GetAncestor(a.height, all);
    }
    while pa != pb && pa != null && pb != null
      invariant pa == null <==> pb == null
      invariant pa != null ==>
        && pa.Linked() && pb.Linked() && pa.height == pb.height <= a.height && pb.height <= b.height
        && pa == Ancestor(a, pa.height) && pb == Ancestor(b, pb.height)
      invariant forall h :: 0 <= h <= a.height && h <= b.height && (pa == null || h > pa.height) ==>
        Ancestor(a, h) != Ancestor(b, h)
      decreases if pa == null then 0 else pa.height + 1
    {
      Parent(a, pa.height);
      Parent(b, pb.height);
      pa, pb := pa.pprev, pb.pprev;
    }
    r := pa;
    if r != null {
      AncestorOfAncestor(a, r.height, 0);
      AncestorOfAncestor(b, r.height, 0);
    }
  }
}
