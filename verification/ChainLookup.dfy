/**
 Looking a slot up on a chain: `Chain.Commitment`.
 */
module ChainLookup {
  import opened Collections
  import opened CommitmentTree

  /** What the walk over parent chains and slot indexes finds. */
  function Lookup(t: Tree, x: ChainId, s: nat): (r: Option<Id>)
    requires t.Chained() && x in t.forkingPoint
    ensures t.Indexed() && r.Some? ==> r.value in t.header && t.Slot(r.value) == s
    decreases t.Slot(t.forkingPoint[x])
  {
    var f := t.forkingPoint[x];
    if t.Slot(f) == s then Some(f)
    else if s > t.Slot(f) then
      if s in t.index[x] then Some(t.index[x][s]) else None
    else if t.ParentChain(x).Some? then Lookup(t, t.ParentChain(x).value, s)
    else None
  }

  /** The loop of `Chain.Commitment`: it moves a chain cursor towards the root. */
  method Commitment(t: Tree, x: ChainId, slot: nat) returns (r: Option<Id>)
    requires t.Chained() && x in t.forkingPoint
    ensures r == Lookup(t, x, slot)
  {
    var current := Some(x);
    while current.Some?
      invariant current.Some? ==> current.value in t.forkingPoint && Lookup(t, current.value, slot) == Lookup(t, x, slot)
      invariant current.None? ==> Lookup(t, x, slot) == None
      decreases if current.Some? then 1 + t.Slot(t.forkingPoint[current.value]) else 0
    {
      var forkingPoint := t.forkingPoint[current.value];
      if t.Slot(forkingPoint) == slot {
        return Some(forkingPoint);
      } else if slot > t.Slot(forkingPoint) {
        return if slot in t.index[current.value] then Some(t.index[current.value][slot]) else None;
      } else {
        current := t.ParentChain(current.value);
      }
    }
    return None;
  }

  /** The lowest commitment of a solid commitment's chain is the forking point, unless that is the root. */
  lemma ForkingPointOnChain(t: Tree, c: Id)
    requires t.Chained() && c in t.chain && t.Solid(c)
    requires t.Slot(t.forkingPoint[t.chain[c]]) >= t.Slot(t.root)
    ensures t.AncestorAt(c, t.Slot(t.forkingPoint[t.chain[c]])) == t.forkingPoint[t.chain[c]]
  {
    var f := t.forkingPoint[t.chain[c]];
    var a := t.AncestorAt(c, t.Slot(f));
    ChainDown(t, c, t.Slot(f));
    AncestorSlot(t, c, t.Slot(f));
    if a != t.root && t.IsMain(a) {
      assert false;
    }
  }

  /** A lookup can find c: c starts its chain, or the slot index of its chain holds the slot. */
  predicate Findable(t: Tree, c: Id) {
    && c in t.chain && c in t.header && t.chain[c] in t.forkingPoint && t.chain[c] in t.index
    && (t.forkingPoint[t.chain[c]] == c || t.Slot(c) in t.index[t.chain[c]])
  }

  /**
   Looking up a slot on the chain of a solid commitment finds its
   ancestor-or-self at that slot, or nothing if that cannot be found.
   */
  lemma {:induction false} LookupFinds(t: Tree, c: Id, s: nat)
    requires t.Consistent() && c in t.chain && t.Solid(c)
    requires t.Slot(t.root) <= s <= t.Slot(c)
    ensures Lookup(t, t.chain[c], s) == if Findable(t, t.AncestorAt(c, s)) then Some(t.AncestorAt(c, s)) else None
    decreases t.Slot(c)
  {
    hide Tree.MainChildren, Tree.Partitioned, Tree.Single;
    var x := t.chain[c];
    var f := t.forkingPoint[x];
    if s >= t.Slot(f) {
      ChainDown(t, c, s);
      if s == t.Slot(f) {
        ForkingPointOnChain(t, c);
      } else if s in t.index[x] {
        SameSlot(t, t.AncestorAt(c, s), t.index[x][s]);
      }
    } else {
      ForkingPointOnChain(t, c);
      AncestorSlot(t, c, t.Slot(f));
      AncestorTwice(t, c, t.Slot(f), s);
      SolidOnChain(t, t.parent[f]);
      LookupFinds(t, t.parent[f], s);
    }
  }

  /** With complete slot indexes the ancestor-or-self is found. */
  lemma LookupIsAncestor(t: Tree, c: Id, s: nat)
    requires t.Inv() && c in t.chain && t.Solid(c)
    requires t.Slot(t.root) <= s <= t.Slot(c)
    ensures Lookup(t, t.chain[c], s) == Some(t.AncestorAt(c, s))
  {
    hide Tree.MainChildren, Tree.Partitioned, Lookup;
    InvConsistent(t);
    LookupFinds(t, c, s);
    AncestorSlot(t, c, s);
    SolidOnChain(t, t.AncestorAt(c, s));
  }

  /** Above the tip of a chain nothing is found. */
  lemma LookupAboveTip(t: Tree, c: Id, s: nat)
    requires t.Consistent() && c in t.chain && c !in t.mainChild && s > t.Slot(c)
    ensures Lookup(t, t.chain[c], s) == None
  {
    if s in t.index[t.chain[c]] {
      TipIsHighest(t, c, t.index[t.chain[c]][s]);
      assert false;
    }
  }

  /** Below the root a lookup can only find the evicted forking point of a chain, never a live commitment. */
  lemma {:induction false} LookupBelowRoot(t: Tree, x: ChainId, s: nat)
    requires t.Inv() && x in t.forkingPoint && s < t.Slot(t.root)
    ensures Lookup(t, x, s).Some? ==> Lookup(t, x, s).value !in t.live
    decreases t.Slot(t.forkingPoint[x])
  {
    if s < t.Slot(t.forkingPoint[x]) && t.ParentChain(x).Some? {
      LookupBelowRoot(t, t.ParentChain(x).value, s);
    }
  }
}
