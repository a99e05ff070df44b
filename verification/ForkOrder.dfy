/**
 What `Commitment.Less` means: it compares two chains at the first slot where
 they differ, and orders the commitments of one slot strictly and totally. With
 complete slot indexes it gives the same answer on every node that can relate
 the two commitments to its root, whatever arrived first and whichever child
 became the main child. With a missing entry it does so exactly if the
 commitment that is missing at the first difference has the smaller ID anyway.
 */
module ForkOrder {
  import opened Collections
  import opened CommitmentTree
  import opened ChainLookup
  import opened ForkChoice

  // ----- the first difference of two commitments

  /** At slot d the ancestors x of a and y of b differ, and below d they are the same. */
  ghost predicate FirstDifference(t: Tree, a: Id, b: Id, d: nat, x: Id, y: Id)
    requires t.Known() && t.Linked() && a in t.live && b in t.live
  {
    && t.Slot(t.root) <= d <= t.Slot(a) && d <= t.Slot(b)
    && x == t.AncestorAt(a, d) && y == t.AncestorAt(b, d) && x != y
    && (forall s | t.Slot(t.root) <= s < d :: t.AncestorAt(a, s) == t.AncestorAt(b, s))
  }

  /** What a lookup on the chain of c finds, in terms of the tip of that chain. */
  lemma LookupFromTip(t: Tree, c: Id, s: nat)
    requires t.Consistent() && SolidId(t, c) && c in t.chain && t.Slot(t.root) <= s
    ensures SolidId(t, Tip(t, c))
    ensures var tip := Tip(t, c);
            Lookup(t, t.chain[c], s) ==
            if s <= t.Slot(tip) && Findable(t, t.AncestorAt(tip, s)) then Some(t.AncestorAt(tip, s)) else None
  {
    TipOnChain(t, c);
    if s <= t.Slot(Tip(t, c)) {
      LookupFinds(t, Tip(t, c), s);
    } else {
      LookupAboveTip(t, Tip(t, c), s);
    }
  }

  /** Commitments that are not on one path differ at a first slot. */
  lemma FirstDifferenceExists(t: Tree, a: Id, b: Id) returns (d: nat, x: Id, y: Id)
    requires t.Known() && t.Linked() && SolidId(t, a) && SolidId(t, b) && Apart(t, a, b)
    ensures FirstDifference(t, a, b, d, x, y)
  {
    var m := Min(t.Slot(a), t.Slot(b));
    d := t.Slot(t.root);
    while t.AncestorAt(a, d) == t.AncestorAt(b, d)
      invariant t.Slot(t.root) <= d <= m
      invariant forall s | t.Slot(t.root) <= s < d :: t.AncestorAt(a, s) == t.AncestorAt(b, s)
      decreases m - d
    {
      d := d + 1;
    }
    x, y := t.AncestorAt(a, d), t.AncestorAt(b, d);
  }

  /** At the first difference there are two children of one commitment. */
  lemma DifferenceForks(t: Tree, a: Id, b: Id, d: nat, x: Id, y: Id)
    requires t.Known() && t.Linked() && SolidId(t, a) && SolidId(t, b) && FirstDifference(t, a, b, d, x, y)
    ensures d > t.Slot(t.root) && x in t.parent && y in t.parent && t.parent[x] == t.parent[y] && x in t.live && y in t.live
    ensures LessBelow(t, a, b) == Before(t, x, y)
  {
    hide LessBelow, Before;
    AncestorSlot(t, a, d);
    AncestorSlot(t, b, d);
    assert t.AncestorAt(a, d - 1) == t.AncestorAt(b, d - 1);
    DivergenceAt(t, a, b, d);
  }

  /** The answer of `Less` is decided at the first difference of the two chains. */
  lemma FirstDifferenceDecides(t: Tree, c: Id, o: Id, d: nat, x: Id, y: Id)
    requires t.Consistent() && SolidId(t, c) && SolidId(t, o) && FirstDifference(t, Tip(t, c), Tip(t, o), d, x, y)
    ensures x in t.header && y in t.header && LessBelow(t, Tip(t, c), Tip(t, o)) == Before(t, x, y)
  {
    hide Tree.MainChildren, Tree.Partitioned, Tree.Grounded, Tree.Single, Tree.EntriesRight, Tip, LessBelow, Before;
    SolidOnChain(t, c);
    SolidOnChain(t, o);
    TipOnChain(t, c);
    TipOnChain(t, o);
    DifferenceForks(t, Tip(t, c), Tip(t, o), d, x, y);
  }

  /**
   The answer for two commitments of one slot is the order of the IDs at their
   first difference if and only if neither commitment that is missing from its
   slot index there has the larger ID.
   */
  lemma AgreesIff(t: Tree, c: Id, o: Id, d: nat, x: Id, y: Id)
    requires t.Known() && t.Linked() && SolidId(t, c) && SolidId(t, o) && t.Slot(c) == t.Slot(o)
    requires FirstDifference(t, c, o, d, x, y)
    ensures x in t.header && y in t.header
    ensures TreeLess(t, c, o) == (x < y) && NodeLess(t, c, o) == Before(t, x, y)
    ensures NodeLess(t, c, o) == TreeLess(t, c, o) <==> (t.Unlisted(x) ==> x < y) && (t.Unlisted(y) ==> y < x)
  {
    DifferenceForks(t, c, o, d, x, y);
    Truncate(t, c, o, d);
    MainSibling(t, x, y);
  }

  /** Two siblings do not both continue a chain. */
  lemma MainSibling(t: Tree, x: Id, y: Id)
    requires x in t.header && y in t.header && x in t.parent && y in t.parent && t.parent[x] == t.parent[y] && x != y
    ensures !(t.Unlisted(x) && t.Unlisted(y))
  {
  }

  /** For commitments of one slot the tips can be forgotten. */
  lemma TipsDecideOneSlot(t: Tree, c: Id, o: Id)
    requires t.Consistent() && SolidId(t, c) && SolidId(t, o) && t.Slot(c) == t.Slot(o) && c != o
    ensures t.ChainOf(c) != t.ChainOf(o)
    ensures LessBelow(t, Tip(t, c), Tip(t, o)) == NodeLess(t, c, o)
  {
    hide Tree.MainChildren, Tree.Partitioned, Tree.Grounded, Tree.EntriesRight, Tip, LessBelow, NodeLess;
    SolidOnChain(t, c);
    SolidOnChain(t, o);
    TipOnChain(t, c);
    TipOnChain(t, o);
    TruncateBelow(t, Tip(t, c), Tip(t, o), t.Slot(c));
  }

  /** With complete indexes the two orders are the same. */
  lemma {:induction false} NothingMissing(t: Tree, c: Id, o: Id)
    requires t.Inv() && c in t.live && o in t.live
    ensures NodeLess(t, c, o) == TreeLess(t, c, o)
    decreases t.Slot(c)
  {
    hide Tree.MainChildren, Tree.Partitioned, Tree.Grounded, Tree.Indexed;
    if c in t.parent && o in t.parent && t.parent[c] != t.parent[o] {
      NothingMissing(t, t.parent[c], t.parent[o]);
    } else {
      Listed(t, c);
      Listed(t, o);
    }
  }

  lemma Listed(t: Tree, c: Id)
    requires t.Inv() && c in t.live
    ensures !t.Unlisted(c)
  {
    hide Tree.Linked, Tree.MainChildren, Tree.Partitioned, Tree.Grounded;
  }

  /** `Less` on two commitments of one slot. */
  method LessAtSlot(t: Tree, c: Id, o: Id) returns (r: bool)
    requires t.Consistent() && SolidId(t, c) && SolidId(t, o) && t.Slot(c) == t.Slot(o)
    ensures r == NodeLess(t, c, o)
    ensures t.Inv() ==> r == TreeLess(t, c, o)
  {
    hide Tree.Single, Tree.EntriesRight, Tree.Indexed, Tree.MainChildren, Tree.Partitioned, Tree.Grounded;
    if c != o {
      TipsDecideOneSlot(t, c, o);
    }
    if t.Inv() {
      NothingMissing(t, c, o);
    }
    r := Less(t, Some(c), Some(o));
  }

  // ----- a strict total order

  lemma {:induction false} TreeLessTotal(t: Tree, x: Id, y: Id)
    requires t.Known() && t.Linked() && SolidId(t, x) && SolidId(t, y) && t.Slot(x) == t.Slot(y) && x != y
    ensures TreeLess(t, x, y) != TreeLess(t, y, x)
    decreases t.Slot(x)
  {
    if t.parent[x] != t.parent[y] {
      TreeLessTotal(t, t.parent[x], t.parent[y]);
    }
  }

  lemma TreeLessIrreflexive(t: Tree, x: Id)
    requires t.Known() && t.Linked() && x in t.live
    ensures !TreeLess(t, x, x)
  {
  }

  lemma {:induction false} TreeLessTransitive(t: Tree, x: Id, y: Id, z: Id)
    requires t.Known() && t.Linked() && SolidId(t, x) && SolidId(t, y) && SolidId(t, z)
    requires t.Slot(x) == t.Slot(y) == t.Slot(z) && TreeLess(t, x, y) && TreeLess(t, y, z)
    ensures TreeLess(t, x, z)
    decreases t.Slot(x)
  {
    var px, py, pz := t.parent[x], t.parent[y], t.parent[z];
    if px == pz && px != py {
      TreeLessTotal(t, px, py);
    } else if px != py && py != pz {
      TreeLessTransitive(t, px, py, pz);
    }
  }

  lemma {:induction false} NodeLessTotal(t: Tree, x: Id, y: Id)
    requires t.Known() && t.Linked() && SolidId(t, x) && SolidId(t, y) && t.Slot(x) == t.Slot(y) && x != y
    ensures NodeLess(t, x, y) != NodeLess(t, y, x)
    decreases t.Slot(x)
  {
    if t.parent[x] != t.parent[y] {
      NodeLessTotal(t, t.parent[x], t.parent[y]);
    } else {
      MainSibling(t, x, y);
    }
  }

  lemma {:induction false} NodeLessTransitive(t: Tree, x: Id, y: Id, z: Id)
    requires t.Known() && t.Linked() && SolidId(t, x) && SolidId(t, y) && SolidId(t, z)
    requires t.Slot(x) == t.Slot(y) == t.Slot(z) && NodeLess(t, x, y) && NodeLess(t, y, z)
    ensures NodeLess(t, x, z)
    decreases t.Slot(x)
  {
    var px, py, pz := t.parent[x], t.parent[y], t.parent[z];
    if px == pz && px != py {
      NodeLessTotal(t, px, py);
    } else if px != py && py != pz {
      NodeLessTransitive(t, px, py, pz);
    } else if px == py == pz {
      NodeLessTotal(t, x, y);
      MainSibling(t, x, y);
    }
  }

  // ----- every node agrees

  /** Two nodes never know one ID with two different contents: the ID is a hash of them. */
  ghost predicate SameContents(t: Tree, u: Tree) {
    forall c | c in t.header && c in u.header :: t.header[c] == u.header[c]
  }

  /** The order of two commitments is the same on every node on which both are solid. */
  lemma {:induction false} TreeLessAgrees(t: Tree, u: Tree, x: Id, y: Id)
    requires t.Known() && t.Linked() && u.Known() && u.Linked() && SameContents(t, u)
    requires SolidId(t, x) && SolidId(t, y) && SolidId(u, x) && SolidId(u, y) && t.Slot(x) == t.Slot(y) && x != y
    ensures TreeLess(t, x, y) == TreeLess(u, x, y)
    decreases t.Slot(x)
  {
    assert t.parent[x] == u.parent[x] && t.parent[y] == u.parent[y];
    if t.parent[x] != t.parent[y] {
      TreeLessAgrees(t, u, t.parent[x], t.parent[y]);
    }
  }

  // ----- the heaviest commitment of a slot

  /** h has the highest weight, and comes last among those of that weight in the order that `Less` computes. */
  ghost predicate IsHeaviest(t: Tree, members: set<Id>, weight: map<Id, nat>, h: Id)
    requires t.Known() && t.Linked() && members <= t.live && members <= weight.Keys
  {
    && h in members
    && (forall x | x in members && x != h ::
          weight[x] < weight[h] || (weight[x] == weight[h] && NodeLess(t, x, h)))
  }

  /** The same in the order of the parent links and IDs. */
  ghost predicate IsTreeHeaviest(t: Tree, members: set<Id>, weight: map<Id, nat>, h: Id)
    requires t.Known() && t.Linked() && members <= t.live && members <= weight.Keys
  {
    && h in members
    && (forall x | x in members && x != h ::
          weight[x] < weight[h] || (weight[x] == weight[h] && TreeLess(t, x, h)))
  }

  ghost predicate SlotMembers(t: Tree, members: set<Id>, weight: map<Id, nat>, slot: nat)
    requires t.Known() && t.Linked()
  {
    members <= weight.Keys && forall c | c in members :: SolidId(t, c) && t.Slot(c) == slot
  }

  /** The heaviest element of the sorted set of one slot. */
  method Heaviest(t: Tree, members: set<Id>, weight: map<Id, nat>, ghost slot: nat) returns (h: Option<Id>)
    requires t.Consistent() && SlotMembers(t, members, weight, slot)
    ensures h.None? <==> members == {}
    ensures h.Some? ==> IsHeaviest(t, members, weight, h.value)
  {
    hide Tree.MainChildren, Tree.Partitioned, Tree.Grounded, Tree.Single, Tree.EntriesRight, NodeLess, TreeLess, Tree.Indexed;
    if members == {} {
      return None;
    }
    var best :| best in members;
    var rest := members - {best};
    ghost var seen := {best};
    while rest != {}
      invariant rest <= members && seen + rest == members && seen !! rest && best in seen
      invariant IsHeaviest(t, seen, weight, best)
      decreases rest
    {
      var c :| c in rest;
      var behind := true;
      if weight[c] == weight[best] {
        behind := LessAtSlot(t, c, best);
      }
      if weight[c] < weight[best] || (weight[c] == weight[best] && behind) {
        assert IsHeaviest(t, seen + {c}, weight, best);
      } else {
        NewHeaviest(t, seen, weight, slot, best, c);
        best := c;
      }
      seen := seen + {c};
      rest := rest - {c};
    }
    assert seen == members;
    return Some(best);
  }

  lemma NewHeaviest(t: Tree, seen: set<Id>, weight: map<Id, nat>, slot: nat, best: Id, c: Id)
    requires t.Known() && t.Linked() && SlotMembers(t, seen + {c}, weight, slot) && IsHeaviest(t, seen, weight, best)
    requires c !in seen && (weight[c] > weight[best] || (weight[c] == weight[best] && !NodeLess(t, c, best)))
    ensures IsHeaviest(t, seen + {c}, weight, c)
  {
    hide NodeLess;
    if weight[c] == weight[best] {
      NodeLessTotal(t, c, best);
    }
    forall x | x in seen + {c} && x != c
      ensures weight[x] < weight[c] || (weight[x] == weight[c] && NodeLess(t, x, c))
    {
      if x != best && weight[x] == weight[c] {
        NodeLessTransitive(t, x, best, c);
      }
    }
  }

  /** There is one heaviest commitment. */
  lemma HeaviestUnique(t: Tree, members: set<Id>, weight: map<Id, nat>, slot: nat, h: Id, k: Id)
    requires t.Known() && t.Linked() && SlotMembers(t, members, weight, slot)
    requires IsHeaviest(t, members, weight, h) && IsHeaviest(t, members, weight, k)
    ensures h == k
  {
    hide NodeLess;
    if h != k {
      NodeLessTotal(t, h, k);
    }
  }

  /** In the order of parent links and IDs all nodes have the same heaviest commitment. */
  lemma TreeHeaviestAgrees(t: Tree, u: Tree, members: set<Id>, weight: map<Id, nat>, slot: nat, h: Id, k: Id)
    requires t.Known() && t.Linked() && u.Known() && u.Linked() && SameContents(t, u)
    requires SlotMembers(t, members, weight, slot) && SlotMembers(u, members, weight, slot)
    requires IsTreeHeaviest(t, members, weight, h) && IsTreeHeaviest(u, members, weight, k)
    ensures h == k
  {
    if h != k {
      TreeLessAgrees(t, u, h, k);
      TreeLessTotal(t, h, k);
      TreeLessAgrees(t, u, k, h);
    }
  }

  /** Where h parts from another commitment of the same weight, it is not missing from its slot index. */
  ghost predicate Visible(t: Tree, members: set<Id>, weight: map<Id, nat>, h: Id)
    requires t.Known() && t.Linked() && members <= t.live && members <= weight.Keys && h in members
  {
    forall c, d, x, y | c in members && c != h && weight[c] == weight[h] && FirstDifference(t, c, h, d, x, y) ::
      y in t.header && !t.Unlisted(y)
  }

  /** A node picks the heaviest commitment in the order of parent links and IDs if and only if it is visible there. */
  lemma HeaviestIff(t: Tree, members: set<Id>, weight: map<Id, nat>, slot: nat, h: Id)
    requires t.Known() && t.Linked() && SlotMembers(t, members, weight, slot) && IsTreeHeaviest(t, members, weight, h)
    ensures IsHeaviest(t, members, weight, h) <==> Visible(t, members, weight, h)
  {
    hide NodeLess, TreeLess, Before, FirstDifference;
    forall c | c in members && c != h && weight[c] == weight[h]
      ensures NodeLess(t, c, h) <==>
              forall d, x, y | FirstDifference(t, c, h, d, x, y) :: y in t.header && !t.Unlisted(y)
    {
      VisibleFrom(t, c, h);
    }
  }

  lemma VisibleFrom(t: Tree, c: Id, h: Id)
    requires t.Known() && t.Linked() && SolidId(t, c) && SolidId(t, h) && t.Slot(c) == t.Slot(h) && c != h && TreeLess(t, c, h)
    ensures NodeLess(t, c, h) <==> forall d, x, y | FirstDifference(t, c, h, d, x, y) :: y in t.header && !t.Unlisted(y)
  {
    hide NodeLess, TreeLess, FirstDifference;
    var d, x, y := FirstDifferenceExists(t, c, h);
    AgreesIff(t, c, h, d, x, y);
    forall e, z, w | FirstDifference(t, c, h, e, z, w)
      ensures NodeLess(t, c, h) ==> w in t.header && !t.Unlisted(w)
    {
      AgreesIff(t, c, h, e, z, w);
    }
  }

  /**
   Nodes with the same commitments and weights: h is what one of them picks, k
   what another one picks, and w the heaviest in the order of parent links and
   IDs. A node picks w if and only if w is visible to it. So if that is one of
   them, they pick the same if and only if it is both.
   */
  lemma HeaviestAgrees(t: Tree, u: Tree, members: set<Id>, weight: map<Id, nat>, slot: nat, h: Id, k: Id, w: Id)
    requires t.Known() && t.Linked() && u.Known() && u.Linked() && SameContents(t, u)
    requires SlotMembers(t, members, weight, slot) && SlotMembers(u, members, weight, slot)
    requires IsHeaviest(t, members, weight, h) && IsHeaviest(u, members, weight, k)
    requires IsTreeHeaviest(t, members, weight, w)
    ensures IsTreeHeaviest(u, members, weight, w)
    ensures (h == w <==> Visible(t, members, weight, w)) && (k == w <==> Visible(u, members, weight, w))
    ensures Visible(t, members, weight, w) || Visible(u, members, weight, w) ==>
              (h == k <==> Visible(t, members, weight, w) && Visible(u, members, weight, w))
  {
    hide NodeLess, TreeLess, Visible;
    forall x | x in members && x != w && weight[x] == weight[w]
      ensures TreeLess(u, x, w)
    {
      TreeLessAgrees(t, u, x, w);
    }
    HeaviestIff(t, members, weight, slot, w);
    HeaviestIff(u, members, weight, slot, w);
    if Visible(t, members, weight, w) {
      HeaviestUnique(t, members, weight, slot, h, w);
    }
    if Visible(u, members, weight, w) {
      HeaviestUnique(u, members, weight, slot, k, w);
    }
  }

  /** With complete slot indexes nothing is missing, and there is a heaviest commitment in both orders. */
  lemma CompleteHeaviest(t: Tree, members: set<Id>, weight: map<Id, nat>, slot: nat, h: Id)
    requires t.Inv() && SlotMembers(t, members, weight, slot) && IsHeaviest(t, members, weight, h)
    ensures IsTreeHeaviest(t, members, weight, h)
  {
    hide Tree.Indexed, Tree.MainChildren, Tree.Partitioned, Tree.Grounded, NodeLess, TreeLess;
    forall x | x in members && x != h && weight[x] == weight[h]
      ensures TreeLess(t, x, h)
    {
      NothingMissing(t, x, h);
    }
  }
}
