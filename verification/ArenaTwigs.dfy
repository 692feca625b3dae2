/** The trees that the links of the arena spell, whatever values and sums its symbols hold. */
module ArenaTwigs {
  import opened Octets
  import opened Frequencies
  import opened ArenaShape

  datatype Twig = Tip | Fork(at: nat, left: Twig, right: Twig)

  ghost function Slots(t: Twig): set<nat> {
    if t.Tip? then {} else {t.at} + Slots(t.left) + Slots(t.right)
  }

  /** No slot is in the tree twice. */
  ghost predicate Once(t: Twig) {
    t.Fork? ==>
      && t.at !in Slots(t.left) && t.at !in Slots(t.right) && Slots(t.left) !! Slots(t.right)
      && Once(t.left) && Once(t.right)
  }

  ghost predicate Leads(from: nat, link: Half, t: Twig) {
    if t.Tip? then link == 0 else link > 0 && t.at == from + link
  }

  /** The links spell the tree. */
  ghost predicate Spelled(s: seq<Symbol>, t: Twig) {
    t.Fork? ==>
      && t.at < |s| && Leads(t.at, s[t.at].left, t.left) && Leads(t.at, s[t.at].right, t.right)
      && Spelled(s, t.left) && Spelled(s, t.right)
  }

  /** The sum of the counts in the tree. */
  ghost function Weight(s: seq<Symbol>, t: Twig): nat
    requires Spelled(s, t)
  {
    if t.Tip? then 0 else s[t.at].count + Weight(s, t.left) + Weight(s, t.right)
  }

  ghost predicate SameTwig(s: seq<Symbol>, s': seq<Symbol>, i: nat) {
    i < |s| && i < |s'| && s[i].left == s'[i].left && s[i].right == s'[i].right && s[i].count == s'[i].count
  }

  lemma {:induction false} TwigKept(s: seq<Symbol>, s': seq<Symbol>, t: Twig)
    requires Spelled(s, t) && forall i :: i in Slots(t) ==> SameTwig(s, s', i)
    ensures Spelled(s', t) && Weight(s', t) == Weight(s, t)
  {
    if t.Fork? {
      assert SameTwig(s, s', t.at);
      TwigKept(s, s', t.left);
      TwigKept(s, s', t.right);
    }
  }

  /** Raising one count raises the sum as much. */
  lemma {:induction false} TwigRaised(s: seq<Symbol>, s': seq<Symbol>, t: Twig, k: nat, amount: nat)
    requires Spelled(s, t) && Once(t) && k in Slots(t) && k < |s| && k < |s'|
    requires forall i :: i in Slots(t) && i != k ==> SameTwig(s, s', i)
    requires s'[k].left == s[k].left && s'[k].right == s[k].right && s'[k].count == s[k].count + amount
    ensures Spelled(s', t) && Weight(s', t) == Weight(s, t) + amount
  {
    if t.at == k {
      TwigKept(s, s', t.left);
      TwigKept(s, s', t.right);
    } else {
      assert SameTwig(s, s', t.at);
      if k in Slots(t.left) {
        TwigRaised(s, s', t.left, k, amount);
        TwigKept(s, s', t.right);
      } else {
        TwigKept(s, s', t.left);
        TwigRaised(s, s', t.right, k, amount);
      }
    }
  }

  lemma {:induction false} WeightAtLeast(s: seq<Symbol>, t: Twig, k: nat)
    requires Spelled(s, t) && k in Slots(t)
    ensures k < |s| && s[k].count <= Weight(s, t)
  {
    if t.at != k {
      if k in Slots(t.left) { WeightAtLeast(s, t.left, k); } else { WeightAtLeast(s, t.right, k); }
    }
  }

  /** The tree with a new slot as the left or the right child of a node. */
  ghost function Attached(t: Twig, node: nat, left: bool, k: nat): Twig {
    if t.Tip? then t
    else if t.at == node then if left then t.(left := Fork(k, Tip, Tip)) else t.(right := Fork(k, Tip, Tip))
    else Fork(t.at, Attached(t.left, node, left, k), Attached(t.right, node, left, k))
  }

  lemma {:induction false} NotAttached(t: Twig, node: nat, left: bool, k: nat)
    requires node !in Slots(t)
    ensures Attached(t, node, left, k) == t
  {
    if t.Fork? {
      NotAttached(t.left, node, left, k);
      NotAttached(t.right, node, left, k);
    }
  }

  /** Nothing is attached there yet. */
  ghost predicate Free(t: Twig, node: nat, left: bool) {
    t.Fork? ==> if t.at == node then (if left then t.left else t.right).Tip?
      else Free(t.left, node, left) && Free(t.right, node, left)
  }

  lemma {:induction false} IsFree(s: seq<Symbol>, t: Twig, node: nat, left: bool)
    requires Spelled(s, t) && Once(t) && node < |s| && (if left then s[node].left else s[node].right) == 0
    ensures Free(t, node, left)
  {
    if t.Fork? {
      IsFree(s, t.left, node, left);
      IsFree(s, t.right, node, left);
    }
  }

  lemma {:induction false} SlotsAttached(t: Twig, node: nat, left: bool, k: nat)
    requires Once(t) && node in Slots(t) && k !in Slots(t) && Free(t, node, left)
    ensures var t' := Attached(t, node, left, k); Slots(t') == Slots(t) + {k} && Once(t') && t'.Fork? && t'.at == t.at
  {
    if t.at == node {
      assert Slots(Fork(k, Tip, Tip)) == {k};
    } else if node in Slots(t.left) {
      SlotsAttached(t.left, node, left, k);
      NotAttached(t.right, node, left, k);
    } else {
      SlotsAttached(t.right, node, left, k);
      NotAttached(t.left, node, left, k);
    }
  }

  lemma LeafWeight(s: seq<Symbol>, k: nat)
    requires k < |s| && s[k].left == s[k].right == 0
    ensures Spelled(s, Fork(k, Tip, Tip)) && Weight(s, Fork(k, Tip, Tip)) == s[k].count
  {
  }

  lemma {:induction false} TwigAttached(s: seq<Symbol>, s': seq<Symbol>, t: Twig, node: nat, left: bool, k: nat)
    requires Spelled(s, t) && Once(t) && node in Slots(t) && k !in Slots(t) && node < k < |s'| && node < |s|
    requires Free(t, node, left) && k - node < 0x1_0000
    requires forall i :: i in Slots(t) && i != node ==> SameTwig(s, s', i)
    requires s'[node].left == (if left then k - node else s[node].left)
    requires s'[node].right == (if left then s[node].right else k - node)
    requires s'[node].count == s[node].count && s'[k].left == s'[k].right == 0
    ensures var t' := Attached(t, node, left, k);
      Spelled(s', t') && Weight(s', t') == Weight(s, t) + s'[k].count
  {
    LeafWeight(s', k);
    if t.at == node {
      TwigKept(s, s', t.left);
      TwigKept(s, s', t.right);
    } else {
      assert SameTwig(s, s', t.at);
      if node in Slots(t.left) {
        TwigAttached(s, s', t.left, node, left, k);
        TwigKept(s, s', t.right);
        NotAttached(t.right, node, left, k);
        SlotsAttached(t.left, node, left, k);
      } else {
        TwigAttached(s, s', t.right, node, left, k);
        TwigKept(s, s', t.left);
        NotAttached(t.left, node, left, k);
        SlotsAttached(t.right, node, left, k);
      }
    }
  }

  /** The links of a tree's node lead forward, to nodes of the tree. */
  lemma {:induction false} TwigLinks(s: seq<Symbol>, t: Twig, i: nat)
    requires Spelled(s, t) && i in Slots(t)
    ensures i < |s|
    ensures s[i].left != 0 ==> i + s[i].left in Slots(t)
    ensures s[i].right != 0 ==> i + s[i].right in Slots(t)
  {
    if t.at != i {
      if i in Slots(t.left) { TwigLinks(s, t.left, i); } else { TwigLinks(s, t.right, i); }
    }
  }

  ghost function HalvedWeight(s: seq<Symbol>, t: Twig): nat
    requires Spelled(s, t)
  {
    if t.Tip? then 0 else Halve(s[t.at].count) + HalvedWeight(s, t.left) + HalvedWeight(s, t.right)
  }

  /** The counts of the tree are halved, and nothing else has changed but what lies under its nodes. */
  ghost predicate Halves(s: seq<Symbol>, s': seq<Symbol>, slots: set<nat>) {
    && |s'| == |s|
    && forall i :: 0 <= i < |s| ==>
         s'[i] == if i in slots then s[i].(count := Halve(s[i].count), under := s'[i].under) else s[i]
  }

  lemma {:induction false} HalvedWeightKept(s: seq<Symbol>, s': seq<Symbol>, t: Twig)
    requires Spelled(s, t) && forall i :: i in Slots(t) ==> SameTwig(s, s', i)
    ensures Spelled(s', t) && HalvedWeight(s', t) == HalvedWeight(s, t)
  {
    if t.Fork? {
      assert SameTwig(s, s', t.at);
      HalvedWeightKept(s, s', t.left);
      HalvedWeightKept(s, s', t.right);
    }
  }

  lemma {:induction false} TwigHalved(s: seq<Symbol>, s': seq<Symbol>, t: Twig, slots: set<nat>)
    requires Spelled(s, t) && Halves(s, s', slots) && Slots(t) <= slots
    ensures Spelled(s', t) && Weight(s', t) == HalvedWeight(s, t)
  {
    if t.Fork? {
      TwigHalved(s, s', t.left, slots);
      TwigHalved(s, s', t.right, slots);
    }
  }

  /** How the halved sum compares. */
  lemma {:induction false} HalvedWeightBound(s: seq<Symbol>, t: Twig)
    requires Spelled(s, t) && Once(t)
    ensures 2 * HalvedWeight(s, t) <= Weight(s, t) + |Slots(t)|
  {
    if t.Fork? {
      HalvedWeightBound(s, t.left);
      HalvedWeightBound(s, t.right);
      SlotCount(t.at, Slots(t.left), Slots(t.right));
    }
  }

  lemma SlotCount(k: nat, a: set<nat>, b: set<nat>)
    requires k !in a && k !in b && a !! b
    ensures |{k} + a + b| == 1 + |a| + |b|
  {
    assert |{k} + a| == 1 + |a|;
  }

  lemma {:induction false} Below(a: set<nat>, n: nat)
    requires forall i :: i in a ==> i < n
    ensures |a| <= n
  {
    if n > 0 {
      Below(a - {n - 1}, n - 1);
      assert n - 1 in a ==> |a| == |a - {n - 1}| + 1;
    } else {
      assert a == {};
    }
  }

  lemma {:induction false} SlotsInside(s: seq<Symbol>, t: Twig)
    requires Spelled(s, t)
    ensures forall i :: i in Slots(t) ==> i < |s|
  {
    if t.Fork? {
      SlotsInside(s, t.left);
      SlotsInside(s, t.right);
    }
  }

  /** On the way down the right side of a tree: what lies before `rest` is halved. */
  ghost predicate HalvedTo(s0: seq<Symbol>, s: seq<Symbol>, t: Twig, rest: Twig) {
    && Spelled(s0, t) && Once(t) && rest.Fork? && Spelled(s0, rest) && Once(rest) && Slots(rest) <= Slots(t)
    && Halves(s0, s, Slots(t) - Slots(rest))
  }

  lemma HalvedToBegins(s: seq<Symbol>, t: Twig)
    requires Spelled(s, t) && Once(t) && t.Fork?
    ensures HalvedTo(s, s, t, t)
  {
    assert Slots(t) - Slots(t) == {};
  }

  /** What the loop finds at the slot it has come to. */
  lemma HalvedToFacts(s0: seq<Symbol>, s: seq<Symbol>, t: Twig, rest: Twig)
    requires HalvedTo(s0, s, t, rest)
    ensures Spelled(s0, t) && rest.Fork? && Spelled(s0, rest) && rest.at < |s| == |s0| && s[rest.at] == s0[rest.at]
    ensures Spelled(s0, rest.left) && Spelled(s0, rest.right)
    ensures HalvedWeight(s0, rest) ==
      Halve(s[rest.at].count) + HalvedWeight(s0, rest.left) + HalvedWeight(s0, rest.right)
    ensures s[rest.at].left != 0 <==> rest.left.Fork?
    ensures s[rest.at].left != 0 ==> rest.left.at == rest.at + s[rest.at].left
    ensures s[rest.at].right != 0 <==> rest.right.Fork?
    ensures s[rest.at].right != 0 ==> rest.right.at == rest.at + s[rest.at].right
  {
  }

  /** The left side is as it was when the slot itself has been halved. */
  lemma HalvedLeft(s0: seq<Symbol>, s1: seq<Symbol>, s2: seq<Symbol>, t: Twig, rest: Twig)
    requires HalvedTo(s0, s1, t, rest) && rest.at < |s1| == |s2| && s2 == s1[rest.at := s2[rest.at]]
    ensures Spelled(s0, rest.left) && Spelled(s2, rest.left) && Once(rest.left)
    ensures HalvedWeight(s2, rest.left) == HalvedWeight(s0, rest.left)
  {
    SlotsInside(s0, rest.left);
    HalvedWeightKept(s0, s2, rest.left);
  }

  /** The slot and its left side are halved: on to the right, or done. */
  lemma HalvedTurn(s0: seq<Symbol>, s1: seq<Symbol>, s2: seq<Symbol>, s3: seq<Symbol>, s4: seq<Symbol>, t: Twig,
                   rest: Twig)
    requires HalvedTo(s0, s1, t, rest) && rest.at < |s1| == |s2| == |s3| == |s4|
    requires s2 == s1[rest.at := s1[rest.at].(count := Halve(s1[rest.at].count), under := s2[rest.at].under)]
    requires Halves(s2, s3, Slots(rest.left))
    requires s4 == s3[rest.at := s3[rest.at].(under := s4[rest.at].under)]
    ensures if rest.right.Fork? then HalvedTo(s0, s4, t, rest.right) else Halves(s0, s4, Slots(t))
  {
    var done := Slots(t) - Slots(rest.right);
    assert Halves(s0, s4, done) by {
      forall i | 0 <= i < |s0|
        ensures s4[i] == if i in done then s0[i].(count := Halve(s0[i].count), under := s4[i].under) else s0[i]
      {
        assert i in Slots(rest) <==> i == rest.at || i in Slots(rest.left) || i in Slots(rest.right);
      }
    }
    if rest.right.Tip? { assert done == Slots(t); }
  }

  lemma NothingHalved(s: seq<Symbol>, t: Twig)
    requires t.Tip?
    ensures Halves(s, s, Slots(t)) && Spelled(s, t) && HalvedWeight(s, t) == 0
  {
  }

  /** The slot is not on its own left side. */
  lemma HalvedAside(s0: seq<Symbol>, s1: seq<Symbol>, s2: seq<Symbol>, s3: seq<Symbol>, t: Twig, rest: Twig)
    requires HalvedTo(s0, s1, t, rest) && rest.at < |s2| && Halves(s2, s3, Slots(rest.left))
    ensures rest.at < |s3| && s3[rest.at] == s2[rest.at]
  {
  }

  lemma HalvedLast(s: seq<Symbol>, rest: Twig)
    requires Spelled(s, rest) && rest.Fork? && rest.right.Tip?
    ensures Spelled(s, rest.right) && HalvedWeight(s, rest.right) == 0
  {
  }
}
