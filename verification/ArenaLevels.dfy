/** Parent links on any stream: each leads from a slot to one whose string is one byte shorter, so every chain of
    parents ends in the root. */
module ArenaLevels {
  import opened Octets
  import opened Frequencies
  import opened PpmModel
  import opened ArenaShape
  import opened ArenaForest
  import opened ArenaParents
  import opened ArenaTwigs
  import opened ArenaGrowth

  ghost predicate ParentLevel(s: seq<Symbol>, ps: seq<Place>, i: int)
    requires IsNode(ps, i) && |ps| <= |s|
  {
    s[i].parent < |ps| && |ps[s[i].parent].path| + 1 == |ps[i].path|
  }

  /** Every slot is linked like that, except possibly slot `open`; 0 for none. */
  ghost predicate Leveled(s: seq<Symbol>, ps: seq<Place>, open: nat) {
    && 1 <= |ps| <= |s| && ps[0].path == []
    && forall i {:trigger ParentLevel(s, ps, i)} :: IsNode(ps, i) && i != open ==> ParentLevel(s, ps, i)
  }

  lemma LinkedIsLeveled(s: seq<Symbol>, ps: seq<Place>, open: nat)
    requires Linked(s, ps, open) && 1 <= |ps| && ps[0].path == []
    ensures Leveled(s, ps, open)
  {
    forall i | IsNode(ps, i) && i != open ensures ParentLevel(s, ps, i) {
      assert ParentOk(s, ps, i);
    }
  }

  /** The n-th ancestor of slot i. */
  ghost function Up(s: seq<Symbol>, i: nat, n: nat): nat {
    if n == 0 then i
    else var j := Up(s, i, n - 1); if j < |s| then s[j].parent else j
  }

  lemma {:induction false} UpFromParent(s: seq<Symbol>, i: nat, n: nat)
    requires 1 <= n && i < |s|
    ensures Up(s, i, n) == Up(s, s[i].parent, n - 1)
  {
    if n > 1 { UpFromParent(s, i, n - 1); }
  }

  /** Ancestors go down level by level, as long as the open slot lies above them. */
  lemma {:induction false} UpLevel(s: seq<Symbol>, ps: seq<Place>, open: nat, i: nat, n: nat)
    requires Leveled(s, ps, open) && i < |ps| && n <= |ps[i].path|
    requires open == 0 || (open < |ps| && |ps[i].path| < |ps[open].path|)
    ensures Up(s, i, n) < |ps| && |ps[Up(s, i, n)].path| == |ps[i].path| - n
  {
    if n > 0 {
      UpLevel(s, ps, open, i, n - 1);
      assert ParentLevel(s, ps, Up(s, i, n - 1));
    }
  }

  lemma {:induction false} UpKept(s: seq<Symbol>, s': seq<Symbol>, ps: seq<Place>, open: nat, i: nat, n: nat)
    requires Leveled(s, ps, open) && i < |ps| <= |s'| && n <= |ps[i].path|
    requires open == 0 || (open < |ps| && |ps[i].path| < |ps[open].path|)
    requires forall j :: 0 <= j < |ps| && |ps[j].path| <= |ps[i].path| ==> s'[j].parent == s[j].parent
    ensures Up(s', i, n) == Up(s, i, n)
  {
    if n > 0 {
      UpLevel(s, ps, open, i, n - 1);
      UpKept(s, s', ps, open, i, n - 1);
    }
  }

  /** Visiting context c and linking the open slot to the symbol found there: that symbol is open now. */
  lemma LevelsVisited(s0: seq<Symbol>, s: seq<Symbol>, s': seq<Symbol>, ps0: seq<Place>, ps: seq<Place>,
                      trees: seq<Twig>, c: nat, symbol: nat, delta: nat, open: nat)
    requires Sown(s0, s, ps0, ps, trees, c, symbol, delta) && Leveled(s0, ps0, open)
    requires open == 0 || (IsNode(ps0, open) && |ps0[open].path| == |ps0[c].path| + 2 && symbol < 0x1_0000)
    requires if open == 0 then s' == s else symbol < 0x1_0000 && Relinked(s, s', open, symbol)
    ensures c < |ps0| <= |ps| <= |s'| && IsNode(ps, symbol) && |ps[symbol].path| == |ps0[c].path| + 1
    ensures Leveled(s', ps, symbol)
    ensures open == 0 && (ps == ps0 || ps0[c].path == []) ==> Leveled(s', ps, 0)
  {
    hide Rooted;
    GrownAt(s, ps, trees, symbol, delta, c);
    TreeSlots(s, ps, trees[c], c, DueAt(ps, c, symbol, delta));
    GrownAt(s, ps, trees, symbol, delta, symbol);
    forall i | IsNode(ps, i) && i != symbol ensures ParentLevel(s', ps, i) {
      if i != open {
        assert ParentLevel(s0, ps0, i);
        assert SameTotals(s0[i], s[i]);
      }
    }
    if open == 0 && (ps == ps0 || ps0[c].path == []) {
      forall i | IsNode(ps, i) ensures ParentLevel(s', ps, i) {
        if i < |ps0| {
          assert ParentLevel(s0, ps0, i);
          assert SameTotals(s0[i], s[i]);
        }
      }
    }
  }

  /** Totals and counts do not matter here. */
  lemma LeveledKept(s: seq<Symbol>, s': seq<Symbol>, ps: seq<Place>, open: nat)
    requires Leveled(s, ps, open) && |s'| == |s| && forall i :: 0 <= i < |s| ==> s'[i].parent == s[i].parent
    ensures Leveled(s', ps, open)
  {
    forall i | IsNode(ps, i) && i != open ensures ParentLevel(s', ps, i) {
      assert ParentLevel(s, ps, i);
    }
  }

  /** Linking the open slot closes it. */
  lemma LevelsClosed(s: seq<Symbol>, s': seq<Symbol>, ps: seq<Place>, open: nat, symbol: Half)
    requires Leveled(s, ps, open) && IsNode(ps, open) && symbol < |ps|
    requires |ps[symbol].path| + 1 == |ps[open].path| && Relinked(s, s', open, symbol)
    ensures Leveled(s', ps, 0)
  {
    forall i | IsNode(ps, i) ensures ParentLevel(s', ps, i) {
      if i != open { assert ParentLevel(s, ps, i); }
    }
  }

  /** No tree and no total looks at parents. */
  lemma GrownRelinked(s: seq<Symbol>, s': seq<Symbol>, ps: seq<Place>, trees: seq<Twig>, hot: nat, due: nat, child: nat,
                      symbol: Half)
    requires Grown(s, ps, trees, hot, due) && Relinked(s, s', child, symbol)
    ensures Grown(s', ps, trees, hot, due)
  {
    hide Rooted;
    forall c | 0 <= c < |ps| ensures Rooted(s', ps, trees[c], c, DueAt(ps, c, hot, due)) {
      GrownAt(s, ps, trees, hot, due, c);
      RootedRelinked(s, s', ps, trees[c], c, DueAt(ps, c, hot, due), child, symbol);
    }
    forall i | IsNode(ps, i) ensures CountOk(s', ps, i, hot) {
      assert CountOk(s, ps, i, hot);
    }
  }

  lemma RootedRelinked(s: seq<Symbol>, s': seq<Symbol>, ps: seq<Place>, t: Twig, c: nat, due: nat, child: nat,
                       symbol: Half)
    requires c < |ps| <= |s| && Rooted(s, ps, t, c, due) && Relinked(s, s', child, symbol)
    ensures Rooted(s', ps, t, c, due)
  {
    SlotsInside(s, t);
    TwigKept(s, s', t);
  }

  /** Context c has learned a byte but for its totals: its symbol is `symbol`, which is open, and had `count`. */
  ghost predicate Due(s: seq<Symbol>, ps: seq<Place>, trees: seq<Twig>, c: nat, symbol: nat, count: nat, p: Params) {
    && |s| == ARENA_SIZE && Grown(s, ps, trees, symbol, p.delta) && Leveled(s, ps, symbol)
    && c < |ps| && symbol in Slots(trees[c]) && symbol < |ps| && |ps[symbol].path| == |ps[c].path| + 1
    && s[symbol].count + p.minimum == count + p.delta && p == ParamsOf(ps[c].path)
  }

  /** A byte has been counted in c, and its symbol linked from the one before. */
  lemma BecomesDue(s0: seq<Symbol>, s: seq<Symbol>, s': seq<Symbol>, ps0: seq<Place>, ps: seq<Place>,
                   trees: seq<Twig>, c: nat, symbol: nat, open: nat, count: nat, p: Params)
    requires |s0| == ARENA_SIZE && c < |ps0| && p == ParamsOf(ps0[c].path)
    requires Sown(s0, s, ps0, ps, trees, c, symbol, p.delta) && Leveled(s0, ps0, open)
    requires symbol < |s| && s[symbol].count + p.minimum == count + p.delta
    requires open == 0 || (IsNode(ps0, open) && |ps0[open].path| == |ps0[c].path| + 2)
    requires if open == 0 then s' == s else Relinked(s, s', open, symbol)
    ensures Due(s', ps, trees, c, symbol, count, p) && 0 < symbol
    ensures |ps0| <= |ps| <= |ps0| + 1 && |ps| <= |s'| && ps0 <= ps
    ensures forall i :: 0 <= i < |ps0| && (i != open || i == 0) ==> s'[i].parent == s0[i].parent
    ensures open == 0 && (ps == ps0 || ps0[c].path == []) ==> Leveled(s', ps, 0)
  {
    hide Grown;
    assert |s| == |s0| && ps0 <= ps && c < |ps0|;
    LevelsVisited(s0, s, s', ps0, ps, trees, c, symbol, p.delta, open);
    if open != 0 { GrownRelinked(s, s', ps, trees, symbol, p.delta, open, symbol); }
    forall i | 0 <= i < |ps0| && (i != open || i == 0) ensures s'[i].parent == s0[i].parent {
      assert SameTotals(s0[i], s[i]);
    }
  }

  lemma DueFacts(s: seq<Symbol>, ps: seq<Place>, trees: seq<Twig>, c: nat, symbol: nat, count: nat, p: Params)
    requires Due(s, ps, trees, c, symbol, count, p)
    ensures |s| == ARENA_SIZE && c < |ps| == |trees| <= |s| && p == ParamsOf(ps[c].path)
    ensures Grown(s, ps, trees, symbol, p.delta) && symbol in Slots(trees[c]) && symbol < |ps| && Leveled(s, ps, symbol)
    ensures s[symbol].count + p.minimum == count + p.delta && |ps[symbol].path| == |ps[c].path| + 1
  {
  }

  /** The context to try first stands for as many bytes as `order` says, and there is room for another byte. */
  ghost predicate Predicts(s: seq<Symbol>, ps: seq<Place>, predicted: nat, order: nat) {
    && Leveled(s, ps, 0) && |ps| < ARENA_SIZE - ORDER && order <= ORDER
    && predicted < |ps| && |ps[predicted].path| == order
  }

  /** Following parents from there has come to `context` in k steps. */
  ghost predicate Reached(s: seq<Symbol>, ps: seq<Place>, predicted: nat, order: nat, context: nat, k: nat) {
    && Leveled(s, ps, 0) && order <= ORDER && predicted < |ps| && |ps[predicted].path| == order
    && k <= order && context < |ps| && Up(s, predicted, k) == context && |ps[context].path| == order - k
  }

  lemma ReachedFirst(s: seq<Symbol>, ps: seq<Place>, predicted: nat, order: nat)
    requires Predicts(s, ps, predicted, order)
    ensures Reached(s, ps, predicted, order, predicted, 0)
  {
  }

  lemma ReachedNext(s: seq<Symbol>, ps: seq<Place>, predicted: nat, order: nat, context: nat, k: nat)
    requires Reached(s, ps, predicted, order, context, k)
    ensures context < |ps| <= |s| && k <= order
    ensures context == 0 <==> ps[context].path == []
    ensures context == 0 ==> k == order
    ensures context != 0 ==> k < order && Reached(s, ps, predicted, order, s[context].parent, k + 1)
  {
    if context != 0 { assert ParentLevel(s, ps, context); }
  }

  /** The context reached has given a byte, whose symbol there is `bottom`. */
  ghost predicate Bottomed(s: seq<Symbol>, ps: seq<Place>, predicted: nat, order: nat, context: nat, k: nat,
                           bottom: nat) {
    && Reached(s, ps, predicted, order, context, k) && IsNode(ps, bottom)
    && |ps[bottom].path| == order - k + 1 && |ps| + k <= ARENA_SIZE
  }

  lemma BecomesBottom(s: seq<Symbol>, s': seq<Symbol>, ps: seq<Place>, ps': seq<Place>, predicted: nat, order: nat,
                      context: nat, k: nat, bottom: nat)
    requires Reached(s, ps, predicted, order, context, k) && |ps| < ARENA_SIZE - ORDER
    requires |ps'| <= |ps| + 1 && ps <= ps' && Leveled(s', ps', 0)
    requires forall i :: 0 <= i < |ps| ==> s'[i].parent == s[i].parent
    requires IsNode(ps', bottom) && |ps'[bottom].path| == |ps[context].path| + 1
    ensures Bottomed(s', ps', predicted, order, context, k, bottom)
  {
    UpKept(s, s', ps, 0, predicted, k);
  }

  /** The patch loop has come to `patch`, in j of k steps; the symbol before is still open. */
  ghost predicate Patching(s: seq<Symbol>, ps: seq<Place>, order: nat, context: nat, k: nat, bottom: nat, j: nat,
                           patch: nat, open: nat, deepest: nat) {
    && Leveled(s, ps, open) && j <= k <= order <= ORDER && |ps| + (k - j) <= ARENA_SIZE
    && context < |ps| && |ps[context].path| == order - k
    && IsNode(ps, bottom) && |ps[bottom].path| == order - k + 1
    && patch < |ps| && |ps[patch].path| == order - j && Up(s, patch, k - j) == context
    && (if j == 0 then open == 0 && deepest == bottom
        else
          && IsNode(ps, open) && |ps[open].path| == order - j + 2
          && IsNode(ps, deepest) && |ps[deepest].path| == order + 1)
  }

  /** What a step of the patch loop may rely on. */
  lemma PatchingFacts(s: seq<Symbol>, ps: seq<Place>, order: nat, context: nat, k: nat, bottom: nat, j: nat,
                      patch: nat, open: nat, deepest: nat)
    requires Patching(s, ps, order, context, k, bottom, j, patch, open, deepest)
    ensures context < |ps| && patch < |ps| <= |s| && bottom < |ps| && j <= k
    ensures patch == context <==> j == k
    ensures patch != context ==> |ps| < ARENA_SIZE && ps[patch].path != [] && Leveled(s, ps, open)
    ensures open == 0 || (IsNode(ps, open) && |ps[open].path| == |ps[patch].path| + 2)
  {
  }

  lemma PatchingBegins(s: seq<Symbol>, ps: seq<Place>, predicted: nat, order: nat, context: nat, k: nat, bottom: nat)
    requires Bottomed(s, ps, predicted, order, context, k, bottom)
    ensures Patching(s, ps, order, context, k, bottom, 0, predicted, 0, bottom)
  {
  }

  /** One more context has learned the byte; the contexts ahead are linked as before. */
  lemma PatchingStep(s: seq<Symbol>, s': seq<Symbol>, ps: seq<Place>, ps': seq<Place>, order: nat, context: nat,
                     k: nat, bottom: nat, j: nat, patch: nat, open: nat, deepest: nat, symbol: nat)
    requires Patching(s, ps, order, context, k, bottom, j, patch, open, deepest) && patch != context
    requires ps <= ps' && |ps'| <= |ps| + 1 && |ps| <= |s'| && Leveled(s', ps', symbol)
    requires IsNode(ps', symbol) && patch < |ps| && |ps'[symbol].path| == |ps[patch].path| + 1
    requires forall i :: 0 <= i < |ps| && (i != open || i == 0) ==> s'[i].parent == s[i].parent
    ensures patch < |s'|
    ensures Patching(s', ps', order, context, k, bottom, j + 1, s'[patch].parent, symbol,
      if open == 0 then symbol else deepest)
  {
    assert ParentLevel(s', ps', patch);
    UpKept(s, s', ps, open, patch, k - j);
    UpFromParent(s', patch, k - j);
  }

  lemma PatchingEnds(s: seq<Symbol>, s': seq<Symbol>, ps: seq<Place>, order: nat, context: nat, k: nat, bottom: nat,
                     j: nat, open: nat, deepest: nat)
    requires Patching(s, ps, order, context, k, bottom, j, context, open, deepest)
    requires bottom < 0x1_0000 && if open == 0 then s' == s else Relinked(s, s', open, bottom)
    ensures Leveled(s', ps, 0) && IsNode(ps, deepest) && |ps[deepest].path| == order + 1
  {
    if open != 0 { LevelsClosed(s, s', ps, open, bottom); }
  }
}
