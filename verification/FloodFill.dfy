/** The grouping of the blocks that touch, in `find_locator` of tools/ui-frame-integrity.py. */
module FloodFill {
  import opened Collections

  /** A block of the grid the screen is read at: its column, and the row of pixels, every fourth of them. */
  type Block = (int, int)

  function Neighbours(b: Block): seq<Block> { [(b.0 + 1, b.1), (b.0 - 1, b.1), (b.0, b.1 + 4), (b.0, b.1 - 4)] }

  predicate Touch(a: Block, b: Block) { b in Neighbours(a) }

  lemma {:induction false} TouchBothWays(a: Block, b: Block)
    ensures Touch(a, b)
      <==> (a.1 == b.1 && (a.0 - b.0 == 1 || b.0 - a.0 == 1)) || (a.0 == b.0 && (a.1 - b.1 == 4 || b.1 - a.1 == 4))
    ensures Touch(a, b) <==> Touch(b, a)
  {
    var na, nb := Neighbours(a), Neighbours(b);
    assert forall c :: c in na <==> c == na[0] || c == na[1] || c == na[2] || c == na[3];
    assert forall c :: c in nb <==> c == nb[0] || c == nb[1] || c == nb[2] || c == nb[3];
  }

  // ------------------------------------------------------------- connectedness

  /** A walk inside `hits`, from each block to one that touches it. */
  ghost predicate IsPath(hits: set<Block>, path: seq<Block>) {
    && path != [] && (forall i :: 0 <= i < |path| ==> path[i] in hits)
    && (forall i :: 0 < i < |path| ==> Touch(path[i - 1], path[i]))
  }

  ghost predicate Joins(hits: set<Block>, path: seq<Block>, a: Block, b: Block) {
    IsPath(hits, path) && path[0] == a && path[|path| - 1] == b
  }

  ghost predicate Connected(hits: set<Block>, a: Block, b: Block) { exists path :: Joins(hits, path, a, b) }

  /** Everything in `hits` that can be walked to from `a`. */
  ghost function Component(hits: set<Block>, a: Block): set<Block> { set b | b in hits && Connected(hits, a, b) }

  ghost function Components(hits: set<Block>): set<set<Block>> { set a | a in hits :: Component(hits, a) }

  lemma {:induction false} Reflexive(hits: set<Block>, a: Block)
    requires a in hits
    ensures Connected(hits, a, a)
  {
    assert Joins(hits, [a], a, a);
  }

  lemma {:induction false} StepOn(hits: set<Block>, a: Block, b: Block, c: Block)
    requires Connected(hits, a, b) && Touch(b, c) && c in hits
    ensures Connected(hits, a, c)
  {
    var path :| Joins(hits, path, a, b);
    assert Joins(hits, path + [c], a, c);
  }

  /** No block of `inside` touches one of `hits` outside it. */
  ghost predicate Closed(hits: set<Block>, inside: set<Block>) {
    forall a, b :: a in inside && b in hits && Touch(a, b) ==> b in inside
  }

  lemma {:induction false} WalksStayIn(hits: set<Block>, inside: set<Block>, path: seq<Block>, i: nat)
    requires Closed(hits, inside) && IsPath(hits, path) && path[0] in inside && i < |path|
    ensures path[i] in inside
  {
    if i > 0 {
      WalksStayIn(hits, inside, path, i - 1);
      assert Touch(path[i - 1], path[i]);
    }
  }

  /** Blocks that can all be walked to from one of them, and that touch no others, are a component. */
  lemma {:induction false} ClosedIsComponent(hits: set<Block>, group: set<Block>, seed: Block)
    requires group <= hits && seed in group && Closed(hits, group)
    requires forall b :: b in group ==> Connected(hits, seed, b)
    ensures group == Component(hits, seed)
  {
    forall b | b in hits && Connected(hits, seed, b) ensures b in group {
      var path :| Joins(hits, path, seed, b);
      WalksStayIn(hits, group, path, |path| - 1);
    }
  }

  lemma {:induction false} Backwards(hits: set<Block>, path: seq<Block>, a: Block, b: Block)
    requires Joins(hits, path, a, b)
    ensures Connected(hits, b, a)
    decreases |path|
  {
    if |path| == 1 {
      Reflexive(hits, a);
    } else {
      var n := |path| - 1;
      TouchBothWays(path[n - 1], b);
      assert Joins(hits, path[..n], a, path[n - 1]);
      Backwards(hits, path[..n], a, path[n - 1]);
      var back :| Joins(hits, back, path[n - 1], a);
      assert Joins(hits, [b] + back, b, a);
    }
  }

  lemma {:induction false} WalkOn(hits: set<Block>, a: Block, b: Block, c: Block)
    requires Connected(hits, a, b) && Connected(hits, b, c)
    ensures Connected(hits, a, c)
  {
    var there :| Joins(hits, there, a, b);
    var on :| Joins(hits, on, b, c);
    var path := there + on[1..];
    forall i | 0 < i < |path| ensures Touch(path[i - 1], path[i]) {
      if i >= |there| { assert path[i] == on[i - |there| + 1] && path[i - 1] == on[i - |there|]; }
    }
    assert Joins(hits, path, a, c);
  }

  /** Any block of a component has the same component. */
  lemma {:induction false} SameComponent(hits: set<Block>, a: Block, b: Block)
    requires a in hits && b in Component(hits, a)
    ensures Component(hits, b) == Component(hits, a)
  {
    var path :| Joins(hits, path, a, b);
    Backwards(hits, path, a, b);
    forall c | c in hits ensures Connected(hits, a, c) <==> Connected(hits, b, c) {
      if Connected(hits, a, c) { WalkOn(hits, b, a, c); }
      if Connected(hits, b, c) { WalkOn(hits, a, b, c); }
    }
  }

  // -------------------------------------------------------------- the grouping

  /** The group grown from `seed` so far: `edge` is what of it is still to be looked around. */
  ghost predicate Growing(hits: set<Block>, seed: Block, group: set<Block>, edge: set<Block>, remaining: set<Block>) {
    && seed in group && edge <= group <= hits && group !! remaining
    && (forall b :: b in group ==> Connected(hits, seed, b))
    && (forall a, b :: a in group - edge && Touch(a, b) ==> b !in remaining)
  }

  /** The blocks around one: those that remain join the group and its edge. */
  method Around(ghost hits: set<Block>, ghost seed: Block, block: Block, group: set<Block>, edge: seq<Block>,
                remaining: set<Block>)
    returns (group': set<Block>, edge': seq<Block>, remaining': set<Block>)
    requires block in group && remaining <= hits
    requires Growing(hits, seed, group, (set b | b in edge) + {block}, remaining)
    ensures Growing(hits, seed, group', (set b | b in edge'), remaining')
    ensures group <= group' && group' + remaining' == group + remaining && remaining' <= remaining
    ensures remaining' == remaining ==> edge' == edge
  {
    group', edge', remaining' := group, edge, remaining;
    var around := Neighbours(block);
    for i := 0 to |around|
      invariant remaining' <= remaining && group <= group' && group' + remaining' == group + remaining
      invariant remaining' == remaining ==> edge' == edge && group' == group
      invariant Growing(hits, seed, group', (set b | b in edge') + {block}, remaining')
      invariant forall k :: 0 <= k < i ==> around[k] !in remaining'
    {
      var neighbour := around[i];
      if neighbour in remaining' {
        assert Touch(block, neighbour);
        StepOn(hits, seed, block, neighbour);
        ghost var was := set b | b in edge';
        remaining', group', edge' := remaining' - {neighbour}, group' + {neighbour}, edge' + [neighbour];
        assert (set b | b in edge') == was + {neighbour};
      }
    }
    assert forall b :: Touch(block, b) ==> b !in remaining';
  }

  /** One group, grown from `seed` until its edge is used up. */
  method Grow(ghost hits: set<Block>, seed: Block, others: set<Block>) returns (group: set<Block>, remaining: set<Block>)
    requires seed in hits && seed !in others && others <= hits
    ensures seed in group && group <= hits && group + remaining == others + {seed} && group !! remaining
    ensures forall b :: b in group ==> Connected(hits, seed, b)
    ensures forall a, b :: a in group && Touch(a, b) ==> b !in remaining
  {
    var edge := [seed];
    group, remaining := {seed}, others;
    Reflexive(hits, seed);
    while edge != []
      invariant remaining <= others && group + remaining == others + {seed}
      invariant Growing(hits, seed, group, (set b | b in edge), remaining)
      decreases |remaining|, |edge|
    {
      var last := |edge| - 1;
      var block := edge[last];
      assert edge == edge[..last] + [block];
      assert (set b | b in edge) == (set b | b in edge[..last]) + {block};
      ghost var before := remaining;
      group, edge, remaining := Around(hits, seed, block, group, edge[..last], remaining);
      if remaining != before { Shrinks(remaining, before); }
    }
    assert (set b: Block | b in edge) == {};
  }

  lemma {:induction false} Shrinks<T>(a: set<T>, b: set<T>)
    requires a <= b && a != b
    ensures |a| < |b|
  {
    var x :| x in b && x !in a;
    SubsetIsSmaller(a, b - {x});
  }

  ghost function Union(groups: seq<set<Block>>): set<Block> {
    if groups == [] then {} else Union(groups[..|groups| - 1]) + groups[|groups| - 1]
  }

  lemma {:induction false} InUnion(groups: seq<set<Block>>, b: Block)
    ensures b in Union(groups) <==> exists i :: 0 <= i < |groups| && b in groups[i]
  {
    if groups != [] {
      var n := |groups| - 1;
      InUnion(groups[..n], b);
      if i :| 0 <= i < n && b in groups[i] { assert b in groups[..n][i]; }
      if i :| 0 <= i < n && b in groups[..n][i] { assert b in groups[i]; }
    }
  }

  /** Components, each once, that hold `done` between them. */
  ghost predicate Parts(hits: set<Block>, groups: seq<set<Block>>, done: set<Block>) {
    && Union(groups) == done
    && (forall i, j :: 0 <= i < j < |groups| ==> groups[i] !! groups[j])
    && (forall i :: 0 <= i < |groups| ==> groups[i] != {} && groups[i] in Components(hits))
  }

  lemma {:induction false} OneMorePart(hits: set<Block>, groups: seq<set<Block>>, done: set<Block>, group: set<Block>)
    requires Parts(hits, groups, done) && group in Components(hits) && group != {} && group !! done
    ensures Parts(hits, groups + [group], done + group)
  {
    assert (groups + [group])[..|groups|] == groups;
    forall i | 0 <= i < |groups| ensures groups[i] !! group {
      forall b | b in groups[i] ensures b in done { InUnion(groups, b); }
    }
  }

  lemma {:induction false} AllParts(hits: set<Block>, groups: seq<set<Block>>, g: set<Block>)
    requires Parts(hits, groups, hits)
    ensures g in groups <==> g in Components(hits)
  {
    if g in Components(hits) {
      var a :| a in hits && g == Component(hits, a);
      InUnion(groups, a);
      var i :| 0 <= i < |groups| && a in groups[i];
      var b :| b in hits && groups[i] == Component(hits, b);
      SameComponent(hits, b, a);
    }
  }

  /** Nothing the group touches is left, or was taken before: it is a component, and what is done stays closed. */
  lemma {:induction false} GrownIsComponent(hits: set<Block>, done: set<Block>, before: set<Block>, seed: Block,
                                            group: set<Block>, remaining: set<Block>)
    requires before <= hits && done + before == hits && done !! before && Closed(hits, done)
    requires seed in before && seed in group && group + remaining == before && group !! remaining
    requires forall b :: b in group ==> Connected(hits, seed, b)
    requires forall a, b :: a in group && Touch(a, b) ==> b !in remaining
    ensures group == Component(hits, seed) && group in Components(hits)
    ensures Closed(hits, done + group)
  {
    forall a, b | a in group && b in hits && Touch(a, b) ensures b in group {
      if b in done {
        TouchBothWays(a, b);
        assert false;
      }
    }
    ClosedIsComponent(hits, group, seed);
  }

  /** The loop so far: what is done is in groups, closed, and the rest remains. */
  ghost predicate Grouped(hits: set<Block>, groups: seq<set<Block>>, remaining: set<Block>) {
    && remaining <= hits && Union(groups) + remaining == hits && Union(groups) !! remaining
    && Closed(hits, Union(groups)) && Parts(hits, groups, Union(groups))
  }

  lemma {:induction false} OneMoreGroup(hits: set<Block>, groups: seq<set<Block>>, before: set<Block>, seed: Block,
                                        group: set<Block>, remaining: set<Block>)
    requires Grouped(hits, groups, before)
    requires seed in before && seed in group && group + remaining == before && group !! remaining
    requires forall b :: b in group ==> Connected(hits, seed, b)
    requires forall a, b :: a in group && Touch(a, b) ==> b !in remaining
    ensures Grouped(hits, groups + [group], remaining)
  {
    GrownIsComponent(hits, Union(groups), before, seed, group, remaining);
    OneMorePart(hits, groups, Union(groups), group);
  }

  /** The groups are the connected components of the hits, each once, and have every hit between them. */
  ghost predicate AreTheComponents(groups: seq<set<Block>>, hits: set<Block>) {
    && (forall g :: g in groups <==> g in Components(hits))
    && (forall i, j :: 0 <= i < j < |groups| ==> groups[i] !! groups[j])
    && (forall i :: 0 <= i < |groups| ==> groups[i] != {})
    && Union(groups) == hits
  }

  lemma {:induction false} AllGrouped(hits: set<Block>, groups: seq<set<Block>>)
    requires Grouped(hits, groups, {})
    ensures AreTheComponents(groups, hits)
  {
    assert Union(groups) == hits;
    forall g ensures g in groups <==> g in Components(hits) { AllParts(hits, groups, g); }
  }

  /** The grouping loop, whichever block each group is begun with. */
  method Group(hits: set<Block>) returns (groups: seq<set<Block>>)
    ensures AreTheComponents(groups, hits)
  {
    groups := [];
    var remaining := hits;
    while remaining != {}
      invariant Grouped(hits, groups, remaining)
      decreases |remaining|
    {
      var seed :| seed in remaining;
      ghost var before := remaining;
      var group;
      group, remaining := Grow(hits, seed, remaining - {seed});
      Shrinks(remaining, before);
      OneMoreGroup(hits, groups, before, seed, group, remaining);
      groups := groups + [group];
    }
    AllGrouped(hits, groups);
  }
}
