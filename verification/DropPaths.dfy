/** Drop elaboration on whole bodies: on every path it releases what the reference releases. */
module DropPaths {
  import opened Options
  import opened Mir
  import opened DropFlow
  import opened DropRewrite

  /** The body without the drops of emptied places. */
  ghost function KeptBody(body: Body, table: Table): Body
    requires |table| == |body.blocks|
  {
    body.(blocks := seq(|body.blocks|, b requires 0 <= b < |body.blocks| =>
      Kept(body.blocks[b], table[b], |body.blocks[b]|)))
  }

  /** The body with its ambiguous drops behind flags. `values` has grown by the flags. */
  ghost function GuardedBody(body: Body, table: Table, flags: Flags, values: seq<Type>): Body
    requires |table| == |body.blocks|
  {
    body.(values := values,
          blocks := seq(|body.blocks|, b requires 0 <= b < |body.blocks| =>
            Guarded(body.blocks[b], table[b], flags)))
  }

  ghost predicate FlagFreeBody(body: Body) {
    forall b :: 0 <= b < |body.blocks| ==> FlagFree(body.blocks[b])
  }

  /** A flag for each place some drop may or may not find full, and for no other. */
  ghost predicate FlagsFit(body: Body, table: Table, flags: Flags)
    requires |table| == |body.blocks|
  {
    && GoodFlags(flags, Width(body))
    && (forall b :: 0 <= b < |body.blocks| ==> Flagged(body.blocks[b], table[b], flags))
    && forall v :: 0 <= v < |flags| && flags[v] != NO_VALUE ==> SomeDropEither(body, table, v)
  }

  ghost predicate SomeDropEither(body: Body, table: Table, v: nat)
    requires |table| == |body.blocks|
  {
    exists b, j :: 0 <= b < |body.blocks| && 0 <= j < |body.blocks[b]| &&
                   DropsEither(body.blocks[b], table[b], j) && body.blocks[b][j].place.base == v
  }

  // ----- the graph stays the same -----

  lemma SuccessorsAppend(init: Block, end: Block)
    requires |end| > 0
    ensures Successors(init + end) == Successors(end)
  {
  }

  lemma {:induction false} KeptComesFrom(block: Block, row: seq<Holding>, count: nat, inst: Inst)
    requires count <= |block| && inst in Kept(block, row, count)
    ensures exists j :: 0 <= j < count && block[j] == inst
  {
    if count > 0 && inst in Kept(block, row, count - 1) {
      KeptComesFrom(block, row, count - 1, inst);
    }
  }

  lemma KeptBlockWellFormed(block: Block, row: seq<Holding>, blocks: nat, values: nat)
    requires WellFormedBlock(block, blocks, values)
    ensures WellFormedBlock(Kept(block, row, |block|), blocks, values)
    ensures Successors(Kept(block, row, |block|)) == Successors(block)
    ensures FlagFree(block) ==> FlagFree(Kept(block, row, |block|))
  {
    var kept := Kept(block, row, |block|);
    forall i | 0 <= i < |kept| ensures InstInRange(kept[i], values) {
      KeptComesFrom(block, row, |block|, kept[i]);
    }
    forall i | 0 <= i < |kept| ensures FlagFree(block) ==> kept[i].op != DropFlag && kept[i].flag == NO_VALUE {
      KeptComesFrom(block, row, |block|, kept[i]);
    }
    if |block| > 0 {
      var n := |block| - 1;
      var init := Kept(block, row, n);
      forall i | 0 <= i < |init| ensures !IsTerminator(init[i].op) {
        KeptComesFrom(block, row, n, init[i]);
      }
      SuccessorsAppend(block[..n], [block[n]]);
      assert block == block[..n] + [block[n]];
      if !DropsNothing(block, row, n) {
        SuccessorsAppend(init, [block[n]]);
      }
    }
  }

  lemma KeptBodyWellFormed(body: Body, table: Table)
    requires WellFormed(body) && |table| == |body.blocks|
    ensures WellFormed(KeptBody(body, table))
    ensures forall from: nat, to: nat :: Edge(KeptBody(body, table), from, to) <==> Edge(body, from, to)
    ensures FlagFreeBody(body) ==> FlagFreeBody(KeptBody(body, table))
  {
    forall b | 0 <= b < |body.blocks|
      ensures var kept := Kept(body.blocks[b], table[b], |body.blocks[b]|);
              && WellFormedBlock(kept, |body.blocks|, |body.values|)
              && Successors(kept) == Successors(body.blocks[b])
              && (FlagFree(body.blocks[b]) ==> FlagFree(kept))
    {
      KeptBlockWellFormed(body.blocks[b], table[b], |body.blocks|, |body.values|);
    }
  }

  lemma GuardedIsPrefix(block: Block, row: seq<Holding>, flags: Flags)
    ensures Guarded(block, row, flags) == GuardedPrefix(block, row, flags, |block|)
  {
    assert MarkedBlock(block, row, flags)[..|block|] == MarkedBlock(block, row, flags);
    GuardedByInst(block, row, flags, |block|);
  }

  lemma GuardedInstEnds(block: Block, row: seq<Holding>, flags: Flags, j: nat)
    requires j < |block|
    ensures |GuardedInst(block, row, flags, j)| > 0
    ensures Successors(GuardedInst(block, row, flags, j)) == Successors([block[j]])
  {
    var inst := Marked(block, row, flags, j);
    assert Successors([inst]) == Successors([block[j]]);
  }

  lemma SameEnd(init: Block, end: Block, before: Block, last: Inst)
    requires |end| > 0 && Successors(end) == Successors([last])
    ensures Successors(init + end) == Successors(before + [last])
  {
    SuccessorsAppend(init, end);
    SuccessorsAppend(before, [last]);
  }

  lemma PrefixSuccessors(block: Block, row: seq<Holding>, flags: Flags)
    ensures Successors(GuardedPrefix(block, row, flags, |block|)) == Successors(block)
  {
    if |block| > 0 {
      var n := |block| - 1;
      GuardedInstEnds(block, row, flags, n);
      SameEnd(GuardedPrefix(block, row, flags, n), GuardedInst(block, row, flags, n), block[..n], block[n]);
      assert block == block[..n] + [block[n]];
    }
  }

  lemma GuardedSuccessors(block: Block, row: seq<Holding>, flags: Flags)
    ensures Successors(Guarded(block, row, flags)) == Successors(block)
  {
    GuardedIsPrefix(block, row, flags);
    PrefixSuccessors(block, row, flags);
  }

  lemma GuardedEdges(body: Body, table: Table, flags: Flags, values: seq<Type>)
    requires WellFormed(body) && |table| == |body.blocks|
    ensures forall from: nat, to: nat ::
              Edge(GuardedBody(body, table, flags, values), from, to) <==> Edge(body, from, to)
  {
    forall b | 0 <= b < |body.blocks|
      ensures Successors(Guarded(body.blocks[b], table[b], flags)) == Successors(body.blocks[b])
    {
      GuardedSuccessors(body.blocks[b], table[b], flags);
    }
  }

  lemma SamePaths(body: Body, other: Body, path: seq<nat>)
    requires IsPath(body, path) && body.entry == other.entry && |body.blocks| == |other.blocks|
    requires forall from: nat, to: nat :: Edge(other, from, to) <==> Edge(body, from, to)
    ensures IsPath(other, path)
  {
  }

  // ----- the solved table describes every path -----

  lemma {:induction false} PathDescribed(body: Body, table: Table, path: seq<nat>)
    requires WellFormed(body) && Stable(body, table) && IsPath(body, path)
    ensures Describes(table[path[|path| - 1]], RefPath(body, path[..|path| - 1]))
  {
    var t := path[|path| - 1];
    if |path| == 1 {
      forall v: nat | v < |table[t]| ensures Allows(table[t][v], true) {
        AdvanceMeans(body, table, t, v, true);
      }
      return;
    }
    PathPrefix(body, path);
    var before := path[..|path| - 1];
    PathDescribed(body, table, before);
    var p := before[|before| - 1];
    var s := RefPath(body, before[..|before| - 1]);
    var held := s;
    forall v: nat | v < |table[t]|
      ensures Allows(table[t][v], v !in RefPath(body, before).emptied)
    {
      DescribesAfter(body.blocks[p], table[p], s, v);
      AdvanceMeans(body, table, t, v, v !in RefPath(body, before).emptied);
      assert HasEdgeBelow(body, t, |body.blocks|);
    }
  }

  lemma BlockInRange(body: Body, b: nat)
    requires WellFormed(body) && b < |body.blocks|
    ensures InRange(body.blocks[b], Width(body))
  {
    assert WellFormedBlock(body.blocks[b], |body.blocks|, |body.values|);
  }

  /** Removing the drops of emptied places changes no release on any path. */
  lemma {:induction false} KeptBodyReleases(body: Body, table: Table, path: seq<nat>)
    requires WellFormed(body) && Stable(body, table)
    requires path == [] || IsPath(body, path)
    ensures RefPath(KeptBody(body, table), path) == RefPath(body, path)
  {
    if |path| > 0 {
      var t, before := path[|path| - 1], path[..|path| - 1];
      if |path| > 1 {
        PathPrefix(body, path);
      }
      KeptBodyReleases(body, table, before);
      PathDescribed(body, table, path);
      BlockInRange(body, t);
      KeptReleases(body.blocks[t], table[t], RefPath(body, before), |body.blocks[t]|);
      assert body.blocks[t][..|body.blocks[t]|] == body.blocks[t];
    }
  }

  // ----- both passes see the same table -----

  lemma KeptAdvances(body: Body, table: Table, other: Table)
    requires WellFormed(body) && |table| == |body.blocks| && Shaped(body, other)
    ensures Advance(KeptBody(body, table), other) == Advance(body, other)
  {
    var kept := KeptBody(body, table);
    KeptBodyWellFormed(body, table);
    forall t, v | 0 <= t < |body.blocks| && 0 <= v < Width(body)
      ensures NextHolding(kept, other, t, v) == NextHolding(body, other, t, v)
    {
      KeptIncoming(body, table, other, t, v, |body.blocks|);
    }
    forall t | 0 <= t < |body.blocks| ensures Advance(kept, other)[t] == Advance(body, other)[t] {
      assert forall v :: 0 <= v < Width(body) ==> Advance(kept, other)[t][v] == Advance(body, other)[t][v];
    }
  }

  lemma {:induction false} KeptIncoming(body: Body, table: Table, other: Table, t: nat, v: nat, b: nat)
    requires WellFormed(body) && |table| == |body.blocks| && Shaped(body, other)
    requires t < |body.blocks| && v < Width(body) && b <= |body.blocks|
    ensures Incoming(KeptBody(body, table), other, t, v, b) == Incoming(body, other, t, v, b)
  {
    hide WellFormed, FlagFreeBody, Edge, Kept, LastEvent;
    if b > 0 {
      KeptIncoming(body, table, other, t, v, b - 1);
      KeptBodyWellFormed(body, table);
      var block := body.blocks[b - 1];
      KeptEvents(block, table[b - 1], v, |block|);
      assert block[..|block|] == block;
    }
  }

  lemma {:induction false} KeptRounds(body: Body, table: Table, k: nat)
    requires WellFormed(body) && |table| == |body.blocks|
    ensures Round(KeptBody(body, table), k) == Round(body, k)
  {
    if k > 0 {
      KeptRounds(body, table, k - 1);
      KeptAdvances(body, table, Round(body, k - 1));
    }
  }

  /** Solving again after the first removal finds the same table. */
  lemma KeptSettles(body: Body, table: Table)
    requires WellFormed(body) && Settled(body, table)
    ensures Settled(KeptBody(body, table), table)
  {
    var k: nat :| table == Round(body, k);
    KeptRounds(body, table, k);
    KeptAdvances(body, table, table);
  }

  lemma {:induction false} KeptHolds(block: Block, row: seq<Holding>, count: nat, i: nat)
    requires count <= |block| && i < |Kept(block, row, count)|
    ensures !DropsNothing(Kept(block, row, count), row, i)
  {
    var kept, j := Kept(block, row, count), count - 1;
    var init := Kept(block, row, j);
    if i < |init| {
      KeptHolds(block, row, j, i);
      assert kept[..i] == init[..i];
    } else if DropsWhole(block[j]) {
      assert kept[..i] == init;
      KeptEvents(block, row, block[j].place.base, j);
    }
  }

  // ----- flags -----

  /** How many releases the flags miss along the path. */
  ghost function MissedOnPath(body: Body, table: Table, path: seq<nat>): nat
    requires |table| == |body.blocks|
    requires forall i :: 0 <= i < |path| ==> path[i] < |body.blocks|
  {
    if |path| == 0 then 0
    else
      var t, before := path[|path| - 1], path[..|path| - 1];
      MissedOnPath(body, table, before) +
      Missed(body.blocks[t], table[t], RefPath(body, before), |body.blocks[t]|)
  }

  lemma {:induction false} GuardedBodyReleases(body: Body, table: Table, flags: Flags, values: seq<Type>, path: seq<nat>)
    requires WellFormed(body) && Stable(body, table) && FlagFreeBody(body) && FlagsFit(body, table, flags)
    requires forall b, j :: 0 <= b < |body.blocks| && 0 <= j < |body.blocks[b]| ==>
               !DropsNothing(body.blocks[b], table[b], j)
    requires path == [] || IsPath(body, path)
    ensures var s, m := RefPath(body, path), MachinePath(GuardedBody(body, table, flags, values), path);
            FlagsFollow(flags, s, m) && Lags(s, m, MissedOnPath(body, table, path))
  {
    if |path| > 0 {
      var t, before := path[|path| - 1], path[..|path| - 1];
      if |path| > 1 {
        PathPrefix(body, path);
      }
      GuardedBodyReleases(body, table, flags, values, before);
      PathDescribed(body, table, path);
      BlockInRange(body, t);
      var block, guarded := body.blocks[t], GuardedBody(body, table, flags, values);
      GuardedIsPrefix(block, table[t], flags);
      assert block[..|block|] == block;
      GuardedReleases(block, table[t], flags, |block|, RefPath(body, before), MachinePath(guarded, before),
                      MissedOnPath(body, table, before));
    }
  }

  /** At the path's step `i`, an event has touched the place of every flagged drop of the block
      before the drop runs. */
  ghost predicate CoveredAt(body: Body, table: Table, path: seq<nat>, i: nat)
    requires |table| == |body.blocks| && i < |path|
    requires forall k :: 0 <= k < |path| ==> path[k] < |body.blocks|
  {
    var block := body.blocks[path[i]];
    forall j :: 0 <= j < |block| ==> DropsEither(block, table[path[i]], j) ==>
      block[j].place.base in RefRun(block[..j], RefPath(body, path[..i])).touched
  }

  ghost predicate Covered(body: Body, table: Table, path: seq<nat>)
    requires |table| == |body.blocks|
    requires forall i :: 0 <= i < |path| ==> path[i] < |body.blocks|
  {
    forall i :: 0 <= i < |path| ==> CoveredAt(body, table, path, i)
  }

  lemma {:induction false} MissedMeans(block: Block, row: seq<Holding>, s: Reference, count: nat)
    requires count <= |block|
    ensures Missed(block, row, s, count) == 0 <==>
              forall j :: 0 <= j < count ==> DropsEither(block, row, j) ==>
                block[j].place.base in RefRun(block[..j], s).touched
  {
    if count > 0 {
      MissedMeans(block, row, s, count - 1);
    }
  }

  lemma CoveredPrefix(body: Body, table: Table, path: seq<nat>, i: nat)
    requires |table| == |body.blocks| && i < |path| - 1
    requires forall k :: 0 <= k < |path| ==> path[k] < |body.blocks|
    ensures CoveredAt(body, table, path[..|path| - 1], i) <==> CoveredAt(body, table, path, i)
  {
    assert path[..|path| - 1][..i] == path[..i];
  }

  lemma {:induction false} CoveredMeans(body: Body, table: Table, path: seq<nat>)
    requires |table| == |body.blocks|
    requires forall i :: 0 <= i < |path| ==> path[i] < |body.blocks|
    ensures MissedOnPath(body, table, path) == 0 <==> Covered(body, table, path)
  {
    hide Missed, RefPath;
    if |path| > 0 {
      var n := |path| - 1;
      CoveredMeans(body, table, path[..n]);
      MissedMeans(body.blocks[path[n]], table[path[n]], RefPath(body, path[..n]), |body.blocks[path[n]]|);
      assert CoveredAt(body, table, path, n) <==>
               Missed(body.blocks[path[n]], table[path[n]], RefPath(body, path[..n]), |body.blocks[path[n]]|) == 0;
      forall i | 0 <= i < n
        ensures CoveredAt(body, table, path[..n], i) <==> CoveredAt(body, table, path, i)
      {
        CoveredPrefix(body, table, path, i);
      }
    }
  }

  /** The body drop elaboration produces, once moves are followed by their `Null`s. */
  ghost function Elaborated(body: Body, table: Table, flags: Flags, values: seq<Type>): Body
    requires |table| == |body.blocks|
  {
    GuardedBody(KeptBody(body, table), table, flags, values)
  }

  /** Elaboration keeps every path, and on every path releases exactly what the reference does,
      in the same order, if and only if each flagged drop on it comes after an event on its place.
      Otherwise it misses one release for each flagged drop that does not. */
  lemma ElaborationPreservesReleases(body: Body, table: Table, flags: Flags, values: seq<Type>, path: seq<nat>)
    requires WellFormed(body) && FlagFreeBody(body) && Settled(body, table)
    requires FlagsFit(KeptBody(body, table), table, flags)
    requires IsPath(body, path)
    ensures IsPath(Elaborated(body, table, flags, values), path)
    ensures var machine, reference := MachinePath(Elaborated(body, table, flags, values), path),
                                      RefPath(body, path);
            && |machine.released| + MissedOnPath(KeptBody(body, table), table, path) == |reference.released|
            && (machine.released == reference.released <==> Covered(KeptBody(body, table), table, path))
  {
    var kept := KeptBody(body, table);
    KeptBodyWellFormed(body, table);
    KeptSettles(body, table);
    SamePaths(body, kept, path);
    GuardedEdges(kept, table, flags, values);
    SamePaths(kept, GuardedBody(kept, table, flags, values), path);
    KeptBodyReleases(body, table, path);
    forall b, i | 0 <= b < |kept.blocks| && 0 <= i < |kept.blocks[b]|
      ensures !DropsNothing(kept.blocks[b], table[b], i)
    {
      KeptHolds(body.blocks[b], table[b], |body.blocks[b]|, i);
    }
    GuardedBodyReleases(kept, table, flags, values, path);
    CoveredMeans(kept, table, path);
  }

  // ----- a place that no event has touched -----

  /** A function that takes an owning parameter, gives it away on one branch only, and drops it. */
  function GivesAwayOnOneBranch(): Body {
    var owned := Type(Struct, owns := true);
    Body([[Inst(Branch, args := [Value(1)], targets := (1, 2))],
          [Inst(Load, ty := owned, result := 2, place := Place(0), read := ReadMove),
           Inst(Null, ty := owned, place := Place(0)),
           Inst(Jmp, targets := (3, NO_BLOCK))],
          [Inst(Jmp, targets := (3, NO_BLOCK))],
          [Inst(Drop, ty := owned, place := Place(0)), Inst(Return)]],
         [owned, BOOL_TYPE, owned], 0, [0, 1])
  }

  /** Where nothing is given away, the place may still hold its object. */
  lemma OneBranchHolds(table: Table)
    requires Settled(GivesAwayOnOneBranch(), table)
    ensures Allows(table[3][0], true)
  {
    var body := GivesAwayOnOneBranch();
    assert Edge(body, 0, 2) && Edge(body, 2, 3);
    AdvanceMeans(body, table, 0, 0, true);
    assert LastEvent(body.blocks[0], 0).None?;
    AdvanceMeans(body, table, 2, 0, true);
    assert Reaches(body, table, 2, 0, true, 4);
    assert LastEvent(body.blocks[2], 0).None?;
    AdvanceMeans(body, table, 3, 0, true);
    assert Reaches(body, table, 3, 0, true, 4);
    assert HasEdgeBelow(body, 3, 4) && HasEdgeBelow(body, 2, 4);
  }

  lemma OneBranchIsAmbiguous(table: Table)
    requires Settled(GivesAwayOnOneBranch(), table)
    ensures table[3][0] == Either
  {
    OneBranchHolds(table);
    var body := GivesAwayOnOneBranch();
    assert Edge(body, 1, 3);
    var moving := body.blocks[1];
    assert EventOf(moving[2], 0).None? && EventOf(moving[1], 0) == Some(false);
    assert LastEvent(moving[..2], 0) == Some(false) && LastEvent(moving, 0) == Some(false);
    AdvanceMeans(body, table, 3, 0, false);
    assert Reaches(body, table, 3, 0, false, 4);
    assert HasEdgeBelow(body, 3, 4);
  }

  lemma OneBranchKeepsAll(table: Table)
    requires Settled(GivesAwayOnOneBranch(), table)
    ensures KeptBody(GivesAwayOnOneBranch(), table) == GivesAwayOnOneBranch()
  {
    var body := GivesAwayOnOneBranch();
    OneBranchIsAmbiguous(table);
    forall b | 0 <= b < 4 ensures Kept(body.blocks[b], table[b], |body.blocks[b]|) == body.blocks[b] {
      forall j | 0 <= j < |body.blocks[b]| ensures !DropsNothing(body.blocks[b], table[b], j) {
        assert DropsWhole(body.blocks[b][j]) ==> b == 3 && j == 0;
      }
      KeptAll(body.blocks[b], table[b], |body.blocks[b]|);
    }
    assert KeptBody(body, table).blocks == body.blocks;
  }

  /** The branch that keeps the parameter: no event, then the drop. */
  lemma KeepingPath()
    ensures RefPath(GivesAwayOnOneBranch(), [0, 2]) == FRESH
    ensures IsPath(GivesAwayOnOneBranch(), [0, 2, 3])
  {
    var body := GivesAwayOnOneBranch();
    assert [0, 2][..1] == [0] && [0][..0] == [];
    assert RefPath(body, [0]) == RefRun(body.blocks[0], FRESH) == FRESH;
    assert RefPath(body, [0, 2]) == RefRun(body.blocks[2], FRESH) == FRESH;
    assert Edge(body, 0, 2) && Edge(body, 2, 3);
  }

  lemma OneBranchWellFormed()
    ensures WellFormed(GivesAwayOnOneBranch()) && FlagFreeBody(GivesAwayOnOneBranch())
  {
    hide GivesAwayOnOneBranch;
    var body := GivesAwayOnOneBranch();
    OneBranchShape();
    forall b | 0 <= b < 4 ensures WellFormedBlock(body.blocks[b], 4, 3) && FlagFree(body.blocks[b]) {
      OneBranchBlock(b);
    }
  }

  lemma OneBranchShape()
    ensures var body := GivesAwayOnOneBranch(); |body.blocks| == 4 && |body.values| == 3 && body.entry == 0
  {
  }

  lemma OneBranchBlock(b: nat)
    requires b < 4
    ensures |GivesAwayOnOneBranch().blocks| == 4
    ensures var block := GivesAwayOnOneBranch().blocks[b]; WellFormedBlock(block, 4, 3) && FlagFree(block)
  {
  }

  lemma KeepingPathUncovered(table: Table)
    requires Settled(GivesAwayOnOneBranch(), table)
    ensures forall i :: 0 <= i < 3 ==> [0, 2, 3][i] < |GivesAwayOnOneBranch().blocks|
    ensures !Covered(GivesAwayOnOneBranch(), table, [0, 2, 3])
  {
    var body, path := GivesAwayOnOneBranch(), [0, 2, 3];
    OneBranchIsAmbiguous(table);
    KeepingPath();
    var end, row := body.blocks[3], table[3];
    assert path[..2] == [0, 2] && end[..0] == [];
    assert HoldingAt(end, row, 0) == Either;
    assert DropsEither(end, row, 0) && end[0].place.base !in RefRun(end[..0], FRESH).touched;
    assert !CoveredAt(body, table, path, 2) by {
      assert path[2] == 3;
    }
  }

  /** Its elaborated form never releases the parameter on the branch that keeps it: the flag that
      guards the drop starts down, and nothing on that branch raises it. */
  lemma UntouchedParameterIsMissed(body: Body, table: Table, flags: Flags, values: seq<Type>)
    requires body == GivesAwayOnOneBranch() && Settled(body, table)
    requires FlagsFit(KeptBody(body, table), table, flags)
    ensures WellFormed(body) && FlagFreeBody(body) && IsPath(body, [0, 2, 3])
    ensures IsPath(Elaborated(body, table, flags, values), [0, 2, 3])
    ensures MachinePath(Elaborated(body, table, flags, values), [0, 2, 3]).released !=
            RefPath(body, [0, 2, 3]).released
  {
    OneBranchWellFormed();
    OneBranchKeepsAll(table);
    KeepingPath();
    KeepingPathUncovered(table);
    ElaborationPreservesReleases(body, table, flags, values, [0, 2, 3]);
  }
}
