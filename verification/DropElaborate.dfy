/** The passes of drop elaboration, rewriting a function's blocks in place. */
module DropElaborate {
  import opened Options
  import opened Mir
  import opened Functions
  import opened DropFlow
  import opened DropSolver
  import opened DropRewrite
  import opened DropPaths
  import opened DropMeaning

  // ----- a Null after each move -----

  predicate MovesOwned(inst: Inst) {
    inst.op == Load && inst.read == ReadMove && inst.ty.owns
  }

  function NullAfter(inst: Inst): Inst {
    Inst(Null, ty := inst.ty, place := inst.place)
  }

  function Nulled(insts: seq<Inst>): seq<Inst> {
    if |insts| == 0 then []
    else
      var last := insts[|insts| - 1];
      Nulled(insts[..|insts| - 1]) + (if MovesOwned(last) then [last, NullAfter(last)] else [last])
  }

  function NulledBlocks(blocks: seq<Block>): seq<Block> {
    seq(|blocks|, b requires 0 <= b < |blocks| => Nulled(blocks[b]))
  }

  ghost function NulledBody(body: Body): Body {
    body.(blocks := NulledBlocks(body.blocks))
  }

  /** A run of the nulled body stands where the run of the original does. */
  predicate Tracks(s: Reference, own: Ownership) {
    s.emptied == own.gone && s.released == own.released
  }

  lemma NullTracks(inst: Inst, s: Reference, own: Ownership)
    requires Tracks(s, own)
    ensures Tracks(if MovesOwned(inst) then RefStep(NullAfter(inst), RefStep(inst, s)) else RefStep(inst, s),
                   OwnStep(inst, own))
  {
  }

  lemma RefRunGrows(insts: seq<Inst>, inst: Inst, s: Reference)
    ensures RefRun(insts + [inst], s) == RefStep(inst, RefRun(insts, s))
  {
    assert (insts + [inst])[..|insts|] == insts;
  }

  lemma {:induction false} NulledTracks(block: Block, s: Reference, own: Ownership)
    requires Tracks(s, own)
    ensures Tracks(RefRun(Nulled(block), s), OwnRun(block, own))
  {
    if |block| > 0 {
      var n := |block| - 1;
      NulledTracks(block[..n], s, own);
      var init, last := Nulled(block[..n]), block[n];
      NullTracks(last, RefRun(init, s), OwnRun(block[..n], own));
      RefRunGrows(init, last, s);
      if MovesOwned(last) {
        RefRunGrows(init + [last], NullAfter(last), s);
        assert Nulled(block) == init + [last] + [NullAfter(last)];
      }
    }
  }

  /** On every path, the body with its `Null`s releases what the original body does. */
  lemma {:induction false} NulledKeepsMeaning(body: Body, path: seq<nat>)
    requires forall i :: 0 <= i < |path| ==> path[i] < |body.blocks|
    ensures Tracks(RefPath(NulledBody(body), path), OwnPath(body, path))
  {
    if |path| > 0 {
      var n := |path| - 1;
      NulledKeepsMeaning(body, path[..n]);
      NulledTracks(body.blocks[path[n]], RefPath(NulledBody(body), path[..n]), OwnPath(body, path[..n]));
    }
  }

  lemma NulledGrows(seen: seq<Inst>, next: Inst)
    ensures Nulled(seen + [next]) == Nulled(seen) + if MovesOwned(next) then [next, NullAfter(next)] else [next]
  {
    assert (seen + [next])[..|seen|] == seen;
  }

  lemma InsertBehind(front: seq<Inst>, rest: seq<Inst>, inst: Inst)
    requires |rest| > 0
    ensures var all := front + rest;
            all[..|front| + 1] + [inst] + all[|front| + 1..] == front + [rest[0], inst] + rest[1..]
  {
  }

  /** Joining an empty front or an empty rest changes nothing. */
  lemma Edges(front: seq<Inst>, rest: seq<Inst>)
    ensures |front| == 0 ==> front + rest == rest
    ensures |rest| == 0 ==> front + rest == front
  {
  }

  lemma StepOver(front: seq<Inst>, rest: seq<Inst>)
    requires |rest| > 0
    ensures front + rest == front + [rest[0]] + rest[1..]
  {
  }

  method InsertNullsInBlock(ir: Function, b: nat)
    requires b < |ir.blocks|
    modifies ir`blocks
    ensures ir.blocks == old(ir.blocks)[b := Nulled(old(ir.blocks[b]))]
  {
    ghost var seen: seq<Inst>, rest := [], ir.blocks[b];
    var i := 0;
    Edges(Nulled(seen), rest);
    while i < |ir.blocks[b]|
      invariant ir.blocks == old(ir.blocks)[b := Nulled(seen) + rest]
      invariant seen + rest == old(ir.blocks[b]) && i == |Nulled(seen)|
      decreases |rest|
    {
      var inst := ir.blocks[b][i];
      NulledGrows(seen, inst);
      if inst.op == Load && inst.read == ReadMove && inst.ty.owns {
        InsertBehind(Nulled(seen), rest, NullAfter(inst));
        ir.InsertAt(b, i + 1, NullAfter(inst));
        i := i + 2;
      } else {
        StepOver(Nulled(seen), rest);
        i := i + 1;
      }
      StepOver(seen, rest);
      seen, rest := seen + [inst], rest[1..];
    }
    Edges(seen, rest);
    Edges(Nulled(seen), rest);
  }

  method InsertNulls(ir: Function)
    modifies ir`blocks
    ensures ir.View() == NulledBody(old(ir.View()))
  {
    for b := 0 to |ir.blocks|
      invariant |ir.blocks| == |old(ir.blocks)|
      invariant forall c :: 0 <= c < |ir.blocks| ==>
                  ir.blocks[c] == if c < b then Nulled(old(ir.blocks)[c]) else old(ir.blocks)[c]
    {
      InsertNullsInBlock(ir, b);
    }
  }

  // ----- drops of emptied places -----

  predicate Earlier(one: (nat, nat), other: (nat, nat)) {
    one.0 < other.0 || (one.0 == other.0 && one.1 < other.1)
  }

  ghost predicate IsEmptyDrop(blocks: seq<Block>, table: Table, at: (nat, nat))
    requires |table| == |blocks|
  {
    at.0 < |blocks| && at.1 < |blocks[at.0]| && DropsNothing(blocks[at.0], table[at.0], at.1)
  }

  /** What the places hold after the first `j` instructions of a block entered with `row`. */
  ghost predicate Walked(holds: seq<Holding>, block: Block, j: nat, row: seq<Holding>) {
    && j <= |block| && |holds| == |row| && InRange(block, |row|)
    && forall v :: 0 <= v < |row| ==> holds[v] == HoldsAfter(block[..j], v, row[v])
  }

  lemma WalkStarts(block: Block, row: seq<Holding>)
    requires InRange(block, |row|)
    ensures Walked(row, block, 0, row)
  {
  }

  lemma DropsHere(holds: seq<Holding>, block: Block, j: nat, row: seq<Holding>)
    requires Walked(holds, block, j, row) && j < |block|
    ensures DropsWhole(block[j]) ==> block[j].place.base < |holds|
    ensures DropsNothing(block, row, j) <==> DropsWhole(block[j]) && holds[block[j].place.base] == Nothing
    ensures DropsEither(block, row, j) <==> DropsWhole(block[j]) && holds[block[j].place.base] == Either
  {
  }

  method WalkOn(ghost block: Block, inst: Inst, j: nat, holds: array<Holding>, ghost row: seq<Holding>)
    requires Walked(holds[..], block, j, row) && j < |block| && inst == block[j]
    modifies holds
    ensures Walked(holds[..], block, j + 1, row)
  {
    ghost var before := holds[..];
    TakeEvent(inst, holds);
    forall v | 0 <= v < |row| ensures holds[v] == HoldsAfter(block[..j + 1], v, row[v]) {
      assert before[v] == HoldsAfter(block[..j], v, row[v]);
      OneMore(block, j, v, row[v]);
    }
  }

  /** The empty drops of blocks before `b`, and of the first `j` instructions of it, are found. */
  ghost predicate Found(found: seq<(nat, nat)>, blocks: seq<Block>, table: Table, b: nat, j: nat)
    requires |table| == |blocks|
  {
    && (forall x, y :: 0 <= x < y < |found| ==> Earlier(found[x], found[y]))
    && (forall at :: at in found <==> Earlier(at, (b, j)) && IsEmptyDrop(blocks, table, at))
  }

  lemma FindsNext(found: seq<(nat, nat)>, blocks: seq<Block>, table: Table, b: nat, j: nat)
    requires |table| == |blocks| && Found(found, blocks, table, b, j) && b < |blocks| && j < |blocks[b]|
    ensures Found(if DropsNothing(blocks[b], table[b], j) then found + [(b, j)] else found, blocks, table, b, j + 1)
  {
  }

  lemma FindsNextBlock(found: seq<(nat, nat)>, blocks: seq<Block>, table: Table, b: nat)
    requires |table| == |blocks| && b < |blocks| && Found(found, blocks, table, b, |blocks[b]|)
    ensures Found(found, blocks, table, b + 1, 0)
  {
  }

  /** Notes every drop of an emptied place, in layout order. */
  method FindEmptyDrops(ir: Function, entries: array2<Holding>) returns (found: seq<(nat, nat)>)
    requires WellFormed(ir.View())
    requires entries.Length0 == |ir.blocks| && entries.Length1 == |ir.values| + 1
    ensures forall x, y :: 0 <= x < y < |found| ==> Earlier(found[x], found[y])
    ensures forall at :: at in found <==> IsEmptyDrop(ir.blocks, Rows(entries), at)
  {
    hide Walked, WellFormed, DropsNothing;
    found := [];
    ghost var table := Rows(entries);
    var holds := new Holding[|ir.values| + 1](v => ItsObject);
    for b := 0 to |ir.blocks|
      invariant Found(found, ir.blocks, table, b, 0)
    {
      LoadRow(entries, b, holds);
      var block := ir.blocks[b];
      BlockInRange(ir.View(), b);
      assert holds[..] == table[b];
      WalkStarts(block, table[b]);
      found := FindInBlock(block, b, holds, found, ir.blocks, table);
      FindsNextBlock(found, ir.blocks, table, b);
    }
  }

  method FindInBlock(block: Block, b: nat, holds: array<Holding>, before: seq<(nat, nat)>, ghost blocks: seq<Block>,
                     ghost table: Table)
    returns (found: seq<(nat, nat)>)
    requires |table| == |blocks| && b < |blocks| && block == blocks[b] && Walked(holds[..], block, 0, table[b])
    requires Found(before, blocks, table, b, 0)
    modifies holds
    ensures Found(found, blocks, table, b, |block|)
  {
    hide Walked, Found, DropsNothing, DropsEither;
    found := before;
    for j := 0 to |block|
      invariant Walked(holds[..], block, j, table[b]) && Found(found, blocks, table, b, j)
    {
      var inst := block[j];
      DropsHere(holds[..], block, j, table[b]);
      FindsNext(found, blocks, table, b, j);
      if inst.op == Drop && inst.place.base != NO_VALUE && |inst.place.projections| == 0 &&
         holds[inst.place.base] == Nothing {
        found := found + [(b, j)];
      }
      WalkOn(block, inst, j, holds, table[b]);
    }
  }

  lemma {:induction false} KeptGap(block: Block, row: seq<Holding>, from: nat, count: nat)
    requires from < count <= |block| && DropsNothing(block, row, from)
    requires forall j :: from < j < count ==> !DropsNothing(block, row, j)
    ensures Kept(block, row, count) == Kept(block, row, from) + block[from + 1..count]
  {
    if count > from + 1 {
      KeptGap(block, row, from, count - 1);
      assert block[from + 1..count] == block[from + 1..count - 1] + [block[count - 1]];
    }
  }

  /** The block as it was up to `cut`, with the drops of emptied places already gone after it. */
  ghost predicate CutAt(now: Block, was: Block, row: seq<Holding>, cut: nat) {
    && cut <= |was| && cut <= |now|
    && now[..cut] == was[..cut]
    && Kept(was, row, |was|) == Kept(was, row, cut) + now[cut..]
  }

  lemma CutMoves(now: Block, was: Block, row: seq<Holding>, cut: nat, at: nat)
    requires CutAt(now, was, row, cut) && at < cut && DropsNothing(was, row, at)
    requires forall j :: at < j < cut ==> !DropsNothing(was, row, j)
    ensures CutAt(now[..at] + now[at + 1..], was, row, at)
  {
    hide Kept, DropsNothing;
    KeptGap(was, row, at, cut);
    var next := now[..at] + now[at + 1..];
    assert next[..at] == was[..at];
    assert now[at + 1..] == was[at + 1..cut] + now[cut..];
  }

  /** What is left to do once the drops noted from the `i`-th on are gone: `cuts` says from
      where on each block is already finished. */
  ghost predicate Removing(was: seq<Block>, now: seq<Block>, table: Table, found: seq<(nat, nat)>,
                           cuts: seq<nat>, i: nat)
    requires |table| == |was| && i <= |found|
  {
    && |now| == |was| == |cuts|
    && (forall b :: 0 <= b < |was| ==> CutAt(now[b], was[b], table[b], cuts[b]))
    && (forall x :: 0 <= x < i ==> IsEmptyDrop(was, table, found[x]) && found[x].1 < cuts[found[x].0])
    && (forall b, j :: 0 <= b < |was| && 0 <= j < cuts[b] && DropsNothing(was[b], table[b], j) ==>
          (b, j) in found[..i])
  }

  lemma RemovingStep(was: seq<Block>, now: seq<Block>, table: Table, found: seq<(nat, nat)>,
                     cuts: seq<nat>, i: nat)
    requires |table| == |was| && 0 < i <= |found| && Removing(was, now, table, found, cuts, i)
    requires forall x, y :: 0 <= x < y < |found| ==> Earlier(found[x], found[y])
    ensures var at := found[i - 1];
            && at.0 < |now| && at.1 < |now[at.0]|
            && Removing(was, now[at.0 := now[at.0][..at.1] + now[at.0][at.1 + 1..]], table, found,
                        cuts[at.0 := at.1], i - 1)
  {
    var at := found[i - 1];
    forall x | 0 <= x < i ensures found[x].0 != at.0 || found[x].1 <= at.1 {
      assert x == i - 1 || Earlier(found[x], found[i - 1]);
    }
    forall j | at.1 < j < cuts[at.0] ensures !DropsNothing(was[at.0], table[at.0], j) {
      assert (at.0, j) !in found[..i];
    }
    CutMoves(now[at.0], was[at.0], table[at.0], cuts[at.0], at.1);
    forall x | 0 <= x < i - 1 ensures found[x].1 < cuts[at.0 := at.1][found[x].0] {
      assert Earlier(found[x], found[i - 1]);
    }
    forall b, j | 0 <= b < |was| && 0 <= j < cuts[at.0 := at.1][b] && DropsNothing(was[b], table[b], j)
      ensures (b, j) in found[..i - 1]
    {
      assert (b, j) in found[..i];
    }
  }

  lemma RemovingStart(was: seq<Block>, table: Table, found: seq<(nat, nat)>, cuts: seq<nat>)
    requires |table| == |was| == |cuts|
    requires forall b :: 0 <= b < |was| ==> cuts[b] == |was[b]|
    requires forall at :: at in found <==> IsEmptyDrop(was, table, at)
    ensures Removing(was, was, table, found, cuts, |found|)
  {
    assert found[..|found|] == found;
    forall x | 0 <= x < |found| ensures IsEmptyDrop(was, table, found[x]) {
      assert found[x] in found;
    }
    forall b: nat, j: nat | b < |was| && j < cuts[b] && DropsNothing(was[b], table[b], j)
      ensures (b, j) in found
    {
      assert IsEmptyDrop(was, table, (b, j));
    }
    forall b | 0 <= b < |was| ensures CutAt(was[b], was[b], table[b], cuts[b]) {
      Edges(Kept(was[b], table[b], |was[b]|), was[b][cuts[b]..]);
    }
  }

  lemma RemovingEnd(was: seq<Block>, now: seq<Block>, table: Table, found: seq<(nat, nat)>, cuts: seq<nat>, b: nat)
    requires |table| == |was| && Removing(was, now, table, found, cuts, 0) && b < |was|
    ensures now[b] == Kept(was[b], table[b], |was[b]|)
  {
    KeptAll(was[b], table[b], cuts[b]);
    assert now[b] == now[b][..cuts[b]] + now[b][cuts[b]..];
  }

  /** Removes the noted drops, last first, so that the positions still to come stay right. */
  method DropReleasesOfEmptiedPlaces(ir: Function) returns (ghost table: Table)
    requires WellFormed(ir.View())
    modifies ir`blocks
    ensures Settled(old(ir.View()), table)
    ensures ir.View() == KeptBody(old(ir.View()), table)
  {
    var entries := EntryHoldings(ir);
    table := Rows(entries);
    var found := FindEmptyDrops(ir, entries);
    ghost var was := ir.blocks;
    ghost var cuts: seq<nat> := seq(|was|, b requires 0 <= b < |was| => |was[b]|);
    RemovingStart(was, table, found, cuts);
    var i: nat := |found|;
    while i > 0
      invariant i <= |found| && Removing(was, ir.blocks, table, found, cuts, i)
    {
      RemovingStep(was, ir.blocks, table, found, cuts, i);
      cuts := cuts[found[i - 1].0 := found[i - 1].1];
      ir.RemoveAt(found[i - 1].0, found[i - 1].1);
      i := i - 1;
    }
    forall b | 0 <= b < |was| ensures ir.blocks[b] == Kept(was[b], table[b], |was[b]|) {
      RemovingEnd(was, ir.blocks, table, found, cuts, b);
    }
  }

  // ----- flags for ambiguous drops -----

  ghost predicate FlagsSoFar(flags: Flags, width: nat, values: nat) {
    && |flags| == width
    && (forall v :: 0 <= v < width ==> flags[v] == NO_VALUE || width - 1 <= flags[v] < values)
    && (forall v, w :: 0 <= v < w < width ==> flags[v] != NO_VALUE ==> flags[v] != flags[w])
  }

  ghost function FlagCount(flags: Flags): nat {
    if |flags| == 0 then 0
    else FlagCount(flags[..|flags| - 1]) + if flags[|flags| - 1] != NO_VALUE then 1 else 0
  }

  lemma {:induction false} FlagCountGrows(flags: Flags, v: nat, flag: nat)
    requires v < |flags| && flags[v] == NO_VALUE && flag != NO_VALUE
    ensures FlagCount(flags[v := flag]) == FlagCount(flags) + 1
  {
    var n := |flags| - 1;
    if v < n {
      FlagCountGrows(flags[..n], v, flag);
      assert flags[v := flag][..n] == flags[..n][v := flag];
    } else {
      assert flags[v := flag][..n] == flags[..n];
    }
  }

  lemma {:induction false} FlagCountBound(flags: Flags)
    ensures FlagCount(flags) <= |flags|
    ensures (exists v :: 0 <= v < |flags| && flags[v] == NO_VALUE) ==> FlagCount(flags) < |flags|
    ensures (forall v :: 0 <= v < |flags| ==> flags[v] == NO_VALUE) ==> FlagCount(flags) == 0
  {
    if |flags| > 0 {
      FlagCountBound(flags[..|flags| - 1]);
    }
  }

  /** The flags given out so far, and the values they have added to the body's. */
  ghost predicate FlagState(body: Body, table: Table, flags: Flags, values: seq<Type>)
    requires |table| == |body.blocks|
  {
    && FlagsSoFar(flags, Width(body), |values|)
    && body.values <= values
    && |values| == |body.values| + FlagCount(flags)
    && (forall v :: |body.values| <= v < |values| ==> values[v] == BOOL_TYPE)
    && (forall v :: 0 <= v < |flags| && flags[v] != NO_VALUE ==> SomeDropEither(body, table, v))
  }

  ghost predicate FlagsExtend(before: Flags, after: Flags) {
    && |before| == |after|
    && forall v :: 0 <= v < |before| && before[v] != NO_VALUE ==> after[v] == before[v]
  }

  /** The first `j` instructions of the block are marked, and their places have flags. */
  ghost predicate MarkedUpTo(was: Block, now: Block, row: seq<Holding>, flags: Flags, j: nat) {
    && |now| == |was|
    && (forall i :: 0 <= i < |was| && i < j ==>
          && now[i] == Marked(was, row, flags, i)
          && (DropsEither(was, row, i) ==> HasFlag(flags, was[i])))
    && (forall i :: j <= i < |was| ==> now[i] == was[i])
  }

  lemma MarksStay(was: Block, now: Block, row: seq<Holding>, before: Flags, after: Flags, j: nat)
    requires MarkedUpTo(was, now, row, before, j) && FlagsExtend(before, after)
    ensures MarkedUpTo(was, now, row, after, j)
  {
  }

  /** The flag of a place, created when it is first asked for. */
  method FlagFor(ir: Function, flags: array<nat>, base: nat, ghost body: Body, ghost table: Table)
    returns (flag: nat)
    requires |table| == |body.blocks| && FlagState(body, table, flags[..], ir.values)
    requires base < |body.values| && 2 * |body.values| + 1 < NO_VALUE && SomeDropEither(body, table, base)
    modifies ir`values, flags
    ensures FlagState(body, table, flags[..], ir.values) && FlagsExtend(old(flags[..]), flags[..])
    ensures flag == flags[base] != NO_VALUE
  {
    hide SomeDropEither;
    ghost var before := flags[..];
    if flags[base] == NO_VALUE {
      FlagCountBound(before);
      FlagCountGrows(before, base, |ir.values|);
      var created := ir.CreateValue(BOOL_TYPE);
      flags[base] := created;
      assert flags[..] == before[base := created];
    }
    flag := flags[base];
  }

  /** Puts the flag of its place on a drop. */
  method MarkDrop(ir: Function, b: nat, j: nat, flags: array<nat>, ghost body: Body, ghost table: Table, ghost was: Block,
                  ghost row: seq<Holding>)
    requires |table| == |body.blocks| && FlagState(body, table, flags[..], ir.values)
    requires b < |ir.blocks| && j < |was| && MarkedUpTo(was, ir.blocks[b], row, flags[..], j) && DropsEither(was, row, j)
    requires was[j].place.base < |body.values| && 2 * |body.values| + 1 < NO_VALUE
    requires SomeDropEither(body, table, was[j].place.base)
    modifies ir`blocks, ir`values, flags
    ensures FlagState(body, table, flags[..], ir.values) && FlagsExtend(old(flags[..]), flags[..])
    ensures |ir.blocks| == |old(ir.blocks)|
    ensures forall c :: 0 <= c < |ir.blocks| && c != b ==> ir.blocks[c] == old(ir.blocks)[c]
    ensures MarkedUpTo(was, ir.blocks[b], row, flags[..], j + 1)
  {
    hide SomeDropEither;
    ghost var before := flags[..];
    var inst := ir.blocks[b][j];
    var flag := FlagFor(ir, flags, inst.place.base, body, table);
    MarksStay(was, ir.blocks[b], row, before, flags[..], j);
    ir.blocks := ir.blocks[b := ir.blocks[b][j := inst.(flag := flag)]];
  }

  lemma FlagsExtendTransitive(a: Flags, b: Flags, c: Flags)
    requires FlagsExtend(a, b) && FlagsExtend(b, c)
    ensures FlagsExtend(a, c)
  {
  }

  lemma FlagsExtendReflexive(a: Flags)
    ensures FlagsExtend(a, a)
  {
  }

  lemma MarksNothing(was: Block, now: Block, row: seq<Holding>, flags: Flags, j: nat)
    requires MarkedUpTo(was, now, row, flags, j) && j < |was| && !DropsEither(was, row, j)
    ensures MarkedUpTo(was, now, row, flags, j + 1)
  {
  }

  lemma EitherHere(body: Body, table: Table, b: nat, j: nat)
    requires WellFormed(body) && |table| == |body.blocks| && b < |body.blocks| && j < |body.blocks[b]|
    requires DropsEither(body.blocks[b], table[b], j)
    ensures body.blocks[b][j].place.base < |body.values| && SomeDropEither(body, table, body.blocks[b][j].place.base)
  {
    assert InstInRange(body.blocks[b][j], |body.values|);
  }

  method MarkInBlock(ir: Function, b: nat, holds: array<Holding>, flags: array<nat>,
                     ghost body: Body, ghost table: Table)
    requires WellFormed(body) && 2 * |body.values| + 1 < NO_VALUE && Shaped(body, table)
    requires b < |ir.blocks| == |body.blocks| && ir.blocks[b] == body.blocks[b]
    requires holds.Length == Width(body) && holds[..] == table[b]
    requires FlagState(body, table, flags[..], ir.values)
    modifies ir`blocks, ir`values, flags, holds
    ensures FlagState(body, table, flags[..], ir.values) && FlagsExtend(old(flags[..]), flags[..])
    ensures |ir.blocks| == |old(ir.blocks)|
    ensures forall c :: 0 <= c < |ir.blocks| && c != b ==> ir.blocks[c] == old(ir.blocks)[c]
    ensures MarkedUpTo(body.blocks[b], ir.blocks[b], table[b], flags[..], |body.blocks[b]|)
  {
    hide Walked, FlagState, WellFormed, FlagsExtend, SomeDropEither, DropsEither, DropsNothing, Marked;
    ghost var was, row := body.blocks[b], table[b];
    BlockInRange(body, b);
    WalkStarts(was, row);
    FlagsExtendReflexive(flags[..]);
    for j := 0 to |ir.blocks[b]|
      invariant Walked(holds[..], was, j, row)
      invariant FlagState(body, table, flags[..], ir.values) && FlagsExtend(old(flags[..]), flags[..])
      invariant |ir.blocks| == |old(ir.blocks)|
      invariant forall c :: 0 <= c < |ir.blocks| && c != b ==> ir.blocks[c] == old(ir.blocks)[c]
      invariant MarkedUpTo(was, ir.blocks[b], row, flags[..], j)
    {
      var inst := ir.blocks[b][j];
      DropsHere(holds[..], was, j, row);
      if inst.op == Drop && inst.place.base != NO_VALUE && |inst.place.projections| == 0 &&
         holds[inst.place.base] == Either {
        ghost var before := flags[..];
        EitherHere(body, table, b, j);
        MarkDrop(ir, b, j, flags, body, table, was, row);
        FlagsExtendTransitive(old(flags[..]), before, flags[..]);
      } else {
        MarksNothing(was, ir.blocks[b], row, flags[..], j);
      }
      WalkOn(was, inst, j, holds, row);
    }
  }

  /** Gives every drop of a place that may or may not be full the flag of that place. */
  method MarkConditionalDrops(ir: Function, entries: array2<Holding>, flags: array<nat>)
    requires WellFormed(ir.View()) && 2 * |ir.values| + 1 < NO_VALUE
    requires entries.Length0 == |ir.blocks| && entries.Length1 == flags.Length == |ir.values| + 1
    requires forall v :: 0 <= v < flags.Length ==> flags[v] == NO_VALUE
    modifies ir`blocks, ir`values, flags
    ensures FlagState(old(ir.View()), Rows(entries), flags[..], ir.values)
    ensures |ir.blocks| == |old(ir.blocks)|
    ensures forall b :: 0 <= b < |ir.blocks| ==>
              MarkedUpTo(old(ir.blocks)[b], ir.blocks[b], Rows(entries)[b], flags[..], |old(ir.blocks)[b]|)
  {
    ghost var was, body, table := ir.blocks, ir.View(), Rows(entries);
    var holds := new Holding[|ir.values| + 1](v => ItsObject);
    FlagCountBound(flags[..]);
    for b := 0 to |ir.blocks|
      invariant FlagState(body, table, flags[..], ir.values)
      invariant |ir.blocks| == |was|
      invariant forall c :: b <= c < |was| ==> ir.blocks[c] == was[c]
      invariant forall c :: 0 <= c < b ==> MarkedUpTo(was[c], ir.blocks[c], table[c], flags[..], |was[c]|)
    {
      LoadRow(entries, b, holds);
      ghost var before, blocks := flags[..], ir.blocks;
      MarkInBlock(ir, b, holds, flags, body, table);
      forall c | 0 <= c < b
        ensures MarkedUpTo(was[c], ir.blocks[c], table[c], flags[..], |was[c]|)
      {
        MarksStay(was[c], blocks[c], table[c], before, flags[..], |was[c]|);
      }
    }
  }

  lemma NoFlagWrites(flags: Flags)
    ensures WithFlagWrites([], flags) == []
  {
  }

  lemma FlagWritesGrow(seen: seq<Inst>, next: Inst, flags: Flags)
    ensures WithFlagWrites(seen + [next], flags) == WithFlagWrites(seen, flags) + WithFlagWrite(next, flags)
  {
    assert (seen + [next])[..|seen|] == seen;
  }

  predicate FlagsCover(block: Block, flags: Flags) {
    forall i :: 0 <= i < |block| ==> NamesWhole(block[i]) ==> block[i].place.base < |flags|
  }

  method WriteDropFlagsInBlock(ir: Function, b: nat, flags: array<nat>)
    requires b < |ir.blocks| && FlagsCover(ir.blocks[b], flags[..])
    modifies ir`blocks
    ensures ir.blocks == old(ir.blocks)[b := WithFlagWrites(old(ir.blocks[b]), flags[..])]
  {
    hide WithFlagWrites;
    ghost var seen: seq<Inst>, rest, f := [], ir.blocks[b], flags[..];
    var j := 0;
    NoFlagWrites(f);
    Edges(WithFlagWrites(seen, f), rest);
    while j < |ir.blocks[b]|
      invariant ir.blocks == old(ir.blocks)[b := WithFlagWrites(seen, f) + rest]
      invariant seen + rest == old(ir.blocks[b]) && j == |WithFlagWrites(seen, f)|
      decreases |rest|
    {
      var inst := ir.blocks[b][j];
      assert inst == old(ir.blocks[b])[|seen|];
      FlagWritesGrow(seen, inst, f);
      if NamesWhole(inst) && flags[inst.place.base] != NO_VALUE && inst.op in {Store, StorageInit, Null} {
        var held := inst.op == Store || inst.op == StorageInit;
        var write := FlagWrite(inst, flags[inst.place.base], held);
        InsertBehind(WithFlagWrites(seen, f), rest, write);
        ir.InsertAt(b, j + 1, write);
        j := j + 2;
      } else {
        StepOver(WithFlagWrites(seen, f), rest);
        j := j + 1;
      }
      StepOver(seen, rest);
      seen, rest := seen + [inst], rest[1..];
    }
    Edges(seen, rest);
    Edges(WithFlagWrites(seen, f), rest);
  }

  /** Writes each flag where the place it answers for is filled or emptied. */
  method WriteDropFlags(ir: Function, flags: array<nat>)
    requires forall b :: 0 <= b < |ir.blocks| ==> FlagsCover(ir.blocks[b], flags[..])
    modifies ir`blocks
    ensures |ir.blocks| == |old(ir.blocks)|
    ensures forall b :: 0 <= b < |ir.blocks| ==> ir.blocks[b] == WithFlagWrites(old(ir.blocks)[b], flags[..])
  {
    for b := 0 to |ir.blocks|
      invariant |ir.blocks| == |old(ir.blocks)|
      invariant forall c :: 0 <= c < b ==> ir.blocks[c] == WithFlagWrites(old(ir.blocks)[c], flags[..])
      invariant forall c :: b <= c < |ir.blocks| ==> ir.blocks[c] == old(ir.blocks)[c]
    {
      WriteDropFlagsInBlock(ir, b, flags);
    }
  }

  lemma StripGrows(seen: seq<Inst>, next: Inst, flags: Flags)
    ensures WithoutFlaggedNulls(seen + [next], flags) ==
            if IsFlaggedNull(next, flags) then WithoutFlaggedNulls(seen, flags)
            else WithoutFlaggedNulls(seen, flags) + [next]
  {
    assert (seen + [next])[..|seen|] == seen;
  }

  lemma RemoveFront(front: seq<Inst>, rest: seq<Inst>)
    requires |rest| > 0
    ensures var all := front + rest;
            all[..|front|] + all[|front| + 1..] == front + rest[1..]
  {
  }

  method RemoveFlaggedNullsInBlock(ir: Function, b: nat, flags: array<nat>)
    requires b < |ir.blocks| && FlagsCover(ir.blocks[b], flags[..])
    modifies ir`blocks
    ensures ir.blocks == old(ir.blocks)[b := WithoutFlaggedNulls(old(ir.blocks[b]), flags[..])]
  {
    ghost var seen: seq<Inst>, rest, f := [], ir.blocks[b], flags[..];
    var j := 0;
    Edges(WithoutFlaggedNulls(seen, f), rest);
    while j < |ir.blocks[b]|
      invariant ir.blocks == old(ir.blocks)[b := WithoutFlaggedNulls(seen, f) + rest]
      invariant seen + rest == old(ir.blocks[b]) && j == |WithoutFlaggedNulls(seen, f)|
      decreases |rest|
    {
      var inst := ir.blocks[b][j];
      assert inst == old(ir.blocks[b])[|seen|];
      StripGrows(seen, inst, f);
      if inst.op == Null && NamesWhole(inst) && flags[inst.place.base] != NO_VALUE {
        RemoveFront(WithoutFlaggedNulls(seen, f), rest);
        ir.RemoveAt(b, j);
      } else {
        StepOver(WithoutFlaggedNulls(seen, f), rest);
        j := j + 1;
      }
      StepOver(seen, rest);
      seen, rest := seen + [inst], rest[1..];
    }
    Edges(seen, rest);
    Edges(WithoutFlaggedNulls(seen, f), rest);
  }

  /** Removes the `Null`s of flagged places: their flags say as much. */
  method RemoveFlaggedNulls(ir: Function, flags: array<nat>)
    requires forall b :: 0 <= b < |ir.blocks| ==> FlagsCover(ir.blocks[b], flags[..])
    modifies ir`blocks
    ensures |ir.blocks| == |old(ir.blocks)|
    ensures forall b :: 0 <= b < |ir.blocks| ==>
              ir.blocks[b] == WithoutFlaggedNulls(old(ir.blocks)[b], flags[..])
  {
    for b := 0 to |ir.blocks|
      invariant |ir.blocks| == |old(ir.blocks)|
      invariant forall c :: 0 <= c < b ==> ir.blocks[c] == WithoutFlaggedNulls(old(ir.blocks)[c], flags[..])
      invariant forall c :: b <= c < |ir.blocks| ==> ir.blocks[c] == old(ir.blocks)[c]
    {
      RemoveFlaggedNullsInBlock(ir, b, flags);
    }
  }

  // ----- the whole elaboration -----

  lemma {:induction false} NulledComesFrom(insts: seq<Inst>, inst: Inst)
    requires inst in Nulled(insts)
    ensures inst in insts || exists move :: move in insts && MovesOwned(move) && inst == NullAfter(move)
  {
    if inst in Nulled(insts[..|insts| - 1]) {
      NulledComesFrom(insts[..|insts| - 1], inst);
    }
  }

  lemma NulledInRange(block: Block, values: nat)
    requires FlagFree(block) && forall i :: 0 <= i < |block| ==> InstInRange(block[i], values)
    ensures FlagFree(Nulled(block)) && forall i :: 0 <= i < |Nulled(block)| ==> InstInRange(Nulled(block)[i], values)
  {
    var nulled := Nulled(block);
    forall i | 0 <= i < |nulled|
      ensures InstInRange(nulled[i], values) && nulled[i].op != DropFlag && nulled[i].flag == NO_VALUE
    {
      NulledComesFrom(block, nulled[i]);
    }
  }

  lemma NulledWellFormed(block: Block, blocks: nat, values: nat)
    requires WellFormedBlock(block, blocks, values) && FlagFree(block)
    ensures WellFormedBlock(Nulled(block), blocks, values) && FlagFree(Nulled(block))
    ensures Successors(Nulled(block)) == Successors(block)
  {
    NulledInRange(block, values);
    NulledLeaves(block);
  }

  lemma MoveLeavesNothing(inst: Inst)
    ensures MovesOwned(inst) ==>
              !IsTerminator(inst.op) && Successors([inst, NullAfter(inst)]) == Successors([inst])
  {
  }

  lemma NulledLeaves(block: Block)
    requires OnlyEndsLeave(block)
    ensures OnlyEndsLeave(Nulled(block)) && Successors(Nulled(block)) == Successors(block)
  {
    hide MovesOwned;
    var nulled := Nulled(block);
    if |block| > 0 {
      var n := |block| - 1;
      var init := Nulled(block[..n]);
      forall i | 0 <= i < |init| ensures !IsTerminator(init[i].op) {
        NulledComesFrom(block[..n], init[i]);
      }
      var end := if MovesOwned(block[n]) then [block[n], NullAfter(block[n])] else [block[n]];
      assert nulled == init + end;
      MoveLeavesNothing(block[n]);
      SameEnd(init, end, block[..n], block[n]);
      assert block == block[..n] + [block[n]];
    }
  }

  lemma NulledBodyWellFormed(body: Body)
    requires WellFormed(body) && FlagFreeBody(body)
    ensures WellFormed(NulledBody(body)) && FlagFreeBody(NulledBody(body))
    ensures forall from: nat, to: nat :: Edge(NulledBody(body), from, to) <==> Edge(body, from, to)
  {
    forall b | 0 <= b < |body.blocks|
      ensures var nulled := Nulled(body.blocks[b]);
              && WellFormedBlock(nulled, |body.blocks|, |body.values|) && FlagFree(nulled)
              && Successors(nulled) == Successors(body.blocks[b])
    {
      NulledWellFormed(body.blocks[b], |body.blocks|, |body.values|);
    }
  }

  lemma MarkedIsBlock(was: Block, now: Block, row: seq<Holding>, flags: Flags)
    requires MarkedUpTo(was, now, row, flags, |was|)
    ensures now == MarkedBlock(was, row, flags)
  {
  }

  lemma CoverKept(block: Block, row: seq<Holding>, flags: Flags)
    requires InRange(block, |flags|)
    ensures FlagsCover(MarkedBlock(block, row, flags), flags)
  {
  }

  lemma {:induction false} WritesCover(insts: seq<Inst>, flags: Flags)
    requires FlagsCover(insts, flags)
    ensures FlagsCover(WithFlagWrites(insts, flags), flags)
  {
    if |insts| > 0 {
      WritesCover(insts[..|insts| - 1], flags);
    }
  }

  lemma FlagsComplete(body: Body, table: Table, flags: Flags, values: seq<Type>)
    requires |table| == |body.blocks| && FlagState(body, table, flags, values)
    requires 2 * |body.values| + 1 < NO_VALUE
    requires forall b :: 0 <= b < |body.blocks| ==> Flagged(body.blocks[b], table[b], flags)
    ensures FlagsFit(body, table, flags)
  {
    FlagCountBound(flags);
  }

  /** Puts every ambiguous drop behind a flag. */
  method GuardConditionalDrops(ir: Function) returns (ghost table: Table, ghost flags: Flags)
    requires WellFormed(ir.View()) && 2 * |ir.values| + 1 < NO_VALUE
    modifies ir`blocks, ir`values
    ensures Settled(old(ir.View()), table)
    ensures FlagsFit(old(ir.View()), table, flags)
    ensures ir.View() == GuardedBody(old(ir.View()), table, flags, ir.values)
  {
    ghost var body := ir.View();
    var entries := EntryHoldings(ir);
    table := Rows(entries);
    var given := new nat[|ir.values| + 1](v => NO_VALUE);
    MarkConditionalDrops(ir, entries, given);
    flags := given[..];
    FlagsComplete(body, table, flags, ir.values);
    forall b | 0 <= b < |body.blocks|
      ensures ir.blocks[b] == MarkedBlock(body.blocks[b], table[b], flags)
      ensures FlagsCover(ir.blocks[b], flags)
      ensures FlagsCover(WithFlagWrites(ir.blocks[b], flags), flags)
    {
      MarkedIsBlock(body.blocks[b], ir.blocks[b], table[b], flags);
      BlockInRange(body, b);
      CoverKept(body.blocks[b], table[b], flags);
      WritesCover(ir.blocks[b], flags);
    }
    WriteDropFlags(ir, given);
    RemoveFlaggedNulls(ir, given);
  }

  /** Drop elaboration, except that it does not model the release of what a store overwrites. On every path
      the new body releases what the original one means, in the same order, exactly if each flagged drop on
      the path comes after an event on its place. */
  method ElaborateDrops(ir: Function) returns (ghost table: Table, ghost flags: Flags)
    requires WellFormed(ir.View()) && FlagFreeBody(ir.View()) && 2 * |ir.values| + 1 < NO_VALUE
    modifies ir`blocks, ir`values
    ensures var nulled := NulledBody(old(ir.View()));
            && WellFormed(nulled) && FlagFreeBody(nulled) && Settled(nulled, table)
            && FlagsFit(KeptBody(nulled, table), table, flags)
            && ir.View() == Elaborated(nulled, table, flags, ir.values)
    ensures forall path :: IsPath(old(ir.View()), path) ==>
              && IsPath(ir.View(), path)
              && ((MachinePath(ir.View(), path).released == OwnPath(old(ir.View()), path).released)
                  == Covered(KeptBody(NulledBody(old(ir.View())), table), table, path))
  {
    ghost var body, nulled := ir.View(), NulledBody(ir.View());
    NulledBodyWellFormed(body);
    InsertNulls(ir);
    table := DropReleasesOfEmptiedPlaces(ir);
    KeptBodyWellFormed(nulled, table);
    KeptSettles(nulled, table);
    ghost var again;
    again, flags := GuardConditionalDrops(ir);
    SettledIsUnique(KeptBody(nulled, table), again, table);
    forall path | IsPath(body, path)
      ensures IsPath(ir.View(), path)
      ensures MachinePath(ir.View(), path).released == OwnPath(body, path).released <==>
                Covered(KeptBody(nulled, table), table, path)
    {
      SamePaths(body, nulled, path);
      NulledKeepsMeaning(body, path);
      ElaborationPreservesReleases(nulled, table, flags, ir.values, path);
    }
  }
}
