/** The solver loop of drop elaboration, over tables filled in place. */
module DropSolver {
  import opened Options
  import opened Mir
  import opened Functions
  import opened DropFlow

  ghost function Rows(table: array2<Holding>): (rows: Table)
    reads table
    ensures |rows| == table.Length0
    ensures forall t :: 0 <= t < |rows| ==> |rows[t]| == table.Length1
    ensures forall t, v :: 0 <= t < table.Length0 && 0 <= v < table.Length1 ==> rows[t][v] == table[t, v]
  {
    seq(table.Length0, t requires 0 <= t < table.Length0 reads table =>
      seq(table.Length1, v requires 0 <= v < table.Length1 reads table => table[t, v]))
  }

  function AfterEvent(inst: Inst, v: nat, before: Holding): Holding {
    match EventOf(inst, v)
    case None => before
    case Some(held) => HoldingOf(held)
  }

  method TakeEvent(inst: Inst, holds: array<Holding>)
    requires NamesWhole(inst) ==> inst.place.base < holds.Length
    modifies holds
    ensures forall v :: 0 <= v < holds.Length ==> holds[v] == AfterEvent(inst, v, old(holds[v]))
  {
    if !HasPlace(inst.op) || inst.place.base == NO_VALUE || |inst.place.projections| != 0 {
      return;
    }
    if inst.op == Null {
      holds[inst.place.base] := Nothing;
    } else if inst.op == Store || inst.op == StorageInit {
      holds[inst.place.base] := ItsObject;
    }
  }

  lemma OneMore(block: Block, j: nat, v: nat, before: Holding)
    requires j < |block|
    ensures HoldsAfter(block[..j + 1], v, before) ==
            AfterEvent(block[j], v, HoldsAfter(block[..j], v, before))
  {
    assert block[..j + 1][..j] == block[..j];
  }

  method WalkBlock(block: Block, holds: array<Holding>)
    requires forall j :: 0 <= j < |block| ==> NamesWhole(block[j]) ==> block[j].place.base < holds.Length
    modifies holds
    ensures forall v :: 0 <= v < holds.Length ==> holds[v] == HoldsAfter(block, v, old(holds[v]))
  {
    for j := 0 to |block|
      invariant forall v :: 0 <= v < holds.Length ==> holds[v] == HoldsAfter(block[..j], v, old(holds[v]))
    {
      TakeEvent(block[j], holds);
      forall v | 0 <= v < holds.Length ensures holds[v] == HoldsAfter(block[..j + 1], v, old(holds[v])) {
        OneMore(block, j, v, old(holds[v]));
      }
    }
    assert block[..|block|] == block;
  }

  method LoadRow(table: array2<Holding>, t: nat, holds: array<Holding>)
    requires t < table.Length0 && holds.Length == table.Length1
    modifies holds
    ensures forall v :: 0 <= v < holds.Length ==> holds[v] == table[t, v]
  {
    for v := 0 to holds.Length
      invariant forall w :: 0 <= w < v ==> holds[w] == table[t, w]
    {
      holds[v] := table[t, v];
    }
  }

  function Received(reached: bool, had: Holding, handed: Holding): Holding {
    if reached then Merge(had, handed) else handed
  }

  /** Hands one block's exit row to one successor. */
  method HandTo(next: array2<Holding>, reached: array<bool>, target: nat, exit: array<Holding>)
    requires target < next.Length0 == reached.Length && exit.Length == next.Length1
    modifies next, reached
    ensures reached[target]
    ensures forall t :: 0 <= t < reached.Length && t != target ==> reached[t] == old(reached[t])
    ensures forall t, v :: 0 <= t < next.Length0 && 0 <= v < next.Length1 ==>
              next[t, v] == if t == target then Received(old(reached[t]), old(next[t, v]), exit[v])
                            else old(next[t, v])
  {
    for v := 0 to exit.Length
      invariant forall t, w :: 0 <= t < next.Length0 && 0 <= w < next.Length1 ==>
                  next[t, w] == if t == target && w < v
                                then Received(old(reached[t]), old(next[t, w]), exit[w])
                                else old(next[t, w])
      invariant unchanged(reached)
    {
      next[target, v] := if reached[target] then Merge(next[target, v], exit[v]) else exit[v];
    }
    reached[target] := true;
  }

  ghost predicate Holds(incoming: Option<Holding>, reached: bool, h: Holding) {
    if reached then incoming == Some(h) else incoming.None? && h == ItsObject
  }

  ghost predicate Collected(body: Body, table: Table, next: array2<Holding>, reached: array<bool>, b: nat)
    requires Shaped(body, table) && b <= |body.blocks|
    requires next.Length0 == reached.Length == |body.blocks| && next.Length1 == Width(body)
    reads next, reached
  {
    forall t, v :: 0 <= t < next.Length0 && 0 <= v < next.Length1 ==>
      Holds(Incoming(body, table, t, v, b), reached[t], next[t, v])
  }

  method Clear(next: array2<Holding>, reached: array<bool>, entry: nat)
    requires entry < reached.Length == next.Length0
    modifies next, reached
    ensures forall t :: 0 <= t < reached.Length ==> reached[t] == (t == entry)
    ensures forall t, v :: 0 <= t < next.Length0 && 0 <= v < next.Length1 ==> next[t, v] == ItsObject
  {
    for t := 0 to next.Length0
      invariant forall u :: 0 <= u < t ==> !reached[u]
      invariant forall u, v :: 0 <= u < t && 0 <= v < next.Length1 ==> next[u, v] == ItsObject
    {
      reached[t] := false;
      for v := 0 to next.Length1
        invariant forall u, w :: 0 <= u < t && 0 <= w < next.Length1 ==> next[u, w] == ItsObject
        invariant forall w :: 0 <= w < v ==> next[t, w] == ItsObject
        invariant forall u :: 0 <= u <= t ==> !reached[u]
      {
        next[t, v] := ItsObject;
      }
    }
    reached[entry] := true;
  }

  ghost predicate FitsTables(ir: Function, entries: array2<Holding>, next: array2<Holding>,
                             reached: array<bool>, exit: array<Holding>)
    reads ir
  {
    && entries != next
    && entries.Length0 == next.Length0 == reached.Length == |ir.blocks|
    && entries.Length1 == next.Length1 == exit.Length == |ir.values| + 1
  }

  /** Hands the exit row of block `b` on to each of its successors. */
  method HandOn(ir: Function, ghost table: Table, b: nat, next: array2<Holding>,
                reached: array<bool>, exit: array<Holding>)
    requires WellFormed(ir.View()) && Shaped(ir.View(), table) && b < |ir.blocks|
    requires next.Length0 == reached.Length == |ir.blocks|
    requires next.Length1 == exit.Length == |ir.values| + 1
    requires forall v :: 0 <= v < exit.Length ==> exit[v] == HoldsAfter(ir.blocks[b], v, table[b][v])
    requires Collected(ir.View(), table, next, reached, b)
    modifies next, reached
    ensures Collected(ir.View(), table, next, reached, b + 1)
  {
    var successors := Successors(ir.blocks[b]);
    ghost var body := ir.View();
    forall t, v | 0 <= t < next.Length0 && 0 <= v < next.Length1
      ensures Incoming(body, table, t, v, b + 1) ==
                if t in successors then
                  var rest := Incoming(body, table, t, v, b);
                  Some(if rest.None? then exit[v] else Merge(rest.value, exit[v]))
                else Incoming(body, table, t, v, b)
    {
      assert Edge(body, b, t) <==> t in successors;
    }
    for s := 0 to |successors|
      invariant forall t, v :: 0 <= t < next.Length0 && 0 <= v < next.Length1 ==>
                  Holds(Incoming(body, table, t, v, if t in successors[..s] then b + 1 else b),
                        reached[t], next[t, v])
    {
      var target := successors[s];
      assert successors[..s + 1] == successors[..s] + [target];
      assert WellFormedBlock(body.blocks[b], |body.blocks|, |body.values|) && target in successors;
      HandTo(next, reached, target, exit);
    }
    assert successors[..|successors|] == successors;
  }

  /** One round: fills `next` with what `entries` leads to. */
  method SolveRound(ir: Function, entries: array2<Holding>, next: array2<Holding>,
                    reached: array<bool>, exit: array<Holding>)
    requires WellFormed(ir.View()) && FitsTables(ir, entries, next, reached, exit)
    modifies next, reached, exit
    ensures Rows(next) == Advance(ir.View(), Rows(entries))
  {
    Clear(next, reached, ir.entry);
    ghost var body, table := ir.View(), Rows(entries);
    for b := 0 to |ir.blocks|
      invariant Collected(body, table, next, reached, b)
    {
      LoadRow(entries, b, exit);
      WalkBlock(ir.blocks[b], exit);
      HandOn(ir, table, b, next, reached, exit);
    }
    forall t | 0 <= t < |ir.blocks| ensures Rows(next)[t] == Advance(body, table)[t] {
      forall v | 0 <= v < Width(body) ensures Rows(next)[t][v] == Advance(body, table)[t][v] {
        assert Holds(Incoming(body, table, t, v, |ir.blocks|), reached[t], next[t, v]);
      }
    }
  }

  /** Copies `next` over `entries`, and says whether anything differed. */
  method CopyOver(next: array2<Holding>, entries: array2<Holding>) returns (changed: bool)
    requires next != entries && next.Length0 == entries.Length0 && next.Length1 == entries.Length1
    modifies entries
    ensures changed == (Rows(next) != old(Rows(entries)))
    ensures Rows(entries) == Rows(next)
  {
    changed := false;
    ghost var before := Rows(entries);
    for t := 0 to next.Length0
      invariant forall u, v :: 0 <= u < next.Length0 && 0 <= v < next.Length1 ==>
                  entries[u, v] == if u < t then next[u, v] else old(entries[u, v])
      invariant changed <==> exists u, v :: 0 <= u < t && 0 <= v < next.Length1 && next[u, v] != before[u][v]
    {
      for v := 0 to next.Length1
        invariant forall u, w :: 0 <= u < next.Length0 && 0 <= w < next.Length1 ==>
                    entries[u, w] == if u < t || (u == t && w < v) then next[u, w] else old(entries[u, w])
        invariant changed <==> exists u, w :: 0 <= u < next.Length0 && 0 <= w < next.Length1 &&
                                              (u < t || (u == t && w < v)) && next[u, w] != before[u][w]
      {
        if entries[t, v] != next[t, v] {
          changed := true;
          assert next[t, v] != before[t][v];
        }
        entries[t, v] := next[t, v];
      }
    }
    assert Rows(entries) == Rows(next) by {
      assert forall t :: 0 <= t < next.Length0 ==> Rows(entries)[t] == Rows(next)[t];
    }
    if changed {
      ghost var u, v :| 0 <= u < next.Length0 && 0 <= v < next.Length1 && next[u, v] != before[u][v];
      assert Rows(next)[u][v] != before[u][v];
    } else {
      assert forall t :: 0 <= t < next.Length0 ==> Rows(next)[t] == before[t];
    }
  }

  /** Solves what every place holds at the entry of every block. */
  method EntryHoldings(ir: Function) returns (entries: array2<Holding>)
    requires WellFormed(ir.View())
    ensures fresh(entries)
    ensures entries.Length0 == |ir.blocks| && entries.Length1 == |ir.values| + 1
    ensures Settled(ir.View(), Rows(entries))
  {
    var width := |ir.values| + 1;
    entries := new Holding[|ir.blocks|, width]((t, v) => ItsObject);
    var next := new Holding[|ir.blocks|, width]((t, v) => ItsObject);
    var exit := new Holding[width](v => ItsObject);
    var reached := new bool[|ir.blocks|](t => false);

    ghost var body, k := ir.View(), 0;
    assert Rows(entries) == Round(body, 0) by {
      assert forall t :: 0 <= t < |body.blocks| ==> Rows(entries)[t] == Start(body)[t];
    }
    var changed := true;
    while changed
      invariant FitsTables(ir, entries, next, reached, exit)
      invariant Rows(entries) == Round(body, k)
      invariant !changed ==> Stable(body, Rows(entries))
      decreases Potential(body, k), if changed then 1 else 0
    {
      SolveRound(ir, entries, next, reached, exit);
      assert Rows(next) == Round(body, k + 1);
      changed := CopyOver(next, entries);
      if changed {
        RoundProgress(body, k);
        k := k + 1;
      }
    }
  }
}
