/** What each place holds at the entry of each block, as drop elaboration solves it: a forward
    dataflow that starts every place as holding its object and recomputes the whole table until
    it stops changing. The tables it visits do not climb, so that it stops needs an argument. */
module DropFlow {
  import opened Options
  import opened Mir

  datatype Holding = ItsObject | Nothing | Either

  function Merge(a: Holding, b: Holding): Holding {
    if a == b then a else Either
  }

  /** May a place described by `h` hold its object (`held`), or nothing (`!held`)? */
  predicate Allows(h: Holding, held: bool) {
    h.Either? || h.ItsObject? == held
  }

  /** The value whose whole place the instruction names, if any. */
  predicate NamesWhole(inst: Inst) {
    HasPlace(inst.op) && inst.place.base != NO_VALUE && |inst.place.projections| == 0
  }

  /** Does the instruction fill (`true`) or empty (`false`) the place of `v`? */
  function EventOf(inst: Inst, v: nat): Option<bool> {
    if !NamesWhole(inst) || inst.place.base != v then None
    else if inst.op == Null then Some(false)
    else if inst.op == Store || inst.op == StorageInit then Some(true)
    else None
  }

  function LastEvent(insts: seq<Inst>, v: nat): Option<bool> {
    if |insts| == 0 then None
    else
      var event := EventOf(insts[|insts| - 1], v);
      if event.Some? then event else LastEvent(insts[..|insts| - 1], v)
  }

  function HoldingOf(held: bool): Holding {
    if held then ItsObject else Nothing
  }

  function HoldsAfter(insts: seq<Inst>, v: nat, before: Holding): Holding {
    match LastEvent(insts, v)
    case None => before
    case Some(held) => HoldingOf(held)
  }

  type Table = seq<seq<Holding>>

  function Width(body: Body): nat {
    |body.values| + 1
  }

  ghost predicate Shaped(body: Body, table: Table) {
    && |table| == |body.blocks|
    && forall t :: 0 <= t < |table| ==> |table[t]| == Width(body)
  }

  /** What the entry edge and the blocks below `b` hand to block `t` for value `v`. */
  ghost function Incoming(body: Body, table: Table, t: nat, v: nat, b: nat): Option<Holding>
    requires Shaped(body, table) && v < Width(body) && b <= |body.blocks|
  {
    if b == 0 then
      if t == body.entry then Some(ItsObject) else None
    else
      var rest := Incoming(body, table, t, v, b - 1);
      if !Edge(body, b - 1, t) then rest
      else
        var handed := HoldsAfter(body.blocks[b - 1], v, table[b - 1][v]);
        Some(if rest.None? then handed else Merge(rest.value, handed))
  }

  ghost function NextHolding(body: Body, table: Table, t: nat, v: nat): Holding
    requires Shaped(body, table) && v < Width(body)
  {
    var incoming := Incoming(body, table, t, v, |body.blocks|);
    if incoming.None? then ItsObject else incoming.value
  }

  /** One round of the solver: the table it computes from `table`. */
  ghost function Advance(body: Body, table: Table): (next: Table)
    requires Shaped(body, table)
    ensures Shaped(body, next)
  {
    seq(|body.blocks|, t requires 0 <= t < |body.blocks| =>
      seq(Width(body), v requires 0 <= v < Width(body) => NextHolding(body, table, t, v)))
  }

  ghost function Start(body: Body): (table: Table)
    ensures Shaped(body, table)
  {
    seq(|body.blocks|, t => seq(Width(body), v => ItsObject))
  }

  ghost function Round(body: Body, k: nat): (table: Table)
    ensures Shaped(body, table)
  {
    if k == 0 then Start(body) else Advance(body, Round(body, k - 1))
  }

  ghost predicate Stable(body: Body, table: Table) {
    Shaped(body, table) && Advance(body, table) == table
  }

  /** The table the solver returns: a round that the next round repeats. */
  ghost predicate Settled(body: Body, table: Table) {
    Stable(body, table) && exists k: nat :: table == Round(body, k)
  }

  // ----- what one round means -----

  ghost predicate Reaches(body: Body, table: Table, t: nat, v: nat, held: bool, b: nat)
    requires Shaped(body, table) && v < Width(body) && b <= |body.blocks|
  {
    || (t == body.entry && held)
    || exists p: nat :: p < b && Edge(body, p, t) && Allows(HoldsAfter(body.blocks[p], v, table[p][v]), held)
  }

  ghost predicate HasEdgeBelow(body: Body, t: nat, b: nat) {
    exists p: nat :: p < b && Edge(body, p, t)
  }

  lemma {:induction false} IncomingExists(body: Body, table: Table, t: nat, v: nat, b: nat)
    requires Shaped(body, table) && v < Width(body) && b <= |body.blocks|
    ensures Incoming(body, table, t, v, b).None? <==> t != body.entry && !HasEdgeBelow(body, t, b)
  {
    if b > 0 {
      IncomingExists(body, table, t, v, b - 1);
      assert HasEdgeBelow(body, t, b) <==> (HasEdgeBelow(body, t, b - 1) || Edge(body, b - 1, t));
    }
  }

  lemma {:induction false} IncomingMeans(body: Body, table: Table, t: nat, v: nat, held: bool, b: nat)
    requires Shaped(body, table) && v < Width(body) && b <= |body.blocks|
    ensures var incoming := Incoming(body, table, t, v, b);
            (incoming.Some? && Allows(incoming.value, held)) <==> Reaches(body, table, t, v, held, b)
  {
    if b > 0 {
      IncomingMeans(body, table, t, v, held, b - 1);
      ghost var more := Edge(body, b - 1, t) && Allows(HoldsAfter(body.blocks[b - 1], v, table[b - 1][v]), held);
      assert Reaches(body, table, t, v, held, b) <==> (Reaches(body, table, t, v, held, b - 1) || more);
    }
  }

  ghost predicate Orphan(body: Body, t: nat) {
    t != body.entry && !HasEdgeBelow(body, t, |body.blocks|)
  }

  lemma AdvanceMeans(body: Body, table: Table, t: nat, v: nat, held: bool)
    requires Shaped(body, table) && t < |body.blocks| && v < Width(body)
    ensures Allows(Advance(body, table)[t][v], held) <==>
              if Orphan(body, t) then held else Reaches(body, table, t, v, held, |body.blocks|)
  {
    IncomingExists(body, table, t, v, |body.blocks|);
    IncomingMeans(body, table, t, v, held, |body.blocks|);
  }

  // ----- why the solver stops -----
  //
  // Round k is the union of two parts. `Arrived` is what events (and the entry and orphan blocks)
  // send along at most k event-free steps: it only grows. `Untraced` says which blocks end an
  // event-free walk of exactly k steps, along which the initial guess survives: it only shrinks.

  ghost predicate Sent(body: Body, arrived: set<(nat, nat, bool)>, t: nat, v: nat, held: bool) {
    || (held && (t == body.entry || Orphan(body, t)))
    || exists p: nat :: Edge(body, p, t) &&
         match LastEvent(body.blocks[p], v)
         case Some(last) => last == held
         case None => (p, v, held) in arrived
  }

  ghost predicate Walked(body: Body, untraced: set<(nat, nat)>, t: nat, v: nat) {
    exists p: nat :: Edge(body, p, t) && LastEvent(body.blocks[p], v).None? && (p, v) in untraced
  }

  ghost function Arrivals(body: Body): set<(nat, nat, bool)> {
    set t: nat, v: nat, held: bool | t < |body.blocks| && v < Width(body) :: (t, v, held)
  }

  ghost function Cells(body: Body): set<(nat, nat)> {
    set t: nat, v: nat | t < |body.blocks| && v < Width(body) :: (t, v)
  }

  ghost function Spread(body: Body, arrived: set<(nat, nat, bool)>): (next: set<(nat, nat, bool)>)
    ensures next <= Arrivals(body)
  {
    set cell | cell in Arrivals(body) && Sent(body, arrived, cell.0, cell.1, cell.2)
  }

  ghost function Retreat(body: Body, untraced: set<(nat, nat)>): (next: set<(nat, nat)>)
    ensures next <= Cells(body)
  {
    set cell | cell in Cells(body) && Walked(body, untraced, cell.0, cell.1)
  }

  ghost function Arrived(body: Body, k: nat): (arrived: set<(nat, nat, bool)>)
    ensures arrived <= Arrivals(body)
  {
    if k == 0 then {} else Spread(body, Arrived(body, k - 1))
  }

  ghost function Untraced(body: Body, k: nat): (untraced: set<(nat, nat)>)
    ensures untraced <= Cells(body)
  {
    if k == 0 then Cells(body) else Retreat(body, Untraced(body, k - 1))
  }

  lemma SpreadGrows(body: Body, few: set<(nat, nat, bool)>, many: set<(nat, nat, bool)>)
    requires few <= many
    ensures Spread(body, few) <= Spread(body, many)
  {
  }

  lemma RetreatGrows(body: Body, few: set<(nat, nat)>, many: set<(nat, nat)>)
    requires few <= many
    ensures Retreat(body, few) <= Retreat(body, many)
  {
  }

  lemma {:induction false} ArrivedGrows(body: Body, k: nat)
    ensures Arrived(body, k) <= Arrived(body, k + 1)
  {
    if k > 0 {
      ArrivedGrows(body, k - 1);
      var earlier, later := Arrived(body, k - 1), Arrived(body, k);
      SpreadGrows(body, earlier, later);
      assert Arrived(body, k + 1) == Spread(body, later);
    }
  }

  lemma {:induction false} UntracedShrinks(body: Body, k: nat)
    ensures Untraced(body, k + 1) <= Untraced(body, k)
  {
    var next := Untraced(body, k + 1);
    if k == 0 {
      assert next <= Cells(body);
    } else {
      UntracedShrinks(body, k - 1);
      var later, earlier := Untraced(body, k), Untraced(body, k - 1);
      assert later == Retreat(body, earlier);
      assert next <= later by {
        RetreatGrows(body, later, earlier);
        assert next == Retreat(body, later);
      }
    }
  }

  ghost predicate Joined(table: Table, arrived: set<(nat, nat, bool)>, untraced: set<(nat, nat)>,
                         t: nat, v: nat, held: bool)
    requires t < |table| && v < |table[t]|
  {
    Allows(table[t][v], held) <==> ((t, v, held) in arrived || (held && (t, v) in untraced))
  }

  lemma AdvanceJoins(body: Body, table: Table, arrived: set<(nat, nat, bool)>, untraced: set<(nat, nat)>,
                     t: nat, v: nat, held: bool)
    requires Shaped(body, table) && t < |body.blocks| && v < Width(body)
    requires forall p: nat :: p < |body.blocks| ==> Joined(table, arrived, untraced, p, v, held)
    ensures Allows(Advance(body, table)[t][v], held) <==>
              (Sent(body, arrived, t, v, held) || (held && Walked(body, untraced, t, v)))
  {
    AdvanceMeans(body, table, t, v, held);
    if Orphan(body, t) {
      forall p: nat ensures !Edge(body, p, t) {
        assert p < |body.blocks| ==> !HasEdgeBelow(body, t, |body.blocks|);
      }
      return;
    }
    forall p: nat | Edge(body, p, t)
      ensures Allows(HoldsAfter(body.blocks[p], v, table[p][v]), held) <==>
                match LastEvent(body.blocks[p], v)
                case Some(last) => last == held
                case None => (p, v, held) in arrived || (held && (p, v) in untraced)
    {
      assert Joined(table, arrived, untraced, p, v, held);
    }
  }

  /** Each round is exactly its arrivals together with its untraced cells. */
  lemma {:induction false} RoundMeans(body: Body, k: nat, t: nat, v: nat, held: bool)
    requires t < |body.blocks| && v < Width(body)
    ensures Joined(Round(body, k), Arrived(body, k), Untraced(body, k), t, v, held)
    decreases k
  {
    assert (t, v, held) in Arrivals(body) && (t, v) in Cells(body);
    if k > 0 {
      var table, arrived, untraced := Round(body, k - 1), Arrived(body, k - 1), Untraced(body, k - 1);
      forall p: nat | p < |body.blocks| ensures Joined(table, arrived, untraced, p, v, held) {
        RoundMeans(body, k - 1, p, v, held);
      }
      AdvanceJoins(body, table, arrived, untraced, t, v, held);
    }
  }

  ghost function Potential(body: Body, k: nat): nat {
    |Arrivals(body) - Arrived(body, k)| + |Untraced(body, k)|
  }

  lemma SmallerSet<T>(small: set<T>, large: set<T>)
    requires small <= large
    ensures |small| <= |large|
    ensures small != large ==> |small| < |large|
  {
    assert |large| == |small| + |large - small| by {
      assert large == small + (large - small);
    }
    if small != large {
      var extra :| extra in large && extra !in small;
      assert extra in large - small;
    }
  }

  /** Every round that changes the table uses up some of a bounded supply. */
  lemma RoundProgress(body: Body, k: nat)
    requires Round(body, k + 1) != Round(body, k)
    ensures Potential(body, k + 1) < Potential(body, k)
  {
    ArrivedGrows(body, k);
    UntracedShrinks(body, k);
    if Arrived(body, k) == Arrived(body, k + 1) && Untraced(body, k) == Untraced(body, k + 1) {
      forall t, v | 0 <= t < |body.blocks| && 0 <= v < Width(body)
        ensures Round(body, k)[t][v] == Round(body, k + 1)[t][v]
      {
        forall held ensures Allows(Round(body, k)[t][v], held) <==> Allows(Round(body, k + 1)[t][v], held) {
          RoundMeans(body, k, t, v, held);
          RoundMeans(body, k + 1, t, v, held);
        }
        assert Allows(Round(body, k)[t][v], true) <==> Allows(Round(body, k + 1)[t][v], true);
        assert Allows(Round(body, k)[t][v], false) <==> Allows(Round(body, k + 1)[t][v], false);
      }
      forall t | 0 <= t < |body.blocks| ensures Round(body, k)[t] == Round(body, k + 1)[t] {
        assert |Round(body, k)[t]| == |Round(body, k + 1)[t]|;
      }
      assert false;
    }
    SmallerSet(Arrivals(body) - Arrived(body, k + 1), Arrivals(body) - Arrived(body, k));
    SmallerSet(Untraced(body, k + 1), Untraced(body, k));
    if Arrived(body, k) != Arrived(body, k + 1) {
      assert Arrivals(body) - Arrived(body, k + 1) != Arrivals(body) - Arrived(body, k) by {
        var extra :| extra in Arrived(body, k + 1) && extra !in Arrived(body, k);
        assert extra in Arrivals(body) - Arrived(body, k);
      }
    }
  }

  /** The solver stops on every body, after at most `Potential(body, 0)` changing rounds. */
  lemma {:induction false} AlwaysSettles(body: Body, k: nat) returns (stop: nat)
    ensures k <= stop <= k + Potential(body, k)
    ensures Settled(body, Round(body, stop))
    decreases Potential(body, k)
  {
    var table := Round(body, k);
    if Advance(body, table) == table {
      stop := k;
    } else {
      RoundProgress(body, k);
      stop := AlwaysSettles(body, k + 1);
    }
  }

  lemma {:induction false} StableStays(body: Body, k: nat, more: nat)
    requires Stable(body, Round(body, k))
    ensures Round(body, k + more) == Round(body, k)
  {
    if more > 0 {
      StableStays(body, k, more - 1);
    }
  }

  /** There is only one settled table. */
  lemma SettledIsUnique(body: Body, one: Table, other: Table)
    requires Settled(body, one) && Settled(body, other)
    ensures one == other
  {
    var j: nat :| one == Round(body, j);
    var k: nat :| other == Round(body, k);
    if j <= k {
      StableStays(body, j, k - j);
    } else {
      StableStays(body, k, j - k);
    }
  }
}
