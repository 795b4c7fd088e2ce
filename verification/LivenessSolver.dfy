/** The backward fixpoint of liveness, and its queries. */
module LivenessSolver {
  import opened Mir
  import opened LivePaths
  import opened LiveObserved
  import opened LivenessPass

  ghost function Rows(table: array2<Word>): (rows: seq<Words>)
    reads table
    ensures |rows| == table.Length0
    ensures forall b :: 0 <= b < |rows| ==> rows[b] == RowOf(table, b)
  {
    seq(table.Length0, b requires 0 <= b < table.Length0 reads table => RowOf(table, b))
  }

  function RowOf(table: array2<Word>, b: nat): (row: Words)
    requires b < table.Length0
    reads table
    ensures |row| == table.Length1
    ensures forall w :: 0 <= w < |row| ==> row[w] == table[b, w]
  {
    seq(table.Length1, w requires 0 <= w < table.Length1 reads table => table[b, w])
  }

  // ----- the supply of clear bits -----

  ghost function ClearBits(rows: seq<Words>, words: nat): set<(nat, nat)> {
    set b: nat, k: nat | b < |rows| && k < 64 * words && !Has(rows[b], k) :: (b, k)
  }

  ghost function Supply(rows: seq<Words>, words: nat): nat {
    |ClearBits(rows, words)|
  }

  lemma SmallerSupply(small: set<(nat, nat)>, large: set<(nat, nat)>, gone: (nat, nat))
    requires small <= large && gone in large && gone !in small
    ensures |small| < |large|
  {
    assert large == (large - {gone}) + {gone};
    assert small <= large - {gone};
    var rest := large - {gone};
    assert |small| <= |rest| by {
      assert rest == small + (rest - small);
    }
  }

  ghost predicate Gains(had: Words, from: Words, has: Words) {
    && |has| == |had|
    && forall k: nat :: Has(has, k) <==> Has(had, k) || Has(from, k)
  }

  lemma GainingShrinks(before: seq<Words>, after: seq<Words>, words: nat, b: nat, from: Words, w: nat)
    requires b < |before| == |after| && |before[b]| == words == |from|
    requires after == before[b := after[b]] && Gains(before[b], from, after[b])
    requires w < words && from[w] - before[b][w] != {}
    ensures Supply(after, words) < Supply(before, words)
  {
    var bit :| bit in from[w] - before[b][w];
    var k := 64 * w + bit;
    assert k / 64 == w && k % 64 == bit;
    assert Has(from, k) && !Has(before[b], k);
    assert (b, k) in ClearBits(before, words) && (b, k) !in ClearBits(after, words);
    SmallerSupply(ClearBits(after, words), ClearBits(before, words), (b, k));
  }

  lemma JoinGains(had: set<nat>, from: set<nat>)
    requires had + from != had
    ensures from - had != {}
  {
    assert from <= had ==> had + from == had;
    var k :| k in from && k !in had;
    assert k in from - had;
  }

  /** Ors `from` into one row, and says whether that changed anything. */
  method JoinInto(into: array2<Word>, b: nat, from: Words) returns (grew: bool)
    requires b < into.Length0 && |from| == into.Length1
    modifies into
    ensures Rows(into) == old(Rows(into))[b := RowOf(into, b)]
    ensures Gains(old(RowOf(into, b)), from, RowOf(into, b))
    ensures grew ==> Supply(Rows(into), into.Length1) < Supply(old(Rows(into)), into.Length1)
    ensures !grew ==> Rows(into) == old(Rows(into))
  {
    grew := false;
    ghost var before := Rows(into);
    ghost var where: nat := 0;
    for w := 0 to into.Length1
      invariant forall c, u :: 0 <= c < into.Length0 && 0 <= u < into.Length1 ==>
                  into[c, u] == if c == b && u < w then before[c][u] + from[u] else before[c][u]
      invariant grew ==> where < into.Length1 && from[where] - before[b][where] != {}
      invariant !grew ==> forall u :: 0 <= u < w ==> into[b, u] == before[b][u]
    {
      var had := into[b, w];
      into[b, w] := into[b, w] + from[w];
      if into[b, w] != had {
        grew := true;
        where := w;
        JoinGains(had, from[w]);
      }
    }
    forall c | 0 <= c < into.Length0 ensures c != b ==> RowOf(into, c) == before[c] {
    }
    assert Rows(into) == before[b := RowOf(into, b)];
    if grew {
      GainingShrinks(before, Rows(into), into.Length1, b, from, where);
    } else {
      assert RowOf(into, b) == before[b];
    }
  }

  // ----- one block -----

  /** Is the slot live before position `at`, given whether it is live at the end of the block? */
  ghost predicate Survives(values: seq<Type>, block: Block, at: nat, slot: Slot, atEnd: bool)
    requires at <= |block|
    decreases |block| - at
  {
    if at == |block| then atEnd
    else
      Reads(values, block[at], slot) ||
      (!Writes(values, block[at], slot) && Survives(values, block, at + 1, slot, atEnd))
  }

  lemma {:induction false} SurvivorsAreLive(body: Body, b: nat, at: nat, slot: Slot, atEnd: bool)
    requires b < |body.blocks| && at <= |body.blocks[b]|
    requires atEnd ==> Live(body, Point(b, |body.blocks[b]|), slot)
    requires Survives(body.values, body.blocks[b], at, slot, atEnd)
    ensures Live(body, Point(b, at), slot)
    decreases |body.blocks[b]| - at
  {
    if at < |body.blocks[b]| {
      LiveBefore(body, Point(b, at), slot);
      if !Reads(body.values, body.blocks[b][at], slot) {
        SurvivorsAreLive(body, b, at + 1, slot, atEnd);
      }
    }
  }

  /** Walks the block backwards down to position `at`, starting from `live`. */
  method WalkBack(layout: Layout, block: Block, at: nat, live: array<Word>)
    requires Fits(layout, live) && at <= |block|
    modifies live
    ensures forall slot :: IsSlot(layout.values, slot) ==>
              (IsLive(layout, live[..], slot) <==>
                 Survives(layout.values, block, at, slot, IsLive(layout, old(live[..]), slot)))
  {
    var j := |block|;
    while j > at
      invariant at <= j <= |block|
      invariant forall slot :: IsSlot(layout.values, slot) ==>
                  (IsLive(layout, live[..], slot) <==>
                     Survives(layout.values, block, j, slot, IsLive(layout, old(live[..]), slot)))
    {
      StepBackwards(layout, live, block[j - 1]);
      j := j - 1;
    }
  }

  // ----- the fixpoint -----

  ghost predicate SoundRow(body: Body, layout: Layout, row: Words, p: Point)
    requires layout.values == body.values
  {
    forall slot :: IsSlot(body.values, slot) && IsLive(layout, row, slot) ==> Live(body, p, slot)
  }

  ghost predicate Sound(body: Body, layout: Layout, entry: seq<Words>, exit: seq<Words>)
    requires layout.values == body.values && |entry| == |exit| == |body.blocks|
  {
    forall b :: 0 <= b < |body.blocks| ==>
      SoundRow(body, layout, entry[b], Point(b, 0)) &&
      SoundRow(body, layout, exit[b], Point(b, |body.blocks[b]|))
  }

  ghost predicate FlowsInto(body: Body, layout: Layout, from: Words, into: Words)
    requires layout.values == body.values
  {
    forall slot :: IsSlot(body.values, slot) && IsLive(layout, from, slot) ==> IsLive(layout, into, slot)
  }

  ghost predicate FlowsThrough(body: Body, layout: Layout, block: Block, exit: Words, entry: Words)
    requires layout.values == body.values
  {
    forall slot :: IsSlot(body.values, slot) ==>
      Survives(body.values, block, 0, slot, IsLive(layout, exit, slot)) ==>
      IsLive(layout, entry, slot)
  }

  /** Nothing more flows into or out of block `b`. */
  ghost predicate ClosedAt(body: Body, layout: Layout, entry: seq<Words>, exit: seq<Words>, b: nat)
    requires layout.values == body.values && |entry| == |exit| == |body.blocks| && b < |body.blocks|
  {
    && (forall t: nat :: t < |entry| && Edge(body, b, t) ==> FlowsInto(body, layout, entry[t], exit[b]))
    && FlowsThrough(body, layout, body.blocks[b], exit[b], entry[b])
  }

  /** Once nothing more flows, everything live has been found. */
  lemma {:induction false} ClosedFindsUses(body: Body, layout: Layout, entry: seq<Words>, exit: seq<Words>,
                                           path: seq<Point>, slot: Slot)
    requires layout.values == body.values && |entry| == |exit| == |body.blocks|
    requires forall b :: 0 <= b < |body.blocks| ==> ClosedAt(body, layout, entry, exit, b)
    requires Uses(body, path, slot) && IsSlot(body.values, slot)
    ensures Survives(body.values, body.blocks[path[0].block], path[0].at, slot,
                     IsLive(layout, exit[path[0].block], slot))
    decreases |path|
  {
    if |path| > 1 {
      UsesTail(body, path, slot);
      ClosedFindsUses(body, layout, entry, exit, path[1..], slot);
      assert Follows(body, path[0], path[1]) && !WritesAt(body, path[0], slot);
      assert ClosedAt(body, layout, entry, exit, path[0].block);
      assert ClosedAt(body, layout, entry, exit, path[1].block);
    }
  }

  /** The solved table: each row is exactly what is live there. */
  ghost predicate Exact(body: Body, layout: Layout, entry: seq<Words>, exit: seq<Words>)
    requires layout.values == body.values && |entry| == |exit| == |body.blocks|
  {
    forall b, slot :: 0 <= b < |body.blocks| && IsSlot(body.values, slot) ==>
      && (IsLive(layout, entry[b], slot) <==> Live(body, Point(b, 0), slot))
      && (IsLive(layout, exit[b], slot) <==> Live(body, Point(b, |body.blocks[b]|), slot))
  }

  lemma ClosedIsExact(body: Body, layout: Layout, entry: seq<Words>, exit: seq<Words>)
    requires layout.values == body.values && |entry| == |exit| == |body.blocks|
    requires Sound(body, layout, entry, exit)
    requires forall b :: 0 <= b < |body.blocks| ==> ClosedAt(body, layout, entry, exit, b)
    ensures Exact(body, layout, entry, exit)
  {
    forall b, slot | 0 <= b < |body.blocks| && IsSlot(body.values, slot)
      ensures Live(body, Point(b, 0), slot) ==> IsLive(layout, entry[b], slot)
      ensures Live(body, Point(b, |body.blocks[b]|), slot) ==> IsLive(layout, exit[b], slot)
    {
      assert ClosedAt(body, layout, entry, exit, b);
      if Live(body, Point(b, 0), slot) {
        var path: seq<Point> :| Uses(body, path, slot) && path[0] == Point(b, 0);
        ClosedFindsUses(body, layout, entry, exit, path, slot);
      }
      if Live(body, Point(b, |body.blocks[b]|), slot) {
        var path: seq<Point> :| Uses(body, path, slot) && path[0] == Point(b, |body.blocks[b]|);
        ClosedFindsUses(body, layout, entry, exit, path, slot);
      }
    }
  }

  class Liveness {
    const body: Body
    const layout: Layout
    const entry: array2<Word>
    const exit: array2<Word>
    const scratch: array<Word>

    ghost predicate Shaped()
      reads layout.valueBase, layout.valueFields
    {
      && WellFormed(body) && layout.values == body.values && Fits(layout, scratch)
      && entry != exit
      && entry.Length0 == exit.Length0 == |body.blocks|
      && entry.Length1 == exit.Length1 == layout.words
    }

    ghost predicate Valid()
      reads layout.valueBase, layout.valueFields, entry, exit
    {
      Shaped() && Exact(body, layout, Rows(entry), Rows(exit))
    }

    /** Joins the entries of the successors of block `b` into its exit row. */
    method JoinSuccessors(b: nat) returns (grew: bool)
      requires Shaped() && b < |body.blocks| && Sound(body, layout, Rows(entry), Rows(exit))
      modifies exit
      ensures Sound(body, layout, Rows(entry), Rows(exit))
      ensures grew ==> Supply(Rows(exit), layout.words) < Supply(old(Rows(exit)), layout.words)
      ensures !grew ==> Rows(exit) == old(Rows(exit))
      ensures forall t: nat :: t < |body.blocks| && Edge(body, b, t) ==>
                FlowsInto(body, layout, Rows(entry)[t], Rows(exit)[b])
    {
      grew := false;
      var successors := Successors(body.blocks[b]);
      assert WellFormedBlock(body.blocks[b], |body.blocks|, |body.values|);
      for s := 0 to |successors|
        invariant Sound(body, layout, Rows(entry), Rows(exit))
        invariant grew ==> Supply(Rows(exit), layout.words) < Supply(old(Rows(exit)), layout.words)
        invariant !grew ==> Rows(exit) == old(Rows(exit))
        invariant forall r :: 0 <= r < s ==>
                    && successors[r] < |body.blocks|
                    && FlowsInto(body, layout, Rows(entry)[successors[r]], Rows(exit)[b])
      {
        var t := successors[s];
        assert t in successors && Edge(body, b, t);
        ghost var before := Rows(exit);
        var more := JoinInto(exit, b, RowOf(entry, t));
        forall slot | IsSlot(body.values, slot) && IsLive(layout, Rows(exit)[b], slot)
          ensures Live(body, Point(b, |body.blocks[b]|), slot)
        {
          LiveAtEnd(body, b, slot);
          if !IsLive(layout, before[b], slot) {
            assert IsLive(layout, Rows(entry)[t], slot);
          }
        }
        grew := grew || more;
      }
    }

    /** Copies the exit row of block `b` to the scratch words. */
    method LoadExit(b: nat)
      requires Shaped() && b < |body.blocks|
      modifies scratch
      ensures scratch[..] == Rows(exit)[b]
    {
      for w := 0 to layout.words
        invariant forall u :: 0 <= u < w ==> scratch[u] == exit[b, u]
      {
        scratch[w] := exit[b, w];
      }
      assert scratch[..] == Rows(exit)[b];
    }

    /** Walks block `b` backwards from its exit row and joins what comes out into its entry row. */
    method WalkIntoEntry(b: nat) returns (grew: bool)
      requires Shaped() && b < |body.blocks| && Sound(body, layout, Rows(entry), Rows(exit))
      modifies entry, scratch
      ensures Sound(body, layout, Rows(entry), Rows(exit))
      ensures grew ==> Supply(Rows(entry), layout.words) < Supply(old(Rows(entry)), layout.words)
      ensures !grew ==> Rows(entry) == old(Rows(entry))
      ensures FlowsThrough(body, layout, body.blocks[b], Rows(exit)[b], Rows(entry)[b])
    {
      LoadExit(b);
      WalkBack(layout, body.blocks[b], 0, scratch);
      ghost var walked := scratch[..];
      assert SoundRow(body, layout, walked, Point(b, 0)) by {
        assert SoundRow(body, layout, Rows(exit)[b], Point(b, |body.blocks[b]|));
        forall slot | IsSlot(body.values, slot) && IsLive(layout, walked, slot)
          ensures Live(body, Point(b, 0), slot)
        {
          SurvivorsAreLive(body, b, 0, slot, IsLive(layout, Rows(exit)[b], slot));
        }
      }
      grew := JoinInto(entry, b, scratch[..]);
    }

    method UpdateBlock(b: nat) returns (changed: bool)
      requires Shaped() && b < |body.blocks| && Sound(body, layout, Rows(entry), Rows(exit))
      modifies entry, exit, scratch
      ensures Sound(body, layout, Rows(entry), Rows(exit))
      ensures changed ==> Left() < old(Left())
      ensures !changed ==>
                && Rows(entry) == old(Rows(entry)) && Rows(exit) == old(Rows(exit))
                && ClosedAt(body, layout, Rows(entry), Rows(exit), b)
    {
      var joined := JoinSuccessors(b);
      var walked := WalkIntoEntry(b);
      changed := joined || walked;
    }

    ghost function Left(): nat
      requires Shaped()
      reads layout.valueBase, layout.valueFields, entry, exit
    {
      Supply(Rows(entry), layout.words) + Supply(Rows(exit), layout.words)
    }

    /** Updates every block once, last first. */
    method Pass() returns (changed: bool)
      requires Shaped() && Sound(body, layout, Rows(entry), Rows(exit))
      modifies entry, exit, scratch
      ensures Sound(body, layout, Rows(entry), Rows(exit))
      ensures changed ==> Left() < old(Left())
      ensures !changed ==> Left() == old(Left())
      ensures !changed ==> forall b :: 0 <= b < |body.blocks| ==>
                ClosedAt(body, layout, Rows(entry), Rows(exit), b)
    {
      changed := false;
      ghost var entry0, exit0 := Rows(entry), Rows(exit);
      var i := |body.blocks|;
      while i > 0
        invariant 0 <= i <= |body.blocks|
        invariant Sound(body, layout, Rows(entry), Rows(exit))
        invariant changed ==> Left() < old(Left())
        invariant !changed ==> Rows(entry) == entry0 && Rows(exit) == exit0
        invariant !changed ==> forall b :: i <= b < |body.blocks| ==> ClosedAt(body, layout, entry0, exit0, b)
      {
        var more := UpdateBlock(i - 1);
        changed := changed || more;
        i := i - 1;
      }
    }

    /** Solves liveness for a body. */
    constructor (body: Body)
      requires WellFormed(body)
      ensures Valid() && this.body == body
      ensures fresh(entry) && fresh(exit) && fresh(scratch)
    {
      var numbering := new Layout(body.values);
      var live := new Word[numbering.words](w => {});
      assert Fits(numbering, live);
      this.body := body;
      layout := numbering;
      entry := new Word[|body.blocks|, numbering.words]((b, w) => {});
      exit := new Word[|body.blocks|, numbering.words]((b, w) => {});
      scratch := live;
      new;
      var changed := true;
      while changed
        invariant Shaped() && Sound(body, layout, Rows(entry), Rows(exit))
        invariant !changed ==> forall b :: 0 <= b < |body.blocks| ==>
                    ClosedAt(body, layout, Rows(entry), Rows(exit), b)
        decreases Left(), if changed then 1 else 0
      {
        changed := Pass();
      }
      ClosedIsExact(body, layout, Rows(entry), Rows(exit));
    }

    /** Is some slot of the value in the set? */
    method AnyFieldLive(live: Words, value: nat) returns (any: bool)
      requires Shaped() && value < |body.values| && |live| == layout.words
      ensures any <==> exists slot :: IsSlot(body.values, slot) && slot.value == value && IsLive(layout, live, slot)
    {
      var index := layout.PlaceIndex(value, WHOLE_VALUE);
      any := index % 64 in live[index / 64];
      if any {
        assert IsLive(layout, live, Slot(value, WHOLE_VALUE));
        return;
      }
      for i := 0 to layout.valueFields[value]
        invariant !IsLive(layout, live, Slot(value, WHOLE_VALUE))
        invariant forall f: nat :: f < i ==> !IsLive(layout, live, Slot(value, f))
      {
        index := layout.PlaceIndex(value, i);
        if index % 64 in live[index / 64] {
          assert IsLive(layout, live, SlotOf(body.values, value, i));
          return true;
        }
        assert SlotOf(body.values, value, i) == Slot(value, i);
      }
      any := false;
    }

    /** Is the value, or its field, live after an instruction? */
    method LiveAfter(block: nat, index: nat, value: nat, field: nat) returns (live: bool)
      requires Valid() && |body.blocks| < NO_BLOCK
      modifies scratch
      ensures !(block < |body.blocks| && value < |body.values|) ==> !live
      ensures block < |body.blocks| && value < |body.values| ==>
                var after := Point(block, if index < |body.blocks[block]| then index + 1 else |body.blocks[block]|);
                live <==>
                  if field == WHOLE_VALUE
                  then exists slot :: IsSlot(body.values, slot) && slot.value == value && Live(body, after, slot)
                  else Live(body, after, SlotOf(body.values, value, field))
      ensures block < |body.blocks| && value < |body.values| && KeepsTheRest(body) ==>
                var after := Point(block, if index < |body.blocks[block]| then index + 1 else |body.blocks[block]|);
                live <==>
                  if field == WHOLE_VALUE
                  then exists slot :: IsSlot(body.values, slot) && slot.value == value && Matters(body, after, slot)
                  else Matters(body, after, SlotOf(body.values, value, field))
    {
      hide Live, Matters, KeepsTheRest, Survives;
      if block == NO_BLOCK || value == NO_VALUE || value >= |body.values| || block >= |body.blocks| {
        return false;
      }
      LiveExactly(body);
      LoadExit(block);
      var at := if index < |body.blocks[block]| then index + 1 else |body.blocks[block]|;
      WalkBack(layout, body.blocks[block], at, scratch);
      forall slot | IsSlot(body.values, slot)
        ensures IsLive(layout, scratch[..], slot) <==> Live(body, Point(block, at), slot)
      {
        LiveMeansSurvives(body, block, at, slot);
      }
      if field == WHOLE_VALUE {
        live := AnyFieldLive(scratch[..], value);
      } else {
        var place := layout.PlaceIndex(value, field);
        live := place % 64 in scratch[place / 64];
        assert live <==> IsLive(layout, scratch[..], SlotOf(body.values, value, field));
      }
    }
  }

  lemma {:induction false} LiveMeansSurvives(body: Body, b: nat, at: nat, slot: Slot)
    requires b < |body.blocks| && at <= |body.blocks[b]|
    ensures Live(body, Point(b, at), slot) <==>
              Survives(body.values, body.blocks[b], at, slot, Live(body, Point(b, |body.blocks[b]|), slot))
    decreases |body.blocks[b]| - at
  {
    if at < |body.blocks[b]| {
      LiveBefore(body, Point(b, at), slot);
      LiveMeansSurvives(body, b, at + 1, slot);
    }
  }
}
