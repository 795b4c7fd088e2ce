/** Which structs contain which by value, and what it is for one to contain itself. */
module Containment {
  import opened Options

  /** A field's type, as far as containment goes: it holds a struct itself, or an array of what holds
      one, or nothing by value. */
  datatype FieldType = Plain | Held(decl: nat) | ArrayOf(element: FieldType)

  /** The struct a type holds by value, however deep in arrays. */
  function HeldBy(t: FieldType): Option<nat> {
    match t
    case Plain => None
    case Held(d) => Some(d)
    case ArrayOf(element) => HeldBy(element)
  }

  /** The fields of each struct, by declaration. */
  type Decls = seq<seq<FieldType>>

  predicate WellNamed(decls: Decls) {
    forall d :: 0 <= d < |decls| ==>
      forall i :: 0 <= i < |decls[d]| ==>
        (HeldBy(decls[d][i]).Some? ==> HeldBy(decls[d][i]).value < |decls|)
  }

  predicate Holds(fields: seq<FieldType>, e: nat) {
    exists i :: 0 <= i < |fields| && HeldBy(fields[i]) == Some(e)
  }

  predicate Contains(decls: Decls, d: nat, e: nat) {
    d < |decls| && Holds(decls[d], e)
  }

  predicate Walk(decls: Decls, w: seq<nat>) {
    forall i :: 0 <= i < |w| - 1 ==> Contains(decls, w[i], w[i + 1])
  }

  predicate Repeats(w: seq<nat>) {
    exists i, j :: 0 <= i < j < |w| && w[i] == w[j]
  }

  /** Some struct contains itself. */
  ghost predicate HasCycle(decls: Decls) {
    exists w :: Walk(decls, w) && Repeats(w)
  }

  /** Following what the struct contains can come back to a struct already met. */
  ghost predicate ReachesCycle(decls: Decls, d: nat) {
    exists w :: Walk(decls, w) && Repeats(w) && |w| > 0 && w[0] == d
  }

  /** Structs that contain each the next, and the last the first. */
  predicate Cycle(decls: Decls, w: seq<nat>) {
    |w| > 0 && Walk(decls, w) && Contains(decls, w[|w| - 1], w[0])
  }

  lemma CycleRepeats(decls: Decls, w: seq<nat>)
    requires Cycle(decls, w)
    ensures HasCycle(decls) && ReachesCycle(decls, w[|w| - 1])
  {
    var round := [w[|w| - 1]] + w;
    forall i | 0 <= i < |round| - 1 ensures Contains(decls, round[i], round[i + 1]) {
      if i > 0 {
        assert Contains(decls, w[i - 1], w[i - 1 + 1]);
      }
    }
    assert round[0] == round[|w|];
    assert Repeats(round);
  }

  lemma ReachesThrough(decls: Decls, d: nat, e: nat)
    requires Contains(decls, d, e) && ReachesCycle(decls, e)
    ensures ReachesCycle(decls, d)
  {
    var w :| Walk(decls, w) && Repeats(w) && |w| > 0 && w[0] == e;
    var longer := [d] + w;
    forall i | 0 <= i < |longer| - 1 ensures Contains(decls, longer[i], longer[i + 1]) {
      if i > 0 {
        assert Contains(decls, w[i - 1], w[i - 1 + 1]);
      }
    }
    var i, j :| 0 <= i < j < |w| && w[i] == w[j];
    assert longer[i + 1] == longer[j + 1];
  }

  /** Each struct finished before those that contain it. */
  ghost predicate InOrder(decls: Decls, order: seq<nat>) {
    forall p: nat, e: nat :: p < |order| && Contains(decls, order[p], e) ==> e in order[..p]
  }

  lemma IndexIn(order: seq<nat>, d: nat) returns (p: nat)
    requires d in order
    ensures p < |order| && order[p] == d && d !in order[..p]
  {
    p := 0;
    assert order[..|order|] == order;
    while order[p] != d
      invariant p < |order| && d !in order[..p]
      decreases |order| - p
    {
      assert order[..p + 1] == order[..p] + [order[p]];
      p := p + 1;
    }
  }

  /** In such an order every step of a walk goes back. */
  lemma {:induction false} WalksGoBack(decls: Decls, order: seq<nat>, w: seq<nat>, i: nat, p: nat, j: nat)
    requires InOrder(decls, order) && Walk(decls, w)
    requires i < j < |w| && p < |order| && order[p] == w[i]
    ensures w[j] in order[..p]
    decreases j
  {
    if j == i + 1 {
      assert Contains(decls, w[i], w[i + 1]);
    } else {
      WalksGoBack(decls, order, w, i, p, j - 1);
      var q := IndexIn(order[..p], w[j - 1]);
      assert Contains(decls, w[j - 1], w[j - 1 + 1]);
      assert order[q] == w[j - 1] && w[j] in order[..q];
    }
  }

  /** So nothing met on a walk is met again. */
  lemma OrderedHasNoCycle(decls: Decls, order: seq<nat>, w: seq<nat>)
    requires InOrder(decls, order) && Walk(decls, w) && |w| > 0 && w[0] in order
    ensures !Repeats(w)
  {
    if Repeats(w) {
      var i, j :| 0 <= i < j < |w| && w[i] == w[j];
      if i > 0 {
        var p0 := IndexIn(order, w[0]);
        WalksGoBack(decls, order, w, 0, p0, i);
      }
      var p := IndexIn(order, w[i]);
      WalksGoBack(decls, order, w, i, p, j);
    }
  }

  // ----- laying structs out -----

  /** How deep a type nests, if each struct nests as deep as `depths` says. */
  function DepthOf(depths: seq<nat>, t: FieldType): nat {
    match t
    case Plain => 0
    case Held(d) => if d < |depths| then depths[d] else 0
    case ArrayOf(element) => DepthOf(depths, element) + 1
  }

  /** Each struct nests deeper than each of its fields, so that the fields can be laid out before it. */
  predicate Nests(decls: Decls, depths: seq<nat>) {
    && |depths| == |decls|
    && forall d :: 0 <= d < |decls| ==> Encloses(depths, decls[d], depths[d])
  }

  predicate Encloses(depths: seq<nat>, fields: seq<FieldType>, depth: nat) {
    forall i :: 0 <= i < |fields| ==> DepthOf(depths, fields[i]) < depth
  }

  ghost predicate CanBeLaidOut(decls: Decls) {
    exists depths :: Nests(decls, depths)
  }

  lemma {:induction false} HeldIsNoDeeper(depths: seq<nat>, t: FieldType)
    ensures var d := HeldBy(t); d.Some? && d.value < |depths| ==> depths[d.value] <= DepthOf(depths, t)
  {
    if t.ArrayOf? {
      HeldIsNoDeeper(depths, t.element);
    }
  }

  lemma {:induction false} OthersKeepDepth(depths: seq<nat>, d: nat, depth: nat, t: FieldType)
    requires d < |depths| && HeldBy(t) != Some(d)
    ensures DepthOf(depths[d := depth], t) == DepthOf(depths, t)
  {
    if t.ArrayOf? {
      OthersKeepDepth(depths, d, depth, t.element);
    }
  }

  function Deepest(depths: seq<nat>, fields: seq<FieldType>): (deepest: nat)
    ensures Encloses(depths, fields, deepest + 1)
  {
    if fields == [] then 0
    else
      var rest, last := Deepest(depths, fields[..|fields| - 1]), DepthOf(depths, fields[|fields| - 1]);
      assert Encloses(depths, fields[..|fields| - 1], rest + 1);
      if last > rest then last else rest
  }

  lemma FieldIsContained(decls: Decls, d: nat, i: nat)
    requires d < |decls| && i < |decls[d]|
    ensures HeldBy(decls[d][i]).Some? ==> Contains(decls, d, HeldBy(decls[d][i]).value)
  {
  }

  /** Structs that contain only earlier ones can be laid out in that order. */
  lemma {:induction false} OrderedNest(decls: Decls, order: seq<nat>, n: nat) returns (depths: seq<nat>)
    requires InOrder(decls, order) && n <= |order| && forall p :: 0 <= p < |order| ==> order[p] < |decls|
    requires forall i, j :: 0 <= i < j < |order| ==> order[i] != order[j]
    ensures |depths| == |decls|
    ensures forall q :: 0 <= q < n ==> Encloses(depths, decls[order[q]], depths[order[q]])
  {
    if n == 0 {
      depths := seq(|decls|, d => 0);
    } else {
      var before := OrderedNest(decls, order, n - 1);
      var d := order[n - 1];
      depths := before[d := Deepest(before, decls[d]) + 1];
      forall q | 0 <= q < n ensures Encloses(depths, decls[order[q]], depths[order[q]]) {
        var fields := decls[order[q]];
        forall i | 0 <= i < |fields| ensures DepthOf(depths, fields[i]) < depths[order[q]] {
          FieldIsContained(decls, order[q], i);
          OthersKeepDepth(before, d, Deepest(before, decls[d]) + 1, fields[i]);
          assert q < n - 1 ==> Encloses(before, fields, before[order[q]]);
        }
      }
    }
  }

  lemma OrderedCanBeLaidOut(decls: Decls, order: seq<nat>)
    requires InOrder(decls, order) && (forall d :: 0 <= d < |decls| ==> d in order)
    requires forall p :: 0 <= p < |order| ==> order[p] < |decls|
    requires forall i, j :: 0 <= i < j < |order| ==> order[i] != order[j]
    ensures CanBeLaidOut(decls)
  {
    var depths := OrderedNest(decls, order, |order|);
    forall d: nat | d < |decls| ensures Encloses(depths, decls[d], depths[d]) {
      var p := IndexIn(order, d);
    }
    assert Nests(decls, depths);
  }

  /** Along a walk the depths fall. */
  lemma {:induction false} WalksGoDown(decls: Decls, depths: seq<nat>, w: seq<nat>, i: nat, j: nat)
    requires WellNamed(decls) && Nests(decls, depths) && Walk(decls, w) && i < j < |w|
    ensures w[i] < |decls| && w[j] < |decls| && depths[w[j]] < depths[w[i]]
    decreases j
  {
    if j > i + 1 {
      WalksGoDown(decls, depths, w, i, j - 1);
    }
    assert Contains(decls, w[j - 1], w[j - 1 + 1]);
    var f :| 0 <= f < |decls[w[j - 1]]| && HeldBy(decls[w[j - 1]][f]) == Some(w[j]);
    assert Encloses(depths, decls[w[j - 1]], depths[w[j - 1]]);
    HeldIsNoDeeper(depths, decls[w[j - 1]][f]);
  }

  /** Structs that contain themselves cannot be laid out. */
  lemma CyclesCannotBeLaidOut(decls: Decls)
    requires WellNamed(decls) && HasCycle(decls)
    ensures !CanBeLaidOut(decls)
  {
    var w :| Walk(decls, w) && Repeats(w);
    var i, j :| 0 <= i < j < |w| && w[i] == w[j];
    forall depths | Nests(decls, depths) ensures false {
      WalksGoDown(decls, depths, w, i, j);
    }
  }
}
