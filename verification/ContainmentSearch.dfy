/** The depth-first search that resolves the fields of each struct and reports those that complete a
    containment cycle. */
module ContainmentSearch {
  import opened Options
  import opened Containment

  /** What the search has established: which structs were asked for, which failed, the fields kept,
      which have a size, those being resolved, the cycles reported, whether an array of things without
      a size was refused, and the structs finished, in order. */
  datatype Search = Search(demanded: seq<bool>, poisoned: seq<bool>, kept: seq<seq<FieldType>>, sized: seq<bool>,
                           resolving: seq<nat>, reports: seq<seq<nat>>, sizeless: bool, finished: seq<nat>)

  predicate HasSize(t: FieldType, sized: seq<bool>) {
    match t
    case Plain => true
    case Held(d) => d < |sized| && sized[d]
    case ArrayOf(element) => HasSize(element, sized)
  }

  /** The edge was explored: what it leads to was finished by then, or is where a reported cycle
      closes. */
  ghost predicate Settled(s: Search, d: nat, e: nat, before: seq<nat>) {
    e in before || exists r :: 0 <= r < |s.reports| && Closes(s.reports[r], d, e)
  }

  predicate Closes(report: seq<nat>, d: nat, e: nat) {
    |report| > 0 && report[|report| - 1] == d && report[0] == e
  }

  ghost predicate FieldsSettled(decls: Decls, s: Search, d: nat, count: nat, before: seq<nat>)
    requires d < |decls| && count <= |decls[d]|
  {
    forall i :: 0 <= i < count && HeldBy(decls[d][i]).Some? ==> Settled(s, d, HeldBy(decls[d][i]).value, before)
  }

  /** The fields kept hold finished structs that did not fail. */
  ghost predicate KeptWell(s: Search, fields: seq<FieldType>, before: seq<nat>) {
    forall e: nat :: Holds(fields, e) ==> e in before && e < |s.poisoned| && !s.poisoned[e]
  }

  predicate Distinct(a: seq<nat>, b: seq<nat>) {
    && (forall i, j :: 0 <= i < j < |a| ==> a[i] != a[j])
    && (forall i, j :: 0 <= i < j < |b| ==> b[i] != b[j])
    && forall d :: d in a ==> d !in b
  }

  ghost predicate Shaped(decls: Decls, s: Search) {
    && |s.demanded| == |s.poisoned| == |s.kept| == |s.sized| == |decls|
    && Distinct(s.finished, s.resolving)
    && (forall d :: 0 <= d < |decls| ==> (s.demanded[d] <==> d in s.finished || d in s.resolving))
    && (forall d :: d in s.finished || d in s.resolving ==> d < |decls|)
  }

  ghost predicate Valid(decls: Decls, s: Search) {
    && WellNamed(decls) && Shaped(decls, s)
    && Walk(decls, s.resolving)
    && (forall r :: 0 <= r < |s.reports| ==> Cycle(decls, s.reports[r]))
    && (forall p :: 0 <= p < |s.finished| ==> Finished(decls, s, p))
  }

  /** What holds of a finished struct. */
  ghost predicate Finished(decls: Decls, s: Search, p: nat)
    requires Shaped(decls, s) && p < |s.finished|
  {
    var d := s.finished[p];
    && d < |decls|
    && FieldsSettled(decls, s, d, |decls[d]|, s.finished[..p])
    && KeptWell(s, s.kept[d], s.finished[..p])
    && (!s.poisoned[d] ==> s.kept[d] == decls[d])
    && (s.poisoned[d] ==> s.sizeless || ReachesCycle(decls, d))
  }

  /** The search only adds, and leaves what is finished as it is. */
  ghost predicate Grew(s: Search, t: Search) {
    && t.resolving == s.resolving
    && s.finished <= t.finished && s.reports <= t.reports && (s.sizeless ==> t.sizeless)
    && |t.demanded| == |s.demanded| && (forall d :: 0 <= d < |s.demanded| && s.demanded[d] ==> t.demanded[d])
    && |t.poisoned| == |s.poisoned|
    && (forall d :: d in s.finished && d < |s.poisoned| ==> t.poisoned[d] == s.poisoned[d])
  }

  lemma GrewReflexive(s: Search)
    ensures Grew(s, s)
  {
  }

  lemma GrewTransitive(s: Search, t: Search, u: Search)
    requires Grew(s, t) && Grew(t, u)
    ensures Grew(s, u)
  {
  }

  lemma SettledStays(s: Search, t: Search, d: nat, e: nat, before: seq<nat>, after: seq<nat>)
    requires Settled(s, d, e, before) && s.reports <= t.reports && before <= after
    ensures Settled(t, d, e, after)
  {
    if e !in before {
      var r :| 0 <= r < |s.reports| && Closes(s.reports[r], d, e);
      assert t.reports[r] == s.reports[r];
    }
  }

  // ----- how much is left -----

  ghost function Undemanded(demanded: seq<bool>): set<nat> {
    set d: nat | d < |demanded| && !demanded[d]
  }

  lemma FewerUndemanded(s: seq<bool>, t: seq<bool>)
    requires |s| == |t| && forall d :: 0 <= d < |s| && s[d] ==> t[d]
    ensures |Undemanded(t)| <= |Undemanded(s)|
    ensures (exists d :: 0 <= d < |s| && !s[d] && t[d]) ==> |Undemanded(t)| < |Undemanded(s)|
  {
    SubsetSize(Undemanded(t), Undemanded(s));
    if d :| 0 <= d < |s| && !s[d] && t[d] {
      SubsetSize(Undemanded(t), Undemanded(s) - {d});
    }
  }

  lemma {:induction false} SubsetSize(a: set<nat>, b: set<nat>)
    requires a <= b
    ensures |a| <= |b|
  {
    if a != {} {
      var x :| x in a;
      SubsetSize(a - {x}, b - {x});
    }
  }

  // ----- the search -----

  class Resolver {
    const decls: Decls
    var demanded: seq<bool>
    var poisoned: seq<bool>
    var kept: seq<seq<FieldType>>
    var sized: seq<bool>
    var resolving: seq<nat>
    var reports: seq<seq<nat>>
    var sizeless: bool
    ghost var finished: seq<nat>

    ghost function View(): Search
      reads this
    {
      Search(demanded, poisoned, kept, sized, resolving, reports, sizeless, finished)
    }

    constructor (decls: Decls)
      requires WellNamed(decls)
      ensures this.decls == decls && Valid(decls, View())
      ensures finished == [] && resolving == [] && reports == [] && !sizeless
    {
      this.decls := decls;
      demanded := seq(|decls|, _ => false);
      poisoned := seq(|decls|, _ => false);
      kept := seq(|decls|, _ => []);
      sized := seq(|decls|, _ => false);
      resolving, reports, sizeless, finished := [], [], false, [];
    }

    /** The position of a struct among those being resolved, or their number. */
    method ResolvingIndexOf(d: nat) returns (i: nat)
      ensures i <= |resolving|
      ensures if d in resolving then i < |resolving| && resolving[i] == d else i == |resolving|
    {
      i := 0;
      while i < |resolving| && resolving[i] != d
        invariant i <= |resolving| && d !in resolving[..i]
      {
        i := i + 1;
      }
    }

    /** Reports the structs from the one a cycle closes on to the one being resolved. */
    method ReportContainmentCycle(closesOn: nat)
      requires Valid(decls, View()) && closesOn in resolving
      requires Contains(decls, resolving[|resolving| - 1], closesOn)
      modifies this`reports
      ensures Valid(decls, View()) && Grew(old(View()), View())
      ensures Settled(View(), resolving[|resolving| - 1], closesOn, finished)
      ensures ReachesCycle(decls, resolving[|resolving| - 1])
    {
      var from := ResolvingIndexOf(closesOn);
      ghost var before := View();
      SuffixIsCycle(decls, resolving, from);
      reports := reports + [resolving[from..]];
      ReportKeepsValid(decls, before, resolving[from..]);
      CycleRepeats(decls, resolving[from..]);
      assert Closes(reports[|reports| - 1], resolving[|resolving| - 1], closesOn);
    }

    /** The struct that a type held by the one being resolved closes a cycle on, if it does; otherwise
        that struct is resolved. */
    method ElementCompletesACycle(t: FieldType) returns (cycle: Option<nat>)
      requires Valid(decls, View()) && |resolving| > 0
      requires HeldBy(t).Some? ==> Contains(decls, resolving[|resolving| - 1], HeldBy(t).value)
      modifies this
      ensures Valid(decls, View()) && Grew(old(View()), View())
      ensures cycle.Some? ==> HeldBy(t) == cycle && cycle.value in resolving
      ensures cycle.None? && HeldBy(t).Some? ==> HeldBy(t).value in finished
      decreases |Undemanded(demanded)|, 1, 0
    {
      var held := HeldBy(t);
      if held.None? {
        return None;
      }
      var i := ResolvingIndexOf(held.value);
      if i < |resolving| {
        return held;
      }
      HeldExists(decls, resolving[|resolving| - 1], held.value);
      ResolveStructFields(held.value);
      return None;
    }

    /** Resolves what a field's type is written as: the element of an array must not complete a cycle
        and must have a size. */
    method ResolveType(t: FieldType) returns (ok: bool)
      requires Valid(decls, View()) && |resolving| > 0
      requires HeldBy(t).Some? ==> Contains(decls, resolving[|resolving| - 1], HeldBy(t).value)
      modifies this
      ensures Valid(decls, View()) && Grew(old(View()), View())
      ensures !ok ==> sizeless || ReachesCycle(decls, resolving[|resolving| - 1])
      ensures !ok && HeldBy(t).Some? ==> Settled(View(), resolving[|resolving| - 1], HeldBy(t).value, finished)
      ensures !ok ==> HeldBy(t).Some?
      decreases |Undemanded(demanded)|, 2, t
    {
      hide Valid, ReachesCycle, Walk;
      if !t.ArrayOf? {
        return true;
      }
      ok := ResolveType(t.element);
      if !ok {
        return;
      }
      FewerUndemanded(old(demanded), demanded);
      ghost var before := View();
      var cycle := ElementCompletesACycle(t.element);
      GrewTransitive(old(View()), before, View());
      if cycle.Some? {
        ReportContainmentCycle(cycle.value);
        return false;
      }
      if !HasSize(t.element, sized) {
        SizelessHolds(t.element, sized);
        ghost var last := View();
        sizeless := true;
        SizelessKeepsValid(decls, last);
        return false;
      }
    }

    /** One field of the struct being resolved: is it kept? */
    method ResolveField(t: FieldType) returns (keep: bool)
      requires Valid(decls, View()) && |resolving| > 0
      requires HeldBy(t).Some? ==> Contains(decls, resolving[|resolving| - 1], HeldBy(t).value)
      modifies this
      ensures Valid(decls, View()) && Grew(old(View()), View())
      ensures HeldBy(t).Some? ==> Settled(View(), resolving[|resolving| - 1], HeldBy(t).value, finished)
      ensures !keep ==> sizeless || ReachesCycle(decls, resolving[|resolving| - 1])
      ensures keep && HeldBy(t).Some? ==>
                HeldBy(t).value in finished && HeldBy(t).value < |poisoned| && !poisoned[HeldBy(t).value]
      decreases |Undemanded(demanded)|, 3, 0
    {
      hide Valid, ReachesCycle, Walk;
      keep := ResolveType(t);
      if !keep {
        return;
      }
      FewerUndemanded(old(demanded), demanded);
      ghost var before := View();
      var cycle := ElementCompletesACycle(t);
      GrewTransitive(old(View()), before, View());
      if cycle.Some? {
        ReportContainmentCycle(cycle.value);
        return false;
      }
      var held := HeldBy(t);
      if held.Some? {
        FinishedFacts(decls, View(), held.value);
        if poisoned[held.value] {
          ReachesIfHeld(decls, View(), resolving[|resolving| - 1], held.value);
          return false;
        }
      }
    }

    /** The fields of the struct being resolved, one after the other: those kept, whether they have a
        size, and whether any was left out. */
    method ResolveEach(d: nat) returns (keptFields: seq<FieldType>, hasSize: bool, failed: bool)
      requires Valid(decls, View()) && d < |decls| && |resolving| > 0 && resolving[|resolving| - 1] == d
      modifies this
      ensures Valid(decls, View()) && Grew(old(View()), View())
      ensures FieldsSettled(decls, View(), d, |decls[d]|, finished) && KeptWell(View(), keptFields, finished)
      ensures if failed then sizeless || ReachesCycle(decls, d) else keptFields == decls[d]
      decreases |Undemanded(demanded)|, 4, 0
    {
      hide Valid, ReachesCycle, Walk, Settled;
      var fields := decls[d];
      keptFields, hasSize, failed := [], false, false;
      var i := 0;
      while i < |fields|
        invariant i <= |fields| && Valid(decls, View()) && Grew(old(View()), View())
        invariant |Undemanded(demanded)| <= |Undemanded(old(demanded))|
        invariant FieldsSettled(decls, View(), d, i, finished) && KeptWell(View(), keptFields, finished)
        invariant if failed then sizeless || ReachesCycle(decls, d) else keptFields == fields[..i]
      {
        var t := fields[i];
        ghost var before := View();
        var keep := ResolveField(t);
        FewerUndemanded(before.demanded, demanded);
        GrewTransitive(old(View()), before, View());
        FieldsStay(decls, before, View(), d, i, before.finished, finished);
        KeptStays(before, View(), keptFields);
        if keep {
          KeptAppends(View(), keptFields, t);
          keptFields := keptFields + [t];
          hasSize := hasSize || HasSize(t, sized);
        } else {
          failed := true;
        }
        i := i + 1;
      }
    }

    /** Resolves the fields of a struct, once: those that complete a cycle, or hold a struct that
        failed, are left out, and then the struct has failed too. */
    method ResolveStructFields(d: nat)
      requires Valid(decls, View()) && d < |decls| && d !in resolving
      requires |resolving| > 0 ==> Contains(decls, resolving[|resolving| - 1], d)
      modifies this
      ensures Valid(decls, View()) && Grew(old(View()), View())
      ensures d in finished
      decreases |Undemanded(demanded)|, 0, 0
    {
      hide Valid, Walk, ReachesCycle, FieldsSettled, KeptWell, Contains, Grew, Undemanded;
      Lengths(decls, View());
      GrewReflexive(View());
      if demanded[d] {
        return;
      }
      ghost var start := View();
      PushKeepsValid(decls, start, d);
      StartOn(d);
      FewerUndemanded(old(demanded), demanded);
      var keptFields, hasSize, failed := ResolveEach(d);
      FinishKeepsValid(decls, start, View(), d, keptFields, hasSize, failed);
      DoneWith(d, keptFields, hasSize, failed, start.resolving);
    }

    method StartOn(d: nat)
      requires d < |demanded|
      modifies this`demanded, this`resolving
      ensures View() == Pushed(old(View()), d)
    {
      demanded := demanded[d := true];
      resolving := resolving + [d];
    }

    method DoneWith(d: nat, keptFields: seq<FieldType>, hasSize: bool, failed: bool, ghost outer: seq<nat>)
      requires d < |poisoned| == |kept| == |sized| && resolving == outer + [d]
      modifies this`resolving, this`poisoned, this`kept, this`sized, this`finished
      ensures View() == Popped(old(View()), outer, d, keptFields, hasSize, failed)
    {
      resolving := resolving[..|resolving| - 1];
      poisoned := poisoned[d := failed];
      kept := kept[d := keptFields];
      sized := sized[d := hasSize];
      finished := finished + [d];
    }

    /** Resolves every struct. A cycle is reported exactly if some struct contains itself, and exactly if
        the structs cannot be laid out; each report is a cycle; the fields kept can be laid out; and, unless
        an array of things without a size was refused, a struct fails exactly if it reaches a cycle. */
    method ResolveTypeBodies()
      requires Valid(decls, View()) && resolving == [] && finished == [] && reports == [] && !sizeless
      modifies this
      ensures |kept| == |poisoned| == |decls|
      ensures |reports| > 0 <==> HasCycle(decls)
      ensures |reports| > 0 <==> !CanBeLaidOut(decls)
      ensures forall r :: 0 <= r < |reports| ==> Cycle(decls, reports[r])
      ensures !HasCycle(kept) && CanBeLaidOut(kept)
      ensures forall d :: 0 <= d < |decls| ==>
                && (ReachesCycle(decls, d) ==> poisoned[d])
                && (poisoned[d] ==> sizeless || ReachesCycle(decls, d))
                && (!poisoned[d] ==> kept[d] == decls[d])
    {
      var i := 0;
      GrewReflexive(View());
      while i < |decls|
        invariant i <= |decls| && Valid(decls, View()) && resolving == []
        invariant forall d :: 0 <= d < i ==> d in finished
      {
        ResolveStructFields(i);
        i := i + 1;
      }
      AllFinished(decls, View());
    }
  }

  // ----- what the steps keep -----

  lemma SuffixIsCycle(decls: Decls, resolving: seq<nat>, from: nat)
    requires Walk(decls, resolving) && from < |resolving|
    requires Contains(decls, resolving[|resolving| - 1], resolving[from])
    ensures Cycle(decls, resolving[from..])
  {
    var suffix := resolving[from..];
    forall i | 0 <= i < |suffix| - 1 ensures Contains(decls, suffix[i], suffix[i + 1]) {
      assert Contains(decls, resolving[from + i], resolving[from + i + 1]);
    }
  }

  lemma {:induction false} SizelessHolds(t: FieldType, sized: seq<bool>)
    requires !HasSize(t, sized)
    ensures HeldBy(t).Some?
  {
    if t.ArrayOf? {
      SizelessHolds(t.element, sized);
    }
  }

  lemma SizelessKeepsValid(decls: Decls, s: Search)
    requires Valid(decls, s)
    ensures Valid(decls, s.(sizeless := true))
  {
    var t := s.(sizeless := true);
    forall p | 0 <= p < |t.finished| ensures Finished(decls, t, p) {
      assert Finished(decls, s, p);
      FieldsStay(decls, s, t, s.finished[p], |decls[s.finished[p]]|, s.finished[..p], s.finished[..p]);
    }
  }

  lemma HeldExists(decls: Decls, d: nat, e: nat)
    requires WellNamed(decls) && Contains(decls, d, e)
    ensures e < |decls|
  {
  }

  lemma ReportKeepsValid(decls: Decls, s: Search, report: seq<nat>)
    requires Valid(decls, s) && Cycle(decls, report)
    ensures Valid(decls, s.(reports := s.reports + [report]))
  {
    var t := s.(reports := s.reports + [report]);
    forall p | 0 <= p < |t.finished| ensures Finished(decls, t, p) {
      assert Finished(decls, s, p);
      FieldsStay(decls, s, t, s.finished[p], |decls[s.finished[p]]|, s.finished[..p], s.finished[..p]);
    }
  }

  lemma FieldsStay(decls: Decls, s: Search, t: Search, d: nat, count: nat, before: seq<nat>, after: seq<nat>)
    requires d < |decls| && count <= |decls[d]| && FieldsSettled(decls, s, d, count, before)
    requires s.reports <= t.reports && before <= after
    ensures FieldsSettled(decls, t, d, count, after)
  {
    forall i | 0 <= i < count && HeldBy(decls[d][i]).Some?
      ensures Settled(t, d, HeldBy(decls[d][i]).value, after)
    {
      SettledStays(s, t, d, HeldBy(decls[d][i]).value, before, after);
    }
  }

  lemma Lengths(decls: Decls, s: Search)
    requires Valid(decls, s)
    ensures |s.demanded| == |s.poisoned| == |s.kept| == |s.sized| == |decls|
    ensures forall d :: 0 <= d < |decls| && s.demanded[d] && d !in s.resolving ==> d in s.finished
  {
  }

  lemma FinishedFacts(decls: Decls, s: Search, d: nat)
    requires Valid(decls, s) && d in s.finished
    ensures d < |decls| == |s.poisoned|
    ensures s.poisoned[d] ==> s.sizeless || ReachesCycle(decls, d)
  {
    var p :| 0 <= p < |s.finished| && s.finished[p] == d;
    assert Finished(decls, s, p);
  }

  lemma ReachesIfHeld(decls: Decls, s: Search, d: nat, e: nat)
    requires Contains(decls, d, e) && (s.sizeless || ReachesCycle(decls, e))
    ensures s.sizeless || ReachesCycle(decls, d)
  {
    if ReachesCycle(decls, e) {
      ReachesThrough(decls, d, e);
    }
  }

  /** Starting on a struct, and being done with it. */
  function Pushed(s: Search, d: nat): Search
    requires d < |s.demanded|
  {
    s.(demanded := s.demanded[d := true], resolving := s.resolving + [d])
  }

  function Popped(s: Search, resolving: seq<nat>, d: nat, keptFields: seq<FieldType>, hasSize: bool, failed: bool): Search
    requires d < |s.poisoned| == |s.kept| == |s.sized|
  {
    s.(resolving := resolving, poisoned := s.poisoned[d := failed], kept := s.kept[d := keptFields],
       sized := s.sized[d := hasSize], finished := s.finished + [d])
  }

  lemma PushKeepsValid(decls: Decls, s: Search, d: nat)
    requires Valid(decls, s) && d < |decls| && !s.demanded[d]
    requires |s.resolving| > 0 ==> Contains(decls, s.resolving[|s.resolving| - 1], d)
    ensures Valid(decls, Pushed(s, d))
  {
    var t := Pushed(s, d);
    forall p | 0 <= p < |t.finished| ensures Finished(decls, t, p) {
      assert Finished(decls, s, p);
      FieldsStay(decls, s, t, s.finished[p], |decls[s.finished[p]]|, s.finished[..p], s.finished[..p]);
    }
  }

  lemma KeptStays(s: Search, t: Search, fields: seq<FieldType>)
    requires KeptWell(s, fields, s.finished) && Grew(s, t)
    ensures KeptWell(t, fields, t.finished)
  {
  }

  lemma KeptAppends(s: Search, fields: seq<FieldType>, t: FieldType)
    requires KeptWell(s, fields, s.finished)
    requires HeldBy(t).Some? ==>
               HeldBy(t).value in s.finished && HeldBy(t).value < |s.poisoned| && !s.poisoned[HeldBy(t).value]
    ensures KeptWell(s, fields + [t], s.finished)
  {
    forall e: nat | Holds(fields + [t], e) ensures e in s.finished && e < |s.poisoned| && !s.poisoned[e] {
      var i :| 0 <= i < |fields + [t]| && HeldBy((fields + [t])[i]) == Some(e);
      if i < |fields| {
        assert HeldBy(fields[i]) == Some(e);
        assert Holds(fields, e);
      }
    }
  }

  lemma FinishKeepsValid(decls: Decls, start: Search, s: Search, d: nat, keptFields: seq<FieldType>, hasSize: bool,
                         failed: bool)
    requires Valid(decls, start) && Valid(decls, s) && d < |decls|
    requires d < |start.demanded| && Grew(Pushed(start, d), s)
    requires FieldsSettled(decls, s, d, |decls[d]|, s.finished) && KeptWell(s, keptFields, s.finished)
    requires if failed then s.sizeless || ReachesCycle(decls, d) else keptFields == decls[d]
    ensures |s.poisoned| == |s.kept| == |s.sized| == |decls| && s.resolving == start.resolving + [d]
    ensures var t := Popped(s, start.resolving, d, keptFields, hasSize, failed);
            Valid(decls, t) && Grew(start, t)
  {
    var t := Popped(s, start.resolving, d, keptFields, hasSize, failed);
    var n := |s.finished|;
    PopDistinct(s.finished, start.resolving, d);
    assert d in s.resolving && d !in s.finished;
    forall p | 0 <= p < |t.finished| ensures Finished(decls, t, p) {
      if p < n {
        EarlierStays(decls, s, t, d, p);
      } else {
        assert t.finished[..p] == s.finished;
        FieldsStay(decls, s, t, d, |decls[d]|, s.finished, t.finished[..p]);
      }
    }
  }

  lemma EarlierStays(decls: Decls, s: Search, t: Search, d: nat, p: nat)
    requires Valid(decls, s) && Shaped(decls, t) && p < |s.finished| && d !in s.finished
    requires s.finished <= t.finished && s.reports <= t.reports && s.sizeless == t.sizeless
    requires forall x :: x in s.finished && x < |decls| ==> t.poisoned[x] == s.poisoned[x] && t.kept[x] == s.kept[x]
    ensures Finished(decls, t, p)
  {
    var e := s.finished[p];
    assert e in s.finished && Finished(decls, s, p);
    assert t.finished[..p] == s.finished[..p];
    FieldsStay(decls, s, t, e, |decls[e]|, s.finished[..p], t.finished[..p]);
    assert forall x :: x in s.finished[..p] ==> x in s.finished;
  }

  lemma PopDistinct(finished: seq<nat>, resolving: seq<nat>, d: nat)
    requires Distinct(finished, resolving + [d])
    ensures Distinct(finished + [d], resolving) && d !in resolving
  {
    var longer := resolving + [d];
    assert longer[|resolving|] == d && d in longer;
    forall i | 0 <= i < |resolving| ensures resolving[i] != d && resolving[i] !in finished {
      assert longer[i] == resolving[i] && longer[i] in longer;
    }
    forall i, j | 0 <= i < j < |resolving| ensures resolving[i] != resolving[j] {
      assert longer[i] == resolving[i] && longer[j] == resolving[j];
    }
  }

  // ----- when everything is finished -----

  ghost predicate Done(decls: Decls, s: Search) {
    Valid(decls, s) && forall d :: 0 <= d < |decls| ==> d in s.finished
  }

  lemma FinishedAt(decls: Decls, s: Search, d: nat) returns (p: nat)
    requires Done(decls, s) && d < |decls|
    ensures p < |s.finished| && s.finished[p] == d && Finished(decls, s, p)
  {
    assert d in s.finished;
    p := IndexIn(s.finished, d);
    assert Finished(decls, s, p);
  }

  lemma ReportedInOrder(decls: Decls, s: Search)
    requires Done(decls, s) && s.reports == []
    ensures InOrder(decls, s.finished)
  {
    forall p: nat, e: nat | p < |s.finished| && Contains(decls, s.finished[p], e) ensures e in s.finished[..p] {
      assert Finished(decls, s, p);
      var i :| 0 <= i < |decls[s.finished[p]]| && HeldBy(decls[s.finished[p]][i]) == Some(e);
      assert Settled(s, s.finished[p], e, s.finished[..p]);
    }
  }

  lemma KeptInOrder(decls: Decls, s: Search)
    requires Done(decls, s)
    ensures InOrder(s.kept, s.finished)
  {
    forall p: nat, e: nat | p < |s.finished| && Contains(s.kept, s.finished[p], e) ensures e in s.finished[..p] {
      assert Finished(decls, s, p);
    }
  }

  /** Graphs whose structs finish in order have no cycle. */
  lemma InOrderHasNoCycle(decls: Decls, order: seq<nat>)
    requires InOrder(decls, order) && forall d :: 0 <= d < |decls| ==> d in order
    ensures !HasCycle(decls)
  {
    if HasCycle(decls) {
      var w :| Walk(decls, w) && Repeats(w);
      assert Contains(decls, w[0], w[0 + 1]);
      OrderedHasNoCycle(decls, order, w);
    }
  }

  /** Every walk from a struct that did not fail is one along kept fields. */
  lemma {:induction false} SoundWalk(decls: Decls, s: Search, w: seq<nat>, i: nat)
    requires Done(decls, s) && Walk(decls, w) && 0 < i <= |w| && w[0] < |decls| && !s.poisoned[w[0]]
    ensures forall j :: 0 <= j < i ==> w[j] < |decls| && !s.poisoned[w[j]]
    ensures forall j :: 0 <= j < i - 1 ==> Contains(s.kept, w[j], w[j + 1])
  {
    if i > 1 {
      SoundWalk(decls, s, w, i - 1);
      var d, e := w[i - 2], w[i - 1];
      assert Contains(decls, w[i - 2], w[i - 2 + 1]);
      var p := FinishedAt(decls, s, d);
      assert Holds(s.kept[d], e);
    }
  }

  lemma SoundReachesNoCycle(decls: Decls, s: Search, d: nat)
    requires Done(decls, s) && d < |decls| && ReachesCycle(decls, d)
    ensures s.poisoned[d]
  {
    if !s.poisoned[d] {
      var w :| Walk(decls, w) && Repeats(w) && |w| > 0 && w[0] == d;
      SoundWalk(decls, s, w, |w|);
      KeptInOrder(decls, s);
      OrderedHasNoCycle(s.kept, s.finished, w);
    }
  }

  lemma AllFinished(decls: Decls, s: Search)
    requires Done(decls, s)
    ensures |s.reports| > 0 <==> HasCycle(decls)
    ensures |s.reports| > 0 <==> !CanBeLaidOut(decls)
    ensures !HasCycle(s.kept) && CanBeLaidOut(s.kept)
    ensures forall d :: 0 <= d < |decls| ==>
              && (ReachesCycle(decls, d) ==> s.poisoned[d])
              && (s.poisoned[d] ==> s.sizeless || ReachesCycle(decls, d))
              && (!s.poisoned[d] ==> s.kept[d] == decls[d])
  {
    forall p | 0 <= p < |s.finished| ensures s.finished[p] < |decls| {
      assert Finished(decls, s, p);
    }
    if |s.reports| > 0 {
      CycleRepeats(decls, s.reports[0]);
      CyclesCannotBeLaidOut(decls);
    } else {
      ReportedInOrder(decls, s);
      InOrderHasNoCycle(decls, s.finished);
      OrderedCanBeLaidOut(decls, s.finished);
    }
    KeptInOrder(decls, s);
    InOrderHasNoCycle(s.kept, s.finished);
    OrderedCanBeLaidOut(s.kept, s.finished);
    forall d: nat | d < |decls|
      ensures (ReachesCycle(decls, d) ==> s.poisoned[d]) && (s.poisoned[d] ==> s.sizeless || ReachesCycle(decls, d)) &&
              (!s.poisoned[d] ==> s.kept[d] == decls[d])
    {
      var p := FinishedAt(decls, s, d);
      if ReachesCycle(decls, d) {
        SoundReachesNoCycle(decls, s, d);
      }
    }
  }
}
