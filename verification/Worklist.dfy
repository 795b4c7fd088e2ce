/** The worklist of generic instances: what the bodies of a module call is instantiated, the new bodies
    call more, and so on until nothing is new, or there are too many. */
module Worklists {
  import opened Options

  const MAX_INSTANTIATIONS := 256

  /** A function: its declaration and the arguments it is fixed to. Instances are shared, so two with the
      same declaration and arguments are the same object. */
  datatype Function = Function(decl: nat, typeParams: nat, args: seq<nat>, lowersNoBody: bool)

  /** What matters of an instruction: whom it calls, or the destroy methods that its drop may run. */
  datatype Inst = Call(callee: Option<Function>) | Drop(endings: seq<Function>) | Other

  type Body = seq<seq<Inst>>

  /** A module to build: the instances that resolving it asked for, its bodies, the templates it imports,
      and what fixing a template to an instance's arguments makes of its body. */
  datatype Program = Program(
    wanted: seq<Function>,
    bodies: seq<(Function, Body)>,
    imported: map<nat, Body>,
    instantiate: (Body, Function) -> Body)

  /** A function that is instantiated when it is called. */
  predicate Instantiable(f: Function) {
    !f.lowersNoBody && f.typeParams > 0 && f.args != []
  }

  predicate IsTemplate(f: Function) {
    f.typeParams > 0 && f.args == []
  }

  // ----- what is demanded -----

  function InstCalls(inst: Inst): seq<Function> {
    match inst
    case Call(Some(f)) => [f]
    case Call(None) => []
    case Drop(endings) => endings
    case Other => []
  }

  function BlockCalls(insts: seq<Inst>): seq<Function> {
    if insts == [] then [] else BlockCalls(insts[..|insts| - 1]) + InstCalls(insts[|insts| - 1])
  }

  function BodyCalls(body: Body): seq<Function> {
    if body == [] then [] else BodyCalls(body[..|body| - 1]) + BlockCalls(body[|body| - 1])
  }

  /** The first body with this declaration and these arguments. */
  function LookUp(bodies: seq<(Function, Body)>, decl: nat, args: seq<nat>): Option<Body> {
    if bodies == [] then None
    else if bodies[0].0.decl == decl && bodies[0].0.args == args then Some(bodies[0].1)
    else LookUp(bodies[1..], decl, args)
  }

  /** The body that instantiating a function makes: none without a template, none if there is one already. */
  function InstanceBody(p: Program, f: Function): Option<Body> {
    var local := LookUp(p.bodies, f.decl, []);
    var from := if local.Some? then local else if f.decl in p.imported then Some(p.imported[f.decl]) else None;
    if from.None? || LookUp(p.bodies, f.decl, f.args).Some? then None else Some(p.instantiate(from.value, f))
  }

  /** An instruction asks for the function it calls, and a drop for each destroy method it may run. */
  predicate Asks(inst: Inst, f: Function) {
    inst == Call(Some(f)) || (inst.Drop? && f in inst.endings)
  }

  ghost predicate BodyAsks(body: Body, f: Function) {
    exists b: nat, i: nat :: AsksAt(body, b, i, f)
  }

  predicate AsksAt(body: Body, b: nat, i: nat, f: Function) {
    b < |body| && i < |body[b]| && Asks(body[b][i], f)
  }

  lemma {:induction false} BlockCallsAreAsked(insts: seq<Inst>, f: Function)
    ensures f in BlockCalls(insts) <==> exists i :: 0 <= i < |insts| && Asks(insts[i], f)
  {
    if insts != [] {
      var n := |insts| - 1;
      BlockCallsAreAsked(insts[..n], f);
      assert f in InstCalls(insts[n]) <==> Asks(insts[n], f);
      if i :| 0 <= i < |insts| && Asks(insts[i], f) {
        assert i < n ==> insts[..n][i] == insts[i];
      }
    }
  }

  /** The functions collected from a body are those that its instructions ask for. */
  lemma {:induction false} CallsAreAsked(body: Body, f: Function)
    ensures f in BodyCalls(body) <==> BodyAsks(body, f)
  {
    hide BlockCalls;
    if body != [] {
      var n := |body| - 1;
      CallsAreAsked(body[..n], f);
      BlockCallsAreAsked(body[n], f);
      if BodyAsks(body[..n], f) {
        var b: nat, i: nat :| AsksAt(body[..n], b, i, f);
        assert AsksAt(body, b, i, f);
      }
      if i :| 0 <= i < |body[n]| && Asks(body[n][i], f) {
        assert AsksAt(body, n, i, f);
      }
      if BodyAsks(body, f) {
        var b: nat, i: nat :| AsksAt(body, b, i, f);
        assert b < n ==> AsksAt(body[..n], b, i, f);
      }
    }
  }

  ghost predicate CalledByABody(p: Program, f: Function) {
    exists k :: 0 <= k < |p.bodies| && !IsTemplate(p.bodies[k].0) && BodyAsks(p.bodies[k].1, f)
  }

  ghost predicate Root(p: Program, f: Function) {
    Instantiable(f) && (f in p.wanted || CalledByABody(p, f))
  }

  ghost predicate Leads(p: Program, f: Function, g: Function) {
    Instantiable(g) && InstanceBody(p, f).Some? && BodyAsks(InstanceBody(p, f).value, g)
  }

  /** A root, and from each function on to one that its instantiated body calls. */
  ghost predicate Chain(p: Program, path: seq<Function>) {
    && path != [] && Root(p, path[0])
    && forall k :: 0 <= k < |path| - 1 ==> Leads(p, path[k], path[k + 1])
  }

  ghost predicate Demanded(p: Program, f: Function) {
    exists path :: Chain(p, path) && path[|path| - 1] == f
  }

  lemma RootIsDemanded(p: Program, f: Function)
    requires Root(p, f)
    ensures Demanded(p, f)
  {
    assert Chain(p, [f]);
  }

  lemma LeadsOn(p: Program, f: Function, g: Function)
    requires Demanded(p, f) && Leads(p, f, g)
    ensures Demanded(p, g)
  {
    hide Root, InstanceBody, BodyCalls, Leads;
    var path :| Chain(p, path) && path[|path| - 1] == f;
    var longer := path + [g];
    assert Chain(p, longer) && longer[|longer| - 1] == g;
  }

  // ----- requests -----

  datatype Work = Work(instances: seq<Function>, overflowed: bool)

  function Request(w: Work, f: Function): Work {
    if !Instantiable(f) || f in w.instances then w
    else if |w.instances| >= MAX_INSTANTIATIONS then w.(overflowed := true)
    else w.(instances := w.instances + [f])
  }

  function RequestAll(w: Work, fs: seq<Function>): Work {
    if fs == [] then w else Request(RequestAll(w, fs[..|fs| - 1]), fs[|fs| - 1])
  }

  lemma {:induction false} RequestAllSplits(w: Work, fs: seq<Function>, gs: seq<Function>)
    ensures RequestAll(w, fs + gs) == RequestAll(RequestAll(w, fs), gs)
  {
    if gs == [] {
      assert fs + gs == fs;
    } else {
      assert (fs + gs)[..|fs + gs| - 1] == fs + gs[..|gs| - 1];
      RequestAllSplits(w, fs, gs[..|gs| - 1]);
    }
  }

  /** Nothing is listed twice or without being demanded, and an overflow means that something demanded
      was turned away from a full list. */
  ghost predicate Justified(p: Program, w: Work) {
    && |w.instances| <= MAX_INSTANTIATIONS
    && (forall i, k :: 0 <= i < k < |w.instances| ==> w.instances[i] != w.instances[k])
    && (forall f :: f in w.instances ==> Demanded(p, f))
    && (w.overflowed ==>
          |w.instances| == MAX_INSTANTIATIONS && Refused(p, w.instances))
  }

  ghost predicate Refused(p: Program, instances: seq<Function>) {
    exists f :: Demanded(p, f) && f !in instances
  }

  /** All of them may be asked for. */
  ghost predicate AllDemanded(p: Program, fs: seq<Function>) {
    forall f :: f in fs && Instantiable(f) ==> Demanded(p, f)
  }

  ghost predicate AllListed(fs: seq<Function>, instances: seq<Function>) {
    forall f :: f in fs && Instantiable(f) ==> f in instances
  }

  lemma WantedAreDemanded(p: Program)
    ensures AllDemanded(p, p.wanted)
  {
    forall f | f in p.wanted && Instantiable(f) ensures Demanded(p, f) {
      RootIsDemanded(p, f);
    }
  }

  lemma CalledByBodiesAreDemanded(p: Program, b: nat)
    requires b < |p.bodies| && !IsTemplate(p.bodies[b].0)
    ensures AllDemanded(p, BodyCalls(p.bodies[b].1))
  {
    forall f | f in BodyCalls(p.bodies[b].1) && Instantiable(f) ensures Demanded(p, f) {
      CallsAreAsked(p.bodies[b].1, f);
      assert CalledByABody(p, f);
      RootIsDemanded(p, f);
    }
  }

  lemma CalledByInstancesAreDemanded(p: Program, f: Function)
    requires Demanded(p, f) && InstanceBody(p, f).Some?
    ensures AllDemanded(p, BodyCalls(InstanceBody(p, f).value))
  {
    forall g | g in BodyCalls(InstanceBody(p, f).value) && Instantiable(g) ensures Demanded(p, g) {
      CallsAreAsked(InstanceBody(p, f).value, g);
      LeadsOn(p, f, g);
    }
  }

  lemma RequestIsJustified(p: Program, w: Work, f: Function)
    requires Justified(p, w) && (Instantiable(f) ==> Demanded(p, f))
    ensures var after := Request(w, f);
            && Justified(p, after) && w.instances <= after.instances && (w.overflowed ==> after.overflowed)
            && (!after.overflowed && Instantiable(f) ==> f in after.instances)
  {
    hide Demanded;
    if Instantiable(f) && f !in w.instances && |w.instances| >= MAX_INSTANTIATIONS {
      assert Refused(p, w.instances);
    }
  }

  lemma {:induction false} RequestsAreJustified(p: Program, w: Work, fs: seq<Function>)
    requires Justified(p, w) && AllDemanded(p, fs)
    ensures var after := RequestAll(w, fs);
            && Justified(p, after) && w.instances <= after.instances && (w.overflowed ==> after.overflowed)
            && (!after.overflowed ==> AllListed(fs, after.instances))
  {
    hide Demanded, Justified, Request, Instantiable;
    if fs != [] {
      var n := |fs| - 1;
      RequestsAreJustified(p, w, fs[..n]);
      var mid := RequestAll(w, fs[..n]);
      RequestIsJustified(p, mid, fs[n]);
      assert forall f :: f in fs ==> f == fs[n] || f in fs[..n];
    }
  }

  /** Whatever the listed instances up to `i` call is listed too. */
  ghost predicate ClosedTo(p: Program, w: Work, i: nat) {
    forall k, g :: 0 <= k < i && k < |w.instances| && Leads(p, w.instances[k], g) ==> g in w.instances
  }

  lemma {:induction false} ClosedHoldsChain(p: Program, w: Work, path: seq<Function>)
    requires Chain(p, path) && ClosedTo(p, w, |w.instances|)
    requires forall f :: Root(p, f) ==> f in w.instances
    ensures path[|path| - 1] in w.instances
  {
    if |path| > 1 {
      var n := |path| - 1;
      assert Chain(p, path[..n]);
      ClosedHoldsChain(p, w, path[..n]);
      assert Leads(p, path[n - 1], path[n]);
    }
  }

  /** More functions are demanded than may be instantiated. */
  ghost predicate TooMany(p: Program) {
    exists fs: set<Function> :: |fs| == MAX_INSTANTIATIONS + 1 && EachDemanded(p, fs)
  }

  ghost predicate EachDemanded(p: Program, fs: set<Function>) {
    forall f :: f in fs ==> Demanded(p, f)
  }

  ghost function Members(fs: seq<Function>): (s: set<Function>)
    ensures forall f :: f in s <==> f in fs
    ensures |s| <= |fs|
    ensures (forall i, k :: 0 <= i < k < |fs| ==> fs[i] != fs[k]) ==> |s| == |fs|
  {
    if fs == [] then {} else Members(fs[..|fs| - 1]) + {fs[|fs| - 1]}
  }

  lemma SubsetsAreSmaller(s: set<Function>, t: set<Function>)
    requires s <= t
    ensures |s| <= |t|
  {
    if s != {} {
      var f :| f in s;
      SubsetsAreSmaller(s - {f}, t - {f});
    }
  }

  lemma RefusedIsTooMany(p: Program, instances: seq<Function>)
    requires Refused(p, instances) && |instances| == MAX_INSTANTIATIONS
    requires forall i, k :: 0 <= i < k < |instances| ==> instances[i] != instances[k]
    requires forall f :: f in instances ==> Demanded(p, f)
    ensures TooMany(p)
  {
    var f :| Demanded(p, f) && f !in instances;
    var fs := Members(instances) + {f};
    assert |fs| == MAX_INSTANTIATIONS + 1 && EachDemanded(p, fs);
  }

  lemma ListedIsNotTooMany(p: Program, instances: seq<Function>)
    requires |instances| <= MAX_INSTANTIATIONS && forall f :: Demanded(p, f) ==> f in instances
    ensures !TooMany(p)
  {
    if TooMany(p) {
      var fs: set<Function> :| |fs| == MAX_INSTANTIATIONS + 1 && EachDemanded(p, fs);
      SubsetsAreSmaller(fs, Members(instances));
    }
  }

  lemma RootsAreListed(p: Program, instances: seq<Function>)
    requires RootsListed(p, |p.bodies|, instances)
    ensures forall f :: Root(p, f) ==> f in instances
  {
    forall f | Root(p, f) ensures f in instances {
      if f !in p.wanted {
        var k :| 0 <= k < |p.bodies| && !IsTemplate(p.bodies[k].0) && BodyAsks(p.bodies[k].1, f);
        CallsAreAsked(p.bodies[k].1, f);
      }
    }
  }

  /** At the end, the list overflowed exactly if too many functions are demanded; if it did not, it holds
      exactly the demanded ones. */
  lemma Finished(p: Program, w: Work)
    requires Justified(p, w)
    requires !w.overflowed ==> RootsListed(p, |p.bodies|, w.instances) && ClosedTo(p, w, |w.instances|)
    ensures w.overflowed <==> TooMany(p)
    ensures !w.overflowed ==> forall f :: f in w.instances <==> Demanded(p, f)
  {
    hide TooMany, ClosedTo, RootsListed, Demanded, Root;
    if w.overflowed {
      RefusedIsTooMany(p, w.instances);
    } else {
      RootsAreListed(p, w.instances);
      forall f | Demanded(p, f) ensures f in w.instances {
        DemandedIsListed(p, w, f);
      }
      ListedIsNotTooMany(p, w.instances);
    }
  }

  lemma DemandedIsListed(p: Program, w: Work, f: Function)
    requires ClosedTo(p, w, |w.instances|) && Demanded(p, f)
    requires forall g :: Root(p, g) ==> g in w.instances
    ensures f in w.instances
  {
    var path :| Chain(p, path) && path[|path| - 1] == f;
    ClosedHoldsChain(p, w, path);
  }

  // ----- the loops -----

  class PendingBodies {
    var instances: seq<Function>
    var overflowed: bool

    ghost function State(): Work
      reads this
    {
      Work(instances, overflowed)
    }

    constructor ()
      ensures State() == Work([], false)
    {
      instances, overflowed := [], false;
    }

    method Instantiate(f: Function)
      modifies this
      ensures State() == Request(old(State()), f)
    {
      if f.lowersNoBody || f.typeParams == 0 || |f.args| == 0 {
        return;
      }
      for i := 0 to |instances|
        invariant State() == old(State()) && f !in instances[..i]
      {
        if instances[i] == f {
          return;
        }
      }
      if |instances| >= MAX_INSTANTIATIONS {
        overflowed := true;
        return;
      }
      instances := instances + [f];
    }

    method InstantiateAll(fs: seq<Function>)
      modifies this
      ensures State() == RequestAll(old(State()), fs)
    {
      for i := 0 to |fs|
        invariant State() == RequestAll(old(State()), fs[..i])
      {
        Instantiate(fs[i]);
        assert fs[..i + 1][..i] == fs[..i];
      }
      assert fs[..|fs|] == fs;
    }

    /** Asks for everything that a body calls, in the order of its instructions. */
    method CollectCalled(body: Body)
      modifies this
      ensures State() == RequestAll(old(State()), BodyCalls(body))
    {
      for b := 0 to |body|
        invariant State() == RequestAll(old(State()), BodyCalls(body[..b]))
      {
        ghost var here := State();
        for i := 0 to |body[b]|
          invariant State() == RequestAll(here, BlockCalls(body[b][..i]))
        {
          ghost var there := State();
          match body[b][i] {
            case Call(callee) =>
              if callee.Some? {
                InstantiateAll([callee.value]);
              }
            case Drop(endings) =>
              InstantiateAll(endings);
            case Other =>
          }
          assert State() == RequestAll(there, InstCalls(body[b][i]));
          assert body[b][..i + 1][..i] == body[b][..i];
          RequestAllSplits(here, BlockCalls(body[b][..i]), InstCalls(body[b][i]));
        }
        assert body[b][..|body[b]|] == body[b];
        assert body[..b + 1][..b] == body[..b];
        RequestAllSplits(old(State()), BodyCalls(body[..b]), BlockCalls(body[b]));
      }
      assert body[..|body|] == body;
    }

    /** Builds the bodies of a module and of every instance they lead to. It always ends; at most 256
        instances are listed, none twice; the list overflows exactly if more are demanded, and holds
        exactly the demanded ones otherwise. */
    method Build(p: Program) returns (built: seq<(Function, Body)>)
      requires State() == Work([], false)
      modifies this
      ensures |instances| <= MAX_INSTANTIATIONS
      ensures forall i, k :: 0 <= i < k < |instances| ==> instances[i] != instances[k]
      ensures forall f :: f in instances ==> Demanded(p, f)
      ensures overflowed <==> TooMany(p)
      ensures !overflowed ==> forall f :: Demanded(p, f) ==> f in instances
      ensures built == p.bodies + Instances(p, instances)
    {
      hide Justified, TooMany, ClosedTo, RootsListed, Demanded, Leads;
      NothingIsJustified(p);
      InstantiateRoots(p);
      built := p.bodies;
      var i := 0;
      NothingIsOpen(p, State());
      while i < |instances|
        invariant i <= |instances| && Justified(p, State())
        invariant !overflowed ==> RootsListed(p, |p.bodies|, instances) && ClosedTo(p, State(), i)
        invariant built == p.bodies + Instances(p, instances[..i])
        decreases MAX_INSTANTIATIONS - i
      {
        ghost var before := State();
        JustifiedIsBounded(p, before);
        var body := InstanceBody(p, instances[i]);
        if body.Some? {
          built := built + [(instances[i], body.value)];
          CalledByInstancesAreDemanded(p, instances[i]);
          RequestsAreJustified(p, State(), BodyCalls(body.value));
          CollectCalled(body.value);
        }
        InstancesStep(p, before.instances, instances, i);
        if !overflowed {
          ClosedStep(p, before, i, State());
          RootsStay(p, |p.bodies|, before.instances, instances);
        }
        i := i + 1;
      }
      assert instances[..i] == instances;
      JustifiedIsBounded(p, State());
      Finished(p, State());
    }

    /** Asks for what resolving asked for, and for what the bodies that are no templates call. */
    method InstantiateRoots(p: Program)
      requires Justified(p, State()) && !overflowed
      modifies this
      ensures Justified(p, State()) && (!overflowed ==> RootsListed(p, |p.bodies|, instances))
    {
      hide Justified, RootsListed;
      WantedAreDemanded(p);
      RequestsAreJustified(p, State(), p.wanted);
      InstantiateAll(p.wanted);
      if !overflowed {
        NoBodyYet(p, instances);
      }
      for b := 0 to |p.bodies|
        invariant Justified(p, State()) && (!overflowed ==> RootsListed(p, b, instances))
      {
        ghost var before := instances;
        if !IsTemplate(p.bodies[b].0) {
          CalledByBodiesAreDemanded(p, b);
          RequestsAreJustified(p, State(), BodyCalls(p.bodies[b].1));
          CollectCalled(p.bodies[b].1);
        }
        if !overflowed {
          RootsStep(p, b, before, instances);
        }
      }
    }
  }

  lemma NothingIsJustified(p: Program)
    ensures Justified(p, Work([], false))
  {
  }

  lemma NothingIsOpen(p: Program, w: Work)
    ensures ClosedTo(p, w, 0)
  {
  }

  lemma NoBodyYet(p: Program, instances: seq<Function>)
    requires AllListed(p.wanted, instances)
    ensures RootsListed(p, 0, instances)
  {
  }

  lemma JustifiedIsBounded(p: Program, w: Work)
    requires Justified(p, w)
    ensures |w.instances| <= MAX_INSTANTIATIONS
    ensures forall i, k :: 0 <= i < k < |w.instances| ==> w.instances[i] != w.instances[k]
    ensures forall f :: f in w.instances ==> Demanded(p, f)
  {
  }

  lemma RootsStay(p: Program, b: nat, before: seq<Function>, after: seq<Function>)
    requires RootsListed(p, b, before) && before <= after
    ensures RootsListed(p, b, after)
  {
    assert forall f :: f in before ==> f in after;
  }

  lemma RootsStep(p: Program, b: nat, before: seq<Function>, after: seq<Function>)
    requires b < |p.bodies| && RootsListed(p, b, before) && before <= after
    requires IsTemplate(p.bodies[b].0) || AllListed(BodyCalls(p.bodies[b].1), after)
    ensures RootsListed(p, b + 1, after)
  {
    RootsStay(p, b, before, after);
  }

  lemma ClosedStep(p: Program, before: Work, i: nat, after: Work)
    requires i < |before.instances| && ClosedTo(p, before, i) && before.instances <= after.instances
    requires var body := InstanceBody(p, before.instances[i]);
             body.Some? ==> AllListed(BodyCalls(body.value), after.instances)
    ensures ClosedTo(p, after, i + 1)
  {
    forall k, g | 0 <= k < i + 1 && k < |after.instances| && Leads(p, after.instances[k], g) ensures g in after.instances {
      if k < i {
        assert Leads(p, before.instances[k], g);
        assert g in before.instances;
      } else {
        CallsAreAsked(InstanceBody(p, before.instances[i]).value, g);
      }
    }
  }

  lemma InstancesStep(p: Program, before: seq<Function>, after: seq<Function>, i: nat)
    requires i < |before| && before <= after
    ensures Instances(p, after[..i + 1]) == Instances(p, before[..i]) +
            if InstanceBody(p, before[i]).Some? then [(before[i], InstanceBody(p, before[i]).value)] else []
  {
    assert after[..i + 1][..i] == before[..i];
  }

  /** The roots in the first `b` bodies, and those resolving asked for, are listed. */
  ghost predicate RootsListed(p: Program, b: nat, instances: seq<Function>) {
    && AllListed(p.wanted, instances)
    && (forall k :: 0 <= k < b && k < |p.bodies| && !IsTemplate(p.bodies[k].0) ==>
          AllListed(BodyCalls(p.bodies[k].1), instances))
  }

  function Instances(p: Program, fs: seq<Function>): seq<(Function, Body)> {
    if fs == [] then []
    else
      var f := fs[|fs| - 1];
      Instances(p, fs[..|fs| - 1]) +
      if InstanceBody(p, f).Some? then [(f, InstanceBody(p, f).value)] else []
  }
}
