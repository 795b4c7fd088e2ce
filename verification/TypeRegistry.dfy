/** The type registry: every type is one object, found again by its structure, one level deep. */
module TypeRegistries {
  import opened Options
  import opened HashMaps

  const MAX_TYPE_PARAMS := 4
  const WORD := 0x1_0000_0000_0000_0000

  datatype TypeKind = I32 | F32 | Bool | U8 | Usize | Raw | Str | Array | Slice | Struct | Ref | Param | Unknown | Error

  /** A declaration's name, made of shared strings. */
  datatype DeclId = DeclId(unit: nat, owner: nat, name: nat, block: nat)

  /** A type, a number, or a parameter standing for a number. Numbers given as arguments are all `i32`. */
  datatype TypeArg = TypeArgument(ty: nat) | NumberArgument(number: int) | ParamArgument(param: nat)

  /** A type object. Types are named by their place in the registry's memory. */
  datatype Type = Type(kind: TypeKind, decl: DeclId, args: seq<TypeArg>, pointee: nat, index: nat)

  const NO_DECL := DeclId(0, 0, 0, 0)

  predicate IsPrimitive(kind: TypeKind) {
    kind in {I32, F32, Bool, U8, Usize, Str, Error}
  }

  predicate IsPointer(kind: TypeKind) {
    kind in {Ref, Raw}
  }

  predicate IsApplied(kind: TypeKind) {
    kind in {Array, Slice, Struct}
  }

  // ----- one level of structure -----

  function KindNumber(kind: TypeKind): nat {
    match kind
    case I32 => 0 case F32 => 1 case Bool => 2 case U8 => 3 case Usize => 4 case Raw => 5 case Str => 6
    case Array => 7 case Slice => 8 case Struct => 9 case Ref => 10 case Param => 11 case Unknown => 12
    case Error => 13
  }

  function DeclHash(id: DeclId): nat {
    (((id.unit * 31 + id.owner) * 31 + id.name) * 31 + id.block) % WORD
  }

  function ArgHash(arg: TypeArg, address: nat -> nat): nat {
    match arg
    case TypeArgument(ty) => address(ty) % WORD
    case NumberArgument(number) => number % 0x1_0000_0000
    case ParamArgument(param) => param % WORD
  }

  function Mixed(hash: nat, more: nat): nat {
    (hash * 33 + more) % WORD
  }

  function ArgsHash(hash: nat, args: seq<TypeArg>, address: nat -> nat): nat {
    if args == [] then hash
    else
      var last := args[|args| - 1];
      var rest := ArgsHash(hash, args[..|args| - 1], address);
      Mixed(Mixed(rest, if last.TypeArgument? then 0 else 1), ArgHash(last, address))
  }

  /** The hash that the table of types uses. */
  method StructuralHash(t: Type, address: nat -> nat) returns (hash: nat)
    ensures hash == KeyHash(KeyOf(t), address)
  {
    hash := Mixed(5381, KindNumber(t.kind));
    if IsPointer(t.kind) {
      hash := Mixed(hash, address(t.pointee));
    } else if IsApplied(t.kind) {
      hash := Mixed(hash, DeclHash(t.decl));
      ghost var before := hash;
      for i := 0 to |t.args|
        invariant hash == ArgsHash(before, t.args[..i], address)
      {
        assert t.args[..i + 1][..i] == t.args[..i];
        hash := Mixed(hash, if t.args[i].TypeArgument? then 0 else 1);
        hash := Mixed(hash, ArgHash(t.args[i], address));
      }
      assert t.args[..|t.args|] == t.args;
    }
  }

  /** Two types, whether they are the same object or not, as the table compares them. */
  method StructurallyEquals(one: Type, other: Type, sameObject: bool) returns (equal: bool)
    ensures equal == if IsPointer(one.kind) || IsApplied(one.kind) then KeyOf(one) == KeyOf(other)
                     else one.kind == other.kind && sameObject
  {
    if one.kind != other.kind {
      return false;
    }
    if IsPointer(one.kind) {
      return one.pointee == other.pointee;
    }
    if !IsApplied(one.kind) {
      return sameObject;
    }
    if one.decl != other.decl || |one.args| != |other.args| {
      return false;
    }
    for i := 0 to |one.args|
      invariant one.args[..i] == other.args[..i]
    {
      if one.args[i] != other.args[i] {
        return false;
      }
    }
    assert one.args[..|one.args|] == one.args && other.args[..|one.args|] == other.args;
    return true;
  }

  /** What the table compares of a type: its kind, and whom it points to, or what it applies to what. */
  datatype Key = PointerKey(kind: TypeKind, to: nat) | AppliedKey(kind: TypeKind, decl: DeclId, args: seq<TypeArg>)
    | OtherKey(kind: TypeKind)

  function KeyOf(t: Type): Key {
    if IsPointer(t.kind) then PointerKey(t.kind, t.pointee)
    else if IsApplied(t.kind) then AppliedKey(t.kind, t.decl, t.args)
    else OtherKey(t.kind)
  }

  /** Types that the table takes for equal have the same hash, which is this function of what it compares. */
  function KeyHash(key: Key, address: nat -> nat): nat {
    var hash := Mixed(5381, KindNumber(key.kind));
    match key
    case PointerKey(_, to) => Mixed(hash, address(to))
    case AppliedKey(_, decl, args) => ArgsHash(Mixed(hash, DeclHash(decl)), args, address)
    case OtherKey(_) => hash
  }

  // ----- the whole structure -----

  datatype Tree = Primitive(kind: TypeKind) | Parameter(index: nat) | Pointer(kind: TypeKind, to: Tree)
    | Applied(kind: TypeKind, decl: DeclId, args: seq<TreeArg>)

  datatype TreeArg = TreeType(tree: Tree) | TreeNumber(number: int) | TreeParam(param: nat)

  predicate ArgBelow(arg: TypeArg, i: nat) {
    arg.TypeArgument? ==> arg.ty < i
  }

  predicate ArgsBelow(args: seq<TypeArg>, i: nat) {
    forall k :: 0 <= k < |args| ==> ArgBelow(args[k], i)
  }

  /** What a type is made of was there before it. */
  predicate MadeOfEarlier(t: Type, i: nat) {
    && (IsPointer(t.kind) ==> t.pointee < i)
    && (IsApplied(t.kind) ==> ArgsBelow(t.args, i))
    && t.kind != Unknown
  }

  ghost predicate Layered(types: seq<Type>) {
    forall i :: 0 <= i < |types| ==> MadeOfEarlier(types[i], i)
  }

  ghost function TreeOf(types: seq<Type>, i: nat): Tree
    requires Layered(types) && i < |types|
    decreases i, 1
  {
    var t := types[i];
    assert MadeOfEarlier(t, i);
    if IsPointer(t.kind) then Pointer(t.kind, TreeOf(types, t.pointee))
    else if IsApplied(t.kind) then Applied(t.kind, t.decl, TreesOf(types, i, t.args))
    else if t.kind == Param then Parameter(t.index)
    else Primitive(t.kind)
  }

  ghost function TreesOf(types: seq<Type>, i: nat, args: seq<TypeArg>): (trees: seq<TreeArg>)
    requires Layered(types) && i <= |types| && ArgsBelow(args, i)
    ensures |trees| == |args|
    decreases i, 0
  {
    seq(|args|, k requires 0 <= k < |args| =>
      assert ArgBelow(args[k], i);
      match args[k]
      case TypeArgument(ty) => TreeType(TreeOf(types, ty))
      case NumberArgument(number) => TreeNumber(number)
      case ParamArgument(param) => TreeParam(param))
  }

  /** No two objects agree on what the table compares, nor stand for the same primitive or parameter. */
  ghost predicate Shared(types: seq<Type>) {
    forall i, k :: 0 <= i < k < |types| ==>
      KeyOf(types[i]) != KeyOf(types[k]) || (types[i].kind == Param && types[i].index != types[k].index)
  }

  /** Two types are the same object exactly if they are equal all the way down. */
  lemma {:induction false} SameObjectIffSameTree(types: seq<Type>, i: nat, k: nat)
    requires Layered(types) && Shared(types) && i < |types| && k < |types|
    ensures i == k <==> TreeOf(types, i) == TreeOf(types, k)
    decreases i
  {
    if TreeOf(types, i) == TreeOf(types, k) {
      var one, other := types[i], types[k];
      assert MadeOfEarlier(one, i) && MadeOfEarlier(other, k);
      if IsPointer(one.kind) {
        SameObjectIffSameTree(types, one.pointee, other.pointee);
      } else if IsApplied(one.kind) {
        var left, right := TreesOf(types, i, one.args), TreesOf(types, k, other.args);
        forall a | 0 <= a < |one.args| ensures one.args[a] == other.args[a] {
          assert left[a] == right[a];
          if one.args[a].TypeArgument? {
            SameObjectIffSameTree(types, one.args[a].ty, other.args[a].ty);
          }
        }
        assert one.args == other.args;
      }
      assert KeyOf(one) == KeyOf(other);
    }
  }

  /** What a type is made of stays, whatever is added. */
  lemma {:induction false} TreeStays(types: seq<Type>, more: seq<Type>, i: nat)
    requires Layered(types) && Layered(more) && types <= more && i < |types|
    ensures TreeOf(more, i) == TreeOf(types, i)
    decreases i
  {
    var t := types[i];
    assert MadeOfEarlier(t, i);
    if IsPointer(t.kind) {
      TreeStays(types, more, t.pointee);
    } else if IsApplied(t.kind) {
      TreesStay(types, more, i, t.args, i);
    }
  }

  lemma {:induction false} TreesStay(types: seq<Type>, more: seq<Type>, i: nat, args: seq<TypeArg>, k: nat)
    requires Layered(types) && Layered(more) && types <= more && i <= |types| && k <= |more| && ArgsBelow(args, i)
    requires ArgsBelow(args, k)
    ensures TreesOf(more, k, args) == TreesOf(types, i, args)
    decreases i, 0
  {
    forall a | 0 <= a < |args| ensures TreesOf(more, k, args)[a] == TreesOf(types, i, args)[a] {
      assert ArgBelow(args[a], i);
      if args[a].TypeArgument? {
        TreeStays(types, more, args[a].ty);
      }
    }
  }

  // ----- the registry -----

  /** The table finds every pointer and application by what it compares, and nothing else. */
  ghost predicate Indexed(types: seq<Type>, contents: map<Key, nat>) {
    && (forall i :: 0 <= i < |types| && !KeyOf(types[i]).OtherKey? ==>
          KeyOf(types[i]) in contents && contents[KeyOf(types[i])] == i)
    && (forall key :: key in contents ==> contents[key] < |types| && KeyOf(types[contents[key]]) == key)
  }

  ghost predicate ParamsListed(types: seq<Type>, params: seq<Option<nat>>) {
    && |params| == MAX_TYPE_PARAMS
    && (forall i :: 0 <= i < |types| && types[i].kind == Param ==>
          types[i].index < MAX_TYPE_PARAMS && params[types[i].index] == Some(i))
    && (forall k :: 0 <= k < MAX_TYPE_PARAMS && params[k].Some? ==>
          params[k].value < |types| && types[params[k].value].kind == Param && types[params[k].value].index == k)
  }

  const PRIMITIVES := [I32, F32, Bool, U8, Usize, Str, Error]

  /** The primitives are the first seven objects, and only those. */
  ghost predicate PrimitivesFirst(types: seq<Type>) {
    && |types| >= |PRIMITIVES|
    && (forall i :: 0 <= i < |PRIMITIVES| ==> types[i].kind == PRIMITIVES[i])
    && (forall i :: |PRIMITIVES| <= i < |types| ==> !IsPrimitive(types[i].kind))
  }

  ghost predicate Coherent(types: seq<Type>, contents: map<Key, nat>, params: seq<Option<nat>>) {
    && Layered(types) && Indexed(types, contents) && ParamsListed(types, params) && PrimitivesFirst(types)
  }

  lemma CoherentIsShared(types: seq<Type>, contents: map<Key, nat>, params: seq<Option<nat>>)
    requires Coherent(types, contents, params)
    ensures Shared(types)
  {
    forall i, k | 0 <= i < k < |types|
      ensures KeyOf(types[i]) != KeyOf(types[k]) || (types[i].kind == Param && types[i].index != types[k].index)
    {
      assert MadeOfEarlier(types[i], i);
      if KeyOf(types[i]).OtherKey? && types[i].kind != Param {
        assert i < |PRIMITIVES|;
        assert k < |PRIMITIVES| ==> PRIMITIVES[i] != PRIMITIVES[k];
      }
    }
  }

  lemma InternKeeps(types: seq<Type>, contents: map<Key, nat>, params: seq<Option<nat>>, t: Type)
    requires Coherent(types, contents, params) && MadeOfEarlier(t, |types|)
    requires !KeyOf(t).OtherKey? && KeyOf(t) !in contents
    ensures Coherent(types + [t], contents[KeyOf(t) := |types|], params)
  {
    var after := types + [t];
    forall i | 0 <= i < |after| ensures MadeOfEarlier(after[i], i) {
      assert i < |types| ==> MadeOfEarlier(types[i], i);
    }
  }

  lemma ParamKeeps(types: seq<Type>, contents: map<Key, nat>, params: seq<Option<nat>>, t: Type)
    requires Coherent(types, contents, params)
    requires t.kind == Param && t.index < MAX_TYPE_PARAMS && params[t.index].None?
    ensures Coherent(types + [t], contents, params[t.index := Some(|types|)])
  {
    var after := types + [t];
    forall i | 0 <= i < |after| ensures MadeOfEarlier(after[i], i) {
      assert i < |types| ==> MadeOfEarlier(types[i], i);
    }
  }

  class TypeRegistry {
    const address: nat -> nat
    const sliceDecl: DeclId
    const arrayDecl: DeclId
    const rawDecl: DeclId
    const applications: HashMap<Key, nat>
    var types: seq<Type>
    var params: seq<Option<nat>>

    ghost predicate Valid()
      reads this, applications, applications.entries
    {
      applications.Valid() && Coherent(types, applications.contents, params)
    }

    /** The tree that a type stands for. */
    ghost function TreeAt(i: nat): Tree
      reads this, applications, applications.entries
      requires Valid() && i < |types|
    {
      TreeOf(types, i)
    }

    constructor (address: nat -> nat, sliceDecl: DeclId, arrayDecl: DeclId, rawDecl: DeclId, capacity: nat)
      requires capacity >= 2 && PowerOfTwo(capacity)
      ensures Valid() && fresh(applications) && fresh(applications.entries)
    {
      this.address, this.sliceDecl, this.arrayDecl, this.rawDecl := address, sliceDecl, arrayDecl, rawDecl;
      applications := new HashMap<Key, nat>(key => KeyHash(key, address), capacity);
      types := seq(|PRIMITIVES|, i requires 0 <= i < |PRIMITIVES| => Type(PRIMITIVES[i], NO_DECL, [], 0, 0));
      params := seq(MAX_TYPE_PARAMS, _ => None);
    }

    /** Two types are the same object exactly if they are equal all the way down. */
    ghost method SameIffEqual(i: nat, k: nat)
      requires Valid() && i < |types| && k < |types|
      ensures i == k <==> TreeAt(i) == TreeAt(k)
    {
      CoherentIsShared(types, applications.contents, params);
      SameObjectIffSameTree(types, i, k);
    }

    method Intern(t: Type) returns (found: nat)
      requires Valid() && MadeOfEarlier(t, |types|) && !KeyOf(t).OtherKey?
      modifies this`types, applications, applications.entries
      ensures Valid() && (applications.entries == old(applications.entries) || fresh(applications.entries))
      ensures old(types) <= types <= old(types) + [t]
      ensures found < |types| && KeyOf(types[found]) == KeyOf(t)
    {
      var existing := applications.Lookup(KeyOf(t));
      if existing.Some? {
        return existing.value;
      }
      InternKeeps(types, applications.contents, params, t);
      found := |types|;
      var _ := applications.Insert(KeyOf(t), found);
      types := types + [t];
    }

    /** Interns an application; its arguments are copied only when it is new. */
    method InternApplied(t: Type) returns (found: nat)
      requires Valid() && MadeOfEarlier(t, |types|) && !KeyOf(t).OtherKey?
      modifies this`types, applications, applications.entries
      ensures Valid() && (applications.entries == old(applications.entries) || fresh(applications.entries))
      ensures old(types) <= types <= old(types) + [t]
      ensures found < |types| && KeyOf(types[found]) == KeyOf(t)
    {
      var existing := applications.Lookup(KeyOf(t));
      if existing.Some? {
        return existing.value;
      }
      found := Intern(t);
    }

    method RefTo(inner: nat) returns (found: nat)
      requires Valid() && inner < |types|
      modifies this`types, applications, applications.entries
      ensures Valid() && (applications.entries == old(applications.entries) || fresh(applications.entries))
      ensures old(types) <= types && found < |types|
      ensures TreeAt(found) == Pointer(Ref, old(TreeAt(inner)))
    {
      ghost var before := types;
      found := Intern(Type(Ref, NO_DECL, [], inner, 0));
      TreeStays(before, types, inner);
    }

    method RawOf(element: nat) returns (found: nat)
      requires Valid() && element < |types|
      modifies this`types, applications, applications.entries
      ensures Valid() && (applications.entries == old(applications.entries) || fresh(applications.entries))
      ensures old(types) <= types && found < |types|
      ensures TreeAt(found) == Pointer(Raw, old(TreeAt(element)))
    {
      ghost var before := types;
      found := InternApplied(Type(Raw, rawDecl, [TypeArgument(element)], element, 0));
      TreeStays(before, types, element);
    }

    /** An application of a declaration to arguments: the work of the three constructors below. */
    method Apply(kind: TypeKind, decl: DeclId, args: seq<TypeArg>) returns (found: nat)
      requires Valid() && IsApplied(kind) && ArgsBelow(args, |types|)
      modifies this`types, applications, applications.entries
      ensures Valid() && (applications.entries == old(applications.entries) || fresh(applications.entries))
      ensures old(types) <= types && found < |types|
      ensures TreeAt(found) == Applied(kind, decl, old(TreesOf(types, |types|, args)))
    {
      ghost var before := types;
      found := InternApplied(Type(kind, decl, args, 0, 0));
      assert MadeOfEarlier(types[found], found);
      TreesStay(before, types, |before|, args, found);
    }

    method SliceOf(element: nat) returns (found: nat)
      requires Valid() && element < |types|
      modifies this`types, applications, applications.entries
      ensures Valid() && (applications.entries == old(applications.entries) || fresh(applications.entries))
      ensures old(types) <= types && found < |types|
      ensures TreeAt(found) == Applied(Slice, sliceDecl, [TreeType(old(TreeAt(element)))])
    {
      found := Apply(Slice, sliceDecl, [TypeArgument(element)]);
    }

    /** An array whose length is a number or a parameter. */
    method ArrayWith(element: nat, length: TypeArg) returns (found: nat)
      requires Valid() && element < |types| && ArgBelow(length, |types|)
      modifies this`types, applications, applications.entries
      ensures Valid() && (applications.entries == old(applications.entries) || fresh(applications.entries))
      ensures old(types) <= types && found < |types|
      ensures TreeAt(found) ==
              Applied(Array, arrayDecl, old(TreesOf(types, |types|, [TypeArgument(element), length])))
    {
      found := Apply(Array, arrayDecl, [TypeArgument(element), length]);
    }

    method Instantiate(decl: DeclId, args: seq<TypeArg>) returns (found: nat)
      requires Valid() && ArgsBelow(args, |types|) && |args| <= MAX_TYPE_PARAMS
      modifies this`types, applications, applications.entries
      ensures Valid() && (applications.entries == old(applications.entries) || fresh(applications.entries))
      ensures old(types) <= types && found < |types|
      ensures TreeAt(found) == Applied(Struct, decl, old(TreesOf(types, |types|, args)))
    {
      found := Apply(Struct, decl, args);
    }

    method ParamType(index: nat) returns (found: nat)
      requires Valid() && index < MAX_TYPE_PARAMS
      modifies this`types, this`params
      ensures Valid() && old(types) <= types && found < |types|
      ensures TreeAt(found) == Parameter(index)
    {
      hide Layered, Indexed, PrimitivesFirst;
      if params[index].None? {
        var t := Type(Param, NO_DECL, [], 0, index);
        ParamKeeps(types, applications.contents, params, t);
        types, params := types + [t], params[index := Some(|types|)];
      }
      found := params[index].value;
    }

    method PrimitiveType(kind: TypeKind) returns (found: nat)
      requires Valid() && IsPrimitive(kind)
      ensures found < |types| && TreeAt(found) == Primitive(kind)
    {
      hide Layered, Indexed, ParamsListed;
      found :=
        if kind == I32 then 0 else if kind == F32 then 1 else if kind == Bool then 2 else if kind == U8 then 3
        else if kind == Usize then 4 else if kind == Str then 5 else 6;
      assert PRIMITIVES[found] == kind;
    }
  }
}
