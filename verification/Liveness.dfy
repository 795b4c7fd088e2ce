/** The liveness pass: a backward fixpoint over words that pack one bit per place, shown to
    compute liveness exactly. A 64-bit word is represented by the set of its one bits. */
module LivenessPass {
  import opened Mir
  import opened LivePaths

  type Word = bits: set<nat> | forall k :: k in bits ==> k < 64

  type Words = seq<Word>

  predicate Has(words: Words, index: nat) {
    index / 64 < |words| && index % 64 in words[index / 64]
  }

  // ----- the numbering of places -----

  /** The index of the first slot of value `v`: all slots of the values before it come first. */
  function Base(values: seq<Type>, v: nat): nat
    requires v <= |values|
  {
    if v == 0 then 0 else Base(values, v - 1) + 1 + FieldsOf(values[v - 1])
  }

  function IndexOf(values: seq<Type>, slot: Slot): nat
    requires slot.value < |values|
  {
    Base(values, slot.value) + if slot.field == WHOLE_VALUE then 0 else 1 + slot.field
  }

  lemma {:induction false} BaseGrows(values: seq<Type>, v: nat, w: nat)
    requires v < w <= |values|
    ensures Base(values, v) + 1 + FieldsOf(values[v]) <= Base(values, w)
  {
    if v < w - 1 {
      BaseGrows(values, v, w - 1);
    }
  }

  /** No two slots share a bit, and every slot has one. */
  lemma IndexIsInjective(values: seq<Type>, one: Slot, other: Slot)
    requires IsSlot(values, one) && IsSlot(values, other)
    ensures IndexOf(values, one) == IndexOf(values, other) <==> one == other
    ensures IndexOf(values, one) < Base(values, |values|)
  {
    BaseGrows(values, one.value, |values|);
    if one.value < other.value {
      BaseGrows(values, one.value, other.value);
    } else if other.value < one.value {
      BaseGrows(values, other.value, one.value);
    }
  }

  // ----- one word set at a time -----

  method NumberPlaces(values: seq<Type>) returns (base: array<nat>, fields: array<nat>, places: nat)
    ensures fresh(base) && fresh(fields) && base.Length == fields.Length == |values|
    ensures forall v {:trigger base[v]} :: 0 <= v < |values| ==> base[v] == Base(values, v)
    ensures forall v {:trigger fields[v]} :: 0 <= v < |values| ==> fields[v] == FieldsOf(values[v])
    ensures places == Base(values, |values|)
  {
    base := new nat[|values|];
    fields := new nat[|values|];
    places := 0;
    for i := 0 to |values|
      invariant places == Base(values, i)
      invariant forall v {:trigger base[v]} :: 0 <= v < i ==> base[v] == Base(values, v)
      invariant forall v {:trigger fields[v]} :: 0 <= v < i ==> fields[v] == FieldsOf(values[v])
    {
      base[i] := places;
      fields[i] := if values[i].kind == Struct then values[i].fieldCount else 0;
      places := places + 1 + fields[i];
    }
  }

  class Layout {
    const values: seq<Type>
    const valueBase: array<nat>
    const valueFields: array<nat>
    const words: nat

    ghost predicate Valid()
      reads valueBase, valueFields
    {
      && valueBase.Length == valueFields.Length == |values|
      && (forall v {:trigger valueBase[v]} :: 0 <= v < |values| ==> valueBase[v] == Base(values, v))
      && (forall v {:trigger valueFields[v]} :: 0 <= v < |values| ==> valueFields[v] == FieldsOf(values[v]))
      && Base(values, |values|) <= 64 * words
    }

    constructor (values: seq<Type>)
      ensures Valid() && this.values == values && words > 0
      ensures fresh(valueBase) && fresh(valueFields)
    {
      var base, fields, places := NumberPlaces(values);
      this.values := values;
      valueBase, valueFields := base, fields;
      words := if (places + 63) / 64 == 0 then 1 else (places + 63) / 64;
    }

    method PlaceIndex(value: nat, field: nat) returns (index: nat)
      requires Valid() && value < |values|
      ensures index == IndexOf(values, SlotOf(values, value, field))
      ensures index < 64 * words
    {
      var base := valueBase[value];
      index := if field == WHOLE_VALUE || field >= valueFields[value] then base else base + 1 + field;
      IndexIsInjective(values, SlotOf(values, value, field), SlotOf(values, value, field));
    }
  }

  ghost predicate Fits(layout: Layout, live: array<Word>)
    reads layout.valueBase, layout.valueFields
  {
    && layout.Valid() && live.Length == layout.words
    && live as object !in {layout.valueBase as object, layout.valueFields as object}
  }

  ghost predicate IsLive(layout: Layout, live: Words, slot: Slot)
    requires slot.value < |layout.values|
  {
    Has(live, IndexOf(layout.values, slot))
  }

  method SetAdd(live: array<Word>, index: nat)
    requires index < 64 * live.Length
    modifies live
    ensures forall k: nat :: Has(live[..], k) <==> k == index || Has(old(live[..]), k)
  {
    live[index / 64] := live[index / 64] + {index % 64};
  }

  method SetRemove(live: array<Word>, index: nat)
    requires index < 64 * live.Length
    modifies live
    ensures forall k: nat :: Has(live[..], k) <==> k != index && Has(old(live[..]), k)
  {
    live[index / 64] := live[index / 64] - {index % 64};
  }

  /** Adds every slot the value and field touch. */
  method ReadPlace(layout: Layout, live: array<Word>, value: nat, field: nat)
    requires Fits(layout, live)
    modifies live
    ensures forall slot :: IsSlot(layout.values, slot) ==>
              (IsLive(layout, live[..], slot) <==>
                 Touches(layout.values, value, field, slot) || IsLive(layout, old(live[..]), slot))
  {
    if value == NO_VALUE || value >= |layout.values| {
      return;
    }
    var index := layout.PlaceIndex(value, field);
    ghost var first := SlotOf(layout.values, value, field);
    SetAdd(live, index);
    AloneAt(layout, first);
    if field != WHOLE_VALUE {
      return;
    }
    for i := 0 to layout.valueFields[value]
      invariant forall slot :: IsSlot(layout.values, slot) ==>
                  (IsLive(layout, live[..], slot) <==>
                     (slot.value == value && (slot == first || slot.field < i)) ||
                     IsLive(layout, old(live[..]), slot))
    {
      index := layout.PlaceIndex(value, i);
      SetAdd(live, index);
      AloneAt(layout, SlotOf(layout.values, value, i));
    }
  }

  /** Removes every slot the value and field touch. */
  method WritePlace(layout: Layout, live: array<Word>, value: nat, field: nat)
    requires Fits(layout, live)
    modifies live
    ensures forall slot :: IsSlot(layout.values, slot) ==>
              (IsLive(layout, live[..], slot) <==>
                 !Touches(layout.values, value, field, slot) && IsLive(layout, old(live[..]), slot))
  {
    if value == NO_VALUE || value >= |layout.values| {
      return;
    }
    var index := layout.PlaceIndex(value, field);
    ghost var first := SlotOf(layout.values, value, field);
    SetRemove(live, index);
    AloneAt(layout, first);
    if field != WHOLE_VALUE {
      return;
    }
    for i := 0 to layout.valueFields[value]
      invariant forall slot :: IsSlot(layout.values, slot) ==>
                  (IsLive(layout, live[..], slot) <==>
                     !(slot.value == value && (slot == first || slot.field < i)) &&
                     IsLive(layout, old(live[..]), slot))
    {
      index := layout.PlaceIndex(value, i);
      SetRemove(live, index);
      AloneAt(layout, SlotOf(layout.values, value, i));
    }
  }

  lemma AloneAt(layout: Layout, slot: Slot)
    requires IsSlot(layout.values, slot)
    ensures forall other :: IsSlot(layout.values, other) ==>
              (IndexOf(layout.values, other) == IndexOf(layout.values, slot) <==> other == slot)
  {
    forall other | IsSlot(layout.values, other)
      ensures IndexOf(layout.values, other) == IndexOf(layout.values, slot) <==> other == slot
    {
      IndexIsInjective(layout.values, other, slot);
    }
  }

  method ReadIndices(layout: Layout, live: array<Word>, place: Place)
    requires Fits(layout, live)
    modifies live
    ensures forall slot :: IsSlot(layout.values, slot) ==>
              (IsLive(layout, live[..], slot) <==>
                 ReadsIndices(layout.values, place, slot) || IsLive(layout, old(live[..]), slot))
  {
    for i := 0 to |place.projections|
      invariant forall slot :: IsSlot(layout.values, slot) ==>
                  (IsLive(layout, live[..], slot) <==>
                     ReadsIndices(layout.values, Place(place.base, place.projections[..i]), slot) ||
                     IsLive(layout, old(live[..]), slot))
    {
      ghost var sooner, later := place.projections[..i], place.projections[..i + 1];
      assert later == sooner + [place.projections[i]];
      if place.projections[i].Index? {
        ReadPlace(layout, live, place.projections[i].index, WHOLE_VALUE);
      }
      forall slot | IsSlot(layout.values, slot)
        ensures ReadsIndices(layout.values, Place(place.base, later), slot) <==>
                  ReadsIndices(layout.values, Place(place.base, sooner), slot) ||
                  (place.projections[i].Index? &&
                   Touches(layout.values, place.projections[i].index, WHOLE_VALUE, slot))
      {
        OneMoreIndex(layout.values, place.base, sooner, place.projections[i], slot);
      }
    }
    assert place.projections[..|place.projections|] == place.projections;
  }

  lemma OneMoreIndex(values: seq<Type>, base: nat, projections: seq<Projection>, next: Projection, slot: Slot)
    ensures ReadsIndices(values, Place(base, projections + [next]), slot) <==>
              ReadsIndices(values, Place(base, projections), slot) ||
              (next.Index? && Touches(values, next.index, WHOLE_VALUE, slot))
  {
    var longer := projections + [next];
    assert longer[|projections|] == next;
    assert forall i :: 0 <= i < |projections| ==> longer[i] == projections[i];
  }

  method ReadArgs(layout: Layout, live: array<Word>, inst: Inst)
    requires Fits(layout, live)
    modifies live
    ensures forall slot :: IsSlot(layout.values, slot) ==>
              (IsLive(layout, live[..], slot) <==>
                 ReadsArgs(layout.values, inst, slot) || IsLive(layout, old(live[..]), slot))
  {
    for i := 0 to |inst.args|
      invariant forall slot :: IsSlot(layout.values, slot) ==>
                  (IsLive(layout, live[..], slot) <==>
                     (exists a :: 0 <= a < i && Touches(layout.values, OperandValue(inst.args[a]), WHOLE_VALUE, slot)) ||
                     IsLive(layout, old(live[..]), slot))
    {
      ReadPlace(layout, live, OperandValue(inst.args[i]), WHOLE_VALUE);
    }
  }

  /** Meets one instruction backwards. */
  method StepBackwards(layout: Layout, live: array<Word>, inst: Inst)
    requires Fits(layout, live)
    modifies live
    ensures forall slot :: IsSlot(layout.values, slot) ==>
              (IsLive(layout, live[..], slot) <==>
                 Reads(layout.values, inst, slot) ||
                 (!Writes(layout.values, inst, slot) && IsLive(layout, old(live[..]), slot)))
  {
    if inst.result != NO_VALUE {
      WritePlace(layout, live, inst.result, WHOLE_VALUE);
    }
    if inst.op == Store {
      WritePlace(layout, live, inst.place.base, LeadingField(inst.place));
      if |inst.place.projections| > 1 {
        ReadPlace(layout, live, inst.place.base, LeadingField(inst.place));
      }
      ReadIndices(layout, live, inst.place);
    } else if inst.op == Load || inst.op == Ref || inst.op == Drop {
      ReadPlace(layout, live, inst.place.base, LeadingField(inst.place));
      ReadIndices(layout, live, inst.place);
    }
    if inst.op == StorageLive || inst.op == StorageDead {
      WritePlace(layout, live, inst.place.base, WHOLE_VALUE);
    }
    ReadArgs(layout, live, inst);
  }
}
