/** What a body releases before drops are elaborated: the meaning that elaboration has to keep. It reads
    the fields of each instruction and knows nothing of the passes. */
module DropMeaning {
  import opened Mir

  /** The whole places that hold nothing any more, and the places released so far, in order. */
  datatype Ownership = Ownership(gone: set<nat>, released: seq<Place>)

  const ALL_HELD := Ownership({}, [])

  predicate Whole(place: Place) {
    place.base != NO_VALUE && place.projections == []
  }

  /** A drop releases its place unless the whole of it is gone. A moving read of an owning place takes the
      object away and a `Null` forgets it; a store and an initialisation put one there. */
  function OwnStep(inst: Inst, s: Ownership): Ownership {
    if inst.op == Drop then
      if Whole(inst.place) && inst.place.base in s.gone then s
      else s.(released := s.released + [inst.place])
    else if !Whole(inst.place) then s
    else
      match inst.op
      case Load => if inst.read == ReadMove && inst.ty.owns then s.(gone := s.gone + {inst.place.base}) else s
      case Null => s.(gone := s.gone + {inst.place.base})
      case Store => s.(gone := s.gone - {inst.place.base})
      case StorageInit => s.(gone := s.gone - {inst.place.base})
      case _ => s
  }

  function OwnRun(insts: seq<Inst>, s: Ownership): Ownership {
    if |insts| == 0 then s else OwnStep(insts[|insts| - 1], OwnRun(insts[..|insts| - 1], s))
  }

  /** A path through the body, block by block. At the start every place holds its object. */
  ghost function OwnPath(body: Body, path: seq<nat>): Ownership
    requires forall i :: 0 <= i < |path| ==> path[i] < |body.blocks|
  {
    if |path| == 0 then ALL_HELD
    else OwnRun(body.blocks[path[|path| - 1]], OwnPath(body, path[..|path| - 1]))
  }
}
