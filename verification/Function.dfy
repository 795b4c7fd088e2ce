/** The function body that the passes rewrite in place. */
module Functions {
  import opened Mir

  class Function {
    var blocks: seq<Block>
    var values: seq<Type>
    const entry: nat
    const params: seq<nat>

    ghost function View(): Body
      reads this
    {
      Body(blocks, values, entry, params)
    }

    constructor (body: Body)
      ensures View() == body
    {
      blocks := body.blocks;
      values := body.values;
      entry := body.entry;
      params := body.params;
    }

    /** Gives out the next value id. */
    method CreateValue(ty: Type) returns (value: nat)
      modifies this`values
      ensures value == |old(values)| && values == old(values) + [ty]
    {
      value := |values|;
      values := values + [ty];
    }

    method InsertAt(block: nat, at: nat, inst: Inst)
      requires block < |blocks| && at <= |blocks[block]|
      modifies this`blocks
      ensures blocks == old(blocks)[block := old(blocks[block])[..at] + [inst] + old(blocks[block])[at..]]
    {
      blocks := blocks[block := blocks[block][..at] + [inst] + blocks[block][at..]];
    }

    method RemoveAt(block: nat, at: nat)
      requires block < |blocks| && at < |blocks[block]|
      modifies this`blocks
      ensures blocks == old(blocks)[block := old(blocks[block])[..at] + old(blocks[block])[at + 1..]]
    {
      blocks := blocks[block := blocks[block][..at] + blocks[block][at + 1..]];
    }
  }
}
