/** The bump arena: blocks kept in a list, one of them being filled, and a dedicated block for each
    request that no ordinary block could hold. */
module Arenas {
  /** What a block's own header takes, before its memory. */
  const HEADER := 40

  datatype Block = Block(base: nat, capacity: nat, offset: nat, dedicated: bool)

  /** An allocation: where it starts and how many bytes it has. */
  datatype Piece = Piece(start: nat, size: nat)

  datatype Checkpoint = Checkpoint(base: nat, offset: nat)

  function AlignUp(n: nat): (aligned: nat)
    ensures aligned % 8 == 0 && n <= aligned < n + 8
  {
    (n + 7) / 8 * 8
  }

  predicate Disjoint(p: Piece, q: Piece) {
    p.start + p.size <= q.start || q.start + q.size <= p.start
  }

  /** Two blocks, headers included, that share no byte. */
  predicate Apart(b: Block, base: nat, capacity: nat) {
    b.base + b.capacity + HEADER <= base || base + capacity + HEADER <= b.base
  }

  predicate HousedIn(p: Piece, b: Block) {
    b.base <= p.start && p.start + p.size <= b.base + b.offset
  }

  ghost predicate Housed(p: Piece, blocks: seq<Block>) {
    exists k :: 0 <= k < |blocks| && HousedIn(p, blocks[k])
  }

  predicate WellFormed(b: Block, blockSize: nat) {
    && b.base % 8 == 0 && b.offset <= b.capacity
    && (if b.dedicated then b.capacity > blockSize else b.capacity == blockSize)
  }

  ghost predicate AllApart(blocks: seq<Block>) {
    forall i, k :: 0 <= i < k < |blocks| ==> Apart(blocks[i], blocks[k].base, blocks[k].capacity)
  }

  /** The list of blocks: the one being filled is an ordinary one, and so is the first; the ordinary
      blocks after the one being filled are empty. */
  ghost predicate ListValid(blocks: seq<Block>, current: nat, blockSize: nat) {
    && current < |blocks| && !blocks[0].dedicated && !blocks[current].dedicated
    && (forall k :: 0 <= k < |blocks| ==> WellFormed(blocks[k], blockSize))
    && (forall k :: current < k < |blocks| && !blocks[k].dedicated ==> blocks[k].offset == 0)
    && AllApart(blocks)
  }

  /** The pieces handed out and not taken back are aligned, lie inside one block each, and share nothing. */
  ghost predicate PiecesValid(live: set<Piece>, blocks: seq<Block>, current: nat) {
    && (forall p :: p in live ==> p.start % 8 == 0 && Housed(p, blocks))
    && (forall p, q :: p in live && q in live && p != q ==> Disjoint(p, q))
    && (forall p, k :: p in live && current < k < |blocks| && HousedIn(p, blocks[k]) ==> blocks[k].dedicated)
  }

  /** A piece in a dedicated block that comes after the one being filled. */
  ghost predicate Exposed(p: Piece, blocks: seq<Block>, current: nat) {
    exists k :: current < k < |blocks| && blocks[k].dedicated && HousedIn(p, blocks[k])
  }

  /** The blocks up to the one being filled are still where they were, and hold what they held. */
  ghost predicate Extends(before: seq<Block>, current: nat, after: seq<Block>, now: nat) {
    && current < |before| && current <= now < |after|
    && after[..current] == before[..current]
    && after[current].base == before[current].base && after[current].capacity == before[current].capacity
    && after[current].offset >= before[current].offset
  }

  lemma ExtendsOn(first: seq<Block>, i: nat, second: seq<Block>, k: nat, third: seq<Block>, n: nat)
    requires Extends(first, i, second, k) && Extends(second, k, third, n)
    ensures Extends(first, i, third, n)
  {
    assert third[..i] == third[..k][..i] == second[..k][..i] == second[..i];
    if i < k {
      assert third[i] == third[..k][i] == second[..k][i];
    }
  }

  /** The list with a block put in after the one being filled. */
  function Inserted(blocks: seq<Block>, current: nat, b: Block): (after: seq<Block>)
    requires current < |blocks|
    ensures |after| == |blocks| + 1
  {
    blocks[..current + 1] + [b] + blocks[current + 1..]
  }

  lemma InsertedAt(blocks: seq<Block>, current: nat, b: Block, k: nat)
    requires current < |blocks| && k <= |blocks|
    ensures Inserted(blocks, current, b)[k] ==
            if k <= current then blocks[k] else if k == current + 1 then b else blocks[k - 1]
  {
  }

  lemma InsertKeepsApart(blocks: seq<Block>, current: nat, b: Block)
    requires current < |blocks| && AllApart(blocks)
    requires forall k :: 0 <= k < |blocks| ==> Apart(blocks[k], b.base, b.capacity)
    ensures AllApart(Inserted(blocks, current, b))
  {
    hide Inserted;
    var after := Inserted(blocks, current, b);
    forall i, k | 0 <= i < k < |after| ensures Apart(after[i], after[k].base, after[k].capacity) {
      InsertedAt(blocks, current, b, i);
      InsertedAt(blocks, current, b, k);
    }
  }

  lemma InsertKeepsList(blocks: seq<Block>, current: nat, blockSize: nat, b: Block, now: nat)
    requires ListValid(blocks, current, blockSize) && WellFormed(b, blockSize)
    requires now == if b.dedicated then current else current + 1
    requires forall k :: 0 <= k < |blocks| ==> Apart(blocks[k], b.base, b.capacity)
    ensures ListValid(Inserted(blocks, current, b), now, blockSize)
  {
    hide AllApart, Inserted, Apart, WellFormed;
    InsertKeepsApart(blocks, current, b);
    var after := Inserted(blocks, current, b);
    forall k | 0 <= k < |after|
      ensures WellFormed(after[k], blockSize) && (now < k && !after[k].dedicated ==> after[k].offset == 0)
    {
      InsertedAt(blocks, current, b, k);
    }
    InsertedAt(blocks, current, b, 0);
    InsertedAt(blocks, current, b, now);
  }

  lemma InsertKeepsPieces(blocks: seq<Block>, current: nat, b: Block, now: nat, live: set<Piece>)
    requires current < |blocks| && PiecesValid(live, blocks, current)
    requires now == if b.dedicated then current else current + 1
    ensures PiecesValid(live, Inserted(blocks, current, b), now)
  {
    hide HousedIn, Disjoint;
    var after := Inserted(blocks, current, b);
    forall p | p in live ensures Housed(p, after) {
      var k :| 0 <= k < |blocks| && HousedIn(p, blocks[k]);
      assert after[if k <= current then k else k + 1] == blocks[k];
    }
  }

  lemma ApartAt(blocks: seq<Block>, i: nat, k: nat)
    requires AllApart(blocks) && i < |blocks| && k < |blocks| && i != k
    ensures Apart(blocks[i], blocks[k].base, blocks[k].capacity)
  {
    if k < i {
      assert Apart(blocks[k], blocks[i].base, blocks[i].capacity);
    }
  }

  /** What lies in one block meets nothing of another. */
  lemma TwoHouses(blocks: seq<Block>, p: Piece, q: Piece, i: nat, k: nat)
    requires AllApart(blocks) && i < |blocks| && k < |blocks| && i != k
    requires HousedIn(q, blocks[i]) && blocks[i].offset <= blocks[i].capacity
    requires blocks[k].base <= p.start && p.start + p.size <= blocks[k].base + blocks[k].capacity
    ensures Disjoint(p, q) && p != q
  {
    ApartAt(blocks, i, k);
  }

  lemma NotElsewhere(blocks: seq<Block>, p: Piece, i: nat, k: nat)
    requires AllApart(blocks) && i < |blocks| && k < |blocks| && i != k
    requires HousedIn(p, blocks[i]) && blocks[i].offset <= blocks[i].capacity
    requires blocks[k].offset <= blocks[k].capacity
    ensures !HousedIn(p, blocks[k])
  {
    ApartAt(blocks, i, k);
  }

  /** No piece is in two blocks. */
  lemma OneHouse(blocks: seq<Block>, p: Piece, i: nat, k: nat)
    requires AllApart(blocks) && i < |blocks| && k < |blocks|
    requires HousedIn(p, blocks[i]) && blocks[i].offset <= blocks[i].capacity
    requires blocks[k].base <= p.start && p.start + p.size <= blocks[k].base + blocks[k].capacity
    ensures i == k
  {
    if i != k {
      TwoHouses(blocks, p, p, i, k);
    }
  }

  function Filled(blocks: seq<Block>, k: nat, p: Piece): seq<Block>
    requires k < |blocks| && blocks[k].base <= p.start
  {
    blocks[k := blocks[k].(offset := p.start + p.size - blocks[k].base)]
  }

  /** Where a new piece may go: at the unused end of the block being filled, or of a dedicated one. */
  ghost predicate Free(blocks: seq<Block>, current: nat, k: nat, p: Piece) {
    && current < |blocks| && (k == current || (current < k < |blocks| && blocks[k].dedicated))
    && p.start % 8 == 0 && blocks[k].base + blocks[k].offset <= p.start
    && p.start + p.size <= blocks[k].base + blocks[k].capacity
  }

  lemma PlaceKeepsList(blocks: seq<Block>, current: nat, blockSize: nat, k: nat, p: Piece)
    requires ListValid(blocks, current, blockSize) && Free(blocks, current, k, p)
    ensures ListValid(Filled(blocks, k, p), current, blockSize)
  {
  }

  /** A piece put at the unused end of a block meets no other piece. */
  lemma PlaceKeeps(blocks: seq<Block>, current: nat, blockSize: nat, live: set<Piece>, k: nat, p: Piece)
    requires ListValid(blocks, current, blockSize) && PiecesValid(live, blocks, current)
    requires Free(blocks, current, k, p)
    ensures forall q :: q in live ==> Disjoint(p, q)
    ensures HousedIn(p, Filled(blocks, k, p)[k])
    ensures ListValid(Filled(blocks, k, p), current, blockSize)
    ensures PiecesValid(live + {p}, Filled(blocks, k, p), current)
  {
    hide AllApart;
    PlaceKeepsList(blocks, current, blockSize, k, p);
    var after := Filled(blocks, k, p);
    assert HousedIn(p, after[k]);
    forall q | q in live ensures Disjoint(p, q) && Housed(q, after) {
      var i :| 0 <= i < |blocks| && HousedIn(q, blocks[i]);
      assert HousedIn(q, after[i]);
      if i != k {
        TwoHouses(blocks, p, q, i, k);
      }
    }
    forall q, i | q in live + {p} && current < i < |after| && HousedIn(q, after[i]) ensures after[i].dedicated {
      if q == p {
        OneHouse(after, p, k, i);
      }
    }
  }

  lemma PlacedAfter(blocks: seq<Block>, current: nat, blockSize: nat, k: nat, p: Piece)
    requires ListValid(blocks, current, blockSize) && Free(blocks, current, k, p) && p.size > 0
    ensures !Before(p, blocks, current, blocks[current].offset)
  {
    hide AllApart;
    PlaceKeepsList(blocks, current, blockSize, k, p);
    if Housed(p, blocks[..current]) {
      var i :| 0 <= i < current && HousedIn(p, blocks[..current][i]);
      OneHouse(blocks, p, i, k);
    }
    if HousedIn(p, blocks[current]) {
      OneHouse(blocks, p, current, k);
    }
  }

  /** Some address that no block touches; which one is up to the system's allocator. */
  method Malloc(blocks: seq<Block>, capacity: nat) returns (memory: nat)
    ensures memory % 8 == 0
    ensures forall k :: 0 <= k < |blocks| ==> Apart(blocks[k], memory, capacity)
  {
    memory := HEADER;
    for i := 0 to |blocks|
      invariant memory % 8 == 0
      invariant forall k :: 0 <= k < i ==> blocks[k].base + blocks[k].capacity + HEADER <= memory
    {
      var past := AlignUp(blocks[i].base + blocks[i].capacity + HEADER);
      memory := if past > memory then past else memory;
    }
  }

  /** The blocks after a rewind: the marked one cut back, the ones after it emptied. */
  function Rewound(blocks: seq<Block>, i: nat, offset: nat): (after: seq<Block>)
    requires i < |blocks|
    ensures |after| == |blocks|
  {
    seq(|blocks|, k requires 0 <= k < |blocks| =>
      if k < i then blocks[k] else if k == i then blocks[k].(offset := offset) else blocks[k].(offset := 0))
  }

  /** Taken before a mark: in an earlier block, or in the marked one below the mark. */
  ghost predicate Before(p: Piece, blocks: seq<Block>, i: nat, offset: nat)
    requires i < |blocks|
  {
    Housed(p, blocks[..i]) || HousedIn(p, blocks[i].(offset := offset))
  }

  ghost function Kept(live: set<Piece>, blocks: seq<Block>, i: nat, offset: nat): set<Piece>
    requires i < |blocks|
  {
    set p | p in live && Before(p, blocks, i, offset)
  }

  lemma RewindKeeps(blocks: seq<Block>, current: nat, blockSize: nat, live: set<Piece>, i: nat, offset: nat)
    requires ListValid(blocks, current, blockSize) && PiecesValid(live, blocks, current)
    requires i <= current && !blocks[i].dedicated && offset <= blocks[i].offset
    ensures var after := Rewound(blocks, i, offset);
            && ListValid(after, i, blockSize)
            && PiecesValid(Kept(live, blocks, i, offset), after, i)
  {
    var after := Rewound(blocks, i, offset);
    var kept := Kept(live, blocks, i, offset);
    forall p | p in kept ensures Housed(p, after[..i + 1]) {
      if Housed(p, blocks[..i]) {
        var k :| 0 <= k < i && HousedIn(p, blocks[..i][k]);
        assert HousedIn(p, after[..i + 1][k]);
      } else {
        assert HousedIn(p, after[..i + 1][i]);
      }
    }
    assert AllApart(after);
    forall p, k | p in kept && i < k < |after| ensures !HousedIn(p, after[k]) {
      var j :| 0 <= j < i + 1 && HousedIn(p, after[..i + 1][j]);
      NotElsewhere(after, p, j, k);
    }
  }

  /** At the moment of a checkpoint every piece is before the mark, except the exposed ones. */
  lemma BeforeUnlessExposed(blocks: seq<Block>, current: nat, blockSize: nat, live: set<Piece>, p: Piece)
    requires ListValid(blocks, current, blockSize) && PiecesValid(live, blocks, current) && p in live
    ensures Before(p, blocks, current, blocks[current].offset) <==> !Exposed(p, blocks, current)
  {
    hide AllApart;
    var k :| 0 <= k < |blocks| && HousedIn(p, blocks[k]);
    if k < current {
      assert HousedIn(p, blocks[..current][k]);
    }
    if Housed(p, blocks[..current]) {
      var j :| 0 <= j < current && HousedIn(p, blocks[..current][j]);
      OneHouse(blocks, p, j, k);
    } else if HousedIn(p, blocks[current]) {
      OneHouse(blocks, p, current, k);
    }
    if Exposed(p, blocks, current) {
      var n :| current < n < |blocks| && blocks[n].dedicated && HousedIn(p, blocks[n]);
      OneHouse(blocks, p, n, k);
    }
  }

  /** What was before the fill point stays before it, whatever is taken. */
  lemma BeforeLater(before: seq<Block>, i: nat, after: seq<Block>, now: nat, p: Piece)
    requires Extends(before, i, after, now) && Before(p, before, i, before[i].offset)
    ensures Before(p, after, now, after[now].offset)
  {
    if Housed(p, before[..i]) {
      var k :| 0 <= k < i && HousedIn(p, before[..i][k]);
      assert after[..i][k] == after[..now][k] == after[k];
    } else if i < now {
      assert HousedIn(p, after[..now][i]);
    }
  }

  /** From one point to a later one: the pieces that were not exposed are still there, and those that are
      new have no byte before the place the arena was then filled to. */
  ghost predicate Session(blocks: seq<Block>, current: nat, older: set<Piece>, live: set<Piece>)
    requires current < |blocks|
  {
    && (forall p :: p in older && !Exposed(p, blocks, current) ==> p in live)
    && (forall p :: p in live && p !in older && p.size > 0 ==> !Before(p, blocks, current, blocks[current].offset))
  }

  /** What a rewind to the start of a session leaves. */
  lemma ScopeKeeps(first: seq<Block>, at: nat, older: set<Piece>, mid: seq<Block>, now: nat, live: set<Piece>,
                   blockSize: nat)
    requires ListValid(first, at, blockSize) && PiecesValid(older, first, at)
    requires Extends(first, at, mid, now) && Session(first, at, older, live) && mid[at].dedicated == first[at].dedicated
    ensures var after, kept := Rewound(mid, at, first[at].offset), Kept(live, mid, at, first[at].offset);
            && Extends(first, at, after, at) && after[at] == first[at]
            && (forall p :: p in older ==> (p in kept <==> !Exposed(p, first, at)))
            && (forall p :: p in kept && p !in older ==> p.size == 0)
            && Session(first, at, older, kept)
  {
    hide ListValid, PiecesValid, Housed, HousedIn, Exposed;
    assert mid[at].(offset := first[at].offset) == first[at] == first[at].(offset := first[at].offset);
    assert Rewound(mid, at, first[at].offset)[..at] == mid[..at];
    assert forall p :: Before(p, mid, at, first[at].offset) == Before(p, first, at, first[at].offset);
    forall p | p in older
      ensures p in Kept(live, mid, at, first[at].offset) <==> !Exposed(p, first, at)
    {
      BeforeUnlessExposed(first, at, blockSize, older, p);
    }
  }

  lemma SessionOn(first: seq<Block>, at: nat, older: set<Piece>, mid: seq<Block>, here: nat, held: set<Piece>,
                  live: set<Piece>, blockSize: nat)
    requires ListValid(first, at, blockSize) && PiecesValid(older, first, at)
    requires ListValid(mid, here, blockSize) && PiecesValid(held, mid, here)
    requires Extends(first, at, mid, here)
    requires Session(first, at, older, held) && Session(mid, here, held, live)
    ensures Session(first, at, older, live)
  {
    forall p | p in older && !Exposed(p, first, at) ensures p in live {
      BeforeUnlessExposed(first, at, blockSize, older, p);
      BeforeLater(first, at, mid, here, p);
      BeforeUnlessExposed(mid, here, blockSize, held, p);
    }
    forall p | p in live && p !in older && p.size > 0 ensures !Before(p, first, at, first[at].offset) {
      if Before(p, first, at, first[at].offset) {
        BeforeLater(first, at, mid, here, p);
      }
    }
  }

  /** What a user of the arena does between two points: take memory, or open a checkpoint, use the arena
      and rewind. */
  datatype Use = Take(size: nat) | Scope(uses: seq<Use>)

  predicate Fits(b: Block, size: nat) {
    AlignUp(b.offset) + size <= b.capacity
  }

  /** The first dedicated block from `k` on that is not in use and has room. */
  function FirstFit(blocks: seq<Block>, k: nat, size: nat): nat
    requires k <= |blocks|
    decreases |blocks| - k
  {
    if k == |blocks| || (blocks[k].dedicated && blocks[k].offset == 0 && size <= blocks[k].capacity) then k
    else FirstFit(blocks, k + 1, size)
  }

  /** An oversized request takes the first dedicated block that fits, or a new one put in after the block
      being filled. */
  ghost predicate TakesDedicated(before: seq<Block>, current: nat, size: nat, start: nat, after: seq<Block>)
    requires current < |before|
  {
    var k := FirstFit(before, current + 1, size);
    if k < |before| then start == before[k].base && after == before[k := before[k].(offset := size)]
    else after == Inserted(before, current, Block(start, size, size, true))
  }

  class Arena {
    const blockSize: nat
    var blocks: seq<Block>
    var current: nat

    /** The pieces handed out since the last reset and not rewound. */
    ghost var live: set<Piece>

    ghost predicate Valid()
      reads this
    {
      ListValid(blocks, current, blockSize) && PiecesValid(live, blocks, current)
    }

    constructor (blockSize: nat)
      ensures Valid() && live == {} && this.blockSize == blockSize
      ensures |blocks| == 1 && current == 0 && blocks[0].offset == 0
    {
      var memory := Malloc([], blockSize);
      this.blockSize := blockSize;
      blocks, current, live := [Block(memory, blockSize, 0, false)], 0, {};
    }

    /** Sets a block's offset past a new piece at its unused end. */
    method Place(k: nat, start: nat, size: nat)
      requires Valid() && Free(blocks, current, k, Piece(start, size))
      modifies this`blocks, this`live
      ensures Valid() && live == old(live) + {Piece(start, size)}
      ensures blocks == Filled(old(blocks), k, Piece(start, size)) && HousedIn(Piece(start, size), blocks[k])
      ensures forall p :: p in old(live) ==> Disjoint(p, Piece(start, size))
      ensures size > 0 ==> !Before(Piece(start, size), old(blocks), current, old(blocks)[current].offset)
    {
      hide ListValid, PiecesValid, Before, WellFormed, AllApart;
      ghost var p := Piece(start, size);
      PlaceKeeps(blocks, current, blockSize, live, k, p);
      if size > 0 {
        PlacedAfter(blocks, current, blockSize, k, p);
      }
      blocks := blocks[k := blocks[k].(offset := start + size - blocks[k].base)];
      live := live + {p};
    }

    method AllocOversized(size: nat) returns (start: nat)
      requires Valid() && size > blockSize
      modifies this
      ensures Valid() && live == old(live) + {Piece(start, size)}
      ensures start % 8 == 0 && Housed(Piece(start, size), blocks)
      ensures forall p :: p in old(live) ==> Disjoint(p, Piece(start, size))
      ensures Extends(old(blocks), old(current), blocks, current) && current == old(current)
      ensures Exposed(Piece(start, size), blocks, current)
      ensures TakesDedicated(old(blocks), current, size, start, blocks)
      ensures !Before(Piece(start, size), old(blocks), current, old(blocks)[current].offset)
    {
      hide PiecesValid, Before, AllApart, Disjoint;
      var k := current + 1;
      while k < |blocks|
        invariant current < k <= |blocks| && blocks == old(blocks) && current == old(current) && live == old(live)
        invariant FirstFit(blocks, k, size) == FirstFit(blocks, current + 1, size)
      {
        if blocks[k].dedicated && blocks[k].offset == 0 && size <= blocks[k].capacity {
          start := blocks[k].base;
          Place(k, start, size);
          return;
        }
        k := k + 1;
      }
      start := Malloc(blocks, size);
      var b := Block(start, size, 0, true);
      InsertKeepsList(blocks, current, blockSize, b, current);
      InsertKeepsPieces(blocks, current, b, current, live);
      blocks := Inserted(blocks, current, b);
      if Before(Piece(start, size), old(blocks), current, old(blocks)[current].offset) {
        BeforeLater(old(blocks), current, blocks, current, Piece(start, size));
      }
      Place(current + 1, start, size);
    }

    /** Moves on to the next ordinary block, or puts a new one in. */
    method Grow(size: nat)
      requires Valid() && size <= blockSize
      modifies this
      ensures Valid() && live == old(live) && current > old(current) && blocks[current].offset == 0
      ensures Extends(old(blocks), old(current), blocks, current)
    {
      var k := current + 1;
      while k < |blocks|
        invariant current < k <= |blocks| && blocks == old(blocks) && current == old(current) && live == old(live)
      {
        if !blocks[k].dedicated && size <= blocks[k].capacity {
          current := k;
          return;
        }
        k := k + 1;
      }
      var memory := Malloc(blocks, blockSize);
      var b := Block(memory, blockSize, 0, false);
      InsertKeepsList(blocks, current, blockSize, b, current + 1);
      InsertKeepsPieces(blocks, current, b, current + 1, live);
      blocks, current := Inserted(blocks, current, b), current + 1;
    }

    /** A new piece is aligned, lies inside one block, and shares nothing with any piece not taken back. */
    method Alloc(size: nat) returns (start: nat)
      requires Valid()
      modifies this
      ensures Valid() && live == old(live) + {Piece(start, size)}
      ensures start % 8 == 0 && Housed(Piece(start, size), blocks)
      ensures forall p :: p in old(live) ==> Disjoint(p, Piece(start, size))
      ensures Extends(old(blocks), old(current), blocks, current)
      ensures Fits(old(blocks)[old(current)], size) ==>
                && current == old(current) && start == blocks[current].base + AlignUp(old(blocks)[current].offset)
                && blocks == Filled(old(blocks), current, Piece(start, size))
      ensures !Fits(old(blocks)[old(current)], size) && size <= blockSize ==>
                && current > old(current) && start == blocks[current].base && blocks[current].offset == size
      ensures size > blockSize ==>
                && current == old(current) && TakesDedicated(old(blocks), old(current), size, start, blocks)
                && Exposed(Piece(start, size), blocks, current)
      ensures size > 0 ==> !Before(Piece(start, size), old(blocks), old(current), old(blocks)[old(current)].offset)
    {
      var offset := AlignUp(blocks[current].offset);
      if offset + size > blocks[current].capacity {
        if size > blockSize {
          start := AllocOversized(size);
          return;
        }
        Grow(size);
        offset := AlignUp(blocks[current].offset);
      }
      start := blocks[current].base + offset;
      Place(current, start, size);
    }

    /** Takes everything back. */
    method Reset()
      requires Valid()
      modifies this
      ensures Valid() && live == {} && current == 0
      ensures |blocks| == |old(blocks)|
      ensures forall k :: 0 <= k < |blocks| ==> blocks[k] == old(blocks)[k].(offset := 0)
    {
      for i := 0 to |blocks|
        invariant |blocks| == |old(blocks)|
        invariant forall k :: 0 <= k < |blocks| ==>
                    blocks[k] == if k < i then old(blocks)[k].(offset := 0) else old(blocks)[k]
      {
        blocks := blocks[i := blocks[i].(offset := 0)];
      }
      current, live := 0, {};
    }

    method Mark() returns (checkpoint: Checkpoint)
      requires Valid()
      ensures checkpoint == Checkpoint(blocks[current].base, blocks[current].offset)
    {
      checkpoint := Checkpoint(blocks[current].base, blocks[current].offset);
    }

    /** Goes back to a checkpoint, whose block is the one at `i`: exactly the pieces before it stay. */
    method Rewind(checkpoint: Checkpoint, i: nat)
      requires Valid() && i <= current && !blocks[i].dedicated
      requires checkpoint.base == blocks[i].base && checkpoint.offset <= blocks[i].offset
      modifies this
      ensures Valid() && current == i && blocks == Rewound(old(blocks), i, checkpoint.offset)
      ensures live == Kept(old(live), old(blocks), i, checkpoint.offset)
    {
      RewindKeeps(blocks, current, blockSize, live, i, checkpoint.offset);
      blocks := blocks[i := blocks[i].(offset := checkpoint.offset)];
      for k := i + 1 to |blocks|
        invariant |blocks| == |old(blocks)| && current == old(current) && live == old(live)
        invariant forall j :: 0 <= j < |blocks| ==>
                    blocks[j] == if j < k then Rewound(old(blocks), i, checkpoint.offset)[j] else old(blocks)[j]
      {
        blocks := blocks[k := blocks[k].(offset := 0)];
      }
      current := i;
      live := Kept(live, old(blocks), i, checkpoint.offset);
    }

    /** Nested uses never take back a piece that was not exposed when they began, and put nothing where
        such a piece is. */
    method Run(uses: seq<Use>)
      requires Valid()
      modifies this
      ensures Valid() && Extends(old(blocks), old(current), blocks, current)
      ensures Session(old(blocks), old(current), old(live), live)
      decreases uses, 0
    {
      ghost var first, at, older := blocks, current, live;
      for n := 0 to |uses|
        invariant Valid() && Extends(first, at, blocks, current)
        invariant Session(first, at, older, live)
      {
        ghost var mid, here, held := blocks, current, live;
        match uses[n] {
          case Take(size) =>
            var _ := Alloc(size);
          case Scope(inner) =>
            RunScope(inner);
        }
        SessionOn(first, at, older, mid, here, held, live, blockSize);
        ExtendsOn(first, at, mid, here, blocks, current);
      }
    }

    /** A checkpoint, some uses and the rewind to it: of the pieces handed out before, exactly those
        survive that no dedicated block past the one being filled holds; of the later ones, none that
        has a byte. */
    method RunScope(uses: seq<Use>)
      requires Valid()
      modifies this
      ensures Valid() && current == old(current) && Extends(old(blocks), old(current), blocks, current)
      ensures blocks[current] == old(blocks)[current]
      ensures forall p :: p in old(live) ==> (p in live <==> !Exposed(p, old(blocks), old(current)))
      ensures forall p :: p in live && p !in old(live) ==> p.size == 0
      ensures Session(old(blocks), old(current), old(live), live)
      decreases uses, 1
    {
      ghost var first, at, older := blocks, current, live;
      var checkpoint := Mark();
      var i := current;
      Run(uses);
      ScopeKeeps(first, at, older, blocks, current, live, blockSize);
      Rewind(checkpoint, i);
    }
  }

  /** An oversized piece older than a checkpoint is taken back by the rewind, and handed out again. */
  method OversizedIsHandedOutTwice(blockSize: nat, size: nat) returns (first: nat, second: nat)
    requires size > blockSize
    ensures first == second
  {
    var arena := new Arena(blockSize);
    first := arena.Alloc(size);
    var checkpoint := arena.Mark();
    arena.Rewind(checkpoint, 0);
    second := arena.Alloc(size);
  }
}
