/** The open-addressing hash map with tombstones that the compiler's tables are made of. */
module HashMaps {
  import opened Options

  datatype Cell<K, V> = Empty | Dead | Live(key: K, hash: nat, value: V)

  // ----- walking around the table -----

  /** The cell `d` steps after `home`. */
  function StepFrom(home: nat, d: nat, capacity: nat): nat
    requires home < capacity && d < capacity
  {
    if home + d < capacity then home + d else home + d - capacity
  }

  function Distance(home: nat, i: nat, capacity: nat): nat
    requires home < capacity && i < capacity
  {
    if i >= home then i - home else i + capacity - home
  }

  function Home(hash: nat, capacity: nat): nat
    requires capacity > 0
  {
    hash % capacity
  }

  /** No cell from `home` up to the one `d` steps on is empty. */
  ghost predicate Unbroken<K, V>(cells: seq<Cell<K, V>>, home: nat, d: nat)
    requires home < |cells| && d <= |cells|
  {
    forall e: nat :: e < d ==> !cells[StepFrom(home, e, |cells|)].Empty?
  }

  // ----- counting -----

  function Used<K, V>(cells: seq<Cell<K, V>>): nat {
    if |cells| == 0 then 0
    else Used(cells[..|cells| - 1]) + if cells[|cells| - 1].Empty? then 0 else 1
  }

  function Alive<K, V>(cells: seq<Cell<K, V>>): nat {
    if |cells| == 0 then 0
    else Alive(cells[..|cells| - 1]) + if cells[|cells| - 1].Live? then 1 else 0
  }

  lemma {:induction false} CountsUpdate<K, V>(cells: seq<Cell<K, V>>, i: nat, cell: Cell<K, V>)
    requires i < |cells|
    ensures Used(cells[i := cell]) + (if cells[i].Empty? then 0 else 1) ==
            Used(cells) + (if cell.Empty? then 0 else 1)
    ensures Alive(cells[i := cell]) + (if cells[i].Live? then 1 else 0) ==
            Alive(cells) + (if cell.Live? then 1 else 0)
  {
    var n := |cells| - 1;
    if i < n {
      assert cells[i := cell][..n] == cells[..n][i := cell];
      CountsUpdate(cells[..n], i, cell);
    } else {
      assert cells[i := cell][..n] == cells[..n];
    }
  }

  lemma {:induction false} CountsBound<K, V>(cells: seq<Cell<K, V>>)
    ensures Alive(cells) <= Used(cells) <= |cells|
    ensures Used(cells) < |cells| ==> exists i :: 0 <= i < |cells| && cells[i].Empty?
    ensures (forall i :: 0 <= i < |cells| ==> cells[i].Empty?) ==> Used(cells) == 0
    ensures (exists i :: 0 <= i < |cells| && cells[i].Live?) ==> Alive(cells) > 0
  {
    if |cells| > 0 {
      CountsBound(cells[..|cells| - 1]);
    }
  }

  // ----- tables -----

  /** Each live cell carries its key's hash, can be reached from its home without crossing an empty
      cell, and is the only one with its key. */
  ghost predicate Consistent<K, V>(cells: seq<Cell<K, V>>, hash: K -> nat) {
    && |cells| > 0
    && (forall i :: 0 <= i < |cells| && cells[i].Live? ==>
          && cells[i].hash == hash(cells[i].key)
          && Unbroken(cells, Home(cells[i].hash, |cells|), Distance(Home(cells[i].hash, |cells|), i, |cells|)))
    && Distinct(cells)
  }

  ghost predicate Distinct<K, V>(cells: seq<Cell<K, V>>) {
    forall i, j :: 0 <= i < j < |cells| && cells[i].Live? && cells[j].Live? ==> cells[i].key != cells[j].key
  }

  /** The cells hold exactly this map. */
  ghost predicate Holds<K, V>(cells: seq<Cell<K, V>>, contents: map<K, V>) {
    && (forall i :: 0 <= i < |cells| && cells[i].Live? ==>
          cells[i].key in contents && contents[cells[i].key] == cells[i].value)
    && (forall k :: k in contents ==> HasKey(cells, k))
  }

  ghost predicate HasKey<K, V>(cells: seq<Cell<K, V>>, key: K) {
    exists i :: 0 <= i < |cells| && cells[i].Live? && cells[i].key == key
  }

  ghost predicate HasEmpty<K, V>(cells: seq<Cell<K, V>>) {
    exists i :: 0 <= i < |cells| && cells[i].Empty?
  }

  /** Where a probe for a key ends: at the live cell with the key, or, if there is none, at a cell
      where the key may be put. */
  ghost predicate ProbeEnds<K, V>(cells: seq<Cell<K, V>>, key: K, hash: nat, found: nat) {
    && found < |cells|
    && (if cells[found].Live? then cells[found].key == key
        else
          && (forall i :: 0 <= i < |cells| && cells[i].Live? ==> cells[i].key != key)
          && Unbroken(cells, Home(hash, |cells|), Distance(Home(hash, |cells|), found, |cells|)))
  }

  /** Follows the probe sequence of a key to its end. It always ends: some cell is empty. */
  method Probe<K(==), V>(entries: array<Cell<K, V>>, key: K, hash: nat, ghost hashOf: K -> nat)
    returns (found: nat)
    requires Consistent(entries[..], hashOf) && HasEmpty(entries[..]) && hash == hashOf(key)
    ensures ProbeEnds(entries[..], key, hash, found)
  {
    ghost var cells, capacity := entries[..], entries.Length;
    ghost var home := Home(hash, capacity);
    ghost var gap: nat :| gap < capacity && cells[gap].Empty?;
    ghost var d: nat := 0;
    var idx := hash % entries.Length;
    var tombstone: Option<nat> := None;
    while true
      invariant d <= Distance(home, gap, capacity) && idx == StepFrom(home, d, capacity)
      invariant Unbroken(cells, home, d)
      invariant forall e: nat :: e < d && cells[StepFrom(home, e, capacity)].Live? ==>
                  cells[StepFrom(home, e, capacity)].key != key
      invariant tombstone.Some? ==>
                  && tombstone.value < capacity && cells[tombstone.value].Dead?
                  && Unbroken(cells, home, Distance(home, tombstone.value, capacity))
      decreases capacity - d
    {
      if entries[idx].Empty? {
        KeyIsAbsent(cells, hashOf, key, d);
        found := if tombstone.Some? then tombstone.value else idx;
        return;
      }
      if entries[idx].Dead? {
        if tombstone.None? {
          tombstone := Some(idx);
        }
      } else if entries[idx].hash == hash && entries[idx].key == key {
        return idx;
      }
      idx := if idx + 1 == entries.Length then 0 else idx + 1;
      d := d + 1;
    }
  }

  /** A probe that meets an empty cell before the key shows that the key is nowhere. */
  lemma KeyIsAbsent<K, V>(cells: seq<Cell<K, V>>, hashOf: K -> nat, key: K, d: nat)
    requires Consistent(cells, hashOf) && d < |cells|
    requires cells[StepFrom(Home(hashOf(key), |cells|), d, |cells|)].Empty?
    requires forall e: nat :: e < d ==>
               var cell := cells[StepFrom(Home(hashOf(key), |cells|), e, |cells|)];
               cell.Live? ==> cell.key != key
    ensures forall i :: 0 <= i < |cells| && cells[i].Live? ==> cells[i].key != key
  {
    var home := Home(hashOf(key), |cells|);
    forall i | 0 <= i < |cells| && cells[i].Live? ensures cells[i].key != key {
      var e := Distance(home, i, |cells|);
      assert StepFrom(home, e, |cells|) == i;
    }
  }

  lemma UnbrokenStays<K, V>(cells: seq<Cell<K, V>>, i: nat, cell: Cell<K, V>, home: nat, d: nat)
    requires i < |cells| && home < |cells| && d <= |cells| && Unbroken(cells, home, d) && !cell.Empty?
    ensures Unbroken(cells[i := cell], home, d)
  {
  }

  /** Putting an absent key where its probe ended. */
  lemma PutKeeps<K, V>(cells: seq<Cell<K, V>>, hashOf: K -> nat, contents: map<K, V>, key: K, value: V, at: nat)
    requires Consistent(cells, hashOf) && Holds(cells, contents)
    requires ProbeEnds(cells, key, hashOf(key), at) && !cells[at].Live?
    ensures key !in contents
    ensures Consistent(cells[at := Live(key, hashOf(key), value)], hashOf)
    ensures Holds(cells[at := Live(key, hashOf(key), value)], contents[key := value])
  {
    var after := cells[at := Live(key, hashOf(key), value)];
    forall i | 0 <= i < |after| && after[i].Live?
      ensures after[i].hash == hashOf(after[i].key)
      ensures var home := Home(after[i].hash, |after|); Unbroken(after, home, Distance(home, i, |after|))
    {
      var home := Home(after[i].hash, |after|);
      UnbrokenStays(cells, at, after[at], home, Distance(home, i, |cells|));
    }
    forall k | k in contents[key := value] ensures HasKey(after, k) {
      if k == key {
        assert after[at].key == key;
      } else {
        var i :| 0 <= i < |cells| && cells[i].Live? && cells[i].key == k;
        assert after[i] == cells[i];
      }
    }
  }

  /** Burying a live cell: no other key loses its way. */
  lemma BuryKeeps<K, V>(cells: seq<Cell<K, V>>, hashOf: K -> nat, contents: map<K, V>, at: nat)
    requires Consistent(cells, hashOf) && Holds(cells, contents) && at < |cells| && cells[at].Live?
    ensures Consistent(cells[at := Dead], hashOf)
    ensures Holds(cells[at := Dead], contents - {cells[at].key})
  {
    var after := cells[at := Dead];
    forall i | 0 <= i < |after| && after[i].Live?
      ensures var home := Home(after[i].hash, |after|); Unbroken(after, home, Distance(home, i, |after|))
    {
      var home := Home(after[i].hash, |after|);
      UnbrokenStays(cells, at, Dead, home, Distance(home, i, |cells|));
    }
    forall k | k in contents - {cells[at].key} ensures HasKey(after, k) {
      var i :| 0 <= i < |cells| && cells[i].Live? && cells[i].key == k;
      assert after[i] == cells[i];
    }
  }

  method Put<K, V>(entries: array<Cell<K, V>>, at: nat, key: K, value: V, hashOf: K -> nat, ghost contents: map<K, V>)
    requires Consistent(entries[..], hashOf) && Holds(entries[..], contents)
    requires ProbeEnds(entries[..], key, hashOf(key), at) && !entries[at].Live?
    modifies entries
    ensures Consistent(entries[..], hashOf) && Holds(entries[..], contents[key := value])
    ensures key !in contents
    ensures Alive(entries[..]) == Alive(old(entries[..])) + 1
    ensures Used(entries[..]) == Used(old(entries[..])) + if old(entries[at]).Empty? then 1 else 0
  {
    var cell := Live(key, hashOf(key), value);
    PutKeeps(entries[..], hashOf, contents, key, value, at);
    CountsUpdate(entries[..], at, cell);
    entries[at] := cell;
    assert entries[..] == old(entries[..])[at := cell];
  }

  ghost predicate PowerOfTwo(n: nat) {
    n == 1 || (n > 0 && n % 2 == 0 && PowerOfTwo(n / 2))
  }

  ghost function MaxOf(a: nat, b: nat): nat {
    if a > b then a else b
  }

  /** With a single cell, the first key put leaves a probe for any other key nowhere to end: wherever it
      looks, it finds the cell in use, and by the other key. An insertion into one empty cell does not
      resize first. */
  lemma OneCellIsTooFew<K, V>(empty: seq<Cell<K, V>>, key: K, hash: nat, value: V, other: K)
    requires empty == [Empty] && key != other
    ensures 2 * Used(empty) < |empty|
    ensures var cells := empty[0 := Live(key, hash, value)];
            && ProbeEnds(empty, key, hash, 0) && !HasEmpty(cells)
            && forall k :: 0 <= k < |cells| ==> cells[k].Live? && cells[k].key != other
  {
    assert empty[..0] == [];
  }

  class HashMap<K(==), V> {
    const hashOf: K -> nat
    var entries: array<Cell<K, V>>
    var size: nat
    var occupied: nat

    ghost var contents: map<K, V>
    ghost var peak: nat
    ghost const initial: nat

    ghost predicate Valid()
      reads this, entries
    {
      && entries.Length >= 2 && PowerOfTwo(entries.Length)
      && Consistent(entries[..], hashOf) && Holds(entries[..], contents)
      && size == Alive(entries[..]) && occupied == Used(entries[..])
      && 2 * occupied <= entries.Length
      && size <= peak && entries.Length <= MaxOf(initial, 8 * peak)
    }

    /** The capacity is a power of two, and more than one (see `OneCellIsTooFew`). */
    constructor (hashOf: K -> nat, capacity: nat)
      requires capacity >= 2 && PowerOfTwo(capacity)
      ensures Valid() && contents == map[] && this.hashOf == hashOf && initial == capacity && fresh(entries)
    {
      this.hashOf := hashOf;
      entries := new Cell<K, V>[capacity](i => Empty);
      size, occupied := 0, 0;
      contents, peak, initial := map[], 0, capacity;
      new;
      CountsBound(entries[..]);
    }

    ghost method AssertHasEmpty()
      requires Valid()
      ensures HasEmpty(entries[..])
    {
      CountsBound(entries[..]);
    }

    method Lookup(key: K) returns (found: Option<V>)
      requires Valid()
      ensures found == if key in contents then Some(contents[key]) else None
    {
      AssertHasEmpty();
      var at := Probe(entries, key, hashOf(key), hashOf);
      found := if entries[at].Live? then Some(entries[at].value) else None;
    }

    /** Moves the live cells to a new table, dropping the tombstones; the table doubles when at
        least a quarter of it is live. */
    method Resize()
      requires Valid()
      modifies this
      ensures Valid() && contents == old(contents) && peak == old(peak) && fresh(entries)
      ensures entries.Length == if 4 * size >= old(entries.Length) then 2 * old(entries.Length) else old(entries.Length)
      ensures size == old(size) && occupied == size
    {
      var capacity := if 4 * size >= entries.Length then entries.Length * 2 else entries.Length;
      CountsBound(entries[..]);
      var rehashed := Rehash(entries, capacity, hashOf, contents);
      entries := rehashed;
      occupied := size;
    }

    /** Adds a key, unless it is there already; says whether it was added. */
    method Insert(key: K, value: V) returns (added: bool)
      requires Valid()
      modifies this, entries
      ensures Valid() && (entries == old(entries) || fresh(entries))
      ensures added == (key !in old(contents))
      ensures contents == if added then old(contents)[key := value] else old(contents)
      ensures peak == MaxOf(old(peak), size)
    {
      EvenCapacity(entries.Length);
      CountsBound(entries[..]);
      if 2 * occupied >= entries.Length {
        Resize();
      }
      added := Add(key, value);
    }

    method Add(key: K, value: V) returns (added: bool)
      requires Valid() && 2 * occupied + 2 <= entries.Length
      modifies this`size, this`occupied, this`contents, this`peak, entries
      ensures Valid()
      ensures added == (key !in old(contents))
      ensures contents == if added then old(contents)[key := value] else old(contents)
      ensures peak == MaxOf(old(peak), size)
    {
      CountsBound(entries[..]);
      var at := Probe(entries, key, hashOf(key), hashOf);
      if entries[at].Live? {
        assert entries[at].key in contents;
        return false;
      }
      if entries[at].Empty? {
        occupied := occupied + 1;
      }
      Put(entries, at, key, value, hashOf, contents);
      size := size + 1;
      contents, peak := contents[key := value], MaxOf(peak, size);
      return true;
    }

    /** Removes a key, leaving a tombstone; says whether it was there. */
    method Delete(key: K) returns (removed: bool)
      requires Valid()
      modifies this, entries
      ensures Valid() && entries == old(entries) && peak == old(peak)
      ensures removed == (key in old(contents))
      ensures contents == old(contents) - {key}
    {
      if size == 0 {
        CountsBound(entries[..]);
        assert contents == map[];
        return false;
      }
      CountsBound(entries[..]);
      var at := Probe(entries, key, hashOf(key), hashOf);
      if !entries[at].Live? {
        assert contents == contents - {key};
        return false;
      }
      BuryKeeps(entries[..], hashOf, contents, at);
      CountsUpdate(entries[..], at, Dead);
      ghost var before := entries[..];
      entries[at] := Dead;
      assert entries[..] == before[at := Dead];
      size := size - 1;
      contents := contents - {key};
      return true;
    }
  }

  lemma EvenCapacity(n: nat)
    requires PowerOfTwo(n) && n >= 2
    ensures n % 2 == 0
  {
  }

  // ----- rehashing -----

  /** The first `i` cells hold `moved`; so do one more, with its cell added. */
  lemma MovedHolds<K, V>(cells: seq<Cell<K, V>>, i: nat, moved: map<K, V>)
    requires i < |cells| && Distinct(cells) && Holds(cells[..i], moved)
    ensures cells[i].Live? ==> cells[i].key !in moved
    ensures Holds(cells[..i + 1], if cells[i].Live? then moved[cells[i].key := cells[i].value] else moved)
  {
    var next := if cells[i].Live? then moved[cells[i].key := cells[i].value] else moved;
    var before, after := cells[..i], cells[..i + 1];
    assert after == before + [cells[i]];
    forall k | k in next ensures HasKey(after, k) {
      if k in moved {
        var j :| 0 <= j < i && before[j].Live? && before[j].key == k;
        assert after[j] == before[j];
      } else {
        assert after[i] == cells[i];
      }
    }
  }

  lemma {:induction false} AlivePrefix<K, V>(cells: seq<Cell<K, V>>, i: nat)
    requires i <= |cells|
    ensures Alive(cells[..i]) <= Alive(cells)
    ensures i < |cells| && cells[i].Live? ==> Alive(cells[..i]) < Alive(cells)
  {
    var n := |cells| - 1;
    if i < n {
      AlivePrefix(cells[..n], i);
      assert cells[..n][..i] == cells[..i];
    } else if i == |cells| {
      assert cells[..i] == cells;
    }
  }

  lemma AliveGrows<K, V>(cells: seq<Cell<K, V>>, i: nat)
    requires i < |cells|
    ensures Alive(cells[..i + 1]) == Alive(cells[..i]) + if cells[i].Live? then 1 else 0
  {
    assert cells[..i + 1][..i] == cells[..i];
  }

  lemma {:induction false} NoTombstones<K, V>(cells: seq<Cell<K, V>>, at: nat)
    requires Used(cells) == Alive(cells) && at < |cells|
    ensures !cells[at].Dead?
  {
    var n := |cells| - 1;
    CountsBound(cells[..n]);
    if at < n {
      NoTombstones(cells[..n], at);
    }
  }

  lemma HoldsSame<K, V>(cells: seq<Cell<K, V>>, one: map<K, V>, other: map<K, V>)
    requires Holds(cells, one) && Holds(cells, other)
    ensures one == other
  {
    assert one.Keys == other.Keys;
  }

  method Rehash<K(==), V>(entries: array<Cell<K, V>>, capacity: nat, hashOf: K -> nat, ghost contents: map<K, V>)
    returns (rehashed: array<Cell<K, V>>)
    requires Consistent(entries[..], hashOf) && Holds(entries[..], contents)
    requires Alive(entries[..]) < capacity
    ensures fresh(rehashed) && rehashed.Length == capacity
    ensures Consistent(rehashed[..], hashOf) && Holds(rehashed[..], contents)
    ensures Used(rehashed[..]) == Alive(rehashed[..]) == Alive(entries[..])
  {
    rehashed := new Cell<K, V>[capacity](i => Empty);
    CountsBound(rehashed[..]);
    ghost var cells := entries[..];
    ghost var moved: map<K, V> := map[];
    for i := 0 to entries.Length
      invariant entries[..] == cells
      invariant Consistent(rehashed[..], hashOf) && Holds(rehashed[..], moved)
      invariant Used(rehashed[..]) == Alive(rehashed[..]) == Alive(cells[..i])
      invariant Holds(cells[..i], moved)
    {
      MovedHolds(cells, i, moved);
      AlivePrefix(cells, i);
      AliveGrows(cells, i);
      if entries[i].Live? {
        CountsBound(rehashed[..]);
        var at := Probe(rehashed, entries[i].key, entries[i].hash, hashOf);
        assert !rehashed[at].Live?;
        NoTombstones(rehashed[..], at);
        Put(rehashed, at, entries[i].key, entries[i].value, hashOf, moved);
        moved := moved[cells[i].key := cells[i].value];
      }
    }
    assert cells[..entries.Length] == cells;
    HoldsSame(cells, moved, contents);
  }
}
