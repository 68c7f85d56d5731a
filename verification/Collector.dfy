/**
  The copying collector: roots first, then a scan over the copies that copies
  whatever they refer to, then new addresses for the roots.

  As in the source, a root is copied without a look at its forwarding address,
  and the slots of copies keep the old addresses; the copied graph is read
  through the forwarding addresses.
 */
module Collector {
  import opened Sequences
  import opened Words
  import opened Bits
  import opened Copying

  /** The allocation area: two halves of one size, of which `fromspace` is in use. */
  class NewZone {
    const start: nat
    var memory: Memory
    var fromspace: nat
    var tospace: nat
    var current: nat
    const semisize: nat
    ghost var order: seq<nat>

    /** The zone has been filled from the start of `fromspace`, and never collected. */
    ghost predicate Valid()
      reads this
    {
      && 0 < fromspace && 0 < tospace && semisize <= Pow2(32)
      && ((fromspace == start && tospace == start + semisize) || (tospace == start && fromspace == start + semisize))
      && All(memory, order) && (forall a :: a in memory <==> a in order)
      && (forall k :: 0 <= k < |order| ==> order[k] == Place(memory, fromspace, order, k))
      && current == fromspace + Sum(memory, order) && (order != [] ==> current < fromspace + semisize)
      && (forall a :: a in memory ==> memory[a].forwarding == 0)
      && (forall a :: a in memory ==> All(memory, memory[a].slots))
    }

    constructor (start: nat, semisize: nat)
      requires 0 < start && semisize <= Pow2(32)
      ensures Valid() && memory == map[] && this.semisize == semisize
      ensures this.start == fromspace == start && tospace == start + semisize
    {
      this.start := start;
      memory := map[];
      fromspace, tospace, current := start, start + semisize, start;
      this.semisize := semisize;
      order := [];
    }

    /** Bump allocation of an object whose slots refer to existing ones; zero when there is no room. */
    method TryAllocate(size: nat, slots: seq<nat>, data: seq<byte>) returns (address: nat)
      requires Valid() && All(memory, slots)
      modifies this
      ensures Valid() && fromspace == old(fromspace) && tospace == old(tospace)
      ensures address == 0 <==> old(current) + HEADER + size >= fromspace + semisize
      ensures address == 0 ==> memory == old(memory) && order == old(order)
      ensures address != 0 ==>
          order == old(order) + [address] && memory == old(memory)[address := Object(NewTag(size), slots, data, 0)]
    {
      hide NewTag, SizeOf, Pow2, Sum, Place;
      var total := HEADER + size;
      if current + total >= fromspace + semisize { return 0; }
      address := current;
      NewTagSize(size);
      ghost var was := memory;
      NewPlace(memory, fromspace, order);
      memory := memory[address := Object(NewTag(size), slots, data, 0)];
      current := current + total;
      order := order + [address];
      NewPlaces(was, memory, fromspace, order);
    }

    /**
      Walks from the start of the zone, which is not that of the half in use once
      the halves have been swapped, to the allocation address.
     */
    method VisitAllPointers() returns (ok: bool, visited: seq<nat>, end: nat)
      ensures Walk(memory, start, current) == if ok then Some(Walked(visited, end)) else None
    {
      ok, visited, end := WalkPointers(memory, start, current);
    }

    method SwapSpaces()
      modifies this`fromspace, this`tospace
      ensures fromspace == old(tospace) && tospace == old(fromspace)
    {
      fromspace, tospace := tospace, fromspace;
    }

    method SetCurrent(address: nat)
      modifies this`current
      ensures current == address
    {
      current := address;
    }
  }

  function NewTag(size: nat): Tag {
    Or(NEW_BIT.Encode(BitsOf(1, WORD_BITS)), SIZE_FIELD.Encode(BitsOf(size, WORD_BITS)))
  }

  lemma NewTagSize(size: nat)
    requires size < Pow2(32)
    ensures SizeOf(NewTag(size)) == size
  {
    hide NewTag, Field.Decode, BitsOf, Pow2, ValueOf, And, Ones, Or;
    var v, tag := BitsOf(size, WORD_BITS), NewTag(size);
    Pow2Monotone(32, WORD_BITS);
    BitsRoundTrip(size, WORD_BITS);
    NewTagBits(size);
    DecodedBits(SIZE_FIELD, tag);
    MaskIsModulo(v, 32);
    forall i | 0 <= i < WORD_BITS ensures SIZE_FIELD.Decode(tag)[i] == And(v, Ones(WORD_BITS, 32))[i] {
      if i < 32 { assert tag[i + 20] == v[i]; }
    }
    assert SIZE_FIELD.Decode(tag) == And(v, Ones(|v|, 32));
  }

  lemma NewTagBits(size: nat)
    ensures forall i :: 20 <= i < 52 ==> NewTag(size)[i] == BitsOf(size, WORD_BITS)[i - 20]
  {
    hide Field.Encode, BitsOf;
    EncodedBits(NEW_BIT, BitsOf(1, WORD_BITS));
    EncodedBits(SIZE_FIELD, BitsOf(size, WORD_BITS));
  }

  /** The tag of a new object says that it is new and how large it is, and nothing else. */
  lemma NewTagFields(size: nat)
    requires size < Pow2(32)
    ensures ValueOf(NEW_BIT.Decode(NewTag(size))) == 1 && SizeOf(NewTag(size)) == size
    ensures Total(Object(NewTag(size), [], [], 0)) == 2 * WORD_SIZE + size
    ensures forall f :: f in {REFERENCES, OLD_BIT, MARKED_BIT, REMEMBERED_BIT} ==> ValueOf(f.Decode(NewTag(size))) == 0
  {
    hide NewTag, Field.Decode, BitsOf, Pow2, ValueOf, And, Ones, Or;
    var tag := NewTag(size);
    NewTagSize(size);
    OtherTagBits(size);
    DecodedBits(NEW_BIT, tag);
    OneBit(NEW_BIT.Decode(tag));
    forall f | f in {REFERENCES, OLD_BIT, MARKED_BIT, REMEMBERED_BIT} ensures ValueOf(f.Decode(tag)) == 0 {
      DecodedBits(f, tag);
      AllZero(f.Decode(tag));
    }
  }

  lemma OtherTagBits(size: nat)
    ensures forall i :: 0 <= i < 20 ==> NewTag(size)[i] == (i == 16)
  {
    hide Field.Encode, BitsOf;
    EncodedBits(NEW_BIT, BitsOf(1, WORD_BITS));
    EncodedBits(SIZE_FIELD, BitsOf(size, WORD_BITS));
    FirstBit();
  }

  lemma FirstBit()
    ensures BitsOf(1, WORD_BITS)[0]
  {
  }

  lemma OneBit(b: Bits)
    requires b != [] && b[0] && forall i :: 0 < i < |b| ==> !b[i]
    ensures ValueOf(b) == 1
  {
    AllZero(b[1..]);
  }

  /** The next place is after all the objects. */
  lemma NewPlace(h: Memory, start: nat, order: seq<nat>)
    requires All(h, order) && forall k :: 0 <= k < |order| ==> order[k] == Place(h, start, order, k)
    ensures forall k :: 0 <= k < |order| ==> order[k] < start + Sum(h, order)
  {
    assert order[..|order|] == order;
    forall k | 0 <= k < |order| ensures order[k] < start + Sum(h, order) {
      PlaceGrows(h, start, order, k, |order|);
    }
  }

  lemma {:induction false} SumAgrees(h: Memory, h': Memory, s: seq<nat>)
    requires All(h, s) && forall i :: 0 <= i < |s| ==> s[i] in h' && h'[s[i]] == h[s[i]]
    ensures All(h', s) && Sum(h', s) == Sum(h, s)
  {
    if s != [] { SumAgrees(h, h', Front(s)); }
  }

  lemma NewPlaces(h: Memory, h': Memory, start: nat, order: seq<nat>)
    requires order != [] && All(h, Front(order)) && Back(order) == start + Sum(h, Front(order)) && Back(order) !in h
    requires All(h', order) && forall a :: a in h ==> a in h' && h'[a] == h[a]
    requires forall k :: 0 <= k < |Front(order)| ==> Front(order)[k] == Place(h, start, Front(order), k)
    ensures forall k :: 0 <= k < |order| ==> order[k] == Place(h', start, order, k)
    ensures Sum(h', order) == Sum(h, Front(order)) + Total(h'[Back(order)])
  {
    hide Total;
    SumAgrees(h, h', Front(order));
    forall k | 0 <= k < |order| ensures order[k] == Place(h', start, order, k) {
      assert order[..k] == Front(order)[..k];
      SumAgrees(h, h', Front(order)[..k]);
    }
  }

  /** From index `from` on, every element is new. */
  ghost predicate NewFrom(s: seq<nat>, from: nat) {
    forall i, j :: 0 <= i < j < |s| && from <= j ==> s[i] != s[j]
  }

  /** Everything the first `n` objects refer to has been copied. */
  ghost predicate ScannedTo(h: Memory, copied: seq<nat>, n: nat)
    requires All(h, copied) && n <= |copied|
  {
    forall k :: 0 <= k < n ==> forall t :: t in h[copied[k]].slots ==> t in copied
  }

  /** Memory is `h` with the objects `copied` copied to the area from `to` to `end`, up to `next`. */
  ghost predicate CopiedTo(h: Memory, to: nat, end: nat, copied: seq<nat>, m: Memory, next: nat): (b: bool)
    ensures b ==> All(h, copied)
  {
    && 0 < to && Apart(h, to, end) && Closed(h)
    && All(h, copied) && m == After(h, to, copied)
    && next == to + Sum(h, copied) <= end && (copied != [] ==> next < end)
  }

  /** References lead to objects of the heap, and nothing has been forwarded. */
  ghost predicate Closed(h: Memory) {
    forall a :: a in h ==> All(h, h[a].slots) && h[a].forwarding == 0
  }

  lemma CopiedObject(h: Memory, to: nat, end: nat, copied: seq<nat>, m: Memory, next: nat, a: nat)
    requires CopiedTo(h, to, end, copied, m, next) && a in h
    ensures a in m && m[a] == h[a].(forwarding := m[a].forwarding) && Total(m[a]) == Total(h[a])
    ensures m[a].forwarding == if a in copied then Place(h, to, copied, LastIndex(copied, a)) else 0
    ensures m[a].forwarding != 0 <==> a in copied
    ensures 0 < next
  {
    OldObjects(h, to, copied, a);
  }

  lemma CopiedOneMore(h: Memory, to: nat, end: nat, copied: seq<nat>, m: Memory, next: nat, a: nat)
    requires CopiedTo(h, to, end, copied, m, next) && a in m && a in h && next + Total(h[a]) < end
    ensures
      var copy := Object(m[a].tag, m[a].slots, m[a].data, 0);
      var m' := m[next := copy.(tag := SetRememberedBit(copy.tag))];
      a in m' && CopiedTo(h, to, end, copied + [a], m'[a := m'[a].(forwarding := next)], next + Total(h[a]))
  {
    hide Total, SetRememberedBit;
    CopiedObject(h, to, end, copied, m, next, a);
    var longer := copied + [a];
    assert Front(longer) == copied && Back(longer) == a;
  }

  class Collector {
    const zone: NewZone
    var curr: nat
    var next: nat
    var roots: seq<nat>
    ghost var heap: Memory
    ghost var copied: seq<nat>
    ghost var scanned: nat

    constructor (zone: NewZone, roots: seq<nat>)
      ensures this.zone == zone && this.roots == roots
    {
      this.zone := zone;
      this.roots := roots;
      curr, next := 0, 0;
      heap, copied, scanned := map[], [], 0;
    }

    /** Memory is the old heap with the objects `copied` copied. */
    ghost predicate Copying()
      reads this, zone
    {
      CopiedTo(heap, zone.fromspace, zone.fromspace + zone.semisize, copied, zone.memory, next)
    }

    /** ... the roots first and then only new objects, all of them reachable. */
    ghost predicate Tracing(from: seq<nat>)
      reads this, zone
    {
      && Copying()
      && |from| <= |copied| && copied[..|from|] == from && NewFrom(copied, |from|)
      && forall k :: 0 <= k < |copied| ==> Reachable(heap, from, copied[k])
    }

    method CopyPointer(ptr: nat) returns (newPtr: nat)
      requires ptr in zone.memory
      modifies this`next, zone`memory
      ensures var o, total := old(zone.memory)[ptr], Total(old(zone.memory)[ptr]);
              if old(next) + total >= zone.fromspace + zone.semisize then
                newPtr == 0 && next == old(next) && zone.memory == old(zone.memory)
              else
                && newPtr == old(next) && next == old(next) + total
                && zone.memory == old(zone.memory)[newPtr := Object(o.tag, o.slots, o.data, 0)]
    {
      var o := zone.memory[ptr];
      var total := Total(o);
      if next + total >= zone.fromspace + zone.semisize { return 0; }
      newPtr := next;
      zone.memory := zone.memory[newPtr := Object(o.tag, o.slots, o.data, 0)];
      next := next + total;
    }

    /** Copies an object, whether it has been copied before or not; fails only for lack of room. */
    method Process(ptr: nat) returns (ok: bool)
      requires Copying() && ptr in heap
      modifies this`next, this`copied, zone`memory
      ensures Copying()
      ensures ok <==> old(next) + Total(heap[ptr]) < zone.fromspace + zone.semisize
      ensures copied == if ok then old(copied) + [ptr] else old(copied)
    {
      hide SetRememberedBit, Total, CopiedTo;
      ghost var m, n := zone.memory, next;
      CopiedObject(heap, zone.fromspace, zone.fromspace + zone.semisize, copied, m, n, ptr);
      var newPtr := CopyPointer(ptr);
      if newPtr == 0 { return false; }
      CopiedOneMore(heap, zone.fromspace, zone.fromspace + zone.semisize, copied, m, n, ptr);
      var copy := zone.memory[newPtr];
      zone.memory := zone.memory[newPtr := copy.(tag := SetRememberedBit(copy.tag))];
      assert zone.memory == m[newPtr := copy.(tag := SetRememberedBit(copy.tag))];
      zone.memory := zone.memory[ptr := zone.memory[ptr].(forwarding := newPtr)];
      copied := copied + [ptr];
      ok := true;
    }

    method ProcessRoots() returns (ok: bool)
      requires Copying() && copied == [] && All(heap, roots)
      modifies this`next, this`copied, zone`memory
      ensures ok ==> Tracing(roots) && copied == roots
      ensures Fits(heap, zone.semisize, roots) ==> ok
    {
      hide Total, CopiedTo, Fits;
      for i := 0 to |roots|
        invariant Copying() && copied == roots[..i]
      {
        PrefixFits(heap, zone.fromspace, zone.fromspace + zone.semisize, copied, zone.memory, next, roots, i);
        ok := Process(roots[i]);
        if !ok { return; }
        assert roots[..i] + [roots[i]] == roots[..i + 1];
      }
      assert roots[..|roots|] == roots;
      forall k | 0 <= k < |copied| ensures Reachable(heap, roots, copied[k]) {
        ReachableRoot(heap, roots, copied[k]);
      }
      ok := true;
    }

    /** Copies an object unless it has been copied. */
    method Visit(ptr: nat, ghost from: seq<nat>) returns (ok: bool)
      requires Tracing(from) && ptr in heap && Reachable(heap, from, ptr)
      modifies this`next, this`copied, zone`memory
      ensures Tracing(from) && |old(copied)| <= |copied| && copied[..|old(copied)|] == old(copied)
      ensures ok ==> ptr in copied
      ensures Fits(heap, zone.semisize, from) ==> ok
    {
      hide Total, CopiedTo, Reachable, Fits;
      CopiedObject(heap, zone.fromspace, zone.fromspace + zone.semisize, copied, zone.memory, next, ptr);
      if zone.memory[ptr].forwarding != 0 { return true; }
      OneMoreFits(heap, zone.fromspace, zone.fromspace + zone.semisize, copied, zone.memory, next, ptr, from);
      ok := Process(ptr);
      if ok {
        assert copied[|copied| - 1] == ptr;
        assert copied[..|from|] == from;
      }
    }

    /** Visits every reference of the copy at `curr`, which is that of the object `copied[scanned]`. */
    method VisitPointers(slots: seq<nat>, ghost from: seq<nat>) returns (ok: bool)
      requires Tracing(from) && scanned < |copied| && slots == heap[copied[scanned]].slots
      modifies this`next, this`copied, zone`memory
      ensures Tracing(from) && |old(copied)| <= |copied| && copied[..|old(copied)|] == old(copied)
      ensures ok ==> forall t :: t in slots ==> t in copied
      ensures Fits(heap, zone.semisize, from) ==> ok
    {
      hide Total, CopiedTo, Reachable, Fits, NewFrom;
      ghost var a := copied[scanned];
      SlotsInHeap(heap, zone.fromspace, zone.fromspace + zone.semisize, copied, zone.memory, next, a);
      for i := 0 to |slots|
        invariant Tracing(from) && |old(copied)| <= |copied| && copied[..|old(copied)|] == old(copied)
        invariant forall j :: 0 <= j < i ==> slots[j] in copied
      {
        ReachableSlot(heap, from, a, slots[i]);
        ghost var before := copied;
        ok := Visit(slots[i], from);
        if !ok { return; }
        assert forall x :: x in before ==> x in copied[..|before|];
      }
      ok := true;
    }

    /** One turn of the scan: visits what the copy at `curr` refers to and goes on to the next copy. */
    method ScanOne(ghost from: seq<nat>) returns (ok: bool)
      requires Tracing(from) && scanned <= |copied| && curr == Place(heap, zone.fromspace, copied, scanned) < next
      requires ScannedTo(heap, copied, scanned)
      modifies this`curr, this`next, this`copied, this`scanned, zone`memory
      ensures Fits(heap, zone.semisize, from) ==> ok
      ensures ok ==>
                && Tracing(from) && scanned == old(scanned) + 1 <= |copied| && ScannedTo(heap, copied, scanned)
                && curr == Place(heap, zone.fromspace, copied, scanned) && old(scanned) < |from| + |heap.Keys|
    {
      hide Total, CopiedTo, Reachable, Fits, NewFrom, ScannedTo, Place;
      ScanStep(heap, zone.fromspace, zone.fromspace + zone.semisize, copied, zone.memory, next, scanned);
      ScanBound(heap, copied, from);
      var ptr := zone.memory[curr];
      ghost var before := copied;
      ok := VisitPointers(ptr.slots, from);
      if !ok { return; }
      StillScanned(heap, zone.fromspace, before, copied, scanned);
      curr := curr + Total(ptr);
      scanned := scanned + 1;
    }

    /** The scan: visits the copies in order, those it makes on the way included. */
    method ProcessFromspace(ghost from: seq<nat>) returns (ok: bool)
      requires Tracing(from) && scanned == 0 && curr == zone.fromspace
      modifies this`curr, this`next, this`copied, this`scanned, zone`memory
      ensures ok ==> Tracing(from) && ScannedTo(heap, copied, |copied|)
      ensures Fits(heap, zone.semisize, from) ==> ok
    {
      hide Total, CopiedTo, Reachable, Fits, NewFrom, ScannedTo, Place;
      StartOfScan(heap, zone.fromspace, copied);
      while curr < next
        invariant Tracing(from) && scanned <= |copied| && curr == Place(heap, zone.fromspace, copied, scanned)
        invariant ScannedTo(heap, copied, scanned)
        decreases |from| + |heap.Keys| - scanned
      {
        ok := ScanOne(from);
        if !ok { return; }
      }
      EndOfScan(heap, zone.fromspace, zone.fromspace + zone.semisize, copied, zone.memory, next, scanned);
      ok := true;
    }

    /** Makes every root slot point at the copy. */
    method NotifyRoots()
      requires All(zone.memory, roots)
      modifies this`roots
      ensures |roots| == |old(roots)|
      ensures forall i :: 0 <= i < |roots| ==> roots[i] == zone.memory[old(roots)[i]].forwarding
    {
      for i := 0 to |roots|
        invariant |roots| == |old(roots)|
        invariant forall j :: 0 <= j < i ==> roots[j] == zone.memory[old(roots)[j]].forwarding
        invariant forall j :: i <= j < |roots| ==> roots[j] == old(roots)[j]
      {
        roots := roots[i := zone.memory[roots[i]].forwarding];
      }
    }

    /** Swaps the halves and puts both addresses at the start of the new one. */
    method Begin()
      requires zone.Valid() && All(zone.memory, roots)
      modifies this`heap, this`copied, this`scanned, this`next, this`curr, zone`fromspace, zone`tospace
      ensures Copying() && copied == [] && scanned == 0 && curr == zone.fromspace == old(zone.tospace)
      ensures heap == zone.memory == old(zone.memory) && All(heap, roots)
      ensures NoDuplicates(roots) ==> Fits(heap, zone.semisize, roots)
      ensures Fits(heap, zone.semisize, roots) <==> roots == [] || Room(heap, roots, zone.order) < zone.semisize
    {
      hide Total, Fits, Apart, Sum, Place, Room;
      OrderDistinct(zone.memory, zone.fromspace, zone.order);
      FitsIff(zone.memory, zone.semisize, roots, zone.order);
      ZoneFits(zone.memory, zone.fromspace, zone.semisize, zone.order, roots);
      ZoneApart(zone.memory, zone.fromspace, zone.tospace, zone.semisize, zone.order);
      heap, copied, scanned := zone.memory, [], 0;
      zone.SwapSpaces();
      next, curr := zone.fromspace, zone.fromspace;
      NothingCopied(heap, zone.fromspace, zone.fromspace + zone.semisize);
    }

    /** A collection; it succeeds exactly when the copies fit, as they do when no root occurs twice. */
    method Collect() returns (ok: bool)
      requires zone.Valid() && All(zone.memory, roots)
      modifies this, zone`memory, zone`fromspace, zone`tospace, zone`current
      ensures ok <==> old(roots) == [] || Room(old(zone.memory), old(roots), old(zone.order)) < zone.semisize
      ensures NoDuplicates(old(roots)) ==> ok
      ensures zone.fromspace == old(zone.tospace)
      ensures
        ok ==>
          Collected(old(zone.memory), zone.fromspace, zone.fromspace + zone.semisize, copied, zone.memory, zone.current,
            old(roots), roots)
      ensures
        ok ==>
          var w := Walk(zone.memory, zone.start, zone.current);
          VisitsCopies(old(zone.memory), zone.fromspace, copied, zone.current, w) <==> zone.fromspace == zone.start
    {
      hide Total, CopiedTo, Reachable, Fits, NewFrom, Collected, ScannedTo, NewZone.Valid, Room;
      ghost var from := roots;
      HalvesFrom(zone);
      Begin();
      ok := ProcessRoots();
      if !ok { return; }
      ok := ProcessFromspace(from);
      if !ok { return; }
      RootsInMemory(heap, zone.fromspace, zone.fromspace + zone.semisize, copied, zone.memory, next, roots);
      NotifyRoots();
      zone.SetCurrent(next);
      AllCollected(heap, zone.fromspace, zone.fromspace + zone.semisize, copied, zone.memory, next, from, roots);
      CollectedFits(heap, zone.fromspace, zone.fromspace + zone.semisize, copied, zone.memory, next, from, roots);
      CollectedCopies(heap, zone.fromspace, zone.fromspace + zone.semisize, copied, zone.memory, next, from, roots);
      ZoneWalkIff(heap, zone.start, zone.fromspace, zone.fromspace + zone.semisize, copied, zone.memory, next);
    }
  }

  lemma HalvesFrom(zone: NewZone)
    requires zone.Valid()
    ensures zone.start <= zone.fromspace && zone.start <= zone.tospace
  {
  }

  lemma CollectedCopies(h: Memory, to: nat, end: nat, copied: seq<nat>, m: Memory, next: nat, from: seq<nat>,
      roots: seq<nat>)
    requires Collected(h, to, end, copied, m, next, from, roots)
    ensures CopiedTo(h, to, end, copied, m, next)
  {
  }

  lemma SlotsInHeap(h: Memory, to: nat, end: nat, copied: seq<nat>, m: Memory, next: nat, a: nat)
    requires CopiedTo(h, to, end, copied, m, next) && a in copied
    ensures a in h && All(h, h[a].slots)
    ensures forall t :: t in h[a].slots ==> t in h
  {
  }

  lemma StartOfScan(h: Memory, to: nat, copied: seq<nat>)
    requires All(h, copied)
    ensures Place(h, to, copied, 0) == to && ScannedTo(h, copied, 0)
  {
  }

  /** While the scan is behind, it is at the copy of the next object. */
  lemma ScanStep(h: Memory, to: nat, end: nat, copied: seq<nat>, m: Memory, next: nat, n: nat)
    requires CopiedTo(h, to, end, copied, m, next) && n <= |copied| && Place(h, to, copied, n) < next
    ensures n < |copied| && Place(h, to, copied, n) in m
    ensures var o := m[Place(h, to, copied, n)];
            o == CopyOf(h[copied[n]]) && Place(h, to, copied, n) + Total(o) == Place(h, to, copied, n + 1)
  {
    hide Total, After, SetRememberedBit;
    assert copied[..|copied|] == copied;
    Copies(h, to, copied, n);
    PlaceGrows(h, to, copied, n, n + 1);
    CopyTotal(h[copied[n]]);
  }

  lemma CopyTotal(o: Object)
    ensures Total(CopyOf(o)) == Total(o)
  {
    RememberedKeepsTag(o.tag);
  }

  lemma StillScanned(h: Memory, to: nat, before: seq<nat>, copied: seq<nat>, n: nat)
    requires n < |before| <= |copied| && copied[..|before|] == before && All(h, copied)
    requires ScannedTo(h, before, n) && forall t :: t in h[copied[n]].slots ==> t in copied
    ensures ScannedTo(h, copied, n + 1) && Place(h, to, copied, n + 1) == Place(h, to, before, n + 1)
  {
    assert copied[..n + 1] == before[..n + 1];
    assert forall x :: x in before ==> x in copied[..|before|];
    forall k, t | 0 <= k < n + 1 && t in h[copied[k]].slots ensures t in copied {
      if k < n { assert before[k] == copied[k]; }
    }
  }

  lemma EndOfScan(h: Memory, to: nat, end: nat, copied: seq<nat>, m: Memory, next: nat, n: nat)
    requires CopiedTo(h, to, end, copied, m, next) && n <= |copied| && Place(h, to, copied, n) >= next
    ensures n == |copied|
  {
    assert copied[..|copied|] == copied;
    if n < |copied| { PlaceGrows(h, to, copied, n, |copied|); }
  }

  /** There are no more copies than roots and objects. */
  lemma ScanBound(h: Memory, copied: seq<nat>, from: seq<nat>)
    requires All(h, copied) && |from| <= |copied| && NewFrom(copied, |from|)
    ensures |copied| <= |from| + |h.Keys|
  {
    var more := copied[|from|..];
    assert NoDuplicates(more) by {
      assert forall i :: 0 <= i < |more| ==> more[i] == copied[i + |from|];
    }
    DistinctBound(more, h.Keys);
  }

  lemma {:induction false} DistinctBound(s: seq<nat>, keys: set<nat>)
    requires NoDuplicates(s) && forall i :: 0 <= i < |s| ==> s[i] in keys
    ensures |s| <= |keys|
  {
    if s != [] {
      var rest := keys - {Back(s)};
      assert forall i :: 0 <= i < |Front(s)| ==> Front(s)[i] == s[i] && s[i] != Back(s);
      DistinctBound(Front(s), rest);
      assert keys == rest + {Back(s)};
    }
  }

  lemma NothingCopied(h: Memory, to: nat, end: nat)
    requires 0 < to <= end && Apart(h, to, end) && Closed(h)
    ensures CopiedTo(h, to, end, [], h, to)
  {
  }

  lemma ZoneApart(h: Memory, start: nat, to: nat, size: nat, order: seq<nat>)
    requires All(h, order) && forall a :: a in h <==> a in order
    requires forall k :: 0 <= k < |order| ==> order[k] == Place(h, start, order, k)
    requires order != [] ==> Sum(h, order) < size
    requires start + size <= to || to + size <= start
    ensures Apart(h, to, to + size)
  {
    NewPlace(h, start, order);
  }

  /**
    Everything allocated took less than a half, so the roots and what they reach fit into
    the other one if no root occurs twice.
   */
  lemma ZoneFits(h: Memory, start: nat, size: nat, order: seq<nat>, from: seq<nat>)
    requires All(h, order) && (forall a :: a in h <==> a in order) && (order != [] ==> Sum(h, order) < size)
    ensures NoDuplicates(from) && All(h, from) ==> Fits(h, size, from)
  {
    hide Total, Reachable;
    if NoDuplicates(from) && All(h, from) {
      forall s | Extends(h, from, s) && from + s != [] ensures Sum(h, from + s) < size {
        assert (from + s)[0] in order;
        SumOfSome(h, from + s, order);
      }
    }
  }

  lemma RootsInMemory(h: Memory, to: nat, end: nat, copied: seq<nat>, m: Memory, next: nat, roots: seq<nat>)
    requires CopiedTo(h, to, end, copied, m, next) && All(h, roots)
    ensures All(m, roots)
  {
  }

  /**
    The state after a collection: `copied` lists the objects that were copied, the
    roots first, with no repetition after them; they are the reachable ones; each
    was copied to its place; and the roots hold forwarding addresses.
   */
  ghost predicate Collected(h: Memory, to: nat, end: nat, copied: seq<nat>, m: Memory, next: nat, from: seq<nat>,
      roots: seq<nat>)
  {
    && CopiedTo(h, to, end, copied, m, next)
    && |from| <= |copied| && copied[..|from|] == from && NewFrom(copied, |from|)
    && (forall a :: a in copied <==> a in h && Reachable(h, from, a))
    && |roots| == |from| && forall i :: 0 <= i < |from| ==> from[i] in m && roots[i] == m[from[i]].forwarding
  }

  lemma AllCollected(h: Memory, to: nat, end: nat, copied: seq<nat>, m: Memory, next: nat, from: seq<nat>,
      roots: seq<nat>)
    requires CopiedTo(h, to, end, copied, m, next) && All(h, from)
    requires |from| <= |copied| && copied[..|from|] == from && NewFrom(copied, |from|)
    requires ScannedTo(h, copied, |copied|) && forall k :: 0 <= k < |copied| ==> Reachable(h, from, copied[k])
    requires |roots| == |from| && forall i :: 0 <= i < |from| ==> from[i] in m && roots[i] == m[from[i]].forwarding
    ensures Collected(h, to, end, copied, m, next, from, roots)
  {
    hide CopiedTo, ScannedTo, Reachable;
    AllIn(h, to, end, copied, m, next);
    ReachableCopied(h, copied, from);
  }

  lemma AllIn(h: Memory, to: nat, end: nat, copied: seq<nat>, m: Memory, next: nat)
    requires CopiedTo(h, to, end, copied, m, next)
    ensures forall a :: a in copied ==> a in h
  {
  }

  lemma ReachableCopied(h: Memory, copied: seq<nat>, from: seq<nat>)
    requires All(h, copied) && ScannedTo(h, copied, |copied|) && |from| <= |copied| && copied[..|from|] == from
    ensures forall a :: a in h && Reachable(h, from, a) ==> a in copied
  {
    hide ScannedTo;
    ClosedUnderSlots(h, copied);
    assert forall r :: r in from ==> r in copied[..|from|];
    forall a | a in h && Reachable(h, from, a) ensures a in copied {
      var path: seq<nat> :| IsPath(h, path) && path[0] in from && Back(path) == a;
      ClosedHoldsPath(h, from, copied, path);
    }
  }

  lemma ClosedUnderSlots(h: Memory, copied: seq<nat>)
    requires All(h, copied) && ScannedTo(h, copied, |copied|)
    ensures forall a :: a in copied && a in h ==> forall t :: t in h[a].slots ==> t in copied
  {
  }

  /** `s` lists, once each, objects that are reachable but no roots. */
  ghost predicate Extends(h: Memory, from: seq<nat>, s: seq<nat>) {
    All(h, s) && NoDuplicates(s) && forall i :: 0 <= i < |s| ==> s[i] !in from && Reachable(h, from, s[i])
  }

  /** The roots, as often as they occur, and any other reachable objects take less than a half. */
  ghost predicate Fits(h: Memory, size: nat, from: seq<nat>) {
    All(h, from) && forall s :: Extends(h, from, s) && from + s != [] ==> Sum(h, from + s) < size
  }

  lemma OneMoreFits(h: Memory, to: nat, end: nat, copied: seq<nat>, m: Memory, next: nat, a: nat, from: seq<nat>)
    requires CopiedTo(h, to, end, copied, m, next) && a in h && a !in copied && end >= to && Reachable(h, from, a)
    requires |from| <= |copied| && copied[..|from|] == from && NewFrom(copied, |from|)
    requires forall k :: 0 <= k < |copied| ==> Reachable(h, from, copied[k])
    ensures Fits(h, end - to, from) ==> next + Total(h[a]) < end
  {
    hide Total, Reachable, Extends, After, Apart;
    var s := copied[|from|..] + [a];
    assert from + s == copied + [a];
    assert Front(from + s) == copied && Back(from + s) == a;
    OneMoreExtends(h, copied, a, from);
  }

  lemma OneMoreExtends(h: Memory, copied: seq<nat>, a: nat, from: seq<nat>)
    requires All(h, copied) && a in h && a !in copied && Reachable(h, from, a)
    requires |from| <= |copied| && copied[..|from|] == from && NewFrom(copied, |from|)
    requires forall k :: 0 <= k < |copied| ==> Reachable(h, from, copied[k])
    ensures Extends(h, from, copied[|from|..] + [a])
  {
    hide Reachable;
    var s := copied[|from|..] + [a];
    assert forall j :: 0 <= j < |from| ==> from[j] == copied[j];
    forall i | 0 <= i < |s| ensures s[i] in h && s[i] !in from && Reachable(h, from, s[i]) {
      if i + |from| < |copied| { assert s[i] == copied[i + |from|]; }
    }
    forall i, j | 0 <= i < j < |s| ensures s[i] != s[j] {
      assert s[i] == copied[i + |from|];
      if j + |from| < |copied| { assert s[j] == copied[j + |from|]; }
    }
  }

  lemma PrefixFits(h: Memory, to: nat, end: nat, copied: seq<nat>, m: Memory, next: nat, from: seq<nat>, i: nat)
    requires CopiedTo(h, to, end, copied, m, next) && All(h, from) && i < |from| && copied == from[..i] && end >= to
    ensures Fits(h, end - to, from) ==> next + Total(h[from[i]]) < end
  {
    hide Total;
    assert Extends(h, from, []) && from + [] == from;
    assert from[..|from|] == from;
    PlaceGrows(h, to, from, i, |from|);
  }

  /** A collection that has succeeded copied all there is to copy in less than a half. */
  lemma CollectedFits(h: Memory, to: nat, end: nat, copied: seq<nat>, m: Memory, next: nat, from: seq<nat>,
      roots: seq<nat>)
    requires Collected(h, to, end, copied, m, next, from, roots) && All(h, from) && to <= end
    ensures Fits(h, end - to, from)
  {
    hide Total, Reachable;
    var more := copied[|from|..];
    assert copied == from + more;
    SumConcat(h, from, more);
    forall s | Extends(h, from, s) && from + s != [] ensures Sum(h, from + s) < end - to {
      forall i | 0 <= i < |s| ensures s[i] in more {
        assert s[i] in copied;
      }
      SumOfSome(h, s, more);
      SumConcat(h, from, s);
    }
  }

  /** The objects of `order` that are reachable but no roots. */
  ghost function Others(h: Memory, from: seq<nat>, order: seq<nat>): (s: seq<nat>)
    requires All(h, order)
    ensures All(h, s) && forall a :: a in s <==> a in order && a !in from && Reachable(h, from, a)
    ensures NoDuplicates(order) ==> NoDuplicates(s)
  {
    if order == [] then []
    else
      assert order == Front(order) + [Back(order)];
      var before := Others(h, from, Front(order));
      if Back(order) !in from && Reachable(h, from, Back(order)) then before + [Back(order)] else before
  }

  /**
    The room a collection needs: the roots, counted as often as they occur, and
    each other reachable object once; `order` lists the objects.
   */
  ghost function Room(h: Memory, from: seq<nat>, order: seq<nat>): nat
    requires All(h, from) && All(h, order)
  {
    Sum(h, from) + Sum(h, Others(h, from, order))
  }

  lemma FitsIff(h: Memory, size: nat, from: seq<nat>, order: seq<nat>)
    requires All(h, order) && NoDuplicates(order) && (forall a :: a in h <==> a in order) && All(h, from)
    ensures Fits(h, size, from) <==> from == [] || Room(h, from, order) < size
  {
    hide Total, Reachable, Others;
    var others := Others(h, from, order);
    SumConcat(h, from, others);
    if from == [] {
      forall s | Extends(h, from, s) ensures s == [] {
        if s != [] { NothingReachable(h, s[0]); }
      }
    } else if Fits(h, size, from) {
      assert Extends(h, from, others);
    } else {
      var s :| Extends(h, from, s) && from + s != [] && Sum(h, from + s) >= size;
      SumConcat(h, from, s);
      SumOfSome(h, s, others);
    }
  }

  lemma OrderDistinct(h: Memory, start: nat, order: seq<nat>)
    requires All(h, order) && forall k :: 0 <= k < |order| ==> order[k] == Place(h, start, order, k)
    ensures NoDuplicates(order)
  {
    hide Place;
    forall i, j | 0 <= i < j < |order| ensures order[i] != order[j] {
      PlaceGrows(h, start, order, i, j);
    }
  }

  lemma NothingReachable(h: Memory, a: nat)
    ensures !Reachable(h, [], a)
  {
  }

  // What a collection achieves.

  /** The tag is `tag` with the remembered bit set. */
  predicate IsRemembered(copy: Tag, tag: Tag) {
    && ValueOf(REMEMBERED_BIT.Decode(copy)) == 1
    && forall f :: f in {REFERENCES, NEW_BIT, OLD_BIT, MARKED_BIT, SIZE_FIELD} ==> f.Decode(copy) == f.Decode(tag)
  }

  /** The forwarding address of an old object. */
  function Forward(m: Memory, a: nat): nat {
    if a in m then m[a].forwarding else 0
  }

  /**
    With distinct roots the forwarding addresses are an isomorphism from the
    reachable objects onto the copies: every reachable object is forwarded, no two
    to the same address, to an object with the same contents and size that has not
    been forwarded itself; what the slots of the copy lead to, read through the
    forwarding addresses, are the copies of what the slots of the object led to;
    and every root leads to the copy of the object it led to.
   */
  lemma Isomorphism(h: Memory, to: nat, end: nat, copied: seq<nat>, m: Memory, next: nat, from: seq<nat>,
      roots: seq<nat>)
    requires Collected(h, to, end, copied, m, next, from, roots) && NoDuplicates(from)
    ensures forall a :: a in h && Reachable(h, from, a) ==>
              && to <= Forward(m, a) < next && Forward(m, a) in m && m[Forward(m, a)] == CopyOf(h[a])
              && Total(m[Forward(m, a)]) == Total(h[a])
              && m[Forward(m, a)].slots == h[a].slots && m[Forward(m, a)].data == h[a].data
              && m[Forward(m, a)].forwarding == 0 && IsRemembered(m[Forward(m, a)].tag, h[a].tag)
              && forall t :: t in h[a].slots ==> t in h && Reachable(h, from, t)
    ensures forall a, b :: a in h && b in h && Reachable(h, from, a) && Reachable(h, from, b) ==>
              Forward(m, a) == Forward(m, b) ==> a == b
    ensures forall a :: a in h && !Reachable(h, from, a) ==> m[a] == h[a]
    ensures |roots| == |from| && forall i :: 0 <= i < |from| ==>
        Reachable(h, from, from[i]) && roots[i] == Forward(m, from[i])
  {
    hide After, Total, Reachable, Apart, Field.Decode, SetRememberedBit;
    forall a | a in h && Reachable(h, from, a)
      ensures to <= Forward(m, a) < next && Forward(m, a) in m && m[Forward(m, a)] == CopyOf(h[a])
      ensures Total(m[Forward(m, a)]) == Total(h[a]) && IsRemembered(m[Forward(m, a)].tag, h[a].tag)
      ensures forall t :: t in h[a].slots ==> t in h && Reachable(h, from, t)
    {
      CopiedObject(h, to, end, copied, m, next, a);
      ForwardPlace(h, to, end, copied, m, next, LastIndex(copied, a));
      CopyTotal(h[a]);
      RememberedKeepsTag(h[a].tag);
      forall t | t in h[a].slots ensures t in h && Reachable(h, from, t) {
        SlotsInHeap(h, to, end, copied, m, next, a);
        ReachableSlot(h, from, a, t);
      }
    }
    forall a, b | a in h && b in h && Reachable(h, from, a) && Reachable(h, from, b) && Forward(m, a) == Forward(m, b)
      ensures a == b
    {
      CopiedObject(h, to, end, copied, m, next, a);
      CopiedObject(h, to, end, copied, m, next, b);
      SamePlace(h, to, copied, LastIndex(copied, a), LastIndex(copied, b));
    }
    forall a | a in h && !Reachable(h, from, a) ensures m[a] == h[a] {
      CopiedObject(h, to, end, copied, m, next, a);
    }
    forall i | 0 <= i < |from| ensures Reachable(h, from, from[i]) && from[i] in h {
      assert copied[..|from|][i] == from[i] && copied[i] in copied;
    }
  }

  /** ... and onto: a collection adds nothing to memory but the copies of reachable objects. */
  lemma ForwardOnto(h: Memory, to: nat, end: nat, copied: seq<nat>, m: Memory, next: nat, from: seq<nat>,
      roots: seq<nat>, x: nat)
    requires Collected(h, to, end, copied, m, next, from, roots) && NoDuplicates(from) && x in m && x !in h
    ensures exists a :: a in h && Reachable(h, from, a) && Forward(m, a) == x
  {
    hide After, Total, Reachable, Place, Apart;
    AfterKeys(h, to, copied);
    var k :| 0 <= k < |copied| && x == Place(h, to, copied, k);
    var a := copied[k];
    CopiedObject(h, to, end, copied, m, next, a);
    CopiedOnceIff(h, to, end, copied, m, next, from, roots);
    assert LastIndex(copied, a) == k;
  }

  lemma ForwardPlace(h: Memory, to: nat, end: nat, copied: seq<nat>, m: Memory, next: nat, k: nat)
    requires CopiedTo(h, to, end, copied, m, next) && k < |copied|
    ensures var p := Place(h, to, copied, k); to <= p < next && p in m && m[p] == CopyOf(h[copied[k]])
  {
    hide After, Total;
    Copies(h, to, copied, k);
    PlaceGrows(h, to, copied, k, |copied|);
    assert copied[..|copied|] == copied;
  }

  lemma SamePlace(h: Memory, to: nat, copied: seq<nat>, j: nat, k: nat)
    requires All(h, copied) && j < |copied| && k < |copied| && Place(h, to, copied, j) == Place(h, to, copied, k)
    ensures j == k
  {
    hide Place;
    if j < k { PlaceGrows(h, to, copied, j, k); }
    if k < j { PlaceGrows(h, to, copied, k, j); }
  }

  /**
    A reachable object is copied as often as it occurs among the roots, and once
    if it does not; so every object is copied once if and only if no root occurs
    twice.
   */
  lemma CopiedOnceIff(h: Memory, to: nat, end: nat, copied: seq<nat>, m: Memory, next: nat, from: seq<nat>,
      roots: seq<nat>)
    requires Collected(h, to, end, copied, m, next, from, roots)
    ensures NoDuplicates(copied) <==> NoDuplicates(from)
    ensures forall a :: a in h && Reachable(h, from, a) ==> a in copied
    ensures
      forall a :: a in h && Reachable(h, from, a) ==> multiset(copied)[a] == if a in from then multiset(from)[a] else 1
  {
    hide Reachable, CopiedTo;
    assert forall i :: 0 <= i < |from| ==> from[i] == copied[i];
    forall a | a in h && Reachable(h, from, a)
      ensures multiset(copied)[a] == if a in from then multiset(from)[a] else 1
    {
      CopiedAsOften(copied, from, a);
    }
  }

  lemma CopiedAsOften(copied: seq<nat>, from: seq<nat>, a: nat)
    requires a in copied && |from| <= |copied| && copied[..|from|] == from && NewFrom(copied, |from|)
    ensures multiset(copied)[a] == if a in from then multiset(from)[a] else 1
  {
    var more := copied[|from|..];
    assert copied == from + more;
    assert forall i :: 0 <= i < |from| ==> from[i] == copied[i];
    assert forall i :: 0 <= i < |more| ==> more[i] == copied[i + |from|];
    if a !in more { assert multiset(more)[a] == 0; } else { OnceInMore(more, a); }
  }

  lemma {:induction false} OnceInMore(s: seq<nat>, a: nat)
    requires NoDuplicates(s) && a in s
    ensures multiset(s)[a] == 1
  {
    assert s == Front(s) + [Back(s)];
    assert forall i :: 0 <= i < |Front(s)| ==> Front(s)[i] == s[i];
    if a in Front(s) {
      OnceInMore(Front(s), a);
    } else {
      assert multiset(Front(s))[a] == 0;
    }
  }

  /** One object that is a root twice: a collection leaves two copies of it, and both roots lead to the second one. */
  lemma RootTwice(a: nat, o: Object, to: nat, end: nat)
    requires o.slots == [] && o.forwarding == 0 && 0 < to && to + 2 * Total(o) < end && (a < to || end <= a)
    ensures
      var h, from, second := map[a := o], [a, a], to + Total(o);
      var m := map[a := o.(forwarding := second), to := CopyOf(o), second := CopyOf(o)];
      && Collected(h, to, end, from, m, second + Total(o), from, [second, second])
      && Fits(h, end - to, from)
  {
    hide Total, CopyOf, After, Sum, Fits, Collected, Reachable;
    var h, from, second := map[a := o], [a, a], to + Total(o);
    var m := map[a := o.(forwarding := second), to := CopyOf(o), second := CopyOf(o)];
    CopiedTwice(a, o, to);
    assert CopiedTo(h, to, end, from, m, second + Total(o));
    ReachableRoot(h, from, a);
    assert ScannedTo(h, from, |from|);
    AllCollected(h, to, end, from, m, second + Total(o), from, [second, second]);
    CollectedFits(h, to, end, from, m, second + Total(o), from, [second, second]);
  }

  lemma CopiedTwice(a: nat, o: Object, to: nat)
    requires o.forwarding == 0 && a != to && a != to + Total(o)
    ensures
      var h, second := map[a := o], to + Total(o);
      && Sum(h, [a, a]) == 2 * Total(o)
      && After(h, to, [a, a]) == map[a := o.(forwarding := second), to := CopyOf(o), second := CopyOf(o)]
  {
    hide Total, CopyOf;
    var h, from := map[a := o], [a, a];
    assert Front(from) == [a] && Back(from) == a && Front([a]) == [] && Back([a]) == a;
    assert Sum(h, []) == 0 && Sum(h, [a]) == Total(o);
    assert After(h, to, []) == h;
    assert After(h, to, [a]) == h[to := CopyOf(o)][a := o.(forwarding := to)];
  }

  /** The slots of a copy still hold the old addresses: none of them lies in the half that is now in use. */
  lemma SlotsStayOld(h: Memory, to: nat, end: nat, copied: seq<nat>, m: Memory, next: nat, from: seq<nat>,
      roots: seq<nat>, k: nat)
    requires Collected(h, to, end, copied, m, next, from, roots) && k < |copied|
    ensures var p := Place(h, to, copied, k);
            p in m && forall t :: t in m[p].slots ==> t in h && (t < to || end <= t)
  {
    hide After, Total, Reachable;
    ForwardPlace(h, to, end, copied, m, next, k);
    SlotsInHeap(h, to, end, copied, m, next, copied[k]);
  }

  /** The addresses a walk visits and the address at which it ends. */
  datatype Walked = Walked(visited: seq<nat>, end: nat)

  /** Walks the objects that lie between two addresses by their sizes; fails where it meets no object. */
  method WalkPointers(m: Memory, start: nat, limit: nat) returns (ok: bool, visited: seq<nat>, end: nat)
    ensures Walk(m, start, limit) == if ok then Some(Walked(visited, end)) else None
  {
    hide Total, Walk, Prepended;
    end := start;
    visited := [];
    PrependedNone(Walk(m, start, limit));
    while end < limit
      invariant Walk(m, start, limit) == Prepended(visited, Walk(m, end, limit))
      decreases limit - end
    {
      WalkOne(m, end, limit);
      if end !in m {
        PrependedTwice(visited, [], None);
        return false, visited, end;
      }
      PrependedTwice(visited, [end], Walk(m, end + Total(m[end]), limit));
      visited := visited + [end];
      end := end + Total(m[end]);
    }
    WalkOne(m, end, limit);
    PrependedTwice(visited, [], Walk(m, end, limit));
    ok := true;
  }

  function Walk(m: Memory, current: nat, limit: nat): Option<Walked>
    decreases limit - current
  {
    if current >= limit then Some(Walked([], current))
    else if current !in m then None
    else Prepended([current], Walk(m, current + Total(m[current]), limit))
  }

  function Prepended(visited: seq<nat>, rest: Option<Walked>): Option<Walked> {
    if rest.None? then None else Some(Walked(visited + rest.value.visited, rest.value.end))
  }

  /** A walk that ends at the allocation address and has visited the copies in order. */
  ghost predicate VisitsCopies(h: Memory, to: nat, copied: seq<nat>, next: nat, w: Option<Walked>)
    requires All(h, copied)
  {
    && w.Some? && w.value.end == next && |w.value.visited| == |copied|
    && forall k :: 0 <= k < |copied| ==> w.value.visited[k] == Place(h, to, copied, k)
  }

  /**
    After a collection a walk from the start of the half in use never leaves the
    objects, visits exactly the copies, in the order in which they were made, and
    ends at the allocation address.
   */
  lemma WalkVisitsCopies(h: Memory, to: nat, end: nat, copied: seq<nat>, m: Memory, next: nat)
    requires CopiedTo(h, to, end, copied, m, next)
    ensures VisitsCopies(h, to, copied, next, Walk(m, to, next))
  {
    hide CopiedTo, Total, Walk;
    WalkFrom(h, to, end, copied, m, next, 0);
  }

  /**
    The walk of the zone, which begins at the start of the zone, visits exactly the
    copies if and only if the half now in use is the first one.
   */
  lemma ZoneWalkIff(h: Memory, start: nat, to: nat, end: nat, copied: seq<nat>, m: Memory, next: nat)
    requires CopiedTo(h, to, end, copied, m, next) && start <= to
    ensures VisitsCopies(h, to, copied, next, Walk(m, start, next)) <==> start == to
  {
    hide CopiedTo, Total, Walk;
    WalkVisitsCopies(h, to, end, copied, m, next);
    if start < to {
      EndPlace(h, to, end, copied, m, next);
      WalkStarts(m, start, next);
    }
  }

  lemma WalkStarts(m: Memory, current: nat, limit: nat)
    requires current < limit
    ensures
      var w := Walk(m, current, limit);
      w.Some? ==> w.value.visited != [] && w.value.visited[0] == current
  {
  }

  /**
    After the first collection of a zone, that of its first half, the walk leads
    through the old objects and then to an address where there is no object.
   */
  lemma FirstCollectionBreaksWalk(h: Memory, start: nat, size: nat, order: seq<nat>, copied: seq<nat>, m: Memory,
      next: nat)
    requires CopiedTo(h, start + size, start + 2 * size, copied, m, next) && 0 < start && 0 < size
    requires All(h, order) && (forall a :: a in h ==> a in order) && (order != [] ==> Sum(h, order) < size)
    requires forall k :: 0 <= k < |order| ==> order[k] == Place(h, start, order, k)
    ensures Walk(m, start, next) == None
  {
    hide CopiedTo, Total, Walk, Place;
    var stop := start + Sum(h, order);
    if order == [] { assert Sum(h, order) == 0; }
    NotInMemory(h, start, size, order, copied, m, next);
    WalkOld(h, start, start + size, start + 2 * size, order, copied, m, next, 0);
    StartOfScan(h, start, order);
    WalkOne(m, stop, next);
  }

  lemma NotInMemory(h: Memory, start: nat, size: nat, order: seq<nat>, copied: seq<nat>, m: Memory, next: nat)
    requires CopiedTo(h, start + size, start + 2 * size, copied, m, next) && 0 < size
    requires All(h, order) && (forall a :: a in h ==> a in order) && (order != [] ==> Sum(h, order) < size)
    requires forall k :: 0 <= k < |order| ==> order[k] == Place(h, start, order, k)
    ensures start + Sum(h, order) < start + size <= next && start + Sum(h, order) !in m
  {
    hide Total, After, Apart;
    NewPlace(h, start, order);
    AfterKeys(h, start + size, copied);
    EndPlace(h, start + size, start + 2 * size, copied, m, next);
  }

  lemma {:induction false} WalkOld(h: Memory, start: nat, to: nat, end: nat, order: seq<nat>, copied: seq<nat>,
      m: Memory, next: nat, n: nat)
    requires CopiedTo(h, to, end, copied, m, next) && All(h, order) && n <= |order| && start + Sum(h, order) < next
    requires forall k :: 0 <= k < |order| ==> order[k] == Place(h, start, order, k)
    ensures Walk(m, start + Sum(h, order), next) == None ==> Walk(m, Place(h, start, order, n), next) == None
    decreases |order| - n
  {
    hide CopiedTo, Total, Walk;
    assert order[..|order|] == order;
    if n < |order| {
      CopiedObject(h, to, end, copied, m, next, order[n]);
      PlaceGrows(h, start, order, n, n + 1);
      PlaceGrows(h, start, order, n, |order|);
      WalkOld(h, start, to, end, order, copied, m, next, n + 1);
      WalkOne(m, order[n], next);
    }
  }

  lemma {:induction false} WalkFrom(h: Memory, to: nat, end: nat, copied: seq<nat>, m: Memory, next: nat, n: nat)
    requires CopiedTo(h, to, end, copied, m, next) && n <= |copied|
    ensures Walk(m, Place(h, to, copied, n), next) == Some(Walked(PlacesFrom(h, to, copied, n), next))
    decreases |copied| - n
  {
    hide CopiedTo, Total, Place, CopyOf, Walk;
    if n < |copied| {
      ForwardPlace(h, to, end, copied, m, next, n);
      ScanStep(h, to, end, copied, m, next, n);
      WalkFrom(h, to, end, copied, m, next, n + 1);
      WalkOne(m, Place(h, to, copied, n), next);
    } else {
      EndPlace(h, to, end, copied, m, next);
      WalkOne(m, next, next);
    }
  }

  /** The places of the copies from number `n` on. */
  function PlacesFrom(h: Memory, to: nat, copied: seq<nat>, n: nat): (s: seq<nat>)
    requires All(h, copied) && n <= |copied|
    ensures |s| == |copied| - n && forall k :: 0 <= k < |s| ==> s[k] == Place(h, to, copied, n + k)
    decreases |copied| - n
  {
    if n == |copied| then [] else [Place(h, to, copied, n)] + PlacesFrom(h, to, copied, n + 1)
  }

  lemma WalkOne(m: Memory, current: nat, limit: nat)
    ensures
      current < limit && current in m ==>
        Walk(m, current, limit) == Prepended([current], Walk(m, current + Total(m[current]), limit))
    ensures current < limit && current !in m ==> Walk(m, current, limit) == None
    ensures current >= limit ==> Walk(m, current, limit) == Some(Walked([], current))
  {
  }

  lemma PrependedNone(w: Option<Walked>)
    ensures Prepended([], w) == w
  {
    if w.Some? { assert [] + w.value.visited == w.value.visited; }
  }

  lemma PrependedTwice(a: seq<nat>, b: seq<nat>, w: Option<Walked>)
    ensures Prepended(a, Prepended(b, w)) == Prepended(a + b, w)
    ensures w.None? ==> Prepended(a, w) == None
    ensures w.Some? && w.value.visited == [] ==> Prepended(a, w) == Some(Walked(a, w.value.end))
  {
    if w.Some? {
      assert a + (b + w.value.visited) == a + b + w.value.visited;
      assert w.value.visited == [] ==> a + w.value.visited == a;
    }
  }

  lemma EndPlace(h: Memory, to: nat, end: nat, copied: seq<nat>, m: Memory, next: nat)
    requires CopiedTo(h, to, end, copied, m, next)
    ensures Place(h, to, copied, |copied|) == next
  {
    assert copied[..|copied|] == copied;
  }
}
