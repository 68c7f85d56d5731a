/**
  What a run of the collector makes of memory, as a function of the objects it
  copies in their order. An old object keeps everything but its forwarding
  address; its copy keeps everything but the remembered bit, its slots included.
 */
module Copying {
  import opened Sequences
  import opened Words
  import opened Bits

  type Tag = b: Bits | |b| == WORD_BITS witness Ones(WORD_BITS, 0)

  /** `slots` are the references the object's own visitor reports, `data` the rest of it. */
  datatype Object = Object(tag: Tag, slots: seq<nat>, data: seq<byte>, forwarding: nat)

  type Memory = map<nat, Object>

  const HEADER: nat := 16

  function Total(o: Object): (n: nat)
    ensures n >= HEADER
  {
    HEADER + SizeOf(o.tag)
  }

  predicate All(h: Memory, s: seq<nat>) {
    forall i :: 0 <= i < |s| ==> s[i] in h
  }

  function Sum(h: Memory, s: seq<nat>): nat
    requires All(h, s)
  {
    if s == [] then 0 else Sum(h, Front(s)) + Total(h[Back(s)])
  }

  /** Where the `k`-th copy lies: the copies follow one another. */
  function Place(h: Memory, to: nat, copied: seq<nat>, k: nat): nat
    requires All(h, copied) && k <= |copied|
  {
    to + Sum(h, copied[..k])
  }

  function CopyOf(o: Object): Object {
    Object(SetRememberedBit(o.tag), o.slots, o.data, 0)
  }

  /** Memory after the objects `copied` of `h` have been copied, in that order, to addresses from `to` on. */
  function After(h: Memory, to: nat, copied: seq<nat>): (m: Memory)
    requires All(h, copied)
    ensures h.Keys <= m.Keys
  {
    if copied == [] then h
    else
      var m := After(h, to, Front(copied));
      var next := to + Sum(h, Front(copied));
      var m' := m[next := CopyOf(h[Back(copied)])];
      m'[Back(copied) := m'[Back(copied)].(forwarding := next)]
  }

  /** The address range of the copies holds none of the objects. */
  ghost predicate Apart(h: Memory, to: nat, end: nat) {
    forall a :: a in h ==> a < to || end <= a
  }

  function LastIndex(s: seq<nat>, a: nat): (k: nat)
    requires a in s
    ensures k < |s| && s[k] == a && forall j :: k < j < |s| ==> s[j] != a
  {
    if Back(s) == a then |s| - 1
    else
      assert s == Front(s) + [Back(s)];
      LastIndex(Front(s), a)
  }

  // Sums.

  lemma {:induction false} SumConcat(h: Memory, a: seq<nat>, b: seq<nat>)
    requires All(h, a) && All(h, b)
    ensures All(h, a + b) && Sum(h, a + b) == Sum(h, a) + Sum(h, b)
  {
    if b == [] {
      assert a + b == a;
    } else {
      assert Front(a + b) == a + Front(b) && Back(a + b) == Back(b);
      SumConcat(h, a, Front(b));
    }
  }

  /** Later copies lie further on. */
  lemma PlaceGrows(h: Memory, to: nat, copied: seq<nat>, j: nat, k: nat)
    requires All(h, copied) && j < k <= |copied|
    ensures Place(h, to, copied, j) + Total(h[copied[j]]) <= Place(h, to, copied, k)
    ensures j + 1 == k ==> Place(h, to, copied, j) + Total(h[copied[j]]) == Place(h, to, copied, k)
  {
    assert Front(copied[..j + 1]) == copied[..j] && Back(copied[..j + 1]) == copied[j];
    assert copied[..k] == copied[..j + 1] + copied[j + 1..k];
    SumConcat(h, copied[..j + 1], copied[j + 1..k]);
    if j + 1 == k { assert copied[j + 1..k] == []; }
  }

  /** Distinct objects of a list take no more room than the list. */
  lemma {:induction false} SumOfSome(h: Memory, s: seq<nat>, all: seq<nat>)
    requires All(h, s) && All(h, all) && NoDuplicates(s) && forall i :: 0 <= i < |s| ==> s[i] in all
    ensures Sum(h, s) <= Sum(h, all)
    decreases |s|
  {
    hide Total, LastIndex;
    if s != [] {
      var k := LastIndex(all, Back(s));
      var rest := all[..k] + all[k + 1..];
      assert forall i :: 0 <= i < |Front(s)| ==> Front(s)[i] == s[i] && s[i] != Back(s);
      forall i | 0 <= i < |Front(s)| ensures Front(s)[i] in rest {
        var j :| 0 <= j < |all| && all[j] == s[i];
        if j < k { assert rest[j] == s[i]; } else { assert rest[j - 1] == s[i]; }
      }
      SumOfSome(h, Front(s), rest);
      SumWithout(h, all, k);
    }
  }

  lemma SumWithout(h: Memory, s: seq<nat>, k: nat)
    requires All(h, s) && k < |s|
    ensures All(h, s[..k] + s[k + 1..]) && Sum(h, s) == Sum(h, s[..k] + s[k + 1..]) + Total(h[s[k]])
  {
    hide Total;
    assert s == s[..k] + ([s[k]] + s[k + 1..]);
    SumConcat(h, [s[k]], s[k + 1..]);
    SumConcat(h, s[..k], [s[k]] + s[k + 1..]);
    SumConcat(h, s[..k], s[k + 1..]);
    assert Front([s[k]]) == [];
  }

  // Memory after copying.

  /** Every old object has only been given a forwarding address, that of its last copy. */
  lemma {:induction false} OldObjects(h: Memory, to: nat, copied: seq<nat>, a: nat)
    requires All(h, copied) && a in h && Apart(h, to, to + Sum(h, copied))
    ensures After(h, to, copied)[a] ==
            if a in copied then h[a].(forwarding := Place(h, to, copied, LastIndex(copied, a))) else h[a]
  {
    if copied != [] {
      var init, last := Front(copied), Back(copied);
      assert copied == init + [last];
      OldObjects(h, to, init, a);
      if a in init {
        assert a != last ==> LastIndex(copied, a) == LastIndex(init, a);
        assert copied[..LastIndex(init, a)] == init[..LastIndex(init, a)];
      }
    }
  }

  /** The `k`-th copy lies at its place and is the object with the remembered bit set. */
  lemma {:induction false} Copies(h: Memory, to: nat, copied: seq<nat>, k: nat)
    requires All(h, copied) && k < |copied| && Apart(h, to, to + Sum(h, copied))
    ensures Place(h, to, copied, k) in After(h, to, copied)
    ensures After(h, to, copied)[Place(h, to, copied, k)] == CopyOf(h[copied[k]])
  {
    hide After, Total, CopyOf;
    var init, place := Front(copied), Place(h, to, copied, k);
    PlaceGrows(h, to, copied, k, |copied|);
    assert copied[..|copied|] == copied;
    assert place !in h;
    if k < |init| {
      assert init[..k] == copied[..k];
      PlaceGrows(h, to, init, k, |init|);
      assert init[..|init|] == init;
      Copies(h, to, init, k);
    } else {
      assert copied[..k] == init;
    }
    AfterOne(h, to, copied, place);
  }

  lemma AfterOne(h: Memory, to: nat, copied: seq<nat>, x: nat)
    requires copied != [] && All(h, copied) && x !in h
    ensures x in After(h, to, copied) <==> x in After(h, to, Front(copied)) || x == to + Sum(h, Front(copied))
    ensures x in After(h, to, copied) ==>
              After(h, to, copied)[x] ==
              if x == to + Sum(h, Front(copied)) then CopyOf(h[Back(copied)]) else After(h, to, Front(copied))[x]
  {
    hide Total, CopyOf, SetRememberedBit;
  }

  lemma {:induction false} AfterKeys(h: Memory, to: nat, copied: seq<nat>)
    requires All(h, copied)
    ensures forall a :: a in After(h, to, copied) ==>
        a in h || exists k :: 0 <= k < |copied| && a == Place(h, to, copied, k)
  {
    if copied != [] {
      var init := Front(copied);
      AfterKeys(h, to, init);
      forall a | a in After(h, to, copied) && a !in h
        ensures exists k :: 0 <= k < |copied| && a == Place(h, to, copied, k)
      {
        if a in After(h, to, init) {
          var k :| 0 <= k < |init| && a == Place(h, to, init, k);
          assert copied[..k] == init[..k];
          assert a == Place(h, to, copied, k);
        } else {
          assert copied[..|init|] == init;
          assert a == Place(h, to, copied, |init|);
        }
      }
    }
  }

  // Reachability.

  ghost predicate IsPath(h: Memory, path: seq<nat>) {
    && path != [] && All(h, path)
    && forall i :: 0 < i < |path| ==> path[i] in h[path[i - 1]].slots
  }

  ghost predicate Reachable(h: Memory, roots: seq<nat>, a: nat) {
    exists path: seq<nat> :: IsPath(h, path) && path[0] in roots && Back(path) == a
  }

  lemma ReachableSlot(h: Memory, roots: seq<nat>, a: nat, s: nat)
    requires Reachable(h, roots, a) && s in h && a in h && s in h[a].slots
    ensures Reachable(h, roots, s)
  {
    var path: seq<nat> :| IsPath(h, path) && path[0] in roots && Back(path) == a;
    var longer := path + [s];
    forall i | 0 < i < |longer| ensures longer[i] in h[longer[i - 1]].slots {
      assert longer[i - 1] == path[i - 1];
    }
    assert IsPath(h, longer) && longer[0] in roots && Back(longer) == s;
  }

  lemma ReachableRoot(h: Memory, roots: seq<nat>, a: nat)
    requires a in roots && a in h
    ensures Reachable(h, roots, a)
  {
    assert IsPath(h, [a]) && [a][0] in roots && Back([a]) == a;
  }

  /** A set that holds the roots and the slots of its members holds everything reachable. */
  lemma {:induction false} ClosedHoldsPath(h: Memory, roots: seq<nat>, s: seq<nat>, path: seq<nat>)
    requires IsPath(h, path) && path[0] in roots && forall r :: r in roots ==> r in s
    requires forall a :: a in s && a in h ==> forall t :: t in h[a].slots ==> t in s
    ensures Back(path) in s
    decreases |path|
  {
    if |path| > 1 {
      var front := Front(path);
      assert forall i :: 0 <= i < |front| ==> front[i] == path[i];
      ClosedHoldsPath(h, roots, s, front);
      assert Back(front) == path[|path| - 2];
    }
  }
}
