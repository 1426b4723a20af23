/**
 * The circular doubly-linked list of `list.h`. Every `struct list` (a list head
 * or the link embedded in an item) is a node of an arena, addressed by index;
 * the `prev` and `next` arrays hold its two links. The ghost map `Lists` gives
 * each list head the sequence of items its list denotes, front to back. A node
 * that is not linked into any list points to itself, exactly like an empty
 * list head, so it is a key of `Lists` with the empty sequence.
 */
module IntrusiveList {

  import opened Util

  /** s with x inserted at position p. */
  function Inserted(s: seq<nat>, p: nat, x: nat): (r: seq<nat>)
    requires p <= |s|
    ensures |r| == |s| + 1
    ensures forall i :: 0 <= i < |r| ==> r[i] == if i < p then s[i] else if i == p then x else s[i - 1]
  {
    s[..p] + [x] + s[p..]
  }

  /** s without its element at position k. */
  function Removed(s: seq<nat>, k: nat): (r: seq<nat>)
    requires k < |s|
    ensures |r| == |s| - 1
    ensures forall i :: 0 <= i < |r| ==> r[i] == if i < k then s[i] else s[i + 1]
  {
    s[..k] + s[k + 1..]
  }

  /**
   * The links of head h and its items s form the ring h, s[0], ..., s[|s|-1], h
   * in both directions.
   */
  ghost predicate Ring(nx: seq<nat>, pv: seq<nat>, h: nat, s: seq<nat>)
  {
    && h < |nx| && |pv| == |nx|
    && (forall i :: 0 <= i < |s| ==> s[i] < |nx|)
    && nx[h] == (if s == [] then h else s[0])
    && pv[h] == (if s == [] then h else s[|s| - 1])
    && (forall i {:trigger nx[s[i]]} :: 0 <= i < |s| ==> nx[s[i]] == (if i + 1 < |s| then s[i + 1] else h))
    && (forall i {:trigger pv[s[i]]} :: 0 <= i < |s| ==> pv[s[i]] == (if i == 0 then h else s[i - 1]))
  }

  ghost predicate HeadsAreNotItems(L: map<nat, seq<nat>>)
  {
    forall h, i :: h in L && 0 <= i < |L[h]| ==> L[h][i] !in L
  }

  ghost predicate ItemsAreUnique(L: map<nat, seq<nat>>)
  {
    forall h1, h2, i, j ::
      h1 in L && h2 in L && 0 <= i < |L[h1]| && 0 <= j < |L[h2]| && L[h1][i] == L[h2][j]
      ==> h1 == h2 && i == j
  }

  /** The arena invariant, over the contents of the two link arrays. */
  ghost predicate WellFormed(nx: seq<nat>, pv: seq<nat>, L: map<nat, seq<nat>>)
  {
    && |nx| == |pv|
    && HeadsAreNotItems(L)
    && ItemsAreUnique(L)
    && (forall h :: h in L ==> Ring(nx, pv, h, L[h]))
  }

  /** The node at ring position p of head h: the head itself for p == 0. */
  function RingAt(h: nat, s: seq<nat>, p: nat): nat
    requires p <= |s|
  {
    if p == 0 then h else s[p - 1]
  }

  /** The two links of the item at position i of the ring of h. */
  lemma {:induction false} RingStep(nx: seq<nat>, pv: seq<nat>, h: nat, s: seq<nat>, i: nat)
    requires Ring(nx, pv, h, s) && i < |s|
    ensures s[i] < |nx| && nx[s[i]] == (if i + 1 < |s| then s[i + 1] else h)
    ensures pv[s[i]] == RingAt(h, s, i)
  {
  }

  lemma {:induction false} RingFrame(nx: seq<nat>, pv: seq<nat>, nx': seq<nat>, pv': seq<nat>, h: nat, s: seq<nat>)
    requires Ring(nx, pv, h, s) && |nx'| == |nx| && |pv'| == |pv|
    requires nx'[h] == nx[h] && pv'[h] == pv[h]
    requires forall i :: 0 <= i < |s| ==> nx'[s[i]] == nx[s[i]] && pv'[s[i]] == pv[s[i]]
    ensures Ring(nx', pv', h, s)
  {
  }

  /** Facts about the ring of h that every splice below relies on. */
  lemma {:induction false} RingNodes(nx: seq<nat>, pv: seq<nat>, L: map<nat, seq<nat>>, h: nat)
    requires WellFormed(nx, pv, L) && h in L
    ensures Ring(nx, pv, h, L[h])
    ensures forall i :: 0 <= i < |L[h]| ==> L[h][i] !in L && L[h][i] < |nx|
    ensures forall i, j :: 0 <= i < |L[h]| && 0 <= j < |L[h]| && L[h][i] == L[h][j] ==> i == j
  {
  }

  /** Inserting at the front or at the back is prepending or appending. */
  lemma {:induction false} InsertedEnds(s: seq<nat>, x: nat)
    ensures Inserted(s, 0, x) == [x] + s && Inserted(s, |s|, x) == s + [x]
  {
    assert s[..0] == [] && s[0..] == s;
    assert s[..|s|] == s && s[|s|..] == [];
  }

  /** The abstract effect of splicing the detached node x in at position p of h. */
  ghost function AfterInsert(L: map<nat, seq<nat>>, h: nat, p: nat, x: nat): map<nat, seq<nat>>
    requires h in L && p <= |L[h]|
  {
    (L - {x})[h := Inserted(L[h], p, x)]
  }

  /** The two links of position i of the ring after the splice of InsertRing. */
  lemma {:induction false} InsertLinksAt(nx: seq<nat>, pv: seq<nat>, nx': seq<nat>, pv': seq<nat>, h: nat, s: seq<nat>, p: nat, x: nat, i: nat)
    requires Ring(nx, pv, h, s) && p <= |s| && x < |nx| && x != h && x !in s && h !in s
    requires forall i, j :: 0 <= i < |s| && 0 <= j < |s| && s[i] == s[j] ==> i == j
    requires nx' == nx[x := if p < |s| then s[p] else h][RingAt(h, s, p) := x]
    requires pv' == pv[x := RingAt(h, s, p)][if p < |s| then s[p] else h := x]
    requires i <= |s|
    ensures var s' := Inserted(s, p, x);
      nx'[s'[i]] == (if i + 1 < |s'| then s'[i + 1] else h) && pv'[s'[i]] == (if i == 0 then h else s'[i - 1])
  {
    if i < p {
      InsertLinksBefore(nx, pv, nx', pv', h, s, p, x, i);
    } else if i > p {
      InsertLinksAfter(nx, pv, nx', pv', h, s, p, x, i);
    }
  }

  /** An item in front of the inserted one keeps its links, except the one just before it, which now points to it. */
  lemma {:induction false} InsertLinksBefore(nx: seq<nat>, pv: seq<nat>, nx': seq<nat>, pv': seq<nat>, h: nat, s: seq<nat>, p: nat, x: nat, i: nat)
    requires Ring(nx, pv, h, s) && p <= |s| && x < |nx| && x != h && x !in s && h !in s
    requires forall i, j :: 0 <= i < |s| && 0 <= j < |s| && s[i] == s[j] ==> i == j
    requires nx' == nx[x := if p < |s| then s[p] else h][RingAt(h, s, p) := x]
    requires pv' == pv[x := RingAt(h, s, p)][if p < |s| then s[p] else h := x]
    requires i < p
    ensures var s' := Inserted(s, p, x);
      nx'[s'[i]] == (if i + 1 < |s'| then s'[i + 1] else h) && pv'[s'[i]] == (if i == 0 then h else s'[i - 1])
  {
    var pred := RingAt(h, s, p);
    var succ := if p < |s| then s[p] else h;
    assert Inserted(s, p, x)[i] == s[i] && s[i] != x;
    if i + 1 < p { assert s[i] != pred; } else { assert s[i] == pred; }
    if s[i] == succ { assert false; }
  }

  /** An item behind the inserted one keeps its links, except the one just after it, which now points back to it. */
  lemma {:induction false} InsertLinksAfter(nx: seq<nat>, pv: seq<nat>, nx': seq<nat>, pv': seq<nat>, h: nat, s: seq<nat>, p: nat, x: nat, i: nat)
    requires Ring(nx, pv, h, s) && p <= |s| && x < |nx| && x != h && x !in s && h !in s
    requires forall i, j :: 0 <= i < |s| && 0 <= j < |s| && s[i] == s[j] ==> i == j
    requires nx' == nx[x := if p < |s| then s[p] else h][RingAt(h, s, p) := x]
    requires pv' == pv[x := RingAt(h, s, p)][if p < |s| then s[p] else h := x]
    requires p < i <= |s|
    ensures var s' := Inserted(s, p, x);
      nx'[s'[i]] == (if i + 1 < |s'| then s'[i + 1] else h) && pv'[s'[i]] == (if i == 0 then h else s'[i - 1])
  {
    var pred := RingAt(h, s, p);
    var succ := if p < |s| then s[p] else h;
    assert Inserted(s, p, x)[i] == s[i - 1] && s[i - 1] != x;
    if i - 1 != p - 1 && p > 0 { assert s[i - 1] != pred; }
    if i - 1 == p { assert s[i - 1] == succ; } else { assert s[i - 1] != succ; }
  }

  lemma {:induction false} InsertRing(nx: seq<nat>, pv: seq<nat>, nx': seq<nat>, pv': seq<nat>, h: nat, s: seq<nat>, p: nat, x: nat)
    requires Ring(nx, pv, h, s) && p <= |s| && x < |nx| && x != h && x !in s && h !in s
    requires forall i, j :: 0 <= i < |s| && 0 <= j < |s| && s[i] == s[j] ==> i == j
    requires nx' == nx[x := if p < |s| then s[p] else h][RingAt(h, s, p) := x]
    requires pv' == pv[x := RingAt(h, s, p)][if p < |s| then s[p] else h := x]
    ensures Ring(nx', pv', h, Inserted(s, p, x))
  {
    var pred := RingAt(h, s, p);
    var succ := if p < |s| then s[p] else h;
    var s' := Inserted(s, p, x);
    assert nx'[h] == (if s' == [] then h else s'[0]) by {
      if p > 0 { assert pred != h && s'[0] == s[0]; }
    }
    assert pv'[h] == (if s' == [] then h else s'[|s'| - 1]) by {
      if p < |s| { assert succ != h && s'[|s'| - 1] == s[|s| - 1]; }
    }
    forall i | 0 <= i < |s'|
      ensures nx'[s'[i]] == (if i + 1 < |s'| then s'[i + 1] else h)
      ensures pv'[s'[i]] == (if i == 0 then h else s'[i - 1])
    {
      InsertLinksAt(nx, pv, nx', pv', h, s, p, x, i);
    }
    assert forall i :: 0 <= i < |s'| ==> s'[i] < |nx'|;
    assert |pv'| == |nx'|;
    assert Ring(nx', pv', h, s');
  }

  lemma {:induction false} InsertUnique(L: map<nat, seq<nat>>, h: nat, p: nat, x: nat)
    requires HeadsAreNotItems(L) && ItemsAreUnique(L)
    requires h in L && p <= |L[h]| && x in L && L[x] == [] && x != h
    ensures HeadsAreNotItems(AfterInsert(L, h, p, x)) && ItemsAreUnique(AfterInsert(L, h, p, x))
  {
    var s := L[h];
    var L' := AfterInsert(L, h, p, x);
    forall g, i | g in L' && 0 <= i < |L'[g]|
      ensures L'[g][i] !in L'
    {
      if g == h && i != p {
        assert L'[g][i] == if i < p then s[i] else s[i - 1];
      }
    }
    forall g1, g2, i, j | g1 in L' && g2 in L' && 0 <= i < |L'[g1]| && 0 <= j < |L'[g2]| && L'[g1][i] == L'[g2][j]
      ensures g1 == g2 && i == j
    {
      var i0 := if g1 == h && i > p then i - 1 else i;
      var j0 := if g2 == h && j > p then j - 1 else j;
      assert g1 != h || i != p ==> L'[g1][i] == L[g1][i0];
      assert g2 != h || j != p ==> L'[g2][j] == L[g2][j0];
    }
  }

  /**
   * The ring of g survives when the links change only at nodes outside it:
   * the nodes `a`, `b`, `c` stand for the (at most three) nodes a splice writes.
   */
  lemma {:induction false} OtherRingKept(nx: seq<nat>, pv: seq<nat>, nx': seq<nat>, pv': seq<nat>, L: map<nat, seq<nat>>, g: nat, a: nat, b: nat, c: nat)
    requires WellFormed(nx, pv, L) && g in L && |nx'| == |nx| && |pv'| == |pv|
    requires forall n :: 0 <= n < |nx| && n != a && n != b && n != c ==> nx'[n] == nx[n] && pv'[n] == pv[n]
    requires g != a && g != b && g != c
    requires a !in L[g] && b !in L[g] && c !in L[g]
    ensures Ring(nx', pv', g, L[g])
  {
    RingNodes(nx, pv, L, g);
    RingFrame(nx, pv, nx', pv', g, L[g]);
  }

  /** A head or item of one list is not a node of the ring of another head. */
  lemma {:induction false} NotInOtherRing(L: map<nat, seq<nat>>, h: nat, g: nat, n: nat)
    requires HeadsAreNotItems(L) && ItemsAreUnique(L) && h in L && g in L && h != g
    requires n == h || n in L[h]
    ensures n != g && n !in L[g]
  {
    if n in L[h] {
      var i :| 0 <= i < |L[h]| && L[h][i] == n;
      assert L[h][i] !in L;
      forall j | 0 <= j < |L[g]|
        ensures L[g][j] != L[h][i]
      {
      }
    } else {
      forall j | 0 <= j < |L[g]|
        ensures L[g][j] != n
      {
        assert L[g][j] !in L;
      }
    }
  }

  /** Splicing a detached node x into the ring of h at position p keeps the arena well formed. */
  lemma {:induction false} InsertKeepsWellFormed(nx: seq<nat>, pv: seq<nat>, nx': seq<nat>, pv': seq<nat>, L: map<nat, seq<nat>>, h: nat, p: nat, x: nat)
    requires WellFormed(nx, pv, L)
    requires h in L && p <= |L[h]| && x in L && L[x] == [] && x != h
    requires nx' == nx[x := if p < |L[h]| then L[h][p] else h][RingAt(h, L[h], p) := x]
    requires pv' == pv[x := RingAt(h, L[h], p)][if p < |L[h]| then L[h][p] else h := x]
    ensures WellFormed(nx', pv', AfterInsert(L, h, p, x))
  {
    var s := L[h];
    RingNodes(nx, pv, L, h);
    assert Ring(nx, pv, x, L[x]);
    var pred := RingAt(h, s, p);
    var succ := if p < |s| then s[p] else h;
    assert pred == h || pred in s;
    assert succ == h || succ in s;
    assert x !in s && h !in s;
    InsertRing(nx, pv, nx', pv', h, s, p, x);
    InsertUnique(L, h, p, x);
    var L' := AfterInsert(L, h, p, x);
    forall g | g in L'
      ensures Ring(nx', pv', g, L'[g])
    {
      if g != h {
        assert L'[g] == L[g] && g != x;
        InsertKeepsOtherRing(nx, pv, nx', pv', L, h, p, x, g);
      }
    }
  }

  /** The splice of InsertKeepsWellFormed leaves the ring of every other head g as it was. */
  lemma {:induction false} InsertKeepsOtherRing(nx: seq<nat>, pv: seq<nat>, nx': seq<nat>, pv': seq<nat>, L: map<nat, seq<nat>>,
                                                h: nat, p: nat, x: nat, g: nat)
    requires WellFormed(nx, pv, L)
    requires h in L && p <= |L[h]| && x in L && L[x] == [] && x != h
    requires nx' == nx[x := if p < |L[h]| then L[h][p] else h][RingAt(h, L[h], p) := x]
    requires pv' == pv[x := RingAt(h, L[h], p)][if p < |L[h]| then L[h][p] else h := x]
    requires g in L && g != h && g != x
    ensures Ring(nx', pv', g, L[g])
  {
    var s := L[h];
    var pred := RingAt(h, s, p);
    var succ := if p < |s| then s[p] else h;
    assert pred == h || pred in s;
    assert succ == h || succ in s;
    NotInOtherRing(L, h, g, pred);
    NotInOtherRing(L, h, g, succ);
    NotInOtherRing(L, x, g, x);
    OtherRingKept(nx, pv, nx', pv', L, g, x, pred, succ);
  }

  /** The abstract effect of unlinking the item at position k of h: it becomes detached. */
  ghost function AfterRemove(L: map<nat, seq<nat>>, h: nat, k: nat): map<nat, seq<nat>>
    requires h in L && k < |L[h]|
  {
    L[h := Removed(L[h], k)][L[h][k] := []]
  }

  /** The two links of position i of the ring after the unlinking of RemoveRing. */
  lemma {:induction false} RemoveLinksAt(nx: seq<nat>, pv: seq<nat>, nx': seq<nat>, pv': seq<nat>, h: nat, s: seq<nat>, k: nat, i: nat)
    requires Ring(nx, pv, h, s) && k < |s| && h !in s
    requires forall i, j :: 0 <= i < |s| && 0 <= j < |s| && s[i] == s[j] ==> i == j
    requires nx' == nx[RingAt(h, s, k) := if k + 1 < |s| then s[k + 1] else h][s[k] := s[k]]
    requires pv' == pv[if k + 1 < |s| then s[k + 1] else h := RingAt(h, s, k)][s[k] := s[k]]
    requires i + 1 < |s|
    ensures var s' := Removed(s, k);
      nx'[s'[i]] == (if i + 1 < |s'| then s'[i + 1] else h) && pv'[s'[i]] == (if i == 0 then h else s'[i - 1])
  {
    var pred := RingAt(h, s, k);
    var succ := if k + 1 < |s| then s[k + 1] else h;
    var s' := Removed(s, k);
    if i < k {
      assert s'[i] == s[i] && s[i] != s[k];
      assert nx[s[i]] == s[i + 1];
      if i + 1 < k { assert s[i] != pred; } else { assert s[i] == pred; }
      if i + 1 < |s'| { assert s'[i + 1] == (if i + 1 < k then s[i + 1] else s[i + 2]); }
      assert s[i] != succ;
      if i > 0 { assert s'[i - 1] == s[i - 1]; }
    } else {
      assert s'[i] == s[i + 1] && s[i + 1] != s[k];
      assert k == 0 || s[i + 1] != pred;
      assert nx[s[i + 1]] == (if i + 2 < |s| then s[i + 2] else h);
      if i + 1 < |s'| { assert s'[i + 1] == s[i + 2]; }
      if i == k { assert s[i + 1] == succ; } else { assert s[i + 1] != succ; }
      if i > 0 { assert s'[i - 1] == (if i - 1 < k then s[i - 1] else s[i]); }
    }
  }

  lemma {:induction false} RemoveRing(nx: seq<nat>, pv: seq<nat>, nx': seq<nat>, pv': seq<nat>, h: nat, s: seq<nat>, k: nat)
    requires Ring(nx, pv, h, s) && k < |s| && h !in s
    requires forall i, j :: 0 <= i < |s| && 0 <= j < |s| && s[i] == s[j] ==> i == j
    requires nx' == nx[RingAt(h, s, k) := if k + 1 < |s| then s[k + 1] else h][s[k] := s[k]]
    requires pv' == pv[if k + 1 < |s| then s[k + 1] else h := RingAt(h, s, k)][s[k] := s[k]]
    ensures Ring(nx', pv', h, Removed(s, k))
    ensures Ring(nx', pv', s[k], [])
  {
    var pred := RingAt(h, s, k);
    var succ := if k + 1 < |s| then s[k + 1] else h;
    var s' := Removed(s, k);
    assert nx'[h] == (if s' == [] then h else s'[0]) by {
      if k > 0 { assert pred != h && s'[0] == s[0]; }
    }
    assert pv'[h] == (if s' == [] then h else s'[|s'| - 1]) by {
      if k + 1 < |s| { assert succ != h && s'[|s'| - 1] == s[|s| - 1]; }
    }
    forall i | 0 <= i < |s'|
      ensures nx'[s'[i]] == (if i + 1 < |s'| then s'[i + 1] else h)
      ensures pv'[s'[i]] == (if i == 0 then h else s'[i - 1])
    {
      RemoveLinksAt(nx, pv, nx', pv', h, s, k, i);
    }
    assert Ring(nx', pv', h, s');
  }

  lemma {:induction false} RemoveUnique(L: map<nat, seq<nat>>, h: nat, k: nat)
    requires HeadsAreNotItems(L) && ItemsAreUnique(L)
    requires h in L && k < |L[h]|
    ensures HeadsAreNotItems(AfterRemove(L, h, k)) && ItemsAreUnique(AfterRemove(L, h, k))
  {
    var s := L[h];
    var n := s[k];
    var L' := AfterRemove(L, h, k);
    forall g, i | g in L' && 0 <= i < |L'[g]|
      ensures L'[g][i] !in L'
    {
      var i0 := if g == h && i >= k then i + 1 else i;
      assert L'[g][i] == L[g][i0];
      assert L[g][i0] != n by {
        if g == h { assert i0 != k; } else { assert s[k] == n; }
      }
    }
    forall g1, g2, i, j | g1 in L' && g2 in L' && 0 <= i < |L'[g1]| && 0 <= j < |L'[g2]| && L'[g1][i] == L'[g2][j]
      ensures g1 == g2 && i == j
    {
      var i0 := if g1 == h && i >= k then i + 1 else i;
      var j0 := if g2 == h && j >= k then j + 1 else j;
      assert L'[g1][i] == L[g1][i0];
      assert L'[g2][j] == L[g2][j0];
    }
  }

  /** Unlinking the item at position k of h keeps the arena well formed. */
  lemma {:induction false} RemoveKeepsWellFormed(nx: seq<nat>, pv: seq<nat>, nx': seq<nat>, pv': seq<nat>, L: map<nat, seq<nat>>, h: nat, k: nat)
    requires WellFormed(nx, pv, L) && h in L && k < |L[h]|
    requires nx' == nx[RingAt(h, L[h], k) := if k + 1 < |L[h]| then L[h][k + 1] else h][L[h][k] := L[h][k]]
    requires pv' == pv[if k + 1 < |L[h]| then L[h][k + 1] else h := RingAt(h, L[h], k)][L[h][k] := L[h][k]]
    ensures WellFormed(nx', pv', AfterRemove(L, h, k))
  {
    var s := L[h];
    var n := s[k];
    RingNodes(nx, pv, L, h);
    var pred := RingAt(h, s, k);
    var succ := if k + 1 < |s| then s[k + 1] else h;
    assert pred == h || pred in s;
    assert succ == h || succ in s;
    assert h !in s;
    RemoveRing(nx, pv, nx', pv', h, s, k);
    RemoveUnique(L, h, k);
    var L' := AfterRemove(L, h, k);
    forall g | g in L'
      ensures Ring(nx', pv', g, L'[g])
    {
      if g != h && g != n {
        assert g in L && L'[g] == L[g];
        NotInOtherRing(L, h, g, pred);
        NotInOtherRing(L, h, g, succ);
        NotInOtherRing(L, h, g, n);
        OtherRingKept(nx, pv, nx', pv', L, g, n, pred, succ);
      }
    }
  }

  /** count nodes, none linked to another. */
  ghost function Unlinked(count: nat): (m: map<nat, seq<nat>>)
    ensures forall n: nat :: n in m <==> n < count
    ensures forall n :: n in m ==> m[n] == []
  {
    if count == 0 then map[] else Unlinked(count - 1)[count - 1 := []]
  }

  /** Links that all point back at their own node make every node an empty list. */
  lemma {:induction false} SelfLinkedWellFormed(nx: seq<nat>, pv: seq<nat>)
    requires |nx| == |pv|
    requires forall n :: 0 <= n < |nx| ==> nx[n] == n && pv[n] == n
    ensures WellFormed(nx, pv, Unlinked(|nx|))
  {
    var L := Unlinked(|nx|);
    forall h | h in L ensures Ring(nx, pv, h, L[h]) {
      assert L[h] == [] && h < |nx|;
    }
  }

  /** The arena after every item of h has been detached, front to back, the first j of them so far. */
  ghost function DetachedPrefix(L: map<nat, seq<nat>>, h: nat, j: nat): map<nat, seq<nat>>
    requires h in L && j <= |L[h]|
  {
    L[h := L[h][j..]] + map n | n in L[h][..j] :: []
  }

  lemma {:induction false} DetachedHead(L: map<nat, seq<nat>>, h: nat, j: nat)
    requires h in L && j <= |L[h]| && HeadsAreNotItems(L)
    ensures h in DetachedPrefix(L, h, j) && DetachedPrefix(L, h, j)[h] == L[h][j..]
  {
    assert h !in L[h][..j] by {
      forall i | 0 <= i < |L[h]| ensures L[h][i] != h { assert L[h][i] !in L; }
      assert h !in L[h];
    }
  }

  lemma {:induction false} DetachOneMore(L: map<nat, seq<nat>>, h: nat, j: nat)
    requires h in L && j < |L[h]| && HeadsAreNotItems(L)
    ensures AfterRemove(DetachedPrefix(L, h, j), h, 0) == DetachedPrefix(L, h, j + 1)
  {
    var D := DetachedPrefix(L, h, j);
    var D' := DetachedPrefix(L, h, j + 1);
    assert L[h][0] !in L;
    assert h !in L[h][..j + 1] by {
      forall i | 0 <= i < |L[h]| ensures L[h][i] != h { assert L[h][i] !in L; }
      assert h !in L[h];
    }
    assert D[h] == L[h][j..];
    assert L[h][..j + 1] == L[h][..j] + [L[h][j]];
    var A := AfterRemove(D, h, 0);
    assert A.Keys == D'.Keys;
    forall n | n in A ensures A[n] == D'[n] {
      if n == h {
        assert A[n] == Removed(L[h][j..], 0) == L[h][j + 1..];
      }
    }
  }

  /** A prefix one longer is the prefix and the next element. */
  lemma {:induction false} PrefixStep(s: seq<nat>, j: nat)
    requires j < |s|
    ensures s[..j + 1] == s[..j] + [s[j]]
  {
  }

  lemma {:induction false} DetachedNone(L: map<nat, seq<nat>>, h: nat)
    requires h in L
    ensures DetachedPrefix(L, h, 0) == L
  {
    assert L[h][0..] == L[h] && L[h][..0] == [];
  }

  lemma {:induction false} DetachAll(L: map<nat, seq<nat>>, h: nat, j: nat)
    requires h in L && j == |L[h]|
    ensures DetachedPrefix(L, h, j) == L[h := []] + map n | n in L[h] :: []
  {
    assert L[h][j..] == [] && L[h][..j] == L[h];
  }

  /**
   * An arena of `count` link nodes. Each node is a `struct list`; which of them
   * serve as list heads and which are embedded in items is up to the client.
   */
  class Arena {
    const prev: array<nat>
    const next: array<nat>
    ghost var Lists: map<nat, seq<nat>>

    ghost predicate Valid()
      reads this, prev, next
    {
      && prev != next && prev.Length == next.Length
      && WellFormed(next[..], prev[..], Lists)
    }

    /** n is linked into the list of some head. */
    ghost predicate IsItem(n: nat)
      reads this
    {
      exists h, i :: h in Lists && 0 <= i < |Lists[h]| && Lists[h][i] == n
    }

    /** Every node starts self-linked (LIST_INIT, list_init): an empty list, or an unlinked item. */
    constructor (count: nat)
      ensures Valid() && prev.Length == count
      ensures Lists == Unlinked(count)
      ensures fresh(prev) && fresh(next)
    {
      var back := new nat[count](i => i);
      var forth := new nat[count](i => i);
      SelfLinkedWellFormed(forth[..], back[..]);
      prev := back;
      next := forth;
      Lists := Unlinked(count);
    }

    /** list_is_empty: an empty head, or an item that is not linked into any list. */
    function IsEmpty(n: nat): (r: bool)
      requires Valid() && (n in Lists || IsItem(n))
      reads this, prev, next
      ensures r <==> n in Lists && Lists[n] == []
    {
      SelfLinkedMeansEmpty(n);
      prev[n] == n && next[n] == n
    }

    lemma {:induction false} SelfLinkedMeansEmpty(n: nat)
      requires Valid() && (n in Lists || IsItem(n))
      ensures n < next.Length
      ensures prev[n] == n && next[n] == n <==> n in Lists && Lists[n] == []
    {
      if n in Lists {
        assert Ring(next[..], prev[..], n, Lists[n]);
      } else {
        var h, i :| h in Lists && 0 <= i < |Lists[h]| && Lists[h][i] == n;
        RingNodes(next[..], prev[..], Lists, h);
        RingStep(next[..], prev[..], h, Lists[h], i);
        if i > 0 { assert Lists[h][i - 1] != Lists[h][i]; }
      }
    }

    /** The link after a head: its first item, or the head itself when the list is empty. */
    lemma {:induction false} FirstLink(head: nat)
      requires Valid() && head in Lists
      ensures head < next.Length && next[head] == (if Lists[head] == [] then head else Lists[head][0])
    {
      assert Ring(next[..], prev[..], head, Lists[head]);
    }

    /** The link after item j of a list: item j + 1, or the head after the last item. */
    lemma {:induction false} NextLink(head: nat, j: nat)
      requires Valid() && head in Lists && j < |Lists[head]|
      ensures Lists[head][j] < next.Length
      ensures next[Lists[head][j]] == (if j + 1 < |Lists[head]| then Lists[head][j + 1] else head)
      ensures j + 1 < |Lists[head]| ==> Lists[head][j + 1] != head
    {
      RingNodes(next[..], prev[..], Lists, head);
      RingStep(next[..], prev[..], head, Lists[head], j);
    }

    /** The ring of a head, over the current contents of the link arrays. */
    lemma {:induction false} RingOf(head: nat)
      requires Valid() && head in Lists
      ensures Ring(next[..], prev[..], head, Lists[head])
      ensures forall i :: 0 <= i < |Lists[head]| ==> Lists[head][i] != head
    {
      RingNodes(next[..], prev[..], Lists, head);
    }

    /** __list_insert_between: links the unlinked item between ring positions p - 1 and p of h. */
    method InsertBetween(item: nat, pred: nat, succ: nat, ghost h: nat, ghost p: nat)
      requires Valid() && h in Lists && p <= |Lists[h]|
      requires item in Lists && Lists[item] == [] && item != h
      requires pred == RingAt(h, Lists[h], p) && succ == (if p < |Lists[h]| then Lists[h][p] else h)
      modifies this, prev, next
      ensures Valid() && Lists == AfterInsert(old(Lists), h, p, item)
    {
      RingNodes(next[..], prev[..], Lists, h);
      assert Ring(next[..], prev[..], item, Lists[item]);
      assert pred == h || pred in Lists[h];
      ghost var nx: seq<nat>, pv: seq<nat> := next[..], prev[..];
      next[item] := succ;
      prev[item] := pred;
      prev[succ] := item;
      next[pred] := item;
      assert next[..] == nx[item := succ][pred := item];
      assert prev[..] == pv[item := pred][succ := item];
      InsertKeepsWellFormed(nx, pv, next[..], prev[..], Lists, h, p, item);
      Lists := AfterInsert(Lists, h, p, item);
    }

    /** list_add_first: the item becomes the first of the list. */
    method AddFirst(head: nat, item: nat)
      requires Valid() && head in Lists && item in Lists && Lists[item] == [] && item != head
      modifies this, prev, next
      ensures Valid() && Lists == AfterInsert(old(Lists), head, 0, item)
      ensures Lists[head] == [item] + old(Lists[head])
    {
      assert Ring(next[..], prev[..], head, Lists[head]);
      InsertedEnds(Lists[head], item);
      InsertBetween(item, head, next[head], head, 0);
    }

    /** list_add_last: the item becomes the last of the list. */
    method AddLast(head: nat, item: nat)
      requires Valid() && head in Lists && item in Lists && Lists[item] == [] && item != head
      modifies this, prev, next
      ensures Valid() && Lists == AfterInsert(old(Lists), head, |old(Lists[head])|, item)
      ensures Lists[head] == old(Lists[head]) + [item]
    {
      assert Ring(next[..], prev[..], head, Lists[head]);
      InsertedEnds(Lists[head], item);
      InsertBetween(item, prev[head], head, head, |Lists[head]|);
    }

    /** list_insert_after: the item goes right after pred, the node at ring position p of h. */
    method InsertAfter(item: nat, pred: nat, ghost h: nat, ghost p: nat)
      requires Valid() && h in Lists && p <= |Lists[h]| && pred == RingAt(h, Lists[h], p)
      requires item in Lists && Lists[item] == [] && item != h
      modifies this, prev, next
      ensures Valid() && Lists == AfterInsert(old(Lists), h, p, item)
      ensures Lists[h] == old(Lists[h])[..p] + [item] + old(Lists[h])[p..]
    {
      assert Ring(next[..], prev[..], h, Lists[h]);
      InsertBetween(item, pred, next[pred], h, p);
    }

    /** list_insert_before: the item goes right before succ, the item at position p of h (or h itself). */
    method InsertBefore(item: nat, succ: nat, ghost h: nat, ghost p: nat)
      requires Valid() && h in Lists && p <= |Lists[h]| && succ == (if p < |Lists[h]| then Lists[h][p] else h)
      requires item in Lists && Lists[item] == [] && item != h
      modifies this, prev, next
      ensures Valid() && Lists == AfterInsert(old(Lists), h, p, item)
      ensures Lists[h] == old(Lists[h])[..p] + [item] + old(Lists[h])[p..]
    {
      assert Ring(next[..], prev[..], h, Lists[h]);
      if p < |Lists[h]| { RingStep(next[..], prev[..], h, Lists[h], p); }
      InsertBetween(item, prev[succ], succ, h, p);
    }

    /**
     * list_remove: unlinks the item at position k of h and leaves it self-linked;
     * an item that is not linked anywhere is left as it is.
     */
    method Remove(item: nat, ghost h: nat, ghost k: nat)
      requires Valid()
      requires (item in Lists && Lists[item] == []) || (h in Lists && k < |Lists[h]| && Lists[h][k] == item)
      modifies this, prev, next
      ensures Valid() && item in Lists && Lists[item] == []
      ensures Lists == if item in old(Lists) then old(Lists) else AfterRemove(old(Lists), h, k)
    {
      ghost var L := Lists;
      ghost var nx: seq<nat>, pv: seq<nat> := next[..], prev[..];
      if item in Lists {
        assert Ring(nx, pv, item, []);
      } else {
        RingNodes(nx, pv, Lists, h);
        RingStep(nx, pv, h, L[h], k);
        assert RingAt(h, L[h], k) == h || RingAt(h, L[h], k) in L[h];
      }
      var pred := prev[item];
      var succ := next[item];
      prev[succ] := pred;
      next[pred] := succ;
      prev[item] := item;
      next[item] := item;
      if item in L {
        assert next[..] == nx && prev[..] == pv;
      } else {
        assert next[..] == nx[pred := succ][item := item];
        assert prev[..] == pv[succ := pred][item := item];
        RemoveKeepsWellFormed(nx, pv, next[..], prev[..], L, h, k);
        Lists := AfterRemove(L, h, k);
      }
    }

    /** list_remove_after on a head: removes and returns the first item; an empty head returns itself. */
    method RemoveAfter(head: nat) returns (r: nat)
      requires Valid() && head in Lists
      modifies this, prev, next
      ensures Valid()
      ensures old(Lists[head]) == [] ==> r == head && Lists == old(Lists)
      ensures old(Lists[head]) != [] ==> r == old(Lists[head][0]) && Lists == AfterRemove(old(Lists), head, 0)
      ensures Lists[head] == if old(Lists[head]) == [] then [] else old(Lists[head][1..])
    {
      assert Ring(next[..], prev[..], head, Lists[head]);
      r := next[head];
      assert Lists[head] != [] ==> r !in Lists;
      Remove(r, head, 0);
    }

    /** list_remove_before on a head: removes and returns the last item; an empty head returns itself. */
    method RemoveBefore(head: nat) returns (r: nat)
      requires Valid() && head in Lists
      modifies this, prev, next
      ensures Valid()
      ensures old(Lists[head]) == [] ==> r == head && Lists == old(Lists)
      ensures old(Lists[head]) != [] ==> r == old(Lists[head][|Lists[head]| - 1]) && Lists == AfterRemove(old(Lists), head, |old(Lists[head])| - 1)
      ensures Lists[head] == if old(Lists[head]) == [] then [] else old(Lists[head][..|Lists[head]| - 1])
    {
      assert Ring(next[..], prev[..], head, Lists[head]);
      r := prev[head];
      assert Lists[head] != [] ==> r !in Lists;
      Remove(r, head, if Lists[head] == [] then 0 else |Lists[head]| - 1);
    }

    /** list_size: counts the items by walking the ring. */
    method Size(head: nat) returns (n: nat)
      requires Valid() && head in Lists
      ensures n == |Lists[head]|
    {
      RingNodes(next[..], prev[..], Lists, head);
      ghost var s := Lists[head];
      n := 0;
      var curr := next[head];
      while curr != head
        invariant n <= |s| && curr == (if n < |s| then s[n] else head)
        decreases |s| - n
      {
        RingStep(next[..], prev[..], head, s, n);
        n := n + 1;
        curr := next[curr];
      }
    }

    /** list_find: the first item the matcher accepts, or None. */
    method Find(head: nat, accepts: nat -> bool) returns (r: Option<nat>)
      requires Valid() && head in Lists
      ensures r == None <==> forall i :: 0 <= i < |Lists[head]| ==> !accepts(Lists[head][i])
      ensures r != None ==> exists i :: 0 <= i < |Lists[head]| && Lists[head][i] == r.value && accepts(r.value) &&
                                          forall j :: 0 <= j < i ==> !accepts(Lists[head][j])
    {
      RingNodes(next[..], prev[..], Lists, head);
      ghost var s := Lists[head];
      ghost var n := 0;
      var curr := next[head];
      while curr != head
        invariant n <= |s| && curr == (if n < |s| then s[n] else head)
        invariant forall j :: 0 <= j < n ==> !accepts(s[j])
        decreases |s| - n
      {
        if accepts(curr) {
          return Some(curr);
        }
        RingStep(next[..], prev[..], head, s, n);
        n := n + 1;
        curr := next[curr];
      }
      return None;
    }

    /**
     * list_destroy: detaches the items front to back; the result is the order in
     * which the destroy callback receives them.
     */
    method Destroy(head: nat) returns (destroyed: seq<nat>)
      requires Valid() && head in Lists
      modifies this, prev, next
      ensures Valid() && destroyed == old(Lists[head])
      ensures Lists == old(Lists)[head := []] + map n | n in destroyed :: []
    {
      ghost var L := Lists;
      destroyed := [];
      DetachedNone(L, head);
      while !IsEmpty(head)
        invariant Valid() && |destroyed| <= |L[head]|
        invariant destroyed == L[head][..|destroyed|]
        invariant Lists == DetachedPrefix(L, head, |destroyed|)
        invariant head in Lists && Lists[head] == L[head][|destroyed|..]
        decreases |L[head]| - |destroyed|
      {
        ghost var j := |destroyed|;
        var item := DetachFront(head, L, j);
        PrefixStep(L[head], j);
        destroyed := destroyed + [item];
      }
      DetachAll(L, head, |destroyed|);
    }

    /** One turn of list_destroy: the front item, item j of the original list L of head, is detached. */
    method DetachFront(head: nat, ghost L: map<nat, seq<nat>>, ghost j: nat) returns (item: nat)
      requires Valid() && head in L && j < |L[head]| && HeadsAreNotItems(L)
      requires Lists == DetachedPrefix(L, head, j)
      modifies this, prev, next
      ensures Valid() && item == L[head][j]
      ensures Lists == DetachedPrefix(L, head, j + 1)
      ensures head in Lists && Lists[head] == L[head][j + 1..]
    {
      DetachOneMore(L, head, j);
      DetachedHead(L, head, j);
      ghost var D := Lists;
      item := RemoveAfter(head);
      assert D[head] != [];
      DetachedHead(L, head, j + 1);
    }
  }
}
