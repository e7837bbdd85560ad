/** Sequence helpers shared by the diff engine and the orchestrator. */
module Seqs {

  /** The elements of `s` that satisfy `p`, in their original order (`Array.prototype.filter`). */
  function Filter<T>(s: seq<T>, p: T -> bool): (r: seq<T>)
    ensures |r| <= |s|
    ensures forall i :: 0 <= i < |r| ==> r[i] in s && p(r[i])
    ensures forall i :: 0 <= i < |s| && p(s[i]) ==> s[i] in r
    decreases |s|
  {
    if |s| == 0 then []
    else (if p(s[0]) then [s[0]] else []) + Filter(s[1..], p)
  }

  /** Filtering commutes with concatenation: the order of `s` is kept. */
  lemma {:induction false} FilterConcat<T>(a: seq<T>, b: seq<T>, p: T -> bool)
    ensures Filter(a + b, p) == Filter(a, p) + Filter(b, p)
    decreases |a|
  {
    if |a| == 0 {
      assert a + b == b;
    } else {
      assert (a + b)[1..] == a[1..] + b;
      FilterConcat(a[1..], b, p);
    }
  }

  /** `idx` lists, in strictly increasing order, exactly the positions of `s` whose element
      satisfies `p`: each qualifying position once, and no other. */
  predicate Positions<T>(s: seq<T>, p: T -> bool, idx: seq<int>) {
    && (forall i :: 0 <= i < |idx| ==> 0 <= idx[i] < |s| && p(s[idx[i]]))
    && (forall i, j :: 0 <= i < j < |idx| ==> idx[i] < idx[j])
    && (forall k :: 0 <= k < |s| && p(s[k]) ==> k in idx)
  }

  /** Every position moved up by one. */
  function Shift(idx: seq<int>): (r: seq<int>)
    ensures |r| == |idx| && forall i :: 0 <= i < |idx| ==> r[i] == idx[i] + 1
  {
    seq(|idx|, i requires 0 <= i < |idx| => idx[i] + 1)
  }

  /** The positions in `s[1..]`, moved up by one, with 0 in front when `s[0]` qualifies. */
  function ShiftPositions(idx: seq<int>, first: bool): seq<int> {
    if first then [0] + Shift(idx) else Shift(idx)
  }

  /** Positions in the tail give positions in the whole sequence. */
  lemma PositionsCons<T>(s: seq<T>, p: T -> bool, idx: seq<int>)
    requires |s| > 0 && Positions(s[1..], p, idx)
    ensures Positions(s, p, ShiftPositions(idx, p(s[0])))
  {
    ShiftedPositions(s, p, idx);
    if p(s[0]) {
      WithFirst(s, p, Shift(idx));
    } else {
      WithoutFirst(s, p, Shift(idx));
    }
  }

  /** Qualifying positions after the first, increasing and covering. */
  predicate LaterPositions<T>(s: seq<T>, p: T -> bool, t: seq<int>) {
    && (forall i :: 0 <= i < |t| ==> 0 < t[i] < |s| && p(s[t[i]]))
    && (forall i, j :: 0 <= i < j < |t| ==> t[i] < t[j])
    && (forall k :: 0 < k < |s| && p(s[k]) ==> k in t)
  }

  lemma WithFirst<T>(s: seq<T>, p: T -> bool, t: seq<int>)
    requires |s| > 0 && p(s[0]) && LaterPositions(s, p, t)
    ensures Positions(s, p, [0] + t)
  {
    var r := [0] + t;
    forall i | 0 <= i < |r| ensures 0 <= r[i] < |s| && p(s[r[i]]) {
      if i > 0 { assert r[i] == t[i - 1]; }
    }
    forall i, j | 0 <= i < j < |r| ensures r[i] < r[j] {
      assert r[j] == t[j - 1];
      if i > 0 { assert r[i] == t[i - 1]; }
    }
    forall k | 0 <= k < |s| && p(s[k]) ensures k in r {
      if k > 0 {
        var i :| 0 <= i < |t| && t[i] == k;
        assert r[i + 1] == k;
      }
    }
  }

  lemma WithoutFirst<T>(s: seq<T>, p: T -> bool, t: seq<int>)
    requires |s| > 0 && !p(s[0]) && LaterPositions(s, p, t)
    ensures Positions(s, p, t)
  {
    forall k | 0 <= k < |s| && p(s[k]) ensures k in t {
      assert k != 0;
    }
  }

  /** The tail's positions, moved up by one, are the qualifying positions after the first. */
  lemma ShiftedPositions<T>(s: seq<T>, p: T -> bool, idx: seq<int>)
    requires |s| > 0 && Positions(s[1..], p, idx)
    ensures LaterPositions(s, p, Shift(idx))
  {
    var t := Shift(idx);
    forall i | 0 <= i < |t| ensures 0 < t[i] < |s| && p(s[t[i]]) {
      assert s[1..][idx[i]] == s[t[i]];
    }
    forall k | 0 < k < |s| && p(s[k]) ensures k in t {
      assert s[1..][k - 1] == s[k];
      var i :| 0 <= i < |idx| && idx[i] == k - 1;
      assert t[i] == k;
    }
  }

  /** `Filter` keeps, in order, the elements at the positions of `s` that satisfy `p`, one
      for each such position. */
  lemma {:induction false} FilterPositions<T>(s: seq<T>, p: T -> bool)
    ensures exists idx :: && Positions(s, p, idx)
                          && |idx| == |Filter(s, p)|
                          && forall i :: 0 <= i < |idx| ==> Filter(s, p)[i] == s[idx[i]]
    decreases |s|
  {
    if |s| == 0 {
      assert Positions(s, p, []);
    } else {
      FilterPositions(s[1..], p);
      var idx :| && Positions(s[1..], p, idx)
                 && |idx| == |Filter(s[1..], p)|
                 && forall i :: 0 <= i < |idx| ==> Filter(s[1..], p)[i] == s[1..][idx[i]];
      PositionsCons(s, p, idx);
      FilterShifted(s, p, idx);
      var r := ShiftPositions(idx, p(s[0]));
      assert Positions(s, p, r) && |r| == |Filter(s, p)|;
    }
  }

  /** The element `Filter` keeps at each place is the one at the shifted position. */
  lemma FilterShifted<T>(s: seq<T>, p: T -> bool, idx: seq<int>)
    requires |s| > 0 && |idx| == |Filter(s[1..], p)|
    requires forall i :: 0 <= i < |idx| ==> 0 <= idx[i] < |s| - 1 && Filter(s[1..], p)[i] == s[1..][idx[i]]
    ensures var r := ShiftPositions(idx, p(s[0]));
      && |r| == |Filter(s, p)|
      && forall i :: 0 <= i < |r| ==> 0 <= r[i] < |s| && Filter(s, p)[i] == s[r[i]]
  {
    var g := Filter(s[1..], p);
    assert Filter(s, p) == if p(s[0]) then [s[0]] + g else g;
    ShiftPicks(s, g, idx);
    if p(s[0]) {
      ConsPicks(s, g, Shift(idx));
    }
  }

  /** `s[1..]` picked at `idx` is `s` picked at the shifted positions. */
  lemma ShiftPicks<T>(s: seq<T>, g: seq<T>, idx: seq<int>)
    requires |s| > 0 && |idx| == |g|
    requires forall i :: 0 <= i < |idx| ==> 0 <= idx[i] < |s| - 1 && g[i] == s[1..][idx[i]]
    ensures var t := Shift(idx); forall i :: 0 <= i < |t| ==> 0 <= t[i] < |s| && g[i] == s[t[i]]
  {
    var t := Shift(idx);
    forall i | 0 <= i < |t| ensures 0 <= t[i] < |s| && g[i] == s[t[i]] {
      assert s[1..][idx[i]] == s[t[i]];
    }
  }

  /** Picking position 0 first puts `s[0]` first. */
  lemma ConsPicks<T>(s: seq<T>, g: seq<T>, t: seq<int>)
    requires |s| > 0 && |t| == |g|
    requires forall i :: 0 <= i < |t| ==> 0 <= t[i] < |s| && g[i] == s[t[i]]
    ensures var r := [0] + t; forall i :: 0 <= i < |r| ==> 0 <= r[i] < |s| && ([s[0]] + g)[i] == s[r[i]]
  {
    var r := [0] + t;
    forall i | 0 < i < |r| ensures 0 <= r[i] < |s| && ([s[0]] + g)[i] == s[r[i]] {
      assert r[i] == t[i - 1] && ([s[0]] + g)[i] == g[i - 1];
    }
  }

  /** Every element of a concatenation satisfies `p` exactly when every element of both
      parts does. */
  lemma AllConcat<T>(a: seq<T>, b: seq<T>, p: T -> bool)
    ensures (forall i :: 0 <= i < |a + b| ==> p((a + b)[i]))
      <==> (forall i :: 0 <= i < |a| ==> p(a[i])) && (forall i :: 0 <= i < |b| ==> p(b[i]))
  {
    assert forall i :: 0 <= i < |a| ==> (a + b)[i] == a[i];
    assert forall i :: 0 <= i < |b| ==> (a + b)[|a| + i] == b[i];
  }

  /** A sequence is what comes before an element, the element, and what comes after it. */
  lemma SplitAt<T>(s: seq<T>, i: nat)
    requires i < |s|
    ensures s == s[..i] + ([s[i]] + s[i + 1..])
  {
  }

  /** Filtering with a predicate every element satisfies keeps the whole sequence. */
  lemma {:induction false} FilterAll<T>(s: seq<T>, p: T -> bool)
    requires forall i :: 0 <= i < |s| ==> p(s[i])
    ensures Filter(s, p) == s
    decreases |s|
  {
    if |s| > 0 {
      FilterAll(s[1..], p);
      assert [s[0]] + s[1..] == s;
    }
  }

  /** Filtering keeps nothing exactly when no element satisfies the predicate. */
  lemma FilterEmpty<T>(s: seq<T>, p: T -> bool)
    ensures Filter(s, p) == [] <==> forall i :: 0 <= i < |s| ==> !p(s[i])
  {
    var r := Filter(s, p);
    if r != [] {
      assert r[0] in s && p(r[0]);
    }
  }

  /** `Array.prototype.map`. */
  function MapSeq<T, U>(s: seq<T>, f: T -> U): (r: seq<U>)
    ensures |r| == |s|
    ensures forall i {:trigger r[i]} :: 0 <= i < |s| ==> r[i] == f(s[i])
  {
    seq(|s|, i requires 0 <= i < |s| => f(s[i]))
  }

  /** The image of an element is in the mapped sequence. */
  lemma MapCovers<T, U>(s: seq<T>, f: T -> U, x: T)
    requires x in s
    ensures f(x) in MapSeq(s, f)
  {
    var k :| 0 <= k < |s| && s[k] == x;
    assert MapSeq(s, f)[k] == f(x);
  }

  lemma MapSeqConcat<T, U>(a: seq<T>, b: seq<T>, f: T -> U)
    ensures MapSeq(a + b, f) == MapSeq(a, f) + MapSeq(b, f)
  {
  }

  /** The number of elements that satisfy `p`. */
  function Count<T>(s: seq<T>, p: T -> bool): nat {
    |Filter(s, p)|
  }

  predicate Distinct<T(==)>(s: seq<T>) {
    forall i, j :: 0 <= i < j < |s| ==> s[i] != s[j]
  }

  /** `Set.prototype.add` on an insertion-ordered set: append unless already present. */
  function SetAdd<T(==)>(s: seq<T>, x: T): (r: seq<T>)
    ensures Distinct(s) ==> Distinct(r)
    ensures x in r
    ensures forall i :: 0 <= i < |s| ==> s[i] in r
    ensures forall i :: 0 <= i < |r| ==> r[i] in s || r[i] == x
    ensures |r| == if x in s then |s| else |s| + 1
  {
    if x in s then s else s + [x]
  }
}
