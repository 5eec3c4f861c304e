/** GNU getopt in its permuting mode, for short options (lib/getopt.c). */
module Getopt {
  import opened Wrappers

  // ---------------------------------------------------------------------
  // exchange: an in-place block rotation.
  // ---------------------------------------------------------------------

  /** The segments [b, m) and [m, t) have changed places. */
  function Rotated<T>(s: seq<T>, b: nat, m: nat, t: nat): seq<T>
    requires b <= m <= t <= |s|
  {
    s[..b] + s[m..t] + s[b..m] + s[t..]
  }

  /** The equally long segments at i and j have changed places. */
  function Swapped<T>(s: seq<T>, i: nat, j: nat, len: nat): seq<T>
    requires i + len <= j && j + len <= |s|
  {
    s[..i] + s[j..j + len] + s[i + len..j] + s[i..i + len] + s[j + len..]
  }

  lemma RotatedPieces<T>(p: seq<T>, x: seq<T>, y: seq<T>, q: seq<T>)
    ensures Rotated(p + x + y + q, |p|, |p| + |x|, |p| + |x| + |y|) == p + y + x + q
  {
    var s := p + x + y + q;
    assert s[..|p|] == p;
    assert s[|p|..|p| + |x|] == x;
    assert s[|p| + |x|..|p| + |x| + |y|] == y;
    assert s[|p| + |x| + |y|..] == q;
  }

  lemma SwappedPieces<T>(p: seq<T>, x: seq<T>, c: seq<T>, y: seq<T>, q: seq<T>)
    requires |x| == |y|
    ensures Swapped(p + x + c + y + q, |p|, |p| + |x| + |c|, |x|) == p + y + c + x + q
  {
    var s, j := p + x + c + y + q, |p| + |x| + |c|;
    assert s[..|p|] == p;
    assert s[|p|..|p| + |x|] == x;
    assert s[|p| + |x|..j] == c;
    assert s[j..j + |x|] == y;
    assert s[j + |x|..] == q;
  }

  lemma Pieces<T>(s: seq<T>, b: nat, c: nat, d: nat, t: nat)
    requires b <= c <= d <= t <= |s|
    ensures s == s[..b] + s[b..c] + s[c..d] + s[d..t] + s[t..]
  {
    assert s[..b] + s[b..c] == s[..c];
    assert s[..c] + s[c..d] == s[..d];
    assert s[..d] + s[d..t] == s[..t];
  }

  lemma BottomLeft<T>(s: seq<T>, p: seq<T>, x: seq<T>, y: seq<T>, z: seq<T>, q: seq<T>)
    requires |x| == |z| && s == p + z + y + x + q
    ensures Rotated(s, |p|, |p| + |x|, |p| + |x| + |y|) == p + y + z + (x + q)
  {
    assert s == p + z + y + (x + q);
    RotatedPieces(p, z, y, x + q);
  }

  lemma BottomRight<T>(s: seq<T>, p: seq<T>, x: seq<T>, y: seq<T>, z: seq<T>, q: seq<T>)
    requires s == p + x + y + z + q
    ensures Rotated(s, |p|, |p| + |x|, |p| + |x| + |y| + |z|) == p + (y + z) + x + q
  {
    assert s == p + x + (y + z) + q;
    RotatedPieces(p, x, y + z, q);
  }

  lemma Regroup<T>(p: seq<T>, y: seq<T>, z: seq<T>, x: seq<T>, q: seq<T>)
    ensures p + y + z + (x + q) == p + (y + z) + x + q
  {
  }

  lemma BottomPieces<T>(p: seq<T>, x: seq<T>, y: seq<T>, z: seq<T>, q: seq<T>)
    requires |x| == |z|
    ensures var s := p + x + y + z + q; var m := |p| + |x|;
      Rotated(Swapped(s, |p|, m + |y|, |x|), |p|, m, m + |y|) == Rotated(s, |p|, m, m + |y| + |z|)
  {
    var s := p + x + y + z + q;
    SwappedPieces(p, x, y, z, q);
    BottomLeft(Swapped(s, |p|, |p| + |x| + |y|, |x|), p, x, y, z, q);
    BottomRight(s, p, x, y, z, q);
    Regroup(p, y, z, x, q);
  }

  /** Rotating after the bottom segment has moved to the far end. */
  lemma BottomMoved<T>(s: seq<T>, b: nat, m: nat, t: nat)
    requires b <= m <= t <= |s| && t - m > m - b
    ensures Rotated(Swapped(s, b, t - (m - b), m - b), b, m, t - (m - b)) == Rotated(s, b, m, t)
  {
    var d := t - (m - b);
    Pieces(s, b, m, d, t);
    BottomPieces(s[..b], s[b..m], s[m..d], s[d..t], s[t..]);
  }

  lemma TopLeft<T>(s: seq<T>, p: seq<T>, x: seq<T>, y: seq<T>, z: seq<T>, q: seq<T>)
    requires |x| == |z| && s == p + z + y + x + q
    ensures Rotated(s, |p| + |x|, |p| + |x| + |y|, |p| + |x| + |y| + |x|) == p + z + x + y + q
  {
    var pz := p + z;
    assert |pz| == |p| + |x| && s == pz + y + x + q;
    RotatedPieces(pz, y, x, q);
  }

  lemma TopRight<T>(s: seq<T>, p: seq<T>, x: seq<T>, y: seq<T>, z: seq<T>, q: seq<T>)
    requires s == p + x + y + z + q
    ensures Rotated(s, |p|, |p| + |x| + |y|, |p| + |x| + |y| + |z|) == p + z + (x + y) + q
  {
    var xy := x + y;
    assert s == p + xy + z + q;
    RotatedPieces(p, xy, z, q);
  }

  lemma TopPieces<T>(p: seq<T>, x: seq<T>, y: seq<T>, z: seq<T>, q: seq<T>)
    requires |x| == |z|
    ensures var s := p + x + y + z + q; var m := |p| + |x| + |y|;
      Rotated(Swapped(s, |p|, m, |x|), |p| + |x|, m, m + |z|) == Rotated(s, |p|, m, m + |z|)
  {
    var s := p + x + y + z + q;
    SwappedPieces(p, x, y, z, q);
    TopLeft(Swapped(s, |p|, |p| + |x| + |y|, |x|), p, x, y, z, q);
    TopRight(s, p, x, y, z, q);
    assert p + z + x + y + q == p + z + (x + y) + q;
  }

  /** Rotating after the top segment has moved to its place. */
  lemma TopMoved<T>(s: seq<T>, b: nat, m: nat, t: nat)
    requires b <= m <= t <= |s| && t - m <= m - b
    ensures Rotated(Swapped(s, b, m, t - m), b + (t - m), m, t) == Rotated(s, b, m, t)
  {
    var c := b + (t - m);
    Pieces(s, b, c, m, t);
    TopPieces(s[..b], s[b..c], s[c..m], s[m..t], s[t..]);
  }

  lemma BottomMovedTo<T>(s: seq<T>, u: seq<T>, b: nat, m: nat, t: nat)
    requires b <= m <= t <= |s| && t - m > m - b && u == Swapped(s, b, t - (m - b), m - b)
    ensures |u| == |s| && Rotated(u, b, m, t - (m - b)) == Rotated(s, b, m, t)
  {
    BottomMoved(s, b, m, t);
  }

  lemma TopMovedTo<T>(s: seq<T>, u: seq<T>, b: nat, m: nat, t: nat)
    requires b <= m <= t <= |s| && t - m <= m - b && u == Swapped(s, b, m, t - m)
    ensures |u| == |s| && Rotated(u, b + (t - m), m, t) == Rotated(s, b, m, t)
  {
    TopMoved(s, b, m, t);
  }

  lemma NothingToRotate<T>(s: seq<T>, b: nat, m: nat, t: nat)
    requires b <= m <= t <= |s| && (b == m || m == t)
    ensures Rotated(s, b, m, t) == s
  {
  }

  lemma SwappedAt<T>(s: seq<T>, i: nat, j: nat, len: nat, x: nat)
    requires i + len <= j && j + len <= |s| && x < |s|
    ensures |Swapped(s, i, j, len)| == |s|
    ensures Swapped(s, i, j, len)[x] == s[if i <= x < i + len then x - i + j else if j <= x < j + len then x - j + i else x]
  {
  }

  lemma SwapOneMore<T>(s: seq<T>, i: nat, j: nat, k: nat)
    requires i + k < j && j + k < |s|
    ensures |Swapped(s, i, j, k)| == |s|
    ensures Swapped(s, i, j, k)[i + k] == s[i + k] && Swapped(s, i, j, k)[j + k] == s[j + k]
    ensures Swapped(s, i, j, k + 1) == Swapped(s, i, j, k)[i + k := s[j + k]][j + k := s[i + k]]
  {
    var u, w := Swapped(s, i, j, k), Swapped(s, i, j, k + 1);
    SwappedAt(s, i, j, k, i + k);
    SwappedAt(s, i, j, k, j + k);
    SwappedAt(s, i, j, k + 1, i + k);
    var v := u[i + k := s[j + k]][j + k := s[i + k]];
    forall x | 0 <= x < |s| ensures v[x] == w[x] {
      SwappedAt(s, i, j, k, x);
      SwappedAt(s, i, j, k + 1, x);
    }
  }

  /** The swapping loop. */
  method SwapSegments<T>(a: array<T>, i: nat, j: nat, len: nat)
    requires i + len <= j && j + len <= a.Length
    modifies a
    ensures a[..] == Swapped(old(a[..]), i, j, len)
  {
    ghost var s := a[..];
    assert a[..] == Swapped(s, i, j, 0);
    var k: nat := 0;
    while k < len
      invariant k <= len && a[..] == Swapped(s, i, j, k)
    {
      SwapOneMore(s, i, j, k);
      var tem := a[i + k];
      assert a[..][j + k] == a[j + k] && a[..][i + k] == a[i + k];
      a[i + k] := a[j + k];
      a[j + k] := tem;
      k := k + 1;
    }
  }

  /** Rotating [b, m) and [m, t) is what is left to do to reach the goal. */
  ghost predicate Remains<T>(s: seq<T>, b: nat, m: nat, t: nat, goal: seq<T>) {
    b <= m <= t <= |s| && forall k: nat {:trigger Exactly(k, b)} :: Exactly(k, b) ==> Rotated(s, k, m, t) == goal
  }

  lemma BottomRemains<T>(s: seq<T>, u: seq<T>, b: nat, m: nat, t: nat, goal: seq<T>)
    requires Remains(s, b, m, t, goal) && t - m > m - b && u == Swapped(s, b, t - (m - b), m - b)
    ensures Remains(u, b, m, t - (m - b), goal)
  {
    assert Exactly(b, b);
    BottomMovedTo(s, u, b, m, t);
  }

  lemma TopRemains<T>(s: seq<T>, u: seq<T>, b: nat, m: nat, t: nat, goal: seq<T>)
    requires Remains(s, b, m, t, goal) && t - m <= m - b && u == Swapped(s, b, m, t - m)
    ensures Remains(u, b + (t - m), m, t, goal)
  {
    assert Exactly(b, b);
    TopMovedTo(s, u, b, m, t);
  }

  lemma NothingRemains<T>(s: seq<T>, b: nat, m: nat, t: nat, goal: seq<T>)
    requires Remains(s, b, m, t, goal) && (b == m || m == t)
    ensures s == goal
  {
    assert Exactly(b, b);
    NothingToRotate(s, b, m, t);
  }

  /** Swap the shorter bottom segment with the far end of the top one. */
  method MoveBottom<T>(a: array<T>, bottom: nat, middle: nat, top: nat, ghost goal: seq<T>) returns (t: nat)
    requires bottom < middle < top <= a.Length && top - middle > middle - bottom && Remains(a[..], bottom, middle, top, goal)
    modifies a
    ensures t == top - (middle - bottom) && Remains(a[..], bottom, middle, t, goal)
  {
    ghost var s := a[..];
    SwapSegments(a, bottom, top - (middle - bottom), middle - bottom);
    BottomRemains(s, a[..], bottom, middle, top, goal);
    t := top - (middle - bottom);
  }

  /** Swap the shorter top segment with the near end of the bottom one. */
  method MoveTop<T>(a: array<T>, bottom: nat, middle: nat, top: nat, ghost goal: seq<T>) returns (b: nat)
    requires bottom < middle < top <= a.Length && top - middle <= middle - bottom && Remains(a[..], bottom, middle, top, goal)
    modifies a
    ensures b == bottom + (top - middle) && Remains(a[..], b, middle, top, goal)
  {
    ghost var s := a[..];
    SwapSegments(a, bottom, middle, top - middle);
    TopRemains(s, a[..], bottom, middle, top, goal);
    b := bottom + (top - middle);
  }

  /** The two segments change places, each in its old order. */
  method Exchange<T>(a: array<T>, first: nat, middle: nat, last: nat)
    requires first <= middle <= last <= a.Length
    modifies a
    ensures a[..] == Rotated(old(a[..]), first, middle, last)
  {
    var bottom: nat, top: nat := first, last;
    ghost var goal := Rotated(a[..], first, middle, last);
    while top > middle && middle > bottom
      invariant bottom <= middle <= top <= a.Length && Remains(a[..], bottom, middle, top, goal)
      decreases top - bottom
    {
      if top - middle > middle - bottom {
        top := MoveBottom(a, bottom, middle, top, goal);
      } else {
        bottom := MoveTop(a, bottom, middle, top, goal);
      }
    }
    NothingRemains(a[..], bottom, middle, top, goal);
  }
}
