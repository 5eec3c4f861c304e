/** bc_num2long: a number as a 64-bit long, with its wrap-around. */
module LongValue {
  import opened Digits
  import opened Numbers

  const LONG_MAX: int := 0x7fff_ffff_ffff_ffff

  /** Two's complement wrap-around of a 64-bit long. */
  function Wrap64(x: int): int {
    (x + LONG_MAX + 1) % (2 * (LONG_MAX + 1)) - (LONG_MAX + 1)
  }

  lemma WrapSmall(x: int)
    requires -LONG_MAX - 1 <= x <= LONG_MAX
    ensures Wrap64(x) == x
  {
  }

  /** What the digit loop makes of the remaining digits. */
  function Scan(rest: seq<Digit>, val: int): int {
    if rest == [] then Max(val, 0)
    else if val > LONG_MAX / BASE then 0
    else Scan(rest[1..], Wrap64(val * BASE + rest[0]))
  }

  /** bc_num2long. */
  method Num2Long(n: Num) returns (r: int)
    ensures r == if n.neg then -Scan(n.whole, 0) else Scan(n.whole, 0)
  {
    var val, i := 0, 0;
    assert n.whole[0..] == n.whole;
    while i < n.Len() && val <= LONG_MAX / BASE
      invariant i <= n.Len()
      invariant Scan(n.whole[i..], val) == Scan(n.whole, 0)
    {
      assert n.whole[i..][1..] == n.whole[i + 1..];
      val := Wrap64(val * BASE + n.whole[i]);
      i := i + 1;
    }
    if i < n.Len() { val := 0; }
    if val < 0 { val := 0; }
    r := if !n.neg then val else -val;
  }

  /** As long as no prefix overflows, the scan holds the value of the prefix. */
  lemma {:induction false} ScanPrefix(w: seq<Digit>, i: nat)
    requires i <= |w| && Val(w[..i]) <= LONG_MAX
    ensures Scan(w, 0) == Scan(w[i..], Val(w[..i]))
  {
    if i == 0 {
      assert w[0..] == w;
    } else {
      ValTo(w, i - 1);
      ScanPrefix(w, i - 1);
      assert w[i - 1..][1..] == w[i..];
      WrapSmall(Val(w[..i]));
    }
  }

  /** A number that a long can hold is converted exactly. */
  lemma ScanExact(w: seq<Digit>)
    requires Val(w) <= LONG_MAX
    ensures Scan(w, 0) == Val(w)
  {
    assert w[..|w|] == w && w[|w|..] == [];
    ScanPrefix(w, |w|);
  }

  /** The first prefix that exceeds a long. */
  lemma {:induction false} Overflows(w: seq<Digit>, i: nat) returns (j: nat)
    requires i <= |w| && Val(w[..i]) <= LONG_MAX < Val(w)
    ensures j < |w| && Val(w[..j]) <= LONG_MAX < Val(w[..j + 1])
    decreases |w| - i
  {
    assert w[..|w|] == w;
    if Val(w[..i + 1]) > LONG_MAX {
      j := i;
    } else {
      j := Overflows(w, i + 1);
    }
  }

  lemma PowerOf18()
    ensures Pow10(18) == 1000000000000000000
  {
    assert Pow10(3) == 1000;
    Pow10Add(3, 3);
    Pow10Add(6, 3);
    Pow10Add(9, 9);
  }

  lemma Nineteen(w: seq<Digit>, j: nat)
    requires j < |w| && Val(w[..j]) <= LONG_MAX / 10 && LONG_MAX < Val(w[..j + 1]) && w[0] != 0
    ensures j == 18
  {
    ValTo(w, j);
    PowerOf18();
    ValBound(w[..j + 1]);
    if j < 18 {
      Pow10Monotone(j + 1, 18);
    } else if j > 18 {
      ValLead(w[..j]);
      Pow10Monotone(18, j - 1);
    }
  }

  /** Too large a number becomes zero, except when its first nineteen digits
      exceed LONG_MAX by one or two and more digits follow: then the sum wraps
      and the scan starts afresh behind them. */
  lemma ScanTooLarge(w: seq<Digit>)
    requires |w| >= 1 && w[0] != 0 && Val(w) > LONG_MAX
    ensures if |w| >= 20 && LONG_MAX < Val(w[..19]) <= LONG_MAX + 2
            then Scan(w, 0) == Scan([Val(w[..19]) - LONG_MAX - 1] + w[19..], 0)
            else Scan(w, 0) == 0
  {
    var j := Overflows(w, 0);
    ScanPrefix(w, j);
    if Val(w[..j]) > LONG_MAX / BASE {
      if |w| >= 20 && LONG_MAX < Val(w[..19]) <= LONG_MAX + 2 {
        EarlierPrefix(w, j);
      }
    } else {
      Nineteen(w, j);
      ScanWraps(w);
    }
  }

  lemma ScanWraps(w: seq<Digit>)
    requires |w| >= 19 && Val(w[..18]) <= LONG_MAX / BASE && LONG_MAX < Val(w[..19])
    ensures LONG_MAX < Val(w[..19]) <= LONG_MAX + 2
    ensures Scan(w[18..], Val(w[..18])) ==
      if |w| >= 20 then Scan([Val(w[..19]) - LONG_MAX - 1] + w[19..], 0) else 0
  {
    ValTo(w, 18);
    var c := Val(w[..19]) - LONG_MAX - 1;
    assert w[18..][1..] == w[19..];
    WrapOver(Val(w[..19]));
    if |w| >= 20 {
      Restart(w[19..], c);
    } else {
      assert w[19..] == [];
    }
  }

  lemma WrapOver(x: int)
    requires LONG_MAX < x <= LONG_MAX + 2
    ensures Wrap64(x) == x - 2 * (LONG_MAX + 1)
  {
  }

  lemma Restart(rest: seq<Digit>, c: nat)
    requires |rest| >= 1 && c <= 1
    ensures Scan(rest, c - LONG_MAX - 1) == Scan([c] + rest, 0)
  {
    assert ([c] + rest)[1..] == rest;
    assert Wrap64((c - LONG_MAX - 1) * BASE + rest[0]) == c * BASE + rest[0];
    assert Wrap64(c * BASE + rest[0]) == c * BASE + rest[0];
  }

  lemma EarlierPrefix(w: seq<Digit>, j: nat)
    requires 19 <= |w| && j < |w| && Val(w[..j]) <= LONG_MAX && w[0] != 0
    requires LONG_MAX < Val(w[..19]) <= LONG_MAX + 2
    requires LONG_MAX < Val(w[..j + 1])
    ensures Val(w[..j]) <= LONG_MAX / BASE
  {
    if j > 18 {
      PrefixGrowsTo(w, 19, j);
    } else if j < 18 {
      ValBound(w[..j + 1]);
      Pow10Monotone(j + 1, 18);
      PowerOf18();
    } else {
      ValTo(w, 18);
    }
  }

  lemma {:induction false} PrefixGrowsTo(w: seq<Digit>, i: nat, j: nat)
    requires i <= j <= |w|
    ensures Val(w[..i]) <= Val(w[..j])
  {
    if i < j {
      ValTo(w, j - 1);
      PrefixGrowsTo(w, i, j - 1);
    }
  }

  // ---------------------------------------------------------------------
  // Which digit strings give a number other than zero, and which number.
  // ---------------------------------------------------------------------

  /** Zeros and copies of the digits of LONG_MAX + 1, in any order. */
  predicate Dropped(h: seq<Digit>)
    decreases |h|
  {
    || h == []
    || (h[0] == 0 && Dropped(h[1..]))
    || (|h| >= 19 && h[0] != 0 && Val(h[..19]) == LONG_MAX + 1 && Dropped(h[19..]))
  }

  /** The digits t give v: they are v, or they are LONG_MAX + 2 followed by up to
      eighteen digits, and then a one takes the place of LONG_MAX + 2. */
  predicate Gives(t: seq<Digit>, v: int) {
    || (Val(t) == v && v <= LONG_MAX)
    || (20 <= |t| <= 37 && t[0] != 0 && Val(t[..19]) == LONG_MAX + 2 && v == Pow10(|t| - 19) + Val(t[19..]))
  }

  /** w splits into a part that is dropped and a part that gives v. */
  ghost predicate Converts(w: seq<Digit>, v: int) { exists k :: 0 <= k <= |w| && Dropped(w[..k]) && Gives(w[k..], v) }

  lemma SkipZero(w: seq<Digit>)
    requires w != [] && w[0] == 0
    ensures Scan(w, 0) == Scan(w[1..], 0)
  {
    WrapSmall(0);
  }

  /** Behind LONG_MAX + 1 and more digits the scan starts afresh. */
  lemma SkipBlock(w: seq<Digit>)
    requires |w| >= 20 && w[0] != 0 && Val(w[..19]) == LONG_MAX + 1
    ensures Scan(w, 0) == Scan(w[19..], 0)
  {
    PrefixGrowsTo(w, 19, |w|);
    assert w[..|w|] == w;
    ScanTooLarge(w);
    var u: seq<Digit> := [0] + w[19..];
    assert u[1..] == w[19..];
    SkipZero(u);
  }

  /** Behind LONG_MAX + 2 and more digits it starts with a one. */
  lemma LastBlock(w: seq<Digit>)
    requires |w| >= 20 && w[0] != 0 && Val(w[..19]) == LONG_MAX + 2
    ensures Scan(w, 0) == if |w| <= 37 then Pow10(|w| - 19) + Val(w[19..]) else 0
  {
    PrefixGrowsTo(w, 19, |w|);
    assert w[..|w|] == w;
    ScanTooLarge(w);
    One(w[19..]);
  }

  /** A one and further digits. */
  lemma One(r: seq<Digit>)
    ensures Scan([1] + r, 0) == if |r| <= 18 then Pow10(|r|) + Val(r) else 0
  {
    var u: seq<Digit> := [1] + r;
    ValCons(1, r);
    ValBound(r);
    PowerOf18();
    if |r| <= 18 {
      Pow10Monotone(|r|, 18);
      ScanExact(u);
    } else {
      Pow10Monotone(19, |r|);
      assert Pow10(19) == 10 * Pow10(18);
      OneTooLarge(u);
    }
  }

  lemma OneTooLarge(u: seq<Digit>)
    requires |u| >= 20 && u[0] == 1 && Val(u) > LONG_MAX
    ensures Scan(u, 0) == 0
  {
    var p := u[..19];
    assert p == [1] + p[1..];
    ValCons(1, p[1..]);
    ValBound(p[1..]);
    PowerOf18();
    ScanTooLarge(u);
  }

  /** bc_num2long returns v other than zero exactly for the digits that convert to v. */
  lemma ScanIff(w: seq<Digit>, v: int)
    requires v != 0
    ensures Scan(w, 0) == v <==> Converts(w, v)
  {
    if Scan(w, 0) == v {
      ScanConverts(w);
    }
    if Converts(w, v) {
      var k :| 0 <= k <= |w| && Dropped(w[..k]) && Gives(w[k..], v);
      ConvertsScan(w, k, v);
    }
  }

  lemma {:induction false} ScanConverts(w: seq<Digit>)
    requires Scan(w, 0) != 0
    ensures Converts(w, Scan(w, 0))
    decreases |w|
  {
    if Val(w) <= LONG_MAX {
      ScanExact(w);
      assert w[..0] == [] && w[0..] == w;
    } else if w[0] == 0 {
      SkipZero(w);
      ScanConverts(w[1..]);
      DropMore(w, 1, Scan(w, 0));
    } else {
      ScanTooLarge(w);
      if Val(w[..19]) == LONG_MAX + 1 {
        SkipBlock(w);
        ScanConverts(w[19..]);
        DropMore(w, 19, Scan(w, 0));
      } else {
        LastBlock(w);
        assert w[..0] == [] && w[0..] == w;
      }
    }
  }

  /** A longer dropped part. */
  lemma DropMore(w: seq<Digit>, n: nat, v: int)
    requires n <= |w| && Converts(w[n..], v)
    requires (n == 1 && w[0] == 0) || (n == 19 && w[0] != 0 && Val(w[..19]) == LONG_MAX + 1)
    ensures Converts(w, v)
  {
    var u := w[n..];
    var k :| 0 <= k <= |u| && Dropped(u[..k]) && Gives(u[k..], v);
    var h := w[..n + k];
    assert h[n..] == u[..k] && w[n + k..] == u[k..] && h[..n] == w[..n];
  }

  lemma {:induction false} ConvertsScan(w: seq<Digit>, k: nat, v: int)
    requires k <= |w| && Dropped(w[..k]) && Gives(w[k..], v) && v != 0
    ensures Scan(w, 0) == v
    decreases |w|
  {
    var h := w[..k];
    if k == 0 {
      assert w[0..] == w;
      if Val(w) == v && v <= LONG_MAX { ScanExact(w); } else { LastBlock(w); }
    } else {
      var n := if w[0] == 0 then 1 else 19;
      assert h[n..] == w[n..][..k - n] && w[n..][k - n..] == w[k..];
      ConvertsScan(w[n..], k - n, v);
      if n == 1 {
        SkipZero(w);
      } else {
        assert h[..19] == w[..19];
        NotAllDropped(w[k..], v);
        SkipBlock(w);
      }
    }
  }

  lemma NotAllDropped(t: seq<Digit>, v: int)
    requires Gives(t, v) && v != 0
    ensures t != []
  {
  }

  lemma OneDigitAfter(p: seq<Digit>, d: Digit)
    requires |p| == 19 && p[0] != 0 && Val(p) == LONG_MAX + 1
    ensures Scan(p + [d], 0) == d
  {
    var w := p + [d];
    assert w[..19] == p && w[19..] == [d] && w[..20] == w;
    PrefixGrowsTo(w, 19, 20);
    ScanTooLarge(w);
    WrapSmall(0);
    WrapSmall(d);
    assert [d][1..] == [] && Scan([d], 0) == d;
    var two: seq<Digit> := [0] + [d];
    assert two[1..] == [d] && Scan(two, 0) == d;
  }

  /** The documented "zero when too large" fails: 92233720368547758085 yields 5. */
  lemma TooLargeIsNotAlwaysZero()
    ensures Scan([9, 2, 2, 3, 3, 7, 2, 0, 3, 6, 8, 5, 4, 7, 7, 5, 8, 0, 8] + [5], 0) == 5
  {
    var p: seq<Digit> := [9, 2, 2, 3, 3, 7, 2, 0, 3, 6, 8, 5, 4, 7, 7, 5, 8, 0, 8];
    LongMaxDigits(p);
    OneDigitAfter(p, 5);
  }

  lemma ThreeMore(s: seq<Digit>, a: Digit, b: Digit, c: Digit)
    ensures Val(s + [a, b, c]) == 1000 * Val(s) + 100 * (a as int) + 10 * (b as int) + c
  {
    var t := s + [a, b, c];
    assert t[..|s|] == s && t[..|s| + 3] == t;
    ValTo(t, |s|);
    ValTo(t, |s| + 1);
    ValTo(t, |s| + 2);
  }

  lemma LongMaxFront(p: seq<Digit>)
    requires p == [9, 2, 2, 3, 3, 7, 2, 0, 3, 6]
    ensures Val(p) == 9_223_372_036
  {
    ValOne(9);
    var p1 := [9] + [2, 2, 3];
    ThreeMore([9], 2, 2, 3);
    var p2 := p1 + [3, 7, 2];
    ThreeMore(p1, 3, 7, 2);
    ThreeMore(p2, 0, 3, 6);
    assert p == p2 + [0, 3, 6];
  }

  lemma LongMaxDigits(p: seq<Digit>)
    requires p == [9, 2, 2, 3, 3, 7, 2, 0, 3, 6, 8, 5, 4, 7, 7, 5, 8, 0, 8]
    ensures Val(p) == LONG_MAX + 1
  {
    var p3: seq<Digit> := [9, 2, 2, 3, 3, 7, 2, 0, 3, 6];
    LongMaxFront(p3);
    var p4 := p3 + [8, 5, 4];
    ThreeMore(p3, 8, 5, 4);
    var p5 := p4 + [7, 7, 5];
    ThreeMore(p4, 7, 7, 5);
    ThreeMore(p5, 8, 0, 8);
    assert p == p5 + [8, 0, 8];
  }
}
