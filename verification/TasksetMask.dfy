/** Printing and reading CPU masks as hexadecimal strings (taskset.c). */
module TasksetMask {

  /** CPU_SETSIZE. */
  const SETSIZE: nat := 1024

  type CpuSet = set<nat>

  predicate GoodSet(m: CpuSet) { forall b :: b in m ==> b < SETSIZE }

  /** val_to_char. */
  function ValToChar(v: nat): char
    requires v < 16
  {
    if v < 10 then ('0' as int + v) as char else ('a' as int - 10 + v) as char
  }

  /** char_to_val. */
  function CharToVal(c: char): int {
    if '0' <= c <= '9' then c as int - '0' as int
    else if 'a' <= c <= 'f' then c as int + 10 - 'a' as int
    else if 'A' <= c <= 'F' then c as int + 10 - 'A' as int
    else -1
  }

  /** Bit k of v. */
  predicate Bit(v: nat, k: nat) {
    match k
    case 0 => v % 2 == 1
    case 1 => v / 2 % 2 == 1
    case 2 => v / 4 % 2 == 1
    case _ => v / 8 % 2 == 1
  }

  /** The four bits of the mask from base on, as a digit. */
  function Nibble(m: CpuSet, base: nat): (v: nat)
    ensures v < 16
    ensures forall k :: 0 <= k < 4 ==> (Bit(v, k) <==> base + k in m)
  {
    (if base in m then 1 else 0) + (if base + 1 in m then 2 else 0) + (if base + 2 in m then 4 else 0) + (if base + 3 in m then 8 else 0)
  }

  // ---------------------------------------------------------------------
  // The printer.
  // ---------------------------------------------------------------------

  /** s is the mask's digits from the top down to digit k. */
  ghost predicate Digits(m: CpuSet, s: seq<char>, k: nat) {
    k + |s| == SETSIZE / 4 && forall i :: 0 <= i < |s| ==> s[i] == ValToChar(Nibble(m, 4 * (SETSIZE / 4 - 1 - i)))
  }

  /** How many zeros in front can go: all but a last one. */
  function Surplus(s: seq<char>): (k: nat)
    ensures k <= |s| && (s != [] ==> k < |s| && (s[k] != '0' || k == |s| - 1))
    ensures forall i :: 0 <= i < k ==> s[i] == '0'
    decreases |s|
  {
    if |s| > 1 && s[0] == '0' then
      var k := Surplus(s[1..]);
      assert forall i :: 0 <= i < |s| - 1 ==> s[1..][i] == s[i + 1];
      1 + k
    else 0
  }

  /** The string without its leading zeros, except for a last one. */
  function Strip(s: seq<char>): (r: seq<char>) { s[Surplus(s)..] }

  lemma {:induction false} StripSkips(s: seq<char>, k: nat)
    requires k < |s| && (forall i :: 0 <= i < k ==> s[i] == '0') && (s[k] != '0' || k + 1 == |s|)
    ensures Strip(s) == s[k..]
    decreases k
  {
    if k > 0 {
      forall i | 0 <= i < k - 1 ensures s[1..][i] == '0' {
        assert s[i + 1] == '0';
      }
      StripSkips(s[1..], k - 1);
      assert s[1..][k - 1..] == s[k..];
    }
  }

  /** cpuset_to_str: one digit for every four CPUs, the topmost first; the
      result starts at the first digit that is not zero. */
  method CpusetToStr(m: CpuSet) returns (r: seq<char>)
    ensures exists s :: Digits(m, s, 0) && r == Strip(s)
  {
    var str: seq<char> := [];
    var first := -1;
    var k := SETSIZE / 4;
    while k > 0
      invariant 0 <= k <= SETSIZE / 4 && Digits(m, str, k)
      invariant -1 <= first < |str|
      invariant first == -1 ==> forall i :: 0 <= i < |str| ==> str[i] == '0'
      invariant first >= 0 ==> str[first] != '0' && forall i :: 0 <= i < first ==> str[i] == '0'
    {
      k := k - 1;
      var val := Nibble(m, 4 * k);
      if first == -1 && val != 0 {
        first := |str|;
      }
      str := str + [ValToChar(val)];
    }
    StripSkips(str, if first == -1 then |str| - 1 else first);
    r := str[if first == -1 then |str| - 1 else first..];
  }

  // ---------------------------------------------------------------------
  // The reader.
  // ---------------------------------------------------------------------

  datatype Result = Ok(mask: CpuSet) | Bad

  /** Skip 0x. */
  function Body(s: seq<char>): (r: seq<char>) { if |s| > 1 && s[0] == '0' && s[1] == 'x' then s[2..] else s }

  predicate AllHex(s: seq<char>) { forall i :: 0 <= i < |s| ==> CharToVal(s[i]) >= 0 }

  /** Bit b of the number that the hexadecimal digits s denote. */
  predicate HexBit(s: seq<char>, b: nat) {
    b / 4 < |s| && CharToVal(s[|s| - 1 - b / 4]) >= 0 && Bit(CharToVal(s[|s| - 1 - b / 4]), b % 4)
  }

  /** What the digits s mean: CPUs beyond the size of a set are dropped. */
  function HexSet(s: seq<char>): CpuSet { set b | 0 <= b < SETSIZE && HexBit(s, b) }

  /** str_to_cpuset. */
  method StrToCpuset(str: seq<char>) returns (r: Result)
    ensures r == if AllHex(Body(str)) then Ok(HexSet(Body(str))) else Bad
  {
    var s := Body(str);
    var ptr, base := |s|, 0;
    var mask: CpuSet := {};
    while ptr > 0
      invariant 0 <= ptr <= |s| && base == 4 * (|s| - ptr)
      invariant AllHex(s[ptr..]) && forall b :: b in mask <==> 0 <= b < SETSIZE && b < base && HexBit(s, b)
    {
      ptr := ptr - 1;
      var val := CharToVal(s[ptr]);
      if val == -1 {
        return Bad;
      }
      forall b | base <= b < base + 4 ensures HexBit(s, b) <==> Bit(val, b - base) {
        assert b / 4 == |s| - 1 - ptr && b % 4 == b - base;
      }
      mask := SetBits(mask, val, base);
      base := base + 4;
      assert s[ptr..] == [s[ptr]] + s[ptr + 1..];
    }
    assert s[0..] == s;
    assert mask == HexSet(s);
    r := Ok(mask);
  }

  /** The four CPU_SETs of one digit. */
  function SetBits(m: CpuSet, v: nat, base: nat): (r: CpuSet)
    ensures forall b :: b in r <==> b in m || (base <= b < base + 4 && b < SETSIZE && Bit(v, b - base))
  {
    m + (if Bit(v, 0) then Cpu(base) else {}) + (if Bit(v, 1) then Cpu(base + 1) else {})
      + (if Bit(v, 2) then Cpu(base + 2) else {}) + (if Bit(v, 3) then Cpu(base + 3) else {})
  }

  /** CPU_SET ignores CPUs that do not fit. */
  function Cpu(b: nat): CpuSet { if b < SETSIZE then {b} else {} }

  // ---------------------------------------------------------------------
  // Reading undoes printing.
  // ---------------------------------------------------------------------

  lemma CharBack(v: nat)
    requires v < 16
    ensures CharToVal(ValToChar(v)) == v && ValToChar(v) != 'x' && (ValToChar(v) == '0' <==> v == 0)
  {
  }

  lemma DigitsHex(m: CpuSet, s: seq<char>, b: nat)
    requires Digits(m, s, 0) && GoodSet(m) && b < SETSIZE
    ensures HexBit(s, b) <==> b in m
  {
    var j := b / 4;
    assert s[|s| - 1 - j] == ValToChar(Nibble(m, 4 * j));
    CharBack(Nibble(m, 4 * j));
    assert b == 4 * j + b % 4;
  }

  lemma StripHex(s: seq<char>, b: nat)
    ensures HexBit(Strip(s), b) <==> HexBit(s, b)
  {
    var r, j := Strip(s), b / 4;
    if j < |r| {
      assert r[|r| - 1 - j] == s[|s| - 1 - j];
    } else if j < |s| {
      assert s[|s| - 1 - j] == '0';
      ZeroBits(b % 4);
    }
  }

  lemma ZeroBits(k: nat)
    ensures CharToVal('0') == 0 && !Bit(0, k)
  {
  }

  lemma AllPrinted(m: CpuSet, s: seq<char>)
    requires Digits(m, s, 0)
    ensures AllHex(s) && 'x' !in s
  {
    forall k | 0 <= k < |s| ensures CharToVal(s[k]) >= 0 && s[k] != 'x' {
      PrintedChar(m, s, k);
    }
  }

  lemma StripAll(s: seq<char>, r: seq<char>)
    requires r == Strip(s) && AllHex(s) && 'x' !in s
    ensures AllHex(r) && 'x' !in r
  {
    assert r == s[|s| - |r|..];
  }

  lemma PrintedHex(m: CpuSet, s: seq<char>, r: seq<char>)
    requires Digits(m, s, 0) && r == Strip(s)
    ensures AllHex(r) && 'x' !in r
  {
    AllPrinted(m, s);
    StripAll(s, r);
  }

  lemma PrintedChar(m: CpuSet, s: seq<char>, k: nat)
    requires Digits(m, s, 0) && k < |s|
    ensures CharToVal(s[k]) >= 0 && s[k] != 'x'
  {
    var base: nat := 4 * (SETSIZE / 4 - 1 - k);
    assert s[k] == ValToChar(Nibble(m, base));
    CharBack(Nibble(m, base));
  }

  lemma PrintedBit(m: CpuSet, s: seq<char>, r: seq<char>, b: nat)
    requires GoodSet(m) && Digits(m, s, 0) && r == Strip(s)
    ensures b < SETSIZE && HexBit(r, b) <==> b in m
  {
    StripHex(s, b);
    if b < SETSIZE {
      DigitsHex(m, s, b);
    }
  }

  /** For every set, str_to_cpuset undoes cpuset_to_str. */
  lemma HexRoundTrip(m: CpuSet, s: seq<char>, r: seq<char>)
    requires GoodSet(m) && Digits(m, s, 0) && r == Strip(s)
    ensures Body(r) == r && AllHex(r) && HexSet(r) == m
  {
    PrintedHex(m, s, r);
    forall b: nat ensures b in HexSet(r) <==> b in m {
      PrintedBit(m, s, r, b);
    }
  }

  /** Print a set and read it back. */
  method PrintAndRead(m: CpuSet) returns (r: Result)
    requires GoodSet(m)
    ensures r == Ok(m)
  {
    var str := CpusetToStr(m);
    ghost var s :| Digits(m, s, 0) && str == Strip(s);
    HexRoundTrip(m, s, str);
    r := StrToCpuset(str);
  }
}
