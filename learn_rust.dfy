/**
 * The two exercises nested in `main` of learn-rust/main.rs: `roman_to_int`,
 * a left-to-right scan that pairs a symbol with a larger successor, and
 * `abs_difference`, the sum of the k largest minus the sum of the k smallest
 * values of a sorted copy.
 */
module LearnRust {
  import opened Wrappers

  // ---------------------------------------------------------------- roman_to_int

  /**
   * The symbol table `roman_to_int` fills before scanning, looked up with
   * `unwrap`: None stands for the panic on a character outside the table.
   */
  function Lookup(c: char): Option<int> {
    match c
    case 'I' => Some(1)
    case 'V' => Some(5)
    case 'X' => Some(10)
    case 'L' => Some(50)
    case 'C' => Some(100)
    case 'D' => Some(500)
    case 'M' => Some(1000)
    case _ => None
  }

  /** Exactly the seven Roman symbols are in the table, each with a positive value. */
  lemma LookupDomain(c: char)
    ensures Lookup(c).Some? <==> c in "IVXLCDM"
    ensures Lookup(c).Some? ==> Lookup(c).value > 0
  {
  }

  /** The symbol values of the table. */
  lemma SymbolValues()
    ensures Lookup('I') == Some(1) && Lookup('V') == Some(5) && Lookup('X') == Some(10) && Lookup('L') == Some(50)
    ensures Lookup('C') == Some(100) && Lookup('D') == Some(500) && Lookup('M') == Some(1000)
  {
  }

  function Plus(r: Option<int>, x: int): Option<int> {
    if r.Some? then Some(r.value + x) else None
  }

  /**
   * What the scan computes from position 0 of `s`: a symbol smaller than its
   * successor takes both, contributing the difference; any other symbol
   * contributes its own value; a character outside the table panics.
   */
  function Roman(s: seq<char>): Option<int>
    decreases |s|
  {
    if s == [] then Some(0)
    else
      var current := Lookup(s[0]);
      if current.None? then None
      else if |s| == 1 then current
      else
        var next := Lookup(s[1]);
        if next.None? then None
        else if current.value < next.value then Plus(Roman(s[2..]), next.value - current.value)
        else Plus(Roman(s[1..]), current.value)
  }

  /** `roman_to_int`: the while loop, advancing by one symbol or by a pair. */
  method RomanToInt(s: seq<char>) returns (r: Option<int>)
    ensures r == Roman(s)
  {
    var result := 0;
    var i := 0;
    while i < |s|
      invariant i <= |s|
      invariant Roman(s) == Plus(Roman(s[i..]), result)
      decreases |s| - i
    {
      var current := Lookup(s[i]);
      if current.None? {
        return None;
      }
      var next := 0;
      if i + 1 < |s| {
        var n := Lookup(s[i + 1]);
        if n.None? {
          return None;
        }
        next := n.value;
      }
      if current.value < next {
        assert s[i..][2..] == s[i + 2..];
        result := result + (next - current.value);
        i := i + 2;
      } else {
        assert |s[i..]| > 1 ==> s[i..][1..] == s[i + 1..];
        result := result + current.value;
        i := i + 1;
      }
    }
    return Some(result);
  }

  /** The call in `main`. */
  lemma RomanExample()
    ensures Roman("MCMXCIV") == Some(1994)
  {
    assert "MCMXCIV"[1..] == "CMXCIV";
    assert "CMXCIV"[2..] == "XCIV";
    assert "XCIV"[2..] == "IV";
    assert "IV"[2..] == "";
  }

  /** The scan panics exactly when some character is not a Roman symbol: every character gets looked up. */
  lemma {:induction false} RomanPanics(s: seq<char>)
    ensures Roman(s).None? <==> exists k :: 0 <= k < |s| && s[k] !in "IVXLCDM"
    decreases |s|
  {
    if s == [] {
    } else if Lookup(s[0]).None? {
    } else if |s| == 1 {
    } else if Lookup(s[1]).None? {
    } else if Lookup(s[0]).value < Lookup(s[1]).value {
      RomanPanics(s[2..]);
      if exists k :: 0 <= k < |s| && s[k] !in "IVXLCDM" {
        var k :| 0 <= k < |s| && s[k] !in "IVXLCDM";
        assert s[2..][k - 2] == s[k];
      }
    } else {
      RomanPanics(s[1..]);
      if exists k :: 0 <= k < |s| && s[k] !in "IVXLCDM" {
        var k :| 0 <= k < |s| && s[k] !in "IVXLCDM";
        assert s[1..][k - 1] == s[k];
      }
    }
  }

  /** Every character is a Roman symbol. */
  predicate AllSymbols(s: seq<char>) {
    forall k :: 0 <= k < |s| ==> Lookup(s[k]).Some?
  }

  /** The value of a character known to be a symbol. */
  function Value(c: char): int
    requires Lookup(c).Some?
  {
    Lookup(c).value
  }

  /** The symbol values never increase from left to right. */
  predicate NonIncreasing(s: seq<char>)
    requires AllSymbols(s)
  {
    forall k :: 0 <= k < |s| - 1 ==> Value(s[k]) >= Value(s[k + 1])
  }

  /** The plain sum of the symbol values. */
  function SymbolSum(s: seq<char>): int
    requires AllSymbols(s)
  {
    if s == [] then 0 else Value(s[0]) + SymbolSum(s[1..])
  }

  /** With non-increasing symbols no pair is ever taken: the result is the plain sum. */
  lemma {:induction false} NonIncreasingSum(s: seq<char>)
    requires AllSymbols(s) && NonIncreasing(s)
    ensures Roman(s) == Some(SymbolSum(s))
  {
    if |s| > 1 {
      var t := s[1..];
      assert AllSymbols(t);
      assert NonIncreasing(t) by {
        forall k | 0 <= k < |t| - 1
          ensures Value(t[k]) >= Value(t[k + 1])
        {
          assert t[k] == s[k + 1] && t[k + 1] == s[k + 2];
        }
      }
      NonIncreasingSum(t);
    }
  }

  /**
   * The textbook reading of a numeral: a symbol followed by a larger one
   * counts negative, any other positive.
   */
  function Signed(s: seq<char>): int
    requires AllSymbols(s)
  {
    if s == [] then 0
    else if |s| > 1 && Value(s[0]) < Value(s[1]) then -Value(s[0]) + Signed(s[1..])
    else Value(s[0]) + Signed(s[1..])
  }

  /** No three symbols in a row strictly increase, as in every well-formed numeral. */
  predicate NoRisingTriple(s: seq<char>)
    requires AllSymbols(s)
  {
    forall k :: 0 <= k < |s| - 2 ==> !(Value(s[k]) < Value(s[k + 1]) < Value(s[k + 2]))
  }

  lemma NoRisingTripleTail(s: seq<char>)
    requires s != [] && AllSymbols(s) && NoRisingTriple(s)
    ensures AllSymbols(s[1..]) && NoRisingTriple(s[1..])
  {
    var t := s[1..];
    assert AllSymbols(t);
    forall k | 0 <= k < |t| - 2
      ensures !(Value(t[k]) < Value(t[k + 1]) < Value(t[k + 2]))
    {
      assert t[k] == s[k + 1] && t[k + 1] == s[k + 2] && t[k + 2] == s[k + 3];
    }
  }

  /** Pairing agrees with the textbook reading whenever no three symbols rise in a row. */
  lemma {:induction false} RomanIsSigned(s: seq<char>)
    requires AllSymbols(s) && NoRisingTriple(s)
    ensures Roman(s) == Some(Signed(s))
    decreases |s|
  {
    if |s| > 1 {
      var t := s[1..];
      NoRisingTripleTail(s);
      if Value(s[0]) < Value(s[1]) {
        NoRisingTripleTail(t);
        assert s[2..] == t[1..];
        RomanIsSigned(t[1..]);
        assert |s| > 2 ==> Value(s[1]) >= Value(s[2]);
        assert Signed(t) == Value(t[0]) + Signed(t[1..]);
      } else {
        RomanIsSigned(t);
      }
    }
  }

  /** Where three symbols rise the two readings part: "IVX" pairs I with V and then adds X. */
  lemma RisingTripleExample()
    ensures Roman("IVX") == Some(14)
    ensures Signed("IVX") == 4
  {
    assert "IVX"[2..] == "X";
    assert "IVX"[1..] == "VX";
    assert "VX"[1..] == "X";
  }

  // ---------------------------------------------------------------- abs_difference

  predicate Sorted(s: seq<int>) {
    forall i, j :: 0 <= i < j < |s| ==> s[i] <= s[j]
  }

  lemma MultisetCons(s: seq<int>)
    requires s != []
    ensures multiset(s) == multiset{s[0]} + multiset(s[1..])
  {
    assert s == [s[0]] + s[1..];
  }

  /** A bound on the values of `s` and on `x` bounds every value of a sequence holding just those. */
  lemma LowerBound(lo: int, x: int, s: seq<int>, r: seq<int>)
    requires lo <= x && forall k :: 0 <= k < |s| ==> lo <= s[k]
    requires multiset(r) == multiset(s) + multiset{x}
    ensures forall k :: 0 <= k < |r| ==> lo <= r[k]
  {
    forall k | 0 <= k < |r|
      ensures lo <= r[k]
    {
      assert r[k] in multiset(r);
      if r[k] != x {
        assert r[k] in multiset(s);
      }
    }
  }

  // `Lists.InsertBy`/`Lists.SortBy` order strings by a key; the integer sort here is kept
  // separate so that its uniqueness (`SortedUnique`) can be stated over `<=` on `int`.

  /** `x` put into place in a sorted sequence. */
  function Insert(x: int, s: seq<int>): (r: seq<int>)
    requires Sorted(s)
    ensures Sorted(r) && multiset(r) == multiset(s) + multiset{x} && |r| == |s| + 1
  {
    if s == [] || x <= s[0] then
      assert multiset([x] + s) == multiset{x} + multiset(s);
      [x] + s
    else
      var rest := Insert(x, s[1..]);
      MultisetCons(s);
      LowerBound(s[0], x, s[1..], rest);
      assert multiset([s[0]] + rest) == multiset{s[0]} + multiset(rest);
      [s[0]] + rest
  }

  /** `Vec::sort`: the values in increasing order. */
  function Sort(s: seq<int>): (r: seq<int>)
    ensures Sorted(r) && multiset(r) == multiset(s) && |r| == |s|
  {
    if s == [] then []
    else
      MultisetCons(s);
      Insert(s[0], Sort(s[1..]))
  }

  /** Two sorted arrangements of the same values start with the same, least, value. */
  lemma SameLeast(a: seq<int>, b: seq<int>)
    requires Sorted(a) && Sorted(b) && multiset(a) == multiset(b) && a != [] && b != []
    ensures a[0] == b[0]
  {
    assert a[0] in multiset(b) by { assert a[0] in multiset(a); }
    assert b[0] in multiset(a) by { assert b[0] in multiset(b); }
    var i :| 0 <= i < |b| && b[i] == a[0];
    var j :| 0 <= j < |a| && a[j] == b[0];
    assert a[0] <= a[j] && b[0] <= b[i];
  }

  /** Two sorted arrangements of the same values are the same sequence. */
  lemma {:induction false} SortedUnique(a: seq<int>, b: seq<int>)
    requires Sorted(a) && Sorted(b) && multiset(a) == multiset(b)
    ensures a == b
    decreases |a|
  {
    assert |b| == |a| by { assert |multiset(a)| == |multiset(b)|; }
    if a != [] {
      SameLeast(a, b);
      MultisetCons(a);
      MultisetCons(b);
      assert multiset(a[1..]) == multiset(a) - multiset{a[0]};
      assert multiset(b[1..]) == multiset(b) - multiset{b[0]};
      SortedUnique(a[1..], b[1..]);
      assert a == [a[0]] + a[1..] && b == [b[0]] + b[1..];
    }
  }

  /** `.sum()`, with no i32 overflow. */
  function Sum(s: seq<int>): int {
    if s == [] then 0 else s[0] + Sum(s[1..])
  }

  /** `k as usize`: a negative i32 wraps to a 64-bit count beyond any length. */
  function TakeCount(k: int): (n: nat)
    requires -0x8000_0000 <= k < 0x8000_0000
    ensures k >= 0 ==> n == k
    ensures k < 0 ==> n >= 0x1_0000_0000_0000_0000 - 0x8000_0000
  {
    if k >= 0 then k else k + 0x1_0000_0000_0000_0000
  }

  /** `abs_difference`: the sum of the k largest minus the sum of the k smallest of a sorted copy. */
  function AbsDifference(nums: seq<int>, k: int): int
    requires -0x8000_0000 <= k < 0x8000_0000
  {
    var sorted := Sort(nums);
    var n := if TakeCount(k) <= |sorted| then TakeCount(k) else |sorted|;
    Sum(sorted[|sorted| - n..]) - Sum(sorted[..n])
  }

  /** The result depends only on the values, not on their order in `nums`. */
  lemma AbsDifferencePermutation(a: seq<int>, b: seq<int>, k: int)
    requires -0x8000_0000 <= k < 0x8000_0000
    requires multiset(a) == multiset(b)
    ensures AbsDifference(a, k) == AbsDifference(b, k)
  {
    SortedUnique(Sort(a), Sort(b));
  }

  /** When k covers the whole list, or is negative and wraps, both sums are the total: the result is 0. */
  lemma AbsDifferenceAll(nums: seq<int>, k: int)
    requires -0x8000_0000 <= k < 0x8000_0000
    requires |nums| < 0x1_0000_0000_0000_0000 - 0x8000_0000
    requires k < 0 || k >= |nums|
    ensures AbsDifference(nums, k) == 0
  {
    var sorted := Sort(nums);
    assert sorted[|sorted| - |sorted|..] == sorted[..|sorted|];
  }

  /** The i-th of the k largest is at least the i-th of the k smallest. */
  lemma {:induction false} SumDominates(a: seq<int>, b: seq<int>)
    requires |a| == |b|
    requires forall i :: 0 <= i < |a| ==> b[i] <= a[i]
    ensures Sum(b) <= Sum(a)
  {
    if a != [] {
      SumDominates(a[1..], b[1..]);
    }
  }

  /** For 0 <= k the result is never negative. */
  lemma AbsDifferenceNonNegative(nums: seq<int>, k: int)
    requires 0 <= k < 0x8000_0000
    ensures AbsDifference(nums, k) >= 0
  {
    var sorted := Sort(nums);
    var n := if k <= |sorted| then k else |sorted|;
    var top, bottom := sorted[|sorted| - n..], sorted[..n];
    forall i | 0 <= i < n
      ensures bottom[i] <= top[i]
    {
      assert bottom[i] == sorted[i] && top[i] == sorted[|sorted| - n + i];
    }
    SumDominates(top, bottom);
  }

  lemma InsertExample()
    ensures Insert(5, [1, 3]) == [1, 3, 5]
  {
    assert [1, 3][1..] == [3] && [3][1..] == [];
    assert Insert(5, [3]) == [3, 5];
  }

  lemma SortExample()
    ensures Sort([5, 1, 3]) == [1, 3, 5]
  {
    assert [5, 1, 3][1..] == [1, 3] && [1, 3][1..] == [3] && [3][1..] == [];
    assert Sort([1, 3]) == [1, 3];
    InsertExample();
  }

  /** A worked case: the sorted copy is [1, 3, 5]; 5 minus 1 is 4. */
  lemma AbsDifferenceExample()
    ensures AbsDifference([5, 1, 3], 1) == 4
  {
    SortExample();
    var s := [1, 3, 5];
    assert s[2..] == [5] && s[..1] == [1];
  }

  /** The call left commented out in `main`: one value, k = 1. */
  lemma SingleExample()
    ensures AbsDifference([100], 1) == 0
  {
    AbsDifferenceAll([100], 1);
  }
}
