/**
 * The library calls the clipboard history relies on to order and thin out
 * lists: `sort_by_key` and `sort` (a stable sort by a string key, in
 * `String` order) and `dedup_by_key` and `dedup` (drop every element whose
 * key equals that of the element kept just before it).
 */
module Lists {
  import opened Text

  /** Sorted by key in `String` order. */
  predicate SortedBy<T(==)>(s: seq<T>, key: T -> string) {
    forall i, j :: 0 <= i < j < |s| ==> LexLe(key(s[i]), key(s[j]))
  }

  /** Sorted by key, and no key occurs twice. */
  predicate StrictlySortedBy<T(==)>(s: seq<T>, key: T -> string) {
    SortedBy(s, key) && forall i, j :: 0 <= i < j < |s| ==> key(s[i]) != key(s[j])
  }

  /** Every element of s has a key at least a. */
  predicate AllAtLeast<T(==)>(a: string, s: seq<T>, key: T -> string) {
    forall y :: y in s ==> LexLe(a, key(y))
  }

  /** The keys occurring in s. */
  function Keys<T(==)>(s: seq<T>, key: T -> string): set<string> {
    set i | 0 <= i < |s| :: key(s[i])
  }

  lemma SortedAtLeast<T>(s: seq<T>, key: T -> string)
    requires s != [] && SortedBy(s, key)
    ensures AllAtLeast(key(s[0]), s, key)
  {
    forall y | y in s
      ensures LexLe(key(s[0]), key(y))
    {
      var j :| 0 <= j < |s| && s[j] == y;
      if j == 0 {
        LexLeTotal(key(y), key(y));
      }
    }
  }

  lemma {:induction false} AtLeastLower<T>(a: string, b: string, s: seq<T>, key: T -> string)
    requires LexLe(a, b) && AllAtLeast(b, s, key)
    ensures AllAtLeast(a, s, key)
  {
    forall y | y in s
      ensures LexLe(a, key(y))
    {
      LexLeTransitive(a, b, key(y));
    }
  }

  lemma ConsSorted<T>(x: T, s: seq<T>, key: T -> string)
    requires SortedBy(s, key) && AllAtLeast(key(x), s, key)
    ensures SortedBy([x] + s, key)
  {
    forall i, j | 0 <= i < j < |[x] + s|
      ensures LexLe(key(([x] + s)[i]), key(([x] + s)[j]))
    {
      assert ([x] + s)[j] == s[j - 1];
      if i > 0 {
        assert ([x] + s)[i] == s[i - 1];
      }
    }
  }

  lemma InsertFront<T>(x: T, s: seq<T>, key: T -> string)
    requires SortedBy(s, key) && (s == [] || LexLe(key(x), key(s[0])))
    ensures SortedBy([x] + s, key)
  {
    if s != [] {
      SortedAtLeast(s, key);
      AtLeastLower(key(x), key(s[0]), s, key);
    }
    ConsSorted(x, s, key);
  }

  lemma InsertRest<T>(x: T, s: seq<T>, t: seq<T>, key: T -> string)
    requires SortedBy(s, key) && s != [] && !LexLe(key(x), key(s[0]))
    requires SortedBy(t, key) && multiset(t) == multiset(s[1..]) + multiset{x}
    ensures SortedBy([s[0]] + t, key)
  {
    SortedAtLeast(s, key);
    LexLeTotal(key(x), key(s[0]));
    forall y | y in t
      ensures LexLe(key(s[0]), key(y))
    {
      assert y in multiset(t);
      if y != x {
        assert y in s[1..];
      }
    }
    ConsSorted(s[0], t, key);
  }

  /** Puts x in front of the first element whose key is not smaller than its own, so before its equals. */
  function InsertBy<T(==)>(x: T, s: seq<T>, key: T -> string): (r: seq<T>)
    requires SortedBy(s, key)
    ensures SortedBy(r, key)
    ensures multiset(r) == multiset(s) + multiset{x}
  {
    if s == [] || LexLe(key(x), key(s[0])) then
      InsertFront(x, s, key);
      [x] + s
    else
      var t := InsertBy(x, s[1..], key);
      InsertRest(x, s, t, key);
      assert s == [s[0]] + s[1..];
      [s[0]] + t
  }

  /** `sort_by_key`: insertion sort, which keeps equal keys in their original order like the library's stable sort. */
  function SortBy<T(==)>(s: seq<T>, key: T -> string): (r: seq<T>)
    ensures SortedBy(r, key)
    ensures multiset(r) == multiset(s)
  {
    if s == [] then []
    else
      assert s == [s[0]] + s[1..];
      InsertBy(s[0], SortBy(s[1..], key), key)
  }

  /** Reordering a list keeps its keys. */
  lemma KeysPermuted<T>(s: seq<T>, t: seq<T>, key: T -> string)
    requires multiset(s) == multiset(t)
    ensures Keys(s, key) == Keys(t, key)
  {
    forall k | k in Keys(t, key)
      ensures k in Keys(s, key)
    {
      var i :| 0 <= i < |t| && key(t[i]) == k;
      assert t[i] in multiset(s);
    }
    forall k | k in Keys(s, key)
      ensures k in Keys(t, key)
    {
      var i :| 0 <= i < |s| && key(s[i]) == k;
      assert s[i] in multiset(t);
    }
  }

  lemma KeysCons<T>(x: T, s: seq<T>, key: T -> string)
    ensures Keys([x] + s, key) == {key(x)} + Keys(s, key)
  {
    var l := [x] + s;
    forall k | k in Keys(l, key)
      ensures k in {key(x)} + Keys(s, key)
    {
      var i :| 0 <= i < |l| && key(l[i]) == k;
      if i > 0 {
        assert l[i] == s[i - 1];
      }
    }
    forall k | k in {key(x)} + Keys(s, key)
      ensures k in Keys(l, key)
    {
      if k != key(x) {
        var i :| 0 <= i < |s| && key(s[i]) == k;
        assert l[i + 1] == s[i];
      }
      assert key(l[0]) == key(x);
    }
  }

  lemma DropSecondSorted<T>(s: seq<T>, key: T -> string)
    requires |s| >= 2
    ensures SortedBy(s, key) ==> SortedBy([s[0]] + s[2..], key)
  {
    if SortedBy(s, key) {
      DropSecondSorted'(s, key);
    }
  }

  lemma DropSecondSorted'<T>(s: seq<T>, key: T -> string)
    requires |s| >= 2 && SortedBy(s, key)
    ensures SortedBy([s[0]] + s[2..], key)
  {
    var l := [s[0]] + s[2..];
    forall i, j | 0 <= i < j < |l|
      ensures LexLe(key(l[i]), key(l[j]))
    {
      assert l[j] == s[j + 1];
      if i > 0 {
        assert l[i] == s[i + 1];
      }
    }
  }

  /** `dedup_by_key`: of every run of consecutive elements with equal keys only the first is kept. */
  function DedupBy<T(==)>(s: seq<T>, key: T -> string): (r: seq<T>)
    ensures |r| <= |s|
    ensures s != [] ==> r != [] && r[0] == s[0]
    ensures forall y :: y in r ==> y in s
    ensures Keys(r, key) == Keys(s, key)
    ensures SortedBy(s, key) ==> StrictlySortedBy(r, key)
    decreases |s|
  {
    if |s| <= 1 then s
    else if key(s[0]) == key(s[1]) then
      var l := [s[0]] + s[2..];
      KeysCons(s[0], s[2..], key);
      KeysCons(s[1], s[2..], key);
      assert s[1..] == [s[1]] + s[2..];
      KeysCons(s[0], s[1..], key);
      assert s == [s[0]] + s[1..];
      DropSecondSorted(s, key);
      DedupBy(l, key)
    else
      var t := DedupBy(s[1..], key);
      assert s == [s[0]] + s[1..];
      KeysCons(s[0], s[1..], key);
      KeysCons(s[0], t, key);
      DedupHead(s, t, key);
      [s[0]] + t
  }

  lemma DedupHead<T>(s: seq<T>, t: seq<T>, key: T -> string)
    requires |s| >= 2 && key(s[0]) != key(s[1])
    requires t != [] && t[0] == s[1] && (SortedBy(s[1..], key) ==> StrictlySortedBy(t, key))
    requires forall y :: y in t ==> y in s[1..]
    ensures SortedBy(s, key) ==> StrictlySortedBy([s[0]] + t, key)
  {
    if SortedBy(s, key) {
      assert SortedBy(s[1..], key) by {
        forall i, j | 0 <= i < j < |s| - 1
          ensures LexLe(key(s[1..][i]), key(s[1..][j]))
        {
          assert s[1..][i] == s[i + 1] && s[1..][j] == s[j + 1];
        }
      }
      ConsStrict(s, t, key);
    }
  }

  lemma ConsStrict<T>(s: seq<T>, t: seq<T>, key: T -> string)
    requires |s| >= 2 && SortedBy(s, key) && key(s[0]) != key(s[1])
    requires t != [] && t[0] == s[1] && StrictlySortedBy(t, key)
    requires forall y :: y in t ==> y in s[1..]
    ensures StrictlySortedBy([s[0]] + t, key)
  {
    SortedAtLeast(s, key);
    forall y | y in t
      ensures LexLe(key(s[0]), key(y))
    {
      assert y in s;
    }
    ConsSorted(s[0], t, key);
    LexLeAntisymmetric(key(s[0]), key(s[1]));
    var l := [s[0]] + t;
    forall i, j | 0 <= i < j < |l|
      ensures key(l[i]) != key(l[j])
    {
      assert l[j] == t[j - 1];
      if i > 0 {
        assert l[i] == t[i - 1];
      } else if j > 1 {
        assert LexLe(key(t[0]), key(t[j - 1]));
      }
    }
  }
}
