/** The string operations the clipboard history relies on: `trim`, `to_lowercase`, `contains`, `split('|')` and `String`'s ordering. */
module Text {

  /** `char::is_whitespace`: the Unicode White_Space property. */
  predicate IsWhitespace(c: char) {
    ('\U{0009}' <= c <= '\U{000D}') || c == ' ' || c == '\U{0085}' || c == '\U{00A0}' || c == '\U{1680}' ||
    ('\U{2000}' <= c <= '\U{200A}') || c == '\U{2028}' || c == '\U{2029}' || c == '\U{202F}' || c == '\U{205F}' ||
    c == '\U{3000}'
  }

  /** `trim_start`: drops the leading whitespace. */
  function TrimStart(s: string): (r: string)
    ensures r == [] || !IsWhitespace(r[0])
    ensures exists k :: 0 <= k <= |s| && r == s[k..] && forall i :: 0 <= i < k ==> IsWhitespace(s[i])
  {
    if s != [] && IsWhitespace(s[0]) then
      var r := TrimStart(s[1..]);
      var k :| 0 <= k <= |s[1..]| && r == s[1..][k..] && forall i :: 0 <= i < k ==> IsWhitespace(s[1..][i]);
      assert r == s[k + 1..];
      r
    else
      assert s == s[0..];
      s
  }

  /** `trim_end`: drops the trailing whitespace. */
  function TrimEnd(s: string): (r: string)
    ensures r == [] || !IsWhitespace(r[|r| - 1])
    ensures exists k :: 0 <= k <= |s| && r == s[..k] && forall i :: k <= i < |s| ==> IsWhitespace(s[i])
  {
    if s != [] && IsWhitespace(s[|s| - 1]) then
      var p := s[..|s| - 1];
      var r := TrimEnd(p);
      var k :| 0 <= k <= |p| && r == p[..k] && forall i :: k <= i < |p| ==> IsWhitespace(p[i]);
      assert r == s[..k];
      r
    else
      assert s == s[..|s|];
      s
  }

  /** `trim`: both ends. */
  function Trim(s: string): string {
    TrimEnd(TrimStart(s))
  }

  lemma {:induction false} TrimStartWhitespace(s: string)
    requires forall i :: 0 <= i < |s| ==> IsWhitespace(s[i])
    ensures TrimStart(s) == []
  {
    if s != [] {
      TrimStartWhitespace(s[1..]);
    }
  }

  /** A string trims to nothing exactly when every character is whitespace. */
  lemma TrimEmpty(s: string)
    ensures Trim(s) == [] <==> forall i :: 0 <= i < |s| ==> IsWhitespace(s[i])
  {
    if forall i :: 0 <= i < |s| ==> IsWhitespace(s[i]) {
      TrimStartWhitespace(s);
    }
    if Trim(s) == [] {
      var t := TrimStart(s);
      var k :| 0 <= k <= |s| && t == s[k..] && forall i :: 0 <= i < k ==> IsWhitespace(s[i]);
      var m :| 0 <= m <= |t| && TrimEnd(t) == t[..m] && forall i :: m <= i < |t| ==> IsWhitespace(t[i]);
      assert t == [];
    }
  }

  /** `char::to_lowercase` on ASCII letters; every other character is left alone. */
  function Lower(c: char): (d: char)
    ensures 'A' <= c <= 'Z' ==> d as int == c as int + 32
    ensures !('A' <= c <= 'Z') ==> d == c
  {
    if 'A' <= c <= 'Z' then (c as int + 32) as char else c
  }

  /** `str::to_lowercase`, character by character. */
  function LowerString(s: string): (r: string)
    ensures |r| == |s| && forall i :: 0 <= i < |s| ==> r[i] == Lower(s[i])
  {
    seq(|s|, i requires 0 <= i < |s| => Lower(s[i]))
  }

  /** Lowering twice is lowering once. */
  lemma LowerIdempotent(s: string)
    ensures LowerString(LowerString(s)) == LowerString(s)
  {
  }

  /** `str::contains`: `sub` occurs somewhere in `s`. */
  predicate Contains(s: string, sub: string) {
    exists k | 0 <= k <= |s| - |sub| :: OccursAt(s, sub, k)
  }

  predicate OccursAt(s: string, sub: string, k: int) {
    0 <= k <= |s| - |sub| && s[k..k + |sub|] == sub
  }

  /** The first field of `split('|')`: the text before the first '|', or all of it. */
  function FirstField(s: string): (r: string)
    ensures r <= s && '|' !in r
    ensures |r| < |s| ==> s[|r|] == '|'
  {
    if s == [] || s[0] == '|' then [] else [s[0]] + FirstField(s[1..])
  }

  /** The text before the last '|', or all of it when there is none. */
  function BeforeLastBar(s: string): (r: string)
    ensures r <= s
    ensures |r| < |s| ==> s[|r|] == '|' && '|' !in s[|r| + 1..]
    ensures |r| == |s| ==> '|' !in s
  {
    if s == [] then []
    else if s[|s| - 1] == '|' then s[..|s| - 1]
    else
      var r := BeforeLastBar(s[..|s| - 1]);
      assert |r| < |s| - 1 ==> s[|r| + 1..] == s[..|s| - 1][|r| + 1..] + [s[|s| - 1]];
      if |r| == |s| - 1 then s else r
  }

  /** Text, a '|' and a suffix without '|' split at the last '|' back into the text. */
  lemma {:induction false} BeforeLastBarJoin(text: string, suffix: string)
    requires '|' !in suffix
    ensures BeforeLastBar(text + "|" + suffix) == text
  {
    var s := text + "|" + suffix;
    if suffix == [] {
      assert s[..|s| - 1] == text;
    } else {
      var shorter := suffix[..|suffix| - 1];
      assert s[..|s| - 1] == text + "|" + shorter;
      assert s[|s| - 1] == suffix[|suffix| - 1];
      BeforeLastBarJoin(text, shorter);
    }
  }

  /** The first field of a text joined to a suffix by '|' is that text, when the text itself has no '|'. */
  lemma {:induction false} FirstFieldJoin(text: string, suffix: string)
    requires '|' !in text
    ensures FirstField(text + "|" + suffix) == text
  {
    var s := text + "|" + suffix;
    if text != [] {
      assert s[0] == text[0];
      assert s[1..] == text[1..] + "|" + suffix;
      FirstFieldJoin(text[1..], suffix);
      assert text == [text[0]] + text[1..];
    }
  }

  /** `Ord for String`: character by character, a proper prefix first. */
  predicate LexLe(a: string, b: string) {
    a == [] || (b != [] && (a[0] < b[0] || (a[0] == b[0] && LexLe(a[1..], b[1..]))))
  }

  lemma {:induction false} LexLeTotal(a: string, b: string)
    ensures LexLe(a, b) || LexLe(b, a)
  {
    if a != [] && b != [] && a[0] == b[0] {
      LexLeTotal(a[1..], b[1..]);
    }
  }

  lemma {:induction false} LexLeAntisymmetric(a: string, b: string)
    ensures LexLe(a, b) && LexLe(b, a) ==> a == b
  {
    if a != [] && b != [] && LexLe(a, b) && LexLe(b, a) {
      LexLeAntisymmetric(a[1..], b[1..]);
      assert a == [a[0]] + a[1..] && b == [b[0]] + b[1..];
    }
  }

  lemma {:induction false} LexLeTransitive(a: string, b: string, c: string)
    requires LexLe(a, b) && LexLe(b, c)
    ensures LexLe(a, c)
  {
    if a != [] && b != [] && c != [] && a[0] == b[0] && b[0] == c[0] {
      LexLeTransitive(a[1..], b[1..], c[1..]);
    }
  }
}
