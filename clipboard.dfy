/**
 * The list logic of the clipboard manager's commands (clipboard-rs,
 * src-tauri/src/lib.rs). The key-value store holding the history is the
 * field `items` of a `History`; each command that rewrites the stored list
 * is a method that reassigns it, and each command that only reads it is a
 * function of the list. Clock readings are the parameter `now`, in seconds.
 * A `u64` subtraction that a debug build would abort on is the result
 * `None`, and the history is then left as it was, since the store is only
 * written after the subtraction.
 */
module Clipboard {
  import opened Wrappers
  import opened Text
  import opened Lists
  import Decimal

  /** `save_clipboard_history` keeps at most this many entries. */
  const HISTORY_LIMIT := 50
  /** `import_history` keeps at most this many entries. */
  const IMPORT_LIMIT := 100
  /** The prefix the statistics take as the mark of an image entry. */
  const IMAGE_PREFIX := "[Image]"

  datatype ClipboardItem = ClipboardItem(content: string, timestamp: nat, isFavorite: bool, tags: seq<string>)

  /** The sort and de-duplication key of `import_history`. */
  function Content(item: ClipboardItem): string {
    item.content
  }

  /** The sort and de-duplication key of `get_all_tags`: the tag itself. */
  function Id(tag: string): string {
    tag
  }

  /** `text.trim().is_empty()`. */
  predicate IsBlank(text: string) {
    Trim(text) == []
  }

  /** The entry saved for `text` at `now`: content `text|now`, not a favourite, no tags. */
  function NewItem(text: string, now: nat): ClipboardItem {
    ClipboardItem(text + "|" + Decimal.Show(now), now, false, [])
  }

  /** `insert(0, item)` followed by `truncate(50)` when the list grew past 50. */
  function Pushed(h: seq<ClipboardItem>, item: ClipboardItem): seq<ClipboardItem> {
    var l := [item] + h;
    if |l| > HISTORY_LIMIT then l[..HISTORY_LIMIT] else l
  }

  // ---------------------------------------------------------------------
  // Saving: the uniqueness test as written and as intended
  // ---------------------------------------------------------------------

  /** The test as written: some entry's text before its FIRST '|' equals the text. */
  predicate TextExistsAsWritten(h: seq<ClipboardItem>, text: string) {
    exists k | 0 <= k < |h| :: FirstField(h[k].content) == text
  }

  /** `save_clipboard_history` as written. */
  function SavedAsWritten(h: seq<ClipboardItem>, text: string, now: nat): seq<ClipboardItem> {
    if IsBlank(text) || TextExistsAsWritten(h, text) then h else Pushed(h, NewItem(text, now))
  }

  /** A text holding a '|' is never found by the test as written, so every save of it adds an entry. */
  lemma BarTextAlwaysAdded(h: seq<ClipboardItem>, text: string, now: nat)
    requires '|' in text && !IsBlank(text)
    ensures SavedAsWritten(h, text, now) == Pushed(h, NewItem(text, now))
    ensures |SavedAsWritten(h, text, now)| == if |h| < HISTORY_LIMIT then |h| + 1 else HISTORY_LIMIT
  {
    forall k | 0 <= k < |h|
      ensures FirstField(h[k].content) != text
    {
      assert '|' !in FirstField(h[k].content);
    }
  }

  /** Saving "a|b" twice into an empty history leaves two entries for the same text. */
  lemma SaveRepeatsBarText()
    ensures |SavedAsWritten(SavedAsWritten([], "a|b", 0), "a|b", 0)| == 2
  {
    var text := "a|b";
    assert text[0] == 'a';
    assert TrimStart(text) == text;
    assert text[|text| - 1] == 'b';
    assert IsBlank(text) == false;
    assert '|' == text[1];
    BarTextAlwaysAdded([], text, 0);
    BarTextAlwaysAdded(SavedAsWritten([], text, 0), text, 0);
  }

  /** The test as intended: some entry's text before its LAST '|', where the timestamp starts, equals the text. */
  predicate TextExists(h: seq<ClipboardItem>, text: string) {
    exists k | 0 <= k < |h| :: BeforeLastBar(h[k].content) == text
  }

  /** `save_clipboard_history` with the intended test; the `History` class uses this one. */
  function Saved(h: seq<ClipboardItem>, text: string, now: nat): seq<ClipboardItem> {
    if IsBlank(text) || TextExists(h, text) then h else Pushed(h, NewItem(text, now))
  }

  /** Whitespace-only text leaves the history as it was. */
  lemma SaveBlank(h: seq<ClipboardItem>, text: string, now: nat)
    requires forall i :: 0 <= i < |text| ==> IsWhitespace(text[i])
    ensures Saved(h, text, now) == h && SavedAsWritten(h, text, now) == h
  {
    TrimEmpty(text);
  }

  /** A new text goes to the front as a fresh entry, the old entries follow in order, and the list is capped at 50. */
  lemma SaveAdds(h: seq<ClipboardItem>, text: string, now: nat)
    requires !IsBlank(text) && !TextExists(h, text)
    ensures var r := Saved(h, text, now);
      |r| == (if |h| < HISTORY_LIMIT then |h| + 1 else HISTORY_LIMIT) &&
      r[0].content == text + "|" + Decimal.Show(now) && r[0].timestamp == now &&
      !r[0].isFavorite && r[0].tags == [] &&
      r[1..] == h[..|r| - 1]
  {
    assert Saved(h, text, now) == Pushed(h, NewItem(text, now));
    PushedShape(h, NewItem(text, now));
  }

  lemma PushedShape(h: seq<ClipboardItem>, item: ClipboardItem)
    ensures var r := Pushed(h, item);
      |r| == (if |h| < HISTORY_LIMIT then |h| + 1 else HISTORY_LIMIT) && r[0] == item && r[1..] == h[..|r| - 1]
  {
  }

  /** After a save of a non-blank text, the history holds an entry for it. */
  lemma SaveFinds(h: seq<ClipboardItem>, text: string, now: nat)
    requires !IsBlank(text)
    ensures TextExists(Saved(h, text, now), text)
  {
    if !TextExists(h, text) {
      assert Saved(h, text, now) == Pushed(h, NewItem(text, now));
      PushedFound(h, text, now);
    }
  }

  lemma PushedFound(h: seq<ClipboardItem>, text: string, now: nat)
    ensures TextExists(Pushed(h, NewItem(text, now)), text)
    ensures '|' !in text ==> TextExistsAsWritten(Pushed(h, NewItem(text, now)), text)
  {
    var r := Pushed(h, NewItem(text, now));
    assert r[0] == NewItem(text, now);
    BeforeLastBarJoin(text, Decimal.Show(now));
    assert BeforeLastBar(r[0].content) == text;
    if '|' !in text {
      FirstFieldJoin(text, Decimal.Show(now));
      assert FirstField(r[0].content) == text;
    }
  }

  /** Saving the same text again, at any time, changes nothing: the history holds each text once. */
  lemma SaveIdempotent(h: seq<ClipboardItem>, text: string, now: nat, later: nat)
    ensures Saved(Saved(h, text, now), text, later) == Saved(h, text, now)
  {
    if !IsBlank(text) {
      SaveFinds(h, text, now);
    }
  }

  /** For a text without '|' the test as written and the intended one agree on a freshly saved entry. */
  lemma SaveAsWrittenIdempotent(h: seq<ClipboardItem>, text: string, now: nat, later: nat)
    requires '|' !in text
    ensures SavedAsWritten(SavedAsWritten(h, text, now), text, later) == SavedAsWritten(h, text, now)
  {
    if !IsBlank(text) && !TextExistsAsWritten(h, text) {
      assert SavedAsWritten(h, text, now) == Pushed(h, NewItem(text, now));
      PushedFound(h, text, now);
    }
  }

  // ---------------------------------------------------------------------
  // Queries
  // ---------------------------------------------------------------------

  /** The search test: the text part, lowered, contains the lowered query. */
  predicate Matches(content: string, query: string) {
    Contains(LowerString(FirstField(content)), LowerString(query))
  }

  /** `search_clipboard_history`: the contents of the matching entries, in history order. */
  function Search(h: seq<ClipboardItem>, query: string): (r: seq<string>)
    ensures |r| <= |h|
    ensures forall c :: c in r <==> exists k :: 0 <= k < |h| && h[k].content == c && Matches(c, query)
  {
    if h == [] then []
    else
      var rest := Search(h[1..], query);
      assert forall k :: 0 < k < |h| ==> h[k] == h[1..][k - 1];
      (if Matches(h[0].content, query) then [h[0].content] else []) + rest
  }

  /** The query's case does not matter. */
  lemma {:induction false} SearchIgnoresCase(h: seq<ClipboardItem>, query: string)
    ensures Search(h, LowerString(query)) == Search(h, query)
  {
    LowerIdempotent(query);
    if h != [] {
      SearchIgnoresCase(h[1..], query);
    }
  }

  /** The empty query finds every entry. */
  lemma {:induction false} SearchEmptyQuery(h: seq<ClipboardItem>)
    ensures |Search(h, "")| == |h|
  {
    if h != [] {
      assert OccursAt(LowerString(FirstField(h[0].content)), LowerString(""), 0);
      SearchEmptyQuery(h[1..]);
    }
  }

  /**
   * The search is an order-preserving filter: it distributes over
   * concatenation, and a single entry yields its content exactly when it
   * matches. Hence the result lists one content per matching entry, in
   * history order.
   */
  lemma {:induction false} SearchAppend(a: seq<ClipboardItem>, b: seq<ClipboardItem>, x: ClipboardItem, query: string)
    ensures Search(a + b, query) == Search(a, query) + Search(b, query)
    ensures Search([x], query) == if Matches(x.content, query) then [x.content] else []
  {
    if a != [] {
      assert (a + b)[0] == a[0] && (a + b)[1..] == a[1..] + b;
      SearchAppend(a[1..], b, x, query);
    } else {
      assert a + b == b;
    }
  }

  /** `load_favorites`: the contents of the favourite entries, in history order. */
  function LoadFavorites(h: seq<ClipboardItem>): (r: seq<string>)
    ensures |r| <= |h|
    ensures forall c :: c in r <==> exists k :: 0 <= k < |h| && h[k].content == c && h[k].isFavorite
  {
    if h == [] then []
    else
      var rest := LoadFavorites(h[1..]);
      assert forall k :: 0 < k < |h| ==> h[k] == h[1..][k - 1];
      (if h[0].isFavorite then [h[0].content] else []) + rest
  }

  /** `load_favorites` is an order-preserving filter: it distributes over concatenation and keeps a single entry exactly when it is a favourite. */
  lemma {:induction false} LoadFavoritesAppend(a: seq<ClipboardItem>, b: seq<ClipboardItem>, x: ClipboardItem)
    ensures LoadFavorites(a + b) == LoadFavorites(a) + LoadFavorites(b)
    ensures LoadFavorites([x]) == if x.isFavorite then [x.content] else []
  {
    if a != [] {
      assert (a + b)[0] == a[0] && (a + b)[1..] == a[1..] + b;
      LoadFavoritesAppend(a[1..], b, x);
    } else {
      assert a + b == b;
    }
  }

  /** The index of the first entry with exactly this content. */
  function FirstMatch(h: seq<ClipboardItem>, content: string): (r: Option<nat>)
    ensures r.Some? ==> r.value < |h| && h[r.value].content == content
    ensures r.Some? ==> forall j :: 0 <= j < r.value ==> h[j].content != content
    ensures r.None? ==> forall j :: 0 <= j < |h| ==> h[j].content != content
  {
    if h == [] then None
    else if h[0].content == content then Some(0)
    else match FirstMatch(h[1..], content)
      case None => None
      case Some(k) => Some(k + 1)
  }

  /** Two histories with the same contents in the same order have the same first match. */
  lemma SameFirstMatch(h: seq<ClipboardItem>, g: seq<ClipboardItem>, content: string)
    requires |h| == |g| && forall i :: 0 <= i < |h| ==> h[i].content == g[i].content
    ensures FirstMatch(h, content) == FirstMatch(g, content)
  {
    var a, b := FirstMatch(h, content), FirstMatch(g, content);
    if a.Some? {
      assert b.Some? && b.value == a.value;
    } else {
      assert b.None?;
    }
  }

  // ---------------------------------------------------------------------
  // Favourites, tags and cleanup as changes to one entry or to the list
  // ---------------------------------------------------------------------

  /** `toggle_favorite`: the first entry with this content has its favourite flag flipped. */
  function Toggled(h: seq<ClipboardItem>, content: string): seq<ClipboardItem> {
    match FirstMatch(h, content)
    case None => h
    case Some(k) => h[k := h[k].(isFavorite := !h[k].isFavorite)]
  }

  /** Toggling twice restores the history. */
  lemma ToggleTwice(h: seq<ClipboardItem>, content: string)
    ensures Toggled(Toggled(h, content), content) == h
  {
    SameFirstMatch(h, Toggled(h, content), content);
  }

  /** An entry toggled from not favourite shows up among the favourites, and only the flag of that entry changes. */
  lemma ToggleShowsFavorite(h: seq<ClipboardItem>, content: string)
    requires FirstMatch(h, content).Some? && !h[FirstMatch(h, content).value].isFavorite
    ensures content in LoadFavorites(Toggled(h, content))
    ensures var r := Toggled(h, content);
      |r| == |h| && forall i :: 0 <= i < |h| ==> r[i].content == h[i].content && r[i].tags == h[i].tags && r[i].timestamp == h[i].timestamp
  {
    var k := FirstMatch(h, content).value;
    assert Toggled(h, content)[k].isFavorite;
  }

  /** No tag occurs twice. */
  predicate NoDuplicates(tags: seq<string>) {
    forall i, j :: 0 <= i < j < |tags| ==> tags[i] != tags[j]
  }

  /** The tag list after `add_tag_to_item`: pushed unless already present. */
  function WithTag(tags: seq<string>, tag: string): seq<string> {
    if tag in tags then tags else tags + [tag]
  }

  /** The tag list after `remove_tag_from_item`: `retain(|t| t != tag)`. */
  function WithoutTag(tags: seq<string>, tag: string): (r: seq<string>)
    ensures forall t :: t in r <==> t in tags && t != tag
    ensures |r| <= |tags|
  {
    if tags == [] then []
    else (if tags[0] == tag then [] else [tags[0]]) + WithoutTag(tags[1..], tag)
  }

  /** `add_tag_to_item` on the first entry with this content. */
  function TagAdded(h: seq<ClipboardItem>, content: string, tag: string): seq<ClipboardItem> {
    match FirstMatch(h, content)
    case None => h
    case Some(k) => h[k := h[k].(tags := WithTag(h[k].tags, tag))]
  }

  /** `remove_tag_from_item` on the first entry with this content. */
  function TagRemoved(h: seq<ClipboardItem>, content: string, tag: string): seq<ClipboardItem> {
    match FirstMatch(h, content)
    case None => h
    case Some(k) => h[k := h[k].(tags := WithoutTag(h[k].tags, tag))]
  }

  /** Adding a tag keeps a duplicate-free tag list duplicate-free, holds the tag afterwards, and a second add changes nothing. */
  lemma AddTagIdempotent(h: seq<ClipboardItem>, content: string, tag: string)
    ensures TagAdded(TagAdded(h, content, tag), content, tag) == TagAdded(h, content, tag)
    ensures FirstMatch(h, content).Some? ==> tag in TagAdded(h, content, tag)[FirstMatch(h, content).value].tags
    ensures FirstMatch(h, content).Some? && NoDuplicates(h[FirstMatch(h, content).value].tags) ==>
      NoDuplicates(TagAdded(h, content, tag)[FirstMatch(h, content).value].tags)
  {
    SameFirstMatch(h, TagAdded(h, content, tag), content);
  }

  lemma {:induction false} WithoutAbsent(tags: seq<string>, tag: string)
    requires tag !in tags
    ensures WithoutTag(tags, tag) == tags
  {
    if tags != [] {
      WithoutAbsent(tags[1..], tag);
      assert tags == [tags[0]] + tags[1..];
    }
  }

  lemma {:induction false} WithoutAppend(a: seq<string>, b: seq<string>, tag: string)
    ensures WithoutTag(a + b, tag) == WithoutTag(a, tag) + WithoutTag(b, tag)
  {
    if a != [] {
      assert (a + b)[1..] == a[1..] + b;
      WithoutAppend(a[1..], b, tag);
    } else {
      assert a + b == b;
    }
  }

  /** Removing a tag takes every copy of it from the first matching entry and touches no other entry. */
  lemma RemoveTagEffect(h: seq<ClipboardItem>, content: string, tag: string)
    ensures |TagRemoved(h, content, tag)| == |h|
    ensures FirstMatch(h, content).Some? ==> tag !in TagRemoved(h, content, tag)[FirstMatch(h, content).value].tags
    ensures forall i :: 0 <= i < |h| && FirstMatch(h, content) != Some(i) ==> TagRemoved(h, content, tag)[i] == h[i]
  {
  }

  /** Removing a tag that was just added to an entry lacking it restores the history. */
  lemma RemoveAfterAdd(h: seq<ClipboardItem>, content: string, tag: string)
    requires FirstMatch(h, content).Some? ==> tag !in h[FirstMatch(h, content).value].tags
    ensures TagRemoved(TagAdded(h, content, tag), content, tag) == h
  {
    SameFirstMatch(h, TagAdded(h, content, tag), content);
    if FirstMatch(h, content).Some? {
      var k := FirstMatch(h, content).value;
      var added := TagAdded(h, content, tag);
      assert added[k].tags == h[k].tags + [tag];
      WithoutAppend(h[k].tags, [tag], tag);
      WithoutAbsent(h[k].tags, tag);
      assert WithoutTag([tag], tag) == [] by {
        assert [tag][1..] == [];
      }
      assert WithoutTag(added[k].tags, tag) == h[k].tags;
      assert FirstMatch(added, content) == Some(k);
      assert TagRemoved(added, content, tag) == added[k := added[k].(tags := h[k].tags)];
      assert added[k].(tags := h[k].tags) == h[k];
    }
  }

  /** The cleanup test for one entry, given that its age does not underflow: a favourite, or no older than the limit. */
  predicate Keep(item: ClipboardItem, maxAge: nat, now: nat)
    requires item.isFavorite || item.timestamp <= now
  {
    item.isFavorite || now - item.timestamp <= maxAge
  }

  /** `now - timestamp` is computed for every entry that is not a favourite. */
  predicate AgesDefined(h: seq<ClipboardItem>, now: nat) {
    forall k :: 0 <= k < |h| ==> h[k].isFavorite || h[k].timestamp <= now
  }

  /** The filter of `cleanup_old_items`. */
  function Kept(h: seq<ClipboardItem>, maxAge: nat, now: nat): (r: seq<ClipboardItem>)
    requires AgesDefined(h, now)
    ensures |r| <= |h| && AgesDefined(r, now)
    ensures forall x :: x in r <==> x in h && Keep(x, maxAge, now)
  {
    if h == [] then []
    else
      assert forall k :: 0 < k < |h| ==> h[k] == h[1..][k - 1];
      (if Keep(h[0], maxAge, now) then [h[0]] else []) + Kept(h[1..], maxAge, now)
  }

  /**
   * The cleanup is an order-preserving filter: it distributes over
   * concatenation and keeps a single entry exactly when `Keep` holds, so
   * the removed count `original_count - filtered.len()` is the number of
   * entries dropped.
   */
  lemma {:induction false} KeptAppend(a: seq<ClipboardItem>, b: seq<ClipboardItem>, x: ClipboardItem, maxAge: nat, now: nat)
    requires AgesDefined(a + b, now) && (x.isFavorite || x.timestamp <= now)
    ensures AgesDefined(a, now) && AgesDefined(b, now) && AgesDefined([x], now)
    ensures Kept(a + b, maxAge, now) == Kept(a, maxAge, now) + Kept(b, maxAge, now)
    ensures Kept([x], maxAge, now) == if Keep(x, maxAge, now) then [x] else []
  {
    KeptOne(x, maxAge, now);
    AgesSplit(a, b, now);
    if a != [] {
      var c := a + b;
      assert c[0] == a[0] && c[1..] == a[1..] + b;
      KeptAppend(a[1..], b, x, maxAge, now);
      var head := if Keep(a[0], maxAge, now) then [a[0]] else [];
      assert Kept(c, maxAge, now) == head + Kept(a[1..] + b, maxAge, now);
      assert Kept(a, maxAge, now) == head + Kept(a[1..], maxAge, now);
    } else {
      assert a + b == b;
    }
  }

  lemma KeptOne(x: ClipboardItem, maxAge: nat, now: nat)
    requires x.isFavorite || x.timestamp <= now
    ensures AgesDefined([x], now)
    ensures Kept([x], maxAge, now) == if Keep(x, maxAge, now) then [x] else []
  {
    assert [x][1..] == [];
  }

  lemma AgesSplit(a: seq<ClipboardItem>, b: seq<ClipboardItem>, now: nat)
    requires AgesDefined(a + b, now)
    ensures AgesDefined(a, now) && AgesDefined(b, now)
  {
    forall k | 0 <= k < |a|
      ensures a[k].isFavorite || a[k].timestamp <= now
    {
      assert a[k] == (a + b)[k];
    }
    forall k | 0 <= k < |b|
      ensures b[k].isFavorite || b[k].timestamp <= now
    {
      assert b[k] == (a + b)[|a| + k];
    }
  }

  /** A second cleanup at the same time removes nothing. */
  lemma {:induction false} CleanupIdempotent(h: seq<ClipboardItem>, maxAge: nat, now: nat)
    requires AgesDefined(h, now)
    ensures Kept(Kept(h, maxAge, now), maxAge, now) == Kept(h, maxAge, now)
  {
    if h != [] {
      CleanupIdempotent(h[1..], maxAge, now);
      var rest := Kept(h[1..], maxAge, now);
      if Keep(h[0], maxAge, now) {
        var r := [h[0]] + rest;
        assert Kept(h, maxAge, now) == r;
        assert r[0] == h[0] && r[1..] == rest;
        assert Kept(r, maxAge, now) == [h[0]] + Kept(rest, maxAge, now);
      } else {
        assert Kept(h, maxAge, now) == rest;
      }
    }
  }

  /** Every favourite survives a cleanup. */
  lemma CleanupKeepsFavorites(h: seq<ClipboardItem>, maxAge: nat, now: nat, x: ClipboardItem)
    requires AgesDefined(h, now) && x in h && x.isFavorite
    ensures x in Kept(h, maxAge, now)
  {
  }

  /** The list `import_history` stores: existing and imported entries, sorted by content, one per content, at most 100. */
  function Merged(h: seq<ClipboardItem>, imported: seq<ClipboardItem>): seq<ClipboardItem> {
    var d := DedupBy(SortBy(h + imported, Content), Content);
    if |d| > IMPORT_LIMIT then d[..IMPORT_LIMIT] else d
  }

  /** The imported history is sorted by content with no content twice, and holds at most 100 entries. */
  lemma MergedSorted(h: seq<ClipboardItem>, imported: seq<ClipboardItem>)
    ensures StrictlySortedBy(Merged(h, imported), Content) && |Merged(h, imported)| <= IMPORT_LIMIT
  {
    var d := DedupBy(SortBy(h + imported, Content), Content);
    assert StrictlySortedBy(d, Content);
  }

  /** Every imported-history entry comes from the existing or the imported list. */
  lemma MergedFrom(h: seq<ClipboardItem>, imported: seq<ClipboardItem>)
    ensures forall x :: x in Merged(h, imported) ==> x in h || x in imported
  {
    var s := SortBy(h + imported, Content);
    var d := DedupBy(s, Content);
    forall x | x in Merged(h, imported)
      ensures x in h || x in imported
    {
      assert x in d;
      assert x in multiset(s);
      assert x in multiset(h + imported);
    }
  }

  /** Unless the cap of 100 cut it, the imported history keeps every content of the two lists. */
  lemma MergedKeys(h: seq<ClipboardItem>, imported: seq<ClipboardItem>)
    ensures |DedupBy(SortBy(h + imported, Content), Content)| <= IMPORT_LIMIT ==>
      Keys(Merged(h, imported), Content) == Keys(h + imported, Content)
  {
    KeysPermuted(SortBy(h + imported, Content), h + imported, Content);
  }

  /** An existing history with a content twice shrinks on import, so the added count `new - old` underflows. */
  lemma ImportUnderflowExample()
    ensures var x := ClipboardItem("x|1", 1, false, []);
      |Merged([x, x], [])| == 1
  {
    var x := ClipboardItem("x|1", 1, false, []);
    LexLeTotal(x.content, x.content);
    assert SortBy([x], Content) == [x] by {
      assert [x][1..] == [];
    }
    assert [x, x][1..] == [x];
    assert SortBy([x, x], Content) == InsertBy(x, [x], Content);
    assert InsertBy(x, [x], Content) == [x, x];
    assert [x, x] + [] == [x, x];
    assert [x] + [x, x][2..] == [x];
    assert DedupBy([x, x], Content) == DedupBy([x], Content);
    assert DedupBy([x], Content) == [x];
    assert Merged([x, x], []) == [x];
  }

  // ---------------------------------------------------------------------
  // Statistics
  // ---------------------------------------------------------------------

  predicate IsImage(item: ClipboardItem) {
    IMAGE_PREFIX <= item.content
  }

  function CountFavorites(h: seq<ClipboardItem>): (n: nat)
    ensures n <= |h|
  {
    if h == [] then 0 else (if h[0].isFavorite then 1 else 0) + CountFavorites(h[1..])
  }

  function CountImages(h: seq<ClipboardItem>): (n: nat)
    ensures n <= |h|
  {
    if h == [] then 0 else (if IsImage(h[0]) then 1 else 0) + CountImages(h[1..])
  }

  function CountTexts(h: seq<ClipboardItem>): (n: nat)
    ensures n + CountImages(h) == |h|
  {
    if h == [] then 0 else (if IsImage(h[0]) then 0 else 1) + CountTexts(h[1..])
  }

  /** The favourite count is the number of contents `load_favorites` lists. */
  lemma {:induction false} FavoritesCounted(h: seq<ClipboardItem>)
    ensures CountFavorites(h) == |LoadFavorites(h)|
  {
    if h != [] {
      FavoritesCounted(h[1..]);
    }
  }

  lemma {:induction false} CountImagesAppend(a: seq<ClipboardItem>, b: seq<ClipboardItem>)
    ensures CountImages(a + b) == CountImages(a) + CountImages(b)
  {
    if a != [] {
      assert (a + b)[0] == a[0] && (a + b)[1..] == a[1..] + b;
      CountImagesAppend(a[1..], b);
    } else {
      assert a + b == b;
    }
  }

  /** The image count is the number of indices whose content starts with "[Image]". */
  lemma {:induction false} ImagesCounted(h: seq<ClipboardItem>)
    ensures CountImages(h) == |set k | 0 <= k < |h| && IsImage(h[k])|
    decreases |h|
  {
    if h != [] {
      var t, x := h[..|h| - 1], h[|h| - 1];
      assert h == t + [x];
      CountImagesAppend(t, [x]);
      ImagesCounted(t);
      var all := set k | 0 <= k < |h| && IsImage(h[k]);
      var before := set k | 0 <= k < |t| && IsImage(t[k]);
      if IsImage(x) {
        assert all == before + {|t|};
      } else {
        assert all == before;
      }
    }
  }

  /** `min()` of the timestamps, 0 for an empty history. */
  function Earliest(h: seq<ClipboardItem>): (t: nat)
    ensures h == [] ==> t == 0
    ensures h != [] ==> (exists k :: 0 <= k < |h| && h[k].timestamp == t) && forall k :: 0 <= k < |h| ==> t <= h[k].timestamp
  {
    if |h| <= 1 then (if h == [] then 0 else h[0].timestamp)
    else
      var m := Earliest(h[1..]);
      assert forall k :: 0 < k < |h| ==> h[k] == h[1..][k - 1];
      if h[0].timestamp <= m then h[0].timestamp else m
  }

  /** `max()` of the timestamps, 0 for an empty history. */
  function Latest(h: seq<ClipboardItem>): (t: nat)
    ensures h == [] ==> t == 0
    ensures h != [] ==> (exists k :: 0 <= k < |h| && h[k].timestamp == t) && forall k :: 0 <= k < |h| ==> h[k].timestamp <= t
  {
    if |h| <= 1 then (if h == [] then 0 else h[0].timestamp)
    else
      var m := Latest(h[1..]);
      assert forall k :: 0 < k < |h| ==> h[k] == h[1..][k - 1];
      if h[0].timestamp >= m then h[0].timestamp else m
  }

  datatype Statistics = Statistics(
    totalItems: nat, favoriteItems: nat, textItems: nat, imageItems: nat,
    earliestTimestamp: nat, latestTimestamp: nat)

  /** `get_clipboard_statistics`, without the top tags. */
  function Stats(h: seq<ClipboardItem>): Statistics {
    Statistics(|h|, CountFavorites(h), CountTexts(h), CountImages(h), Earliest(h), Latest(h))
  }

  /** Text and image entries split the total, favourites are part of it, and the date range covers every entry. */
  lemma StatsSpec(h: seq<ClipboardItem>)
    ensures var s := Stats(h);
      s.textItems + s.imageItems == s.totalItems && s.favoriteItems <= s.totalItems &&
      s.earliestTimestamp <= s.latestTimestamp &&
      forall k :: 0 <= k < |h| ==> s.earliestTimestamp <= h[k].timestamp <= s.latestTimestamp
  {
    if h != [] {
      assert Earliest(h) <= h[0].timestamp <= Latest(h);
    }
  }

  /** `get_all_tags`: every entry's tags gathered, then sorted and de-duplicated. */
  method AllTags(h: seq<ClipboardItem>) returns (r: seq<string>)
    ensures StrictlySortedBy(r, Id)
    ensures forall t :: t in r <==> exists k :: 0 <= k < |h| && t in h[k].tags
  {
    var tags: seq<string> := [];
    for i := 0 to |h|
      invariant forall t :: t in tags <==> exists k :: 0 <= k < i && t in h[k].tags
    {
      tags := tags + h[i].tags;
    }
    var sorted := SortBy(tags, Id);
    r := DedupBy(sorted, Id);
    forall t
      ensures t in r <==> t in tags
    {
      KeysMembers(r, t);
      KeysMembers(sorted, t);
      assert t in sorted <==> t in multiset(tags);
    }
  }

  /** With the identity key, a key occurs exactly when the element does. */
  lemma KeysMembers(s: seq<string>, t: string)
    ensures t in Keys(s, Id) <==> t in s
  {
    if t in s {
      var i :| 0 <= i < |s| && s[i] == t;
      assert Id(s[i]) == t;
    }
  }

  // ---------------------------------------------------------------------
  // The stored history and the commands that rewrite it
  // ---------------------------------------------------------------------

  class History {
    /** The list under the store's "history" key. */
    var items: seq<ClipboardItem>

    constructor (items: seq<ClipboardItem>)
      ensures this.items == items
    {
      this.items := items;
    }

    /** `save_clipboard_history`, with the intended uniqueness test. */
    method Save(text: string, now: nat)
      modifies this
      ensures items == Saved(old(items), text, now)
    {
      if IsBlank(text) {
        return;
      }
      if !TextExists(items, text) {
        items := [NewItem(text, now)] + items;
        if |items| > HISTORY_LIMIT {
          items := items[..HISTORY_LIMIT];
        }
      }
    }

    /** `toggle_favorite`: returns the entry's new flag, or false when no entry has this content. */
    method ToggleFavorite(content: string) returns (isNowFavorite: bool)
      modifies this
      ensures items == Toggled(old(items), content)
      ensures isNowFavorite <==> exists k :: FirstMatch(old(items), content) == Some(k) && items[k].isFavorite
    {
      isNowFavorite := false;
      var i := 0;
      while i < |items|
        invariant 0 <= i <= |items| && items == old(items)
        invariant forall j :: 0 <= j < i ==> items[j].content != content
      {
        if items[i].content == content {
          items := items[i := items[i].(isFavorite := !items[i].isFavorite)];
          isNowFavorite := items[i].isFavorite;
          break;
        }
        i := i + 1;
      }
    }

    /** `add_tag_to_item`. */
    method AddTag(content: string, tag: string)
      modifies this
      ensures items == TagAdded(old(items), content, tag)
    {
      var i := 0;
      while i < |items|
        invariant 0 <= i <= |items| && items == old(items)
        invariant forall j :: 0 <= j < i ==> items[j].content != content
      {
        if items[i].content == content {
          if tag !in items[i].tags {
            items := items[i := items[i].(tags := items[i].tags + [tag])];
          }
          break;
        }
        i := i + 1;
      }
    }

    /** `remove_tag_from_item`. */
    method RemoveTag(content: string, tag: string)
      modifies this
      ensures items == TagRemoved(old(items), content, tag)
    {
      var i := 0;
      while i < |items|
        invariant 0 <= i <= |items| && items == old(items)
        invariant forall j :: 0 <= j < i ==> items[j].content != content
      {
        if items[i].content == content {
          items := items[i := items[i].(tags := WithoutTag(items[i].tags, tag))];
          break;
        }
        i := i + 1;
      }
    }

    /** `cleanup_old_items`: the number of entries removed, or None when a non-favourite's age underflows. */
    method Cleanup(maxAge: nat, now: nat) returns (removed: Option<nat>)
      modifies this
      ensures AgesDefined(old(items), now) ==>
        items == Kept(old(items), maxAge, now) && removed == Some(|old(items)| - |items|)
      ensures !AgesDefined(old(items), now) ==> items == old(items) && removed == None
    {
      if !AgesDefined(items, now) {
        return None;
      }
      var originalCount := |items|;
      items := Kept(items, maxAge, now);
      removed := Some(originalCount - |items|);
    }

    /** `import_history`: the number of entries added, or None when the list shrank and the count underflows. */
    method Import(imported: seq<ClipboardItem>) returns (added: Option<nat>)
      modifies this
      ensures |Merged(old(items), imported)| >= |old(items)| ==>
        items == Merged(old(items), imported) && added == Some(|items| - |old(items)|)
      ensures |Merged(old(items), imported)| < |old(items)| ==> items == old(items) && added == None
    {
      var originalCount := |items|;
      var existing := items + imported;
      existing := SortBy(existing, Content);
      existing := DedupBy(existing, Content);
      if |existing| > IMPORT_LIMIT {
        existing := existing[..IMPORT_LIMIT];
      }
      assert existing == Merged(old(items), imported);
      if |existing| < originalCount {
        return None;
      }
      items := existing;
      added := Some(|existing| - originalCount);
    }
  }
}
