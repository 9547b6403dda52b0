/**
 * The plugin object: the shortcode index built from the emoji catalogue and
 * the recency history of chosen suggestions.
 */
module Main {
  import opened Wrappers
  import opened Lists
  import opened Settings

  /** One catalogue entry: the glyph, its shortcode names (the first is the
      canonical one), its tags, and descriptive metadata. */
  datatype Gemoji = Gemoji(
    emoji: string,
    names: seq<string>,
    tags: seq<string>,
    description: string,
    category: string)

  /** Every name of every entry, walking the entries and their names in order. */
  function AllNames(catalogue: seq<Gemoji>): seq<string> {
    if catalogue == [] then []
    else AllNames(catalogue[..|catalogue| - 1]) + catalogue[|catalogue| - 1].names
  }

  /** The walk visits every name of every entry and nothing else. */
  lemma {:induction false} AllNamesMembers(catalogue: seq<Gemoji>)
    ensures forall k, j :: 0 <= k < |catalogue| && 0 <= j < |catalogue[k].names| ==>
      catalogue[k].names[j] in AllNames(catalogue)
    ensures forall x :: x in AllNames(catalogue) ==>
      exists k :: 0 <= k < |catalogue| && x in catalogue[k].names
  {
    if catalogue != [] {
      var p := catalogue[..|catalogue| - 1];
      var last := catalogue[|catalogue| - 1];
      AllNamesMembers(p);
      assert forall k :: 0 <= k < |p| ==> p[k] == catalogue[k];
      forall x | x in AllNames(catalogue)
        ensures exists k :: 0 <= k < |catalogue| && x in catalogue[k].names
      {
        if x in AllNames(p) {
          var k :| 0 <= k < |p| && x in p[k].names;
          assert catalogue[k] == p[k];
        } else {
          assert x in last.names;
        }
      }
    }
  }

  /** The shortcode list: the insertion-ordered set of all names. */
  function ShortcodeIndex(catalogue: seq<Gemoji>): seq<string> {
    Dedup(AllNames(catalogue))
  }

  /** The shortcode list holds every name of every entry exactly once, nothing
      else, ordered by the first occurrence of each name in the catalogue walk. */
  lemma ShortcodeIndexIsOrderedNameSet(catalogue: seq<Gemoji>)
    ensures NoDup(ShortcodeIndex(catalogue))
    ensures forall k, j :: 0 <= k < |catalogue| && 0 <= j < |catalogue[k].names| ==>
      catalogue[k].names[j] in ShortcodeIndex(catalogue)
    ensures forall i :: 0 <= i < |ShortcodeIndex(catalogue)| ==>
      exists k :: 0 <= k < |catalogue| && ShortcodeIndex(catalogue)[i] in catalogue[k].names
    ensures forall i, j :: 0 <= i < j < |ShortcodeIndex(catalogue)| ==>
      ShortcodeIndex(catalogue)[i] in AllNames(catalogue) && ShortcodeIndex(catalogue)[j] in AllNames(catalogue) &&
      FirstIndex(AllNames(catalogue), ShortcodeIndex(catalogue)[i]) <
      FirstIndex(AllNames(catalogue), ShortcodeIndex(catalogue)[j])
  {
    var all := AllNames(catalogue);
    AllNamesMembers(catalogue);
    DedupFirstOccurrenceOrder(all);
    DedupMembers(all);
    forall k, j | 0 <= k < |catalogue| && 0 <= j < |catalogue[k].names|
      ensures catalogue[k].names[j] in ShortcodeIndex(catalogue)
    {
      assert catalogue[k].names[j] in all;
    }
    forall i | 0 <= i < |ShortcodeIndex(catalogue)|
      ensures exists k :: 0 <= k < |catalogue| && ShortcodeIndex(catalogue)[i] in catalogue[k].names
    {
      var x := ShortcodeIndex(catalogue)[i];
      assert x in all;
      var m :| 0 <= m < |all| && all[m] == x;
    }
  }

  /** The history after choosing `suggestion`: put in front, duplicates
      dropped, cut to `limit` entries with JavaScript `slice` semantics. */
  function RecordHistory(history: seq<string>, suggestion: string, limit: int): seq<string> {
    Slice(Dedup([suggestion] + history), Some(0), Some(limit))
  }

  function Min(a: int, b: int): int {
    if a <= b then a else b
  }

  /** A recorded history has no duplicates, respects a non-negative limit and,
      when the limit admits an entry, starts with the chosen suggestion. */
  lemma RecordHistoryBounds(history: seq<string>, suggestion: string, limit: int)
    ensures NoDup(RecordHistory(history, suggestion, limit))
    ensures limit >= 0 ==> |RecordHistory(history, suggestion, limit)| <= limit
    ensures limit >= 1 ==>
      |RecordHistory(history, suggestion, limit)| >= 1 && RecordHistory(history, suggestion, limit)[0] == suggestion
    ensures forall i :: 0 <= i < |RecordHistory(history, suggestion, limit)| ==>
      RecordHistory(history, suggestion, limit)[i] in [suggestion] + history
  {
    DedupCons(suggestion, history);
    DedupMembers([suggestion] + history);
  }

  /** A negative limit counts from the back: the cut drops `-limit` entries
      from the de-duplicated history, and leaves nothing once that reaches
      back past the start. */
  lemma RecordHistoryNegativeLimit(history: seq<string>, suggestion: string, limit: int)
    requires limit < 0
    ensures |RecordHistory(history, suggestion, limit)| ==
      (if |Dedup([suggestion] + history)| + limit < 0 then 0 else |Dedup([suggestion] + history)| + limit)
    ensures |history| + 1 + limit <= 0 ==> RecordHistory(history, suggestion, limit) == []
  {
    SliceCases(Dedup([suggestion] + history), Some(0), Some(limit));
  }

  /** The chosen suggestion moves to the front and the other entries keep their
      relative order: for a history without duplicates the result is the
      history with the suggestion taken out and put in front, cut to the limit. */
  lemma RecordHistoryMovesToFront(history: seq<string>, suggestion: string, limit: int)
    requires NoDup(history)
    requires limit >= 0
    ensures RecordHistory(history, suggestion, limit) ==
      ([suggestion] + Without(history, suggestion))[..Min(limit, 1 + |Without(history, suggestion)|)]
  {
    var rest := Without(history, suggestion);
    var front := [suggestion] + rest;
    DedupCons(suggestion, history);
    WithoutKeepsNoDup(history, suggestion);
    DedupOfNoDup(rest);
    assert Dedup([suggestion] + history) == front;
    assert RelativeIndex(limit, |front|) == Min(limit, |front|);
  }

  /** Recording the same suggestion twice in a row is the same as recording it once. */
  lemma RecordHistoryIdempotent(history: seq<string>, suggestion: string, limit: int)
    requires limit >= 0
    ensures RecordHistory(RecordHistory(history, suggestion, limit), suggestion, limit) ==
      RecordHistory(history, suggestion, limit)
  {
    var once := RecordHistory(history, suggestion, limit);
    RecordHistoryBounds(history, suggestion, limit);
    if limit > 0 {
      RepeatedFrontIsKept(suggestion, once);
      assert Dedup([suggestion] + once) == once;
      assert RelativeIndex(limit, |once|) == |once|;
    } else {
      assert once == [];
    }
  }

  /** Putting in front an entry that is already first changes nothing. */
  lemma RepeatedFrontIsKept(s: string, xs: seq<string>)
    requires NoDup(xs) && |xs| > 0 && xs[0] == s
    ensures Dedup([s] + xs) == xs
  {
    var rest := xs[1..];
    assert xs == [s] + rest;
    assert s !in rest;
    WithoutSnocFront(s, rest);
    assert Without(xs, s) == rest;
    DedupOfNoDup(rest);
    assert Dedup(Without(xs, s)) == rest;
    DedupCons(s, xs);
  }

  lemma {:induction false} WithoutSnocFront(s: string, rest: seq<string>)
    requires s !in rest
    ensures Without([s] + rest, s) == rest
  {
    if rest == [] {
      assert Without([s], s) == Without([s][..0], s);
    } else {
      var p := rest[..|rest| - 1];
      var y := rest[|rest| - 1];
      assert [s] + rest == ([s] + p) + [y];
      WithoutSnoc([s] + p, y, s);
      WithoutSnocFront(s, p);
      assert p + [y] == rest;
    }
  }

  /** Without a lower bound on the limit, a negative limit keeps shrinking the
      history on every repeated choice. */
  lemma NegativeLimitIsNotIdempotent()
    ensures RecordHistory(["b", "c"], "a", -1) == ["a", "b"]
    ensures RecordHistory(RecordHistory(["b", "c"], "a", -1), "a", -1) == ["a"]
  {
    NegativeLimitFirstChoice();
    NegativeLimitSecondChoice();
  }

  lemma NegativeLimitFirstChoice()
    ensures RecordHistory(["b", "c"], "a", -1) == ["a", "b"]
  {
    var a: string := "a";
    var b: string := "b";
    var c: string := "c";
    var abc: seq<string> := [a, b, c];
    assert [a] + [b, c] == abc;
    assert abc[..2] == [a, b] && [a, b][..1] == [a] && [a][..0] == [];
    assert Dedup([a]) == [a];
    assert Dedup([a, b]) == [a, b];
    assert Dedup(abc) == abc;
  }

  lemma NegativeLimitSecondChoice()
    ensures RecordHistory(["a", "b"], "a", -1) == ["a"]
  {
    var a: string := "a";
    var b: string := "b";
    var aab: seq<string> := [a, a, b];
    assert [a] + [a, b] == aab;
    assert aab[..2] == [a, a] && [a, a][..1] == [a] && [a][..0] == [];
    assert Dedup([a]) == [a];
    assert Dedup([a, a]) == [a];
    assert Dedup(aab) == [a, b];
    assert [a, b][..1] == [a];
  }

  /** The inner loop of `updateEmojiList`: appends to `list` each of
      `names` that the `seen` set does not hold yet, adding it to `seen`. */
  method AddNewNames(list: seq<string>, seen: set<string>, ghost before: seq<string>, names: seq<string>)
    returns (grown: seq<string>, grownSeen: set<string>)
    requires list == Dedup(before)
    requires forall x :: x in seen <==> x in list
    ensures grown == Dedup(before + names)
    ensures forall x :: x in grownSeen <==> x in grown
  {
    grown, grownSeen := list, seen;
    assert before + names[..0] == before;
    for j := 0 to |names|
      invariant grown == Dedup(before + names[..j])
      invariant forall x :: x in grownSeen <==> x in grown
    {
      ghost var prefix := before + names[..j];
      var name := names[j];
      assert before + names[..j + 1] == prefix + [name];
      DedupSnoc(prefix, name);
      if name !in grownSeen {
        grownSeen := grownSeen + {name};
        grown := grown + [name];
      }
    }
    assert names[..|names|] == names;
  }

  /** The plugin object: the catalogue it was loaded with, its settings and
      the two lists built from the catalogue. */
  class Plugin {
    const catalogue: seq<Gemoji>
    var settings: Settings
    var emojiList: seq<Gemoji>
    var shortcodeList: seq<string>

    /** Both lists are up to date with the catalogue. */
    ghost predicate Valid()
      reads this
    {
      emojiList == catalogue && shortcodeList == ShortcodeIndex(catalogue)
    }

    /** Loading: `loaded` stands for the defaults overlaid with the persisted data. */
    constructor (catalogue: seq<Gemoji>, loaded: Settings)
      ensures this.catalogue == catalogue && settings == loaded
      ensures Valid()
    {
      this.catalogue := catalogue;
      settings := loaded;
      new;
      UpdateEmojiList();
    }

    /** Rebuilds the entry list and the shortcode list from the catalogue. */
    method UpdateEmojiList()
      modifies this
      ensures settings == old(settings)
      ensures emojiList == catalogue
      ensures shortcodeList == ShortcodeIndex(catalogue)
    {
      emojiList := catalogue;
      var seen: set<string> := {};
      var list: seq<string> := [];
      for i := 0 to |catalogue|
        invariant settings == old(settings) && emojiList == catalogue
        invariant list == Dedup(AllNames(catalogue[..i]))
        invariant forall x :: x in seen <==> x in list
      {
        list, seen := AddNewNames(list, seen, AllNames(catalogue[..i]), catalogue[i].names);
        assert catalogue[..i + 1][..i] == catalogue[..i];
      }
      assert catalogue[..|catalogue|] == catalogue;
      shortcodeList := list;
    }

    /** Persisting (not modelled) followed by the rebuild of both lists. */
    method SaveSettings()
      modifies this
      ensures settings == old(settings)
      ensures Valid()
    {
      UpdateEmojiList();
    }

    /** Records a chosen suggestion when the `historyPriority` flag is set;
      otherwise nothing changes. */
    method UpdateHistory(suggestion: string)
      modifies this
      ensures !old(settings.historyPriority) ==>
        settings == old(settings) && emojiList == old(emojiList) && shortcodeList == old(shortcodeList)
      ensures old(settings.historyPriority) ==>
        settings == old(settings).(history := RecordHistory(old(settings.history), suggestion, old(settings.historyLimit)))
      ensures old(settings.historyPriority) ==> Valid()
    {
      if !settings.historyPriority {
        return;
      }
      var unique := Dedup([suggestion] + settings.history);
      var history := Slice(unique, Some(0), Some(settings.historyLimit));
      settings := settings.(history := history);
      SaveSettings();
    }
  }
}

/**
 * The editor suggester: detecting a shortcode being typed before the cursor,
 * and filtering the catalogue by the typed query.
 */
module Suggester {
  import opened Wrappers
  import opened Strings
  import opened Lists
  import opened Main

  datatype Position = Position(line: nat, ch: nat)

  /** Where the suggestion popup applies: the typed range and the raw query. */
  datatype TriggerInfo = TriggerInfo(start: Position, end: Position, query: string)

  /** The pattern `:\S+$` matches `s` from index `p`: a colon followed by at
      least one non-whitespace character, all the way to the end of `s`. */
  predicate IsQueryAt(s: string, p: nat) {
    p + 2 <= |s| && s[p] == ':' && forall i :: p < i < |s| ==> !IsSpace(s[i])
  }

  /** The leftmost index at or after `from` where `:\S+$` matches, as a
      regular-expression engine tries start positions left to right. */
  function QueryStart(s: string, from: nat): (r: Option<nat>)
    decreases |s| - from
    ensures r.Some? ==> from <= r.value && IsQueryAt(s, r.value)
    ensures r.Some? ==> forall p: nat :: from <= p < r.value ==> !IsQueryAt(s, p)
    ensures r.None? ==> forall p: nat :: from <= p ==> !IsQueryAt(s, p)
  {
    if from + 2 > |s| then None
    else if IsQueryAt(s, from) then Some(from)
    else QueryStart(s, from + 1)
  }

  /** The text from a match of `:\S+$` to the end is a suffix that
      `lastIndexOf` finds where the match starts. */
  lemma QueryIsSuffix(s: string, p: nat)
    requires IsQueryAt(s, p)
    ensures |s[p..]| >= 2 && s[p..][0] == ':'
    ensures forall i :: 0 <= i < |s[p..]| ==> !IsSpace(s[p..][i])
    ensures s[|s| - |s[p..]|..] == s[p..]
    ensures LastIndexOf(s, s[p..]) == p
  {
    var q := s[p..];
    assert forall i :: 0 <= i < |q| ==> q[i] == s[p + i];
    assert s[|s| - |q|..] == q;
  }

  /** `onTrigger`: nothing when the suggester is off or when no `:\S+` runs up
      to the cursor; otherwise the longest such suffix of the line before the
      cursor, which starts `|query|` characters before the cursor. */
  function OnTrigger(suggester: bool, cursor: Position, line: string): (r: Option<TriggerInfo>)
    ensures !suggester ==> r.None?
    ensures suggester ==>
      (r.None? <==> forall p: nat :: !IsQueryAt(line[..Min(cursor.ch, |line|)], p))
    ensures r.Some? ==>
      var sub := line[..Min(cursor.ch, |line|)];
      var q := r.value.query;
      && |q| >= 2 && q[0] == ':'
      && (forall i :: 0 <= i < |q| ==> !IsSpace(q[i]))
      && |q| <= |sub| && sub[|sub| - |q|..] == q
      && (forall p: nat :: p < |sub| - |q| ==> !IsQueryAt(sub, p))
      && r.value.start == Position(cursor.line, |sub| - |q|)
      && r.value.end == cursor
    ensures r.Some? && cursor.ch <= |line| ==> r.value.start.ch == cursor.ch - |r.value.query|
  {
    if !suggester then None
    else
      var sub := line[..Min(cursor.ch, |line|)];
      match QueryStart(sub, 0)
      case None => None
      case Some(p) =>
        var query := sub[p..];
        QueryIsSuffix(sub, p);
        var start := LastIndexOf(sub, query);
        Some(TriggerInfo(Position(cursor.line, start), cursor, query))
  }

  /** The query as `getSuggestions` searches for it: the first `:` removed,
      then lower-cased. */
  function NormaliseQuery(query: string): (q: string)
    ensures |q| <= |query|
    ensures |query| > 0 && query[0] == ':' ==> q == Lower(query[1..])
    ensures !Occurs(query, ":") ==> q == Lower(query)
  {
    if |query| > 0 && query[0] == ':' then
      assert OccursAt(query, ":", 0);
      var r := ReplaceFirst(query, ":", "");
      assert r == query[1..];
      Lower(r)
    else
      Lower(ReplaceFirst(query, ":", ""))
  }

  /** Some name of the entry contains `q`. */
  predicate HasNameContaining(e: Gemoji, q: string) {
    exists n :: n in e.names && Includes(n, q)
  }

  /** `list.filter(e => e.names.some(n => n.includes(q)))`: the entries having
      a name that contains `q`, every one of them, in their order in `list`. */
  function FilterByName(list: seq<Gemoji>, q: string): (r: seq<Gemoji>)
    ensures IsSubsequence(r, list)
    ensures forall i :: 0 <= i < |r| ==> HasNameContaining(r[i], q)
    ensures forall e :: multiset(r)[e] == (if HasNameContaining(e, q) then multiset(list)[e] else 0)
  {
    if list == [] then []
    else
      var x := list[0];
      var rest := FilterByName(list[1..], q);
      var keep := HasNameContaining(x, q);
      var r := if keep then [x] + rest else rest;
      assert list == [x] + list[1..];
      assert multiset(list) == multiset{x} + multiset(list[1..]);
      assert multiset(r) == (if keep then multiset{x} else multiset{}) + multiset(rest);
      assert IsSubsequence(r, list) by {
        if keep {
          assert r[0] == list[0] && r[1..] == rest;
        } else if r != [] {
          assert IsSubsequence(r, list[1..]);
        }
      }
      r
  }

  /** `getSuggestions`: the catalogue entries having a name that contains the
      normalised query, each with its multiplicity, in catalogue order. */
  function GetSuggestions(emojiList: seq<Gemoji>, query: string): (r: seq<Gemoji>)
    ensures IsSubsequence(r, emojiList)
    ensures forall i :: 0 <= i < |r| ==> HasNameContaining(r[i], NormaliseQuery(query))
    ensures forall e ::
      multiset(r)[e] == (if HasNameContaining(e, NormaliseQuery(query)) then multiset(emojiList)[e] else 0)
  {
    FilterByName(emojiList, NormaliseQuery(query))
  }
}
