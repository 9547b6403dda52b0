# Emoji autocomplete: a Dafny model

This project models the core of an Obsidian plugin that suggests emoji while
you type a `:shortcode`. It also replaces shortcodes with emoji in the
rendered reading view. The model covers these parts:

- **The plugin object** (`Main.Plugin`). It holds the settings record, the
  catalogue of emoji entries, the entry list and the shortcode list.
  `updateEmojiList` builds the shortcode list as an insertion-ordered set of
  every entry's names. `updateHistory` moves a chosen suggestion to the front
  of the recency history, drops duplicates and cuts the history to the
  configured limit.
- **The editor suggester** (`Suggester`). `onTrigger` finds the `:\S+` run
  that ends at the cursor. `getSuggestions` drops the first `:`, lower-cases
  the query and keeps the entries that have a name containing it.
- **The reading-view post-processor** (`PostProcessor`). It scans the
  rendered text for `:name:` shortcodes with a global regular expression.
  Then, for each match, it walks the rendered tree and replaces the first
  occurrence in every text leaf. It leaves alone elements whose tag names
  mention `code` or `mjx`.
- **Helpers** (`Util`):
  - the guard that keeps suggestions out of code and math tokens;
  - the split of a shortcode into plain and highlighted runs from a flat
    list of offset pairs.
- **Settings** (`Settings`, `SettingsTab`). This covers:
  - the defaults;
  - the history-limit box, which falls back to the default when empty and
    caps the value at 100;
  - the "Clear history" and "Re-check emoji support" resets;
  - every toggle. Each toggle writes one field, then saves, and saving
    rebuilds both lists.

The model reproduces several JavaScript built-ins:

- `Array.prototype.slice` and `String.prototype.slice`, including negative
  and `undefined` bounds (`Lists.Slice`, `Lists.RelativeIndex`);
- `indexOf`, `lastIndexOf`, `includes`, and `replace` with a string pattern,
  which replaces the first occurrence only (`Strings`);
- the `\s` class, as its exact set of code points;
- `Array.from(new Set(xs))` (`Lists.Dedup`).

Integers are unbounded. `historyLimit` is an `int` because the settings tab
sets no lower bound.

The `shortcode → emoji` lookup is a map parameter. The function that would
provide it is commented out in the source. Every shortcode the processor
looks up must be in the map (a `requires`). The element's `innerText` is a
parameter too, since it depends on layout.

## Model

| member | source | states |
|---|---|---|
| Strings.IndexOf | src/util.ts:9 | `-1` exactly when the substring does not occur; otherwise an occurrence with none before it |
| Strings.Includes | src/main.ts:94 | true exactly when the substring occurs somewhere |
| Strings.LastIndexOf | src/main.ts:85 | `-1` exactly when there is no occurrence; otherwise an occurrence with none after it; a suffix is found at `|s| - |sub|` |
| Strings.ReplaceFirst | src/emojiPostProcessor.ts:20 | without an occurrence the string is unchanged; otherwise only the first occurrence is replaced |
| Strings.Lower | src/main.ts:93 | same length; ASCII capitals mapped to lower case, every other character kept |
| Strings.IsSpace | src/emojiPostProcessor.ts:5 | a character is in the `\s` class exactly when it is one of the ECMAScript white-space or line-terminator code points: tab, line feed, vertical tab, form feed, carriage return, space, no-break space, U+1680, U+2000 to U+200A, U+2028, U+2029, U+202F, U+205F, U+3000 and U+FEFF |
| Lists.Dedup | src/main.ts:43 | `Array.from(new Set(xs))`: no value twice and never longer than the input; its members and order are stated by the two lemmas below |
| Lists.DedupMembers | src/main.ts:39-43 | the set keeps exactly the values of its input |
| Lists.DedupFirstOccurrenceOrder | src/main.ts:43 | the values come out in the order of their first insertion |
| Lists.DedupCons | src/main.ts:50 | a set built from `[s, ...h]` is `s` followed by the set of `h` without `s` |
| Lists.SliceCases | src/main.ts:51 | `slice` within bounds is the subsequence; `slice(0, k)` is the prefix up to the relative index of `k`; reversed bounds give nothing |
| Lists.RelativeIndex | src/util.ts:26-29 | a bound in `0..n` is kept, a bound past the end is `n`, a negative bound counts back from the end, and one reaching back past the start is 0 |
| Lists.Slice | src/main.ts:51 | `slice(start, end)` with optional bounds: never longer than the input; what it selects is stated by `SliceCases` |
| Main.AllNames | src/main.ts:40-42 | the walk over every entry and each of its names in order; `AllNamesMembers` states that it holds every name of every entry and nothing else |
| Main.ShortcodeIndex | src/main.ts:39-43 | the de-duplicated walk; `ShortcodeIndexIsOrderedNameSet` states its contents and order |
| Main.ShortcodeIndexIsOrderedNameSet | src/main.ts:39-43 | the shortcode list has no duplicates, contains every name of every entry and nothing else, in first-occurrence order |
| Main.AddNewNames | src/main.ts:41 | adding one entry's names to the set appends the new ones in order, and the set tracks the list |
| Main.Plugin.UpdateEmojiList | src/main.ts:35-45 | the entry list is the catalogue, the shortcode list is the ordered name set, and the settings are unchanged |
| Main.Plugin.constructor | src/main.ts:25-28 | the loaded settings are stored and both lists are built |
| Main.Plugin.SaveSettings | src/main.ts:30-33 | settings unchanged, both lists rebuilt |
| Main.Plugin.UpdateHistory | src/main.ts:47-55 | nothing changes unless `historyPriority` is set; otherwise only the history changes, to the recorded history, and the lists are rebuilt |
| Main.RecordHistory | src/main.ts:50-51 | the suggestion put in front of the history, de-duplicated, then `slice(0, limit)`; the lemmas below state its bounds, order and idempotence |
| Main.RecordHistoryBounds | src/main.ts:50-51 | the new history has no duplicates, respects a non-negative limit, starts with the suggestion when the limit is at least 1, and holds only old entries or the suggestion |
| Main.RecordHistoryNegativeLimit | src/main.ts:51 | a negative limit drops that many entries from the back of the de-duplicated history, and empties it once the limit reaches back past the start |
| Main.RecordHistoryMovesToFront | src/main.ts:50-51 | for a duplicate-free history: the suggestion first, then the other entries in their old order, cut to the limit |
| Main.RecordHistoryIdempotent | src/main.ts:50-51 | choosing the same suggestion twice in a row gives the same history as choosing it once (non-negative limit) |
| Main.RepeatedFrontIsKept | src/main.ts:50 | re-adding the entry that is already first leaves a duplicate-free history unchanged |
| Main.NegativeLimitIsNotIdempotent | src/main.ts:51 | with limit `-1`, history `[b, c]` and choice `a` give `[a, b]`, and choosing `a` again gives `[a]` |
| Suggester.QueryStart | src/main.ts:71 | the leftmost position where `:\S+$` matches, or none when there is no such position |
| Suggester.OnTrigger | src/main.ts:68-89 | none when the suggester is off or nothing matches before the cursor; otherwise the longest `:\S+` suffix before the cursor, starting `|query|` characters before the cursor and ending at it |
| Suggester.NormaliseQuery | src/main.ts:93 | a leading `:` is dropped before lower-casing; a query without `:` is only lower-cased |
| Suggester.FilterByName | src/main.ts:94 | the result is a subsequence of the list, each result has a name containing the query, and every such entry is kept with its multiplicity |
| Suggester.GetSuggestions | src/main.ts:92-95 | the catalogue entries with a name containing the normalised query: all of them, in order, and nothing else |
| PostProcessor.MatchEnd | src/emojiPostProcessor.ts:5 | a reported match is a whole `:name:` shortcode starting at the given position |
| PostProcessor.MatchEndFindsEveryShortcode | src/emojiPostProcessor.ts:5 | every shortcode starting at a position is the one reported there |
| PostProcessor.Scan | src/emojiPostProcessor.ts:5-10 | the global scan's spans lie within the text, are shortcodes, and do not overlap, in left-to-right order |
| PostProcessor.ScanCoversMatchStart | src/emojiPostProcessor.ts:10 | any position where a match could start is inside a reported span |
| PostProcessor.ScanMissesNothing | src/emojiPostProcessor.ts:10 | every shortcode in the text starts at or inside a reported match |
| PostProcessor.Shortcodes | src/emojiPostProcessor.ts:10-11 | the matched strings are the texts of the scanned spans, each a shortcode of at least three characters |
| PostProcessor.IsSkipped | src/emojiPostProcessor.ts:16 | the lower-cased tag name contains `code` or `mjx` |
| PostProcessor.EmojiReplace | src/emojiPostProcessor.ts:15-22 | a skipped element comes back unchanged; a text leaf has its first occurrence of the shortcode replaced by the emoji, and is unchanged when there is none |
| PostProcessor.EmojiReplacePreservesShape | src/emojiPostProcessor.ts:15-22 | only text changes: tags and the arity and order of children stay the same |
| PostProcessor.UnmentionedIsUnchanged | src/emojiPostProcessor.ts:15-22 | a tree whose reachable text never contains the shortcode comes back unchanged |
| PostProcessor.EmojiReplaceReachesEveryLeaf | src/emojiPostProcessor.ts:15-22 | along every path of child indices that enters only non-skipped elements: a text leaf reached has its first occurrence of the shortcode replaced, and a skipped element reached keeps its whole subtree |
| PostProcessor.ReplaceAll | src/emojiPostProcessor.ts:12 | each match applied in turn to the whole tree; `ReplaceAllReachesEveryLeaf` states its effect on each leaf |
| PostProcessor.ReplaceAllReachesEveryLeaf | src/emojiPostProcessor.ts:12 | every reached text leaf gets each shortcode's first occurrence replaced in turn, as if the matches were applied to that leaf alone; every reached skipped element is unchanged |
| PostProcessor.EmojiProcessor | src/emojiPostProcessor.ts:9-13 | the result is every match applied in turn to the whole tree; with no match the tree is unchanged; the shape is kept; a skipped root is unchanged; every text leaf reached outside skipped elements holds its own text with each match replaced in turn, and every skipped element reached keeps its subtree |
| Util.CheckForInputBlock | src/util.ts:3-10 | allowed when the token type is not a string; otherwise allowed exactly when it contains neither `code` nor `math` |
| Util.CodeAndMathTokensBlock | src/util.ts:9 | `inline-code`, `codeblock` and `math` tokens block suggestions; `em` does not |
| Util.SlimHighlight | src/util.ts:24-32 | the appended runs are exactly the runs that the offsets define |
| Util.RunsAt | src/util.ts:26-30 | run `k` of the built list is the `k`-th slice between consecutive offsets |
| Util.SegmentsAlternate | src/util.ts:26-30 | runs alternate plain and highlighted, starting and ending plain, with one highlight per pair of offsets |
| Util.RunText | src/util.ts:26-29 | with ascending in-range offsets, run `k` is the text between offset `k - 1` (or the start) and offset `k` (or the end) |
| Util.PrefixReadsBack | src/util.ts:26-30 | the first runs read back the string up to the current offset |
| Util.SegmentsReadBack | src/util.ts:24-32 | with an even number of ascending offsets within the string, the runs read back the string exactly |
| Util.SegmentsFollowOffsets | src/util.ts:26-30 | the first run is `str[..r[0]]`, each highlight is `str[r[2k]..r[2k+1]]`, and the text after it runs to the next offset or to the end |
| Util.OddOffsetsRepeatTheString | src/util.ts:29 | with an odd number of offsets, the last plain run is the whole string again |
| Settings.NormaliseHistoryLimit | src/settings.ts:119-120 | empty input gives the default 25; numbers above 100 become 100; any other number is kept as typed |
| Settings.DefaultsAreNormalised | src/settings.ts:19-32 | about the `DefaultSettings` record: the default limit survives normalisation and lies in `1..100`; the history and support cache start empty; history and tag search are on |
| SettingsTab.SettingTab.constructor | src/settings.ts:37-40 | the tab is bound to the plugin |
| SettingsTab.SettingTab.OnSuggesterChange | src/settings.ts:55-58 | only `suggester` changes; lists rebuilt |
| SettingsTab.SettingTab.OnHighlightMatchesChange | src/settings.ts:66-69 | only `highlightMatches` changes; lists rebuilt |
| SettingsTab.SettingTab.OnTagSearchChange | src/settings.ts:77-81 | only `tagSearch` changes; lists rebuilt |
| SettingsTab.SettingTab.OnTagShowShortcodeChange | src/settings.ts:91-94 | only `tagShowShortcode` changes; lists rebuilt |
| SettingsTab.SettingTab.OnConsiderHistoryChange | src/settings.ts:104-108 | only `considerHistory` changes; lists rebuilt |
| SettingsTab.SettingTab.OnHistoryLimitChange | src/settings.ts:118-123 | only `historyLimit` changes, to the normalised input, which is at most 100; lists rebuilt |
| SettingsTab.SettingTab.OnClearHistory | src/settings.ts:131-134 | only the history changes, to empty; lists rebuilt |
| SettingsTab.SettingTab.OnHideUnsupportedChange | src/settings.ts:146-149 | only `hideUnsupported` changes; lists rebuilt |
| SettingsTab.SettingTab.OnRecheckSupport | src/settings.ts:158-161 | only the support cache changes, to empty; lists rebuilt |
| SettingsTab.SettingTab.OnImmediateReplaceChange | src/settings.ts:171-174 | only `immediateReplace` changes; lists rebuilt |
| SettingsTab.SettingTab.OnLatinizeChange | src/settings.ts:182-185 | only `latinize` changes; lists rebuilt |
| SettingsTab.SettingTab.OnPolyfillFlagsChange | src/settings.ts:193-196 | only `polyfillFlags` changes; lists rebuilt |

## Left out

- The fuzzy search in `onTrigger` (src/main.ts:75-81) is left out. The model assumes the fuzzy-search library returns non-null `info` and `order`; the loop then only logs to the console. When the library returns `null` for them, the read of `info.idx[order[i]]` at src/main.ts:80 throws and the source returns no trigger at all, which the model does not capture.
- `renderSuggestion` and `iconFactory`, all `createEl`, `Setting` and `Notice` work in `display()`, and the re-draws that `display()` performs after some toggles are left out. These are UI construction.
- `isEmojiSupported` (src/util.ts:50-91) is left out. It draws on a canvas and reads pixels.
- `selectSuggestion` (src/main.ts:103-108) is left out. It edits the editor buffer. Its call to `updateHistory` is commented out in the source.
- Persistence is left out: `loadData`/`saveData`, `async`/`await` ordering, and the `true`/`false` argument some handlers pass to `saveSettings`, which the declared method ignores. The constructor takes the loaded settings as a parameter, standing for the defaults overlaid with the persisted data.
- The dataset is left out. The emoji catalogue is a parameter of the plugin object.
- The post-processor's shortcode lookup is a map parameter. The map must contain every matched shortcode. In the source a missing shortcode would throw.
- `innerText` is a parameter of `EmojiProcessor`. It depends on CSS layout, so it is not computed from the tree.
- `EmojiProcessor`: the DOM is mutated in place in the source; the model returns a new tree value, so aliasing between DOM nodes is not captured.
- Positions are counted in Dafny characters, which are Unicode scalar values; the source counts UTF-16 code units (`cursor.ch`, `substring`, `lastIndexOf`, `slice`). A character outside the Basic Multilingual Plane, such as most emoji, is one position in the model and two in the source, so `Suggester.OnTrigger` positions and the `Util.SlimHighlight` offsets agree with the source only on text without such characters.
- Strings.Lower: only ASCII letters are lower-cased. Other Unicode case mappings are not modelled.
- Strings.ReplaceFirst: the `$` substitution patterns of `String.prototype.replace` are not modelled. A replacement emoji containing `$` would be inserted literally.
- Settings.NormaliseHistoryLimit: text that `Number()` turns into `NaN` or a fraction is not modelled. The input is the empty string or an integer.
- `historyPriority` is not declared in the settings interface. It is modelled as an extra boolean that is `false` in the defaults, standing for `undefined`. As a result `updateHistory` changes nothing unless persisted data sets it.
