/**
 * The plugin's persisted settings record, its defaults and the normalisation
 * the settings tab applies to a typed history limit.
 */
module Settings {

  /** The settings record.  `historyPriority` is not one of the declared
      settings: the history recorder reads it anyway, so it is present here,
      `false` standing for the `undefined` it is unless persisted data holds it. */
  datatype Settings = Settings(
    immediateReplace: bool,
    suggester: bool,
    considerHistory: bool,
    historyLimit: int,
    history: seq<string>,
    highlightMatches: bool,
    emojiSupported: map<string, bool>,
    hideUnsupported: bool,
    tagSearch: bool,
    tagShowShortcode: bool,
    latinize: bool,
    polyfillFlags: bool,
    historyPriority: bool)

  const DefaultHistoryLimit: int := 25
  const MaxHistoryLimit: int := 100

  /** The defaults every setting falls back to. */
  const DefaultSettings: Settings := Settings(
    immediateReplace := true,
    suggester := true,
    considerHistory := true,
    historyLimit := DefaultHistoryLimit,
    history := [],
    highlightMatches := true,
    emojiSupported := map[],
    hideUnsupported := true,
    tagSearch := true,
    tagShowShortcode := false,
    latinize := true,
    polyfillFlags := false,
    historyPriority := false)

  /** What the history-limit text box delivers: the empty string, or a number. */
  datatype LimitInput = Empty | Number(n: int)

  /** The value stored for a typed history limit: the default for an empty box,
      at most `MaxHistoryLimit`, and otherwise the number as typed (there is no
      lower bound). */
  function NormaliseHistoryLimit(input: LimitInput): (limit: int)
    ensures limit <= MaxHistoryLimit
    ensures input.Empty? ==> limit == DefaultHistoryLimit
    ensures input.Number? && input.n > MaxHistoryLimit ==> limit == MaxHistoryLimit
    ensures input.Number? && input.n <= MaxHistoryLimit ==> limit == input.n
  {
    var v := if input.Number? then input.n else DefaultHistoryLimit;
    if v > MaxHistoryLimit then MaxHistoryLimit else v
  }

  /** The defaults agree with the limit rule: an empty box restores the default
      limit, which the clamp leaves unchanged, and the default history is empty. */
  lemma DefaultsAreNormalised()
    ensures NormaliseHistoryLimit(Empty) == DefaultSettings.historyLimit
    ensures NormaliseHistoryLimit(Number(DefaultSettings.historyLimit)) == DefaultSettings.historyLimit
    ensures 0 < DefaultSettings.historyLimit <= MaxHistoryLimit
    ensures DefaultSettings.history == [] && DefaultSettings.emojiSupported == map[]
    ensures DefaultSettings.considerHistory && DefaultSettings.tagSearch && !DefaultSettings.historyPriority
  {
  }
}

/**
 * The settings tab's change handlers.  Each writes one field of the plugin's
 * settings and then saves, which rebuilds the plugin's lists.
 */
module SettingsTab {
  import opened Settings
  import opened Main

  class SettingTab {
    const plugin: Plugin

    constructor (plugin: Plugin)
      ensures this.plugin == plugin
    {
      this.plugin := plugin;
    }

    /** "Emoji Suggester" toggle. */
    method OnSuggesterChange(value: bool)
      modifies plugin
      ensures plugin.settings == old(plugin.settings).(suggester := value)
      ensures plugin.Valid()
    {
      plugin.settings := plugin.settings.(suggester := value);
      plugin.SaveSettings();
    }

    /** "Highlight matched part of suggestion" toggle. */
    method OnHighlightMatchesChange(value: bool)
      modifies plugin
      ensures plugin.settings == old(plugin.settings).(highlightMatches := value)
      ensures plugin.Valid()
    {
      plugin.settings := plugin.settings.(highlightMatches := value);
      plugin.SaveSettings();
    }

    /** "Suggest by Tags" toggle (the tab is then redrawn). */
    method OnTagSearchChange(value: bool)
      modifies plugin
      ensures plugin.settings == old(plugin.settings).(tagSearch := value)
      ensures plugin.Valid()
    {
      plugin.settings := plugin.settings.(tagSearch := value);
      plugin.SaveSettings();
    }

    /** "Show shortcode on tag results" toggle. */
    method OnTagShowShortcodeChange(value: bool)
      modifies plugin
      ensures plugin.settings == old(plugin.settings).(tagShowShortcode := value)
      ensures plugin.Valid()
    {
      plugin.settings := plugin.settings.(tagShowShortcode := value);
      plugin.SaveSettings();
    }

    /** "Suggest recently used emoji" toggle (the tab is then redrawn). */
    method OnConsiderHistoryChange(value: bool)
      modifies plugin
      ensures plugin.settings == old(plugin.settings).(considerHistory := value)
      ensures plugin.Valid()
    {
      plugin.settings := plugin.settings.(considerHistory := value);
      plugin.SaveSettings();
    }

    /** "History Limit" text box: the typed value, normalised. */
    method OnHistoryLimitChange(input: LimitInput)
      modifies plugin
      ensures plugin.settings == old(plugin.settings).(historyLimit := NormaliseHistoryLimit(input))
      ensures plugin.settings.historyLimit <= MaxHistoryLimit
      ensures plugin.Valid()
    {
      var limit := NormaliseHistoryLimit(input);
      plugin.settings := plugin.settings.(historyLimit := limit);
      plugin.SaveSettings();
    }

    /** "Clear History" button. */
    method OnClearHistory()
      modifies plugin
      ensures plugin.settings == old(plugin.settings).(history := [])
      ensures plugin.Valid()
    {
      plugin.settings := plugin.settings.(history := []);
      plugin.SaveSettings();
    }

    /** "Hide unsupported emoji" toggle. */
    method OnHideUnsupportedChange(value: bool)
      modifies plugin
      ensures plugin.settings == old(plugin.settings).(hideUnsupported := value)
      ensures plugin.Valid()
    {
      plugin.settings := plugin.settings.(hideUnsupported := value);
      plugin.SaveSettings();
    }

    /** "Clear & Re-check" button: forgets every cached support flag. */
    method OnRecheckSupport()
      modifies plugin
      ensures plugin.settings == old(plugin.settings).(emojiSupported := map[])
      ensures plugin.Valid()
    {
      plugin.settings := plugin.settings.(emojiSupported := map[]);
      plugin.SaveSettings();
    }

    /** "Immediate Emoji Replace" toggle. */
    method OnImmediateReplaceChange(value: bool)
      modifies plugin
      ensures plugin.settings == old(plugin.settings).(immediateReplace := value)
      ensures plugin.Valid()
    {
      plugin.settings := plugin.settings.(immediateReplace := value);
      plugin.SaveSettings();
    }

    /** "Remove diacritics" toggle. */
    method OnLatinizeChange(value: bool)
      modifies plugin
      ensures plugin.settings == old(plugin.settings).(latinize := value)
      ensures plugin.Valid()
    {
      plugin.settings := plugin.settings.(latinize := value);
      plugin.SaveSettings();
    }

    /** "Polyfill flag emoji" toggle. */
    method OnPolyfillFlagsChange(value: bool)
      modifies plugin
      ensures plugin.settings == old(plugin.settings).(polyfillFlags := value)
      ensures plugin.Valid()
    {
      plugin.settings := plugin.settings.(polyfillFlags := value);
      plugin.SaveSettings();
    }
  }
}
