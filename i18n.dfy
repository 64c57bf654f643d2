/**
 * The `I18n` singleton: translation tables per language, string lookup with
 * the key as fallback, `${key}` substitution, the current language with its
 * change event, and the guard flags of the deferred page refresh. The page
 * scan itself works on the DOM and is not modelled.
 */
module I18n {
  import opened Collections
  import opened Strings
  import opened JsValues

  /** A translation table as stored: `strings` and `authors`, either of which may be absent. */
  datatype Translations = Translations(strings: Option<map<string, Value>>, authors: Option<seq<string>>)

  /** A translation file: the language it is for, and its table. */
  datatype TranslationFile = TranslationFile(lang: string, strings: Option<map<string, Value>>, authors: Option<seq<string>>)

  datatype I18nEvent =
    | LangChanged(oldLang: string, newLang: string)  // 'langchanged'
    | TranslationsLoaded                             // 'translationsloaded'

  datatype I18nState = I18nState(
    path: string,                               // #path
    lang: string,                               // #lang
    translations: map<string, Translations>,    // #translations
    executing: bool,                            // #executing
    refreshPending: bool,                       // #refreshTimeout is set
    events: seq<I18nEvent>,                     // events dispatched so far
    fetches: seq<string>)                       // URLs requested so far

  const DefaultPath := "./json/i18n/"
  const DefaultLang := "english"

  function Initial(): (s: I18nState)
    ensures s.lang != "" && !s.executing && !s.refreshPending
  {
    I18nState(DefaultPath, DefaultLang, map[], false, false, [], [])
  }

  /** The table that stands for a language whose file has been requested but has not arrived. */
  const Placeholder := Translations(None, None)

  // ================================================================ operations

  /**
   * `checkLang()`: a language without a table gets the placeholder and its
   * file `<path><lang>.json` is requested.
   */
  function AfterCheckLang(s: I18nState): I18nState
  {
    if s.lang in s.translations then s
    else s.(translations := s.translations[s.lang := Placeholder],
            fetches := s.fetches + [s.path + s.lang + ".json"])
  }

  /** `getString(key)`: the string the current language's table holds for the key, else the key. */
  function Translate(s: I18nState, key: string): string
  {
    if s.lang in s.translations && s.translations[s.lang].strings.Some?
       && key in s.translations[s.lang].strings.value && s.translations[s.lang].strings.value[key].Str?
    then s.translations[s.lang].strings.value[key].s
    else key
  }

  /** `authors`: the current language's author list, else the empty list. */
  function AuthorsOf(s: I18nState): seq<string>
  {
    if s.lang in s.translations && s.translations[s.lang].authors.Some? then s.translations[s.lang].authors.value
    else []
  }

  /** `i18n()`: arms the refresh unless one is pending. */
  function AfterArm(s: I18nState): I18nState
  {
    if s.refreshPending then s else s.(refreshPending := true)
  }

  /** Whether the refresh (`#i18n`) scans the page: a language is set and no scan is under way. */
  predicate RefreshRuns(s: I18nState)
  {
    s.lang != "" && !s.executing
  }

  /**
   * `#i18n()`: the pending flag is cleared; a scan sets `#executing` and
   * clears it when it completes. A scan that throws (`JSON.parse` of a
   * malformed `data-i18n-json` or `data-i18n-values` attribute) leaves it set,
   * since nothing catches the exception on the way out.
   */
  function AfterRefresh(s: I18nState, scanThrows: bool): I18nState
  {
    if RefreshRuns(s) && scanThrows then s.(refreshPending := false, executing := true)
    else s.(refreshPending := false)
  }

  /** `#loaded(file)`: a file is stored under its own language, a refresh is armed and the event fires. */
  function AfterLoaded(s: I18nState, file: Option<TranslationFile>): I18nState
  {
    if file.None? then s
    else
      var f := file.value;
      var s1 := AfterArm(s.(translations := s.translations[f.lang := Translations(f.strings, f.authors)]));
      s1.(events := s1.events + [TranslationsLoaded])
  }

  function LoadEach(s: I18nState, files: seq<Option<TranslationFile>>): I18nState
    decreases |files|
  {
    if files == [] then s else AfterLoaded(LoadEach(s, files[..|files| - 1]), files[|files| - 1])
  }

  /** `setOptions({path, translations})`: an empty path keeps the current one; every file is loaded in order. */
  function AfterSetOptions(s: I18nState, path: string, files: seq<Option<TranslationFile>>): I18nState
  {
    LoadEach(if path != "" then s.(path := path) else s, files)
  }

  /** `set lang(lang)`: on a change, the event, the new language, `checkLang`, and a refresh. */
  function AfterSetLang(s: I18nState, lang: string): I18nState
  {
    if s.lang == lang then s
    else AfterArm(AfterCheckLang(s.(events := s.events + [LangChanged(s.lang, lang)], lang := lang)))
  }

  // ================================================================ substitution

  /** The text `${key}` that `formatString` replaces. */
  function PlaceholderOf(key: string): string
  {
    "${" + key + "}"
  }

  /**
   * `s.replace(/<p>/gi, r)` for a pattern matched literally: scanning left to
   * right, each case-insensitive occurrence of `p` is replaced and scanning
   * resumes after it.
   */
  function ReplaceAll(s: string, p: string, r: string): string
    requires |p| > 0
    decreases |s|
  {
    if |s| < |p| then s
    else if EqualsIgnoreCase(s[..|p|], p) then r + ReplaceAll(s[|p|..], p, r)
    else [s[0]] + ReplaceAll(s[1..], p, r)
  }

  /** Each `(key, value)` pair in turn replaces `${key}` by the value. */
  function Substitute(str: string, values: seq<(string, string)>): string
    decreases |values|
  {
    if values == [] then str
    else
      var kv := values[|values| - 1];
      ReplaceAll(Substitute(str, values[..|values| - 1]), PlaceholderOf(kv.0), kv.1)
  }

  /** `formatString(key, values)`: translate, then substitute. */
  function Format(s: I18nState, key: string, values: seq<(string, string)>): string
  {
    Substitute(Translate(s, key), values)
  }

  // ================================================================ properties

  /** `checkLang` always leaves a table for the language, and a second call changes nothing. */
  lemma CheckLangIdempotent(s: I18nState)
    ensures s.lang in AfterCheckLang(s).translations
    ensures AfterCheckLang(AfterCheckLang(s)) == AfterCheckLang(s)
    ensures s.lang !in s.translations ==>
      AfterCheckLang(s).fetches == s.fetches + [s.path + s.lang + ".json"]
  {
  }

  /**
   * The placeholder never translates: `getString` yields the same string
   * before and after `checkLang`, so the key itself while the file is missing.
   */
  lemma CheckLangKeepsTranslation(s: I18nState, key: string)
    ensures Translate(AfterCheckLang(s), key) == Translate(s, key)
    ensures s.lang !in s.translations ==> Translate(AfterCheckLang(s), key) == key
    ensures AuthorsOf(AfterCheckLang(s)) == AuthorsOf(s)
  {
  }

  /**
   * Once the current language's file is loaded, `getString` returns its string
   * for a key holding one, and the key for any other key; `authors` returns its list.
   */
  lemma LoadedFileTranslates(s: I18nState, f: TranslationFile, key: string)
    requires f.lang == s.lang
    ensures var s' := AfterLoaded(s, Some(f));
      && Translate(s', key) == (if f.strings.Some? && key in f.strings.value && f.strings.value[key].Str?
                                then f.strings.value[key].s else key)
      && AuthorsOf(s') == (if f.authors.Some? then f.authors.value else [])
      && s'.refreshPending
      && s'.events == s.events + [TranslationsLoaded]
  {
  }

  /** A falsy file is ignored. */
  lemma LoadedIgnoresMissingFile(s: I18nState)
    ensures AfterLoaded(s, None) == s
  {
  }

  lemma {:induction false} LoadEachKeeps(s: I18nState, files: seq<Option<TranslationFile>>, lang: string)
    requires forall i :: 0 <= i < |files| && files[i].Some? ==> files[i].value.lang != lang
    ensures var s' := LoadEach(s, files);
      && s'.path == s.path && s'.lang == s.lang
      && (lang in s'.translations <==> lang in s.translations)
      && (lang in s.translations ==> s'.translations[lang] == s.translations[lang])
    decreases |files|
  {
    if files != [] {
      LoadEachKeeps(s, files[..|files| - 1], lang);
    }
  }

  lemma {:induction false} LoadEachLastWins(s: I18nState, files: seq<Option<TranslationFile>>, k: int)
    requires 0 <= k < |files| && files[k].Some?
    requires forall i :: k < i < |files| && files[i].Some? ==> files[i].value.lang != files[k].value.lang
    ensures var f := files[k].value;
      && f.lang in LoadEach(s, files).translations
      && LoadEach(s, files).translations[f.lang] == Translations(f.strings, f.authors)
    decreases |files|
  {
    var prefix := files[..|files| - 1];
    if k < |files| - 1 {
      LoadEachLastWins(s, prefix, k);
    }
  }

  /**
   * `setOptions` replaces the path only when one is given, and leaves each
   * language with the last file given for it; every other language keeps its table.
   */
  lemma SetOptionsLoadsFiles(s: I18nState, path: string, files: seq<Option<TranslationFile>>, k: int, other: string)
    requires 0 <= k < |files| && files[k].Some?
    requires forall i :: k < i < |files| && files[i].Some? ==> files[i].value.lang != files[k].value.lang
    requires forall i :: 0 <= i < |files| && files[i].Some? ==> files[i].value.lang != other
    ensures var s' := AfterSetOptions(s, path, files);
      && s'.path == (if path != "" then path else s.path)
      && files[k].value.lang in s'.translations
      && s'.translations[files[k].value.lang] == Translations(files[k].value.strings, files[k].value.authors)
      && (other in s.translations ==> other in s'.translations && s'.translations[other] == s.translations[other])
  {
    var s0 := if path != "" then s.(path := path) else s;
    LoadEachLastWins(s0, files, k);
    LoadEachKeeps(s0, files, other);
  }

  /**
   * Setting the current language does nothing; a different one fires exactly
   * one `langchanged` event with both languages, makes it current, ensures it
   * has a table and arms a refresh.
   */
  lemma SetLangFiresOnChange(s: I18nState, lang: string)
    ensures s.lang == lang ==> AfterSetLang(s, lang) == s
    ensures s.lang != lang ==>
      var s' := AfterSetLang(s, lang);
      && s'.lang == lang
      && s'.events == s.events + [LangChanged(s.lang, lang)]
      && lang in s'.translations
      && s'.refreshPending
  {
  }

  /** At most one refresh is pending: arming twice is arming once, and the refresh disarms. */
  lemma ArmAtMostOnce(s: I18nState)
    ensures AfterArm(AfterArm(s)) == AfterArm(s)
    ensures AfterArm(s).refreshPending
    ensures forall scanThrows :: !AfterRefresh(AfterArm(s), scanThrows).refreshPending
  {
  }

  /** A scan that completes leaves the guard flag as it found it. */
  lemma RefreshCompletes(s: I18nState)
    ensures AfterRefresh(s, false).executing == s.executing
    ensures AfterRefresh(s, false) == AfterRefresh(AfterRefresh(s, false), false)
  {
  }

  /**
   * Once a scan has thrown, `#executing` stays set through every later
   * operation, so no later refresh scans the page again.
   */
  lemma {:induction false} ThrowingScanDisablesRefresh(s: I18nState, scanThrows: bool, lang: string,
                                                       path: string, files: seq<Option<TranslationFile>>)
    requires RefreshRuns(s)
    ensures var stuck := AfterRefresh(s, true);
      && stuck.executing && !RefreshRuns(stuck)
      && AfterArm(stuck).executing && AfterCheckLang(stuck).executing
      && AfterSetLang(stuck, lang).executing && AfterSetOptions(stuck, path, files).executing
      && AfterRefresh(stuck, scanThrows) == stuck
  {
    var stuck := AfterRefresh(s, true);
    LoadEachKeepsExecuting(if path != "" then stuck.(path := path) else stuck, files);
  }

  lemma {:induction false} LoadEachKeepsExecuting(s: I18nState, files: seq<Option<TranslationFile>>)
    ensures LoadEach(s, files).executing == s.executing
    decreases |files|
  {
    if files != [] {
      LoadEachKeepsExecuting(s, files[..|files| - 1]);
    }
  }

  // ---------------------------------------------------------------- substitution

  lemma UpperCharDollar(c: char)
    ensures UpperChar(c) == '$' <==> c == '$'
  {
  }

  lemma {:induction false} ReplaceAllWithoutDollar(s: string, p: string, r: string)
    requires |p| > 0 && p[0] == '$' && '$' !in s
    ensures ReplaceAll(s, p, r) == s
    decreases |s|
  {
    if |s| >= |p| {
      assert ToUpper(s[..|p|])[0] != ToUpper(p)[0] by {
        UpperCharDollar(s[0]);
      }
      ReplaceAllWithoutDollar(s[1..], p, r);
      assert [s[0]] + s[1..] == s;
    }
  }

  lemma {:induction false} ReplaceAllSkipsPrefix(a: string, t: string, p: string, r: string)
    requires |p| > 0 && p[0] == '$' && '$' !in a
    ensures ReplaceAll(a + t, p, r) == a + ReplaceAll(t, p, r)
    decreases |a|
  {
    if a != [] {
      var s := a + t;
      assert s[1..] == a[1..] + t;
      ReplaceAllSkipsPrefix(a[1..], t, p, r);
      if |s| >= |p| {
        assert ToUpper(s[..|p|])[0] != ToUpper(p)[0] by {
          UpperCharDollar(s[0]);
        }
        calc {
          ReplaceAll(s, p, r);
          [s[0]] + ReplaceAll(a[1..] + t, p, r);
          [a[0]] + (a[1..] + ReplaceAll(t, p, r));
          { assert [a[0]] + a[1..] == a; }
          a + ReplaceAll(t, p, r);
        }
      } else {
        assert ReplaceAll(s, p, r) == s && ReplaceAll(t, p, r) == t;
      }
    } else {
      assert a + t == t;
    }
  }

  /**
   * A placeholder after a `$`-free prefix is replaced by the value, whatever
   * the case in which either side spells the key, and the scan goes on with
   * the text after it.
   */
  lemma ReplacePlaceholderThen(a: string, written: string, t: string, key: string, r: string)
    requires '$' !in a && EqualsIgnoreCase(written, key)
    ensures ReplaceAll(a + PlaceholderOf(written) + t, PlaceholderOf(key), r)
         == a + r + ReplaceAll(t, PlaceholderOf(key), r)
  {
    var p := PlaceholderOf(key);
    var w := PlaceholderOf(written);
    assert |ToUpper(written)| == |written| && |ToUpper(key)| == |key|;
    ToUpperAppend("${" + written, "}");
    ToUpperAppend("${", written);
    ToUpperAppend("${" + key, "}");
    ToUpperAppend("${", key);
    assert EqualsIgnoreCase(w, p);
    ReplaceAllSkipsPrefix(a, w + t, p, r);
    assert (w + t)[..|p|] == w && (w + t)[|p|..] == t;
    assert a + (w + t) == a + PlaceholderOf(written) + t;
  }

  /** One placeholder in text otherwise free of `$` is replaced by the value. */
  lemma ReplacePlaceholder(a: string, written: string, b: string, key: string, r: string)
    requires '$' !in a && '$' !in b && EqualsIgnoreCase(written, key)
    ensures ReplaceAll(a + PlaceholderOf(written) + b, PlaceholderOf(key), r) == a + r + b
  {
    ReplacePlaceholderThen(a, written, b, key, r);
    ReplaceAllWithoutDollar(b, PlaceholderOf(key), r);
  }

  /**
   * A template: `$`-free text `segments[0]`, then the placeholder of
   * `written[0]`, then `segments[1]`, and so on.
   */
  function Template(segments: seq<string>, written: seq<string>): string
    requires |segments| == |written| + 1
    decreases |written|
  {
    if written == [] then segments[0]
    else segments[0] + PlaceholderOf(written[0]) + Template(segments[1..], written[1..])
  }

  /** The same text with the value `r` in the place of every placeholder. */
  function Filled(segments: seq<string>, r: string): string
    requires |segments| > 0
    decreases |segments|
  {
    if |segments| == 1 then segments[0] else segments[0] + r + Filled(segments[1..], r)
  }

  /**
   * `replace` with the `g` and `i` flags: every placeholder that spells the
   * key, in any case, is replaced, however many there are.
   */
  lemma {:induction false} ReplaceEveryPlaceholder(segments: seq<string>, written: seq<string>, key: string, r: string)
    requires |segments| == |written| + 1
    requires forall i :: 0 <= i < |segments| ==> '$' !in segments[i]
    requires forall i :: 0 <= i < |written| ==> EqualsIgnoreCase(written[i], key)
    ensures ReplaceAll(Template(segments, written), PlaceholderOf(key), r) == Filled(segments, r)
    decreases |written|
  {
    if written == [] {
      ReplaceAllWithoutDollar(segments[0], PlaceholderOf(key), r);
    } else {
      assert '$' !in segments[0] && EqualsIgnoreCase(written[0], key);
      ReplacePlaceholderThen(segments[0], written[0], Template(segments[1..], written[1..]), key, r);
      ReplaceEveryPlaceholder(segments[1..], written[1..], key, r);
    }
  }

  /** `formatString` with one value fills every placeholder of its key. */
  lemma SubstituteEveryPlaceholder(segments: seq<string>, written: seq<string>, key: string, r: string)
    requires |segments| == |written| + 1
    requires forall i :: 0 <= i < |segments| ==> '$' !in segments[i]
    requires forall i :: 0 <= i < |written| ==> EqualsIgnoreCase(written[i], key)
    ensures Substitute(Template(segments, written), [(key, r)]) == Filled(segments, r)
  {
    assert [(key, r)][..0] == [];
    ReplaceEveryPlaceholder(segments, written, key, r);
  }

  /** "x ${k} y ${K} z" with `k` bound to "R" reads "x R y R z". */
  lemma EveryPlaceholderExample(template: string)
    requires template == "x ${k} y ${K} z"
    ensures Substitute(template, [("k", "R")]) == "x R y R z"
  {
    var segments, written := ["x ", " y ", " z"], ["k", "K"];
    assert Template(segments, written) == template by {
      assert Template(segments[2..], written[2..]) == " z";
    }
    assert EqualsIgnoreCase("K", "k") by {
      assert ToUpper("K")[0] == ToUpper("k")[0];
    }
    assert EqualsIgnoreCase("k", "k");
    assert forall i :: 0 <= i < |segments| ==> '$' !in segments[i];
    SubstituteEveryPlaceholder(segments, written, "k", "R");
    assert Filled(segments[2..], "R") == " z";
  }

  /** Text without `$` comes out of the substitution unchanged, whatever the values. */
  lemma {:induction false} SubstituteWithoutDollar(str: string, values: seq<(string, string)>)
    requires '$' !in str
    ensures Substitute(str, values) == str
    decreases |values|
  {
    if values != [] {
      SubstituteWithoutDollar(str, values[..|values| - 1]);
      ReplaceAllWithoutDollar(str, PlaceholderOf(values[|values| - 1].0), values[|values| - 1].1);
    }
  }

  /** "Hello ${name}!" with `name` bound (in any case) to "World" reads "Hello World!". */
  lemma FormatExample(template: string, values: seq<(string, string)>)
    requires template == "Hello ${name}!" && values == [("NAME", "World")]
    ensures Substitute(template, values) == "Hello World!"
  {
    assert template == "Hello " + PlaceholderOf("name") + "!";
    assert EqualsIgnoreCase("name", "NAME") by {
      var u, w := ToUpper("name"), ToUpper("NAME");
      assert u[0] == w[0] && u[1] == w[1] && u[2] == w[2] && u[3] == w[3];
      assert forall i :: 0 <= i < |u| ==> u[i] == w[i];
    }
    assert '$' !in "Hello " && '$' !in "!";
    ReplacePlaceholder("Hello ", "name", "!", "NAME", "World");
    assert Substitute(template, values) == ReplaceAll(template, PlaceholderOf("NAME"), "World") by {
      assert values[..0] == [];
    }
  }

  // ================================================================ the object

  class I18n {
    var path: string
    var lang: string
    var translations: map<string, Translations>
    var executing: bool
    var refreshPending: bool
    var events: seq<I18nEvent>
    var fetches: seq<string>

    function State(): I18nState
      reads this
    {
      I18nState(path, lang, translations, executing, refreshPending, events, fetches)
    }

    constructor()
      ensures State() == Initial()
    {
      path := DefaultPath;
      lang := DefaultLang;
      translations := map[];
      executing := false;
      refreshPending := false;
      events := [];
      fetches := [];
    }

    /** `checkLang()` */
    method CheckLang() returns (known: bool)
      modifies this
      ensures known <==> old(lang) in old(translations)
      ensures State() == AfterCheckLang(old(State()))
    {
      if lang in translations {
        return true;
      }
      var url := path + lang + ".json";
      fetches := fetches + [url];
      translations := translations[lang := Placeholder];
      return false;
    }

    /** `getString(s)` */
    method GetString(s: string) returns (r: string)
      modifies this
      ensures r == Translate(old(State()), s)
      ensures State() == AfterCheckLang(old(State()))
    {
      var known := CheckLang();
      if known {
        var table := translations[lang];
        if table.strings.Some? {
          if s in table.strings.value && table.strings.value[s].Str? {
            return table.strings.value[s].s;
          }
          return s;
        }
      }
      return s;
    }

    /** `formatString(s, values)`: the keys of `values` in order. */
    method FormatString(s: string, values: seq<(string, string)>) returns (str: string)
      modifies this
      ensures str == Format(old(State()), s, values)
      ensures State() == AfterCheckLang(old(State()))
    {
      str := GetString(s);
      for i := 0 to |values|
        invariant str == Substitute(Translate(old(State()), s), values[..i])
      {
        assert values[..i + 1][..i] == values[..i];
        str := ReplaceAll(str, PlaceholderOf(values[i].0), values[i].1);
      }
      assert values[..|values|] == values;
    }

    /** `get authors()` */
    method Authors() returns (authors: seq<string>)
      modifies this
      ensures authors == AuthorsOf(old(State()))
      ensures State() == AfterCheckLang(old(State()))
    {
      var known := CheckLang();
      if known && translations[lang].authors.Some? {
        return translations[lang].authors.value;
      }
      return [];
    }

    /** `i18n()` */
    method Arm()
      modifies this
      ensures State() == AfterArm(old(State()))
    {
      if !refreshPending {
        refreshPending := true;
      }
    }

    /**
     * `#i18n()`, run when the timer fires: `ran` tells whether the page was
     * scanned, and `scanThrows` whether that scan threw.
     */
    method Refresh(scanThrows: bool) returns (ran: bool)
      modifies this
      ensures State() == AfterRefresh(old(State()), scanThrows)
      ensures ran == RefreshRuns(old(State()))
    {
      refreshPending := false;
      if lang == "" {
        return false;
      }
      if executing {
        return false;
      }
      executing := true;
      // the scan of the page for elements to translate is not modelled
      if scanThrows {
        // the exception leaves `#i18n` before `#executing` is cleared
        return true;
      }
      executing := false;
      return true;
    }

    /** `#loaded(file)` */
    method Loaded(file: Option<TranslationFile>)
      modifies this
      ensures State() == AfterLoaded(old(State()), file)
    {
      if file.Some? {
        var f := file.value;
        translations := translations[f.lang := Translations(f.strings, f.authors)];
        Arm();
        events := events + [TranslationsLoaded];
      }
    }

    /** `setOptions({path, translations})` */
    method SetOptions(newPath: string, files: seq<Option<TranslationFile>>)
      modifies this
      ensures State() == AfterSetOptions(old(State()), newPath, files)
    {
      if newPath != "" {
        path := newPath;
      }
      ghost var start := State();
      for i := 0 to |files|
        invariant State() == LoadEach(start, files[..i])
      {
        assert files[..i + 1][..i] == files[..i];
        Loaded(files[i]);
      }
      assert files[..|files|] == files;
    }

    /** `set lang(lang)` */
    method SetLang(newLang: string)
      modifies this
      ensures State() == AfterSetLang(old(State()), newLang)
    {
      if lang != newLang {
        events := events + [LangChanged(lang, newLang)];
        lang := newLang;
        var _ := CheckLang();
        Arm();
      }
    }
  }
}
