# mindalka-browser-utils, modelled in Dafny

This project models the four stateful components of the mindalka browser utilities and proves properties of them.

- **OptionsManager** is a registry of named options. Each option has a type, a default, an optional list of choices and an editable flag. Values persist in `localStorage` as JSON. Names group into categories by their longest registered prefix. A change to `a.b.c` fires events for `a.b.c`, `a.b.*`, `a.*` and `*`, in that order.
- **ShortcutHandler** parses key bindings such as `ctrl+shift+s` or `alt+plus;meta+k`. It keeps an insertion-ordered table of named bindings. On each key press it fires the name of every binding that matches.
- **I18n** keeps translation tables per language. Lookups fall back to the key, and `${key}` placeholders are substituted case-insensitively. It also holds the current language with its change event, and the guard flags of its deferred page refresh.
- **NotificationManager** keeps at most one notification per (content, type). Adding one again re-arms its timer instead of adding a duplicate. Closing a notification removes it.

## Structure

Files and what they hold:
- `collections.dfy`: `Option`, duplicate-free sequences, removal from a sequence, and counting.
- `strings.dfy`: ASCII case mapping, `split`/`join` on one character, and `indexOf`/`lastIndexOf` with JavaScript's clamping of the start position.
- `js_values.dfy`: JavaScript values, loose `==`, and the JSON text under which `localStorage` keeps a value.
- `options_spec.dfy`: the state of the options store as a value. Each operation is a function from the old state to the new one, and the lemmas are about these functions.
- `options_aliasing.dfy`: the options store as written, where a cached object can be the registered default object itself, and where this sharing makes the code part from `options_spec.dfy` (second row of "## Findings").
- `options_manager.dfy`: the `OptionsManager` class over the same fields. Each method is proved to produce exactly the state its function describes, and the loops carry their invariants.
- `shortcuts.dfy`: the `Shortcut` value, parsing and matching, the bindings table as a value with its operations and lemmas, and the `ShortcutHandler` class proved against that table.
- `i18n.dfy`: the translation state as a value with its operations and lemmas, substitution, and the `I18n` class proved against them.
- `notifications.dfy`: the `Notification` and `NotificationManager` classes. The registry invariant and its preservation are stated over the sequence of registered notifications.

How the JavaScript maps onto the model:
- A JavaScript `Map` whose iteration order matters becomes a Dafny `map` paired with a sequence of its keys in insertion order.
- A `Set` of freshly built objects becomes a sequence.
- Where a promise is awaited, the method requires the state the promise stands for: `initialized` for the options store.

## Model

| member | source | states |
|---|---|---|
| OptionsSpec.Initial | src/OptionsManager.js:9-12 | A fresh store, with an empty registry and its categories marked stale, is well formed. |
| OptionsSpec.CascadeShape | src/OptionsManager.js:196-206 | A change to a name fires one event per dot in the name plus two. Every event carries the name and the new value. |
| OptionsSpec.WildcardsStep | src/OptionsManager.js:199-203 | One turn of the wildcard loop fires the prefix before the current dot followed by `.*`, then carries on from the next dot to the left. |
| OptionsSpec.WildcardsCount | src/OptionsManager.js:198-203 | The loop fires exactly one wildcard event per dot before the start position. |
| OptionsSpec.WildcardTypes | src/OptionsManager.js:198-203 | The wildcard events are exactly the prefixes ending before a dot, each followed by `.*`. |
| OptionsSpec.WildcardsLongestFirst | src/OptionsManager.js:198-203 | Wildcard events come in order of decreasing prefix length. |
| OptionsSpec.CascadeReaches | src/OptionsManager.js:196-206 | An event type is fired iff it is the name itself, `*`, or an ancestor prefix followed by `.*`. |
| OptionsSpec.CascadeOncePerListener | src/OptionsManager.js:196-206 | For a name without `*`, no event type is fired twice, and the wildcards run longest first. |
| OptionsSpec.CascadeExample | src/OptionsManager.js:196-206 | `ui.panel.width` fires `ui.panel.width`, `ui.panel.*`, `ui.*`, `*`, in this order. |
| OptionsSpec.AsWrittenLoopNeverExits | src/OptionsManager.js:198-203 | As written, for a name starting with a dot, the loop index never becomes -1, so the loop does not terminate. |
| OptionsSpec.CascadeStep | src/OptionsManager.js:202 | The corrected step moves strictly left, lands on a dot or on -1, and skips no dot. |
| OptionsSpec.WildcardsSkip | src/OptionsManager.js:198-203 | Skipping a stretch without dots leaves the remaining wildcard events unchanged. |
| OptionsSpec.SetItemThenGetItem | src/OptionsManager.js:128-145 | With storage available, `getItem` returns the value just set. Setting `undefined` reads back as the registered default. |
| OptionsSpec.SetItemWithoutStorage | src/OptionsManager.js:128-131 | Without `localStorage`, `setItem` changes nothing. |
| OptionsSpec.SetItemKeepsRegistry | src/OptionsManager.js:128-145 | `setItem` touches only the stored values and the event log. Definitions, their order, categories and the flags stay as they were. |
| OptionsSpec.SetItemIdempotent | src/OptionsManager.js:128-145 | Setting the same primitive value twice has the effect of setting it once. |
| OptionsSpec.SetItemOfCurrentValueIsSilent | src/OptionsManager.js:136-143 | Setting a name to the primitive value it already caches fires nothing and keeps the cache. |
| OptionsSpec.SetItemOfObjectAlwaysFires | src/OptionsManager.js:136-143 | An object value never compares equal. It is always cached and always fires the full cascade. This is the corrected half of the third "## Findings" row. |
| OptionsSpec.AddOptionRegisters | src/OptionsManager.js:88-126 | `addOption` registers the lowercased name and merges only the fields that are given. Other names, categories and the dirty flag stay as they were. |
| OptionsSpec.MergeIdempotent | src/OptionsManager.js:90-110 | Registering the same definition twice has the effect of registering it once. |
| OptionsSpec.ToLowerIdempotent | src/OptionsManager.js:89 | Lowercasing an already lowercased name does nothing. |
| OptionsSpec.AddOptionReconcilesStore | src/OptionsManager.js:112-124 | A parseable persisted value is kept. Otherwise the default is written, and an undefined default leaves unparsable text. |
| OptionsSpec.AddOptionWellFormed | src/OptionsManager.js:88-126 | `addOption` keeps the registry and its key order in step. |
| OptionsSpec.AddOptionRegistry | src/OptionsManager.js:88-111 | The registry gains or updates exactly the lowercased name. A new name goes to the end of the key order. |
| OptionsSpec.SameRegistryWellFormed | src/OptionsManager.js:88-126 | Well-formedness depends only on the registry and its key order. |
| OptionsSpec.ResetItemRestoresDefault | src/OptionsManager.js:241-250 | `resetItem` on a name with a defined default reads back as that default and fires its cascade. |
| OptionsSpec.ResetItemWithoutDefault | src/OptionsManager.js:241-250 | `resetItem` on a name without a defined default changes nothing. |
| OptionsSpec.ResetEachKeeps | src/OptionsManager.js:252-256 | Resetting a list of names never alters the registry, the categories or the flags. |
| OptionsSpec.ResetEachRestores | src/OptionsManager.js:252-256 | Every name in the list that has a defined default is stored as that default. |
| OptionsSpec.ResetAllRestoresDefaults | src/OptionsManager.js:258-262 | After `resetAllItems`, every option with a defined default reads back as that default. |
| OptionsSpec.ResetItemEvents | src/OptionsManager.js:241-250 | `resetItem` fires the full cascade of the default value when the name has a defined default, even if that value is already stored. Otherwise it fires nothing. |
| OptionsSpec.ResetEachEvents | src/OptionsManager.js:252-256 | Resetting a list fires, in list order, the cascade of each name that has a defined default. |
| OptionsSpec.RemoveItemForgetsOnlyThatName | src/OptionsManager.js:227-239 | `removeItem` unregisters, uncaches and unstores that name only, and fires nothing. |
| OptionsSpec.RemoveItemWellFormed | src/OptionsManager.js:227-239 | `removeItem` keeps the registry and its key order in step. |
| OptionsSpec.ClearForgetsEverything | src/OptionsManager.js:264-276 | After `clear`, nothing is registered, cached or stored, and nothing was fired. |
| OptionsSpec.SetSubItemNeedsMapType | src/OptionsManager.js:160-166 | `setSubItem` on an option that is not of type `map` changes nothing. |
| OptionsSpec.SetSubItemSameValueIsSilent | src/OptionsManager.js:167-170 | Setting a sub-key to a loosely equal value changes nothing. |
| OptionsSpec.SetSubItemUpdatesOneKey | src/OptionsManager.js:160-179 | A changed sub-key takes the new value and the other sub-keys stay. The whole map is stored and its cascade fires. |
| OptionsSpec.SetSubItemUncachedIsNotCached | src/OptionsManager.js:164-170 | For a map that is not cached, the mutated copy is not cached either. |
| OptionsSpec.ResetAfterSubItemEditRestoresDefault | src/OptionsManager.js:160-194 | With a copy of the default cached, `setSubItem` and `removeSubItem` leave every registered default alone, so a reset after either edit restores the default as registered. |
| OptionsSpec.SetSubItemKeepsRegistry | src/OptionsManager.js:160-179 | With a copy of the default cached, `setSubItem` leaves the registered definitions alone. |
| OptionsSpec.RemoveSubItemKeepsRegistry | src/OptionsManager.js:181-194 | With a copy of the default cached, `removeSubItem` leaves the registered definitions alone. |
| OptionsSpec.RemoveSubItemDropsOneKey | src/OptionsManager.js:181-194 | `removeSubItem` drops that sub-key only, then stores the map and fires its cascade. |
| OptionsSpec.LongestPrefixLength | src/OptionsManager.js:70-80 | Returns the longest prefix of the name that is a category, or -1 if none is. |
| OptionsSpec.LongestPrefixExists | src/OptionsManager.js:70-80 | With the root category `""` present, every name has a longest category prefix. |
| OptionsSpec.LongestPrefixUnique | src/OptionsManager.js:70-80 | The longest category prefix of a name is unique. |
| OptionsSpec.RefreshPlacesEachOptionOnce | src/OptionsManager.js:63-86 | A stale refresh keeps the category set and places each option in exactly one category, its longest prefix. |
| OptionsSpec.AddCategoriesContains | src/OptionsManager.js:47-49 | Each listed category, lowercased, exists afterwards, and no earlier category is lost. |
| OptionsSpec.AddOptionGrows | src/OptionsManager.js:88-126 | `addOption` only adds to the registry, under the lowercased name, and leaves the category index and its stale flag alone. |
| OptionsSpec.AddOptionsRegisters | src/OptionsManager.js:51-53 | Each listed option is registered under its lowercased name, no earlier definition is lost, and the category index and its stale flag stay as they were. |
| OptionsSpec.InitRegistersManifest | src/OptionsManager.js:45-56 | With a manifest, init completes, the index is stale, the catch-all `''` and every listed category exist, and every listed option is registered under its lowercased name. |
| OptionsSpec.RefreshOnlyWhenStale | src/OptionsManager.js:63-86 | The refresh clears the dirty flag, changes nothing when not dirty, and places only registered options. |
| OptionsSpec.CategoryExample | src/OptionsManager.js:63-86 | `ui.panel.width` goes into `ui` when the categories are `""` and `ui`, and into `""` when `""` is the only category. |
| OptionsSpec.AddOptionAfterRefreshIsUncategorized | src/OptionsManager.js:88-126 | An option added after a refresh appears in no category until something marks the categories dirty again. |
| OptionsSpec.RowVisibleIff | src/OptionsManager.js:283-294 | A row is shown iff the lowercased filter occurs in the lowercased option name. |
| OptionsSpec.RowVisibleIgnoresCase | src/OptionsManager.js:283-294 | Row visibility does not depend on the case of the filter or of the name. |
| OptionsSpec.ReadVec2ValueIff | src/OptionsManager.js:636-642 | A vec2 text is accepted iff it has exactly one comma. |
| OptionsSpec.ReadVec2ValueRoundTrip | src/OptionsManager.js:636-642 | Two comma-free parts joined by a comma read back as those parts. |
| OptionsAliasing.SetItemConsistent | src/OptionsManager.js:128-145 | `setItem` with a caller's value ends the sharing for that name. Every name still shared caches its registered default, with storage present and the object persisted as it stands. |
| OptionsAliasing.SetDefaultConsistent | src/OptionsManager.js:113-119 | Writing back the registered default through `setItem` caches that very object, and the sharing stays consistent. |
| OptionsAliasing.RegisterConsistent | src/OptionsManager.js:96-110 | A newly given default replaces the registered object and so ends the sharing. Without one, the merge keeps the shared default. |
| OptionsAliasing.AddOptionConsistent | src/OptionsManager.js:88-126 | `addOption` shares the default exactly when nothing usable is persisted, and keeps the sharing consistent. |
| OptionsAliasing.ResetItemConsistent | src/OptionsManager.js:241-250 | `resetItem` caches the default object itself when storage is present, and keeps the sharing consistent. |
| OptionsAliasing.RemoveAndClearConsistent | src/OptionsManager.js:227-239 | `removeItem` and `clear` drop the sharing along with the cached values, and keep it consistent. |
| OptionsAliasing.RepublishConsistent | src/OptionsManager.js:169-172 | An in-place edit of a shared object changes the cache and the default together, so the sharing stays consistent. |
| OptionsAliasing.SubItemsConsistent | src/OptionsManager.js:160-194 | `setSubItem` and `removeSubItem` keep the sharing consistent. |
| OptionsAliasing.SubItemEditChangesSharedDefault | src/OptionsManager.js:164-170 | As written, a sub-item edit differs from the model with a cached copy only in the default of the edited name. When that name's cache is the default object, the default becomes the edited object. |
| OptionsAliasing.AddOptionReadsCopyOfShared | src/OptionsManager.js:112-119 | A shared object is persisted, so what `addOption` writes back for its name is a parsed copy, not the cached object itself. |
| OptionsAliasing.ResaveConsistent | src/OptionsManager.js:128-144 | Passing the cached object, changed in place, back to `setItem` keeps the sharing consistent. |
| OptionsAliasing.ResaveOfMutatedObjectIsSilent | src/OptionsManager.js:128-144 | As written, re-saving a cached object that was changed in place persists the new value, which `getItem` reads back, but fires no event. The model with objects never equal fires the full cascade for the same call. |
| OptionsAliasing.ResetAfterEditExample | src/OptionsManager.js:160-172 | With storage present and empty, adding a map option with default `{a: 1}`, setting its `a` to 2 and resetting it reads back `{a: 2}` as written, and `{a: 1}` with a copy cached. |
| JsValues.ParseSerialize | src/OptionsManager.js:208-215 | A stored value reads back as itself. `undefined` is lost and reads as nothing. |
| OptionsManager.OptionsManager.constructor | src/OptionsManager.js:9-30 | The new object's state is the initial store over the given `localStorage`. |
| OptionsManager.OptionsManager.ValueChanged | src/OptionsManager.js:196-206 | Appends exactly the event cascade of the name to the events and changes nothing else. |
| OptionsManager.OptionsManager.AnnounceWildcards | src/OptionsManager.js:198-203 | The `while` loop appends one `<prefix>.*` event per dot, from the last dot to the first. |
| OptionsManager.OptionsManager.GetItem | src/OptionsManager.js:208-225 | Returns the parsed non-empty stored value, else the registered default, else `undefined`. |
| OptionsManager.OptionsManager.SetItem | src/OptionsManager.js:128-145 | The new state is the `setItem` function applied to the old one. |
| OptionsManager.OptionsManager.AddOption | src/OptionsManager.js:88-126 | The new state is the `addOption` function applied to the old one, and the store stays well formed. |
| OptionsManager.OptionsManager.RemoveItem | src/OptionsManager.js:227-239 | The new state is the `removeItem` function applied to the old one, and the store stays well formed. |
| OptionsManager.OptionsManager.ResetItem | src/OptionsManager.js:241-250 | The new state is the `resetItem` function applied to the old one. |
| OptionsManager.OptionsManager.ResetItems | src/OptionsManager.js:252-256 | The loop resets each name in turn, in order. |
| OptionsManager.OptionsManager.ResetAllItems | src/OptionsManager.js:258-262 | Resets every registered name, in registration order. |
| OptionsManager.OptionsManager.Clear | src/OptionsManager.js:264-276 | The new state is the `clear` function applied to the old one. |
| OptionsManager.OptionsManager.GetSubItem | src/OptionsManager.js:147-158 | Returns the sub-key of the cached map, else `undefined`. |
| OptionsManager.OptionsManager.SetSubItem | src/OptionsManager.js:160-179 | The new state is the `setSubItem` function applied to the old one. The registered defaults stay, as in the corrected store of the second "## Findings" row. |
| OptionsManager.OptionsManager.RemoveSubItem | src/OptionsManager.js:181-194 | The new state is the `removeSubItem` function applied to the old one. The registered defaults stay, as in the corrected store of the second "## Findings" row. |
| OptionsManager.OptionsManager.PublishObject | src/OptionsManager.js:169-172 | The updated object replaces the cached one if there is one. Its cascade fires and it is written to storage when storage exists. The registered default is left alone (corrected store, second "## Findings" row). |
| OptionsManager.OptionsManager.GetOption | src/OptionsManager.js:614-617 | Once initialization is done, returns a definition iff the name is registered, and that definition carries the name. |
| OptionsManager.OptionsManager.GetOptionType | src/OptionsManager.js:619-622 | Returns the registered type of the name, if any. |
| OptionsManager.OptionsManager.GetList | src/OptionsManager.js:624-630 | Returns the choice list of an option of type `list`, and nothing for any other option. |
| OptionsManager.OptionsManager.GetOptionsPerType | src/OptionsManager.js:601-612 | The loop over the definitions in key order returns the list that `OptionsSpec.OptionsOfType` describes. |
| OptionsSpec.OfTypeInMembers | src/OptionsManager.js:605-610 | Over registered names, a pair is listed iff its name is one of them, has that type and is paired with its cached value. Listed names keep the order of the names walked. |
| OptionsSpec.OptionsOfTypeMembers | src/OptionsManager.js:601-612 | `getOptionsPerType` lists exactly the options of that type with their cached values, each once, in registration order. |
| OptionsManager.OptionsManager.AddCategory | src/OptionsManager.js:58-61 | Adds an empty category and marks the categories dirty. |
| OptionsManager.OptionsManager.RefreshCategories | src/OptionsManager.js:63-86 | Rebuilds the partition only when the dirty flag is set, then clears the flag. |
| OptionsManager.PartitionByCategory | src/OptionsManager.js:65-83 | The nested loops put each option into exactly the category with the longest matching prefix. |
| OptionsManager.OptionsManager.AddCategoryList | src/OptionsManager.js:47-49 | Adds the listed categories one after another, in list order. |
| OptionsManager.OptionsManager.AddOptionList | src/OptionsManager.js:51-53 | Adds the listed options one after another, in list order. |
| OptionsManager.OptionsManager.InitFromJson | src/OptionsManager.js:45-56 | Adds the manifest's categories, then its options, in order, then marks initialization done. |
| OptionsManager.MergeDefinition | src/OptionsManager.js:90-110 | Field by field, a given field overrides the earlier definition and a missing field keeps it. |
| OptionsManager.FindCategory | src/OptionsManager.js:70-80 | Finds no category iff no category is a prefix of the name. Otherwise it finds the longest such prefix. |
| OptionsManager.ApplyFilter | src/OptionsManager.js:283-294 | Each row is shown iff it passes the visibility test for the filter. |
| Shortcuts.ParseTokensFlags | src/ShortcutHandler.js:2-29 | A modifier flag is set iff its token occurs among the tokens. |
| Shortcuts.ParseTokensKey | src/ShortcutHandler.js:2-29 | The key is absent iff every token is a modifier. Otherwise it comes from the last non-modifier token, with `PLUS` standing for `+`. |
| Shortcuts.ParseTokensMeaning | src/ShortcutHandler.js:2-29 | A modifier flag is set iff its token occurs. The key is absent iff every token is a modifier. Otherwise the key comes from the last non-modifier token, with `PLUS` standing for `+`. |
| Shortcuts.NewShortcut | src/ShortcutHandler.js:2-29 | The constructor's loop over the uppercased tokens builds exactly the parsed shortcut. |
| Shortcuts.UpperAll | src/ShortcutHandler.js:7 | Uppercasing each token keeps the number of tokens. |
| Shortcuts.UpperCharPlus | src/ShortcutHandler.js:7 | Uppercasing neither adds nor removes a `+`. |
| Shortcuts.ToUpperJoin | src/ShortcutHandler.js:7 | Uppercasing a `+`-joined binding uppercases each of its parts. |
| Shortcuts.UpperModifierNames | src/ShortcutHandler.js:10-21 | The modifiers held in an event, uppercased, are the modifier tokens. |
| Shortcuts.TokensOfDescribe | src/ShortcutHandler.js:7 | A binding written from a key event splits back into its modifier tokens and the uppercased key. |
| Shortcuts.ParseAppend | src/ShortcutHandler.js:8-28 | Parsing one more token applies it to the shortcut parsed so far. |
| Shortcuts.ParseModifierTokens | src/ShortcutHandler.js:8-21 | Parsing the modifier tokens of an event sets exactly the held modifiers and no key. |
| Shortcuts.ParseModifiersThenKey | src/ShortcutHandler.js:8-27 | Modifier tokens followed by a key token parse to those modifiers with that key. |
| Shortcuts.DescribeThenParse | src/ShortcutHandler.js:2-37 | The binding written from a key event parses to that event's modifiers and uppercased key, and that shortcut matches the event. |
| Shortcuts.MatchExample | src/ShortcutHandler.js:31-37 | `ctrl+shift+s` matches ctrl+shift+s and stops matching once meta is also held. |
| Shortcuts.Alternatives | src/ShortcutHandler.js:81 | A binding gives one shortcut per `;`-separated alternative. |
| Shortcuts.ParseAll | src/ShortcutHandler.js:87-89 | One shortcut is built per alternative. |
| Shortcuts.FiredInCount | src/ShortcutHandler.js:55-61 | Among one name's shortcuts, the name is fired once per matching shortcut, and no other name is fired. |
| Shortcuts.FiredAllStep | src/ShortcutHandler.js:54-62 | Each further name fires its matching shortcuts after everything the earlier names fired. |
| Shortcuts.FiredAllCount | src/ShortcutHandler.js:54-62 | Over the whole table, each name is fired once per matching shortcut of its own. |
| Shortcuts.FiredOncePerMatchingBinding | src/ShortcutHandler.js:48-63 | A key press in a text field fires nothing. Otherwise each name is fired once per matching shortcut. |
| Shortcuts.AddAppendsAlternatives | src/ShortcutHandler.js:80-90 | `addShortcut` appends the new alternatives to that name and leaves the other names alone. |
| Shortcuts.DeleteKeepsValid | src/ShortcutHandler.js:76 | Deleting a name keeps the table well formed: no duplicate names, and every name has bindings. |
| Shortcuts.SetReplacesAlternatives | src/ShortcutHandler.js:75-78 | `setShortcut` replaces that name's shortcuts with the new alternatives and leaves the other names alone. |
| Shortcuts.AddEachNames | src/ShortcutHandler.js:70-72 | Adding entries in turn keeps the table valid and binds exactly the earlier names plus the new ones. |
| Shortcuts.AddEachSingle | src/ShortcutHandler.js:70-72 | A new name given once ends bound to exactly its own alternatives. |
| Shortcuts.SetAllRebuilds | src/ShortcutHandler.js:65-73 | `setShortcuts` rebuilds the table with exactly the given names, each bound to its alternatives. |
| Shortcuts.SetAllWithoutMap | src/ShortcutHandler.js:66-68 | `setShortcuts` without a map changes nothing. |
| Shortcuts.ShortcutHandler.constructor | src/ShortcutHandler.js:42-46 | Starts with an empty table and nothing fired. |
| Shortcuts.ShortcutHandler.AddShortcut | src/ShortcutHandler.js:80-90 | Registers a new name at the end of the key order, then leaves the table as the `addShortcut` function describes. |
| Shortcuts.ShortcutHandler.AppendAlternatives | src/ShortcutHandler.js:87-89 | The loop appends the parsed alternatives to the name's bindings, in order, and changes no other name. |
| Shortcuts.ShortcutHandler.SetShortcut | src/ShortcutHandler.js:75-78 | The table becomes the `setShortcut` function of the old one. |
| Shortcuts.ShortcutHandler.SetShortcuts | src/ShortcutHandler.js:65-73 | The loop leaves the table as the `setShortcuts` function describes. |
| Shortcuts.ShortcutHandler.HandleKeyDown | src/ShortcutHandler.js:48-63 | Fires exactly the names of the matching shortcuts, in table order. Only the log of dispatched events may change. Default handling is prevented iff something fired. |
| Shortcuts.ShortcutHandler.DispatchAll | src/ShortcutHandler.js:54-62 | The outer loop fires, for each name in key order, its matching shortcuts. |
| Shortcuts.ShortcutHandler.DispatchMatching | src/ShortcutHandler.js:55-61 | The inner loop fires the name once per matching shortcut. |
| I18n.Initial | src/I18n.js:5-9 | Starts with path `./json/i18n/`, language `english`, no tables, and no refresh pending or running. |
| I18n.CheckLangIdempotent | src/I18n.js:180-193 | After `checkLang`, the language has a table, and a second call changes nothing. A missing language gets its file `<path><lang>.json` requested. |
| I18n.CheckLangKeepsTranslation | src/I18n.js:147-193 | The placeholder table translates nothing: `getString` and `authors` give the same answers before and after `checkLang`, and the key itself while the file is missing. |
| I18n.LoadedFileTranslates | src/I18n.js:195-202 | Once the current language's file is loaded, `getString` returns its string for a key that has one and the key otherwise. `authors` returns its list. A refresh is armed and `translationsloaded` fires. |
| I18n.LoadedIgnoresMissingFile | src/I18n.js:196 | A falsy file is ignored. |
| I18n.LoadEachKeeps | src/I18n.js:25-29 | Loading files for other languages keeps a language's table, the path and the current language. |
| I18n.LoadEachLastWins | src/I18n.js:25-29 | Each language ends with the last file given for it. |
| I18n.SetOptionsLoadsFiles | src/I18n.js:20-30 | `setOptions` replaces the path only when one is given. Each language gets its last file, and other languages keep their tables. |
| I18n.SetLangFiresOnChange | src/I18n.js:138-145 | Setting the current language does nothing. A different language fires one `langchanged` with both languages, becomes current, gets a table and arms a refresh. |
| I18n.ArmAtMostOnce | src/I18n.js:108-126 | At most one refresh is pending: arming twice is arming once, and the refresh disarms whether or not its scan throws. |
| I18n.RefreshCompletes | src/I18n.js:114-126 | A scan that completes leaves `#executing` as it found it, and a second refresh changes nothing more. |
| I18n.ThrowingScanDisablesRefresh | src/I18n.js:89-126 | After a scan throws, `#executing` stays true through `i18n()`, `checkLang`, `set lang` and `setOptions`, and every later refresh skips the scan. |
| I18n.LoadEachKeepsExecuting | src/I18n.js:195-202 | Loading translation files never changes `#executing`. |
| I18n.UpperCharDollar | src/I18n.js:166 | Case-insensitive matching never confuses `$` with another character. |
| I18n.ReplaceAllWithoutDollar | src/I18n.js:166 | Text without `$` has no placeholder, and replacing leaves it unchanged. |
| I18n.ReplaceAllSkipsPrefix | src/I18n.js:166 | Text without `$` before the first placeholder passes through unchanged. |
| I18n.ReplacePlaceholderThen | src/I18n.js:166 | A `${key}` after `$`-free text is replaced by the value, whatever the case in which either side writes the key, and the scan goes on after it. |
| I18n.ReplacePlaceholder | src/I18n.js:166 | One `${key}` is replaced by the value, whatever the case in which either side writes the key. |
| I18n.ReplaceEveryPlaceholder | src/I18n.js:166 | Every `${key}` in a template, written in any case, is replaced by the value, however many there are. |
| I18n.SubstituteEveryPlaceholder | src/I18n.js:162-169 | `formatString` with one value fills every placeholder of its key. |
| I18n.EveryPlaceholderExample | src/I18n.js:162-169 | `x ${k} y ${K} z` with `k` bound to `R` reads `x R y R z`. |
| I18n.SubstituteWithoutDollar | src/I18n.js:162-169 | A string without `$` comes out of `formatString`'s substitution unchanged, whatever the values. |
| I18n.FormatExample | src/I18n.js:162-169 | `Hello ${name}!` with `NAME` bound to `World` reads `Hello World!`. |
| I18n.I18n.constructor | src/I18n.js:5-13 | The new object's state is the initial state. |
| I18n.I18n.CheckLang | src/I18n.js:180-193 | Returns whether the language had a table; the new state is the `checkLang` function applied to the old one. |
| I18n.I18n.GetString | src/I18n.js:147-160 | Returns the translation in the old state, and leaves the state `checkLang` leaves. |
| I18n.I18n.FormatString | src/I18n.js:162-169 | The loop over the values returns `Format`: the translation, then each key's placeholders replaced in turn. `I18n.ReplaceEveryPlaceholder` shows that each turn replaces every placeholder of its key. |
| I18n.I18n.Authors | src/I18n.js:171-178 | Returns the current language's author list, or the empty list. |
| I18n.I18n.Arm | src/I18n.js:108-112 | Arms the refresh unless one is pending. |
| I18n.I18n.Refresh | src/I18n.js:114-126 | Clears the pending flag and reports whether the page was scanned. `#executing` is false again afterwards unless the scan threw, in which case it stays true. |
| I18n.I18n.Loaded | src/I18n.js:195-202 | Stores the file under its language, arms a refresh and fires `translationsloaded`. |
| I18n.I18n.SetOptions | src/I18n.js:20-30 | The loop loads the files in order after the path update. |
| I18n.I18n.SetLang | src/I18n.js:138-145 | The new state is the `set lang` function applied to the old one. |
| Notifications.SetTtlReplacesExpiry | src/NotificationManager.js:13-18 | A truthy ttl replaces the live timer with one of ttl seconds. A falsy ttl leaves the timer as it was. |
| Notifications.Notification.constructor | src/NotificationManager.js:7-11 | A new notification keeps its content and type and arms its timer iff the ttl is truthy. |
| Notifications.Notification.SetTtl | src/NotificationManager.js:13-18 | Arms a timer of ttl seconds iff the ttl is truthy. |
| Notifications.Find | src/NotificationManager.js:67-72 | Finds the first notification with equal content and type, and none iff no notification has them. |
| Notifications.FindUnique | src/NotificationManager.js:66-74 | In a registry without duplicates, the match is the only one. |
| Notifications.AddKeepsDistinct | src/NotificationManager.js:66-80 | Registering a new (content, type) keeps the registry free of duplicates. |
| Notifications.CloseKeepsDistinct | src/NotificationManager.js:82-85 | Closing removes exactly that notification, keeps the others and keeps the registry free of duplicates. |
| Notifications.NotificationManager.constructor | src/NotificationManager.js:48-53 | Starts with no notifications. |
| Notifications.NotificationManager.GetNotification | src/NotificationManager.js:66-74 | Returns the registered notification with equal content and type with its ttl re-armed, else a fresh one. No other notification's timer changes. |
| Notifications.NotificationManager.AddNotification | src/NotificationManager.js:76-80 | Re-adding a present (content, type) keeps the registry as it is, so its size stays the same, and re-arms that notification. A new one goes to the end. There are never duplicates. |
| Notifications.NotificationManager.CloseNotification | src/NotificationManager.js:82-85 | Removes exactly that notification, and the registry stays free of duplicates. |

## Left out

- The options panel, the shortcut, I18n and notification DOM work, and drag and drop are left out because they are browser UI. This covers the options panel rows and the notification `view` element. It also covers `#processList`, `#processJSON`, `updateElement` and the `MutationObserver` of I18n.
- OptionsManager.OptionsManager.SetSubItem: follows the corrected store of the second "## Findings" row, where the cache holds a copy of the default. As written, when the cached map is the registered default object, the in-place edit also changes the registered default. `OptionsAliasing.SetSubItem` models that behaviour, and `OptionsAliasing.SubItemEditChangesSharedDefault` states the difference.
- OptionsManager.OptionsManager.RemoveSubItem: the same holds for the in-place `delete`. As written, it also removes the key from the registered default when the cache shares it.
- OptionsManager.OptionsManager.PublishObject: never changes the registered defaults, as the corrected store of the second "## Findings" row prescribes. `OptionsAliasing.RepublishShared` is the version as written.
- OptionsSpec.AfterSetSubItem, OptionsSpec.AfterRemoveSubItem and OptionsSpec.Republish describe the store with a copy of the default cached. `OptionsAliasing` adds the object sharing of the code as written on top of them.
- Strings.ToUpper and Strings.ToLower map ASCII letters only; JavaScript's full Unicode case mapping is left out. This affects the lowercased option and category names, the uppercased shortcut tokens and keys, the case-insensitive `${key}` match of `formatString`, and the options filter: two non-ASCII names that differ only in case are different names here.
- `init` from a URL and the `fetch` in `checkLang` are left out because they use the network. `init` is modelled from an in-memory manifest. `checkLang` records the URL it would request.
- The `#initPromise` wait is left out because it is asynchronous. `getOption`, `getOptionType`, `getList`, `getOptionsPerType` and `setSubItem` require that initialization has completed.
- Timers are left out. `I18N_DELAY_BEFORE_REFRESH` and the notification timeouts are recorded as "a refresh is pending" and as the delays armed, and the callbacks are not run.
- `console` logging is left out, and with it the `logException` flag.
- I18n.I18n.Refresh: the exception of a scan that throws is not propagated. The `scanThrows` parameter records only its effect on `#executing`.
- OptionsSpec.ReadVec2Value: the `* 1` conversion of the two parts to numbers is not modelled because the model has no floating point. The parts stay text.
- OptionsManager.OptionsManager.ResetItems: the JavaScript loop variable `name` is undeclared and writes the global `window.name`. That global is not modelled.
- OptionsManager.OptionsManager.RefreshCategories: the order of options inside a category is left out. It comes from a sorted iterator and only affects display.
- JsValues.LooseEquals, OptionsSpec.SetItemOfObjectAlwaysFires: an object is never equal to anything here, while JavaScript compares objects by reference. So when a caller passes back the very object the store holds, the model fires the cascade and the source does not. One case is `setItem` of the cached object after changing it in place. The other is `setSubItem` of a nested object read through `getSubItem` (src/OptionsManager.js:166). The first case is modelled as written in `OptionsAliasing.ResaveCachedObject`, and the third "## Findings" row records it.
- JsValues.LooseEquals: coercions between numbers, strings and booleans are left out. JavaScript numbers are modelled as integers.
- I18n.ReplaceAll: keys are matched literally. Regular-expression metacharacters in a key and `$` patterns in a value are not interpreted.
- I18n.I18n.FormatString: `values` is a list of pairs in key order, and enumerable-key order of integer-like keys is not modelled.
- A translation file without a `lang` property is stored under `undefined` in the source. Here every file names its language.
- Notification content: a comparison between a string and an element through `==` is not modelled. Mixed contents never compare equal.
- Notifications.Notification.SetTtl: ttl is an integer number of seconds, where 0 stands for every falsy ttl. NaN and fractional seconds are left out.
- The options store, the handlers and the managers are singletons in the source. Here they are ordinary objects, and the events they dispatch are recorded in sequences.

Behaviours of the code that may be unintended, which the model follows as written:
- `addOption`, `removeItem` and `clear` do not mark the categories dirty. A lemma states the consequence, `OptionsSpec.AddOptionAfterRefreshIsUncategorized`.
- A malformed vec2 text yields no value and the caller stores `null`.
- A malformed `data-i18n-json` or `data-i18n-values` attribute makes `JSON.parse` throw inside the page scan. Nothing resets `#executing` then, so the page is never translated again. `I18n.ThrowingScanDisablesRefresh` states this.

## Findings

| source | as written | input that shows it | evidently intended | confidence | as-written member | corrected member |
|---|---|---|---|---|---|---|
| src/OptionsManager.js:198-203 | After firing the wildcard for the dot at index 0, the loop searches again from position -1. `lastIndexOf` clamps that to 0 and finds the same dot, so the loop never exits. | the option name `.a` | the loop stops after the dot at index 0 and goes on to fire `*` | not executed | OptionsSpec.AsWrittenLoopNeverExits | OptionsSpec.CascadeStep |
| src/OptionsManager.js:164-185 | `setSubItem` and `removeSubItem` edit the cached object in place. After `addOption` with nothing persisted, and after `resetItem`, that object is the registered default itself (`dv.dv`, lines 103, 114-118 and 244-247). So the edit changes the default too, and a later reset restores the edited map. | storage present and empty; `addOption({name: 'm', type: 'map', default: {a: 1}})`, `setSubItem('m', 'a', 2)`, `resetItem('m')`, then `getItem('m')` yields `{a: 2}` | the cache holds a copy of the default, so the reset restores `{a: 1}` | not executed | OptionsAliasing.ResetAfterEditExample | OptionsSpec.ResetAfterSubItemEditRestoresDefault |
| src/OptionsManager.js:128-144 | `setItem` compares the new value with the cached one by `==`. When a caller changes the cached object in place and passes it back, the two are the same object. The new text is persisted but no change event fires. | `o = {a: 1}; setItem('k', o); o.a = 2; setItem('k', o)`: `getItem('k')` yields `{a: 2}` and no `k` listener is told | a change of the stored value is announced | not executed | OptionsAliasing.ResaveOfMutatedObjectIsSilent | OptionsSpec.SetItemOfObjectAlwaysFires |
