/**
 * The `OptionsManager` singleton: a class over the same state as
 * `OptionsSpec.State`, whose methods change it step by step the way the
 * component does and are proved to leave exactly the state the matching
 * `OptionsSpec` function describes.
 */
module OptionsManager {
  import opened Collections
  import opened Strings
  import opened JsValues
  import opened OptionsSpec

  class OptionsManager {
    var defaults: map<string, Definition>     // #defaultValues
    var order: seq<string>                    // its key order
    var current: map<string, Value>           // #currentValues
    var categories: map<string, set<string>>  // #categories
    var dirty: bool                           // #dirtyCategories
    var initialized: bool                     // #initPromise has resolved
    const storageAvailable: bool              // typeof localStorage != 'undefined'
    var store: map<string, StoredText>        // localStorage
    var events: seq<OptionEvent>              // events dispatched so far

    function State(): OptionsSpec.State
      reads this
    {
      OptionsSpec.State(defaults, order, current, categories, dirty, initialized, storageAvailable, store, events)
    }

    predicate Valid()
      reads this
    {
      WellFormed(State())
    }

    constructor(storageAvailable: bool, store: map<string, StoredText>)
      ensures Valid() && State() == Initial(storageAvailable, store)
    {
      defaults := map[];
      order := [];
      current := map[];
      categories := map[];
      dirty := true;
      initialized := false;
      this.storageAvailable := storageAvailable;
      this.store := store;
      events := [];
    }

    // ---------------------------------------------------------------- change events

    /**
     * `#valueChanged`: the exact name, then `<prefix>.*` for each dot from the
     * last to the first, then `*`. The walk stops after the dot at index 0.
     */
    method ValueChanged(name: string, value: Value)
      modifies this`events
      ensures State() == old(State()).(events := old(events) + Cascade(name, value))
    {
      ghost var start := events;
      events := events + [OptionEvent(name, name, value)];
      AnnounceWildcards(name, value);
      events := events + [OptionEvent("*", name, value)];
      assert events == start + Cascade(name, value);
    }

    /** The `while` loop of `#valueChanged`: one `<prefix>.*` event per dot, last dot first. */
    method AnnounceWildcards(name: string, value: Value)
      modifies this`events
      ensures events == old(events) + Wildcards(name, value, |name|)
    {
      var lastIndex := LastIndexOf(name, '.', |name|);
      WildcardsSkip(name, value, lastIndex + 1, |name|);
      while lastIndex != -1
        invariant -1 <= lastIndex < |name|
        invariant lastIndex >= 0 ==> name[lastIndex] == '.'
        invariant events + Wildcards(name, value, lastIndex + 1) == old(events) + Wildcards(name, value, |name|)
        decreases lastIndex
      {
        var e := OptionEvent(name[..lastIndex] + ".*", name, value);
        var next := CascadeStep(name, lastIndex);
        assert (events + [e]) + Wildcards(name, value, next + 1) == events + Wildcards(name, value, lastIndex + 1) by {
          WildcardsStep(name, value, lastIndex);
        }
        events := events + [e];
        lastIndex := next;
      }
      assert events + [] == events;
    }

    // ---------------------------------------------------------------- reading and writing

    /** `getItem(name)` */
    method GetItem(name: string) returns (value: Value)
      ensures value == ItemValue(State(), name)
    {
      if storageAvailable && name in store {
        var parsed := Parse(store[name]);
        if parsed.Some? {
          return parsed.value;
        }
      }
      if name in defaults {
        return defaults[name].defaultValue;
      }
      return Undefined;
    }

    /** `setItem(name, value)` */
    method SetItem(name: string, value: Value)
      modifies this
      ensures State() == AfterSetItem(old(State()), name, value)
    {
      if storageAvailable {
        store := store[name := Serialize(value)];
        if name in current && LooseEquals(value, current[name]) {
          return;
        }
        current := current[name := value];
        ValueChanged(name, value);
      }
    }

    /** `addOption(option)`: merge field by field, then write back what `getItem` yields. */
    method AddOption(option: Option<Definition>)
      requires Valid()
      modifies this
      ensures Valid() && State() == AfterAddOption(old(State()), option)
    {
      if option.Some? {
        var o := option.value;
        var name := ToLower(o.name);
        var previous := if name in defaults then Some(defaults[name]) else None;
        var dv := MergeDefinition(previous, o);
        if name !in defaults {
          order := order + [name];
        }
        defaults := defaults[name := dv];
        if storageAvailable {
          var value := GetItem(name);
          if value.Undefined? {
            SetItem(name, o.defaultValue);
          } else {
            SetItem(name, value);
          }
        }
        AddOptionRegistry(old(State()), o);
        assert State() == AfterAddOption(old(State()), option);
      }
      AddOptionWellFormed(old(State()), option);
    }

    /** `removeItem(name)` */
    method RemoveItem(name: string)
      requires Valid()
      modifies this
      ensures Valid() && State() == AfterRemoveItem(old(State()), name)
    {
      RemoveItemWellFormed(State(), name);
      defaults := defaults - {name};
      order := Without(order, name);
      if storageAvailable {
        store := store - {name};
      }
      current := current - {name};
    }

    /** `resetItem(name)` */
    method ResetItem(name: string)
      requires Valid()
      modifies this
      ensures Valid() && State() == AfterResetItem(old(State()), name)
    {
      if name in defaults {
        var defaultValue := defaults[name].defaultValue;
        if !defaultValue.Undefined? {
          current := current - {name};
          SetItem(name, defaultValue);
        }
      }
    }

    /** `resetItems(names)` */
    method ResetItems(names: seq<string>)
      requires Valid()
      modifies this
      ensures Valid() && State() == ResetEach(old(State()), names)
    {
      var i := 0;
      while i < |names|
        invariant 0 <= i <= |names|
        invariant Valid() && State() == ResetEach(old(State()), names[..i])
      {
        assert names[..i + 1][..i] == names[..i];
        ResetItem(names[i]);
        i := i + 1;
      }
      assert names[..|names|] == names;
    }

    /** `resetAllItems()`: every registered name in key order. */
    method ResetAllItems()
      requires Valid()
      modifies this
      ensures Valid() && State() == AfterResetAll(old(State()))
    {
      ResetItems(order);
    }

    /** `clear()` */
    method Clear()
      requires Valid()
      modifies this
      ensures Valid() && State() == AfterClear(old(State()))
    {
      defaults := map[];
      order := [];
      if storageAvailable {
        store := map[];
      }
      current := map[];
    }

    // ---------------------------------------------------------------- map-typed options

    /** `getSubItem(name, subName)` */
    method GetSubItem(name: string, subName: string) returns (value: Value)
      ensures value == SubItemValue(State(), name, subName)
    {
      var m := if name in current && !Nullish(current[name]) then current[name] else Obj(map[]);
      if m.Obj? {
        return Field(m.fields, subName);
      }
      return Undefined;
    }

    /** `setSubItem(name, subName, value)`, once `init` has completed. */
    method SetSubItem(name: string, subName: string, value: Value)
      requires Valid() && initialized
      modifies this
      ensures Valid() && State() == AfterSetSubItem(old(State()), name, subName, value)
    {
      var option := GetOption(name);
      if option.Some? && option.value.optionType == Some("map") {
        var cached := name in current && !Nullish(current[name]);
        var m := if cached then current[name] else Obj(map[]);
        var previous := if m.Obj? then Field(m.fields, subName) else Undefined;
        if LooseEquals(previous, value) {
          return;
        }
        if !m.Obj? {
          // assigning a property of a primitive throws in strict code; the exception is caught
          return;
        }
        PublishObject(name, Obj(m.fields[subName := value]));
      }
    }

    /** `removeSubItem(name, subName)` */
    method RemoveSubItem(name: string, subName: string)
      requires Valid()
      modifies this
      ensures Valid() && State() == AfterRemoveSubItem(old(State()), name, subName)
    {
      var cached := name in current && !Nullish(current[name]);
      var m := if cached then current[name] else Obj(map[]);
      if m.Obj? {
        PublishObject(name, Obj(m.fields - {subName}));
      }
    }

    /**
     * The common tail of `setSubItem` and `removeSubItem`: the cached object is
     * replaced, the change is announced, and the object is written to storage.
     */
    method PublishObject(name: string, updated: Value)
      modifies this`current, this`events, this`store
      ensures State() == Republish(old(State()), name, updated)
    {
      if name in current && !Nullish(current[name]) {
        current := current[name := updated];
      }
      ValueChanged(name, updated);
      if storageAvailable {
        store := store[name := Serialize(updated)];
      }
    }

    // ---------------------------------------------------------------- queries (after init)

    /** `getOption(name)` */
    method GetOption(name: string) returns (option: Option<Definition>)
      requires Valid() && initialized
      ensures option == OptionOf(State(), name)
      ensures option.Some? <==> name in defaults
      ensures option.Some? ==> option.value.name == name
    {
      if name in defaults {
        return Some(defaults[name]);
      }
      return None;
    }

    /** `getOptionType(name)` */
    method GetOptionType(name: string) returns (optionType: Option<string>)
      requires initialized
      ensures optionType == TypeOf(State(), name)
    {
      if name in defaults {
        return defaults[name].optionType;
      }
      return None;
    }

    /** `getList(name)` */
    method GetList(name: string) returns (datalist: Option<seq<string>>)
      requires initialized
      ensures datalist == ListOf(State(), name)
    {
      if name in defaults && defaults[name].optionType == Some("list") {
        return defaults[name].datalist;
      }
      return None;
    }

    /**
     * `getOptionsPerType(type)`: walks the definitions in key order and pairs
     * each definition's own name with its cached value.
     */
    method GetOptionsPerType(t: string) returns (ret: seq<(string, Value)>)
      requires Valid() && initialized
      ensures ret == OptionsOfType(State(), t)
    {
      ret := [];
      var i := 0;
      while i < |order|
        invariant 0 <= i <= |order|
        invariant ret == OfTypeIn(State(), order[..i], t)
      {
        var option := defaults[order[i]];
        if option.optionType == Some(t) {
          var optionName := option.name;
          ret := ret + [(optionName, CachedValue(State(), optionName))];
        }
        assert order[..i + 1] == order[..i] + [order[i]];
        i := i + 1;
      }
      assert order[..|order|] == order;
    }

    // ---------------------------------------------------------------- categories and init

    /** `#addCategory(name)` */
    method AddCategory(name: string)
      requires Valid()
      modifies this
      ensures Valid() && State() == AfterAddCategory(old(State()), name)
    {
      categories := categories[ToLower(name) := {}];
      dirty := true;
    }

    /** `#refreshCategories()`: when stale, empty every category and place each option again. */
    method RefreshCategories()
      requires Valid()
      modifies this
      ensures Valid() && State() == AfterRefreshCategories(old(State()))
    {
      if dirty {
        categories := PartitionByCategory(categories.Keys, defaults.Keys);
      }
      dirty := false;
    }

    /** `#initFromJSON(json)` */
    method InitFromJson(json: Option<Manifest>)
      requires Valid()
      modifies this
      ensures Valid() && State() == AfterInit(old(State()), json)
    {
      if json.None? {
        return;
      }
      var m := json.value;
      if m.categories.Some? {
        AddCategoryList(m.categories.value);
      }
      AddCategory("");
      if m.options.Some? {
        AddOptionList(m.options.value);
      }
      initialized := true;
    }

    /** The loop of `#initFromJSON` over the manifest's categories. */
    method AddCategoryList(names: seq<string>)
      requires Valid()
      modifies this
      ensures Valid() && State() == AddCategories(old(State()), names)
    {
      for i := 0 to |names|
        invariant Valid() && State() == AddCategories(old(State()), names[..i])
      {
        assert names[..i + 1][..i] == names[..i];
        AddCategory(names[i]);
      }
      assert names[..|names|] == names;
    }

    /** The loop of `#initFromJSON` over the manifest's options. */
    method AddOptionList(options: seq<Option<Definition>>)
      requires Valid()
      modifies this
      ensures Valid() && State() == AddOptions(old(State()), options)
    {
      for i := 0 to |options|
        invariant Valid() && State() == AddOptions(old(State()), options[..i])
      {
        assert options[..i + 1][..i] == options[..i];
        AddOption(options[i]);
      }
      assert options[..|options|] == options;
    }
  }

  /**
   * The merge inside `addOption`: the (lowercased) name is set, and each other
   * field of the earlier definition is overwritten only when the new one defines it.
   */
  method MergeDefinition(previous: Option<Definition>, o: Definition) returns (dv: Definition)
    ensures dv == Merge(previous, o)
  {
    dv := if previous.Some? then previous.value else Definition("", None, Undefined, None, None);
    dv := dv.(name := ToLower(o.name));
    if o.optionType.Some? {
      dv := dv.(optionType := o.optionType);
    }
    if !o.defaultValue.Undefined? {
      dv := dv.(defaultValue := o.defaultValue);
    }
    if o.datalist.Some? {
      dv := dv.(datalist := o.datalist);
    }
    if o.editable.Some? {
      dv := dv.(editable := o.editable);
    }
  }

  /**
   * The body of `#refreshCategories`: each category emptied, then every
   * option pushed into the category that is its longest prefix.
   */
  method PartitionByCategory(cats: set<string>, names: set<string>) returns (partition: map<string, set<string>>)
    ensures partition == Partition(cats, names)
  {
    partition := map c | c in cats :: {};
    var todo := names;
    while todo != {}
      invariant todo <= names
      invariant partition.Keys == cats
      invariant forall c :: c in cats ==>
        partition[c] == set o | o in names - todo && IsLongestPrefix(c, cats, o)
      decreases todo
    {
      var o :| o in todo;
      var cat := FindCategory(cats, o);
      if cat.Some? {
        partition := partition[cat.value := partition[cat.value] + {o}];
      }
      forall c | c in cats
        ensures partition[c] == set p | p in names - (todo - {o}) && IsLongestPrefix(c, cats, p)
      {
        if cat.Some? && IsLongestPrefix(c, cats, o) {
          LongestPrefixUnique(c, cat.value, cats, o);
        }
      }
      todo := todo - {o};
    }
    assert names - todo == names;
  }

  /**
   * The inner loop of `#refreshCategories`: the longest category name that
   * prefixes the option name (`''` prefixes every name), if any.
   */
  method FindCategory(cats: set<string>, o: string) returns (cat: Option<string>)
    ensures cat.None? <==> forall d :: d in cats ==> !(d <= o)
    ensures cat.Some? ==> IsLongestPrefix(cat.value, cats, o)
  {
    var maxLength := -1;
    cat := None;
    var todo := cats;
    while todo != {}
      invariant todo <= cats
      invariant cat.None? ==> maxLength == -1 && forall d :: d in cats - todo ==> !(d <= o)
      invariant cat.Some? ==> cat.value in cats && cat.value <= o && maxLength == |cat.value|
      invariant cat.Some? ==> forall d :: d in cats - todo && d <= o ==> |d| <= maxLength
      decreases todo
    {
      var c :| c in todo;
      if |c| > maxLength {
        if c <= o || c == "" {
          maxLength := |c|;
          cat := Some(c);
        }
      }
      assert cats - (todo - {c}) == (cats - todo) + {c};
      todo := todo - {c};
    }
    assert cats - todo == cats;
  }

  /** `#applyFilter()`: for each row, in order, whether it stays displayed. */
  method ApplyFilter(filter: string, rowNames: seq<string>) returns (shown: seq<bool>)
    ensures |shown| == |rowNames|
    ensures forall i :: 0 <= i < |rowNames| ==> shown[i] == RowVisible(filter, rowNames[i])
  {
    var currentFilter := ToLower(filter);
    shown := [];
    for i := 0 to |rowNames|
      invariant |shown| == i
      invariant forall j :: 0 <= j < i ==> shown[j] == RowVisible(filter, rowNames[j])
    {
      var optionName := ToLower(rowNames[i]);
      shown := shown + [currentFilter == "" || IndexOf(optionName, currentFilter) != -1];
    }
  }
}
