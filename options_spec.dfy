/**
 * The options store of `OptionsManager` as a value: registered definitions,
 * the in-memory cache, the category index, the persisted store and the log of
 * dispatched change events, with one function per operation giving the state
 * that operation leaves behind. The class in `OptionsManager` is proved
 * against these functions; the lemmas here state what the store promises.
 */
module OptionsSpec {
  import opened Collections
  import opened Strings
  import opened JsValues

  /**
   * A registered option (an entry of `#defaultValues`), and equally the object
   * handed to `addOption`: `None` and `Undefined` mark a field that is not set.
   */
  datatype Definition = Definition(
    name: string,
    optionType: Option<string>,
    defaultValue: Value,
    datalist: Option<seq<string>>,
    editable: Option<bool>)

  /** The JSON manifest given to `init`; an absent list is `None`, a falsy option entry `None`. */
  datatype Manifest = Manifest(categories: Option<seq<string>>, options: Option<seq<Option<Definition>>>)

  /** A dispatched `CustomEvent`: its type and its `detail` payload. */
  datatype OptionEvent = OptionEvent(eventType: string, name: string, value: Value)

  datatype State = State(
    defaults: map<string, Definition>,     // #defaultValues
    order: seq<string>,                    // key order of #defaultValues (insertion order)
    current: map<string, Value>,           // #currentValues
    categories: map<string, set<string>>,  // #categories: category name -> option names
    dirty: bool,                           // #dirtyCategories
    initialized: bool,                     // #initPromise has resolved
    storageAvailable: bool,                // typeof localStorage != 'undefined' and it does not throw
    store: map<string, StoredText>,        // localStorage
    events: seq<OptionEvent>)              // events dispatched so far

  /** The key order lists every definition once, and a definition carries its own key as name. */
  predicate WellFormed(s: State)
  {
    && NoDup(s.order)
    && (forall n :: n in s.defaults ==> n in s.order)
    && (forall i :: 0 <= i < |s.order| ==> s.order[i] in s.defaults)
    && (forall n :: n in s.defaults ==> s.defaults[n].name == n)
  }

  /** A freshly constructed store over the given `localStorage` contents. */
  function Initial(storageAvailable: bool, store: map<string, StoredText>): (s: State)
    ensures WellFormed(s)
  {
    State(map[], [], map[], map[], true, false, storageAvailable, store, [])
  }

  // ================================================================ change events

  /** The `<ancestor>.*` events for the dots among the first `k` characters, the nearest dot first. */
  function Wildcards(name: string, v: Value, k: nat): (evs: seq<OptionEvent>)
    requires k <= |name|
    ensures forall i :: 0 <= i < |evs| ==> evs[i].name == name && evs[i].value == v
    decreases k
  {
    if k == 0 then []
    else
      if name[k - 1] == '.' then [OptionEvent(name[..k - 1] + ".*", name, v)] + Wildcards(name, v, k - 1)
      else Wildcards(name, v, k - 1)
  }

  /**
   * The events `#valueChanged(name, v)` dispatches: the exact name, every
   * dot-truncated ancestor followed by `.*` from the longest to the shortest,
   * then `*`; each carries the full name and the value.
   */
  function Cascade(name: string, v: Value): seq<OptionEvent>
  {
    [OptionEvent(name, name, v)] + Wildcards(name, v, |name|) + [OptionEvent("*", name, v)]
  }

  /** One event per dot in the name plus two, each carrying the name and the value. */
  lemma CascadeShape(name: string, v: Value)
    ensures |Cascade(name, v)| == multiset(name)['.'] + 2
    ensures forall i :: 0 <= i < |Cascade(name, v)| ==> Cascade(name, v)[i].name == name && Cascade(name, v)[i].value == v
  {
    WildcardsCount(name, v, |name|);
    assert name[..|name|] == name;
  }

  /** One wildcard event per dot. */
  lemma {:induction false} WildcardsCount(name: string, v: Value, k: nat)
    requires k <= |name|
    ensures |Wildcards(name, v, k)| == multiset(name[..k])['.']
    decreases k
  {
    if k > 0 {
      WildcardsCount(name, v, k - 1);
      assert name[..k] == name[..k - 1] + [name[k - 1]];
      assert multiset(name[..k]) == multiset(name[..k - 1]) + multiset{name[k - 1]};
      assert multiset(name[..k])['.'] == multiset(name[..k - 1])['.'] + if name[k - 1] == '.' then 1 else 0;
    }
  }

  /** The event types, which is what a listener subscribes to. */
  function Types(evs: seq<OptionEvent>): (ts: seq<string>)
    ensures |ts| == |evs|
  {
    seq(|evs|, i requires 0 <= i < |evs| => evs[i].eventType)
  }

  /** `t` is `<ancestor>.*` for an ancestor of `name` that ends before one of its dots. */
  predicate IsAncestorPattern(name: string, t: string)
  {
    exists p :: 0 <= p < |name| && name[p] == '.' && t == name[..p] + ".*"
  }

  lemma {:induction false} WildcardTypes(name: string, v: Value, k: nat, t: string)
    requires k <= |name|
    ensures t in Types(Wildcards(name, v, k)) <==> exists p :: 0 <= p < k && name[p] == '.' && t == name[..p] + ".*"
    decreases k
  {
    if k > 0 {
      WildcardTypes(name, v, k - 1, t);
      var rest := Wildcards(name, v, k - 1);
      var w := Wildcards(name, v, k);
      if name[k - 1] == '.' {
        var e := OptionEvent(name[..k - 1] + ".*", name, v);
        assert w == [e] + rest;
        assert Types(w) == [e.eventType] + Types(rest);
        if exists p :: 0 <= p < k && name[p] == '.' && t == name[..p] + ".*" {
          var p :| 0 <= p < k && name[p] == '.' && t == name[..p] + ".*";
          if p == k - 1 {
            assert t == e.eventType;
          }
        }
      } else {
        assert w == rest;
        if exists p :: 0 <= p < k && name[p] == '.' && t == name[..p] + ".*" {
          var p :| 0 <= p < k && name[p] == '.' && t == name[..p] + ".*";
          assert p < k - 1;
        }
      }
    }
  }

  /** Every wildcard type ends in `*`; they get shorter along the sequence. */
  predicate WildcardShape(ts: seq<string>, k: nat)
  {
    && (forall i :: 0 <= i < |ts| ==> 2 <= |ts[i]| <= k + 1 && ts[i][|ts[i]| - 1] == '*')
    && (forall i, j :: 0 <= i < j < |ts| ==> |ts[j]| < |ts[i]|)
  }

  lemma {:induction false} WildcardsLongestFirst(name: string, v: Value, k: nat)
    requires k <= |name|
    ensures WildcardShape(Types(Wildcards(name, v, k)), k)
    decreases k
  {
    if k > 0 {
      WildcardsLongestFirst(name, v, k - 1);
      var rest := Wildcards(name, v, k - 1);
      if name[k - 1] == '.' {
        var t := name[..k - 1] + ".*";
        TypesCons(OptionEvent(t, name, v), rest);
        ShapeCons(t, Types(rest), k);
      } else {
        ShapeWeaken(Types(rest), k - 1);
      }
    }
  }

  lemma TypesCons(e: OptionEvent, evs: seq<OptionEvent>)
    ensures Types([e] + evs) == [e.eventType] + Types(evs)
  {
  }

  /** A pattern longer than every pattern of a well-shaped list can go in front of it. */
  lemma ShapeCons(t: string, ts: seq<string>, k: nat)
    requires k > 0 && WildcardShape(ts, k - 1)
    requires |t| == k + 1 && t[|t| - 1] == '*'
    ensures WildcardShape([t] + ts, k)
  {
    var us := [t] + ts;
    forall i, j | 0 <= i < j < |us| ensures |us[j]| < |us[i]|
    {
      assert us[j] == ts[j - 1];
      if i > 0 {
        assert us[i] == ts[i - 1];
      }
    }
    forall i | 0 <= i < |us| ensures 2 <= |us[i]| <= k + 1 && us[i][|us[i]| - 1] == '*'
    {
      if i > 0 {
        assert us[i] == ts[i - 1];
      }
    }
  }

  lemma ShapeWeaken(ts: seq<string>, k: nat)
    requires WildcardShape(ts, k)
    ensures WildcardShape(ts, k + 1)
  {
  }

  /**
   * A listener on `t` hears about a change of `name` exactly when `t` is the
   * name itself, `*`, or the wildcard of one of the name's ancestors.
   */
  lemma CascadeReaches(name: string, v: Value, t: string)
    ensures t in Types(Cascade(name, v)) <==> t == name || t == "*" || IsAncestorPattern(name, t)
  {
    var w := Wildcards(name, v, |name|);
    assert Types(Cascade(name, v)) == [name] + Types(w) + ["*"];
    WildcardTypes(name, v, |name|, t);
  }

  /**
   * For a name without `*`, no event type repeats, so each listener pattern
   * hears a change once; the ancestor wildcards come longest first.
   */
  lemma CascadeOncePerListener(name: string, v: Value)
    requires '*' !in name
    ensures NoDup(Types(Cascade(name, v)))
    ensures var ts := Types(Cascade(name, v));
      forall i, j :: 1 <= i < j < |ts| - 1 ==> |ts[j]| < |ts[i]|
  {
    var w := Types(Wildcards(name, v, |name|));
    var ts := Types(Cascade(name, v));
    assert ts == [name] + w + ["*"];
    WildcardsLongestFirst(name, v, |name|);
    assert forall i :: 1 <= i < |ts| - 1 ==> ts[i] == w[i - 1];
    forall i, j | 0 <= i < j < |ts| ensures ts[i] != ts[j]
    {
      if j == |ts| - 1 {
        if i > 0 {
          assert |ts[i]| >= 2;
        }
      } else if i == 0 {
        var t := ts[j];
        assert t[|t| - 1] == '*';
        assert '*' in t;
      }
    }
  }

  /** The cascade for the option "ui.panel.width". */
  lemma CascadeExample(name: string, v: Value)
    requires name == "ui.panel.width"
    ensures Types(Cascade(name, v)) == ["ui.panel.width", "ui.panel.*", "ui.*", "*"]
  {
    var w := [OptionEvent("ui.panel.*", name, v), OptionEvent("ui.*", name, v)];
    assert Wildcards(name, v, 14) == w by {
      assert name[2] == '.' && name[8] == '.';
      assert name[..2] + ".*" == "ui.*" && name[..8] + ".*" == "ui.panel.*";
      WildcardsSkip(name, v, 0, 2);
      WildcardsSkip(name, v, 3, 8);
      WildcardsSkip(name, v, 9, 14);
    }
    var c := [OptionEvent(name, name, v)] + w + [OptionEvent("*", name, v)];
    assert Types(c) == ["ui.panel.width", "ui.panel.*", "ui.*", "*"];
  }

  // ---------------------------------------------------------------- the loop of #valueChanged

  /** The loop step as written: `lastIndex = name.lastIndexOf('.', lastIndex - 1)`. */
  function AsWrittenStep(name: string, lastIndex: int): int
  {
    LastIndexOf(name, '.', lastIndex - 1)
  }

  /** `lastIndex` after `n` turns of the loop as written; -1 once the loop has exited. */
  function AsWrittenIndexAfter(name: string, n: nat): int
  {
    if n == 0 then LastIndexOf(name, '.', |name|)
    else
      var i := AsWrittenIndexAfter(name, n - 1);
      if i == -1 then -1 else AsWrittenStep(name, i)
  }

  /**
   * As written, the loop never exits for a name that begins with a dot:
   * `lastIndexOf('.', -1)` clamps the position to 0 and finds that dot again.
   */
  lemma {:induction false} AsWrittenLoopNeverExits(name: string, n: nat)
    requires |name| > 0 && name[0] == '.'
    ensures AsWrittenIndexAfter(name, n) >= 0
  {
    if n > 0 {
      AsWrittenLoopNeverExits(name, n - 1);
    }
  }

  /** The loop step with the intended stop once index 0 has been handled; it always moves left. */
  function CascadeStep(name: string, lastIndex: int): (r: int)
    requires 0 <= lastIndex < |name|
    ensures -1 <= r < lastIndex
    ensures r >= 0 ==> name[r] == '.'
    ensures forall j :: r < j < lastIndex ==> name[j] != '.'
  {
    if lastIndex == 0 then -1 else LastIndexOf(name, '.', lastIndex - 1)
  }

  /** Between two dots that are next to each other there is no wildcard event. */
  lemma {:induction false} WildcardsSkip(name: string, v: Value, j: nat, k: nat)
    requires j <= k <= |name|
    requires forall i :: j <= i < k ==> name[i] != '.'
    ensures Wildcards(name, v, k) == Wildcards(name, v, j)
    decreases k - j
  {
    if j < k {
      WildcardsSkip(name, v, j, k - 1);
    }
  }

  /** One turn of the corrected loop: the event for the dot at `lastIndex`, then the rest. */
  lemma WildcardsStep(name: string, v: Value, lastIndex: int)
    requires 0 <= lastIndex < |name| && name[lastIndex] == '.'
    ensures Wildcards(name, v, lastIndex + 1)
         == [OptionEvent(name[..lastIndex] + ".*", name, v)] + Wildcards(name, v, CascadeStep(name, lastIndex) + 1)
  {
    WildcardsSkip(name, v, CascadeStep(name, lastIndex) + 1, lastIndex);
  }

  // ================================================================ definitions

  /**
   * `addOption`'s merge: the name is lowercased, and each of type, default,
   * datalist and editable replaces the earlier value only when it is defined.
   */
  function Merge(prev: Option<Definition>, o: Definition): Definition
  {
    var base := if prev.Some? then prev.value else Definition("", None, Undefined, None, None);
    Definition(
      ToLower(o.name),
      if o.optionType.Some? then o.optionType else base.optionType,
      if !o.defaultValue.Undefined? then o.defaultValue else base.defaultValue,
      if o.datalist.Some? then o.datalist else base.datalist,
      if o.editable.Some? then o.editable else base.editable)
  }

  // ================================================================ reading and writing

  /**
   * `getItem(name)`: the parsed persisted entry when storage is available and
   * the entry is non-empty JSON, otherwise the registered default, otherwise undefined.
   */
  function ItemValue(s: State, name: string): Value
  {
    if s.storageAvailable && name in s.store && Parse(s.store[name]).Some? then Parse(s.store[name]).value
    else if name in s.defaults then s.defaults[name].defaultValue
    else Undefined
  }

  /** The value `getItem` falls back to when nothing usable is persisted. */
  function DefaultOf(s: State, name: string): Value
  {
    if name in s.defaults then s.defaults[name].defaultValue else Undefined
  }

  /**
   * `setItem(name, v)`: with storage available, persist first; then, unless the
   * cache already holds a loosely equal value, cache it and fire the cascade.
   * Without storage nothing changes.
   */
  function AfterSetItem(s: State, name: string, v: Value): State
  {
    if !s.storageAvailable then s
    else
      var s1 := s.(store := s.store[name := Serialize(v)]);
      if name in s.current && LooseEquals(v, s.current[name]) then s1
      else s1.(current := s.current[name := v], events := s.events + Cascade(name, v))
  }

  /**
   * `addOption(option)`: merge the definition under the lowercased name, then,
   * with storage available, write back what `getItem` yields (or the given
   * default when that is undefined) through `setItem`.
   */
  function AfterAddOption(s: State, option: Option<Definition>): State
  {
    if option.None? then s
    else
      var o := option.value;
      var n := ToLower(o.name);
      var s1 := Register(s, o);
      if !s1.storageAvailable then s1
      else
        var v := ItemValue(s1, n);
        AfterSetItem(s1, n, if v.Undefined? then o.defaultValue else v)
  }

  /** The registry half of `addOption`: the merged definition under the lowercased name, a new name last in key order. */
  function Register(s: State, o: Definition): State
  {
    var n := ToLower(o.name);
    var prev := if n in s.defaults then Some(s.defaults[n]) else None;
    s.(defaults := s.defaults[n := Merge(prev, o)],
       order := if n in s.defaults then s.order else s.order + [n])
  }

  /** `removeItem(name)`: definition, persisted entry and cached value go; no event. */
  function AfterRemoveItem(s: State, name: string): State
  {
    s.(defaults := s.defaults - {name},
       order := Without(s.order, name),
       store := if s.storageAvailable then s.store - {name} else s.store,
       current := s.current - {name})
  }

  /**
   * `resetItem(name)`: for a registered option with a defined default, drop the
   * cached value and `setItem` the default, so the cascade always fires.
   */
  function AfterResetItem(s: State, name: string): State
  {
    if name in s.defaults && !s.defaults[name].defaultValue.Undefined? then
      AfterSetItem(s.(current := s.current - {name}), name, s.defaults[name].defaultValue)
    else s
  }

  /** `resetItem` applied to each name in turn. */
  function ResetEach(s: State, names: seq<string>): State
    decreases |names|
  {
    if names == [] then s
    else AfterResetItem(ResetEach(s, names[..|names| - 1]), names[|names| - 1])
  }

  /** `resetAllItems()`: `resetItem` for every registered name, in key order. */
  function AfterResetAll(s: State): State
  {
    ResetEach(s, s.order)
  }

  /** `clear()`: no definitions, nothing persisted (the whole `localStorage`), nothing cached. */
  function AfterClear(s: State): State
  {
    s.(defaults := map[], order := [],
       store := if s.storageAvailable then map[] else s.store,
       current := map[])
  }

  // ================================================================ map-typed options

  /** The cached value is used by the sub-item operations (`?? {}` replaces null and undefined). */
  predicate IsCached(s: State, name: string)
  {
    name in s.current && !Nullish(s.current[name])
  }

  /** `this.#currentValues.get(name) ?? {}` */
  function CachedOrEmpty(s: State, name: string): Value
  {
    if IsCached(s, name) then s.current[name] else Obj(map[])
  }

  /** `getSubItem(name, sub)`: the key of the cached object; undefined for anything else. */
  function SubItemValue(s: State, name: string, sub: string): Value
  {
    var m := CachedOrEmpty(s, name);
    if m.Obj? then Field(m.fields, sub) else Undefined
  }

  /**
   * What `setSubItem` and `removeSubItem` do with the changed object: it
   * replaces the cached object when there was one (a fresh `{}` is not cached),
   * the cascade fires for the parent name, and the whole object is persisted
   * (the persisting throws, after the events, when storage is missing).
   */
  function Republish(s: State, name: string, m: Value): State
  {
    var s1 := s.(current := if IsCached(s, name) then s.current[name := m] else s.current,
                 events := s.events + Cascade(name, m));
    if s.storageAvailable then s1.(store := s1.store[name := Serialize(m)]) else s1
  }

  /**
   * `setSubItem(name, sub, v)`: only for an option of type `map`, and only when
   * the key does not already hold a loosely equal value. A primitive in the
   * cache makes the assignment throw, which is caught: nothing changes.
   */
  function AfterSetSubItem(s: State, name: string, sub: string, v: Value): State
  {
    var m := CachedOrEmpty(s, name);
    if !(name in s.defaults && s.defaults[name].optionType == Some("map")) then s
    else if !m.Obj? || LooseEquals(Field(m.fields, sub), v) then s
    else Republish(s, name, Obj(m.fields[sub := v]))
  }

  /** `removeSubItem(name, sub)`: no type check, and it fires even when the key was absent. */
  function AfterRemoveSubItem(s: State, name: string, sub: string): State
  {
    var m := CachedOrEmpty(s, name);
    if !m.Obj? then s else Republish(s, name, Obj(m.fields - {sub}))
  }

  // ================================================================ queries

  /** `getOption(name)` */
  function OptionOf(s: State, name: string): Option<Definition>
  {
    if name in s.defaults then Some(s.defaults[name]) else None
  }

  /** `getOptionType(name)` */
  function TypeOf(s: State, name: string): Option<string>
  {
    if name in s.defaults then s.defaults[name].optionType else None
  }

  /** `getList(name)`: the datalist of an option of type `list`, else undefined. */
  function ListOf(s: State, name: string): Option<seq<string>>
  {
    if name in s.defaults && s.defaults[name].optionType == Some("list") then s.defaults[name].datalist else None
  }

  /** The cached value as `Map.get` reports it. */
  function CachedValue(s: State, name: string): Value
  {
    if name in s.current then s.current[name] else Undefined
  }

  /**
   * The (name, cached value) pair of each of `names` whose definition has
   * type `t`, in the order of `names`; the name is the definition's own.
   */
  function OfTypeIn(s: State, names: seq<string>, t: string): seq<(string, Value)>
    decreases |names|
  {
    if names == [] then []
    else
      var n := names[|names| - 1];
      OfTypeIn(s, names[..|names| - 1], t)
        + if n in s.defaults && s.defaults[n].optionType == Some(t)
          then [(s.defaults[n].name, CachedValue(s, s.defaults[n].name))] else []
  }

  /**
   * `getOptionsPerType(t)`: a (name, cached value) pair per option of that
   * type, in registration order (a `Set` of fresh arrays keeps every pair, in
   * insertion order).
   */
  function OptionsOfType(s: State, t: string): seq<(string, Value)>
  {
    OfTypeIn(s, s.order, t)
  }

  /** `x` comes before `y` in `names`. */
  predicate Before(names: seq<string>, x: string, y: string)
  {
    exists a, b :: 0 <= a < b < |names| && names[a] == x && names[b] == y
  }

  /**
   * In a well-formed store, a pair is listed for a sub-sequence of the
   * registered names iff its name is one of them, of type `t`, paired with
   * its cached value; and the listed names keep the order of `names`.
   */
  lemma {:induction false} OfTypeInMembers(s: State, names: seq<string>, t: string)
    requires WellFormed(s)
    requires forall i :: 0 <= i < |names| ==> names[i] in s.defaults
    ensures forall p :: p in OfTypeIn(s, names, t) <==>
      p.0 in names && s.defaults[p.0].optionType == Some(t) && p.1 == CachedValue(s, p.0)
    ensures forall i, j :: 0 <= i < j < |OfTypeIn(s, names, t)| ==>
      Before(names, OfTypeIn(s, names, t)[i].0, OfTypeIn(s, names, t)[j].0)
    decreases |names|
  {
    if names != [] {
      var init := names[..|names| - 1];
      var n := names[|names| - 1];
      OfTypeInMembers(s, init, t);
      assert forall x :: x in names <==> x in init || x == n;
      var r := OfTypeIn(s, names, t);
      var q := OfTypeIn(s, init, t);
      forall i, j | 0 <= i < j < |r|
        ensures Before(names, r[i].0, r[j].0)
      {
        if j < |q| {
          assert r[i] == q[i] && r[j] == q[j];
          assert Before(init, q[i].0, q[j].0);
          var a, b :| 0 <= a < b < |init| && init[a] == q[i].0 && init[b] == q[j].0;
          assert names[a] == init[a] && names[b] == init[b];
        } else {
          assert r[j].0 == n && r[i] == q[i] && q[i] in q;
          var a :| 0 <= a < |init| && init[a] == q[i].0;
          assert names[a] == init[a] && names[|names| - 1] == n;
        }
      }
    }
  }

  /**
   * `getOptionsPerType(t)` lists exactly the options of type `t`, each with
   * its cached value, each once, in registration order.
   */
  lemma OptionsOfTypeMembers(s: State, t: string)
    requires WellFormed(s)
    ensures forall p :: p in OptionsOfType(s, t) <==>
      p.0 in s.defaults && s.defaults[p.0].optionType == Some(t) && p.1 == CachedValue(s, p.0)
    ensures forall i, j :: 0 <= i < j < |OptionsOfType(s, t)| ==> OptionsOfType(s, t)[i].0 != OptionsOfType(s, t)[j].0
    ensures forall i, j :: 0 <= i < j < |OptionsOfType(s, t)| ==>
      Before(s.order, OptionsOfType(s, t)[i].0, OptionsOfType(s, t)[j].0)
  {
    OfTypeInMembers(s, s.order, t);
    var r := OptionsOfType(s, t);
    forall i, j | 0 <= i < j < |r|
      ensures r[i].0 != r[j].0
    {
      assert Before(s.order, r[i].0, r[j].0);
      var a, b :| 0 <= a < b < |s.order| && s.order[a] == r[i].0 && s.order[b] == r[j].0;
      assert s.order[a] != s.order[b];
    }
  }

  // ================================================================ categories

  /** `c` is the longest category name that is a prefix of the option name `o`. */
  predicate IsLongestPrefix(c: string, cats: set<string>, o: string)
  {
    c in cats && c <= o && forall d :: d in cats && d <= o ==> |d| <= |c|
  }

  /** Every category with the option names it claims by longest prefix. */
  function Partition(cats: set<string>, names: set<string>): map<string, set<string>>
  {
    map c | c in cats :: set o | o in names && IsLongestPrefix(c, cats, o)
  }

  /** `#addCategory(name)`: a new, empty, lowercased category; the index is now stale. */
  function AfterAddCategory(s: State, name: string): State
  {
    s.(categories := s.categories[ToLower(name) := {}], dirty := true)
  }

  /** `#refreshCategories()`: recompute only when stale; afterwards never stale. */
  function AfterRefreshCategories(s: State): State
  {
    if s.dirty then s.(categories := Partition(s.categories.Keys, s.defaults.Keys), dirty := false)
    else s.(dirty := false)
  }

  function AddCategories(s: State, names: seq<string>): State
    decreases |names|
  {
    if names == [] then s else AfterAddCategory(AddCategories(s, names[..|names| - 1]), names[|names| - 1])
  }

  function AddOptions(s: State, options: seq<Option<Definition>>): State
    decreases |options|
  {
    if options == [] then s else AfterAddOption(AddOptions(s, options[..|options| - 1]), options[|options| - 1])
  }

  /**
   * `#initFromJSON(json)`: the listed categories, then the catch-all `''`, then
   * the options in order; init completes. A falsy manifest does nothing.
   */
  function AfterInit(s: State, json: Option<Manifest>): State
  {
    if json.None? then s
    else
      var m := json.value;
      var s1 := if m.categories.Some? then AddCategories(s, m.categories.value) else s;
      var s2 := AfterAddCategory(s1, "");
      var s3 := if m.options.Some? then AddOptions(s2, m.options.value) else s2;
      s3.(initialized := true)
  }

  // ================================================================ pure helpers

  /** The `#applyFilter` test: the row shows when the filter is empty or occurs in the lowercased name. */
  function RowVisible(filterText: string, optionName: string): bool
  {
    var f := ToLower(filterText);
    f == "" || IndexOf(ToLower(optionName), f) != -1
  }

  /** `readVec2Value(value)`: the two comma-separated parts, or null unless there are exactly two. */
  function ReadVec2Value(value: string): Option<(string, string)>
  {
    var v := Split(value, ',');
    if |v| == 2 then Some((v[0], v[1])) else None
  }

  // ================================================================ properties of reading and writing

  /** After a write, `getItem` returns the written value (undefined is not persistable and falls back). */
  lemma SetItemThenGetItem(s: State, name: string, v: Value)
    requires s.storageAvailable
    ensures ItemValue(AfterSetItem(s, name, v), name) == if v.Undefined? then DefaultOf(s, name) else v
  {
  }

  /** Without storage a write changes nothing, so `getItem` keeps returning the earlier value. */
  lemma SetItemWithoutStorage(s: State, name: string, v: Value)
    requires !s.storageAvailable
    ensures AfterSetItem(s, name, v) == s
  {
  }

  /** Writing a primitive twice is the same as writing it once: the second write fires nothing. */
  lemma SetItemIdempotent(s: State, name: string, v: Value)
    requires !v.Obj?
    ensures AfterSetItem(AfterSetItem(s, name, v), name, v) == AfterSetItem(s, name, v)
  {
    if s.storageAvailable {
      var s1 := AfterSetItem(s, name, v);
      assert name in s1.current && LooseEquals(v, s1.current[name]);
      assert s1.store[name := Serialize(v)] == s1.store;
    }
  }

  /** `setItem` touches only the store, the cache and the events. */
  lemma SetItemKeepsRegistry(s: State, name: string, v: Value)
    ensures var r := AfterSetItem(s, name, v);
      && r.defaults == s.defaults && r.order == s.order
      && r.categories == s.categories && r.dirty == s.dirty
      && r.initialized == s.initialized && r.storageAvailable == s.storageAvailable
  {
  }

  /** Writing the cached primitive again persists it but fires no event and leaves the cache alone. */
  lemma SetItemOfCurrentValueIsSilent(s: State, name: string, v: Value)
    requires name in s.current && s.current[name] == v && !v.Obj?
    ensures AfterSetItem(s, name, v).events == s.events
    ensures AfterSetItem(s, name, v).current == s.current
  {
  }

  /** Object values compare by reference, so writing one always fires the cascade. */
  lemma SetItemOfObjectAlwaysFires(s: State, name: string, v: Value)
    requires s.storageAvailable && v.Obj?
    ensures AfterSetItem(s, name, v).events == s.events + Cascade(name, v)
    ensures AfterSetItem(s, name, v).current == s.current[name := v]
  {
  }

  // ================================================================ properties of registration

  /**
   * `addOption` files the definition under the lowercased name, merged with
   * the earlier one; no other definition, and neither the category index nor
   * its stale flag, changes.
   */
  lemma AddOptionRegisters(s: State, o: Definition)
    ensures var n := ToLower(o.name);
      var s' := AfterAddOption(s, Some(o));
      && n in s'.defaults
      && s'.defaults[n] == Merge(if n in s.defaults then Some(s.defaults[n]) else None, o)
      && s'.defaults - {n} == s.defaults - {n}
      && s'.categories == s.categories && s'.dirty == s.dirty
  {
    var n := ToLower(o.name);
    var s1 := Register(s, o);
    if s1.storageAvailable {
      var v := ItemValue(s1, n);
      SetItemKeepsRegistry(s1, n, if v.Undefined? then o.defaultValue else v);
    }
  }

  /** Registering the same definition a second time leaves the merged definition as it was. */
  lemma MergeIdempotent(prev: Option<Definition>, o: Definition)
    ensures Merge(Some(Merge(prev, o)), o) == Merge(prev, o)
  {
    ToLowerIdempotent(o.name);
  }

  lemma ToLowerIdempotent(s: string)
    ensures ToLower(ToLower(s)) == ToLower(s)
  {
    assert forall i :: 0 <= i < |s| ==> ToLower(ToLower(s))[i] == ToLower(s)[i];
  }

  /**
   * With storage available, `addOption` keeps a persisted entry that parses and
   * otherwise persists the (merged) default.
   */
  lemma AddOptionReconcilesStore(s: State, o: Definition)
    requires s.storageAvailable
    ensures var n := ToLower(o.name);
      var s' := AfterAddOption(s, Some(o));
      && n in s'.store
      && (if n in s.store && Parse(s.store[n]).Some? then s'.store[n] == s.store[n]
          else s'.store[n] == Serialize(s'.defaults[n].defaultValue))
  {
  }

  lemma AddOptionWellFormed(s: State, option: Option<Definition>)
    requires WellFormed(s)
    ensures WellFormed(AfterAddOption(s, option))
  {
    if option.Some? {
      var o := option.value;
      var n := ToLower(o.name);
      var s1 := Register(s, o);
      if n !in s.defaults {
        assert n !in s.order;
        assert forall i :: 0 <= i < |s.order| ==> s1.order[i] == s.order[i];
      }
      assert WellFormed(s1);
      AddOptionRegistry(s, o);
      SameRegistryWellFormed(s1, AfterAddOption(s, option));
    }
  }

  lemma AddOptionRegistry(s: State, o: Definition)
    ensures var n := ToLower(o.name);
      && AfterAddOption(s, Some(o)).defaults == s.defaults[n := Merge(if n in s.defaults then Some(s.defaults[n]) else None, o)]
      && AfterAddOption(s, Some(o)).order == if n in s.defaults then s.order else s.order + [n]
  {
    var n := ToLower(o.name);
    var s1 := Register(s, o);
    if s1.storageAvailable {
      var v := ItemValue(s1, n);
      SetItemKeepsRegistry(s1, n, if v.Undefined? then o.defaultValue else v);
    }
  }

  lemma SameRegistryWellFormed(a: State, b: State)
    requires WellFormed(a) && a.defaults == b.defaults && a.order == b.order
    ensures WellFormed(b)
  {
  }

  // ================================================================ properties of reset, remove and clear

  /**
   * Resetting an option with a defined default makes `getItem` return it and
   * always fires the cascade, because the cached value is dropped first.
   */
  lemma ResetItemRestoresDefault(s: State, name: string)
    requires s.storageAvailable && name in s.defaults && !s.defaults[name].defaultValue.Undefined?
    ensures var s' := AfterResetItem(s, name);
      && ItemValue(s', name) == s.defaults[name].defaultValue
      && s'.events == s.events + Cascade(name, s.defaults[name].defaultValue)
  {
  }

  /**
   * With a copy of the default cached, the sub-item edits leave the
   * registered defaults alone, so a reset after an edit restores the default
   * as registered.
   */
  lemma ResetAfterSubItemEditRestoresDefault(s: State, name: string, sub: string, v: Value)
    requires s.storageAvailable && name in s.defaults && !s.defaults[name].defaultValue.Undefined?
    ensures AfterSetSubItem(s, name, sub, v).defaults == s.defaults
    ensures AfterRemoveSubItem(s, name, sub).defaults == s.defaults
    ensures ItemValue(AfterResetItem(AfterSetSubItem(s, name, sub, v), name), name) == s.defaults[name].defaultValue
    ensures ItemValue(AfterResetItem(AfterRemoveSubItem(s, name, sub), name), name) == s.defaults[name].defaultValue
  {
    SetSubItemKeepsRegistry(s, name, sub, v);
    RemoveSubItemKeepsRegistry(s, name, sub);
    ResetItemRestoresDefault(AfterSetSubItem(s, name, sub, v), name);
    ResetItemRestoresDefault(AfterRemoveSubItem(s, name, sub), name);
  }

  /** `setSubItem` leaves the registered definitions and the storage flag alone. */
  lemma SetSubItemKeepsRegistry(s: State, name: string, sub: string, v: Value)
    ensures AfterSetSubItem(s, name, sub, v).defaults == s.defaults
    ensures AfterSetSubItem(s, name, sub, v).storageAvailable == s.storageAvailable
  {
  }

  /** `removeSubItem` leaves the registered definitions and the storage flag alone. */
  lemma RemoveSubItemKeepsRegistry(s: State, name: string, sub: string)
    ensures AfterRemoveSubItem(s, name, sub).defaults == s.defaults
    ensures AfterRemoveSubItem(s, name, sub).storageAvailable == s.storageAvailable
  {
  }

  /** An unknown name or an undefined default makes `resetItem` a no-op. */
  lemma ResetItemWithoutDefault(s: State, name: string)
    requires name !in s.defaults || s.defaults[name].defaultValue.Undefined?
    ensures AfterResetItem(s, name) == s
  {
  }

  lemma {:induction false} ResetEachKeeps(s: State, names: seq<string>)
    ensures var r := ResetEach(s, names);
      && r.defaults == s.defaults && r.order == s.order && r.storageAvailable == s.storageAvailable
      && r.categories == s.categories && r.dirty == s.dirty && r.initialized == s.initialized
    decreases |names|
  {
    if names != [] {
      ResetEachKeeps(s, names[..|names| - 1]);
    }
  }

  lemma {:induction false} ResetEachRestores(s: State, names: seq<string>, n: string)
    requires s.storageAvailable && n in names
    requires n in s.defaults && !s.defaults[n].defaultValue.Undefined?
    ensures n in ResetEach(s, names).store
    ensures ResetEach(s, names).store[n] == Json(s.defaults[n].defaultValue)
    decreases |names|
  {
    var prefix := names[..|names| - 1];
    ResetEachKeeps(s, prefix);
    if names[|names| - 1] != n {
      assert n in prefix;
      ResetEachRestores(s, prefix, n);
    }
  }

  /** After `resetAllItems`, every option with a defined default reads as that default. */
  lemma ResetAllRestoresDefaults(s: State, n: string)
    requires WellFormed(s) && s.storageAvailable
    requires n in s.defaults && !s.defaults[n].defaultValue.Undefined?
    ensures ItemValue(AfterResetAll(s), n) == s.defaults[n].defaultValue
  {
    ResetEachRestores(s, s.order, n);
    ResetEachKeeps(s, s.order);
  }

  /** The cascades of a reset of every name in turn that has a defined default. */
  function ResetCascades(defs: map<string, Definition>, names: seq<string>): seq<OptionEvent>
    decreases |names|
  {
    if names == [] then []
    else
      var n := names[|names| - 1];
      ResetCascades(defs, names[..|names| - 1])
        + (if n in defs && !defs[n].defaultValue.Undefined? then Cascade(n, defs[n].defaultValue) else [])
  }

  /** `resetAllItems` fires one full cascade per option with a defined default, in key order. */
  lemma {:induction false} ResetEachEvents(s: State, names: seq<string>)
    requires s.storageAvailable
    ensures ResetEach(s, names).events == s.events + ResetCascades(s.defaults, names)
    decreases |names|
  {
    if names != [] {
      var prefix := names[..|names| - 1];
      var n := names[|names| - 1];
      var r := ResetEach(s, prefix);
      var c := if n in s.defaults && !s.defaults[n].defaultValue.Undefined? then Cascade(n, s.defaults[n].defaultValue) else [];
      assert ResetEach(s, names).events == r.events + c by {
        ResetEachKeeps(s, prefix);
        ResetItemEvents(r, n);
      }
      assert ResetCascades(s.defaults, names) == ResetCascades(s.defaults, prefix) + c;
      assert r.events == s.events + ResetCascades(s.defaults, prefix) by {
        ResetEachEvents(s, prefix);
      }
      assert (s.events + ResetCascades(s.defaults, prefix)) + c == s.events + (ResetCascades(s.defaults, prefix) + c);
    }
  }

  /** One `resetItem`: the cascade of the default when there is a defined one, else nothing. */
  lemma ResetItemEvents(s: State, n: string)
    requires s.storageAvailable
    ensures AfterResetItem(s, n).events
      == s.events + (if n in s.defaults && !s.defaults[n].defaultValue.Undefined? then Cascade(n, s.defaults[n].defaultValue) else [])
  {
    if !(n in s.defaults && !s.defaults[n].defaultValue.Undefined?) {
      assert s.events + [] == s.events;
    }
  }

  /** `removeItem` forgets that one name (no event); every other name reads as before. */
  lemma RemoveItemForgetsOnlyThatName(s: State, name: string, other: string)
    requires other != name
    ensures var s' := AfterRemoveItem(s, name);
      && name !in s'.defaults && name !in s'.current
      && (s.storageAvailable ==> ItemValue(s', name) == Undefined)
      && s'.events == s.events
      && ItemValue(s', other) == ItemValue(s, other)
      && CachedValue(s', other) == CachedValue(s, other)
      && OptionOf(s', other) == OptionOf(s, other)
  {
  }

  lemma RemoveItemWellFormed(s: State, name: string)
    requires WellFormed(s)
    ensures WellFormed(AfterRemoveItem(s, name))
  {
    var s' := AfterRemoveItem(s, name);
    forall n | n in s'.defaults ensures n in s'.order {
      var i :| 0 <= i < |s.order| && s.order[i] == n;
    }
  }

  /** After `clear` nothing is registered, persisted or cached: every name reads as undefined. */
  lemma ClearForgetsEverything(s: State, name: string)
    ensures var s' := AfterClear(s);
      && ItemValue(s', name) == Undefined && CachedValue(s', name) == Undefined
      && OptionOf(s', name) == None && s'.events == s.events
  {
  }

  // ================================================================ properties of map-typed options

  /** `setSubItem` on an option whose type is not `map` (or an unknown one) does nothing. */
  lemma SetSubItemNeedsMapType(s: State, name: string, sub: string, v: Value)
    requires !(name in s.defaults && s.defaults[name].optionType == Some("map"))
    ensures AfterSetSubItem(s, name, sub, v) == s
  {
  }

  /** `setSubItem` with the value the key already (loosely) holds does nothing. */
  lemma SetSubItemSameValueIsSilent(s: State, name: string, sub: string, v: Value)
    requires LooseEquals(SubItemValue(s, name, sub), v)
    ensures AfterSetSubItem(s, name, sub, v) == s
  {
  }

  /**
   * On a cached map, `setSubItem` changes only that key, fires the cascade for
   * the parent name with the whole map, and persists the whole map.
   */
  lemma SetSubItemUpdatesOneKey(s: State, name: string, sub: string, v: Value, key: string)
    requires name in s.defaults && s.defaults[name].optionType == Some("map")
    requires IsCached(s, name) && s.current[name].Obj?
    requires !LooseEquals(SubItemValue(s, name, sub), v)
    ensures var s' := AfterSetSubItem(s, name, sub, v);
      && SubItemValue(s', name, sub) == v
      && (key != sub ==> SubItemValue(s', name, key) == SubItemValue(s, name, key))
      && s'.events == s.events + Cascade(name, s'.current[name])
      && (s.storageAvailable ==> ItemValue(s', name) == s'.current[name])
  {
  }

  /**
   * When nothing usable is cached, `setSubItem` builds a fresh `{}` that is
   * persisted and announced but never cached, so `getSubItem` still sees nothing.
   */
  lemma SetSubItemUncachedIsNotCached(s: State, name: string, sub: string, v: Value)
    requires !IsCached(s, name)
    ensures SubItemValue(AfterSetSubItem(s, name, sub, v), name, sub) == Undefined
  {
  }

  /** On a cached map, `removeSubItem` drops that key only and fires even if it was absent. */
  lemma RemoveSubItemDropsOneKey(s: State, name: string, sub: string, key: string)
    requires IsCached(s, name) && s.current[name].Obj?
    ensures var s' := AfterRemoveSubItem(s, name, sub);
      && SubItemValue(s', name, sub) == Undefined
      && (key != sub ==> SubItemValue(s', name, key) == SubItemValue(s, name, key))
      && s'.events == s.events + Cascade(name, s'.current[name])
  {
  }

  // ================================================================ properties of categories

  function LongestPrefixLength(cats: set<string>, o: string, i: nat): (j: int)
    requires i <= |o|
    ensures -1 <= j <= i
    ensures j >= 0 ==> o[..j] in cats
    ensures forall k :: j < k <= i ==> o[..k] !in cats
    decreases i
  {
    if o[..i] in cats then i else if i == 0 then -1 else LongestPrefixLength(cats, o, i - 1)
  }

  /** With the catch-all `''` registered, every option name has a longest category prefix. */
  lemma LongestPrefixExists(cats: set<string>, o: string) returns (c: string)
    requires "" in cats
    ensures IsLongestPrefix(c, cats, o)
  {
    var j := LongestPrefixLength(cats, o, |o|);
    assert o[..0] == "";
    c := o[..j];
    forall d | d in cats && d <= o ensures |d| <= |c| {
      assert d == o[..|d|];
    }
  }

  /** Two longest prefixes of the same name are the same category. */
  lemma LongestPrefixUnique(c1: string, c2: string, cats: set<string>, o: string)
    requires IsLongestPrefix(c1, cats, o) && IsLongestPrefix(c2, cats, o)
    ensures c1 == c2
  {
    assert c1 == o[..|c1|] && c2 == o[..|c2|];
  }

  /**
   * After a refresh of a stale index that holds `''`, each registered option
   * sits in exactly one category, the longest one that prefixes its name.
   */
  lemma RefreshPlacesEachOptionOnce(s: State, o: string)
    requires s.dirty && "" in s.categories && o in s.defaults
    ensures var p := AfterRefreshCategories(s).categories;
      && p.Keys == s.categories.Keys
      && (exists c :: c in p && o in p[c])
      && (forall c :: c in p && o in p[c] ==> IsLongestPrefix(c, p.Keys, o))
      && (forall c1, c2 :: c1 in p && c2 in p && o in p[c1] && o in p[c2] ==> c1 == c2)
  {
    var p := AfterRefreshCategories(s).categories;
    var c := LongestPrefixExists(s.categories.Keys, o);
    assert o in p[c];
    forall c1, c2 | c1 in p && c2 in p && o in p[c1] && o in p[c2] ensures c1 == c2 {
      LongestPrefixUnique(c1, c2, s.categories.Keys, o);
    }
  }

  /** A refresh places registered options only, and a fresh index is never recomputed. */
  lemma RefreshOnlyWhenStale(s: State)
    ensures !AfterRefreshCategories(s).dirty
    ensures !s.dirty ==> AfterRefreshCategories(s).categories == s.categories
    ensures s.dirty ==> forall c, o ::
      (c in AfterRefreshCategories(s).categories && o in AfterRefreshCategories(s).categories[c]) ==> o in s.defaults
  {
  }

  /** "ui.panel.width" goes to "ui" when that category exists, and to the catch-all otherwise. */
  lemma CategoryExample(s: State, name: string)
    requires name == "ui.panel.width" && s.dirty && name in s.defaults
    ensures s.categories.Keys == {"", "ui"} ==> name in AfterRefreshCategories(s).categories["ui"]
    ensures s.categories.Keys == {""} ==> name in AfterRefreshCategories(s).categories[""]
  {
    assert "ui" <= name;
  }

  /**
   * `addOption` does not mark the index stale, so an option registered after a
   * refresh stays out of every category until a category is added.
   */
  lemma AddOptionAfterRefreshIsUncategorized(s: State, o: Definition)
    requires s.dirty && ToLower(o.name) !in s.defaults
    ensures var s2 := AfterRefreshCategories(AfterAddOption(AfterRefreshCategories(s), Some(o)));
      && !s2.dirty
      && forall c :: c in s2.categories ==> ToLower(o.name) !in s2.categories[c]
  {
  }

  // ================================================================ properties of initialization

  /** Each listed category, lowercased, is present afterwards, and no earlier category is lost. */
  lemma {:induction false} AddCategoriesContains(s: State, names: seq<string>)
    ensures var r := AddCategories(s, names);
      && s.categories.Keys <= r.categories.Keys
      && (forall i :: 0 <= i < |names| ==> ToLower(names[i]) in r.categories)
      && r.defaults == s.defaults
    decreases |names|
  {
    if names != [] {
      var prefix := names[..|names| - 1];
      AddCategoriesContains(s, prefix);
      assert forall i :: 0 <= i < |prefix| ==> prefix[i] == names[i];
    }
  }

  /**
   * Each listed option is registered under its lowercased name, no earlier
   * definition is lost, and the category index and its stale flag stay.
   */
  lemma {:induction false} AddOptionsRegisters(s: State, options: seq<Option<Definition>>)
    ensures var r := AddOptions(s, options);
      && s.defaults.Keys <= r.defaults.Keys
      && (forall i :: 0 <= i < |options| && options[i].Some? ==> ToLower(options[i].value.name) in r.defaults)
      && r.categories == s.categories && r.dirty == s.dirty
    decreases |options|
  {
    if options != [] {
      var prefix := options[..|options| - 1];
      AddOptionsRegisters(s, prefix);
      var last := options[|options| - 1];
      var r := AddOptions(s, options);
      assert r == AfterAddOption(AddOptions(s, prefix), last);
      if last.Some? {
        AddOptionGrows(AddOptions(s, prefix), last.value);
      }
      forall i | 0 <= i < |options| && options[i].Some?
        ensures ToLower(options[i].value.name) in r.defaults
      {
        if i < |prefix| {
          assert options[i] == prefix[i];
        }
      }
    }
  }

  /** One more option: the registry only grows, by the lowercased name; categories and the stale flag stay. */
  lemma AddOptionGrows(s: State, o: Definition)
    ensures var r := AfterAddOption(s, Some(o));
      && s.defaults.Keys + {ToLower(o.name)} <= r.defaults.Keys
      && r.categories == s.categories && r.dirty == s.dirty
  {
    AddOptionRegistry(s, o);
    AddOptionRegisters(s, o);
  }

  /**
   * After `#initFromJSON` with a manifest, init has completed, every listed
   * category and the catch-all `''` exist, the index is stale, and every
   * listed option is registered under its lowercased name.
   */
  lemma InitRegistersManifest(s: State, m: Manifest)
    ensures var r := AfterInit(s, Some(m));
      && r.initialized && r.dirty
      && "" in r.categories
      && (m.categories.Some? ==> forall i :: 0 <= i < |m.categories.value| ==> ToLower(m.categories.value[i]) in r.categories)
      && (m.options.Some? ==> forall i :: 0 <= i < |m.options.value| && m.options.value[i].Some? ==>
            ToLower(m.options.value[i].value.name) in r.defaults)
  {
    var s1 := if m.categories.Some? then AddCategories(s, m.categories.value) else s;
    if m.categories.Some? {
      AddCategoriesContains(s, m.categories.value);
    }
    var s2 := AfterAddCategory(s1, "");
    assert ToLower("") == "";
    if m.options.Some? {
      AddOptionsRegisters(s2, m.options.value);
    }
  }

  // ================================================================ properties of the pure helpers

  /** A row is visible exactly when the lowercased filter occurs in the lowercased option name. */
  lemma RowVisibleIff(filterText: string, optionName: string)
    ensures RowVisible(filterText, optionName) <==> exists i :: OccursAt(ToLower(optionName), ToLower(filterText), i)
  {
    if ToLower(filterText) == "" {
      assert OccursAt(ToLower(optionName), ToLower(filterText), 0);
    }
  }

  /** Filtering ignores the case of both the filter text and the option name. */
  lemma RowVisibleIgnoresCase(filterText: string, optionName: string)
    ensures RowVisible(ToUpper(filterText), optionName) == RowVisible(filterText, optionName)
    ensures RowVisible(filterText, ToUpper(optionName)) == RowVisible(filterText, optionName)
  {
    ToLowerOfUpper(filterText);
    ToLowerOfUpper(optionName);
  }

  /** `readVec2Value` yields a pair exactly when the text holds one comma. */
  lemma ReadVec2ValueIff(value: string)
    ensures ReadVec2Value(value).Some? <==> multiset(value)[','] == 1
  {
    SplitLength(value, ',');
  }

  /** Two comma-free parts joined by a comma read back as that pair. */
  lemma ReadVec2ValueRoundTrip(x: string, y: string)
    requires ',' !in x && ',' !in y
    ensures ReadVec2Value(x + [','] + y) == Some((x, y))
  {
    assert [x, y][1..] == [y];
    assert Join([x, y], ',') == x + [','] + y;
    SplitJoin([x, y], ',');
  }
}
