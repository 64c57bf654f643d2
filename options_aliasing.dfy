/**
 * The options store as written, where the object cached for an option can be
 * the very object registered as its default (`dv.dv`). `addOption` caches
 * what `getItem` falls back to, which is the default object itself, and
 * `resetItem` caches the default object; `setSubItem` and `removeSubItem`
 * then edit the cached object in place, and with it the registered default.
 * `OptionsSpec` models the store as if a copy were cached; this module adds
 * the sharing on top of it and shows where the two part ways.
 */
module OptionsAliasing {
  import opened Collections
  import opened Strings
  import opened JsValues
  import opened OptionsSpec

  /** A store together with the names whose cached value is their registered default object. */
  datatype Aliased = Aliased(state: State, shared: set<string>)

  /**
   * A shared name is cached and registered with the cached object as its
   * default; sharing only arises with storage present, and a shared object is
   * persisted as it stands.
   */
  predicate Consistent(a: Aliased)
  {
    forall n :: n in a.shared ==>
      && a.state.storageAvailable
      && n in a.state.current && n in a.state.defaults
      && a.state.current[n] == a.state.defaults[n].defaultValue
      && (a.state.current[n].Obj? ==> n in a.state.store && a.state.store[n] == Serialize(a.state.current[n]))
  }

  /** `setItem(name, v)` replaces the cached value: storage is present and the cache does not loosely equal `v`. */
  predicate CachesOnSet(s: State, name: string, v: Value)
  {
    s.storageAvailable && !(name in s.current && LooseEquals(v, s.current[name]))
  }

  /** `setItem(name, v)`: a value from the caller is never the registered default. */
  function SetItem(a: Aliased, name: string, v: Value): Aliased
  {
    Aliased(AfterSetItem(a.state, name, v), if CachesOnSet(a.state, name, v) then a.shared - {name} else a.shared)
  }

  /**
   * `addOption(option)`: a given default replaces the registered object, so
   * the cache no longer shares it; when nothing usable is persisted, the value
   * written back is the registered default object, and the cache shares it.
   */
  function AddOption(a: Aliased, option: Option<Definition>): Aliased
  {
    if option.None? then a
    else
      var o := option.value;
      var n := ToLower(o.name);
      var s1 := Register(a.state, o);
      var kept := if o.defaultValue.Undefined? then a.shared else a.shared - {n};
      var fromDefault := !(n in s1.store && Parse(s1.store[n]).Some?);
      var v := ItemValue(s1, n);
      var w := if v.Undefined? then o.defaultValue else v;
      Aliased(AfterAddOption(a.state, option),
              if !CachesOnSet(s1, n, w) then kept
              else if fromDefault then kept + {n}
              else kept - {n})
  }

  /** `resetItem(name)`: with storage present the default object itself is cached. */
  function ResetItem(a: Aliased, name: string): Aliased
  {
    var s := a.state;
    if name in s.defaults && !s.defaults[name].defaultValue.Undefined? then
      Aliased(AfterResetItem(s, name), if s.storageAvailable then a.shared + {name} else a.shared - {name})
    else a
  }

  /** `removeItem(name)`: the definition and the cached value go, and so does the sharing. */
  function RemoveItem(a: Aliased, name: string): Aliased
  {
    Aliased(AfterRemoveItem(a.state, name), a.shared - {name})
  }

  /** `clear()` */
  function Clear(a: Aliased): Aliased
  {
    Aliased(AfterClear(a.state), {})
  }

  /** The common tail of the sub-item edits: an edited shared object is the registered default as well. */
  function RepublishShared(a: Aliased, name: string, m: Value): Aliased
  {
    var s' := Republish(a.state, name, m);
    if name in a.shared && IsCached(a.state, name) && name in s'.defaults then
      Aliased(s'.(defaults := s'.defaults[name := s'.defaults[name].(defaultValue := m)]), a.shared)
    else Aliased(s', a.shared)
  }

  /** `setSubItem(name, sub, v)` as written. */
  function SetSubItem(a: Aliased, name: string, sub: string, v: Value): Aliased
  {
    var s := a.state;
    var m := CachedOrEmpty(s, name);
    if !(name in s.defaults && s.defaults[name].optionType == Some("map")) then a
    else if !m.Obj? || LooseEquals(Field(m.fields, sub), v) then a
    else RepublishShared(a, name, Obj(m.fields[sub := v]))
  }

  /** `removeSubItem(name, sub)` as written. */
  function RemoveSubItem(a: Aliased, name: string, sub: string): Aliased
  {
    var m := CachedOrEmpty(a.state, name);
    if !m.Obj? then a else RepublishShared(a, name, Obj(m.fields - {sub}))
  }

  /**
   * `setItem(name, o)` where `o` is the object already cached for the name,
   * changed in place by the caller so that it now reads `v`. The cached
   * object, and the registered default when the cache shares it, read `v`
   * whatever `setItem` does; with storage present the new text is persisted,
   * and `value == cached` holds by reference, so nothing is announced. When
   * the cache holds no object, this is an ordinary `setItem`.
   */
  function ResaveCachedObject(a: Aliased, name: string, v: Value): Aliased
  {
    var s := a.state;
    if !(name in s.current && s.current[name].Obj? && v.Obj?) then SetItem(a, name, v)
    else
      var s1 := s.(current := s.current[name := v],
                   store := if s.storageAvailable then s.store[name := Serialize(v)] else s.store);
      if name in a.shared && name in s.defaults then
        Aliased(s1.(defaults := s.defaults[name := s.defaults[name].(defaultValue := v)]), a.shared)
      else Aliased(s1, a.shared)
  }

  // ================================================================ the sharing stays consistent

  lemma SetItemConsistent(a: Aliased, name: string, v: Value)
    requires Consistent(a)
    ensures Consistent(SetItem(a, name, v))
  {
    var r := SetItem(a, name, v);
    forall n | n in r.shared
      ensures r.state.storageAvailable && n in r.state.current && n in r.state.defaults
      ensures r.state.current[n] == r.state.defaults[n].defaultValue
      ensures r.state.current[n].Obj? ==> n in r.state.store && r.state.store[n] == Serialize(r.state.current[n])
    {
      SetItemKeepsRegistry(a.state, name, v);
    }
  }

  /** Caching the registered default object through `setItem` makes the name shared, consistently. */
  lemma SetDefaultConsistent(a: Aliased, name: string)
    requires Consistent(a) && name in a.state.defaults
    requires CachesOnSet(a.state, name, a.state.defaults[name].defaultValue)
    ensures Consistent(Aliased(AfterSetItem(a.state, name, a.state.defaults[name].defaultValue), a.shared + {name}))
  {
    var d := a.state.defaults[name].defaultValue;
    var r := Aliased(AfterSetItem(a.state, name, d), a.shared + {name});
    SetItemKeepsRegistry(a.state, name, d);
    forall k | k in r.shared
      ensures r.state.storageAvailable && k in r.state.current && k in r.state.defaults
      ensures r.state.current[k] == r.state.defaults[k].defaultValue
      ensures r.state.current[k].Obj? ==> k in r.state.store && r.state.store[k] == Serialize(r.state.current[k])
    {
    }
  }

  /** Registering keeps the sharing consistent once a newly given default has ended it. */
  lemma RegisterConsistent(a: Aliased, o: Definition)
    requires Consistent(a)
    ensures var n := ToLower(o.name);
      Consistent(Aliased(Register(a.state, o), if o.defaultValue.Undefined? then a.shared else a.shared - {n}))
  {
  }

  lemma AddOptionConsistent(a: Aliased, option: Option<Definition>)
    requires Consistent(a)
    ensures Consistent(AddOption(a, option))
  {
    if option.Some? {
      var o := option.value;
      var n := ToLower(o.name);
      var s1 := Register(a.state, o);
      var kept := if o.defaultValue.Undefined? then a.shared else a.shared - {n};
      var b := Aliased(s1, kept);
      RegisterConsistent(a, o);
      if s1.storageAvailable {
        var v := ItemValue(s1, n);
        var w := if v.Undefined? then o.defaultValue else v;
        var r := AddOption(a, option);
        assert r.state == AfterSetItem(s1, n, w);
        if CachesOnSet(s1, n, w) && !(n in s1.store && Parse(s1.store[n]).Some?) {
          assert w == s1.defaults[n].defaultValue;
          assert r == Aliased(AfterSetItem(s1, n, s1.defaults[n].defaultValue), kept + {n});
          SetDefaultConsistent(b, n);
        } else {
          assert r == SetItem(b, n, w);
          SetItemConsistent(b, n, w);
        }
      }
    }
  }

  lemma ResetItemConsistent(a: Aliased, name: string)
    requires Consistent(a)
    ensures Consistent(ResetItem(a, name))
  {
    var s := a.state;
    if name in s.defaults && !s.defaults[name].defaultValue.Undefined? {
      var r := ResetItem(a, name);
      var d := s.defaults[name].defaultValue;
      var s0 := s.(current := s.current - {name});
      SetItemKeepsRegistry(s0, name, d);
      forall k | k in r.shared
        ensures r.state.storageAvailable && k in r.state.current && k in r.state.defaults
        ensures r.state.current[k] == r.state.defaults[k].defaultValue
        ensures r.state.current[k].Obj? ==> k in r.state.store && r.state.store[k] == Serialize(r.state.current[k])
      {
      }
    }
  }

  lemma RemoveAndClearConsistent(a: Aliased, name: string)
    requires Consistent(a)
    ensures Consistent(RemoveItem(a, name))
    ensures Consistent(Clear(a))
  {
    var r := RemoveItem(a, name);
    forall k | k in r.shared
      ensures r.state.storageAvailable && k in r.state.current && k in r.state.defaults
      ensures r.state.current[k] == r.state.defaults[k].defaultValue
      ensures r.state.current[k].Obj? ==> k in r.state.store && r.state.store[k] == Serialize(r.state.current[k])
    {
      assert k != name && k in a.shared;
    }
  }

  lemma ResaveConsistent(a: Aliased, name: string, v: Value)
    requires Consistent(a)
    ensures Consistent(ResaveCachedObject(a, name, v))
  {
    var s := a.state;
    if !(name in s.current && s.current[name].Obj? && v.Obj?) {
      SetItemConsistent(a, name, v);
    } else {
      var r := ResaveCachedObject(a, name, v);
      forall k | k in r.shared
        ensures r.state.storageAvailable && k in r.state.current && k in r.state.defaults
        ensures r.state.current[k] == r.state.defaults[k].defaultValue
        ensures r.state.current[k].Obj? ==> k in r.state.store && r.state.store[k] == Serialize(r.state.current[k])
      {
      }
    }
  }

  lemma RepublishConsistent(a: Aliased, name: string, m: Value)
    requires Consistent(a) && m.Obj?
    ensures Consistent(RepublishShared(a, name, m))
  {
    var r := RepublishShared(a, name, m);
    forall k | k in r.shared
      ensures r.state.storageAvailable && k in r.state.current && k in r.state.defaults
      ensures r.state.current[k] == r.state.defaults[k].defaultValue
      ensures r.state.current[k].Obj? ==> k in r.state.store && r.state.store[k] == Serialize(r.state.current[k])
    {
    }
  }

  lemma SubItemsConsistent(a: Aliased, name: string, sub: string, v: Value)
    requires Consistent(a)
    ensures Consistent(SetSubItem(a, name, sub, v))
    ensures Consistent(RemoveSubItem(a, name, sub))
  {
    var m := CachedOrEmpty(a.state, name);
    if m.Obj? {
      RepublishConsistent(a, name, Obj(m.fields[sub := v]));
      RepublishConsistent(a, name, Obj(m.fields - {sub}));
    }
  }

  // ================================================================ where the code as written parts from the model

  /**
   * Only the sub-item edits differ from the model with a cached copy, and
   * only in the default of the edited name: when its cache is the default
   * object, the default becomes the edited object.
   */
  lemma SubItemEditChangesSharedDefault(a: Aliased, name: string, sub: string, v: Value)
    ensures var r := SetSubItem(a, name, sub, v);
      var c := AfterSetSubItem(a.state, name, sub, v);
      && r.state.(defaults := c.defaults) == c
      && r.state.defaults - {name} == c.defaults - {name}
      && (name !in a.shared ==> r.state == c)
      && (name in a.shared && IsCached(a.state, name) && c != a.state ==>
            name in r.state.defaults && r.state.defaults[name].defaultValue == r.state.current[name])
  {
  }

  /**
   * As written, re-saving a cached object that the caller changed in place
   * persists the change but announces nothing: `getItem` reads the new
   * value back while no listener hears of it. With objects compared as
   * never equal, as the model does, the same call fires the full cascade.
   */
  lemma ResaveOfMutatedObjectIsSilent(a: Aliased, name: string, v: Value)
    requires a.state.storageAvailable && name in a.state.current
    requires a.state.current[name].Obj? && v.Obj? && v != a.state.current[name]
    ensures var r := ResaveCachedObject(a, name, v);
      && r.state.events == a.state.events
      && ItemValue(r.state, name) == v && ItemValue(r.state, name) != a.state.current[name]
      && AfterSetItem(a.state, name, v).events == a.state.events + Cascade(name, v)
      && AfterSetItem(a.state, name, v).events != a.state.events
  {
    ParseSerialize(v);
    SetItemOfObjectAlwaysFires(a.state, name, v);
    CascadeShape(name, v);
  }

  /**
   * Objects in the cache are compared by reference, and `addOption` never
   * compares a shared object with itself: a shared object is persisted, so
   * what `addOption` writes back for that name is a parsed copy.
   */
  lemma AddOptionReadsCopyOfShared(a: Aliased, o: Definition)
    requires Consistent(a)
    requires ToLower(o.name) in a.shared && a.state.current[ToLower(o.name)].Obj?
    ensures var n := ToLower(o.name);
      var s1 := Register(a.state, o);
      && n in s1.store && Parse(s1.store[n]) == Some(a.state.current[n])
      && ItemValue(s1, n) == a.state.current[n]
  {
  }

  /**
   * As written, with storage present and nothing persisted, an edit through
   * `setSubItem` survives a reset: after `addOption` of a map option with
   * default `{a: 1}`, `setSubItem('m', 'a', 2)` and `resetItem('m')`,
   * `getItem('m')` yields `{a: 2}`; the model with a cached copy yields
   * `{a: 1}`.
   */
  lemma ResetAfterEditExample()
    ensures var o := Definition("m", Some("map"), Obj(map["a" := Num(1)]), None, None);
      var a0 := Aliased(Initial(true, map[]), {});
      var a3 := ResetItem(SetSubItem(AddOption(a0, Some(o)), "m", "a", Num(2)), "m");
      var s3 := AfterResetItem(AfterSetSubItem(AfterAddOption(Initial(true, map[]), Some(o)), "m", "a", Num(2)), "m");
      && ItemValue(a3.state, "m") == Obj(map["a" := Num(2)])
      && ItemValue(s3, "m") == Obj(map["a" := Num(1)])
  {
    var one := Obj(map["a" := Num(1)]);
    var two := Obj(map["a" := Num(2)]);
    var o := Definition("m", Some("map"), one, None, None);
    var s0 := Initial(true, map[]);
    assert ToLower("m") == "m";
    var d := Merge(None, o);
    assert d == o;
    var a1 := AddOption(Aliased(s0, {}), Some(o));
    assert a1.state.defaults == map["m" := o];
    assert a1.state.current == map["m" := one];
    assert a1.shared == {"m"};
    var a2 := SetSubItem(a1, "m", "a", Num(2));
    assert one.fields["a" := Num(2)] == two.fields;
    assert a2.state.defaults["m"].defaultValue == two;
    var a3 := ResetItem(a2, "m");
    assert a3.state.store["m"] == Json(two);
    var c1 := AfterAddOption(s0, Some(o));
    assert c1 == a1.state;
    var c2 := AfterSetSubItem(c1, "m", "a", Num(2));
    assert c2.defaults == map["m" := o];
    var c3 := AfterResetItem(c2, "m");
    assert c3.store["m"] == Json(one);
  }
}
