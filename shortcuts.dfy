/**
 * Keyboard shortcuts: parsing a binding such as "ctrl+shift+s" into four
 * modifier flags and a key, the exact-match rule against a key press, and
 * the `ShortcutHandler` table from action names to their alternative
 * bindings, which dispatches one event per matching binding.
 */
module Shortcuts {
  import opened Collections
  import opened Strings

  /**
   * A parsed binding. A `Shortcut` object is never changed after its
   * constructor has run, so it is a value; `key` is `None` while no key token
   * has been seen (the field stays undefined).
   */
  datatype Shortcut = Shortcut(alt: bool, ctrl: bool, meta: bool, shift: bool, key: Option<string>)

  /** The parts of a `keydown` event the handler looks at. */
  datatype KeyEvent = KeyEvent(
    altKey: bool, ctrlKey: bool, metaKey: bool, shiftKey: bool,
    key: string,
    targetIsTextField: bool)  // the target is an <input> or a <textarea>

  // ================================================================ parsing

  /** The tokens of a binding: upper-cased, split on `+`. */
  function Tokens(binding: string): seq<string>
  {
    Split(ToUpper(binding), '+')
  }

  predicate IsModifier(token: string)
  {
    token == "ALT" || token == "CTRL" || token == "META" || token == "SHIFT"
  }

  /** The key a non-modifier token names: `PLUS` stands for `+`. */
  function KeyName(token: string): string
  {
    if token == "PLUS" then "+" else token
  }

  /** The effect of one token of the constructor's `switch`. */
  function Apply(sc: Shortcut, token: string): Shortcut
  {
    if token == "ALT" then sc.(alt := true)
    else if token == "CTRL" then sc.(ctrl := true)
    else if token == "META" then sc.(meta := true)
    else if token == "SHIFT" then sc.(shift := true)
    else sc.(key := Some(KeyName(token)))
  }

  /** The tokens applied in order to a shortcut with every flag false and no key. */
  function ParseTokens(tokens: seq<string>): Shortcut
    decreases |tokens|
  {
    if tokens == [] then Shortcut(false, false, false, false, None)
    else Apply(ParseTokens(tokens[..|tokens| - 1]), tokens[|tokens| - 1])
  }

  /** `new Shortcut(binding)` */
  function Parse(binding: string): Shortcut
  {
    ParseTokens(Tokens(binding))
  }

  /** A modifier flag is set exactly when its token occurs. */
  lemma {:induction false} ParseTokensFlags(tokens: seq<string>)
    ensures var sc := ParseTokens(tokens);
      && (sc.alt <==> "ALT" in tokens)
      && (sc.ctrl <==> "CTRL" in tokens)
      && (sc.meta <==> "META" in tokens)
      && (sc.shift <==> "SHIFT" in tokens)
    decreases |tokens|
  {
    if tokens != [] {
      var prefix := tokens[..|tokens| - 1];
      ParseTokensFlags(prefix);
      assert tokens == prefix + [tokens[|tokens| - 1]];
    }
  }

  /** There is no key exactly when every token is a modifier; otherwise the last other token names it. */
  lemma {:induction false} ParseTokensKey(tokens: seq<string>)
    ensures var sc := ParseTokens(tokens);
      && (sc.key.None? <==> forall i :: 0 <= i < |tokens| ==> IsModifier(tokens[i]))
      && (sc.key.Some? ==>
            exists i :: (0 <= i < |tokens| && !IsModifier(tokens[i]) && sc.key.value == KeyName(tokens[i])
                         && forall j :: i < j < |tokens| ==> IsModifier(tokens[j])))
    decreases |tokens|
  {
    if tokens != [] {
      var n := |tokens|;
      var prefix := tokens[..n - 1];
      var last := tokens[n - 1];
      ParseTokensKey(prefix);
      var key := ParseTokens(tokens).key;
      assert key == if IsModifier(last) then ParseTokens(prefix).key else Some(KeyName(last));
      assert forall i :: 0 <= i < n - 1 ==> prefix[i] == tokens[i];
      if !IsModifier(last) {
        assert !IsModifier(tokens[n - 1]) && key.value == KeyName(tokens[n - 1]);
      } else if key.Some? {
        var i :| 0 <= i < |prefix| && !IsModifier(prefix[i]) && key.value == KeyName(prefix[i])
          && forall j :: i < j < |prefix| ==> IsModifier(prefix[j]);
        assert forall j :: i < j < n ==> IsModifier(tokens[j]);
        assert !IsModifier(tokens[i]) && key.value == KeyName(tokens[i]);
      } else {
        assert forall i :: 0 <= i < n ==> IsModifier(tokens[i]);
      }
    }
  }

  /**
   * What a parsed binding means: a flag is set exactly when its modifier
   * token occurs, there is no key exactly when every token is a modifier,
   * and otherwise the key is named by the last token that is not a modifier.
   */
  lemma ParseTokensMeaning(tokens: seq<string>)
    ensures var sc := ParseTokens(tokens);
      && (sc.alt <==> "ALT" in tokens)
      && (sc.ctrl <==> "CTRL" in tokens)
      && (sc.meta <==> "META" in tokens)
      && (sc.shift <==> "SHIFT" in tokens)
      && (sc.key.None? <==> forall i :: 0 <= i < |tokens| ==> IsModifier(tokens[i]))
      && (sc.key.Some? ==>
            exists i :: (0 <= i < |tokens| && !IsModifier(tokens[i]) && sc.key.value == KeyName(tokens[i])
                         && forall j :: i < j < |tokens| ==> IsModifier(tokens[j])))
  {
    ParseTokensFlags(tokens);
    ParseTokensKey(tokens);
  }

  /**
   * `new Shortcut(binding)`: every flag false, then each token of the
   * upper-cased binding split on `+` sets a flag or (last one wins) the key.
   */
  method NewShortcut(binding: string) returns (sc: Shortcut)
    ensures sc == Parse(binding)
  {
    sc := Shortcut(false, false, false, false, None);
    var keys := Split(ToUpper(binding), '+');
    for i := 0 to |keys|
      invariant sc == ParseTokens(keys[..i])
    {
      assert keys[..i + 1][..i] == keys[..i];
      var key := keys[i];
      if key == "ALT" {
        sc := sc.(alt := true);
      } else if key == "CTRL" {
        sc := sc.(ctrl := true);
      } else if key == "META" {
        sc := sc.(meta := true);
      } else if key == "SHIFT" {
        sc := sc.(shift := true);
      } else if key == "PLUS" {
        sc := sc.(key := Some("+"));
      } else {
        sc := sc.(key := Some(key));
      }
    }
    assert keys[..|keys|] == keys;
  }

  // ================================================================ matching

  /**
   * `shortcut.match(event)`: all four flags equal the event's and the
   * upper-cased event key equals the key; a binding without a key never matches.
   */
  predicate Match(sc: Shortcut, e: KeyEvent)
  {
    && e.altKey == sc.alt && e.ctrlKey == sc.ctrl && e.metaKey == sc.meta && e.shiftKey == sc.shift
    && sc.key == Some(ToUpper(e.key))
  }

  /** The binding a user would write for a key press: the held modifiers, then the key, joined by `+`. */
  function Describe(e: KeyEvent): string
  {
    Join(ModifierNames(e) + [e.key], '+')
  }

  function ModifierNames(e: KeyEvent): seq<string>
  {
    (if e.altKey then ["alt"] else []) + (if e.ctrlKey then ["ctrl"] else [])
      + (if e.metaKey then ["meta"] else []) + (if e.shiftKey then ["shift"] else [])
  }

  function UpperAll(parts: seq<string>): (r: seq<string>)
    ensures |r| == |parts|
  {
    seq(|parts|, i requires 0 <= i < |parts| => ToUpper(parts[i]))
  }

  lemma UpperCharPlus(s: string)
    ensures '+' in ToUpper(s) <==> '+' in s
  {
    if '+' in ToUpper(s) {
      var i :| 0 <= i < |s| && ToUpper(s)[i] == '+';
    }
    if '+' in s {
      var i :| 0 <= i < |s| && s[i] == '+';
      assert ToUpper(s)[i] == '+';
    }
  }

  lemma {:induction false} ToUpperJoin(parts: seq<string>)
    ensures ToUpper(Join(parts, '+')) == Join(UpperAll(parts), '+')
    decreases |parts|
  {
    if |parts| > 1 {
      ToUpperJoin(parts[1..]);
      ToUpperAppend(parts[0] + ['+'], Join(parts[1..], '+'));
      ToUpperAppend(parts[0], ['+']);
      assert ToUpper(['+']) == ['+'];
      assert UpperAll(parts)[1..] == UpperAll(parts[1..]);
    }
  }

  /** The upper-case modifier tokens of the held modifiers. */
  function ModifierTokens(e: KeyEvent): seq<string>
  {
    (if e.altKey then ["ALT"] else []) + (if e.ctrlKey then ["CTRL"] else [])
      + (if e.metaKey then ["META"] else []) + (if e.shiftKey then ["SHIFT"] else [])
  }

  lemma UpperModifierNames(e: KeyEvent)
    ensures UpperAll(ModifierNames(e)) == ModifierTokens(e)
  {
    assert ToUpper("alt") == "ALT" && ToUpper("ctrl") == "CTRL";
    assert ToUpper("meta") == "META" && ToUpper("shift") == "SHIFT";
  }

  lemma TokensOfDescribe(e: KeyEvent)
    requires '+' !in e.key
    ensures Tokens(Describe(e)) == ModifierTokens(e) + [ToUpper(e.key)]
  {
    var parts := ModifierNames(e) + [e.key];
    ToUpperJoin(parts);
    var upper := UpperAll(parts);
    forall i | 0 <= i < |upper| ensures '+' !in upper[i] {
      UpperCharPlus(parts[i]);
    }
    SplitJoin(upper, '+');
    UpperModifierNames(e);
    assert upper == UpperAll(ModifierNames(e)) + [ToUpper(e.key)];
  }

  lemma ParseAppend(a: seq<string>, t: string)
    ensures ParseTokens(a + [t]) == Apply(ParseTokens(a), t)
  {
    assert (a + [t])[..|a|] == a;
  }

  lemma ParseModifierTokens(e: KeyEvent)
    ensures ParseTokens(ModifierTokens(e)) == Shortcut(e.altKey, e.ctrlKey, e.metaKey, e.shiftKey, None)
  {
    var a: seq<string> := if e.altKey then ["ALT"] else [];
    var c := a + (if e.ctrlKey then ["CTRL"] else []);
    var m := c + (if e.metaKey then ["META"] else []);
    var all := m + (if e.shiftKey then ["SHIFT"] else []);
    if e.altKey {
      ParseAppend([], "ALT");
      assert a == [] + ["ALT"];
    }
    assert ParseTokens(a) == Shortcut(e.altKey, false, false, false, None);
    if e.ctrlKey {
      ParseAppend(a, "CTRL");
    } else {
      assert c == a;
    }
    assert ParseTokens(c) == Shortcut(e.altKey, e.ctrlKey, false, false, None);
    if e.metaKey {
      ParseAppend(c, "META");
    } else {
      assert m == c;
    }
    assert ParseTokens(m) == Shortcut(e.altKey, e.ctrlKey, e.metaKey, false, None);
    if e.shiftKey {
      ParseAppend(m, "SHIFT");
    } else {
      assert all == m;
    }
    assert all == ModifierTokens(e);
  }

  lemma ParseModifiersThenKey(e: KeyEvent, k: string)
    requires !IsModifier(k) && k != "PLUS"
    ensures ParseTokens(ModifierTokens(e) + [k]) == Shortcut(e.altKey, e.ctrlKey, e.metaKey, e.shiftKey, Some(k))
  {
    ParseAppend(ModifierTokens(e), k);
    ParseModifierTokens(e);
  }

  /**
   * Writing down the modifiers held and the key pressed gives a binding that
   * parses to exactly those flags and the upper-cased key, so it matches that
   * key press. The key must be one a binding can spell: no `+`, and not a
   * modifier name or `PLUS` in any case.
   */
  lemma DescribeThenParse(e: KeyEvent)
    requires '+' !in e.key && !IsModifier(ToUpper(e.key)) && ToUpper(e.key) != "PLUS"
    ensures Parse(Describe(e)) == Shortcut(e.altKey, e.ctrlKey, e.metaKey, e.shiftKey, Some(ToUpper(e.key)))
    ensures Match(Parse(Describe(e)), e)
  {
    TokensOfDescribe(e);
    ParseModifiersThenKey(e, ToUpper(e.key));
  }

  /** "ctrl+shift+s" fires on ctrl+shift+s, and not when meta is held as well. */
  lemma MatchExample(binding: string, e: KeyEvent)
    requires binding == "ctrl+shift+s"
    requires e == KeyEvent(false, true, false, true, "s", false)
    ensures Match(Parse(binding), e)
    ensures !Match(Parse(binding), e.(metaKey := true))
  {
    var parts := ["ctrl", "shift", "s"];
    assert ModifierNames(e) + [e.key] == parts;
    assert parts[1..] == ["shift", "s"] && parts[1..][1..] == ["s"];
    assert Join(parts, '+') == "ctrl" + "+" + ("shift" + "+" + "s");
    assert Describe(e) == binding;
    assert ToUpper("s") == "S";
    DescribeThenParse(e);
  }

  // ================================================================ the table

  /** `this.shortcuts`: action names in insertion order, each with its bindings in insertion order. */
  datatype Table = Table(names: seq<string>, bindings: map<string, seq<Shortcut>>)

  predicate TableValid(t: Table)
  {
    && NoDup(t.names)
    && (forall n :: n in t.bindings ==> n in t.names)
    && (forall i :: 0 <= i < |t.names| ==> t.names[i] in t.bindings)
  }

  /** The bindings a `;`-separated list of alternatives parses into. */
  function Alternatives(shortcut: string): (r: seq<Shortcut>)
    ensures |r| == |Split(shortcut, ';')|
  {
    ParseAll(Split(shortcut, ';'))
  }

  function ParseAll(bindings: seq<string>): (r: seq<Shortcut>)
    ensures |r| == |bindings|
  {
    seq(|bindings|, i requires 0 <= i < |bindings| => Parse(bindings[i]))
  }

  function Bindings(t: Table, name: string): seq<Shortcut>
  {
    if name in t.bindings then t.bindings[name] else []
  }

  /** `addShortcut(name, shortcut)`: the alternatives are appended to the name's bindings. */
  function AfterAdd(t: Table, name: string, shortcut: string): Table
  {
    Table(if name in t.bindings then t.names else t.names + [name],
          t.bindings[name := Bindings(t, name) + Alternatives(shortcut)])
  }

  /** `this.shortcuts.delete(name)` */
  function Delete(t: Table, name: string): Table
  {
    Table(Without(t.names, name), t.bindings - {name})
  }

  /** `setShortcut(name, shortcut)` */
  function AfterSet(t: Table, name: string, shortcut: string): Table
  {
    AfterAdd(Delete(t, name), name, shortcut)
  }

  function AddEach(t: Table, entries: seq<(string, string)>): Table
    decreases |entries|
  {
    if entries == [] then t
    else
      var e := entries[|entries| - 1];
      AfterAdd(AddEach(t, entries[..|entries| - 1]), e.0, e.1)
  }

  /** `setShortcuts(map)`: a falsy map changes nothing; otherwise the table is rebuilt from the entries. */
  function AfterSetAll(t: Table, shortcutMap: Option<seq<(string, string)>>): Table
  {
    if shortcutMap.None? then t else AddEach(Table([], map[]), shortcutMap.value)
  }

  // ================================================================ dispatching

  /** One `name` per binding in `scs` that matches. */
  function FiredIn(name: string, scs: seq<Shortcut>, e: KeyEvent): seq<string>
    decreases |scs|
  {
    if scs == [] then []
    else FiredIn(name, scs[..|scs| - 1], e) + (if Match(scs[|scs| - 1], e) then [name] else [])
  }

  function FiredAll(names: seq<string>, bindings: map<string, seq<Shortcut>>, e: KeyEvent): seq<string>
    decreases |names|
  {
    if names == [] then []
    else
      var n := names[|names| - 1];
      FiredAll(names[..|names| - 1], bindings, e) + FiredIn(n, if n in bindings then bindings[n] else [], e)
  }

  /** One more name: its matching bindings are fired after those of the names before it. */
  lemma FiredAllStep(names: seq<string>, bindings: map<string, seq<Shortcut>>, e: KeyEvent, i: int)
    requires 0 <= i < |names| && names[i] in bindings
    ensures FiredAll(names[..i + 1], bindings, e) == FiredAll(names[..i], bindings, e) + FiredIn(names[i], bindings[names[i]], e)
  {
    assert names[..i + 1][..i] == names[..i];
  }

  /** The names of the events `handleKeyDown(e)` dispatches, in order. */
  function Fired(t: Table, e: KeyEvent): seq<string>
  {
    if e.targetIsTextField then [] else FiredAll(t.names, t.bindings, e)
  }

  /** How many bindings in `scs` match. */
  function Hits(scs: seq<Shortcut>, e: KeyEvent): nat
    decreases |scs|
  {
    if scs == [] then 0 else Hits(scs[..|scs| - 1], e) + (if Match(scs[|scs| - 1], e) then 1 else 0)
  }

  lemma {:induction false} FiredInCount(name: string, scs: seq<Shortcut>, e: KeyEvent, other: string)
    ensures Count(FiredIn(name, scs, e), other) == if other == name then Hits(scs, e) else 0
    decreases |scs|
  {
    if scs != [] {
      FiredInCount(name, scs[..|scs| - 1], e, other);
      var last := if Match(scs[|scs| - 1], e) then [name] else [];
      CountAppend(FiredIn(name, scs[..|scs| - 1], e), last, other);
      assert [] + last == last;
      if last != [] {
        assert last[..0] == [];
      }
    }
  }

  lemma {:induction false} FiredAllCount(names: seq<string>, bindings: map<string, seq<Shortcut>>, e: KeyEvent, name: string)
    requires NoDup(names)
    ensures Count(FiredAll(names, bindings, e), name)
      == if name in names && name in bindings then Hits(bindings[name], e) else 0
    decreases |names|
  {
    if names != [] {
      var n := names[|names| - 1];
      var prefix := names[..|names| - 1];
      var scs := if n in bindings then bindings[n] else [];
      assert NoDup(prefix) && n !in prefix by {
        assert forall i :: 0 <= i < |prefix| ==> prefix[i] == names[i];
      }
      assert name in names <==> name in prefix || name == n by {
        assert names == prefix + [n];
      }
      FiredAllCount(prefix, bindings, e, name);
      FiredInCount(n, scs, e, name);
      CountAppend(FiredAll(prefix, bindings, e), FiredIn(n, scs, e), name);
      if name == n && n !in bindings {
        assert Hits(scs, e) == 0;
      }
    }
  }

  /**
   * A key press outside a text field fires an action once per binding of that
   * action that matches it (so twice for two matching alternatives); inside a
   * text field it fires nothing.
   */
  lemma FiredOncePerMatchingBinding(t: Table, e: KeyEvent, name: string)
    requires TableValid(t)
    ensures Count(Fired(t, e), name) == if e.targetIsTextField then 0 else Hits(Bindings(t, name), e)
  {
    if !e.targetIsTextField {
      FiredAllCount(t.names, t.bindings, e, name);
      if name !in t.bindings {
        assert Hits([], e) == 0;
      }
    } else {
      assert Count([], name) == 0;
    }
  }

  // ================================================================ properties of the table operations

  /** `addShortcut` appends one binding per alternative and leaves every other name alone. */
  lemma AddAppendsAlternatives(t: Table, name: string, shortcut: string, other: string)
    requires TableValid(t)
    ensures var t' := AfterAdd(t, name, shortcut);
      && TableValid(t')
      && Bindings(t', name) == Bindings(t, name) + Alternatives(shortcut)
      && (other != name ==> Bindings(t', other) == Bindings(t, other))
  {
  }

  /** `setShortcut` leaves the name holding exactly the alternatives of the new string. */
  lemma SetReplacesAlternatives(t: Table, name: string, shortcut: string, other: string)
    requires TableValid(t)
    ensures var t' := AfterSet(t, name, shortcut);
      && TableValid(t')
      && Bindings(t', name) == Alternatives(shortcut)
      && (other != name ==> Bindings(t', other) == Bindings(t, other))
  {
    var d := Delete(t, name);
    DeleteKeepsValid(t, name);
    assert Bindings(d, name) == [];
    assert other != name ==> Bindings(d, other) == Bindings(t, other);
    AddAppendsAlternatives(d, name, shortcut, other);
  }

  /** `this.shortcuts.delete(name)` keeps the table well formed. */
  lemma DeleteKeepsValid(t: Table, name: string)
    requires TableValid(t)
    ensures TableValid(Delete(t, name))
  {
    var d := Delete(t, name);
    forall n | n in d.bindings ensures n in d.names {
      var i :| 0 <= i < |t.names| && t.names[i] == n;
    }
  }

  lemma {:induction false} AddEachNames(t: Table, entries: seq<(string, string)>, name: string)
    requires TableValid(t)
    ensures TableValid(AddEach(t, entries))
    ensures name in AddEach(t, entries).bindings <==>
      name in t.bindings || exists i :: 0 <= i < |entries| && entries[i].0 == name
    decreases |entries|
  {
    if entries != [] {
      var prefix := entries[..|entries| - 1];
      var last := entries[|entries| - 1];
      AddEachNames(t, prefix, name);
      var before := AddEach(t, prefix);
      AddAppendsAlternatives(before, last.0, last.1, name);
      assert name in AddEach(t, entries).bindings <==> name in before.bindings || last.0 == name;
      assert (exists i :: 0 <= i < |entries| && entries[i].0 == name) <==>
             (exists i :: 0 <= i < |prefix| && prefix[i].0 == name) || last.0 == name
      by {
        if exists i :: 0 <= i < |entries| && entries[i].0 == name {
          var i :| 0 <= i < |entries| && entries[i].0 == name;
          if i < |entries| - 1 {
            assert prefix[i].0 == name;
          }
        }
        if exists i :: 0 <= i < |prefix| && prefix[i].0 == name {
          var i :| 0 <= i < |prefix| && prefix[i].0 == name;
          assert entries[i].0 == name;
        }
      }
    }
  }

  lemma {:induction false} AddEachSingle(t: Table, entries: seq<(string, string)>, k: int)
    requires TableValid(t)
    requires 0 <= k < |entries| && entries[k].0 !in t.bindings
    requires forall i :: 0 <= i < |entries| && i != k ==> entries[i].0 != entries[k].0
    ensures Bindings(AddEach(t, entries), entries[k].0) == Alternatives(entries[k].1)
    decreases |entries|
  {
    var prefix := entries[..|entries| - 1];
    var name := entries[k].0;
    if k == |entries| - 1 {
      AddEachNames(t, prefix, name);
      assert name !in AddEach(t, prefix).bindings;
    } else {
      AddEachSingle(t, prefix, k);
    }
  }

  /**
   * After `setShortcuts` with a map, the table holds exactly the map's names,
   * each with exactly the alternatives of its string.
   */
  lemma SetAllRebuilds(t: Table, entries: seq<(string, string)>, name: string)
    requires forall i, j :: 0 <= i < j < |entries| ==> entries[i].0 != entries[j].0
    ensures var t' := AfterSetAll(t, Some(entries));
      && TableValid(t')
      && (name in t'.bindings <==> exists i :: 0 <= i < |entries| && entries[i].0 == name)
      && (forall i :: 0 <= i < |entries| ==> Bindings(t', entries[i].0) == Alternatives(entries[i].1))
  {
    var empty := Table([], map[]);
    AddEachNames(empty, entries, name);
    forall i | 0 <= i < |entries| ensures Bindings(AfterSetAll(t, Some(entries)), entries[i].0) == Alternatives(entries[i].1) {
      AddEachSingle(empty, entries, i);
    }
  }

  /** `setShortcuts` with a falsy argument keeps the table. */
  lemma SetAllWithoutMap(t: Table)
    ensures AfterSetAll(t, None) == t
  {
  }

  // ================================================================ the handler object

  class ShortcutHandler {
    var names: seq<string>                     // key order of this.shortcuts
    var shortcuts: map<string, seq<Shortcut>>  // this.shortcuts
    var dispatched: seq<string>                // names of the events dispatched so far

    function State(): Table
      reads this
    {
      Table(names, shortcuts)
    }

    predicate Valid()
      reads this
    {
      TableValid(State())
    }

    constructor()
      ensures Valid() && State() == Table([], map[]) && dispatched == []
    {
      names := [];
      shortcuts := map[];
      dispatched := [];
    }

    /** `addShortcut(name, shortcut)` */
    method AddShortcut(name: string, shortcut: string)
      requires Valid()
      modifies this
      ensures Valid() && State() == AfterAdd(old(State()), name, shortcut) && dispatched == old(dispatched)
    {
      if name !in shortcuts {
        names := names + [name];
        shortcuts := shortcuts[name := []];
      }
      AppendAlternatives(name, Split(shortcut, ';'));
      AddAppendsAlternatives(old(State()), name, shortcut, name);
    }

    /** The loop of `addShortcut`: each alternative is parsed and pushed onto the name's list, in order. */
    method AppendAlternatives(name: string, alternatives: seq<string>)
      requires name in shortcuts
      modifies this`shortcuts
      ensures shortcuts == old(shortcuts)[name := old(shortcuts)[name] + ParseAll(alternatives)]
    {
      ghost var before := shortcuts[name];
      assert ParseAll(alternatives[..0]) == [];
      assert before + ParseAll(alternatives[..0]) == before;
      assert old(shortcuts)[name := before] == old(shortcuts);
      for i := 0 to |alternatives|
        invariant shortcuts == old(shortcuts)[name := before + ParseAll(alternatives[..i])]
      {
        var sc := NewShortcut(alternatives[i]);
        assert ParseAll(alternatives[..i + 1]) == ParseAll(alternatives[..i]) + [sc];
        assert before + ParseAll(alternatives[..i + 1]) == before + ParseAll(alternatives[..i]) + [sc];
        shortcuts := shortcuts[name := shortcuts[name] + [sc]];
      }
      assert alternatives[..|alternatives|] == alternatives;
    }

    /** `setShortcut(name, shortcut)` */
    method SetShortcut(name: string, shortcut: string)
      requires Valid()
      modifies this
      ensures Valid() && State() == AfterSet(old(State()), name, shortcut) && dispatched == old(dispatched)
    {
      SetReplacesAlternatives(State(), name, shortcut, name);
      names := Without(names, name);
      shortcuts := shortcuts - {name};
      AddShortcut(name, shortcut);
    }

    /** `setShortcuts(shortcutMap)` */
    method SetShortcuts(shortcutMap: Option<seq<(string, string)>>)
      requires Valid()
      modifies this
      ensures Valid() && State() == AfterSetAll(old(State()), shortcutMap) && dispatched == old(dispatched)
    {
      if shortcutMap.None? {
        return;
      }
      names := [];
      shortcuts := map[];
      var entries := shortcutMap.value;
      for i := 0 to |entries|
        invariant Valid() && State() == AddEach(Table([], map[]), entries[..i])
        invariant dispatched == old(dispatched)
      {
        assert entries[..i + 1][..i] == entries[..i];
        AddShortcut(entries[i].0, entries[i].1);
      }
      assert entries[..|entries|] == entries;
    }

    /**
     * `handleKeyDown(event)`: outside text fields, every binding of every
     * name, in order, is tried; each match dispatches the name's event and
     * prevents the default action. Since every dispatch is paired with
     * `preventDefault`, the default is prevented exactly when something was dispatched.
     */
    method HandleKeyDown(e: KeyEvent) returns (prevented: bool)
      requires Valid()
      modifies this`dispatched
      ensures dispatched == old(dispatched) + Fired(State(), e)
      ensures prevented <==> Fired(State(), e) != []
    {
      if e.targetIsTextField {
        return false;
      }
      var before := |dispatched|;
      DispatchAll(names, shortcuts, e);
      prevented := |dispatched| > before;
    }

    /** The outer loop of `handleKeyDown`: every name, in key order. */
    method DispatchAll(ns: seq<string>, bindings: map<string, seq<Shortcut>>, e: KeyEvent)
      requires forall i :: 0 <= i < |ns| ==> ns[i] in bindings
      modifies this`dispatched
      ensures dispatched == old(dispatched) + FiredAll(ns, bindings, e)
    {
      for i := 0 to |ns|
        invariant dispatched == old(dispatched) + FiredAll(ns[..i], bindings, e)
      {
        DispatchMatching(ns[i], bindings[ns[i]], e);
        assert dispatched == old(dispatched) + FiredAll(ns[..i + 1], bindings, e) by {
          FiredAllStep(ns, bindings, e, i);
        }
      }
      assert ns[..|ns|] == ns;
    }

    /** The inner loop of `handleKeyDown`: the bindings of one name, tried in order. */
    method DispatchMatching(name: string, scs: seq<Shortcut>, e: KeyEvent)
      modifies this`dispatched
      ensures dispatched == old(dispatched) + FiredIn(name, scs, e)
    {
      for j := 0 to |scs|
        invariant dispatched == old(dispatched) + FiredIn(name, scs[..j], e)
      {
        assert scs[..j + 1][..j] == scs[..j];
        if Match(scs[j], e) {
          dispatched := dispatched + [name];
        }
      }
      assert scs[..|scs|] == scs;
    }
  }
}
