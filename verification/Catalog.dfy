/** The compact signal catalog: arena of scopes, signals in declaration order, name index and
    alias lists (src/catalog.rs, src/lib.rs). */
module Catalog {
  import opened Wrappers

  /** Keys are 32-bit, so at most this many signals and as many scopes fit. */
  const CAPACITY: nat := 0x1_0000_0000

  type IdCode = nat
  type Key = nat

  datatype Var = Var(code: IdCode, size: nat, kind: nat, reference: string, index: Option<string>)

  datatype Item = ScopeItem(identifier: string, items: seq<Item>) | VarItem(decl: Var) | OtherItem

  datatype ScopeNode = ScopeNode(component: string, parent: Option<Key>)

  datatype SignalMeta = SignalMeta(id: IdCode, fullName: string, size: nat, kind: nat, scope: Option<Key>)

  datatype CatalogError = Capacity | DuplicateSignal(name: string)

  datatype SignalCatalog = SignalCatalog(signals: seq<SignalMeta>, byName: map<string, Key>,
                                         aliases: map<IdCode, seq<Key>>, scopes: seq<ScopeNode>)

  const EMPTY := SignalCatalog([], map[], map[], [])

  // ------------------------------------------------------------------ names

  /** What entering a scope appends to the shared prefix. */
  function Entered(prefix: string, identifier: string): string {
    if prefix == "" then identifier else prefix + "." + identifier
  }

  function Leaf(decl: Var): string {
    decl.reference + if decl.index.Some? then decl.index.value else ""
  }

  function FullName(prefix: string, decl: Var): string {
    if prefix == "" then Leaf(decl) else prefix + "." + Leaf(decl)
  }

  // ------------------------------------------------------------------ building

  function WithScope(c: SignalCatalog, component: string, parent: Option<Key>): Result<SignalCatalog, CatalogError> {
    if |c.scopes| >= CAPACITY then Err(Capacity)
    else Ok(c.(scopes := c.scopes + [ScopeNode(component, parent)]))
  }

  function KeysUnder(c: SignalCatalog, id: IdCode): seq<Key> {
    if id in c.aliases then c.aliases[id] else []
  }

  function WithSignal(c: SignalCatalog, scope: Option<Key>, prefix: string, decl: Var):
      Result<SignalCatalog, CatalogError>
  {
    var name, key := FullName(prefix, decl), |c.signals|;
    if key >= CAPACITY then Err(Capacity)
    else if name in c.byName then Err(DuplicateSignal(name))
    else Ok(SignalCatalog(c.signals + [SignalMeta(decl.code, name, decl.size, decl.kind, scope)],
                          c.byName[name := key],
                          c.aliases[decl.code := KeysUnder(c, decl.code) + [key]],
                          c.scopes))
  }

  /** The catalog after some items of one scope, depth first. */
  function Collected(c: SignalCatalog, items: seq<Item>, parent: Option<Key>, prefix: string):
      Result<SignalCatalog, CatalogError>
    decreases items
  {
    if items == [] then Ok(c)
    else
      var after := match items[0]
        case ScopeItem(identifier, children) =>
          (var entered := WithScope(c, identifier, parent);
           if entered.Err? then entered
           else Collected(entered.value, children, Some(|c.scopes|), Entered(prefix, identifier)))
        case VarItem(decl) => WithSignal(c, parent, prefix, decl)
        case OtherItem => Ok(c);
      if after.Err? then after else Collected(after.value, items[1..], parent, prefix)
  }

  /** The prefix that all calls of `collect` share. */
  class Prefix {
    var text: string

    constructor ()
      ensures text == ""
    {
      text := "";
    }

    method Enter(identifier: string)
      modifies this
      ensures text == Entered(old(text), identifier) && old(text) <= text
    {
      if text != "" {
        text := text + ".";
      }
      text := text + identifier;
    }

    method Truncate(length: nat)
      requires length <= |text|
      modifies this
      ensures text == old(text)[..length]
    {
      text := text[..length];
    }
  }

  class CatalogBuilder {
    var signals: seq<SignalMeta>
    var byName: map<string, Key>
    var aliases: map<IdCode, seq<Key>>
    var scopes: seq<ScopeNode>

    constructor ()
      ensures Value() == EMPTY
    {
      signals, byName, aliases, scopes := [], map[], map[], [];
    }

    function Value(): SignalCatalog
      reads this
    {
      SignalCatalog(signals, byName, aliases, scopes)
    }

    method AddScope(component: string, parent: Option<Key>) returns (r: Result<Key, CatalogError>)
      modifies this
      ensures r.Ok? ==> WithScope(old(Value()), component, parent) == Ok(Value()) && r.value == |old(scopes)|
      ensures r.Err? ==> WithScope(old(Value()), component, parent) == Err(r.error)
    {
      if |scopes| >= CAPACITY {
        return Err(Capacity);
      }
      var key := |scopes|;
      scopes := scopes + [ScopeNode(component, parent)];
      return Ok(key);
    }

    method AddSignal(scope: Option<Key>, prefix: string, decl: Var) returns (r: Result<(), CatalogError>)
      modifies this
      ensures r.Ok? ==> WithSignal(old(Value()), scope, prefix, decl) == Ok(Value())
      ensures r.Err? ==> WithSignal(old(Value()), scope, prefix, decl) == Err(r.error)
    {
      var key := |signals|;
      if key >= CAPACITY {
        return Err(Capacity);
      }
      var fullName := "";
      if prefix != "" {
        fullName := prefix + ".";
      }
      fullName := fullName + decl.reference;
      if decl.index.Some? {
        fullName := fullName + decl.index.value;
      }
      assert fullName == FullName(prefix, decl);
      if fullName in byName {
        return Err(DuplicateSignal(fullName));
      }
      signals := signals + [SignalMeta(decl.code, fullName, decl.size, decl.kind, scope)];
      byName := byName[fullName := key];
      aliases := aliases[decl.code := (if decl.code in aliases then aliases[decl.code] else []) + [key]];
      return Ok(());
    }

    /** `collect`: the shared prefix is extended for the children and truncated afterwards. */
    method Collect(items: seq<Item>, parent: Option<Key>, prefix: Prefix) returns (r: Result<(), CatalogError>)
      modifies this, prefix
      ensures r.Ok? ==>
                Collected(old(Value()), items, parent, old(prefix.text)) == Ok(Value())
                && prefix.text == old(prefix.text)
      ensures r.Err? ==> Collected(old(Value()), items, parent, old(prefix.text)) == Err(r.error)
      decreases items
    {
      ghost var text := prefix.text;
      assert items[0..] == items;
      for k := 0 to |items|
        invariant prefix.text == text
        invariant Collected(Value(), items[k..], parent, text) == Collected(old(Value()), items, parent, text)
      {
        assert items[k..][1..] == items[k + 1..];
        match items[k]
        case ScopeItem(identifier, children) =>
          var key := AddScope(identifier, parent);
          if key.Err? {
            return Err(key.error);
          }
          var length := |prefix.text|;
          prefix.Enter(identifier);
          var inner := Collect(children, Some(key.value), prefix);
          if inner.Err? {
            return inner;
          }
          prefix.Truncate(length);
        case VarItem(decl) =>
          var added := AddSignal(parent, prefix.text, decl);
          if added.Err? {
            return added;
          }
        case OtherItem =>
      }
      assert items[|items|..] == [];
      return Ok(());
    }
  }

  /** `from_scope_items`. */
  method FromScopeItems(items: seq<Item>) returns (r: Result<SignalCatalog, CatalogError>)
    ensures r == Collected(EMPTY, items, None, "")
  {
    var builder := new CatalogBuilder();
    var prefix := new Prefix();
    var collected := builder.Collect(items, None, prefix);
    return if collected.Err? then Err(collected.error) else Ok(builder.Value());
  }

  // ------------------------------------------------------------------ walking to the root

  /** A scope is stored after its parent. */
  ghost predicate ParentsPrecede(scopes: seq<ScopeNode>) {
    forall k | 0 <= k < |scopes| :: scopes[k].parent.Some? ==> scopes[k].parent.value < k
  }

  predicate Within(scope: Option<Key>, n: nat) {
    scope.Some? ==> scope.value < n
  }

  /** The components from the root to a scope. */
  ghost function Path(scopes: seq<ScopeNode>, scope: Option<Key>): seq<string>
    requires ParentsPrecede(scopes) && Within(scope, |scopes|)
    decreases if scope.Some? then scope.value + 1 else 0
  {
    if scope.None? then [] else Path(scopes, scopes[scope.value].parent) + [scopes[scope.value].component]
  }

  function Components(scopes: seq<ScopeNode>, keys: seq<Key>): seq<string>
    requires forall i | 0 <= i < |keys| :: keys[i] < |scopes|
  {
    seq(|keys|, i requires 0 <= i < |keys| => scopes[keys[i]].component)
  }

  function Reversed(keys: seq<Key>): seq<Key> {
    seq(|keys|, i requires 0 <= i < |keys| => keys[|keys| - 1 - i])
  }

  /** `scope_components`: the walk over parents ends because keys decrease. */
  method ScopeComponents(scopes: seq<ScopeNode>, scope: Option<Key>) returns (components: seq<string>)
    requires ParentsPrecede(scopes) && Within(scope, |scopes|)
    ensures components == Path(scopes, scope)
  {
    var keys: seq<Key>, current := [], scope;
    while current.Some?
      invariant Within(current, |scopes|)
      invariant forall i | 0 <= i < |keys| :: keys[i] < |scopes|
      invariant Path(scopes, current) + Components(scopes, Reversed(keys)) == Path(scopes, scope)
      decreases if current.Some? then current.value + 1 else 0
    {
      var key := current.value;
      assert Reversed(keys + [key]) == [key] + Reversed(keys);
      assert Components(scopes, [key] + Reversed(keys)) == [scopes[key].component] + Components(scopes, Reversed(keys));
      keys := keys + [key];
      current := scopes[key].parent;
    }
    assert [] + Components(scopes, Reversed(keys)) == Components(scopes, Reversed(keys));
    components := Components(scopes, Reversed(keys));
  }

  // ------------------------------------------------------------------ the public index

  datatype Signal = Signal(name: string, id: IdCode, size: nat, kind: nat, scope: seq<string>)

  datatype SignalIndex = SignalIndex(byId: map<IdCode, seq<Signal>>, byName: map<string, Signal>)

  predicate DistinctNames(names: seq<string>) {
    forall i, j | 0 <= i < j < |names| :: names[i] != names[j]
  }

  function SignalNames(signals: seq<Signal>): seq<string> {
    seq(|signals|, i requires 0 <= i < |signals| => signals[i].name)
  }

  function WithId(signals: seq<Signal>, id: IdCode): seq<Signal> {
    if signals == [] then []
    else WithId(signals[..|signals| - 1], id) + if signals[|signals| - 1].id == id then [signals[|signals| - 1]] else []
  }

  ghost predicate IndexesIds(byId: map<IdCode, seq<Signal>>, signals: seq<Signal>) {
    forall id :: (if id in byId then byId[id] else []) == WithId(signals, id)
  }

  ghost predicate Named(signals: seq<Signal>, name: string) {
    exists i :: 0 <= i < |signals| && signals[i].name == name
  }

  ghost predicate IndexesNames(byName: map<string, Signal>, signals: seq<Signal>) {
    && (forall i | 0 <= i < |signals| :: signals[i].name in byName && byName[signals[i].name] == signals[i])
    && (forall name | name in byName :: Named(signals, name))
  }

  ghost predicate Indexes(index: SignalIndex, signals: seq<Signal>) {
    IndexesIds(index.byId, signals) && IndexesNames(index.byName, signals)
  }

  lemma IndexIdsStep(byId: map<IdCode, seq<Signal>>, signals: seq<Signal>, k: nat)
    requires k < |signals| && IndexesIds(byId, signals[..k])
    ensures var s := signals[k];
            IndexesIds(byId[s.id := (if s.id in byId then byId[s.id] else []) + [s]], signals[..k + 1])
  {
    assert signals[..k + 1][..k] == signals[..k];
  }

  lemma IndexNamesStep(byName: map<string, Signal>, signals: seq<Signal>, k: nat)
    requires k < |signals| && IndexesNames(byName, signals[..k]) && signals[k].name !in byName
    ensures IndexesNames(byName[signals[k].name := signals[k]], signals[..k + 1])
  {
    var s, before, now := signals[k], signals[..k], signals[..k + 1];
    assert now == before + [s];
    forall name | name in byName[s.name := s] ensures Named(now, name) {
      if name == s.name {
        assert now[|before|].name == name;
      } else {
        assert Named(before, name);
        var i :| 0 <= i < |before| && before[i].name == name;
        assert now[i].name == name;
      }
    }
  }

  lemma DistinctAppend(names: seq<string>, name: string)
    ensures DistinctNames(names + [name]) <==> DistinctNames(names) && name !in names
  {
    var all := names + [name];
    if DistinctNames(all) {
      assert forall i, j | 0 <= i < j < |names| :: all[i] == names[i] && all[j] == names[j];
      assert all[|names|] == name && forall i | 0 <= i < |names| :: all[i] == names[i];
    }
  }

  lemma NamesStep(byName: map<string, Signal>, signals: seq<Signal>, k: nat)
    requires k < |signals| && IndexesNames(byName, signals[..k]) && DistinctNames(SignalNames(signals[..k]))
    ensures if signals[k].name in byName then !DistinctNames(SignalNames(signals))
              else DistinctNames(SignalNames(signals[..k + 1]))
  {
    var s, before := signals[k], signals[..k];
    assert SignalNames(signals[..k + 1]) == SignalNames(before) + [s.name];
    if s.name in byName {
      assert Named(before, s.name);
      var i :| 0 <= i < |before| && before[i].name == s.name;
      assert SignalNames(signals)[i] == SignalNames(signals)[k];
    } else {
      assert forall i | 0 <= i < k :: SignalNames(before)[i] == before[i].name;
      DistinctAppend(SignalNames(before), s.name);
    }
  }

  /** `SignalIndex::build` fails exactly on repeated names. */
  method BuildIndex(signals: seq<Signal>) returns (r: Result<SignalIndex, CatalogError>)
    ensures r.Ok? <==> DistinctNames(SignalNames(signals))
    ensures r.Ok? ==> Indexes(r.value, signals)
  {
    var byId: map<IdCode, seq<Signal>>, byName: map<string, Signal> := map[], map[];
    for k := 0 to |signals|
      invariant IndexesIds(byId, signals[..k]) && IndexesNames(byName, signals[..k])
      invariant DistinctNames(SignalNames(signals[..k]))
    {
      var s := signals[k];
      IndexIdsStep(byId, signals, k);
      NamesStep(byName, signals, k);
      byId := byId[s.id := (if s.id in byId then byId[s.id] else []) + [s]];
      if s.name in byName {
        return Err(DuplicateSignal(s.name));
      }
      IndexNamesStep(byName, signals, k);
      byName := byName[s.name := s];
    }
    assert signals[..|signals|] == signals;
    return Ok(SignalIndex(byId, byName));
  }

  ghost predicate Walkable(c: SignalCatalog) {
    ParentsPrecede(c.scopes) && forall i | 0 <= i < |c.signals| :: Within(c.signals[i].scope, |c.scopes|)
  }

  ghost function MaterialisedAt(c: SignalCatalog, i: nat): Signal
    requires Walkable(c) && i < |c.signals|
  {
    var s := c.signals[i];
    Signal(s.fullName, s.id, s.size, s.kind, Path(c.scopes, s.scope))
  }

  ghost function Materialised(c: SignalCatalog): seq<Signal>
    requires Walkable(c)
  {
    seq(|c.signals|, i requires 0 <= i < |c.signals| => MaterialisedAt(c, i))
  }

  /** `into_compatibility_parts`. */
  method IntoCompatibilityParts(c: SignalCatalog) returns (r: Result<(seq<Signal>, SignalIndex), CatalogError>)
    requires Walkable(c)
    ensures r.Ok? <==> DistinctNames(SignalNames(Materialised(c)))
    ensures r.Ok? ==> r.value.0 == Materialised(c) && Indexes(r.value.1, r.value.0)
  {
    var signals: seq<Signal> := [];
    for i := 0 to |c.signals|
      invariant signals == Materialised(c)[..i]
    {
      var s := c.signals[i];
      var components := ScopeComponents(c.scopes, s.scope);
      signals := signals + [Signal(s.fullName, s.id, s.size, s.kind, components)];
    }
    assert Materialised(c)[..|c.signals|] == Materialised(c);
    var index := BuildIndex(signals);
    return if index.Err? then Err(index.error) else Ok((signals, index.value));
  }
}
