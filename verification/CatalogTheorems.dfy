/** The catalog is the naive flattening of the scope tree, and builds exactly when the flattened
    names are distinct and fit the key space. */
module CatalogTheorems {
  import opened Wrappers
  import opened Catalog

  // ------------------------------------------------------------------ the naive flattening

  /** A declaration with its full name and the scopes it lies in. */
  datatype Flat = Flat(name: string, id: IdCode, size: nat, kind: nat, path: seq<string>)

  /** The prefix after entering the scopes of a path, from the root. */
  function PrefixOf(path: seq<string>): string {
    if path == [] then "" else Entered(PrefixOf(path[..|path| - 1]), path[|path| - 1])
  }

  function Flatten(items: seq<Item>, path: seq<string>): seq<Flat>
    decreases items
  {
    if items == [] then []
    else
      (match items[0]
       case ScopeItem(identifier, children) => Flatten(children, path + [identifier])
       case VarItem(decl) => [Flat(FullName(PrefixOf(path), decl), decl.code, decl.size, decl.kind, path)]
       case OtherItem => [])
      + Flatten(items[1..], path)
  }

  function ScopeCount(items: seq<Item>): nat
    decreases items
  {
    if items == [] then 0
    else (if items[0].ScopeItem? then 1 + ScopeCount(items[0].items) else 0) + ScopeCount(items[1..])
  }

  function FlatNames(flats: seq<Flat>): seq<string> {
    seq(|flats|, i requires 0 <= i < |flats| => flats[i].name)
  }

  lemma FlatNamesConcat(a: seq<Flat>, b: seq<Flat>)
    ensures FlatNames(a + b) == FlatNames(a) + FlatNames(b)
  {
  }

  // ------------------------------------------------------------------ what the builder keeps

  /** The keys of an identifier, ascending. */
  function KeysOf(signals: seq<SignalMeta>, id: IdCode): seq<Key> {
    if signals == [] then []
    else KeysOf(signals[..|signals| - 1], id) + if signals[|signals| - 1].id == id then [|signals| - 1] else []
  }

  function Names(c: SignalCatalog): seq<string> {
    seq(|c.signals|, i requires 0 <= i < |c.signals| => c.signals[i].fullName)
  }

  ghost predicate NameIndex(c: SignalCatalog) {
    && (forall name | name in c.byName :: c.byName[name] < |c.signals| && c.signals[c.byName[name]].fullName == name)
    && (forall key | 0 <= key < |c.signals| ::
        c.signals[key].fullName in c.byName && c.byName[c.signals[key].fullName] == key)
  }

  ghost predicate AliasLists(c: SignalCatalog) {
    forall id :: KeysUnder(c, id) == KeysOf(c.signals, id)
  }

  ghost predicate Valid(c: SignalCatalog) {
    Walkable(c) && NameIndex(c) && AliasLists(c) && |c.signals| <= CAPACITY && |c.scopes| <= CAPACITY
  }

  lemma WithScopeKeeps(c: SignalCatalog, component: string, parent: Option<Key>)
    requires Valid(c) && Within(parent, |c.scopes|) && WithScope(c, component, parent).Ok?
    ensures Valid(WithScope(c, component, parent).value)
  {
    var c' := WithScope(c, component, parent).value;
    forall k | 0 <= k < |c'.scopes| && c'.scopes[k].parent.Some? ensures c'.scopes[k].parent.value < k {
      assert k < |c.scopes| ==> c'.scopes[k] == c.scopes[k];
    }
  }

  lemma WithSignalNames(c: SignalCatalog, scope: Option<Key>, prefix: string, decl: Var)
    requires NameIndex(c) && WithSignal(c, scope, prefix, decl).Ok?
    ensures NameIndex(WithSignal(c, scope, prefix, decl).value)
  {
  }

  lemma WithSignalAliases(c: SignalCatalog, scope: Option<Key>, prefix: string, decl: Var)
    requires AliasLists(c) && WithSignal(c, scope, prefix, decl).Ok?
    ensures AliasLists(WithSignal(c, scope, prefix, decl).value)
  {
    var c' := WithSignal(c, scope, prefix, decl).value;
    assert c'.signals[..|c.signals|] == c.signals;
  }

  lemma WithSignalKeeps(c: SignalCatalog, scope: Option<Key>, prefix: string, decl: Var)
    requires Valid(c) && Within(scope, |c.scopes|) && WithSignal(c, scope, prefix, decl).Ok?
    ensures Valid(WithSignal(c, scope, prefix, decl).value)
  {
    WithSignalNames(c, scope, prefix, decl);
    WithSignalAliases(c, scope, prefix, decl);
    assert Walkable(WithSignal(c, scope, prefix, decl).value);
  }

  /** The index is an inverse of the declaration order, so names in it are distinct. */
  lemma IndexedNamesDistinct(c: SignalCatalog)
    requires NameIndex(c)
    ensures DistinctNames(Names(c))
    ensures forall name :: name in c.byName <==> name in Names(c)
  {
    forall i, j | 0 <= i < j < |c.signals| ensures Names(c)[i] != Names(c)[j] {
      assert c.signals[i].fullName in c.byName && c.byName[c.signals[i].fullName] == i;
      assert c.signals[j].fullName in c.byName && c.byName[c.signals[j].fullName] == j;
    }
    forall name ensures name in c.byName <==> name in Names(c) {
      if name in c.byName {
        assert Names(c)[c.byName[name]] == name;
      }
      if name in Names(c) {
        var i :| 0 <= i < |Names(c)| && Names(c)[i] == name;
        assert c.signals[i].fullName == name;
      }
    }
  }

  // ------------------------------------------------------------------ one catalog is another with more

  ghost predicate Extends(c': SignalCatalog, c: SignalCatalog) {
    c.scopes <= c'.scopes && c.signals <= c'.signals
  }

  lemma {:induction false} PathStable(scopes: seq<ScopeNode>, more: seq<ScopeNode>, scope: Option<Key>)
    requires ParentsPrecede(scopes) && ParentsPrecede(more) && scopes <= more && Within(scope, |scopes|)
    ensures Path(more, scope) == Path(scopes, scope)
    decreases if scope.Some? then scope.value + 1 else 0
  {
    if scope.None? {
    } else {
      assert more[scope.value] == scopes[scope.value];
      PathStable(scopes, more, scopes[scope.value].parent);
    }
  }

  ghost function FlatAt(c: SignalCatalog, i: nat): Flat
    requires Walkable(c) && i < |c.signals|
  {
    var s := c.signals[i];
    Flat(s.fullName, s.id, s.size, s.kind, Path(c.scopes, s.scope))
  }

  /** The catalog as the naive flattening would list it. */
  ghost function Listing(c: SignalCatalog): seq<Flat>
    requires Walkable(c)
  {
    seq(|c.signals|, i requires 0 <= i < |c.signals| => FlatAt(c, i))
  }

  lemma ListingNames(c: SignalCatalog)
    requires Walkable(c)
    ensures FlatNames(Listing(c)) == Names(c)
  {
  }

  lemma ListingWithScope(c: SignalCatalog, component: string, parent: Option<Key>)
    requires Valid(c) && Within(parent, |c.scopes|) && WithScope(c, component, parent).Ok?
    ensures var c' := WithScope(c, component, parent).value;
            && Valid(c') && Extends(c', c) && Listing(c') == Listing(c) && |c'.scopes| == |c.scopes| + 1
            && Path(c'.scopes, Some(|c.scopes|)) == Path(c.scopes, parent) + [component]
  {
    var c' := WithScope(c, component, parent).value;
    WithScopeKeeps(c, component, parent);
    PathStable(c.scopes, c'.scopes, parent);
    forall i | 0 <= i < |c.signals| ensures FlatAt(c', i) == FlatAt(c, i) {
      PathStable(c.scopes, c'.scopes, c.signals[i].scope);
    }
    assert c'.scopes[|c.scopes|] == ScopeNode(component, parent);
  }

  lemma ListingGrows(c: SignalCatalog, c': SignalCatalog, meta: SignalMeta)
    requires Walkable(c) && Walkable(c') && c'.scopes == c.scopes && c'.signals == c.signals + [meta]
    ensures Listing(c') == Listing(c) + [FlatAt(c', |c.signals|)]
  {
    forall i | 0 <= i < |c.signals| ensures FlatAt(c', i) == FlatAt(c, i) {
      assert c'.signals[i] == c.signals[i];
    }
  }

  lemma ListingWithSignal(c: SignalCatalog, scope: Option<Key>, prefix: string, decl: Var)
    requires Valid(c) && Within(scope, |c.scopes|) && WithSignal(c, scope, prefix, decl).Ok?
    ensures var c' := WithSignal(c, scope, prefix, decl).value;
            && Valid(c') && Extends(c', c) && |c'.scopes| == |c.scopes|
            && Listing(c') == Listing(c)
               + [Flat(FullName(prefix, decl), decl.code, decl.size, decl.kind, Path(c.scopes, scope))]
  {
    var c' := WithSignal(c, scope, prefix, decl).value;
    WithSignalKeeps(c, scope, prefix, decl);
    ListingGrows(c, c', SignalMeta(decl.code, FullName(prefix, decl), decl.size, decl.kind, scope));
  }

  // ------------------------------------------------------------------ the build

  /** Where the builder stands: the scope being collected and the path to it. */
  ghost predicate Standing(c: SignalCatalog, parent: Option<Key>, path: seq<string>) {
    Valid(c) && Within(parent, |c.scopes|) && Path(c.scopes, parent) == path
  }

  lemma StandingLater(c: SignalCatalog, c': SignalCatalog, parent: Option<Key>, path: seq<string>)
    requires Standing(c, parent, path) && Valid(c') && Extends(c', c)
    ensures Standing(c', parent, path)
  {
    PathStable(c.scopes, c'.scopes, parent);
  }

  /** `c'` is `c` with the flattening of `items` appended. */
  ghost predicate Appends(c: SignalCatalog, c': SignalCatalog, items: seq<Item>, path: seq<string>)
    requires Walkable(c)
  {
    && Valid(c') && Extends(c', c)
    && Listing(c') == Listing(c) + Flatten(items, path)
    && |c'.scopes| == |c.scopes| + ScopeCount(items)
  }

  lemma EnteredPath(path: seq<string>, identifier: string)
    ensures PrefixOf(path + [identifier]) == Entered(PrefixOf(path), identifier)
  {
    assert (path + [identifier])[..|path|] == path;
  }

  lemma SingletonScope(identifier: string, children: seq<Item>, path: seq<string>)
    ensures Flatten([ScopeItem(identifier, children)], path) == Flatten(children, path + [identifier])
    ensures ScopeCount([ScopeItem(identifier, children)]) == 1 + ScopeCount(children)
  {
    assert [ScopeItem(identifier, children)][1..] == [];
  }

  lemma SingletonVar(decl: Var, path: seq<string>)
    ensures Flatten([VarItem(decl)], path) ==
            [Flat(FullName(PrefixOf(path), decl), decl.code, decl.size, decl.kind, path)]
    ensures ScopeCount([VarItem(decl)]) == 0
  {
    assert [VarItem(decl)][1..] == [];
  }

  lemma SingletonOther(path: seq<string>)
    ensures Flatten([OtherItem], path) == [] && ScopeCount([OtherItem]) == 0
  {
    assert [OtherItem][1..] == [];
  }

  lemma HeadAndTail(items: seq<Item>, path: seq<string>)
    requires items != []
    ensures Flatten(items, path) == Flatten([items[0]], path) + Flatten(items[1..], path)
    ensures ScopeCount(items) == ScopeCount([items[0]]) + ScopeCount(items[1..])
  {
    match items[0] {
      case ScopeItem(identifier, children) => SingletonScope(identifier, children, path);
      case VarItem(decl) => SingletonVar(decl, path);
      case OtherItem => SingletonOther(path);
    }
  }

  lemma Regroup(a: seq<Flat>, b: seq<Flat>, rest: seq<Flat>)
    ensures a + (b + rest) == a + b + rest
  {
  }

  lemma AppendsThen(c: SignalCatalog, mid: SignalCatalog, c': SignalCatalog, items: seq<Item>, path: seq<string>)
    requires items != [] && Walkable(c)
    requires Appends(c, mid, [items[0]], path) && Appends(mid, c', items[1..], path)
    ensures Appends(c, c', items, path)
  {
    HeadAndTail(items, path);
    Regroup(Listing(c), Flatten([items[0]], path), Flatten(items[1..], path));
  }

  /** The catalog after the first item. */
  function AfterFirst(c: SignalCatalog, item: Item, parent: Option<Key>, prefix: string):
      Result<SignalCatalog, CatalogError>
  {
    match item
    case ScopeItem(identifier, children) =>
      var entered := WithScope(c, identifier, parent);
      if entered.Err? then entered
      else Collected(entered.value, children, Some(|c.scopes|), Entered(prefix, identifier))
    case VarItem(decl) => WithSignal(c, parent, prefix, decl)
    case OtherItem => Ok(c)
  }

  /** A build that succeeds appends the naive flattening, and everything the catalog promises
      still holds. */
  lemma {:induction false} CollectedAppends(c: SignalCatalog, items: seq<Item>, parent: Option<Key>, path: seq<string>)
    requires Standing(c, parent, path) && Collected(c, items, parent, PrefixOf(path)).Ok?
    ensures Appends(c, Collected(c, items, parent, PrefixOf(path)).value, items, path)
    decreases items
  {
    if items == [] {
      assert Listing(c) + [] == Listing(c);
    } else {
      FirstAppends(c, items, parent, path);
      var mid := AfterFirst(c, items[0], parent, PrefixOf(path)).value;
      CollectedAppends(mid, items[1..], parent, path);
      AppendsThen(c, mid, Collected(mid, items[1..], parent, PrefixOf(path)).value, items, path);
    }
  }

  lemma ScopeAppends(c: SignalCatalog, identifier: string, parent: Option<Key>, path: seq<string>)
    requires Standing(c, parent, path) && WithScope(c, identifier, parent).Ok?
    ensures var entered := WithScope(c, identifier, parent).value;
            && Standing(entered, Some(|c.scopes|), path + [identifier])
            && Extends(entered, c) && Listing(entered) == Listing(c) && |entered.scopes| == |c.scopes| + 1
    ensures PrefixOf(path + [identifier]) == Entered(PrefixOf(path), identifier)
  {
    ListingWithScope(c, identifier, parent);
    EnteredPath(path, identifier);
  }

  lemma {:induction false} FirstAppends(c: SignalCatalog, items: seq<Item>, parent: Option<Key>, path: seq<string>)
    requires Standing(c, parent, path) && items != [] && AfterFirst(c, items[0], parent, PrefixOf(path)).Ok?
    ensures var mid := AfterFirst(c, items[0], parent, PrefixOf(path)).value;
            Standing(mid, parent, path) && Appends(c, mid, [items[0]], path)
    decreases items, 0
  {
    var item, prefix := items[0], PrefixOf(path);
    var mid := AfterFirst(c, item, parent, prefix).value;
    match item {
      case ScopeItem(identifier, children) =>
        ScopeAppends(c, identifier, parent, path);
        CollectedAppends(WithScope(c, identifier, parent).value, children, Some(|c.scopes|), path + [identifier]);
        SingletonScope(identifier, children, path);
      case VarItem(decl) =>
        ListingWithSignal(c, parent, prefix, decl);
        SingletonVar(decl, path);
      case OtherItem =>
        SingletonOther(path);
        assert Listing(c) + [] == Listing(c);
    }
    StandingLater(c, mid, parent, path);
  }

  // ------------------------------------------------------------------ when the build succeeds

  /** The flattened names are distinct from each other and from those already there, and keys
      suffice. */
  ghost predicate Acceptable(c: SignalCatalog, items: seq<Item>, path: seq<string>) {
    && |c.signals| + |Flatten(items, path)| <= CAPACITY
    && |c.scopes| + ScopeCount(items) <= CAPACITY
    && DistinctNames(Names(c) + FlatNames(Flatten(items, path)))
  }

  lemma DistinctPrefix(a: seq<string>, b: seq<string>)
    requires DistinctNames(a + b)
    ensures DistinctNames(a)
  {
    forall i, j | 0 <= i < j < |a| ensures a[i] != a[j] {
      assert (a + b)[i] == a[i] && (a + b)[j] == a[j];
    }
  }

  lemma AllNames(c: SignalCatalog, mid: SignalCatalog, head: seq<Flat>, rest: seq<Flat>)
    requires Walkable(c) && Walkable(mid) && Listing(mid) == Listing(c) + head
    ensures Names(c) + FlatNames(head + rest) == Names(mid) + FlatNames(rest)
  {
    ListingNames(c);
    ListingNames(mid);
    FlatNamesConcat(Listing(c), head);
    FlatNamesConcat(head, rest);
  }

  lemma AcceptableSplits(c: SignalCatalog, mid: SignalCatalog, items: seq<Item>, path: seq<string>)
    requires items != [] && Walkable(c) && Appends(c, mid, [items[0]], path)
    ensures Acceptable(c, items, path) <==> Acceptable(mid, items[1..], path)
  {
    var head, rest := Flatten([items[0]], path), Flatten(items[1..], path);
    HeadAndTail(items, path);
    AllNames(c, mid, head, rest);
    assert |Listing(c)| == |c.signals| && |Listing(mid)| == |mid.signals|;
  }

  lemma AcceptableHead(c: SignalCatalog, items: seq<Item>, path: seq<string>)
    requires items != [] && Acceptable(c, items, path)
    ensures Acceptable(c, [items[0]], path)
  {
    var head, rest := Flatten([items[0]], path), Flatten(items[1..], path);
    HeadAndTail(items, path);
    FlatNamesConcat(head, rest);
    assert Names(c) + (FlatNames(head) + FlatNames(rest)) == Names(c) + FlatNames(head) + FlatNames(rest);
    DistinctPrefix(Names(c) + FlatNames(head), FlatNames(rest));
  }

  lemma SignalAccepted(c: SignalCatalog, scope: Option<Key>, decl: Var, path: seq<string>)
    requires Valid(c)
    ensures WithSignal(c, scope, PrefixOf(path), decl).Ok? <==> Acceptable(c, [VarItem(decl)], path)
  {
    var name := FullName(PrefixOf(path), decl);
    SingletonVar(decl, path);
    IndexedNamesDistinct(c);
    DistinctAppend(Names(c), name);
    assert FlatNames(Flatten([VarItem(decl)], path)) == [name];
  }

  lemma ScopeAccepted(c: SignalCatalog, identifier: string, children: seq<Item>, parent: Option<Key>, path: seq<string>)
    requires Standing(c, parent, path) && WithScope(c, identifier, parent).Ok?
    ensures Acceptable(WithScope(c, identifier, parent).value, children, path + [identifier]) <==>
            Acceptable(c, [ScopeItem(identifier, children)], path)
  {
    SingletonScope(identifier, children, path);
    assert Names(WithScope(c, identifier, parent).value) == Names(c);
  }

  /** The build succeeds exactly when the flattened names are distinct and fit the key space. */
  lemma {:induction false} CollectedAccepts(c: SignalCatalog, items: seq<Item>, parent: Option<Key>, path: seq<string>)
    requires Standing(c, parent, path)
    ensures Collected(c, items, parent, PrefixOf(path)).Ok? <==> Acceptable(c, items, path)
    decreases items
  {
    if items == [] {
      IndexedNamesDistinct(c);
      assert Names(c) + FlatNames([]) == Names(c);
    } else {
      var first := AfterFirst(c, items[0], parent, PrefixOf(path));
      FirstAccepts(c, items, parent, path);
      if first.Ok? {
        FirstAppends(c, items, parent, path);
        CollectedAccepts(first.value, items[1..], parent, path);
        AcceptableSplits(c, first.value, items, path);
      } else if Acceptable(c, items, path) {
        AcceptableHead(c, items, path);
      }
    }
  }

  lemma {:induction false} FirstAccepts(c: SignalCatalog, items: seq<Item>, parent: Option<Key>, path: seq<string>)
    requires Standing(c, parent, path) && items != []
    ensures AfterFirst(c, items[0], parent, PrefixOf(path)).Ok? <==> Acceptable(c, [items[0]], path)
    decreases items, 0
  {
    match items[0] {
      case ScopeItem(identifier, children) =>
        SingletonScope(identifier, children, path);
        if WithScope(c, identifier, parent).Ok? {
          ScopeAppends(c, identifier, parent, path);
          ScopeAccepted(c, identifier, children, parent, path);
          CollectedAccepts(WithScope(c, identifier, parent).value, children, Some(|c.scopes|), path + [identifier]);
        }
      case VarItem(decl) =>
        SignalAccepted(c, parent, decl, path);
      case OtherItem =>
        SingletonOther(path);
        IndexedNamesDistinct(c);
        assert Names(c) + FlatNames([]) == Names(c);
    }
  }

  // ------------------------------------------------------------------ the catalog of a header

  function Build(items: seq<Item>): Result<SignalCatalog, CatalogError> {
    Collected(EMPTY, items, None, "")
  }

  lemma NothingYet()
    ensures Standing(EMPTY, None, []) && Listing(EMPTY) == [] && Names(EMPTY) == [] && PrefixOf([]) == ""
  {
  }

  /** A header is accepted exactly when its flattened names are distinct and its signals and
      scopes fit 32-bit keys. */
  lemma BuildSucceedsExactly(items: seq<Item>)
    ensures Build(items).Ok? <==>
            && |Flatten(items, [])| <= CAPACITY && ScopeCount(items) <= CAPACITY
            && DistinctNames(FlatNames(Flatten(items, [])))
  {
    NothingYet();
    CollectedAccepts(EMPTY, items, None, []);
    assert Names(EMPTY) + FlatNames(Flatten(items, [])) == FlatNames(Flatten(items, []));
  }

  /** The catalog lists the naive flattening in declaration order, with the scopes of every
      signal reached by walking its parents. */
  lemma CatalogIsFlattening(items: seq<Item>)
    requires Build(items).Ok?
    ensures Valid(Build(items).value) && Listing(Build(items).value) == Flatten(items, [])
  {
    NothingYet();
    CollectedAppends(EMPTY, items, None, []);
    assert [] + Flatten(items, []) == Flatten(items, []);
  }

  /** The name index maps a name to a key exactly when the flattening has that name at that
      position. */
  lemma NameIndexIsExact(items: seq<Item>, name: string, key: Key)
    requires Build(items).Ok?
    ensures var c := Build(items).value;
            (name in c.byName && c.byName[name] == key) <==>
            (key < |Flatten(items, [])| && Flatten(items, [])[key].name == name)
  {
    CatalogIsFlattening(items);
    var c := Build(items).value;
    assert forall i | 0 <= i < |c.signals| :: Listing(c)[i].name == c.signals[i].fullName;
  }

  predicate Ascending(keys: seq<Key>) {
    forall i, j | 0 <= i < j < |keys| :: keys[i] < keys[j]
  }

  lemma {:induction false} KeysOfExact(signals: seq<SignalMeta>, id: IdCode)
    ensures forall key :: key in KeysOf(signals, id) <==> 0 <= key < |signals| && signals[key].id == id
    ensures Ascending(KeysOf(signals, id))
  {
    if signals == [] {
    } else {
      var before := KeysOf(signals[..|signals| - 1], id);
      KeysOfExact(signals[..|signals| - 1], id);
      assert forall i | 0 <= i < |before| :: before[i] in before;
    }
  }

  lemma KeysOfListing(c: SignalCatalog, id: IdCode)
    requires Valid(c)
    ensures var keys, flat := KeysUnder(c, id), Listing(c);
            && (forall key :: key in keys <==> 0 <= key < |flat| && flat[key].id == id)
            && Ascending(keys)
  {
    KeysOfExact(c.signals, id);
  }

  /** The alias list of an identifier holds the positions of all its declarations and no others,
      strictly ascending. */
  lemma AliasesAreExact(items: seq<Item>, id: IdCode)
    requires Build(items).Ok?
    ensures var keys, flat := KeysUnder(Build(items).value, id), Flatten(items, []);
            && (forall key :: key in keys <==> 0 <= key < |flat| && flat[key].id == id)
            && Ascending(keys)
  {
    CatalogIsFlattening(items);
    KeysOfListing(Build(items).value, id);
  }

  /** The compatibility index over the materialised signals of a catalog is never refused. */
  lemma CompatibilityNeverFails(items: seq<Item>)
    requires Build(items).Ok?
    ensures Walkable(Build(items).value) && DistinctNames(SignalNames(Materialised(Build(items).value)))
  {
    CatalogIsFlattening(items);
    var c := Build(items).value;
    IndexedNamesDistinct(c);
    assert SignalNames(Materialised(c)) == Names(c);
  }

  /** The materialised signals are the flattening, position by position. */
  lemma MaterialisedIsFlattening(items: seq<Item>, i: nat)
    requires Build(items).Ok? && i < |Flatten(items, [])|
    ensures Walkable(Build(items).value) && |Materialised(Build(items).value)| == |Flatten(items, [])|
    ensures var flat := Flatten(items, [])[i];
            Materialised(Build(items).value)[i] == Signal(flat.name, flat.id, flat.size, flat.kind, flat.path)
  {
    CatalogIsFlattening(items);
    assert Listing(Build(items).value)[i] == FlatAt(Build(items).value, i);
  }

  // ------------------------------------------------------------------ prefixes and dots

  function DotJoin(path: seq<string>): string {
    if path == [] then ""
    else if |path| == 1 then path[0]
    else DotJoin(path[..|path| - 1]) + "." + path[|path| - 1]
  }

  lemma {:induction false} PrefixAndDots(path: seq<string>)
    requires path != []
    ensures path[0] != "" ==> PrefixOf(path) == DotJoin(path) != ""
    ensures path[0] == "" ==> |PrefixOf(path)| < |DotJoin(path)| || |path| == 1
    ensures |path| == 1 ==> PrefixOf(path) == DotJoin(path) == path[0]
  {
    if |path| > 1 {
      PrefixAndDots(path[..|path| - 1]);
    } else {
      assert PrefixOf(path[..0]) == "";
    }
  }

  /** The shared prefix is the dot-join of the scope components unless the outermost of several
      identifiers is empty. */
  lemma PrefixIsDotJoin(path: seq<string>)
    ensures PrefixOf(path) == DotJoin(path) <==> |path| <= 1 || path[0] != ""
  {
    if path != [] {
      PrefixAndDots(path);
    }
  }

  /** Two declarations of one scope with the same reference have the same name exactly when their
      index texts are the same, no index counting as an empty one. */
  lemma IndexedNamesDiffer(prefix: string, a: Var, b: Var)
    requires a.reference == b.reference
    ensures FullName(prefix, a) == FullName(prefix, b) <==>
            (if a.index.Some? then a.index.value else "") == (if b.index.Some? then b.index.value else "")
  {
    var i, j := if a.index.Some? then a.index.value else "", if b.index.Some? then b.index.value else "";
    var front := if prefix == "" then a.reference else prefix + "." + a.reference;
    assert FullName(prefix, a) == front + i && FullName(prefix, b) == front + j;
    assert (front + i)[|front|..] == i && (front + j)[|front|..] == j;
  }

  /** A full name is the dot-join of its scopes and its reference with the index text, unless the
      outermost identifier is empty: the builder then drops the leading dots. */
  lemma NameIsDotJoin(path: seq<string>, decl: Var)
    ensures var leaf := if decl.index.Some? then decl.reference + decl.index.value else decl.reference;
            FullName(PrefixOf(path), decl) == DotJoin(path + [leaf]) <==> path == [] || path[0] != ""
  {
    assert decl.reference + "" == decl.reference;
    var full := path + [Leaf(decl)];
    assert full[..|path|] == path;
    if path != [] {
      assert DotJoin(full) == DotJoin(path) + "." + Leaf(decl);
      PrefixAndDots(path);
    }
  }

  lemma PrefixWithoutDot()
    ensures PrefixOf(["", "a"]) == "a"
  {
    EnteredPath([], "");
    EnteredPath([""], "a");
    assert [] + [""] == [""] && [""] + ["a"] == ["", "a"];
  }

  /** One declaration inside two scopes. */
  lemma NestedDeclaration(outer: string, inner: string, decl: Var)
    ensures var items := [ScopeItem(outer, [ScopeItem(inner, [VarItem(decl)])])];
            && Flatten(items, []) ==
               [Flat(FullName(PrefixOf([outer, inner]), decl), decl.code, decl.size, decl.kind, [outer, inner])]
            && ScopeCount(items) == 2
  {
    SingletonScope(outer, [ScopeItem(inner, [VarItem(decl)])], []);
    assert [] + [outer] == [outer] && [outer] + [inner] == [outer, inner];
    SingletonScope(inner, [VarItem(decl)], [outer]);
    SingletonVar(decl, [outer, inner]);
  }

  /** A scope with an empty identifier outermost: the signal is called `a.v`, where joining its
      scopes and its leaf with dots gives `.a.v`. */
  lemma EmptyOutermostScope()
    ensures var decl := Var(1, 1, 0, "v", None);
            var items := [ScopeItem("", [ScopeItem("a", [VarItem(decl)])])];
            && Build(items).Ok?
            && Listing(Build(items).value) == [Flat("a.v", 1, 1, 0, ["", "a"])]
            && DotJoin(["", "a", "v"]) == ".a.v"
  {
    var decl := Var(1, 1, 0, "v", None);
    var items := [ScopeItem("", [ScopeItem("a", [VarItem(decl)])])];
    NestedDeclaration("", "a", decl);
    PrefixWithoutDot();
    assert FullName("a", decl) == "a.v";
    BuildSucceedsExactly(items);
    CatalogIsFlattening(items);
    assert ["", "a", "v"][..2] == ["", "a"] && ["", "a"][..1] == [""];
    assert DotJoin(["", "a"]) == ".a";
  }
}
