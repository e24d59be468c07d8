/** Components out of deliverables (minifleet/compile.py, components_from_deliverables). */
module Compile {
  import opened Text
  import opened Options
  import opened Numerals
  import opened Model

  /** What the standard library does to strings and paths: strip(), Path(p).stem, Path(p).name, Path(p).parent.name. */
  datatype Library = Library(strip: string -> string, stem: string -> string, name: string -> string,
      parent: string -> string)

  /** Where sep first occurs in s; |s| when it does not. */
  function PositionOf(s: string, sep: string): (i: nat)
    ensures i <= |s|
    ensures i < |s| ==> sep <= s[i..]
  {
    if s == "" || sep <= s then 0 else 1 + PositionOf(s[1..], sep)
  }

  /** s.partition(sep), without the separator itself. */
  function Partition(s: string, sep: string): (string, string) {
    var i := PositionOf(s, sep);
    if i < |s| && i + |sep| <= |s| then (s[..i], s[i + |sep|..]) else (s, "")
  }

  predicate Occurs(s: string, sep: string) {
    PositionOf(s, sep) < |s|
  }

  function SplitAtCommas(lib: Library, s: string): seq<string>
    decreases |s|
  {
    var (first, rest) := Partition(s, ",");
    (if lib.strip(first) != "" then [lib.strip(first)] else [])
    + if |rest| < |s| && rest != "" then SplitAtCommas(lib, rest) else []
  }

  datatype Item = Item(path: string, owner: string, depends: seq<string>)

  function PathOf(lib: Library, text: string): string {
    lib.strip(Partition(text, " - ").0)
  }

  function Parse(lib: Library, text: string): (item: Item)
    ensures item.path == PathOf(lib, text)
  {
    var description := Partition(text, " - ").1;
    var owner := if Occurs(description, "| of:") then lib.strip(Partition(description, "| of:").1) else "";
    var rest := if Occurs(description, "| of:") then Partition(description, "| of:").0 else description;
    Item(PathOf(lib, text), owner,
         if Occurs(rest, "| depends:") then SplitAtCommas(lib, Partition(rest, "| depends:").1) else [])
  }

  predicate IsTest(lib: Library, path: string) {
    "tests/" <= path || "test_" <= lib.name(path)
  }

  datatype Kind = Module | TestFile | Attached

  function KindOf(lib: Library, item: Item): Kind {
    if item.owner != "" then Attached else if IsTest(lib, item.path) then TestFile else Module
  }

  function OfKind(lib: Library, items: seq<Item>, kind: Kind): seq<Item> {
    if items == [] then []
    else (if KindOf(lib, items[0]) == kind then [items[0]] else []) + OfKind(lib, items[1..], kind)
  }

  // ---- building the components ----

  datatype Building = Building(components: seq<Component>, used: map<string, nat>)

  function ComponentId(lib: Library, path: string, used: map<string, nat>): (string, map<string, nat>) {
    var stem := lib.stem(path);
    if stem in used then
      (if lib.parent(path) != "" && lib.parent(path) != "." then lib.parent(path) + "-" + stem
       else stem + "-" + Decimal(used[stem] + 1),
       used[stem := used[stem] + 1])
    else (stem, used[stem := 1])
  }

  function NewComponent(lib: Library, b: Building, path: string, depends: seq<string>): Building {
    var (id, used) := ComponentId(lib, path, b.used);
    Building(b.components + [Component(id, [path], depends, [], [], [])], used)
  }

  function TestedStem(lib: Library, path: string): string {
    var stem := lib.stem(path);
    if "test_" <= stem then stem[5..] else stem
  }

  predicate OwnsStem(lib: Library, c: Component, stem: string) {
    exists k :: 0 <= k < |c.owns| && lib.stem(c.owns[k]) == stem
  }

  /** The first component that owns a file of the given stem. */
  function OwnerOfStem(lib: Library, cs: seq<Component>, stem: string): (i: nat)
    ensures i <= |cs|
    ensures i < |cs| ==> exists p :: p in cs[i].owns && lib.stem(p) == stem
    ensures forall j, p :: 0 <= j < i && p in cs[j].owns ==> lib.stem(p) != stem
  {
    var i := FirstWhere(cs, (c: Component) => OwnsStem(lib, c, stem));
    assert i < |cs| ==> OwnsStem(lib, cs[i], stem);
    assert forall j :: 0 <= j < i ==> !OwnsStem(lib, cs[j], stem);
    i
  }

  function Own(c: Component, path: string): Component {
    c.(owns := c.owns + [path])
  }

  function AddTest(lib: Library, b: Building, path: string): Building {
    var i := OwnerOfStem(lib, b.components, TestedStem(lib, path));
    if i == |b.components| then NewComponent(lib, b, path, [])
    else b.(components := b.components[i := Own(b.components[i], path)])
  }

  function FindId(cs: seq<Component>, id: string): (i: nat)
    ensures i <= |cs|
    ensures i < |cs| ==> cs[i].id == id
    ensures forall j :: 0 <= j < i ==> cs[j].id != id
  {
    FirstWhere(cs, (c: Component) => c.id == id)
  }

  function AddModules(lib: Library, b: Building, items: seq<Item>): Building {
    if items == [] then b
    else
      var n := |items| - 1;
      NewComponent(lib, AddModules(lib, b, items[..n]), items[n].path, items[n].depends)
  }

  function AddTests(lib: Library, b: Building, items: seq<Item>): Building {
    if items == [] then b
    else AddTest(lib, AddTests(lib, b, items[..|items| - 1]), items[|items| - 1].path)
  }

  /** None is the compile error for an owner that is no component. */
  function AttachOne(b: Building, item: Item): Option<Building> {
    var i := FindId(b.components, item.owner);
    if i == |b.components| then None
    else Some(b.(components := b.components[i := Own(b.components[i], item.path)]))
  }

  function AttachAll(b: Building, items: seq<Item>): Option<Building> {
    if items == [] then Some(b)
    else
      match AttachAll(b, items[..|items| - 1])
      case None => None
      case Some(c) => AttachOne(c, items[|items| - 1])
  }

  function ParseAll(lib: Library, texts: seq<string>): seq<Item> {
    if texts == [] then [] else ParseAll(lib, texts[..|texts| - 1]) + [Parse(lib, texts[|texts| - 1])]
  }

  function Built(lib: Library, items: seq<Item>): Building {
    AddTests(lib, AddModules(lib, Building([], map[]), OfKind(lib, items, Module)), OfKind(lib, items, TestFile))
  }

  function Components(lib: Library, texts: seq<string>): Option<seq<Component>> {
    var items := ParseAll(lib, texts);
    match AttachAll(Built(lib, items), OfKind(lib, items, Attached))
    case None => None
    case Some(b) => Some(b.components)
  }

  // ---- conservation ----

  /** All files of all components, with repetitions. */
  function Scopes(cs: seq<Component>): multiset<string> {
    if cs == [] then multiset{} else Scopes(cs[..|cs| - 1]) + multiset(cs[|cs| - 1].owns)
  }

  function Paths(items: seq<Item>): multiset<string> {
    if items == [] then multiset{} else Paths(items[..|items| - 1]) + multiset{items[|items| - 1].path}
  }

  ghost predicate AllOwn(cs: seq<Component>) {
    forall i :: 0 <= i < |cs| ==> cs[i].owns != []
  }

  lemma {:induction false} OwnAdds(cs: seq<Component>, i: nat, path: string)
    requires i < |cs|
    ensures Scopes(cs[i := Own(cs[i], path)]) == Scopes(cs) + multiset{path}
  {
    var n := |cs| - 1;
    var ds := cs[i := Own(cs[i], path)];
    if i < n {
      assert ds[..n] == cs[..n][i := Own(cs[..n][i], path)];
      OwnAdds(cs[..n], i, path);
    } else {
      assert ds[..n] == cs[..n] && ds[n] == Own(cs[n], path);
      assert multiset(cs[n].owns + [path]) == multiset(cs[n].owns) + multiset{path};
    }
  }

  lemma NewAdds(lib: Library, b: Building, path: string, depends: seq<string>)
    ensures Scopes(NewComponent(lib, b, path, depends).components) == Scopes(b.components) + multiset{path}
    ensures AllOwn(b.components) ==> AllOwn(NewComponent(lib, b, path, depends).components)
  {
    var cs := NewComponent(lib, b, path, depends).components;
    assert cs[..|cs| - 1] == b.components;
  }

  lemma {:induction false} ModulesAdd(lib: Library, b: Building, items: seq<Item>)
    requires AllOwn(b.components)
    ensures var r := AddModules(lib, b, items).components;
            Scopes(r) == Scopes(b.components) + Paths(items) && AllOwn(r)
  {
    if items != [] {
      var n := |items| - 1;
      ModulesAdd(lib, b, items[..n]);
      NewAdds(lib, AddModules(lib, b, items[..n]), items[n].path, items[n].depends);
    }
  }

  lemma TestAdds(lib: Library, b: Building, path: string)
    ensures Scopes(AddTest(lib, b, path).components) == Scopes(b.components) + multiset{path}
    ensures AllOwn(b.components) ==> AllOwn(AddTest(lib, b, path).components)
  {
    NewAdds(lib, b, path, []);
    var i := OwnerOfStem(lib, b.components, TestedStem(lib, path));
    if i < |b.components| { OwnAdds(b.components, i, path); }
  }

  lemma {:induction false} TestsAdd(lib: Library, b: Building, items: seq<Item>)
    requires AllOwn(b.components)
    ensures var r := AddTests(lib, b, items).components;
            Scopes(r) == Scopes(b.components) + Paths(items) && AllOwn(r)
  {
    if items != [] {
      TestsAdd(lib, b, items[..|items| - 1]);
      TestAdds(lib, AddTests(lib, b, items[..|items| - 1]), items[|items| - 1].path);
    }
  }

  lemma AttachAdds(b: Building, item: Item)
    requires AttachOne(b, item).Some?
    ensures Scopes(AttachOne(b, item).value.components) == Scopes(b.components) + multiset{item.path}
    ensures AllOwn(b.components) ==> AllOwn(AttachOne(b, item).value.components)
  {
    OwnAdds(b.components, FindId(b.components, item.owner), item.path);
  }

  lemma {:induction false} AttachingAdds(b: Building, items: seq<Item>)
    requires AllOwn(b.components) && AttachAll(b, items).Some?
    ensures var r := AttachAll(b, items).value.components;
            Scopes(r) == Scopes(b.components) + Paths(items) && AllOwn(r)
  {
    if items != [] {
      AttachingAdds(b, items[..|items| - 1]);
      AttachAdds(AttachAll(b, items[..|items| - 1]).value, items[|items| - 1]);
    }
  }

  lemma {:induction false} PathsConcat(a: seq<Item>, b: seq<Item>)
    ensures Paths(a + b) == Paths(a) + Paths(b)
  {
    if b == [] {
      assert a + b == a;
    } else {
      assert (a + b)[..|a + b| - 1] == a + b[..|b| - 1];
      PathsConcat(a, b[..|b| - 1]);
    }
  }

  lemma KindOfFirst(lib: Library, items: seq<Item>, kind: Kind)
    requires items != []
    ensures Paths(OfKind(lib, items, kind))
         == Paths(OfKind(lib, items[1..], kind))
            + if KindOf(lib, items[0]) == kind then multiset{items[0].path} else multiset{}
  {
    var rest := OfKind(lib, items[1..], kind);
    if KindOf(lib, items[0]) == kind {
      PathsConcat([items[0]], rest);
      OnePath(items[0]);
    } else {
      assert [] + rest == rest;
    }
  }

  lemma OnePath(item: Item)
    ensures Paths([item]) == multiset{item.path}
  {
    assert Paths([item][..0]) == multiset{};
  }

  lemma {:induction false} KindsPartition(lib: Library, items: seq<Item>)
    ensures Paths(items) == Paths(OfKind(lib, items, Module)) + Paths(OfKind(lib, items, TestFile))
        + Paths(OfKind(lib, items, Attached))
  {
    if items != [] {
      assert items == [items[0]] + items[1..];
      PathsConcat([items[0]], items[1..]);
      OnePath(items[0]);
      KindsPartition(lib, items[1..]);
      KindOfFirst(lib, items, Module);
      KindOfFirst(lib, items, TestFile);
      KindOfFirst(lib, items, Attached);
    }
  }

  /** The paths the layout gate checks (split_deliverables). */
  function LayoutPaths(lib: Library, texts: seq<string>): seq<string> {
    if texts == [] then [] else LayoutPaths(lib, texts[..|texts| - 1]) + [PathOf(lib, texts[|texts| - 1])]
  }

  lemma {:induction false} LayoutPathsAreParsed(lib: Library, texts: seq<string>)
    ensures multiset(LayoutPaths(lib, texts)) == Paths(ParseAll(lib, texts))
  {
    if texts != [] {
      var n := |texts| - 1;
      LayoutPathsAreParsed(lib, texts[..n]);
      var items := ParseAll(lib, texts);
      assert items[..|items| - 1] == ParseAll(lib, texts[..n]);
    }
  }

  /** Nothing is lost and nothing invented: the files the components own are the deliverables, with their
      multiplicities, and the files the layout gate looks for; and every component owns something. */
  lemma DeliverablesAreConserved(lib: Library, texts: seq<string>)
    ensures var r := Components(lib, texts);
            r.Some? ==> Scopes(r.value) == multiset(LayoutPaths(lib, texts)) && AllOwn(r.value)
  {
    var items := ParseAll(lib, texts);
    var modules, tests := OfKind(lib, items, Module), OfKind(lib, items, TestFile);
    ModulesAdd(lib, Building([], map[]), modules);
    TestsAdd(lib, AddModules(lib, Building([], map[]), modules), tests);
    if AttachAll(Built(lib, items), OfKind(lib, items, Attached)).Some? {
      AttachingAdds(Built(lib, items), OfKind(lib, items, Attached));
    }
    KindsPartition(lib, items);
    LayoutPathsAreParsed(lib, texts);
  }

  // ---- placement ----

  ghost predicate OwnedUnder(cs: seq<Component>, id: string, path: string) {
    exists i :: 0 <= i < |cs| && cs[i].id == id && path in cs[i].owns
  }

  lemma AttachOneKeeps(b: Building, item: Item, id: string, path: string)
    requires AttachOne(b, item).Some?
    ensures OwnedUnder(AttachOne(b, item).value.components, item.owner, item.path)
    ensures OwnedUnder(b.components, id, path) ==> OwnedUnder(AttachOne(b, item).value.components, id, path)
  {
    var cs, ds := b.components, AttachOne(b, item).value.components;
    var k := FindId(cs, item.owner);
    assert ds[k].id == item.owner && item.path in ds[k].owns;
    if i :| 0 <= i < |cs| && cs[i].id == id && path in cs[i].owns {
      assert ds[i].id == id && path in ds[i].owns;
    }
  }

  /** A file that names its component ends up in the scope of a component with that id. */
  lemma {:induction false} AttachedToOwner(b: Building, items: seq<Item>, k: nat)
    requires k < |items| && AttachAll(b, items).Some?
    ensures OwnedUnder(AttachAll(b, items).value.components, items[k].owner, items[k].path)
  {
    var n := |items| - 1;
    AttachOneKeeps(AttachAll(b, items[..n]).value, items[n], items[k].owner, items[k].path);
    if k < n { AttachedToOwner(b, items[..n], k); }
  }

  /** i is the first component that owns a file of the stem. */
  ghost predicate FirstOwner(lib: Library, cs: seq<Component>, stem: string, i: nat) {
    && i < |cs| && (exists p :: p in cs[i].owns && lib.stem(p) == stem)
    && forall j, p :: 0 <= j < i && p in cs[j].owns ==> lib.stem(p) != stem
  }

  /** A file of a test is named after the stem it tests, with or without a leading test_. */
  ghost predicate Tests(lib: Library, path: string, stem: string) {
    if "test_" <= lib.stem(path) then lib.stem(path) == "test_" + stem else lib.stem(path) == stem
  }

  lemma TestedStemIsTested(lib: Library, path: string, stem: string)
    ensures Tests(lib, path, stem) <==> stem == TestedStem(lib, path)
  {
    var whole := lib.stem(path);
    if "test_" <= whole {
      assert whole == "test_" + whole[5..];
      assert ("test_" + stem)[5..] == stem;
    }
  }

  /** A test file joins exactly the first component that owns a file of the stem it tests; when no component
      does, it becomes one of its own. */
  lemma TestJoinsItsModule(lib: Library, b: Building, path: string, stem: string)
    requires Tests(lib, path, stem)
    ensures var cs, ds := b.components, AddTest(lib, b, path).components;
            if exists i: nat :: FirstOwner(lib, cs, stem, i)
            then forall i: nat :: FirstOwner(lib, cs, stem, i) ==> ds == cs[i := cs[i].(owns := cs[i].owns + [path])]
            else |ds| == |cs| + 1 && ds[..|cs|] == cs && ds[|cs|].owns == [path]
  {
    var cs := b.components;
    TestedStemIsTested(lib, path, stem);
    var k := OwnerOfStem(lib, cs, stem);
    if k < |cs| { assert FirstOwner(lib, cs, stem, k); }
    forall i: nat | FirstOwner(lib, cs, stem, i) ensures i == k {
      var p :| p in cs[i].owns && lib.stem(p) == stem;
    }
  }

  // ---- the loops ----

  method ParseItems(lib: Library, texts: seq<string>) returns (items: seq<Item>)
    ensures items == ParseAll(lib, texts)
  {
    items := [];
    for i := 0 to |texts|
      invariant items == ParseAll(lib, texts[..i])
    {
      assert texts[..i + 1][..i] == texts[..i];
      items := items + [Parse(lib, texts[i])];
    }
    assert texts[..|texts|] == texts;
  }

  method BuildModules(lib: Library, modules: seq<Item>) returns (b: Building)
    ensures b == AddModules(lib, Building([], map[]), modules)
  {
    b := Building([], map[]);
    for i := 0 to |modules|
      invariant b == AddModules(lib, Building([], map[]), modules[..i])
    {
      assert modules[..i + 1][..i] == modules[..i];
      b := NewComponent(lib, b, modules[i].path, modules[i].depends);
    }
    assert modules[..|modules|] == modules;
  }

  method PlaceTests(lib: Library, start: Building, tests: seq<Item>) returns (b: Building)
    ensures b == AddTests(lib, start, tests)
  {
    b := start;
    for i := 0 to |tests|
      invariant b == AddTests(lib, start, tests[..i])
    {
      assert tests[..i + 1][..i] == tests[..i];
      b := AddTest(lib, b, tests[i].path);
    }
    assert tests[..|tests|] == tests;
  }

  method PlaceAttached(start: Building, attached: seq<Item>) returns (r: Option<Building>)
    ensures r == AttachAll(start, attached)
  {
    var b := start;
    for i := 0 to |attached|
      invariant AttachAll(start, attached[..i]) == Some(b)
    {
      assert attached[..i + 1][..i] == attached[..i];
      var next := AttachOne(b, attached[i]);
      if next.None? {
        AttachFails(start, attached, i + 1);
        return None;
      }
      b := next.value;
    }
    assert attached[..|attached|] == attached;
    return Some(b);
  }

  method ComponentsFromDeliverables(lib: Library, texts: seq<string>) returns (r: Option<seq<Component>>)
    ensures r == Components(lib, texts)
    ensures r.Some? ==> Scopes(r.value) == multiset(LayoutPaths(lib, texts)) && AllOwn(r.value)
  {
    DeliverablesAreConserved(lib, texts);
    var items := ParseItems(lib, texts);
    var b := BuildModules(lib, OfKind(lib, items, Module));
    b := PlaceTests(lib, b, OfKind(lib, items, TestFile));
    var all := PlaceAttached(b, OfKind(lib, items, Attached));
    return if all.None? then None else Some(all.value.components);
  }

  lemma {:induction false} AttachFails(b: Building, items: seq<Item>, i: nat)
    requires i <= |items| && AttachAll(b, items[..i]).None?
    ensures AttachAll(b, items).None?
    decreases |items| - i
  {
    if i == |items| {
      assert items[..i] == items;
    } else {
      assert items[..i + 1][..i] == items[..i];
      AttachFails(b, items, i + 1);
    }
  }
}
