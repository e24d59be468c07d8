/** What the deliverables of an intent say, and which components come of them (minifleet/compile.py,
    components_from_deliverables). */
module CompileMeaning {
  import opened Numerals
  import opened Filters
  import opened Model
  import opened Compile

  // ---- reading a deliverable ----

  /** sep stands at position i of s, and nowhere before. */
  ghost predicate FirstAt(s: string, sep: string, i: nat) {
    i + |sep| <= |s| && sep <= s[i..] && forall j :: 0 <= j < i ==> !(sep <= s[j..])
  }

  ghost predicate Absent(s: string, sep: string) {
    forall j :: 0 <= j < |s| ==> !(sep <= s[j..])
  }

  lemma {:induction false} PositionMeans(s: string, sep: string)
    requires sep != ""
    ensures var i := PositionOf(s, sep); if i < |s| then FirstAt(s, sep, i) else Absent(s, sep)
  {
    if s != "" && !(sep <= s) {
      PositionMeans(s[1..], sep);
      var k := PositionOf(s[1..], sep);
      forall j | 0 < j < |s| ensures s[j..] == s[1..][j - 1..] {}
      assert s[0..] == s;
    } else {
      assert s[0..] == s;
    }
  }

  /** Cutting at the first separator and putting it back gives the text again. */
  lemma PartitionMeans(s: string, sep: string)
    requires sep != ""
    ensures var (a, b) := Partition(s, sep);
            if Absent(s, sep) then a == s && b == "" else s == a + sep + b && FirstAt(s, sep, |a|)
  {
    PositionMeans(s, sep);
    var i := PositionOf(s, sep);
    if i < |s| {
      CutAround(s, sep, i);
    }
  }

  lemma CutAround(s: string, sep: string, i: nat)
    requires i + |sep| <= |s| && sep <= s[i..]
    ensures s == s[..i] + sep + s[i + |sep|..]
  {
    var rest := s[i..];
    assert s == s[..i] + rest;
    assert rest == sep + rest[|sep|..];
    assert rest[|sep|..] == s[i + |sep|..];
  }

  lemma PartitionAt(a: string, sep: string, b: string)
    requires sep != "" && FirstAt(a + sep + b, sep, |a|)
    ensures Partition(a + sep + b, sep) == (a, b) && Occurs(a + sep + b, sep)
  {
    var s := a + sep + b;
    PositionMeans(s, sep);
    var i := PositionOf(s, sep);
    assert s[..|a|] == a && s[|a| + |sep|..] == b;
  }

  lemma PartitionNone(s: string, sep: string)
    requires sep != "" && Absent(s, sep)
    ensures Partition(s, sep) == (s, "") && !Occurs(s, sep)
  {
    PositionMeans(s, sep);
  }

  function Joined(pieces: seq<string>): string {
    if pieces == [] then "" else if |pieces| == 1 then pieces[0] else pieces[0] + "," + Joined(pieces[1..])
  }

  function Trimmed(lib: Library, pieces: seq<string>): seq<string> {
    if pieces == [] then [] else [lib.strip(pieces[0])] + Trimmed(lib, pieces[1..])
  }

  function NonEmpty(): string -> bool {
    (s: string) => s != ""
  }

  lemma {:induction false} NoComma(s: string)
    requires Absent(s, ",")
    ensures ',' !in s
  {
    forall i | 0 <= i < |s| ensures s[i] != ',' {
      assert !("," <= s[i..]) && s[i..][0] == s[i];
    }
  }

  lemma FirstPiece(a: string, b: string)
    requires FirstAt(a + "," + b, ",", |a|)
    ensures ',' !in a
  {
    var s := a + "," + b;
    forall i | 0 <= i < |a| ensures a[i] != ',' {
      assert !("," <= s[i..]) && s[i..][0] == s[i] == a[i];
    }
  }

  /** The dependencies are the pieces between commas, trimmed, without empty ones. */
  lemma {:induction false} SplitMeans(lib: Library, s: string) returns (pieces: seq<string>)
    requires lib.strip("") == ""
    ensures pieces != [] && Joined(pieces) == s && forall p :: p in pieces ==> ',' !in p
    ensures SplitAtCommas(lib, s) == Filter(Trimmed(lib, pieces), NonEmpty())
    decreases |s|
  {
    PartitionMeans(s, ",");
    var (first, rest) := Partition(s, ",");
    if Absent(s, ",") {
      NoComma(s);
      pieces := [s];
      assert Trimmed(lib, pieces) == [lib.strip(s)];
    } else {
      FirstPiece(first, rest);
      var more := [""];
      if rest != "" { more := SplitMeans(lib, rest); }
      pieces := [first] + more;
      assert pieces[1..] == more;
      assert Trimmed(lib, pieces) == [lib.strip(first)] + Trimmed(lib, more);
      if rest == "" { assert Trimmed(lib, more) == [lib.strip("")] + Trimmed(lib, more[1..]) == [""]; }
    }
  }

  // ---- one deliverable ----

  /** A line that says path, description, dependencies and owner is read back as just that. */
  lemma ReadsAll(lib: Library, path: string, title: string, depends: string, owner: string)
    requires var rest := title + "| depends:" + depends;
             && FirstAt(path + " - " + (rest + "| of:" + owner), " - ", |path|)
             && FirstAt(rest + "| of:" + owner, "| of:", |rest|) && FirstAt(rest, "| depends:", |title|)
    ensures Parse(lib, path + " - " + (title + "| depends:" + depends + "| of:" + owner))
         == Item(lib.strip(path), lib.strip(owner), SplitAtCommas(lib, depends))
  {
    var rest := title + "| depends:" + depends;
    PartitionAt(path, " - ", rest + "| of:" + owner);
    PartitionAt(rest, "| of:", owner);
    PartitionAt(title, "| depends:", depends);
  }

  /** Without an owner. */
  lemma ReadsDepends(lib: Library, path: string, title: string, depends: string)
    requires var rest := title + "| depends:" + depends;
             && FirstAt(path + " - " + rest, " - ", |path|) && Absent(rest, "| of:")
             && FirstAt(rest, "| depends:", |title|)
    ensures Parse(lib, path + " - " + (title + "| depends:" + depends))
         == Item(lib.strip(path), "", SplitAtCommas(lib, depends))
  {
    var rest := title + "| depends:" + depends;
    PartitionAt(path, " - ", rest);
    PartitionNone(rest, "| of:");
    PartitionAt(title, "| depends:", depends);
  }

  /** With an owner and no dependencies. */
  lemma ReadsOwner(lib: Library, path: string, title: string, owner: string)
    requires FirstAt(path + " - " + (title + "| of:" + owner), " - ", |path|)
    requires FirstAt(title + "| of:" + owner, "| of:", |title|) && Absent(title, "| depends:")
    ensures Parse(lib, path + " - " + (title + "| of:" + owner)) == Item(lib.strip(path), lib.strip(owner), [])
  {
    PartitionAt(path, " - ", title + "| of:" + owner);
    PartitionAt(title, "| of:", owner);
    PartitionNone(title, "| depends:");
  }

  /** A path alone. */
  lemma ReadsPath(lib: Library, path: string)
    requires Absent(path, " - ")
    ensures Parse(lib, path) == Item(lib.strip(path), "", [])
  {
    PartitionNone(path, " - ");
    PartitionNone("", "| of:");
    PartitionNone("", "| depends:");
  }

  // ---- what components depend on ----

  /** A delivered module: no other component is named as its owner, and it is no test. */
  function IsModule(lib: Library): Item -> bool {
    (item: Item) => item.owner == "" && !("tests/" <= item.path) && !("test_" <= lib.name(item.path))
  }

  lemma {:induction false} ModulesKept(lib: Library, items: seq<Item>)
    ensures OfKind(lib, items, Module) == Filter(items, IsModule(lib))
  {
    if items != [] { ModulesKept(lib, items[1..]); }
  }

  /** The first components are those of the modules, with their path and their dependencies; the others depend on
      nothing, and none names gates, contracts or criteria. */
  ghost predicate Delivers(ms: seq<Item>, cs: seq<Component>) {
    && |ms| <= |cs|
    && forall j :: 0 <= j < |cs| ==> DeliveredAt(ms, cs, j)
  }

  ghost predicate DeliveredAt(ms: seq<Item>, cs: seq<Component>, j: nat)
    requires j < |cs|
  {
    && cs[j].owns != [] && (j < |ms| ==> cs[j].owns[0] == ms[j].path)
    && cs[j].dependsOn == (if j < |ms| then ms[j].depends else [])
    && cs[j].gateIds == [] && cs[j].contractIds == [] && cs[j].acceptanceIds == []
  }

  lemma {:induction false} ModulesDeliver(lib: Library, ms: seq<Item>)
    ensures var cs := AddModules(lib, Building([], map[]), ms).components; |cs| == |ms| && Delivers(ms, cs)
  {
    if ms != [] {
      var n := |ms| - 1;
      var before := AddModules(lib, Building([], map[]), ms[..n]).components;
      ModulesDeliver(lib, ms[..n]);
      forall j | 0 <= j < n ensures DeliveredAt(ms, AddModules(lib, Building([], map[]), ms).components, j) {
        assert DeliveredAt(ms[..n], before, j);
      }
    }
  }

  lemma OwnDelivers(ms: seq<Item>, cs: seq<Component>, i: nat, path: string)
    requires Delivers(ms, cs) && i < |cs|
    ensures Delivers(ms, cs[i := Own(cs[i], path)])
  {
    var ds := cs[i := Own(cs[i], path)];
    forall j | 0 <= j < |cs| ensures DeliveredAt(ms, ds, j) {
      assert DeliveredAt(ms, cs, j);
    }
  }

  lemma TestDelivers(lib: Library, ms: seq<Item>, b: Building, path: string)
    requires Delivers(ms, b.components)
    ensures Delivers(ms, AddTest(lib, b, path).components)
  {
    var i := OwnerOfStem(lib, b.components, TestedStem(lib, path));
    if i < |b.components| {
      OwnDelivers(ms, b.components, i, path);
    } else {
      var cs := AddTest(lib, b, path).components;
      forall j | 0 <= j < |b.components| ensures DeliveredAt(ms, cs, j) {
        assert DeliveredAt(ms, b.components, j);
      }
    }
  }

  lemma {:induction false} TestsDeliver(lib: Library, ms: seq<Item>, b: Building, items: seq<Item>)
    requires Delivers(ms, b.components)
    ensures Delivers(ms, AddTests(lib, b, items).components)
  {
    if items != [] {
      TestsDeliver(lib, ms, b, items[..|items| - 1]);
      TestDelivers(lib, ms, AddTests(lib, b, items[..|items| - 1]), items[|items| - 1].path);
    }
  }

  lemma {:induction false} AttachedDeliver(ms: seq<Item>, b: Building, items: seq<Item>)
    requires Delivers(ms, b.components) && AttachAll(b, items).Some?
    ensures Delivers(ms, AttachAll(b, items).value.components)
  {
    if items != [] {
      var c := AttachAll(b, items[..|items| - 1]).value;
      AttachedDeliver(ms, b, items[..|items| - 1]);
      OwnDelivers(ms, c.components, FindId(c.components, items[|items| - 1].owner), items[|items| - 1].path);
    }
  }

  /** Every delivered module becomes a component that depends on what its line says, in the order of the lines, and
      nothing else depends on anything. */
  lemma ComponentsDeliver(lib: Library, texts: seq<string>) returns (ks: seq<nat>)
    requires Components(lib, texts).Some?
    ensures Keeping(ParseAll(lib, texts), IsModule(lib), ks)
    ensures Delivers(At(ParseAll(lib, texts), ks), Components(lib, texts).value)
  {
    var items := ParseAll(lib, texts);
    ks := FilterKeeps(items, IsModule(lib));
    ModulesKept(lib, items);
    var ms := OfKind(lib, items, Module);
    ModulesDeliver(lib, ms);
    TestsDeliver(lib, ms, AddModules(lib, Building([], map[]), ms), OfKind(lib, items, TestFile));
    AttachedDeliver(ms, Built(lib, items), OfKind(lib, items, Attached));
  }

  // ---- what components are called ----

  /** Components among the first n that were made for a path of the stem. */
  function OfStem(lib: Library, cs: seq<Component>, n: nat, stem: string): nat
    requires n <= |cs| && forall j :: 0 <= j < |cs| ==> cs[j].owns != []
  {
    if n == 0 then 0 else OfStem(lib, cs, n - 1, stem) + if lib.stem(cs[n - 1].owns[0]) == stem then 1 else 0
  }

  /** The first component of a stem is called by it; a later one by its directory and stem, or by its number. */
  ghost predicate NamedFor(lib: Library, path: string, earlier: nat, id: string) {
    var stem, parent := lib.stem(path), lib.parent(path);
    id == if earlier == 0 then stem
          else if parent != "" && parent != "." then parent + "-" + stem
          else stem + "-" + Decimal(earlier + 1)
  }

  ghost predicate AllNamed(lib: Library, cs: seq<Component>) {
    && (forall j :: 0 <= j < |cs| ==> cs[j].owns != [])
    && forall j :: 0 <= j < |cs| ==> NamedAt(lib, cs, j)
  }

  ghost predicate NamedAt(lib: Library, cs: seq<Component>, j: nat)
    requires j < |cs| && forall i :: 0 <= i < |cs| ==> cs[i].owns != []
  {
    NamedFor(lib, cs[j].owns[0], OfStem(lib, cs, j, lib.stem(cs[j].owns[0])), cs[j].id)
  }

  /** used counts the components of each stem. */
  ghost predicate Tallied(lib: Library, b: Building) {
    && AllNamed(lib, b.components)
    && forall stem :: TallyOf(lib, b, stem)
  }

  ghost predicate TallyOf(lib: Library, b: Building, stem: string)
    requires forall j :: 0 <= j < |b.components| ==> b.components[j].owns != []
  {
    var n := OfStem(lib, b.components, |b.components|, stem);
    if stem in b.used then b.used[stem] == n > 0 else n == 0
  }

  lemma {:induction false} SameStems(lib: Library, cs: seq<Component>, ds: seq<Component>, n: nat, stem: string)
    requires n <= |cs| && n <= |ds|
    requires forall j :: 0 <= j < |cs| ==> cs[j].owns != []
    requires forall j :: 0 <= j < |ds| ==> ds[j].owns != []
    requires forall j :: 0 <= j < n ==> ds[j].owns[0] == cs[j].owns[0]
    ensures OfStem(lib, ds, n, stem) == OfStem(lib, cs, n, stem)
  {
    if n > 0 { SameStems(lib, cs, ds, n - 1, stem); }
  }

  lemma SameName(lib: Library, cs: seq<Component>, ds: seq<Component>, j: nat)
    requires j < |cs| && j < |ds| && ds[j].id == cs[j].id
    requires forall i :: 0 <= i < |cs| ==> cs[i].owns != []
    requires forall i :: 0 <= i < |ds| ==> ds[i].owns != []
    requires forall i :: 0 <= i <= j ==> ds[i].owns[0] == cs[i].owns[0]
    ensures NamedAt(lib, ds, j) <==> NamedAt(lib, cs, j)
  {
    SameStems(lib, cs, ds, j, lib.stem(cs[j].owns[0]));
  }

  lemma OneMoreNamed(lib: Library, cs: seq<Component>, ds: seq<Component>, c: Component)
    requires AllNamed(lib, cs) && c.owns != [] && ds == cs + [c]
    requires NamedFor(lib, c.owns[0], OfStem(lib, cs, |cs|, lib.stem(c.owns[0])), c.id)
    ensures AllNamed(lib, ds)
  {
    assert forall j :: 0 <= j < |cs| ==> ds[j] == cs[j];
    forall j | 0 <= j < |ds| ensures NamedAt(lib, ds, j) {
      if j < |cs| { SameName(lib, cs, ds, j); } else { SameStems(lib, cs, ds, j, lib.stem(c.owns[0])); }
    }
  }

  lemma OneMoreOfStem(lib: Library, cs: seq<Component>, ds: seq<Component>, c: Component, stem: string)
    requires AllNamed(lib, cs) && c.owns != [] && ds == cs + [c]
    ensures forall j :: 0 <= j < |ds| ==> ds[j].owns != []
    ensures OfStem(lib, ds, |ds|, stem) == OfStem(lib, cs, |cs|, stem) + if lib.stem(c.owns[0]) == stem then 1 else 0
  {
    assert forall j :: 0 <= j < |cs| ==> ds[j] == cs[j];
    SameStems(lib, cs, ds, |cs|, stem);
  }

  lemma NewIsTallied(lib: Library, b: Building, path: string, depends: seq<string>)
    requires Tallied(lib, b)
    ensures Tallied(lib, NewComponent(lib, b, path, depends))
  {
    var b' := NewComponent(lib, b, path, depends);
    var c := b'.components[|b.components|];
    assert TallyOf(lib, b, lib.stem(path));
    OneMoreNamed(lib, b.components, b'.components, c);
    forall stem ensures TallyOf(lib, b', stem) {
      OneMoreOfStem(lib, b.components, b'.components, c, stem);
      assert TallyOf(lib, b, stem);
    }
  }

  lemma OwnIsNamed(lib: Library, cs: seq<Component>, i: nat, path: string)
    requires AllNamed(lib, cs) && i < |cs|
    ensures AllNamed(lib, cs[i := Own(cs[i], path)])
    ensures forall stem :: OfStem(lib, cs[i := Own(cs[i], path)], |cs|, stem) == OfStem(lib, cs, |cs|, stem)
  {
    var ds := cs[i := Own(cs[i], path)];
    forall j | 0 <= j < |cs| ensures ds[j].owns != [] && ds[j].owns[0] == cs[j].owns[0] && ds[j].id == cs[j].id {
    }
    forall j | 0 <= j < |cs| ensures NamedAt(lib, ds, j) {
      SameName(lib, cs, ds, j);
    }
    forall stem ensures OfStem(lib, ds, |cs|, stem) == OfStem(lib, cs, |cs|, stem) {
      SameStems(lib, cs, ds, |cs|, stem);
    }
  }

  lemma {:induction false} ModulesAreTallied(lib: Library, ms: seq<Item>)
    ensures Tallied(lib, AddModules(lib, Building([], map[]), ms))
  {
    if ms == [] {
      forall stem ensures TallyOf(lib, Building([], map[]), stem) {}
    } else {
      var n := |ms| - 1;
      ModulesAreTallied(lib, ms[..n]);
      NewIsTallied(lib, AddModules(lib, Building([], map[]), ms[..n]), ms[n].path, ms[n].depends);
    }
  }

  lemma TestIsTallied(lib: Library, b: Building, path: string)
    requires Tallied(lib, b)
    ensures Tallied(lib, AddTest(lib, b, path))
  {
    var i := OwnerOfStem(lib, b.components, TestedStem(lib, path));
    if i == |b.components| {
      NewIsTallied(lib, b, path, []);
    } else {
      OwnIsNamed(lib, b.components, i, path);
      forall stem ensures TallyOf(lib, AddTest(lib, b, path), stem) {
        assert TallyOf(lib, b, stem);
      }
    }
  }

  lemma {:induction false} TestsAreTallied(lib: Library, b: Building, items: seq<Item>)
    requires Tallied(lib, b)
    ensures Tallied(lib, AddTests(lib, b, items))
  {
    if items != [] {
      TestsAreTallied(lib, b, items[..|items| - 1]);
      TestIsTallied(lib, AddTests(lib, b, items[..|items| - 1]), items[|items| - 1].path);
    }
  }

  lemma {:induction false} AttachedAreNamed(lib: Library, b: Building, items: seq<Item>)
    requires AllNamed(lib, b.components) && AttachAll(b, items).Some?
    ensures AllNamed(lib, AttachAll(b, items).value.components)
  {
    if items != [] {
      var c := AttachAll(b, items[..|items| - 1]).value;
      AttachedAreNamed(lib, b, items[..|items| - 1]);
      OwnIsNamed(lib, c.components, FindId(c.components, items[|items| - 1].owner), items[|items| - 1].path);
    }
  }

  /** Every component is called by the stem of its first file, and when earlier components were, by directory or
      number as well. */
  lemma ComponentsAreNamed(lib: Library, texts: seq<string>)
    requires Components(lib, texts).Some?
    ensures AllNamed(lib, Components(lib, texts).value)
  {
    var items := ParseAll(lib, texts);
    var ms := OfKind(lib, items, Module);
    ModulesAreTallied(lib, ms);
    TestsAreTallied(lib, AddModules(lib, Building([], map[]), ms), OfKind(lib, items, TestFile));
    AttachedAreNamed(lib, Built(lib, items), OfKind(lib, items, Attached));
  }

  /** Compiling fails exactly when a file names an owner that is no component of a module or test. */
  lemma CompilesIff(lib: Library, texts: seq<string>)
    ensures Components(lib, texts).Some?
       <==> forall item :: item in ParseAll(lib, texts) && item.owner != "" ==>
              HasId(Built(lib, ParseAll(lib, texts)).components, item.owner)
  {
    var items := ParseAll(lib, texts);
    AttachesIff(Built(lib, items), OfKind(lib, items, Attached));
    forall item ensures item in OfKind(lib, items, Attached) <==> item in items && item.owner != "" {
      OfKindMembers(lib, items, Attached, item);
    }
  }

  lemma {:induction false} OfKindMembers(lib: Library, items: seq<Item>, kind: Kind, item: Item)
    ensures item in OfKind(lib, items, kind) <==> item in items && KindOf(lib, item) == kind
  {
    if items != [] {
      assert items == [items[0]] + items[1..];
      OfKindMembers(lib, items[1..], kind, item);
    }
  }

  ghost predicate HasId(cs: seq<Component>, id: string) {
    exists i :: 0 <= i < |cs| && cs[i].id == id
  }

  lemma {:induction false} AttachesIff(b: Building, items: seq<Item>)
    ensures AttachAll(b, items).Some? <==> forall item :: item in items ==> HasId(b.components, item.owner)
    ensures AttachAll(b, items).Some? ==>
              forall id :: HasId(AttachAll(b, items).value.components, id) <==> HasId(b.components, id)
  {
    if items != [] {
      var n := |items| - 1;
      assert items == items[..n] + [items[n]];
      AttachesIff(b, items[..n]);
      if AttachAll(b, items[..n]).Some? {
        AttachesOneIff(AttachAll(b, items[..n]).value, items[n]);
      }
    }
  }

  lemma AttachesOneIff(b: Building, item: Item)
    ensures AttachOne(b, item).Some? <==> HasId(b.components, item.owner)
    ensures AttachOne(b, item).Some? ==>
              forall id :: HasId(AttachOne(b, item).value.components, id) <==> HasId(b.components, id)
  {
    var k := FindId(b.components, item.owner);
    if k < |b.components| {
      assert HasId(b.components, item.owner);
      var ds := AttachOne(b, item).value.components;
      forall id ensures HasId(ds, id) <==> HasId(b.components, id) {
        if i :| 0 <= i < |ds| && ds[i].id == id { assert b.components[i].id == id; }
        if i :| 0 <= i < |b.components| && b.components[i].id == id { assert ds[i].id == id; }
      }
    }
  }
}
