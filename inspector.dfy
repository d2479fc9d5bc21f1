/**
 * Bundle metadata and inspection (Utils.parseIPA, findDylibs and
 * getExecutableName): which bundle of an archive's Payload is inspected, its
 * display name, identifier and version, its icon, and the dynamic libraries
 * it already carries.
 */
module Inspector {
  import opened Wrappers
  import opened Paths
  import opened Plist
  import opened FileTree
  import opened System
  import opened Search

  /** IPAInfo without its UUID; the icon is the URL of the image file loaded. */
  datatype IpaInfo = IpaInfo(
    name: string,
    bundleId: string,
    version: string,
    icon: Option<Path>,
    dylibs: seq<string>,
    url: Path)

  /** A bundle's Info.plist, when it reads and decodes to a dictionary. */
  function InfoPlist(app: Node): Option<map<string, Value>>
  {
    match ChildNamed(Children(app), "Info.plist")
    case Some(File(_, _, Some(Dict(m)))) => Some(m)
    case _ => None
  }

  /** The value of the first of `keys` that holds a string in `d`. */
  function FirstString(d: map<string, Value>, keys: seq<string>): (r: Option<string>)
    ensures r.Some? ==> exists i :: 0 <= i < |keys| && StringAt(d, keys[i]) == r
                                    && forall j :: 0 <= j < i ==> StringAt(d, keys[j]).None?
    ensures r.None? ==> forall i :: 0 <= i < |keys| ==> StringAt(d, keys[i]).None?
  {
    if keys == [] then None
    else if StringAt(d, keys[0]).Some? then StringAt(d, keys[0])
    else
      var r := FirstString(d, keys[1..]);
      assert r.Some? ==> exists i :: 0 <= i < |keys[1..]| && StringAt(d, keys[1..][i]) == r
                                     && forall j :: 0 <= j < i ==> StringAt(d, keys[1..][j]).None?;
      assert forall i :: 0 <= i < |keys[1..]| ==> keys[1..][i] == keys[i + 1];
      r
  }

  /** IPAInfo.name: CFBundleDisplayName, else CFBundleName, else the bundle's name without extension. */
  function DisplayName(appName: string, plist: Option<map<string, Value>>): (r: string)
    ensures plist.Some? && StringAt(plist.value, "CFBundleDisplayName").Some? ==>
              r == StringAt(plist.value, "CFBundleDisplayName").value
    ensures plist.Some? && StringAt(plist.value, "CFBundleDisplayName").None?
              && StringAt(plist.value, "CFBundleName").Some? ==>
              r == StringAt(plist.value, "CFBundleName").value
    ensures (plist.None? || (StringAt(plist.value, "CFBundleDisplayName").None?
                             && StringAt(plist.value, "CFBundleName").None?)) ==>
              r == Stem(appName)
  {
    if plist.None? then Stem(appName)
    else
      var keys := ["CFBundleDisplayName", "CFBundleName"];
      match FirstString(plist.value, keys)
      case Some(n) =>
        assert StringAt(plist.value, keys[0]).None? ==> StringAt(plist.value, keys[1]) == Some(n);
        n
      case None =>
        assert StringAt(plist.value, keys[1]).None?;
        Stem(appName)
  }

  /** IPAInfo.bundleID: CFBundleIdentifier, or "". */
  function BundleId(plist: Option<map<string, Value>>): (r: string)
    ensures r != "" ==> plist.Some? && StringAt(plist.value, "CFBundleIdentifier") == Some(r)
    ensures plist.Some? && StringAt(plist.value, "CFBundleIdentifier").Some? ==>
              r == StringAt(plist.value, "CFBundleIdentifier").value
  {
    if plist.Some? && StringAt(plist.value, "CFBundleIdentifier").Some?
    then StringAt(plist.value, "CFBundleIdentifier").value
    else ""
  }

  /**
   * IPAInfo.version: "<short> (<build>)" when both version strings are
   * present, else the build alone, else "" (a short version without a build
   * is not shown).
   */
  function Version(plist: Option<map<string, Value>>): (r: string)
    ensures plist.None? || StringAt(plist.value, "CFBundleVersion").None? ==> r == ""
    ensures plist.Some? && StringAt(plist.value, "CFBundleVersion").Some? ==>
              var build := StringAt(plist.value, "CFBundleVersion").value;
              match StringAt(plist.value, "CFBundleShortVersionString")
              case Some(short) => r == short + " (" + build + ")"
              case None => r == build
  {
    if plist.None? then ""
    else
      var short := StringAt(plist.value, "CFBundleShortVersionString");
      var build := StringAt(plist.value, "CFBundleVersion");
      if short.Some? && build.Some? then short.value + " (" + build.value + ")"
      else if build.Some? then build.value
      else ""
  }

  /** The version strings read off the three cases of the rule. */
  lemma VersionExamples()
    ensures Version(Some(map["CFBundleShortVersionString" := Str("1.2"), "CFBundleVersion" := Str("45")])) == "1.2 (45)"
    ensures Version(Some(map["CFBundleVersion" := Str("45")])) == "45"
    ensures Version(Some(map["CFBundleShortVersionString" := Str("1.2")])) == ""
    ensures Version(Some(map[])) == ""
  {
  }

  /** The last name listed under CFBundleIcons / CFBundlePrimaryIcon / CFBundleIconFiles. */
  function DeclaredIcon(m: map<string, Value>): Option<string>
  {
    match DictAt(m, "CFBundleIcons")
    case None => None
    case Some(icons) =>
      match DictAt(icons, "CFBundlePrimaryIcon")
      case None => None
      case Some(primary) =>
        match StringsAt(primary, "CFBundleIconFiles")
        case Some(files) => if files == [] then None else Some(files[|files| - 1])
        case None => None
  }

  /** A top-level bundle entry the declared icon `want` accepts. */
  predicate IsDeclaredIconFile(n: Node, want: string)
  {
    Contains(n.name, want) && IsPng(n.name)
  }

  /** The position, among the bundle's own entries, of the declared icon file, if there is one. */
  function DeclaredIconEntry(app: Node): (r: Option<nat>)
    ensures r.Some? ==> InfoPlist(app).Some? && DeclaredIcon(InfoPlist(app).value).Some?
                        && r.value < |Children(app)|
                        && IsDeclaredIconFile(Children(app)[r.value], DeclaredIcon(InfoPlist(app).value).value)
                        && forall j :: 0 <= j < r.value ==>
                             !IsDeclaredIconFile(Children(app)[j], DeclaredIcon(InfoPlist(app).value).value)
    ensures r.None? && InfoPlist(app).Some? && DeclaredIcon(InfoPlist(app).value).Some? ==>
              forall j :: 0 <= j < |Children(app)| ==>
                !IsDeclaredIconFile(Children(app)[j], DeclaredIcon(InfoPlist(app).value).value)
  {
    var plist := InfoPlist(app);
    if plist.None? then None
    else match DeclaredIcon(plist.value)
      case None => None
      case Some(want) =>
        var accepts := n => IsDeclaredIconFile(n, want);
        FirstWhereIsFirst(Children(app), accepts);
        FirstWhere(Children(app), accepts)
  }

  /** An entry the fallback scan weighs: a PNG, in any case, whose size it can read. */
  predicate IsPngFile(it: Item)
  {
    IsPng(it.node.name) && it.node.File?
  }

  function SizeOf(it: Item): nat
  {
    if it.node.File? then it.node.size else 0
  }

  /**
   * The fallback icon: the position of the entry the scan ends on, where an
   * entry replaces the current choice when it is a PNG strictly larger than
   * the current choice's size, which starts at 0.
   */
  function LargestPng(items: seq<Item>): (r: Option<nat>)
    ensures r.Some? ==> r.value < |items|
    decreases |items|
  {
    if items == [] then None
    else
      var n := |items| - 1;
      var best := LargestPng(items[..n]);
      var bestSize := if best.Some? then SizeOf(items[best.value]) else 0;
      if IsPngFile(items[n]) && SizeOf(items[n]) > bestSize then Some(n) else best
  }

  /** `k` is the first PNG of maximal, positive size among `items`. */
  ghost predicate IsFirstLargestPng(items: seq<Item>, k: nat)
  {
    && k < |items| && IsPngFile(items[k]) && SizeOf(items[k]) > 0
    && (forall j :: 0 <= j < k && IsPngFile(items[j]) ==> SizeOf(items[j]) < SizeOf(items[k]))
    && (forall j :: k < j < |items| && IsPngFile(items[j]) ==> SizeOf(items[j]) <= SizeOf(items[k]))
  }

  /** No PNG among `items` has a positive size. */
  ghost predicate NoSizedPng(items: seq<Item>)
  {
    forall j :: 0 <= j < |items| && IsPngFile(items[j]) ==> SizeOf(items[j]) == 0
  }

  /**
   * The fallback scan chooses the first PNG of strictly maximal size; it
   * chooses none exactly when every PNG is empty (or there is none).
   */
  lemma {:induction false} LargestPngIsFirstMaximum(items: seq<Item>)
    ensures LargestPng(items).Some? ==> IsFirstLargestPng(items, LargestPng(items).value)
    ensures LargestPng(items).None? <==> NoSizedPng(items)
    decreases |items|
  {
    if items != [] {
      var n := |items| - 1;
      var prefix := items[..n];
      LargestPngIsFirstMaximum(prefix);
      var best := LargestPng(prefix);
      var bestSize := if best.Some? then SizeOf(prefix[best.value]) else 0;
      var last := items[n];
      if IsPngFile(last) && SizeOf(last) > bestSize {
        forall j | 0 <= j < n && IsPngFile(items[j])
          ensures SizeOf(items[j]) < SizeOf(last)
        {
          assert items[j] == prefix[j];
        }
      } else if best.Some? {
        var b := best.value;
        forall j | 0 <= j < |items| && IsPngFile(items[j])
          ensures j < b ==> SizeOf(items[j]) < bestSize
          ensures b < j ==> SizeOf(items[j]) <= bestSize
        {
          if j < n {
            assert items[j] == prefix[j];
          }
        }
        assert items[b] == prefix[b];
      } else {
        forall j | 0 <= j < |items| && IsPngFile(items[j])
          ensures SizeOf(items[j]) == 0
        {
          if j < n {
            assert items[j] == prefix[j];
          }
        }
      }
    }
  }

  function ItemAt(items: seq<Item>, k: Option<nat>): Option<Item>
    requires k.Some? ==> k.value < |items|
  {
    if k.Some? then Some(items[k.value]) else None
  }

  /** The bestImage/bestSize loop of parseIPA over the enumerator's entries. */
  method ScanLargestPng(items: seq<Item>) returns (best: Option<Item>)
    ensures best == ItemAt(items, LargestPng(items))
  {
    var bestSize: nat := 0;
    best := None;
    var i := 0;
    while i < |items|
      invariant 0 <= i <= |items|
      invariant best == ItemAt(items[..i], LargestPng(items[..i]))
      invariant bestSize == if best.Some? then SizeOf(best.value) else 0
    {
      var item := items[i];
      assert items[..i + 1][..i] == items[..i];
      if IsPng(item.node.name) && item.node.File? {
        var fs := item.node.size;
        if fs > bestSize {
          bestSize := fs;
          best := Some(item);
        }
      }
      i := i + 1;
    }
    assert items[..i] == items;
  }

  /** The names among `names` whose extension is dylib in any case, in order. */
  function DylibNames(names: seq<string>): (r: seq<string>)
    ensures |r| <= |names|
    decreases |names|
  {
    if names == [] then []
    else
      var n := |names| - 1;
      DylibNames(names[..n]) + (if IsDylib(names[n]) then [names[n]] else [])
  }

  /** DylibNames keeps exactly the dylib names. */
  lemma {:induction false} DylibNamesMembers(names: seq<string>)
    ensures forall x :: x in DylibNames(names) <==> x in names && IsDylib(x)
    decreases |names|
  {
    if names != [] {
      var n := |names| - 1;
      DylibNamesMembers(names[..n]);
      assert names == names[..n] + [names[n]];
    }
  }

  /** A single name is kept exactly when it is a dylib's. */
  lemma DylibNamesOne(x: string)
    ensures DylibNames([x]) == if IsDylib(x) then [x] else []
  {
    assert [x][..0] == [];
  }

  /**
   * DylibNames appends once per match, in scan order, and removes no
   * duplicate: it distributes over concatenation.
   */
  lemma {:induction false} DylibNamesAppend(a: seq<string>, b: seq<string>)
    ensures DylibNames(a + b) == DylibNames(a) + DylibNames(b)
    decreases |b|
  {
    if b == [] {
      assert a + b == a;
    } else {
      var n := |b| - 1;
      var ab := a + b;
      var m := |ab| - 1;
      var last := if IsDylib(b[n]) then [b[n]] else [];
      assert DylibNames(ab) == DylibNames(a + b[..n]) + last by {
        assert ab[..m] == a + b[..n];
        assert ab[m] == b[n];
      }
      assert DylibNames(b) == DylibNames(b[..n]) + last;
      DylibNamesAppend(a, b[..n]);
    }
  }

  function WalkNames(items: seq<Item>): (r: seq<string>)
    ensures |r| == |items|
    ensures forall i :: 0 <= i < |items| ==> r[i] == items[i].node.name
  {
    if items == [] then [] else [items[0].node.name] + WalkNames(items[1..])
  }

  /** The entries of the bundle's Frameworks folder, when that exists and lists. */
  function FrameworksEntries(app: Node): seq<Node>
  {
    match ChildNamed(Children(app), "Frameworks")
    case Some(Dir(_, entries)) => entries
    case _ => []
  }

  /**
   * findDylibs: the dylib names met by the recursive scan of the bundle, then
   * those directly in Frameworks, without removing duplicates.
   */
  function FindDylibs(appPath: Path, app: Node): (r: seq<string>)
    ensures forall x :: x in r ==> IsDylib(x)
  {
    DylibNamesMembers(WalkNames(Walk(appPath, Children(app))));
    DylibNamesMembers(Names(FrameworksEntries(app)));
    DylibNames(WalkNames(Walk(appPath, Children(app)))) + DylibNames(Names(FrameworksEntries(app)))
  }

  /** Extending the scanned prefix by one name extends DylibNames by that name when it is a dylib. */
  lemma DylibNamesStep(names: seq<string>, i: nat)
    requires i < |names|
    ensures DylibNames(names[..i + 1]) == DylibNames(names[..i]) + if IsDylib(names[i]) then [names[i]] else []
  {
    assert names[..i + 1][..i] == names[..i];
  }

  /** One loop of findDylibs: append each dylib name, in order. */
  method CollectDylibs(names: seq<string>) returns (found: seq<string>)
    ensures found == DylibNames(names)
  {
    found := [];
    var i := 0;
    while i < |names|
      invariant 0 <= i <= |names|
      invariant found == DylibNames(names[..i])
    {
      DylibNamesStep(names, i);
      if IsDylib(names[i]) {
        found := found + [names[i]];
      }
      i := i + 1;
    }
    assert names[..i] == names;
  }

  /** findDylibs: the recursive scan of the bundle, then the Frameworks folder. */
  method ScanDylibs(appPath: Path, app: Node) returns (found: seq<string>)
    ensures found == FindDylibs(appPath, app)
  {
    found := CollectDylibs(WalkNames(Walk(appPath, Children(app))));
    var more := CollectDylibs(Names(FrameworksEntries(app)));
    found := found + more;
  }

  /** Every dylib the walk meets is kept by the first pass of findDylibs. */
  lemma DylibMetByWalk(items: seq<Item>, it: Item)
    requires it in items && IsDylib(it.node.name)
    ensures it.node.name in DylibNames(WalkNames(items))
  {
    var i :| 0 <= i < |items| && items[i] == it;
    assert WalkNames(items)[i] == it.node.name;
    DylibNamesMembers(WalkNames(items));
  }

  /** A dylib directly inside Frameworks is met by the recursive scan of the bundle. */
  lemma FrameworksDylibWalked(appPath: Path, app: Node, x: Node)
    requires ChildNamed(Children(app), "Frameworks").Some?
    requires ChildNamed(Children(app), "Frameworks").value.Dir?
    requires x in ChildNamed(Children(app), "Frameworks").value.children
    requires IsDylib(x.name)
    ensures x.name in DylibNames(WalkNames(Walk(appPath, Children(app))))
  {
    var entries := Children(app);
    var fw := ChildNamed(entries, "Frameworks").value;
    ChildNamedFinds(entries, "Frameworks");
    var k :| 0 <= k < |entries| && entries[k] == fw;
    var k2 :| 0 <= k2 < |fw.children| && fw.children[k2] == x;
    var met := Item(appPath + [fw.name] + [x.name], x);
    WalkMeetsEntry(appPath + [fw.name], fw.children, k2);
    WalkEntersDirectory(appPath, entries, k);
    DylibMetByWalk(Walk(appPath, entries), met);
  }

  /** A dylib directly inside Frameworks is met by the listing of Frameworks. */
  lemma FrameworksDylibListed(app: Node, x: Node)
    requires ChildNamed(Children(app), "Frameworks").Some?
    requires ChildNamed(Children(app), "Frameworks").value.Dir?
    requires x in ChildNamed(Children(app), "Frameworks").value.children
    requires IsDylib(x.name)
    ensures x.name in DylibNames(Names(FrameworksEntries(app)))
  {
    var fw := ChildNamed(Children(app), "Frameworks").value;
    var k2 :| 0 <= k2 < |fw.children| && fw.children[k2] == x;
    var listed := Names(fw.children);
    assert listed[k2] == x.name;
    DylibNamesMembers(listed);
  }

  /** A dylib directly inside Frameworks is met by both passes, so it is listed at least twice. */
  lemma FrameworksDylibListedTwice(appPath: Path, app: Node, x: Node)
    requires ChildNamed(Children(app), "Frameworks").Some?
    requires ChildNamed(Children(app), "Frameworks").value.Dir?
    requires x in ChildNamed(Children(app), "Frameworks").value.children
    requires IsDylib(x.name)
    ensures multiset(FindDylibs(appPath, app))[x.name] >= 2
  {
    FrameworksDylibWalked(appPath, app, x);
    FrameworksDylibListed(app, x);
    InBothCountsTwice(DylibNames(WalkNames(Walk(appPath, Children(app)))),
                      DylibNames(Names(FrameworksEntries(app))), x.name);
  }

  lemma InBothCountsTwice<T>(a: seq<T>, b: seq<T>, x: T)
    requires x in a && x in b
    ensures multiset(a + b)[x] >= 2
  {
    assert multiset(a + b) == multiset(a) + multiset(b);
  }

  /**
   * getExecutableName: CFBundleExecutable, exactly when Info.plist reads,
   * decodes to a dictionary and holds that key as a string.
   */
  function ExecutableName(app: Node): (r: Option<string>)
    ensures var f := ChildNamed(Children(app), "Info.plist");
            r.Some? <==> f.Some? && f.value.File? && f.value.plist.Some? && f.value.plist.value.Dict?
                         && "CFBundleExecutable" in f.value.plist.value.entries
                         && f.value.plist.value.entries["CFBundleExecutable"].Str?
    ensures r.Some? ==> r.value == ChildNamed(Children(app), "Info.plist").value.plist.value.entries["CFBundleExecutable"].text
  {
    match InfoPlist(app)
    case Some(m) => StringAt(m, "CFBundleExecutable")
    case None => None
  }

  /** An entry of Payload that parseIPA takes for the bundle: extension exactly "app". */
  predicate IsAppEntry(n: Node)
  {
    Extension(n.name) == "app"
  }

  /** The entries of Payload once the archive is unzipped into `temp`, if Payload lists. */
  function PayloadEntries(w: World, ipa: Path): Option<seq<Node>>
  {
    match ChildNamed(w.unzipped(ipa), "Payload")
    case Some(Dir(_, entries)) => Some(entries)
    case _ => None
  }

  /**
   * The bundle parseIPA inspects; None where it returns nil before reading
   * metadata: the temporary directory or unzip cannot be created or launched,
   * Payload does not list, or no entry of it has the extension "app".
   */
  function LocateApp(w: World, ipa: Path, temp: Path): (r: Option<Item>)
    ensures r.None? <==>
              || temp in w.mkdirFails
              || Unzip !in w.launchable
              || PayloadEntries(w, ipa).None?
              || forall i :: 0 <= i < |PayloadEntries(w, ipa).value| ==> !IsAppEntry(PayloadEntries(w, ipa).value[i])
    ensures r.Some? ==>
              var entries := PayloadEntries(w, ipa).value;
              exists k :: 0 <= k < |entries| && r.value == Item(temp + ["Payload", entries[k].name], entries[k])
                          && IsAppEntry(entries[k]) && forall j :: 0 <= j < k ==> !IsAppEntry(entries[j])
  {
    if temp in w.mkdirFails || Unzip !in w.launchable then None
    else match PayloadEntries(w, ipa)
      case None => None
      case Some(entries) =>
        FirstWhereIsFirst(entries, IsAppEntry);
        match FirstWhere(entries, IsAppEntry)
        case Some(k) => Some(Item(temp + ["Payload", entries[k].name], entries[k]))
        case None => None
  }

  /**
   * The icon parseIPA loads: the declared icon file when the bundle has one,
   * else the fallback scan's choice, else none.
   */
  function Icon(appPath: Path, app: Node): (r: Option<Path>)
    ensures r.Some? ==> IsPng(LastComponent(r.value))
  {
    var declared := DeclaredIconEntry(app);
    var items := Walk(appPath, Children(app));
    if declared.Some? then Some(appPath + [Children(app)[declared.value].name])
    else match LargestPng(items)
      case Some(k) =>
        LargestPngIsFirstMaximum(items);
        WalkItemNamed(appPath, Children(app), items[k]);
        Some(items[k].path)
      case None => None
  }

  /**
   * The icon is the declared file whenever the bundle has one, else the
   * first PNG of maximal positive size met by the walk; none exactly when
   * neither exists.
   */
  lemma IconIsDeclaredOrLargest(appPath: Path, app: Node)
    ensures DeclaredIconEntry(app).Some? ==>
              Icon(appPath, app) == Some(appPath + [Children(app)[DeclaredIconEntry(app).value].name])
    ensures DeclaredIconEntry(app).None? && Icon(appPath, app).Some? ==>
              var items := Walk(appPath, Children(app));
              exists k: nat :: IsFirstLargestPng(items, k) && Icon(appPath, app).value == items[k].path
    ensures Icon(appPath, app).None? <==> DeclaredIconEntry(app).None? && NoSizedPng(Walk(appPath, Children(app)))
  {
    if DeclaredIconEntry(app).None? {
      FallbackIcon(appPath, app);
    }
  }

  /** Without a declared icon file, the icon is the fallback scan's choice. */
  lemma FallbackIcon(appPath: Path, app: Node)
    requires DeclaredIconEntry(app).None?
    ensures var items := Walk(appPath, Children(app));
            Icon(appPath, app).Some? ==>
              exists k: nat :: IsFirstLargestPng(items, k) && Icon(appPath, app).value == items[k].path
    ensures Icon(appPath, app).None? <==> NoSizedPng(Walk(appPath, Children(app)))
  {
    var items := Walk(appPath, Children(app));
    LargestPngIsFirstMaximum(items);
    var best := LargestPng(items);
    if best.Some? {
      var k: nat := best.value;
      var it := items[k];
      assert Icon(appPath, app) == Some(it.path);
      WalkItemNamed(appPath, Children(app), it);
      assert IsFirstLargestPng(items, k);
    }
  }

  /** An item of the walk is reported under its own name. */
  lemma WalkItemNamed(dir: Path, nodes: seq<Node>, it: Item)
    requires it in Walk(dir, nodes)
    ensures LastComponent(it.path) == it.node.name
  {
    WalkPaths(dir, nodes);
  }

  /** What parseIPA reports for the bundle at `appPath` when it is read before its tree is removed. */
  function Inspect(appPath: Path, app: Node, ipa: Path): IpaInfo
  {
    var plist := InfoPlist(app);
    IpaInfo(DisplayName(app.name, plist), BundleId(plist), Version(plist), Icon(appPath, app),
            FindDylibs(appPath, app), ipa)
  }

  /**
   * parseIPA as written. On the declared-icon path the temporary tree is
   * removed before findDylibs runs, so that path reports no library.
   */
  function ParseIpa(w: World, ipa: Path, temp: Path): (r: Option<IpaInfo>)
    ensures r.None? <==> LocateApp(w, ipa, temp).None?
    ensures r.Some? ==>
              var app := LocateApp(w, ipa, temp).value;
              && r.value.url == ipa
              && r.value.name == DisplayName(app.node.name, InfoPlist(app.node))
              && r.value.bundleId == BundleId(InfoPlist(app.node))
              && r.value.version == Version(InfoPlist(app.node))
              && r.value.icon == Icon(app.path, app.node)
              && r.value.dylibs == if DeclaredIconEntry(app.node).Some? then [] else FindDylibs(app.path, app.node)
  {
    match LocateApp(w, ipa, temp)
    case None => None
    case Some(Item(appPath, app)) =>
      var info := Inspect(appPath, app, ipa);
      if DeclaredIconEntry(app).Some? then Some(info.(dylibs := [])) else Some(info)
  }

  /** parseIPA with findDylibs run before the temporary tree is removed, on both icon paths. */
  function ParseIpaCorrected(w: World, ipa: Path, temp: Path): (r: Option<IpaInfo>)
    ensures r.None? <==> LocateApp(w, ipa, temp).None?
    ensures r.Some? ==>
              var app := LocateApp(w, ipa, temp).value;
              && r.value.url == ipa
              && r.value.name == DisplayName(app.node.name, InfoPlist(app.node))
              && r.value.bundleId == BundleId(InfoPlist(app.node))
              && r.value.version == Version(InfoPlist(app.node))
              && r.value.dylibs == FindDylibs(app.path, app.node) && r.value.icon == Icon(app.path, app.node)
  {
    match LocateApp(w, ipa, temp)
    case None => None
    case Some(Item(appPath, app)) => Some(Inspect(appPath, app, ipa))
  }

  /**
   * A bundle with a declared icon file and a library in Frameworks: parseIPA
   * reports no library, although the bundle carries one.
   */
  lemma DeclaredIconHidesDylibs(w: World, ipa: Path, temp: Path, x: Node)
    requires LocateApp(w, ipa, temp).Some?
    requires DeclaredIconEntry(LocateApp(w, ipa, temp).value.node).Some?
    requires var app := LocateApp(w, ipa, temp).value.node;
             ChildNamed(Children(app), "Frameworks").Some?
             && ChildNamed(Children(app), "Frameworks").value.Dir?
             && x in ChildNamed(Children(app), "Frameworks").value.children
    requires IsDylib(x.name)
    ensures ParseIpa(w, ipa, temp).value.dylibs == []
    ensures x.name in ParseIpaCorrected(w, ipa, temp).value.dylibs
  {
    var app := LocateApp(w, ipa, temp).value;
    FrameworksDylibListedTwice(app.path, app.node, x);
    assert x.name in multiset(FindDylibs(app.path, app.node));
  }
}
