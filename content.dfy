/**
 * The injection flow of ContentView: which bundle of an unpacked archive
 * receives the library, the optool command line, the name offered for the
 * rebuilt archive, and processIPA / performInjection, which run the steps
 * for every selected archive, report each archive's outcome and remove its
 * temporary directory.
 */
module Content {
  import opened Wrappers
  import opened Paths
  import opened FileTree
  import opened System
  import opened Inspector
  import opened DebExtractor

  /**
   * injectDylib's choice of bundle among the names Payload lists: a single
   * entry when it ends in ".app"; of two entries the first that ends in
   * ".app"; of any other number, none.
   */
  function ChosenBundle(names: seq<string>): (r: Option<nat>)
    ensures r.Some? ==> r.value < |names| && HasSuffix(names[r.value], ".app")
  {
    if |names| == 1 then (if HasSuffix(names[0], ".app") then Some(0) else None)
    else if |names| == 2 then
      (if HasSuffix(names[0], ".app") then Some(0)
       else if HasSuffix(names[1], ".app") then Some(1)
       else None)
    else None
  }

  /** The cardinality rule: a bundle is chosen only from a listing of one or two entries, preferring the first. */
  lemma ChosenBundleRule(names: seq<string>)
    ensures ChosenBundle(names).Some? <==>
              (|names| == 1 || |names| == 2) && exists i :: 0 <= i < |names| && HasSuffix(names[i], ".app")
    ensures ChosenBundle(names) == Some(1) ==> |names| == 2 && !HasSuffix(names[0], ".app")
  {
    if (|names| == 1 || |names| == 2) && exists i :: 0 <= i < |names| && HasSuffix(names[i], ".app") {
      var i :| 0 <= i < |names| && HasSuffix(names[i], ".app");
      assert i == 0 || HasSuffix(names[1], ".app");
    }
  }

  /** Of two listed entries exactly one of which is a bundle, that one is chosen in either listing order. */
  lemma ChosenBundleIgnoresOrder(a: string, b: string)
    requires HasSuffix(a, ".app") != HasSuffix(b, ".app")
    ensures var r1 := ChosenBundle([a, b]);
            var r2 := ChosenBundle([b, a]);
            r1.Some? && r2.Some? && [a, b][r1.value] == [b, a][r2.value]
  {
  }

  /**
   * A name injectDylib accepts as a bundle, with something before ".app",
   * is one parseIPA accepts too: its extension is exactly "app".
   */
  lemma BundleSuffixIsAppExtension(name: string)
    requires HasSuffix(name, ".app") && |name| > 4
    ensures IsAppEntry(File(name, 0, None))
  {
    var stem := name[..|name| - 4];
    assert name == stem + "." + "app";
    ExtensionOfJoin(stem, "app");
  }

  /** The hidden name ".app" ends in ".app", so injectDylib takes it, but it has no extension, so parseIPA does not. */
  lemma HiddenBundleNameDiffers()
    ensures ChosenBundle([".app"]) == Some(0)
    ensures !IsAppEntry(File(".app", 0, None))
  {
    assert AfterLastDot(".app") == Some("app") by {
      AfterLastDotOfSuffix(".", "app");
      assert "." + "app" == ".app";
    }
  }

  /** optool's arguments: install a load command for @executable_path/<lib> into the executable. */
  function OptoolArgs(lib: string, executable: Path): seq<string>
  {
    ["install", "-p", "@executable_path/" + lib, "-t", Render(executable)]
  }

  /** generateNewIpaName: "<source name without extension>_<seconds since 1970>.ipa". */
  function GenerateNewIpaName(url: Path, now: int): (r: string)
    ensures HasSuffix(r, ".ipa") && HasPrefix(r, Stem(LastComponent(url)) + "_")
  {
    Stem(LastComponent(url)) + "_" + Decimal(now) + ".ipa"
  }

  /** The offered name has the extension "ipa" and, before it, the source's stem, '_' and the timestamp. */
  lemma NewIpaNameParts(url: Path, now: int)
    ensures Extension(GenerateNewIpaName(url, now)) == "ipa"
    ensures Stem(GenerateNewIpaName(url, now)) == Stem(LastComponent(url)) + "_" + Decimal(now)
    ensures now >= 0 ==>
              var name := GenerateNewIpaName(url, now);
              var k := |Stem(LastComponent(url))| + 1;
              k < |name| - 4 && forall j :: k <= j < |name| - 4 ==> '0' <= name[j] <= '9'
  {
    if now >= 0 {
      DigitsAreDigits(now);
      var name := GenerateNewIpaName(url, now);
      var k := |Stem(LastComponent(url))| + 1;
      assert forall j :: k <= j < |name| - 4 ==> name[j] == Decimal(now)[j - k];
    }
    var base := Stem(LastComponent(url)) + "_" + Decimal(now);
    assert GenerateNewIpaName(url, now) == base + "." + "ipa";
    ExtensionOfJoin(base, "ipa");
  }

  /** What injectDylib throws, if anything, with the effects it has. */
  datatype Attempt = Attempt(error: Option<Error>, effects: seq<Effect>)

  /**
   * injectDylib(payloadDir:) with the library at `lib` and `listing` the
   * entries of Payload (None when contentsOfDirectory throws). When no
   * bundle or no executable name is found it prints that and returns
   * without an error. copyItem
   * throws when the library is gone or the bundle already holds an entry of
   * its name; the run of optool throws only when it cannot be launched.
   */
  function InjectSpec(w: World, trace: seq<Effect>, lib: Path, payload: Path, listing: Option<seq<Node>>): (r: Attempt)
    ensures r.error.Some? ==> r.error.value.CannotList? || r.error.value.CannotCopy? || r.error.value == CannotLaunch(Optool)
    ensures |r.effects| <= 2
  {
    match listing
    case None => Attempt(Some(CannotList(payload)), [])
    case Some(entries) =>
      match ChosenBundle(Names(entries))
      case None => Attempt(None, [Warn(NoBundleFound)])
      case Some(i) =>
        var app := entries[i];
        var appPath := payload + [app.name];
        match ExecutableName(app)
        case None => Attempt(None, [Warn(NoExecutableName)])
        case Some(exe) =>
          var name := LastComponent(lib);
          var to := appPath + [name];
          if Gone(trace, lib) || name in Names(Children(app)) then Attempt(Some(CannotCopy(lib, to)), [])
          else if Optool !in w.launchable then Attempt(Some(CannotLaunch(Optool)), [Copy(lib, to)])
          else Attempt(None, [Copy(lib, to), Run(Optool, OptoolArgs(name, appPath + [exe]), None)])
  }

  /**
   * The outcomes of injectDylib that throw or stop early: an unlistable
   * Payload throws; with no bundle, or no executable name, that is printed
   * and nothing else happens, and nothing is thrown; injectDylib never
   * reports a caught failure or offers a save itself.
   */
  lemma InjectOutcomes(w: World, trace: seq<Effect>, lib: Path, payload: Path, listing: Option<seq<Node>>)
    ensures var a := InjectSpec(w, trace, lib, payload, listing);
            && (listing.None? <==> a.error == Some(CannotList(payload)))
            && (listing.None? ==> a.effects == [])
            && ((listing.Some? && ChosenBundle(Names(listing.value)).None?) ==>
                  a == Attempt(None, [Warn(NoBundleFound)]))
            && ((listing.Some? && ChosenBundle(Names(listing.value)).Some?
                 && ExecutableName(listing.value[ChosenBundle(Names(listing.value)).value]).None?) ==>
                  a == Attempt(None, [Warn(NoExecutableName)]))
            && Quiet(a.effects)
  {
    var a := InjectSpec(w, trace, lib, payload, listing);
    if listing.Some? && ChosenBundle(Names(listing.value)).Some? {
      var app := listing.value[ChosenBundle(Names(listing.value)).value];
      if ExecutableName(app).Some? && a.effects != [] {
        assert a.effects[0].Copy?;
      }
    }
  }

  /**
   * When injectDylib launches optool, it has first copied the library into
   * the chosen bundle under its own name, and optool gets the install
   * arguments for that bundle's executable; nothing is thrown.
   */
  lemma InjectCopiesThenRuns(w: World, trace: seq<Effect>, lib: Path, payload: Path, listing: Option<seq<Node>>)
    requires |InjectSpec(w, trace, lib, payload, listing).effects| == 2
    ensures var a := InjectSpec(w, trace, lib, payload, listing);
            && listing.Some? && ChosenBundle(Names(listing.value)).Some?
            && var app := listing.value[ChosenBundle(Names(listing.value)).value];
               && HasSuffix(app.name, ".app") && ExecutableName(app).Some? && a.error.None?
               && a.effects == [Copy(lib, payload + [app.name, LastComponent(lib)]),
                                Run(Optool, OptoolArgs(LastComponent(lib), payload + [app.name, ExecutableName(app).value]), None)]
  {
    var names := Names(listing.value);
    var i := ChosenBundle(names).value;
    var app := listing.value[i];
    assert names[i] == app.name;
    assert payload + [app.name] + [LastComponent(lib)] == payload + [app.name, LastComponent(lib)];
    assert payload + [app.name] + [ExecutableName(app).value] == payload + [app.name, ExecutableName(app).value];
  }

  /**
   * The path on which injectDylib installs the library: a bundle is chosen,
   * it names its executable, the library is still there, the bundle holds
   * nothing of the library's name, and optool can be launched. Then the
   * library is copied into the bundle and optool installs it into the
   * executable, and nothing is thrown.
   */
  lemma InjectInstalls(w: World, trace: seq<Effect>, lib: Path, payload: Path, entries: seq<Node>)
    requires ChosenBundle(Names(entries)).Some?
    requires var app := entries[ChosenBundle(Names(entries)).value];
             ExecutableName(app).Some? && LastComponent(lib) !in Names(Children(app))
    requires !Gone(trace, lib) && Optool in w.launchable
    ensures var app := entries[ChosenBundle(Names(entries)).value];
            InjectSpec(w, trace, lib, payload, Some(entries)) ==
              Attempt(None, [Copy(lib, payload + [app.name, LastComponent(lib)]),
                             Run(Optool, OptoolArgs(LastComponent(lib), payload + [app.name, ExecutableName(app).value]), None)])
  {
    var i := ChosenBundle(Names(entries)).value;
    var app := entries[i];
    assert Names(entries)[i] == app.name;
    assert payload + [app.name] + [LastComponent(lib)] == payload + [app.name, LastComponent(lib)];
    assert payload + [app.name] + [ExecutableName(app).value] == payload + [app.name, ExecutableName(app).value];
  }

  /** injectDylib copies, runs optool and prints its notices, and does nothing else. */
  lemma InjectRunsOnlyOptool(w: World, trace: seq<Effect>, lib: Path, payload: Path, listing: Option<seq<Node>>)
    ensures forall e :: e in InjectSpec(w, trace, lib, payload, listing).effects ==>
              e.Copy? || e.Warn? || (e.Run? && e.tool == Optool)
  {
  }

  /** Per-archive values Swift draws from UUID() and Date(): the temporary directories and the clock. */
  datatype Fresh = Fresh(temp: Path, scratch: Path, now: int)

  /** unzip -q <ipa> -d <temp> */
  function UnzipRun(ipa: Path, temp: Path): Effect
  {
    Run(Unzip, ["-q", Render(ipa), "-d", Render(temp)], None)
  }

  /** zip -r <temp>/Modified.ipa . inside the temporary directory. */
  function ZipRun(temp: Path): Effect
  {
    Run(Zip, ["-r", Render(temp + ["Modified.ipa"]), "."], Some(temp))
  }

  /** The save panel offered for the rebuilt archive. */
  function SaveOffer(ipa: Path, f: Fresh): Effect
  {
    OfferSave(f.temp + ["Modified.ipa"], GenerateNewIpaName(ipa, f.now))
  }

  /** One pass of processIPA: dylibPath afterwards, the error caught, if any, and the effects. */
  datatype Pass = Pass(dylib: Path, error: Option<Error>, effects: seq<Effect>)

  /** The steps of processIPA's do-block once the library to inject is known. */
  function FromUnzip(w: World, trace: seq<Effect>, lib: Path, ipa: Path, f: Fresh, done: seq<Effect>): (r: Pass)
    ensures r.dylib == lib && |r.effects| >= |done| && r.effects[..|done|] == done
  {
    if Unzip !in w.launchable then Pass(lib, Some(CannotLaunch(Unzip)), done)
    else
      var unzipped := done + [UnzipRun(ipa, f.temp)];
      var inj := InjectSpec(w, trace + unzipped, lib, f.temp + ["Payload"], PayloadEntries(w, ipa));
      var injected := unzipped + inj.effects;
      if inj.error.Some? then Pass(lib, inj.error, injected)
      else if Zip !in w.launchable then Pass(lib, Some(CannotLaunch(Zip)), injected)
      else Pass(lib, None, injected + [ZipRun(f.temp), SaveOffer(ipa, f)])
  }

  /**
   * processIPA's do-block for `ipa`, with `dylib` the current dylibPath and
   * `trace` everything that happened before. A .deb source is extracted into
   * the temporary directory and dylibPath is rebound to the extracted
   * library before the archive is unzipped.
   */
  function AttemptSpec(w: World, trace: seq<Effect>, dylib: Path, ipa: Path, f: Fresh): (r: Pass)
    ensures r.dylib != dylib ==>
              IsDeb(LastComponent(dylib)) && |r.dylib| == |f.temp| + 1 && r.dylib[..|f.temp|] == f.temp
  {
    if f.temp in w.mkdirFails then Pass(dylib, Some(CannotCreate(f.temp)), [])
    else if IsDeb(LastComponent(dylib)) then
      var x := DebToDylib(w, dylib, f.scratch, f.temp);
      match x.result
      case Failure(e) => Pass(dylib, Some(e), [MakeDir(f.temp)] + x.effects)
      case Success(name) => FromUnzip(w, trace, f.temp + [name], ipa, f, [MakeDir(f.temp)] + x.effects)
    else FromUnzip(w, trace, dylib, ipa, f, [MakeDir(f.temp)])
  }

  /** processIPA: the do-block, its error printed when one is caught, then the temporary directory removed. */
  function ProcessSpec(w: World, trace: seq<Effect>, dylib: Path, ipa: Path, f: Fresh): (r: Pass)
    ensures |r.effects| >= 1 && r.effects[|r.effects| - 1] == Remove(f.temp)
    ensures r.error.Some? ==> |r.effects| >= 2 && r.effects[|r.effects| - 2] == ReportFailure(r.error.value)
  {
    var a := AttemptSpec(w, trace, dylib, ipa, f);
    var report := if a.error.Some? then [ReportFailure(a.error.value)] else [];
    Pass(a.dylib, a.error, a.effects + report + [Remove(f.temp)])
  }

  /** The session's dylibPath and the effects so far. */
  datatype State = State(dylib: Path, trace: seq<Effect>)

  /** performInjection's loop over the first |ipas| archives, from `start`. */
  function Batch(w: World, start: State, ipas: seq<Path>, drawn: seq<Fresh>): (r: State)
    requires |drawn| == |ipas|
    ensures |r.trace| >= |start.trace| && r.trace[..|start.trace|] == start.trace
    decreases |ipas|
  {
    if ipas == [] then start
    else
      var n := |ipas| - 1;
      var before := Batch(w, start, ipas[..n], drawn[..n]);
      var p := ProcessSpec(w, before.trace, before.dylib, ipas[n], drawn[n]);
      State(p.dylib, before.trace + p.effects)
  }

  /** Batch over one archive more: the state after the first `i`, then that archive's processIPA. */
  lemma BatchStep(w: World, start: State, ipas: seq<Path>, drawn: seq<Fresh>, i: nat)
    requires |drawn| == |ipas| && i < |ipas|
    ensures var before := Batch(w, start, ipas[..i], drawn[..i]);
            var p := ProcessSpec(w, before.trace, before.dylib, ipas[i], drawn[i]);
            Batch(w, start, ipas[..i + 1], drawn[..i + 1]) == State(p.dylib, before.trace + p.effects)
  {
    assert ipas[..i + 1][..i] == ipas[..i] && drawn[..i + 1][..i] == drawn[..i];
  }

  /**
   * From the unzip on, nothing is reported before the save panel, and the
   * save panel is offered last exactly when no error is caught.
   */
  lemma FromUnzipShape(w: World, trace: seq<Effect>, lib: Path, ipa: Path, f: Fresh, done: seq<Effect>)
    requires Quiet(done)
    ensures var p := FromUnzip(w, trace, lib, ipa, f, done);
            && (p.error.Some? ==> Quiet(p.effects))
            && (p.error.None? ==> |p.effects| >= 1 && p.effects[|p.effects| - 1] == SaveOffer(ipa, f)
                                  && Quiet(p.effects[..|p.effects| - 1]))
  {
    if Unzip in w.launchable {
      var unzipped := done + [UnzipRun(ipa, f.temp)];
      var inj := InjectSpec(w, trace + unzipped, lib, f.temp + ["Payload"], PayloadEntries(w, ipa));
      InjectOutcomes(w, trace + unzipped, lib, f.temp + ["Payload"], PayloadEntries(w, ipa));
      var injected := unzipped + inj.effects;
      QuietJoin(done, [UnzipRun(ipa, f.temp)], inj.effects);
      if inj.error.None? && Zip in w.launchable {
        SavedLast(injected, ZipRun(f.temp), SaveOffer(ipa, f));
      }
    }
  }

  lemma QuietJoin(a: seq<Effect>, b: seq<Effect>, c: seq<Effect>)
    requires Quiet(a) && Quiet(b) && Quiet(c)
    ensures Quiet(a + b + c)
  {
  }

  /** Effects ending in a quiet step and then the save panel are quiet up to that panel. */
  lemma SavedLast(before: seq<Effect>, step: Effect, save: Effect)
    requires Quiet(before) && !step.OfferSave? && !step.ReportFailure?
    ensures var all := before + [step, save];
            all[|all| - 1] == save && Quiet(all[..|all| - 1])
  {
    var all := before + [step, save];
    assert all[..|all| - 1] == before + [step];
  }

  /** The shape AttemptShape states, of one pass's effects. */
  predicate ReportsOnlySave(a: Pass, ipa: Path, f: Fresh)
  {
    && (a.error.Some? ==> Quiet(a.effects))
    && (a.error.None? ==> |a.effects| >= 1 && a.effects[|a.effects| - 1] == SaveOffer(ipa, f)
                          && Quiet(a.effects[..|a.effects| - 1]))
  }

  /**
   * An archive whose Payload holds no bundle is not an error: injectDylib
   * prints that it found none, and processIPA zips the unchanged tree and
   * offers it for saving.
   */
  lemma NoBundleStillOffered(w: World, trace: seq<Effect>, dylib: Path, ipa: Path, f: Fresh)
    requires f.temp !in w.mkdirFails && !IsDeb(LastComponent(dylib))
    requires Unzip in w.launchable && Zip in w.launchable
    requires PayloadEntries(w, ipa).Some? && ChosenBundle(Names(PayloadEntries(w, ipa).value)).None?
    ensures var p := ProcessSpec(w, trace, dylib, ipa, f);
            && p.error.None? && p.dylib == dylib
            && p.effects == [MakeDir(f.temp), UnzipRun(ipa, f.temp), Warn(NoBundleFound),
                             ZipRun(f.temp), SaveOffer(ipa, f), Remove(f.temp)]
  {
    var unzipped := [MakeDir(f.temp)] + [UnzipRun(ipa, f.temp)];
    var inj := InjectSpec(w, trace + unzipped, dylib, f.temp + ["Payload"], PayloadEntries(w, ipa));
    assert inj == Attempt(None, [Warn(NoBundleFound)]);
  }

  /**
   * A plain library injected into an archive whose bundle is ready: the
   * temporary directory is made, the archive unzipped, the library copied
   * into the bundle and installed by optool, the tree zipped, the save
   * panel offered, and the temporary directory removed; dylibPath stays.
   */
  lemma PlainPassInstalls(w: World, trace: seq<Effect>, dylib: Path, ipa: Path, f: Fresh)
    requires f.temp !in w.mkdirFails && !IsDeb(LastComponent(dylib)) && !Gone(trace, dylib)
    requires Unzip in w.launchable && Zip in w.launchable && Optool in w.launchable
    requires PayloadEntries(w, ipa).Some? && ChosenBundle(Names(PayloadEntries(w, ipa).value)).Some?
    requires var app := PayloadEntries(w, ipa).value[ChosenBundle(Names(PayloadEntries(w, ipa).value)).value];
             ExecutableName(app).Some? && LastComponent(dylib) !in Names(Children(app))
    ensures var entries := PayloadEntries(w, ipa).value;
            var app := entries[ChosenBundle(Names(entries)).value];
            var bundle := f.temp + ["Payload", app.name];
            ProcessSpec(w, trace, dylib, ipa, f) ==
              Pass(dylib, None, [MakeDir(f.temp), UnzipRun(ipa, f.temp), Copy(dylib, bundle + [LastComponent(dylib)]),
                                 Run(Optool, OptoolArgs(LastComponent(dylib), bundle + [ExecutableName(app).value]), None),
                                 ZipRun(f.temp), SaveOffer(ipa, f), Remove(f.temp)])
  {
    var entries := PayloadEntries(w, ipa).value;
    var app := entries[ChosenBundle(Names(entries)).value];
    var unzipped := [MakeDir(f.temp)] + [UnzipRun(ipa, f.temp)];
    GoneMeansRemoved(unzipped, dylib);
    GoneAppend(trace, unzipped, dylib);
    InjectInstalls(w, trace + unzipped, dylib, f.temp + ["Payload"], entries);
    var bundle := f.temp + ["Payload", app.name];
    var lib := LastComponent(dylib);
    var exe := ExecutableName(app).value;
    PathJoin(f.temp, "Payload", app.name, lib);
    PathJoin(f.temp, "Payload", app.name, exe);
    assert bundle + [lib] == f.temp + ["Payload", app.name, lib];
    assert bundle + [exe] == f.temp + ["Payload", app.name, exe];
    var inj := InjectSpec(w, trace + unzipped, dylib, f.temp + ["Payload"], Some(entries));
    assert inj.effects == [Copy(dylib, bundle + [lib]), Run(Optool, OptoolArgs(lib, bundle + [exe]), None)];
    assert FromUnzip(w, trace, dylib, ipa, f, [MakeDir(f.temp)]) ==
             Pass(dylib, None, unzipped + inj.effects + [ZipRun(f.temp), SaveOffer(ipa, f)]);
  }

  /** The effects of processIPA's do-block report nothing but, on success, the save panel offered last. */
  lemma AttemptShape(w: World, trace: seq<Effect>, dylib: Path, ipa: Path, f: Fresh)
    ensures ReportsOnlySave(AttemptSpec(w, trace, dylib, ipa, f), ipa, f)
    ensures f.temp !in w.mkdirFails ==>
              |AttemptSpec(w, trace, dylib, ipa, f).effects| >= 1
              && AttemptSpec(w, trace, dylib, ipa, f).effects[0] == MakeDir(f.temp)
  {
    if f.temp !in w.mkdirFails {
      if IsDeb(LastComponent(dylib)) {
        DebAttemptShape(w, trace, dylib, ipa, f);
      } else {
        FromUnzipShape(w, trace, dylib, ipa, f, [MakeDir(f.temp)]);
      }
    }
  }

  lemma DebAttemptShape(w: World, trace: seq<Effect>, dylib: Path, ipa: Path, f: Fresh)
    requires f.temp !in w.mkdirFails && IsDeb(LastComponent(dylib))
    ensures ReportsOnlySave(AttemptSpec(w, trace, dylib, ipa, f), ipa, f)
    ensures |AttemptSpec(w, trace, dylib, ipa, f).effects| >= 1
            && AttemptSpec(w, trace, dylib, ipa, f).effects[0] == MakeDir(f.temp)
  {
    var x := DebToDylib(w, dylib, f.scratch, f.temp);
    ExtractionQuiet(w, dylib, f.scratch, f.temp);
    var done := [MakeDir(f.temp)] + x.effects;
    assert Quiet(done);
    if x.result.Success? {
      FromUnzipShape(w, trace, f.temp + [x.result.value], ipa, f, done);
      assert AttemptSpec(w, trace, dylib, ipa, f) == FromUnzip(w, trace, f.temp + [x.result.value], ipa, f, done);
    } else {
      assert AttemptSpec(w, trace, dylib, ipa, f) == Pass(dylib, Some(x.result.error), done);
    }
  }

  /**
   * Errors are caught and not rethrown: each archive ends with exactly one
   * outcome, the save panel for its rebuilt archive or the failure printed,
   * and its temporary directory is removed last, after being made first.
   */
  lemma ProcessOutcome(w: World, trace: seq<Effect>, dylib: Path, ipa: Path, f: Fresh)
    ensures var p := ProcessSpec(w, trace, dylib, ipa, f);
            && Outcomes(p.effects) == (if p.error.Some? then [ReportFailure(p.error.value)] else [SaveOffer(ipa, f)])
            && p.effects[|p.effects| - 1] == Remove(f.temp)
            && (f.temp in w.mkdirFails ==> p.effects == [ReportFailure(CannotCreate(f.temp)), Remove(f.temp)])
            && (f.temp !in w.mkdirFails ==> p.effects[0] == MakeDir(f.temp))
  {
    var a := AttemptSpec(w, trace, dylib, ipa, f);
    AttemptShape(w, trace, dylib, ipa, f);
    ClosedPass(a, ipa, f);
    if a.error.None? {
      assert a.effects + [] == a.effects;
    }
  }

  /** Closing a pass that reports only its save panel leaves exactly one outcome. */
  lemma ClosedPass(a: Pass, ipa: Path, f: Fresh)
    requires ReportsOnlySave(a, ipa, f)
    ensures a.error.Some? ==>
              Outcomes(a.effects + [ReportFailure(a.error.value)] + [Remove(f.temp)]) == [ReportFailure(a.error.value)]
    ensures a.error.None? ==> Outcomes(a.effects + [Remove(f.temp)]) == [SaveOffer(ipa, f)]
  {
    if a.error.Some? {
      ClosedFailure(a.effects, a.error.value, f.temp);
    } else {
      ClosedSave(a.effects, f.temp);
    }
  }

  lemma ClosedFailure(effects: seq<Effect>, error: Error, temp: Path)
    requires Quiet(effects)
    ensures Outcomes(effects + [ReportFailure(error)] + [Remove(temp)]) == [ReportFailure(error)]
  {
    QuietHasNoOutcome(effects);
    OutcomesSingle(ReportFailure(error));
    OutcomesSingle(Remove(temp));
    OutcomesAppend(effects, [ReportFailure(error)]);
    OutcomesAppend(effects + [ReportFailure(error)], [Remove(temp)]);
  }

  lemma ClosedSave(effects: seq<Effect>, temp: Path)
    requires |effects| >= 1 && effects[|effects| - 1].OfferSave? && Quiet(effects[..|effects| - 1])
    ensures Outcomes(effects + [Remove(temp)]) == [effects[|effects| - 1]]
  {
    var body := effects[..|effects| - 1];
    var save := effects[|effects| - 1];
    assert effects == body + [save];
    QuietHasNoOutcome(body);
    OutcomesSingle(save);
    OutcomesSingle(Remove(temp));
    OutcomesAppend(body, [save]);
    OutcomesAppend(effects, [Remove(temp)]);
  }

  /**
   * Only a source whose lowercased extension is "deb" goes through the
   * extractor; any other source is neither unpacked nor rebound. A .deb that
   * extracts rebinds dylibPath to the extracted library in the archive's
   * temporary directory, and that library is not a .deb itself.
   */
  lemma DebDispatch(w: World, trace: seq<Effect>, dylib: Path, ipa: Path, f: Fresh)
    ensures var p := ProcessSpec(w, trace, dylib, ipa, f);
            && (!IsDeb(LastComponent(dylib)) ==>
                  p.dylib == dylib && RunsOnly(p.effects, {Unzip, Optool, Zip}))
            && (IsDeb(LastComponent(dylib)) && f.temp !in w.mkdirFails
                && DebToDylib(w, dylib, f.scratch, f.temp).result.Success? ==>
                  var name := DebToDylib(w, dylib, f.scratch, f.temp).result.value;
                  p.dylib == f.temp + [name] && IsDylib(name) && !IsDeb(LastComponent(p.dylib)))
  {
    if !IsDeb(LastComponent(dylib)) {
      PlainSourceNotExtracted(w, trace, dylib, ipa, f);
    } else if f.temp !in w.mkdirFails && DebToDylib(w, dylib, f.scratch, f.temp).result.Success? {
      SuccessCopiesFirstDylib(w, dylib, f.scratch, f.temp);
    }
  }

  lemma PlainSourceNotExtracted(w: World, trace: seq<Effect>, dylib: Path, ipa: Path, f: Fresh)
    requires !IsDeb(LastComponent(dylib))
    ensures var p := ProcessSpec(w, trace, dylib, ipa, f);
            p.dylib == dylib && RunsOnly(p.effects, {Unzip, Optool, Zip})
  {
    var a := AttemptSpec(w, trace, dylib, ipa, f);
    var tools := {Unzip, Optool, Zip};
    if f.temp !in w.mkdirFails {
      assert a == FromUnzip(w, trace, dylib, ipa, f, [MakeDir(f.temp)]);
      FromUnzipRunsOnly(w, trace, dylib, ipa, f, [MakeDir(f.temp)], tools);
    } else {
      assert a.effects == [];
    }
    var p := ProcessSpec(w, trace, dylib, ipa, f);
    var report := if a.error.Some? then [ReportFailure(a.error.value)] else [];
    assert p.effects == a.effects + report + [Remove(f.temp)];
    RunsOnlyAppend(a.effects, report, tools);
    RunsOnlyAppend(a.effects + report, [Remove(f.temp)], tools);
  }

  /** Joining effects that launch only `tools` launches only `tools`. */
  lemma RunsOnlyAppend(a: seq<Effect>, b: seq<Effect>, tools: set<Tool>)
    requires RunsOnly(a, tools) && RunsOnly(b, tools)
    ensures RunsOnly(a + b, tools)
  {
  }

  /** The tools launched among some effects are all in `tools`. */
  predicate RunsOnly(effects: seq<Effect>, tools: set<Tool>)
  {
    forall e :: e in effects && e.Run? ==> e.tool in tools
  }

  /** From the unzip on, processIPA launches only unzip, optool and zip. */
  lemma FromUnzipRunsOnly(w: World, trace: seq<Effect>, lib: Path, ipa: Path, f: Fresh, done: seq<Effect>, tools: set<Tool>)
    requires RunsOnly(done, tools) && Unzip in tools && Optool in tools && Zip in tools
    ensures RunsOnly(FromUnzip(w, trace, lib, ipa, f, done).effects, tools)
  {
    if Unzip in w.launchable {
      var unzipped := done + [UnzipRun(ipa, f.temp)];
      InjectRunsOnlyOptool(w, trace + unzipped, lib, f.temp + ["Payload"], PayloadEntries(w, ipa));
    }
  }

  /**
   * performInjection attempts every archive, in order: the trace grows by one
   * outcome per archive, the i-th new outcome belongs to the i-th archive,
   * and every archive's temporary directory is removed.
   */
  lemma BatchAttemptsEvery(w: World, start: State, ipas: seq<Path>, drawn: seq<Fresh>)
    requires |drawn| == |ipas|
    ensures var b := Batch(w, start, ipas, drawn);
            var before := Outcomes(start.trace);
            && |b.trace| >= |start.trace| && b.trace[..|start.trace|] == start.trace
            && |Outcomes(b.trace)| >= |before| && Outcomes(b.trace)[..|before|] == before
            && OneOutcomeEach(Outcomes(b.trace)[|before|..], ipas, drawn)
            && forall i :: 0 <= i < |ipas| ==> Remove(drawn[i].temp) in b.trace
  {
    BatchOutcomes(w, start, ipas, drawn);
    forall i | 0 <= i < |ipas|
      ensures Remove(drawn[i].temp) in Batch(w, start, ipas, drawn).trace
    {
      BatchRemoves(w, start, ipas, drawn, i);
    }
  }

  /** The i-th of `outcomes` is a failure printed or the save panel for the i-th archive. */
  predicate OneOutcomeEach(outcomes: seq<Effect>, ipas: seq<Path>, drawn: seq<Fresh>)
    requires |drawn| == |ipas|
  {
    |outcomes| == |ipas|
    && forall i :: 0 <= i < |ipas| ==> outcomes[i].ReportFailure? || outcomes[i] == SaveOffer(ipas[i], drawn[i])
  }

  /** The outcomes of the archives so far, then the next archive's. */
  lemma OneOutcomeEachExtended(outcomes: seq<Effect>, ipas: seq<Path>, drawn: seq<Fresh>, o: Effect)
    requires |drawn| == |ipas| && ipas != []
    requires OneOutcomeEach(outcomes, ipas[..|ipas| - 1], drawn[..|ipas| - 1])
    requires o.ReportFailure? || o == SaveOffer(ipas[|ipas| - 1], drawn[|ipas| - 1])
    ensures OneOutcomeEach(outcomes + [o], ipas, drawn)
  {
    var n := |ipas| - 1;
    var all := outcomes + [o];
    forall i | 0 <= i < |ipas|
      ensures all[i].ReportFailure? || all[i] == SaveOffer(ipas[i], drawn[i])
    {
      if i < n {
        assert all[i] == outcomes[i];
        assert ipas[..n][i] == ipas[i] && drawn[..n][i] == drawn[i];
      } else {
        assert all[i] == o;
      }
    }
  }

  /** The outcomes so far, after those that came before, extended by the next archive's. */
  lemma OutcomesExtended(before: seq<Effect>, earlier: seq<Effect>, o: Effect, ipas: seq<Path>, drawn: seq<Fresh>)
    requires |drawn| == |ipas| && ipas != []
    requires |earlier| >= |before| && earlier[..|before|] == before
    requires OneOutcomeEach(earlier[|before|..], ipas[..|ipas| - 1], drawn[..|ipas| - 1])
    requires o.ReportFailure? || o == SaveOffer(ipas[|ipas| - 1], drawn[|ipas| - 1])
    ensures var all := earlier + [o];
            |all| >= |before| && all[..|before|] == before && OneOutcomeEach(all[|before|..], ipas, drawn)
  {
    var all := earlier + [o];
    OneOutcomeEachExtended(earlier[|before|..], ipas, drawn, o);
    assert all[|before|..] == earlier[|before|..] + [o];
    assert all[..|before|] == earlier[..|before|];
  }

  /** The i-th outcome performInjection adds is the i-th archive's. */
  lemma {:induction false} BatchOutcomes(w: World, start: State, ipas: seq<Path>, drawn: seq<Fresh>)
    requires |drawn| == |ipas|
    ensures var all := Outcomes(Batch(w, start, ipas, drawn).trace);
            var before := Outcomes(start.trace);
            |all| >= |before| && all[..|before|] == before && OneOutcomeEach(all[|before|..], ipas, drawn)
    decreases |ipas|
  {
    var before := Outcomes(start.trace);
    if ipas != [] {
      var n := |ipas| - 1;
      BatchOutcomes(w, start, ipas[..n], drawn[..n]);
      var prior := Batch(w, start, ipas[..n], drawn[..n]);
      var p := ProcessSpec(w, prior.trace, prior.dylib, ipas[n], drawn[n]);
      ProcessOutcome(w, prior.trace, prior.dylib, ipas[n], drawn[n]);
      var o := if p.error.Some? then ReportFailure(p.error.value) else SaveOffer(ipas[n], drawn[n]);
      assert Outcomes(p.effects) == [o];
      var b := Batch(w, start, ipas, drawn);
      assert b.trace == prior.trace + p.effects;
      OutcomesAppend(prior.trace, p.effects);
      var earlier := Outcomes(prior.trace);
      var all := Outcomes(b.trace);
      assert all == earlier + [o];
      OutcomesExtended(before, earlier, o, ipas, drawn);
    } else {
      assert Batch(w, start, ipas, drawn) == start;
      assert before[|before|..] == [] && before[..|before|] == before;
    }
  }

  /** processIPA removes its temporary directory. */
  lemma ProcessRemovesTemp(w: World, trace: seq<Effect>, dylib: Path, ipa: Path, f: Fresh)
    ensures Remove(f.temp) in ProcessSpec(w, trace, dylib, ipa, f).effects
  {
    var a := AttemptSpec(w, trace, dylib, ipa, f);
    var report := if a.error.Some? then [ReportFailure(a.error.value)] else [];
    InAppend(Remove(f.temp), a.effects + report, [Remove(f.temp)]);
  }

  /** The temporary directory of the i-th archive is removed. */
  lemma {:induction false} BatchRemoves(w: World, start: State, ipas: seq<Path>, drawn: seq<Fresh>, i: nat)
    requires |drawn| == |ipas| && i < |ipas|
    ensures Remove(drawn[i].temp) in Batch(w, start, ipas, drawn).trace
    decreases |ipas|
  {
    var n := |ipas| - 1;
    var prior := Batch(w, start, ipas[..n], drawn[..n]);
    var p := ProcessSpec(w, prior.trace, prior.dylib, ipas[n], drawn[n]);
    assert Batch(w, start, ipas, drawn).trace == prior.trace + p.effects;
    if i < n {
      BatchRemoves(w, start, ipas[..n], drawn[..n], i);
      assert drawn[..n][i] == drawn[i];
      assert Remove(drawn[i].temp) in prior.trace;
      InAppend(Remove(drawn[i].temp), prior.trace, p.effects);
      assert Remove(drawn[i].temp) in Batch(w, start, ipas, drawn).trace;
    } else {
      ProcessRemovesTemp(w, prior.trace, prior.dylib, ipas[n], drawn[n]);
      assert Remove(drawn[n].temp) in p.effects;
      InAppend(Remove(drawn[n].temp), prior.trace, p.effects);
      assert i == n;
      assert Remove(drawn[i].temp) in Batch(w, start, ipas, drawn).trace;
    }
  }

  /** Two directories neither of which holds the other, as two drawn UUID directories are. */
  predicate Apart(a: Path, b: Path)
  {
    !IsUnder(a, b) && !IsUnder(b, a)
  }

  /** The preconditions shared by the two halves of the rebinding finding. */
  ghost predicate TwoArchiveDebScenario(w: World, deb: Path, ipas: seq<Path>, drawn: seq<Fresh>)
  {
    && |ipas| == 2 && |drawn| == 2
    && IsDeb(LastComponent(deb))
    && drawn[0].temp !in w.mkdirFails && drawn[1].temp !in w.mkdirFails
    && DebToDylib(w, deb, drawn[0].scratch, drawn[0].temp).result.Success?
    && Unzip in w.launchable
    // the second archive has a bundle with an executable name
    && PayloadEntries(w, ipas[1]).Some?
    && ChosenBundle(Names(PayloadEntries(w, ipas[1]).value)).Some?
    && ExecutableName(PayloadEntries(w, ipas[1]).value[ChosenBundle(Names(PayloadEntries(w, ipas[1]).value)).value]).Some?
  }

  /**
   * With a .deb source, the first archive rebinds dylibPath into its own
   * temporary directory, which is then removed; the second archive skips
   * extraction and its copy fails, because it copies from that removed
   * directory.
   */
  lemma DebRebindingLosesLibrary(w: World, deb: Path, ipas: seq<Path>, drawn: seq<Fresh>)
    requires TwoArchiveDebScenario(w, deb, ipas, drawn)
    ensures var first := ProcessSpec(w, [], deb, ipas[0], drawn[0]);
            var name := DebToDylib(w, deb, drawn[0].scratch, drawn[0].temp).result.value;
            var second := ProcessSpec(w, first.effects, first.dylib, ipas[1], drawn[1]);
            && first.dylib == drawn[0].temp + [name]
            && second.error.Some? && second.error.value.CannotCopy?
            && second.error.value.from == drawn[0].temp + [name]
            && Outcomes(Batch(w, State(deb, []), ipas, drawn).trace)
               == Outcomes(first.effects) + [ReportFailure(second.error.value)]
  {
    var first := ProcessSpec(w, [], deb, ipas[0], drawn[0]);
    var name := DebToDylib(w, deb, drawn[0].scratch, drawn[0].temp).result.value;
    var lib := drawn[0].temp + [name];
    DebDispatch(w, [], deb, ipas[0], drawn[0]);
    assert first.dylib == lib;
    ProcessRemovesTemp(w, [], deb, ipas[0], drawn[0]);
    assert lib[..|drawn[0].temp|] == drawn[0].temp;
    GoneMeansRemoved(first.effects, lib);
    assert Gone(first.effects, lib);
    SecondCopyFails(w, first.effects, lib, ipas[1], drawn[1]);
    var second := ProcessSpec(w, first.effects, lib, ipas[1], drawn[1]);
    ProcessOutcome(w, first.effects, lib, ipas[1], drawn[1]);
    assert Outcomes(second.effects) == [ReportFailure(second.error.value)];
    OutcomesAppend(first.effects, second.effects);
    BatchOfTwo(w, State(deb, []), ipas, drawn);
    assert [] + first.effects == first.effects;
    assert Batch(w, State(deb, []), ipas, drawn).trace == first.effects + second.effects;
  }

  /** Two archives are processed one after the other, the second from where the first left off. */
  lemma BatchOfTwo(w: World, start: State, ipas: seq<Path>, drawn: seq<Fresh>)
    requires |ipas| == 2 && |drawn| == 2
    ensures var first := ProcessSpec(w, start.trace, start.dylib, ipas[0], drawn[0]);
            var second := ProcessSpec(w, start.trace + first.effects, first.dylib, ipas[1], drawn[1]);
            Batch(w, start, ipas, drawn) == State(second.dylib, start.trace + first.effects + second.effects)
  {
    assert ipas[..1][..0] == [] && drawn[..1][..0] == [];
    assert ipas[..1][0] == ipas[0] && drawn[..1][0] == drawn[0];
    var first := ProcessSpec(w, start.trace, start.dylib, ipas[0], drawn[0]);
    assert Batch(w, start, ipas[..1], drawn[..1]) == State(first.dylib, start.trace + first.effects);
  }

  /**
   * A plain library that an earlier removal took cannot be copied into the
   * bundle: the pass fails with the copy error.
   */
  lemma SecondCopyFails(w: World, trace: seq<Effect>, lib: Path, ipa: Path, f: Fresh)
    requires !IsDeb(LastComponent(lib)) && f.temp !in w.mkdirFails && Unzip in w.launchable
    requires PayloadEntries(w, ipa).Some?
    requires ChosenBundle(Names(PayloadEntries(w, ipa).value)).Some?
    requires ExecutableName(PayloadEntries(w, ipa).value[ChosenBundle(Names(PayloadEntries(w, ipa).value)).value]).Some?
    requires Gone(trace, lib)
    ensures var p := ProcessSpec(w, trace, lib, ipa, f);
            p.dylib == lib && p.error.Some? && p.error.value.CannotCopy? && p.error.value.from == lib
  {
    var unzipped := [MakeDir(f.temp)] + [UnzipRun(ipa, f.temp)];
    GoneAppend(trace, unzipped, lib);
    assert AttemptSpec(w, trace, lib, ipa, f) == FromUnzip(w, trace, lib, ipa, f, [MakeDir(f.temp)]);
    var inj := InjectSpec(w, trace + unzipped, lib, f.temp + ["Payload"], PayloadEntries(w, ipa));
    assert inj.error.Some? && inj.error.value.CannotCopy? && inj.error.value.from == lib;
  }

  /**
   * processIPA with the extracted library kept for the current archive only:
   * dylibPath keeps naming the .deb, so every archive extracts it afresh
   * into its own temporary directory.
   */
  function ProcessCorrected(w: World, trace: seq<Effect>, dylib: Path, ipa: Path, f: Fresh): Pass
  {
    var p := ProcessSpec(w, trace, dylib, ipa, f);
    p.(dylib := dylib)
  }

  /** performInjection's loop over processIPA as corrected. */
  function BatchCorrected(w: World, start: State, ipas: seq<Path>, drawn: seq<Fresh>): State
    requires |drawn| == |ipas|
    decreases |ipas|
  {
    if ipas == [] then start
    else
      var n := |ipas| - 1;
      var before := BatchCorrected(w, start, ipas[..n], drawn[..n]);
      var p := ProcessCorrected(w, before.trace, before.dylib, ipas[n], drawn[n]);
      State(p.dylib, before.trace + p.effects)
  }

  /**
   * The corrected loop never rebinds the source: after any number of
   * archives dylibPath still names what was chosen, and each archive's pass
   * starts from it.
   */
  lemma {:induction false} BatchCorrectedKeepsSource(w: World, start: State, ipas: seq<Path>, drawn: seq<Fresh>)
    requires |drawn| == |ipas|
    ensures BatchCorrected(w, start, ipas, drawn).dylib == start.dylib
    ensures ipas != [] ==>
              var n := |ipas| - 1;
              var before := BatchCorrected(w, start, ipas[..n], drawn[..n]);
              BatchCorrected(w, start, ipas, drawn).trace
                == before.trace + ProcessSpec(w, before.trace, start.dylib, ipas[n], drawn[n]).effects
    decreases |ipas|
  {
    if ipas != [] {
      var n := |ipas| - 1;
      BatchCorrectedKeepsSource(w, start, ipas[..n], drawn[..n]);
    }
  }

  /**
   * In the corrected flow the second archive extracts the .deb again into its
   * own temporary directory and copies the library from there; when the
   * directories are apart, the extraction succeeds again and the bundle has
   * no entry of that name, the copy is made.
   */
  lemma DebExtractedPerArchive(w: World, deb: Path, ipas: seq<Path>, drawn: seq<Fresh>)
    requires TwoArchiveDebScenario(w, deb, ipas, drawn)
    requires DebToDylib(w, deb, drawn[1].scratch, drawn[1].temp).result.Success?
    requires Apart(drawn[0].temp, drawn[1].temp) && Apart(drawn[0].scratch, drawn[1].temp)
             && Apart(drawn[1].scratch, drawn[1].temp)
    requires var entries := PayloadEntries(w, ipas[1]).value;
             var name := DebToDylib(w, deb, drawn[1].scratch, drawn[1].temp).result.value;
             name !in Names(Children(entries[ChosenBundle(Names(entries)).value]))
    ensures var first := ProcessCorrected(w, [], deb, ipas[0], drawn[0]);
            var name := DebToDylib(w, deb, drawn[1].scratch, drawn[1].temp).result.value;
            var second := ProcessCorrected(w, first.effects, first.dylib, ipas[1], drawn[1]);
            var entries := PayloadEntries(w, ipas[1]).value;
            var app := entries[ChosenBundle(Names(entries)).value];
            && first.dylib == deb && second.dylib == deb
            && MakeDir(drawn[1].scratch) in second.effects
            && Copy(drawn[1].temp + [name], drawn[1].temp + ["Payload", app.name, name]) in second.effects
            && !(second.error.Some? && second.error.value.CannotCopy?)
  {
    var first := ProcessCorrected(w, [], deb, ipas[0], drawn[0]);
    LibraryKeptForSecond(w, deb, ipas, drawn);
    DebPassCopies(w, first.effects, deb, ipas[1], drawn[1]);
  }

  /**
   * When the second archive's directories are apart from the first's, the
   * library the second extraction leaves is still in place when it is copied.
   */
  lemma LibraryKeptForSecond(w: World, deb: Path, ipas: seq<Path>, drawn: seq<Fresh>)
    requires |ipas| == 2 && |drawn| == 2
    requires DebToDylib(w, deb, drawn[1].scratch, drawn[1].temp).result.Success?
    requires Apart(drawn[0].temp, drawn[1].temp) && Apart(drawn[0].scratch, drawn[1].temp)
             && Apart(drawn[1].scratch, drawn[1].temp)
    ensures var f := drawn[1];
            var x := DebToDylib(w, deb, f.scratch, f.temp);
            var first := ProcessSpec(w, [], deb, ipas[0], drawn[0]);
            !Gone(first.effects + ([MakeDir(f.temp)] + x.effects + [UnzipRun(ipas[1], f.temp)]), f.temp + [x.result.value])
  {
    var first := ProcessSpec(w, [], deb, ipas[0], drawn[0]);
    var f := drawn[1];
    var x := DebToDylib(w, deb, f.scratch, f.temp);
    var lib := f.temp + [x.result.value];
    ProcessRemovesOnly(w, [], deb, ipas[0], drawn[0]);
    NotGoneIfApart(first.effects, {drawn[0].temp, drawn[0].scratch}, f.temp, x.result.value);
    ScratchRemovedOnEveryPath(w, deb, f.scratch, f.temp);
    var done := [MakeDir(f.temp)] + x.effects;
    assert RemovesOnly(done, {f.scratch});
    NotGoneIfApart(done, {f.scratch}, f.temp, x.result.value);
    var unzip := [UnzipRun(ipas[1], f.temp)];
    assert !Gone(unzip, lib) by {
      assert unzip[1..] == [];
    }
    GoneAppend(done, unzip, lib);
    GoneAppend(first.effects, done + unzip, lib);
  }

  /** A path one step below `dir` is not taken by removals of directories apart from `dir`. */
  lemma NotGoneIfApart(trace: seq<Effect>, dirs: set<Path>, dir: Path, name: string)
    requires RemovesOnly(trace, dirs)
    requires forall d :: d in dirs ==> Apart(d, dir)
    ensures !Gone(trace, dir + [name])
  {
    GoneMeansRemoved(trace, dir + [name]);
    if Gone(trace, dir + [name]) {
      var e :| e in trace && e.Remove? && IsUnder(dir + [name], e.target);
      UnderExtended(dir + [name], dir, name, e.target);
    }
  }

  /**
   * A .deb source that extracts, into a bundle that can take the library
   * and with the library still in place: the pass extracts the package and
   * copies the library from its own temporary directory.
   */
  lemma DebPassCopies(w: World, trace: seq<Effect>, deb: Path, ipa: Path, f: Fresh)
    requires IsDeb(LastComponent(deb)) && f.temp !in w.mkdirFails && Unzip in w.launchable
    requires DebToDylib(w, deb, f.scratch, f.temp).result.Success?
    requires PayloadEntries(w, ipa).Some?
    requires ChosenBundle(Names(PayloadEntries(w, ipa).value)).Some?
    requires var entries := PayloadEntries(w, ipa).value;
             var app := entries[ChosenBundle(Names(entries)).value];
             var x := DebToDylib(w, deb, f.scratch, f.temp);
             && ExecutableName(app).Some?
             && x.result.value !in Names(Children(app))
             && !Gone(trace + ([MakeDir(f.temp)] + x.effects + [UnzipRun(ipa, f.temp)]), f.temp + [x.result.value])
    ensures var p := ProcessSpec(w, trace, deb, ipa, f);
            var name := DebToDylib(w, deb, f.scratch, f.temp).result.value;
            var entries := PayloadEntries(w, ipa).value;
            var app := entries[ChosenBundle(Names(entries)).value];
            && MakeDir(f.scratch) in p.effects
            && Copy(f.temp + [name], f.temp + ["Payload", app.name, name]) in p.effects
            && !(p.error.Some? && p.error.value.CannotCopy?)
  {
    var x := DebToDylib(w, deb, f.scratch, f.temp);
    var lib := f.temp + [x.result.value];
    var done := [MakeDir(f.temp)] + x.effects;
    assert AttemptSpec(w, trace, deb, ipa, f) == FromUnzip(w, trace, lib, ipa, f, done);
    var entries := PayloadEntries(w, ipa).value;
    var app := entries[ChosenBundle(Names(entries)).value];
    var copy := Copy(lib, f.temp + ["Payload", app.name, x.result.value]);
    var unzipped := done + [UnzipRun(ipa, f.temp)];
    var inj := InjectSpec(w, trace + unzipped, lib, f.temp + ["Payload"], PayloadEntries(w, ipa));
    assert LastComponent(lib) == x.result.value;
    InjectCopies(w, trace + unzipped, lib, f.temp + ["Payload"], PayloadEntries(w, ipa));
    PathJoin(f.temp, "Payload", app.name, x.result.value);
    InAppend(copy, unzipped, inj.effects);
    assert MakeDir(f.scratch) in unzipped by {
      assert MakeDir(f.scratch) in x.effects;
    }
    InAppend(MakeDir(f.scratch), unzipped, inj.effects);
    KeptFromUnzip(w, trace, lib, ipa, f, done, MakeDir(f.scratch));
    KeptFromUnzip(w, trace, lib, ipa, f, done, copy);
    KeptByProcess(w, trace, deb, ipa, f, MakeDir(f.scratch));
    KeptByProcess(w, trace, deb, ipa, f, copy);
  }

  /**
   * When Payload holds a bundle with an executable name that lacks an entry
   * of the library's name, and the library is still in place, injectDylib
   * copies it into the bundle and does not throw a copy error.
   */
  lemma InjectCopies(w: World, trace: seq<Effect>, lib: Path, payload: Path, listing: Option<seq<Node>>)
    requires listing.Some? && ChosenBundle(Names(listing.value)).Some?
    requires var app := listing.value[ChosenBundle(Names(listing.value)).value];
             ExecutableName(app).Some? && LastComponent(lib) !in Names(Children(app)) && !Gone(trace, lib)
    ensures var a := InjectSpec(w, trace, lib, payload, listing);
            var app := listing.value[ChosenBundle(Names(listing.value)).value];
            && Copy(lib, payload + [app.name, LastComponent(lib)]) in a.effects
            && !(a.error.Some? && a.error.value.CannotCopy?)
  {
    var i := ChosenBundle(Names(listing.value)).value;
    var app := listing.value[i];
    assert Names(listing.value)[i] == app.name;
    assert payload + [app.name] + [LastComponent(lib)] == payload + [app.name, LastComponent(lib)];
    assert InjectSpec(w, trace, lib, payload, listing).effects[0] == Copy(lib, payload + [app.name, LastComponent(lib)]);
  }

  lemma PathJoin(dir: Path, a: string, b: string, c: string)
    ensures dir + [a] + [b, c] == dir + [a, b, c]
  {
  }

  /** An effect of the steps up to and including injectDylib is an effect of the do-block from the unzip on. */
  lemma KeptFromUnzip(w: World, trace: seq<Effect>, lib: Path, ipa: Path, f: Fresh, done: seq<Effect>, e: Effect)
    requires Unzip in w.launchable
    requires var unzipped := done + [UnzipRun(ipa, f.temp)];
             e in unzipped + InjectSpec(w, trace + unzipped, lib, f.temp + ["Payload"], PayloadEntries(w, ipa)).effects
    ensures e in FromUnzip(w, trace, lib, ipa, f, done).effects
  {
    var unzipped := done + [UnzipRun(ipa, f.temp)];
    var injected := unzipped + InjectSpec(w, trace + unzipped, lib, f.temp + ["Payload"], PayloadEntries(w, ipa)).effects;
    InAppend(e, injected, [ZipRun(f.temp), SaveOffer(ipa, f)]);
  }

  /** An effect of processIPA's do-block is an effect of processIPA. */
  lemma KeptByProcess(w: World, trace: seq<Effect>, dylib: Path, ipa: Path, f: Fresh, e: Effect)
    requires e in AttemptSpec(w, trace, dylib, ipa, f).effects
    ensures e in ProcessSpec(w, trace, dylib, ipa, f).effects
  {
    var a := AttemptSpec(w, trace, dylib, ipa, f);
    var report := if a.error.Some? then [ReportFailure(a.error.value)] else [];
    InAppend(e, a.effects, report);
    InAppend(e, a.effects + report, [Remove(f.temp)]);
  }

  /** The directories removed among some effects are all in `dirs`. */
  predicate RemovesOnly(effects: seq<Effect>, dirs: set<Path>)
  {
    forall e :: e in effects && e.Remove? ==> e.target in dirs
  }

  lemma RemovesOnlyAppend(a: seq<Effect>, b: seq<Effect>, dirs: set<Path>)
    requires RemovesOnly(a, dirs) && RemovesOnly(b, dirs)
    ensures RemovesOnly(a + b, dirs)
  {
  }

  /** From the unzip on, processIPA removes nothing. */
  lemma FromUnzipRemovesOnly(w: World, trace: seq<Effect>, lib: Path, ipa: Path, f: Fresh, done: seq<Effect>, dirs: set<Path>)
    requires RemovesOnly(done, dirs)
    ensures RemovesOnly(FromUnzip(w, trace, lib, ipa, f, done).effects, dirs)
  {
    if Unzip in w.launchable {
      var unzipped := done + [UnzipRun(ipa, f.temp)];
      var inj := InjectSpec(w, trace + unzipped, lib, f.temp + ["Payload"], PayloadEntries(w, ipa));
      InjectRunsOnlyOptool(w, trace + unzipped, lib, f.temp + ["Payload"], PayloadEntries(w, ipa));
      assert RemovesOnly(inj.effects, dirs);
      RemovesOnlyAppend(unzipped, inj.effects, dirs);
      RemovesOnlyAppend(unzipped + inj.effects, [ZipRun(f.temp), SaveOffer(ipa, f)], dirs);
    }
  }

  /** processIPA removes only its own temporary directory and the extractor's scratch directory. */
  lemma ProcessRemovesOnly(w: World, trace: seq<Effect>, dylib: Path, ipa: Path, f: Fresh)
    ensures RemovesOnly(ProcessSpec(w, trace, dylib, ipa, f).effects, {f.temp, f.scratch})
  {
    var dirs := {f.temp, f.scratch};
    var a := AttemptSpec(w, trace, dylib, ipa, f);
    if f.temp !in w.mkdirFails {
      if IsDeb(LastComponent(dylib)) {
        var x := DebToDylib(w, dylib, f.scratch, f.temp);
        ScratchRemovedOnEveryPath(w, dylib, f.scratch, f.temp);
        var done := [MakeDir(f.temp)] + x.effects;
        assert RemovesOnly(done, dirs);
        if x.result.Success? {
          assert a == FromUnzip(w, trace, f.temp + [x.result.value], ipa, f, done);
          FromUnzipRemovesOnly(w, trace, f.temp + [x.result.value], ipa, f, done, dirs);
        } else {
          assert a.effects == done;
        }
      } else {
        assert a == FromUnzip(w, trace, dylib, ipa, f, [MakeDir(f.temp)]);
        FromUnzipRemovesOnly(w, trace, dylib, ipa, f, [MakeDir(f.temp)], dirs);
      }
    } else {
      assert a.effects == [];
    }
    var report := if a.error.Some? then [ReportFailure(a.error.value)] else [];
    assert ProcessSpec(w, trace, dylib, ipa, f).effects == a.effects + report + [Remove(f.temp)];
    RemovesOnlyAppend(a.effects, report, dirs);
    RemovesOnlyAppend(a.effects + report, [Remove(f.temp)], dirs);
  }

  /** A path one step below `dir` lies under `t` only when `dir` does, or `t` lies under `dir`. */
  lemma UnderExtended(p: Path, dir: Path, name: string, t: Path)
    requires p == dir + [name] && IsUnder(p, t)
    ensures IsUnder(dir, t) || IsUnder(t, dir)
  {
    if |t| <= |dir| {
      assert p[..|t|] == dir[..|t|];
    } else {
      assert t == p;
      assert t[..|dir|] == dir;
    }
  }

  /**
   * ContentView's state: the library or package chosen, the archives chosen,
   * and everything that has happened, in order.
   */
  class Session {
    var dylibPath: Option<Path>
    var ipaPaths: seq<Path>
    var trace: seq<Effect>

    constructor (dylib: Option<Path>, ipas: seq<Path>)
      ensures dylibPath == dylib && ipaPaths == ipas && trace == []
    {
      dylibPath := dylib;
      ipaPaths := ipas;
      trace := [];
    }

    /** canInject: the Inject button is enabled. */
    predicate CanInject()
      reads this
    {
      dylibPath.Some? && ipaPaths != []
    }

    /** The Inject button is enabled only when performInjection can unwrap dylibPath for every archive. */
    lemma CanInjectUnwraps()
      ensures CanInject() ==> ipaPaths != [] && (ipaPaths != [] ==> dylibPath.Some?)
      ensures !CanInject() ==> dylibPath.None? || ipaPaths == []
    {
    }

    /** injectDylib, choosing the bundle by branch-assigning `appIndex` as the Swift code does. */
    method InjectDylib(w: World, payload: Path, listing: Option<seq<Node>>) returns (error: Option<Error>)
      requires dylibPath.Some?
      modifies this
      ensures dylibPath == old(dylibPath) && ipaPaths == old(ipaPaths)
      ensures var a := InjectSpec(w, old(trace), dylibPath.value, payload, listing);
              error == a.error && trace == old(trace) + a.effects
    {
      var lib := dylibPath.value;
      if listing.None? {
        return Some(CannotList(payload));
      }
      var contents := Names(listing.value);
      var appIndex: Option<nat> := None;
      if |contents| == 1 {
        if HasSuffix(contents[0], ".app") {
          appIndex := Some(0);
        }
      } else if |contents| == 2 {
        if HasSuffix(contents[0], ".app") {
          appIndex := Some(0);
        } else if HasSuffix(contents[1], ".app") {
          appIndex := Some(1);
        }
      }
      assert appIndex == ChosenBundle(contents);
      if appIndex.None? {
        trace := trace + [Warn(NoBundleFound)];
        return None;
      }
      var app := listing.value[appIndex.value];
      var appPath := payload + [app.name];
      var executable := ExecutableName(app);
      if executable.None? {
        trace := trace + [Warn(NoExecutableName)];
        return None;
      }
      var name := LastComponent(lib);
      var to := appPath + [name];
      if Gone(trace, lib) || name in Names(Children(app)) {
        return Some(CannotCopy(lib, to));
      }
      trace := trace + [Copy(lib, to)];
      if Optool !in w.launchable {
        return Some(CannotLaunch(Optool));
      }
      var run := Run(Optool, OptoolArgs(name, appPath + [executable.value]), None);
      trace := trace + [run];
      AppendAssoc(old(trace), [Copy(lib, to)], [run]);
      return None;
    }

    /** processIPA's do-block: every step up to the save panel, stopping at the first error. */
    method RunSteps(w: World, ipa: Path, f: Fresh) returns (error: Option<Error>)
      requires dylibPath.Some?
      modifies this
      ensures var a := AttemptSpec(w, old(trace), old(dylibPath).value, ipa, f);
              dylibPath == Some(a.dylib) && error == a.error && trace == old(trace) + a.effects
      ensures ipaPaths == old(ipaPaths)
    {
      ghost var start := trace;
      ghost var source := dylibPath.value;
      if f.temp in w.mkdirFails {
        return Some(CannotCreate(f.temp));
      }
      trace := trace + [MakeDir(f.temp)];
      ghost var done := [MakeDir(f.temp)];
      if IsDeb(LastComponent(dylibPath.value)) {
        var x := DebToDylib(w, dylibPath.value, f.scratch, f.temp);
        trace := trace + x.effects;
        AppendAssoc(start, done, x.effects);
        done := done + x.effects;
        if x.result.Failure? {
          assert AttemptSpec(w, start, source, ipa, f) == Pass(source, Some(x.result.error), done);
          return Some(x.result.error);
        }
        dylibPath := Some(f.temp + [x.result.value]);
      }
      assert AttemptSpec(w, start, source, ipa, f) == FromUnzip(w, start, dylibPath.value, ipa, f, done);
      error := UnzipAndInject(w, ipa, f, start, done);
    }

    /** The steps of processIPA's do-block from the unzip on, once `done` has happened since `start`. */
    method UnzipAndInject(w: World, ipa: Path, f: Fresh, ghost start: seq<Effect>, ghost done: seq<Effect>)
      returns (error: Option<Error>)
      requires dylibPath.Some? && trace == start + done
      modifies this
      ensures var a := FromUnzip(w, start, old(dylibPath).value, ipa, f, done);
              dylibPath == Some(a.dylib) && error == a.error && trace == start + a.effects
      ensures ipaPaths == old(ipaPaths)
    {
      ghost var lib := dylibPath.value;
      ghost var a := FromUnzip(w, start, lib, ipa, f, done);
      if Unzip !in w.launchable {
        assert a == Pass(lib, Some(CannotLaunch(Unzip)), done);
        return Some(CannotLaunch(Unzip));
      }
      ghost var unzipped := done + [UnzipRun(ipa, f.temp)];
      ghost var inj := InjectSpec(w, start + unzipped, lib, f.temp + ["Payload"], PayloadEntries(w, ipa));
      trace := trace + [UnzipRun(ipa, f.temp)];
      AppendAssoc(start, done, [UnzipRun(ipa, f.temp)]);
      error := InjectDylib(w, f.temp + ["Payload"], PayloadEntries(w, ipa));
      AppendAssoc(start, unzipped, inj.effects);
      ghost var injected := unzipped + inj.effects;
      if error.Some? {
        assert a == Pass(lib, inj.error, injected);
        return;
      }
      if Zip !in w.launchable {
        assert a == Pass(lib, Some(CannotLaunch(Zip)), injected);
        return Some(CannotLaunch(Zip));
      }
      assert a == Pass(lib, None, injected + [ZipRun(f.temp), SaveOffer(ipa, f)]);
      trace := trace + [ZipRun(f.temp), SaveOffer(ipa, f)];
      AppendAssoc(start, injected, [ZipRun(f.temp), SaveOffer(ipa, f)]);
      return None;
    }

    /** processIPA: run the steps, print the error caught, if any, and remove the temporary directory. */
    method ProcessIpa(w: World, ipa: Path, f: Fresh)
      requires dylibPath.Some?
      modifies this
      ensures var p := ProcessSpec(w, old(trace), old(dylibPath).value, ipa, f);
              dylibPath == Some(p.dylib) && trace == old(trace) + p.effects
      ensures ipaPaths == old(ipaPaths)
    {
      var error := RunSteps(w, ipa, f);
      if error.Some? {
        trace := trace + [ReportFailure(error.value)];
      }
      trace := trace + [Remove(f.temp)];
    }

    /** performInjection: processIPA for every chosen archive, in order. */
    method PerformInjection(w: World, drawn: seq<Fresh>)
      requires |drawn| == |ipaPaths|
      requires ipaPaths != [] ==> dylibPath.Some?
      modifies this
      ensures ipaPaths == old(ipaPaths)
      ensures old(dylibPath).Some? ==>
                var b := Batch(w, State(old(dylibPath).value, old(trace)), ipaPaths, drawn);
                dylibPath == Some(b.dylib) && trace == b.trace
      ensures old(dylibPath).None? ==> dylibPath == old(dylibPath) && trace == old(trace)
    {
      if ipaPaths == [] {
        return;
      }
      ghost var start := State(dylibPath.value, trace);
      var i := 0;
      while i < |ipaPaths|
        invariant 0 <= i <= |ipaPaths| && ipaPaths == old(ipaPaths)
        invariant dylibPath.Some?
        invariant State(dylibPath.value, trace) == Batch(w, start, ipaPaths[..i], drawn[..i])
      {
        BatchStep(w, start, ipaPaths, drawn, i);
        ProcessIpa(w, ipaPaths[i], drawn[i]);
        i := i + 1;
      }
      assert ipaPaths[..i] == ipaPaths && drawn[..i] == drawn;
    }
  }
}
