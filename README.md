# InjectiPA, modelled in Dafny

InjectiPA is a macOS tool that repackages an iOS application archive (an
`.ipa`) so that the application loads one more dynamic library at launch.
The library is given either as a `.dylib` or inside a Debian package (`.deb`).
This project models the decision logic under the tool's UI and proves
properties of it:

- how `parseIPA` inspects an archive: which bundle of `Payload` it reads, its
  display name, bundle identifier, version string, icon and the libraries the
  bundle already carries (`findDylibs`), and `getExecutableName`;
- how `DebExtractor.debToDylib` unpacks a package with `ar` and `tar` and
  copies out the first library it finds, with one error per stage and the
  scratch directory removed on every path;
- how `ContentView` injects: `canInject`, the bundle `injectDylib` chooses
  from the `Payload` listing, the exact `optool` command line, the name
  offered for the rebuilt archive (`generateNewIpaName`), and the control
  flow of `processIPA` and `performInjection` over a batch of archives.

The file system is a tree of named entries (`FileTree.Node`). Files carry a
size and, for `Info.plist`, the already-decoded property list
(`Plist.Value`). `FileManager.enumerator` is a pre-order walk
(`FileTree.Walk`). Everything outside the Swift code is a `System.World` value:
- what `unzip` leaves for each archive;
- what `ar` and `tar` make of each package;
- which tools can be launched;
- which directories cannot be created.

What `debToDylib`, `processIPA`, `injectDylib` and `performInjection` do to
the file system and the console is recorded, in order, as a trace of
`System.Effect`s:
- directories made and removed;
- tools run, with their arguments;
- copies;
- the save panel offered;
- failures printed: the error `processIPA`'s catch block prints
  (`ReportFailure`), and the two errors `injectDylib` prints before it
  returns without throwing (`Warn`).

A copy fails when its source lies under a directory an earlier effect
removed (`System.Gone`), or when the bundle already holds an entry of that
name.

Modules, leaves first:
- `Wrappers`: `Option` and `Result`.
- `Paths`: components, `pathExtension`, `lowercased`, `Int` interpolation.
- `Plist`: typed property-list lookups.
- `FileTree`: directory listings and the enumerator.
- `Search`: `first(where:)`.
- `System`: tools, world, errors, effects.
- `Inspector`: `parseIPA`, `findDylibs`, `getExecutableName`.
- `DebExtractor`: `debToDylib`.
- `Content`: `ContentView`'s injection flow. Its class `Session` holds the
  view's state (`dylibPath`, `ipaPaths`) and the trace, and its methods
  update them as the Swift code does.

Where the Swift code works step by step, the model does too:
- the largest-PNG loop (`Inspector.ScanLargestPng`);
- the two `findDylibs` loops (`Inspector.CollectDylibs`);
- the `findAndMoveDylib` loop (`DebExtractor.FindAndMoveDylib`);
- `injectDylib`'s branch-assigned bundle choice, `processIPA` and the
  `performInjection` loop (`Content.Session`).

Each of these is proved against a specification function, and the
properties are proved about that function.

## Model

| member | source | states |
|---|---|---|
| Inspector.FirstString | InjectiPA/Utils.swift:44-48 | the value found is the first of the keys that holds a string; none is found only when no key holds one |
| Inspector.DisplayName | InjectiPA/Utils.swift:38-48 | name is CFBundleDisplayName when it is a string, else CFBundleName, else the bundle directory's name without its extension |
| Inspector.BundleId | InjectiPA/Utils.swift:49 | bundleID is CFBundleIdentifier when it is a string, and "" otherwise |
| Inspector.Version | InjectiPA/Utils.swift:50-55 | "<short> (<build>)" when both version strings are present, the build alone when only it is, "" when the build is missing (even with a short version) |
| Inspector.VersionExamples | InjectiPA/Utils.swift:50-55 | the three cases of the version rule on concrete dictionaries, including a short version without a build giving "" |
| Inspector.DeclaredIconEntry | InjectiPA/Utils.swift:57-64 | a declared icon entry exists only when Info.plist decodes and declares an icon; it is the first top-level bundle entry whose name contains the last declared icon name and whose lowercased extension is png, and there is none only when no top-level entry is such a file |
| Inspector.LargestPng | InjectiPA/Utils.swift:74-86 | the fallback choice is a position within the scanned entries |
| Inspector.LargestPngIsFirstMaximum | InjectiPA/Utils.swift:74-86 | the fallback scan chooses the first PNG of strictly maximal positive size; it chooses none exactly when every PNG met is empty or there is none |
| Inspector.ScanLargestPng | InjectiPA/Utils.swift:74-86 | the bestSize/bestImage loop ends on the entry the fallback rule chooses |
| Inspector.Icon | InjectiPA/Utils.swift:57-86 | the path parseIPA loads the icon from, when there is one, ends in a name whose lowercased extension is png |
| Inspector.IconIsDeclaredOrLargest | InjectiPA/Utils.swift:57-86 | the icon is the declared icon file when there is one, else the first PNG of maximal positive size in the walk; there is none exactly when neither exists |
| Inspector.FallbackIcon | InjectiPA/Utils.swift:73-86 | without a declared icon file the icon is a PNG of the walk of maximal positive size, first among equals, and none only when no PNG has a positive size |
| Inspector.DylibNamesMembers | InjectiPA/Utils.swift:100-106 | one pass of findDylibs keeps exactly the names whose lowercased extension is dylib |
| Inspector.DylibNamesOne | InjectiPA/Utils.swift:102-104 | a single scanned name is appended exactly when its lowercased extension is dylib |
| Inspector.DylibNamesAppend | InjectiPA/Utils.swift:100-113 | the scan appends once per match, in scan order, and removes no duplicate: scanning two runs of names lists the first run's matches followed by the second's |
| Inspector.WalkNames | InjectiPA/Utils.swift:101-103 | the names the enumerator reports are the entries' last path components, one per entry, in order |
| Inspector.CollectDylibs | InjectiPA/Utils.swift:101-105 | the loop appends the dylib names in scan order, as DylibNames defines |
| Inspector.FindDylibs | InjectiPA/Utils.swift:97-117 | every name findDylibs reports has the lowercased extension dylib |
| Inspector.ScanDylibs | InjectiPA/Utils.swift:97-117 | findDylibs returns the recursive scan's dylib names followed by those listed directly in Frameworks |
| Inspector.DylibMetByWalk | InjectiPA/Utils.swift:100-106 | every dylib the enumerator meets is reported by the first pass |
| Inspector.FrameworksDylibWalked | InjectiPA/Utils.swift:100-106 | a dylib directly inside Frameworks is met by the recursive scan of the bundle |
| Inspector.FrameworksDylibListed | InjectiPA/Utils.swift:107-115 | a dylib directly inside Frameworks is reported by the Frameworks pass |
| Inspector.FrameworksDylibListedTwice | InjectiPA/Utils.swift:97-117 | with no deduplication, a dylib directly inside Frameworks appears at least twice in findDylibs' result |
| Inspector.ExecutableName | InjectiPA/Utils.swift:165-177 | CFBundleExecutable is returned exactly when Info.plist reads, decodes to a dictionary and holds that key as a string, and then it is that string |
| Inspector.LocateApp | InjectiPA/Utils.swift:24-34 | no bundle exactly when the temporary directory cannot be made, unzip cannot be launched, Payload does not list, or no Payload entry has the extension "app"; otherwise the first such entry |
| Inspector.ParseIpa | InjectiPA/Utils.swift:23-95 | parseIPA returns nil exactly when no bundle is located; otherwise it reports the archive's URL, the bundle's display name, bundle identifier, version string and icon, and no library on the declared-icon path |
| Inspector.ParseIpaCorrected | InjectiPA/Utils.swift:64-68 | with findDylibs run before the temporary tree is removed, both icon paths report findDylibs' result, with the same URL, name, bundle identifier, version and icon as parseIPA |
| Inspector.DeclaredIconHidesDylibs | InjectiPA/Utils.swift:64-68 | a bundle with a declared icon file and a dylib in Frameworks: parseIPA reports no library, the corrected parseIPA reports that dylib |
| DebExtractor.MoveFirstDylib | InjectiPA/Utils.swift:249-268 | findAndMoveDylib returns a dylib's name and makes one copy, into the destination under that name; it throws dylibNotFound, with nothing done, exactly when the scan holds no dylib |
| DebExtractor.FindAndMoveDylib | InjectiPA/Utils.swift:249-268 | the enumerator loop returns the name of the first dylib in scan order and copies it to the destination under that name; it throws dylibNotFound exactly when the scan holds no dylib |
| DebExtractor.Stages | InjectiPA/Utils.swift:193-205 | the three stages only run tools and copy, and a name they return is a dylib's |
| DebExtractor.DebToDylib | InjectiPA/Utils.swift:188-211 | a name debToDylib returns is a dylib's; whatever it does starts by making the scratch directory and ends by removing it |
| DebExtractor.StageErrors | InjectiPA/Utils.swift:188-247 | each stage fails with its own error exactly under its own condition: directory creation, ar launch, ar exit status, no data.tar member, tar launch, tar exit status, no dylib; and the extraction succeeds exactly when every stage does and the unpacked tree holds a dylib |
| DebExtractor.TarUnpacksFirstDataMember | InjectiPA/Utils.swift:227-247 | tar is only ever run on the first package member whose name starts with "data.tar" |
| DebExtractor.ScratchRemovedOnEveryPath | InjectiPA/Utils.swift:188-211 | once the scratch directory exists it is made first and removed last on success and on every error, and nothing else is removed; when it cannot be made nothing happens |
| DebExtractor.ExtractionQuiet | InjectiPA/Utils.swift:188-211 | debToDylib neither offers a save nor reports a failure itself |
| DebExtractor.SuccessCopiesFirstDylib | InjectiPA/Utils.swift:249-262 | on success the returned name is a dylib's, and the first dylib of the unpacked tree, which lies in the scratch directory, is copied to the destination under that name just before the scratch directory goes |
| DebExtractor.SuccessIsMove | InjectiPA/Utils.swift:198-205 | a successful extraction returns findAndMoveDylib's name and ends with its copy, then the removal |
| Search.FirstWhere | InjectiPA/Utils.swift:31 | the position found lies within the sequence |
| Search.FirstWhereIsFirst | InjectiPA/Utils.swift:31 | first(where:) finds the first position that passes the test, and none only when no position does |
| Search.FirstWhereFinds | InjectiPA/Utils.swift:254-262 | a position that passes the test with none before it is the one first(where:) finds |
| FileTree.ChildNamedFinds | InjectiPA/Utils.swift:37 | the entry an appended path component names is a listed entry of that name, and there is none only when no entry has that name |
| FileTree.WalkMeetsEntry | InjectiPA/Utils.swift:76-77 | the enumerator meets every entry of the directory itself, at its own path |
| FileTree.WalkEntersDirectory | InjectiPA/Utils.swift:100-101 | the enumerator meets everything below each subdirectory |
| FileTree.WalkPaths | InjectiPA/Utils.swift:76-77 | every item the enumerator meets lies strictly below the directory and is reported under its own name |
| Paths.LowerAt | InjectiPA/Utils.swift:78 | lowercasing maps each character to its lowercase, in place |
| Paths.ExtensionTestsIgnoreCase | InjectiPA/Utils.swift:102 | a name `stem.ext` with a dot-free `ext` counts as a dylib, png or deb exactly when `ext` lowercases to that extension |
| Paths.UpperCaseDylib | InjectiPA/Utils.swift:111 | a name ending in ".DYLIB" is listed as a dylib |
| Paths.AfterLastDotIsLastDot | InjectiPA/Utils.swift:78 | the extension text follows the name's last '.' and holds no '.'; with no text found the name holds no '.' |
| Paths.StemExtensionSplit | InjectiPA/Utils.swift:38 | deletingPathExtension and pathExtension split a name at its last dot and nowhere else |
| Paths.ExtensionOfJoin | InjectiPA/Content.swift:227 | a name made of a stem, '.' and a dot-free extension has exactly that extension and that stem |
| Paths.LowerExtension | InjectiPA/Utils.swift:102 | comparing the lowercased extension is comparing the extension of the lowercased name |
| Paths.DigitsAreDigits | InjectiPA/Content.swift:224-227 | a non-negative Int interpolates to a non-empty run of decimal digits |
| Plist.StringsAt | InjectiPA/Utils.swift:60 | a string-array lookup succeeds exactly on an array whose every element is a string, and gives those strings, in order |
| System.GoneMeansRemoved | InjectiPA/Content.swift:179 | a path is gone exactly when an earlier removal took a directory holding it |
| System.GoneAppend | InjectiPA/Content.swift:179 | a path is gone after two runs of effects exactly when either run removed it |
| System.OutcomesAppend | InjectiPA/Content.swift:139-141 | the outcomes of consecutive effects are the outcomes of each, in order |
| System.QuietHasNoOutcome | InjectiPA/Content.swift:175-177 | effects that offer no save and print no failure have no outcome |
| Content.ChosenBundle | InjectiPA/Content.swift:187-198 | the bundle chosen is a listed entry whose name ends in ".app" |
| Content.ChosenBundleRule | InjectiPA/Content.swift:187-198 | a bundle is chosen exactly when Payload lists one or two entries and one of them ends in ".app"; the second is chosen only when there are two and the first does not end in ".app" |
| Content.ChosenBundleIgnoresOrder | InjectiPA/Content.swift:192-197 | of two entries exactly one of which ends in ".app", that one is chosen in either listing order |
| Content.BundleSuffixIsAppExtension | InjectiPA/Content.swift:189-196 | a name injectDylib accepts, with something before ".app", has the extension "app" that parseIPA requires |
| Content.HiddenBundleNameDiffers | InjectiPA/Content.swift:189 | the name ".app" is chosen by injectDylib but has no extension for parseIPA |
| Content.GenerateNewIpaName | InjectiPA/Content.swift:219-229 | the offered name starts with the source's name without its extension and '_', and ends in ".ipa" |
| Content.NewIpaNameParts | InjectiPA/Content.swift:219-229 | the offered name has the extension "ipa" and the stem "<source stem>_<timestamp>", and a timestamp at or after 1970 shows as decimal digits only |
| Content.InjectSpec | InjectiPA/Content.swift:183-217 | injectDylib throws only what contentsOfDirectory, copyItem and the launch of optool throw, and has at most two effects |
| Content.InjectOutcomes | InjectiPA/Content.swift:183-207 | an unlistable Payload throws with nothing done; with no bundle, or no executable name, injectDylib prints that error, does nothing else and throws nothing; it never prints a caught failure or offers a save |
| Content.InjectCopiesThenRuns | InjectiPA/Content.swift:209-216 | when optool runs, the library was first copied into the chosen bundle, a ".app" entry with an executable name, under the library's own name; optool gets install, -p, "@executable_path/<library name>", -t and that executable's path; nothing is thrown |
| Content.InjectInstalls | InjectiPA/Content.swift:183-216 | with a bundle chosen, its executable named, the library in place, no entry of its name in the bundle and optool launchable, injectDylib copies the library into the bundle, runs optool with the install arguments for the executable, and throws nothing |
| Content.InjectCopies | InjectiPA/Content.swift:199-209 | a bundle with an executable name and no entry of the library's name, with the library still in place, receives the copy and no copy error is thrown |
| Content.InjectRunsOnlyOptool | InjectiPA/Content.swift:199-216 | injectDylib copies, launches optool and prints its two errors, and does nothing else |
| Content.Session.InjectDylib | InjectiPA/Content.swift:183-217 | the branch-assigned bundle choice, the error prints, the copy and the optool run leave dylibPath alone and add exactly injectDylib's effects to the trace |
| Content.FromUnzip | InjectiPA/Content.swift:159-174 | from the unzip on dylibPath is untouched and the effects so far are kept as they are |
| Content.FromUnzipShape | InjectiPA/Content.swift:159-174 | from the unzip on nothing is reported before the save panel, and the save panel is offered last exactly when nothing is thrown |
| Content.AttemptSpec | InjectiPA/Content.swift:149-157 | the do-block rebinds dylibPath only for a source with lowercased extension "deb", and only to an entry directly inside the archive's temporary directory |
| Content.NoBundleStillOffered | InjectiPA/Content.swift:199-202 | an archive whose Payload holds no bundle is not an error: the missing bundle is printed, the unchanged tree is zipped and offered for saving, and the temporary directory removed |
| Content.ProcessSpec | InjectiPA/Content.swift:146-181 | processIPA ends by removing its temporary directory, and a caught error is printed just before that |
| Content.Batch | InjectiPA/Content.swift:139-141 | performInjection only appends to what has happened |
| Content.AttemptShape | InjectiPA/Content.swift:149-174 | the do-block reports nothing but, on success, the save panel offered last, and starts by making the temporary directory when it can |
| Content.ProcessOutcome | InjectiPA/Content.swift:146-181 | errors are caught and not rethrown: each archive has exactly one outcome, its save panel or the failure the catch block prints, and its temporary directory is removed last; injectDylib's own error prints are not counted as outcomes |
| Content.DebDispatch | InjectiPA/Content.swift:153-157 | only a source with lowercased extension "deb" is extracted; any other is not rebound and launches only unzip, optool and zip; a .deb that extracts rebinds dylibPath to the extracted dylib in the temporary directory |
| Content.PlainPassInstalls | InjectiPA/Content.swift:146-216 | a plain library and a ready archive give exactly: make the temporary directory, unzip, copy the library into the bundle, run optool, zip, offer the save, remove the directory; no error, and dylibPath is unchanged |
| Content.PlainSourceNotExtracted | InjectiPA/Content.swift:153-157 | a source that is not a .deb is neither rebound nor run through ar or tar |
| Content.BatchAttemptsEvery | InjectiPA/Content.swift:139-141 | performInjection only appends to the trace, adds one outcome per archive in order, each a failure or that archive's save panel, and removes every archive's temporary directory |
| Content.BatchOutcomes | InjectiPA/Content.swift:139-141 | the i-th outcome performInjection adds belongs to the i-th archive |
| Content.ProcessRemovesTemp | InjectiPA/Content.swift:178-180 | processIPA removes its temporary directory whatever happened |
| Content.BatchRemoves | InjectiPA/Content.swift:139-141 | the temporary directory of every archive in the batch is removed |
| Content.ProcessRemovesOnly | InjectiPA/Content.swift:146-181 | processIPA removes only its own temporary directory and the extractor's scratch directory |
| Content.DebRebindingLosesLibrary | InjectiPA/Content.swift:154-156 | with a .deb source and two archives, the first rebinds dylibPath into its own temporary directory, which is then removed, and the second archive's copy fails from that removed path |
| Content.BatchOfTwo | InjectiPA/Content.swift:139-141 | a batch of two archives is the second processIPA run from where the first left off |
| Content.SecondCopyFails | InjectiPA/Content.swift:209 | a plain library that an earlier removal took cannot be copied into the bundle, so the pass fails with the copy error |
| Content.BatchCorrectedKeepsSource | InjectiPA/Content.swift:154-156 | in the corrected loop dylibPath keeps naming the chosen source, and every archive's pass starts from it |
| Content.DebExtractedPerArchive | InjectiPA/Content.swift:154-156 | in the corrected flow the second archive extracts the .deb afresh into its own directories and copies the library from there without a copy error |
| Content.LibraryKeptForSecond | InjectiPA/Content.swift:154-161 | when the archives' directories are apart, the library the second extraction leaves is still in place at the unzip |
| Content.NotGoneIfApart | InjectiPA/Content.swift:179 | removing directories apart from a directory leaves the entries of that directory in place |
| Content.DebPassCopies | InjectiPA/Content.swift:153-166 | a .deb that extracts, into a bundle that can take the library, is unpacked in the scratch directory and copied into the bundle from the archive's temporary directory |
| Content.Session.CanInjectUnwraps | InjectiPA/Content.swift:21-23 | the Inject button is enabled only with a library chosen and at least one archive, which is what performInjection's force-unwrap of dylibPath needs |
| Content.Session.constructor | InjectiPA/Content.swift:12-13 | the view starts with the chosen source and archives and nothing done |
| Content.Session.RunSteps | InjectiPA/Content.swift:149-174 | the do-block's steps, stopping at the first error, rebind dylibPath and extend the trace as the processIPA specification says |
| Content.Session.UnzipAndInject | InjectiPA/Content.swift:159-174 | unzip, inject, zip and the save panel, stopping at the first error, extend the trace as the specification says |
| Content.Session.ProcessIpa | InjectiPA/Content.swift:146-181 | processIPA updates dylibPath and the trace as ProcessSpec says: the do-block, the failure printed if one is caught, then the removal |
| Content.Session.PerformInjection | InjectiPA/Content.swift:135-144 | the loop processes every archive in order from the current state, as Batch says, and leaves the chosen archives unchanged |

## Behaviour of the code worth knowing

- No bundle is not an error. When Payload lists no entry ending in ".app",
  or more than two entries, `injectDylib` prints an error and returns
  normally (Content.swift:199-202). `processIPA` then zips the unchanged
  tree and offers it for saving (Content.swift:168-174;
  `Content.NoBundleStillOffered`). A bundle without an executable name is
  handled the same way (Content.swift:204-207; `Content.InjectOutcomes`).
- Of two entries that both end in ".app", `injectDylib` takes the first
  (Content.swift:192-197; `Content.ChosenBundleRule`).
- Exit statuses: `unzipIPA` (Utils.swift:121-127), `zipFolder`
  (Utils.swift:129-136) and the optool run (Content.swift:215-216) wait
  for the tool and never look at its exit status; only their launch can
  throw. `ar` and `tar` are checked
  (Utils.swift:222-224 and 244-246).
- The two call sites recognise a bundle differently. `injectDylib` accepts
  a name ending in ".app" (Content.swift:189); `parseIPA` accepts a name
  whose extension is "app" (Utils.swift:31). They agree on names with
  something before the dot (`Content.BundleSuffixIsAppExtension`) and
  differ on the hidden name ".app" (`Content.HiddenBundleNameDiffers`).

## Left out

- Inspector.ParseIpa: the directory `parseIPA` makes (Utils.swift:26), its unzip run (Utils.swift:27) and its removals of that directory (Utils.swift:32, 66, 89 and 92) are not traced; only their effect on the result is modelled, namely the empty `dylibs` after the removal at line 66.

- The SwiftUI views, `saveIcon`, `FileSelectionView.swift` and
  `InjectiPAApp.swift` are UI and are not part of this model. The
  `NSSavePanel` dialog and the `moveItem` into the chosen destination are
  not modelled either. The model records the save panel being offered for
  `<temp>/Modified.ipa` with the generated name (`OfferSave`).
- `loadIPAInfos` runs `parseIPA` on a background queue. That is concurrency,
  and only `parseIPA` itself is modelled.
- Process execution is not modelled. `unzip`, `zip`, `ar`, `tar` and
  `optool` are recorded as runs with their exact arguments. Their results
  come from the `World` value: what `unzip` leaves in Payload, and `ar`'s
  and `tar`'s exit statuses and listings. What `zip` and `optool` do to the
  files is not modelled.
- `PropertyListSerialization` decoding is not modelled. An `Info.plist`
  file carries its decoded value, or none when it does not decode.
- `NSImage` loading is not modelled. The icon is the path of the image file
  chosen.
- `UUID()` and `Date()` are parameters. `Content.Fresh` gives each archive
  its temporary directory, the extractor's scratch directory and the
  timestamp.
- Paths.Lower: lowercases ASCII letters only. `String.lowercased()` also
  folds other letters. The comparisons in the code are with "png", "dylib"
  and "deb".
- Paths.Extension: models `pathExtension` as the text after the last dot,
  empty when the dot starts or ends the name. Foundation's other rules for
  unusual names are not modelled.
- FileTree.Names: takes the order of `contentsOfDirectory` to be the
  listing order stored in the tree. Foundation does not promise an order.
  `FileManager.enumerator` is modelled as a pre-order walk in that order.
- A PNG's size: the model reads it from every file entry. A directory named
  `*.png` is never chosen, because it has no file size.
- DebExtractor.DebToDylib: does not model a failure of `removeItem`. On the
  success path the Swift code would then throw, but `removeItem` on the
  directory just made is taken to succeed.
- DebExtractor.FindAndMoveDylib: the copy into the destination is taken to
  succeed. The destination is the archive's fresh temporary directory.
- Content.ProcessSpec: the final `try? removeItem` is taken to succeed,
  which is what its `try?` ignores anyway.
- The commented-out `debToDylib`/`debToLzma`/`unzipLzma` helpers in
  `Utils.swift` are dead code and are not modelled.
- `canInject` (`Content.Session.CanInject`) only guards the Inject button
  (Content.swift:121); the button's enabling itself is UI.
  `Content.Session.PerformInjection` requires exactly what the force-unwrap
  `dylibPath!` needs once there is an archive to process, and
  `Content.Session.CanInjectUnwraps` shows an enabled button meets it.
- The progress lines `processIPA` and `injectDylib` print are not
  recorded: the created directory (Content.swift:151), the unzip
  (Content.swift:162), the repacking (Content.swift:171) and the Payload
  listing (Content.swift:186). They report progress, not an outcome. The
  error prints at Content.swift:176, 200 and 205 are recorded.
- The lookup of optool in the app's own bundle (Content.swift:211) is
  force-unwrapped, so a missing optool crashes the app rather than
  throwing. The model has no crash: it takes the bundled optool to exist,
  and a launch that fails is the thrown `CannotLaunch(Optool)`.
- Content.Session.PerformInjection: the "injecting..." alert that is shown
  and then hidden is UI and is not modelled.
- Integer widths: sizes are unbounded naturals and the timestamp an
  unbounded integer. `UInt64` and `Int` cannot overflow on real file sizes
  and clocks.

## Findings

| source | as written | input that shows it | evidently intended | confidence | as-written member | corrected member |
|---|---|---|---|---|---|---|
| InjectiPA/Utils.swift:64-68 | on the declared-icon path the temporary tree is removed before `findDylibs` scans the bundle in it, so `dylibs` is always empty there | a bundle whose Info.plist declares an icon file that exists at the bundle's top level, with `Frameworks/libX.dylib` inside | `findDylibs` runs before the removal, as on the fallback path, and reports `libX.dylib` | not executed | Inspector.DeclaredIconHidesDylibs | Inspector.ParseIpaCorrected |
| InjectiPA/Content.swift:154-156 | with a `.deb` source, `dylibPath` is overwritten with the library extracted into the first archive's temporary directory; line 179 removes that directory, and later archives skip extraction and copy from the removed path | a `.deb` that extracts, with two archives selected, the second with a bundle and an executable name | the library extracted from the package must still exist when a later archive copies it; the model keeps the `.deb` as the source and extracts it again for each archive, which is the smallest change to the loop and uses only directories each pass already has | not executed | Content.DebRebindingLosesLibrary | Content.DebExtractedPerArchive |

`Inspector.ParseIpa` and `Content.Session` model the code as written.
`Inspector.ParseIpaCorrected` is the corrected `parseIPA`. The corrected
batch is `Content.ProcessCorrected` and `Content.BatchCorrected`.
`Content.BatchCorrectedKeepsSource` proves that the corrected batch keeps the
source. `Content.DebExtractedPerArchive` proves that the second archive then
extracts the package afresh and copies without a copy error.
