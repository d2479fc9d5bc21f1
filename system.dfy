/**
 * Everything outside the Swift code that it depends on: the command-line
 * tools it launches and their outcomes, FileManager failures, and the side
 * effects it has, recorded in order.
 */
module System {
  import opened Wrappers
  import opened Paths
  import opened FileTree

  datatype Tool = Unzip | Zip | Ar | Tar | Optool

  /**
   * What ar and tar do with one package: ar's exit status and the listing it
   * leaves in the scratch directory, tar's exit status and the scratch
   * directory's contents once tar has run.
   */
  datatype Package = Package(arStatus: int, members: seq<Node>, tarStatus: int, unpacked: seq<Node>)

  /** The outcomes of everything the code asks of the operating system. */
  datatype World = World(
    unzipped: Path -> seq<Node>,  // what unzip leaves in its destination for the archive at a path
    package: Path -> Package,     // what ar and tar make of the package at a path
    launchable: set<Tool>,        // tools for which Process.run() does not throw
    mkdirFails: set<Path>)        // directories createDirectory throws for

  datatype Error =
    | ArExtractionFailed           // DebExtractionError.arExtractionFailed
    | TarExtractionFailed          // DebExtractionError.tarExtractionFailed
    | DylibNotFound                // DebExtractionError.dylibNotFound
    | FileOperationFailed(message: string)
    | CannotCreate(dir: Path)      // createDirectory threw
    | CannotLaunch(tool: Tool)     // Process.run() threw
    | CannotList(dir: Path)        // contentsOfDirectory threw
    | CannotCopy(from: Path, to: Path)  // copyItem threw

  /** The errors injectDylib prints and then returns from without throwing. */
  datatype Notice =
    | NoBundleFound          // no entry of Payload was taken as the bundle
    | NoExecutableName       // the bundle's Info.plist gives no CFBundleExecutable

  /** A side effect, as it shows in the file system or on the console. */
  datatype Effect =
    | MakeDir(dir: Path)
    | Remove(target: Path)
    | Run(tool: Tool, args: seq<string>, cwd: Option<Path>)
    | Copy(from: Path, to: Path)
    | OfferSave(file: Path, suggestedName: string)
    | ReportFailure(error: Error)  // the catch block's print
    | Warn(notice: Notice)         // an error printed without throwing

  /** A directory holding `p` was removed by an earlier effect, so `p` no longer exists. */
  predicate Gone(trace: seq<Effect>, p: Path)
    decreases |trace|
  {
    trace != [] && ((trace[0].Remove? && IsUnder(p, trace[0].target)) || Gone(trace[1..], p))
  }

  /** Gone holds exactly when some removal in the trace took a directory holding `p`. */
  lemma {:induction false} GoneMeansRemoved(trace: seq<Effect>, p: Path)
    ensures Gone(trace, p) <==> exists e :: e in trace && e.Remove? && IsUnder(p, e.target)
    decreases |trace|
  {
    if trace != [] {
      GoneMeansRemoved(trace[1..], p);
      assert forall e :: e in trace <==> e == trace[0] || e in trace[1..];
    }
  }

  /** The outcome reports among some effects: saves offered and failures the catch block printed. */
  function Outcomes(effects: seq<Effect>): (r: seq<Effect>)
  {
    if effects == [] then []
    else (if effects[0].OfferSave? || effects[0].ReportFailure? then [effects[0]] else [])
         + Outcomes(effects[1..])
  }

  lemma {:induction false} OutcomesAppend(a: seq<Effect>, b: seq<Effect>)
    ensures Outcomes(a + b) == Outcomes(a) + Outcomes(b)
    decreases |a|
  {
    if a != [] {
      assert (a + b)[1..] == a[1..] + b;
      OutcomesAppend(a[1..], b);
    } else {
      assert a + b == b;
    }
  }

  /** A single effect is its own outcome when it offers a save or reports a failure. */
  lemma OutcomesSingle(e: Effect)
    ensures Outcomes([e]) == if e.OfferSave? || e.ReportFailure? then [e] else []
  {
    assert [e][1..] == [];
  }

  /** Effects that neither offer a save nor report a failure. */
  predicate Quiet(effects: seq<Effect>)
  {
    forall e :: e in effects ==> !e.OfferSave? && !e.ReportFailure?
  }

  lemma {:induction false} QuietHasNoOutcome(effects: seq<Effect>)
    requires Quiet(effects)
    ensures Outcomes(effects) == []
    decreases |effects|
  {
    if effects != [] {
      QuietHasNoOutcome(effects[1..]);
    }
  }

  /** Extending a trace one piece at a time is extending it by the pieces joined. */
  lemma AppendAssoc(a: seq<Effect>, b: seq<Effect>, c: seq<Effect>)
    ensures (a + b) + c == a + (b + c)
  {
  }

  /** The last effect of a trace is one of its effects. */
  lemma LastIsIn(effects: seq<Effect>)
    requires effects != []
    ensures effects[|effects| - 1] in effects
  {
  }

  /** An effect of either part is an effect of the whole. */
  lemma InAppend(e: Effect, a: seq<Effect>, b: seq<Effect>)
    requires e in a || e in b
    ensures e in a + b
  {
  }

  /** Gone on a trace extended by more effects. */
  lemma GoneAppend(a: seq<Effect>, b: seq<Effect>, p: Path)
    ensures Gone(a + b, p) <==> Gone(a, p) || Gone(b, p)
  {
    GoneMeansRemoved(a + b, p);
    GoneMeansRemoved(a, p);
    GoneMeansRemoved(b, p);
  }
}
