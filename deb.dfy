/**
 * DebExtractor.debToDylib: a Debian package is unpacked with ar into a
 * scratch directory, its data.tar.* member is unpacked with tar, and the
 * first dynamic library met in the scratch tree is copied out. Each stage
 * has its own error, and the scratch directory is removed on every path
 * once it exists.
 */
module DebExtractor {
  import opened Wrappers
  import opened Paths
  import opened FileTree
  import opened System
  import opened Search

  /** What debToDylib returns or throws, with the effects it has on the way. */
  datatype Extraction = Extraction(result: Result<string, Error>, effects: seq<Effect>)

  /** A member of the package whose name starts with "data.tar". */
  predicate IsDataTar(n: Node)
  {
    HasPrefix(n.name, "data.tar")
  }

  /** An entry of the scratch tree whose extension is dylib in any case. */
  predicate IsDylibItem(it: Item)
  {
    IsDylib(it.node.name)
  }

  /** ar x <deb>, run inside the scratch directory. */
  function ArRun(deb: Path, scratch: Path): Effect
  {
    Run(Ar, ["x", Render(deb)], Some(scratch))
  }

  /** tar xf <scratch>/<member>, run inside the scratch directory. */
  function TarRun(scratch: Path, member: string): Effect
  {
    Run(Tar, ["xf", Render(scratch + [member])], Some(scratch))
  }

  /**
   * findAndMoveDylib over the enumerator's entries: the first dylib is copied
   * into `dest` under its own name and its name returned; with none,
   * dylibNotFound.
   */
  function MoveFirstDylib(items: seq<Item>, dest: Path): (r: Extraction)
    ensures r.result.Success? ==>
              && IsDylib(r.result.value)
              && |r.effects| == 1 && r.effects[0].Copy? && r.effects[0].to == dest + [r.result.value]
    ensures r.result.Failure? <==> forall j :: 0 <= j < |items| ==> !IsDylib(items[j].node.name)
    ensures r.result.Failure? ==> r == Extraction(Failure(DylibNotFound), [])
  {
    FirstWhereIsFirst(items, IsDylibItem);
    match FirstWhere(items, IsDylibItem)
    case Some(k) => Extraction(Success(items[k].node.name), [Copy(items[k].path, dest + [items[k].node.name])])
    case None => Extraction(Failure(DylibNotFound), [])
  }

  /** findAndMoveDylib as written: the enumerator loop that returns at the first dylib. */
  method FindAndMoveDylib(items: seq<Item>, dest: Path) returns (x: Extraction)
    ensures x.result.Success? ==>
              exists k :: 0 <= k < |items| && IsDylib(items[k].node.name)
                          && (forall j :: 0 <= j < k ==> !IsDylib(items[j].node.name))
                          && x.result.value == items[k].node.name
                          && x.effects == [Copy(items[k].path, dest + [items[k].node.name])]
    ensures x.result.Failure? <==> forall j :: 0 <= j < |items| ==> !IsDylib(items[j].node.name)
    ensures x.result.Failure? ==> x == Extraction(Failure(DylibNotFound), [])
    ensures x == MoveFirstDylib(items, dest)
  {
    var i := 0;
    while i < |items|
      invariant 0 <= i <= |items|
      invariant forall j :: 0 <= j < i ==> !IsDylib(items[j].node.name)
    {
      var name := items[i].node.name;
      if IsDylib(name) {
        x := Extraction(Success(name), [Copy(items[i].path, dest + [name])]);
        FirstWhereFinds(items, IsDylibItem, i);
        return;
      }
      i := i + 1;
    }
    x := Extraction(Failure(DylibNotFound), []);
    FirstWhereIsFirst(items, IsDylibItem);
  }

  /** The three stages run in the existing scratch directory, up to but not including its removal. */
  function Stages(w: World, deb: Path, scratch: Path, dest: Path): (r: Extraction)
    ensures r.result.Success? ==> IsDylib(r.result.value)
    ensures forall e :: e in r.effects ==> e.Run? || e.Copy?
  {
    var pkg := w.package(deb);
    if Ar !in w.launchable then Extraction(Failure(CannotLaunch(Ar)), [])
    else if pkg.arStatus != 0 then Extraction(Failure(ArExtractionFailed), [ArRun(deb, scratch)])
    else match FirstWhere(pkg.members, IsDataTar)
      case None => Extraction(Failure(FileOperationFailed("data.tar.* file not found")), [ArRun(deb, scratch)])
      case Some(t) =>
        var tar := TarRun(scratch, pkg.members[t].name);
        if Tar !in w.launchable then Extraction(Failure(CannotLaunch(Tar)), [ArRun(deb, scratch)])
        else if pkg.tarStatus != 0 then Extraction(Failure(TarExtractionFailed), [ArRun(deb, scratch), tar])
        else
          var moved := MoveFirstDylib(Walk(scratch, pkg.unpacked), dest);
          Extraction(moved.result, [ArRun(deb, scratch), tar] + moved.effects)
  }

  /**
   * debToDylib(debPath: deb, to: dest) with `scratch` as its fresh temporary
   * directory. When that directory cannot be created the error escapes
   * before anything else happens; otherwise the stages run and the
   * directory is removed, whatever they return.
   */
  function DebToDylib(w: World, deb: Path, scratch: Path, dest: Path): (r: Extraction)
    ensures r.result.Success? ==> IsDylib(r.result.value)
    ensures r.effects != [] ==> r.effects[0] == MakeDir(scratch) && r.effects[|r.effects| - 1] == Remove(scratch)
  {
    if scratch in w.mkdirFails then Extraction(Failure(CannotCreate(scratch)), [])
    else
      var staged := Stages(w, deb, scratch, dest);
      Extraction(staged.result, [MakeDir(scratch)] + staged.effects + [Remove(scratch)])
  }

  /**
   * Each stage fails with its own error, exactly under its own condition,
   * and the extraction succeeds exactly when every stage does.
   */
  lemma StageErrors(w: World, deb: Path, scratch: Path, dest: Path)
    ensures var r := DebToDylib(w, deb, scratch, dest).result;
            var pkg := w.package(deb);
            var ready := scratch !in w.mkdirFails && Ar in w.launchable;
            var tarFound := FirstWhere(pkg.members, IsDataTar).Some?;
            && (r == Failure(CannotCreate(scratch)) <==> scratch in w.mkdirFails)
            && (r == Failure(CannotLaunch(Ar)) <==> scratch !in w.mkdirFails && Ar !in w.launchable)
            && (r == Failure(ArExtractionFailed) <==> ready && pkg.arStatus != 0)
            && (r == Failure(FileOperationFailed("data.tar.* file not found")) <==>
                  ready && pkg.arStatus == 0 && !tarFound)
            && (r == Failure(CannotLaunch(Tar)) <==> ready && pkg.arStatus == 0 && tarFound && Tar !in w.launchable)
            && (r == Failure(TarExtractionFailed) <==>
                  ready && pkg.arStatus == 0 && tarFound && Tar in w.launchable && pkg.tarStatus != 0)
            && (r == Failure(DylibNotFound) <==>
                  ready && pkg.arStatus == 0 && tarFound && Tar in w.launchable && pkg.tarStatus == 0
                  && forall it :: it in Walk(scratch, pkg.unpacked) ==> !IsDylib(it.node.name))
            && (r.Success? <==>
                  ready && pkg.arStatus == 0 && tarFound && Tar in w.launchable && pkg.tarStatus == 0
                  && exists it :: it in Walk(scratch, pkg.unpacked) && IsDylib(it.node.name))
  {
    var items := Walk(scratch, w.package(deb).unpacked);
    var k := FirstWhere(items, IsDylibItem);
    FirstWhereIsFirst(items, IsDylibItem);
    if k.None? {
      forall it | it in items
        ensures !IsDylib(it.node.name)
      {
        var j :| 0 <= j < |items| && items[j] == it;
        assert !IsDylibItem(items[j]);
      }
    } else {
      assert items[k.value] in items && IsDylib(items[k.value].node.name);
    }
  }

  /** The member tar unpacks is the first whose name starts with "data.tar". */
  lemma TarUnpacksFirstDataMember(w: World, deb: Path, scratch: Path, dest: Path)
    ensures var x := DebToDylib(w, deb, scratch, dest);
            var members := w.package(deb).members;
            forall e :: e in x.effects && e.Run? && e.tool == Tar ==>
              exists t :: 0 <= t < |members| && HasPrefix(members[t].name, "data.tar")
                          && (forall j :: 0 <= j < t ==> !HasPrefix(members[j].name, "data.tar"))
                          && e == TarRun(scratch, members[t].name)
  {
    var x := DebToDylib(w, deb, scratch, dest);
    var members := w.package(deb).members;
    var t := FirstWhere(members, IsDataTar);
    FirstWhereIsFirst(members, IsDataTar);
    forall e | e in x.effects && e.Run? && e.tool == Tar
      ensures exists t :: 0 <= t < |members| && HasPrefix(members[t].name, "data.tar")
                          && (forall j :: 0 <= j < t ==> !HasPrefix(members[j].name, "data.tar"))
                          && e == TarRun(scratch, members[t].name)
    {
      assert t.Some? && e == TarRun(scratch, members[t.value].name);
      assert forall j :: 0 <= j < t.value ==> !IsDataTar(members[j]);
    }
  }

  /**
   * Once the scratch directory exists it is the first thing made and the
   * last thing removed, on success and on every error; nothing else is
   * removed. When it cannot be made nothing happens at all.
   */
  lemma ScratchRemovedOnEveryPath(w: World, deb: Path, scratch: Path, dest: Path)
    ensures var x := DebToDylib(w, deb, scratch, dest);
            && (scratch in w.mkdirFails ==> x.effects == [])
            && (scratch !in w.mkdirFails ==>
                  |x.effects| >= 2 && x.effects[0] == MakeDir(scratch) && x.effects[|x.effects| - 1] == Remove(scratch))
            && (forall e :: e in x.effects && e.Remove? ==> e.target == scratch)
            && Quiet(x.effects)
  {
  }

  /** debToDylib itself neither offers a save nor reports a failure. */
  lemma ExtractionQuiet(w: World, deb: Path, scratch: Path, dest: Path)
    ensures Quiet(DebToDylib(w, deb, scratch, dest).effects)
  {
    ScratchRemovedOnEveryPath(w, deb, scratch, dest);
  }

  /**
   * Entry `k` of the unpacked tree lies in the scratch directory, is a dylib
   * with none before it, and is copied to `dest` under its own name, which
   * is returned, just before the scratch directory is removed.
   */
  ghost predicate FirstDylibCopied(w: World, deb: Path, scratch: Path, dest: Path, k: int)
  {
    var x := DebToDylib(w, deb, scratch, dest);
    var items := Walk(scratch, w.package(deb).unpacked);
    && 0 <= k < |items| && x.result.Success? && |x.effects| >= 2
    && items[k].node.name == x.result.value
    && (forall j :: 0 <= j < k ==> !IsDylib(items[j].node.name))
    && IsUnder(items[k].path, scratch)
    && x.effects[|x.effects| - 2] == Copy(items[k].path, dest + [x.result.value])
  }

  /**
   * On success the first dylib of the unpacked tree, in enumeration order, is
   * copied to `dest` under its own name, before the scratch directory goes,
   * and that name is returned.
   */
  lemma SuccessCopiesFirstDylib(w: World, deb: Path, scratch: Path, dest: Path)
    requires DebToDylib(w, deb, scratch, dest).result.Success?
    ensures IsDylib(DebToDylib(w, deb, scratch, dest).result.value)
    ensures exists k :: FirstDylibCopied(w, deb, scratch, dest, k)
  {
    var items := Walk(scratch, w.package(deb).unpacked);
    SuccessIsMove(w, deb, scratch, dest);
    var k := FirstWhere(items, IsDylibItem).value;
    FirstWhereIsFirst(items, IsDylibItem);
    WalkPaths(scratch, w.package(deb).unpacked);
    assert items[k] in items;
    assert forall j :: 0 <= j < k ==> !IsDylibItem(items[j]);
    assert FirstDylibCopied(w, deb, scratch, dest, k);
  }

  /** A successful extraction ends with the copy made by findAndMoveDylib, then the removal. */
  lemma SuccessIsMove(w: World, deb: Path, scratch: Path, dest: Path)
    requires DebToDylib(w, deb, scratch, dest).result.Success?
    ensures var x := DebToDylib(w, deb, scratch, dest);
            var moved := MoveFirstDylib(Walk(scratch, w.package(deb).unpacked), dest);
            && x.result == moved.result && |moved.effects| == 1 && |x.effects| >= 2
            && x.effects[|x.effects| - 2] == moved.effects[0]
  {
    var staged := Stages(w, deb, scratch, dest);
    var moved := MoveFirstDylib(Walk(scratch, w.package(deb).unpacked), dest);
    assert staged.effects[|staged.effects| - 1] == moved.effects[0];
  }
}
