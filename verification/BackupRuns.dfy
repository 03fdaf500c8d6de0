/** Creating and restoring a backup on disk: all or nothing, whatever step raises. */
module BackupRuns {
  import opened Wrappers
  import opened BackupArchive
  import opened BackupPlan

  // ----- Creating -----

  datatype Receipt = Receipt(archiveSha: string, manifestSha: string, rest: string)

  /** The steps of creation that may raise. */
  datatype CreateStep =
    | WriteStage | ArchiveHook | ReadBack | CheckTarget | Publish | PublishedHook | ValidateReceipt | WriteReceipt

  datatype CreateError = IdInUse | StageExists | Raised(step: CreateStep) | ReadBackFailed | TargetAppeared

  /** What else happens at the target: a file that appears before publication, or takes the place of the published one. */
  datatype Others = Others(appears: Option<seq<File>>, swapped: Option<seq<File>>)

  /** The three places a creation writes: its stage beside the target, the target, and the receipt. */
  class CreateSite {
    var stage: Option<seq<File>>
    var target: Option<seq<File>>
    var receipt: Option<Receipt>

    method Write(archive: seq<File>, raises: set<CreateStep>) returns (r: Option<CreateError>)
      modifies this`stage
      ensures r == if WriteStage in raises then Some(Raised(WriteStage)) else None
      ensures stage == if r.Some? then None else Some(archive)
    {
      stage := Some([]);
      if WriteStage in raises {
        stage := None;
        return Some(Raised(WriteStage));
      }
      stage := Some(archive);
      r := None;
    }

    /** Up to publication: write, read back, make sure the target is still free. */
    method Prepare(archive: seq<File>, m: Manifest, raises: set<CreateStep>, others: Others, codec: Codec, reader: Reader)
        returns (r: Option<CreateError>)
      requires target.None?
      modifies this`stage, this`target
      ensures r.None? <==>
        {WriteStage, ArchiveHook, ReadBack, CheckTarget} !! raises && Inspect(archive, reader, codec) == Ok(m) && others.appears.None?
      ensures r.None? ==> stage == Some(archive) && target.None?
      ensures target == None || target == others.appears
    {
      r := Write(archive, raises);
      if r.Some? {
        return;
      }
      if ArchiveHook in raises {
        return Some(Raised(ArchiveHook));
      }
      if ReadBack in raises {
        return Some(Raised(ReadBack));
      }
      if Inspect(archive, reader, codec) != Ok(m) {
        return Some(ReadBackFailed);
      }
      target := others.appears;
      if CheckTarget in raises {
        return Some(Raised(CheckTarget));
      }
      r := if target.Some? then Some(TargetAppeared) else None;
    }

    /** After publication: the hook, the receipt. */
    method Conclude(rest: string, archiveSha: string, manifestSha: string, raises: set<CreateStep>)
        returns (r: Option<CreateError>)
      requires receipt.None?
      modifies this`receipt
      ensures r.None? <==> {PublishedHook, ValidateReceipt, WriteReceipt} !! raises
      ensures receipt == if r.None? then Some(Receipt(archiveSha, manifestSha, rest)) else None
    {
      if PublishedHook in raises {
        return Some(Raised(PublishedHook));
      }
      if ValidateReceipt in raises {
        return Some(Raised(ValidateReceipt));
      }
      if WriteReceipt in raises {
        return Some(Raised(WriteReceipt));
      }
      receipt := Some(Receipt(archiveSha, manifestSha, rest));
      r := None;
    }

    /**
     Publishes the archive and its receipt, or raises and leaves no stage, no receipt and no archive of
     ours: what remains at the target is at most what someone else put there.
     */
    method CreateLocked(
        archive: seq<File>, m: Manifest, rest: string, raises: set<CreateStep>, others: Others,
        sha: seq<File> -> string, codec: Codec, reader: Reader) returns (r: Result<Receipt, CreateError>)
      requires target.None? && Injective(sha)
      modifies this
      ensures old(receipt).Some? ==> r == Err(IdInUse)
      ensures old(receipt).None? && old(stage).Some? ==> r == Err(StageExists)
      ensures old(receipt).Some? || old(stage).Some? ==> stage == old(stage) && target.None? && receipt == old(receipt)
      ensures old(receipt).None? && old(stage).None? ==>
        && stage.None?
        && (r.Ok? <==> raises == {} && Inspect(archive, reader, codec) == Ok(m) && others.appears.None?)
        && (r.Ok? ==> receipt == Some(r.value) && r.value.archiveSha == sha(archive))
        && (r.Ok? && others.swapped.None? ==> target == Some(archive))
        && (r.Err? ==> receipt.None? && (target.None? || target == others.appears || target == others.swapped))
        && (r.Err? && target == Some(archive) ==> others.appears == Some(archive))
    {
      if receipt.Some? {
        return Err(IdInUse);
      }
      if stage.Some? {
        return Err(StageExists);
      }
      var failure := Prepare(archive, m, raises, others, codec, reader);
      if failure.None? && Publish in raises {
        failure := Some(Raised(Publish));
      }
      if failure.Some? {
        stage := None;
        assert raises != {} || Inspect(archive, reader, codec) != Ok(m) || others.appears.Some?;
        return Err(failure.value);
      }
      target, stage := stage, None;
      if others.swapped.Some? {
        target := others.swapped;
      }
      failure := Conclude(rest, sha(archive), codec.sha(codec.writeManifest(m)), raises);
      if failure.Some? {
        if target.Some? && sha(target.value) == sha(archive) {
          target := None;
        }
        return Err(failure.value);
      }
      NothingRaised(raises);
      return Ok(Receipt(sha(archive), codec.sha(codec.writeManifest(m)), rest));
    }
  }

  lemma NothingRaised(raises: set<CreateStep>)
    requires {WriteStage, ArchiveHook, ReadBack, CheckTarget} !! raises && Publish !in raises
    requires {PublishedHook, ValidateReceipt, WriteReceipt} !! raises
    ensures raises == {}
  {
    var all := {WriteStage, ArchiveHook, ReadBack, CheckTarget, Publish, PublishedHook, ValidateReceipt, WriteReceipt};
    forall step: CreateStep ensures step in all {
      assert step.WriteStage? || step.ArchiveHook? || step.ReadBack? || step.CheckTarget? || step.Publish?
        || step.PublishedHook? || step.ValidateReceipt? || step.WriteReceipt?;
    }
    assert all !! raises;
  }

  // ----- Restoring -----

  /** Files below a directory, by relative path. */
  type Tree = map<string, Bytes>

  const MarkerPath := "knowledge/" + Marker
  const WorkspacePath := "workspace.json"
  const ProfilePath := "domain-profile.json"

  datatype RestoreStep =
    | MakeStage | Extract | WriteControls | BuildStageMarker | LoadStage | CheckRestoreTarget | PublishTree
    | BuildFinalMarker | ValidateRestoreReceipt | WriteRestoreReceipt

  datatype RestoreError =
    | TargetExists | ArchiveRefused(error: InspectError) | ArchiveChanged | RestoreStageExists
    | RestoreRaised(step: RestoreStep) | MappingsForbidden | MappingsIncomplete | SourcesMissing | Unacceptable

  datatype RestoreRequest = RestoreRequest(
    restoreId: string,
    expectedSha: string,
    mappings: map<string, string>,
    receipt: Bytes)

  /** Writing the restored configuration, markers, and the checks the restored workspace must pass. */
  datatype Restorer = Restorer(
    config: (Config, SourceMode, map<string, string>) -> Bytes,
    marker: Tree -> Bytes,
    acceptable: Tree -> bool)

  function ReceiptPath(restoreId: string): string { "knowledge/.research-kb/restore-receipts/" + restoreId + ".json" }

  predicate Kept(path: string, mode: SourceMode) {
    StartsWith(path, "knowledge/") || (mode.Included? && StartsWith(path, "sources/"))
  }

  /** The payload of an archive as a directory tree. */
  function Extracted(files: seq<File>): Tree {
    if files == [] then map[]
    else
      var last := files[|files| - 1];
      Extracted(files[..|files| - 1])[last.name := last.content]
  }

  function KeptPart(tree: Tree, mode: SourceMode): Tree { map path | path in tree && Kept(path, mode) :: tree[path] }

  /** Knowledge and, when included, sources; then the two control files. */
  function Staged(tree: Tree, mode: SourceMode, config: Bytes, profile: Bytes): Tree {
    KeptPart(tree, mode)[WorkspacePath := config][ProfilePath := profile]
  }

  /** The published tree with its fresh marker and receipt. */
  function Settled(tree: Tree, request: RestoreRequest, restorer: Restorer): Tree {
    tree[MarkerPath := restorer.marker(tree)][ReceiptPath(request.restoreId) := request.receipt]
  }

  /** A file that comes back unchanged: kept, and neither the marker nor the new receipt. */
  predicate Returns(path: string, mode: SourceMode, restoreId: string) {
    Kept(path, mode) && path != MarkerPath && path != ReceiptPath(restoreId)
  }

  ghost predicate AllReturned(files: seq<File>, mode: SourceMode, restoreId: string, tree: Tree) {
    forall f :: f in files && Returns(f.name, mode, restoreId) ==> f.name in tree && tree[f.name] == f.content
  }

  predicate HasSources(tree: Tree) { exists path :: path in tree && StartsWith(path, "sources/") }

  function MappingFault(mode: SourceMode, mappings: map<string, string>, roots: seq<string>): Option<RestoreError> {
    if mode.Included? then (if mappings != map[] then Some(MappingsForbidden) else None)
    else if mappings.Keys != set root | root in roots then Some(MappingsIncomplete)
    else None
  }

  lemma {:induction false} ExtractedContents(files: seq<File>, f: File)
    requires Distinct(NamesOf(files)) && f in files
    ensures f.name in Extracted(files) && Extracted(files)[f.name] == f.content
  {
    var init, last := files[..|files| - 1], files[|files| - 1];
    var names := NamesOf(files);
    assert NamesOf(init) == names[..|files| - 1];
    if f != last {
      var k :| 0 <= k < |files| && files[k] == f;
      assert init[k] == f;
      assert names[k] != names[|files| - 1];
      ExtractedContents(init, f);
    }
  }

  /** Why an inspected archive cannot be laid out as a workspace. */
  function LayoutFault(files: seq<File>, m: Manifest, request: RestoreRequest, codec: Codec): Option<RestoreError> {
    var config := ReadConfig(files, codec);
    if config.None? || Lookup(files, ProfileName).None? then Some(ArchiveRefused(ConfigInvalid))
    else
      var mapping := MappingFault(m.mode, request.mappings, config.value.roots);
      if mapping.Some? then mapping
      else if m.mode.Included? && !HasSources(Extracted(files)) then Some(SourcesMissing)
      else None
  }

  /** The workspace laid out below the stage. */
  function LaidOut(files: seq<File>, m: Manifest, request: RestoreRequest, restorer: Restorer, codec: Codec): Tree
    requires LayoutFault(files, m, request, codec).None?
  {
    var config := ReadConfig(files, codec).value;
    Staged(Extracted(files), m.mode, restorer.config(config, m.mode, request.mappings), Lookup(files, ProfileName).value)
  }

  /** The workspace as it is loaded and checked: with its marker. */
  function Marked(tree: Tree, restorer: Restorer): Tree { tree[MarkerPath := restorer.marker(tree)] }

  /** The archive is what the request expects, can be laid out, and makes a workspace that passes its checks. */
  predicate Restorable(
      files: seq<File>, request: RestoreRequest, restorer: Restorer, sha: seq<File> -> string, codec: Codec, reader: Reader)
  {
    RestorableAs(Inspect(files, reader, codec), files, request, restorer, sha, codec)
  }

  predicate RestorableAs(
      inspection: Result<Manifest, InspectError>, files: seq<File>, request: RestoreRequest, restorer: Restorer,
      sha: seq<File> -> string, codec: Codec)
  {
    && inspection.Ok? && sha(files) == request.expectedSha
    && LayoutFault(files, inspection.value, request, codec).None?
    && restorer.acceptable(Marked(LaidOut(files, inspection.value, request, restorer, codec), restorer))
  }

  /** What a restore leaves at the target: the laid out workspace, marked afresh, with its receipt. */
  function RestoredTree(files: seq<File>, m: Manifest, request: RestoreRequest, restorer: Restorer, codec: Codec): Tree
    requires LayoutFault(files, m, request, codec).None?
  {
    Settled(LaidOut(files, m, request, restorer, codec) - {MarkerPath}, request, restorer)
  }

  class RestoreSite {
    var stage: Option<Tree>
    var target: Option<Tree>

    /** Extracts the archive and lays the workspace out below the stage. */
    method Lay(
        files: seq<File>, m: Manifest, request: RestoreRequest, raises: set<RestoreStep>, restorer: Restorer, codec: Codec)
        returns (r: Option<RestoreError>)
      modifies this`stage
      ensures r.None? <==> {MakeStage, Extract, WriteControls} !! raises && LayoutFault(files, m, request, codec).None?
      ensures r.None? ==> stage == Some(LaidOut(files, m, request, restorer, codec))
      ensures {MakeStage, Extract} !! raises && LayoutFault(files, m, request, codec).Some? ==>
        r == LayoutFault(files, m, request, codec)
    {
      if MakeStage in raises {
        return Some(RestoreRaised(MakeStage));
      }
      stage := Some(map[]);
      var tree := Extracted(files);
      if Extract in raises {
        return Some(RestoreRaised(Extract));
      }
      var config, profile := ReadConfig(files, codec), Lookup(files, ProfileName);
      if config.None? || profile.None? {
        return Some(ArchiveRefused(ConfigInvalid));
      }
      r := MappingFault(m.mode, request.mappings, config.value.roots);
      if r.Some? {
        return;
      }
      if m.mode.Included? && !HasSources(tree) {
        return Some(SourcesMissing);
      }
      stage := Some(KeptPart(tree, m.mode));
      if WriteControls in raises {
        return Some(RestoreRaised(WriteControls));
      }
      stage := Some(Staged(tree, m.mode, restorer.config(config.value, m.mode, request.mappings), profile.value));
      r := None;
    }

    /** The staged workspace with its marker must load, validate and pass the guardian; the marker then goes. */
    method Check(raises: set<RestoreStep>, restorer: Restorer) returns (r: Option<RestoreError>)
      requires stage.Some?
      modifies this`stage
      ensures r.None? <==>
        && {BuildStageMarker, LoadStage, CheckRestoreTarget, PublishTree} !! raises
        && restorer.acceptable(Marked(old(stage).value, restorer))
      ensures r.None? ==> stage == Some(old(stage).value - {MarkerPath})
    {
      if BuildStageMarker in raises {
        return Some(RestoreRaised(BuildStageMarker));
      }
      stage := Some(stage.value[MarkerPath := restorer.marker(stage.value)]);
      if LoadStage in raises {
        return Some(RestoreRaised(LoadStage));
      }
      if !restorer.acceptable(stage.value) {
        return Some(Unacceptable);
      }
      assert stage.value - {MarkerPath} == old(stage).value - {MarkerPath};
      stage := Some(stage.value - {MarkerPath});
      if CheckRestoreTarget in raises {
        return Some(RestoreRaised(CheckRestoreTarget));
      }
      if PublishTree in raises {
        return Some(RestoreRaised(PublishTree));
      }
      r := None;
    }

    method Finish(request: RestoreRequest, raises: set<RestoreStep>, restorer: Restorer) returns (r: Option<RestoreError>)
      requires target.Some?
      modifies this`target
      ensures target.Some?
      ensures r.None? <==> {BuildFinalMarker, ValidateRestoreReceipt, WriteRestoreReceipt} !! raises
      ensures r.None? ==> target.value == Settled(old(target).value, request, restorer)
    {
      if BuildFinalMarker in raises {
        return Some(RestoreRaised(BuildFinalMarker));
      }
      var marker := restorer.marker(target.value);
      target := Some(target.value[MarkerPath := marker]);
      if ValidateRestoreReceipt in raises {
        return Some(RestoreRaised(ValidateRestoreReceipt));
      }
      if WriteRestoreReceipt in raises {
        return Some(RestoreRaised(WriteRestoreReceipt));
      }
      target := Some(target.value[ReceiptPath(request.restoreId) := request.receipt]);
      r := None;
    }

    /**
     Restores an inspected archive into a new directory, or raises and leaves neither stage nor target.
     It succeeds exactly when stage and target are free, no step raises and the archive is restorable;
     the target is then the restored tree, in which every kept payload file is back byte for byte.
     */
    method Restore(
        files: seq<File>, request: RestoreRequest, raises: set<RestoreStep>, restorer: Restorer,
        sha: seq<File> -> string, codec: Codec, reader: Reader) returns (r: Result<Manifest, RestoreError>)
      modifies this
      ensures r.Ok? <==>
        && old(target).None? && old(stage).None? && raises == {}
        && Restorable(files, request, restorer, sha, codec, reader)
      ensures r.Ok? ==> Inspect(files, reader, codec) == Ok(r.value) && stage.None?
      ensures r.Ok? ==> target == Some(RestoredTree(files, r.value, request, restorer, codec))
      ensures r.Ok? ==> AllReturned(files, r.value.mode, request.restoreId, target.value)
      ensures r.Err? ==> target == old(target) && stage == old(stage)
      ensures old(target).Some? ==> r == Err(TargetExists)
      ensures old(target).None? && old(stage).None? && raises == {} && Inspect(files, reader, codec).Ok? && sha(files) == request.expectedSha ==>
        var fault := LayoutFault(files, Inspect(files, reader, codec).value, request, codec);
        fault.Some? ==> r == Err(fault.value)
    {
      if target.Some? {
        return Err(TargetExists);
      }
      var inspection := Inspect(files, reader, codec);
      if inspection.Err? {
        return Err(ArchiveRefused(inspection.error));
      }
      if sha(files) != request.expectedSha {
        return Err(ArchiveChanged);
      }
      if stage.Some? {
        return Err(RestoreStageExists);
      }
      var m := inspection.value;
      var failure := Lay(files, m, request, raises, restorer, codec);
      if failure.None? {
        failure := Check(raises, restorer);
      }
      if failure.Some? {
        stage := None;
        return Err(failure.value);
      }
      target, stage := stage, None;
      failure := Finish(request, raises, restorer);
      if failure.Some? {
        target := None;
        return Err(failure.value);
      }
      NoRestoreStepRaised(raises);
      InspectedDistinct(files, reader, codec);
      RestoredReturns(files, m, request, restorer, codec);
      return Ok(m);
    }
  }

  lemma NoRestoreStepRaised(raises: set<RestoreStep>)
    requires {MakeStage, Extract, WriteControls} !! raises
    requires {BuildStageMarker, LoadStage, CheckRestoreTarget, PublishTree} !! raises
    requires {BuildFinalMarker, ValidateRestoreReceipt, WriteRestoreReceipt} !! raises
    ensures raises == {}
  {
    forall step: RestoreStep ensures step !in raises {
      assert step.MakeStage? || step.Extract? || step.WriteControls? || step.BuildStageMarker? || step.LoadStage?
        || step.CheckRestoreTarget? || step.PublishTree? || step.BuildFinalMarker? || step.ValidateRestoreReceipt?
        || step.WriteRestoreReceipt?;
    }
  }

  /** Every kept payload file is back in the restored tree, except the marker and the receipt, which are new. */
  lemma RestoredReturns(files: seq<File>, m: Manifest, request: RestoreRequest, restorer: Restorer, codec: Codec)
    requires Distinct(NamesOf(files)) && LayoutFault(files, m, request, codec).None?
    ensures AllReturned(files, m.mode, request.restoreId, RestoredTree(files, m, request, restorer, codec))
  {
    var tree := RestoredTree(files, m, request, restorer, codec);
    forall f | f in files && Returns(f.name, m.mode, request.restoreId) ensures f.name in tree && tree[f.name] == f.content {
      KeptNames(f.name, m.mode);
      ExtractedContents(files, f);
    }
  }

  lemma KeptNames(path: string, mode: SourceMode)
    requires Kept(path, mode)
    ensures path != WorkspacePath && path != ProfilePath
  {
    assert "knowledge/"[0] == 'k' && "sources/"[0] == 's' && WorkspacePath[0] == 'w' && ProfilePath[0] == 'd';
  }

  lemma InspectedDistinct(files: seq<File>, reader: Reader, codec: Codec)
    requires Inspect(files, reader, codec).Ok?
    ensures Distinct(NamesOf(files))
  {
    assert ShapeFault(files, reader, codec).None?;
  }
}
