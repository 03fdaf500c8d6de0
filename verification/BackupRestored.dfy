/** What a restore accepts, and every file of the workspace it leaves. */
module BackupRestored {
  import opened Wrappers
  import opened BackupArchive
  import opened BackupRuns
  import opened BackupInspected
  import RoundTrip = BackupRoundTrip

  // ----- What a restore accepts -----

  /** The request fits the archive: no mappings with sources, a mapping for each root without; and with sources there are some. */
  ghost predicate Fits(files: seq<File>, m: Manifest, config: Config, request: RestoreRequest) {
    && (m.mode == Included ==> request.mappings == map[] && exists f :: f in files && StartsWith(f.name, "sources/"))
    && (m.mode == InventoryOnly ==> forall root :: root in request.mappings <==> root in config.roots)
  }

  /** The configuration of an archive is read from its one configuration file. */
  ghost predicate Configured(files: seq<File>, config: Config, profile: Bytes, codec: Codec) {
    && NamedOnce(files)
    && (exists content :: HasFile(files, "config/workspace.json", content) && codec.readConfig(content) == Some(config))
    && HasFile(files, "config/domain-profile.json", profile)
  }

  lemma NamesDistinct(files: seq<File>)
    requires NamedOnce(files)
    ensures Distinct(NamesOf(files))
  {
  }

  lemma ConfigurationRead(files: seq<File>, config: Config, profile: Bytes, codec: Codec)
    requires Configured(files, config, profile, codec)
    ensures ReadConfig(files, codec) == Some(config) && Lookup(files, ProfileName) == Some(profile)
  {
    NamesDistinct(files);
    var content :| HasFile(files, ConfigName, content) && codec.readConfig(content) == Some(config);
    LookupFinds(files, File(ConfigName, content));
    LookupFinds(files, File(ProfileName, profile));
  }

  lemma SourcesThere(files: seq<File>)
    ensures HasSources(Extracted(files)) <==> exists f :: f in files && StartsWith(f.name, "sources/")
  {
    forall name ensures name in Extracted(files) <==> exists f :: f in files && f.name == name {
      RoundTrip.ExtractedNames(files, name);
    }
    if f :| f in files && StartsWith(f.name, "sources/") {
      assert f.name in Extracted(files);
    }
  }

  lemma FitsIsLaidOut(files: seq<File>, m: Manifest, config: Config, profile: Bytes, request: RestoreRequest, codec: Codec)
    requires Configured(files, config, profile, codec)
    ensures LayoutFault(files, m, request, codec).None? <==> Fits(files, m, config, request)
  {
    ConfigurationRead(files, config, profile, codec);
    SourcesThere(files);
    assert request.mappings.Keys == (set root | root in config.roots) <==>
      forall root :: root in request.mappings <==> root in config.roots;
  }

  // ----- What it leaves -----

  /** A file comes back: knowledge, and with sources the sources. */
  ghost predicate ComesBack(files: seq<File>, mode: SourceMode, path: string, content: Bytes) {
    && HasFile(files, path, content)
    && (StartsWith(path, "knowledge/") || (mode == Included && StartsWith(path, "sources/")))
  }

  /** The workspace before its marker: what comes back, the configuration written anew and the profile as it was. */
  ghost predicate Leaves(
      files: seq<File>, m: Manifest, config: Config, profile: Bytes, request: RestoreRequest, restorer: Restorer,
      path: string, content: Bytes)
  {
    if path == "domain-profile.json" then content == profile
    else if path == "workspace.json" then content == restorer.config(config, m.mode, request.mappings)
    else ComesBack(files, m.mode, path, content)
  }

  lemma ExtractedAt(files: seq<File>, path: string, content: Bytes)
    requires NamedOnce(files)
    ensures path in Extracted(files) && Extracted(files)[path] == content <==> HasFile(files, path, content)
  {
    NamesDistinct(files);
    RoundTrip.ExtractedNames(files, path);
    if path in Extracted(files) {
      var f :| f in files && f.name == path;
      ExtractedContents(files, f);
      assert f == File(path, f.content);
    }
    if HasFile(files, path, content) {
      ExtractedContents(files, File(path, content));
    }
  }

  /** A tree holds exactly what `says` says. */
  ghost predicate IsTree(tree: Tree, says: (string, Bytes) -> bool) {
    forall path, content :: RoundTrip.Holds(tree, path, content) <==> says(path, content)
  }

  lemma LaidOutAt(
      files: seq<File>, m: Manifest, config: Config, profile: Bytes, request: RestoreRequest, restorer: Restorer, codec: Codec,
      path: string, content: Bytes)
    requires Configured(files, config, profile, codec) && LayoutFault(files, m, request, codec).None?
    ensures RoundTrip.Holds(LaidOut(files, m, request, restorer, codec), path, content) <==>
      Leaves(files, m, config, profile, request, restorer, path, content)
  {
    ConfigurationRead(files, config, profile, codec);
    ExtractedAt(files, path, content);
  }

  const WorkspaceMarker := "knowledge/.research-kb/workspace.json"

  /** A laid out workspace with its own marker gone, a fresh one and the receipt. */
  ghost predicate Finishes(
      says: (string, Bytes) -> bool, request: RestoreRequest, marker: Bytes, path: string, content: Bytes)
  {
    if path == "knowledge/.research-kb/restore-receipts/" + request.restoreId + ".json" then content == request.receipt
    else if path == WorkspaceMarker then content == marker
    else says(path, content)
  }

  lemma MarkersAgree()
    ensures MarkerPath == WorkspaceMarker
  {
  }

  lemma FinishedAt(
      laid: Tree, marker: Bytes, says: (string, Bytes) -> bool, request: RestoreRequest, path: string, content: Bytes)
    requires RoundTrip.Holds(laid, path, content) <==> says(path, content)
    ensures var settled := (laid - {WorkspaceMarker})[WorkspaceMarker := marker][ReceiptPath(request.restoreId) := request.receipt];
      RoundTrip.Holds(settled, path, content) <==> Finishes(says, request, marker, path, content)
  {
  }

  lemma FinishedTree(laid: Tree, says: (string, Bytes) -> bool, request: RestoreRequest, restorer: Restorer)
    requires IsTree(laid, says)
    ensures IsTree(Settled(laid - {WorkspaceMarker}, request, restorer),
                   (path, content) => Finishes(says, request, restorer.marker(laid - {WorkspaceMarker}), path, content))
  {
    var marker := restorer.marker(laid - {WorkspaceMarker});
    MarkersAgree();
    forall path, content
      ensures RoundTrip.Holds(Settled(laid - {WorkspaceMarker}, request, restorer), path, content) <==>
        Finishes(says, request, marker, path, content)
    {
      FinishedAt(laid, marker, says, request, path, content);
    }
  }

  lemma LaidOutTree(
      files: seq<File>, m: Manifest, config: Config, profile: Bytes, request: RestoreRequest, restorer: Restorer, codec: Codec)
    requires Configured(files, config, profile, codec) && LayoutFault(files, m, request, codec).None?
    ensures IsTree(LaidOut(files, m, request, restorer, codec),
                   (path, content) => Leaves(files, m, config, profile, request, restorer, path, content))
  {
    var laid := LaidOut(files, m, request, restorer, codec);
    forall path, content
      ensures RoundTrip.Holds(laid, path, content) <==> Leaves(files, m, config, profile, request, restorer, path, content)
    {
      LaidOutAt(files, m, config, profile, request, restorer, codec, path, content);
    }
  }

  /** An archive can be restored exactly when it has the expected digest, fits the request and passes the checks with its marker. */
  lemma RestorableExactly(
      files: seq<File>, m: Manifest, config: Config, profile: Bytes, request: RestoreRequest, restorer: Restorer,
      sha: seq<File> -> string, codec: Codec, reader: Reader)
    requires Inspect(files, reader, codec) == Ok(m) && Configured(files, config, profile, codec)
    ensures Fits(files, m, config, request) <==> LayoutFault(files, m, request, codec).None?
    ensures Restorable(files, request, restorer, sha, codec, reader) <==>
      && sha(files) == request.expectedSha && Fits(files, m, config, request)
      && var laid := LaidOut(files, m, request, restorer, codec);
         restorer.acceptable(laid[WorkspaceMarker := restorer.marker(laid)])
  {
    var fault := LayoutFault(files, m, request, codec);
    FitsIsLaidOut(files, m, config, profile, request, codec);
    var laid := if fault.None? then LaidOut(files, m, request, restorer, codec) else map[];
    RoundTrip.RestorableWhen(Inspect(files, reader, codec), true, files, m, fault, laid, request, restorer, sha, codec);
    MarkersAgree();
  }

  /**
   What a restore leaves of an archive that inspects and fits, file by file: its knowledge, with sources
   its sources, the configuration written for the request, the profile as it was, a fresh marker and the
   receipt.
   */
  lemma RestoredExactly(
      files: seq<File>, m: Manifest, request: RestoreRequest, restorer: Restorer, codec: Codec, reader: Reader)
      returns (config: Config, profile: Bytes, laid: Tree)
    requires Inspect(files, reader, codec) == Ok(m)
    ensures Configured(files, config, profile, codec)
    ensures Fits(files, m, config, request) <==> LayoutFault(files, m, request, codec).None?
    ensures Fits(files, m, config, request) ==>
      && laid == LaidOut(files, m, request, restorer, codec)
      && IsTree(laid, (path, content) => Leaves(files, m, config, profile, request, restorer, path, content))
      && IsTree(
           RestoredTree(files, m, request, restorer, codec),
           (path, content) => Finishes(
             (p, c) => Leaves(files, m, config, profile, request, restorer, p, c),
             request, restorer.marker(laid - {WorkspaceMarker}), path, content))
  {
    config, profile := InspectedArchive(files, m, codec, reader);
    FitsIsLaidOut(files, m, config, profile, request, codec);
    laid := map[];
    if Fits(files, m, config, request) {
      laid := LaidOut(files, m, request, restorer, codec);
      LaidOutTree(files, m, config, profile, request, restorer, codec);
      FinishedTree(laid, (p, c) => Leaves(files, m, config, profile, request, restorer, p, c), request, restorer);
      MarkersAgree();
    }
  }
}
