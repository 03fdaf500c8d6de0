/** What an inspection that accepts an archive says about every one of its files. */
module BackupInspected {
  import opened Wrappers
  import opened BackupArchive
  import opened BackupPlan
  import opened BackupInspection
  import StringOrder

  /** `d` is the one entry of a manifest that lists a file: its name, the digest and the size of its bytes. */
  ghost predicate Lists(entries: seq<Descriptor>, f: File, sha: Bytes -> string) {
    && Descriptor(f.name, sha(f.content), |f.content|) in entries
    && forall i, j :: 0 <= i < j < |entries| && entries[i].path == f.name ==> entries[j].path != f.name
  }

  /** A manifest lists every file but itself, each once, and nothing else. */
  ghost predicate ListsAll(files: seq<File>, m: Manifest, sha: Bytes -> string) {
    && (forall f :: f in files && f.name != ManifestName ==> Lists(m.entries, f, sha))
    && (forall d :: d in m.entries ==>
          d.path != ManifestName && exists f :: f in files && d == Descriptor(f.name, sha(f.content), |f.content|))
  }

  ghost predicate HasFile(files: seq<File>, name: string, content: Bytes) { File(name, content) in files }

  /** The bytes of a listed source are in the archive, at its path and under its recorded digest. */
  ghost predicate Carried(files: seq<File>, item: Item, sha: Bytes -> string) {
    && item.availability == "available"
    && item.archivePath == Some("sources/" + item.rootId + "/" + item.relativePath)
    && exists f :: f in files && f.name == "sources/" + item.rootId + "/" + item.relativePath && sha(f.content) == item.sha256
  }

  /** The inventory: declared roots; with sources exactly the sources there are, without them none. */
  ghost predicate InventoryKept(files: seq<File>, m: Manifest, config: Config, sha: Bytes -> string) {
    && (forall item :: item in m.inventory ==> item.rootId in config.roots)
    && (m.mode == Included ==> forall item :: item in m.inventory ==> Carried(files, item, sha))
    && (m.mode == InventoryOnly ==> forall item :: item in m.inventory ==> item.archivePath == None)
    && (forall f :: f in files && StartsWith(f.name, "sources/") ==>
          m.mode == Included
          && exists item :: item in m.inventory && f.name == "sources/" + item.rootId + "/" + item.relativePath)
  }

  /** One file per name, and the manifest read from its own file. */
  ghost predicate NamedOnce(files: seq<File>) {
    forall i, j :: 0 <= i < j < |files| ==> files[i].name != files[j].name
  }

  lemma {:induction false} LookupIn(files: seq<File>, name: string)
    requires Lookup(files, name).Some?
    ensures HasFile(files, name, Lookup(files, name).value)
  {
    if files[0].name != name {
      LookupIn(files[1..], name);
      assert files == [files[0]] + files[1..];
    } else {
      assert files[0] == File(name, files[0].content);
    }
  }

  lemma NamesNamedOnce(files: seq<File>)
    requires Distinct(NamesOf(files))
    ensures NamedOnce(files)
  {
    var names := NamesOf(files);
    forall i, j | 0 <= i < j < |files| ensures files[i].name != files[j].name {
      assert names[i] != names[j];
    }
  }

  // ----- The entries of an accepted manifest -----

  lemma {:induction false} OthersKeepOrder(files: seq<File>)
    requires NamedOnce(files)
    ensures NamedOnce(OtherFiles(files))
    ensures forall f :: f in OtherFiles(files) <==> f in files && f.name != ManifestName
  {
    if files != [] {
      var init, last := files[..|files| - 1], files[|files| - 1];
      OthersKeepOrder(init);
      assert files == init + [last];
      var kept := OtherFiles(init);
      forall i | 0 <= i < |kept| ensures kept[i].name != last.name {
        assert kept[i] in kept;
        var k :| 0 <= k < |init| && init[k] == kept[i];
        assert files[k].name != files[|files| - 1].name;
      }
    }
  }

  /** Whether or not the manifest comes first, what remains are the descriptors of the other files. */
  lemma ActualIsOthers(files: seq<File>, codec: Codec)
    requires NamedOnce(files)
    ensures ActualPayload(DescribeAll(files, codec)) == DescribeAll(OtherFiles(files), codec)
  {
    var entries := DescribeAll(files, codec);
    if files != [] && files[0].name == ManifestName {
      OthersAfterFirst(files);
      assert entries[1..] == DescribeAll(files[1..], codec);
    } else {
      DescribeOthers(files, codec);
    }
  }

  lemma {:induction false} OthersAfterFirst(files: seq<File>)
    requires files != [] && files[0].name == ManifestName && NamedOnce(files)
    ensures OtherFiles(files) == files[1..]
  {
    var init := files[..|files| - 1];
    assert files == init + [files[|files| - 1]];
    if |files| == 1 {
      assert init == [] && OtherFiles(init) == [];
    } else {
      OthersAfterFirst(init);
      assert files[1..] == init[1..] + [files[|files| - 1]];
      assert files[0].name != files[|files| - 1].name;
    }
  }

  lemma DescribedOnce(others: seq<File>, f: File, codec: Codec)
    requires NamedOnce(others) && f in others
    ensures Lists(DescribeAll(others, codec), f, codec.sha)
  {
    var entries := DescribeAll(others, codec);
    var i :| 0 <= i < |others| && others[i] == f;
    assert entries[i] == Descriptor(f.name, codec.sha(f.content), |f.content|);
    forall a, b | 0 <= a < b < |entries| && entries[a].path == f.name ensures entries[b].path != f.name {
      assert others[a].name != others[b].name;
    }
  }

  lemma EntriesList(files: seq<File>, m: Manifest, codec: Codec)
    requires NamedOnce(files) && m.entries == ActualPayload(DescribeAll(files, codec))
    ensures ListsAll(files, m, codec.sha)
  {
    ActualIsOthers(files, codec);
    OthersKeepOrder(files);
    var others := OtherFiles(files);
    forall f | f in files && f.name != ManifestName ensures Lists(m.entries, f, codec.sha) {
      DescribedOnce(others, f, codec);
    }
    forall d | d in m.entries
      ensures d.path != ManifestName && exists f :: f in files && d == Descriptor(f.name, codec.sha(f.content), |f.content|)
    {
      var i :| 0 <= i < |m.entries| && m.entries[i] == d;
      assert others[i] in others;
    }
  }

  // ----- The inventory of an accepted manifest -----

  lemma {:induction false} DigestListed(entries: seq<Descriptor>, path: string)
    requires DigestAt(entries, path).Some?
    ensures exists d :: d in entries && d.path == path && Some(d.sha256) == DigestAt(entries, path)
  {
    var last := entries[|entries| - 1];
    if last.path != path {
      DigestListed(entries[..|entries| - 1], path);
      assert entries == entries[..|entries| - 1] + [last];
    }
  }

  lemma {:induction false} ItemsFine(inventory: seq<Item>, n: nat, mode: SourceMode, roots: seq<string>, payload: seq<Descriptor>)
    requires n <= |inventory| && ItemsFault(inventory, n, mode, roots, payload).None?
    ensures forall i :: 0 <= i < n ==> ItemFault(inventory[i], mode, roots, payload).None?
  {
    if n > 0 {
      ItemsFine(inventory, n - 1, mode, roots, payload);
    }
  }

  lemma ItemCarried(files: seq<File>, m: Manifest, config: Config, item: Item, codec: Codec)
    requires ListsAll(files, m, codec.sha) && m.mode == Included
    requires ItemFault(item, m.mode, config.roots, m.entries).None?
    ensures Carried(files, item, codec.sha)
  {
    var path := ArchivePath(item.rootId, item.relativePath);
    DigestListed(m.entries, path);
    var d :| d in m.entries && d.path == path && Some(d.sha256) == DigestAt(m.entries, path);
    var f :| f in files && d == Descriptor(f.name, codec.sha(f.content), |f.content|);
  }

  lemma ClosureKeeps(files: seq<File>, m: Manifest, config: Config, codec: Codec)
    requires ListsAll(files, m, codec.sha) && ClosureFault(m, config, m.entries).None?
    ensures InventoryKept(files, m, config, codec.sha) && m.workspaceId == config.workspaceId
  {
    ItemsFine(m.inventory, |m.inventory|, m.mode, config.roots, m.entries);
    forall item | item in m.inventory ensures ItemFault(item, m.mode, config.roots, m.entries).None? {
      var i :| 0 <= i < |m.inventory| && m.inventory[i] == item;
    }
    forall item | item in m.inventory && m.mode == Included ensures Carried(files, item, codec.sha) {
      ItemCarried(files, m, config, item, codec);
    }
    forall f | f in files && StartsWith(f.name, "sources/") ensures f.name in ExpectedSources(m.inventory, m.mode) {
      assert "sources/"[0] == 's' && ManifestName[0] == 'm' && f.name[..8][0] == f.name[0];
      assert Lists(m.entries, f, codec.sha);
      assert f.name in SourcePaths(m.entries);
    }
  }

  // ----- The shape of an accepted archive -----

  lemma {:induction false} SizesKept(files: seq<File>, n: nat, reader: Reader)
    requires n <= |files| && SizeFault(files, n, reader).None?
    ensures forall i :: 0 <= i < n ==> |files[i].content| <= reader.maxEntryBytes
    ensures forall i :: 0 <= i < n && IsControl(files[i].name) ==> |files[i].content| <= reader.maxControlBytes
    ensures n > 0 ==> TotalBytes(files, n) <= reader.maxTotalBytes
  {
    if n > 0 {
      SizesKept(files, n - 1, reader);
    }
  }

  /** Safe names in ascending order, apart also when folded, and every size within the reader's limits. */
  ghost predicate WellShaped(files: seq<File>, codec: Codec, reader: Reader) {
    && WithinLimits(files, reader)
    && (forall i :: 0 <= i < |files| ==> reader.safeName(files[i].name))
    && (forall i, j :: 0 <= i < j < |files| ==>
          StringOrder.Leq(files[i].name, files[j].name)
          && codec.casefold(files[i].name) != codec.casefold(files[j].name))
  }

  lemma NamesOrdered(files: seq<File>, codec: Codec)
    requires CanonicalNames(NamesOf(files), codec)
    ensures forall i, j :: 0 <= i < j < |files| ==>
      StringOrder.Leq(files[i].name, files[j].name)
      && codec.casefold(files[i].name) != codec.casefold(files[j].name)
  {
    var names := NamesOf(files);
    forall i, j | 0 <= i < j < |files|
      ensures StringOrder.Leq(files[i].name, files[j].name)
        && codec.casefold(files[i].name) != codec.casefold(files[j].name)
    {
      assert names[i] == files[i].name && names[j] == files[j].name;
    }
  }

  lemma ShapeKept(files: seq<File>, codec: Codec, reader: Reader)
    requires ShapeFault(files, reader, codec).None?
    ensures WellShaped(files, codec, reader)
  {
    SizesKept(files, |files|, reader);
    NamesOrdered(files, codec);
  }

  // ----- The whole inspection -----

  lemma InspectedParts(files: seq<File>, m: Manifest, codec: Codec, reader: Reader)
    requires Inspect(files, reader, codec) == Ok(m)
    ensures ShapeFault(files, reader, codec).None? && Distinct(NamesOf(files))
    ensures ReadManifest(files, codec) == Some(m) && codec.manifestOk(m)
    ensures m.format == Format && m.profileId == reader.profileId
    ensures m.entries == ActualPayload(DescribeAll(files, codec))
    ensures ReadConfig(files, codec).Some? && codec.configOk(ReadConfig(files, codec).value)
    ensures Lookup(files, ProfileName).Some? && codec.profileOk(Lookup(files, ProfileName).value)
    ensures ClosureFault(m, ReadConfig(files, codec).value, m.entries).None?
  {
    assert ShapeFault(files, reader, codec).None?;
  }

  /** The control records of an archive, each read from the file of its name. */
  ghost predicate ControlsKept(files: seq<File>, m: Manifest, config: Config, profile: Bytes, codec: Codec) {
    && (exists content :: HasFile(files, ManifestName, content) && codec.readManifest(content) == Some(m))
    && (exists content :: HasFile(files, ConfigName, content) && codec.readConfig(content) == Some(config))
    && HasFile(files, ProfileName, profile)
    && codec.manifestOk(m) && codec.configOk(config) && codec.profileOk(profile)
    && m.format == "research-kb-backup@1.0" && m.workspaceId == config.workspaceId
  }

  /**
   An archive whose inspection is `Ok(m)`: safe ascending names within the limits, one file per name; manifest,
   configuration and profile read from their own files; every other file listed in the manifest once, under the digest and size of its
   bytes, and nothing else listed; every inventory item under a declared root, and with sources included
   its bytes at its archive path under its recorded digest, and no other source bytes.
   */
  lemma InspectedArchive(files: seq<File>, m: Manifest, codec: Codec, reader: Reader) returns (config: Config, profile: Bytes)
    requires Inspect(files, reader, codec) == Ok(m)
    ensures WellShaped(files, codec, reader) && NamedOnce(files) && m.profileId == reader.profileId
    ensures ControlsKept(files, m, config, profile, codec)
    ensures ListsAll(files, m, codec.sha) && InventoryKept(files, m, config, codec.sha)
  {
    InspectedParts(files, m, codec, reader);
    ShapeKept(files, codec, reader);
    NamesNamedOnce(files);
    config, profile := ReadConfig(files, codec).value, Lookup(files, ProfileName).value;
    LookupIn(files, ManifestName);
    LookupIn(files, ConfigName);
    LookupIn(files, ProfileName);
    EntriesList(files, m, codec);
    ClosureKeeps(files, m, config, codec);
  }

  lemma SharedFile(a: seq<File>, b: seq<File>, m: Manifest, codec: Codec, f: File)
    requires Injective(codec.sha) && ListsAll(a, m, codec.sha) && ListsAll(b, m, codec.sha)
    requires f in a && f.name != ManifestName
    ensures f in b
  {
    assert Lists(m.entries, f, codec.sha);
    var d := Descriptor(f.name, codec.sha(f.content), |f.content|);
    assert d in m.entries;
    var g :| g in b && d == Descriptor(g.name, codec.sha(g.content), |g.content|);
    assert g.content == f.content;
  }

  /** With a collision-free digest, two archives that inspect to one manifest hold the same payload. */
  lemma ManifestDeterminesPayload(a: seq<File>, b: seq<File>, m: Manifest, codec: Codec, reader: Reader)
    requires Injective(codec.sha)
    requires Inspect(a, reader, codec) == Ok(m) && Inspect(b, reader, codec) == Ok(m)
    ensures forall f: File :: f.name != ManifestName ==> (f in a <==> f in b)
  {
    var _, _ := InspectedArchive(a, m, codec, reader);
    var _, _ := InspectedArchive(b, m, codec, reader);
    forall f: File | f.name != ManifestName ensures f in a <==> f in b {
      if f in a {
        SharedFile(a, b, m, codec, f);
      }
      if f in b {
        SharedFile(b, a, m, codec, f);
      }
    }
  }
}
