/** When finalize succeeds on an output directory. */
module ReleaseFinalizing {
  import opened Wrappers
  import opened Orders
  import opened ByteStrings
  import opened JsonText
  import opened ReleaseContents
  import opened ReleaseManifests
  import opened ReleaseOrder

  lemma {:induction false} ListedAppend(a: seq<Stored>, b: seq<Stored>)
    ensures Listed(a + b) == Listed(a) + Listed(b)
  {
    if a == [] {
      assert a + b == b;
    } else {
      assert (a + b)[1..] == a[1..] + b;
      ListedAppend(a[1..], b);
    }
  }

  /** Only a directory of that name stops a write, and no write makes a tree plain that was not, or the reverse. */
  lemma {:induction false} WriteRootExactly(es: seq<DirEntry>, name: Name, bytes: Bytes)
    ensures WriteRoot(es, name, bytes).Ok? <==> !DirectoryAt(es, name)
    ensures WriteRoot(es, name, bytes).Ok? ==> (Plain(WriteRoot(es, name, bytes).value) <==> Plain(es))
  {
    if es == [] {
      assert [DirEntry(name, File(bytes))][1..] == [];
    } else if es[0].name == name {
      assert es[0].node.File? || es[0].node.Link? ==> WriteRoot(es, name, bytes).value[1..] == es[1..];
    } else {
      WriteRootExactly(es[1..], name, bytes);
    }
  }

  predicate DirectoryAt(es: seq<DirEntry>, name: Name) {
    var n := ReleaseManifests.Find(es, name);
    n.Some? && n.value.Directory?
  }

  lemma {:induction false} ManifestUnlisted(es: seq<DirEntry>, bytes: Bytes)
    requires Plain(es) && WriteRoot(es, MANIFEST, bytes).Ok?
    ensures Plain(WriteRoot(es, MANIFEST, bytes).value)
    ensures Listed(Visited(WriteRoot(es, MANIFEST, bytes).value, []).value) == Listed(Visited(es, []).value)
    decreases |es|
  {
    WriteRootExactly(es, MANIFEST, bytes);
    var written := DirEntry(MANIFEST, File(bytes));
    VisitedOne(written, []);
    assert [] + [MANIFEST] == [MANIFEST];
    if es == [] {
    } else {
      var first := Visited([es[0]], []);
      assert es == [es[0]] + es[1..];
      VisitedOne(es[0], []);
      VisitedAppend([es[0]], es[1..], []);
      ListedAppend(first.value, Visited(es[1..], []).value);
      if es[0].name == MANIFEST {
        VisitedAppend([written], es[1..], []);
        ListedAppend([Stored([MANIFEST], bytes)], Visited(es[1..], []).value);
      } else {
        ManifestUnlisted(es[1..], bytes);
        var after := WriteRoot(es[1..], MANIFEST, bytes).value;
        VisitedAppend([es[0]], after, []);
        ListedAppend(first.value, Visited(after, []).value);
      }
    }
  }

  lemma {:induction false} RootVisited(es: seq<DirEntry>, name: Name)
    requires Plain(es) && ReleaseManifests.Find(es, name).Some? && ReleaseManifests.Find(es, name).value.File?
    ensures Stored([name], ReleaseManifests.Find(es, name).value.bytes) in Visited(es, []).value
  {
    assert [] + [name] == [name];
    if es[0].name != name {
      RootVisited(es[1..], name);
    }
  }

  lemma HeadersListed(root: seq<DirEntry>, written: seq<DirEntry>, w: World)
    requires Plain(written) && WriteRoot(root, HEADERS, w.headers) == Ok(written)
    ensures Listed(RegularFiles(written, w.le).value) != []
  {
    WriteRootFind(root, HEADERS, w.headers, HEADERS);
    PlainRoot(written, [], HEADERS);
    RootVisited(written, HEADERS);
    hide WriteRoot, Visited, Sort, ReleaseManifests.Find;
    ManifestOk();
    HeadersOk();
    var f, fs := Stored([HEADERS], w.headers), Visited(written, []).value;
    SameElements(fs, Sort(fs, ByPath(w.le)));
    ListedExactly(Sort(fs, ByPath(w.le)), f);
    assert [HEADERS][0] != [MANIFEST][0];
  }

  /** What finalize takes the inventory of: the files beside the manifest, the written headers among them. */
  function Assets(root: seq<DirEntry>, w: World): seq<Stored>
    requires Plain(root) && !DirectoryAt(root, HEADERS)
  {
    WriteRootExactly(root, HEADERS, w.headers);
    Listed(RegularFiles(WriteRoot(root, HEADERS, w.headers).value, w.le).value)
  }

  /**
   The manifest written for some assets reads back with this commit, these headers and the assets' inventory,
   and neither it, the headers nor the contents of the assets meet an objection.
   */
  ghost predicate Agreeable(assets: seq<Stored>, w: World) {
    var bytes := w.render(w.hash(w.headers), Inventory(assets, w.hash));
    match w.parse(bytes)
    case None => false
    case Some(m) =>
      && m.sourceCommit == w.commit && w.bound(bytes)
      && m.headersSha256 == w.hash(w.headers) && w.headersAccepted(bytes, w.headers)
      && m.assets.Some? && Show(m.assets.value) == Show(Inventory(assets, w.hash))
      && CheckContents(Texts(assets, w.decode), m.apiUrl, m.wsUrl, m.basePath).Ok?
  }

  /**
   Finalize succeeds exactly when there are only directories and regular files, no directory has a name it
   writes, and what it then writes is agreeable.
   */
  lemma FinalizeSucceedsExactly(root: seq<DirEntry>, w: World)
    requires TotalPreorder(w.le)
    ensures Finalize(root, w).Ok? <==>
            && Plain(root) && !DirectoryAt(root, HEADERS) && !DirectoryAt(root, MANIFEST)
            && Agreeable(Assets(root, w), w)
  {
    hide TotalPreorder, WriteRoot, Visited, ReleaseManifests.Find, Listed, Inventory, Sort, ReadRoot,
         CheckManifest, CheckHeaders, CheckFiles, Agreeable, Show;
    WriteRootExactly(root, HEADERS, w.headers);
    if WriteRoot(root, HEADERS, w.headers).Ok? {
      var written := WriteRoot(root, HEADERS, w.headers).value;
      ManifestOk();
      HeadersOk();
      WriteRootFind(root, HEADERS, w.headers, MANIFEST);
      if Plain(root) {
        HeadersListed(root, written, w);
        var assets := Assets(root, w);
        var manifestBytes := w.render(w.hash(w.headers), Inventory(assets, w.hash));
        WriteRootExactly(written, MANIFEST, manifestBytes);
        if WriteRoot(written, MANIFEST, manifestBytes).Ok? {
          var finished := WriteRoot(written, MANIFEST, manifestBytes).value;
          ManifestUnlisted(written, manifestBytes);
          ByPathTotal(w.le);
          ListedSort(Visited(written, []).value, ByPath(w.le));
          ListedSort(Visited(finished, []).value, ByPath(w.le));
          FinishedReads(root, written, finished, manifestBytes, w);
          FinishedPassesExactly(finished, manifestBytes, assets, w);
        }
      }
    }
  }

  lemma FinishedReads(root: seq<DirEntry>, written: seq<DirEntry>, finished: seq<DirEntry>, manifestBytes: Bytes,
                      w: World)
    requires WriteRoot(root, HEADERS, w.headers) == Ok(written)
    requires WriteRoot(written, MANIFEST, manifestBytes) == Ok(finished)
    requires Plain(written) && Plain(finished)
    ensures ReadRoot(finished, MANIFEST) == Ok(manifestBytes) && ReadRoot(finished, HEADERS) == Ok(w.headers)
  {
    hide WriteRoot, Visited, ReleaseManifests.Find;
    ManifestOk();
    HeadersOk();
    WriteRootFind(root, HEADERS, w.headers, MANIFEST);
    WriteRootFind(written, MANIFEST, manifestBytes, HEADERS);
    PlainRoot(written, [], HEADERS);
    PlainRoot(finished, [], MANIFEST);
  }

  /** The check before the attestation and the one after it succeed alike. */
  lemma FinishedPassesExactly(finished: seq<DirEntry>, manifestBytes: Bytes, assets: seq<Stored>, w: World)
    requires ReadRoot(finished, MANIFEST) == Ok(manifestBytes) && ReadRoot(finished, HEADERS) == Ok(w.headers)
    requires manifestBytes == w.render(w.hash(w.headers), Inventory(assets, w.hash))
    requires Plain(finished) && Listed(RegularFiles(finished, w.le).value) == assets
    ensures CheckInternal(finished, false, None, w).Ok? <==> Agreeable(assets, w)
    ensures CheckInternal(finished, true, Some(Attestation(w.commit, w.hash(manifestBytes))), w).Ok? <==>
            Agreeable(assets, w)
  {
    hide ReadRoot, Visited, Sort, Listed, Inventory, Show, CheckContents, Texts;
  }
}
