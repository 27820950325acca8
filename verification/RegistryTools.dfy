/** The export worklist and the archive verifier as they run
    (scripts/export-apexfabric-registry.py, scripts/verify-registry-export.py),
    proved against the definitions in Registry. */
module RegistryTools {
  import opened Options
  import opened Registry

  datatype Error =
    | UnsupportedDigest | ForeignRepository | MissingBlob | CorruptManifest | NotAManifest | BrokenDescriptor
    | UnsafeArchive | IncompleteArchive | ForeignInventory

  datatype Exported = Exported(archive: seq<Member>, inventory: Inventory)

  // ---------------------------------------------------------------- export

  /** Validates every link and gathers the tags' roots. */
  method InspectRepositories(links: seq<Link>) returns (r: Result<(set<Digest>, set<Image>), Error>)
    ensures r.Ok? <==> forall i :: 0 <= i < |links| ==> LinkOk(links[i])
    ensures r.Ok? ==> r.value == (Roots(links), Images(links))
  {
    var roots, images := {}, {};
    var i := 0;
    while i < |links|
      invariant 0 <= i <= |links|
      invariant forall k :: 0 <= k < i ==> LinkOk(links[k])
      invariant roots == set k | 0 <= k < i && links[k].tag.Some? :: links[k].digest
      invariant images == set k | 0 <= k < i && links[k].tag.Some? :: Image(links[k].tag.value, links[k].digest)
    {
      var link := links[i];
      if !link.digest.Sha256? {
        return Err(UnsupportedDigest);
      }
      if link.tag.Some? {
        if !(Owner <= link.tag.value.repository) {
          return Err(ForeignRepository);
        }
        roots := roots + {link.digest};
        images := images + {Image(link.tag.value, link.digest)};
      }
      i := i + 1;
    }
    return Ok((roots, images));
  }

  /** The leaves of a manifest, all supported, or the first failure. */
  method CollectLeaves(leaves: seq<Option<Digest>>) returns (r: Result<set<Digest>, Error>)
    ensures r.Ok? <==> WellFormed(leaves) && forall d :: d in DigestsOf(leaves) ==> d.Sha256?
    ensures r.Ok? ==> r.value == DigestsOf(leaves)
  {
    var found := {};
    var i := 0;
    while i < |leaves|
      invariant 0 <= i <= |leaves|
      invariant WellFormed(leaves[..i])
      invariant found == set k | 0 <= k < i && leaves[k].Some? :: leaves[k].value
      invariant forall d :: d in found ==> d.Sha256?
    {
      if leaves[i].None? {
        return Err(BrokenDescriptor);
      }
      if !leaves[i].value.Sha256? {
        assert leaves[i].value in DigestsOf(leaves);
        return Err(UnsupportedDigest);
      }
      found := found + {leaves[i].value};
      i := i + 1;
    }
    return Ok(found);
  }

  method CollectManifests(manifests: seq<Option<Digest>>) returns (r: Result<set<Digest>, Error>)
    ensures r.Ok? <==> WellFormed(manifests)
    ensures r.Ok? ==> r.value == DigestsOf(manifests)
  {
    var found := {};
    var i := 0;
    while i < |manifests|
      invariant 0 <= i <= |manifests|
      invariant WellFormed(manifests[..i])
      invariant found == set k | 0 <= k < i && manifests[k].Some? :: manifests[k].value
    {
      if manifests[i].None? {
        return Err(BrokenDescriptor);
      }
      found := found + {manifests[i].value};
      i := i + 1;
    }
    return Ok(found);
  }

  /** One manifest of the walk: its child manifests and its leaves. */
  method ReadManifest(blobs: Blobs, d: Digest) returns (r: Result<(set<Digest>, set<Digest>), Error>)
    ensures r.Ok? <==> Readable(blobs, d)
    ensures r.Ok? ==> r.value == (ManifestRefs(blobs, d), LeafRefs(blobs, d))
  {
    if !d.Sha256? {
      return Err(UnsupportedDigest);
    }
    if d.hash !in blobs {
      return Err(MissingBlob);
    }
    var data := blobs[d.hash];
    if data.hash != d.hash {
      return Err(CorruptManifest);
    }
    if !data.doc.Object? {
      return Err(NotAManifest);
    }
    var children := CollectManifests(data.doc.manifests);
    if children.Err? {
      return Err(children.error);
    }
    var leaves := CollectLeaves(Leaves(data.doc));
    if leaves.Err? {
      return Err(leaves.error);
    }
    return Ok((children.value, leaves.value));
  }

  function Unvisited(blobs: Blobs, visited: set<Digest>): set<nat> {
    set h | h in blobs && Sha256(h) !in visited
  }

  /** The worklist: on success the digests gathered are exactly those reachable from
      a tag, in whatever order the pending manifests are taken. */
  method Walk(blobs: Blobs, roots: set<Digest>) returns (r: Result<set<Digest>, Error>)
    ensures r.Ok? <==> forall d :: Walked(blobs, roots, d) ==> Readable(blobs, d)
    ensures r.Ok? ==> forall d :: d in r.value <==> Reachable(blobs, roots, d)
  {
    var digests, pending, visited := roots, roots, {};
    ghost var seen := roots;
    RootsAreWalked(blobs, roots);
    while pending != {}
      invariant seen == visited + pending && roots <= seen
      invariant AllWalked(blobs, roots, seen) && LeadsOnlyTo(blobs, visited, seen)
      invariant digests == seen + LeavesOf(blobs, visited)
      decreases Unvisited(blobs, visited), pending
    {
      var digest :| digest in pending;
      ghost var before := pending;
      pending := pending - {digest};
      if digest in visited {
        PopSeen(visited, before, digest);
        continue;
      }
      var manifest := ReadManifest(blobs, digest);
      if manifest.Err? {
        return Err(manifest.error);
      }
      MarkVisited(blobs, visited, digest);
      PopNew(visited, before, digest, ManifestRefs(blobs, digest));
      Regroup(seen, LeavesOf(blobs, visited), ManifestRefs(blobs, digest), LeafRefs(blobs, digest));
      VisitManifest(blobs, roots, visited, seen, digest);
      visited := visited + {digest};
      pending := pending + manifest.value.0;
      seen := seen + manifest.value.0;
      digests := digests + manifest.value.0 + manifest.value.1;
    }
    GatheredIsReachable(blobs, roots, visited);
    return Ok(digests);
  }

  lemma PopSeen(visited: set<Digest>, pending: set<Digest>, digest: Digest)
    requires digest in visited
    ensures visited + (pending - {digest}) == visited + pending
  {
  }

  lemma PopNew(visited: set<Digest>, pending: set<Digest>, digest: Digest, found: set<Digest>)
    requires digest in pending
    ensures (visited + {digest}) + ((pending - {digest}) + found) == visited + pending + found
  {
  }

  lemma Regroup(seen: set<Digest>, leaves: set<Digest>, found: set<Digest>, more: set<Digest>)
    ensures (seen + leaves) + found + more == (seen + found) + (leaves + more)
  {
  }

  ghost predicate AllWalked(blobs: Blobs, roots: set<Digest>, seen: set<Digest>) {
    forall d :: d in seen ==> Walked(blobs, roots, d)
  }

  /** The visited manifests are readable and name only manifests already seen. */
  ghost predicate LeadsOnlyTo(blobs: Blobs, visited: set<Digest>, seen: set<Digest>) {
    forall d :: d in visited ==> Readable(blobs, d) && ManifestRefs(blobs, d) <= seen
  }

  ghost function LeavesOf(blobs: Blobs, visited: set<Digest>): set<Digest> {
    set m, d | m in visited && d in LeafRefs(blobs, m) :: d
  }

  lemma RootsAreWalked(blobs: Blobs, roots: set<Digest>)
    ensures AllWalked(blobs, roots, roots)
  {
    forall d | d in roots ensures Walked(blobs, roots, d) {
      RootIsWalked(blobs, roots, d);
    }
  }

  lemma MarkVisited(blobs: Blobs, visited: set<Digest>, digest: Digest)
    requires Readable(blobs, digest) && digest !in visited
    ensures Unvisited(blobs, visited + {digest}) < Unvisited(blobs, visited)
    ensures LeavesOf(blobs, visited + {digest}) == LeavesOf(blobs, visited) + LeafRefs(blobs, digest)
  {
    assert digest.hash in Unvisited(blobs, visited) && digest.hash !in Unvisited(blobs, visited + {digest});
    assert digest in visited + {digest};
    assert forall m :: m in visited ==> m in visited + {digest};
  }

  lemma VisitManifest(blobs: Blobs, roots: set<Digest>, visited: set<Digest>, seen: set<Digest>, digest: Digest)
    requires AllWalked(blobs, roots, seen) && LeadsOnlyTo(blobs, visited, seen)
    requires digest in seen && Readable(blobs, digest)
    ensures AllWalked(blobs, roots, seen + ManifestRefs(blobs, digest))
    ensures LeadsOnlyTo(blobs, visited + {digest}, seen + ManifestRefs(blobs, digest))
  {
    forall d | d in ManifestRefs(blobs, digest) ensures Walked(blobs, roots, d) {
      StepIsWalked(blobs, roots, digest, d);
    }
  }

  lemma GatheredIsReachable(blobs: Blobs, roots: set<Digest>, visited: set<Digest>)
    requires roots <= visited && AllWalked(blobs, roots, visited) && LeadsOnlyTo(blobs, visited, visited)
    ensures forall d :: Walked(blobs, roots, d) <==> d in visited
    ensures forall d :: d in visited + LeavesOf(blobs, visited) <==> Reachable(blobs, roots, d)
  {
    forall d | Walked(blobs, roots, d) ensures d in visited {
      var p :| IsChain(blobs, roots, p) && p[|p| - 1] == d;
      ClosedHoldsChain(blobs, roots, visited, p);
    }
  }

  /** The blobs of these digests, each once. */
  method CopyBlobs(blobs: Blobs, digests: set<Digest>) returns (r: Result<seq<Member>, Error>)
    ensures r.Ok? <==> forall d :: d in digests ==> Stored(blobs, d)
    ensures r.Ok? ==> |r.value| == |digests| && forall m :: m in r.value <==> IsBlobOf(blobs, digests, m)
  {
    var copied: seq<Member> := [];
    var left := digests;
    while left != {}
      invariant left <= digests && |copied| + |left| == |digests|
      invariant forall d :: d in digests - left ==> Stored(blobs, d)
      invariant forall m :: m in copied <==> IsBlobOf(blobs, digests - left, m)
    {
      var d :| d in left;
      if !d.Sha256? {
        return Err(UnsupportedDigest);
      }
      if d.hash !in blobs {
        return Err(MissingBlob);
      }
      copied := copied + [Blob(d.hash, blobs[d.hash])];
      left := left - {d};
    }
    assert digests - left == digests;
    return Ok(copied);
  }

  /** Copies only the links whose blob is exported. */
  method AppendLiveMetadata(archive: seq<Member>, links: seq<Link>, digests: set<Digest>) returns (r: seq<Member>)
    ensures r == archive + LiveLinks(links, digests)
  {
    r := archive;
    var i := 0;
    while i < |links|
      invariant 0 <= i <= |links|
      invariant r == archive + LiveLinks(links[..i], digests)
    {
      assert links[..i + 1][..i] == links[..i];
      if links[i].digest in digests {
        r := r + [Metadata(true, links[i])];
      }
      i := i + 1;
    }
    assert links[..i] == links;
  }

  method Export(links: seq<Link>, blobs: Blobs) returns (r: Result<Exported, Error>, ghost digests: set<Digest>)
    ensures r.Ok? <==> Exportable(links, blobs)
    ensures r.Ok? ==>
              && IsExport(links, blobs, digests, r.value.archive)
              && r.value.inventory == Inventory(r.value.archive, Images(links), |digests|)
  {
    digests := {};
    var found := InspectRepositories(links);
    if found.Err? {
      return Err(found.error), {};
    }
    var walked := Walk(blobs, found.value.0);
    if walked.Err? {
      return Err(walked.error), {};
    }
    var stored := CopyBlobs(blobs, walked.value);
    if stored.Err? {
      return Err(stored.error), {};
    }
    digests := walked.value;
    var archive := AppendLiveMetadata(stored.value, links, walked.value);
    return Ok(Exported(archive, Inventory(archive, found.value.1, |walked.value|))), digests;
  }

  // ---------------------------------------------------------------- verify

  /** One pass over the archive. */
  method InspectArchive(archive: seq<Member>) returns (r: Result<(set<Image>, nat), Error>)
    ensures r.Ok? <==> Accepts(archive)
    ensures r.Ok? ==> r.value == (ArchiveImages(archive), |ArchiveBlobs(archive)|)
  {
    var blobs, references, tags := {}, {}, {};
    var i := 0;
    while i < |archive|
      invariant 0 <= i <= |archive|
      invariant forall k :: 0 <= k < i ==> MemberOk(archive[k])
      invariant blobs == ArchiveBlobs(archive[..i])
      invariant references == ArchiveRefs(archive[..i])
      invariant tags == ArchiveImages(archive[..i])
    {
      OneMoreMember(archive, i);
      var item := archive[i];
      if !MemberOk(item) {
        assert item in archive;
        return Err(UnsafeArchive);
      }
      match item {
        case Metadata(_, link) =>
          references := references + {link.digest};
          if link.tag.Some? && link.atTag {
            tags := tags + {Image(link.tag.value, link.digest)};
          }
        case Blob(hash, content) =>
          blobs := blobs + {Sha256(hash)};
          if ReadsReferences(content) {
            references := references + DigestsOf(Descriptors(content.doc));
          }
        case _ =>
      }
      i := i + 1;
    }
    assert archive[..i] == archive;
    if tags == {} || !(references <= blobs) {
      return Err(IncompleteArchive);
    }
    return Ok((tags, |blobs|));
  }

  lemma OneMoreMember(archive: seq<Member>, i: nat)
    requires i < |archive|
    ensures ArchiveBlobs(archive[..i + 1]) == ArchiveBlobs(archive[..i]) + MemberBlobs(archive[i])
    ensures ArchiveRefs(archive[..i + 1]) == ArchiveRefs(archive[..i]) + MemberRefs(archive[i])
    ensures ArchiveImages(archive[..i + 1]) == ArchiveImages(archive[..i]) + MemberImages(archive[i])
  {
    assert archive[..i + 1] == archive[..i] + [archive[i]];
    assert archive[i] in archive[..i + 1];
    assert forall m :: m in archive[..i] ==> m in archive[..i + 1];
  }

  method Verify(archive: seq<Member>, inventory: Inventory) returns (r: Result<(), Error>)
    ensures r.Ok? <==> Verifies(archive, inventory)
  {
    if archive != inventory.sealed {
      return Err(ForeignInventory);
    }
    var actual := InspectArchive(archive);
    if actual.Err? {
      return Err(actual.error);
    }
    if inventory.images != actual.value.0 {
      return Err(ForeignInventory);
    }
    return Ok(());
  }

  /** An inventory rebuilt from the archive alone, for accepted archives only; it verifies. */
  method RecoverInventory(archive: seq<Member>) returns (r: Result<Inventory, Error>)
    ensures r.Ok? <==> Accepts(archive)
    ensures r.Ok? ==> Verifies(archive, r.value) && r.value.blobCount == |ArchiveBlobs(archive)|
  {
    var actual := InspectArchive(archive);
    if actual.Err? {
      return Err(actual.error);
    }
    return Ok(Inventory(archive, actual.value.0, actual.value.1));
  }

  /** What the exporter ships verifies under its own inventory exactly if it is
      shippable and every tag has its link; then recovery rebuilds that very inventory. */
  method ExportThenVerify(links: seq<Link>, blobs: Blobs) returns (exported: bool, verified: bool, recovered: bool)
    ensures exported <==> Exportable(links, blobs)
    ensures exported ==> exists digests ::
              && (forall d :: d in digests <==> Reachable(blobs, Roots(links), d))
              && (verified <==> Shippable(links, blobs, digests) && TagsAreLinked(links))
    ensures verified ==> recovered
  {
    exported, verified, recovered := false, false, false;
    var r, digests := Export(links, blobs);
    if r.Err? {
      return;
    }
    exported := true;
    ExportIsAccepted(links, blobs, digests, r.value.archive);
    ExportInventory(links, blobs, digests, r.value.archive);
    SameImages(links);
    var v := Verify(r.value.archive, r.value.inventory);
    verified := v.Ok?;
    if verified {
      var again := RecoverInventory(r.value.archive);
      recovered := again.Ok? && again.value == r.value.inventory;
    }
  }
}
