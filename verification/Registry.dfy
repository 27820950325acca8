/** A registry's blobs, links and archives
    (scripts/export-apexfabric-registry.py, scripts/verify-registry-export.py).

    Documents have the shapes of the OCI Image Format Specification, sections
    "Image Index" and "Image Manifest". Every content carries the hash of its
    bytes, so nothing below needs hashing to be injective. */
module Registry {
  import opened Options

  datatype Digest = Sha256(hash: nat) | Unsupported(text: string)

  /** A blob read as JSON. A descriptor without a digest is None. */
  datatype Doc =
    | NotJson
    | NotObject
    | Object(schema2: bool, manifests: seq<Option<Digest>>, layers: seq<Option<Digest>>, config: Option<Option<Digest>>)

  datatype Content = Content(hash: nat, bytes: nat, doc: Doc)
  datatype TagName = TagName(repository: string, tag: string)
  datatype Image = Image(name: TagName, digest: Digest)

  /** A metadata file that names a digest. `tag` when its path leads through a tag's
      current link, which is what the exporter looks for; `atTag` when the path ends
      there, which is what the verifier asks for besides. */
  datatype Link = Link(path: string, bytes: nat, digest: Digest, tag: Option<TagName>, atTag: bool)

  datatype Member =
    | UnsafeMember
    | Directory
    | Metadata(isLink: bool, link: Link)
    | Blob(hash: nat, content: Content)
    | Foreign

  type Blobs = map<nat, Content>

  datatype Inventory = Inventory(sealed: seq<Member>, images: set<Image>, blobCount: nat)

  function DigestsOf(descriptors: seq<Option<Digest>>): set<Digest> {
    set i | 0 <= i < |descriptors| && descriptors[i].Some? :: descriptors[i].value
  }

  predicate WellFormed(descriptors: seq<Option<Digest>>) {
    forall i :: 0 <= i < |descriptors| ==> descriptors[i].Some?
  }

  /** The leaves of a document: its layers and its config. */
  function Leaves(doc: Doc): seq<Option<Digest>>
    requires doc.Object?
  {
    doc.layers + if doc.config.Some? then [doc.config.value] else []
  }

  function Descriptors(doc: Doc): seq<Option<Digest>>
    requires doc.Object?
  {
    doc.manifests + Leaves(doc)
  }

  lemma DescriptorsAre(doc: Doc)
    requires doc.Object?
    ensures DigestsOf(Descriptors(doc)) == DigestsOf(doc.manifests) + DigestsOf(Leaves(doc))
    ensures WellFormed(Descriptors(doc)) <==> WellFormed(doc.manifests) && WellFormed(Leaves(doc))
  {
    var all, first, second := Descriptors(doc), doc.manifests, Leaves(doc);
    assert forall i :: 0 <= i < |first| ==> all[i] == first[i];
    assert forall i :: 0 <= i < |second| ==> all[|first| + i] == second[i];
  }

  // ---------------------------------------------------------------- reachability

  function Parsed(blobs: Blobs, d: Digest): Doc {
    if d.Sha256? && d.hash in blobs then blobs[d.hash].doc else NotJson
  }

  function ManifestRefs(blobs: Blobs, d: Digest): set<Digest> {
    if Parsed(blobs, d).Object? then DigestsOf(Parsed(blobs, d).manifests) else {}
  }

  function LeafRefs(blobs: Blobs, d: Digest): set<Digest> {
    if Parsed(blobs, d).Object? then DigestsOf(Leaves(Parsed(blobs, d))) else {}
  }

  /** A chain of manifests from a tag. */
  ghost predicate IsChain(blobs: Blobs, roots: set<Digest>, p: seq<Digest>) {
    && p != [] && p[0] in roots
    && forall i :: 0 <= i < |p| - 1 ==> p[i + 1] in ManifestRefs(blobs, p[i])
  }

  ghost predicate Walked(blobs: Blobs, roots: set<Digest>, d: Digest) {
    exists p :: IsChain(blobs, roots, p) && p[|p| - 1] == d
  }

  /** Reachable from a current tag: a manifest on a chain, or a leaf of one. */
  ghost predicate Reachable(blobs: Blobs, roots: set<Digest>, d: Digest) {
    Walked(blobs, roots, d) || exists m :: Walked(blobs, roots, m) && d in LeafRefs(blobs, m)
  }

  lemma RootIsWalked(blobs: Blobs, roots: set<Digest>, d: Digest)
    requires d in roots
    ensures Walked(blobs, roots, d)
  {
    assert IsChain(blobs, roots, [d]);
  }

  lemma StepIsWalked(blobs: Blobs, roots: set<Digest>, d: Digest, next: Digest)
    requires Walked(blobs, roots, d) && next in ManifestRefs(blobs, d)
    ensures Walked(blobs, roots, next)
  {
    var p :| IsChain(blobs, roots, p) && p[|p| - 1] == d;
    assert IsChain(blobs, roots, p + [next]);
    assert (p + [next])[|p|] == next;
  }

  lemma {:induction false} ClosedHoldsChain(blobs: Blobs, roots: set<Digest>, closed: set<Digest>, p: seq<Digest>)
    requires roots <= closed && (forall d :: d in closed ==> ManifestRefs(blobs, d) <= closed)
    requires IsChain(blobs, roots, p)
    ensures p[|p| - 1] in closed
  {
    if |p| > 1 {
      ClosedHoldsChain(blobs, roots, closed, p[..|p| - 1]);
    }
  }

  // ---------------------------------------------------------------- what can be exported

  const Owner := "apexfabric/"

  predicate LinkOk(link: Link) {
    link.digest.Sha256? && (link.tag.Some? ==> Owner <= link.tag.value.repository)
  }

  /** A manifest the walk can read: supported, stored, intact, an object with whole descriptors and supported leaves. */
  predicate Readable(blobs: Blobs, d: Digest) {
    && d.Sha256? && d.hash in blobs && blobs[d.hash].hash == d.hash
    && blobs[d.hash].doc.Object?
    && WellFormed(blobs[d.hash].doc.manifests) && WellFormed(Leaves(blobs[d.hash].doc))
    && forall leaf :: leaf in DigestsOf(Leaves(blobs[d.hash].doc)) ==> leaf.Sha256?
  }

  function Roots(links: seq<Link>): set<Digest> {
    set i | 0 <= i < |links| && links[i].tag.Some? :: links[i].digest
  }

  function Images(links: seq<Link>): set<Image> {
    set i | 0 <= i < |links| && links[i].tag.Some? :: Image(links[i].tag.value, links[i].digest)
  }

  /** The images the verifier sees among these links. */
  function ImagesAtTags(links: seq<Link>): set<Image> {
    set i | 0 <= i < |links| && links[i].tag.Some? && links[i].atTag :: Image(links[i].tag.value, links[i].digest)
  }

  predicate Stored(blobs: Blobs, d: Digest) {
    d.Sha256? && d.hash in blobs
  }

  ghost predicate Exportable(links: seq<Link>, blobs: Blobs) {
    && (forall i :: 0 <= i < |links| ==> LinkOk(links[i]))
    && (forall d :: Walked(blobs, Roots(links), d) ==> Readable(blobs, d))
    && (forall d :: Reachable(blobs, Roots(links), d) ==> Stored(blobs, d))
  }

  function LiveLinks(links: seq<Link>, digests: set<Digest>): seq<Member> {
    if links == [] then []
    else LiveLinks(links[..|links| - 1], digests)
         + if links[|links| - 1].digest in digests then [Metadata(true, links[|links| - 1])] else []
  }

  lemma {:induction false} LiveLinksAre(links: seq<Link>, digests: set<Digest>)
    ensures forall m :: m in LiveLinks(links, digests)
              <==> m.Metadata? && m.isLink && m.link in links && m.link.digest in digests
  {
    if links != [] {
      LiveLinksAre(links[..|links| - 1], digests);
      assert links == links[..|links| - 1] + [links[|links| - 1]];
    }
  }

  /** An archive written for these digests: their blobs, each once, then the live links. */
  ghost predicate IsExport(links: seq<Link>, blobs: Blobs, digests: set<Digest>, archive: seq<Member>) {
    && (forall d :: d in digests <==> Reachable(blobs, Roots(links), d))
    && (forall d :: d in digests ==> Stored(blobs, d))
    && exists stored: seq<Member> ::
         && archive == stored + LiveLinks(links, digests)
         && (forall m :: m in stored <==> IsBlobOf(blobs, digests, m))
  }

  predicate IsBlobOf(blobs: Blobs, digests: set<Digest>, m: Member) {
    m.Blob? && Sha256(m.hash) in digests && m.hash in blobs && m.content == blobs[m.hash]
  }

  // ---------------------------------------------------------------- what is accepted

  const SmallBytes := 4 * 1024 * 1024
  const LinkBytes := 128

  /** Whether the verifier reads the references of a blob. */
  predicate ReadsReferences(c: Content) {
    c.bytes < SmallBytes && c.doc.Object? && c.doc.schema2
  }

  predicate MemberOk(m: Member) {
    match m
    case UnsafeMember => false
    case Directory => true
    case Metadata(isLink, link) => isLink && link.bytes <= LinkBytes && link.digest.Sha256?
    case Blob(hash, content) => content.hash == hash && (ReadsReferences(content) ==> WellFormed(Descriptors(content.doc)))
    case Foreign => false
  }

  function MemberRefs(m: Member): set<Digest> {
    match m
    case Metadata(_, link) => {link.digest}
    case Blob(_, content) => if ReadsReferences(content) then DigestsOf(Descriptors(content.doc)) else {}
    case _ => {}
  }

  function MemberImages(m: Member): set<Image> {
    if m.Metadata? && m.link.tag.Some? && m.link.atTag then {Image(m.link.tag.value, m.link.digest)} else {}
  }

  function MemberBlobs(m: Member): set<Digest> {
    if m.Blob? then {Sha256(m.hash)} else {}
  }

  function ArchiveRefs(archive: seq<Member>): set<Digest> {
    set m, d | m in archive && d in MemberRefs(m) :: d
  }

  function ArchiveImages(archive: seq<Member>): set<Image> {
    set m, i | m in archive && i in MemberImages(m) :: i
  }

  function ArchiveBlobs(archive: seq<Member>): set<Digest> {
    set m, d | m in archive && d in MemberBlobs(m) :: d
  }

  ghost predicate Accepts(archive: seq<Member>) {
    && (forall m :: m in archive ==> MemberOk(m))
    && ArchiveImages(archive) != {}
    && ArchiveRefs(archive) <= ArchiveBlobs(archive)
  }

  /** The inventory belongs to this archive and the archive passes. */
  ghost predicate Verifies(archive: seq<Member>, inventory: Inventory) {
    archive == inventory.sealed && Accepts(archive) && ArchiveImages(archive) == inventory.images
  }

  // ---------------------------------------------------------------- the exporter satisfies the verifier

  /** A leaf the verifier would read as a manifest must itself be closed. */
  ghost predicate LeavesAreClosed(blobs: Blobs, roots: set<Digest>, digests: set<Digest>) {
    forall d :: d in digests && !Walked(blobs, roots, d) && Stored(blobs, d) && ReadsReferences(blobs[d.hash]) ==>
      && WellFormed(Descriptors(blobs[d.hash].doc))
      && DigestsOf(Descriptors(blobs[d.hash].doc)) <= digests
  }

  lemma ExportMembers(links: seq<Link>, blobs: Blobs, digests: set<Digest>, archive: seq<Member>)
    requires IsExport(links, blobs, digests, archive)
    ensures forall m :: m in archive <==>
              || IsBlobOf(blobs, digests, m)
              || (m.Metadata? && m.isLink && m.link in links && m.link.digest in digests)
  {
    LiveLinksAre(links, digests);
  }

  /** The archive holds exactly the exported blobs, and the verifier sees in it exactly
      the tags whose own link the registry has. */
  lemma ExportInventory(links: seq<Link>, blobs: Blobs, digests: set<Digest>, archive: seq<Member>)
    requires IsExport(links, blobs, digests, archive)
    ensures ArchiveBlobs(archive) == digests && ArchiveImages(archive) == ImagesAtTags(links)
  {
    ExportMembers(links, blobs, digests, archive);
    forall d | d in digests ensures d in ArchiveBlobs(archive) {
      assert Stored(blobs, d);
      var m := Blob(d.hash, blobs[d.hash]);
      assert IsBlobOf(blobs, digests, m) && m in archive && d in MemberBlobs(m);
    }
    forall i | i in ImagesAtTags(links) ensures i in ArchiveImages(archive) {
      var k :| 0 <= k < |links| && links[k].tag.Some? && links[k].atTag && Image(links[k].tag.value, links[k].digest) == i;
      RootIsWalked(blobs, Roots(links), links[k].digest);
      var m := Metadata(true, links[k]);
      assert m in archive && i in MemberImages(m);
    }
    forall i | i in ArchiveImages(archive) ensures i in ImagesAtTags(links) {
      var m :| m in archive && i in MemberImages(m);
      var k :| 0 <= k < |links| && links[k] == m.link;
    }
  }

  /** The references of a manifest on the walk are exported. */
  lemma WalkedIsClosed(links: seq<Link>, blobs: Blobs, digests: set<Digest>, d: Digest)
    requires Readable(blobs, d) && Walked(blobs, Roots(links), d)
    requires forall e :: e in digests <==> Reachable(blobs, Roots(links), e)
    ensures WellFormed(Descriptors(blobs[d.hash].doc)) && DigestsOf(Descriptors(blobs[d.hash].doc)) <= digests
  {
    DescriptorsAre(blobs[d.hash].doc);
    forall e | e in DigestsOf(Descriptors(blobs[d.hash].doc)) ensures e in digests {
      if e in ManifestRefs(blobs, d) {
        StepIsWalked(blobs, Roots(links), d, e);
      } else {
        assert e in LeafRefs(blobs, d);
      }
    }
  }

  /** What decides whether the verifier takes an exported archive. */
  ghost predicate Shippable(links: seq<Link>, blobs: Blobs, digests: set<Digest>) {
    && ImagesAtTags(links) != {}
    && (forall d :: d in digests && Stored(blobs, d) ==> blobs[d.hash].hash == d.hash)
    && (forall i :: 0 <= i < |links| && links[i].digest in digests ==> links[i].bytes <= LinkBytes)
    && LeavesAreClosed(blobs, Roots(links), digests)
  }

  lemma BlobMemberPasses(links: seq<Link>, blobs: Blobs, digests: set<Digest>, m: Member)
    requires Exportable(links, blobs) && (forall d :: d in digests <==> Reachable(blobs, Roots(links), d))
    requires IsBlobOf(blobs, digests, m) && Shippable(links, blobs, digests)
    ensures MemberOk(m) && MemberRefs(m) <= digests
  {
    var d := Sha256(m.hash);
    assert Stored(blobs, d);
    if Walked(blobs, Roots(links), d) {
      WalkedIsClosed(links, blobs, digests, d);
    }
  }

  /** Every archive the exporter writes is accepted exactly if a tag has its link, the
      archived blobs are intact, the live links are of ordinary size, and a leaf that
      reads as a small schema-2 manifest refers only to archived digests. */
  lemma ExportIsAccepted(links: seq<Link>, blobs: Blobs, digests: set<Digest>, archive: seq<Member>)
    requires Exportable(links, blobs) && IsExport(links, blobs, digests, archive)
    ensures Accepts(archive) <==> Shippable(links, blobs, digests)
    ensures ArchiveImages(archive) == ImagesAtTags(links)
  {
    ExportInventory(links, blobs, digests, archive);
    ExportMembers(links, blobs, digests, archive);
    if Shippable(links, blobs, digests) {
      forall m | m in archive ensures MemberOk(m) && MemberRefs(m) <= digests {
        if m.Blob? {
          BlobMemberPasses(links, blobs, digests, m);
        } else {
          var k :| 0 <= k < |links| && links[k] == m.link;
        }
      }
    }
    if Accepts(archive) {
      AcceptedIsShippable(links, blobs, digests, archive);
    }
  }

  /** Every tag the exporter found has a link of its own. */
  ghost predicate TagsAreLinked(links: seq<Link>) {
    forall i :: 0 <= i < |links| && links[i].tag.Some? ==>
      exists j :: 0 <= j < |links| && links[j].atTag && links[j].tag == links[i].tag && links[j].digest == links[i].digest
  }

  lemma SameImages(links: seq<Link>)
    ensures ImagesAtTags(links) == Images(links) <==> TagsAreLinked(links)
  {
    if ImagesAtTags(links) == Images(links) {
      forall i | 0 <= i < |links| && links[i].tag.Some?
        ensures exists j :: 0 <= j < |links| && links[j].atTag && links[j].tag == links[i].tag && links[j].digest == links[i].digest
      {
        assert Image(links[i].tag.value, links[i].digest) in Images(links);
        var j :| 0 <= j < |links| && links[j].tag.Some? && links[j].atTag
                 && Image(links[j].tag.value, links[j].digest) == Image(links[i].tag.value, links[i].digest);
      }
    }
  }

  lemma AcceptedIsShippable(links: seq<Link>, blobs: Blobs, digests: set<Digest>, archive: seq<Member>)
    requires IsExport(links, blobs, digests, archive) && Accepts(archive)
    ensures Shippable(links, blobs, digests)
  {
    ExportInventory(links, blobs, digests, archive);
    ExportMembers(links, blobs, digests, archive);
    forall d | d in digests && Stored(blobs, d)
      ensures blobs[d.hash].hash == d.hash
      ensures ReadsReferences(blobs[d.hash]) ==>
                && WellFormed(Descriptors(blobs[d.hash].doc))
                && DigestsOf(Descriptors(blobs[d.hash].doc)) <= digests
    {
      var m := Blob(d.hash, blobs[d.hash]);
      assert IsBlobOf(blobs, digests, m) && m in archive;
      assert MemberOk(m);
      assert MemberRefs(m) <= ArchiveRefs(archive);
    }
    forall i | 0 <= i < |links| && links[i].digest in digests ensures links[i].bytes <= LinkBytes {
      var m := Metadata(true, links[i]);
      assert m in archive && MemberOk(m);
    }
  }

  // ---------------------------------------------------------------- an accepted archive is closed

  /** A chain of references through an archive: from a link, through blobs whose
      references the verifier reads. */
  ghost predicate IsArchivePath(archive: seq<Member>, p: seq<Digest>) {
    && p != [] && (exists m :: m in archive && m.Metadata? && m.link.digest == p[0])
    && forall i :: 0 <= i < |p| - 1 ==> Refers(archive, p[i], p[i + 1])
  }

  ghost predicate Refers(archive: seq<Member>, from: Digest, to: Digest) {
    exists m :: m in archive && m.Blob? && Sha256(m.hash) == from && to in MemberRefs(m)
  }

  ghost predicate HoldsIntact(archive: seq<Member>, d: Digest) {
    exists m :: m in archive && m.Blob? && Sha256(m.hash) == d && m.content.hash == m.hash
  }

  /** In an accepted archive no path leads out: everything a link reaches is there, intact. */
  lemma AcceptedIsClosed(archive: seq<Member>, p: seq<Digest>)
    requires Accepts(archive) && IsArchivePath(archive, p)
    ensures forall i :: 0 <= i < |p| ==> HoldsIntact(archive, p[i])
  {
    forall i | 0 <= i < |p| ensures HoldsIntact(archive, p[i]) {
      if i == 0 {
        var m :| m in archive && m.Metadata? && m.link.digest == p[0];
        assert p[0] in MemberRefs(m);
      } else {
        assert Refers(archive, p[i - 1], p[i]);
        var m :| m in archive && m.Blob? && Sha256(m.hash) == p[i - 1] && p[i] in MemberRefs(m);
      }
      assert p[i] in ArchiveBlobs(archive);
      var b :| b in archive && p[i] in MemberBlobs(b);
      assert MemberOk(b);
    }
  }

  // ---------------------------------------------------------------- what is accepted, and what is exported

  /** Every blob is under the hash of its bytes, and every link is short and names a digest;
      nothing but links, blobs and directories is there. */
  ghost predicate Clean(archive: seq<Member>) {
    forall m :: m in archive ==>
      || m.Directory?
      || (m.Metadata? && m.isLink && m.link.bytes <= 128 && m.link.digest.Sha256?)
      || (m.Blob? && m.content.hash == m.hash)
  }

  /** A blob under four mebibytes that reads as a schema-2 manifest. */
  ghost predicate SmallManifest(archive: seq<Member>, m: Member) {
    m in archive && m.Blob? && m.content.bytes < 4194304 && m.content.doc.Object? && m.content.doc.schema2
  }

  ghost predicate Holds(archive: seq<Member>, d: Digest) {
    exists m :: m in archive && m.Blob? && Sha256(m.hash) == d
  }

  /** What links and small manifests name is in the archive. */
  ghost predicate Closed(archive: seq<Member>) {
    && (forall m :: m in archive && m.Metadata? ==> Holds(archive, m.link.digest))
    && (forall m :: SmallManifest(archive, m) ==>
          && WellFormed(m.content.doc.manifests) && WellFormed(Leaves(m.content.doc))
          && (forall d :: d in DigestsOf(m.content.doc.manifests) + DigestsOf(Leaves(m.content.doc)) ==> Holds(archive, d)))
  }

  ghost predicate Tagged(archive: seq<Member>) {
    exists m :: m in archive && m.Metadata? && m.link.tag.Some? && m.link.atTag
  }

  lemma HoldsIsInBlobs(archive: seq<Member>, d: Digest)
    ensures Holds(archive, d) <==> d in ArchiveBlobs(archive)
  {
    if m :| m in archive && m.Blob? && Sha256(m.hash) == d {
      assert d in MemberBlobs(m);
    }
  }

  lemma ClosedIsNoneMissing(archive: seq<Member>)
    requires Closed(archive)
    ensures ArchiveRefs(archive) <= ArchiveBlobs(archive)
  {
    forall d | d in ArchiveRefs(archive) ensures d in ArchiveBlobs(archive) {
      var m :| m in archive && d in MemberRefs(m);
      HoldsIsInBlobs(archive, d);
      if m.Blob? {
        assert SmallManifest(archive, m);
        DescriptorsAre(m.content.doc);
      }
    }
  }

  lemma NoneMissingIsClosed(archive: seq<Member>)
    requires Accepts(archive)
    ensures Closed(archive)
  {
    forall m | m in archive && m.Metadata? ensures Holds(archive, m.link.digest) {
      assert m.link.digest in MemberRefs(m);
      HoldsIsInBlobs(archive, m.link.digest);
    }
    forall m | SmallManifest(archive, m)
      ensures WellFormed(m.content.doc.manifests) && WellFormed(Leaves(m.content.doc))
      ensures forall d :: d in DigestsOf(m.content.doc.manifests) + DigestsOf(Leaves(m.content.doc)) ==> Holds(archive, d)
    {
      assert MemberOk(m);
      DescriptorsAre(m.content.doc);
      forall d | d in DigestsOf(m.content.doc.manifests) + DigestsOf(Leaves(m.content.doc)) ensures Holds(archive, d) {
        assert d in MemberRefs(m);
        HoldsIsInBlobs(archive, d);
      }
    }
  }

  /** An archive is accepted exactly if it is clean, has a tag and holds everything its links
      and small manifests name. */
  lemma AcceptsExactly(archive: seq<Member>)
    ensures Accepts(archive) <==> Clean(archive) && Tagged(archive) && Closed(archive)
  {
    if Accepts(archive) {
      NoneMissingIsClosed(archive);
      var i :| i in ArchiveImages(archive);
      forall m | m in archive ensures m.Directory? || m.Metadata? || m.Blob? {
        assert MemberOk(m);
      }
    }
    if Clean(archive) && Tagged(archive) && Closed(archive) {
      ClosedIsNoneMissing(archive);
      var m :| m in archive && m.Metadata? && m.link.tag.Some? && m.link.atTag;
      assert Image(m.link.tag.value, m.link.digest) in MemberImages(m);
      assert Image(m.link.tag.value, m.link.digest) in ArchiveImages(archive);
      forall b | b in archive ensures MemberOk(b) {
        if b.Blob? && ReadsReferences(b.content) {
          assert SmallManifest(archive, b);
          DescriptorsAre(b.content.doc);
        }
      }
    }
  }

  /** Only registries all of whose tags are in repositories under one prefix are exported. */
  lemma ExportsOwnTags(links: seq<Link>, blobs: Blobs, i: nat)
    requires Exportable(links, blobs) && i < |links| && links[i].tag.Some?
    ensures var repository := links[i].tag.value.repository;
            |repository| >= 11 && repository[..11] == "apexfabric/"
  {
    assert LinkOk(links[i]);
  }
}
