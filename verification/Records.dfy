/** The records a workspace bundle holds, with the fields the modelled code reads. */
module Records {
  import opened Wrappers

  datatype Unit = Unit(id: string, content: string)

  datatype Section = Section(id: string, units: seq<Unit>)

  datatype Card = Card(paperId: string, sections: seq<Section>, content: string)

  datatype Evidence = Evidence(id: string, paperId: string, content: string)

  datatype QueueItem = QueueItem(id: string, paperId: string, content: string)

  datatype RevisionLink = RevisionLink(revisionId: string, revisionDigest: string)

  datatype Revision = Revision(
    revisionId: string,
    number: int,
    predecessor: Option<RevisionLink>,
    card: Card,
    evidence: seq<Evidence>,
    queue: seq<QueueItem>,
    content: string)

  datatype Bundle = Bundle(paperId: string, activeId: string, revisions: seq<Revision>, content: string)

  datatype Paper = Paper(paperId: string, content: string)

  datatype Profile = Profile(id: string, version: string, content: string)

  datatype TagRevision = TagRevision(revisionId: string, name: string, active: bool, content: string)

  datatype TagBundle = TagBundle(tagId: string, activeId: string, revisions: seq<TagRevision>, content: string)

  datatype LinkRevision = LinkRevision(revisionId: string, isAssigned: bool, content: string)

  datatype TagLinkBundle = TagLinkBundle(
    linkId: string,
    tagId: string,
    targetKind: string,
    targetId: string,
    activeId: string,
    revisions: seq<LinkRevision>,
    content: string)

  datatype Entry =
    | CardEntry(card: Card)
    | EvidenceEntry(evidence: Evidence)
    | QueueEntry(item: QueueItem)
    | BundleEntry(bundle: Bundle)
    | PaperEntry(paper: Paper)
    | ProfileEntry(profile: Profile)
    | TagEntry(tag: TagBundle)
    | TagLinkEntry(link: TagLinkBundle)
    | OtherEntry(kind: string, id: string, content: string)
}
