/** The versioned table of Agent Task kinds, with the content classes and result contract of each. */
module AgentTaskRegistry {
  import opened Wrappers

  datatype TaskKind =
    | DocumentRouteResolution | PrimarySemanticProcessing | ReviewSemanticProcessing | KnowledgeQueryReport
    | OrganizationProposal | ScreeningCriteriaProposal | ScreeningDecisionProposal | ResearchSynthesisDrafting
    | SourceAdequacyAssessment | QuestionDirectionMapping | SemanticReview

  datatype Definition = Definition(required: set<string>, optional: set<string>, contract: string)

  const ROUTE_CLASSES := {"metadata", "parsed_excerpt", "operational_context"}

  /** How far the registry had grown at each version; 0 for an unknown version. */
  function Generation(version: string): nat {
    if version == "p4a-v1" then 1
    else if version == "p4b-v1" then 2
    else if version == "p4c-v1" then 3
    else if version == "p5c-v1" then 4
    else if version == "p7b-v1" then 5
    else if version == "p7d-v1" then 6
    else if version == "p8-v1" then 7
    else 0
  }

  function DefinitionOf(version: string, kind: TaskKind): Option<Definition> {
    var g := Generation(version);
    if g == 0 then None
    else match kind
      case DocumentRouteResolution =>
        Some(Definition(ROUTE_CLASSES, {"source_document"}, "p4a-document-route-decision@1.0"))
      case PrimarySemanticProcessing =>
        if g == 1 then Some(Definition(ROUTE_CLASSES, {"source_document", "research_routing_context"}, "deferred-p4b"))
        else Some(Definition(ROUTE_CLASSES, {"research_routing_context"}, "p4b-primary-semantic-candidate@1.0"))
      case ReviewSemanticProcessing =>
        if g <= 2 then Some(Definition(ROUTE_CLASSES, {"source_document", "research_routing_context"}, "deferred-p4c"))
        else Some(Definition(ROUTE_CLASSES, {"review_background"}, "p4c-review-semantic-candidate@1.0"))
      case KnowledgeQueryReport =>
        if g < 4 then None
        else Some(Definition(
          {"paper_card_content", "canonical_evidence", "operational_context"},
          {"metadata", "review_background", "research_routing_context"}, "p5c-knowledge-query-report@1.0"))
      case OrganizationProposal =>
        if g < 5 then None
        else Some(Definition(
          {"paper_card_content", "research_routing_context", "operational_context"},
          {"metadata", "canonical_evidence", "review_background"}, "p7b-organization-proposal@1.0"))
      case ScreeningCriteriaProposal =>
        if g < 6 then None
        else Some(Definition(
          {"research_routing_context", "operational_context"}, {}, "p7d-screening-criteria-proposal@1.0"))
      case ScreeningDecisionProposal =>
        if g < 6 then None
        else Some(Definition(
          {"metadata", "research_routing_context", "operational_context"},
          {"paper_card_content"}, "p7d-screening-decision-proposal@1.0"))
      case ResearchSynthesisDrafting =>
        if g < 7 then Some(Definition(
          {"paper_card_content", "canonical_evidence", "research_routing_context", "operational_context"},
          {"review_background", "research_synthesis", "metadata"}, "deferred-p8"))
        else Some(Definition(
          {"paper_card_content", "canonical_evidence", "research_routing_context", "research_synthesis", "operational_context"},
          {"metadata", "review_background"}, "p8-research-synthesis-proposal@1.0"))
      case SourceAdequacyAssessment => Some(Definition(ROUTE_CLASSES, {"source_document"}, "deferred-p4"))
      case QuestionDirectionMapping =>
        Some(Definition(
          {"paper_card_content", "research_routing_context", "operational_context"},
          {"canonical_evidence", "review_background", "metadata"}, "deferred-p7"))
      case SemanticReview => Some(Definition({"operational_context"}, {}, "deferred-p4b"))
  }

  const Versions: set<string> := {"p4a-v1", "p4b-v1", "p4c-v1", "p5c-v1", "p7b-v1", "p7d-v1", "p8-v1"}

  /** The versions in which a kind is registered. */
  function RegisteredIn(kind: TaskKind): set<string> {
    match kind
    case KnowledgeQueryReport => {"p5c-v1", "p7b-v1", "p7d-v1", "p8-v1"}
    case OrganizationProposal => {"p7b-v1", "p7d-v1", "p8-v1"}
    case ScreeningCriteriaProposal => {"p7d-v1", "p8-v1"}
    case ScreeningDecisionProposal => {"p7d-v1", "p8-v1"}
    case _ => Versions
  }

  /** The versions in which a kind is registered and only announced. */
  function DeferredIn(kind: TaskKind): set<string> {
    match kind
    case PrimarySemanticProcessing => {"p4a-v1"}
    case ReviewSemanticProcessing => {"p4a-v1", "p4b-v1"}
    case ResearchSynthesisDrafting => Versions - {"p8-v1"}
    case SourceAdequacyAssessment => Versions
    case QuestionDirectionMapping => Versions
    case SemanticReview => Versions
    case _ => {}
  }

  predicate Announced(contract: string) { |contract| > 8 && contract[..8] == "deferred" }

  /** A kind is registered from its version on and only announced until it is available. */
  lemma RegistryHistory(version: string, kind: TaskKind)
    ensures DefinitionOf(version, kind).Some? <==> version in RegisteredIn(kind)
    ensures DefinitionOf(version, kind).Some? ==>
      (Announced(DefinitionOf(version, kind).value.contract) <==> version in DeferredIn(kind))
  {
    if DefinitionOf(version, kind).Some? {
      var contract := DefinitionOf(version, kind).value.contract;
      assert contract[0] == 'p' || contract[..8] == "deferred";
    }
  }

  /** Once a kind is available, its contract and classes stay what they are in the latest version. */
  lemma DefinitionsStay(version: string, kind: TaskKind)
    requires version in RegisteredIn(kind) && version !in DeferredIn(kind)
    ensures DefinitionOf(version, kind) == DefinitionOf("p8-v1", kind)
  {
    assert Generation("p8-v1") == 7;
  }
}
