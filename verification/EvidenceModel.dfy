/** The evidence records of internal/model, with the validity checks that the engine applies to them. */
module EvidenceModel {
  import opened Text

  /** One candidate deployment within a run. */
  datatype Scope = Scope(runID: string, contextID: string, runtime: string, endpoint: string) {
    predicate IsValid() {
      runID != "" && contextID != "" && ((runtime == "") <==> (endpoint == ""))
    }
  }

  /** The canonical states; `OtherState` stands for any other text in the field. */
  datatype CapabilityState = Supported | Unsupported | Misconfigured | Unavailable | UnknownState
    | OtherState(text: string) {
    predicate IsValid() { !OtherState? }
    predicate Definite() { Supported? || Unsupported? || Misconfigured? }
  }

  datatype Confidence = Verified | Derived | Heuristic | UnknownConfidence | OtherConfidence(text: string) {
    predicate IsValid() { !OtherConfidence? }

    /** The position in the list from weakest to strongest; -1 when it is not in the list. */
    function Level(): int {
      match this
      case UnknownConfidence => 0
      case Heuristic => 1
      case Derived => 2
      case Verified => 3
      case OtherConfidence(_) => -1
    }
  }

  datatype Completeness = Complete | Partial | Unobserved | OtherCompleteness(text: string) {
    predicate IsValid() { !OtherCompleteness? }
  }

  const LIVE := 1
  const RUNTIME := 2
  const CONFIG := 3
  const KNOWLEDGE := 4
  const HEURISTIC := 5

  /** Timestamps count from the zero time, which marks a missing one. */
  type Time = int

  datatype ObservationRef = ObservationRef(id: string, probeID: string)

  datatype Evidence = Evidence(
    id: string,
    source: string,
    claim: string,
    precedence: nat,
    observations: seq<ObservationRef>,
    timestamp: Time,
    scope: Scope,
    completeness: Completeness,
    state: CapabilityState,
    confidence: Confidence,
    dependsOn: seq<string>)
  {
    /** Evidence.Validate. */
    predicate Validates() {
      id != "" && source != "" && claim != "" && LIVE <= precedence <= HEURISTIC && timestamp != 0
    }
  }

  datatype Capability = Capability(
    scope: Scope, id: string, state: CapabilityState, confidence: Confidence, reason: string, evidence: seq<string>)
  {
    /** Capability.Validate. */
    predicate Validates() {
      ValidCapabilityID(id) && state.IsValid() && confidence.IsValid()
    }
  }

  datatype Candidate = Candidate(scope: Scope, capabilities: seq<Capability>, evidence: seq<Evidence>)

  datatype Diagnostic = Diagnostic(code: string, message: string, reference: string)

  // --- Capability identifiers ---

  predicate CanonicalNamespace(s: string) {
    || s == "host" || s == "runtime" || s == "container" || s == "image"
    || s == "network" || s == "storage" || s == "systemd" || s == "context"
  }

  predicate SegmentChar(c: char) {
    'a' <= c <= 'z' || '0' <= c <= '9' || c == '_'
  }

  predicate ValidSegment(s: string) {
    s != "" && forall k :: 0 <= k < |s| ==> SegmentChar(s[k])
  }

  /** At least two dot-separated segments of lower-case letters, digits and underscores, under a canonical namespace. */
  predicate ValidCapabilityID(id: string) {
    && id != ""
    && var segments := Split(id, '.');
      && |segments| >= 2
      && CanonicalNamespace(segments[0])
      && forall k :: 0 <= k < |segments| ==> ValidSegment(segments[k])
  }
}
