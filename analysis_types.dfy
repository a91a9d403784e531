/**
 * The entities an analysis request (a lab order) reads: its analyses
 * (line items) with their workflow state, service, department and
 * manager, the worksheet analyses that QC derivation classifies, and the
 * entries of a review history.
 */
module AnalysisTypes {
  import opened Wrappers

  /** Workflow review states read by the order logic; `Other` carries any
      state the logic does not single out (including the '' default). */
  datatype ReviewState =
    | NotRequested
    | ToBeSampled
    | ToBePreserved
    | SampleDue
    | SampleReceived
    | AttachmentDue
    | ToBeVerified
    | Verified
    | Published
    | Other(name: string)

  datatype Manager = Manager(id: string, fullname: string, email: string, phone: string, url: string)

  datatype Department = Department(id: string, title: string, manager: Option<Manager>)

  /** An analysis service: unit price and VAT rate (None when unset or empty)
      and the department responsible for it. */
  datatype Service = Service(price: Option<real>, vat: Option<real>, department: Option<Department>)

  /** One analysis of the order.  `worksheets` lists its 'WorksheetAnalysis'
      back-references by worksheet id, in the order the catalog returns them. */
  datatype Analysis = Analysis(
    id: string,
    state: ReviewState,
    service: Option<Service>,
    serviceUid: string,
    dueDate: int,
    resultCaptureDate: int,
    worksheets: seq<string>)

  datatype PortalType = DuplicateAnalysis | ReferenceAnalysis | RoutineAnalysis

  /** An analysis held on a worksheet.  Equality of these values stands for
      object identity, as `wa not in qcanalyses` compares objects. */
  datatype WorksheetAnalysis = WorksheetAnalysis(
    uid: string,
    portalType: PortalType,
    requestId: string,
    serviceUid: string,
    referenceType: string)

  /** One review-history entry; `action` is None when the entry has none. */
  datatype HistoryEntry = HistoryEntry(action: Option<string>, actor: string)

  predicate AllServiced(s: seq<Analysis>) {
    forall i :: 0 <= i < |s| ==> s[i].service.Some?
  }
}
