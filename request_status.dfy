/**
 * Two read-only queries on an analysis request: whether it is late, and who
 * verified it (the last 'verify' action of its review history).
 */
module RequestStatus {
  import opened Wrappers
  import opened AnalysisTypes

  /** Request states in which an order is never reported late. */
  predicate NeverLate(s: ReviewState) {
    s == ToBeSampled || s == ToBePreserved || s == SampleDue || s == Published
  }

  /** An unpublished analysis whose due date precedes its result capture. */
  predicate IsOverdue(a: Analysis) {
    a.state != Published && a.dueDate < a.resultCaptureDate
  }

  /** getLate */
  method IsLate(requestState: ReviewState, analyses: seq<Analysis>) returns (late: bool)
    ensures late <==> !NeverLate(requestState) && exists i :: 0 <= i < |analyses| && IsOverdue(analyses[i])
  {
    if requestState in {ToBeSampled, ToBePreserved, SampleDue, Published} {
      return false;
    }
    var i := 0;
    while i < |analyses|
      invariant 0 <= i <= |analyses|
      invariant forall j :: 0 <= j < i ==> !IsOverdue(analyses[j])
    {
      if analyses[i].state == Published {
        i := i + 1;
        continue;
      }
      if analyses[i].dueDate < analyses[i].resultCaptureDate {
        return true;
      }
      i := i + 1;
    }
    return false;
  }

  predicate IsVerify(e: HistoryEntry) {
    e.action == Some("verify")
  }

  /** The name shown for an actor: the member's full name, or the actor id
      when that is None or empty. */
  function DisplayName(actor: string, fullname: string -> Option<string>): (r: string)
    ensures fullname(actor) == None || fullname(actor) == Some("") ==> r == actor
    ensures fullname(actor).Some? && fullname(actor) != Some("") ==> r == fullname(actor).value
  {
    match fullname(actor)
    case None => actor
    case Some(n) => if n == "" then actor else n
  }

  /** get_verifier: "no history" for an empty history, None when no entry is
      a 'verify' action, otherwise the display name of the LAST verifier. */
  method Verifier(history: seq<HistoryEntry>, fullname: string -> Option<string>) returns (verifier: Option<string>)
    ensures history == [] ==> verifier == Some("no history")
    ensures history != [] && (forall k :: 0 <= k < |history| ==> !IsVerify(history[k])) ==> verifier == None
    ensures forall k :: 0 <= k < |history| && IsVerify(history[k])
              && (forall j :: k < j < |history| ==> !IsVerify(history[j]))
              ==> verifier == Some(DisplayName(history[k].actor, fullname))
  {
    verifier := None;
    if history == [] {
      return Some("no history");
    }
    ghost var last: int := -1;
    var i := 0;
    while i < |history|
      invariant 0 <= i <= |history|
      invariant -1 <= last < i
      invariant last == -1 ==> verifier == None && forall k :: 0 <= k < i ==> !IsVerify(history[k])
      invariant last >= 0 ==> IsVerify(history[last]) && verifier == Some(DisplayName(history[last].actor, fullname))
      invariant forall k :: last < k < i ==> !IsVerify(history[k])
    {
      var action := history[i].action;
      if action != Some("verify") {
        i := i + 1;
        continue;
      }
      var actor := history[i].actor;
      var name := fullname(actor);
      if name == None || name == Some("") {
        verifier := Some(actor);
      } else {
        verifier := name;
      }
      last := i;
      i := i + 1;
    }
  }
}
