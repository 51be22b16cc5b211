/** The `/send-mails` handler of Program.cs: what it answers for a payload,
    and which drafts it leaves in Outlook. */
module SendMailsEndpoint {
  import opened MailRequests
  import opened Composer
  import opened MailBatch

  /** The request body after `JsonSerializer.DeserializeAsync`: text that is not
      a JSON array of requests (the serializer throws, with its message), the
      JSON literal `null`, or the list of entries, any of which may be `null`. */
  datatype Payload = Malformed(message: string) | JsonNull | Batch(entries: seq<Option<MailRequest>>)

  /** `Results.BadRequest`, `Results.Ok` and `Results.Problem`. */
  datatype Response = BadRequest(error: string) | Ok(status: string, count: nat) | Problem(detail: string)

  const EmptyPayloadError := "Payload vide ou invalide."

  /** A payload the handler hands to `GenerateMails`. */
  predicate RunsBatch(payload: Payload) {
    payload.Batch? && |payload.entries| > 0
  }

  /** The response of the handler. */
  function Respond(payload: Payload, outlookAvailable: bool): (r: Response)
    ensures r.BadRequest? <==> payload.JsonNull? || (payload.Batch? && |payload.entries| == 0)
    ensures r.BadRequest? ==> r.error == EmptyPayloadError
    ensures r.Ok? <==> RunsBatch(payload) && outlookAvailable && None !in payload.entries
    ensures r.Ok? ==> r.status == "ok" && r.count == |payload.entries|
    ensures RunsBatch(payload) && !outlookAvailable ==> r == Problem(ErrorMessage(OutlookUnavailable))
    ensures RunsBatch(payload) && outlookAvailable && None in payload.entries ==> r == Problem(ErrorMessage(NullRequest))
    ensures payload.Malformed? ==> r == Problem(payload.message)
  {
    match payload
    case Malformed(message) => Problem(message)
    case JsonNull => BadRequest(EmptyPayloadError)
    case Batch(entries) =>
      if |entries| == 0 then BadRequest(EmptyPayloadError)
      else match BatchOutcome(outlookAvailable, entries)
        case None => Ok("ok", |entries|)
        case Some(e) => Problem(ErrorMessage(e))
  }

  /** The drafts the handler leaves in Outlook, worded with `w`. */
  function DraftsSent(w: Wording, payload: Payload, outlookAvailable: bool): seq<Draft> {
    if RunsBatch(payload) then BatchDrafts(w, outlookAvailable, payload.entries) else []
  }

  /** The handler: bad payloads are answered before Outlook is touched, the
      batch runs otherwise, and any exception becomes a problem response. */
  method SendMails(outlook: Outlook, payload: Payload, outlookAvailable: bool) returns (r: Response)
    modifies outlook
    ensures r == Respond(payload, outlookAvailable)
    ensures outlook.drafts == old(outlook.drafts) + DraftsSent(Notification, payload, outlookAvailable)
  {
    match payload {
      case Malformed(message) =>
        return Problem(message);
      case JsonNull =>
        return BadRequest(EmptyPayloadError);
      case Batch(entries) =>
        if |entries| == 0 {
          return BadRequest(EmptyPayloadError);
        }
        var error := GenerateMails(outlook, Notification, outlookAvailable, entries);
        match error {
          case None => r := Ok("ok", |entries|);
          case Some(e) => r := Problem(ErrorMessage(e));
        }
    }
  }

  /** A payload that is `null`, empty or not valid JSON opens no draft, and
      neither does a batch when Outlook is unavailable. */
  lemma {:induction false} NoDraftsWithoutBatch(w: Wording, payload: Payload, outlookAvailable: bool)
    requires !RunsBatch(payload) || !outlookAvailable
    ensures DraftsSent(w, payload, outlookAvailable) == []
    ensures !Respond(payload, outlookAvailable).Ok?
  {
  }

  /** A success reports the length of the whole batch, skipped requests
      included: never fewer than the drafts opened, and exactly as many only
      when no request was skipped. */
  lemma {:induction false} OkCountsWholeBatch(w: Wording, payload: Payload, outlookAvailable: bool)
    requires Respond(payload, outlookAvailable).Ok?
    ensures Respond(payload, outlookAvailable).count >= |DraftsSent(w, payload, outlookAvailable)|
    ensures Respond(payload, outlookAvailable).count == |DraftsSent(w, payload, outlookAvailable)|
            <==> forall k :: 0 <= k < |payload.entries| ==> !Skipped(payload.entries[k].value)
  {
    var entries := payload.entries;
    var processed := Processed(entries);
    ProcessedAllIff(entries);
    DraftsAreComposedInOrder(w, processed);
    DraftPerRequestIff(w, processed);
    assert forall k :: 0 <= k < |entries| ==> entries[k].value == processed[k];
  }

  /** A request to "a@x.com" for parcel "P1". */
  const RequestA := MailRequest(Some("a@x.com"), None, Some(["P1"]))
  /** A request with an empty address. */
  const RequestBlank := MailRequest(Some(""), None, Some(["P2"]))
  /** A request to "b@x.com" for parcels "P3" and "P4". */
  const RequestB := MailRequest(Some("b@x.com"), None, Some(["P3", "P4"]))

  lemma ThreeRequestDrafts(w: Wording)
    ensures !Skipped(RequestA) && Skipped(RequestBlank) && !Skipped(RequestB)
    ensures DraftsOf(w, [RequestA, RequestBlank, RequestB])
            == [ComposeDraft(w, RequestA), ComposeDraft(w, RequestB)]
  {
    var reqs := [RequestA, RequestBlank, RequestB];
    assert !Skipped(RequestA) by { assert RequestA.email.value[0] == 'a'; }
    assert !Skipped(RequestB) by { assert RequestB.email.value[0] == 'b'; }
    DraftsOfStep(w, reqs, 0);
    DraftsOfStep(w, reqs, 1);
    DraftsOfStep(w, reqs, 2);
    assert reqs[..0] == [] && reqs[..3] == reqs;
  }

  lemma ThreeRequestSubjects()
    ensures Subject(["P1"]) == "Colis : P1"
    ensures Subject(["P3", "P4"]) == "Colis : P3, P4"
  {
    assert ["P3", "P4"][1..] == ["P4"];
  }

  /** The three-request batch: one request with one parcel, one with an empty
      address, one with two parcels. Two drafts are opened, for the first
      and the third request in that order, and the success reports a count of
      three. */
  lemma ThreeRequestBatch(w: Wording)
    ensures var payload := Batch(ThreeRequests);
      var drafts := DraftsSent(w, payload, true);
      Respond(payload, true) == Ok("ok", 3)
      && |drafts| == 2
      && drafts[0].to == "a@x.com" && drafts[0].subject == "Colis : P1"
      && drafts[1].to == "b@x.com" && drafts[1].subject == "Colis : P3, P4"
      && drafts[0].htmlBody == HtmlBody(w, ["P1"]) && drafts[1].htmlBody == HtmlBody(w, ["P3", "P4"])
  {
    ThreeRequestsProcessed();
    ThreeRequestDrafts(w);
    ThreeRequestSubjects();
  }

  /** The three requests of the example batch, none of them `null`. */
  const ThreeRequests := [Some(RequestA), Some(RequestBlank), Some(RequestB)]

  lemma ThreeRequestsProcessed()
    ensures None !in ThreeRequests
    ensures Processed(ThreeRequests) == [RequestA, RequestBlank, RequestB]
  {
    assert ThreeRequests[1..] == [Some(RequestBlank), Some(RequestB)];
    assert ThreeRequests[1..][1..] == [Some(RequestB)];
  }
}
