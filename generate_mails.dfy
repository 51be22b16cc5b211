/** `GenerateMails` (Program.cs): acquire Outlook, then walk the batch in order
    and open one draft per request that passes the guard. Outlook is modelled
    by the log of drafts it has been asked to display. */
module MailBatch {
  import opened MailRequests
  import opened Composer

  /** The fixed `SentOnBehalfOfName` of every draft. */
  const OnBehalfOf := "destinataire.fr0084@gls-france.com"

  datatype Draft = Draft(to: string, subject: string, htmlBody: string, sentOnBehalfOf: string)

  /** The two ways `GenerateMails` throws: `new Outlook.Application()` fails,
      or a `null` entry of the batch is dereferenced. */
  datatype BatchError = OutlookUnavailable | NullRequest

  /** The exception message the handler reports. */
  function ErrorMessage(e: BatchError): (m: string)
    ensures m != []
  {
    match e
    case OutlookUnavailable => "Outlook n’est pas disponible sur cette machine."
    case NullRequest => "Object reference not set to an instance of an object."
  }

  /** The handler's `Problem` detail tells the two failures apart. */
  lemma ErrorMessagesDistinct(a: BatchError, b: BatchError)
    ensures ErrorMessage(a) == ErrorMessage(b) <==> a == b
  {
    assert |ErrorMessage(OutlookUnavailable)| == 47 && |ErrorMessage(NullRequest)| == 53;
  }

  /** The Outlook instance, seen through the drafts it has displayed. */
  class Outlook {
    var drafts: seq<Draft>

    constructor ()
      ensures drafts == []
    {
      drafts := [];
    }

    /** `CreateItem(olMailItem)`, the four field assignments and `Display()`. */
    method DisplayMail(to: string, subject: string, htmlBody: string, sentOnBehalfOf: string)
      modifies this
      ensures drafts == old(drafts) + [Draft(to, subject, htmlBody, sentOnBehalfOf)]
    {
      drafts := drafts + [Draft(to, subject, htmlBody, sentOnBehalfOf)];
    }
  }

  /** The draft filled in for a request that passes the guard. */
  function ComposeDraft(w: Wording, req: MailRequest): Draft
    requires !Skipped(req)
  {
    var parcels := req.parcels.value;
    Draft(req.email.value, Subject(parcels), HtmlBody(w, parcels), OnBehalfOf)
  }

  /** What one loop iteration adds to Outlook: nothing or one draft. */
  function DraftsFor(w: Wording, req: MailRequest): (r: seq<Draft>)
    ensures |r| == if Skipped(req) then 0 else 1
  {
    if Skipped(req) then [] else [ComposeDraft(w, req)]
  }

  /** The drafts a run over `reqs` displays, iteration by iteration. */
  function DraftsOf(w: Wording, reqs: seq<MailRequest>): seq<Draft>
    decreases |reqs|
  {
    if reqs == [] then [] else DraftsOf(w, reqs[..|reqs| - 1]) + DraftsFor(w, reqs[|reqs| - 1])
  }

  /** The requests that pass the guard, in batch order. */
  function Forwarded(reqs: seq<MailRequest>): (r: seq<MailRequest>)
    ensures |r| <= |reqs|
    ensures forall k :: 0 <= k < |r| ==> !Skipped(r[k])
    ensures |r| == |reqs| <==> forall k :: 0 <= k < |reqs| ==> !Skipped(reqs[k])
    ensures r == [] <==> forall k :: 0 <= k < |reqs| ==> Skipped(reqs[k])
  {
    if reqs == [] then []
    else
      var rest := Forwarded(reqs[1..]);
      if Skipped(reqs[0]) then rest else [reqs[0]] + rest
  }

  /** The requests handled before the first `null` entry, unwrapped. */
  function Processed(entries: seq<Option<MailRequest>>): (r: seq<MailRequest>)
    ensures |r| <= |entries|
    ensures forall k :: 0 <= k < |r| ==> entries[k] == Some(r[k])
    ensures |r| < |entries| ==> entries[|r|] == None
  {
    if entries == [] then []
    else match entries[0]
      case None => []
      case Some(req) => [req] + Processed(entries[1..])
  }

  /** The exception `GenerateMails` ends with, if any. */
  function BatchOutcome(outlookAvailable: bool, entries: seq<Option<MailRequest>>): Option<BatchError> {
    if !outlookAvailable then Some(OutlookUnavailable)
    else if None in entries then Some(NullRequest)
    else None
  }

  /** The drafts `GenerateMails` displays before it returns or throws. */
  function BatchDrafts(w: Wording, outlookAvailable: bool, entries: seq<Option<MailRequest>>): seq<Draft> {
    if !outlookAvailable then [] else DraftsOf(w, Processed(entries))
  }

  /** One iteration of the loop on a request: skip it, or compose its draft
      and display it. */
  method HandleRequest(outlook: Outlook, w: Wording, req: MailRequest)
    modifies outlook
    ensures outlook.drafts == old(outlook.drafts) + DraftsFor(w, req)
  {
    if Skipped(req) {
      return;
    }
    var parcels := req.parcels.value;
    var subject := Subject(parcels);
    var body := HtmlBody(w, parcels);
    outlook.DisplayMail(req.email.value, subject, body, OnBehalfOf);
  }

  /** The loop of `GenerateMails`: every entry is visited in order, a `null`
      entry aborts the run, and every request that passes the guard gets a
      draft. */
  method GenerateMails(outlook: Outlook, w: Wording, outlookAvailable: bool, entries: seq<Option<MailRequest>>)
    returns (error: Option<BatchError>)
    modifies outlook
    ensures error == BatchOutcome(outlookAvailable, entries)
    ensures outlook.drafts == old(outlook.drafts) + BatchDrafts(w, outlookAvailable, entries)
  {
    if !outlookAvailable {
      return Some(OutlookUnavailable);
    }
    ghost var processed := Processed(entries);
    var i := 0;
    while i < |entries|
      invariant i <= |processed|
      invariant outlook.drafts == old(outlook.drafts) + DraftsOf(w, processed[..i])
    {
      if entries[i].None? {
        assert |processed| == i;
        assert processed[..i] == processed;
        return Some(NullRequest);
      }
      DraftsOfStep(w, processed, i);
      HandleRequest(outlook, w, entries[i].value);
      i := i + 1;
    }
    assert processed[..i] == processed;
    ProcessedAllIff(entries);
    return None;
  }

  /** One more iteration appends the drafts of one more request. */
  lemma DraftsOfStep(w: Wording, reqs: seq<MailRequest>, i: nat)
    requires i < |reqs|
    ensures DraftsOf(w, reqs[..i + 1]) == DraftsOf(w, reqs[..i]) + DraftsFor(w, reqs[i])
  {
    assert reqs[..i + 1][..i] == reqs[..i];
  }

  /** `Forwarded` keeps exactly the requests that pass the guard: each of
      them is forwarded, and nothing else is. */
  lemma {:induction false} ForwardedIsFilter(reqs: seq<MailRequest>)
    ensures forall k :: 0 <= k < |reqs| && !Skipped(reqs[k]) ==> reqs[k] in Forwarded(reqs)
    ensures forall k :: 0 <= k < |Forwarded(reqs)| ==> Forwarded(reqs)[k] in reqs
    decreases |reqs|
  {
    if reqs != [] {
      ForwardedIsFilter(reqs[1..]);
      forall k | 0 <= k < |reqs| && !Skipped(reqs[k])
        ensures reqs[k] in Forwarded(reqs)
      {
        if k > 0 {
          assert reqs[k] == reqs[1..][k - 1];
        }
      }
    }
  }

  /** A single request is forwarded alone or not at all. */
  lemma ForwardedSingleton(req: MailRequest)
    ensures Forwarded([req]) == if Skipped(req) then [] else [req]
  {
    assert [req][1..] == [];
  }

  lemma {:induction false} ForwardedAppend(a: seq<MailRequest>, b: seq<MailRequest>)
    ensures Forwarded(a + b) == Forwarded(a) + Forwarded(b)
    decreases |a|
  {
    if a == [] {
      assert a + b == b;
    } else {
      assert (a + b)[0] == a[0];
      assert (a + b)[1..] == a[1..] + b;
      ForwardedAppend(a[1..], b);
    }
  }

  /** The loop is a filter followed by a map: the k-th draft is the draft
      composed for the k-th request that passes the guard. */
  lemma {:induction false} DraftsAreComposedInOrder(w: Wording, reqs: seq<MailRequest>)
    ensures |DraftsOf(w, reqs)| == |Forwarded(reqs)|
    ensures forall k :: 0 <= k < |DraftsOf(w, reqs)| ==>
              DraftsOf(w, reqs)[k] == ComposeDraft(w, Forwarded(reqs)[k])
    decreases |reqs|
  {
    if reqs != [] {
      var init, last := reqs[..|reqs| - 1], reqs[|reqs| - 1];
      DraftsAreComposedInOrder(w, init);
      assert init + [last] == reqs;
      ForwardedAppend(init, [last]);
      ForwardedSingleton(last);
      var fi := Forwarded(init);
      assert DraftsOf(w, reqs) == DraftsOf(w, init) + DraftsFor(w, last);
    }
  }

  /** A run produces no draft at all exactly when every request is skipped. */
  lemma {:induction false} NoDraftsIffAllSkipped(w: Wording, reqs: seq<MailRequest>)
    ensures DraftsOf(w, reqs) == [] <==> forall k :: 0 <= k < |reqs| ==> Skipped(reqs[k])
  {
    DraftsAreComposedInOrder(w, reqs);
  }

  /** One draft per request exactly when no request of the batch is skipped. */
  lemma {:induction false} DraftPerRequestIff(w: Wording, reqs: seq<MailRequest>)
    ensures |DraftsOf(w, reqs)| == |reqs| <==> forall k :: 0 <= k < |reqs| ==> !Skipped(reqs[k])
  {
    DraftsAreComposedInOrder(w, reqs);
  }

  /** Every entry of the batch is handled exactly when none is `null`. */
  lemma {:induction false} ProcessedAllIff(entries: seq<Option<MailRequest>>)
    ensures |Processed(entries)| == |entries| <==> None !in entries
  {
    var r := Processed(entries);
    if |r| == |entries| {
      assert forall k :: 0 <= k < |entries| ==> entries[k] == Some(r[k]);
    }
  }

  /** A batch run either fails at once without opening a draft (Outlook
      unavailable), or displays the drafts of the requests handled before the
      first `null` entry, at most one per entry; it reports success exactly
      when there is no `null` entry. */
  lemma {:induction false} BatchOutcomeIff(w: Wording, outlookAvailable: bool, entries: seq<Option<MailRequest>>)
    ensures !outlookAvailable ==>
              BatchOutcome(outlookAvailable, entries) == Some(OutlookUnavailable)
              && BatchDrafts(w, outlookAvailable, entries) == []
    ensures outlookAvailable ==> (BatchOutcome(outlookAvailable, entries) == None <==> None !in entries)
    ensures |BatchDrafts(w, outlookAvailable, entries)| <= |entries|
  {
    if outlookAvailable {
      DraftsAreComposedInOrder(w, Processed(entries));
    }
  }

  /** The draft for a request is addressed to its e-mail, sent on behalf of the
      fixed address, and its subject is "Colis : " followed by the parcels in
      their input order. */
  lemma {:induction false} DraftSubject(w: Wording, req: MailRequest)
    requires !Skipped(req) && FreeOf(',', req.parcels.value)
    ensures ComposeDraft(w, req).to == req.email.value
    ensures ComposeDraft(w, req).sentOnBehalfOf == OnBehalfOf
    ensures ComposeDraft(w, req).subject[..|SubjectPrefix|] == SubjectPrefix
    ensures Split(ParcelSeparator, ComposeDraft(w, req).subject[|SubjectPrefix|..]) == req.parcels.value
  {
    SubjectListsParcels(req.parcels.value);
  }

  /** The draft body uses the singular sentence and action phrase exactly when
      the request carries one parcel, and it carries the bold parcel list. */
  lemma {:induction false} DraftBody(w: Wording, req: MailRequest)
    requires !Skipped(req) && WellFormed(w)
    ensures var body, parcels := ComposeDraft(w, req).htmlBody, req.parcels.value;
      (At(body, SentenceOffset(w), Paragraph(w.singularSentence)) <==> |parcels| == 1)
      && (At(body, ActionOffset(w, parcels), w.singularAction) <==> |parcels| == 1)
      && At(body, ListOffset(w, parcels), ParcelParagraph(parcels))
  {
    BodyParcelSentenceIff(w, req.parcels.value);
    BodyActionIff(w, req.parcels.value);
    BodyParcelParagraph(w, req.parcels.value);
  }

  /** `Name` plays no part in the draft. */
  lemma {:induction false} DraftIgnoresName(w: Wording, req: MailRequest, name: Option<string>)
    requires !Skipped(req)
    ensures ComposeDraft(w, req.(name := name)) == ComposeDraft(w, req)
  {
  }
}
