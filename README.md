# outlook-helper-server: the `/send-mails` pipeline

A Dafny model of the core of outlook-helper-server, a small Windows service
behind a web page. `POST /send-mails` receives a JSON array of
`MailRequest` records. For each request with a usable e-mail address and at
least one parcel identifier, the service opens an Outlook draft:

- the draft is addressed to the customer and sent on behalf of the shared
  GLS mailbox;
- the subject is `Colis : ` followed by the parcel list;
- the French HTML body tells the customer that their parcel or parcels are
  waiting at the agency. It uses the singular or plural wording depending on
  the parcel count, and ends with a fixed signature.

The handler answers `400` for a `null` or empty array and `200` with
`{status: "ok", count}` when the batch ran. Any exception becomes a
`Results.Problem` response.

The model has four modules, one per stage of the pipeline:

- `MailRequests` (`mail_request.dfy`): the request record, .NET
  `Char.IsWhiteSpace` and `string.IsNullOrWhiteSpace`, the guard that skips a
  request, and `TrimStart`, a reference definition of "blank" that the
  guard is checked against.
- `Composer` (`composer.dfy`): `string.Join`, the subject, and the
  singular/plural phrasing. It also lays out the HTML body.
  - Every fixed text of the body is one `Wording` value.
  - `Notification` holds the texts of Program.cs.
  - The body properties are proved for every wording whose singular and
    plural forms differ. `NotificationWellFormed` shows that `Notification`
    is such a wording.
- `MailBatch` (`generate_mails.dfy`): `GenerateMails`, an imperative loop
  over the batch. Outlook is a class whose `drafts` field records every
  displayed draft, in order. The loop is proved against `DraftsOf`, the list
  of drafts built one request at a time. `DraftsOf` is shown to be the
  drafts of `Forwarded`, the requests that pass the guard.
- `SendMailsEndpoint` (`send_mails.dfy`): the payload after
  deserialisation, the three kinds of response, and the handler.

Four behaviours of the code are easy to misread, and the model keeps them
as written:

- The `400` answer says "Payload vide ou invalide." (Program.cs:47), yet
  it covers only a `null` or empty array. A body that is not valid JSON
  makes `DeserializeAsync` throw inside the `try`. The answer is a
  `Problem` response with the serializer's message.
- When Outlook cannot be started, `GenerateMails` throws
  `InvalidOperationException`. The handler answers `Problem` with that
  message. Nothing degrades gracefully.
- `count` is the length of the whole array, skipped requests included.
- A `null` element of the array is dereferenced by the guard. The drafts
  displayed before it stay open, and the handler answers `Problem` with the
  `NullReferenceException` message.

## Model

| member | source | states |
|---|---|---|
| MailRequests.IsWhiteSpace | Program.cs:91 | .NET `Char.IsWhiteSpace`; what it decides is stated through BlankIffTrimsToEmpty and ForwardedIff |
| MailRequests.IsNullOrWhiteSpace | Program.cs:91 | `string.IsNullOrWhiteSpace`; BlankIffTrimsToEmpty states it holds exactly when trimming leaves nothing |
| MailRequests.Skipped | Program.cs:91-92 | the guard; ForwardedIff states when a request passes it |
| MailRequests.BlankIffTrimsToEmpty | Program.cs:91 | an address is null-or-white-space exactly when trimming its leading white space leaves nothing |
| MailRequests.ForwardedIff | Program.cs:91-92 | a request passes the guard iff it has an address with a non-white-space character and at least one parcel |
| Composer.Join | Program.cs:94 | joining no parts gives the empty string; joining one part gives that part; SplitJoin carries the general case |
| Composer.SplitJoin | Program.cs:94 | splitting the joined string at the separator gives back the parts, in order and with repetitions, when no part holds the separator's first character |
| Composer.SubjectListsParcels | Program.cs:102 | the subject starts with "Colis : " and the rest reads back as the parcel identifiers in input order |
| Composer.ParcelList | Program.cs:94 | the parcels joined with ", "; SplitJoin and SubjectListsParcels state that they read back in order |
| Composer.Subject | Program.cs:102 | "Colis : " and the parcel list; stated by SubjectListsParcels and SubjectDeterminesParcels |
| Composer.SubjectDeterminesParcels | Program.cs:94-102 | for non-empty lists of identifiers without a comma, two lists give the same subject iff they are the same list |
| Composer.ParcelSentence | Program.cs:97-99 | `phraseColis`; PhrasingIff and NotificationPhrasing state when the singular form is chosen |
| Composer.ActionPhrase | Program.cs:101 | `phraseAction`; PhrasingIff and NotificationPhrasing state when the singular form is chosen |
| Composer.NotificationWellFormed | Program.cs:97-101 | the singular and plural sentences, and the singular and plural action phrases, of the service's wording differ at some position |
| Composer.PhrasingIff | Program.cs:97-101 | the singular sentence and action phrase are chosen iff there is exactly one parcel; the plural ones iff any other count |
| Composer.NotificationPhrasing | Program.cs:97-101 | with the service's wording, "Votre colis suivant est …" and "le remettre en livraison" are chosen iff there is one parcel; "Vos colis suivants sont …" and "les remettre en livraison" otherwise |
| Composer.BodyOpening | Program.cs:104-106 | the body starts with the greeting paragraph, and the parcel-sentence paragraph follows it |
| Composer.BodyParcelParagraph | Program.cs:107 | the bold parcel list is the third paragraph of the body |
| Composer.MessageHtml | Program.cs:104-113 | `messageHTML`; its layout is stated by BodyOpening, BodyParcelParagraph, BodyAction and the two Iff lemmas |
| Composer.HtmlBody | Program.cs:138 | the message followed by the signature; BodySignature states that the body ends with the signature |
| Composer.BodyAction | Program.cs:108 | the fourth paragraph opens with "Afin que nous puissions ", and the action phrase for this parcel count follows it directly |
| Composer.BodySignature | Program.cs:138 | the body ends with the signature block |
| Composer.BodyParcelSentenceIff | Program.cs:97-106 | the second paragraph is the singular sentence iff there is one parcel, and the plural sentence iff not |
| Composer.BodyActionIff | Program.cs:101-108 | the action phrase in the body is the singular one iff there is one parcel, and the plural one iff not |
| MailBatch.ErrorMessage | Program.cs:84-86 | each exception the batch can end with carries a non-empty message |
| MailBatch.ErrorMessagesDistinct | Program.cs:54-56 | the Outlook message and the null-reference message differ, so the `Problem` detail tells the two failures apart |
| MailBatch.Outlook.constructor | Program.cs:82 | a freshly acquired Outlook instance has no drafts; GenerateMails takes the instance from its caller, and `outlookAvailable` says whether acquiring it succeeded |
| MailBatch.Outlook.DisplayMail | Program.cs:135-140 | displaying a mail appends exactly that draft (recipient, subject, body, sender) and changes nothing else |
| MailBatch.ComposeDraft | Program.cs:94-139 | the four fields set on the mail item; stated by DraftSubject, DraftBody and DraftIgnoresName |
| MailBatch.DraftsFor | Program.cs:91-92 | one iteration opens no draft for a skipped request and exactly one otherwise |
| MailBatch.Forwarded | Program.cs:89-92 | the forwarded requests are at most the batch, all pass the guard, are the whole batch iff none is skipped, and are empty iff all are skipped |
| MailBatch.ForwardedIsFilter | Program.cs:89-92 | every request that passes the guard is forwarded, and every forwarded request comes from the batch |
| MailBatch.ForwardedSingleton | Program.cs:89-92 | a single request is forwarded alone when it passes the guard, and not at all otherwise |
| MailBatch.Processed | Program.cs:89-91 | the requests handled are the non-null prefix of the batch, and they stop only at a null entry |
| MailBatch.HandleRequest | Program.cs:91-140 | one iteration appends nothing for a skipped request and the composed draft otherwise |
| MailBatch.GenerateMails | Program.cs:77-142 | Outlook ends up with exactly the drafts of the requests handled before the first null entry, in order; the run fails with the Outlook message before any draft when Outlook is missing, and with the null-reference error at a null entry |
| MailBatch.DraftsAreComposedInOrder | Program.cs:89-141 | there are as many drafts as forwarded requests, and the k-th draft is the one composed for the k-th forwarded request |
| MailBatch.NoDraftsIffAllSkipped | Program.cs:89-92 | a run opens no draft iff every request is skipped |
| MailBatch.DraftPerRequestIff | Program.cs:89-92 | a run opens one draft per request iff no request is skipped |
| MailBatch.ProcessedAllIff | Program.cs:89-91 | every entry is handled iff no entry is null |
| MailBatch.BatchOutcome | Program.cs:79-91 | the exception the batch ends with, if any; stated by BatchOutcomeIff |
| MailBatch.BatchDrafts | Program.cs:79-141 | the drafts the batch displays; stated by BatchOutcomeIff and DraftsAreComposedInOrder |
| MailBatch.BatchOutcomeIff | Program.cs:79-91 | without Outlook the run fails with no draft; with Outlook it succeeds iff no entry is null, and never opens more drafts than entries |
| MailBatch.DraftSubject | Program.cs:135-139 | a draft goes to the request's address on behalf of the fixed mailbox, and its subject reads back as the request's parcels |
| MailBatch.DraftBody | Program.cs:97-113 | a draft's body uses the singular sentence and action phrase iff the request has one parcel, and it carries the bold parcel list |
| MailBatch.DraftIgnoresName | Program.cs:8 | the Name field has no effect on the draft |
| SendMailsEndpoint.Respond | Program.cs:37-58 | BadRequest with "Payload vide ou invalide." iff the payload is null or empty; Ok with status "ok" and the batch length iff the batch ran with Outlook and no null entry; otherwise Problem with the serializer's message, the Outlook message, or the null-reference message |
| SendMailsEndpoint.DraftsSent | Program.cs:46-52 | the drafts the handler leaves in Outlook; stated by SendMails, NoDraftsWithoutBatch and OkCountsWholeBatch |
| SendMailsEndpoint.SendMails | Program.cs:37-58 | the handler answers `Respond` and leaves in Outlook exactly the drafts of the batch, worded as Program.cs words them |
| SendMailsEndpoint.NoDraftsWithoutBatch | Program.cs:46-50 | a null, empty or malformed payload, or a missing Outlook, opens no draft and gets no Ok |
| SendMailsEndpoint.OkCountsWholeBatch | Program.cs:52 | an Ok's count is at least the number of drafts, and equal to it iff no request was skipped |
| SendMailsEndpoint.ThreeRequestDrafts | Program.cs:89-141 | in the batch (a@x.com, P1), (blank, P2), (b@x.com, P3 P4) the blank request is skipped and the two others give drafts in order |
| SendMailsEndpoint.ThreeRequestSubjects | Program.cs:102 | the subjects for [P1] and [P3, P4] are "Colis : P1" and "Colis : P3, P4" |
| SendMailsEndpoint.ThreeRequestBatch | Program.cs:37-58 | that batch is answered Ok with count 3 and opens two drafts, to a@x.com and b@x.com, with their subjects and bodies |

## Left out

- Host set-up, the CORS middleware, the `OPTIONS` short-cut and `/ping`: they do not touch the pipeline.
- JSON deserialisation: the model starts from its three outcomes (an exception with its message, `null`, or the list). Case-insensitive property matching is not modelled.
- `RunSTAAsync`: the model runs the batch on the caller's thread. The STA thread only forwards the result or the exception.
- Outlook COM interop: `CreateItem` and the four field assignments followed by `Display()` are one `DisplayMail` call that records the draft. COM failures in the middle of a batch, other than the null entry, are not modelled.
- The signature block (Program.cs:115-133) is an unspecified constant string. No property depends on its text, and spelling out about two thousand characters would only slow the proofs.
- A `null` element inside `Parcels`: `string.Join` prints it as an empty string. The model's parcel lists hold strings only.
- SubjectListsParcels, SubjectDeterminesParcels, DraftSubject: reading the parcels back, and telling two parcel lists apart by their subjects, needs non-empty lists of identifiers without a comma. Identifiers that contain ", " make the subject ambiguous, and no read-back is claimed for them.
- `Split` is a reference definition for the proofs. The service never splits a subject.
- `TrimStart` is a reference definition of "blank" that `string.IsNullOrWhiteSpace` is checked against. The service never trims.
