/** The message composition inside `GenerateMails` (Program.cs): the parcel
    list, the subject line, the singular/plural wording and the HTML body. */
module Composer {

  /** `string.Join(sep, parts)`: the parts in order with `sep` between
      neighbours. */
  function Join(sep: string, parts: seq<string>): (r: string)
    ensures |parts| == 1 ==> r == parts[0]
    ensures parts == [] ==> r == ""
  {
    if |parts| == 0 then ""
    else if |parts| == 1 then parts[0]
    else parts[0] + sep + Join(sep, parts[1..])
  }

  /** Cuts `s` at every occurrence of `sep`, scanning from the left; the
      reading-back counterpart of `Join`. */
  ghost function Split(sep: string, s: string): (r: seq<string>)
    requires |sep| > 0
    ensures |r| > 0
    decreases |s|
  {
    if |s| < |sep| then [s]
    else if s[..|sep|] == sep then [""] + Split(sep, s[|sep|..])
    else
      var rest := Split(sep, s[1..]);
      [[s[0]] + rest[0]] + rest[1..]
  }

  /** No part contains the first character of the separator. */
  predicate FreeOf(c: char, parts: seq<string>) {
    forall k :: 0 <= k < |parts| ==> c !in parts[k]
  }

  lemma {:induction false} SplitSingle(sep: string, p: string)
    requires |sep| > 0 && sep[0] !in p
    ensures Split(sep, p) == [p]
    decreases |p|
  {
    if |p| >= |sep| {
      assert p[..|sep|][0] != sep[0];
      SplitSingle(sep, p[1..]);
      assert [p[0]] + p[1..] == p;
    }
  }

  lemma {:induction false} SplitLeading(sep: string, p: string, t: string)
    requires |sep| > 0 && sep[0] !in p
    ensures Split(sep, p + sep + t) == [p] + Split(sep, t)
    decreases |p|
  {
    var s := p + sep + t;
    if p == [] {
      assert s == sep + t;
      assert s[..|sep|] == sep;
      assert s[|sep|..] == t;
    } else {
      assert s[0] == p[0] && p[0] != sep[0];
      assert s[..|sep|][0] != sep[0];
      assert s[1..] == p[1..] + sep + t;
      SplitLeading(sep, p[1..], t);
      assert [p[0]] + p[1..] == p;
    }
  }

  /** Joining and then splitting gives the parts back, in the same order and
      with repetitions kept, whenever no part contains the separator's first
      character. */
  lemma {:induction false} SplitJoin(sep: string, parts: seq<string>)
    requires |sep| > 0 && |parts| > 0 && FreeOf(sep[0], parts)
    ensures Split(sep, Join(sep, parts)) == parts
  {
    if |parts| == 1 {
      SplitSingle(sep, parts[0]);
    } else {
      SplitLeading(sep, parts[0], Join(sep, parts[1..]));
      SplitJoin(sep, parts[1..]);
      assert [parts[0]] + parts[1..] == parts;
    }
  }

  const ParcelSeparator := ", "
  const SubjectPrefix := "Colis : "

  /** `colisList`: the parcel identifiers joined with ", ". */
  function ParcelList(parcels: seq<string>): string {
    Join(ParcelSeparator, parcels)
  }

  /** The draft's subject. */
  function Subject(parcels: seq<string>): string {
    SubjectPrefix + ParcelList(parcels)
  }

  /** The subject is "Colis : " followed by the parcel list, and the parcel
      identifiers can be read back from it in their input order. */
  lemma SubjectListsParcels(parcels: seq<string>)
    requires |parcels| > 0 && FreeOf(',', parcels)
    ensures |Subject(parcels)| >= |SubjectPrefix|
    ensures Subject(parcels)[..|SubjectPrefix|] == SubjectPrefix
    ensures Split(ParcelSeparator, Subject(parcels)[|SubjectPrefix|..]) == parcels
  {
    assert Subject(parcels)[|SubjectPrefix|..] == ParcelList(parcels);
    SplitJoin(ParcelSeparator, parcels);
  }

  /** Two parcel lists give the same subject only when they are the same
      list: no reordering, no merging of repeated identifiers. */
  lemma SubjectDeterminesParcels(a: seq<string>, b: seq<string>)
    requires |a| > 0 && FreeOf(',', a)
    requires |b| > 0 && FreeOf(',', b)
    ensures Subject(a) == Subject(b) <==> a == b
  {
    if Subject(a) == Subject(b) {
      SubjectListsParcels(a);
      SubjectListsParcels(b);
    }
  }

  /** The fixed texts of the HTML body. `Notification` below holds the ones
      of Program.cs; the properties are proved for any wording whose
      singular and plural forms differ. */
  datatype Wording = Wording(
    greeting: string,
    singularSentence: string,
    pluralSentence: string,
    actionLead: string,
    singularAction: string,
    pluralAction: string,
    actionTail: string,
    closing: string,
    signature: string)

  /** Neither string is a prefix of the other. */
  predicate Differ(a: string, b: string) {
    exists j :: 0 <= j < |a| && j < |b| && a[j] != b[j]
  }

  predicate WellFormed(w: Wording) {
    Differ(w.singularSentence, w.pluralSentence) && Differ(w.singularAction, w.pluralAction)
  }

  // The singular and plural forms share their tails.
  const SentenceTail := " actuellement en attente de livraison dans notre agence :"
  const DeliveryVerb := " remettre en livraison"

  const SingularParcelSentence := "Votre colis suivant est" + SentenceTail
  const PluralParcelSentence := "Vos colis suivants sont" + SentenceTail
  const SingularAction := "le" + DeliveryVerb
  const PluralAction := "les" + DeliveryVerb

  /** `signatureHTML`, a fixed HTML block (contact details, links and images)
      appended to every message; its text plays no part in any property, so
      it is left unspecified here. */
  const SignatureHtml: string

  /** The wording of Program.cs. */
  const Notification := Wording(
    "Bonjour,",
    SingularParcelSentence,
    PluralParcelSentence,
    "Afin que nous puissions ",
    SingularAction,
    PluralAction,
    ", pourriez-vous nous transmettre un numéro de téléphone valide, "
    + "ainsi que le jour de la livraison souhaité (du <b>lundi au vendredi</b>).</p>",
    "<p><b>Merci de contacter le 09 74 910 910</b> (numéro gratuit).</p>"
    + "<p><i><u>(Nous ne pouvons pas vous donner un horaire fixe de livraison, cela dépend de la tournée de notre chauffeur)</u></i></p>"
    + "<p>Merci de votre retour.</p>"
    + "<p><i>Tout e-mail reçu après <b>17h00</b> sera pris en charge le lendemain matin. (Hors samedi et dimanche)</i></p>",
    SignatureHtml)

  /** The singular and plural forms of Program.cs can be told apart: "Votre"
      against "Vos", "le " against "les". */
  lemma NotificationWellFormed()
    ensures WellFormed(Notification)
  {
    var w := Notification;
    assert w.singularSentence[2] == 't' && w.pluralSentence[2] == 's';
    assert w.singularAction[2] == ' ' && w.pluralAction[2] == 's';
  }

  /** `phraseColis`. */
  function ParcelSentence(w: Wording, count: nat): string {
    if count == 1 then w.singularSentence else w.pluralSentence
  }

  /** `phraseAction`. */
  function ActionPhrase(w: Wording, count: nat): string {
    if count == 1 then w.singularAction else w.pluralAction
  }

  /** The singular forms are chosen exactly for one parcel, the plural ones
      exactly for any other count. */
  lemma PhrasingIff(w: Wording, count: nat)
    requires WellFormed(w)
    ensures ParcelSentence(w, count) == w.singularSentence <==> count == 1
    ensures ParcelSentence(w, count) == w.pluralSentence <==> count != 1
    ensures ActionPhrase(w, count) == w.singularAction <==> count == 1
    ensures ActionPhrase(w, count) == w.pluralAction <==> count != 1
  {
  }

  /** With the wording of Program.cs: "Votre colis suivant est …" and "le
      remettre en livraison" for one parcel, "Vos colis suivants sont …" and
      "les remettre en livraison" for any other count. */
  lemma {:induction false} NotificationPhrasing(count: nat)
    ensures ParcelSentence(Notification, count) == SingularParcelSentence <==> count == 1
    ensures ParcelSentence(Notification, count) == PluralParcelSentence <==> count != 1
    ensures ActionPhrase(Notification, count) == SingularAction <==> count == 1
    ensures ActionPhrase(Notification, count) == PluralAction <==> count != 1
  {
    NotificationWellFormed();
    PhrasingIff(Notification, count);
  }

  function Paragraph(s: string): string {
    "<p>" + s + "</p>"
  }

  /** The bold paragraph that carries the parcel list. */
  function ParcelParagraph(parcels: seq<string>): string {
    Paragraph("<b>" + ParcelList(parcels) + "</b>")
  }

  /** `messageHTML`. */
  function MessageHtml(w: Wording, parcels: seq<string>): string {
    Paragraph(w.greeting) + Paragraph(ParcelSentence(w, |parcels|)) + ParcelParagraph(parcels)
    + ("<p>" + w.actionLead) + ActionPhrase(w, |parcels|) + w.actionTail + w.closing
  }

  /** The draft's `HTMLBody`: message followed by signature. */
  function HtmlBody(w: Wording, parcels: seq<string>): string {
    MessageHtml(w, parcels) + w.signature
  }

  /** `t` occurs in `s` starting at index `k`. */
  predicate At(s: string, k: int, t: string) {
    0 <= k && k + |t| <= |s| && forall j :: 0 <= j < |t| ==> s[k + j] == t[j]
  }

  /** Where each of eight consecutive pieces sits in their concatenation. */
  lemma {:induction false} PiecesAt(p0: string, p1: string, p2: string, p3: string,
                                    p4: string, p5: string, p6: string, p7: string)
    ensures var s := p0 + p1 + p2 + p3 + p4 + p5 + p6 + p7;
      At(s, 0, p0) && At(s, |p0|, p1) && At(s, |p0| + |p1|, p2)
      && At(s, |p0| + |p1| + |p2|, p3)
      && At(s, |p0| + |p1| + |p2| + |p3|, p4) && At(s, |s| - |p7|, p7)
  {
    var s := p0 + p1 + p2 + p3 + p4 + p5 + p6 + p7;
    var k4 := |p0| + |p1| + |p2| + |p3|;
    assert s[..|p0|] == p0;
    assert s[|p0|..|p0| + |p1|] == p1;
    assert s[|p0| + |p1|..|p0| + |p1| + |p2|] == p2;
    assert s[|p0| + |p1| + |p2|..k4] == p3;
    assert s[k4..k4 + |p4|] == p4;
    assert s[|s| - |p7|..] == p7;
  }

  /** Where the parcel sentence starts in the body. */
  function SentenceOffset(w: Wording): nat {
    |Paragraph(w.greeting)|
  }

  /** Where the parcel paragraph starts in the body. */
  function ListOffset(w: Wording, parcels: seq<string>): nat {
    SentenceOffset(w) + |Paragraph(ParcelSentence(w, |parcels|))|
  }

  /** Where the singular or plural action phrase starts in the body. */
  function ActionOffset(w: Wording, parcels: seq<string>): nat {
    ListOffset(w, parcels) + |ParcelParagraph(parcels)| + |"<p>" + w.actionLead|
  }

  /** The body as its eight consecutive pieces. */
  lemma {:induction false} BodyPieces(w: Wording, parcels: seq<string>)
    ensures HtmlBody(w, parcels)
      == Paragraph(w.greeting) + Paragraph(ParcelSentence(w, |parcels|)) + ParcelParagraph(parcels)
         + ("<p>" + w.actionLead) + ActionPhrase(w, |parcels|) + w.actionTail + w.closing + w.signature
  {
  }

  /** Where each piece of the body sits. */
  lemma {:induction false} BodyLayout(w: Wording, parcels: seq<string>)
    ensures var s := HtmlBody(w, parcels);
      At(s, 0, Paragraph(w.greeting))
      && At(s, SentenceOffset(w), Paragraph(ParcelSentence(w, |parcels|)))
      && At(s, ListOffset(w, parcels), ParcelParagraph(parcels))
      && At(s, ActionOffset(w, parcels) - |"<p>" + w.actionLead|, "<p>" + w.actionLead)
      && At(s, ActionOffset(w, parcels), ActionPhrase(w, |parcels|))
      && At(s, |s| - |w.signature|, w.signature)
  {
    var n := |parcels|;
    BodyPieces(w, parcels);
    PiecesAt(Paragraph(w.greeting), Paragraph(ParcelSentence(w, n)), ParcelParagraph(parcels),
             "<p>" + w.actionLead, ActionPhrase(w, n), w.actionTail, w.closing, w.signature);
  }

  /** The body opens with the greeting paragraph, followed by the paragraph
      holding the parcel sentence for this many parcels. */
  lemma {:induction false} BodyOpening(w: Wording, parcels: seq<string>)
    ensures At(HtmlBody(w, parcels), 0, Paragraph(w.greeting))
    ensures At(HtmlBody(w, parcels), SentenceOffset(w), Paragraph(ParcelSentence(w, |parcels|)))
  {
    BodyLayout(w, parcels);
  }

  /** The parcel list, in bold, is the third paragraph of the body. */
  lemma {:induction false} BodyParcelParagraph(w: Wording, parcels: seq<string>)
    ensures At(HtmlBody(w, parcels), ListOffset(w, parcels), ParcelParagraph(parcels))
  {
    BodyLayout(w, parcels);
  }

  /** The fourth paragraph opens with the action lead ("Afin que nous
      puissions "), and the action phrase for this many parcels follows it
      directly. */
  lemma {:induction false} BodyAction(w: Wording, parcels: seq<string>)
    ensures At(HtmlBody(w, parcels), ActionOffset(w, parcels) - |"<p>" + w.actionLead|, "<p>" + w.actionLead)
    ensures At(HtmlBody(w, parcels), ActionOffset(w, parcels), ActionPhrase(w, |parcels|))
  {
    BodyLayout(w, parcels);
  }

  /** The body ends with the signature block. */
  lemma {:induction false} BodySignature(w: Wording, parcels: seq<string>)
    ensures At(HtmlBody(w, parcels), |HtmlBody(w, parcels)| - |w.signature|, w.signature)
  {
    BodyLayout(w, parcels);
  }

  lemma AtExcludes(s: string, k: int, t: string, u: string)
    requires At(s, k, t) && Differ(t, u)
    ensures !At(s, k, u)
  {
  }

  lemma ParagraphsDiffer(a: string, b: string)
    requires Differ(a, b)
    ensures Differ(Paragraph(a), Paragraph(b))
  {
    var j :| 0 <= j < |a| && j < |b| && a[j] != b[j];
    assert Paragraph(a)[j + 3] == a[j] && Paragraph(b)[j + 3] == b[j];
  }

  /** The singular parcel sentence opens the second paragraph exactly when
      there is one parcel; otherwise the plural one does. */
  lemma {:induction false} BodyParcelSentenceIff(w: Wording, parcels: seq<string>)
    requires WellFormed(w)
    ensures At(HtmlBody(w, parcels), SentenceOffset(w), Paragraph(w.singularSentence)) <==> |parcels| == 1
    ensures At(HtmlBody(w, parcels), SentenceOffset(w), Paragraph(w.pluralSentence)) <==> |parcels| != 1
  {
    BodyOpening(w, parcels);
    var sing, plur := Paragraph(w.singularSentence), Paragraph(w.pluralSentence);
    ParagraphsDiffer(w.singularSentence, w.pluralSentence);
    if |parcels| == 1 {
      AtExcludes(HtmlBody(w, parcels), SentenceOffset(w), sing, plur);
    } else {
      DifferSymmetric(sing, plur);
      AtExcludes(HtmlBody(w, parcels), SentenceOffset(w), plur, sing);
    }
  }

  lemma DifferSymmetric(a: string, b: string)
    requires Differ(a, b)
    ensures Differ(b, a)
  {
    var j :| 0 <= j < |a| && j < |b| && a[j] != b[j];
    assert b[j] != a[j];
  }

  /** The action phrase is the singular one exactly when there is one parcel,
      and the plural one otherwise. */
  lemma {:induction false} BodyActionIff(w: Wording, parcels: seq<string>)
    requires WellFormed(w)
    ensures At(HtmlBody(w, parcels), ActionOffset(w, parcels), w.singularAction) <==> |parcels| == 1
    ensures At(HtmlBody(w, parcels), ActionOffset(w, parcels), w.pluralAction) <==> |parcels| != 1
  {
    BodyAction(w, parcels);
    if |parcels| == 1 {
      AtExcludes(HtmlBody(w, parcels), ActionOffset(w, parcels), w.singularAction, w.pluralAction);
    } else {
      DifferSymmetric(w.singularAction, w.pluralAction);
      AtExcludes(HtmlBody(w, parcels), ActionOffset(w, parcels), w.pluralAction, w.singularAction);
    }
  }
}
