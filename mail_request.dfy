/** The `MailRequest` record of Program.cs and the rule that decides whether a
    request is forwarded to Outlook at all. */
module MailRequests {

  datatype Option<+T> = None | Some(value: T)

  /** One entry of a `/send-mails` batch. JSON deserialisation may leave `Email`
      and `Parcels` null, so both are optional here; `Name` is nullable in the
      record itself. */
  datatype MailRequest = MailRequest(email: Option<string>, name: Option<string>, parcels: Option<seq<string>>)

  /** .NET `Char.IsWhiteSpace`: the Unicode space, line and paragraph separators
      plus U+0009..U+000D, U+0085 and U+00A0. */
  predicate IsWhiteSpace(c: char) {
    ('\t' <= c <= '\r') || c == ' ' || c == '\U{85}' || c == '\U{A0}' || c == '\U{1680}'
    || ('\U{2000}' <= c <= '\U{200A}') || c == '\U{2028}' || c == '\U{2029}'
    || c == '\U{202F}' || c == '\U{205F}' || c == '\U{3000}'
  }

  predicate IsBlank(s: string) {
    forall k :: 0 <= k < |s| ==> IsWhiteSpace(s[k])
  }

  /** `string.IsNullOrWhiteSpace`. */
  predicate IsNullOrWhiteSpace(s: Option<string>) {
    s.None? || IsBlank(s.value)
  }

  /** Drops the leading white-space characters: the reference definition of
      "blank" that `string.IsNullOrWhiteSpace` is checked against. */
  function TrimStart(s: string): (r: string)
    ensures |r| <= |s| && r == s[|s| - |r|..]
    ensures forall k :: 0 <= k < |s| - |r| ==> IsWhiteSpace(s[k])
    ensures r != [] ==> !IsWhiteSpace(r[0])
  {
    if s == [] || !IsWhiteSpace(s[0]) then s else TrimStart(s[1..])
  }

  /** A string is null-or-white-space exactly when trimming leaves nothing. */
  lemma {:induction false} BlankIffTrimsToEmpty(s: string)
    ensures IsNullOrWhiteSpace(Some(s)) <==> TrimStart(s) == ""
  {
  }

  /** The guard at the top of the loop in `GenerateMails`: a blank or missing
      address, or a missing or empty parcel list, skips the request. */
  predicate Skipped(req: MailRequest) {
    IsNullOrWhiteSpace(req.email) || req.parcels.None? || |req.parcels.value| == 0
  }

  /** A request passes the guard exactly when it has a non-blank address and at
      least one parcel. */
  lemma ForwardedIff(req: MailRequest)
    ensures !Skipped(req) <==>
              (req.email.Some? && TrimStart(req.email.value) != ""
               && req.parcels.Some? && |req.parcels.value| >= 1)
  {
    if req.email.Some? {
      BlankIffTrimsToEmpty(req.email.value);
    }
  }
}
