/** The parent's application tracking page: submitting the documents link
    and the payment receipt link, the status caption, message and colour,
    and which submission form is shown. */
module ApplicationTracking {
  import opened Seqs
  import opened Text
  import AdmissionStore

  /** The fields of a tracked application the page reads or replaces. */
  datatype TrackedApplication = TrackedApplication(
    reference_number: string,
    student_name: string,
    status: Option<string>,
    documents_link: Option<string>,
    payment_receipt_link: Option<string>)

  /** The two links a parent can submit. */
  datatype LinkField = DocumentsLink | PaymentReceiptLink

  /** What a submission does: an empty link is refused before any request;
      otherwise the trimmed link is sent. */
  datatype Submission = EmptyLink | Sent(field: LinkField, link: string)

  function WithLink(a: TrackedApplication, field: LinkField, link: string): TrackedApplication {
    match field
    case DocumentsLink => a.(documents_link := Some(link))
    case PaymentReceiptLink => a.(payment_receipt_link := Some(link))
  }

  function LinkOf(a: TrackedApplication, field: LinkField): Option<string> {
    match field
    case DocumentsLink => a.documents_link
    case PaymentReceiptLink => a.payment_receipt_link
  }

  /** `loadApplication` fills each link input with the stored link, or with
      '' when the application or its link is missing. */
  function InitialLink(app: Option<TrackedApplication>, field: LinkField): (r: string)
    ensures app.Some? && LinkOf(app.value, field).Some? ==> r == LinkOf(app.value, field).value
    ensures app.None? || LinkOf(app.value, field).None? ==> r == ""
  {
    if app.Some? && LinkOf(app.value, field).Some? then LinkOf(app.value, field).value else ""
  }

  /** A successful submission is what the input shows after the page is
      loaded again: the link input holds the submitted, trimmed link. */
  lemma SubmittedLinkReloads(app: Option<TrackedApplication>, field: LinkField, input: string)
    requires app.Some? && Trim(input) != []
    ensures InitialLink(SubmitLink(app, field, input, true).1, field) == Trim(input)
  {
  }

  /** `handleSubmitDocuments` and `handleSubmitPaymentReceipt`: the input is
      trimmed; an empty result sends nothing and changes nothing. Otherwise
      the trimmed link is sent, and when the request succeeds the loaded
      application gets that link in the submitted field and in no other. */
  function SubmitLink(app: Option<TrackedApplication>, field: LinkField, input: string,
                      succeeded: bool): (r: (Submission, Option<TrackedApplication>))
    ensures Trim(input) == [] ==> r == (EmptyLink, app)
    ensures Trim(input) != [] ==> r.0 == Sent(field, Trim(input))
    ensures Trim(input) == [] || !succeeded || app.None? ==> r.1 == app
    ensures Trim(input) != [] && succeeded && app.Some? ==>
              r.1.Some? &&
              (field == DocumentsLink ==> r.1.value == app.value.(documents_link := Some(Trim(input)))) &&
              (field == PaymentReceiptLink ==> r.1.value == app.value.(payment_receipt_link := Some(Trim(input))))
  {
    var link := Trim(input);
    if link == [] then (EmptyLink, app)
    else if succeeded && app.Some? then (Sent(field, link), Some(WithLink(app.value, field, link)))
    else (Sent(field, link), app)
  }

  /** A link that is only white space is refused. */
  lemma BlankLinkRefused(app: Option<TrackedApplication>, field: LinkField, input: string, succeeded: bool)
    requires AllSpace(input)
    ensures SubmitLink(app, field, input, succeeded) == (EmptyLink, app)
  {
    TrimEmptyIff(input);
  }

  /** A sent link never starts or ends with white space, and submitting it
      again as typed sends the same link. */
  lemma SentLinkIsTrimmed(app: Option<TrackedApplication>, field: LinkField, input: string, succeeded: bool)
    requires SubmitLink(app, field, input, succeeded).0.Sent?
    ensures var link := SubmitLink(app, field, input, succeeded).0.link;
            !IsJsSpace(link[0]) && !IsJsSpace(link[|link| - 1]) &&
            SubmitLink(app, field, link, succeeded).0 == Sent(field, link)
  {
    TrimIdempotent(input);
  }

  // ---------------------------------------------------------------------
  // Status caption

  /** The regex class `\w`: ASCII letters, digits and '_'. */
  predicate IsWordChar(c: char) {
    'a' <= c <= 'z' || 'A' <= c <= 'Z' || '0' <= c <= '9' || c == '_'
  }

  /** `replace(/_/g, ' ')`. */
  function UnderscoresToSpaces(s: string): (r: string)
    ensures |r| == |s|
    ensures forall k :: 0 <= k < |s| ==> r[k] == if s[k] == '_' then ' ' else s[k]
  {
    if s == [] then [] else [if s[0] == '_' then ' ' else s[0]] + UnderscoresToSpaces(s[1..])
  }

  /** Whether position `k` of `s` starts a word (`\b\w`), given whether the
      character before `s` is a word character. */
  predicate AtWordStart(s: string, k: nat, afterWord: bool)
    requires k < |s|
  {
    IsWordChar(s[k]) && !(if k == 0 then afterWord else IsWordChar(s[k - 1]))
  }

  /** `replace(/\b\w/g, l => l.toUpperCase())` on the part of a string after
      a character that is (`afterWord`) or is not a word character. */
  function CapitalizeFrom(s: string, afterWord: bool): (r: string)
    ensures |r| == |s|
    ensures forall k :: 0 <= k < |s| ==> r[k] == if AtWordStart(s, k, afterWord) then UpperChar(s[k]) else s[k]
  {
    if s == [] then []
    else
      var c := if IsWordChar(s[0]) && !afterWord then UpperChar(s[0]) else s[0];
      var rest := CapitalizeFrom(s[1..], IsWordChar(s[0]));
      var r := [c] + rest;
      assert forall k :: 1 <= k < |s| ==> r[k] == rest[k - 1] && AtWordStart(s, k, afterWord) == AtWordStart(s[1..], k - 1, IsWordChar(s[0]));
      r
  }

  /** Each word starts with its letter upper-cased: the character at each
      word start, and only there, goes through `toUpperCase`. */
  function Capitalize(s: string): (r: string)
    ensures |r| == |s|
    ensures forall k :: 0 <= k < |s| ==> r[k] == if AtWordStart(s, k, false) then UpperChar(s[k]) else s[k]
  {
    CapitalizeFrom(s, false)
  }

  /** `formatStatus`: every '_' a space and every word capitalised; a
      missing or empty status shows as 'Unknown'. A character is
      capitalised when it is a word character other than '_' and the
      character before it, if any, is '_' or not a word character. */
  function FormatStatus(status: Option<string>): (r: string)
    ensures status.None? || status.value == "" ==> r == "Unknown"
    ensures status.Some? && status.value != "" ==>
              var s := status.value;
              |r| == |s| && '_' !in r &&
              forall k :: 0 <= k < |s| ==>
                r[k] == if s[k] == '_' then ' '
                        else if IsWordChar(s[k]) && (k == 0 || s[k - 1] == '_' || !IsWordChar(s[k - 1]))
                        then UpperChar(s[k]) else s[k]
  {
    match status
    case None => "Unknown"
    case Some(s) =>
      var u := UnderscoresToSpaces(s);
      var r := Capitalize(u);
      assert forall k :: 0 <= k < |s| ==> r[k] != '_';
      if r == "" then "Unknown" else r
  }

  // ---------------------------------------------------------------------
  // Status message and colour

  datatype Icon = CheckIcon | ClockIcon | FileIcon

  /** `getStatusIcon`: a check for verified documents and admission, a clock
      while documents or payment are pending, a file otherwise. */
  function StatusIcon(status: Option<string>): (r: Icon)
    ensures r == CheckIcon <==> status == Some("documents_verified") || status == Some("admitted")
    ensures r == ClockIcon <==> status == Some("documents_pending") || status == Some("payment_pending")
  {
    if status == Some("documents_verified") || status == Some("admitted") then CheckIcon
    else if status == Some("documents_pending") || status == Some("payment_pending") then ClockIcon
    else FileIcon
  }

  const StatusMessages: map<string, string> := map[
    "enquiry_new" := "Your application has been received and is under review.",
    "enquiry_hot" := "Your application is being prioritized. We will contact you soon.",
    "enquiry_warm" := "Your application is being reviewed. We will contact you shortly.",
    "enquiry_cold" := "Your application is on file. We will contact you if needed.",
    "documents_pending" := "We require additional documents to proceed with your application. Please submit them as soon as possible.",
    "documents_verified" := "Your documents have been verified. We will proceed with the next steps.",
    "payment_pending" := "Your documents are verified. Please complete the fee payment to proceed.",
    "admitted" := "Congratulations! Your application has been accepted. Welcome to Kid Scholars!",
    "rejected" := "We regret to inform you that your application was not accepted.",
    "on_hold" := "Your application is currently on hold. We will contact you with updates."]

  const ProcessingMessage := "Your application is being processed."

  /** `getStatusMessage`: the message of a known status, the processing
      message for a missing or unknown one. */
  function StatusMessage(status: Option<string>): (r: string)
    ensures status.Some? && status.value in StatusMessages ==> r == StatusMessages[status.value]
    ensures status.None? || status.value !in StatusMessages ==> r == ProcessingMessage
  {
    if status.Some? && status.value in StatusMessages then StatusMessages[status.value] else ProcessingMessage
  }

  datatype Colour = Red | Orange | Blue | Yellow | Green | Purple | Emerald | Grey

  /** A status with none of the substrings `hot`, `warm` and `cold`, the
      case in which `getStatusColor` compares exactly. */
  predicate NoTemperature(s: string) {
    !Contains(s, "hot") && !Contains(s, "warm") && !Contains(s, "cold")
  }

  /** `getStatusColor`: the substrings `hot`, `warm` and `cold` are tested
      first, in that order, then the exact statuses; anything else, and a
      missing status, is grey. (`rejected` shares the red of `hot`, and
      `on_hold` the grey of the fallback.) */
  function StatusColour(status: Option<string>): (r: Colour)
    ensures status.Some? && Contains(status.value, "hot") ==> r == Red
    ensures status.Some? && !Contains(status.value, "hot") && Contains(status.value, "warm") ==> r == Orange
    ensures (status.Some? && !Contains(status.value, "hot") && !Contains(status.value, "warm") &&
             Contains(status.value, "cold")) ==> r == Blue
    ensures status == Some("documents_pending") && NoTemperature(status.value) ==> r == Yellow
    ensures status == Some("documents_verified") && NoTemperature(status.value) ==> r == Green
    ensures status == Some("payment_pending") && NoTemperature(status.value) ==> r == Purple
    ensures status == Some("admitted") && NoTemperature(status.value) ==> r == Emerald
    ensures status == Some("rejected") && NoTemperature(status.value) ==> r == Red
    ensures status.Some? && NoTemperature(status.value) && r != Grey ==>
              status.value in {"documents_pending", "documents_verified", "payment_pending", "admitted", "rejected"}
    ensures status.None? ==> r == Grey
  {
    match status
    case None => Grey
    case Some(s) =>
      if Contains(s, "hot") then Red
      else if Contains(s, "warm") then Orange
      else if Contains(s, "cold") then Blue
      else if s == "documents_pending" then Yellow
      else if s == "documents_verified" then Green
      else if s == "payment_pending" then Purple
      else if s == "admitted" then Emerald
      else if s == "rejected" then Red
      else Grey
  }

  /** A status with none of the letters 'h', 'w' and 'c' is coloured by the
      exact comparisons alone. */
  lemma ExactStatusColours(s: string)
    requires 'h' !in s && 'w' !in s && 'c' !in s
    ensures StatusColour(Some(s)) ==
              if s == "documents_pending" then Yellow
              else if s == "documents_verified" then Green
              else if s == "payment_pending" then Purple
              else if s == "admitted" then Emerald
              else if s == "rejected" then Red
              else Grey
  {
    NotContains(s, "hot", 'h');
    NotContains(s, "warm", 'w');
    NotContains(s, "cold", 'c');
  }

  /** The colour of every status the back end stores. */
  lemma BackendStatusColours(s: AdmissionStore.Status)
    ensures StatusColour(Some(AdmissionStore.StatusValue(s))) ==
              match s
              case EnquiryNew => Grey
              case EnquiryHot => Red
              case EnquiryWarm => Orange
              case EnquiryCold => Blue
              case DocumentsPending => Yellow
              case DocumentsVerified => Green
              case PaymentPending => Purple
              case Admitted => Emerald
              case Rejected => Red
              case OnHold => Grey
  {
    AdmissionStore.HotOnlyInEnquiryHot(s);
    AdmissionStore.WarmOnlyInEnquiryWarm(s);
    AdmissionStore.ColdOnlyInEnquiryCold(s);
  }

  /** A status that contains `hot` is red even when it also contains
      `warm` or `cold`. */
  lemma HotWins(s: string, i: nat)
    requires i + 3 <= |s| && s[i..i + 3] == "hot"
    ensures StatusColour(Some(s)) == Red
  {
    ContainsAt(s, "hot", i);
  }

  // ---------------------------------------------------------------------
  // Forms

  /** The documents form is shown only for `documents_pending`. */
  predicate ShowsDocumentsForm(a: TrackedApplication) {
    a.status == Some("documents_pending")
  }

  /** The receipt form is shown only for `payment_pending`. */
  predicate ShowsReceiptForm(a: TrackedApplication) {
    a.status == Some("payment_pending")
  }

  /** For an application in a status the back end stores, the documents
      form is shown exactly in `documents_pending` and the receipt form
      exactly in `payment_pending`: never both, and neither once the
      documents are verified or the student is admitted. */
  lemma FormsForBackendStatus(a: TrackedApplication, s: AdmissionStore.Status)
    requires a.status == Some(AdmissionStore.StatusValue(s))
    ensures ShowsDocumentsForm(a) <==> s == AdmissionStore.DocumentsPending
    ensures ShowsReceiptForm(a) <==> s == AdmissionStore.PaymentPending
    ensures !(ShowsDocumentsForm(a) && ShowsReceiptForm(a))
  {
  }
}
