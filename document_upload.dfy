/** The document panel of an application: validation of a chosen file,
    the upload request, the status of each document type, the required
    documents checklist, the status badges and the review actions. */
module DocumentUpload {
  import opened Seqs

  /** The largest accepted file: 5 MiB. */
  const MaxFileSize: nat := 5 * 1024 * 1024

  /** The accepted MIME types. */
  const AllowedTypes: seq<string> := ["image/jpeg", "image/png", "image/jpg", "application/pdf"]

  datatype FileInfo = FileInfo(name: string, size: nat, mime: string)

  /** The outcome of checking a chosen file, with the message shown. */
  datatype FileCheck =
    | NoFile
    | TooLarge
    | BadType
    | Accepted

  function CheckMessage(c: FileCheck): string {
    match c
    case TooLarge => "File size must be less than 5MB"
    case BadType => "Only JPG, PNG and PDF files are allowed"
    case _ => ""
  }

  /** `handleFileUpload` before the upload: nothing without a file, then the
      size (more than 5 MiB is refused, exactly 5 MiB passes), then the
      type. A file both too large and of a wrong type is reported as too
      large. */
  function CheckFile(file: Option<FileInfo>): (r: FileCheck)
    ensures r == NoFile <==> file.None?
    ensures r == TooLarge <==> file.Some? && file.value.size > MaxFileSize
    ensures r == BadType <==> file.Some? && file.value.size <= MaxFileSize && file.value.mime !in AllowedTypes
    ensures r == Accepted <==> file.Some? && file.value.size <= MaxFileSize && file.value.mime in AllowedTypes
  {
    match file
    case None => NoFile
    case Some(f) =>
      if f.size > MaxFileSize then TooLarge
      else if f.mime !in AllowedTypes then BadType
      else Accepted
  }

  /** The body of an upload. The base64 text of the file is a parameter. */
  datatype UploadRequest = UploadRequest(application_id: string, document_type: string,
                                         document_name: string, file_data: string, file_type: string)

  /** The upload sent for an accepted file: the selected document type, the
      file's name and MIME type, its contents. Refused files send nothing. */
  function Upload(applicationId: string, selectedType: string, file: Option<FileInfo>,
                  base64: string): (r: Option<UploadRequest>)
    ensures r.Some? <==> CheckFile(file) == Accepted
    ensures r.Some? ==> r.value == UploadRequest(applicationId, selectedType, file.value.name, base64, file.value.mime)
  {
    if CheckFile(file) == Accepted then
      Some(UploadRequest(applicationId, selectedType, file.value.name, base64, file.value.mime))
    else None
  }

  datatype DocumentType = DocumentType(value: string, caption: string, required: bool)

  const DocumentTypes: seq<DocumentType> := [
    DocumentType("birth_certificate", "Birth Certificate", true),
    DocumentType("aadhaar_card", "Aadhaar Card", true),
    DocumentType("photo", "Passport Photo", true),
    DocumentType("transfer_certificate", "Transfer Certificate", false),
    DocumentType("medical_certificate", "Medical Certificate", false),
    DocumentType("address_proof", "Address Proof", false),
    DocumentType("other", "Other Document", false)]

  /** The values of the required types, in table order. */
  function RequiredValues(types: seq<DocumentType>): seq<string> {
    if types == [] then []
    else if types[0].required then [types[0].value] + RequiredValues(types[1..])
    else RequiredValues(types[1..])
  }

  /** The checklist lists exactly the birth certificate, the Aadhaar card
      and the photo. */
  lemma ChecklistIsRequiredTypes()
    ensures RequiredValues(DocumentTypes) == ["birth_certificate", "aadhaar_card", "photo"]
  {
    var t := DocumentTypes;
    assert t[7..] == [];
    assert t[6..][1..] == t[7..] && RequiredValues(t[6..]) == [];
    assert t[5..][1..] == t[6..] && RequiredValues(t[5..]) == [];
    assert t[4..][1..] == t[5..] && RequiredValues(t[4..]) == [];
    assert t[3..][1..] == t[4..] && RequiredValues(t[3..]) == [];
    assert t[2..][1..] == t[3..] && RequiredValues(t[2..]) == ["photo"];
    assert t[1..][1..] == t[2..] && RequiredValues(t[1..]) == ["aadhaar_card", "photo"];
  }

  datatype Document = Document(id: string, document_type: string, document_name: string, status: string)

  function OfType(docType: string): Document -> bool {
    (d: Document) => d.document_type == docType
  }

  /** `getDocumentStatus`: the status of the first document of the type, or
      nothing. */
  function DocumentStatus(documents: seq<Document>, docType: string): (r: Option<string>)
    ensures r.None? <==> forall k :: 0 <= k < |documents| ==> documents[k].document_type != docType
    ensures r.Some? ==> exists k :: 0 <= k < |documents| && documents[k].document_type == docType &&
                                    documents[k].status == r.value &&
                                    forall j :: 0 <= j < k ==> documents[j].document_type != docType
  {
    match Find(documents, OfType(docType))
    case None => None
    case Some(d) => Some(d.status)
  }

  /** How a checklist entry is drawn. */
  datatype ChecklistMark = MarkVerified | MarkRejected | MarkPending | MarkMissing

  /** The mark of a required type: by the status of its first document; a
      type with no document, or with a status outside the three, is drawn as
      missing. */
  function Mark(status: Option<string>): (r: ChecklistMark)
    ensures r == MarkMissing <==> status.None? || status.value !in {"verified", "rejected", "pending"}
    ensures r == MarkVerified <==> status == Some("verified")
    ensures r == MarkRejected <==> status == Some("rejected")
    ensures r == MarkPending <==> status == Some("pending")
  {
    if status == Some("verified") then MarkVerified
    else if status == Some("rejected") then MarkRejected
    else if status == Some("pending") then MarkPending
    else MarkMissing
  }

  datatype Badge = Badge(color: string, caption: string)

  const Badges: map<string, Badge> := map[
    "pending" := Badge("bg-yellow-100 text-yellow-800", "Pending Review"),
    "verified" := Badge("bg-green-100 text-green-800", "Verified ✓"),
    "rejected" := Badge("bg-red-100 text-red-800", "Rejected ✗")]

  /** `getStatusBadge`: the badge of the status, the pending badge for any
      other status. */
  function StatusBadge(status: string): (r: Badge)
    ensures status in Badges ==> r == Badges[status]
    ensures status !in Badges ==> r == Badges["pending"]
  {
    if status in Badges then Badges[status] else Badges["pending"]
  }

  /** Verify and reject are offered only on an editable panel and only for a
      document still pending. */
  predicate CanReview(doc: Document, readOnly: bool) {
    !readOnly && doc.status == "pending"
  }

  /** A document once verified or rejected is never offered for review
      again. */
  lemma ReviewedNotReviewable(doc: Document, readOnly: bool)
    requires doc.status == "verified" || doc.status == "rejected"
    ensures !CanReview(doc, readOnly)
  {
  }
}
