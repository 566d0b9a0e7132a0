/** The admission officer's dashboard: the four enquiry cards, the status
    picker and its update payload, the Admit button and the admit form. */
module AdmissionDashboard {
  import opened Seqs
  import opened Text
  import AdmissionStore

  type Application = AdmissionStore.Application

  // ---------------------------------------------------------------------
  // Enquiry cards

  const CardLabels: seq<string> := ["Total", "Hot", "Warm", "Cold"]

  function StatusContains(word: string): Application -> bool {
    (a: Application) => Contains(AdmissionStore.StatusValue(a.status), word)
  }

  /** The figure on one card: the number of applications for `Total`, and
      otherwise the number whose status contains the caption in lower case. */
  function CardValue(apps: seq<Application>, caption: string): (r: nat)
    ensures caption == "Total" ==> r == |apps|
    ensures caption != "Total" ==> r <= |apps|
    ensures caption != "Total" ==> (r == 0 <==> forall k :: 0 <= k < |apps| ==> !StatusContains(Lower(caption))(apps[k]))
  {
    if caption == "Total" then |apps| else Count(apps, StatusContains(Lower(caption)))
  }

  /** The four figures, in the order the cards are shown. */
  function Cards(apps: seq<Application>): (r: seq<nat>)
    ensures |r| == 4
    ensures r[0] == |apps|
    ensures forall k :: 1 <= k < 4 ==> r[k] <= r[0]
  {
    seq(4, k requires 0 <= k < 4 => CardValue(apps, CardLabels[k]))
  }

  lemma LowerHot()
    ensures Lower("Hot") == "hot"
  {
    var r := Lower("Hot");
    assert r[0] == 'h' && r[1] == 'o' && r[2] == 't';
  }

  lemma LowerWarm()
    ensures Lower("Warm") == "warm"
  {
    var r := Lower("Warm");
    assert r[0] == 'w' && r[1] == 'a' && r[2] == 'r' && r[3] == 'm';
  }

  lemma LowerCold()
    ensures Lower("Cold") == "cold"
  {
    var r := Lower("Cold");
    assert r[0] == 'c' && r[1] == 'o' && r[2] == 'l' && r[3] == 'd';
  }

  function HasStatus(s: AdmissionStore.Status): Application -> bool {
    (a: Application) => a.status == s
  }

  /** Counting by two predicates that agree on every element gives the same number. */
  lemma SameCount(apps: seq<Application>, p: Application -> bool, q: Application -> bool)
    requires forall a :: p(a) == q(a)
    ensures Count(apps, p) == Count(apps, q)
  {
    CountMono(apps, p, q);
    CountMono(apps, q, p);
  }

  /** A card whose lower-cased caption occurs in exactly one stored status
      counts the applications in that status. */
  lemma CardCountsStatus(apps: seq<Application>, caption: string, st: AdmissionStore.Status)
    requires caption != "Total"
    requires forall s :: Contains(AdmissionStore.StatusValue(s), Lower(caption)) <==> s == st
    ensures CardValue(apps, caption) == Count(apps, HasStatus(st))
  {
    forall a: Application ensures StatusContains(Lower(caption))(a) == HasStatus(st)(a) {
    }
    SameCount(apps, StatusContains(Lower(caption)), HasStatus(st));
  }

  /** Applications in the three enquiry statuses are at most all of them. */
  lemma EnquiryCountsBounded(apps: seq<Application>)
    ensures Count(apps, HasStatus(AdmissionStore.EnquiryHot)) + Count(apps, HasStatus(AdmissionStore.EnquiryWarm)) +
            Count(apps, HasStatus(AdmissionStore.EnquiryCold)) <= |apps|
  {
    var hot := HasStatus(AdmissionStore.EnquiryHot);
    var warm := HasStatus(AdmissionStore.EnquiryWarm);
    var cold := HasStatus(AdmissionStore.EnquiryCold);
    var hw := (a: Application) => hot(a) || warm(a);
    var hwc := (a: Application) => hw(a) || cold(a);
    CountDisjoint(apps, hot, warm, hw);
    CountDisjoint(apps, hw, cold, hwc);
  }

  /** The Hot, Warm and Cold cards count exactly the applications in
      `enquiry_hot`, `enquiry_warm` and `enquiry_cold`, so together they
      never exceed the Total card. */
  lemma CardsCountEnquiries(apps: seq<Application>)
    ensures Cards(apps)[1] == Count(apps, HasStatus(AdmissionStore.EnquiryHot))
    ensures Cards(apps)[2] == Count(apps, HasStatus(AdmissionStore.EnquiryWarm))
    ensures Cards(apps)[3] == Count(apps, HasStatus(AdmissionStore.EnquiryCold))
    ensures Cards(apps)[1] + Cards(apps)[2] + Cards(apps)[3] <= Cards(apps)[0]
  {
    LowerHot();
    forall s ensures Contains(AdmissionStore.StatusValue(s), "hot") <==> s == AdmissionStore.EnquiryHot {
      AdmissionStore.HotOnlyInEnquiryHot(s);
    }
    CardCountsStatus(apps, "Hot", AdmissionStore.EnquiryHot);
    LowerWarm();
    forall s ensures Contains(AdmissionStore.StatusValue(s), "warm") <==> s == AdmissionStore.EnquiryWarm {
      AdmissionStore.WarmOnlyInEnquiryWarm(s);
    }
    CardCountsStatus(apps, "Warm", AdmissionStore.EnquiryWarm);
    LowerCold();
    forall s ensures Contains(AdmissionStore.StatusValue(s), "cold") <==> s == AdmissionStore.EnquiryCold {
      AdmissionStore.ColdOnlyInEnquiryCold(s);
    }
    CardCountsStatus(apps, "Cold", AdmissionStore.EnquiryCold);
    EnquiryCountsBounded(apps);
  }

  // ---------------------------------------------------------------------
  // Status picker and update

  /** The statuses the picker offers, with their captions. */
  const StatusChoices: seq<(AdmissionStore.Status, string)> := [
    (AdmissionStore.EnquiryNew, "New"),
    (AdmissionStore.EnquiryHot, "Hot"),
    (AdmissionStore.EnquiryWarm, "Warm"),
    (AdmissionStore.EnquiryCold, "Cold"),
    (AdmissionStore.DocumentsPending, "Docs Pending"),
    (AdmissionStore.Admitted, "Admitted")]

  /** `handleStatusUpdate`: the request carries the chosen status and
      nothing else, whatever the current status is. */
  function StatusUpdate(newStatus: AdmissionStore.Status): (r: AdmissionStore.UpdateRequest)
    ensures r.status == Some(newStatus)
    ensures r.remarks.None? && r.section.None?
  {
    AdmissionStore.UpdateRequest(Some(newStatus), None, None)
  }

  /** Applied by the backend, a status change replaces the status, refreshes
      `updated_at` and keeps every other field. */
  lemma StatusUpdateOnlyStatus(a: Application, newStatus: AdmissionStore.Status, now: string)
    ensures AdmissionStore.Patch(a, StatusUpdate(newStatus), now) ==
              a.(status := newStatus, updated_at := now)
  {
  }

  // ---------------------------------------------------------------------
  // Admit button and form

  /** The Admit button is shown only for `documents_verified`. */
  predicate ShowsAdmit(a: Application) {
    a.status == AdmissionStore.DocumentsVerified
  }

  /** The picker does not offer `documents_verified`, so no status chosen
      on this dashboard shows the Admit button. */
  lemma PickerNeverEnablesAdmit(a: Application, k: nat)
    requires k < |StatusChoices|
    ensures !ShowsAdmit(a.(status := StatusChoices[k].0))
  {
  }

  /** The admit form starts at section 'A' and year '2025-2026'. */
  function AdmitForm(): (r: AdmissionStore.AdmitRequest)
    ensures r.section == "A" && r.academic_year == "2025-2026"
  {
    AdmissionStore.AdmitRequest("A", "2025-2026")
  }
}
