/** The staff admissions table of the school dashboard: filtering by status,
    sorting by a column with a toggled direction, status badges, the Admit
    button rule, the hold dialog and the pending-applications statistic. */
module AdmissionManagement {
  import opened Seqs
  import opened Text
  import AdmissionStore

  /** An application as the table receives it; `None` is a missing field. */
  datatype Row = Row(
    id: string,
    reference_number: Option<string>,
    student_name: Option<string>,
    applying_for_class: Option<string>,
    mobile: Option<string>,
    status: Option<string>)

  /** The sortable columns. */
  datatype Column = ReferenceNumber | StudentName | ApplyingForClass | Mobile | StatusColumn

  datatype Direction = Asc | Desc

  datatype SortConfig = SortConfig(key: Option<Column>, direction: Direction)

  const InitialSort := SortConfig(None, Asc)

  /** `handleSort(key)`: descending only when the same column is currently
      ascending, ascending on that column otherwise. */
  function NextSortConfig(config: SortConfig, key: Column): (r: SortConfig)
    ensures r.key == Some(key)
    ensures r.direction == Desc <==> config.key == Some(key) && config.direction == Asc
  {
    if config.key == Some(key) && config.direction == Asc then SortConfig(Some(key), Desc)
    else SortConfig(Some(key), Asc)
  }

  /** Clicking a column three times leaves it sorted descending then
      ascending again: the direction alternates. */
  lemma SortToggles(config: SortConfig, key: Column)
    ensures NextSortConfig(NextSortConfig(config, key), key).direction !=
            NextSortConfig(config, key).direction
  {
  }

  /** `(status || '').toLowerCase()`. */
  function NormalizeStatus(status: Option<string>): (r: string)
    ensures |r| == |status.GetOr("")|
    ensures forall k :: 0 <= k < |r| ==> r[k] == LowerChar(status.GetOr("")[k])
    ensures forall k :: 0 <= k < |r| ==> !('A' <= r[k] <= 'Z')
  {
    Lower(status.GetOr(""))
  }

  lemma NormalizeStatusIdempotent(status: Option<string>)
    ensures NormalizeStatus(Some(NormalizeStatus(status))) == NormalizeStatus(status)
  {
    var s := NormalizeStatus(status);
    assert forall k :: 0 <= k < |s| ==> LowerChar(s[k]) == s[k];
  }

  function StatusIs(filter: string): Row -> bool {
    (a: Row) => NormalizeStatus(a.status) == filter
  }

  /** The status filter: `all` keeps every row, any other value keeps the
      rows whose lower-cased status equals it, in their order. */
  function FilterByStatus(apps: seq<Row>, filter: string): (r: seq<Row>)
    ensures filter == "all" ==> r == apps
    ensures filter != "all" ==> r == Filter(apps, StatusIs(filter))
    ensures forall x :: x in r ==> x in apps
    ensures filter != "all" ==> forall x :: x in r <==> x in apps && NormalizeStatus(x.status) == filter
  {
    if filter == "all" then apps else Filter(apps, StatusIs(filter))
  }

  /** The value a row is compared by: names and classes lower-cased, missing
      text as the empty string. */
  function SortValue(a: Row, key: Column): string {
    match key
    case StudentName => Lower(a.student_name.GetOr(""))
    case ApplyingForClass => Lower(a.applying_for_class.GetOr(""))
    case ReferenceNumber => a.reference_number.GetOr("")
    case Mobile => a.mobile.GetOr("")
    case StatusColumn => a.status.GetOr("")
  }

  /** Two values in the order the comparator accepts for a direction. */
  predicate InOrder(dir: Direction, u: string, v: string) {
    if dir == Asc then LexLe(u, v) else LexLe(v, u)
  }

  /** Every pair of rows is in order by the column and direction. */
  predicate Sorted(s: seq<Row>, key: Column, dir: Direction) {
    forall i, j :: 0 <= i < j < |s| ==> InOrder(dir, SortValue(s[i], key), SortValue(s[j], key))
  }

  predicate AdjacentSorted(s: seq<Row>, key: Column, dir: Direction) {
    forall k :: 1 <= k < |s| ==> InOrder(dir, SortValue(s[k - 1], key), SortValue(s[k], key))
  }

  lemma InOrderTotal(dir: Direction, u: string, v: string)
    ensures InOrder(dir, u, v) || InOrder(dir, v, u)
  {
    LexLeTotal(u, v);
  }

  lemma InOrderTransitive(dir: Direction, u: string, v: string, w: string)
    requires InOrder(dir, u, v) && InOrder(dir, v, w)
    ensures InOrder(dir, u, w)
  {
    if dir == Asc {
      LexLeTransitive(u, v, w);
    } else {
      LexLeTransitive(w, v, u);
    }
  }

  /** Order between neighbours gives order between every pair. */
  lemma {:induction false} AdjacentToSorted(s: seq<Row>, key: Column, dir: Direction)
    requires AdjacentSorted(s, key, dir)
    ensures Sorted(s, key, dir)
  {
    if |s| > 1 {
      var n := |s| - 1;
      var t := s[..n];
      assert AdjacentSorted(t, key, dir) by {
        forall k | 1 <= k < |t|
          ensures InOrder(dir, SortValue(t[k - 1], key), SortValue(t[k], key))
        {
          assert t[k - 1] == s[k - 1] && t[k] == s[k];
        }
      }
      AdjacentToSorted(t, key, dir);
      forall i, j | 0 <= i < j < |s|
        ensures InOrder(dir, SortValue(s[i], key), SortValue(s[j], key))
      {
        assert t[i] == s[i];
        if j < n {
          assert t[j] == s[j];
        } else if i < n - 1 {
          assert t[n - 1] == s[n - 1];
          InOrderTransitive(dir, SortValue(s[i], key), SortValue(s[n - 1], key), SortValue(s[n], key));
        }
      }
    }
  }

  /** Descending order by a column is ascending order read backwards. */
  lemma DescIsReversedAsc(s: seq<Row>, key: Column)
    ensures Sorted(s, key, Desc) <==> Sorted(Reverse(s), key, Asc)
  {
    var r := Reverse(s);
    if Sorted(s, key, Desc) {
      forall i, j | 0 <= i < j < |r|
        ensures InOrder(Asc, SortValue(r[i], key), SortValue(r[j], key))
      {
        assert r[i] == s[|s| - 1 - i] && r[j] == s[|s| - 1 - j];
      }
    }
    if Sorted(r, key, Asc) {
      forall i, j | 0 <= i < j < |s|
        ensures InOrder(Desc, SortValue(s[i], key), SortValue(s[j], key))
      {
        assert s[i] == r[|s| - 1 - i] && s[j] == r[|s| - 1 - j];
      }
    }
  }

  function Reverse<T>(s: seq<T>): (r: seq<T>)
    ensures |r| == |s| && forall k :: 0 <= k < |s| ==> r[k] == s[|s| - 1 - k]
  {
    seq(|s|, k requires 0 <= k < |s| => s[|s| - 1 - k])
  }

  /** The state of one insertion pass: the first `i + 1` rows are in order
      between neighbours except around position `j`, where the row being
      moved sits, and its two neighbours are in order with each other. */
  predicate Inserting(s: seq<Row>, i: nat, j: nat, key: Column, dir: Direction) {
    j <= i < |s| &&
    (forall k :: 1 <= k <= i && k != j ==> InOrder(dir, SortValue(s[k - 1], key), SortValue(s[k], key))) &&
    (0 < j < i ==> InOrder(dir, SortValue(s[j - 1], key), SortValue(s[j + 1], key)))
  }

  /** Swapping the moved row with a greater left neighbour keeps the pass going. */
  lemma InsertingStep(s: seq<Row>, i: nat, j: nat, key: Column, dir: Direction)
    requires Inserting(s, i, j, key, dir) && j > 0
    requires !InOrder(dir, SortValue(s[j - 1], key), SortValue(s[j], key))
    ensures Inserting(s[j - 1 := s[j]][j := s[j - 1]], i, j - 1, key, dir)
  {
    InOrderTotal(dir, SortValue(s[j - 1], key), SortValue(s[j], key));
  }

  /** A pass starts with the row at `i` not yet moved. */
  lemma InsertingStart(s: seq<Row>, i: nat, key: Column, dir: Direction)
    requires 1 <= i < |s| && AdjacentSorted(s[..i], key, dir)
    ensures Inserting(s, i, i, key, dir)
  {
    assert forall k :: 1 <= k < i ==> s[..i][k] == s[k];
  }

  /** A pass stops with the first `i + 1` rows in order between neighbours. */
  lemma InsertingDone(s: seq<Row>, i: nat, j: nat, key: Column, dir: Direction)
    requires Inserting(s, i, j, key, dir)
    requires j == 0 || InOrder(dir, SortValue(s[j - 1], key), SortValue(s[j], key))
    ensures AdjacentSorted(s[..i + 1], key, dir)
  {
    assert forall k :: 0 <= k <= i ==> s[..i + 1][k] == s[k];
  }

  /** One insertion pass: the row at `i` moves left past every greater row. */
  method InsertRow(a: array<Row>, i: nat, key: Column, dir: Direction)
    requires 1 <= i < a.Length
    requires AdjacentSorted(a[..i], key, dir)
    modifies a
    ensures AdjacentSorted(a[..i + 1], key, dir)
    ensures a[i + 1..] == old(a[i + 1..])
    ensures multiset(a[..]) == multiset(old(a[..]))
  {
    var j := i;
    InsertingStart(a[..], i, key, dir);
    while j > 0 && !InOrder(dir, SortValue(a[j - 1], key), SortValue(a[j], key))
      invariant Inserting(a[..], i, j, key, dir)
      invariant a[i + 1..] == old(a[i + 1..])
      invariant multiset(a[..]) == multiset(old(a[..]))
    {
      ghost var s := a[..];
      InsertingStep(s, i, j, key, dir);
      a[j - 1], a[j] := a[j], a[j - 1];
      assert a[..] == s[j - 1 := s[j]][j := s[j - 1]];
      j := j - 1;
    }
    InsertingDone(a[..], i, j, key, dir);
  }

  /** `Array.prototype.sort` with the table's comparator, as an insertion
      sort by adjacent swaps: the array ends in order and holds the same rows. */
  method SortRows(a: array<Row>, key: Column, dir: Direction)
    modifies a
    ensures Sorted(a[..], key, dir)
    ensures multiset(a[..]) == multiset(old(a[..]))
  {
    if a.Length == 0 {
      return;
    }
    var i := 1;
    while i < a.Length
      invariant 1 <= i <= a.Length
      invariant AdjacentSorted(a[..i], key, dir)
      invariant multiset(a[..]) == multiset(old(a[..]))
    {
      InsertRow(a, i, key, dir);
      i := i + 1;
    }
    assert a[..i] == a[..];
    AdjacentToSorted(a[..], key, dir);
  }

  /** How a badge looks. */
  datatype Badge = Badge(color: string, caption: string)

  const Badges: map<string, Badge> := map[
    "enquiry_new" := Badge("bg-blue-100 text-blue-800", "New"),
    "enquiry_hot" := Badge("bg-red-100 text-red-800", "Hot 🔥"),
    "enquiry_warm" := Badge("bg-amber-100 text-amber-800", "Warm ⚡"),
    "enquiry_cold" := Badge("bg-gray-100 text-gray-800", "Cold ❄️"),
    "documents_pending" := Badge("bg-yellow-100 text-yellow-800", "Docs Pending"),
    "documents_verified" := Badge("bg-green-100 text-green-800", "Docs Verified ✅"),
    "payment_pending" := Badge("bg-purple-100 text-purple-800", "Payment Pending"),
    "admitted" := Badge("bg-green-600 text-white", "Admitted 🎓"),
    "on_hold" := Badge("bg-orange-100 text-orange-800", "On Hold"),
    "rejected" := Badge("bg-red-100 text-red-800", "Rejected")]

  /** `getStatusBadge`: the table entry of the status, the `enquiry_new`
      badge for anything else. */
  function StatusBadge(status: Option<string>): (r: Badge)
    ensures status.Some? && status.value in Badges ==> r == Badges[status.value]
    ensures status.None? || status.value !in Badges ==> r == Badges["enquiry_new"]
  {
    if status.Some? && status.value in Badges then Badges[status.value] else Badges["enquiry_new"]
  }

  /** Every status the back end stores has a badge of its own: distinct
      statuses get distinct labels. */
  lemma BadgeLabelsDistinct(s: AdmissionStore.Status, t: AdmissionStore.Status)
    requires s != t
    ensures StatusBadge(Some(AdmissionStore.StatusValue(s))).caption !=
            StatusBadge(Some(AdmissionStore.StatusValue(t))).caption
  {
  }

  /** The Admit button is offered for documents verified or payment pending:
      never for a missing status, and never for one the back end refuses to
      admit again. */
  function ShowAdmitButton(status: Option<string>): (r: bool)
    ensures status.None? ==> !r
    ensures r ==> status.value != AdmissionStore.StatusValue(AdmissionStore.Admitted)
  {
    match status
    case None => false
    case Some(s) => s == "documents_verified" || s == "payment_pending"
  }

  /** Over the statuses the back end stores, the Admit button appears
      exactly for `documents_verified` and `payment_pending`, so never for an
      application the back end would refuse as already admitted. */
  lemma AdmitButtonOnlyForAdmissible(s: AdmissionStore.Status)
    ensures ShowAdmitButton(Some(AdmissionStore.StatusValue(s))) <==>
              s == AdmissionStore.DocumentsVerified || s == AdmissionStore.PaymentPending
    ensures ShowAdmitButton(Some(AdmissionStore.StatusValue(s))) ==> s != AdmissionStore.Admitted
  {
  }

  function HasStatus(status: string): Row -> bool {
    (a: Row) => a.status == Some(status)
  }

  function IsPending(a: Row): bool {
    a.status == Some("enquiry_new") || a.status == Some("enquiry_hot") || a.status == Some("enquiry_warm")
  }

  /** The pending-applications statistic. */
  function PendingCount(apps: seq<Row>): (r: nat)
    ensures r <= |apps|
    ensures r == 0 <==> forall k :: 0 <= k < |apps| ==> !IsPending(apps[k])
  {
    Count(apps, IsPending)
  }

  /** The pending count is the sum of the new, hot and warm counts. */
  lemma PendingIsSum(apps: seq<Row>)
    ensures PendingCount(apps) ==
            Count(apps, HasStatus("enquiry_new")) + Count(apps, HasStatus("enquiry_hot")) +
            Count(apps, HasStatus("enquiry_warm"))
  {
    var newOrHot := (a: Row) => a.status == Some("enquiry_new") || a.status == Some("enquiry_hot");
    CountDisjoint(apps, HasStatus("enquiry_new"), HasStatus("enquiry_hot"), newOrHot);
    CountDisjoint(apps, newOrHot, HasStatus("enquiry_warm"), IsPending);
  }

  /** A status change the table asks the back end for. */
  datatype UpdateCall = UpdateCall(appId: string, status: string, remarks: Option<string>)

  datatype HoldOutcome = EmptyMessage | NoApplication | Sent(call: UpdateCall)

  function Truthy(s: string): bool {
    s != ""
  }

  /** The screen state of the admissions table. */
  class AdmissionTable {
    var applications: seq<Row>
    var sortConfig: SortConfig
    var filterStatus: string
    var holdDialogOpen: bool
    var holdMessage: string
    var holdAppId: Option<string>

    constructor (apps: seq<Row>)
      ensures applications == apps && sortConfig == InitialSort && filterStatus == "all"
      ensures !holdDialogOpen && holdMessage == "" && holdAppId.None?
    {
      applications := apps;
      sortConfig := InitialSort;
      filterStatus := "all";
      holdDialogOpen := false;
      holdMessage := "";
      holdAppId := None;
    }

    method HandleSort(key: Column)
      modifies this
      ensures sortConfig == NextSortConfig(old(sortConfig), key)
      ensures applications == old(applications) && filterStatus == old(filterStatus)
      ensures holdDialogOpen == old(holdDialogOpen) && holdMessage == old(holdMessage) &&
              holdAppId == old(holdAppId)
    {
      sortConfig := NextSortConfig(sortConfig, key);
    }

    /** The rows shown: a filtered copy of the applications, sorted when a
      column is chosen; the applications themselves are left as they are. */
    method GetSortedAndFilteredApplications() returns (r: seq<Row>)
      ensures multiset(r) == multiset(FilterByStatus(applications, filterStatus))
      ensures sortConfig.key.None? ==> r == FilterByStatus(applications, filterStatus)
      ensures sortConfig.key.Some? ==> Sorted(r, sortConfig.key.value, sortConfig.direction)
    {
      var filtered := FilterByStatus(applications, filterStatus);
      if sortConfig.key.None? {
        return filtered;
      }
      var a := new Row[|filtered|](k requires 0 <= k < |filtered| => filtered[k]);
      assert a[..] == filtered;
      SortRows(a, sortConfig.key.value, sortConfig.direction);
      r := a[..];
    }

    /** A choice in a row's status menu. `on_hold` opens the hold dialog and
      sends nothing; `rejected` is sent only once confirmed; anything else is
      sent as it is. */
    method HandleStatusUpdate(appId: string, newStatus: string, confirmed: bool) returns (r: Option<UpdateCall>)
      modifies this
      ensures newStatus == "on_hold" ==>
                r.None? && holdAppId == Some(appId) && holdMessage == "" && holdDialogOpen
      ensures newStatus != "on_hold" ==>
                holdAppId == old(holdAppId) && holdMessage == old(holdMessage) &&
                holdDialogOpen == old(holdDialogOpen)
      ensures newStatus == "rejected" && !confirmed ==> r.None?
      ensures newStatus != "on_hold" && (newStatus != "rejected" || confirmed) ==>
                r == Some(UpdateCall(appId, newStatus, None))
      ensures applications == old(applications) && sortConfig == old(sortConfig) &&
              filterStatus == old(filterStatus)
    {
      if newStatus == "on_hold" {
        holdAppId := Some(appId);
        holdMessage := "";
        holdDialogOpen := true;
        return None;
      }
      if newStatus == "rejected" && !confirmed {
        return None;
      }
      r := Some(UpdateCall(appId, newStatus, None));
    }

    /** The hold dialog's submit: a message that trims to nothing is refused,
      a missing application id sends nothing, otherwise `on_hold` is sent with
      the trimmed message; after a successful request the dialog is reset. */
    method SubmitHold(succeeded: bool) returns (r: HoldOutcome)
      modifies this
      ensures Trim(old(holdMessage)) == "" ==> r == EmptyMessage
      ensures Trim(old(holdMessage)) != "" && (old(holdAppId).None? || !Truthy(old(holdAppId).value)) ==>
                r == NoApplication
      ensures Trim(old(holdMessage)) != "" && old(holdAppId).Some? && Truthy(old(holdAppId).value) ==>
                r == Sent(UpdateCall(old(holdAppId).value, "on_hold", Some(Trim(old(holdMessage)))))
      ensures r.Sent? && succeeded ==> !holdDialogOpen && holdMessage == "" && holdAppId.None?
      ensures !(r.Sent? && succeeded) ==>
                holdDialogOpen == old(holdDialogOpen) && holdMessage == old(holdMessage) &&
                holdAppId == old(holdAppId)
      ensures applications == old(applications) && sortConfig == old(sortConfig) &&
              filterStatus == old(filterStatus)
    {
      var msg := Trim(holdMessage);
      if msg == "" {
        return EmptyMessage;
      }
      if holdAppId.None? || !Truthy(holdAppId.value) {
        return NoApplication;
      }
      r := Sent(UpdateCall(holdAppId.value, "on_hold", Some(msg)));
      if succeeded {
        holdDialogOpen := false;
        holdMessage := "";
        holdAppId := None;
      }
    }
  }

  /** What a hold request carries: status `on_hold` and a remark that neither
      starts nor ends with white space and is not empty. */
  lemma HoldRemarksAreTrimmed(appId: string, message: string)
    requires Trim(message) != ""
    ensures var rem := Trim(message);
            |rem| > 0 && !IsJsSpace(rem[0]) && !IsJsSpace(rem[|rem| - 1]) && Trim(rem) == rem
  {
    TrimIdempotent(message);
  }
}
