/**
 * The report endpoints: the list with its optional narrowing parameters and
 * newest-first order, creation, the refused modifications, and the
 * per-category statistics. The table is a sequence of rows.
 */
module ReportView {
  import opened Wrappers
  import opened Queries
  import opened Records
  import ReportSerializer

  /** The query parameters `citizen_id`, `category` and `sub_category`;
      `None` when absent or empty. */
  datatype ReportQuery = ReportQuery(citizenId: Option<nat>, category: Option<nat>, subCategory: Option<nat>)

  function ByCitizen(rows: seq<Report>, id: Option<nat>): seq<Report> {
    if id.Some? then Filter(rows, (r: Report) => r.citizenId == id.value) else rows
  }

  function ByCategory(rows: seq<Report>, id: Option<nat>): seq<Report> {
    if id.Some? then Filter(rows, (r: Report) => r.categoryId == id.value) else rows
  }

  function BySubCategory(rows: seq<Report>, id: Option<nat>): seq<Report> {
    if id.Some? then Filter(rows, (r: Report) => r.subCategoryId == Some(id.value)) else rows
  }

  function CreatedAt(r: Report): int {
    r.createdAt
  }

  /** `get_queryset`: the three optional filters in turn, then `order_by('-created_at')`. */
  function ListReports(rows: seq<Report>, q: ReportQuery): seq<Report> {
    SortDesc(BySubCategory(ByCategory(ByCitizen(rows, q.citizenId), q.category), q.subCategory), CreatedAt)
  }

  /** A row satisfies every parameter that is given. */
  predicate Matches(q: ReportQuery, r: Report) {
    (q.citizenId.None? || r.citizenId == q.citizenId.value) &&
    (q.category.None? || r.categoryId == q.category.value) &&
    (q.subCategory.None? || r.subCategoryId == q.subCategory)
  }

  /** A narrowing step keeps exactly the rows that meet its condition, or all
      rows when the parameter is absent. */
  lemma NarrowingSpec(rows: seq<Report>, q: ReportQuery)
    ensures forall r :: r in ByCitizen(rows, q.citizenId) <==> r in rows && (q.citizenId.None? || r.citizenId == q.citizenId.value)
    ensures forall r :: r in ByCategory(rows, q.category) <==> r in rows && (q.category.None? || r.categoryId == q.category.value)
    ensures forall r :: r in BySubCategory(rows, q.subCategory) <==> r in rows && (q.subCategory.None? || r.subCategoryId == q.subCategory)
  {
  }

  /** The list holds exactly the rows that match every given parameter (the
      parameters combine conjunctively, absent ones filter nothing), no
      other rows, newest first. */
  lemma ListReportsSpec(rows: seq<Report>, q: ReportQuery)
    ensures forall r :: r in ListReports(rows, q) <==> r in rows && Matches(q, r)
    ensures SortedDesc(ListReports(rows, q), CreatedAt)
    ensures q == ReportQuery(None, None, None) ==> multiset(ListReports(rows, q)) == multiset(rows)
  {
    var a := ByCitizen(rows, q.citizenId);
    var b := ByCategory(a, q.category);
    var c := BySubCategory(b, q.subCategory);
    NarrowingSpec(rows, q);
    NarrowingSpec(a, q);
    NarrowingSpec(b, q);
    SortDescSameRows(c, CreatedAt);
  }

  // ---------------------------------------------------------------------
  // Creation and the refused operations

  const CreatedMessage: string := "Report created successfully. Your report has been submitted."
  const CannotUpdate: string := "Citizens cannot update reports. Reports are read-only once submitted."
  const CannotDelete: string := "Citizens cannot delete reports. Please contact authorities if you need to remove a report."

  datatype ReportResponse =
    | Created(report: Report)                 // 201, success: True
    | Invalid(errors: map<string, string>)    // 400, the field errors
    | Refused(message: string)                // 403, success: False
    | ServerError                             // 500: the insert violates a NOT NULL column

  function Status(r: ReportResponse): nat {
    match r
    case Created(_) => 201
    case Invalid(_) => 400
    case Refused(_) => 403
    case ServerError => 500
  }

  /** `create` as written: validation, then `perform_create`, which saves the
      validated fields only. `citizen` is read-only, so whatever the request
      says about it is dropped, and the row lacks its non-null `citizen_id`:
      the insert fails and nothing is stored. */
  function Create(rows: seq<Report>, categories: seq<Category>, input: ReportSerializer.ReportInput)
    : (ReportResponse, seq<Report>)
  {
    match ReportSerializer.Validate(categories, input)
    case Ok(_) => (ServerError, rows)
    case Err(e) => (Invalid(e), rows)
  }

  /** As written, an invalid submission is a 400 naming exactly the failing
      fields, and a valid one is a server error; no submission is ever
      stored, and the citizen the request names makes no difference. */
  lemma CreateSpec(rows: seq<Report>, categories: seq<Category>, input: ReportSerializer.ReportInput, citizen: Option<nat>)
    ensures Status(Create(rows, categories, input).0) == 400 <==> ReportSerializer.Validate(categories, input).Err?
    ensures Status(Create(rows, categories, input).0) == 500 <==> ReportSerializer.Validate(categories, input).Ok?
    ensures Create(rows, categories, input).0.Invalid? ==>
      var e := Create(rows, categories, input).0.errors;
      e != map[] &&
      ("report_type" in e <==> !ReportSerializer.CategoryExists(categories, input.reportType)) &&
      ("latitude" in e <==> !ReportSerializer.CoordinateAccepted(input.latitude, 90.0)) &&
      ("longitude" in e <==> !ReportSerializer.CoordinateAccepted(input.longitude, 180.0))
    ensures Create(rows, categories, input).1 == rows
    ensures Create(rows, categories, input.(citizen := citizen)) == Create(rows, categories, input)
  {
    ReportSerializer.ValidateSpec(categories, input, input.id, citizen, input.createdAt);
    ReportSerializer.ValidateSpec(categories, input, input.id, input.citizen, input.createdAt);
  }

  /** A well-formed submission, with a category that exists and coordinates
      in range and of at most six places, fails with a server error,
      whichever citizen it names. */
  lemma ValidReportNeverStored(rows: seq<Report>, categories: seq<Category>, citizen: nat)
    requires |categories| > 0
    ensures var input := ReportSerializer.ReportInput(None, Some(citizen), categories[0].id, 0.0, 0.0, None, None);
      Status(Create(rows, categories, input).0) == 500 && Create(rows, categories, input).1 == rows
  {
    var input := ReportSerializer.ReportInput(None, Some(citizen), categories[0].id, 0.0, 0.0, None, None);
    assert categories[0] in categories;
    assert ReportSerializer.CoordinateAccepted(0.0, 90.0) && ReportSerializer.CoordinateAccepted(0.0, 180.0);
    ReportSerializer.ValidateSpec(categories, input, input.id, input.citizen, input.createdAt);
    CreateSpec(rows, categories, input, input.citizen);
  }

  /** `create` as the view intends it: the report is saved for the
      submitting citizen, under the next primary key and the current time. */
  function CreateFor(rows: seq<Report>, categories: seq<Category>, input: ReportSerializer.ReportInput,
                     citizen: nat, id: nat, now: int): (ReportResponse, seq<Report>)
  {
    match ReportSerializer.Validate(categories, input)
    case Ok(v) =>
      var row := Report(id, citizen, v.reportType, None, v.latitude, v.longitude, v.description, now);
      (Created(row), rows + [row])
    case Err(e) => (Invalid(e), rows)
  }

  /** With the citizen supplied, a valid submission is stored as exactly one
      new row carrying the citizen, the category, the coordinates and the
      description as submitted; the request's own `id`, `citizen` and
      `created_at` are ignored. The new report then shows in the citizen's
      list, and every list shows whatever it showed before. An invalid
      submission stores nothing. */
  lemma CreateForSpec(rows: seq<Report>, categories: seq<Category>, input: ReportSerializer.ReportInput,
                      citizen: nat, id: nat, now: int, q: ReportQuery)
    ensures Status(CreateFor(rows, categories, input, citizen, id, now).0) == 201 <==>
      ReportSerializer.Validate(categories, input).Ok?
    ensures CreateFor(rows, categories, input, citizen, id, now).0.Created? ==>
      var row := CreateFor(rows, categories, input, citizen, id, now).0.report;
      row == Report(id, citizen, input.reportType, None, input.latitude, input.longitude, input.description, now) &&
      CreateFor(rows, categories, input, citizen, id, now).1 == rows + [row] &&
      (exists c :: c in categories && c.id == row.categoryId) &&
      row in ListReports(CreateFor(rows, categories, input, citizen, id, now).1, ReportQuery(Some(citizen), None, None))
    ensures !CreateFor(rows, categories, input, citizen, id, now).0.Created? ==>
      CreateFor(rows, categories, input, citizen, id, now).1 == rows
    ensures forall r :: r in ListReports(rows, q) ==> r in ListReports(CreateFor(rows, categories, input, citizen, id, now).1, q)
    ensures CreateFor(rows, categories, input.(id := None, citizen := None, createdAt := None), citizen, id, now) ==
            CreateFor(rows, categories, input, citizen, id, now)
  {
    ReportSerializer.ValidateSpec(categories, input, None, None, None);
    var rows' := CreateFor(rows, categories, input, citizen, id, now).1;
    ListReportsSpec(rows, q);
    ListReportsSpec(rows', q);
    if ReportSerializer.Validate(categories, input).Ok? {
      ListReportsSpec(rows', ReportQuery(Some(citizen), None, None));
    }
  }

  /** `update` and `partial_update`: refused, the table untouched. */
  function Update(rows: seq<Report>, id: nat, partial: bool): (ReportResponse, seq<Report>) {
    (Refused(CannotUpdate), rows)
  }

  /** `destroy`: refused, the table untouched. */
  function Destroy(rows: seq<Report>, id: nat): (ReportResponse, seq<Report>) {
    (Refused(CannotDelete), rows)
  }

  /** Whatever the request, modifications answer 403 and change nothing. */
  lemma RefusalsSpec(rows: seq<Report>, id: nat, partial: bool)
    ensures Status(Update(rows, id, partial).0) == 403 && Update(rows, id, partial).1 == rows
    ensures Status(Destroy(rows, id).0) == 403 && Destroy(rows, id).1 == rows
    ensures Update(rows, id, true) == Update(rows, id, false)
  {
  }

  // ---------------------------------------------------------------------
  // Statistics

  /** Every report's category exists (the foreign key). */
  predicate CategoriesExist(categories: seq<Category>, rows: seq<Report>) {
    forall k :: 0 <= k < |rows| ==> exists c :: c in categories && c.id == rows[k].categoryId
  }

  /** `report_type__report_type` of a report: the name of its category. */
  function CategoryName(categories: seq<Category>, id: nat): string
    requires exists c :: c in categories && c.id == id
  {
    var found := Filter(categories, (c: Category) => c.id == id);
    assert found != [] by {
      var c :| c in categories && c.id == id;
      assert c in found;
    }
    found[0].reportType
  }

  function CategoryNames(categories: seq<Category>, rows: seq<Report>): seq<string>
    requires CategoriesExist(categories, rows)
  {
    seq(|rows|, k requires 0 <= k < |rows| => CategoryName(categories, rows[k].categoryId))
  }

  function GroupCount(g: (string, nat)): int {
    g.1
  }

  datatype Stats = Stats(totalReports: nat, byCategory: seq<(string, nat)>)

  /** `stats`: the number of reports, and per category name occurring among
      them the number of its reports, largest count first. */
  function ReportStats(categories: seq<Category>, rows: seq<Report>): Stats
    requires CategoriesExist(categories, rows)
  {
    Stats(|rows|, SortDesc(Tally(CategoryNames(categories, rows)), GroupCount))
  }

  /** Each group is a category name that occurs among the reports with its
      exact number of reports, every such name has its group, the groups
      are a reordering of the tally (no group twice) sorted by count, and
      the counts add up to `total_reports`. */
  lemma ReportStatsSpec(categories: seq<Category>, rows: seq<Report>)
    requires CategoriesExist(categories, rows)
    ensures var names := CategoryNames(categories, rows);
      var s := ReportStats(categories, rows);
      s.totalReports == |rows| &&
      (forall g: (string, nat) :: g in s.byCategory <==> g.0 in names && g.1 == Count(names, g.0)) &&
      multiset(s.byCategory) == multiset(Tally(names)) &&
      SortedDesc(s.byCategory, GroupCount) &&
      SumSecond(Tally(names)) == s.totalReports
  {
    var names := CategoryNames(categories, rows);
    TallySpec(names);
    SortDescSameRows(Tally(names), GroupCount);
  }
}
