/** `DBManager` from src/db_manager.py: the two tables `hh_schema.companies`
    and `hh_schema.vacancies` as maps keyed by their primary keys, the two
    upserts that write them and the five SELECT queries that read them. */
module DbManager {
  import opened PyJson
  import opened Collections
  import opened Text
  import Services

  // ---- rows ----------------------------------------------------------------

  /** A row of `hh_schema.companies` without its key `company_id`. */
  datatype Company = Company(name: Option<string>, areaName: Option<string>, url: Option<string>)

  /** A row of `hh_schema.vacancies` without its key `vacancy_id`. */
  datatype Vacancy = Vacancy(
    companyId: int,
    name: Option<string>,
    description: Option<string>,
    salaryFrom: Option<int>,
    salaryTo: Option<int>,
    salaryCurrency: Option<string>,
    areaName: Option<string>,
    url: Option<string>)

  // ---- statement parameters ---------------------------------------------------

  /** The tuple `upsert_company` hands to `cur.execute`, as Python values. */
  datatype CompanyArgs = CompanyArgs(id: Json, name: Json, areaName: Json, url: Json)

  /** The tuple `upsert_vacancy` hands to `cur.execute`, as Python values. */
  datatype VacancyArgs = VacancyArgs(
    id: Json, companyId: int, name: Json, description: Json,
    salaryFrom: Json, salaryTo: Json, salaryCurrency: Json, areaName: Json, url: Json)

  /** `x.get("area", {}).get("name") if x.get("area") else None`. */
  function AreaName(x: Json): (r: Result<Json>)
    ensures x.JObj? && !Truthy(Lookup(x.fields, "area")) ==> r == Ok(JNull)
    ensures x.JObj? && Lookup(x.fields, "area").JObj? ==> r == Ok(Lookup(Lookup(x.fields, "area").fields, "name"))
    ensures r.Ok? <==> x.JObj? && (!Truthy(Lookup(x.fields, "area")) || Lookup(x.fields, "area").JObj?)
  {
    match x
    case JObj(m) =>
      var area := Lookup(m, "area");
      if Truthy(area) then Get(area, "name") else Ok(JNull)
    case _ => Err(AttributeError)
  }

  /** The parameters of `upsert_company`, evaluated left to right: the
      subscript `company["id"]` comes first. */
  function CompanyArgsOf(company: Json): (r: Result<CompanyArgs>)
    ensures company.JObj? && "id" !in company.fields ==> r == Err(KeyError("id"))
    ensures r.Ok? ==>
      && company.JObj? && "id" in company.fields && r.value.id == company.fields["id"]
      && r.value.name == Lookup(company.fields, "name")
      && r.value.url == Lookup(company.fields, "site_url")
      && AreaName(company) == Ok(r.value.areaName)
  {
    var id :- Index(company, "id");
    var m := company.fields;
    var area :- AreaName(company);
    Ok(CompanyArgs(id, Lookup(m, "name"), area, Lookup(m, "site_url")))
  }

  /** The parameters of `upsert_vacancy`: the salary record (`or {}`), the
      description (`snippet.responsibility or name`) and the area are
      computed before the tuple, whose first element is `vacancy["id"]`. */
  function VacancyArgsOf(vacancy: Json, companyId: int): (r: Result<VacancyArgs>)
    ensures r.Ok? ==> vacancy.JObj? && "id" in vacancy.fields && r.value.id == vacancy.fields["id"]
    ensures r.Ok? ==> r.value.companyId == companyId
    ensures r.Ok? ==> r.value.name == Lookup(vacancy.fields, "name")
                      && r.value.url == Lookup(vacancy.fields, "alternate_url")
                      && AreaName(vacancy) == Ok(r.value.areaName)
  {
    if !vacancy.JObj? then Err(AttributeError)
    else
      var m := vacancy.fields;
      var entry := Lookup(m, "salary");
      var salary := if Truthy(entry) then entry else JObj(map[]);
      var from :- Get(salary, "from");
      var record := salary.fields;
      var snippet := if "snippet" in m then m["snippet"] else JObj(map[]);
      var responsibility :- Get(snippet, "responsibility");
      var name := Lookup(m, "name");
      var description := if Truthy(responsibility) then responsibility else name;
      var area :- AreaName(vacancy);
      var id :- Index(vacancy, "id");
      Ok(VacancyArgs(id, companyId, name, description, from, Lookup(record, "to"), Lookup(record, "currency"),
                     area, Lookup(m, "alternate_url")))
  }

  // ---- column conversion -------------------------------------------------------

  /** A value bound to an integer key column: an integer, or a string
      PostgreSQL reads as one; anything else is refused. */
  function KeyColumn(x: Json): (r: Result<int>)
    ensures x.JInt? ==> r == Ok(x.i)
    ensures x.JNull? ==> r == Err(DataError)
    ensures x.JStr? ==> (r.Ok? <==> ParseInt(x.s).Some?)
    ensures x.JStr? && r.Ok? ==> ToInt(x) == r
  {
    match x
    case JInt(i) => Ok(i)
    case JStr(s) => (match ParseInt(s) case Some(n) => Ok(n) case None => Err(DataError))
    case _ => Err(DataError)
  }

  /** An identifier the service sends as its decimal spelling is stored
      under that integer. */
  lemma KeyOfDecimalString(n: int)
    ensures KeyColumn(JStr(DecimalString(n))) == Ok(n)
  {
    IntOfDecimalString(n);
  }

  /** A value bound to a nullable integer column (the salary bounds). */
  function IntColumn(x: Json): (r: Result<Option<int>>)
    ensures x.JNull? ==> r == Ok(None)
    ensures x.JInt? ==> r == Ok(Some(x.i))
    ensures x.JStr? ==> (r.Ok? <==> ParseInt(x.s).Some?)
  {
    match x
    case JNull => Ok(None)
    case JInt(i) => Ok(Some(i))
    case JStr(s) => (match ParseInt(s) case Some(n) => Ok(Some(n)) case None => Err(DataError))
    case _ => Err(DataError)
  }

  /** A value bound to a nullable text column: integers and booleans are
      stored as their spelling. */
  function TextColumn(x: Json): (r: Result<Option<string>>)
    ensures x.JNull? ==> r == Ok(None)
    ensures x.JStr? ==> r == Ok(Some(x.s))
  {
    match x
    case JNull => Ok(None)
    case JStr(s) => Ok(Some(s))
    case JInt(i) => Ok(Some(DecimalString(i)))
    case JBool(b) => Ok(Some(if b then "true" else "false"))
    case _ => Err(DataError)
  }

  /** The key and the row `upsert_company` writes, or the exception raised. */
  function CompanyRecord(company: Json): Result<(int, Company)> {
    var args :- CompanyArgsOf(company);
    CompanyColumns(args)
  }

  /** The key and the row the statement of `upsert_company` writes. */
  function CompanyColumns(args: CompanyArgs): (r: Result<(int, Company)>)
    ensures args.id.JNull? ==> r == Err(DataError)
    ensures r.Ok? <==> KeyColumn(args.id).Ok? && TextColumn(args.name).Ok? &&
                       TextColumn(args.areaName).Ok? && TextColumn(args.url).Ok?
    ensures r.Ok? ==> && r.value.0 == KeyColumn(args.id).value
                      && r.value.1.name == TextColumn(args.name).value
                      && r.value.1.areaName == TextColumn(args.areaName).value
                      && r.value.1.url == TextColumn(args.url).value
  {
    var id :- KeyColumn(args.id);
    var name :- TextColumn(args.name);
    var area :- TextColumn(args.areaName);
    var url :- TextColumn(args.url);
    Ok((id, Company(name, area, url)))
  }

  /** The key and the row `upsert_vacancy` would insert, or the exception raised. */
  function VacancyRecord(vacancy: Json, companyId: int): Result<(int, Vacancy)> {
    var args :- VacancyArgsOf(vacancy, companyId);
    VacancyColumns(args)
  }

  /** The key and the row the statement of `upsert_vacancy` would insert. */
  function VacancyColumns(args: VacancyArgs): (r: Result<(int, Vacancy)>)
    ensures args.id.JNull? ==> r == Err(DataError)
    ensures r.Ok? <==> && KeyColumn(args.id).Ok? && TextColumn(args.name).Ok? && TextColumn(args.description).Ok?
                       && IntColumn(args.salaryFrom).Ok? && IntColumn(args.salaryTo).Ok?
                       && TextColumn(args.salaryCurrency).Ok? && TextColumn(args.areaName).Ok? && TextColumn(args.url).Ok?
    ensures r.Ok? ==> && r.value.0 == KeyColumn(args.id).value
                      && r.value.1.companyId == args.companyId
                      && r.value.1.name == TextColumn(args.name).value
                      && r.value.1.description == TextColumn(args.description).value
                      && r.value.1.salaryFrom == IntColumn(args.salaryFrom).value
                      && r.value.1.salaryTo == IntColumn(args.salaryTo).value
                      && r.value.1.salaryCurrency == TextColumn(args.salaryCurrency).value
                      && r.value.1.areaName == TextColumn(args.areaName).value
                      && r.value.1.url == TextColumn(args.url).value
  {
    var id :- KeyColumn(args.id);
    var name :- TextColumn(args.name);
    var description :- TextColumn(args.description);
    var from :- IntColumn(args.salaryFrom);
    var to :- IntColumn(args.salaryTo);
    var currency :- TextColumn(args.salaryCurrency);
    var area :- TextColumn(args.areaName);
    var url :- TextColumn(args.url);
    Ok((id, Vacancy(args.companyId, name, description, from, to, currency, area, url)))
  }

  // ---- the two upserts -----------------------------------------------------------

  /** `INSERT ... ON CONFLICT (company_id) DO UPDATE SET name, area_name, url`:
      the new table, or the exception raised before anything is written. */
  function UpsertCompanyInto(table: map<int, Company>, company: Json): (r: Result<map<int, Company>>)
    ensures r.Ok? <==> CompanyRecord(company).Ok?
    ensures r.Ok? ==>
      var (id, row) := CompanyRecord(company).value;
      && id in r.value && r.value[id] == row
      && r.value.Keys == table.Keys + {id}
      && forall k :: k in table && k != id ==> r.value[k] == table[k]
  {
    var row :- CompanyRecord(company);
    Ok(table[row.0 := row.1])
  }

  /** `INSERT ... ON CONFLICT (vacancy_id) DO UPDATE SET` every column but
      `company_id`: a stored vacancy keeps the company it was first filed under. */
  function UpsertVacancyInto(table: map<int, Vacancy>, vacancy: Json, companyId: int): (r: Result<map<int, Vacancy>>)
    ensures r.Ok? <==> VacancyRecord(vacancy, companyId).Ok?
    ensures r.Ok? ==>
      var (id, row) := VacancyRecord(vacancy, companyId).value;
      && id in r.value
      && r.value[id] == row.(companyId := if id in table then table[id].companyId else companyId)
      && r.value.Keys == table.Keys + {id}
      && forall k :: k in table && k != id ==> r.value[k] == table[k]
  {
    var (id, v) :- VacancyRecord(vacancy, companyId);
    Ok(table[id := if id in table then v.(companyId := table[id].companyId) else v])
  }

  /** Repeating `upsert_company` with the same record changes nothing. */
  lemma UpsertCompanyIdempotent(table: map<int, Company>, company: Json)
    requires UpsertCompanyInto(table, company).Ok?
    ensures UpsertCompanyInto(UpsertCompanyInto(table, company).value, company) == UpsertCompanyInto(table, company)
  {
    var once := UpsertCompanyInto(table, company).value;
    var (id, row) := CompanyRecord(company).value;
    assert once[id := row] == once;
  }

  /** A later `upsert_company` for the same id replaces name, area and url
      all three: the first call leaves no trace. */
  lemma UpsertCompanyOverwrites(table: map<int, Company>, first: Json, second: Json)
    requires UpsertCompanyInto(table, first).Ok? && CompanyRecord(second).Ok?
    requires CompanyRecord(first).value.0 == CompanyRecord(second).value.0
    ensures UpsertCompanyInto(UpsertCompanyInto(table, first).value, second) == UpsertCompanyInto(table, second)
  {
    var id := CompanyRecord(first).value.0;
    assert table[id := CompanyRecord(first).value.1][id := CompanyRecord(second).value.1]
        == table[id := CompanyRecord(second).value.1];
  }

  /** A company record without "id" fails on the subscript, before the
      statement runs: the table is not written. */
  lemma UpsertCompanyWithoutId(table: map<int, Company>, fields: map<string, Json>)
    requires "id" !in fields
    ensures UpsertCompanyInto(table, JObj(fields)) == Err(KeyError("id"))
  {
  }

  /** Repeating `upsert_vacancy` with the same record changes nothing, even
      under another company id: the stored company id wins on conflict. */
  lemma UpsertVacancyIdempotent(table: map<int, Vacancy>, vacancy: Json, companyId: int, otherCompanyId: int)
    requires UpsertVacancyInto(table, vacancy, companyId).Ok?
    ensures UpsertVacancyInto(UpsertVacancyInto(table, vacancy, companyId).value, vacancy, otherCompanyId)
            == UpsertVacancyInto(table, vacancy, companyId)
  {
    var once := UpsertVacancyInto(table, vacancy, companyId).value;
    var (id, row) := VacancyRecord(vacancy, companyId).value;
    var (id', row') := VacancyRecord(vacancy, otherCompanyId).value;
    assert VacancyArgsOf(vacancy, otherCompanyId).value == VacancyArgsOf(vacancy, companyId).value.(companyId := otherCompanyId);
    assert id' == id && row' == row.(companyId := otherCompanyId);
    assert once[id := row'.(companyId := once[id].companyId)] == once;
  }

  /** The salary columns `upsert_vacancy` writes are the triple
      `safe_get_salary` extracts from the same vacancy. */
  lemma UpsertVacancySalaryIsSafeGetSalary(vacancy: Json, companyId: int)
    requires VacancyArgsOf(vacancy, companyId).Ok?
    ensures var args := VacancyArgsOf(vacancy, companyId).value;
            Services.SafeGetSalary(vacancy) == Ok(Services.Salary(args.salaryFrom, args.salaryTo, args.salaryCurrency))
  {
  }

  /** The description is the snippet's responsibility when that is a
      non-empty value, and the vacancy name otherwise. */
  lemma UpsertVacancyDescription(vacancy: map<string, Json>, companyId: int)
    requires VacancyArgsOf(JObj(vacancy), companyId).Ok?
    ensures var snippet := if "snippet" in vacancy then vacancy["snippet"] else JObj(map[]);
            && snippet.JObj?
            && var responsibility := Lookup(snippet.fields, "responsibility");
               VacancyArgsOf(JObj(vacancy), companyId).value.description ==
                 if Truthy(responsibility) then responsibility else Lookup(vacancy, "name")
  {
  }

  // ---- the SELECT queries ---------------------------------------------------------

  /** `vacancies v JOIN companies c ON v.company_id = c.company_id`: the
      vacancies filed under a stored company. */
  predicate Joined(companies: map<int, Company>, vacancies: map<int, Vacancy>, id: int) {
    id in vacancies && vacancies[id].companyId in companies
  }

  /** A joined row as `get_all_vacancies` and `get_vacancies_with_keywords`
      select it. */
  datatype VacancyRow = VacancyRow(
    vacancyId: int,
    companyName: Option<string>,
    vacancyName: Option<string>,
    salaryFrom: Option<int>,
    salaryTo: Option<int>,
    currency: Option<string>,
    url: Option<string>)

  function RowOf(companies: map<int, Company>, vacancies: map<int, Vacancy>, id: int): VacancyRow
    requires Joined(companies, vacancies, id)
  {
    var v := vacancies[id];
    VacancyRow(id, companies[v.companyId].name, v.name, v.salaryFrom, v.salaryTo, v.salaryCurrency, v.url)
  }

  /** The joined rows of the vacancies in `ids`, `ORDER BY v.vacancy_id`:
      each exactly once, in strictly ascending id. */
  function RowsById(companies: map<int, Company>, vacancies: map<int, Vacancy>, ids: set<int>): (rows: seq<VacancyRow>)
    requires forall id :: id in ids ==> Joined(companies, vacancies, id)
    ensures |rows| == |ids|
    ensures forall i, j :: 0 <= i < j < |rows| ==> rows[i].vacancyId < rows[j].vacancyId
    ensures forall k :: 0 <= k < |rows| ==>
              rows[k].vacancyId in ids && rows[k] == RowOf(companies, vacancies, rows[k].vacancyId)
    ensures forall id :: id in ids ==> exists k :: 0 <= k < |rows| && rows[k].vacancyId == id
  {
    var order := SortedInts(ids);
    var rows := seq(|order|, k requires 0 <= k < |order| => RowOf(companies, vacancies, order[k]));
    forall id | id in ids
      ensures exists k :: 0 <= k < |rows| && rows[k].vacancyId == id
    {
      assert id in order;
      var k :| 0 <= k < |order| && order[k] == id;
      assert rows[k].vacancyId == id;
    }
    rows
  }

  // get_companies_and_vacancies_count

  /** `COUNT(v.vacancy_id)` for one company: the vacancies filed under it. */
  function VacancyCount(vacancies: map<int, Vacancy>, companyId: int): (n: nat)
    ensures n > 0 <==> exists id :: id in vacancies && vacancies[id].companyId == companyId
  {
    var filed := set id | id in vacancies && vacancies[id].companyId == companyId;
    assert (exists id :: id in vacancies && vacancies[id].companyId == companyId) ==> filed != {} by {
      if exists id :: id in vacancies && vacancies[id].companyId == companyId {
        var id :| id in vacancies && vacancies[id].companyId == companyId;
        assert id in filed;
      }
    }
    |filed|
  }

  /** A row of `get_companies_and_vacancies_count`. */
  datatype CountRow = CountRow(companyId: int, companyName: Option<string>, vacanciesCount: nat)

  function CountKey(r: CountRow): real {
    r.vacanciesCount as real
  }

  /** The companies the inner join keeps: those with at least one vacancy. */
  function Counted(companies: map<int, Company>, vacancies: map<int, Vacancy>): set<int> {
    set c | c in companies && VacancyCount(vacancies, c) > 0
  }

  function CountRowsById(companies: map<int, Company>, vacancies: map<int, Vacancy>): (rows: seq<CountRow>)
    ensures |rows| == |Counted(companies, vacancies)|
    ensures forall k :: 0 <= k < |rows| ==>
      && rows[k].companyId in Counted(companies, vacancies)
      && rows[k] == CountRow(rows[k].companyId, companies[rows[k].companyId].name, VacancyCount(vacancies, rows[k].companyId))
    ensures forall c :: c in Counted(companies, vacancies) ==> exists k :: 0 <= k < |rows| && rows[k].companyId == c
  {
    var counted := Counted(companies, vacancies);
    var ids := SortedInts(counted);
    assert forall k :: 0 <= k < |ids| ==> ids[k] in counted;
    var rows := seq(|ids|, k requires 0 <= k < |ids| =>
                  CountRow(ids[k], companies[ids[k]].name, VacancyCount(vacancies, ids[k])));
    forall k | 0 <= k < |rows|
      ensures rows[k].companyId == ids[k] && rows[k].companyId in counted
    {
    }
    forall c | c in counted
      ensures exists k :: 0 <= k < |rows| && rows[k].companyId == c
    {
      assert c in ids;
      var k :| 0 <= k < |ids| && ids[k] == c;
      assert rows[k].companyId == c;
    }
    rows
  }

  /** Any arrangement of the same rows keeps what they say. */
  lemma CountRowsAnyOrder(companies: map<int, Company>, vacancies: map<int, Vacancy>, rows: seq<CountRow>)
    requires forall x :: x in rows <==> x in CountRowsById(companies, vacancies)
    ensures forall k :: 0 <= k < |rows| ==>
      && rows[k].companyId in companies
      && rows[k].companyName == companies[rows[k].companyId].name
      && rows[k].vacanciesCount == VacancyCount(vacancies, rows[k].companyId) > 0
    ensures forall c :: c in companies && VacancyCount(vacancies, c) > 0 ==>
      exists k :: 0 <= k < |rows| && rows[k].companyId == c
  {
    var unordered := CountRowsById(companies, vacancies);
    forall c | c in companies && VacancyCount(vacancies, c) > 0
      ensures exists k :: 0 <= k < |rows| && rows[k].companyId == c
    {
      assert c in Counted(companies, vacancies);
      var k :| 0 <= k < |unordered| && unordered[k].companyId == c;
      assert unordered[k] in rows;
      var k' :| 0 <= k' < |rows| && rows[k'] == unordered[k];
    }
    forall k | 0 <= k < |rows|
      ensures rows[k].companyId in companies && rows[k].companyName == companies[rows[k].companyId].name
              && rows[k].vacanciesCount == VacancyCount(vacancies, rows[k].companyId) > 0
    {
      assert rows[k] in unordered;
    }
  }

  /** The query: one row per company with at least one vacancy (the inner
      join drops the others) with its vacancy count, by non-increasing count. */
  function CompaniesAndVacanciesCount(companies: map<int, Company>, vacancies: map<int, Vacancy>): (rows: seq<CountRow>)
    ensures NonIncreasing(rows, CountKey)
    ensures |rows| == |Counted(companies, vacancies)|
    ensures forall k :: 0 <= k < |rows| ==>
      && rows[k].companyId in companies
      && rows[k].companyName == companies[rows[k].companyId].name
      && rows[k].vacanciesCount == VacancyCount(vacancies, rows[k].companyId) > 0
    ensures forall c :: c in companies && VacancyCount(vacancies, c) > 0 ==>
      exists k :: 0 <= k < |rows| && rows[k].companyId == c
  {
    var unordered := CountRowsById(companies, vacancies);
    var rows := SortByDesc(unordered, CountKey);
    PermutationMembers(rows, unordered);
    CountRowsAnyOrder(companies, vacancies, rows);
    rows
  }

  // get_all_vacancies

  function JoinedIds(companies: map<int, Company>, vacancies: map<int, Vacancy>): set<int> {
    set id | id in vacancies && Joined(companies, vacancies, id)
  }

  /** The query: every vacancy filed under a stored company, joined with that
      company's name, by ascending vacancy id. */
  function AllVacancies(companies: map<int, Company>, vacancies: map<int, Vacancy>): (rows: seq<VacancyRow>)
    ensures forall i, j :: 0 <= i < j < |rows| ==> rows[i].vacancyId < rows[j].vacancyId
    ensures forall k :: 0 <= k < |rows| ==>
      Joined(companies, vacancies, rows[k].vacancyId) && rows[k] == RowOf(companies, vacancies, rows[k].vacancyId)
    ensures forall id :: Joined(companies, vacancies, id) ==> exists k :: 0 <= k < |rows| && rows[k].vacancyId == id
  {
    var rows := RowsById(companies, vacancies, JoinedIds(companies, vacancies));
    forall id | Joined(companies, vacancies, id)
      ensures exists k :: 0 <= k < |rows| && rows[k].vacancyId == id
    {
      assert id in JoinedIds(companies, vacancies);
    }
    rows
  }

  // get_avg_salary

  /** `COALESCE(a, b)`. */
  function Coalesce(a: Option<int>, b: Option<int>): (r: Option<int>)
    ensures r.None? <==> a.None? && b.None?
    ensures a.Some? ==> r == a
    ensures r.Some? ==> r == a || r == b
  {
    if a.Some? then a else b
  }

  /** `(COALESCE(salary_from, salary_to) + COALESCE(salary_to, salary_from)) / 2.0`:
      NULL exactly when the vacancy has no bound. */
  function Midpoint(v: Vacancy): (m: Option<real>)
    ensures m.None? <==> v.salaryFrom.None? && v.salaryTo.None?
  {
    match (Coalesce(v.salaryFrom, v.salaryTo), Coalesce(v.salaryTo, v.salaryFrom))
    case (Some(a), Some(b)) => Some((a + b) as real / 2.0)
    case _ => None
  }

  /** A lone bound counts as both bounds; with two bounds the midpoint is
      their mean and lies between them. */
  lemma MidpointOfBounds(v: Vacancy)
    ensures v.salaryFrom.Some? && v.salaryTo.None? ==> Midpoint(v) == Some(v.salaryFrom.value as real)
    ensures v.salaryFrom.None? && v.salaryTo.Some? ==> Midpoint(v) == Some(v.salaryTo.value as real)
    ensures v.salaryFrom.Some? && v.salaryTo.Some? ==>
      && 2.0 * Midpoint(v).value == (v.salaryFrom.value + v.salaryTo.value) as real
      && (v.salaryFrom.value <= v.salaryTo.value ==>
            v.salaryFrom.value as real <= Midpoint(v).value <= v.salaryTo.value as real)
      && (v.salaryTo.value <= v.salaryFrom.value ==>
            v.salaryTo.value as real <= Midpoint(v).value <= v.salaryFrom.value as real)
  {
  }

  /** The midpoints of the vacancies `ids`, in order. */
  function Midpoints(vacancies: map<int, Vacancy>, ids: seq<int>): (ms: seq<Option<real>>)
    requires forall k :: 0 <= k < |ids| ==> ids[k] in vacancies
    ensures |ms| == |ids|
    ensures forall k :: 0 <= k < |ids| ==> ms[k] == Midpoint(vacancies[ids[k]])
  {
    seq(|ids|, k requires 0 <= k < |ids| => Midpoint(vacancies[ids[k]]))
  }

  /** `SUM` over the non-NULL values. */
  function Sum(ms: seq<Option<real>>): real {
    if ms == [] then 0.0
    else (if ms[0].Some? then ms[0].value else 0.0) + Sum(ms[1..])
  }

  /** `SUM` ignores NULLs: values that are all NULL add up to nothing. */
  lemma {:induction false} SumOfNulls(ms: seq<Option<real>>)
    requires Count(ms) == 0
    ensures Sum(ms) == 0.0
  {
    if ms != [] {
      SumOfNulls(ms[1..]);
    }
  }

  /** How many values are not NULL. */
  function Count(ms: seq<Option<real>>): (n: nat)
    ensures n <= |ms|
  {
    if ms == [] then 0
    else (if ms[0].Some? then 1 else 0) + Count(ms[1..])
  }

  /** Nothing is counted exactly when every value is NULL. */
  lemma {:induction false} CountZero(ms: seq<Option<real>>)
    ensures Count(ms) == 0 <==> forall k :: 0 <= k < |ms| ==> ms[k].None?
  {
    if ms != [] {
      CountZero(ms[1..]);
      assert forall k :: 1 <= k < |ms| ==> ms[k] == ms[1..][k - 1];
    }
  }

  /** Every value that is not NULL exceeds `a`. */
  predicate AllAbove(ms: seq<Option<real>>, a: real) {
    forall k :: 0 <= k < |ms| && ms[k].Some? ==> ms[k].value > a
  }

  /** Every value that is not NULL falls short of `a`. */
  predicate AllBelow(ms: seq<Option<real>>, a: real) {
    forall k :: 0 <= k < |ms| && ms[k].Some? ==> ms[k].value < a
  }

  /** How far the values exceed `a`, in total. */
  function Excess(ms: seq<Option<real>>, a: real): real {
    if ms == [] then 0.0
    else (if ms[0].Some? then ms[0].value - a else 0.0) + Excess(ms[1..], a)
  }

  lemma ExcessStep(e0: real, s0: real, c0: real, a: real, e: real, sum: real, n: real)
    requires e0 == s0 - c0 * a && e == sum - n * a
    ensures e0 + e == (s0 + sum) - (c0 + n) * a
  {
  }

  /** The total excess is the sum less `count * a`. */
  lemma {:induction false} ExcessIsSumLessCount(ms: seq<Option<real>>, a: real)
    ensures Excess(ms, a) == Sum(ms) - Count(ms) as real * a
  {
    if ms != [] {
      var rest := ms[1..];
      ExcessIsSumLessCount(rest, a);
      var s0 := if ms[0].Some? then ms[0].value else 0.0;
      var c0 := if ms[0].Some? then 1.0 else 0.0;
      ExcessStep(if ms[0].Some? then ms[0].value - a else 0.0, s0, c0, a,
                 Excess(rest, a), Sum(rest), Count(rest) as real);
    }
  }

  /** Values that all exceed `a` have a positive excess, when there are any. */
  lemma {:induction false} ExcessAbove(ms: seq<Option<real>>, a: real)
    requires AllAbove(ms, a)
    ensures Excess(ms, a) >= 0.0
    ensures Count(ms) > 0 ==> Excess(ms, a) > 0.0
  {
    if ms != [] {
      var rest := ms[1..];
      assert AllAbove(rest, a) by {
        assert forall k :: 0 <= k < |rest| ==> rest[k] == ms[k + 1];
      }
      ExcessAbove(rest, a);
    }
  }

  /** Values that all fall short of `a` have a negative excess, when there
      are any. */
  lemma {:induction false} ExcessBelow(ms: seq<Option<real>>, a: real)
    requires AllBelow(ms, a)
    ensures Excess(ms, a) <= 0.0
    ensures Count(ms) > 0 ==> Excess(ms, a) < 0.0
  {
    if ms != [] {
      var rest := ms[1..];
      assert AllBelow(rest, a) by {
        assert forall k :: 0 <= k < |rest| ==> rest[k] == ms[k + 1];
      }
      ExcessBelow(rest, a);
    }
  }

  /** `AVG`: the mean of the values that are not NULL; None when all are. */
  function Avg(ms: seq<Option<real>>): (avg: Option<real>)
    ensures avg.None? <==> forall k :: 0 <= k < |ms| ==> ms[k].None?
  {
    CountZero(ms);
    if Count(ms) == 0 then None else Some(Sum(ms) / Count(ms) as real)
  }

  lemma MeanHasNoExcess(e: real, sum: real, n: real, a: real)
    requires n > 0.0 && a == sum / n && e == sum - n * a
    ensures e == 0.0
  {
  }

  /** The mean has no excess over the values it averages. */
  lemma AvgHasNoExcess(ms: seq<Option<real>>)
    requires Avg(ms).Some?
    ensures Count(ms) > 0 && Excess(ms, Avg(ms).value) == 0.0
  {
    var a := Avg(ms).value;
    CountZero(ms);
    ExcessIsSumLessCount(ms, a);
    MeanHasNoExcess(Excess(ms, a), Sum(ms), Count(ms) as real, a);
  }

  /** The mean lies between the least and the greatest value: some value
      is at or below it and some at or above it. */
  lemma AvgWithinValues(ms: seq<Option<real>>)
    requires Avg(ms).Some?
    ensures exists k :: 0 <= k < |ms| && ms[k].Some? && ms[k].value <= Avg(ms).value
    ensures exists k :: 0 <= k < |ms| && ms[k].Some? && ms[k].value >= Avg(ms).value
  {
    var a := Avg(ms).value;
    AvgHasNoExcess(ms);
    if AllAbove(ms, a) {
      ExcessAbove(ms, a);
    }
    if AllBelow(ms, a) {
      ExcessBelow(ms, a);
    }
  }

  /** The midpoints of a listing of every key are NULL exactly when every
      vacancy's midpoint is. */
  lemma AllNullInListing(vacancies: map<int, Vacancy>, ids: seq<int>)
    requires forall k :: 0 <= k < |ids| ==> ids[k] in vacancies
    requires forall id :: id in vacancies ==> id in ids
    ensures (forall k :: 0 <= k < |ids| ==> Midpoints(vacancies, ids)[k].None?) <==>
            (forall id :: id in vacancies ==> Midpoint(vacancies[id]).None?)
  {
    var ms := Midpoints(vacancies, ids);
    if forall k :: 0 <= k < |ids| ==> ms[k].None? {
      forall id | id in vacancies ensures Midpoint(vacancies[id]).None? {
        var k :| 0 <= k < |ids| && ids[k] == id;
        assert ms[k].None?;
      }
    } else {
      var k :| 0 <= k < |ids| && ms[k].Some?;
      var id := ids[k];
      assert id in vacancies && Midpoint(vacancies[id]).Some?;
      assert !(forall id :: id in vacancies ==> Midpoint(vacancies[id]).None?);
    }
  }

  /** The query: the mean midpoint over the vacancies with a salary bound
      (all of them, joined or not); None when there is none. */
  function AvgSalary(vacancies: map<int, Vacancy>): (avg: Option<real>)
    ensures avg.None? <==> forall id :: id in vacancies ==> Midpoint(vacancies[id]).None?
  {
    var ids := SortedInts(vacancies.Keys);
    AllNullInListing(vacancies, ids);
    Avg(Midpoints(vacancies, ids))
  }

  /** The average lies between the least and the greatest midpoint: some
      vacancy has a midpoint at or below it and some at or above it. */
  lemma AvgWithinMidpoints(vacancies: map<int, Vacancy>)
    requires exists id :: id in vacancies && Midpoint(vacancies[id]).Some?
    ensures exists id :: id in vacancies && Midpoint(vacancies[id]).Some? &&
                         Midpoint(vacancies[id]).value <= AvgSalary(vacancies).value
    ensures exists id :: id in vacancies && Midpoint(vacancies[id]).Some? &&
                         Midpoint(vacancies[id]).value >= AvgSalary(vacancies).value
  {
    var ids := SortedInts(vacancies.Keys);
    var ms := Midpoints(vacancies, ids);
    AvgWithinValues(ms);
    var i :| 0 <= i < |ms| && ms[i].Some? && ms[i].value <= Avg(ms).value;
    var j :| 0 <= j < |ms| && ms[j].Some? && ms[j].value >= Avg(ms).value;
    assert ids[i] in vacancies && ids[j] in vacancies;
  }

  // get_vacancies_with_higher_salary

  /** A row of `get_vacancies_with_higher_salary`: the joined columns and
      the computed `avg_salary_calc`. */
  datatype SalaryRow = SalaryRow(row: VacancyRow, midpoint: real)

  function MidpointKey(r: SalaryRow): real {
    r.midpoint
  }

  /** The joined vacancies whose midpoint is strictly above `avg`. */
  function AboveIds(companies: map<int, Company>, vacancies: map<int, Vacancy>, avg: real): set<int> {
    set id | id in vacancies && Joined(companies, vacancies, id)
                && Midpoint(vacancies[id]).Some? && Midpoint(vacancies[id]).value > avg
  }

  function SalaryRowsById(companies: map<int, Company>, vacancies: map<int, Vacancy>, avg: real): (rows: seq<SalaryRow>)
    ensures |rows| == |AboveIds(companies, vacancies, avg)|
    ensures forall k :: 0 <= k < |rows| ==>
      && rows[k].row.vacancyId in AboveIds(companies, vacancies, avg)
      && rows[k].row == RowOf(companies, vacancies, rows[k].row.vacancyId)
      && Midpoint(vacancies[rows[k].row.vacancyId]) == Some(rows[k].midpoint)
    ensures forall id :: id in AboveIds(companies, vacancies, avg) ==>
      exists k :: 0 <= k < |rows| && rows[k].row.vacancyId == id
  {
    var above := AboveIds(companies, vacancies, avg);
    var byId := RowsById(companies, vacancies, above);
    var rows := seq(|byId|, k requires 0 <= k < |byId| =>
                  SalaryRow(byId[k], Midpoint(vacancies[byId[k].vacancyId]).value));
    forall k | 0 <= k < |rows|
      ensures rows[k].row == byId[k] && rows[k].row.vacancyId in above
      ensures Midpoint(vacancies[rows[k].row.vacancyId]) == Some(rows[k].midpoint)
    {
    }
    forall id | id in above
      ensures exists k :: 0 <= k < |rows| && rows[k].row.vacancyId == id
    {
      var k :| 0 <= k < |byId| && byId[k].vacancyId == id;
      assert rows[k].row.vacancyId == id;
    }
    rows
  }

  /** Any arrangement of the same rows keeps what they say. */
  lemma SalaryRowsAnyOrder(companies: map<int, Company>, vacancies: map<int, Vacancy>, avg: real, rows: seq<SalaryRow>)
    requires forall x :: x in rows <==> x in SalaryRowsById(companies, vacancies, avg)
    ensures forall k :: 0 <= k < |rows| ==>
      && Joined(companies, vacancies, rows[k].row.vacancyId)
      && rows[k].row == RowOf(companies, vacancies, rows[k].row.vacancyId)
      && Midpoint(vacancies[rows[k].row.vacancyId]) == Some(rows[k].midpoint)
      && rows[k].midpoint > avg
    ensures forall id ::
      (Joined(companies, vacancies, id) && Midpoint(vacancies[id]).Some? && Midpoint(vacancies[id]).value > avg) ==>
      exists k :: 0 <= k < |rows| && rows[k].row.vacancyId == id
  {
    var unordered := SalaryRowsById(companies, vacancies, avg);
    forall id | Joined(companies, vacancies, id) && Midpoint(vacancies[id]).Some? && Midpoint(vacancies[id]).value > avg
      ensures exists k :: 0 <= k < |rows| && rows[k].row.vacancyId == id
    {
      assert id in AboveIds(companies, vacancies, avg);
      var k :| 0 <= k < |unordered| && unordered[k].row.vacancyId == id;
      assert unordered[k] in rows;
      var k' :| 0 <= k' < |rows| && rows[k'] == unordered[k];
    }
    forall k | 0 <= k < |rows|
      ensures && Joined(companies, vacancies, rows[k].row.vacancyId)
              && rows[k].row == RowOf(companies, vacancies, rows[k].row.vacancyId)
              && Midpoint(vacancies[rows[k].row.vacancyId]) == Some(rows[k].midpoint)
              && rows[k].midpoint > avg
    {
      assert rows[k] in unordered;
    }
  }

  /** The query: nothing when there is no average; otherwise the joined
      vacancies whose midpoint is strictly above it, by non-increasing
      midpoint. */
  function VacanciesWithHigherSalary(companies: map<int, Company>, vacancies: map<int, Vacancy>): (rows: seq<SalaryRow>)
    ensures AvgSalary(vacancies).None? ==> rows == []
    ensures AvgSalary(vacancies).Some? ==> |rows| == |AboveIds(companies, vacancies, AvgSalary(vacancies).value)|
    ensures NonIncreasing(rows, MidpointKey)
    ensures forall k :: 0 <= k < |rows| ==>
      && AvgSalary(vacancies).Some?
      && Joined(companies, vacancies, rows[k].row.vacancyId)
      && rows[k].row == RowOf(companies, vacancies, rows[k].row.vacancyId)
      && Midpoint(vacancies[rows[k].row.vacancyId]) == Some(rows[k].midpoint)
      && rows[k].midpoint > AvgSalary(vacancies).value
    ensures forall id ::
      (Joined(companies, vacancies, id) && AvgSalary(vacancies).Some? &&
       Midpoint(vacancies[id]).Some? && Midpoint(vacancies[id]).value > AvgSalary(vacancies).value) ==>
      exists k :: 0 <= k < |rows| && rows[k].row.vacancyId == id
  {
    var avg := AvgSalary(vacancies);
    if avg.None? then []
    else
      var unordered := SalaryRowsById(companies, vacancies, avg.value);
      var rows := SortByDesc(unordered, MidpointKey);
      PermutationMembers(rows, unordered);
      SalaryRowsAnyOrder(companies, vacancies, avg.value, rows);
      rows
  }

  // get_vacancies_with_keywords

  /** All words of the search occur in the vacancy name, ignoring case:
      `v.name ILIKE '%w1%' AND v.name ILIKE '%w2%' ...`; a NULL name matches
      nothing. */
  predicate MatchesAll(name: Option<string>, words: seq<string>)
    ensures name.None? ==> !MatchesAll(name, words)
    ensures MatchesAll(name, words) ==> forall k :: 0 <= k < |words| ==> |words[k]| <= |name.value|
  {
    name.Some? && forall k :: 0 <= k < |words| ==> ContainsCaseless(name.value, words[k])
  }

  function MatchingIds(companies: map<int, Company>, vacancies: map<int, Vacancy>, words: seq<string>): set<int> {
    set id | id in vacancies && Joined(companies, vacancies, id) && MatchesAll(vacancies[id].name, words)
  }

  /** The query: the keyword string is split at whitespace; with no word the
      statement ends in an empty `WHERE` and is refused; otherwise the joined
      vacancies whose name contains every word, ignoring case, by ascending
      vacancy id. */
  function VacanciesWithKeywords(companies: map<int, Company>, vacancies: map<int, Vacancy>, keywords: string): (r: Result<seq<VacancyRow>>)
    ensures r.Err? <==> forall i :: 0 <= i < |keywords| ==> IsSpace(keywords[i])
    ensures r.Err? ==> r.error == SyntaxError
    ensures r.Ok? ==> forall i, j :: 0 <= i < j < |r.value| ==> r.value[i].vacancyId < r.value[j].vacancyId
    ensures r.Ok? ==> forall k :: 0 <= k < |r.value| ==>
      && Joined(companies, vacancies, r.value[k].vacancyId)
      && MatchesAll(vacancies[r.value[k].vacancyId].name, Words(keywords))
      && r.value[k] == RowOf(companies, vacancies, r.value[k].vacancyId)
    ensures r.Ok? ==> forall id :: Joined(companies, vacancies, id) && MatchesAll(vacancies[id].name, Words(keywords)) ==>
      exists k :: 0 <= k < |r.value| && r.value[k].vacancyId == id
  {
    var words := Words(keywords);
    NoWordsIffBlank(keywords);
    if words == [] then Err(SyntaxError)
    else
      var rows := RowsById(companies, vacancies, MatchingIds(companies, vacancies, words));
      forall id | Joined(companies, vacancies, id) && MatchesAll(vacancies[id].name, words)
        ensures exists k :: 0 <= k < |rows| && rows[k].vacancyId == id
      {
        assert id in MatchingIds(companies, vacancies, words);
      }
      Ok(rows)
  }

  /** A name that contains every word of a search contains every word of
      any search made of some of those words. */
  lemma MatchesFewer(name: Option<string>, fewer: seq<string>, more: seq<string>)
    requires forall k :: 0 <= k < |fewer| ==> fewer[k] in more
    requires MatchesAll(name, more)
    ensures MatchesAll(name, fewer)
  {
    forall i | 0 <= i < |fewer|
      ensures ContainsCaseless(name.value, fewer[i])
    {
      var j :| 0 <= j < |more| && more[j] == fewer[i];
    }
  }

  /** Adding words never adds rows: every vacancy found with the longer
      search is found with the shorter one. */
  lemma KeywordsNarrow(companies: map<int, Company>, vacancies: map<int, Vacancy>, fewer: string, more: string)
    requires Words(fewer) != []
    requires forall k :: 0 <= k < |Words(fewer)| ==> Words(fewer)[k] in Words(more)
    ensures VacanciesWithKeywords(companies, vacancies, fewer).Ok?
    ensures VacanciesWithKeywords(companies, vacancies, more).Ok?
    ensures forall k :: 0 <= k < |VacanciesWithKeywords(companies, vacancies, more).value| ==>
      VacanciesWithKeywords(companies, vacancies, more).value[k] in VacanciesWithKeywords(companies, vacancies, fewer).value
  {
    var wf := Words(fewer);
    var wm := Words(more);
    assert wf[0] in wm;
    NoWordsIffBlank(fewer);
    NoWordsIffBlank(more);
    var rm := VacanciesWithKeywords(companies, vacancies, more);
    var rf := VacanciesWithKeywords(companies, vacancies, fewer);
    forall k | 0 <= k < |rm.value|
      ensures rm.value[k] in rf.value
    {
      var id := rm.value[k].vacancyId;
      MatchesFewer(vacancies[id].name, wf, wm);
      var k' :| 0 <= k' < |rf.value| && rf.value[k'].vacancyId == id;
    }
  }

  /** With an average, at least one vacancy with a salary bound is not
      above it and so is never listed: the list is never all of them. */
  lemma HigherSalaryLeavesOneOut(companies: map<int, Company>, vacancies: map<int, Vacancy>)
    requires exists id :: id in vacancies && Midpoint(vacancies[id]).Some?
    ensures exists id :: id in vacancies && Midpoint(vacancies[id]).Some? &&
                         (forall k :: 0 <= k < |VacanciesWithHigherSalary(companies, vacancies)| ==>
                                      VacanciesWithHigherSalary(companies, vacancies)[k].row.vacancyId != id)
  {
    AvgWithinMidpoints(vacancies);
    var id :| id in vacancies && Midpoint(vacancies[id]).Some? &&
              Midpoint(vacancies[id]).value <= AvgSalary(vacancies).value;
  }

  // ---- the store -----------------------------------------------------------------

  class DBManager {
    var companies: map<int, Company>
    var vacancies: map<int, Vacancy>

    /** A manager over a database whose tables hold these rows. */
    constructor(companies0: map<int, Company>, vacancies0: map<int, Vacancy>)
      ensures companies == companies0 && vacancies == vacancies0
    {
      companies := companies0;
      vacancies := vacancies0;
    }

    /** `upsert_company`: one statement, committed; on an exception the
        tables are untouched. */
    method UpsertCompany(company: Json) returns (status: Result<()>)
      modifies this
      ensures UpsertCompanyInto(old(companies), company).Ok? ==>
        status == Ok(()) && companies == UpsertCompanyInto(old(companies), company).value
      ensures UpsertCompanyInto(old(companies), company).Err? ==>
        status == Err(UpsertCompanyInto(old(companies), company).error) && companies == old(companies)
      ensures vacancies == old(vacancies)
    {
      var r := UpsertCompanyInto(companies, company);
      if r.Err? {
        return Err(r.error);
      }
      companies := r.value;
      status := Ok(());
    }

    /** `upsert_vacancy`: one statement, committed; on an exception the
        tables are untouched. */
    method UpsertVacancy(vacancy: Json, companyId: int) returns (status: Result<()>)
      modifies this
      ensures UpsertVacancyInto(old(vacancies), vacancy, companyId).Ok? ==>
        status == Ok(()) && vacancies == UpsertVacancyInto(old(vacancies), vacancy, companyId).value
      ensures UpsertVacancyInto(old(vacancies), vacancy, companyId).Err? ==>
        status == Err(UpsertVacancyInto(old(vacancies), vacancy, companyId).error) && vacancies == old(vacancies)
      ensures companies == old(companies)
    {
      var r := UpsertVacancyInto(vacancies, vacancy, companyId);
      if r.Err? {
        return Err(r.error);
      }
      vacancies := r.value;
      status := Ok(());
    }

    /** `get_companies_and_vacancies_count`. */
    function GetCompaniesAndVacanciesCount(): seq<CountRow>
      reads this
    {
      CompaniesAndVacanciesCount(companies, vacancies)
    }

    /** `get_all_vacancies`. */
    function GetAllVacancies(): seq<VacancyRow>
      reads this
    {
      AllVacancies(companies, vacancies)
    }

    /** `get_avg_salary`. */
    function GetAvgSalary(): Option<real>
      reads this
    {
      AvgSalary(vacancies)
    }

    /** `get_vacancies_with_higher_salary`: composes `get_avg_salary`. */
    function GetVacanciesWithHigherSalary(): seq<SalaryRow>
      reads this
    {
      VacanciesWithHigherSalary(companies, vacancies)
    }

    /** `get_vacancies_with_keywords`. */
    function GetVacanciesWithKeywords(keywords: string): Result<seq<VacancyRow>>
      reads this
    {
      VacanciesWithKeywords(companies, vacancies, keywords)
    }
  }
}
