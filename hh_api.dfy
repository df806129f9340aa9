/** The paging loops of `HHApi` in src/hh_api.py. The HTTP session is replaced
    by the pages the remote service returns for one query: `remote[k]` is the
    decoded body of the reply to the request for page `k`, or None when that
    request raised a `RequestException`; a request past the end of `remote`
    fails as well, so that the service is finite. */
module HhApi {
  import opened PyJson
  import opened Collections
  import Services

  /** `get_companies` stops once it holds this many companies. */
  const MaxCompanies: nat := 15

  /** A reply body: its "items" list and its "pages" count, None when the
      key is absent. */
  datatype Page = Page(items: Option<seq<Json>>, pages: Option<int>)

  /** `data.get("items", [])`. */
  function ItemsOf(p: Page): seq<Json> {
    p.items.GetOr([])
  }

  /** `data.get("pages", 1)`. */
  function PagesOf(p: Page): int {
    p.pages.GetOr(1)
  }

  type Remote = seq<Option<Page>>

  /** The reply to the request for page `page`. */
  function Fetch(remote: Remote, page: nat): (r: Option<Page>)
    ensures r.Some? ==> page < |remote|
  {
    if page < |remote| then remote[page] else None
  }

  /** `page >= data.get("pages", 1) - 1`: the loop's exit test. */
  predicate IsLast(p: Page, page: nat) {
    page >= PagesOf(p) - 1
  }

  /** After requesting `page` the loop goes on to `page + 1`: the request
      succeeded and the reply does not mark the last page. */
  predicate ContinuesAfter(remote: Remote, page: nat) {
    Fetch(remote, page).Some? && !IsLast(Fetch(remote, page).value, page)
  }

  /** The items of pages `page`, `page + 1`, ... in order, up to and
      including the last page or up to the first failed request. */
  function PageStream(remote: Remote, page: nat): (r: seq<Json>)
    ensures page >= |remote| ==> r == []
    ensures Fetch(remote, page).None? ==> r == []
    decreases |remote| - page
  {
    match Fetch(remote, page)
    case None => []
    case Some(p) => ItemsOf(p) + (if IsLast(p, page) then [] else PageStream(remote, page + 1))
  }

  lemma PageStreamAt(remote: Remote, page: nat)
    requires Fetch(remote, page).Some?
    ensures PageStream(remote, page) == ItemsOf(Fetch(remote, page).value) +
      (if IsLast(Fetch(remote, page).value, page) then [] else PageStream(remote, page + 1))
  {
  }

  /** Paging stops at the first failed request or at the page marked last:
      whatever the service would answer for later pages is never seen. */
  lemma {:induction false} StreamStopsAt(remote: Remote, k: nat, j: nat)
    requires k < |remote| && j <= k && !ContinuesAfter(remote, k)
    ensures PageStream(remote, j) == PageStream(remote[..k + 1], j)
    decreases k - j
  {
    assert Fetch(remote[..k + 1], j) == Fetch(remote, j);
    if j < k && ContinuesAfter(remote, j) {
      StreamStopsAt(remote, k, j + 1);
    }
  }

  /** `requested` is 0, 1, 2, ... without gaps. */
  ghost predicate Consecutive(requested: seq<nat>) {
    forall k :: 0 <= k < |requested| ==> requested[k] == k
  }

  // ---- get_companies ---------------------------------------------------

  /** The row `get_companies` builds: `{"id": int(item["id"]), "name": item["name"]}`. */
  datatype Employer = Employer(id: int, name: Json)

  /** `item.get("open_vacancies", 0) > 0`; comparing None, a string or a
      container with 0 raises TypeError. */
  function HasOpenVacancies(item: Json): (r: Result<bool>)
    ensures item.JObj? && "open_vacancies" !in item.fields ==> r == Ok(false)
    ensures item.JObj? && "open_vacancies" in item.fields && item.fields["open_vacancies"].JInt? ==>
              r == Ok(item.fields["open_vacancies"].i > 0)
    ensures !item.JObj? ==> r == Err(AttributeError)
  {
    var n :- GetOr(item, "open_vacancies", JInt(0));
    match n
    case JInt(i) => Ok(i > 0)
    case JFloat(f) => Ok(f > 0.0)
    case JBool(b) => Ok(b)
    case _ => Err(TypeError)
  }

  /** One pass of the inner loop: None when the item is skipped, the
      employer row when it is appended, or the exception raised. */
  function EmployerOf(item: Json): (r: Result<Option<Employer>>)
    ensures r.Ok? && r.value.Some? ==>
      && HasOpenVacancies(item) == Ok(true)
      && "id" in item.fields && ToInt(item.fields["id"]) == Ok(r.value.value.id)
      && "name" in item.fields && item.fields["name"] == r.value.value.name
    ensures r.Ok? && r.value.None? <==> HasOpenVacancies(item) == Ok(false)
  {
    var open :- HasOpenVacancies(item);
    if !open then Ok(None)
    else
      var rawId :- Index(item, "id");
      var id :- ToInt(rawId);
      var name :- Index(item, "name");
      Ok(Some(Employer(id, name)))
  }

  /** The rows of every item that would be appended, in order: the filtered
      concatenation, without the cap. */
  function Kept(items: seq<Json>): (r: seq<Employer>)
    ensures |r| <= |items|
  {
    if items == [] then []
    else
      var e := EmployerOf(items[0]);
      (if e.Ok? && e.value.Some? then [e.value.value] else []) + Kept(items[1..])
  }

  /** The inner loop over a stream of items with room for `room` more rows:
      it stops as soon as the room is used up and never looks at the items
      after that point; an exception discards the rows. */
  function TakeEmployers(items: seq<Json>, room: nat): (r: Result<seq<Employer>>)
    ensures r.Ok? ==> |r.value| <= room
  {
    if room == 0 || items == [] then Ok([])
    else
      var e :- EmployerOf(items[0]);
      match e
      case None => TakeEmployers(items[1..], room)
      case Some(c) => Prepend([c], TakeEmployers(items[1..], room - 1))
  }

  /** `c` is the row of an item of `items` with open vacancies. */
  predicate KeptFrom(c: Employer, items: seq<Json>) {
    exists j :: 0 <= j < |items| && HasOpenVacancies(items[j]) == Ok(true) && EmployerOf(items[j]) == Ok(Some(c))
  }

  /** Every kept row is the row of some item with open vacancies, and the
      items with no (or zero) open vacancies contribute nothing. */
  lemma {:induction false} KeptFromOpenItems(items: seq<Json>)
    ensures forall k :: 0 <= k < |Kept(items)| ==> KeptFrom(Kept(items)[k], items)
  {
    if items != [] {
      KeptFromOpenItems(items[1..]);
      var head := if EmployerOf(items[0]).Ok? && EmployerOf(items[0]).value.Some? then [EmployerOf(items[0]).value.value] else [];
      assert Kept(items) == head + Kept(items[1..]);
      forall k | 0 <= k < |Kept(items)|
        ensures KeptFrom(Kept(items)[k], items)
      {
        if k < |head| {
          assert EmployerOf(items[0]) == Ok(Some(Kept(items)[k]));
        } else {
          assert KeptFrom(Kept(items[1..])[k - |head|], items[1..]);
          var j :| 0 <= j < |items[1..]| && HasOpenVacancies(items[1..][j]) == Ok(true)
                   && EmployerOf(items[1..][j]) == Ok(Some(Kept(items[1..])[k - |head|]));
          assert items[1..][j] == items[j + 1];
        }
      }
    }
  }

  /** Items whose open-vacancy count is zero or absent are skipped: removing
      them from the stream does not change what is kept. */
  lemma SkippedItem(item: Json, items: seq<Json>)
    requires HasOpenVacancies(item) == Ok(false)
    ensures Kept([item] + items) == Kept(items)
  {
    assert ([item] + items)[1..] == items;
  }

  /** When the inner loop completes, its rows are the first `room` rows of
      the filtered stream: page order, then item order, with no row
      invented, reordered or dropped before the cap. */
  lemma {:induction false} TakeEmployersIsPrefix(items: seq<Json>, room: nat)
    ensures TakeEmployers(items, room).Ok? ==> TakeEmployers(items, room).value == Take(Kept(items), room)
  {
    if room != 0 && items != [] {
      TakeEmployersIsPrefix(items[1..], room);
      TakeEmployersIsPrefix(items[1..], room - 1);
      var e := EmployerOf(items[0]);
      if e.Ok? && e.value.Some? {
        assert Kept(items) == [e.value.value] + Kept(items[1..]);
        var r := TakeEmployers(items, room);
        if r.Ok? {
          var tail := Take(Kept(items[1..]), room - 1);
          assert r.value == [e.value.value] + tail;
          if |Kept(items[1..])| <= room - 1 {
            assert Take(Kept(items), room) == Kept(items);
          } else {
            assert Take(Kept(items), room) == Kept(items)[..room];
            assert Kept(items)[..room] == [e.value.value] + Kept(items[1..])[..room - 1];
          }
        }
      } else if e.Ok? {
        assert Kept(items) == Kept(items[1..]);
      }
    }
  }

  /** When every item is well-formed, no exception is raised. */
  lemma {:induction false} TakeEmployersTotal(items: seq<Json>, room: nat)
    requires forall k :: 0 <= k < |items| ==> EmployerOf(items[k]).Ok?
    ensures TakeEmployers(items, room).Ok?
  {
    if room != 0 && items != [] {
      assert forall k :: 0 <= k < |items[1..]| ==> items[1..][k] == items[k + 1];
      TakeEmployersTotal(items[1..], room);
      TakeEmployersTotal(items[1..], room - 1);
    }
  }

  /** The company test case: one page holding companies 1, 2 and 3 with 5,
      0 and 10 open vacancies yields companies 1 and 3, in that order. */
  lemma CompaniesExample()
    ensures var items := [
              JObj(map["id" := JStr("1"), "name" := JStr("Company1"), "open_vacancies" := JInt(5)]),
              JObj(map["id" := JStr("2"), "name" := JStr("Company2"), "open_vacancies" := JInt(0)]),
              JObj(map["id" := JStr("3"), "name" := JStr("Company3"), "open_vacancies" := JInt(10)])];
            TakeEmployers(PageStream([Some(Page(Some(items), Some(1)))], 0), MaxCompanies) ==
              Ok([Employer(1, JStr("Company1")), Employer(3, JStr("Company3"))])
  {
    var a := JObj(map["id" := JStr("1"), "name" := JStr("Company1"), "open_vacancies" := JInt(5)]);
    var b := JObj(map["id" := JStr("2"), "name" := JStr("Company2"), "open_vacancies" := JInt(0)]);
    var c := JObj(map["id" := JStr("3"), "name" := JStr("Company3"), "open_vacancies" := JInt(10)]);
    var items := [a, b, c];
    assert PageStream([Some(Page(Some(items), Some(1)))], 0) == items;
    assert AllDigits("1") && DigitsValue("1") == 1 by { assert "1"[..0] == ""; }
    assert AllDigits("3") && DigitsValue("3") == 3 by { assert "3"[..0] == ""; }
    assert EmployerOf(a) == Ok(Some(Employer(1, JStr("Company1"))));
    assert EmployerOf(b) == Ok(None);
    assert EmployerOf(c) == Ok(Some(Employer(3, JStr("Company3"))));
    assert items[1..] == [b, c] && [b, c][1..] == [c] && [c][1..] == [];
    var e3 := Employer(3, JStr("Company3"));
    assert TakeEmployers([], 13) == Ok([]);
    assert [e3] + [] == [e3];
    assert Prepend([e3], TakeEmployers([c][1..], 13)) == Ok([e3]);
    assert TakeEmployers([c], 14) == Ok([e3]);
    assert TakeEmployers([b, c], 14) == Ok([e3]);
    var e1 := Employer(1, JStr("Company1"));
    assert TakeEmployers(items[1..], 14) == Ok([e3]);
    assert [e1] + [e3] == [e1, e3];
    assert TakeEmployers(items, 15) == Ok([e1, e3]);
  }

  /** A page with no items, marked last, yields no companies and no vacancies. */
  lemma EmptyPageExample(employerId: int)
    ensures TakeEmployers(PageStream([Some(Page(Some([]), Some(1)))], 0), MaxCompanies) == Ok([])
    ensures VacancyRows(PageStream([Some(Page(Some([]), Some(1)))], 0), employerId) == Ok([])
  {
    assert PageStream([Some(Page(Some([]), Some(1)))], 0) == [];
  }

  /** The companies held are the first 15 rows of the filtered page
      stream, each the row of an item with open vacancies. */
  lemma CompaniesAreFilteredPrefix(remote: Remote)
    ensures var r := TakeEmployers(PageStream(remote, 0), MaxCompanies);
            r.Ok? ==>
              && r.value == Take(Kept(PageStream(remote, 0)), MaxCompanies)
              && forall k :: 0 <= k < |r.value| ==> KeptFrom(r.value[k], PageStream(remote, 0))
  {
    var items := PageStream(remote, 0);
    TakeEmployersIsPrefix(items, MaxCompanies);
    KeptFromOpenItems(items);
  }

  /** One pass of the inner loop of `get_companies`, on the invariant. */
  lemma EmployerStep(spec: Result<seq<Employer>>, found: seq<Employer>, items: seq<Json>, i: nat, rest: seq<Json>)
    requires i < |items| && |found| < MaxCompanies
    requires spec == Prepend(found, TakeEmployers(items[i..] + rest, MaxCompanies - |found|))
    ensures EmployerOf(items[i]).Err? ==> spec == Err(EmployerOf(items[i]).error)
    ensures EmployerOf(items[i]) == Ok(None) ==>
      spec == Prepend(found, TakeEmployers(items[i + 1..] + rest, MaxCompanies - |found|))
    ensures EmployerOf(items[i]).Ok? && EmployerOf(items[i]).value.Some? ==>
      spec == Prepend(found + [EmployerOf(items[i]).value.value],
                      TakeEmployers(items[i + 1..] + rest, MaxCompanies - |found| - 1))
  {
    var x := items[i..] + rest;
    assert x[0] == items[i];
    assert x[1..] == items[i + 1..] + rest;
    var e := EmployerOf(items[i]);
    if e.Ok? && e.value.Some? {
      PrependTwice(found, [e.value.value], TakeEmployers(items[i + 1..] + rest, MaxCompanies - |found| - 1));
    }
  }

  /** The `for` loop of `get_companies` over the items of one page: the rows
      held afterwards (or the exception raised) are what the stream
      specification predicts, whatever follows the page. */
  method ScanEmployers(items: seq<Json>, found: seq<Employer>, ghost rest: seq<Json>)
    returns (r: Result<seq<Employer>>)
    requires |found| < MaxCompanies
    ensures r.Err? ==> Prepend(found, TakeEmployers(items + rest, MaxCompanies - |found|)) == r
    ensures r.Ok? ==> |r.value| <= MaxCompanies
    ensures r.Ok? ==> Prepend(found, TakeEmployers(items + rest, MaxCompanies - |found|)) ==
                      Prepend(r.value, TakeEmployers(rest, MaxCompanies - |r.value|))
  {
    ghost var spec := Prepend(found, TakeEmployers(items + rest, MaxCompanies - |found|));
    assert items[0..] == items;
    var held := found;
    var i := 0;
    while i < |items|
      invariant 0 <= i <= |items|
      invariant |held| < MaxCompanies
      invariant spec == Prepend(held, TakeEmployers(items[i..] + rest, MaxCompanies - |held|))
    {
      EmployerStep(spec, held, items, i, rest);
      var e := EmployerOf(items[i]);
      if e.Err? {
        return Err(e.error);
      }
      if e.value.Some? {
        held := held + [e.value.value];
        if |held| >= MaxCompanies {
          return Ok(held);
        }
      }
      i := i + 1;
    }
    assert items[i..] + rest == rest;
    return Ok(held);
  }

  /** One pass of the `while` loop of `get_companies`: request page `page`
      and scan its items. `stop` says that the loop breaks (a failed request
      or the last page); the rows held afterwards, and the pages still to
      come, account for the same stream specification. */
  method CompaniesPage(remote: Remote, page: nat, found: seq<Employer>)
    returns (r: Result<seq<Employer>>, stop: bool)
    requires |found| < MaxCompanies
    ensures r.Err? ==> Prepend(found, TakeEmployers(PageStream(remote, page), MaxCompanies - |found|)) == r
    ensures r.Ok? ==> |r.value| <= MaxCompanies
    ensures r.Ok? && stop ==>
      Prepend(found, TakeEmployers(PageStream(remote, page), MaxCompanies - |found|)) == Ok(r.value)
    ensures r.Ok? && !stop ==>
      Prepend(found, TakeEmployers(PageStream(remote, page), MaxCompanies - |found|)) ==
      Prepend(r.value, TakeEmployers(PageStream(remote, page + 1), MaxCompanies - |r.value|))
    ensures r.Ok? ==> (stop <==> !ContinuesAfter(remote, page))
    ensures !stop ==> page < |remote|
  {
    var response := Fetch(remote, page);
    if response.None? {
      assert found + [] == found;
      return Ok(found), true;
    }
    var p := response.value;
    stop := IsLast(p, page);
    ghost var rest := if stop then [] else PageStream(remote, page + 1);
    PageStreamAt(remote, page);
    r := ScanEmployers(ItemsOf(p), found, rest);
    if r.Ok? && stop {
      assert r.value + [] == r.value;
    }
  }

  /** `HHApi.get_companies`: pages are requested from 0 upward while fewer
      than 15 companies are held; the result is the first 15 kept rows of
      the page stream. */
  method GetCompanies(remote: Remote) returns (companies: Result<seq<Employer>>, ghost requested: seq<nat>)
    ensures companies == TakeEmployers(PageStream(remote, 0), MaxCompanies)
    ensures |requested| >= 1 && Consecutive(requested)
    ensures forall k :: 0 <= k < |requested| - 1 ==> ContinuesAfter(remote, k)
    ensures companies.Ok? && ContinuesAfter(remote, |requested| - 1) ==> |companies.value| == MaxCompanies
  {
    ghost var spec := TakeEmployers(PageStream(remote, 0), MaxCompanies);
    var found: seq<Employer> := [];
    var page: nat := 0;
    requested := [];
    PrependNothing(spec);
    while |found| < MaxCompanies
      invariant page <= |remote|
      invariant |found| <= MaxCompanies
      invariant page == 0 ==> found == []
      invariant |requested| == page && Consecutive(requested)
      invariant forall k :: 0 <= k < page ==> ContinuesAfter(remote, k)
      invariant spec == Prepend(found, TakeEmployers(PageStream(remote, page), MaxCompanies - |found|))
      decreases |remote| - page
    {
      requested := requested + [page];
      var scanned, stop := CompaniesPage(remote, page, found);
      if scanned.Err? {
        return Err(scanned.error), requested;
      }
      found := scanned.value;
      if stop {
        return Ok(Take(found, MaxCompanies)), requested;
      }
      page := page + 1;
    }
    PrependNothing(Ok(found));
    companies := Ok(Take(found, MaxCompanies));
  }

  // ---- get_vacancies_for_company -----------------------------------------

  /** The row `get_vacancies_for_company` builds for one item. */
  datatype VacancyRow = VacancyRow(
    vacancyId: int,
    companyId: int,
    name: Json,
    salaryFrom: Json,
    salaryTo: Json,
    salaryCurrency: Json,
    url: Json)

  /** The row for one item, as written: `safe_get_salary(v.get("salary"))`
      hands the salary record itself to a function that reads the "salary"
      entry of its argument. */
  function VacancyRowOf(v: Json, employerId: int): (r: Result<VacancyRow>)
    ensures r.Ok? ==>
      && v.JObj?
      && "id" in v.fields && ToInt(v.fields["id"]) == Ok(r.value.vacancyId)
      && r.value.companyId == employerId
      && "name" in v.fields && r.value.name == v.fields["name"]
      && "alternate_url" in v.fields && r.value.url == v.fields["alternate_url"]
  {
    var record :- Get(v, "salary");
    var salary :- Services.SafeGetSalary(record);
    var rawId :- Index(v, "id");
    var id :- ToInt(rawId);
    var name :- Index(v, "name");
    var url :- Index(v, "alternate_url");
    Ok(VacancyRow(id, employerId, name, salary.salaryFrom, salary.salaryTo, salary.currency, url))
  }

  /** One row per item, in order, or the first exception raised. */
  function VacancyRows(items: seq<Json>, employerId: int): (r: Result<seq<VacancyRow>>)
    ensures r.Ok? ==> |r.value| == |items|
    ensures r.Ok? ==> forall k :: 0 <= k < |r.value| ==> r.value[k].companyId == employerId
  {
    if items == [] then Ok([])
    else
      var row :- VacancyRowOf(items[0], employerId);
      Prepend([row], VacancyRows(items[1..], employerId))
  }

  /** One row per item, in order: the rows exist exactly when every item
      converts, and then row `k` is the row of item `k`, carrying the
      requested employer id. */
  lemma {:induction false} VacancyRowsOnePerItem(items: seq<Json>, employerId: int)
    ensures VacancyRows(items, employerId).Ok? <==>
      forall k :: 0 <= k < |items| ==> VacancyRowOf(items[k], employerId).Ok?
    ensures VacancyRows(items, employerId).Ok? ==>
      && |VacancyRows(items, employerId).value| == |items|
      && forall k :: 0 <= k < |items| ==>
           && VacancyRows(items, employerId).value[k] == VacancyRowOf(items[k], employerId).value
           && VacancyRows(items, employerId).value[k].companyId == employerId
  {
    if items != [] {
      VacancyRowsOnePerItem(items[1..], employerId);
      assert forall k :: 1 <= k < |items| ==> items[k] == items[1..][k - 1];
      if !(forall k :: 0 <= k < |items[1..]| ==> VacancyRowOf(items[1..][k], employerId).Ok?) {
        var k :| 0 <= k < |items[1..]| && !VacancyRowOf(items[1..][k], employerId).Ok?;
        assert !VacancyRowOf(items[k + 1], employerId).Ok?;
      }
    }
  }

  /** The row with the salary read as `upsert_vacancy` and the tests of
      `safe_get_salary` read it: the salary triple comes from the vacancy
      itself. */
  function IntendedVacancyRowOf(v: Json, employerId: int): (r: Result<VacancyRow>)
    ensures r.Ok? ==>
      && v.JObj?
      && "id" in v.fields && ToInt(v.fields["id"]) == Ok(r.value.vacancyId)
      && r.value.companyId == employerId
      && "name" in v.fields && r.value.name == v.fields["name"]
      && "alternate_url" in v.fields && r.value.url == v.fields["alternate_url"]
  {
    var salary :- Services.SafeGetSalary(v);
    var rawId :- Index(v, "id");
    var id :- ToInt(rawId);
    var name :- Index(v, "name");
    var url :- Index(v, "alternate_url");
    Ok(VacancyRow(id, employerId, name, salary.salaryFrom, salary.salaryTo, salary.currency, url))
  }

  /** The intended row carries the vacancy's salary bounds and currency, the
      plain lookups on its salary record (an absent or null record read as
      empty), and fails only where the item lacks a converted field. */
  lemma IntendedRowKeepsSalary(v: map<string, Json>, employerId: int)
    requires Services.SalaryEntry(v).JNull? || Services.SalaryEntry(v).JObj?
    requires "id" in v && ToInt(v["id"]).Ok? && "name" in v && "alternate_url" in v
    ensures IntendedVacancyRowOf(JObj(v), employerId).Ok?
    ensures var row := IntendedVacancyRowOf(JObj(v), employerId).value;
            var record := if Services.SalaryEntry(v).JObj? then Services.SalaryEntry(v).fields else map[];
            row.salaryFrom == Lookup(record, "from") && row.salaryTo == Lookup(record, "to")
            && row.salaryCurrency == Lookup(record, "currency")
  {
    Services.SafeGetSalaryIsLookup(v);
  }

  /** As written, the salary columns are always empty for a salary record
      without a nested "salary" key, that is for every record the service
      sends, whatever bounds it holds. */
  lemma AsWrittenDropsSalary(v: map<string, Json>, record: map<string, Json>, employerId: int)
    requires "salary" in v && v["salary"] == JObj(record) && "salary" !in record
    requires VacancyRowOf(JObj(v), employerId).Ok?
    ensures var row := VacancyRowOf(JObj(v), employerId).value;
            row.salaryFrom == JNull && row.salaryTo == JNull && row.salaryCurrency == JNull
  {
  }

  /** As written, a vacancy whose salary is absent or null raises
      AttributeError (`None.get`), where the intended row has no salary. */
  lemma AsWrittenFailsOnNullSalary(v: map<string, Json>, employerId: int)
    requires "salary" !in v || v["salary"] == JNull
    ensures VacancyRowOf(JObj(v), employerId) == Err(AttributeError)
  {
  }

  /** The item of the vacancy test case: the as-written row has no salary,
      the intended row has 100000, 150000 and "RUR". */
  lemma AsWrittenVacancyExample()
    ensures var item := JObj(map["id" := JStr("101"), "name" := JStr("Dev1"),
                                 "salary" := JObj(map["from" := JInt(100000), "to" := JInt(150000), "currency" := JStr("RUR")]),
                                 "alternate_url" := JStr("http://hh.ru/vacancy/101")]);
            && VacancyRowOf(item, 1) ==
                 Ok(VacancyRow(101, 1, JStr("Dev1"), JNull, JNull, JNull, JStr("http://hh.ru/vacancy/101")))
            && IntendedVacancyRowOf(item, 1) ==
                 Ok(VacancyRow(101, 1, JStr("Dev1"), JInt(100000), JInt(150000), JStr("RUR"), JStr("http://hh.ru/vacancy/101")))
  {
    var salary := map["from" := JInt(100000), "to" := JInt(150000), "currency" := JStr("RUR")];
    var m := map["id" := JStr("101"), "name" := JStr("Dev1"), "salary" := JObj(salary),
                 "alternate_url" := JStr("http://hh.ru/vacancy/101")];
    assert AllDigits("101");
    assert DigitsValue("101") == 101 by {
      assert "101"[..2] == "10";
      assert "10"[..1] == "1";
      assert "1"[..0] == "";
    }
    assert "salary" !in salary;
    assert Services.SafeGetSalary(JObj(salary)) == Ok(Services.NoSalary);
    assert "from" in salary && m["salary"] == JObj(salary);
    assert Services.SafeGetSalary(JObj(m)) == Ok(Services.Salary(JInt(100000), JInt(150000), JStr("RUR")));
  }

  /** One pass of the inner loop of `get_vacancies_for_company`, on the invariant. */
  lemma VacancyStep(spec: Result<seq<VacancyRow>>, rows: seq<VacancyRow>, items: seq<Json>, i: nat,
                    rest: seq<Json>, employerId: int)
    requires i < |items|
    requires spec == Prepend(rows, VacancyRows(items[i..] + rest, employerId))
    ensures VacancyRowOf(items[i], employerId).Err? ==> spec == Err(VacancyRowOf(items[i], employerId).error)
    ensures VacancyRowOf(items[i], employerId).Ok? ==>
      spec == Prepend(rows + [VacancyRowOf(items[i], employerId).value], VacancyRows(items[i + 1..] + rest, employerId))
  {
    var x := items[i..] + rest;
    assert x[0] == items[i];
    assert x[1..] == items[i + 1..] + rest;
    var row := VacancyRowOf(items[i], employerId);
    if row.Ok? {
      PrependTwice(rows, [row.value], VacancyRows(items[i + 1..] + rest, employerId));
    }
  }

  /** The `for` loop of `get_vacancies_for_company` over the items of one
      page: the rows held afterwards (or the exception raised) are what the
      stream specification predicts, whatever follows the page. */
  method ScanVacancies(items: seq<Json>, employerId: int, rows: seq<VacancyRow>, ghost rest: seq<Json>)
    returns (r: Result<seq<VacancyRow>>)
    ensures r.Err? ==> Prepend(rows, VacancyRows(items + rest, employerId)) == r
    ensures r.Ok? ==> Prepend(rows, VacancyRows(items + rest, employerId)) ==
                      Prepend(r.value, VacancyRows(rest, employerId))
  {
    ghost var spec := Prepend(rows, VacancyRows(items + rest, employerId));
    assert items[0..] == items;
    var held := rows;
    var i := 0;
    while i < |items|
      invariant 0 <= i <= |items|
      invariant spec == Prepend(held, VacancyRows(items[i..] + rest, employerId))
    {
      VacancyStep(spec, held, items, i, rest, employerId);
      var row := VacancyRowOf(items[i], employerId);
      if row.Err? {
        return Err(row.error);
      }
      held := held + [row.value];
      i := i + 1;
    }
    assert items[i..] + rest == rest;
    return Ok(held);
  }

  /** One pass of the `while` loop of `get_vacancies_for_company`: request
      page `page` and convert its items. `stop` says that the loop breaks (a
      failed request or the last page). */
  method VacanciesPage(remote: Remote, page: nat, employerId: int, rows: seq<VacancyRow>)
    returns (r: Result<seq<VacancyRow>>, stop: bool)
    ensures r.Err? ==> Prepend(rows, VacancyRows(PageStream(remote, page), employerId)) == r
    ensures r.Ok? && stop ==> Prepend(rows, VacancyRows(PageStream(remote, page), employerId)) == Ok(r.value)
    ensures r.Ok? && !stop ==>
      Prepend(rows, VacancyRows(PageStream(remote, page), employerId)) ==
      Prepend(r.value, VacancyRows(PageStream(remote, page + 1), employerId))
    ensures r.Ok? ==> (stop <==> !ContinuesAfter(remote, page))
    ensures !stop ==> page < |remote|
  {
    var response := Fetch(remote, page);
    if response.None? {
      assert rows + [] == rows;
      return Ok(rows), true;
    }
    var p := response.value;
    stop := IsLast(p, page);
    ghost var rest := if stop then [] else PageStream(remote, page + 1);
    PageStreamAt(remote, page);
    r := ScanVacancies(ItemsOf(p), employerId, rows, rest);
    if r.Ok? && stop {
      assert r.value + [] == r.value;
    }
  }

  /** `HHApi.get_vacancies_for_company`: pages are requested from 0 upward
      until the last page or a failed request; every item of every page
      fetched becomes one row. */
  method GetVacanciesForCompany(remote: Remote, employerId: int)
    returns (vacancies: Result<seq<VacancyRow>>, ghost requested: seq<nat>)
    ensures vacancies == VacancyRows(PageStream(remote, 0), employerId)
    ensures |requested| >= 1 && Consecutive(requested)
    ensures forall k :: 0 <= k < |requested| - 1 ==> ContinuesAfter(remote, k)
    ensures vacancies.Ok? ==> !ContinuesAfter(remote, |requested| - 1)
  {
    ghost var spec := VacancyRows(PageStream(remote, 0), employerId);
    var rows: seq<VacancyRow> := [];
    var page: nat := 0;
    requested := [];
    assert spec.Ok? ==> [] + spec.value == spec.value;
    while true
      invariant page <= |remote|
      invariant |requested| == page && Consecutive(requested)
      invariant forall k :: 0 <= k < page ==> ContinuesAfter(remote, k)
      invariant spec == Prepend(rows, VacancyRows(PageStream(remote, page), employerId))
      decreases |remote| - page
    {
      requested := requested + [page];
      var scanned, stop := VacanciesPage(remote, page, employerId, rows);
      if scanned.Err? {
        return Err(scanned.error), requested;
      }
      if stop {
        return scanned, requested;
      }
      rows := scanned.value;
      page := page + 1;
    }
  }
}
