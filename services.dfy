/** `safe_get_salary` from src/services.py: the (from, to, currency) triple of
    a vacancy's salary record, None wherever the record says nothing. */
module Services {
  import opened PyJson

  /** The returned triple; each component is the JSON value found, or JNull. */
  datatype Salary = Salary(salaryFrom: Json, salaryTo: Json, currency: Json)

  const NoSalary := Salary(JNull, JNull, JNull)

  /** The function as written: it receives a vacancy, reads its "salary"
      entry, returns the empty triple when that entry is falsy, and otherwise
      looks up "from", "to" and "currency" in it. `.get` on a value that is
      not a dictionary raises AttributeError. */
  function SafeGetSalary(vacancy: Json): (r: Result<Salary>)
    ensures r.Ok? <==>
      vacancy.JObj? && (var s := Lookup(vacancy.fields, "salary"); !Truthy(s) || s.JObj?)
  {
    match Get(vacancy, "salary")
    case Err(e) => Err(e)
    case Ok(s) =>
      if !Truthy(s) then Ok(NoSalary)
      else
        match (Get(s, "from"), Get(s, "to"), Get(s, "currency"))
        case (Ok(lo), Ok(hi), Ok(cur)) => Ok(Salary(lo, hi, cur))
        case _ => Err(AttributeError)
  }

  /** The salary record of a vacancy, with None standing for "no record". */
  function SalaryEntry(vacancy: map<string, Json>): Json {
    Lookup(vacancy, "salary")
  }

  /** Reference reading of the salary: the three plain lookups on the
      salary mapping, an absent or null record read as the empty mapping. */
  function SalaryByLookup(record: map<string, Json>): Salary {
    Salary(Lookup(record, "from"), Lookup(record, "to"), Lookup(record, "currency"))
  }

  /** A vacancy without a "salary" entry, or whose entry is None, yields the
      empty triple. */
  lemma AbsentSalaryIsEmpty(vacancy: map<string, Json>)
    requires "salary" !in vacancy || vacancy["salary"] == JNull
    ensures SafeGetSalary(JObj(vacancy)) == Ok(NoSalary)
  {
  }

  /** An empty salary mapping yields the empty triple. */
  lemma EmptySalaryIsEmpty(vacancy: map<string, Json>)
    requires "salary" in vacancy && vacancy["salary"] == JObj(map[])
    ensures SafeGetSalary(JObj(vacancy)) == Ok(NoSalary)
  {
  }

  /** For a non-empty salary mapping each component is that mapping's own
      entry, or None, independently of the other two. */
  lemma NonEmptySalaryComponents(vacancy: map<string, Json>, record: map<string, Json>)
    requires "salary" in vacancy && vacancy["salary"] == JObj(record) && record != map[]
    ensures SafeGetSalary(JObj(vacancy)).Ok?
    ensures SafeGetSalary(JObj(vacancy)).value.salaryFrom == (if "from" in record then record["from"] else JNull)
    ensures SafeGetSalary(JObj(vacancy)).value.salaryTo == (if "to" in record then record["to"] else JNull)
    ensures SafeGetSalary(JObj(vacancy)).value.currency == (if "currency" in record then record["currency"] else JNull)
  {
  }

  /** The early return agrees with plain lookup: whenever the salary entry is
      absent, None or a mapping, the result is the three lookups on that
      mapping (an empty one when there is none). */
  lemma SafeGetSalaryIsLookup(vacancy: map<string, Json>)
    requires SalaryEntry(vacancy).JNull? || SalaryEntry(vacancy).JObj?
    ensures SafeGetSalary(JObj(vacancy)) ==
      Ok(SalaryByLookup(if SalaryEntry(vacancy).JObj? then SalaryEntry(vacancy).fields else map[]))
  {
  }

  /** The result depends on the vacancy only through its "salary" entry. */
  lemma OnlySalaryEntryMatters(v1: map<string, Json>, v2: map<string, Json>)
    requires SalaryEntry(v1) == SalaryEntry(v2)
    ensures SafeGetSalary(JObj(v1)) == SafeGetSalary(JObj(v2))
  {
  }
}
