/** Python values as they arrive from a decoded JSON document, with the few
    built-in operations the core applies to them: truthiness, `dict.get`,
    `d[key]` and `int(x)`. A raised exception is an `Err` value. */
module PyJson {

  datatype Option<+T> = None | Some(value: T) {
    function GetOr(default: T): T {
      match this
      case Some(v) => v
      case None => default
    }
  }

  /** The Python exception classes the core can raise, plus the two database
      failures it can cause (a value PostgreSQL refuses, a malformed statement). */
  datatype Error =
    | KeyError(key: string)
    | AttributeError
    | TypeError
    | ValueError
    | DataError
    | SyntaxError

  datatype Result<+T> = Ok(value: T) | Err(error: Error) {
    predicate IsFailure() {
      Err?
    }

    function PropagateFailure<U>(): Result<U>
      requires Err?
    {
      Err(error)
    }

    function Extract(): T
      requires Ok?
    {
      value
    }
  }

  /** A list built so far in front of the outcome of building the rest: an
      exception raised later discards what was built. */
  function Prepend<T>(done: seq<T>, rest: Result<seq<T>>): (r: Result<seq<T>>)
    ensures r.Ok? <==> rest.Ok?
    ensures r.Ok? ==> r.value == done + rest.value
    ensures rest.Err? ==> r == Err(rest.error)
  {
    match rest
    case Ok(more) => Ok(done + more)
    case Err(e) => Err(e)
  }

  lemma PrependNothing<T>(rest: Result<seq<T>>)
    ensures Prepend([], rest) == rest
    ensures rest.Ok? ==> Prepend(rest.value, Ok([])) == rest
  {
    if rest.Ok? {
      assert [] + rest.value == rest.value + [] == rest.value;
    }
  }

  lemma PrependTwice<T>(a: seq<T>, b: seq<T>, rest: Result<seq<T>>)
    ensures Prepend(a, Prepend(b, rest)) == Prepend(a + b, rest)
  {
    if rest.Ok? {
      assert a + (b + rest.value) == (a + b) + rest.value;
    }
  }

  /** A decoded JSON value; `JNull` is Python's None. JSON numbers with a
      fraction are Python floats, modelled here as exact reals. */
  datatype Json =
    | JNull
    | JBool(b: bool)
    | JInt(i: int)
    | JFloat(f: real)
    | JStr(s: string)
    | JArr(elems: seq<Json>)
    | JObj(fields: map<string, Json>)

  /** Python's `bool(x)`: None, False, zero and empty containers are false. */
  predicate Truthy(x: Json)
    ensures !Truthy(x) <==>
      x in {JNull, JBool(false), JInt(0), JFloat(0.0), JStr([]), JArr([]), JObj(map[])}
  {
    match x
    case JNull => false
    case JBool(b) => b
    case JInt(i) => i != 0
    case JFloat(f) => f != 0.0
    case JStr(s) => s != []
    case JArr(e) => e != []
    case JObj(m) => m != map[]
  }

  /** `m.get(key)` on a dictionary: the value, or None when the key is absent. */
  function Lookup(m: map<string, Json>, key: string): Json {
    if key in m then m[key] else JNull
  }

  /** `x.get(key, default)`: only dictionaries have `get`. */
  function GetOr(x: Json, key: string, default: Json): (r: Result<Json>)
    ensures r.Ok? <==> x.JObj?
    ensures x.JObj? ==> r.value == (if key in x.fields then x.fields[key] else default)
  {
    match x
    case JObj(m) => Ok(if key in m then m[key] else default)
    case _ => Err(AttributeError)
  }

  /** `x.get(key)`. */
  function Get(x: Json, key: string): (r: Result<Json>)
    ensures r.Ok? <==> x.JObj?
    ensures x.JObj? ==> r.value == Lookup(x.fields, key)
  {
    GetOr(x, key, JNull)
  }

  /** `x[key]`: a missing key raises KeyError, a value that is not a
      dictionary cannot be subscripted by a string. */
  function Index(x: Json, key: string): (r: Result<Json>)
    ensures r.Ok? <==> x.JObj? && key in x.fields
    ensures r.Ok? ==> r.value == x.fields[key]
    ensures x.JObj? && key !in x.fields ==> r == Err(KeyError(key))
  {
    match x
    case JObj(m) => if key in m then Ok(m[key]) else Err(KeyError(key))
    case _ => Err(TypeError)
  }

  // ---- int(x) ----------------------------------------------------------

  predicate IsDigit(c: char) {
    '0' <= c <= '9'
  }

  predicate AllDigits(s: string) {
    forall i :: 0 <= i < |s| ==> IsDigit(s[i])
  }

  /** The value of a string of decimal digits, read left to right. */
  function DigitsValue(s: string): nat
    requires AllDigits(s)
  {
    if s == [] then 0
    else DigitsValue(s[..|s| - 1]) * 10 + (s[|s| - 1] as int - '0' as int)
  }

  /** `int(s)` for a string: an optional sign followed by at least one decimal
      digit. Python also accepts surrounding blanks and `_` between digits;
      those spellings are not part of this model. */
  function ParseInt(s: string): (r: Option<int>)
    ensures r.Some? <==>
      (|s| > 0 && AllDigits(s)) || (|s| > 1 && (s[0] == '-' || s[0] == '+') && AllDigits(s[1..]))
  {
    if |s| > 0 && AllDigits(s) then Some(DigitsValue(s))
    else if |s| > 1 && s[0] == '-' && AllDigits(s[1..]) then Some(-(DigitsValue(s[1..]) as int))
    else if |s| > 1 && s[0] == '+' && AllDigits(s[1..]) then Some(DigitsValue(s[1..]))
    else None
  }

  /** Python's `int(x)` truncates a float toward zero. */
  function Truncate(f: real): (r: int)
    ensures f >= 0.0 ==> r as real <= f < r as real + 1.0
    ensures f < 0.0 ==> r as real - 1.0 < f <= r as real
  {
    if f >= 0.0 then f.Floor else -((-f).Floor)
  }

  /** Python's `int(x)` applied to a JSON value. */
  function ToInt(x: Json): (r: Result<int>)
    ensures x.JInt? ==> r == Ok(x.i)
    ensures x.JStr? ==> (r.Ok? <==> ParseInt(x.s).Some?)
    ensures x.JNull? || x.JArr? || x.JObj? ==> r == Err(TypeError)
  {
    match x
    case JInt(i) => Ok(i)
    case JBool(b) => Ok(if b then 1 else 0)
    case JFloat(f) => Ok(Truncate(f))
    case JStr(s) => (match ParseInt(s) case Some(n) => Ok(n) case None => Err(ValueError))
    case _ => Err(TypeError)
  }

  /** Python's `str(n)` for an integer: the decimal spelling the remote
      service uses for identifiers. */
  function DecimalString(n: int): string
  {
    if n < 0 then "-" + NatString(-n) else NatString(n)
  }

  function NatString(n: nat): string
  {
    if n < 10 then [('0' as int + n) as char]
    else NatString(n / 10) + [('0' as int + n % 10) as char]
  }

  lemma {:induction false} NatStringDigits(n: nat)
    ensures |NatString(n)| > 0 && AllDigits(NatString(n))
    ensures DigitsValue(NatString(n)) == n
  {
    if n >= 10 {
      NatStringDigits(n / 10);
      var s := NatString(n);
      assert s[..|s| - 1] == NatString(n / 10);
    }
  }

  /** `int(str(n)) == n`: an identifier sent as its decimal spelling converts
      back to the same integer. */
  lemma {:induction false} IntOfDecimalString(n: int)
    ensures ToInt(JStr(DecimalString(n))) == Ok(n)
  {
    if n < 0 {
      NatStringDigits(-n);
      var s := DecimalString(n);
      assert s[1..] == NatString(-n);
      assert !IsDigit(s[0]);
    } else {
      NatStringDigits(n);
    }
  }
}
