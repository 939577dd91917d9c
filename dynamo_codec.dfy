/**
 * The value codec of the DynamoDB operations
 * (aws_proxy/dynamoDb/dynamo_operations.py, `_serialize` and `_deserialize`):
 * a plain item, attribute name to Python value, becomes an item whose every
 * attribute is a one-entry dict from a type tag ("S", "N", "BOOL", "NULL")
 * to the payload, and back.
 */
module DynamoCodec {
  import opened Wrappers
  import opened Errors
  import opened Dicts
  import opened Models
  import opened Folds

  /**
   * The Python values an item holds. A float is carried as its decimal text
   * (`str(v)` when serialised, the argument of `float` when deserialised);
   * float arithmetic, parsing and formatting are not modelled.
   */
  datatype Py =
    | PyStr(s: string)
    | PyBool(b: bool)
    | PyInt(i: int)
    | PyFloat(text: string)
    | PyNone
    | PyList(items: seq<Py>)

  /** `type(v).__name__`. */
  function TypeName(v: Py): string
  {
    match v
    case PyStr(_) => "str"
    case PyBool(_) => "bool"
    case PyInt(_) => "int"
    case PyFloat(_) => "float"
    case PyNone => "NoneType"
    case PyList(_) => "list"
  }

  // ---------------------------------------------------------------------
  // Decimal text of integers, and `str.isdigit` / `int(text)` on it
  // ---------------------------------------------------------------------

  predicate IsDigit(c: char)
  {
    '0' <= c <= '9'
  }

  /** `t.isdigit()` for ASCII text: non-empty and digits only. */
  predicate IsDigits(t: string)
  {
    |t| > 0 && forall i :: 0 <= i < |t| ==> IsDigit(t[i])
  }

  function DigitChar(d: int): (c: char)
    requires 0 <= d < 10
    ensures IsDigit(c) && c as int - '0' as int == d
  {
    ('0' as int + d) as char
  }

  /** `str(n)` for a natural number: decimal, no leading zeros. */
  function NatToString(n: nat): (t: string)
    decreases n
  {
    if n < 10 then [DigitChar(n)] else NatToString(n / 10) + [DigitChar(n % 10)]
  }

  /** `str(i)`: a minus sign before the digits of a negative number. */
  function IntToString(i: int): string
  {
    if i < 0 then "-" + NatToString(-i) else NatToString(i)
  }

  /**
   * `sys.get_int_max_str_digits()` at its default from Python 3.11 on:
   * `str(i)` and `int(t)` raise ValueError beyond this many decimal digits.
   */
  const MaxStrDigits: nat := 4300

  /** The number of decimal digits of `i`, its sign not counted. */
  function DigitCount(i: int): nat
  {
    if i < 0 then |NatToString(-i)| else |NatToString(i)|
  }

  /** The ValueError `str(i)` raises for an int of more than `limit` digits. */
  function ToStrLimitMessage(limit: nat): string
  {
    "Exceeds the limit (" + NatToString(limit) + " digits) for integer string conversion; " +
    "use sys.set_int_max_str_digits() to increase the limit"
  }

  /** The ValueError `int(t)` raises for a digit text of `digits` characters, more than `limit`. */
  function ToIntLimitMessage(limit: nat, digits: nat): string
  {
    "Exceeds the limit (" + NatToString(limit) + " digits) for integer string conversion: value has " +
    NatToString(digits) + " digits; use sys.set_int_max_str_digits() to increase the limit"
  }

  /** `int(t)` for a string of ASCII digits. */
  function ParseDigits(t: string): (n: nat)
    requires forall i :: 0 <= i < |t| ==> IsDigit(t[i])
  {
    if |t| == 0 then 0
    else
      assert forall i :: 0 <= i < |t| - 1 ==> t[..|t| - 1][i] == t[i];
      assert IsDigit(t[|t| - 1]);
      ParseDigits(t[..|t| - 1]) * 10 + (t[|t| - 1] as int - '0' as int)
  }

  /** `int(str(n)) == n`, and `str(n).isdigit()` holds, for every natural number. */
  lemma {:induction false} ParseNatToString(n: nat)
    ensures IsDigits(NatToString(n))
    ensures ParseDigits(NatToString(n)) == n
    decreases n
  {
    if n >= 10 {
      ParseNatToString(n / 10);
      var s := NatToString(n / 10);
      var t := s + [DigitChar(n % 10)];
      assert t[..|t| - 1] == s;
    }
  }

  // ---------------------------------------------------------------------
  // _serialize
  // ---------------------------------------------------------------------

  /**
   * One branch of `_serialize` for attribute `k`: str to S, bool to BOOL
   * (tested before int, of which bool is a subclass in Python), int and float
   * to N with the decimal text, None to NULL True; any other type raises
   * ValueError, and so does `str(v)` for an int of more than MaxStrDigits
   * digits.
   */
  function SerializeValue(k: string, v: Py): (r: Result<Dict<Py>, Error>)
    ensures r.Err? <==> v.PyList? || (v.PyInt? && DigitCount(v.i) > MaxStrDigits)
    ensures v.PyList? ==> r == Err(ValueError("Unsupported type for " + k + ": <class 'list'>"))
    ensures v.PyInt? && DigitCount(v.i) > MaxStrDigits ==> r == Err(ValueError(ToStrLimitMessage(MaxStrDigits)))
    ensures r.Ok? ==> |r.value| == 1 && r.value[0].0 in {"S", "BOOL", "N", "NULL"}
    ensures v.PyStr? ==> r == Ok([("S", v)])
    ensures v.PyBool? ==> r == Ok([("BOOL", v)])
    ensures v.PyInt? && DigitCount(v.i) <= MaxStrDigits ==> r == Ok([("N", PyStr(IntToString(v.i)))])
    ensures v.PyFloat? ==> r == Ok([("N", PyStr(v.text))])
    ensures v.PyNone? ==> r == Ok([("NULL", PyBool(true))])
  {
    match v
    case PyStr(s) => Ok([("S", PyStr(s))])
    case PyBool(b) => Ok([("BOOL", PyBool(b))])
    case PyInt(i) =>
      if DigitCount(i) > MaxStrDigits then Err(ValueError(ToStrLimitMessage(MaxStrDigits)))
      else Ok([("N", PyStr(IntToString(i)))])
    case PyFloat(t) => Ok([("N", PyStr(t))])
    case PyNone => Ok([("NULL", PyBool(true))])
    case PyList(_) => Err(ValueError("Unsupported type for " + k + ": <class 'list'>"))
  }

  /** `_serialize(data)`, the loop filling `dynamodb_item`. */
  method Serialize(data: Dict<Py>) returns (r: Result<Dict<Dict<Py>>, Error>)
    ensures r == MapEntries(data, SerializeValue)
  {
    var dynamodbItem: Dict<Dict<Py>> := [];
    var i := 0;
    while i < |data|
      invariant 0 <= i <= |data|
      invariant MapEntries(data[..i], SerializeValue) == Ok(dynamodbItem)
    {
      var (k, v) := data[i];
      assert data[..i + 1][..i] == data[..i];
      var attribute := SerializeValue(k, v);
      if attribute.Err? {
        MapEntriesErrSticks(data, SerializeValue, i + 1);
        return Err(attribute.error);
      }
      dynamodbItem := Set(dynamodbItem, k, attribute.value);
      i := i + 1;
    }
    assert data[..i] == data;
    r := Ok(dynamodbItem);
  }

  // ---------------------------------------------------------------------
  // _deserialize
  // ---------------------------------------------------------------------

  /**
   * One branch of `_deserialize` for an attribute `v`: its first tag decides.
   * An attribute with no tag raises IndexError (`list(v.keys())[0]`); N gives
   * an int when its text is all digits and a float otherwise, raises
   * AttributeError when its payload is not a string, and raises ValueError
   * from `int` for a digit text longer than MaxStrDigits; NULL gives None; S,
   * BOOL and any unknown tag give the payload unchanged.
   */
  function DeserializeValue(v: Dict<Py>): (r: Result<Py, Error>)
    ensures r.Err? <==> v == [] || (v[0].0 == "N" && (!v[0].1.PyStr? ||
                                      (IsDigits(v[0].1.s) && |v[0].1.s| > MaxStrDigits)))
    ensures v != [] && v[0].0 == "N" && v[0].1.PyStr? && IsDigits(v[0].1.s) && |v[0].1.s| > MaxStrDigits ==>
              r == Err(ValueError(ToIntLimitMessage(MaxStrDigits, |v[0].1.s|)))
    ensures r.Ok? && v[0].0 != "N" && v[0].0 != "NULL" ==> r.value == v[0].1
    ensures r.Ok? && v[0].0 == "N" ==> (r.value.PyInt? <==> IsDigits(v[0].1.s))
    ensures r.Ok? && v[0].0 == "N" ==>
              r.value == if IsDigits(v[0].1.s) then PyInt(ParseDigits(v[0].1.s)) else PyFloat(v[0].1.s)
    ensures r.Ok? && v[0].0 == "NULL" ==> r.value == PyNone
  {
    if v == [] then Err(IndexError("list index out of range"))
    else
      var dtype := v[0].0;
      var value := v[0].1;
      if dtype == "S" then Ok(value)
      else if dtype == "N" then
        match value
        case PyStr(t) =>
          if !IsDigits(t) then Ok(PyFloat(t))
          else if |t| > MaxStrDigits then Err(ValueError(ToIntLimitMessage(MaxStrDigits, |t|)))
          else Ok(PyInt(ParseDigits(t)))
        case _ => Err(AttributeError("'" + TypeName(value) + "' object has no attribute 'isdigit'"))
      else if dtype == "BOOL" then Ok(value)
      else if dtype == "NULL" then Ok(PyNone)
      else Ok(value)
  }

  /** The per-entry conversion of `_deserialize`; the key plays no part. */
  function DeserializeEntry(k: string, v: Dict<Py>): Result<Py, Error>
  {
    DeserializeValue(v)
  }

  /**
   * `_deserialize(item)`: None for a missing or empty item, otherwise the
   * converted item, whose keys are the item's keys.
   */
  function DeserializeItem(item: Option<Dict<Dict<Py>>>): (r: Result<Option<Dict<Py>>, Error>)
    ensures (item.None? || item.value == []) <==> r == Ok(None)
    ensures r.Ok? && r.value.Some? ==> forall k :: k in Keys(r.value.value) <==> k in Keys(item.value)
  {
    if item.None? || item.value == [] then Ok(None)
    else
      match MapEntries(item.value, DeserializeEntry)
      case Ok(out) =>
        assert out != [] by { assert item.value[0].0 in Keys(item.value); }
        Ok(Some(out))
      case Err(e) => Err(e)
  }

  /** `_deserialize(item)`, the loop filling `python_item`. */
  method Deserialize(item: Option<Dict<Dict<Py>>>) returns (r: Result<Option<Dict<Py>>, Error>)
    ensures r == DeserializeItem(item)
  {
    if item.None? || item.value == [] {
      return Ok(None);
    }
    var entries := item.value;
    var pythonItem: Dict<Py> := [];
    var i := 0;
    while i < |entries|
      invariant 0 <= i <= |entries|
      invariant MapEntries(entries[..i], DeserializeEntry) == Ok(pythonItem)
    {
      var (k, v) := entries[i];
      assert entries[..i + 1][..i] == entries[..i];
      var value := DeserializeValue(v);
      if value.Err? {
        MapEntriesErrSticks(entries, DeserializeEntry, i + 1);
        return Err(value.error);
      }
      pythonItem := Set(pythonItem, k, value.value);
      i := i + 1;
    }
    assert entries[..i] == entries;
    r := Ok(Some(pythonItem));
  }

  // ---------------------------------------------------------------------
  // Round trips and where they fail
  // ---------------------------------------------------------------------

  /**
   * The values that come back as themselves: an int only if it is
   * non-negative and within MaxStrDigits digits, a float only if its text is
   * not all digits.
   */
  predicate RoundTrips(v: Py)
  {
    match v
    case PyStr(_) => true
    case PyBool(_) => true
    case PyNone => true
    case PyInt(i) => i >= 0 && DigitCount(i) <= MaxStrDigits
    case PyFloat(t) => !IsDigits(t)
    case PyList(_) => false
  }

  /** A single value that round-trips is deserialised back to itself. */
  lemma RoundTripValue(k: string, v: Py)
    requires RoundTrips(v)
    ensures SerializeValue(k, v).Ok?
    ensures DeserializeValue(SerializeValue(k, v).value) == Ok(v)
  {
    if v.PyInt? {
      ParseNatToString(v.i);
    }
  }

  /** RoundTripValue for every entry of `data`. */
  lemma RoundTripValues(data: Dict<Py>)
    requires forall i :: 0 <= i < |data| ==> RoundTrips(data[i].1)
    ensures forall i :: 0 <= i < |data| ==>
              SerializeValue(data[i].0, data[i].1).Ok? &&
              DeserializeValue(SerializeValue(data[i].0, data[i].1).value) == Ok(data[i].1)
  {
    forall i | 0 <= i < |data|
      ensures SerializeValue(data[i].0, data[i].1).Ok? &&
              DeserializeValue(SerializeValue(data[i].0, data[i].1).value) == Ok(data[i].1)
    {
      RoundTripValue(data[i].0, data[i].1);
    }
  }

  /**
   * Serialising an item of round-tripping values with distinct keys succeeds
   * and gives, entry by entry and with the same distinct keys, each value's
   * attribute.
   */
  lemma SerializeRoundTripping(data: Dict<Py>)
    requires DistinctKeys(data)
    requires forall i :: 0 <= i < |data| ==> RoundTrips(data[i].1)
    ensures MapEntries(data, SerializeValue).Ok?
    ensures var item := MapEntries(data, SerializeValue).value;
            |item| == |data| && DistinctKeys(item) &&
            forall i :: 0 <= i < |data| ==>
              item[i].0 == data[i].0 && DeserializeValue(item[i].1) == Ok(data[i].1)
  {
    RoundTripValues(data);
    MapEntriesOk(data, SerializeValue);
    MapEntriesPointwise(data, SerializeValue);
    var item := MapEntries(data, SerializeValue).value;
    assert DistinctKeys(item) by {
      forall i, j | 0 <= i < j < |item| ensures item[i].0 != item[j].0 {
        assert item[i].0 == data[i].0 && item[j].0 == data[j].0;
      }
    }
  }

  /**
   * Deserialising a serialised non-empty item of round-tripping values with
   * distinct keys gives the item back, entries in the same order.
   */
  lemma RoundTrip(data: Dict<Py>)
    requires data != [] && DistinctKeys(data)
    requires forall i :: 0 <= i < |data| ==> RoundTrips(data[i].1)
    ensures MapEntries(data, SerializeValue).Ok?
    ensures DeserializeItem(Some(MapEntries(data, SerializeValue).value)) == Ok(Some(data))
  {
    SerializeRoundTripping(data);
    var item := MapEntries(data, SerializeValue).value;
    assert forall i :: 0 <= i < |item| ==> DeserializeEntry(item[i].0, item[i].1) == Ok(data[i].1);
    MapEntriesOk(item, DeserializeEntry);
    MapEntriesPointwise(item, DeserializeEntry);
    var back := MapEntries(item, DeserializeEntry).value;
    assert back == data by {
      forall i | 0 <= i < |data| ensures back[i] == data[i] {
        assert back[i] == (item[i].0, DeserializeEntry(item[i].0, item[i].1).value);
      }
    }
  }

  /** An empty item does not round-trip: it serialises to an empty item, which deserialises to None. */
  lemma EmptyItemBecomesNone()
    ensures MapEntries([], SerializeValue) == Ok([])
    ensures DeserializeItem(Some([])) == Ok(None)
  {
  }

  /** A negative int comes back as a float: its text starts with '-', so it is not all digits. */
  lemma NegativeIntBecomesFloat(k: string, i: int)
    requires i < 0 && DigitCount(i) <= MaxStrDigits
    ensures SerializeValue(k, PyInt(i)) == Ok([("N", PyStr(IntToString(i)))])
    ensures DeserializeValue(SerializeValue(k, PyInt(i)).value) == Ok(PyFloat(IntToString(i)))
  {
    assert IntToString(i)[0] == '-';
  }

  /** An attribute under a tag the codec does not know yields its payload unchanged. */
  lemma UnknownTagPassesThrough(tag: string, payload: Py, rest: Dict<Py>)
    requires tag !in {"S", "N", "BOOL", "NULL"}
    ensures DeserializeValue([(tag, payload)] + rest) == Ok(payload)
  {
  }

  /**
   * The item `DynamoDBUserRepository.create_user` builds: the user's
   * `model_dump()` in field order, then `pk` and `sk`.
   */
  function UserItem(u: User): (d: Dict<Py>)
    ensures |d| == 9 && d[6] == ("apps", PyList(seq(|u.apps|, i requires 0 <= i < |u.apps| => PyStr(u.apps[i]))))
    ensures forall i :: 0 <= i < 6 ==> d[i].1.PyStr? || d[i].1.PyNone?
  {
    [("id", PyStr(u.id)),
     ("name", if u.name.Some? then PyStr(u.name.value) else PyNone),
     ("email", PyStr(u.email)),
     ("password_hash", PyStr(u.passwordHash)),
     ("created_at", PyStr(u.createdAt)),
     ("updated_at", PyStr(u.updatedAt)),
     ("apps", PyList(seq(|u.apps|, i requires 0 <= i < |u.apps| => PyStr(u.apps[i])))),
     ("pk", PyStr("USER#" + u.id)),
     ("sk", PyStr("PROFILE"))]
  }

  /** Serialising a dumped user always fails at `apps`, a list, even when it is empty. */
  lemma UserItemRejected(u: User)
    ensures MapEntries(UserItem(u), SerializeValue) == Err(ValueError("Unsupported type for apps: <class 'list'>"))
  {
    MapEntriesFirstError(UserItem(u), SerializeValue, 6);
    assert "Unsupported type for " + "apps" + ": <class 'list'>" == "Unsupported type for apps: <class 'list'>";
  }
}
