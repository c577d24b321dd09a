/**
 * Parsed JSON values as the source handles them after `response.json()`,
 * with the Python operations the core applies to them: truthiness,
 * `dict.get`, `isinstance` and `int(...)`.
 */
module Json {
  import opened Wrappers
  import opened Text
  import Seqs
  import opened Dicts

  /** A decoded JSON document: `None`, `bool`, `int`, `float`, `str`, `list`, `dict`. */
  datatype Json =
    | JNull
    | JBool(b: bool)
    | JInt(i: int)
    | JFloat(r: real)
    | JStr(s: string)
    | JList(items: seq<Json>)
    | JObj(fields: seq<(string, Json)>)  // in document order

  /** Python truthiness of a decoded value. */
  predicate Truthy(j: Json)
  {
    match j
    case JNull => false
    case JBool(b) => b
    case JInt(i) => i != 0
    case JFloat(r) => r != 0.0
    case JStr(s) => s != []
    case JList(items) => items != []
    case JObj(fields) => fields != []
  }

  /** `d.get(key, default)`: a repeated key keeps its last value, as `json.loads` does. */
  function GetOr(fields: seq<(string, Json)>, key: string, default: Json): (r: Json)
    ensures !HasKey(fields, key) ==> r == default
    ensures HasKey(fields, key) ==> exists k :: 0 <= k < |fields| && fields[k] == (key, r)
  {
    if fields == [] then default
    else if fields[|fields| - 1].0 == key then fields[|fields| - 1].1
    else
      var r := GetOr(fields[..|fields| - 1], key, default);
      assert HasKey(fields, key) ==> HasKey(fields[..|fields| - 1], key) by {
        if HasKey(fields, key) {
          var k :| 0 <= k < |fields| && fields[k].0 == key;
          assert fields[..|fields| - 1][k].0 == key;
        }
      }
      r
  }

  /** Of several entries under one key, `get` sees the last. */
  lemma {:induction false} GetOrLastWins(fields: seq<(string, Json)>, key: string, default: Json, k: nat)
    requires k < |fields| && fields[k].0 == key
    requires forall j :: k < j < |fields| ==> fields[j].0 != key
    ensures GetOr(fields, key, default) == fields[k].1
  {
    if k < |fields| - 1 {
      var init := fields[..|fields| - 1];
      GetOrLastWins(init, key, default, k);
    }
  }

  /** `d.get(key)` */
  function Get(fields: seq<(string, Json)>, key: string): Json
  {
    GetOr(fields, key, JNull)
  }

  /** The distinct keys of a dict in insertion order: what iterating over it yields. */
  function Keys(fields: seq<(string, Json)>): (r: seq<string>)
    ensures |r| <= |fields|
    ensures (r == []) == (fields == [])
  {
    var ks := seq(|fields|, k requires 0 <= k < |fields| => fields[k].0);
    var r := Seqs.Distinct(ks);
    Seqs.DistinctElements(ks);
    assert fields != [] ==> ks[0] in r;
    r
  }

  /** `a or b` on decoded values. */
  function Or(a: Json, b: Json): (r: Json)
    ensures Truthy(a) ==> r == a
    ensures !Truthy(a) ==> r == b
  {
    if Truthy(a) then a else b
  }

  /** `isinstance(v, int)`: Python's `bool` is a subclass of `int`. */
  predicate IsInt(j: Json)
  {
    j.JInt? || j.JBool?
  }

  /** The integer value of an `int` (`True` is 1, `False` is 0). */
  function IntValue(j: Json): int
    requires IsInt(j)
  {
    match j
    case JInt(i) => i
    case JBool(b) => if b then 1 else 0
  }

  /**
   * What `for x in v` iterates over: a list's items, a dict's keys, a
   * string's characters; other values raise `TypeError`.
   */
  function Iterate(j: Json): (r: Result<seq<Json>, string>)
    ensures j.JList? ==> r == Success(j.items)
    ensures (j.JNull? || j.JBool? || j.JInt? || j.JFloat?) <==> r.Failure?
    ensures r.Success? && !j.JList? ==> forall k :: 0 <= k < |r.value| ==> r.value[k].JStr?
    ensures r.Success? ==> (r.value == [] <==> !Truthy(j))
  {
    match j
    case JList(items) => Success(items)
    case JStr(s) => Success(seq(|s|, k requires 0 <= k < |s| => JStr([s[k]])))
    case JObj(fields) =>
      var ks := Keys(fields);
      Success(seq(|ks|, k requires 0 <= k < |ks| => JStr(ks[k])))
    case _ => Failure("TypeError: object is not iterable")
  }

  // ---------------------------------------------------------------------
  // int(...)
  // ---------------------------------------------------------------------

  predicate IsDigit(c: char) { '0' <= c <= '9' }

  /** The value of a run of decimal digits. */
  function DigitsValue(s: string): (n: nat)
    requires forall k :: 0 <= k < |s| ==> IsDigit(s[k])
  {
    if s == [] then 0
    else
      assert IsDigit(s[|s| - 1]);
      DigitsValue(s[..|s| - 1]) * 10 + (s[|s| - 1] as int - '0' as int)
  }

  /** Digits with single underscores between them, as `int()` accepts; the underscores dropped. */
  function DigitGroups(s: string): (r: Option<string>)
    ensures r.Some? ==> r.value != [] && forall k :: 0 <= k < |r.value| ==> IsDigit(r.value[k])
  {
    if s == [] then None
    else if |s| == 1 then (if IsDigit(s[0]) then Some(s) else None)
    else if !IsDigit(s[0]) then None
    else if s[1] == '_' then
      (var rest := DigitGroups(s[2..]); if rest.Some? then Some([s[0]] + rest.value) else None)
    else
      (var rest := DigitGroups(s[1..]); if rest.Some? then Some([s[0]] + rest.value) else None)
  }

  /** `int(s)` for a string: optional surrounding whitespace, an optional sign, decimal digits. */
  function ParseInt(s: string): (r: Result<int, string>)
    ensures r.Success? ==> Strip(s, Whitespace) != []
  {
    ParseSigned(Strip(s, Whitespace))
  }

  /** What `int()` accepts once the whitespace is gone: an optional sign, then digit groups. */
  function ParseSigned(t: string): (r: Result<int, string>)
    ensures r.Success? ==> t != []
  {
    if t == [] then Failure("ValueError: invalid literal for int()")
    else
      var neg := t[0] == '-';
      var body := if t[0] == '-' || t[0] == '+' then t[1..] else t;
      var digits := DigitGroups(body);
      if digits.None? then Failure("ValueError: invalid literal for int()")
      else
        var n: int := DigitsValue(digits.value);
        Success(if neg then -n else n)
  }

  /** `int(r)` for a float: truncation toward zero. */
  function Truncate(r: real): (n: int)
    ensures r >= 0.0 ==> n as real <= r < n as real + 1.0
    ensures r < 0.0 ==> n as real - 1.0 < r <= n as real
  {
    if r >= 0.0 then r.Floor else -((-r).Floor)
  }

  /** `int(v)` applied to a decoded value. */
  function ToInt(j: Json): (r: Result<int, string>)
    ensures IsInt(j) ==> r == Success(IntValue(j))
    ensures (j.JNull? || j.JList? || j.JObj?) ==> r.Failure?
  {
    match j
    case JInt(i) => Success(i)
    case JBool(b) => Success(if b then 1 else 0)
    case JFloat(x) => Success(Truncate(x))
    case JStr(s) => ParseInt(s)
    case _ => Failure("TypeError: int() argument must be a string or a number")
  }

  lemma DigitCharValue(d: nat)
    requires d < 10
    ensures IsDigit(DigitChar(d)) && DigitChar(d) as int - '0' as int == d
  {
    if d == 0 {} else if d == 1 {} else if d == 2 {} else if d == 3 {} else if d == 4 {}
    else if d == 5 {} else if d == 6 {} else if d == 7 {} else if d == 8 {} else {}
  }

  /** The digits of `str(n)` read back as `n`. */
  lemma {:induction false} DigitsValueOfNat(n: nat)
    ensures DigitsValue(NatToString(n)) == n
  {
    var s := NatToString(n);
    if n < 10 {
      DigitCharValue(n);
      assert s[..|s| - 1] == [];
    } else {
      var p := NatToString(n / 10);
      DigitsValueOfNat(n / 10);
      DigitCharValue(n % 10);
      assert s == p + [DigitChar(n % 10)];
      assert s[..|s| - 1] == p;
    }
  }

  /** A plain run of digits is one digit group. */
  lemma {:induction false} DigitGroupsOfDigits(s: string)
    requires s != [] && forall k :: 0 <= k < |s| ==> IsDigit(s[k])
    ensures DigitGroups(s) == Some(s)
  {
    if |s| > 1 {
      assert IsDigit(s[1]);
      DigitGroupsOfDigits(s[1..]);
      assert [s[0]] + s[1..] == s;
    }
  }

  /** Accepted digit groups begin and end with a digit. */
  lemma {:induction false} DigitGroupsEnds(s: string)
    requires DigitGroups(s).Some?
    ensures s != [] && IsDigit(s[0]) && IsDigit(s[|s| - 1])
  {
    if |s| > 1 {
      if s[1] == '_' {
        DigitGroupsEnds(s[2..]);
      } else {
        DigitGroupsEnds(s[1..]);
      }
    }
  }

  lemma ParseIntUnpadded(t: string)
    requires t != [] && !IsSpace(t[0]) && !IsSpace(t[|t| - 1])
    ensures ParseInt(t) == ParseSigned(t)
  {
    StripUntouched(t, Whitespace);
  }

  lemma ParseSignedGroups(c: char, body: string)
    requires c == '-' || c == '+'
    requires DigitGroups(body).Some?
    ensures var v: int := DigitsValue(DigitGroups(body).value);
      ParseSigned([c] + body) == Success(if c == '-' then -v else v)
  {
    var t := [c] + body;
    assert t[0] == c && t[1..] == body;
  }

  lemma ParseUnsignedGroups(t: string)
    requires t != [] && IsDigit(t[0]) && DigitGroups(t).Some?
    ensures ParseSigned(t) == Success(DigitsValue(DigitGroups(t).value))
  {
  }

  /** Digit groups with no sign read as their value. */
  lemma ParseIntOfDigitGroups(body: string)
    requires DigitGroups(body).Some?
    ensures ParseInt(body) == Success(DigitsValue(DigitGroups(body).value))
  {
    DigitGroupsEnds(body);
    ParseUnsignedGroups(body);
    ParseIntUnpadded(body);
  }

  /** A sign followed by digit groups reads as their value, negated after '-'. */
  lemma ParseIntOfSignedGroups(sign: char, body: string)
    requires sign == '-' || sign == '+'
    requires DigitGroups(body).Some?
    ensures var v: int := DigitsValue(DigitGroups(body).value);
      ParseInt([sign] + body) == Success(if sign == '-' then -v else v)
  {
    DigitGroupsEnds(body);
    var t := [sign] + body;
    assert t[|t| - 1] == body[|body| - 1];
    ParseSignedGroups(sign, body);
    ParseIntUnpadded(t);
  }

  lemma ParseSignedNegated(body: string)
    requires DigitGroups(body).Some?
    ensures ParseSigned(['-'] + body) == Success(-(DigitsValue(DigitGroups(body).value) as int))
  {
    var t := ['-'] + body;
    assert t[0] == '-' && t[1..] == body;
  }

  lemma ParseSignedOfIntToString(n: int)
    ensures ParseSigned(IntToString(n)) == Success(n)
  {
    var m: nat := if n < 0 then -n else n;
    var digits := NatToString(m);
    DigitsValueOfNat(m);
    DigitGroupsOfDigits(digits);
    if n < 0 {
      ParseSignedNegated(digits);
      assert IntToString(n) == ['-'] + digits;
    } else {
      ParseUnsignedGroups(digits);
    }
  }

  /** `int(str(n)) == n` for every integer. */
  lemma ParseIntOfIntToString(n: int)
    ensures ParseInt(IntToString(n)) == Success(n)
  {
    var s := IntToString(n);
    ParseSignedOfIntToString(n);
    assert IsDigit(s[|s| - 1]) by {
      var digits := NatToString(if n < 0 then -n else n);
      assert s[|s| - 1] == digits[|digits| - 1];
    }
    ParseIntUnpadded(s);
  }

  lemma ParseIntRejects()
    ensures ParseInt("4__2").Failure?
    ensures ParseInt(" ").Failure?
  {
    assert Strip("4__2", Whitespace) == "4__2";
    assert DigitGroups("4__2") == None by {
      assert "4__2"[2..] == "_2";
    }
    assert TrimLeft(" ", Whitespace) == [] by {
      assert " "[1..] == [];
    }
  }
}
