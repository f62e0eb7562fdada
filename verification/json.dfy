/**
 * The JSON values the order service returns and the persisted document
 * holds. `Option` stands for a property that may be absent (`undefined`).
 */
module Json {

  datatype Option<+T> = None | Some(value: T)

  /** A JSON value. Numbers are modelled as integers (see README). */
  datatype Json =
    | Null
    | Bool(b: bool)
    | Num(n: int)
    | Str(s: string)
    | Arr(elems: seq<Json>)
    | Obj(fields: map<string, Json>)

  /** Property lookup on a plain object: `undefined` when the key is absent. */
  function Get(m: map<string, Json>, key: string): (r: Option<Json>)
    ensures r.None? <==> key !in m
    ensures r.Some? ==> r.value == m[key]
  {
    if key in m then Some(m[key]) else None
  }

  predicate IsDigits(s: string)
  {
    forall i | 0 <= i < |s| :: '0' <= s[i] <= '9'
  }

  /** The number a string of decimal digits denotes, most significant digit first. */
  function Value(s: string): (r: nat)
    requires IsDigits(s)
    decreases |s|
  {
    if s == [] then 0 else 10 * Value(s[..|s| - 1]) + (s[|s| - 1] as int - 48)
  }

  /** The decimal digits of a natural number, without leading zeros. */
  function Digits(n: nat): (r: string)
    ensures r != [] && IsDigits(r)
    ensures n > 0 ==> r[0] != '0'
    ensures n == 0 ==> r == "0"
    decreases n
  {
    if n < 10 then [(48 + n) as char] else Digits(n / 10) + [(48 + n % 10) as char]
  }

  /** The digits of a number spell that number. */
  lemma {:induction false} DigitsValue(n: nat)
    ensures Value(Digits(n)) == n
    decreases n
  {
    if n >= 10 {
      var d := Digits(n / 10);
      DigitsValue(n / 10);
      assert (d + [(48 + n % 10) as char])[..|d|] == d;
    }
  }

  /**
   * How a template literal writes a property value: `${v}`. An absent
   * property is written "undefined"; a string is written as itself.
   */
  function Text(v: Option<Json>): (r: string)
    ensures v.None? ==> r == "undefined"
    ensures v.Some? && v.value.Str? ==> r == v.value.s
  {
    match v
    case None => "undefined"
    case Some(j) => JsonText(j)
  }

  /**
   * `String(j)` for a JSON value: a string is written as itself, a number as
   * the decimal digits of its magnitude after a `-` exactly when it is
   * negative.
   */
  function JsonText(j: Json): (r: string)
    ensures j.Str? ==> r == j.s
    ensures j.Num? ==> r != [] && (r[0] == '-' <==> j.n < 0)
    ensures j.Num? ==>
      var d := if j.n < 0 then r[1..] else r;
      && d != [] && IsDigits(d) && Value(d) == (if j.n < 0 then -j.n else j.n)
      && (d[0] != '0' || d == "0")
    decreases j, 1, 0
  {
    match j
    case Null => "null"
    case Bool(b) => if b then "true" else "false"
    case Num(n) =>
      DigitsValue(if n < 0 then -n else n);
      if n < 0 then "-" + Digits(-n) else Digits(n)
    case Str(s) => s
    case Arr(_) => JoinText(j, 0)
    case Obj(_) => "[object Object]"
  }

  /**
   * `Array.prototype.join(",")` from index i on, as `String` applies it to an
   * array: a `null` element is written as nothing.
   */
  function JoinText(j: Json, i: nat): (r: string)
    requires j.Arr? && i <= |j.elems|
    ensures i == |j.elems| ==> r == ""
    ensures i < |j.elems| && !j.elems[i].Null? ==> JsonText(j.elems[i]) <= r
    ensures i + 1 == |j.elems| ==> r == (if j.elems[i].Null? then "" else JsonText(j.elems[i]))
    ensures i + 1 < |j.elems| ==> ',' in r
    decreases j, 0, |j.elems| - i
  {
    if i == |j.elems| then ""
    else
      var e := j.elems[i];
      assert e in j.elems;
      var t := if e.Null? then "" else JsonText(e);
      if i + 1 == |j.elems| then t else t + "," + JoinText(j, i + 1)
  }
}
