/** JSON values as the transformer builds them (the JsonLogic rule tree), and
    the parts of JavaScript's value semantics that the transformer relies on:
    truthiness, property reads, and conversion to a string. */
module Json {
  import opened Results

  /** A JSON value. Numbers are integers. The entries of an object are kept in
      the order in which their keys were first assigned. */
  datatype Json =
    | JNull
    | JBool(b: bool)
    | JNum(n: int)
    | JStr(s: string)
    | JArr(items: seq<Json>)
    | JObj(entries: seq<(string, Json)>)

  /** `{var: path}`: a reference to the data at `path`. */
  function Var(path: string): Json {
    JObj([("var", JStr(path))])
  }

  /** `{name: args}`: the operator-application form of a rule. */
  function Op(name: string, args: seq<Json>): Json {
    JObj([(name, JArr(args))])
  }

  /** Values that JavaScript's `===` compares by value rather than by identity. */
  predicate IsPrimitive(j: Json) {
    !j.JArr? && !j.JObj?
  }

  /** JavaScript truthiness, as `Boolean(j)` decides it. */
  predicate Truthy(j: Json) {
    match j
    case JNull => false
    case JBool(b) => b
    case JNum(n) => n != 0
    case JStr(s) => s != ""
    case JArr(_) => true
    case JObj(_) => true
  }

  /** The falsy rules are exactly `null`, `false`, `0` and `""`; every array
      and every object is truthy, even an empty one. */
  lemma FalsyValues(j: Json)
    ensures !Truthy(j) <==> j == JNull || j == JBool(false) || j == JNum(0) || j == JStr("")
  {
  }

  /** Reading `o[key]` of an object whose entries are `entries`. */
  function Get(entries: seq<(string, Json)>, key: string): (r: Option<Json>)
    ensures r.Some? <==> exists i :: 0 <= i < |entries| && entries[i].0 == key
    ensures r.Some? ==> exists i :: 0 <= i < |entries| && entries[i] == (key, r.value)
  {
    if |entries| == 0 then None
    else if entries[0].0 == key then Some(entries[0].1)
    else
      var r := Get(entries[1..], key);
      assert forall i :: 0 < i < |entries| ==> entries[i] == entries[1..][i - 1];
      r
  }

  /** Reading `j.var`: `null` throws; an object yields its `var` entry, if any;
      any other value has no `var` property (None stands for `undefined`). */
  function ReadVar(j: Json): (r: Outcome<Option<Json>>)
    ensures r.Threw? <==> j.JNull?
    ensures r.Done? && r.value.Some? ==> j.JObj?
  {
    match j
    case JNull => Threw
    case JObj(entries) => Done(Get(entries, "var"))
    case _ => Done(None)
  }

  function DigitChar(d: nat): char
    requires d < 10
  {
    ('0' as int + d) as char
  }

  /** The decimal digits of `n`, without leading zeros. */
  function Digits(n: nat): (s: string)
    ensures |s| >= 1 && forall i :: 0 <= i < |s| ==> '0' <= s[i] <= '9'
    ensures |s| > 1 ==> s[0] != '0'
  {
    if n < 10 then [DigitChar(n)] else Digits(n / 10) + [DigitChar(n % 10)]
  }

  /** The number a string of decimal digits denotes. */
  function DigitsValue(s: string): int
    requires forall i :: 0 <= i < |s| ==> '0' <= s[i] <= '9'
  {
    if |s| == 0 then 0 else 10 * DigitsValue(s[..|s| - 1]) + (s[|s| - 1] - '0') as int
  }

  /** `String(n)` for an integer-valued number. */
  function NumToString(n: int): string {
    if n < 0 then "-" + Digits(-n) else Digits(n)
  }

  /** `String(j)`, as a template string or a computed property key converts a
      value. An object converts through its `toString` method. An object with
      an own `toString` property (in a rule never a function) falls back to
      `valueOf`, which returns the object itself, so the conversion throws a
      TypeError. An array converts by joining its elements. */
  function ToJsString(j: Json): Outcome<string>
    decreases j, 1
  {
    match j
    case JNull => Done("null")
    case JBool(b) => Done(if b then "true" else "false")
    case JNum(n) => Done(NumToString(n))
    case JStr(s) => Done(s)
    case JArr(items) => JoinElements(items)
    case JObj(entries) => if Get(entries, "toString").Some? then Threw else Done("[object Object]")
  }

  /** `items.join(",")`: `null` elements contribute the empty string. */
  function JoinElements(items: seq<Json>): Outcome<string>
    decreases items, 0
  {
    if |items| == 0 then Done("")
    else
      var init := items[..|items| - 1];
      var last := items[|items| - 1];
      var piece :- if last.JNull? then Done("") else ToJsString(last);
      if |init| == 0 then Done(piece)
      else
        var front :- JoinElements(init);
        Done(front + "," + piece)
  }

  /** The values `String` converts without throwing: everything except an
      object with an own `toString` property, wherever one occurs among the
      elements of an array. */
  predicate Convertible(j: Json) {
    match j
    case JArr(items) => forall i :: 0 <= i < |items| ==> Convertible(items[i])
    case JObj(entries) => Get(entries, "toString").None?
    case _ => true
  }

  /** Conversion throws exactly on the values that are not convertible. */
  lemma {:induction false} ToJsStringThrows(j: Json)
    ensures ToJsString(j).Threw? <==> !Convertible(j)
    decreases j, 1
  {
    if j.JArr? {
      JoinElementsThrows(j.items);
    }
  }

  lemma {:induction false} JoinElementsThrows(items: seq<Json>)
    ensures JoinElements(items).Threw? <==> exists i :: 0 <= i < |items| && !Convertible(items[i])
    decreases items, 0
  {
    if |items| > 0 {
      var n := |items| - 1;
      var init := items[..n];
      ToJsStringThrows(items[n]);
      if n > 0 {
        JoinElementsThrows(init);
      }
      assert forall i :: 0 <= i < n ==> init[i] == items[i];
    }
  }

  lemma {:induction false} DigitsRoundTrip(n: nat)
    ensures DigitsValue(Digits(n)) == n
  {
    if n >= 10 {
      var s := Digits(n);
      assert s[..|s| - 1] == Digits(n / 10);
      assert (s[|s| - 1] - '0') as int == n % 10;
      DigitsRoundTrip(n / 10);
      assert DigitsValue(s) == 10 * (n / 10) + n % 10;
    } else {
      assert Digits(n)[..0] == [];
    }
  }

  lemma DigitsInjective(a: nat, b: nat)
    requires Digits(a) == Digits(b)
    ensures a == b
  {
    DigitsRoundTrip(a);
    DigitsRoundTrip(b);
  }

  /** Distinct integers are rendered as distinct strings. */
  lemma NumToStringInjective(a: int, b: int)
    requires NumToString(a) == NumToString(b)
    ensures a == b
  {
    var s := NumToString(a);
    if a < 0 {
      assert s[0] == '-';
      assert b < 0;
      assert Digits(-a) == s[1..] == Digits(-b);
      DigitsInjective(-a, -b);
    } else {
      assert s[0] != '-';
      assert b >= 0;
      DigitsInjective(a, b);
    }
  }

  /** The keys `Object.entries` gives the elements of an array or the
      characters of a string: "0" first, pairwise distinct, and never "var". */
  lemma IndexKeys(n: nat)
    ensures NumToString(0) == "0"
    ensures forall i, j :: 0 <= i < j < n ==> NumToString(i) != NumToString(j)
    ensures forall i :: 0 <= i < n ==> NumToString(i) != "var"
  {
    forall i, j | 0 <= i < j < n
      ensures NumToString(i) != NumToString(j)
    {
      if NumToString(i) == NumToString(j) {
        NumToStringInjective(i, j);
      }
    }
    forall i | 0 <= i < n
      ensures NumToString(i) != "var"
    {
      assert NumToString(i) == Digits(i);
      assert "var"[0] == 'v';
    }
  }
}
