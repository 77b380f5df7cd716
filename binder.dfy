/** The rewrite applied to the body of a one-parameter arrow function:
    `replaceVariable(name)(rule)` looks at the first entry of the rule only. A
    `{var: name}` reference becomes `{var: ""}`, the "current value" of the
    enclosing JsonLogic operator; an entry whose value is an array has the
    rewrite mapped over that array; anything else is returned as it is. */
module Binder {
  import opened Results
  import opened Json

  /** `value === name`, where `name` is what `params[0].var` read (None for
      `undefined`). Arrays and objects compare by identity, and a rule never
      shares an object with the parameter's rule, so they never compare equal. */
  predicate StrictEquals(value: Json, name: Option<Json>) {
    name.Some? && IsPrimitive(value) && value == name.value
  }

  /** An array or an object never equals the parameter's name, `undefined`
      equals nothing, and any other value equals the name exactly when it is
      that very value. */
  lemma StrictEqualsMeaning(value: Json, name: Option<Json>)
    ensures value.JArr? || value.JObj? ==> !StrictEquals(value, name)
    ensures name.None? ==> !StrictEquals(value, name)
    ensures IsPrimitive(value) ==> (StrictEquals(value, name) <==> name == Some(value))
  {
  }

  /** `Object.entries(rule)` for a value that is not `null`: an object's
      entries, an array's elements and a string's characters under their
      indices, and nothing for booleans and numbers. The index keys start at
      "0", never repeat and are never "var", which is what lets the rewrite
      tell an array or a string from a `{var: ...}` reference. */
  function Entries(rule: Json): (r: seq<(string, Json)>)
    requires !rule.JNull?
    ensures rule.JObj? ==> r == rule.entries
    ensures rule.JBool? || rule.JNum? ==> r == []
    ensures rule.JArr? ==> |r| == |rule.items| && forall i :: 0 <= i < |r| ==> r[i].1 == rule.items[i]
    ensures rule.JStr? ==> |r| == |rule.s| && forall i :: 0 <= i < |r| ==> r[i].1 == JStr([rule.s[i]])
    ensures rule.JArr? || rule.JStr? ==>
      && (|r| > 0 ==> r[0].0 == "0")
      && (forall i :: 0 <= i < |r| ==> r[i].0 != "var")
      && (forall i, j :: 0 <= i < j < |r| ==> r[i].0 != r[j].0)
  {
    match rule
    case JBool(_) => []
    case JNum(_) => []
    case JStr(s) =>
      IndexKeys(|s|);
      seq(|s|, i requires 0 <= i < |s| => (NumToString(i), JStr([s[i]])))
    case JArr(items) =>
      IndexKeys(|items|);
      seq(|items|, i requires 0 <= i < |items| => (NumToString(i), items[i]))
    case JObj(entries) => entries
  }

  /** `replaceVariable(name)(rule)`. The cases follow the first entry of
      `Entries(rule)`: the key of an array's first entry is "0" and never
      "var", and a string's first entry is a one-character string, so strings
      come back unchanged. `Object.entries(null)` throws. */
  function ReplaceVariable(name: Option<Json>, rule: Json): Outcome<Json>
    decreases rule, 1
  {
    match rule
    case JNull => Threw
    case JBool(_) => Done(rule)
    case JNum(_) => Done(rule)
    case JStr(_) => Done(rule)
    case JArr(items) =>
      if |items| == 0 then Done(rule)
      else if items[0].JArr? then
        var mapped :- ReplaceAll(name, items[0].items);
        Done(JObj([("0", JArr(mapped))]))
      else Done(rule)
    case JObj(entries) =>
      if |entries| == 0 then Done(rule)
      else
        var key := entries[0].0;
        var value := entries[0].1;
        if key == "var" then
          Done(if StrictEquals(value, name) then Var("") else JObj([(key, value)]))
        else if value.JArr? then
          var mapped :- ReplaceAll(name, value.items);
          Done(JObj([(key, JArr(mapped))]))
        else Done(rule)
  }

  /** `rules.map(replaceVariable(name))`: throws as soon as one element does. */
  function ReplaceAll(name: Option<Json>, rules: seq<Json>): (r: Outcome<seq<Json>>)
    ensures r.Done? ==> |r.value| == |rules|
    decreases rules, 0
  {
    if |rules| == 0 then Done([])
    else
      var init :- ReplaceAll(name, rules[..|rules| - 1]);
      var last :- ReplaceVariable(name, rules[|rules| - 1]);
      Done(init + [last])
  }

  /** The `for ... of Object.entries(rule)` loop of replaceVariable, which
      returns during its first iteration. */
  method ReplaceVariableLoop(name: Option<Json>, rule: Json) returns (r: Outcome<Json>)
    ensures r == ReplaceVariable(name, rule)
  {
    if rule.JNull? {
      return Threw;
    }
    var entries := Entries(rule);
    if |entries| == 0 {
      return Done(rule);
    }
    r := Done(rule);
    for i := 0 to |entries|
      invariant i == 0
    {
      var (key, value) := entries[i];
      if key == "var" {
        return Done(if StrictEquals(value, name) then Var("") else JObj([(key, value)]));
      }
      if value.JArr? {
        var mapped := ReplaceAll(name, value.items);
        if mapped.Threw? {
          return Threw;
        }
        return Done(JObj([(key, JArr(mapped.value))]));
      } else {
        return Done(rule);
      }
    }
  }

  // ---------------------------------------------------------------------------
  // Properties of the rewrite

  /** A rule without entries comes back unchanged. */
  lemma ReplaceWithoutEntries(name: Option<Json>, rule: Json)
    requires !rule.JNull? && |Entries(rule)| == 0
    ensures ReplaceVariable(name, rule) == Done(rule)
  {
  }

  /** A rule whose first entry is `var` is the bare current-value reference
      when the entry's value is the parameter's name, and otherwise that one
      entry alone; the entries after it are dropped. */
  lemma ReplaceReference(name: Option<Json>, rule: Json)
    requires !rule.JNull? && |Entries(rule)| > 0 && Entries(rule)[0].0 == "var"
    ensures var value := Entries(rule)[0].1;
      if StrictEquals(value, name) then ReplaceVariable(name, rule) == Done(Var(""))
      else ReplaceVariable(name, rule) == Done(JObj([("var", value)]))
  {
  }

  /** So the parameter's own reference is stripped to `{var: ""}`, and any
      other variable is left alone. */
  lemma ReplaceVariableReference(parameter: string, other: string)
    requires other != parameter
    ensures ReplaceVariable(Some(JStr(parameter)), Var(parameter)) == Done(Var(""))
    ensures ReplaceVariable(Some(JStr(parameter)), Var(other)) == Done(Var(other))
  {
  }

  /** When the first entry's key is not `var` and its value is an array, the
      result has that key alone, bound to the rewrite of every element in
      order; the rewrite throws exactly when one element's rewrite does. */
  lemma ReplaceIntoArray(name: Option<Json>, rule: Json)
    requires !rule.JNull? && |Entries(rule)| > 0
    requires Entries(rule)[0].0 != "var" && Entries(rule)[0].1.JArr?
    ensures var (key, value) := Entries(rule)[0];
      var r := ReplaceVariable(name, rule);
      && (r.Threw? <==> exists i :: 0 <= i < |value.items| && ReplaceVariable(name, value.items[i]).Threw?)
      && (r.Done? ==> exists mapped: seq<Json> ::
            && r.value == JObj([(key, JArr(mapped))])
            && |mapped| == |value.items|
            && forall i :: 0 <= i < |mapped| ==> ReplaceVariable(name, value.items[i]) == Done(mapped[i]))
  {
    var (key, value) := Entries(rule)[0];
    ReplaceAllElements(name, value.items);
    var m := ReplaceAll(name, value.items);
    if m.Done? {
      assert ReplaceVariable(name, rule) == Done(JObj([(key, JArr(m.value))]));
    }
  }

  /** Conversely, rules that all rewrite map to their rewrites. */
  lemma {:induction false} ReplaceAllOf(name: Option<Json>, rules: seq<Json>, mapped: seq<Json>)
    requires |mapped| == |rules|
    requires forall i :: 0 <= i < |rules| ==> ReplaceVariable(name, rules[i]) == Done(mapped[i])
    ensures ReplaceAll(name, rules) == Done(mapped)
  {
    if |rules| > 0 {
      var n := |rules| - 1;
      ReplaceAllOf(name, rules[..n], mapped[..n]);
      assert mapped == mapped[..n] + [mapped[n]];
    }
  }

  /** An operation other than `var` has the rewrite applied to each of its
      arguments, and keeps its name. */
  lemma ReplaceOperation(name: Option<Json>, operator: string, args: seq<Json>, mapped: seq<Json>)
    requires operator != "var"
    requires |mapped| == |args|
    requires forall i :: 0 <= i < |args| ==> ReplaceVariable(name, args[i]) == Done(mapped[i])
    ensures ReplaceVariable(name, Op(operator, args)) == Done(Op(operator, mapped))
  {
    ReplaceAllOf(name, args, mapped);
  }

  /** When the first entry's key is not `var` and its value is not an array,
      the rule comes back unchanged. */
  lemma ReplaceOtherwise(name: Option<Json>, rule: Json)
    requires !rule.JNull? && |Entries(rule)| > 0
    requires Entries(rule)[0].0 != "var" && !Entries(rule)[0].1.JArr?
    ensures ReplaceVariable(name, rule) == Done(rule)
  {
  }

  /** `map` keeps one result per rule, in order, and throws exactly when
      some rule's rewrite throws. */
  lemma {:induction false} ReplaceAllElements(name: Option<Json>, rules: seq<Json>)
    ensures ReplaceAll(name, rules).Done? ==>
      forall i :: 0 <= i < |rules| ==> ReplaceVariable(name, rules[i]) == Done(ReplaceAll(name, rules).value[i])
    ensures ReplaceAll(name, rules).Threw? <==> exists i :: 0 <= i < |rules| && ReplaceVariable(name, rules[i]).Threw?
  {
    if |rules| > 0 {
      var init := rules[..|rules| - 1];
      ReplaceAllElements(name, init);
      assert forall i :: 0 <= i < |init| ==> init[i] == rules[i];
    }
  }

  /** A rule holding no `null` anywhere. */
  predicate NullFree(rule: Json) {
    match rule
    case JNull => false
    case JArr(items) => forall i :: 0 <= i < |items| ==> NullFree(items[i])
    case JObj(entries) => forall i :: 0 <= i < |entries| ==> NullFree(entries[i].1)
    case _ => true
  }

  /** The rewrite throws only on a `null` it meets; a rule free of them is
      always rewritten. */
  lemma {:induction false} ReplaceTotal(name: Option<Json>, rule: Json)
    requires NullFree(rule)
    ensures ReplaceVariable(name, rule).Done?
    decreases rule, 1
  {
    match rule
    case JArr(items) =>
      if |items| > 0 && items[0].JArr? {
        ReplaceAllTotal(name, items[0].items);
      }
    case JObj(entries) =>
      if |entries| > 0 && entries[0].0 != "var" && entries[0].1.JArr? {
        ReplaceAllTotal(name, entries[0].1.items);
      }
    case _ =>
  }

  lemma {:induction false} ReplaceAllTotal(name: Option<Json>, rules: seq<Json>)
    requires forall i :: 0 <= i < |rules| ==> NullFree(rules[i])
    ensures ReplaceAll(name, rules).Done?
    decreases rules, 0
  {
    if |rules| > 0 {
      ReplaceAllTotal(name, rules[..|rules| - 1]);
      ReplaceTotal(name, rules[|rules| - 1]);
    }
  }

  /** Rewriting a rewritten rule changes nothing more. */
  lemma {:induction false} ReplaceIdempotent(name: Option<Json>, rule: Json)
    requires ReplaceVariable(name, rule).Done?
    ensures ReplaceVariable(name, ReplaceVariable(name, rule).value) == ReplaceVariable(name, rule)
    decreases rule, 1
  {
    match rule
    case JArr(items) =>
      if |items| > 0 && items[0].JArr? {
        ReplaceAllIdempotent(name, items[0].items);
      }
    case JObj(entries) =>
      if |entries| > 0 && entries[0].0 != "var" && entries[0].1.JArr? {
        ReplaceAllIdempotent(name, entries[0].1.items);
      }
    case _ =>
  }

  lemma {:induction false} ReplaceAllIdempotent(name: Option<Json>, rules: seq<Json>)
    requires ReplaceAll(name, rules).Done?
    ensures ReplaceAll(name, ReplaceAll(name, rules).value) == ReplaceAll(name, rules)
    decreases rules, 0
  {
    if |rules| > 0 {
      var init := rules[..|rules| - 1];
      var once := ReplaceAll(name, rules).value;
      ReplaceAllIdempotent(name, init);
      ReplaceIdempotent(name, rules[|rules| - 1]);
      assert once[..|once| - 1] == ReplaceAll(name, init).value;
    }
  }
}
