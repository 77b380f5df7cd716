/** The object an object literal builds: `result[key] = value` for each
    property in turn, on an initially empty object. */
module Objects {
  import opened Results
  import opened Json

  function Keys(entries: seq<(string, Json)>): (ks: seq<string>)
    ensures |ks| == |entries| && forall i :: 0 <= i < |entries| ==> ks[i] == entries[i].0
  {
    if |entries| == 0 then [] else Keys(entries[..|entries| - 1]) + [entries[|entries| - 1].0]
  }

  /** No key occurs twice, as in every JavaScript object. */
  predicate UniqueKeys(entries: seq<(string, Json)>) {
    forall i, j :: 0 <= i < j < |entries| ==> entries[i].0 != entries[j].0
  }

  /** The position of the entry with key `key` in an object without repeated keys. */
  function IndexOf(entries: seq<(string, Json)>, key: string): (i: nat)
    requires key in Keys(entries)
    ensures i < |entries| && entries[i].0 == key
  {
    if entries[|entries| - 1].0 == key then |entries| - 1
    else
      assert Keys(entries) == Keys(entries[..|entries| - 1]) + [entries[|entries| - 1].0];
      IndexOf(entries[..|entries| - 1], key)
  }

  /** `o[key] = value`: an existing key keeps its position and takes the new
      value; a new key is added after all the others. */
  function Assign(entries: seq<(string, Json)>, key: string, value: Json): seq<(string, Json)> {
    if key in Keys(entries) then entries[IndexOf(entries, key) := (key, value)]
    else entries + [(key, value)]
  }

  /** In an object without repeated keys, reading a key yields its entry's value. */
  lemma {:induction false} GetUnique(entries: seq<(string, Json)>, i: nat)
    requires UniqueKeys(entries) && i < |entries|
    ensures Get(entries, entries[i].0) == Some(entries[i].1)
  {
    if i > 0 {
      var rest := entries[1..];
      assert rest[i - 1] == entries[i];
      GetUnique(rest, i - 1);
    }
  }

  lemma AssignKeys(entries: seq<(string, Json)>, key: string, value: Json)
    ensures Keys(Assign(entries, key, value))
         == if key in Keys(entries) then Keys(entries) else Keys(entries) + [key]
  {
    var r := Assign(entries, key, value);
    if key in Keys(entries) {
      assert forall i :: 0 <= i < |r| ==> r[i].0 == entries[i].0;
    }
  }

  lemma AssignUnique(entries: seq<(string, Json)>, key: string, value: Json)
    requires UniqueKeys(entries)
    ensures UniqueKeys(Assign(entries, key, value))
  {
    AssignKeys(entries, key, value);
    var r := Assign(entries, key, value);
    assert forall i :: 0 <= i < |r| ==> Keys(r)[i] == r[i].0;
  }

  lemma AssignGetSame(entries: seq<(string, Json)>, key: string, value: Json)
    requires UniqueKeys(entries)
    ensures Get(Assign(entries, key, value), key) == Some(value)
  {
    var r := Assign(entries, key, value);
    AssignUnique(entries, key, value);
    if key in Keys(entries) {
      GetUnique(r, IndexOf(entries, key));
    } else {
      GetUnique(r, |entries|);
    }
  }

  lemma AssignGetOther(entries: seq<(string, Json)>, key: string, value: Json, k: string)
    requires UniqueKeys(entries) && k != key
    ensures Get(Assign(entries, key, value), k) == Get(entries, k)
  {
    var r := Assign(entries, key, value);
    AssignUnique(entries, key, value);
    if k in Keys(entries) {
      var j := IndexOf(entries, k);
      assert r[j] == entries[j];
      GetUnique(r, j);
      GetUnique(entries, j);
    } else {
      AssignKeys(entries, key, value);
      assert k !in Keys(r);
    }
  }

  /** What an assignment does to an object without repeated keys: the key
      reads as the new value, every other key reads as before, the keys stay
      unique, and a new key goes last. */
  lemma AssignEffect(entries: seq<(string, Json)>, key: string, value: Json)
    requires UniqueKeys(entries)
    ensures var r := Assign(entries, key, value);
      && UniqueKeys(r)
      && Get(r, key) == Some(value)
      && (forall k :: k != key ==> Get(r, k) == Get(entries, k))
      && Keys(r) == if key in Keys(entries) then Keys(entries) else Keys(entries) + [key]
  {
    var r := Assign(entries, key, value);
    AssignKeys(entries, key, value);
    AssignUnique(entries, key, value);
    AssignGetSame(entries, key, value);
    forall k | k != key ensures Get(r, k) == Get(entries, k) {
      AssignGetOther(entries, key, value, k);
    }
  }

  /** The entries of the object after assigning every pair in order. */
  function Build(pairs: seq<(string, Json)>): (r: seq<(string, Json)>)
    ensures UniqueKeys(r)
  {
    if |pairs| == 0 then []
    else
      var last := pairs[|pairs| - 1];
      var init := Build(pairs[..|pairs| - 1]);
      AssignEffect(init, last.0, last.1);
      Assign(init, last.0, last.1)
  }

  /** The value of the last pair with key `key`, if there is one. */
  function LastValue(pairs: seq<(string, Json)>, key: string): Option<Json> {
    if |pairs| == 0 then None
    else if pairs[|pairs| - 1].0 == key then Some(pairs[|pairs| - 1].1)
    else LastValue(pairs[..|pairs| - 1], key)
  }

  /** The keys of a sequence in order of first occurrence. */
  function FirstOccurrences(ks: seq<string>): seq<string> {
    if |ks| == 0 then []
    else
      var seen := FirstOccurrences(ks[..|ks| - 1]);
      if ks[|ks| - 1] in seen then seen else seen + [ks[|ks| - 1]]
  }

  /** A later assignment to a key overrides every earlier one. */
  lemma {:induction false} BuildGet(pairs: seq<(string, Json)>, key: string)
    ensures Get(Build(pairs), key) == LastValue(pairs, key)
  {
    if |pairs| > 0 {
      var init := pairs[..|pairs| - 1];
      var last := pairs[|pairs| - 1];
      BuildGet(init, key);
      assert Build(pairs) == Assign(Build(init), last.0, last.1);
      if last.0 == key {
        AssignGetSame(Build(init), key, last.1);
      } else {
        AssignGetOther(Build(init), last.0, last.1, key);
      }
    }
  }

  lemma {:induction false} FirstOccurrencesMembers(ks: seq<string>, k: string)
    ensures k in FirstOccurrences(ks) <==> k in ks
  {
    if |ks| > 0 {
      FirstOccurrencesMembers(ks[..|ks| - 1], k);
      assert ks == ks[..|ks| - 1] + [ks[|ks| - 1]];
    }
  }

  /** The object's keys are the pairs' keys, each once, in order of first assignment. */
  lemma {:induction false} BuildKeys(pairs: seq<(string, Json)>)
    ensures Keys(Build(pairs)) == FirstOccurrences(Keys(pairs))
  {
    if |pairs| > 0 {
      var init := pairs[..|pairs| - 1];
      BuildKeys(init);
      AssignEffect(Build(init), pairs[|pairs| - 1].0, pairs[|pairs| - 1].1);
      assert Keys(pairs)[..|pairs| - 1] == Keys(init);
      FirstOccurrencesMembers(Keys(init), pairs[|pairs| - 1].0);
    }
  }
}
