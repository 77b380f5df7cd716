/** The two cases of processNode that work by updating local state step by
    step: the template literal's loop over its chunks, and the object
    literal's loop over its members. Each is proved to compute what the
    corresponding case of `ProcessNode` defines. */
module Cases {
  import opened Results
  import opened Json
  import opened Syntax
  import opened Transformer
  import Template
  import Objects
  import Properties

  /** The `TemplateLiteral` case: for each chunk, push its cooked text when
      it is non-empty, then, while expressions remain, push the value of the
      next one. One piece is returned as it is; otherwise `{cat: nodes}`. */
  method TemplateLiteralLoop(quasis: seq<string>, expressions: seq<Node>) returns (r: Outcome<Json>)
    ensures r == ProcessNode(TemplateLiteral(quasis, expressions), false)
  {
    ghost var consumed := Consumed(quasis, expressions);
    var nodes: seq<Json> := [];
    ghost var values: seq<Json> := [];
    var index := 0;
    for i := 0 to |quasis|
      invariant index == Min(i, |expressions|) && |values| == index
      invariant forall k :: 0 <= k < index ==> ProcessNode(expressions[k], false) == Done(values[k])
      invariant nodes == Template.PiecesUpTo(quasis, values, i)
    {
      var cooked := quasis[i];
      ghost var before := nodes;
      if cooked != "" {
        nodes := nodes + [JStr(cooked)];
      }
      assert nodes == before + Template.Chunk(cooked);
      if index < |expressions| {
        var expr := expressions[index];
        var value := ProcessNode(expr, false);
        if value.Threw? {
          Properties.ProcessAllThrewAt(consumed, index);
          Properties.TemplateRule(quasis, expressions);
          return Threw;
        }
        Template.PiecesUpToExtend(quasis, values, value.value, i);
        index := index + 1;
        nodes := nodes + [value.value];
        values := values + [value.value];
      }
    }
    Properties.ProcessAllOf(consumed, values);
    Properties.TemplateRule(quasis, expressions);
    if |nodes| == 1 {
      return Done(nodes[0]);
    }
    return Done(Op("cat", nodes));
  }

  /** The `ObjectExpression` case: start from `{}` and, skipping spreads,
      assign the value of each member under its key, converted to a string,
      in source order. */
  method ObjectExpressionLoop(properties: seq<Property>) returns (r: Outcome<Json>)
    ensures r == ProcessNode(ObjectExpression(properties), false)
  {
    var result: seq<(string, Json)> := [];
    ghost var pairs: seq<(string, Json)> := [];
    for i := 0 to |properties|
      invariant PropertyPairs(properties[..i]) == Done(pairs)
      invariant result == Objects.Build(pairs)
    {
      assert properties[..i + 1][..i] == properties[..i];
      var property := properties[i];
      if property.ObjectSpread? {
        assert pairs + [] == pairs;
        continue;
      }
      if property.ObjectMethod? {
        Properties.PropertyPairsPrefixThrew(properties, i + 1);
        return Threw;
      }
      var key := ProcessNode(property.key, true);
      var value := ProcessNode(property.value, false);
      if key.Threw? || value.Threw? {
        Properties.PropertyPairsPrefixThrew(properties, i + 1);
        return Threw;
      }
      var name := ToJsString(key.value);
      if name.Threw? {
        Properties.PropertyPairsPrefixThrew(properties, i + 1);
        return Threw;
      }
      result := Objects.Assign(result, name.value, value.value);
      pairs := pairs + [(name.value, value.value)];
    }
    assert properties[..|properties|] == properties;
    return Done(JObj(result));
  }
}
