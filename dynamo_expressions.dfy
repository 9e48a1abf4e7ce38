/**
 * The expression strings and placeholder maps the DynamoDB wrapper sends with its
 * writes. An update of the attributes `{k: v, ...}` sends `set #k=:k,...` with the
 * name placeholders `{#k: k}` and the value placeholders `{:k: v}`, guarded by
 * `attribute_exists(key) AND ...` over the key fields; a put with key fields is
 * guarded by `attribute_not_exists(key) AND ...`, a put without them overwrites.
 * A dict is its entries in order (`PyValues`).
 */
module DynamoExpressions {
  import opened PyValues
  import opened Text
  import opened Wrappers

  /** One assignment of the update expression: `#k=:k`. */
  function Assignment(k: string): string {
    "#" + k + "=:" + k
  }

  function Assignments(keys: seq<string>): (r: seq<string>)
    ensures |r| == |keys| && forall i :: 0 <= i < |r| ==> r[i] == Assignment(keys[i])
  {
    seq(|keys|, i requires 0 <= i < |keys| => Assignment(keys[i]))
  }

  /** `'set {}'.format(','.join(f'#{k}=:{k}' for k in attributes))` */
  function UpdateExpression(attributes: seq<(string, Py)>): (r: string)
    ensures |r| >= 4 && r[..4] == "set "
  {
    "set " + Join(",", Assignments(Keys(attributes)))
  }

  /**
   * The update expression reads back as one assignment per attribute, in the
   * dict's order, as long as no attribute name holds a comma.
   */
  lemma UpdateExpressionClauses(attributes: seq<(string, Py)>)
    requires |attributes| >= 1
    requires forall i :: 0 <= i < |attributes| ==> ',' !in attributes[i].0
    ensures SplitOn(UpdateExpression(attributes)[4..], ",") == Assignments(Keys(attributes))
  {
    var parts := Assignments(Keys(attributes));
    forall i | 0 <= i < |parts|
      ensures ',' !in parts[i]
    {
      var k := attributes[i].0;
      assert parts[i] == "#" + k + "=:" + k;
    }
    SplitJoin(",", parts);
    assert UpdateExpression(attributes)[4..] == Join(",", parts);
  }

  /** `{f':{k}': v for k, v in attributes.items()}` */
  function AttributeValues(attributes: seq<(string, Py)>): (r: seq<(string, Py)>)
    ensures |r| == |attributes|
    ensures forall i :: 0 <= i < |r| ==> |r[i].0| >= 1 && r[i].0[0] == ':'
  {
    if |attributes| == 0 then []
    else [(":" + attributes[0].0, attributes[0].1)] + AttributeValues(attributes[1..])
  }

  /** The placeholder `:k` stands for exactly the value of the attribute `k`. */
  lemma {:induction false} AttributeValuesLookup(attributes: seq<(string, Py)>, k: string)
    ensures Lookup(AttributeValues(attributes), ":" + k) == Lookup(attributes, k)
  {
    if |attributes| > 0 {
      var e := (":" + attributes[0].0, attributes[0].1);
      AttributeValuesLookup(attributes[1..], k);
      LookupCons(e, AttributeValues(attributes[1..]), ":" + k);
      LookupCons(attributes[0], attributes[1..], k);
      assert attributes == [attributes[0]] + attributes[1..];
      PrefixInjective(":", k, attributes[0].0);
    }
  }

  /** `{f'#{k}': k for k in attributes}` */
  function AttributeNames(attributes: seq<(string, Py)>): (r: seq<(string, Py)>)
    ensures |r| == |attributes|
    ensures forall i :: 0 <= i < |r| ==> |r[i].0| >= 1 && r[i].0[0] == '#'
  {
    if |attributes| == 0 then []
    else [("#" + attributes[0].0, PyStr(attributes[0].0))] + AttributeNames(attributes[1..])
  }

  /** The placeholder `#k` names `k` exactly when `k` is an attribute. */
  lemma {:induction false} AttributeNamesLookup(attributes: seq<(string, Py)>, k: string)
    ensures Lookup(AttributeNames(attributes), "#" + k) == if Lookup(attributes, k).Some? then Some(PyStr(k)) else None
  {
    if |attributes| > 0 {
      var e := ("#" + attributes[0].0, PyStr(attributes[0].0));
      AttributeNamesLookup(attributes[1..], k);
      LookupCons(e, AttributeNames(attributes[1..]), "#" + k);
      LookupCons(attributes[0], attributes[1..], k);
      assert attributes == [attributes[0]] + attributes[1..];
      PrefixInjective("#", k, attributes[0].0);
    }
  }

  lemma PrefixInjective(p: string, a: string, b: string)
    ensures p + a == p + b ==> a == b
  {
    if p + a == p + b {
      assert a == (p + a)[|p|..] && b == (p + b)[|p|..];
    }
  }

  /** The two placeholder maps never share a key, so neither shadows the other. */
  lemma PlaceholdersDisjoint(attributes: seq<(string, Py)>, key: string)
    ensures key in Keys(AttributeNames(attributes)) ==> key !in Keys(AttributeValues(attributes))
  {
  }

  /** The tests `f'{test}({key})'`, one per key. */
  function Tests(test: string, keys: seq<string>): (r: seq<string>)
    ensures |r| == |keys| && forall i :: 0 <= i < |r| ==> r[i] == test + "(" + keys[i] + ")"
  {
    seq(|keys|, i requires 0 <= i < |keys| => test + "(" + keys[i] + ")")
  }

  /** `' AND '.join(f'{test}({key})' for key in keys)` */
  function Conjunction(test: string, keys: seq<string>): string {
    Join(" AND ", Tests(test, keys))
  }

  /** The condition of an update: every key field already exists. */
  function UpdateCondition(keyFields: seq<string>): string {
    Conjunction("attribute_exists", keyFields)
  }

  /**
   * The condition of a put: with key fields, none of them exists yet; with none
   * given (`keys is None`), no condition and the item is overwritten.
   */
  function PutCondition(keys: Option<seq<string>>): (r: Option<string>)
    ensures r.None? <==> keys.None?
  {
    match keys
    case None => None
    case Some(ks) => Some(Conjunction("attribute_not_exists", ks))
  }

  /**
   * A condition reads back as one test per key, in order, as long as no key
   * holds a space.
   */
  lemma ConjunctionClauses(test: string, keys: seq<string>)
    requires |keys| >= 1
    requires ' ' !in test
    requires forall i :: 0 <= i < |keys| ==> ' ' !in keys[i]
    ensures SplitOn(Conjunction(test, keys), " AND ") == Tests(test, keys)
  {
    var parts := Tests(test, keys);
    forall i | 0 <= i < |parts|
      ensures ' ' !in parts[i]
    {
      assert parts[i] == test + "(" + keys[i] + ")";
    }
    SplitJoin(" AND ", parts);
  }

  lemma UpdateConditionClauses(keyFields: seq<string>)
    requires |keyFields| >= 1
    requires forall i :: 0 <= i < |keyFields| ==> ' ' !in keyFields[i]
    ensures SplitOn(UpdateCondition(keyFields), " AND ") == Tests("attribute_exists", keyFields)
  {
    ConjunctionClauses("attribute_exists", keyFields);
  }

  lemma PutConditionClauses(keys: seq<string>)
    requires |keys| >= 1
    requires forall i :: 0 <= i < |keys| ==> ' ' !in keys[i]
    ensures PutCondition(Some(keys)).Some?
    ensures SplitOn(PutCondition(Some(keys)).value, " AND ") == Tests("attribute_not_exists", keys)
  {
    ConjunctionClauses("attribute_not_exists", keys);
  }
}
