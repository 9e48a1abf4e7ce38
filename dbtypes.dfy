/**
 * `DBTypes`: the tree transformations between Python values and the values the
 * DynamoDB client reads and writes. `replace_decimal` turns every `Decimal` of a
 * nested list/dict into an `int` (whole numbers) or a `float` (the rest), updating
 * the containers in place; `convert_list_to_db_item` builds a new list in which
 * floats become `Decimal(str(f))`.
 */
module DbTypes {
  import opened Decimals
  import opened PyValues
  import opened Wrappers

  /** What `replace_decimal` makes of one `Decimal`: `int(d)` when `d % 1 == 0`, else `float(d)`. */
  function DecimalToNumber(d: Dec): (r: Py)
    ensures IsIntegral(d) ==> r.PyInt? && r.i * Pow10(d.scale) == d.coef
    ensures !IsIntegral(d) ==> r == PyFloat(d)
  {
    if d.coef % Pow10(d.scale) == 0 then
      IntegralUnits(d);
      PyInt(d.coef / Pow10(d.scale))
    else
      PyFloat(d)
  }

  /** No `Decimal` at any depth. */
  predicate NoDecimal(v: Py) {
    match v
    case PyDecimal(_) => false
    case PyList(items) => forall i :: 0 <= i < |items| ==> NoDecimal(items[i])
    case PyDict(entries) => forall i :: 0 <= i < |entries| ==> NoDecimal(entries[i].1)
    case _ => true
  }

  /**
   * The value `replace_decimal(obj)` leaves behind (and returns). Containers keep
   * their shape: a list its length, a dict its keys in order, and each element
   * is replaced in turn; a `Decimal` leaf becomes an int or a float.
   */
  function ReplaceDecimal(v: Py): (r: Py)
    ensures NoDecimal(r)
    ensures v.PyList? <==> r.PyList?
    ensures v.PyList? ==> |r.items| == |v.items|
    ensures v.PyList? ==> forall i :: 0 <= i < |v.items| ==> r.items[i] == ReplaceDecimal(v.items[i])
    ensures v.PyDict? <==> r.PyDict?
    ensures v.PyDict? ==> Keys(r.entries) == Keys(v.entries)
    ensures v.PyDecimal? ==> r == DecimalToNumber(v.d)
    ensures !v.PyList? && !v.PyDict? && !v.PyDecimal? ==> r == v
  {
    match v
    case PyList(items) =>
      PyList(seq(|items|, i requires 0 <= i < |items| => ReplaceDecimal(items[i])))
    case PyDict(entries) =>
      PyDict(seq(|entries|, i requires 0 <= i < |entries| => (entries[i].0, ReplaceDecimal(entries[i].1))))
    case PyDecimal(d) => DecimalToNumber(d)
    case _ => v
  }

  /** A value with no `Decimal` left is not changed: applying the replacement twice is applying it once. */
  lemma {:induction false} ReplaceDecimalFixed(v: Py)
    requires NoDecimal(v)
    ensures ReplaceDecimal(v) == v
  {
    match v
    case PyList(items) =>
      forall i | 0 <= i < |items|
        ensures ReplaceDecimal(items[i]) == items[i]
      {
        ReplaceDecimalFixed(items[i]);
      }
    case PyDict(entries) =>
      forall i | 0 <= i < |entries|
        ensures ReplaceDecimal(entries[i].1) == entries[i].1
      {
        ReplaceDecimalFixed(entries[i].1);
      }
    case _ =>
  }

  lemma ReplaceDecimalIdempotent(v: Py)
    ensures ReplaceDecimal(ReplaceDecimal(v)) == ReplaceDecimal(v)
  {
    ReplaceDecimalFixed(ReplaceDecimal(v));
  }

  /** Each dict value is replaced by what a lookup of its key gave before. */
  lemma ReplaceDecimalLookup(entries: seq<(string, Py)>, key: string)
    ensures Lookup(ReplaceDecimal(PyDict(entries)).entries, key) ==
      match Lookup(entries, key) case None => None case Some(x) => Some(ReplaceDecimal(x))
  {
    var r := ReplaceDecimal(PyDict(entries)).entries;
    if |entries| > 0 {
      ReplaceDecimalLookup(entries[1..], key);
      assert r == [(entries[0].0, ReplaceDecimal(entries[0].1))] + ReplaceDecimal(PyDict(entries[1..])).entries;
      KeysCons((entries[0].0, ReplaceDecimal(entries[0].1)), ReplaceDecimal(PyDict(entries[1..])).entries);
      KeysCons(entries[0], entries[1..]);
    }
  }

  /** A Python list object, updated in place. */
  class ListObject {
    var items: seq<Py>

    constructor(items: seq<Py>)
      ensures this.items == items
    {
      this.items := items;
    }

    /** `replace_decimal(obj)` on a list: `obj[i] = replace_decimal(obj[i])` for each index. */
    method ReplaceDecimalInPlace()
      modifies this
      ensures items == ReplaceDecimal(PyList(old(items))).items
      ensures NoDecimal(PyList(items))
    {
      ghost var original := items;
      for i := 0 to |items|
        invariant |items| == |original|
        invariant forall j :: 0 <= j < i ==> items[j] == ReplaceDecimal(original[j])
        invariant forall j :: i <= j < |items| ==> items[j] == original[j]
      {
        items := items[i := ReplaceDecimal(items[i])];
      }
    }
  }

  /** A Python dict object, updated in place; its keys are distinct. */
  class DictObject {
    var entries: seq<(string, Py)>

    predicate Valid()
      reads this
    {
      DistinctKeys(entries)
    }

    constructor(entries: seq<(string, Py)>)
      requires DistinctKeys(entries)
      ensures Valid() && this.entries == entries
    {
      this.entries := entries;
    }

    /** `replace_decimal(obj)` on a dict: `obj[k] = replace_decimal(obj[k])` for each key. */
    method ReplaceDecimalInPlace()
      requires Valid()
      modifies this
      ensures Valid()
      ensures entries == ReplaceDecimal(PyDict(old(entries))).entries
      ensures Keys(entries) == Keys(old(entries))
      ensures NoDecimal(PyDict(entries))
    {
      ghost var original := entries;
      for i := 0 to |entries|
        invariant |entries| == |original|
        invariant forall j :: 0 <= j < i ==> entries[j] == (original[j].0, ReplaceDecimal(original[j].1))
        invariant forall j :: i <= j < |entries| ==> entries[j] == original[j]
        invariant DistinctKeys(entries)
      {
        var key := entries[i].0;
        LookupFirst(entries, i);
        var value := Lookup(entries, key).value;
        StoreExisting(entries, i, ReplaceDecimal(value));
        entries := Store(entries, key, ReplaceDecimal(value));
      }
      assert entries == ReplaceDecimal(PyDict(original)).entries;
    }
  }

  /**
   * What `convert_list_to_db_item` puts in place of one list item: a non-empty dict
   * goes through `convert_dict_to_db_item` (the client library's serialiser, given as
   * `convertDict`), a float becomes `Decimal(str(f))`, a non-empty list is converted
   * item by item, and anything else is kept.
   */
  function ConvertItem(v: Py, convertDict: seq<(string, Py)> -> Py): Py {
    match v
    case PyDict(entries) => if |entries| > 0 then convertDict(entries) else v
    case PyFloat(f) => PyDecimal(f)
    case PyList(items) =>
      if |items| > 0 then
        PyList(seq(|items|, i requires 0 <= i < |items| => ConvertItem(items[i], convertDict)))
      else v
    case _ => v
  }

  /** `convert_list_to_db_item`: a new list, built by appending one converted item at a time. */
  method ConvertListToDbItem(genericList: seq<Py>, convertDict: seq<(string, Py)> -> Py)
    returns (dbItemList: seq<Py>)
    ensures |dbItemList| == |genericList|
    ensures forall i :: 0 <= i < |genericList| ==> dbItemList[i] == ConvertItem(genericList[i], convertDict)
    decreases PyList(genericList)
  {
    dbItemList := [];
    for i := 0 to |genericList|
      invariant |dbItemList| == i
      invariant forall j :: 0 <= j < i ==> dbItemList[j] == ConvertItem(genericList[j], convertDict)
    {
      var item := genericList[i];
      if item.PyDict? && |item.entries| > 0 {
        dbItemList := dbItemList + [convertDict(item.entries)];
      } else if item.PyFloat? {
        dbItemList := dbItemList + [PyDecimal(item.f)];
      } else if item.PyList? && |item.items| > 0 {
        assert item == PyList(item.items);
        var converted := ConvertListToDbItem(item.items, convertDict);
        dbItemList := dbItemList + [PyList(converted)];
      } else {
        dbItemList := dbItemList + [item];
      }
    }
  }

  /**
   * The values the two directions are meant for: no `Decimal`, no non-empty dict
   * (those go through the client serialiser) and no float holding a whole number.
   */
  predicate Plain(v: Py) {
    match v
    case PyDecimal(_) => false
    case PyDict(entries) => |entries| == 0
    case PyFloat(f) => !IsIntegral(f)
    case PyList(items) => forall i :: 0 <= i < |items| ==> Plain(items[i])
    case _ => true
  }

  /** Converting a plain value for the database and replacing the decimals again gives it back. */
  lemma {:induction false} ConvertThenReplace(v: Py, convertDict: seq<(string, Py)> -> Py)
    requires Plain(v)
    ensures ReplaceDecimal(ConvertItem(v, convertDict)) == v
  {
    match v
    case PyList(items) =>
      if |items| > 0 {
        forall i | 0 <= i < |items|
          ensures ReplaceDecimal(ConvertItem(items[i], convertDict)) == items[i]
        {
          ConvertThenReplace(items[i], convertDict);
        }
      }
    case _ =>
  }

  /** Converted values hold no float outside the serialised dicts. */
  lemma {:induction false} ConvertLeavesNoFloat(v: Py, convertDict: seq<(string, Py)> -> Py)
    requires Plain(v)
    ensures !ConvertItem(v, convertDict).PyFloat?
    ensures v.PyList? ==> forall i :: 0 <= i < |v.items| ==> !ConvertItem(v.items[i], convertDict).PyFloat?
  {
    match v
    case PyList(items) =>
      forall i | 0 <= i < |items|
        ensures !ConvertItem(items[i], convertDict).PyFloat?
      {
        ConvertLeavesNoFloat(items[i], convertDict);
      }
    case _ =>
  }

  /** A float holding a whole number does not come back: `2.0` returns as the int `2`. */
  lemma WholeFloatComesBackAsInt(convertDict: seq<(string, Py)> -> Py)
    ensures ReplaceDecimal(ConvertItem(PyFloat(Dec(20, 1)), convertDict)) == PyInt(2)
  {
  }
}
