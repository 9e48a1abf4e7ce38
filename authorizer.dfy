/**
 * The Cognito custom authorizer: it hands the token to a decoder Lambda and turns
 * the decoded claims into an API Gateway policy, Allow or Deny. The Lambda call
 * itself is an input here: either it raised, or it returned a JSON value.
 * Exceptions raised after the call (a message or claims that are not dicts, a
 * missing `email`, an `in` or `join` on the wrong type) are not caught by the
 * source and leave `authorize`; they are the `Err` results.
 */
module Authorizer {
  import opened Wrappers
  import opened PyValues
  import opened Text

  /** What the decoder Lambda call did. */
  datatype DecoderOutcome = Raised | Returned(message: Py)

  /** The Python exceptions that can leave `authorize`. */
  datatype AuthError = AttributeError | KeyError | TypeError

  const DefaultPrincipal: string := "CognitoCustomAuthorizer"
  const GroupsClaim: string := "cognito:groups"

  /**
   * `p` is the policy document of `__generate_policy`: keys `principalId`,
   * `policyDocument`, `context` in that order; the document has Version
   * `2012-10-17` and exactly one statement, invoking the API with the given effect
   * on the given resource.
   */
  predicate IsPolicy(p: Py, principalId: Py, effect: string, resource: string, context: Py) {
    p.PyDict?
    && Keys(p.entries) == ["principalId", "policyDocument", "context"]
    && Lookup(p.entries, "principalId") == Some(principalId)
    && Lookup(p.entries, "context") == Some(context)
    && var doc := Lookup(p.entries, "policyDocument");
    doc.Some? && doc.value.PyDict?
    && Keys(doc.value.entries) == ["Version", "Statement"]
    && Lookup(doc.value.entries, "Version") == Some(PyStr("2012-10-17"))
    && var statements := Lookup(doc.value.entries, "Statement");
    statements.Some? && statements.value.PyList? && |statements.value.items| == 1
    && var statement := statements.value.items[0];
    statement.PyDict?
    && Keys(statement.entries) == ["Action", "Effect", "Resource"]
    && Lookup(statement.entries, "Action") == Some(PyStr("execute-api:Invoke"))
    && Lookup(statement.entries, "Effect") == Some(PyStr(effect))
    && Lookup(statement.entries, "Resource") == Some(PyStr(resource))
  }

  /** `__generate_policy(principal_id, effect, resource, context)` */
  function GeneratePolicy(principalId: Py, effect: string, resource: string, context: Py): (r: Py)
    ensures IsPolicy(r, principalId, effect, resource, context)
  {
    var statement := [("Action", PyStr("execute-api:Invoke")), ("Effect", PyStr(effect)), ("Resource", PyStr(resource))];
    var doc := [("Version", PyStr("2012-10-17")), ("Statement", PyList([PyDict(statement)]))];
    var policy := [("principalId", principalId), ("policyDocument", PyDict(doc)), ("context", context)];
    Literal3(statement[0], statement[1], statement[2]);
    Literal2(doc[0], doc[1]);
    Literal3(policy[0], policy[1], policy[2]);
    PyDict(policy)
  }

  /** The policy `authorize` starts from and returns unless it decides to allow. */
  function DefaultDeny(methodArn: string): (r: Py)
    ensures IsPolicy(r, PyStr(DefaultPrincipal), "Deny", methodArn, PyNone)
  {
    GeneratePolicy(PyStr(DefaultPrincipal), "Deny", methodArn, PyNone)
  }

  /** `group in groups`, for each type the claim can have in decoded JSON. */
  function GroupIn(group: string, groups: Py): (r: Result<bool, AuthError>)
    ensures r.Err? <==> !(groups.PyList? || groups.PyStr? || groups.PyDict?)
    ensures r.Err? ==> r.error == TypeError
    ensures groups.PyStr? ==> r == Ok(Contains(groups.s, group))
    ensures groups.PyList? ==> r == Ok(exists i :: 0 <= i < |groups.items| && groups.items[i] == PyStr(group))
    ensures groups.PyDict? ==> r == Ok(Lookup(groups.entries, group).Some?)
  {
    match groups
    case PyList(items) => Ok(PyStr(group) in items)
    case PyStr(s) => Ok(Contains(s, group))
    case PyDict(entries) => Ok(group in Keys(entries))
    case _ => Err(TypeError)
  }

  /** The strings of a list, when every element is one. */
  function Strings(items: seq<Py>): (r: Option<seq<string>>)
    ensures r.Some? <==> forall i :: 0 <= i < |items| ==> items[i].PyStr?
    ensures r.Some? ==> |r.value| == |items| && forall i :: 0 <= i < |items| ==> items[i] == PyStr(r.value[i])
  {
    if |items| == 0 then Some([])
    else if !items[0].PyStr? then None
    else match Strings(items[1..])
      case None => None
      case Some(rest) => Some([items[0].s] + rest)
  }

  /** `",".join(groups)`: a list of strings, the characters of a string, or the keys of a dict. */
  function JoinGroups(groups: Py): (r: Result<string, AuthError>)
    ensures r.Err? ==> r.error == TypeError
    ensures groups.PyList? ==> (r.Ok? <==> Strings(groups.items).Some?)
    ensures groups.PyDict? ==> r == Ok(Join(",", Keys(groups.entries)))
    ensures groups.PyStr? ==> r.Ok?
    ensures !(groups.PyList? || groups.PyStr? || groups.PyDict?) ==> r.Err?
  {
    match groups
    case PyList(items) =>
      (match Strings(items)
       case None => Err(TypeError)
       case Some(strs) => Ok(Join(",", strs)))
    case PyStr(s) => Ok(Join(",", seq(|s|, i requires 0 <= i < |s| => [s[i]])))
    case PyDict(entries) => Ok(Join(",", Keys(entries)))
    case _ => Err(TypeError)
  }

  /** A joined list of group names splits back into the names, when none holds a comma. */
  lemma JoinGroupsSplits(names: seq<string>)
    requires |names| >= 1
    requires forall i :: 0 <= i < |names| ==> ',' !in names[i]
    ensures JoinGroups(PyList(seq(|names|, i requires 0 <= i < |names| => PyStr(names[i])))).Ok?
    ensures SplitOn(JoinGroups(PyList(seq(|names|, i requires 0 <= i < |names| => PyStr(names[i])))).value, ",") == names
  {
    var items := seq(|names|, i requires 0 <= i < |names| => PyStr(names[i]));
    var strs := Strings(items).value;
    assert strs == names;
    SplitJoin(",", names);
  }

  /** The claims of an allowed caller as the policy's context: the groups claim, when present, comma-joined. */
  lemma AllowContext(claims: seq<(string, Py)>, joined: string, key: string)
    ensures var context := Store(claims, GroupsClaim, PyStr(joined));
      && Lookup(context, GroupsClaim) == Some(PyStr(joined))
      && (key != GroupsClaim ==> Lookup(context, key) == Lookup(claims, key))
      && (GroupsClaim in Keys(claims) ==> Keys(context) == Keys(claims))
  {
    StoreLooksUp(claims, GroupsClaim, PyStr(joined));
    StoreKeys(claims, GroupsClaim, PyStr(joined));
    if key != GroupsClaim {
      StoreKeepsOthers(claims, GroupsClaim, PyStr(joined), key);
    }
  }

  /**
   * `CognitoCustomAuthorizer.authorize`, with the decoder call's outcome as input.
   * Deny unless the decoder answered with claims and the caller is in `group`
   * (when one is required); Allow names the caller by the `email` claim and
   * passes the claims on as context.
   */
  method Authorize(decoded: DecoderOutcome, methodArn: string, group: Option<string> := None)
    returns (r: Result<Py, AuthError>)
    // The decoder raised: the default Deny.
    ensures decoded.Raised? ==> r == Ok(DefaultDeny(methodArn))
    // The answer is not a dict: `.get` raises.
    ensures decoded.Returned? && !decoded.message.PyDict? ==> r == Err(AttributeError)
    // No claims, or null claims: the default Deny.
    ensures decoded.Returned? && decoded.message.PyDict?
      && Lookup(decoded.message.entries, "claims").GetOr(PyNone) == PyNone
      ==> r == Ok(DefaultDeny(methodArn))
    // Claims that are not a dict: `.get` raises.
    ensures decoded.Returned? && decoded.message.PyDict?
      && Lookup(decoded.message.entries, "claims").GetOr(PyNone) != PyNone
      && !Lookup(decoded.message.entries, "claims").value.PyDict?
      ==> r == Err(AttributeError)
    // Claims given as a dict.
    ensures decoded.Returned? && decoded.message.PyDict?
      && Lookup(decoded.message.entries, "claims").GetOr(PyNone).PyDict?
      ==> var claims := Lookup(decoded.message.entries, "claims").value.entries;
          var groups := Lookup(claims, GroupsClaim).GetOr(PyList([]));
          var email := Lookup(claims, "email");
          var member := if group.None? then Ok(true) else GroupIn(group.value, groups);
          && (member.Err? ==> r == Err(TypeError))
          && (member == Ok(false) ==> r == if email.None? then Err(KeyError) else Ok(DefaultDeny(methodArn)))
          && (member == Ok(true) && email.None? ==> r == Err(KeyError))
          && (member == Ok(true) && email.Some? && GroupsClaim in Keys(claims) && JoinGroups(groups).Err?
              ==> r == Err(TypeError))
          && (member == Ok(true) && email.Some? && GroupsClaim !in Keys(claims)
              ==> r.Ok? && IsPolicy(r.value, email.value, "Allow", methodArn, PyDict(claims)))
          && (member == Ok(true) && email.Some? && GroupsClaim in Keys(claims) && JoinGroups(groups).Ok?
              ==> r.Ok? && IsPolicy(r.value, email.value, "Allow", methodArn,
                                    PyDict(Store(claims, GroupsClaim, PyStr(JoinGroups(groups).value)))))
  {
    var policy := DefaultDeny(methodArn);
    if decoded.Raised? {
      return Ok(policy);
    }
    var message := decoded.message;
    if !message.PyDict? {
      return Err(AttributeError);
    }
    var found := Lookup(message.entries, "claims");
    if found.None? || found.value == PyNone {
      return Ok(policy);
    }
    if !found.value.PyDict? {
      return Err(AttributeError);
    }
    var claims := found.value.entries;
    var groups := Lookup(claims, GroupsClaim).GetOr(PyList([]));
    var member := true;
    if group.Some? {
      var test := GroupIn(group.value, groups);
      if test.Err? {
        return Err(test.error);
      }
      member := test.value;
    }
    var email := Lookup(claims, "email");
    if email.None? {
      return Err(KeyError);
    }
    if member {
      if GroupsClaim in Keys(claims) {
        var joined := JoinGroups(Lookup(claims, GroupsClaim).value);
        if joined.Err? {
          return Err(joined.error);
        }
        claims := Store(claims, GroupsClaim, PyStr(joined.value));
      }
      policy := GeneratePolicy(email.value, "Allow", methodArn, PyDict(claims));
    }
    return Ok(policy);
  }
}
