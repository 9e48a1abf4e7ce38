# icgphutils core, modelled in Dafny

This project models the core of the `icgphutils` Python utilities and proves properties of that model.

The main part is the decimal **step/precision quantizer** used for crypto amounts:
- flooring a value to N decimal places;
- the number of places a step implies, and the step for a number of places;
- snapping a value down to a step;
- `add`, `divide` and `multiply`, which compute in `Decimal` and then quantize; the model computes these exactly (see "Decimal context precision" below).

The other parts are:
- the **password** validator and generator;
- the DynamoDB helpers **`DBTypes`**, which replace `Decimal`s in nested lists/dicts in place and convert lists for writing;
- the **DynamoDB expression strings**, for update, condition and placeholder maps;
- the **Cognito custom authorizer**'s Allow/Deny decision;
- the **HTTP** response and error-payload assembly.

Numbers are exact decimals, `Decimals.Dec(coef, scale)`, whose value is coef / 10^scale. `scale` is the number of places `str()` prints, so `Dec(10, 1)` is `1.0` and `Dec(1, 0)` is `1`. A Python float is modelled as the decimal its `str()` shows.

Python data is `PyValues.Py`: None, bool, int, float, Decimal, str, list and dict (sets are not modelled). A dict is its entries in insertion order. Python's `d[k] = v` is `PyValues.Store`, and `d.get(k)` is `PyValues.Lookup`.

The modules are:
- `wrappers.dfy`: `Option` and `Result`.
- `decimals.dfy`: the decimal values and the order on them.
- `quantize.dfy`: the quantizer.
- `quantize_examples.dfy`: worked cases of the quantizer.
- `text.dfy`: `str.join`, `str(n)`, and the splitting/parsing that inverts them.
- `pyvalues.dfy`: Python values.
- `dbtypes.dfy`: `DBTypes`.
- `dynamo_expressions.dfy`: the DynamoDB expression strings.
- `authorizer.dfy`: the authorizer.
- `http.dfy`: `HttpUtils`.
- `password.dfy`: the password validator and generator.

Where the code takes a value from outside, that value is an input to the model:
- `json.dumps`, the DynamoDB client serialiser and the decoder Lambda's outcome are inputs.
- `random.sample`'s draws are an input, given as a sequence.
- Exceptions that leave a function are modelled as `Err` results:
  - `AttributeError`, `KeyError` and `TypeError` in the authorizer;
  - `decimal.DivisionByZero` for x/0 and `decimal.InvalidOperation` (signal DivisionUndefined) for 0/0 in `divide`.

Behaviour of the code that the model keeps as written:
- `func_adjust_value_to_step` truncates to the step's number of places. It does not snap to a multiple of the step. So adjusting 1.01 to the step 0.025 gives 1.01, while applying that step gives 1.0 (`QuantizeExamples.AdjustDiffersFromApply`).
- A caller who is not in the required group, and whose claims lack `email`, gets a `KeyError` instead of the Deny policy. The error comes from the log line at `http/authorizer.py:66`.
- `func_generate_password` loops forever when the length is below the number of enabled character classes, because no such password validates (`Password.ShortPasswordNeverValid`).

## Model

| member | source | states |
|---|---|---|
| Decimals.AddUnits | src/icgphutils/icgphutils/__init__.py:146-148 | the model's addition is exact: read at any scale at least as fine as both operands, the units of the sum are the sum of the units |
| Decimals.AddRespectsValue | src/icgphutils/icgphutils/__init__.py:146-148 | the sum depends only on the values of the operands, not on the number of places they are written with |
| Decimals.MulUnits | src/icgphutils/icgphutils/__init__.py:166 | the model's multiplication is exact: read at scales k and l for the factors, the units of the product at k + l are the product of the units |
| Decimals.MulRespectsValue | src/icgphutils/icgphutils/__init__.py:166 | the product depends only on the values of the operands, not on the number of places they are written with |
| Quantize.FloorToPrecision | src/icgphutils/icgphutils/__init__.py:69-83 | a value with at most `precision` places is returned unchanged; otherwise the result has at most `precision` places, is at most the input, and is less than 10^-precision below it |
| Quantize.FloorIsGreatest | src/icgphutils/icgphutils/__init__.py:80-83 | the floor is the greatest value with at most `precision` places that does not exceed the input: it never rounds up |
| Quantize.FloorIdempotent | src/icgphutils/icgphutils/__init__.py:77-83 | flooring twice to the same precision is flooring once |
| Quantize.FloorTwice | src/icgphutils/icgphutils/__init__.py:77-83 | flooring to k places and then to p places is flooring to min(k, p) places |
| Quantize.StepPrecision | src/icgphutils/icgphutils/__init__.py:86-98 | the precision is 0 exactly when the step is a whole number; the step fits in that many places; for a step printed without trailing zeros no fewer places suffice |
| Quantize.CanonicalIsShortest | src/icgphutils/icgphutils/__init__.py:97-98 | a decimal printed without a trailing zero does not fit in fewer places than it prints |
| Quantize.StepFromPrecision | src/icgphutils/icgphutils/__init__.py:101-108 | the step is 10^-p, positive, and its step precision is p again |
| Quantize.MultipleBelow | src/icgphutils/icgphutils/__init__.py:130 | floor(v/step)·step is a whole multiple of the step, at most v, and more than v − step |
| Quantize.MultipleBelowIsGreatest | src/icgphutils/icgphutils/__init__.py:130 | every multiple of the step that does not exceed v is at most floor(v/step)·step |
| Quantize.ApplyValueStep | src/icgphutils/icgphutils/__init__.py:111-132 | the result has at most `precision` places and never exceeds the input |
| Quantize.ApplyPowerOfTen | src/icgphutils/icgphutils/__init__.py:112-132 | with the step 10^-k (k ≥ 1) the result is the input floored to min(k, precision) places |
| Quantize.FractionalStepExp | src/icgphutils/icgphutils/__init__.py:115-126 | for a fractional step, `step_exp == 1` holds exactly when the step is 10^-k |
| Quantize.WholeStepExp | src/icgphutils/icgphutils/__init__.py:115-124 | for a whole-number step n, `step_exp` is n·10^precision and at least 1 |
| Quantize.ApplyOtherStep | src/icgphutils/icgphutils/__init__.py:126-132 | a step that is not 10^-k and has at most `precision` places gives exactly floor(v/step)·step |
| Quantize.MultipleBelowRespectsValue | src/icgphutils/icgphutils/__init__.py:130 | `floor(input_val / step) * step` depends only on the value of the step: two steps of equal value (5 and 5.0) give results of equal value |
| Quantize.WholeStepBeyondPrecision | src/icgphutils/icgphutils/__init__.py:111-132 | a whole step printed with more places than `precision` (5.0 at precision 0) still gives the value of floor(v/step)·step, through either branch of `step_exp == 1` |
| Quantize.ApplyIsMultipleBelow | src/icgphutils/icgphutils/__init__.py:111-132 | any positive step whose own precision (0 for a whole step, so 5.0 at precision 0 too) is at most `precision` gives the value of floor(v/step)·step, so the result is the greatest multiple of the step not above v |
| Quantize.FloorIsMultipleBelow | src/icgphutils/icgphutils/__init__.py:77-83 | flooring to k places is snapping down to the step 10^-k |
| Quantize.AdjustValueToStep | src/icgphutils/icgphutils/__init__.py:135-142 | the input truncated to the step's number of places: at most the input, less than one unit in the last place below it, and a whole number for a whole-number step |
| Quantize.AdjustAgreesWithApply | src/icgphutils/icgphutils/__init__.py:135-142 | for a power-of-ten step 10^-k with k ≤ precision, adjusting and applying the step agree |
| Quantize.ArithmeticAdd | src/icgphutils/icgphutils/__init__.py:145-150 | the loop's total is the sum of the arguments in the model's exact addition, adjusted to the step; with no arguments the result is 0 |
| Quantize.AddCommutes | src/icgphutils/icgphutils/__init__.py:148 | the model's exact decimal addition commutes |
| Quantize.AddAssociates | src/icgphutils/icgphutils/__init__.py:148 | the model's exact decimal addition is associative |
| Quantize.SumRemove | src/icgphutils/icgphutils/__init__.py:146-148 | the sum of a list is the sum without one element, plus that element |
| Quantize.SumPermutation | src/icgphutils/icgphutils/__init__.py:146-148 | any reordering of the arguments gives the same sum in the model's exact addition |
| Quantize.AddOrderIrrelevant | src/icgphutils/icgphutils/__init__.py:145-150 | the order of the arguments does not change the result of `add` |
| Quantize.FloorDiv | src/icgphutils/icgphutils/__init__.py:157 | integer floor division for a divisor of either sign |
| Quantize.Divide | src/icgphutils/icgphutils/__init__.py:153-159 | a zero divisor fails, 0/0 with InvalidOperation (signal DivisionUndefined) and x/0 with DivisionByZero; otherwise the result is the model's exact quotient floored to the step's places, the step defaulting to 1e-8 |
| Quantize.Multiply | src/icgphutils/icgphutils/__init__.py:162-168 | the model's exact product floored to the step's places: at most the product and less than one unit in the last place below it, the step defaulting to 1e-8 |
| QuantizeExamples.FloorExample | src/icgphutils/icgphutils/__init__.py:80-83 | 1.23456789 floored to 4 places is 1.2345 |
| QuantizeExamples.ApplyExample | src/icgphutils/icgphutils/__init__.py:111-132 | 1.01 and 1.0 with the step 0.025 both give 1.000; 1.23456789 with the step 0.0001 gives 1.2345 |
| QuantizeExamples.AdjustDiffersFromApply | src/icgphutils/icgphutils/__init__.py:135-142 | adjusting 1.01 to the step 0.025 gives 1.01, which is not the value applying that step gives |
| QuantizeExamples.SumExample | src/icgphutils/icgphutils/__init__.py:146-148 | the exact sum of 0.1 and 0.2 is 0.3 |
| QuantizeExamples.AddExample | src/icgphutils/icgphutils/__init__.py:149 | 0.3 adjusted to the default step 1e-8 stays 0.3 |
| QuantizeExamples.DivideExample | src/icgphutils/icgphutils/__init__.py:153-159 | 1/3 with the step 0.0001 is 0.3333; 1/0 fails with DivisionByZero |
| QuantizeExamples.MultiplyExample | src/icgphutils/icgphutils/__init__.py:162-168 | 1.5 × 3.33 with the step 0.01 is 4.99 |
| Password.Search | src/icgphutils/icgphutils/__init__.py:21-29 | `re.search` for a one-character class finds a match exactly when some character of the password is in the class |
| Password.ValidatePassword | src/icgphutils/icgphutils/__init__.py:12-33 | true exactly when every enabled class (lower, upper, digit, punctuation) occurs in the password and no white space does |
| Password.PunctuationIsStringPunctuation | src/icgphutils/icgphutils/__init__.py:19 | the punctuation class is exactly the 32 characters of `string.punctuation`, in order |
| Password.BuildAlphabet | src/icgphutils/icgphutils/__init__.py:44-52 | the string built up class by class is the alphabet of the enabled classes, in the order lower, upper, digits, punctuation |
| Password.FirstValid | src/icgphutils/icgphutils/__init__.py:55-64 | the drawing loop stops at the first draw that validates, every earlier draw having failed, or runs through all draws when none validates |
| Password.GeneratePassword | src/icgphutils/icgphutils/__init__.py:36-66 | the sample fails exactly when the length is negative or exceeds the alphabet; a returned password validates, is a sample of `length` distinct alphabet characters, and is the first valid draw; when none is returned no draw was valid |
| Password.AlphabetClasses | src/icgphutils/icgphutils/__init__.py:44-52 | every alphabet character belongs to an enabled class, and none is white space |
| Password.AlphabetCovers | src/icgphutils/icgphutils/__init__.py:44-52 | every enabled class occurs in the alphabet |
| Password.AlphabetDistinct | src/icgphutils/icgphutils/__init__.py:44-57 | the alphabet (lower, upper, digits, punctuation, in that order) repeats no character, so a sample is `length` distinct characters |
| Password.SampleHasNoSpace | src/icgphutils/icgphutils/__init__.py:44-57 | a draw from the alphabet never fails the white-space check |
| Password.ShortPasswordNeverValid | src/icgphutils/icgphutils/__init__.py:55-64 | a password shorter than the number of enabled classes never validates, so the generator's loop cannot end for such a length |
| Password.DefaultDrawExample | src/icgphutils/icgphutils/__init__.py:36-66 | with the default classes, `aA0!` is a sample of length 4 and validates |
| DbTypes.DecimalToNumber | src/icgphutils/icgphutils/aws/dynamodb/types.py:127-131 | an integral `Decimal` becomes the int of the same value; any other becomes a float carrying the same decimal |
| DbTypes.ReplaceDecimal | src/icgphutils/icgphutils/aws/dynamodb/types.py:111-133 | no `Decimal` remains in any list or dict at any depth; a `Decimal` leaf becomes `DecimalToNumber` of it; a list keeps its length and each element is replaced in turn; a dict keeps its keys in order; other leaves are unchanged |
| DbTypes.ReplaceDecimalFixed | src/icgphutils/icgphutils/aws/dynamodb/types.py:111-133 | a value without a `Decimal` is left as it is |
| DbTypes.ReplaceDecimalIdempotent | src/icgphutils/icgphutils/aws/dynamodb/types.py:111-133 | a second application changes nothing |
| DbTypes.ReplaceDecimalLookup | src/icgphutils/icgphutils/aws/dynamodb/types.py:123-126 | each key of a dict now holds the replacement of its former value, and no key is added |
| PyValues.StoreExisting | src/icgphutils/icgphutils/aws/dynamodb/types.py:124-125 | assigning to an existing key of a dict overwrites that entry in its place, leaving every other entry as it was |
| DbTypes.ListObject.ReplaceDecimalInPlace | src/icgphutils/icgphutils/aws/dynamodb/types.py:119-122 | the list object, updated index by index, ends holding the replaced elements in the same order, with no `Decimal` left |
| DbTypes.DictObject.ReplaceDecimalInPlace | src/icgphutils/icgphutils/aws/dynamodb/types.py:123-126 | the dict object, updated key by key, keeps its keys and order and holds the replaced values |
| DbTypes.ConvertListToDbItem | src/icgphutils/icgphutils/aws/dynamodb/types.py:66-85 | the new list has the same length and order; each item is converted: non-empty dict to the serialiser, float to `Decimal(str(f))`, non-empty list recursively, anything else unchanged |
| DbTypes.ConvertThenReplace | src/icgphutils/icgphutils/aws/dynamodb/types.py:66-85 | converting a plain value for the database and replacing its decimals gives it back |
| DbTypes.ConvertLeavesNoFloat | src/icgphutils/icgphutils/aws/dynamodb/types.py:78-81 | no float is left outside the serialised dicts |
| DbTypes.WholeFloatComesBackAsInt | src/icgphutils/icgphutils/aws/dynamodb/types.py:127-129 | the float 2.0 written and read back is the int 2 |
| DynamoExpressions.UpdateExpression | src/icgphutils/icgphutils/aws/dynamodb/__init__.py:103 | the update expression starts with `set ` |
| DynamoExpressions.UpdateExpressionClauses | src/icgphutils/icgphutils/aws/dynamodb/__init__.py:103 | after `set `, the expression splits on commas into `#k=:k` for each attribute key, in order, when no key holds a comma |
| DynamoExpressions.AttributeValues | src/icgphutils/icgphutils/aws/dynamodb/__init__.py:104 | one value placeholder per attribute, every one starting with `:` |
| DynamoExpressions.AttributeValuesLookup | src/icgphutils/icgphutils/aws/dynamodb/__init__.py:104 | the placeholder `:k` looks up exactly what `k` looks up among the attributes, for every string `k` |
| DynamoExpressions.AttributeNames | src/icgphutils/icgphutils/aws/dynamodb/__init__.py:105 | one name placeholder per attribute, every one starting with `#` |
| DynamoExpressions.AttributeNamesLookup | src/icgphutils/icgphutils/aws/dynamodb/__init__.py:105 | the placeholder `#k` names `k` exactly when `k` is an attribute key, and is absent otherwise |
| DynamoExpressions.PlaceholdersDisjoint | src/icgphutils/icgphutils/aws/dynamodb/__init__.py:104-105 | the name and value placeholder maps share no key |
| DynamoExpressions.UpdateConditionClauses | src/icgphutils/icgphutils/aws/dynamodb/__init__.py:106 | the update condition splits on ` AND ` into `attribute_exists(key)` for each key field, in order, for one or more key fields without spaces |
| DynamoExpressions.PutCondition | src/icgphutils/icgphutils/aws/dynamodb/__init__.py:64-88 | there is a condition exactly when key fields are given; with none the put overwrites |
| DynamoExpressions.PutConditionClauses | src/icgphutils/icgphutils/aws/dynamodb/__init__.py:77 | the put condition splits on ` AND ` into `attribute_not_exists(key)` for each key, in order |
| Authorizer.GeneratePolicy | src/icgphutils/icgphutils/http/authorizer.py:12-26 | the policy has the keys principalId, policyDocument and context; Version `2012-10-17`; exactly one statement with Action `execute-api:Invoke` and the given Effect and Resource; the given principal and context |
| Authorizer.DefaultDeny | src/icgphutils/icgphutils/http/authorizer.py:38 | the default policy denies `method_arn` to the principal `CognitoCustomAuthorizer`, with no context |
| Authorizer.GroupIn | src/icgphutils/icgphutils/http/authorizer.py:55 | `group in groups` is element equality for a list, key membership for a dict, substring for a str, and a TypeError for any other type |
| Authorizer.JoinGroups | src/icgphutils/icgphutils/http/authorizer.py:60 | `",".join` succeeds for a str, a dict and a list of strings only, and joins a dict's keys |
| Authorizer.JoinGroupsSplits | src/icgphutils/icgphutils/http/authorizer.py:60 | a joined list of group names splits back into the names when none holds a comma |
| PyValues.StoreKeys | src/icgphutils/icgphutils/http/authorizer.py:60 | assigning to a dict keeps its keys and their order when the key is present, and adds the key last otherwise |
| PyValues.StoreLooksUp | src/icgphutils/icgphutils/http/authorizer.py:60 | after `d[k] = v`, `d[k]` is `v` |
| PyValues.StoreKeepsOthers | src/icgphutils/icgphutils/http/authorizer.py:60 | after `d[k] = v`, every other key looks up what it did before |
| Authorizer.AllowContext | src/icgphutils/icgphutils/http/authorizer.py:57-61 | in the Allow context the groups claim is the joined string, and every other claim is untouched |
| Authorizer.Authorize | src/icgphutils/icgphutils/http/authorizer.py:29-77 | `group` defaults to None, which skips the membership test; a raising decoder, or missing or null claims, give the default Deny; a group required and not held gives Deny; otherwise Allow for the `email` principal on `method_arn`, with the claims and their groups comma-joined as context; a non-dict message or claims, a missing email, or `in`/`join` on the wrong type raise |
| Http.Headers | src/icgphutils/icgphutils/http/__init__.py:49-56 | exactly the five header names, each once, in the order Content-Type, Content-Length, Allow-Origin, Allow-Methods, Allow-Headers |
| Http.HeaderLookup | src/icgphutils/icgphutils/http/__init__.py:49-56 | each header looks up its value: Content-Type `application/json`, Content-Length the body's length in decimal, Allow-Origin `*`, and the fixed methods and headers lists |
| Http.GenerateHttpResponse | src/icgphutils/icgphutils/http/__init__.py:35-63 | the response has exactly the keys headers, statusCode and body; the status defaults to 200; the body is the serialised payload |
| Http.ContentLengthIsBodyLength | src/icgphutils/icgphutils/http/__init__.py:46-51 | the Content-Length header parses back to the length of the body it comes with |
| Http.AssembleErrorPayload | src/icgphutils/icgphutils/http/__init__.py:65-71 | exactly the keys code and message, the code defaulting to `InternalError` |
| Http.AssembleBadRequestPayload | src/icgphutils/icgphutils/http/__init__.py:73-82 | a dict message is returned unchanged; anything else is wrapped with the code `BadRequestError` |
| Http.AssembleServerErrorPayload | src/icgphutils/icgphutils/http/__init__.py:84-93 | a dict message is returned unchanged; anything else is wrapped with the code `InternalError` |
| Http.AssembleOnce | src/icgphutils/icgphutils/http/__init__.py:65-93 | an assembled error payload passes through both other assemblers unchanged |
| Http.AssemblersIdempotent | src/icgphutils/icgphutils/http/__init__.py:73-93 | applying either assembler twice is applying it once |

## Left out

- Binary floating point. The code floors and divides in binary floats (`floor(num * factor) / factor`, `floor(input_val / step) * step`, `float(...)`). The model computes on exact decimals, as the docstrings intend.
- Printed form of results. A float result prints in Python's shortest form (`1.2345`, or `0.25` instead of `0.2500`), while the model keeps the scale it computed. Results agree in value; only the trailing zeros can differ.
- Large floats in exponent notation. A float of 1e16 or more prints as `1e+16` and the like, so `as_tuple().exponent` is positive and the number of places comes out negative. The model's numbers of places are naturals, so such floats are not covered. Small floats such as `1e-05` are covered: their exponent gives the same number of places as the positional form.
- `1 / 10**p` underflows to 0.0 for p above 323. This is not modelled, and precisions are naturals.
- Decimal context precision. The code runs under the default `decimal` context, which rounds every `+` (`__init__.py:148`), `/` (`__init__.py:157`) and `*` (`__init__.py:166`) result to 28 significant digits. The model's addition, division and multiplication are exact, the quotient then floored to the step's places. The two differ only for results needing more than 28 significant digits.
- Steps that are zero or negative. The code does not check steps, and a zero step divides by zero in `func_apply_value_step`. Positive steps are a precondition.
- `Decimal % 1` failures. Under the default 28-digit context, `obj % 1` in `replace_decimal` (`types.py:129`) raises `decimal.InvalidOperation` (DivisionImpossible) for a `Decimal` with more than 28 integer digits; DynamoDB numbers may have 38. The model's `DecimalToNumber` is total, so this raise is not modelled. NaN and Infinity are not representable either.
- Sets. `PyValues.Py` has no set. boto3 reads a DynamoDB number set (`NS`) back as a Python `set` of `Decimal`s, and `replace_decimal` recurses only into lists and dicts, so those `Decimal`s survive in the source. The promise that no `Decimal` remains holds only for values without sets.
- Non-bool flags. The password functions compare their flags with `is True`; the flags are booleans here.
- Randomness. `random.sample` draws are supplied as a finite sequence, and the unbounded `while True` loop ends with `Exhausted` when they run out.
- Console output. The `print` of a valid password is not modelled.
- Logging. The authorizer's logger calls are not modelled.
- AWS I/O. The boto3 and Lambda calls, and the `ClientError` log-and-reraise paths, are not modelled.
- Foreign serialisers. `convert_dict_to_db_item` (boto3 `TypeSerializer`) is a function parameter, and so is `json.dumps`.
- Serialisation failures. `json.dumps` is a total function here. In the source, `generate_http_response` raises `TypeError` for a payload it cannot serialise, such as a `Decimal` read from DynamoDB; that raise is not modelled.
- Aliasing of nested containers. `replace_decimal` is modelled as a function on values for nested containers, plus in-place methods on the top-level list and dict objects. Because the replacement is idempotent, a container shared twice in the tree gives the same final value.
- `DBTypes.__replace_decimal` (`types.py:87-109`) has the same body as `replace_decimal`. It is the same `DbTypes.ReplaceDecimal`.
- `convert_dict_to_db_item`, `convert_db_dict_to_generic_item` and `convert_db_list_to_generic_item` are not part of this model. They rest on the client library's serialisers.
- Quantize.ApplyValueStep: for a step with more places than `precision` that is not a power of ten, only the bounds are stated (at most `precision` places, not above the input).
- DynamoExpressions.UpdateExpressionClauses: the read-back is stated for at least one attribute whose names hold no comma. An empty attribute dict gives the bare `set `, which the service rejects.
- DynamoExpressions.UpdateConditionClauses: the read-back is stated for one or more key fields, none holding a space. With no key fields the condition is the empty string. A key holding ` AND ` would split apart; the lemma excludes every space, which is more than that case needs.
- DynamoExpressions.PutConditionClauses: an empty key list (as opposed to None) gives an empty condition string. The read-back is stated for one or more keys without spaces.
