# Query descriptors for a CRUD service layer, in Dafny

This project models the core of a PHP base package for micro-services.
The validator rules check the descriptors a client sends with a list or update request:

- a flat filter map `field => [operator, operand]`, with an optional `_logic` combinator;
- a sort list of `{field, order}` objects;
- a page pair `[page_number, page_size]`;
- update data with at least one field besides `id`.

Rejections raise an HTTP exception with the ILLEGAL_QUERY code (-20110005), or PHP's TypeError from `count()` or `strtolower()` on a value of the wrong type.
`updateEnsureOne`, and `queryFilter` on a filter that is not an array, return false instead of raising.

The service layer compiles an accepted filter into one `where` or `whereOr` call on a query builder, and a sort list into `order` calls.
It also decides the "data exists", "no records exist" and "already exists" errors from what a lookup returned.
The helpers cover three things:

- `camelize`, which turns a table name into a model class name;
- the `success_response` array;
- the payload of the exception `throw_http_exception` raises.

Modules:

- `Php`: the slice of PHP 8 the code relies on. It covers:
  - loosely typed values and ordered arrays with int or string keys;
  - `empty()`, `is_numeric()` and loose `==`;
  - string conversion, `strtolower`, `strpos`, `explode`, and the key an array access uses.
- `ErrorCodes`: the four business error codes.
- `Helpers`: the response and error records, the "first failing check" reading of a `foreach` that throws, and `camelize`.
- `Operators`: the thirteen operator tokens, and PHP's `switch` over them.
  The validator and the compiler list their `case` labels in different orders.
  - Under loose comparison, a string matches only its own token.
  - The boolean `true` matches every label, so it picks the first one: `-gt` in the validator and `-eq` in the compiler.
  - `SwitchesAgree` proves the two switches agree on everything else.
- `BaseValidate`: the four validation rules as total functions. `updateEnsureOne` is a predicate; the other three return `Result`.
- `BaseService`: the filter and sort compilers, the existence and uniqueness checks, and the model class name.
  - The query builder is a class, `Query`, whose methods record the calls made on it.
  - The filter and sort compilers, and the loop that puts the unique-field conditions on the builder, are methods proved against specification functions (`CompileFilter`, `OrderKeys`, `UniqueConditions`).

Two behaviours of the code as written are modelled as such:

- The comma test of `-in`/`-not-in` compares `strpos(...) >= 0`. Since `false >= 0` holds in PHP, every string is accepted, the empty string included, and nothing else is (`OperandTyping`).
- `queryFilter` returns false for a filter that is not an array. When such a filter reaches `generateDbFilter`, it raises in `array_key_exists`.

## Model

| member | source | states |
|---|---|---|
| BaseValidate.UpdateEnsureOne | src/Validate/BaseValidate.php:24-31 | the rule itself; `UpdateNeedsFieldBesidesId` states what it means for update data |
| BaseValidate.UpdateNeedsFieldBesidesId | src/Validate/BaseValidate.php:26-28 | for well-formed update data that holds `id`, passes exactly when some other field is present |
| BaseValidate.OperandAccepted | src/Validate/BaseValidate.php:64-97 | the operand typing of each operator group; its meaning is stated by `OperandTyping` |
| BaseValidate.CheckFilterEntry | src/Validate/BaseValidate.php:47-101 | one iteration of the filter `foreach`; its cases are stated by `LogicEntry`, `ShapeEntry`, `OperatorEntry` and `FilterEntryFailure` |
| BaseValidate.QueryFilter | src/Validate/BaseValidate.php:42-107 | `queryFilter` itself; its behaviour is stated by `QueryFilterSpec` and `QueryFilterErrors` |
| BaseValidate.QueryFilterSpec | src/Validate/BaseValidate.php:44-106 | false exactly for a non-array; true exactly when every entry passes; otherwise the exception of the first failing entry, all earlier entries having passed |
| BaseValidate.LogicEntry | src/Validate/BaseValidate.php:47-53 | `_logic` passes exactly as the string `-or` or `-and`; anything else raises ILLEGAL_QUERY with the logic message |
| BaseValidate.ShapeEntry | src/Validate/BaseValidate.php:55-58 | a field entry that is an array of other than two elements raises the format message; a non-array raises `count()`'s TypeError |
| BaseValidate.OperatorEntry | src/Validate/BaseValidate.php:61-101 | `[token, operand]` passes exactly when the token names an operator whose operand typing holds; an unknown token raises the operator list message, a mistyped operand the group's message |
| BaseValidate.OperandTyping | src/Validate/BaseValidate.php:64-97 | comparisons need a numeric operand; like/equality/find_in_set a numeric or a string; between an array of two; in/not-in exactly a string (the comma test is vacuous) |
| BaseValidate.FilterEntryFailure | src/Validate/BaseValidate.php:47-101 | every failure of an entry is ILLEGAL_QUERY, except the TypeError of `count()` on a non-array field entry |
| BaseValidate.QueryFilterErrors | src/Validate/BaseValidate.php:44-106 | every exception of `queryFilter` is ILLEGAL_QUERY or that TypeError |
| BaseValidate.NotDirection | src/Validate/BaseValidate.php:130 | the lower-cased string of an int or a bool is never `asc` or `desc` |
| BaseValidate.CheckOrderEntry | src/Validate/BaseValidate.php:130-134 | one iteration of the sort `foreach`; `OrderEntryValid` states when it passes |
| BaseValidate.QueryOrder | src/Validate/BaseValidate.php:117-139 | `queryOrder` itself; its behaviour is stated by `QueryOrderSpec` |
| BaseValidate.OrderEntryValid | src/Validate/BaseValidate.php:129-134 | a sort entry passes exactly when it is an array with a non-empty `field` and a string `order` that lower-cases to `asc` or `desc` |
| BaseValidate.QueryOrderSpec | src/Validate/BaseValidate.php:117-139 | never false; true exactly for an array of at most five valid entries; a non-array and more than five entries raise their messages; every exception is ILLEGAL_QUERY or `strtolower`'s TypeError |
| BaseValidate.DirectiveValid | src/Validate/BaseValidate.php:130 | `{field, order}` with a non-empty field and an `asc`/`desc` direction in any case is valid |
| BaseValidate.QueryOrderRejectsSix | src/Validate/BaseValidate.php:123-126 | six entries are rejected with the limit message whatever they hold |
| BaseValidate.QueryOrderAcceptsEmpty | src/Validate/BaseValidate.php:128-138 | the empty sort list is accepted |
| BaseValidate.QueryOrderAcceptsMixedCase | src/Validate/BaseValidate.php:128-138 | directions `DESC` and `Asc` are accepted |
| BaseValidate.QueryPage | src/Validate/BaseValidate.php:149-163 | `queryPage` itself; its behaviour is stated by `QueryPageSpec` |
| BaseValidate.QueryPageSpec | src/Validate/BaseValidate.php:149-163 | never false; true exactly for a two-element array whose elements 0 and 1 are numeric with the page size at most 1000; every rejection is ILLEGAL_QUERY |
| BaseValidate.QueryPageAtLimit | src/Validate/BaseValidate.php:154-158 | `[1,1000]` passes |
| BaseValidate.QueryPageOverLimit | src/Validate/BaseValidate.php:154-157 | `[1,1001]` raises the limit message |
| BaseValidate.QueryPageNoLowerBound | src/Validate/BaseValidate.php:151-158 | `[-3,-20]` passes: there is no lower bound |
| BaseValidate.QueryPageNotNumeric | src/Validate/BaseValidate.php:153-162 | `[1,"abc"]` raises the format message |
| Operators.Parse | src/Validate/BaseValidate.php:65-100 | the operator a string names is the one whose token it is, and no other |
| Operators.TokenRoundTrip | src/Service/BaseService.php:81-117 | tokens are distinct and parse back to their operator |
| Operators.Switch | src/Validate/BaseValidate.php:64-102 | the first label loosely equal to the value, or none when no label matches |
| Operators.TokenNotNumeric | src/Validate/BaseValidate.php:65-92 | no token is a numeric string, so an int never equals one |
| Operators.CaseMatchesExactly | src/Validate/BaseValidate.php:64-102 | a label matches exactly its own token and `true` |
| Operators.SwitchesAgree | src/Service/BaseService.php:80-120 | the validator's and compiler's switches accept the same values and pick the same operator except for `true`, where they pick `-gt` and `-eq` |
| Operators.SwitchUnique | src/Service/BaseService.php:80-120 | for a value other than `true`, any switch listing all operators picks the operator the string names |
| Php.StrposAtLeastZero | src/Validate/BaseValidate.php:94 | `strpos(...) >= 0` holds whether or not the character occurs |
| Php.Explode | src/Service/BaseService.php:46 | as many pieces as delimiters plus one, none containing the delimiter |
| Php.ImplodeExplode | src/Service/BaseService.php:46 | joining the pieces back with the delimiter gives the unique-field list |
| Php.ArrayKeyOfInt | src/Service/BaseService.php:50 | a field name spelling an integer indexes the data under that integer |
| Helpers.SuccessResponse | src/support/helpers.php:37-40 | exactly the distinct keys code, msg, data, APP_VERSION in order, holding the status, the message, the data and `1.0` |
| Helpers.ThrowHttpException | src/support/helpers.php:52-60 | the exception `throw_http_exception` raises; `PayloadRoundTrip` and `DefaultCode` state what it carries |
| Helpers.ErrorPayload | src/support/helpers.php:54-58 | exactly the keys code, msg and data, in that order |
| Helpers.PayloadRoundTrip | src/support/helpers.php:54-58 | the code/msg/data payload decodes back to the error it was built from |
| Helpers.DefaultCode | src/support/helpers.php:52 | an error raised without a code carries -400000 |
| Helpers.FirstFailure | src/Validate/BaseValidate.php:45-103 | a run of checks passes exactly when each passes, and otherwise fails as the first failing one after all before it passed |
| Helpers.Camelize | src/support/helpers.php:92-96 | `camelize` itself; its meaning is stated by `CamelizeWords`, `CamelizeLength` and the no-space and no-separator lemmas |
| Helpers.CamelizeHasNoSpace | src/support/helpers.php:94-95 | the result holds no space, whatever the separator |
| Helpers.CamelizeHasNoSeparator | src/support/helpers.php:94-95 | with a one-character separator that is not an upper-case letter, the result holds no separator |
| Helpers.CamelizeUpperSeparator | src/support/helpers.php:94-95 | with separator `B`, `camelize("a b")` is `AB`: an upper-case separator can come back |
| Helpers.CamelizeLength | src/support/helpers.php:94-95 | with a one-character separator other than space, the length drops by the separators of the lower-cased input and by its spaces |
| Helpers.CamelizeWordsFrom | src/support/helpers.php:95 | on lower-cased text without whitespace, `ucwords` then space removal yields the separator-split words with every word after the first capitalised, the first as the word state says |
| Helpers.CamelizeWords | src/support/helpers.php:92-96 | without whitespace in the input, the result is the lower-cased words between separators, each capitalised, concatenated |
| Helpers.CamelizeLowerExample | src/support/helpers.php:94-95 | `user_info` becomes `UserInfo` |
| Helpers.CamelizeUpperExample | src/support/helpers.php:94-95 | `USER_INFO` becomes `UserInfo` |
| Helpers.CamelizeUserInfo | src/support/helpers.php:94-95 | any input that lower-cases to `user_info` becomes `UserInfo` |
| BaseService.Query.constructor | src/Service/BaseService.php:47 | a builder on the table with no fields, conditions or sort keys |
| BaseService.Query.Field | src/Service/BaseService.php:161 | records the selected fields and changes nothing else |
| BaseService.Query.Where | src/Service/BaseService.php:124-126 | appends one where clause and changes nothing else |
| BaseService.Query.Order | src/Service/BaseService.php:140 | appends one sort key and changes nothing else |
| BaseService.Render | src/Service/BaseService.php:80-119 | the condition one `case` appends; `SqlOperatorInjective`, `FindInSetOrder` and `PassingEntryCompiles` state its meaning |
| BaseService.SqlOperator | src/Service/BaseService.php:81-118 | the SQL operator of each filter operator; `SqlOperatorInjective` states that no two share one |
| BaseService.SqlOperatorInjective | src/Service/BaseService.php:81-118 | no two operators compile to the same SQL operator |
| BaseService.FindInSetOrder | src/Service/BaseService.php:117-118 | the raw SQL names the operand first, then the field |
| BaseService.CompileFilter | src/Service/BaseService.php:74-121 | the specification of the filter loop; `CompileFilterEntries`, `CompileFilterAppend`, `CompileFilterLength` and `PassingEntriesCompile` state its properties |
| BaseService.Combinator | src/Service/BaseService.php:123 | the `where`/`whereOr` choice; `CombinatorSpec` states when it is OR |
| BaseService.CompileEntry | src/Service/BaseService.php:75-120 | at most one condition per entry, none for `_logic` |
| BaseService.CompileFilterEntries | src/Service/BaseService.php:74-121 | the loop accumulates exactly the compiled conditions of the entries, in entry order |
| BaseService.GenerateDbFilter | src/Service/BaseService.php:72-128 | for an array, one where clause with the combinator and the compiled conditions; for a non-array, the TypeError and no clause; fields and sort keys unchanged |
| BaseService.CompileFilterAppend | src/Service/BaseService.php:74-121 | compiling a concatenation gives the conditions of each part in entry order |
| BaseService.CompileFilterLength | src/Service/BaseService.php:74-121 | never more conditions than entries |
| BaseService.CompileToken | src/Service/BaseService.php:79-120 | `[token, operand]` compiles to the condition of the named operator, or to nothing for an unknown token |
| BaseService.PassingEntryCompiles | src/Service/BaseService.php:79-120 | a validated field entry compiles to exactly one condition, with the operator it was validated for, except that `true` is validated as `-gt` (numeric operand) and compiled as `=` |
| BaseService.PassingEntriesCompile | src/Service/BaseService.php:75-121 | when every entry passes, one condition per non-`_logic` entry |
| BaseService.ValidatedFilterCompiles | src/Service/BaseService.php:75-121 | after `queryFilter` accepted a filter, the condition count is the number of non-`_logic` entries |
| BaseService.CombinatorSpec | src/Service/BaseService.php:123-127 | in a well-formed array, OR exactly when `_logic => "-or"` is present, AND otherwise |
| BaseService.CompileExample | src/Service/BaseService.php:75-127 | `{age: [-gt, 18], name: [-eq, "Al"]}` gives `age > 18` and `name = "Al"` joined by AND |
| BaseService.TrueOperatorExample | src/Service/BaseService.php:80-83 | `[true, 18]` passes validation and compiles to `age = 18` |
| BaseService.SortKeys | src/Service/BaseService.php:139-141 | one sort key per entry, the entry's `field` and `order` |
| BaseService.OrderKeys | src/Service/BaseService.php:138-142 | none for an empty list or a non-array; otherwise one per entry in entry order |
| BaseService.GenerateDbOrder | src/Service/BaseService.php:136-143 | appends exactly those sort keys; table, fields and conditions unchanged |
| BaseService.ValidatedOrderKeys | src/Service/BaseService.php:138-142 | after `queryOrder` accepted the list, at most five keys, each with a non-empty field and an `asc`/`desc` direction |
| BaseService.FindOrEmpty | src/Service/BaseService.php:20 | a missing row reads as the empty array; `VerifyDataWhetherExist` states the verdict on it |
| BaseService.Find | src/Service/BaseService.php:57 | a missing row reads as null; `UniquenessVerdict` states the verdict on it |
| BaseService.VerifyDataWhetherExist | src/Service/BaseService.php:18-33 | with `exist`, fails with DATA_EXISTS exactly when a non-empty row is found; otherwise fails with NO_RECORDS_EXIST exactly when none is |
| BaseService.ExistChecksComplement | src/Service/BaseService.php:22-32 | for the same lookup exactly one of the two check types fails |
| BaseService.UniqueConditions | src/Service/BaseService.php:46-54 | at most one condition per listed field |
| BaseService.UniqueConditionsEmpty | src/Service/BaseService.php:49-56 | no conditions, so no lookup, exactly when every listed field's value is empty |
| BaseService.UniqueConditionsSound | src/Service/BaseService.php:49-52 | every condition is `field = value` for a listed field whose value is not empty |
| BaseService.UniqueConditionsAppend | src/Service/BaseService.php:49-54 | the conditions follow the order of the fields |
| BaseService.WhereEach | src/Service/BaseService.php:51 | one AND clause per condition |
| BaseService.UniquenessVerdict | src/Service/BaseService.php:56-62 | the decision on the row found; `SameIdNoClash`, `ClashIsAnotherRecord` and `UniquenessExamples` state its meaning |
| BaseService.SameIdNoClash | src/Service/BaseService.php:57-61 | the record being updated never clashes with itself: a row whose `id` is the given id passes |
| BaseService.ClashIsAnotherRecord | src/Service/BaseService.php:57-61 | a clash needs a non-empty row from `find()` whose `id` the given id does not loosely equal, and raises CODE_ALREADY_EXISTS with "The ... already exists" |
| BaseService.UniqueFieldQuery | src/Service/BaseService.php:47-54 | a fresh builder on the table with one `where` per condition, and the flag set exactly when there is one |
| BaseService.UniquenessCheck | src/Service/BaseService.php:56-62 | the outcome of the uniqueness check; `NoValueNoLookup` and `UniquenessVerdict` state its cases, and `VerifyDataWhetherUnique` is proved to compute it |
| BaseService.VerifyDataWhetherUnique | src/Service/BaseService.php:44-64 | puts the unique conditions on a fresh builder and returns the uniqueness verdict on the row it finds, or passes without a lookup when there are none |
| BaseService.NoValueNoLookup | src/Service/BaseService.php:56-63 | with no unique field given a value, the check passes whatever the table holds |
| BaseService.AllValuesConditions | src/Service/BaseService.php:49-54 | when every field has a value, one `field = value` condition per field in order |
| BaseService.UniquenessExamples | src/Service/BaseService.php:58-61 | id 9 against 5 clashes; id 9 against "9", or no row, does not |
| BaseService.ModelClassName | src/Service/BaseService.php:157 | the model class a table resolves to; `ModelClassNameHasNoSpace` states its property |
| BaseService.ModelClassNameHasNoSpace | src/Service/BaseService.php:157 | the class name holds no space |
| BaseService.AssembleFilterSelectDb | src/Service/BaseService.php:154-171 | a fresh builder on the model class with the fields when not empty, the compiled filter and, unless the filter raised, the sort keys |

## Left out

- The ORM is not executed. The builder records the calls made on it. The lookups of `findOrEmpty()` and `find()` are function parameters returning a row or none.
- What the ORM does with an empty condition list, and the SQL it generates, is not part of this model.
- `new $modelName` does not resolve a class at run time. The builder of `assembleFilterSelectDb` is opened on the class name.
- The `HttpResponseException` object and `json_encode` are left out. An exception is its code, message and data.
- `response_rpc_json` (MessagePack), `create_pass` (`password_hash`) and `create_sms_code` (`rand`) are left out: foreign libraries and randomness.
- The rule dispatch of the `taoser\Validate` base class and its `$message` table are framework glue. The unused `$rule` and `$data` parameters are dropped.
- The `use support\ErrorCode` import does not match the namespace of the class it names. This is a loading issue, so the codes are used directly.
- Floats are not modelled.
  - `is_numeric` covers an optional sign, digits and an optional decimal part.
  - Leading or trailing whitespace and exponents are not modelled.
  - Numbers are compared as exact rationals.
- Objects are not modelled: a value is null, a bool, an int, a string or an array. A `stdClass` from `json_decode` without `assoc`, for instance, has no counterpart.
- Integers are unbounded. The overflow of PHP integers to floats is not modelled.
- Loose `==` between two arrays is structural equality. PHP compares the entries loosely.
- Reading a string key of a string value (`$s['field']`) reads as null. PHP may give a character or raise.
- In `ltrim`, a separator of the form `a..b` names a range. Such separators are not modelled.
- PHP's warnings are not modelled: `foreach` over a non-array, an undefined index, array-to-string conversion. Execution goes on as in PHP.
- The framework's handling of the values a rule returns (false, or an exception) is not part of this model.
