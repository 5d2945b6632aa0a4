/** The service layer: it compiles a validated filter descriptor and sort
    descriptor into a query builder, and decides the existence and uniqueness
    errors from what a lookup found. The ORM's query builder is modelled by
    `Query`, which records the conditions and sort keys it is given; the
    database lookups are function parameters. */
module BaseService {
  import opened Php
  import opened Helpers
  import opened Operators
  import opened BaseValidate
  import ErrorCodes

  // --------------------------------------------------------------- the builder

  /** How the predicates of one `where` call are combined. */
  datatype Logic = And | Or

  /** The right-hand side of a predicate: a bound value, or raw SQL. */
  datatype Operand = Val(v: Value) | Raw(sql: string)

  /** One condition `[field, op, operand]` as the builder receives it. */
  datatype Predicate = Predicate(field: Value, op: string, operand: Operand)

  /** One `where`/`whereOr` call: its combinator and its conditions. */
  datatype WhereClause = WhereClause(logic: Logic, preds: seq<Predicate>)

  /** One `order($field, $order)` call. */
  datatype OrderKey = OrderKey(field: Value, direction: Value)

  /** Everything a query builder has been told, as the lookup sees it. */
  datatype Select = Select(table: string, fieldList: Value, wheres: seq<WhereClause>, orders: seq<OrderKey>)

  /** A row a lookup returns, as an array of column values. */
  type Row = seq<(Key, Value)>

  /** A query builder on one table (or model). Each call records itself. */
  class Query {
    var table: string
    var fieldList: Value
    var wheres: seq<WhereClause>
    var orders: seq<OrderKey>

    /** `Db::table($table)`, or `new $modelName`: a builder with no conditions. */
    constructor (table: string)
      ensures this.table == table && fieldList == Null && wheres == [] && orders == []
    {
      this.table := table;
      fieldList := Null;
      wheres := [];
      orders := [];
    }

    function Snapshot(): Select
      reads this
    {
      Select(table, fieldList, wheres, orders)
    }

    /** `field($fields)`: the columns to select. */
    method Field(fields: Value)
      modifies this
      ensures fieldList == fields
      ensures table == old(table) && wheres == old(wheres) && orders == old(orders)
    {
      fieldList := fields;
    }

    /** `where(...)` or `whereOr(...)`. */
    method Where(clause: WhereClause)
      modifies this
      ensures wheres == old(wheres) + [clause]
      ensures table == old(table) && fieldList == old(fieldList) && orders == old(orders)
    {
      wheres := wheres + [clause];
    }

    /** `order($field, $order)`. */
    method Order(field: Value, direction: Value)
      modifies this
      ensures orders == old(orders) + [OrderKey(field, direction)]
      ensures table == old(table) && fieldList == old(fieldList) && wheres == old(wheres)
    {
      orders := orders + [OrderKey(field, direction)];
    }
  }

  // ---------------------------------------------------------- generateDbFilter

  /** An array key as the value `foreach` binds it to. */
  function KeyValue(k: Key): Value {
    match k
    case IntKey(i) => Int(i)
    case StrKey(s) => Str(s)
  }

  /** The SQL operator each filter operator compiles to. */
  function SqlOperator(o: Operator): string {
    match o
    case Eq => "="
    case Neq => "<>"
    case Gt => ">"
    case Egt => ">="
    case Lt => "<"
    case Elt => "<="
    case Lk => "LIKE"
    case NotLk => "NOT LIKE"
    case Bw => "BETWEEN"
    case NotBw => "NOT BETWEEN"
    case In => "IN"
    case NotIn => "NOT IN"
    case FindInSet => "exp"
  }

  /** No two operators compile to the same SQL operator. */
  lemma SqlOperatorInjective(o: Operator, p: Operator)
    ensures SqlOperator(o) == SqlOperator(p) ==> o == p
  {
  }

  /** The condition one `case` of the compiler's switch appends. */
  function Render(field: Key, o: Operator, condition: Value): (p: Predicate)
    ensures p.op == SqlOperator(o)
    ensures o !in {Lk, NotLk, FindInSet} ==> p.field == KeyValue(field) && p.operand == Val(condition)
    ensures o in {Lk, NotLk} ==> p.field == KeyValue(field) && p.operand == Val(Str("%" + ToStr(condition) + "%"))
    ensures o == FindInSet ==> p.field == Str("") && p.operand.Raw?
  {
    match o
    case Lk | NotLk => Predicate(KeyValue(field), SqlOperator(o), Val(Str("%" + ToStr(condition) + "%")))
    case FindInSet =>
      Predicate(Str(""), SqlOperator(o), Raw("FIND_IN_SET(" + ToStr(condition) + "," + KeyText(field) + ")"))
    case _ => Predicate(KeyValue(field), SqlOperator(o), Val(condition))
  }

  /** The raw SQL of `-find_in_set` names the operand first, then the field. */
  lemma FindInSetOrder(field: Key, condition: Value)
    ensures Render(field, FindInSet, condition).operand.sql ==
      "FIND_IN_SET(" + ToStr(condition) + "," + KeyText(field) + ")"
  {
  }

  /** One iteration of the `foreach` of `generateDbFilter`: `_logic` is
      skipped, the entry is destructured as `[$op, $condition]` (a missing
      element, or an entry that is not an array, reads as null) and the
      switch without a `default` appends one condition or nothing. */
  function CompileEntry(field: Key, conditionData: Value): (ps: seq<Predicate>)
    ensures |ps| <= 1
    ensures field == LogicKey ==> ps == []
  {
    if field == LogicKey then []
    else
      var op := Index(conditionData, IntKey(0));
      var condition := Index(conditionData, IntKey(1));
      match Switch(op, CompilerCases)
      case None => []
      case Some(o) => [Render(field, o, condition)]
  }

  /** The conditions the loop accumulates over the entries, in entry order. */
  function CompileFilter(es: seq<(Key, Value)>): seq<Predicate> {
    if es == [] then []
    else CompileFilter(es[..|es| - 1]) + CompileEntry(es[|es| - 1].0, es[|es| - 1].1)
  }

  /** OR when `_logic` is present and identical to `-or`, AND otherwise. */
  function Combinator(es: seq<(Key, Value)>): Logic {
    if Lookup(es, LogicKey) == Some(Str("-or")) then Or else And
  }

  /** PHP 8's TypeError for `array_key_exists()` on a value that is not an array:
      only the type-independent prefix, without PHP's trailing ", <type> given". */
  const ArrayKeyExistsTypeError: string := "array_key_exists(): Argument #2 ($array) must be of type array"

  /** `generateDbFilter($db, $filter)`: one `where` (or `whereOr`) call with the
      compiled conditions. A filter that is not an array is skipped by the
      `foreach`, then `array_key_exists` raises, and the builder is untouched. */
  method GenerateDbFilter(db: Query, filter: Value) returns (r: Outcome)
    modifies db
    ensures !filter.Arr? ==> r == Fail(TypeError(ArrayKeyExistsTypeError)) && db.wheres == old(db.wheres)
    ensures filter.Arr? ==>
      r == Pass && db.wheres == old(db.wheres) + [WhereClause(Combinator(filter.entries), CompileFilter(filter.entries))]
    ensures db.table == old(db.table) && db.fieldList == old(db.fieldList) && db.orders == old(db.orders)
  {
    if !filter.Arr? {
      return Fail(TypeError(ArrayKeyExistsTypeError));
    }
    var es := filter.entries;
    var queryFilter := CompileFilterEntries(es);
    if Lookup(es, LogicKey) == Some(Str("-or")) {
      db.Where(WhereClause(Or, queryFilter));
    } else {
      db.Where(WhereClause(And, queryFilter));
    }
    r := Pass;
  }

  /** The `foreach` of `generateDbFilter`: the conditions of the entries, accumulated in entry order. */
  method CompileFilterEntries(es: seq<(Key, Value)>) returns (queryFilter: seq<Predicate>)
    ensures queryFilter == CompileFilter(es)
  {
    queryFilter := [];
    var i := 0;
    while i < |es|
      invariant 0 <= i <= |es|
      invariant queryFilter == CompileFilter(es[..i])
    {
      var (field, conditionData) := es[i];
      queryFilter := queryFilter + CompileEntry(field, conditionData);
      assert es[..i + 1][..i] == es[..i];
      i := i + 1;
    }
    assert es[..|es|] == es;
  }

  /** Compiling a concatenation compiles each part: the conditions come
      out in entry order, at most one per entry. */
  lemma {:induction false} CompileFilterAppend(a: seq<(Key, Value)>, b: seq<(Key, Value)>)
    ensures CompileFilter(a + b) == CompileFilter(a) + CompileFilter(b)
    decreases |b|
  {
    if b == [] {
      assert a + b == a;
    } else {
      var b' := b[..|b| - 1];
      assert (a + b)[..|a + b| - 1] == a + b';
      assert (a + b)[|a + b| - 1] == b[|b| - 1];
      CompileFilterAppend(a, b');
    }
  }

  /** At most one condition per entry. */
  lemma {:induction false} CompileFilterLength(es: seq<(Key, Value)>)
    ensures |CompileFilter(es)| <= |es|
  {
    if es != [] {
      CompileFilterLength(es[..|es| - 1]);
    }
  }

  /** A token entry `[token, operand]` compiles to the condition of the
      operator the token names, or to nothing for an unknown token. */
  lemma CompileToken(field: Key, token: string, operand: Value)
    requires field != LogicKey
    ensures CompileEntry(field, Pair(Str(token), operand)) ==
      if Parse(token).Some? then [Render(field, Parse(token).value, operand)] else []
  {
    PairIndex(Str(token), operand);
    SwitchesAgree(Str(token));
  }

  /** A field entry that `queryFilter` accepted compiles to exactly one
      condition, with the operator the validator checked the operand for;
      only for `true` as the operator do the two switches part: it is
      validated as `-gt` and compiled as `-eq`. */
  lemma PassingEntryCompiles(field: Key, v: Value)
    requires field != LogicKey && CheckFilterEntry(field, v) == Pass
    ensures |CompileEntry(field, v)| == 1
    ensures Index(v, IntKey(0)) != Bool(true) ==>
      CompileEntry(field, v) == [Render(field, Switch(Index(v, IntKey(0)), ValidatorCases).value, Index(v, IntKey(1)))]
    ensures Index(v, IntKey(0)) == Bool(true) ==>
      IsNumeric(Index(v, IntKey(1))) && CompileEntry(field, v) == [Render(field, Eq, Index(v, IntKey(1)))]
  {
    SwitchesAgree(Index(v, IntKey(0)));
  }

  /** The number of entries that are not `_logic`. */
  function FieldCount(es: seq<(Key, Value)>): nat {
    if es == [] then 0
    else FieldCount(es[..|es| - 1]) + (if es[|es| - 1].0 == LogicKey then 0 else 1)
  }

  lemma {:induction false} PassingEntriesCompile(es: seq<(Key, Value)>)
    requires forall i :: 0 <= i < |es| ==> CheckFilterEntry(es[i].0, es[i].1) == Pass
    ensures |CompileFilter(es)| == FieldCount(es)
  {
    if es != [] {
      var last := es[|es| - 1];
      PassingEntriesCompile(es[..|es| - 1]);
      if last.0 != LogicKey {
        PassingEntryCompiles(last.0, last.1);
      }
    }
  }

  /** After `queryFilter` accepted a filter, `generateDbFilter` emits one
      condition for every entry except `_logic`. */
  lemma ValidatedFilterCompiles(es: seq<(Key, Value)>)
    requires QueryFilter(Arr(es)) == Ok(true)
    ensures |CompileFilter(es)| == FieldCount(es)
  {
    QueryFilterSpec(Arr(es));
    PassingEntriesCompile(es);
  }

  /** In a well-formed array the combinator is OR exactly when the entry
      `_logic => "-or"` is present. */
  lemma CombinatorSpec(es: seq<(Key, Value)>)
    requires DistinctKeys(es)
    ensures Combinator(es) == Or <==> (LogicKey, Str("-or")) in es
  {
    if (LogicKey, Str("-or")) in es {
      var i :| 0 <= i < |es| && es[i] == (LogicKey, Str("-or"));
      LookupFirst(es, i, LogicKey);
    }
  }

  /** `{age: ["-gt", 18], name: ["-eq", "Al"]}` compiles to `age > 18 AND name = "Al"`. */
  lemma CompileExample()
    ensures CompileFilter([(StrKey("age"), Pair(Str("-gt"), Int(18))), (StrKey("name"), Pair(Str("-eq"), Str("Al")))])
      == [Predicate(Str("age"), ">", Val(Int(18))), Predicate(Str("name"), "=", Val(Str("Al")))]
    ensures Combinator([(StrKey("age"), Pair(Str("-gt"), Int(18))), (StrKey("name"), Pair(Str("-eq"), Str("Al")))]) == And
  {
    TokenRoundTrip(Gt, Gt);
    TokenRoundTrip(Eq, Eq);
    assert Parse("-gt") == Some(Gt) && Parse("-eq") == Some(Eq);
    CompileToken(StrKey("age"), "-gt", Int(18));
    CompileToken(StrKey("name"), "-eq", Str("Al"));
    assert Render(StrKey("age"), Gt, Int(18)) == Predicate(Str("age"), ">", Val(Int(18)));
    assert Render(StrKey("name"), Eq, Str("Al")) == Predicate(Str("name"), "=", Val(Str("Al")));
    CompileTwo((StrKey("age"), Pair(Str("-gt"), Int(18))), (StrKey("name"), Pair(Str("-eq"), Str("Al"))));
  }

  /** A two-entry filter compiles entry by entry; `CompileExample` instantiates it. */
  lemma CompileTwo(a: (Key, Value), b: (Key, Value))
    ensures CompileFilter([a, b]) == CompileEntry(a.0, a.1) + CompileEntry(b.0, b.1)
  {
    assert [a, b][..1] == [a];
    assert [a][..0] == [];
    assert CompileFilter([a]) == CompileFilter([]) + CompileEntry(a.0, a.1);
    assert CompileFilter([a, b]) == CompileFilter([a]) + CompileEntry(b.0, b.1);
  }

  /** Operator `true` passes validation as `-gt` but compiles to an equality. */
  lemma TrueOperatorExample()
    ensures CheckFilterEntry(StrKey("age"), Pair(Bool(true), Int(18))) == Pass
    ensures CompileEntry(StrKey("age"), Pair(Bool(true), Int(18))) == [Predicate(Str("age"), "=", Val(Int(18)))]
  {
    PairIndex(Bool(true), Int(18));
    SwitchesAgree(Bool(true));
    IntToStringNumeric(18);
  }

  // ----------------------------------------------------------- generateDbOrder

  /** The sort key one entry of the order list gives: `$condition['field']`
      and `$condition['order']`, null when missing. */
  function SortKey(condition: Value): OrderKey {
    OrderKey(Index(condition, StrKey("field")), Index(condition, StrKey("order")))
  }

  /** The sort keys of the entries, in entry order. */
  function SortKeys(es: seq<(Key, Value)>): (ks: seq<OrderKey>)
    ensures |ks| == |es|
    ensures forall i :: 0 <= i < |es| ==> ks[i] == SortKey(es[i].1)
  {
    if es == [] then [] else SortKeys(es[..|es| - 1]) + [SortKey(es[|es| - 1].1)]
  }

  /** The sort keys `generateDbOrder` appends: none for an empty list, and none
      for a value that is not an array (the `foreach` skips it). */
  function OrderKeys(order: Value): (ks: seq<OrderKey>)
    ensures IsEmpty(order) || !order.Arr? ==> ks == []
    ensures order.Arr? ==>
      |ks| == |order.entries| && forall i :: 0 <= i < |ks| ==> ks[i] == SortKey(order.entries[i].1)
  {
    if !IsEmpty(order) && order.Arr? then SortKeys(order.entries) else []
  }

  /** `generateDbOrder($db, $order)`: one `order` call per entry, in order;
      nothing else in the builder changes. */
  method GenerateDbOrder(db: Query, order: Value)
    modifies db
    ensures db.orders == old(db.orders) + OrderKeys(order)
    ensures db.table == old(db.table) && db.fieldList == old(db.fieldList) && db.wheres == old(db.wheres)
  {
    if !IsEmpty(order) && order.Arr? {
      var es := order.entries;
      var i := 0;
      while i < |es|
        invariant 0 <= i <= |es|
        invariant db.orders == old(db.orders) + SortKeys(es[..i])
        invariant db.table == old(db.table) && db.fieldList == old(db.fieldList) && db.wheres == old(db.wheres)
      {
        var condition := es[i].1;
        db.Order(Index(condition, StrKey("field")), Index(condition, StrKey("order")));
        assert es[..i + 1][..i] == es[..i];
        i := i + 1;
      }
      assert es[..|es|] == es;
    }
  }

  /** After `queryOrder` accepted the list, there are at most five sort keys,
      each with a non-empty field and the direction `asc` or `desc` in some
      letter case. */
  lemma ValidatedOrderKeys(order: Value)
    requires QueryOrder(order) == Ok(true)
    ensures |OrderKeys(order)| <= MaxOrderEntries
    ensures forall k :: k in OrderKeys(order) ==>
      !IsEmpty(k.field) && k.direction.Str? && (Lower(k.direction.s) == "asc" || Lower(k.direction.s) == "desc")
  {
    QueryOrderSpec(order);
  }

  // --------------------------------------------------- verifyDataWhetherExist

  /** `findOrEmpty()`: the row, or the empty array. */
  function FindOrEmpty(found: Option<Row>): Value {
    match found
    case Some(row) => Arr(row)
    case None => Arr([])
  }

  /** `find()`: the row, or null. */
  function Find(found: Option<Row>): Value {
    match found
    case Some(row) => Arr(row)
    case None => Null
  }

  /** `verifyDataWhetherExist($tableName, $filter, $checkType)`, where
      `lookup(tableName, filter)` is the row the table holds under the filter.
      With `exist` a row must not be found; with anything else one must be. */
  function VerifyDataWhetherExist(lookup: (string, Value) -> Option<Row>, tableName: string, filter: Value,
                                  checkType: string := "exist"): (r: Outcome)
    ensures checkType == "exist" ==>
      (r.Fail? <==> lookup(tableName, filter).Some? && lookup(tableName, filter).value != [])
    ensures checkType != "exist" ==>
      (r.Fail? <==> lookup(tableName, filter).None? || lookup(tableName, filter).value == [])
    ensures r.Fail? && checkType == "exist" ==> r.thrown == ThrowHttpException("Data exists", ErrorCodes.DataExists)
    ensures r.Fail? && checkType != "exist" ==> r.thrown == ThrowHttpException("No records exist", ErrorCodes.NoRecordsExist)
  {
    var options := FindOrEmpty(lookup(tableName, filter));
    if checkType == "exist" then
      if !IsEmpty(options) then Fail(ThrowHttpException("Data exists", ErrorCodes.DataExists)) else Pass
    else
      if IsEmpty(options) then Fail(ThrowHttpException("No records exist", ErrorCodes.NoRecordsExist)) else Pass
  }

  /** The two checks are complements: for the same lookup exactly one of
      `exist` and any other check type fails. */
  lemma ExistChecksComplement(lookup: (string, Value) -> Option<Row>, tableName: string, filter: Value, other: string)
    requires other != "exist"
    ensures VerifyDataWhetherExist(lookup, tableName, filter).Fail? != VerifyDataWhetherExist(lookup, tableName, filter, other).Fail?
  {
  }

  // -------------------------------------------------- verifyDataWhetherUnique

  /** The equality condition on field `f` with its data value, which is not empty. */
  predicate UniqueCondition(p: Predicate, f: string, data: Value) {
    !IsEmpty(Index(data, ArrayKey(f))) && p == Predicate(Str(f), "=", Val(Index(data, ArrayKey(f))))
  }

  /** The equality conditions on the unique fields whose data value is not
      empty, in field order. */
  function UniqueConditions(fields: seq<string>, data: Value): (ps: seq<Predicate>)
    ensures |ps| <= |fields|
  {
    if fields == [] then []
    else
      var f := fields[|fields| - 1];
      var ps := UniqueConditions(fields[..|fields| - 1], data);
      var value := Index(data, ArrayKey(f));
      if !IsEmpty(value) then ps + [Predicate(Str(f), "=", Val(value))] else ps
  }

  /** There are no conditions exactly when every listed field's value is empty. */
  lemma {:induction false} UniqueConditionsEmpty(fields: seq<string>, data: Value)
    ensures UniqueConditions(fields, data) == [] <==> forall f :: f in fields ==> IsEmpty(Index(data, ArrayKey(f)))
  {
    if fields != [] {
      var init := fields[..|fields| - 1];
      UniqueConditionsEmpty(init, data);
      assert fields == init + [fields[|fields| - 1]];
    }
  }

  /** Every condition is the equality condition of one of the listed fields. */
  lemma {:induction false} UniqueConditionsSound(fields: seq<string>, data: Value)
    ensures forall p :: p in UniqueConditions(fields, data) ==> exists f :: f in fields && UniqueCondition(p, f, data)
  {
    if fields != [] {
      var n := |fields| - 1;
      var init := fields[..n];
      UniqueConditionsSound(init, data);
      forall p | p in UniqueConditions(fields, data) ensures exists f :: f in fields && UniqueCondition(p, f, data) {
        if p in UniqueConditions(init, data) {
          var f :| f in init && UniqueCondition(p, f, data);
          assert f in fields;
        } else {
          assert UniqueCondition(p, fields[n], data);
        }
      }
    }
  }

  /** The conditions keep the order of the unique fields: those of a
      concatenation are those of its parts, one after the other. */
  lemma {:induction false} UniqueConditionsAppend(a: seq<string>, b: seq<string>, data: Value)
    ensures UniqueConditions(a + b, data) == UniqueConditions(a, data) + UniqueConditions(b, data)
    decreases |b|
  {
    if b == [] {
      assert a + b == a;
    } else {
      var b' := b[..|b| - 1];
      assert (a + b)[..|a + b| - 1] == a + b';
      assert (a + b)[|a + b| - 1] == b[|b| - 1];
      UniqueConditionsAppend(a, b', data);
    }
  }

  /** Each condition becomes its own `where` call. */
  function WhereEach(ps: seq<Predicate>): (cs: seq<WhereClause>)
    ensures |cs| == |ps| && forall i :: 0 <= i < |ps| ==> cs[i] == WhereClause(And, [ps[i]])
  {
    if ps == [] then [] else WhereEach(ps[..|ps| - 1]) + [WhereClause(And, [ps[|ps| - 1]])]
  }

  function AlreadyExistsError(uniqueFields: string): Thrown {
    ThrowHttpException("The " + uniqueFields + " already exists", ErrorCodes.CodeAlreadyExists)
  }

  /** The decision on the row `find()` returned: taken by another record
      when a row came back whose `id` is not (loosely) the given one. */
  function UniquenessVerdict(row: Value, id: Value, uniqueFields: string): (r: Outcome)
    ensures r.Fail? <==> !IsEmpty(row) && !LooseEquals(Index(row, StrKey("id")), id)
    ensures r.Fail? ==> r.thrown == AlreadyExistsError(uniqueFields) && r.thrown.error.code == ErrorCodes.CodeAlreadyExists
  {
    if !IsEmpty(row) && !LooseEquals(Index(row, StrKey("id")), id) then Fail(AlreadyExistsError(uniqueFields)) else Pass
  }

  /** The record being updated never clashes with itself: a row whose `id` is
      the given id passes, whatever else it holds. */
  lemma SameIdNoClash(row: Row, id: Value, uniqueFields: string)
    requires Lookup(row, StrKey("id")) == Some(id)
    ensures UniquenessVerdict(Find(Some(row)), id, uniqueFields) == Pass
  {
    LooseEqualsReflexive(id);
  }

  /** A clash needs a row that `find()` returned, holding entries, whose `id`
      the given id does not loosely equal; the error names the unique fields. */
  lemma ClashIsAnotherRecord(found: Option<Row>, id: Value, uniqueFields: string)
    requires UniquenessVerdict(Find(found), id, uniqueFields).Fail?
    ensures found.Some? && found.value != []
    ensures !LooseEquals(id, Index(Arr(found.value), StrKey("id")))
    ensures UniquenessVerdict(Find(found), id, uniqueFields).thrown.error
      == HttpError(ErrorCodes.CodeAlreadyExists, "The " + uniqueFields + " already exists", [])
  {
    LooseEqualsSymmetric(id, Index(Arr(found.value), StrKey("id")));
  }

  /** The outcome of the uniqueness check: no lookup when no unique field has
      a value, otherwise the verdict on the row found under all of them. */
  function UniquenessCheck(find: Select -> Option<Row>, tableName: string, id: Value, uniqueFields: string, data: Value): Outcome {
    var conds := UniqueConditions(Explode(',', uniqueFields), data);
    if conds == [] then Pass
    else UniquenessVerdict(Find(find(Select(tableName, Str("id"), WhereEach(conds), []))), id, uniqueFields)
  }

  /** `verifyDataWhetherUnique($tableName, $id, $uniqueFields, $data)`, where
      `find(q)` is the row the query `q` finds. It returns the conditions it
      put on the query as well. */
  method VerifyDataWhetherUnique(find: Select -> Option<Row>, tableName: string, id: Value, uniqueFields: string, data: Value)
    returns (r: Outcome, conds: seq<Predicate>)
    ensures conds == UniqueConditions(Explode(',', uniqueFields), data)
    ensures r == UniquenessCheck(find, tableName, id, uniqueFields, data)
  {
    var model, existValue;
    model, conds, existValue := UniqueFieldQuery(tableName, Explode(',', uniqueFields), data);
    r := Pass;
    if existValue {
      model.Field(Str("id"));
      assert model.Snapshot() == Select(tableName, Str("id"), WhereEach(conds), []);
      var optionsCode := Find(find(model.Snapshot()));
      if !IsEmpty(optionsCode) && !LooseEquals(Index(optionsCode, StrKey("id")), id) {
        r := Fail(AlreadyExistsError(uniqueFields));
      }
    }
  }

  /** The `foreach` of `verifyDataWhetherUnique`: a builder on the table with
      one `where` call per unique field that has a value, and the flag saying
      whether there was one. */
  method UniqueFieldQuery(tableName: string, uniqueFieldArr: seq<string>, data: Value)
    returns (model: Query, conds: seq<Predicate>, existValue: bool)
    ensures fresh(model)
    ensures conds == UniqueConditions(uniqueFieldArr, data) && (existValue <==> conds != [])
    ensures model.Snapshot() == Select(tableName, Null, WhereEach(conds), [])
  {
    model := new Query(tableName);
    existValue := false;
    conds := [];
    var i := 0;
    while i < |uniqueFieldArr|
      invariant 0 <= i <= |uniqueFieldArr|
      invariant conds == UniqueConditions(uniqueFieldArr[..i], data)
      invariant existValue <==> conds != []
      invariant model.Snapshot() == Select(tableName, Null, WhereEach(conds), [])
    {
      var uniqueField := uniqueFieldArr[i];
      assert uniqueFieldArr[..i + 1][..i] == uniqueFieldArr[..i];
      var value := Index(data, ArrayKey(uniqueField));
      if !IsEmpty(value) {
        var p := Predicate(Str(uniqueField), "=", Val(value));
        model.Where(WhereClause(And, [p]));
        assert (conds + [p])[..|conds|] == conds;
        conds := conds + [p];
        existValue := true;
      }
      i := i + 1;
    }
    assert uniqueFieldArr[..|uniqueFieldArr|] == uniqueFieldArr;
  }

  /** When no unique field has a value the check passes whatever the table holds. */
  lemma NoValueNoLookup(find: Select -> Option<Row>, tableName: string, id: Value, uniqueFields: string, data: Value)
    requires forall f :: f in Explode(',', uniqueFields) ==> IsEmpty(Index(data, ArrayKey(f)))
    ensures UniquenessCheck(find, tableName, id, uniqueFields, data) == Pass
  {
    UniqueConditionsEmpty(Explode(',', uniqueFields), data);
  }

  /** When every unique field has a value, there is one equality condition per
      field, in the order the fields are listed. */
  lemma {:induction false} AllValuesConditions(fields: seq<string>, data: Value)
    requires forall i :: 0 <= i < |fields| ==> !IsEmpty(Index(data, ArrayKey(fields[i])))
    ensures |UniqueConditions(fields, data)| == |fields|
    ensures forall i :: 0 <= i < |fields| ==>
      UniqueConditions(fields, data)[i] == Predicate(Str(fields[i]), "=", Val(Index(data, ArrayKey(fields[i]))))
  {
    if fields != [] {
      var n := |fields| - 1;
      var init := fields[..n];
      forall i | 0 <= i < n ensures !IsEmpty(Index(data, ArrayKey(init[i]))) {
        assert init[i] == fields[i];
      }
      AllValuesConditions(init, data);
      var ps := UniqueConditions(init, data);
      var p := Predicate(Str(fields[n]), "=", Val(Index(data, ArrayKey(fields[n]))));
      assert !IsEmpty(Index(data, ArrayKey(fields[n])));
      var all := UniqueConditions(fields, data);
      assert all == ps + [p];
      forall i | 0 <= i < |fields| ensures all[i] == Predicate(Str(fields[i]), "=", Val(Index(data, ArrayKey(fields[i])))) {
        if i < n {
          assert init[i] == fields[i];
          assert all[i] == ps[i];
        }
      }
    }
  }

  /** A row with another id is a clash; the same id, even spelt as a string,
      is the record being updated; no row is no clash. */
  lemma UniquenessExamples()
    ensures UniquenessVerdict(Arr([(StrKey("id"), Int(9))]), Int(5), "mobile") == Fail(AlreadyExistsError("mobile"))
    ensures UniquenessVerdict(Arr([(StrKey("id"), Int(9))]), Str("9"), "mobile") == Pass
    ensures UniquenessVerdict(Null, Int(5), "mobile") == Pass
  {
    LookupFirst([(StrKey("id"), Int(9))], 0, StrKey("id"));
    IntToStringNumeric(9);
  }

  // --------------------------------------------------- assembleFilterSelectDb

  /** The model class a table name resolves to. */
  function ModelClassName(tableName: string): (name: string)
    ensures |name| >= 15 && name[..10] == "app\\model\\" && name[|name| - 5..] == "Model"
    ensures name[10..|name| - 5] == Camelize(tableName)
  {
    "app\\model\\" + Camelize(tableName) + "Model"
  }

  /** The model class name contains no space. */
  lemma ModelClassNameHasNoSpace(tableName: string)
    ensures ' ' !in ModelClassName(tableName)
  {
    CamelizeHasNoSpace(tableName, "_");
    var name := ModelClassName(tableName);
    assert name == name[..10] + name[10..|name| - 5] + name[|name| - 5..];
  }

  /** `assembleFilterSelectDb($tableName, $fields, $filter, $order)`: a builder
      on the table's model with the fields, the compiled filter and the sort keys. */
  method AssembleFilterSelectDb(tableName: string, fields: Value, filter: Value, order: seq<(Key, Value)>)
    returns (model: Query, r: Outcome)
    ensures fresh(model) && model.table == ModelClassName(tableName)
    ensures model.fieldList == if IsEmpty(fields) then Null else fields
    ensures !filter.Arr? ==> r.Fail? && model.wheres == [] && model.orders == []
    ensures filter.Arr? ==>
      r == Pass && model.wheres == [WhereClause(Combinator(filter.entries), CompileFilter(filter.entries))]
      && model.orders == OrderKeys(Arr(order))
  {
    model := new Query(ModelClassName(tableName));
    if !IsEmpty(fields) {
      model.Field(fields);
    }
    r := GenerateDbFilter(model, filter);
    if r.Fail? {
      return;
    }
    GenerateDbOrder(model, Arr(order));
  }
}
