/** The custom validation rules of `BaseValidate`: update data, filter, order
    and page descriptors. Each rule returns a boolean or raises an HTTP
    exception carrying the ILLEGAL_QUERY code; raising is modelled by `Err`. */
module BaseValidate {
  import opened Php
  import opened Helpers
  import opened Operators
  import ErrorCodes

  /** The exception every failed rule raises. */
  function Illegal(msg: string): (t: Thrown)
    ensures IsIllegalQuery(t) && t.error.msg == msg
  {
    ThrowHttpException(msg, ErrorCodes.IllegalQuery)
  }

  predicate IsIllegalQuery(t: Thrown) {
    t.HttpException? && t.error.code == ErrorCodes.IllegalQuery
  }

  // ------------------------------------------------------------ updateEnsureOne

  /** `updateEnsureOne`: the update data is an array of at least two fields. */
  function UpdateEnsureOne(value: Value): (r: bool)
    ensures r <==> value.Arr? && |value.entries| >= 2
  {
    value.Arr? && |value.entries| >= 2
  }

  /** Update data always carries `id`; the rule holds exactly when some other
      field is being updated as well. */
  lemma UpdateNeedsFieldBesidesId(es: seq<(Key, Value)>)
    requires DistinctKeys(es)
    requires Lookup(es, StrKey("id")).Some?
    ensures UpdateEnsureOne(Arr(es)) <==> exists i :: 0 <= i < |es| && es[i].0 != StrKey("id")
  {
    if |es| >= 2 {
      if es[0].0 == StrKey("id") {
        assert es[1].0 != StrKey("id");
      } else {
        assert es[0].0 != StrKey("id");
      }
    }
  }

  // ---------------------------------------------------------------- queryFilter

  const LogicMessage: string := "The filtering condition query logic can only be -or or -and."

  const OperatorMessage: string :=
    "The query condition only support: -gt,-egt,-lt,-elt,-lk,-not-lk,-eq,-neq,-bw,-not-bw,-in,-not-in,-find_in_set."

  /** PHP 8's TypeError for `count()` on a value that is not an array: only the
      type-independent prefix, without PHP's trailing ", <type> given". */
  const CountTypeError: string := "count(): Argument #1 ($value) must be of type Countable|array"

  /** The key that names the combinator rather than a field. */
  const LogicKey: Key := StrKey("_logic")

  function ShapeMessage(field: Key): string {
    "The format of " + KeyText(field) + " field query criteria is incorrect."
  }

  /** The message raised when the operand does not suit the operator. */
  function OperandMessage(o: Operator, field: Key): string {
    match o
    case Gt | Egt | Lt | Elt => "The " + KeyText(field) + " field query value must be a number."
    case Lk | NotLk | Eq | Neq | FindInSet => "The " + KeyText(field) + " field query value must be a number or string."
    case Bw | NotBw => "The " + KeyText(field) + " field query parameter must be an array with a length equal to 2."
    case In | NotIn => "The " + KeyText(field) + " field query parameters must be strings separated by commas."
  }

  /** The operand typing of each operator group, with the comma test of
      `-in`/`-not-in` written as the source writes it: `strpos(...) >= 0`. */
  predicate OperandAccepted(o: Operator, condition: Value) {
    match o
    case Gt | Egt | Lt | Elt => IsNumeric(condition)
    case Lk | NotLk | Eq | Neq | FindInSet => IsNumeric(condition) || condition.Str?
    case Bw | NotBw => condition.Arr? && |condition.entries| == 2
    case In | NotIn => condition.Str? && StrposAtLeast(Strpos(condition.s, ','), 0)
  }

  /** One iteration of the `foreach` of `queryFilter`: the entry `field => conditionData`. */
  function CheckFilterEntry(field: Key, conditionData: Value): Outcome {
    if field == LogicKey then
      if conditionData == Str("-or") || conditionData == Str("-and") then Pass else Fail(Illegal(LogicMessage))
    else if !conditionData.Arr? then Fail(TypeError(CountTypeError))
    else if |conditionData.entries| != 2 then Fail(Illegal(ShapeMessage(field)))
    else
      var op := Index(conditionData, IntKey(0));
      var condition := Index(conditionData, IntKey(1));
      match Switch(op, ValidatorCases)
      case None => Fail(Illegal(OperatorMessage))
      case Some(o) => if OperandAccepted(o, condition) then Pass else Fail(Illegal(OperandMessage(o, field)))
  }

  /** The checks of all entries, in iteration order. */
  function FilterChecks(es: seq<(Key, Value)>): (os: seq<Outcome>)
    ensures |os| == |es| && forall i :: 0 <= i < |es| ==> os[i] == CheckFilterEntry(es[i].0, es[i].1)
  {
    seq(|es|, i requires 0 <= i < |es| => CheckFilterEntry(es[i].0, es[i].1))
  }

  /** `queryFilter($filter)`: false for a non-array, true when every entry
      passes, otherwise the exception of the first failing entry. */
  function QueryFilter(filter: Value): Result<bool> {
    if filter.Arr? then
      match FirstFailure(FilterChecks(filter.entries))
      case Pass => Ok(true)
      case Fail(t) => Err(t)
    else Ok(false)
  }

  /** Entry `i` is the first whose check fails, and it fails with `t`. */
  predicate FirstFailingEntry(es: seq<(Key, Value)>, i: int, t: Thrown) {
    && 0 <= i < |es|
    && CheckFilterEntry(es[i].0, es[i].1) == Fail(t)
    && forall j :: 0 <= j < i ==> CheckFilterEntry(es[j].0, es[j].1) == Pass
  }

  /** The overall behaviour of `queryFilter`: false exactly for a non-array;
      true exactly when every entry passes; otherwise the failure of the first
      failing entry, all entries before it having passed. */
  lemma QueryFilterSpec(filter: Value)
    ensures QueryFilter(filter) == Ok(false) <==> !filter.Arr?
    ensures QueryFilter(filter) == Ok(true) <==>
      filter.Arr? && forall i :: 0 <= i < |filter.entries| ==> CheckFilterEntry(filter.entries[i].0, filter.entries[i].1) == Pass
    ensures QueryFilter(filter).Err? ==>
      filter.Arr? && exists i :: FirstFailingEntry(filter.entries, i, QueryFilter(filter).thrown)
  {
    if filter.Arr? {
      var os := FilterChecks(filter.entries);
      var r := FirstFailure(os);
      if r.Fail? {
        var i :| 0 <= i < |os| && os[i] == r && forall j :: 0 <= j < i ==> os[j] == Pass;
        assert FirstFailingEntry(filter.entries, i, QueryFilter(filter).thrown);
      }
    }
  }

  /** A `_logic` entry passes exactly when it is the string `-or` or `-and`;
      anything else raises ILLEGAL_QUERY. */
  lemma LogicEntry(v: Value)
    ensures CheckFilterEntry(LogicKey, v) == Pass <==> v == Str("-or") || v == Str("-and")
    ensures CheckFilterEntry(LogicKey, v) != Pass ==> CheckFilterEntry(LogicKey, v) == Fail(Illegal(LogicMessage))
  {
  }

  /** A field entry that is an array of other than two elements raises ILLEGAL_QUERY;
      one that is not an array at all makes `count()` raise a TypeError. */
  lemma ShapeEntry(field: Key, v: Value)
    requires field != LogicKey
    ensures v.Arr? && |v.entries| != 2 ==> CheckFilterEntry(field, v) == Fail(Illegal(ShapeMessage(field)))
    ensures !v.Arr? ==> CheckFilterEntry(field, v) == Fail(TypeError(CountTypeError))
  {
  }

  /** A field entry `[token, operand]` passes exactly when the token is one of
      the thirteen operators and the operand suits it. An unknown token raises
      ILLEGAL_QUERY with the list of supported operators. */
  lemma OperatorEntry(field: Key, token: string, operand: Value)
    requires field != LogicKey
    ensures CheckFilterEntry(field, Pair(Str(token), operand)) == Pass <==>
      Parse(token).Some? && OperandAccepted(Parse(token).value, operand)
    ensures Parse(token).None? ==> CheckFilterEntry(field, Pair(Str(token), operand)) == Fail(Illegal(OperatorMessage))
    ensures Parse(token).Some? && !OperandAccepted(Parse(token).value, operand) ==>
      CheckFilterEntry(field, Pair(Str(token), operand)) == Fail(Illegal(OperandMessage(Parse(token).value, field)))
  {
    PairIndex(Str(token), operand);
    SwitchesAgree(Str(token));
  }

  /** The operand typing per operator group. For `-in` and `-not-in` the comma
      test is vacuous (`false >= 0` holds in PHP), so every string, the empty
      string included, is accepted and nothing else is. */
  lemma OperandTyping(o: Operator, c: Value)
    ensures o in {Gt, Egt, Lt, Elt} ==> (OperandAccepted(o, c) <==> IsNumeric(c))
    ensures o in {Lk, NotLk, Eq, Neq, FindInSet} ==> (OperandAccepted(o, c) <==> IsNumeric(c) || c.Str?)
    ensures o in {Bw, NotBw} ==> (OperandAccepted(o, c) <==> c.Arr? && |c.entries| == 2)
    ensures o in {In, NotIn} ==> (OperandAccepted(o, c) <==> c.Str?)
  {
    if c.Str? {
      StrposAtLeastZero(c.s, ',');
    }
  }

  /** Every failure of a filter entry is ILLEGAL_QUERY, except the TypeError of
      `count()` on a field entry that is not an array. */
  lemma FilterEntryFailure(field: Key, v: Value)
    ensures CheckFilterEntry(field, v).Fail? ==>
      IsIllegalQuery(CheckFilterEntry(field, v).thrown) || (field != LogicKey && !v.Arr? && CheckFilterEntry(field, v).thrown == TypeError(CountTypeError))
  {
  }

  /** Every exception `queryFilter` raises is ILLEGAL_QUERY or the TypeError of `count()`. */
  lemma QueryFilterErrors(filter: Value)
    ensures QueryFilter(filter).Err? ==>
      IsIllegalQuery(QueryFilter(filter).thrown) || QueryFilter(filter).thrown == TypeError(CountTypeError)
  {
    QueryFilterSpec(filter);
    if QueryFilter(filter).Err? {
      var es := filter.entries;
      var i :| FirstFailingEntry(es, i, QueryFilter(filter).thrown);
      FilterEntryFailure(es[i].0, es[i].1);
    }
  }

  // ----------------------------------------------------------------- queryOrder

  const OrderFormatMessage: string :=
    "The sorting parameter format must be [{\"field\": \"xxx\", \"order\": \"asc\"}], and the order parameter can only be asc or desc."

  const OrderLimitMessage: string := "The single sorting rule cannot exceed 5 fields."

  /** The most sort keys one request may give. */
  const MaxOrderEntries: nat := 5

  /** PHP 8's TypeError for `strtolower()` on an array. */
  const LowerTypeError: string := "strtolower(): Argument #1 ($string) must be of type string, array given"

  /** One iteration of the `foreach` of `queryOrder`. `empty()` reads a
      missing key, or a key of a non-array, as null; `strtolower` converts an
      int or a bool to its string first. */
  function CheckOrderEntry(condition: Value): Outcome {
    var field := Index(condition, StrKey("field"));
    var order := Index(condition, StrKey("order"));
    if IsEmpty(field) || IsEmpty(order) then Fail(Illegal(OrderFormatMessage))
    else if order.Arr? then Fail(TypeError(LowerTypeError))
    else if Lower(ToStr(order)) == "asc" || Lower(ToStr(order)) == "desc" then Pass
    else Fail(Illegal(OrderFormatMessage))
  }

  function OrderChecks(es: seq<(Key, Value)>): (os: seq<Outcome>)
    ensures |os| == |es| && forall i :: 0 <= i < |es| ==> os[i] == CheckOrderEntry(es[i].1)
  {
    seq(|es|, i requires 0 <= i < |es| => CheckOrderEntry(es[i].1))
  }

  /** `queryOrder($order)`: true, or the first exception. */
  function QueryOrder(order: Value): Result<bool> {
    if !order.Arr? then Err(Illegal(OrderFormatMessage))
    else if |order.entries| > MaxOrderEntries then Err(Illegal(OrderLimitMessage))
    else if IsEmpty(order) then Ok(true)
    else
      match FirstFailure(OrderChecks(order.entries))
      case Pass => Ok(true)
      case Fail(t) => Err(t)
  }

  /** A well-formed sort directive: an array with a non-empty `field` and an
      `order` that is `asc` or `desc` in any letter case. */
  predicate ValidDirective(c: Value) {
    c.Arr?
    && !IsEmpty(Index(c, StrKey("field")))
    && Index(c, StrKey("order")).Str?
    && (Lower(Index(c, StrKey("order")).s) == "asc" || Lower(Index(c, StrKey("order")).s) == "desc")
  }

  /** The string of an int or a bool is never a sort direction. */
  lemma NotDirection(v: Value)
    requires v.Int? || v.Bool?
    ensures Lower(ToStr(v)) != "asc" && Lower(ToStr(v)) != "desc"
  {
    var s := ToStr(v);
    if s != [] {
      assert s[0] == '-' || IsDigit(s[0]) by {
        if v.Int? {
          var n: nat := if v.i < 0 then -v.i else v.i;
          if v.i >= 0 { assert s[0] == NatToString(n)[0]; }
        }
      }
      assert Lower(s)[0] == s[0];
    }
  }

  /** A sort entry passes exactly when it is a valid directive. */
  lemma OrderEntryValid(c: Value)
    ensures CheckOrderEntry(c) == Pass <==> ValidDirective(c)
  {
    var order := Index(c, StrKey("order"));
    if order.Int? || order.Bool? {
      NotDirection(order);
    }
  }

  /** `queryOrder` accepts exactly an array of at most five valid directives
      (the empty array included) and never returns false. Every exception it
      raises is ILLEGAL_QUERY, or the TypeError of `strtolower` on an array. */
  lemma QueryOrderSpec(order: Value)
    ensures QueryOrder(order) != Ok(false)
    ensures QueryOrder(order) == Ok(true) <==>
      order.Arr? && |order.entries| <= MaxOrderEntries
      && forall i :: 0 <= i < |order.entries| ==> ValidDirective(order.entries[i].1)
    ensures !order.Arr? ==> QueryOrder(order) == Err(Illegal(OrderFormatMessage))
    ensures order.Arr? && |order.entries| > MaxOrderEntries ==> QueryOrder(order) == Err(Illegal(OrderLimitMessage))
    ensures QueryOrder(order).Err? ==>
      IsIllegalQuery(QueryOrder(order).thrown) || QueryOrder(order).thrown == TypeError(LowerTypeError)
  {
    if order.Arr? && |order.entries| <= MaxOrderEntries {
      var es := order.entries;
      forall i | 0 <= i < |es| ensures CheckOrderEntry(es[i].1) == Pass <==> ValidDirective(es[i].1) {
        OrderEntryValid(es[i].1);
      }
      var os := OrderChecks(es);
      if FirstFailure(os).Fail? {
        var i :| 0 <= i < |os| && os[i] == FirstFailure(os) && forall j :: 0 <= j < i ==> os[j] == Pass;
      }
    }
  }

  /** A sort directive `{field: f, order: d}`. */
  function Directive(field: string, direction: string): Value {
    Arr([(StrKey("field"), Str(field)), (StrKey("order"), Str(direction))])
  }

  lemma DirectiveValid(field: string, direction: string)
    requires field != "" && field != "0"
    requires Lower(direction) == "asc" || Lower(direction) == "desc"
    ensures ValidDirective(Directive(field, direction))
  {
    LookupFirst(Directive(field, direction).entries, 0, StrKey("field"));
    LookupFirst(Directive(field, direction).entries, 1, StrKey("order"));
  }

  /** Any six entries are too many, whatever they hold. */
  lemma QueryOrderRejectsSix(es: seq<(Key, Value)>)
    requires |es| == 6
    ensures QueryOrder(Arr(es)) == Err(Illegal(OrderLimitMessage))
  {
  }

  /** Directives pass whatever the letter case of their directions. */
  lemma QueryOrderAcceptsMixedCase()
    ensures QueryOrder(Arr([(IntKey(0), Directive("name", "DESC")), (IntKey(1), Directive("id", "Asc"))])) == Ok(true)
  {
    LowerLiteral("DESC", "desc");
    LowerLiteral("Asc", "asc");
    DirectiveValid("name", "DESC");
    DirectiveValid("id", "Asc");
    TwoDirectives(Directive("name", "DESC"), Directive("id", "Asc"));
  }

  /** Two valid directives are accepted; `QueryOrderAcceptsMixedCase` instantiates it. */
  lemma TwoDirectives(a: Value, b: Value)
    requires ValidDirective(a) && ValidDirective(b)
    ensures QueryOrder(Arr([(IntKey(0), a), (IntKey(1), b)])) == Ok(true)
  {
    QueryOrderSpec(Arr([(IntKey(0), a), (IntKey(1), b)]));
  }

  lemma QueryOrderAcceptsEmpty()
    ensures QueryOrder(Arr([])) == Ok(true)
  {
  }

  // ------------------------------------------------------------------ queryPage

  const PageFormatMessage: string := "The page parameter format must be [page_number,page_size]."

  const PageLimitMessage: string := "Single page data cannot exceed 1000 entries."

  /** The largest page size one request may ask for. */
  const MaxPageSize: int := 1000

  /** `queryPage($page)`: true, or an exception; it never returns false. */
  function QueryPage(page: Value): Result<bool> {
    if page.Arr? && |page.entries| == 2 then
      var pageNum := Index(page, IntKey(0));
      var pageSize := Index(page, IntKey(1));
      if IsNumeric(pageNum) && IsNumeric(pageSize) then
        if NumberOf(pageSize) > MaxPageSize as real then Err(Illegal(PageLimitMessage)) else Ok(true)
      else Err(Illegal(PageFormatMessage))
    else Err(Illegal(PageFormatMessage))
  }

  /** `queryPage` accepts exactly a two-element array whose elements at 0 and 1
      are numeric with the page size at most 1000; there is no lower bound.
      Every rejection raises ILLEGAL_QUERY. */
  lemma QueryPageSpec(page: Value)
    ensures QueryPage(page) != Ok(false)
    ensures QueryPage(page) == Ok(true) <==>
      page.Arr? && |page.entries| == 2
      && IsNumeric(Index(page, IntKey(0))) && IsNumeric(Index(page, IntKey(1)))
      && NumberOf(Index(page, IntKey(1))) <= MaxPageSize as real
    ensures QueryPage(page).Err? ==> IsIllegalQuery(QueryPage(page).thrown)
  {
  }

  /** `[1, 1000]` passes: the page size may be exactly 1000. */
  lemma QueryPageAtLimit()
    ensures QueryPage(Pair(Int(1), Int(1000))) == Ok(true)
  {
    PairIndex(Int(1), Int(1000));
  }

  /** `[1, 1001]` is one entry too many. */
  lemma QueryPageOverLimit()
    ensures QueryPage(Pair(Int(1), Int(1001))) == Err(Illegal(PageLimitMessage))
  {
    PairIndex(Int(1), Int(1001));
  }

  /** There is no lower bound on either number. */
  lemma QueryPageNoLowerBound()
    ensures QueryPage(Pair(Int(-3), Int(-20))) == Ok(true)
  {
    PairIndex(Int(-3), Int(-20));
  }

  /** A page size that is not numeric is a format error. */
  lemma QueryPageNotNumeric()
    ensures QueryPage(Pair(Int(1), Str("abc"))) == Err(Illegal(PageFormatMessage))
  {
    PairIndex(Int(1), Str("abc"));
    assert !NumericString("abc");
  }
}
