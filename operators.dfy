/** The operator table of the filter grammar: the thirteen operator tokens, and
    the PHP `switch` both the validator and the compiler dispatch on them with. */
module Operators {
  import opened Php

  /** The closed set of filter operators. */
  datatype Operator = Eq | Neq | Gt | Egt | Lt | Elt | Lk | NotLk | Bw | NotBw | In | NotIn | FindInSet

  /** The token a filter descriptor spells an operator with. */
  function Token(o: Operator): string {
    match o
    case Eq => "-eq"
    case Neq => "-neq"
    case Gt => "-gt"
    case Egt => "-egt"
    case Lt => "-lt"
    case Elt => "-elt"
    case Lk => "-lk"
    case NotLk => "-not-lk"
    case Bw => "-bw"
    case NotBw => "-not-bw"
    case In => "-in"
    case NotIn => "-not-in"
    case FindInSet => "-find_in_set"
  }

  /** The operator a token names, if it names one. */
  function Parse(s: string): (r: Option<Operator>)
    ensures forall o :: r == Some(o) <==> Token(o) == s
  {
    match s
    case "-eq" => Some(Eq)
    case "-neq" => Some(Neq)
    case "-gt" => Some(Gt)
    case "-egt" => Some(Egt)
    case "-lt" => Some(Lt)
    case "-elt" => Some(Elt)
    case "-lk" => Some(Lk)
    case "-not-lk" => Some(NotLk)
    case "-bw" => Some(Bw)
    case "-not-bw" => Some(NotBw)
    case "-in" => Some(In)
    case "-not-in" => Some(NotIn)
    case "-find_in_set" => Some(FindInSet)
    case _ => None
  }

  /** Distinct operators have distinct tokens, and parsing a token gives its operator back. */
  lemma TokenRoundTrip(o: Operator, p: Operator)
    ensures Parse(Token(o)) == Some(o)
    ensures Token(o) == Token(p) ==> o == p
  {
  }

  /** The case labels of the validator's switch, in source order. */
  const ValidatorCases: seq<Operator> := [Gt, Egt, Lt, Elt, Lk, NotLk, Eq, Neq, FindInSet, Bw, NotBw, In, NotIn]

  /** The case labels of the compiler's switch, in source order. */
  const CompilerCases: seq<Operator> := [Eq, Neq, Gt, Egt, Lt, Elt, Lk, NotLk, Bw, NotBw, In, NotIn, FindInSet]

  /** A `case` label matches when it is loosely equal (`==`) to the switched value. */
  predicate CaseMatches(op: Value, o: Operator) {
    LooseEquals(op, Str(Token(o)))
  }

  /** PHP's `switch ($op)` over the given labels: the first label that matches. */
  function Switch(op: Value, cases: seq<Operator>): (r: Option<Operator>)
    ensures r.None? <==> forall i :: 0 <= i < |cases| ==> !CaseMatches(op, cases[i])
    ensures r.Some? ==>
      exists i :: 0 <= i < |cases| && cases[i] == r.value && CaseMatches(op, r.value)
        && forall j :: 0 <= j < i ==> !CaseMatches(op, cases[j])
  {
    if cases == [] then None
    else if CaseMatches(op, cases[0]) then Some(cases[0])
    else
      var r := Switch(op, cases[1..]);
      assert r.Some? ==> exists i :: 1 <= i < |cases| && cases[i] == r.value && CaseMatches(op, r.value) && forall j :: 0 <= j < i ==> !CaseMatches(op, cases[j]) by {
        if r.Some? {
          var i :| 0 <= i < |cases[1..]| && cases[1..][i] == r.value && CaseMatches(op, r.value)
            && forall j :: 0 <= j < i ==> !CaseMatches(op, cases[1..][j]);
          assert cases[i + 1] == r.value;
          forall j | 0 <= j < i + 1 ensures !CaseMatches(op, cases[j]) {
            if j > 0 { assert cases[j] == cases[1..][j - 1]; }
          }
        }
      }
      r
  }

  /** No token is a numeric string: each is a minus sign followed by a letter. */
  lemma TokenNotNumeric(o: Operator)
    ensures !NumericString(Token(o))
    ensures |Token(o)| > 1 && Token(o)[0] == '-' && !IsDigit(Token(o)[1])
  {
  }

  /** Under PHP 8's loose comparison, a label matches exactly its own token and
      the boolean `true` (every non-empty string is truthy). */
  lemma CaseMatchesExactly(op: Value, o: Operator)
    ensures CaseMatches(op, o) <==> op == Str(Token(o)) || op == Bool(true)
  {
    TokenNotNumeric(o);
    var t := Token(o);
    match op
    case Int(i) =>
      var n: nat := if i < 0 then -i else i;
      var d := NatToString(n);
      if i < 0 {
        assert IntToString(i)[1] == d[0];
      } else {
        assert IntToString(i)[0] == d[0];
      }
    case _ =>
  }

  /** Every operator is among the labels of both switches. */
  lemma CasesComplete(o: Operator)
    ensures o in ValidatorCases && o in CompilerCases
  {
  }

  /** The two switches agree: they accept the same values, pick the same
      operator for every value except `true`, and for a string pick the
      operator its token names. `true` falls into the first label of each:
      `-gt` in the validator and `-eq` in the compiler. */
  lemma SwitchesAgree(op: Value)
    ensures Switch(op, ValidatorCases).Some? <==> Switch(op, CompilerCases).Some?
    ensures op != Bool(true) ==> Switch(op, ValidatorCases) == Switch(op, CompilerCases)
    ensures op.Str? ==> Switch(op, ValidatorCases) == Parse(op.s)
    ensures op == Bool(true) ==> Switch(op, ValidatorCases) == Some(Gt) && Switch(op, CompilerCases) == Some(Eq)
  {
    forall o: Operator ensures CaseMatches(op, o) <==> op == Str(Token(o)) || op == Bool(true) {
      CaseMatchesExactly(op, o);
    }
    forall o: Operator ensures o in ValidatorCases && o in CompilerCases {
      CasesComplete(o);
    }
    if op != Bool(true) {
      SwitchUnique(op, ValidatorCases);
      SwitchUnique(op, CompilerCases);
    }
  }

  /** For a value other than `true` at most one label matches, so the switch
      picks the operator whose token the value is, whatever the label order. */
  lemma SwitchUnique(op: Value, cases: seq<Operator>)
    requires op != Bool(true)
    requires forall o: Operator :: o in cases
    ensures Switch(op, cases) == if op.Str? then Parse(op.s) else None
  {
    forall o: Operator ensures CaseMatches(op, o) <==> op == Str(Token(o)) {
      CaseMatchesExactly(op, o);
    }
    var r := Switch(op, cases);
    if op.Str? && Parse(op.s).Some? {
      var o := Parse(op.s).value;
      assert o in cases;
      var i :| 0 <= i < |cases| && cases[i] == o;
      assert CaseMatches(op, cases[i]);
    }
  }
}
