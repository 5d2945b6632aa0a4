/** The global helper functions: the success response record, the error
    payload of `throw_http_exception`, and `camelize`. Also the failure types
    every operation of the model returns instead of throwing. */
module Helpers {
  import opened Php

  /** The payload `throw_http_exception` encodes into its exception. */
  datatype HttpError = HttpError(code: int, msg: string, data: seq<(Key, Value)>)

  /** What an operation can raise: the application's HTTP exception, or a PHP TypeError. */
  datatype Thrown = HttpException(error: HttpError) | TypeError(message: string)

  /** The result of an operation that returns nothing or throws. */
  datatype Outcome = Pass | Fail(thrown: Thrown)

  /** The result of an operation that returns a value or throws. */
  datatype Result<T> = Ok(value: T) | Err(thrown: Thrown)

  /** The code `throw_http_exception` uses when its caller gives none. */
  const DefaultErrorCode: int := -400000

  /** The version string every success response carries. */
  const AppVersion: string := "1.0"

  /** `success_response($message, $data, $status)`: the array literal with
      exactly the keys code, msg, data and APP_VERSION, in that order. */
  function SuccessResponse(message: string := "", data: seq<(Key, Value)> := [], status: int := 0): (r: seq<(Key, Value)>)
    ensures Keys(r) == [StrKey("code"), StrKey("msg"), StrKey("data"), StrKey("APP_VERSION")]
    ensures DistinctKeys(r)
    ensures Lookup(r, StrKey("code")) == Some(Int(status))
    ensures Lookup(r, StrKey("msg")) == Some(Str(message))
    ensures Lookup(r, StrKey("data")) == Some(Arr(data))
    ensures Lookup(r, StrKey("APP_VERSION")) == Some(Str(AppVersion))
  {
    FourEntries(StrKey("code"), StrKey("msg"), StrKey("data"), StrKey("APP_VERSION"),
                Int(status), Str(message), Arr(data), Str(AppVersion));
    [(StrKey("code"), Int(status)), (StrKey("msg"), Str(message)), (StrKey("data"), Arr(data)),
     (StrKey("APP_VERSION"), Str(AppVersion))]
  }

  /** An array literal of four entries with distinct keys. */
  lemma FourEntries(k0: Key, k1: Key, k2: Key, k3: Key, v0: Value, v1: Value, v2: Value, v3: Value)
    requires k0 != k1 && k0 != k2 && k0 != k3 && k1 != k2 && k1 != k3 && k2 != k3
    ensures Keys([(k0, v0), (k1, v1), (k2, v2), (k3, v3)]) == [k0, k1, k2, k3]
    ensures DistinctKeys([(k0, v0), (k1, v1), (k2, v2), (k3, v3)])
    ensures Lookup([(k0, v0), (k1, v1), (k2, v2), (k3, v3)], k0) == Some(v0)
    ensures Lookup([(k0, v0), (k1, v1), (k2, v2), (k3, v3)], k1) == Some(v1)
    ensures Lookup([(k0, v0), (k1, v1), (k2, v2), (k3, v3)], k2) == Some(v2)
    ensures Lookup([(k0, v0), (k1, v1), (k2, v2), (k3, v3)], k3) == Some(v3)
  {
    var es := [(k0, v0), (k1, v1), (k2, v2), (k3, v3)];
    FourKeys(Keys(es), k0, k1, k2, k3);
    FourLookups(es, k0, k1, k2, k3);
  }

  /** The key list of a four-entry literal, as `SuccessResponse` needs it through `FourEntries`. */
  lemma FourKeys(ks: seq<Key>, k0: Key, k1: Key, k2: Key, k3: Key)
    requires |ks| == 4 && ks[0] == k0 && ks[1] == k1 && ks[2] == k2 && ks[3] == k3
    ensures ks == [k0, k1, k2, k3]
  {
  }

  /** Distinct keys and the four lookups of a four-entry array, for `SuccessResponse` through `FourEntries`. */
  lemma FourLookups(es: seq<(Key, Value)>, k0: Key, k1: Key, k2: Key, k3: Key)
    requires k0 != k1 && k0 != k2 && k0 != k3 && k1 != k2 && k1 != k3 && k2 != k3
    requires |es| == 4 && es[0].0 == k0 && es[1].0 == k1 && es[2].0 == k2 && es[3].0 == k3
    ensures DistinctKeys(es)
    ensures Lookup(es, k0) == Some(es[0].1) && Lookup(es, k1) == Some(es[1].1)
    ensures Lookup(es, k2) == Some(es[2].1) && Lookup(es, k3) == Some(es[3].1)
  {
    forall i, j | 0 <= i < j < |es| ensures es[i].0 != es[j].0 {
      if i == 0 {
        assert j == 1 || j == 2 || j == 3;
      } else if i == 1 {
        assert j == 2 || j == 3;
      }
    }
    LookupFirst(es, 0, k0);
    LookupFirst(es, 1, k1);
    LookupFirst(es, 2, k2);
    LookupFirst(es, 3, k3);
  }

  /** `throw_http_exception($msg, $code, $data)`: the exception, carrying the
      message, the code and the data unchanged. */
  function ThrowHttpException(msg: string, code: int := DefaultErrorCode, data: seq<(Key, Value)> := []): (t: Thrown)
    ensures t.HttpException? && t.error.code == code && t.error.msg == msg && t.error.data == data
  {
    HttpException(HttpError(code, msg, data))
  }

  /** The array `throw_http_exception` encodes: keys code, msg and data. */
  function ErrorPayload(e: HttpError): (r: seq<(Key, Value)>)
    ensures Keys(r) == [StrKey("code"), StrKey("msg"), StrKey("data")]
  {
    [(StrKey("code"), Int(e.code)), (StrKey("msg"), Str(e.msg)), (StrKey("data"), Arr(e.data))]
  }

  /** Reads an error back from a payload array; `None` when a key is missing or mistyped. */
  function DecodePayload(es: seq<(Key, Value)>): Option<HttpError> {
    match (Lookup(es, StrKey("code")), Lookup(es, StrKey("msg")), Lookup(es, StrKey("data")))
    case (Some(Int(code)), Some(Str(msg)), Some(Arr(data))) => Some(HttpError(code, msg, data))
    case _ => None
  }

  /** The payload holds everything the error carries: decoding it gives the error back. */
  lemma PayloadRoundTrip(e: HttpError)
    ensures DecodePayload(ErrorPayload(e)) == Some(e)
  {
    var es := ErrorPayload(e);
    LookupFirst(es, 0, StrKey("code"));
    LookupFirst(es, 1, StrKey("msg"));
    LookupFirst(es, 2, StrKey("data"));
  }

  /** An error raised with the default code carries -400000. */
  lemma DefaultCode(msg: string)
    ensures ThrowHttpException(msg).error.code == -400000
  {
  }

  /** The outcome of a sequence of checks run in order, stopping at the first
      failure, as a `foreach` whose iterations throw or continue. */
  function FirstFailure(os: seq<Outcome>): (r: Outcome)
    ensures r == Pass <==> forall i :: 0 <= i < |os| ==> os[i] == Pass
    ensures r.Fail? ==> exists i :: 0 <= i < |os| && os[i] == r && forall j :: 0 <= j < i ==> os[j] == Pass
  {
    if os == [] then Pass
    else if os[0].Fail? then os[0]
    else
      var r := FirstFailure(os[1..]);
      assert r.Fail? ==> exists i :: 1 <= i < |os| && os[i] == r && forall j :: 0 <= j < i ==> os[j] == Pass by {
        if r.Fail? {
          var i :| 0 <= i < |os[1..]| && os[1..][i] == r && forall j :: 0 <= j < i ==> os[1..][j] == Pass;
          assert os[i + 1] == r;
          forall j | 0 <= j < i + 1 ensures os[j] == Pass {
            if j > 0 { assert os[j] == os[1..][j - 1]; }
          }
        }
      }
      r
  }

  // ---------------------------------------------------------------- camelize

  /** `str_replace($search, $replace, $subject)` for one search string: a left
      to right scan replacing every non-overlapping occurrence. An empty search
      string leaves the subject unchanged. */
  function StrReplace(search: string, replace: string, subject: string): string
    decreases |subject|
  {
    if search == [] || |subject| < |search| then subject
    else if subject[..|search|] == search then replace + StrReplace(search, replace, subject[|search|..])
    else [subject[0]] + StrReplace(search, replace, subject[1..])
  }

  /** `ltrim($s, $chars)`: drops every leading character that occurs in `chars`. */
  function LTrim(s: string, chars: string): string {
    if s != [] && s[0] in chars then LTrim(s[1..], chars) else s
  }

  /** The characters after which `ucwords` starts a new word: space, tab,
      carriage return, line feed, form feed and vertical tab. */
  predicate IsWordDelimiter(c: char) {
    c == ' ' || c == '\t' || c == '\r' || c == '\n' || c as int == 12 || c as int == 11
  }

  /** `ucwords` from a point where `capitalise` says whether a word starts. */
  function UcFrom(s: string, capitalise: bool): string {
    if s == [] then []
    else [if capitalise then UpperChar(s[0]) else s[0]] + UcFrom(s[1..], IsWordDelimiter(s[0]))
  }

  /** `ucwords($s)`: upper-cases the first character of every word. */
  function UcWords(s: string): string {
    UcFrom(s, true)
  }

  /** `camelize($words, $separator)`: lower-case everything, turn separators
      into spaces, capitalise each word and drop the spaces. */
  function Camelize(unCamelizeWords: string, separator: string := "_"): string {
    var words := separator + StrReplace(separator, " ", Lower(unCamelizeWords));
    StrReplace(" ", "", UcWords(LTrim(words, separator)))
  }

  /** A word with its first character upper-cased. */
  function Capitalize(p: string): string {
    if p == [] then [] else [UpperChar(p[0])] + p[1..]
  }

  /** The words, each capitalised, concatenated: the reference meaning of camelize. */
  function CapitalizedConcat(ps: seq<string>): string {
    if ps == [] then [] else Capitalize(ps[0]) + CapitalizedConcat(ps[1..])
  }

  lemma ReplaceCharStep(c: char, rep: string, s: string)
    requires s != []
    ensures StrReplace([c], rep, s) == (if s[0] == c then rep else [s[0]]) + StrReplace([c], rep, s[1..])
  {
    assert s[..1] == [s[0]];
  }

  lemma {:induction false} RemoveSpacesStep(x: char, t: string)
    ensures StrReplace(" ", "", [x] + t) == (if x == ' ' then [] else [x]) + StrReplace(" ", "", t)
  {
    ReplaceCharStep(' ', "", [x] + t);
    assert ([x] + t)[1..] == t;
  }

  /** Removing spaces leaves no space, keeps every other character, and shortens by the spaces. */
  lemma {:induction false} RemoveSpaces(t: string)
    ensures ' ' !in StrReplace(" ", "", t)
    ensures forall x :: x in StrReplace(" ", "", t) ==> x in t
    ensures |StrReplace(" ", "", t)| == |t| - Occurrences(t, ' ')
  {
    if t != [] {
      RemoveSpaces(t[1..]);
      RemoveSpacesStep(t[0], t[1..]);
      assert [t[0]] + t[1..] == t;
    }
  }

  /** Replacing a non-space separator with spaces keeps the length, removes the
      separator and adds one space per separator. */
  lemma {:induction false} SeparatorToSpace(c: char, s: string)
    requires c != ' '
    ensures |StrReplace([c], " ", s)| == |s|
    ensures c !in StrReplace([c], " ", s)
    ensures Occurrences(StrReplace([c], " ", s), ' ') == Occurrences(s, ' ') + Occurrences(s, c)
    ensures forall x :: x in StrReplace([c], " ", s) ==> x == ' ' || x in s
  {
    if s != [] {
      SeparatorToSpace(c, s[1..]);
      ReplaceCharStep(c, " ", s);
      OccurrencesAppend((if s[0] == c then " " else [s[0]]), StrReplace([c], " ", s[1..]), ' ');
    }
  }

  lemma {:induction false} OccurrencesAppend(a: string, b: string, x: char)
    ensures Occurrences(a + b, x) == Occurrences(a, x) + Occurrences(b, x)
  {
    if a != [] {
      OccurrencesAppend(a[1..], b, x);
      assert (a + b)[1..] == a[1..] + b;
    } else {
      assert a + b == b;
    }
  }

  /** `ucwords` keeps the length and the spaces, and creates no character
      except the upper-case form of one already there. */
  lemma {:induction false} UcFromShape(s: string, capitalise: bool)
    ensures |UcFrom(s, capitalise)| == |s|
    ensures Occurrences(UcFrom(s, capitalise), ' ') == Occurrences(s, ' ')
    ensures forall x :: x in UcFrom(s, capitalise) ==> x in s || IsUpperAscii(x)
  {
    if s != [] {
      UcFromShape(s[1..], IsWordDelimiter(s[0]));
    }
  }

  lemma {:induction false} LowerKeepsSpaces(w: string)
    ensures Occurrences(Lower(w), ' ') == Occurrences(w, ' ')
  {
    if w != [] {
      LowerKeepsSpaces(w[1..]);
      assert Lower(w)[1..] == Lower(w[1..]);
    }
  }

  lemma LTrimPrefix(c: char, r: string)
    requires c !in r
    ensures LTrim([c] + r, [c]) == r
  {
    assert ([c] + r)[1..] == r;
  }

  /** Whatever the separator, a camelized string holds no space. */
  lemma CamelizeHasNoSpace(w: string, separator: string)
    ensures ' ' !in Camelize(w, separator)
  {
    RemoveSpaces(UcWords(LTrim(separator + StrReplace(separator, " ", Lower(w)), separator)));
  }

  /** With a one-character separator that is not an upper-case ASCII letter,
      a camelized string holds no separator. */
  lemma CamelizeHasNoSeparator(w: string, c: char)
    requires !IsUpperAscii(c)
    ensures c !in Camelize(w, [c])
  {
    if c == ' ' {
      CamelizeHasNoSpace(w, [c]);
    } else {
      var r := StrReplace([c], " ", Lower(w));
      SeparatorToSpace(c, Lower(w));
      LTrimPrefix(c, r);
      UcFromShape(r, true);
      RemoveSpaces(UcWords(r));
    }
  }

  /** An upper-case letter as separator can come back through `ucwords`:
      camelize("a b", "B") is "AB". */
  lemma CamelizeUpperSeparator()
    ensures Camelize("a b", "B") == "AB"
    ensures 'B' in Camelize("a b", "B")
  {
    assert Lower("a b") == "a b";
    assert StrReplace("B", " ", "a b") == "a b" by {
      ReplaceCharStep('B', " ", "a b");
      ReplaceCharStep('B', " ", " b");
      ReplaceCharStep('B', " ", "b");
    }
    assert LTrim("Ba b", "B") == "a b";
    assert UcWords("a b") == "A B" by {
      assert UcFrom("b", true) == "B";
      assert UcFrom(" b", false) == " B";
    }
    assert StrReplace(" ", "", "A B") == "AB" by {
      RemoveSpacesStep('A', " B");
      RemoveSpacesStep(' ', "B");
      RemoveSpacesStep('B', "");
    }
  }

  /** With a one-character separator other than space, the result is shorter
      than the input by the number of separators (after lower-casing) and spaces. */
  lemma CamelizeLength(w: string, c: char)
    requires c != ' '
    ensures |Camelize(w, [c])| == |w| - Occurrences(Lower(w), c) - Occurrences(w, ' ')
  {
    var r := StrReplace([c], " ", Lower(w));
    SeparatorToSpace(c, Lower(w));
    LowerKeepsSpaces(w);
    LTrimPrefix(c, r);
    UcFromShape(r, true);
    RemoveSpaces(UcWords(r));
  }

  /** Camelizing the lower-cased string `s` from a given capitalisation state
      gives its separator-split words, the first capitalised only if the state
      says so and the others always. */
  predicate WordsAgree(s: string, c: char, capitalise: bool) {
    var ps := Explode(c, s);
    StrReplace(" ", "", UcFrom(StrReplace([c], " ", s), capitalise))
    == (if capitalise then Capitalize(ps[0]) else ps[0]) + CapitalizedConcat(ps[1..])
  }

  /** The main step of the word characterisation of camelize, on a lower-cased
      string `s` without whitespace. */
  lemma {:induction false} CamelizeWordsFrom(s: string, c: char, capitalise: bool)
    requires !IsWordDelimiter(c)
    requires forall i :: 0 <= i < |s| ==> !IsWordDelimiter(s[i])
    ensures WordsAgree(s, c, capitalise)
  {
    if s != [] {
      if s[0] == c {
        CamelizeWordsFrom(s[1..], c, true);
        SeparatorStep(s, c, capitalise);
      } else {
        CamelizeWordsFrom(s[1..], c, false);
        LetterStep(s, c, capitalise);
      }
    }
  }

  /** A separator ends the current word: the next character is capitalised. */
  lemma SeparatorStep(s: string, c: char, capitalise: bool)
    requires !IsWordDelimiter(c) && s != [] && s[0] == c
    requires WordsAgree(s[1..], c, true)
    ensures WordsAgree(s, c, capitalise)
  {
    var rest := Explode(c, s[1..]);
    var r := StrReplace([c], " ", s[1..]);
    ReplaceCharStep(c, " ", s);
    assert StrReplace([c], " ", s) == [' '] + r;
    assert UcFrom([' '] + r, capitalise) == [' '] + UcFrom(r, true) by {
      assert ([' '] + r)[1..] == r;
    }
    RemoveSpacesStep(' ', UcFrom(r, true));
    assert Explode(c, s) == [[]] + rest;
    assert ([[]] + rest)[1..] == rest;
    assert CapitalizedConcat(rest) == Capitalize(rest[0]) + CapitalizedConcat(rest[1..]);
  }

  /** A letter continues the current word, capitalised only at its start. */
  lemma LetterStep(s: string, c: char, capitalise: bool)
    requires !IsWordDelimiter(c) && s != [] && s[0] != c && !IsWordDelimiter(s[0])
    requires WordsAgree(s[1..], c, false)
    ensures WordsAgree(s, c, capitalise)
  {
    var rest := Explode(c, s[1..]);
    var ps := Explode(c, s);
    LetterPieces(s, c, capitalise);
    LetterSpaces(s, c, capitalise);
    ConcatStep(StrReplace(" ", "", UcFrom(StrReplace([c], " ", s), capitalise)),
               StrReplace(" ", "", UcFrom(StrReplace([c], " ", s[1..]), false)),
               rest[0], CapitalizedConcat(rest[1..]),
               if capitalise then Capitalize(ps[0]) else ps[0],
               if capitalise then UpperChar(s[0]) else s[0], CapitalizedConcat(ps[1..]));
  }

  /** The concatenation step of `LetterStep`, stated on plain strings so that the solver does not unfold them. */
  lemma ConcatStep(lhs: string, tail: string, t0: string, cc: string, head: string, x: char, cc': string)
    requires lhs == [x] + tail && tail == t0 + cc && head == [x] + t0 && cc' == cc
    ensures lhs == head + cc'
  {
  }

  /** After a letter, the first piece grows by that letter and the others stay. */
  lemma LetterPieces(s: string, c: char, capitalise: bool)
    requires s != [] && s[0] != c
    ensures Explode(c, s)[0] == [s[0]] + Explode(c, s[1..])[0]
    ensures Explode(c, s)[1..] == Explode(c, s[1..])[1..]
    ensures (if capitalise then Capitalize(Explode(c, s)[0]) else Explode(c, s)[0]) ==
      [if capitalise then UpperChar(s[0]) else s[0]] + Explode(c, s[1..])[0]
  {
    var rest := Explode(c, s[1..]);
    var ps := Explode(c, s);
    assert ps == [[s[0]] + rest[0]] + rest[1..];
    var p0 := ps[0];
    assert p0[0] == s[0];
    assert p0[1..] == rest[0];
  }

  lemma LetterSpaces(s: string, c: char, capitalise: bool)
    requires !IsWordDelimiter(c) && s != [] && s[0] != c && !IsWordDelimiter(s[0])
    ensures StrReplace(" ", "", UcFrom(StrReplace([c], " ", s), capitalise)) ==
      [if capitalise then UpperChar(s[0]) else s[0]] + StrReplace(" ", "", UcFrom(StrReplace([c], " ", s[1..]), false))
  {
    var r := StrReplace([c], " ", s[1..]);
    ReplaceCharStep(c, " ", s);
    var x := if capitalise then UpperChar(s[0]) else s[0];
    assert StrReplace([c], " ", s) == [s[0]] + r;
    assert UcFrom([s[0]] + r, capitalise) == [x] + UcFrom(r, false) by {
      assert ([s[0]] + r)[1..] == r;
    }
    RemoveSpacesStep(x, UcFrom(r, false));
  }

  /** For an input without whitespace and a one-character separator that is not
      whitespace, camelize splits the lower-cased input at the separators and
      concatenates the words with their first letters upper-cased. */
  lemma CamelizeWords(w: string, c: char)
    requires !IsWordDelimiter(c)
    requires forall i :: 0 <= i < |w| ==> !IsWordDelimiter(w[i])
    ensures Camelize(w, [c]) == CapitalizedConcat(Explode(c, Lower(w)))
  {
    var s := Lower(w);
    SeparatorToSpace(c, s);
    LTrimPrefix(c, StrReplace([c], " ", s));
    CamelizeWordsFrom(s, c, true);
    var ps := Explode(c, s);
    assert CapitalizedConcat(ps) == Capitalize(ps[0]) + CapitalizedConcat(ps[1..]);
  }

  /** camelize("user_info") is "UserInfo". */
  lemma CamelizeLowerExample()
    ensures Camelize("user_info") == "UserInfo"
  {
    LowerLiteral("user_info", "user_info");
    CamelizeUserInfo("user_info");
  }

  /** camelize("USER_INFO") is "UserInfo": the input is lower-cased first. */
  lemma CamelizeUpperExample()
    ensures Camelize("USER_INFO") == "UserInfo"
  {
    LowerLiteral("USER_INFO", "user_info");
    CamelizeUserInfo("USER_INFO");
  }

  lemma CamelizeUserInfo(w: string)
    requires Lower(w) == "user_info"
    ensures Camelize(w) == "UserInfo"
  {
    forall i | 0 <= i < |w| ensures !IsWordDelimiter(w[i]) {
      assert LowerChar(w[i]) == "user_info"[i];
    }
    CamelizeWords(w, '_');
    UserInfoWords();
  }

  lemma LowerLiteral(w: string, l: string)
    requires |w| == |l| && forall i :: 0 <= i < |w| ==> LowerChar(w[i]) == l[i]
    ensures Lower(w) == l
  {
  }

  lemma UserInfoWords()
    ensures CapitalizedConcat(Explode('_', "user_info")) == "UserInfo"
  {
    assert Implode('_', ["user", "info"]) == "user_info";
    ExplodeImplode('_', ["user", "info"]);
    assert CapitalizedConcat(["user", "info"]) == "UserInfo";
  }
}
