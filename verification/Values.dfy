/** Payload values, the order on identifiers, and finite sums. */
module Values {

  datatype Option<+T> = None | Some(value: T)

  /** A JSON value together with what the two programs read from it. `printed` is
      the default textual form of a value that is not a string; a string is split by
      whether it parses as a number. */
  datatype Json =
    | JNull
    | JBool(b: bool)
    | JNumber(n: real, printed: string)
    | JText(text: string)
    | JNumericText(text: string, n: real)
    | JArray(items: seq<Json>, printed: string)
    | JObject(fields: map<string, Json>, printed: string)

  type Payload = map<string, Json>

  /** A missing key reads as nil. */
  function Field(p: Payload, key: string): Json {
    if key in p then p[key] else JNull
  }

  function AsString(v: Json): string {
    match v
    case JNull => ""
    case JBool(b) => if b then "true" else "false"
    case JText(s) => s
    case JNumericText(s, _) => s
    case JNumber(_, s) => s
    case JArray(_, s) => s
    case JObject(_, s) => s
  }

  function AsFloat(v: Json): real {
    match v
    case JNumber(n, _) => n
    case JNumericText(_, n) => n
    case _ => 0.0
  }

  /** The string comparison of `AsBool` ignores case. */
  predicate SpellsTrue(s: string) {
    |s| == 4 && s[0] in "tT" && s[1] in "rR" && s[2] in "uU" && s[3] in "eE"
  }

  predicate AsBool(v: Json) {
    if v.JBool? then v.b else SpellsTrue(AsString(v))
  }

  /** An array that is read as a list of strings; anything else reads as nil. */
  function AsStrings(v: Json): seq<string> {
    if v.JArray? then seq(|v.items|, i requires 0 <= i < |v.items| => AsString(v.items[i])) else []
  }

  /** Conversion of a number to an integer truncates toward zero. */
  function Truncate(x: real): int {
    if x >= 0.0 then x.Floor else -((-x).Floor)
  }

  /** The result is on the same side of zero and loses less than one. */
  lemma TruncateMeans(x: real)
    ensures x >= 0.0 ==> 0.0 <= Truncate(x) as real <= x < Truncate(x) as real + 1.0
    ensures x <= 0.0 ==> Truncate(x) as real - 1.0 < x <= Truncate(x) as real <= 0.0
  {
  }

  function LowerCase(s: string): string {
    seq(|s|, i requires 0 <= i < |s| => if 'A' <= s[i] <= 'Z' then s[i] - 'A' + 'a' else s[i])
  }

  /** A value that is not a truth value reads as true exactly when its text is "true" in any case. */
  lemma AsBoolMeans(v: Json)
    ensures v.JBool? ==> AsBool(v) == v.b
    ensures !v.JBool? ==> (AsBool(v) <==> LowerCase(AsString(v)) == "true")
  {
    var s := AsString(v);
    var l := LowerCase(s);
    if |s| == 4 {
      assert l == [l[0], l[1], l[2], l[3]];
    }
  }

  /** `patch` laid over `base`. */
  function Overlay(base: Payload, patch: Payload): Payload {
    base + patch
  }

  // ---------------------------------------------------------------- identifiers

  /** Lexicographic order of strings. */
  predicate LexLess(a: string, b: string) {
    b != "" && (a == "" || a[0] < b[0] || (a[0] == b[0] && LexLess(a[1..], b[1..])))
  }

  lemma {:induction false} LexTotal(a: string, b: string)
    ensures a == b || LexLess(a, b) || LexLess(b, a)
  {
    if a != "" && b != "" && a[0] == b[0] {
      LexTotal(a[1..], b[1..]);
      if a[1..] == b[1..] {
        assert a == [a[0]] + a[1..] == b;
      }
    }
  }

  lemma {:induction false} LexAsymmetric(a: string, b: string)
    ensures !(LexLess(a, b) && LexLess(b, a))
  {
    if a != "" && b != "" && a[0] == b[0] {
      LexAsymmetric(a[1..], b[1..]);
    }
  }

  lemma {:induction false} LexTransitive(a: string, b: string, c: string)
    requires LexLess(a, b) && LexLess(b, c)
    ensures LexLess(a, c)
  {
    if a != "" && a[0] == b[0] && b[0] == c[0] {
      LexTransitive(a[1..], b[1..], c[1..]);
    }
  }

  // ----------------------------------------------------------------------- sums

  ghost function SumOver<T(!new)>(s: set<T>, f: T -> int): int {
    if s == {} then 0 else var x :| x in s; f(x) + SumOver(s - {x}, f)
  }

  lemma {:induction false} SumInsert<T(!new)>(s: set<T>, x: T, f: T -> int)
    requires x !in s
    ensures SumOver(s + {x}, f) == f(x) + SumOver(s, f)
    decreases s
  {
    var all := s + {x};
    var y :| y in all && SumOver(all, f) == f(y) + SumOver(all - {y}, f);
    if y == x {
      assert all - {x} == s;
    } else {
      var rest := s - {y};
      assert all - {y} == rest + {x};
      SumInsert(rest, x, f);
      SumInsert(rest, y, f);
      assert rest + {y} == s;
    }
  }

  lemma {:induction false} SumAgree<T(!new)>(s: set<T>, f: T -> int, g: T -> int)
    requires forall x :: x in s ==> f(x) == g(x)
    ensures SumOver(s, f) == SumOver(s, g)
  {
    if s != {} {
      var x :| x in s;
      SumAgree(s - {x}, f, g);
      SumInsert(s - {x}, x, f);
      SumInsert(s - {x}, x, g);
      assert s - {x} + {x} == s;
    }
  }

  lemma {:induction false} SumBound<T(!new)>(s: set<T>, f: T -> int, k: int)
    requires forall x :: x in s ==> f(x) <= k
    ensures SumOver(s, f) <= k * |s|
  {
    if s != {} {
      var x :| x in s;
      var rest := s - {x};
      SumBound(rest, f, k);
      SumInsert(rest, x, f);
      assert rest + {x} == s;
      MulNext(k, |rest|);
      assert |s| == |rest| + 1;
    }
  }

  lemma MulNext(k: int, n: nat)
    ensures k * (n + 1) == k + k * n
  {
  }
}
