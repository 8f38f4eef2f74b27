/** Mass-balance reconciliation of a residue lot. */
module MassBalance {
  import opened Values
  import opened Events

  datatype Totals = Totals(generated: real, transferred: real, accepted: real, transformed: real, rejected: real)

  const ZERO := Totals(0.0, 0.0, 0.0, 0.0, 0.0)

  datatype Issue = NoGeneration | TransferMismatch | AcceptanceMismatch | TransformationMismatch | NoValorization

  const TOLERANCE := 0.05

  function AddEvent(t: Totals, e: Event): Totals {
    var weight := AsFloat(Field(e.payload, "weight_kg"));
    match e.etype
    case ResidueGeneration => t.(generated := t.generated + weight)
    case ResidueCustody =>
      t.(transferred := t.transferred + weight,
         accepted := if AsBool(Field(e.payload, "accepted")) then t.accepted + weight else t.accepted)
    case Valorization =>
      t.(transformed := t.transformed + AsFloat(Field(e.payload, "input_kg")),
         rejected := t.rejected + AsFloat(Field(e.payload, "rejected_kg")))
    case _ => t
  }

  function TotalsOf(events: seq<Event>): Totals {
    if events == [] then ZERO else AddEvent(TotalsOf(events[..|events| - 1]), events[|events| - 1])
  }

  function Max(a: real, b: real): real {
    if a >= b then a else b
  }

  function Abs(a: real): real {
    if a >= 0.0 then a else -a
  }

  /** Relative difference within the tolerance. */
  predicate Within(a: real, b: real) {
    Max(a, b) == 0.0 || Abs(a - b) / Max(a, b) <= TOLERANCE
  }

  function IssuesOf(t: Totals): seq<Issue> {
    var accounted := t.transformed + t.rejected;
    (if t.generated == 0.0 then [NoGeneration] else [])
    + (if t.transferred != 0.0 && !Within(t.generated, t.transferred) then [TransferMismatch] else [])
    + (if t.accepted != 0.0 && !Within(t.transferred, t.accepted) then [AcceptanceMismatch] else [])
    + (if accounted != 0.0 && !Within(t.accepted, accounted) then [TransformationMismatch] else [])
    + (if accounted == 0.0 && t.accepted > 0.0 then [NoValorization] else [])
  }

  predicate Balanced(events: seq<Event>) {
    IssuesOf(TotalsOf(events)) == []
  }

  /** Recovery in percent of the generated mass, before rounding. */
  function Recovery(t: Totals): real {
    if t.generated > 0.0 then 100.0 * t.transformed / t.generated else 0.0
  }

  /** Rounding to the nearest integer, halves away from zero. */
  function Round(x: real): int {
    if x >= 0.0 then (x + 0.5).Floor else -((0.5 - x).Floor)
  }

  function Round2(x: real): real {
    Round(x * 100.0) as real / 100.0
  }

  // --------------------------------------------------------------- recovered outputs

  function OutputsOf(e: Event): seq<Json> {
    var v := Field(e.payload, "outputs");
    if e.etype == Valorization && v.JArray? then v.items else []
  }

  /** An output record; anything but an object reads as an empty one. */
  function OutputFields(v: Json): Payload {
    if v.JObject? then v.fields else map[]
  }

  function OutputType(v: Json): string {
    AsString(Field(OutputFields(v), "output_type"))
  }

  function Quantity(v: Json): real {
    AsFloat(Field(OutputFields(v), "quantity"))
  }

  function QuantityIn(items: seq<Json>, kind: string): real {
    if items == [] then 0.0
    else
      var last := items[|items| - 1];
      QuantityIn(items[..|items| - 1], kind) + if OutputType(last) == kind then Quantity(last) else 0.0
  }

  /** How much of one type all the valorizations of a lot put out. */
  function Recovered(events: seq<Event>, kind: string): real {
    if events == [] then 0.0
    else Recovered(events[..|events| - 1], kind) + QuantityIn(OutputsOf(events[|events| - 1]), kind)
  }

  function At(m: map<string, real>, key: string): real {
    if key in m then m[key] else 0.0
  }

  method AddOutputs(before: map<string, real>, items: seq<Json>) returns (outputs: map<string, real>)
    ensures forall kind :: At(outputs, kind) == At(before, kind) + QuantityIn(items, kind)
  {
    outputs := before;
    for i := 0 to |items|
      invariant forall kind :: At(outputs, kind) == At(before, kind) + QuantityIn(items[..i], kind)
    {
      assert items[..i + 1][..i] == items[..i];
      var key := OutputType(items[i]);
      outputs := outputs[key := At(outputs, key) + Quantity(items[i])];
    }
    assert items[..|items|] == items;
  }

  datatype Reconciliation = Reconciliation(
    totals: Totals, outputs: map<string, real>, issues: seq<Issue>, balanced: bool, recovery: real)

  /** One pass over the lot's events, then the checks in order. */
  method Reconcile(events: seq<Event>) returns (rec: Reconciliation)
    ensures rec.totals == TotalsOf(events) && rec.issues == IssuesOf(rec.totals)
    ensures rec.balanced == Balanced(events) && rec.recovery == Round2(Recovery(rec.totals))
    ensures forall kind :: At(rec.outputs, kind) == Recovered(events, kind)
  {
    var t, outputs := ZERO, map[];
    for i := 0 to |events|
      invariant t == TotalsOf(events[..i])
      invariant forall kind :: At(outputs, kind) == Recovered(events[..i], kind)
    {
      assert events[..i + 1][..i] == events[..i];
      t := AddRecord(t, events[i]);
      outputs := AddOutputs(outputs, OutputsOf(events[i]));
    }
    assert events[..|events|] == events;
    var issues := Check(t);
    rec := Reconciliation(t, outputs, issues, issues == [], Round2(Recovery(t)));
  }

  /** What one event adds to the totals. */
  method AddRecord(before: Totals, e: Event) returns (t: Totals)
    ensures t == AddEvent(before, e)
  {
    t := before;
    match e.etype {
      case ResidueGeneration =>
        t := t.(generated := t.generated + AsFloat(Field(e.payload, "weight_kg")));
      case ResidueCustody =>
        t := t.(transferred := t.transferred + AsFloat(Field(e.payload, "weight_kg")));
        if AsBool(Field(e.payload, "accepted")) {
          t := t.(accepted := t.accepted + AsFloat(Field(e.payload, "weight_kg")));
        }
      case Valorization =>
        t := t.(transformed := t.transformed + AsFloat(Field(e.payload, "input_kg")));
        t := t.(rejected := t.rejected + AsFloat(Field(e.payload, "rejected_kg")));
      case _ =>
    }
  }

  method Check(t: Totals) returns (issues: seq<Issue>)
    ensures issues == IssuesOf(t)
  {
    issues := [];
    if t.generated == 0.0 {
      issues := issues + [NoGeneration];
    }
    if t.transferred != 0.0 && !Within(t.generated, t.transferred) {
      issues := issues + [TransferMismatch];
    }
    if t.accepted != 0.0 && !Within(t.transferred, t.accepted) {
      issues := issues + [AcceptanceMismatch];
    }
    var accounted := t.transformed + t.rejected;
    if accounted != 0.0 && !Within(t.accepted, accounted) {
      issues := issues + [TransformationMismatch];
    }
    if accounted == 0.0 && t.accepted > 0.0 {
      issues := issues + [NoValorization];
    }
  }

  // ------------------------------------------------------------------ the bound

  /** When one side is positive, being within tolerance bounds each side by the other. */
  lemma WithinBounds(a: real, b: real)
    requires b > 0.0 || a > 0.0
    ensures Within(a, b) <==> 0.95 * a <= b && 0.95 * b <= a
  {
    var m := Max(a, b);
    assert m > 0.0;
    var d := Abs(a - b);
    assert d / m <= TOLERANCE <==> d <= TOLERANCE * m by {
      assert d == (d / m) * m;
      if d / m <= TOLERANCE { MulMonotone(d / m, TOLERANCE, m); }
      if d / m > TOLERANCE { MulStrict(TOLERANCE, d / m, m); }
    }
  }

  lemma MulMonotone(x: real, y: real, m: real)
    requires x <= y && m > 0.0
    ensures x * m <= y * m
  {
  }

  lemma MulStrict(x: real, y: real, m: real)
    requires x < y && m > 0.0
    ensures x * m < y * m
  {
  }

  predicate NonNegativeCustody(events: seq<Event>) {
    forall e :: e in events && e.etype == ResidueCustody ==> AsFloat(Field(e.payload, "weight_kg")) >= 0.0
  }

  lemma {:induction false} AcceptedWithinTransferred(events: seq<Event>)
    requires NonNegativeCustody(events)
    ensures 0.0 <= TotalsOf(events).accepted <= TotalsOf(events).transferred
  {
    if events != [] {
      var front, e := events[..|events| - 1], events[|events| - 1];
      AcceptedWithinTransferred(front);
      assert e in events;
    }
  }

  lemma NoIssue(t: Totals)
    requires IssuesOf(t) == []
    ensures t.generated != 0.0
    ensures t.transferred != 0.0 ==> Within(t.generated, t.transferred)
    ensures t.accepted != 0.0 ==> Within(t.transferred, t.accepted)
    ensures t.transformed + t.rejected != 0.0 ==> Within(t.accepted, t.transformed + t.rejected)
  {
  }

  ghost predicate Close(a: real, b: real) {
    0.95 * a <= b && 0.95 * b <= a
  }

  lemma ChainOfChecks(t: Totals)
    requires IssuesOf(t) == [] && t.transformed + t.rejected > 0.0
    ensures t.generated > 0.0 && t.transferred > 0.0 && t.accepted > 0.0
    ensures Close(t.generated, t.transferred) && Close(t.transferred, t.accepted)
    ensures Close(t.accepted, t.transformed + t.rejected)
  {
    NoIssue(t);
    WithinBounds(t.accepted, t.transformed + t.rejected);
    assert t.accepted > 0.0;
    WithinBounds(t.transferred, t.accepted);
    assert t.transferred > 0.0;
    WithinBounds(t.generated, t.transferred);
  }

  lemma ChainBounds(g: real, t: real, a: real, c: real)
    requires Close(g, t) && Close(t, a) && Close(a, c)
    ensures 0.95 * 0.95 * 0.95 * g <= c && 0.95 * 0.95 * 0.95 * c <= g
    ensures a <= t ==> 0.95 * 0.95 * c <= g
  {
  }

  /** A balanced lot with a positive accounted mass accounts for its generated mass up to three
      chained tolerances, whatever the signs of its records; when no custody weight is negative,
      two tolerances suffice above. */
  lemma BalancedLotBound(events: seq<Event>)
    ensures var t := TotalsOf(events);
            Balanced(events) && t.transformed + t.rejected > 0.0 ==>
              && t.generated > 0.0 && t.transferred > 0.0 && t.accepted > 0.0
              && 0.95 * 0.95 * 0.95 * t.generated <= t.transformed + t.rejected
              && 0.95 * 0.95 * 0.95 * (t.transformed + t.rejected) <= t.generated
              && (NonNegativeCustody(events) ==> 0.95 * 0.95 * (t.transformed + t.rejected) <= t.generated)
  {
    var t := TotalsOf(events);
    if Balanced(events) && t.transformed + t.rejected > 0.0 {
      ChainOfChecks(t);
      ChainBounds(t.generated, t.transferred, t.accepted, t.transformed + t.rejected);
      if NonNegativeCustody(events) {
        AcceptedWithinTransferred(events);
      }
    }
  }

  /** Hence recovery never exceeds 100 / 0.9025 percent when rejected mass is not negative, and the
      reported figure never exceeds 110.8. */
  lemma RecoveryBound(events: seq<Event>)
    requires Balanced(events) && NonNegativeCustody(events)
    requires TotalsOf(events).transformed + TotalsOf(events).rejected > 0.0 && TotalsOf(events).rejected >= 0.0
    ensures Recovery(TotalsOf(events)) <= 100.0 / 0.9025 && Round2(Recovery(TotalsOf(events))) <= 110.8
  {
    var t := TotalsOf(events);
    BalancedLotBound(events);
    RatioBound(t.transformed, t.generated);
  }

  /** Non-negative custody weights are needed: a refused record of negative weight lets the accounted mass
      exceed two tolerances. */
  lemma NegativeWeightExceeds(generation: Event, custody: Event, refused: Event, valorization: Event)
    requires generation.etype == ResidueGeneration && AsFloat(Field(generation.payload, "weight_kg")) == 6859.0
    requires custody.etype == ResidueCustody && AsFloat(Field(custody.payload, "weight_kg")) == 7600.0
    requires AsBool(Field(custody.payload, "accepted"))
    requires refused.etype == ResidueCustody && AsFloat(Field(refused.payload, "weight_kg")) == -380.0
    requires !AsBool(Field(refused.payload, "accepted"))
    requires valorization.etype == Valorization && AsFloat(Field(valorization.payload, "input_kg")) == 8000.0
    requires AsFloat(Field(valorization.payload, "rejected_kg")) == 0.0
    ensures var events := [generation, custody, refused, valorization];
            var t := TotalsOf(events);
            Balanced(events) && 0.95 * 0.95 * (t.transformed + t.rejected) > t.generated
  {
    FourEvents(generation, custody, refused, valorization);
    assert TotalsOf([generation]) == Totals(6859.0, 0.0, 0.0, 0.0, 0.0);
    assert TotalsOf([generation, custody]) == Totals(6859.0, 7600.0, 7600.0, 0.0, 0.0);
    assert TotalsOf([generation, custody, refused]) == Totals(6859.0, 7220.0, 7600.0, 0.0, 0.0);
  }

  lemma FourEvents(a: Event, b: Event, c: Event, d: Event)
    ensures TotalsOf([a]) == AddEvent(ZERO, a)
    ensures TotalsOf([a, b]) == AddEvent(TotalsOf([a]), b)
    ensures TotalsOf([a, b, c]) == AddEvent(TotalsOf([a, b]), c)
    ensures TotalsOf([a, b, c, d]) == AddEvent(TotalsOf([a, b, c]), d)
  {
    assert [a][..0] == [] && [a, b][..1] == [a] && [a, b, c][..2] == [a, b] && [a, b, c, d][..3] == [a, b, c];
  }

  lemma RatioBound(x: real, g: real)
    requires g > 0.0 && 0.9025 * x <= g
    ensures 100.0 * x / g <= 100.0 / 0.9025
  {
  }

  /** The lower bound is reached. */
  lemma BoundIsTight(generation: Event, custody: Event, refused: Event, valorization: Event)
    requires generation.etype == ResidueGeneration && AsFloat(Field(generation.payload, "weight_kg")) == 8000.0
    requires custody.etype == ResidueCustody && AsFloat(Field(custody.payload, "weight_kg")) == 7220.0
    requires AsBool(Field(custody.payload, "accepted"))
    requires refused.etype == ResidueCustody && AsFloat(Field(refused.payload, "weight_kg")) == 380.0
    requires !AsBool(Field(refused.payload, "accepted"))
    requires valorization.etype == Valorization && AsFloat(Field(valorization.payload, "input_kg")) == 6859.0
    requires AsFloat(Field(valorization.payload, "rejected_kg")) == 0.0
    ensures var events := [generation, custody, refused, valorization];
            Balanced(events) && TotalsOf(events).transformed == 0.95 * 0.95 * 0.95 * TotalsOf(events).generated
  {
    FourEvents(generation, custody, refused, valorization);
    assert TotalsOf([generation]) == Totals(8000.0, 0.0, 0.0, 0.0, 0.0);
    assert TotalsOf([generation, custody]) == Totals(8000.0, 7220.0, 7220.0, 0.0, 0.0);
    assert TotalsOf([generation, custody, refused]) == Totals(8000.0, 7600.0, 7220.0, 0.0, 0.0);
  }

  // -------------------------------------------------------------- what the totals are

  /** Field by field. */
  function Plus(a: Totals, b: Totals): Totals {
    Totals(a.generated + b.generated, a.transferred + b.transferred, a.accepted + b.accepted,
           a.transformed + b.transformed, a.rejected + b.rejected)
  }

  lemma AddJoin(x: Totals, y: Totals, e: Event)
    ensures AddEvent(Plus(x, y), e) == Plus(x, AddEvent(y, e))
  {
  }

  /** The totals of a listing are the sums of the totals of its parts. */
  lemma {:induction false} TotalsJoin(a: seq<Event>, b: seq<Event>)
    ensures TotalsOf(a + b) == Plus(TotalsOf(a), TotalsOf(b))
  {
    if b == [] {
      assert a + b == a;
    } else {
      var n := |b| - 1;
      assert (a + b)[..|a + b| - 1] == a + b[..n];
      TotalsJoin(a, b[..n]);
      AddJoin(TotalsOf(a), TotalsOf(b[..n]), b[n]);
    }
  }

  /** One event counts where its type says, by the fields of its payload. */
  lemma TotalsOfOne(e: Event)
    ensures var t, weight := TotalsOf([e]), AsFloat(Field(e.payload, "weight_kg"));
            && t.generated == (if e.etype == ResidueGeneration then weight else 0.0)
            && t.transferred == (if e.etype == ResidueCustody then weight else 0.0)
            && t.accepted == (if e.etype == ResidueCustody && AsBool(Field(e.payload, "accepted")) then weight else 0.0)
            && t.transformed == (if e.etype == Valorization then AsFloat(Field(e.payload, "input_kg")) else 0.0)
            && t.rejected == (if e.etype == Valorization then AsFloat(Field(e.payload, "rejected_kg")) else 0.0)
  {
    assert [e][..0] == [];
  }

  /** A lot with generated, transferred and accepted mass is balanced exactly when each of its four masses
      is within five percent of the one before it; without any valorization it never is. */
  lemma BalancedIff(events: seq<Event>)
    requires TotalsOf(events).generated > 0.0 && TotalsOf(events).transferred > 0.0 && TotalsOf(events).accepted > 0.0
    ensures var t := TotalsOf(events);
            var accounted := t.transformed + t.rejected;
            && (Balanced(events) <==>
                  && 0.95 * t.generated <= t.transferred && 0.95 * t.transferred <= t.generated
                  && 0.95 * t.transferred <= t.accepted && 0.95 * t.accepted <= t.transferred
                  && 0.95 * t.accepted <= accounted && 0.95 * accounted <= t.accepted)
            && (accounted == 0.0 ==> !Balanced(events))
  {
    var t := TotalsOf(events);
    WithinBounds(t.generated, t.transferred);
    WithinBounds(t.transferred, t.accepted);
    WithinBounds(t.accepted, t.transformed + t.rejected);
    NoIssueIff(t);
  }

  lemma NoIssueIff(t: Totals)
    ensures IssuesOf(t) == [] <==>
            && t.generated != 0.0
            && (t.transferred == 0.0 || Within(t.generated, t.transferred))
            && (t.accepted == 0.0 || Within(t.transferred, t.accepted))
            && (t.transformed + t.rejected == 0.0 || Within(t.accepted, t.transformed + t.rejected))
            && (t.transformed + t.rejected == 0.0 ==> t.accepted <= 0.0)
  {
  }

  /** What each of the five issues says of a lot. */
  lemma IssueMeaning(t: Totals)
    ensures NoGeneration in IssuesOf(t) <==> t.generated == 0.0
    ensures TransferMismatch in IssuesOf(t) <==> t.transferred != 0.0 && !Within(t.generated, t.transferred)
    ensures AcceptanceMismatch in IssuesOf(t) <==> t.accepted != 0.0 && !Within(t.transferred, t.accepted)
    ensures var accounted := t.transformed + t.rejected;
            && (TransformationMismatch in IssuesOf(t) <==> accounted != 0.0 && !Within(t.accepted, accounted))
            && (NoValorization in IssuesOf(t) <==> accounted == 0.0 && t.accepted > 0.0)
  {
    var accounted := t.transformed + t.rejected;
    var a := if t.generated == 0.0 then [NoGeneration] else [];
    var b := if t.transferred != 0.0 && !Within(t.generated, t.transferred) then [TransferMismatch] else [];
    var c := if t.accepted != 0.0 && !Within(t.transferred, t.accepted) then [AcceptanceMismatch] else [];
    var d := if accounted != 0.0 && !Within(t.accepted, accounted) then [TransformationMismatch] else [];
    var e := if accounted == 0.0 && t.accepted > 0.0 then [NoValorization] else [];
    assert IssuesOf(t) == a + b + c + d + e;
    forall x ensures x in IssuesOf(t) <==> x in a || x in b || x in c || x in d || x in e {
      InFive(a, b, c, d, e, x);
    }
  }

  lemma InFive(a: seq<Issue>, b: seq<Issue>, c: seq<Issue>, d: seq<Issue>, e: seq<Issue>, x: Issue)
    ensures x in a + b + c + d + e <==> x in a || x in b || x in c || x in d || x in e
  {
  }

  /** Recovery is the transformed share of the generated mass in percent; the reported figure is the nearest
      hundredth, halves away from zero. */
  lemma RecoveryMeaning(t: Totals)
    requires t.generated > 0.0
    ensures Recovery(t) * t.generated == 100.0 * t.transformed
    ensures -0.005 <= Round2(Recovery(t)) - Recovery(t) <= 0.005
  {
    RoundNearest(Recovery(t) * 100.0);
  }

  lemma RoundNearest(x: real)
    ensures -0.5 <= Round(x) as real - x <= 0.5
    ensures x >= 0.0 ==> x - 0.5 < Round(x) as real
    ensures Round(-x) == -Round(x)
  {
  }

  /** The outputs of a listing are the sums over its parts; one valorization puts out what its records say. */
  lemma {:induction false} RecoveredJoin(a: seq<Event>, b: seq<Event>, kind: string)
    ensures Recovered(a + b, kind) == Recovered(a, kind) + Recovered(b, kind)
  {
    if b == [] {
      assert a + b == a;
    } else {
      var n := |b| - 1;
      assert (a + b)[..|a + b| - 1] == a + b[..n];
      RecoveredJoin(a, b[..n], kind);
    }
  }

  lemma RecoveredOfOne(e: Event, output: Payload, printed: string, kind: string)
    requires e.etype == Valorization && Field(e.payload, "outputs") == JArray([JObject(output, "")], printed)
    ensures Recovered([e], kind)
            == if AsString(Field(output, "output_type")) == kind then AsFloat(Field(output, "quantity")) else 0.0
  {
    var items := [JObject(output, "")];
    assert [e][..0] == [] && items[..0] == [] && OutputsOf(e) == items;
    assert QuantityIn(items, kind)
        == QuantityIn([], kind) + if OutputType(items[0]) == kind then Quantity(items[0]) else 0.0;
    assert Recovered([e], kind) == Recovered([], kind) + QuantityIn(items, kind);
  }
}
