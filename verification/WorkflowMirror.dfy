/** The service's own status model, which mirrors the recogniser of the chaincode. */
module WorkflowMirror {
  import opened Values
  import opened Events
  import opened Workflow
  import Histories

  /** Truth of a value in the service's language. */
  predicate Truthy(v: Json) {
    match v
    case JNull => false
    case JBool(b) => b
    case JNumber(n, _) => n != 0.0
    case JText(s) => s != ""
    case JNumericText(s, _) => s != ""
    case JArray(items, _) => items != []
    case JObject(fields, _) => fields != map[]
  }

  predicate MirrorAccepts(e: Event) {
    e.etype == ResidueCustody && Truthy(Field(e.payload, "accepted"))
  }

  /** The origin batch as the service prints it; a missing one is empty. */
  function PrintedOrigin(str: Json -> string, p: Payload): string {
    if "origin_batch" in p then str(p["origin_batch"]) else ""
  }

  /** One step of the mirror; `str` is the printed form of a value in the service's language. */
  function MirrorRead(str: Json -> string, flow: Flow, r: Reader, e: Event): Reader {
    if r.broken then r
    else if RepeatsAt(e.etype, r.current) then
      r.(accepted := if e.etype == ResidueCustody then r.accepted || MirrorAccepts(e) else r.accepted, last := e.id)
    else if StepIndex(e.etype) != r.current + 1 then r.(broken := true)
    else r.(current := StepIndex(e.etype),
            accepted := if e.etype == ResidueCustody then MirrorAccepts(e) else r.accepted, last := e.id,
            origin := if e.etype == ResidueGeneration then PrintedOrigin(str, e.payload) else r.origin)
  }

  function MirrorReadAll(str: Json -> string, flow: Flow, events: seq<Event>): Reader {
    if events == [] then FRESH
        else MirrorRead(str, flow, MirrorReadAll(str, flow, events[..|events| - 1]), events[|events| - 1])
  }

  function Relevant(events: seq<Event>): seq<Event> {
    if events == [] then []
    else Relevant(events[..|events| - 1]) + if Managed(events[|events| - 1]) then [events[|events| - 1]] else []
  }

  function MirrorStatusOf(str: Json -> string, events: seq<Event>): Status {
    var relevant := Relevant(events);
    var flow := FirstFlow(relevant);
    if relevant == [] then NOT_STARTED
    else if exists i :: 0 <= i < |relevant| && FlowOf(relevant[i].etype) != flow then
      NOT_STARTED.(started := true, valid := false)
    else
      var r := MirrorReadAll(str, flow, relevant);
      if -1 <= r.current < |Steps(flow)| then Report(flow, r) else NOT_STARTED
  }

  method DeriveStatus(str: Json -> string, events: seq<Event>) returns (status: Status)
    ensures status == MirrorStatusOf(str, events)
  {
    var relevant := Relevant(events);
    if relevant == [] {
      return NOT_STARTED;
    }
    var flow := FirstFlow(relevant);
    if exists i :: 0 <= i < |relevant| && FlowOf(relevant[i].etype) != flow {
      return NOT_STARTED.(started := true, valid := false);
    }
    FlowOfRelevant(events);
    MirrorBounds(str, flow, relevant);
    status := DeriveFlow(str, flow, relevant);
  }

  /** The loop over the events of one flow. */
  method DeriveFlow(str: Json -> string, flow: Flow, relevant: seq<Event>) returns (status: Status)
    requires -1 <= MirrorReadAll(str, flow, relevant).current < |Steps(flow)|
    ensures status == Report(flow, MirrorReadAll(str, flow, relevant))
  {
    var r := FRESH;
    for i := 0 to |relevant|
      invariant r == MirrorReadAll(str, flow, relevant[..i]) && !r.broken
    {
      assert relevant[..i + 1][..i] == relevant[..i];
      var e := relevant[i];
      assert MirrorReadAll(str, flow, relevant[..i + 1]) == MirrorRead(str, flow, r, e);
      if RepeatsAt(e.etype, r.current) {
        if e.etype == ResidueCustody {
          r := r.(accepted := r.accepted || Truthy(Field(e.payload, "accepted")));
        }
        r := r.(last := e.id);
      } else if StepIndex(e.etype) != r.current + 1 {
        MirrorBrokenStays(str, flow, relevant, i + 1);
        r := r.(broken := true);
        return Report(flow, r);
      } else {
        r := r.(current := StepIndex(e.etype));
        if e.etype == ResidueCustody {
          r := r.(accepted := Truthy(Field(e.payload, "accepted")));
        }
        if e.etype == ResidueGeneration {
          r := r.(origin := PrintedOrigin(str, e.payload));
        }
        r := r.(last := e.id);
      }
    }
    assert relevant[..|relevant|] == relevant;
    status := Report(flow, r);
  }

  lemma MirrorBounds(str: Json -> string, flow: Flow, events: seq<Event>)
    requires flow != Unknown && forall e :: e in events ==> FlowOf(e.etype) == flow
    ensures -1 <= MirrorReadAll(str, flow, events).current < |Steps(flow)|
  {
  }

  lemma FlowOfRelevant(events: seq<Event>)
    ensures Relevant(events) != [] ==> FirstFlow(Relevant(events)) != Unknown
  {
    RelevantManaged(events);
    if Relevant(events) != [] {
      assert Relevant(events)[0] in Relevant(events);
      FirstFlowIsFirstType(Relevant(events));
      StepTypesMembers(Relevant(events));
      assert StepTypes(Relevant(events))[0] in StepTypes(Relevant(events));
    }
  }

  lemma {:induction false} MirrorBrokenStays(str: Json -> string, flow: Flow, events: seq<Event>, i: nat)
    requires i <= |events| && MirrorReadAll(str, flow, events[..i]).broken
    ensures MirrorReadAll(str, flow, events) == MirrorReadAll(str, flow, events[..i])
  {
    if i < |events| {
      assert events[..|events| - 1][..i] == events[..i];
      MirrorBrokenStays(str, flow, events[..|events| - 1], i);
    } else {
      assert events[..i] == events;
    }
  }

  /** The lot has custody records but no valorization yet. */
  ghost predicate WaitsInCustody(events: seq<Event>) {
    StatusOf(events).valid && StatusOf(events).flow == Circular && StatusOf(events).stepNumber == 2
  }

  /** The two programs disagree on whether some custody record is accepted. */
  ghost predicate ReadingsDiffer(events: seq<Event>) {
    AnyAccepts(events) != AnyMirrorAccepts(events)
  }

  lemma {:induction false} RelevantManaged(events: seq<Event>)
    ensures forall e :: e in Relevant(events) <==> e in events && Managed(e)
  {
    if events != [] {
      RelevantManaged(events[..|events| - 1]);
      assert events == events[..|events| - 1] + [events[|events| - 1]];
    }
  }

  lemma {:induction false} RelevantReads(flow: Flow, events: seq<Event>)
    ensures FirstFlow(Relevant(events)) == FirstFlow(events)
    ensures ReadAll(flow, Relevant(events)) == ReadAll(flow, events)
  {
    if events != [] {
      var front := events[..|events| - 1];
      RelevantReads(flow, front);
      if Managed(events[|events| - 1]) {
        assert Relevant(events)[..|Relevant(events)| - 1] == Relevant(front);
      } else {
        assert Relevant(events) == Relevant(front);
      }
    }
  }

  /** On one managed flow the two readers move together. */
  lemma {:induction false} MirrorTracks(str: Json -> string, flow: Flow, events: seq<Event>)
    requires flow != Unknown && forall e :: e in events ==> FlowOf(e.etype) == flow
    ensures var g, m := ReadAll(flow, events), MirrorReadAll(str, flow, events);
            m.broken == g.broken && m.current == g.current && m.last == g.last
                && (!g.broken && g.current < 1 ==> !m.accepted)
  {
    if events != [] {
      var front, e := events[..|events| - 1], events[|events| - 1];
      assert e in events;
      MirrorTracks(str, flow, front);
      ReaderBounds(flow, front);
      assert ReadAll(flow, events) == Read(flow, ReadAll(flow, front), e);
      assert MirrorReadAll(str, flow, events) == MirrorRead(str, flow, MirrorReadAll(str, flow, front), e);
    }
  }

  /** Both origins are empty, or both come from the same generation record, as each program prints it. */
  predicate OneOrigin(str: Json -> string, events: seq<Event>, g: string, m: string) {
    || (g == "" && m == "")
    || exists e :: e in events && PrintsOrigin(str, e, g, m)
  }

  predicate PrintsOrigin(str: Json -> string, e: Event, g: string, m: string) {
    && e.etype == ResidueGeneration
    && g == AsString(Field(e.payload, "origin_batch")) && m == PrintedOrigin(str, e.payload)
  }

  lemma {:induction false} OriginTracks(str: Json -> string, flow: Flow, events: seq<Event>)
    requires flow != Unknown && forall e :: e in events ==> FlowOf(e.etype) == flow
    ensures OneOrigin(str, events, ReadAll(flow, events).origin, MirrorReadAll(str, flow, events).origin)
  {
    if events != [] {
      var front, e := events[..|events| - 1], events[|events| - 1];
      var g, m := ReadAll(flow, front), MirrorReadAll(str, flow, front);
      assert events == front + [e];
      OriginTracks(str, flow, front);
      MirrorTracks(str, flow, front);
      OriginStep(str, flow, g, m, e);
      if (g.origin, m.origin) == (ReadAll(flow, events).origin, MirrorReadAll(str, flow, events).origin) {
        OneOriginStays(str, front, e, g.origin, m.origin);
      } else {
        assert e in events;
      }
    }
  }

  lemma OriginStep(str: Json -> string, flow: Flow, g: Reader, m: Reader, e: Event)
    requires flow != Unknown && FlowOf(e.etype) == flow && m.current == g.current && m.broken == g.broken
    ensures var g', m' := Read(flow, g, e).origin, MirrorRead(str, flow, m, e).origin;
            (g' == g.origin && m' == m.origin) || PrintsOrigin(str, e, g', m')
  {
  }

  lemma OneOriginStays(str: Json -> string, front: seq<Event>, e: Event, g: string, m: string)
    requires OneOrigin(str, front, g, m)
    ensures OneOrigin(str, front + [e], g, m)
  {
    if x :| x in front && PrintsOrigin(str, x, g, m) {
      assert x in front + [e];
    }
  }

  predicate AnyAccepts(events: seq<Event>) {
    exists e :: e in events && Accepts(e)
  }

  predicate AnyMirrorAccepts(events: seq<Event>) {
    exists e :: e in events && MirrorAccepts(e)
  }

  lemma AnyLast(front: seq<Event>, e: Event)
    ensures AnyAccepts(front + [e]) <==> AnyAccepts(front) || Accepts(e)
    ensures AnyMirrorAccepts(front + [e]) <==> AnyMirrorAccepts(front) || MirrorAccepts(e)
  {
  }

  lemma AcceptedStep(str: Json -> string, flow: Flow, g: Reader, m: Reader, e: Event)
    requires flow != Unknown && FlowOf(e.etype) == flow && m.current == g.current && (g.current < 1 ==> !m.accepted)
    requires !g.broken && !m.broken && !Read(flow, g, e).broken
    ensures Read(flow, g, e).accepted <==> g.accepted || Accepts(e)
    ensures MirrorRead(str, flow, m, e).accepted <==> m.accepted || MirrorAccepts(e)
  {
  }

  /** Each reader remembers whether it has read an accepted custody record as accepted. */
  lemma {:induction false} MirrorReaders(str: Json -> string, flow: Flow, events: seq<Event>)
    requires flow != Unknown && (forall e :: e in events ==> FlowOf(e.etype) == flow) && !ReadAll(flow, events).broken
    ensures ReadAll(flow, events).accepted <==> AnyAccepts(events)
    ensures MirrorReadAll(str, flow, events).accepted <==> AnyMirrorAccepts(events)
  {
    if events != [] {
      var front, e := events[..|events| - 1], events[|events| - 1];
      assert e in events && events == front + [e];
      AnyLast(front, e);
      MirrorReaders(str, flow, front);
      MirrorTracks(str, flow, front);
      AcceptedStep(str, flow, ReadAll(flow, front), MirrorReadAll(str, flow, front), e);
    }
  }

  /** On every history the mirror reports what the chaincode reports, except that a mixed
      history counts as started, and that the next steps differ exactly while a lot waits in
      custody and the two programs read its custody records differently. */
  lemma MirrorAgrees(str: Json -> string, events: seq<Event>)
    ensures var g, m := StatusOf(events), MirrorStatusOf(str, events);
            && m.(next := [], origin := "") == g.(next := [], origin := "", started := g.started || !g.valid)
            && OneOrigin(str, events, g.origin, m.origin)
            && (m.next == g.next <==> !(WaitsInCustody(events) && ReadingsDiffer(events)))
  {
    RelevantReads(FirstFlow(events), events);
    RelevantManaged(events);
    FlowOfRelevant(events);
    if Relevant(events) != [] {
      MixedRelevant(events);
      if !Mixed(events) {
        UnmixedAgrees(str, events);
      }
    }
  }

  lemma UnmixedAgrees(str: Json -> string, events: seq<Event>)
    requires Relevant(events) != [] && !Mixed(events) && FirstFlow(events) != Unknown
    ensures var g, m := StatusOf(events), MirrorStatusOf(str, events);
            && m.(next := [], origin := "") == g.(next := [], origin := "")
            && OneOrigin(str, events, g.origin, m.origin)
            && (m.next == g.next <==> !(WaitsInCustody(events) && ReadingsDiffer(events)))
  {
    var flow := FirstFlow(events);
    ReaderBounds(flow, events);
    ReadersOnRelevant(str, events);
    ReportsAgree(flow, ReadAll(flow, events), MirrorReadAll(str, flow, Relevant(events)));
  }

  lemma ReadersOnRelevant(str: Json -> string, events: seq<Event>)
    requires Relevant(events) != [] && !Mixed(events) && FirstFlow(events) != Unknown
    ensures var flow := FirstFlow(events);
            var g, m := ReadAll(flow, events), MirrorReadAll(str, flow, Relevant(events));
            && m.broken == g.broken && m.current == g.current && m.last == g.last && -1 <= g.current < |Steps(flow)|
            && MirrorStatusOf(str, events) == Report(flow, m) && OneOrigin(str, events, g.origin, m.origin)
            && (!g.broken ==> (g.accepted != m.accepted <==> ReadingsDiffer(events)))
  {
    var flow := FirstFlow(events);
    RelevantReads(flow, events);
    RelevantFlow(events);
    MirrorTracks(str, flow, Relevant(events));
    ReaderBounds(flow, events);
    UnmixedStatus(str, events);
    OriginTracks(str, flow, Relevant(events));
    RelevantManaged(events);
    AcceptsRelevant(events);
    if !ReadAll(flow, events).broken {
      MirrorReaders(str, flow, Relevant(events));
    }
  }

  lemma UnmixedStatus(str: Json -> string, events: seq<Event>)
    requires Relevant(events) != [] && !Mixed(events)
    requires -1 <= MirrorReadAll(str, FirstFlow(events), Relevant(events)).current < |Steps(FirstFlow(events))|
    ensures MirrorStatusOf(str, events)
            == Report(FirstFlow(events), MirrorReadAll(str, FirstFlow(events), Relevant(events)))
  {
    RelevantReads(FirstFlow(events), events);
    MixedRelevant(events);
  }

  lemma RelevantFlow(events: seq<Event>)
    requires !Mixed(events)
    ensures forall e :: e in Relevant(events) ==> FlowOf(e.etype) == FirstFlow(events)
  {
    MixedRelevant(events);
  }

  lemma ReportsAgree(flow: Flow, g: Reader, m: Reader)
    requires flow != Unknown && -1 <= g.current < |Steps(flow)|
    requires m.current == g.current && m.broken == g.broken && m.last == g.last
    ensures Report(flow, m).(next := [], origin := "") == Report(flow, g).(next := [], origin := "")
    ensures Report(flow, m).next == Report(flow, g).next <==>
            !(!g.broken && flow == Circular && g.current == 1 && g.accepted != m.accepted)
  {
  }

  lemma MixedRelevant(events: seq<Event>)
    ensures Mixed(events) <==>
            exists i :: 0 <= i < |Relevant(events)| && FlowOf(Relevant(events)[i].etype) != FirstFlow(events)
  {
    RelevantManaged(events);
    if i :| 0 <= i < |events| && Managed(events[i]) && FlowOf(events[i].etype) != FirstFlow(events) {
      assert events[i] in Relevant(events);
    }
    if i :| 0 <= i < |Relevant(events)| && FlowOf(Relevant(events)[i].etype) != FirstFlow(events) {
      assert Relevant(events)[i] in events;
    }
  }

  lemma AcceptsRelevant(events: seq<Event>)
    ensures AnyAccepts(events) <==> AnyAccepts(Relevant(events))
    ensures AnyMirrorAccepts(events) <==> AnyMirrorAccepts(Relevant(events))
  {
  }

  /** The service's own transition check. */
  predicate TransitionAllowed(s: Status, t: EventType) {
    if t == Correction || Governed(t) then true
    else if t == ConsumerVerification then s.flow == Product && s.complete
    else if !s.started then t == if t in PRODUCT_STEPS then Cultivation else ResidueGeneration
    else t in s.next
  }

  /** What the chaincode's gate asks of the subject's own status. */
  predicate GateAdmits(s: Status, t: EventType) {
    if t == Correction || Governed(t) then true
    else if t == ConsumerVerification then s.started && s.flow == Product && s.complete
    else Histories.Admits(s, t)
  }

  /** The service accepts every step the chaincode accepts, exactly when the subject is not a lot in
      custody whose records the two programs read differently. */
  lemma MirrorAllows(str: Json -> string, events: seq<Event>)
    ensures (forall t :: GateAdmits(StatusOf(events), t) ==> TransitionAllowed(MirrorStatusOf(str, events), t))
            <==> !(WaitsInCustody(events) && ReadingsDiffer(events))
  {
    var g, m := StatusOf(events), MirrorStatusOf(str, events);
    MirrorAgrees(str, events);
    if WaitsInCustody(events) && ReadingsDiffer(events) {
      var t := CustodyNext(str, events);
      assert GateAdmits(g, t) && !TransitionAllowed(m, t);
    } else {
      forall t | GateAdmits(g, t) ensures TransitionAllowed(m, t) {
        StepTables(t);
      }
    }
  }

  /** A lot that waits in custody has one next step, and the mirror's is the other one if it differs. */
  lemma CustodyNext(str: Json -> string, events: seq<Event>) returns (t: EventType)
    requires WaitsInCustody(events) && ReadingsDiffer(events)
    ensures FlowOf(t) == Circular && t in StatusOf(events).next && t !in MirrorStatusOf(str, events).next
    ensures StatusOf(events).started && !StatusOf(events).complete && MirrorStatusOf(str, events).started
  {
    var flow := FirstFlow(events);
    RelevantReads(flow, events);
    ReaderBounds(flow, events);
    MirrorAgrees(str, events);
    t := StatusOf(events).next[0];
  }

  /** Records whose `accepted` is a boolean are never read differently. */
  lemma BooleansReadAlike(events: seq<Event>)
    requires forall e :: e in events && e.etype == ResidueCustody ==> Field(e.payload, "accepted").JBool?
    ensures !ReadingsDiffer(events)
  {
  }
}
