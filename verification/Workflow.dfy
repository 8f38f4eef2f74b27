/** The step recogniser: a subject's status is recomputed from its event history. */
module Workflow {
  import opened Values
  import opened Events

  datatype Flow = Product | Circular | Unknown

  const PRODUCT_STEPS :=
      [Cultivation, Harvest, CollectionTransport, Milling, LabVerification, Bottling, DistributionRetail]

  const CIRCULAR_STEPS := [ResidueGeneration, ResidueCustody, Valorization, UsefulOutput, ReturnOrSale, EnvAccounting]

  function Steps(f: Flow): seq<EventType> {
    match f
    case Product => PRODUCT_STEPS
    case Circular => CIRCULAR_STEPS
    case Unknown => []
  }

  function FlowOf(t: EventType): Flow {
    match t
    case Cultivation => Product
    case Harvest => Product
    case CollectionTransport => Product
    case Milling => Product
    case LabVerification => Product
    case Bottling => Product
    case DistributionRetail => Product
    case ResidueGeneration => Circular
    case ResidueCustody => Circular
    case Valorization => Circular
    case UsefulOutput => Circular
    case ReturnOrSale => Circular
    case EnvAccounting => Circular
    case _ => Unknown
  }

  /** Position of a step in its own flow; -1 for a type no flow manages. */
  function StepIndex(t: EventType): int {
    match t
    case Cultivation => 0
    case Harvest => 1
    case CollectionTransport => 2
    case Milling => 3
    case LabVerification => 4
    case Bottling => 5
    case DistributionRetail => 6
    case ResidueGeneration => 0
    case ResidueCustody => 1
    case Valorization => 2
    case UsefulOutput => 3
    case ReturnOrSale => 4
    case EnvAccounting => 5
    case _ => -1
  }

  /** The two tables above are the positions of the step lists. */
  lemma StepTables(t: EventType)
    ensures FlowOf(t) == Product <==> t in PRODUCT_STEPS
    ensures FlowOf(t) == Circular <==> t in CIRCULAR_STEPS
    ensures FlowOf(t) != Unknown ==>
              0 <= StepIndex(t) < |Steps(FlowOf(t))| && Steps(FlowOf(t))[StepIndex(t)] == t
  {
  }

  predicate Managed(e: Event) {
    FlowOf(e.etype) != Unknown
  }

  predicate Accepts(e: Event) {
    e.etype == ResidueCustody && AsBool(Field(e.payload, "accepted"))
  }

  datatype Status = Status(
    flow: Flow, started: bool, stepNumber: int, totalSteps: int, next: seq<EventType>,
    complete: bool, valid: bool, lastEvent: string, origin: string)

  const NOT_STARTED := Status(Unknown, false, 0, 0, [], false, true, "", "")

  // ------------------------------------------------------------ what is computed

  /** The flow of the first managed event. */
  function FirstFlow(events: seq<Event>): Flow {
    if events == [] then Unknown
    else
      var before := FirstFlow(events[..|events| - 1]);
      if before != Unknown then before else FlowOf(events[|events| - 1].etype)
  }

  predicate Mixed(events: seq<Event>) {
    exists i :: 0 <= i < |events| && Managed(events[i]) && FlowOf(events[i].etype) != FirstFlow(events)
  }

  /** What the recogniser remembers of the events it has read. */
  datatype Reader = Reader(current: int, accepted: bool, broken: bool, last: string, origin: string)

  const FRESH := Reader(-1, false, false, "", "")

  /** Steps that may be recorded again while they are the current one. */
  predicate RepeatsAt(t: EventType, current: int) {
    (t == ResidueCustody && current == 1) || (t == UsefulOutput && current == 3) || (t == ReturnOrSale && current == 4)
  }

  function Read(flow: Flow, r: Reader, e: Event): Reader {
    if r.broken || !Managed(e) || FlowOf(e.etype) != flow then r
    else if RepeatsAt(e.etype, r.current) then r.(accepted := r.accepted || Accepts(e), last := e.id)
    else if StepIndex(e.etype) != r.current + 1 then r.(broken := true)
    else Reader(
      StepIndex(e.etype), r.accepted || Accepts(e), false, e.id,
      if e.etype == ResidueGeneration then AsString(Field(e.payload, "origin_batch")) else r.origin)
  }

  function ReadAll(flow: Flow, events: seq<Event>): Reader {
    if events == [] then FRESH else Read(flow, ReadAll(flow, events[..|events| - 1]), events[|events| - 1])
  }

  function NextSteps(flow: Flow, r: Reader): seq<EventType>
    requires -1 <= r.current < |Steps(flow)|
  {
    if r.current == |Steps(flow)| - 1 then
      if flow == Product then [ConsumerVerification] else []
    else if flow == Circular && r.current == 1 then
      if r.accepted then [Valorization] else [ResidueCustody]
    else if flow == Circular && r.current == 3 then [UsefulOutput, ReturnOrSale]
    else if flow == Circular && r.current == 4 then [ReturnOrSale, EnvAccounting]
    else [Steps(flow)[r.current + 1]]
  }

  lemma {:induction false} ReaderBounds(flow: Flow, events: seq<Event>)
    ensures -1 <= ReadAll(flow, events).current
    ensures flow != Unknown ==> ReadAll(flow, events).current < |Steps(flow)|
    ensures ReadAll(flow, events).current == -1 ==> !ReadAll(flow, events).accepted
  {
    if events != [] {
      ReaderBounds(flow, events[..|events| - 1]);
      StepTables(events[|events| - 1].etype);
    }
  }

  /** What is reported of a reader that has read a whole history. */
  function Report(flow: Flow, r: Reader): Status
    requires -1 <= r.current < |Steps(flow)|
  {
    if r.broken then Status(flow, true, 0, |Steps(flow)|, [], false, false, r.last, r.origin)
    else Status(flow, true, r.current + 1, |Steps(flow)|, NextSteps(flow, r),
                r.current == |Steps(flow)| - 1, true, r.last, r.origin)
  }

  function StatusOf(events: seq<Event>): Status {
    var flow := FirstFlow(events);
    if flow == Unknown then NOT_STARTED
    else if Mixed(events) then NOT_STARTED.(valid := false)
    else
      ReaderBounds(flow, events);
      Report(flow, ReadAll(flow, events))
  }

  /** The flow of a history; it is mixed when an event belongs to another flow. */
  method DetectFlow(events: seq<Event>) returns (flow: Flow, mixed: bool)
    ensures flow == FirstFlow(events) && (mixed <==> Mixed(events))
  {
    flow := Unknown;
    for i := 0 to |events|
      invariant flow == FirstFlow(events[..i])
      invariant flow == Unknown ==> forall k :: 0 <= k < i ==> !Managed(events[k])
      invariant forall k :: 0 <= k < i && Managed(events[k]) ==> FlowOf(events[k].etype) == flow
    {
      assert events[..i + 1][..i] == events[..i];
      var candidate := FlowOf(events[i].etype);
      if candidate != Unknown {
        if flow == Unknown {
          flow := candidate;
        } else if flow != candidate {
          FirstFlowExtends(events, i);
          return flow, true;
        }
      }
    }
    assert events[..|events|] == events;
    mixed := false;
  }

  /** The recogniser: one loop finds the flow, one follows its steps. */
  method AnalyzeWorkflow(events: seq<Event>) returns (status: Status)
    ensures status == StatusOf(events)
  {
    var flow, mixed := DetectFlow(events);
    if flow == Unknown {
      return NOT_STARTED;
    }
    if mixed {
      return NOT_STARTED.(valid := false);
    }
    ReaderBounds(flow, events);
    var reader := FRESH;
    for i := 0 to |events|
      invariant reader == ReadAll(flow, events[..i]) && !reader.broken
    {
      assert events[..i + 1][..i] == events[..i];
      var e := events[i];
      if FlowOf(e.etype) == flow {
        if RepeatsAt(e.etype, reader.current) {
          reader := reader.(accepted := reader.accepted || Accepts(e), last := e.id);
        } else if StepIndex(e.etype) != reader.current + 1 {
          BrokenStays(flow, events, i + 1);
          return Report(flow, reader.(broken := true));
        } else {
          reader := reader.(current := StepIndex(e.etype), last := e.id);
          if Accepts(e) {
            reader := reader.(accepted := true);
          }
          if e.etype == ResidueGeneration {
            reader := reader.(origin := AsString(Field(e.payload, "origin_batch")));
          }
        }
      }
    }
    assert events[..|events|] == events;
    status := Report(flow, reader);
  }

  lemma {:induction false} FirstFlowExtends(events: seq<Event>, i: nat)
    requires i <= |events| && FirstFlow(events[..i]) != Unknown
    ensures FirstFlow(events) == FirstFlow(events[..i])
  {
    if i < |events| {
      assert events[..|events| - 1][..i] == events[..i];
      FirstFlowExtends(events[..|events| - 1], i);
    } else {
      assert events[..i] == events;
    }
  }

  lemma {:induction false} BrokenStays(flow: Flow, events: seq<Event>, i: nat)
    requires i <= |events| && ReadAll(flow, events[..i]).broken
    ensures ReadAll(flow, events) == ReadAll(flow, events[..i])
  {
    if i < |events| {
      assert events[..|events| - 1][..i] == events[..i];
      BrokenStays(flow, events[..|events| - 1], i);
    } else {
      assert events[..i] == events;
    }
  }

  // ------------------------------------------------------------------- languages

  /** The managed types of a history, in order. */
  function StepTypes(events: seq<Event>): seq<EventType> {
    if events == [] then []
    else
      var last := events[|events| - 1];
      StepTypes(events[..|events| - 1]) + if Managed(last) then [last.etype] else []
  }

  function Times(n: nat, t: EventType): seq<EventType> {
    seq(n, _ => t)
  }

  /** generation custody^a valorization useful_output^b return_or_sale^c env_accounting */
  function CircularWord(a: nat, b: nat, c: nat): seq<EventType> {
    [ResidueGeneration] + Times(a, ResidueCustody) + [Valorization] + Times(b, UsefulOutput)
    + Times(c, ReturnOrSale) + [EnvAccounting]
  }

  ghost predicate CircularPrefix(ts: seq<EventType>) {
    exists a, b, c :: a >= 1 && b >= 1 && c >= 1 && ts <= CircularWord(a, b, c)
  }

  ghost predicate CircularWhole(ts: seq<EventType>) {
    exists a, b, c :: a >= 1 && b >= 1 && c >= 1 && ts == CircularWord(a, b, c)
  }

  /** `y` may come right after `x`. */
  predicate Follows(x: EventType, y: EventType) {
    && FlowOf(x) == FlowOf(y) != Unknown
    && (StepIndex(y) == StepIndex(x) + 1 || (x == y && (x == ResidueCustody || x == UsefulOutput || x == ReturnOrSale)))
  }

  /** A step sequence that starts at a first step and in which neighbours follow each other. */
  ghost predicate Linked(ts: seq<EventType>) {
    && (ts != [] ==> FlowOf(ts[0]) != Unknown && StepIndex(ts[0]) == 0)
    && forall i :: 0 < i < |ts| ==> Follows(ts[i - 1], ts[i])
  }

  lemma LinkedAppend(ts: seq<EventType>, t: EventType)
    ensures Linked(ts + [t]) <==>
              Linked(ts) && if ts == [] then FlowOf(t) != Unknown && StepIndex(t) == 0 else Follows(ts[|ts| - 1], t)
  {
    var us := ts + [t];
    assert us[|ts|] == t;
    assert ts != [] ==> us[0] == ts[0] && us[|ts| - 1] == ts[|ts| - 1];
    if Linked(us) {
      forall i | 0 < i < |ts| ensures Follows(ts[i - 1], ts[i]) { assert Follows(us[i - 1], us[i]); }
      assert ts != [] ==> Follows(us[|ts| - 1], us[|ts|]);
    } else if Linked(ts) && ts != [] && Follows(ts[|ts| - 1], t) {
      forall i | 0 < i < |us| ensures Follows(us[i - 1], us[i]) {
        if i < |ts| { assert Follows(ts[i - 1], ts[i]); }
      }
    }
  }

  lemma {:induction false} LinkedPosition(ts: seq<EventType>, i: nat, j: nat)
    requires Linked(ts) && i <= j < |ts|
    ensures FlowOf(ts[i]) == FlowOf(ts[j]) != Unknown
    ensures StepIndex(ts[i]) <= StepIndex(ts[j])
  {
    if i < j {
      LinkedPosition(ts, i, j - 1);
      assert Follows(ts[j - 1], ts[j]);
    } else if j > 0 {
      assert Follows(ts[j - 1], ts[j]);
    }
  }

  lemma {:induction false} LinkedProductIsPrefix(ts: seq<EventType>)
    requires ts != [] && FlowOf(ts[0]) == Product
    ensures Linked(ts) <==> ts <= PRODUCT_STEPS
  {
    if Linked(ts) {
      forall i | 0 <= i < |ts| ensures i < |PRODUCT_STEPS| && ts[i] == PRODUCT_STEPS[i] {
        ProductPosition(ts, i);
        StepTables(ts[i]);
      }
      ProductPosition(ts, |ts| - 1);
      StepTables(ts[|ts| - 1]);
    }
    if ts <= PRODUCT_STEPS {
      forall i | 0 <= i < |ts| ensures ts[i] == PRODUCT_STEPS[i] && StepIndex(ts[i]) == i && FlowOf(ts[i]) == Product {
        ProductStepAt(i);
      }
      forall i | 0 < i < |ts| ensures Follows(ts[i - 1], ts[i]) {
      }
    }
  }

  lemma ProductStepAt(i: nat)
    requires i < |PRODUCT_STEPS|
    ensures FlowOf(PRODUCT_STEPS[i]) == Product && StepIndex(PRODUCT_STEPS[i]) == i
  {
  }

  lemma {:induction false} ProductPosition(ts: seq<EventType>, i: nat)
    requires Linked(ts) && i < |ts| && FlowOf(ts[0]) == Product
    ensures FlowOf(ts[i]) == Product && StepIndex(ts[i]) == i
  {
    if i > 0 {
      ProductPosition(ts, i - 1);
      assert Follows(ts[i - 1], ts[i]);
    }
  }

  /** The first `k + 1` blocks of a circular word. */
  function Stem(k: int, a: nat, b: nat, c: nat): seq<EventType> {
    if k <= 0 then [ResidueGeneration]
    else if k == 1 then [ResidueGeneration] + Times(a, ResidueCustody)
    else if k == 2 then [ResidueGeneration] + Times(a, ResidueCustody) + [Valorization]
    else if k == 3 then [ResidueGeneration] + Times(a, ResidueCustody) + [Valorization] + Times(b, UsefulOutput)
    else if k == 4 then
      [ResidueGeneration] + Times(a, ResidueCustody) + [Valorization] + Times(b, UsefulOutput) + Times(c, ReturnOrSale)
    else CircularWord(a, b, c)
  }

  /** Another step either lengthens the last block or starts the next one. */
  lemma StemGrows(x: EventType, y: EventType, a: nat, b: nat, c: nat) returns (a': nat, b': nat, c': nat)
    requires a >= 1 && b >= 1 && c >= 1 && FlowOf(x) == Circular && Follows(x, y)
    ensures a' >= 1 && b' >= 1 && c' >= 1 && Stem(StepIndex(y), a', b', c') == Stem(StepIndex(x), a, b, c) + [y]
  {
    a', b', c' := a, b, c;
    if y == ResidueCustody {
      a' := if x == y then a + 1 else 1;
      assert Times(a', y) == (if x == y then Times(a, y) else []) + [y];
    } else if y == UsefulOutput {
      b' := if x == y then b + 1 else 1;
      assert Times(b', y) == (if x == y then Times(b, y) else []) + [y];
    } else if y == ReturnOrSale {
      c' := if x == y then c + 1 else 1;
      assert Times(c', y) == (if x == y then Times(c, y) else []) + [y];
    }
  }

  lemma {:induction false} CircularBlocks(ts: seq<EventType>) returns (a: nat, b: nat, c: nat)
    requires ts != [] && Linked(ts) && FlowOf(ts[0]) == Circular
    ensures a >= 1 && b >= 1 && c >= 1
    ensures ts == Stem(StepIndex(ts[|ts| - 1]), a, b, c)
  {
    var n := |ts| - 1;
    if n == 0 {
      a, b, c := 1, 1, 1;
    } else {
      a, b, c := CircularBlocks(ts[..n]);
      LinkedPosition(ts, 0, n - 1);
      assert Follows(ts[n - 1], ts[n]);
      a, b, c := StemGrows(ts[n - 1], ts[n], a, b, c);
      assert ts == ts[..n] + [ts[n]];
    }
  }

  lemma StemIsPrefix(k: int, a: nat, b: nat, c: nat)
    ensures Stem(k, a, b, c) <= CircularWord(a, b, c)
  {
  }

  lemma CircularWordLinked(a: nat, b: nat, c: nat)
    requires a >= 1 && b >= 1 && c >= 1
    ensures Linked(CircularWord(a, b, c))
  {
  }

  lemma LinkedCircularIsPrefix(ts: seq<EventType>)
    requires ts != [] && FlowOf(ts[0]) == Circular
    ensures Linked(ts) <==> CircularPrefix(ts)
    ensures Linked(ts) && StepIndex(ts[|ts| - 1]) == 5 <==> CircularWhole(ts)
  {
    if Linked(ts) {
      var a, b, c := CircularBlocks(ts);
      StemIsPrefix(StepIndex(ts[|ts| - 1]), a, b, c);
      assert ts <= CircularWord(a, b, c);
    }
    if CircularPrefix(ts) {
      var a, b, c :| a >= 1 && b >= 1 && c >= 1 && ts <= CircularWord(a, b, c);
      CircularWordLinked(a, b, c);
    }
    if CircularWhole(ts) {
      var a, b, c :| a >= 1 && b >= 1 && c >= 1 && ts == CircularWord(a, b, c);
      CircularWordLinked(a, b, c);
    }
  }

  lemma SameStep(x: EventType, y: EventType)
    requires FlowOf(x) == FlowOf(y) != Unknown && StepIndex(x) == StepIndex(y)
    ensures x == y
  {
  }

  /** The reader stands at the last step of a linked sequence, or is broken off a sequence that is not linked. */
  ghost predicate Stands(r: Reader, ts: seq<EventType>) {
    && (r.broken <==> !Linked(ts))
    && (!r.broken ==> r.current == if ts == [] then -1 else StepIndex(ts[|ts| - 1]))
  }

  lemma ReadStands(flow: Flow, r: Reader, e: Event, ts: seq<EventType>)
    requires flow != Unknown && FlowOf(e.etype) == flow && forall t :: t in ts ==> FlowOf(t) == flow
    requires Stands(r, ts)
    ensures Stands(Read(flow, r, e), ts + [e.etype])
  {
    LinkedAppend(ts, e.etype);
    if ts != [] && !r.broken {
      var x := ts[|ts| - 1];
      assert x in ts;
      if StepIndex(x) == StepIndex(e.etype) {
        SameStep(x, e.etype);
      }
    }
  }

  /** The reader follows exactly the linked sequences. */
  lemma {:induction false} ReaderFollowsLinks(flow: Flow, events: seq<Event>)
    requires flow != Unknown && forall e :: e in events && Managed(e) ==> FlowOf(e.etype) == flow
    ensures Stands(ReadAll(flow, events), StepTypes(events))
    ensures forall t :: t in StepTypes(events) ==> FlowOf(t) == flow
  {
    if events != [] {
      var front, e := events[..|events| - 1], events[|events| - 1];
      ReaderFollowsLinks(flow, front);
      if Managed(e) {
        ReadStands(flow, ReadAll(flow, front), e, StepTypes(front));
      } else {
        assert StepTypes(events) == StepTypes(front);
      }
    }
  }

  lemma {:induction false} StepTypesMembers(events: seq<Event>)
    ensures forall e :: e in events && Managed(e) ==> e.etype in StepTypes(events)
    ensures forall t :: t in StepTypes(events) ==> FlowOf(t) != Unknown
  {
    if events != [] {
      var front, e := events[..|events| - 1], events[|events| - 1];
      StepTypesMembers(front);
      assert events == front + [e];
    }
  }

  lemma {:induction false} FirstFlowIsFirstType(events: seq<Event>)
    ensures FirstFlow(events) == if StepTypes(events) == [] then Unknown else FlowOf(StepTypes(events)[0])
  {
    if events != [] {
      var front := events[..|events| - 1];
      FirstFlowIsFirstType(front);
      StepTypesMembers(front);
      assert StepTypes(front) != [] ==> StepTypes(front)[0] in StepTypes(front);
    }
  }

  lemma ValidIsLinked(events: seq<Event>)
    ensures StatusOf(events).valid <==> Linked(StepTypes(events))
    ensures StatusOf(events).valid ==>
              StatusOf(events).stepNumber == if StepTypes(events) == [] then 0
                  else StepIndex(StepTypes(events)[|StepTypes(events)| - 1]) + 1
    ensures StatusOf(events).valid && StepTypes(events) != [] ==>
              StatusOf(events).started && StatusOf(events).flow == FlowOf(StepTypes(events)[0])
  {
    var ts, flow := StepTypes(events), FirstFlow(events);
    FirstFlowIsFirstType(events);
    StepTypesMembers(events);
    if flow != Unknown {
      if Mixed(events) {
        var i :| 0 <= i < |events| && Managed(events[i]) && FlowOf(events[i].etype) != flow;
        assert events[i].etype in ts;
        var k :| 0 <= k < |ts| && ts[k] == events[i].etype;
        if Linked(ts) { LinkedPosition(ts, 0, k); }
      } else {
        ReaderFollowsLinks(flow, events);
      }
    }
  }

  /** Valid exactly on prefixes of the two step languages, complete exactly on whole words. */
  lemma RecognisesStepLanguages(events: seq<Event>)
    ensures StatusOf(events).valid <==> StepTypes(events) <= PRODUCT_STEPS || CircularPrefix(StepTypes(events))
    ensures StatusOf(events).complete <==> StepTypes(events) == PRODUCT_STEPS || CircularWhole(StepTypes(events))
  {
    var ts := StepTypes(events);
    ValidIsLinked(events);
    FirstFlowIsFirstType(events);
    if ts == [] {
      assert !CircularWhole(ts);
    } else {
      var n := |ts| - 1;
      StepTables(ts[0]);
      assert CircularPrefix(ts) ==> ts[0] == ResidueGeneration;
      assert CircularWhole(ts) ==> ts[0] == ResidueGeneration;
      if FlowOf(ts[0]) == Product {
        LinkedProductIsPrefix(ts);
        if Linked(ts) { ProductPosition(ts, n); }
      } else if FlowOf(ts[0]) == Circular {
        LinkedCircularIsPrefix(ts);
        if Linked(ts) { LinkedPosition(ts, 0, n); }
      }
    }
  }

  lemma NextStepsFollow(flow: Flow, r: Reader, x: EventType, t: EventType)
    requires flow == FlowOf(x) != Unknown && FlowOf(t) != Unknown && r.current == StepIndex(x) < |Steps(flow)|
    ensures Follows(x, t) <==>
              t in NextSteps(flow, r)
                  || (flow == Circular && r.current == 1 && (t == ResidueCustody || t == Valorization))
  {
  }

  /** A managed event keeps a valid history valid exactly when the status lists it as next,
      or when a lot in custody gets another custody record or is valorized unaccepted. */
  lemma NextStepsKeepValid(events: seq<Event>, e: Event)
    requires StatusOf(events).valid && Managed(e)
    ensures var s, t := StatusOf(events), e.etype;
            var extra := s.flow == Circular && s.stepNumber == 2 && t in {ResidueCustody, Valorization};
            StatusOf(events + [e]).valid <==> if !s.started then StepIndex(t) == 0 else t in s.next || extra
  {
    var ts := StepTypes(events);
    assert (events + [e])[..|events|] == events;
    ValidIsLinked(events);
    ValidIsLinked(events + [e]);
    FirstFlowIsFirstType(events);
    LinkedAppend(ts, e.etype);
    if ts != [] {
      var last, flow := ts[|ts| - 1], FirstFlow(events);
      LinkedPosition(ts, 0, |ts| - 1);
      ReaderBounds(flow, events);
      NextStepsFollow(flow, ReadAll(flow, events), last, e.etype);
    }
  }
}
