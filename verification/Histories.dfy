/** What inserting into, removing from and appending to a history does to its status. */
module Histories {
  import opened Values
  import opened Events
  import opened Workflow

  ghost predicate AllManaged(h: seq<Event>) {
    forall i :: 0 <= i < |h| ==> Managed(h[i])
  }

  lemma {:induction false} ManagedTypes(h: seq<Event>)
    requires AllManaged(h)
    ensures |StepTypes(h)| == |h| && forall i :: 0 <= i < |h| ==> StepTypes(h)[i] == h[i].etype
  {
    if h != [] {
      assert AllManaged(h[..|h| - 1]);
      ManagedTypes(h[..|h| - 1]);
    }
  }

  /** The gate: a first step on an unstarted subject, a listed next step otherwise. */
  predicate Admits(s: Status, t: EventType) {
    && FlowOf(t) != Unknown
    && s.valid
    && if !s.started then t == Steps(FlowOf(t))[0] else s.flow == FlowOf(t) && !s.complete && t in s.next
  }

  lemma AdmittedFollows(h: seq<Event>, t: EventType)
    requires AllManaged(h) && Admits(StatusOf(h), t)
    ensures if h == [] then StepIndex(t) == 0 else Follows(h[|h| - 1].etype, t)
  {
    ManagedTypes(h);
    ValidIsLinked(h);
    FirstFlowIsFirstType(h);
    StepTables(t);
    if h != [] {
      var ts := StepTypes(h);
      LinkedPosition(ts, 0, |ts| - 1);
      ReaderBounds(FirstFlow(h), h);
      NextStepsFollow(FirstFlow(h), ReadAll(FirstFlow(h), h), ts[|ts| - 1], t);
    }
  }

  /** An admitted step is in the flow of the history and not before any of its steps. */
  lemma AdmittedIsLatest(h: seq<Event>, t: EventType, i: nat)
    requires AllManaged(h) && Admits(StatusOf(h), t) && i < |h|
    ensures FlowOf(h[i].etype) == FlowOf(t) && StepIndex(h[i].etype) <= StepIndex(t)
  {
    AdmittedFollows(h, t);
    ManagedTypes(h);
    ValidIsLinked(h);
    LinkedPosition(StepTypes(h), i, |h| - 1);
  }

  lemma InversionNotLinked(ts: seq<EventType>, i: nat, j: nat)
    requires i < j < |ts| && FlowOf(ts[i]) == FlowOf(ts[j]) != Unknown
    requires StepIndex(ts[j]) <= StepIndex(ts[i]) && ts[i] != ts[j]
    ensures !Linked(ts)
  {
    if Linked(ts) {
      LinkedPosition(ts, i, j);
      SameStep(ts[i], ts[j]);
    }
  }

  /** A step that may come last may come earlier only among repetitions of itself. */
  lemma InsertLinkedIff(ts: seq<EventType>, t: EventType, j: nat)
    requires j <= |ts| && Linked(ts + [t])
    ensures Linked(ts[..j] + [t] + ts[j..]) <==> forall i :: j <= i < |ts| ==> ts[i] == t
  {
    var us := ts[..j] + [t] + ts[j..];
    if k :| j <= k < |ts| && ts[k] != t {
      LinkedPosition(ts + [t], k, |ts|);
      assert us[j] == t && us[k + 1] == ts[k];
      InversionNotLinked(us, j, k + 1);
    } else {
      assert us == ts + [t];
    }
  }

  lemma {:induction false} StepTypesJoin(a: seq<Event>, b: seq<Event>)
    ensures StepTypes(a + b) == StepTypes(a) + StepTypes(b)
  {
    if b == [] {
      assert a + b == a;
    } else {
      assert (a + b)[..|a + b| - 1] == a + b[..|b| - 1];
      StepTypesJoin(a, b[..|b| - 1]);
    }
  }

  lemma TypesSplit(h: seq<Event>, j: nat)
    requires AllManaged(h) && j <= |h|
    ensures |StepTypes(h)| == |h| && StepTypes(h[..j]) == StepTypes(h)[..j] && StepTypes(h[j..]) == StepTypes(h)[j..]
  {
    assert AllManaged(h[..j]) && h == h[..j] + h[j..];
    ManagedTypes(h);
    ManagedTypes(h[..j]);
    StepTypesJoin(h[..j], h[j..]);
  }

  lemma InsertedTypes(h: seq<Event>, e: Event, j: nat)
    requires AllManaged(h) && Managed(e) && j <= |h|
    ensures |StepTypes(h)| == |h|
    ensures StepTypes(h[..j] + [e] + h[j..]) == StepTypes(h)[..j] + [e.etype] + StepTypes(h)[j..]
  {
    TypesSplit(h, j);
    StepTypesJoin(h[..j] + [e], h[j..]);
    assert (h[..j] + [e])[..j] == h[..j];
  }

  /** An admitted event that is listed at position `j` leaves the history valid exactly when
      everything listed after it has its own type. */
  lemma InsertValidIff(h: seq<Event>, e: Event, j: nat)
    requires AllManaged(h) && j <= |h| && Admits(StatusOf(h), e.etype)
    ensures StatusOf(h[..j] + [e] + h[j..]).valid <==> forall i :: j <= i < |h| ==> h[i].etype == e.etype
  {
    ValidIsLinked(h);
    AdmittedFollows(h, e.etype);
    InsertedTypes(h, e, j);
    ManagedTypes(h);
    LinkedAppend(StepTypes(h), e.etype);
    InsertLinkedIff(StepTypes(h), e.etype, j);
    ValidIsLinked(h[..j] + [e] + h[j..]);
  }

  /** A step between two others can go exactly when its neighbours may follow each other. */
  lemma CutLinkedIff(ts: seq<EventType>, k: nat)
    requires Linked(ts) && 0 < k < |ts| - 1
    ensures Linked(ts[..k] + ts[k + 1..]) <==> Follows(ts[k - 1], ts[k + 1])
  {
    var us := ts[..k] + ts[k + 1..];
    assert us[k - 1] == ts[k - 1] && us[k] == ts[k + 1] && us[0] == ts[0];
    if Follows(ts[k - 1], ts[k + 1]) {
      forall i | 0 < i < |us| ensures Follows(us[i - 1], us[i]) {
        if i < k {
          assert Follows(ts[i - 1], ts[i]);
        } else if i > k {
          assert Follows(ts[i], ts[i + 1]);
        }
      }
    }
  }

  lemma RemoveLinkedIff(ts: seq<EventType>, k: nat)
    requires Linked(ts) && k < |ts|
    ensures Linked(ts[..k] + ts[k + 1..]) <==> k == |ts| - 1 || exists m :: 0 <= m < |ts| && m != k && ts[m] == ts[k]
  {
    if k == |ts| - 1 {
      assert ts == ts[..k] + [ts[k]] && ts[..k] + ts[k + 1..] == ts[..k];
      LinkedAppend(ts[..k], ts[k]);
    } else {
      assert Follows(ts[k], ts[k + 1]);
      if m :| 0 <= m < |ts| && m != k && ts[m] == ts[k] {
        NeighbourRepeats(ts, k, m);
        assert Follows(ts[k - 1], ts[k]);
        CutLinkedIff(ts, k);
      } else if k > 0 {
        assert Follows(ts[k - 1], ts[k]) && ts[k - 1] != ts[k] && ts[k + 1] != ts[k];
        CutLinkedIff(ts, k);
      } else {
        assert ts[1] != ts[0] && (ts[..k] + ts[k + 1..])[0] == ts[1];
      }
    }
  }

  lemma RemovedTypes(h: seq<Event>, k: nat)
    requires AllManaged(h) && k < |h|
    ensures |StepTypes(h)| == |h| && StepTypes(h[..k] + h[k + 1..]) == StepTypes(h)[..k] + StepTypes(h)[k + 1..]
  {
    TypesSplit(h, k);
    TypesSplit(h, k + 1);
    StepTypesJoin(h[..k], h[k + 1..]);
  }

  /** Dropping position `k` from a valid history leaves it valid exactly when that position is
      the last one or its type occurs elsewhere in the history. */
  lemma RemoveValidIff(h: seq<Event>, k: nat)
    requires AllManaged(h) && k < |h| && StatusOf(h).valid
    ensures StatusOf(h[..k] + h[k + 1..]).valid <==>
            k == |h| - 1 || exists m :: 0 <= m < |h| && m != k && h[m].etype == h[k].etype
  {
    RemovedTypes(h, k);
    ManagedTypes(h);
    ValidIsLinked(h);
    ValidIsLinked(h[..k] + h[k + 1..]);
    RemoveLinkedIff(StepTypes(h), k);
    TypesRepeat(h, k);
  }

  lemma TypesRepeat(h: seq<Event>, k: nat)
    requires AllManaged(h) && k < |h| == |StepTypes(h)|
    ensures (exists m :: 0 <= m < |h| && m != k && h[m].etype == h[k].etype)
            <==> exists m :: 0 <= m < |h| && m != k && StepTypes(h)[m] == StepTypes(h)[k]
  {
    ManagedTypes(h);
    if m :| 0 <= m < |h| && m != k && h[m].etype == h[k].etype {
      assert StepTypes(h)[m] == StepTypes(h)[k];
    }
    if m :| 0 <= m < |h| && m != k && StepTypes(h)[m] == StepTypes(h)[k] {
      assert h[m].etype == h[k].etype;
    }
  }

  lemma NeighbourRepeats(ts: seq<EventType>, k: nat, m: nat)
    requires Linked(ts) && k < |ts| - 1 && m < |ts| && m != k && ts[m] == ts[k]
    ensures ts[k + 1] == ts[k] || (k > 0 && ts[k - 1] == ts[k])
    ensures k > 0
  {
    if m > k {
      LinkedPosition(ts, k, k + 1);
      LinkedPosition(ts, k + 1, m);
      SameStep(ts[k], ts[k + 1]);
      assert Follows(ts[k], ts[k + 1]);
    } else {
      LinkedPosition(ts, m, k - 1);
      LinkedPosition(ts, k - 1, k);
      SameStep(ts[k - 1], ts[k]);
    }
  }

  // ----------------------------------------------------------- custody discipline

  /** No custody record but the last is accepted, and valorization comes right after an accepted one. */
  ghost predicate CustodyDiscipline(h: seq<Event>) {
    && (forall i, j :: 0 <= i < j < |h| && h[i].etype == ResidueCustody && h[j].etype == ResidueCustody ==>
        !Accepts(h[i]))
    && (forall i :: 0 <= i < |h| && h[i].etype == Valorization ==> i > 0 && Accepts(h[i - 1]))
  }

  lemma {:induction false} ReaderAccepted(flow: Flow, h: seq<Event>)
    requires AllManaged(h) && forall i :: 0 <= i < |h| ==> FlowOf(h[i].etype) == flow
    requires !ReadAll(flow, h).broken
    ensures ReadAll(flow, h).accepted <==> exists i :: 0 <= i < |h| && Accepts(h[i])
  {
    if h != [] {
      var n := |h| - 1;
      var front := h[..n];
      assert ReadAll(flow, h) == Read(flow, ReadAll(flow, front), h[n]);
      forall i | 0 <= i < n ensures Managed(front[i]) && FlowOf(front[i].etype) == flow { assert front[i] == h[i]; }
      ReaderAccepted(flow, front);
      if i :| 0 <= i < n && Accepts(front[i]) { assert Accepts(h[i]); }
      if i :| 0 <= i < |h| && Accepts(h[i]) { assert i < n ==> Accepts(front[i]); }
    }
  }

  /** After a custody record, valorization is admitted if some record is accepted, and custody if none is. */
  lemma AfterCustody(h: seq<Event>, t: EventType)
    requires AllManaged(h) && h != [] && h[|h| - 1].etype == ResidueCustody && Admits(StatusOf(h), t)
    ensures t == if exists i :: 0 <= i < |h| && Accepts(h[i]) then Valorization else ResidueCustody
  {
    var flow := FirstFlow(h);
    ManagedTypes(h);
    ValidIsLinked(h);
    FirstFlowIsFirstType(h);
    forall i | 0 <= i < |h| ensures FlowOf(h[i].etype) == flow { AdmittedIsLatest(h, t, i); }
    ReaderFollowsLinks(flow, h);
    ReaderAccepted(flow, h);
    CustodyNextStep(h, t);
  }

  lemma CustodyNextStep(h: seq<Event>, t: EventType)
    requires Admits(StatusOf(h), t) && FirstFlow(h) == Circular && !Mixed(h)
    requires ReadAll(Circular, h).current == 1 && !ReadAll(Circular, h).broken
    ensures t == if ReadAll(Circular, h).accepted then Valorization else ResidueCustody
  {
  }

  lemma FirstCustody(h: seq<Event>, t: EventType)
    requires AllManaged(h) && h != [] && h[|h| - 1].etype != ResidueCustody && t == ResidueCustody
    requires Admits(StatusOf(h), t)
    ensures forall i :: 0 <= i < |h| ==> h[i].etype == ResidueGeneration
  {
    AdmittedFollows(h, t);
    forall i | 0 <= i < |h| ensures h[i].etype == ResidueGeneration {
      AdmittedIsLatest(h, t, i);
      ManagedTypes(h);
      ValidIsLinked(h);
      LinkedPosition(StepTypes(h), i, |h| - 1);
    }
  }

  lemma AppendKeepsDiscipline(h: seq<Event>, e: Event)
    requires AllManaged(h) && Admits(StatusOf(h), e.etype) && CustodyDiscipline(h)
    ensures StatusOf(h + [e]).valid && CustodyDiscipline(h + [e])
  {
    var n := |h|;
    InsertValidIff(h, e, n);
    assert h[..n] + [e] + h[n..] == h + [e];
    AdmittedFollows(h, e.etype);
    if n > 0 && h[n - 1].etype == ResidueCustody {
      AfterCustody(h, e.etype);
      DisciplineAfterCustody(h, e);
    } else {
      if n > 0 && e.etype == ResidueCustody {
        FirstCustody(h, e.etype);
      }
      DisciplineElsewhere(h, e);
    }
  }

  lemma DisciplineAfterCustody(h: seq<Event>, e: Event)
    requires CustodyDiscipline(h) && h != [] && h[|h| - 1].etype == ResidueCustody
    requires e.etype == if exists i :: 0 <= i < |h| && Accepts(h[i]) then Valorization else ResidueCustody
    ensures CustodyDiscipline(h + [e])
  {
  }

  lemma DisciplineElsewhere(h: seq<Event>, e: Event)
    requires CustodyDiscipline(h) && e.etype != Valorization
    requires e.etype == ResidueCustody ==> forall i :: 0 <= i < |h| ==> h[i].etype != ResidueCustody
    ensures CustodyDiscipline(h + [e])
  {
  }

  // ------------------------------------------------------------ what a status names

  lemma {:induction false} ReaderNames(flow: Flow, h: seq<Event>)
    requires flow != Unknown && h != [] && forall i :: 0 <= i < |h| ==> FlowOf(h[i].etype) == flow
    requires !ReadAll(flow, h).broken
    ensures var r := ReadAll(flow, h);
            && r.current >= 0 && r.last == h[|h| - 1].id
            && r.origin == if h[0].etype == ResidueGeneration then AsString(Field(h[0].payload, "origin_batch")) else ""
  {
    var n := |h| - 1;
    if n == 0 {
      assert h[..0] == [];
    } else {
      ReaderNames(flow, h[..n]);
    }
  }

  /** A valid history's status names its last event and the batch of the generation it starts with; a complete
      product may only be verified by consumers, and nothing follows a complete lot. */
  lemma StatusNames(h: seq<Event>)
    requires AllManaged(h) && h != [] && StatusOf(h).valid
    ensures var s := StatusOf(h);
            && s.lastEvent == h[|h| - 1].id
            && s.origin == (if h[0].etype == ResidueGeneration then AsString(Field(h[0].payload, "origin_batch"))
                            else "")
            && s.totalSteps == (if h[0].etype == Cultivation then 7 else 6)
            && (s.complete ==> s.next == if h[0].etype == Cultivation then [ConsumerVerification] else [])
  {
    var flow := FirstFlow(h);
    FirstFlowIsFirstType(h);
    ManagedTypes(h);
    ValidIsLinked(h);
    forall i | 0 <= i < |h| ensures FlowOf(h[i].etype) == flow { LinkedPosition(StepTypes(h), 0, i); }
    ReaderFollowsLinks(flow, h);
    ReaderNames(flow, h);
  }
}
