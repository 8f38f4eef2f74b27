/** The event table of the world state, its four indexes and the supersession pointers. */
module EventStore {
  import opened Values
  import opened Events
  import opened Listing
  import opened Workflow
  import opened Histories

  /** `log` is the order of commit, which the blockchain keeps and no operation reads. */
  datatype Store = Store(
    events: map<string, Event>, byTime: set<(int, string)>, bySubject: set<(string, int, string)>,
    byType: set<(EventType, int, string)>, byActor: set<(string, int, string)>,
    supersede: map<string, string>, log: seq<string>)

  const EMPTY := Store(map[], {}, {}, {}, {}, map[], [])

  function Put(s: Store, e: Event): Store {
    s.(events := s.events[e.id := e],
       byTime := s.byTime + {(e.orderKey, e.id)},
       bySubject := s.bySubject + {(e.subject, e.orderKey, e.id)},
       byType := s.byType + {(e.etype, e.orderKey, e.id)},
       byActor := s.byActor + {(e.actorOrg, e.orderKey, e.id)},
       log := s.log + [e.id])
  }

  function Supersede(s: Store, target: string, next: string): Store {
    s.(supersede := s.supersede[target := next])
  }

  // ------------------------------------------------------------------- invariants

  ghost predicate KeysMatch(s: Store) {
    forall id :: id in s.events ==> s.events[id].id == id
  }

  ghost predicate IndexesMatch(s: Store) {
    && (forall k :: k in s.byTime <==> k.1 in s.events && s.events[k.1].orderKey == k.0)
    && (forall k :: k in s.bySubject <==>
        k.2 in s.events && s.events[k.2].subject == k.0 && s.events[k.2].orderKey == k.1)
    && (forall k :: k in s.byType <==> k.2 in s.events && s.events[k.2].etype == k.0 && s.events[k.2].orderKey == k.1)
    && (forall k :: k in s.byActor <==>
        k.2 in s.events && s.events[k.2].actorOrg == k.0 && s.events[k.2].orderKey == k.1)
  }

  function Target(e: Event): string {
    AsString(Field(e.payload, "supersedes_event"))
  }

  function Patch(e: Event): Json {
    Field(e.payload, "corrected_payload")
  }

  ghost predicate LogMatches(s: Store) {
    && (forall id :: id in s.log <==> id in s.events)
    && (forall i, j :: 0 <= i < j < |s.log| ==> s.log[i] != s.log[j])
  }

  /** Pointers and correction events determine each other, and point forward in commit order. */
  ghost predicate ChainsMatch(s: Store) {
    && (forall a :: a in s.supersede ==>
          && a in s.events && s.supersede[a] in s.events
          && s.events[s.supersede[a]].etype == Correction
          && Target(s.events[s.supersede[a]]) == a
          && Patch(s.events[s.supersede[a]]).JObject?)
    && (forall c :: c in s.events && s.events[c].etype == Correction ==>
          Target(s.events[c]) in s.supersede && s.supersede[Target(s.events[c])] == c)
    && (forall i, j | 0 <= i < |s.log| && 0 <= j < |s.log| ::
          s.log[i] in s.supersede && s.supersede[s.log[i]] == s.log[j] ==> i < j)
  }

  ghost predicate StoreInv(s: Store) {
    KeysMatch(s) && IndexesMatch(s) && LogMatches(s) && ChainsMatch(s)
  }

  lemma PutKeepsTables(s: Store, e: Event)
    requires KeysMatch(s) && IndexesMatch(s) && e.id !in s.events
    ensures KeysMatch(Put(s, e)) && IndexesMatch(Put(s, e))
  {
  }

  lemma PutKeepsLog(s: Store, e: Event)
    requires LogMatches(s) && e.id !in s.events
    ensures LogMatches(Put(s, e))
  {
  }

  lemma PutKeepsChains(s: Store, e: Event)
    requires LogMatches(s) && ChainsMatch(s) && e.id !in s.events && e.etype != Correction
    ensures ChainsMatch(Put(s, e))
  {
  }

  lemma PutKeepsInv(s: Store, e: Event)
    requires StoreInv(s) && e.id !in s.events && e.etype != Correction
    ensures StoreInv(Put(s, e))
  {
    PutKeepsTables(s, e);
    PutKeepsLog(s, e);
    PutKeepsChains(s, e);
  }

  lemma CorrectKeepsInv(s: Store, e: Event, target: string)
    requires StoreInv(s) && e.id !in s.events && e.etype == Correction
    requires target in s.events && target !in s.supersede && Target(e) == target && Patch(e).JObject?
    ensures StoreInv(Supersede(Put(s, e), target, e.id))
  {
    PutKeepsTables(s, e);
    PutKeepsLog(s, e);
    CorrectKeepsChains(s, e, target);
  }

  lemma CorrectKeepsChains(s: Store, e: Event, target: string)
    requires LogMatches(s) && ChainsMatch(s) && e.id !in s.events && e.etype == Correction
    requires target in s.events && target !in s.supersede && Target(e) == target && Patch(e).JObject?
    ensures ChainsMatch(Supersede(Put(s, e), target, e.id))
  {
    var t := Supersede(Put(s, e), target, e.id);
    forall i, j | 0 <= i < |t.log| && 0 <= j < |t.log| && t.log[i] in t.supersede && t.supersede[t.log[i]] == t.log[j]
      ensures i < j
    {
      assert i < |s.log| ==> t.log[i] == s.log[i] && s.log[i] in s.events;
      assert j < |s.log| ==> t.log[j] == s.log[j] && s.log[j] in s.events;
    }
  }

  // --------------------------------------------------------------------- listings

  datatype Selector = All | OfSubject(subject: string) | OfType(etype: EventType) | OfActor(org: string)

  predicate Selects(sel: Selector, e: Event) {
    match sel
    case All => true
    case OfSubject(x) => e.subject == x
    case OfType(t) => e.etype == t
    case OfActor(o) => e.actorOrg == o
  }

  /** The events a listing must return. */
  ghost function Chosen(s: Store, sel: Selector, superseded: bool): set<Event> {
    set id | id in s.events && Selects(sel, s.events[id]) && (superseded || id !in s.supersede) :: s.events[id]
  }

  ghost function Listed(s: Store, sel: Selector, superseded: bool): seq<Event> {
    Sorted(Chosen(s, sel, superseded))
  }

  lemma InChosen(s: Store, sel: Selector, superseded: bool, e: Event)
    requires KeysMatch(s)
    ensures e in Chosen(s, sel, superseded) <==>
              e.id in s.events && s.events[e.id] == e && Selects(sel, e) && (superseded || e.id !in s.supersede)
  {
  }

  lemma InWorkflowSet(s: Store, subject: string, e: Event)
    requires KeysMatch(s)
    ensures e in WorkflowSet(s, subject) <==>
              e.id in s.events && s.events[e.id] == e && e.subject == subject && Managed(e) && e.id !in s.supersede
  {
  }

  lemma ChosenDistinct(s: Store, sel: Selector, superseded: bool)
    requires KeysMatch(s)
    ensures DistinctIds(Chosen(s, sel, superseded))
    ensures Ordered(Listed(s, sel, superseded))
    ensures forall e :: e in Listed(s, sel, superseded) <==> e in Chosen(s, sel, superseded)
  {
  }

  lemma ListedExactly(s: Store, sel: Selector, superseded: bool)
    requires KeysMatch(s)
    ensures Ordered(Listed(s, sel, superseded))
    ensures forall e :: e in Listed(s, sel, superseded) <==>
              e.id in s.events && s.events[e.id] == e && Selects(sel, e) && (superseded || e.id !in s.supersede)
  {
    ChosenDistinct(s, sel, superseded);
    forall e ensures e in Listed(s, sel, superseded) <==>
                       e.id in s.events && s.events[e.id] == e && Selects(sel, e)
                           && (superseded || e.id !in s.supersede)
    {
      InChosen(s, sel, superseded, e);
    }
  }

  /** The ids one index holds under a selector. */
  function IndexedIds(s: Store, sel: Selector): set<string> {
    match sel
    case All => set k | k in s.byTime :: k.1
    case OfSubject(x) => set k | k in s.bySubject && k.0 == x :: k.2
    case OfType(t) => set k | k in s.byType && k.0 == t :: k.2
    case OfActor(o) => set k | k in s.byActor && k.0 == o :: k.2
  }

  lemma IndexedIdsSelect(s: Store, sel: Selector)
    requires IndexesMatch(s)
    ensures forall id :: id in IndexedIds(s, sel) <==> id in s.events && Selects(sel, s.events[id])
  {
    forall id | id in s.events && Selects(sel, s.events[id]) ensures id in IndexedIds(s, sel) {
      var e := s.events[id];
      match sel {
        case All => assert (e.orderKey, id) in s.byTime;
        case OfSubject(_) => assert (e.subject, e.orderKey, id) in s.bySubject;
        case OfType(_) => assert (e.etype, e.orderKey, id) in s.byType;
        case OfActor(_) => assert (e.actorOrg, e.orderKey, id) in s.byActor;
      }
    }
  }

  /** Listing by an index is filtering the list of all events, in the same order. */
  lemma ListingIsFilter(s: Store, sel: Selector, superseded: bool)
    requires KeysMatch(s)
    ensures Listed(s, sel, superseded) == Filter(Listed(s, All, superseded), e => Selects(sel, e))
  {
    var keep := e => Selects(sel, e);
    ChosenDistinct(s, All, superseded);
    forall e ensures e in Chosen(s, All, superseded) && keep(e) <==> e in Chosen(s, sel, superseded) {
      InChosen(s, All, superseded, e);
      InChosen(s, sel, superseded, e);
    }
    SortedFilter(Chosen(s, All, superseded), keep, Chosen(s, sel, superseded));
  }

  // -------------------------------------------------------------------- histories

  /** The workflow events of a subject that have not been superseded. */
  ghost function WorkflowSet(s: Store, subject: string): set<Event> {
    set id | id in s.events && s.events[id].subject == subject && Managed(s.events[id])
        && id !in s.supersede :: s.events[id]
  }

  ghost function History(s: Store, subject: string): seq<Event> {
    Sorted(WorkflowSet(s, subject))
  }

  lemma HistoryFacts(s: Store, subject: string)
    requires KeysMatch(s)
    ensures DistinctIds(WorkflowSet(s, subject)) && Ordered(History(s, subject)) && AllManaged(History(s, subject))
    ensures forall e :: e in History(s, subject) <==> e in WorkflowSet(s, subject)
  {
    var h := History(s, subject);
    assert forall e :: e in h <==> e in Elements(h);
    forall i | 0 <= i < |h| ensures Managed(h[i]) {
      assert h[i] in WorkflowSet(s, subject);
    }
  }

  lemma HistoryIsFilter(s: Store, subject: string)
    requires KeysMatch(s)
    ensures Filter(Listed(s, OfSubject(subject), false), Managed) == History(s, subject)
  {
    ChosenDistinct(s, OfSubject(subject), false);
    forall e ensures e in Chosen(s, OfSubject(subject), false) && Managed(e) <==> e in WorkflowSet(s, subject) {
      InChosen(s, OfSubject(subject), false, e);
      InWorkflowSet(s, subject, e);
    }
    SortedFilter(Chosen(s, OfSubject(subject), false), Managed, WorkflowSet(s, subject));
  }

  lemma HistoryAfterPut(s: Store, e: Event, subject: string)
    requires KeysMatch(s) && e.id !in s.events && e.id !in s.supersede
    ensures History(Put(s, e), subject) ==
            if e.subject == subject && Managed(e) then Insert(History(s, subject), e) else History(s, subject)
  {
    HistoryFacts(s, subject);
    var before, after := WorkflowSet(s, subject), WorkflowSet(Put(s, e), subject);
    forall x | x in before ensures x in after {
      assert x.id in s.events && Put(s, e).events[x.id] == x;
    }
    if e.subject == subject && Managed(e) {
      assert Put(s, e).events[e.id] == e;
      assert after == before + {e};
      SortedInsert(before, e);
    } else {
      assert after == before;
    }
  }

  lemma HistoryAfterSupersede(s: Store, target: string, next: string, subject: string) returns (k: nat)
    requires KeysMatch(s) && target in s.events
    ensures var h, e := History(s, subject), s.events[target];
            if e in h then k < |h| && h[k] == e && History(Supersede(s, target, next), subject) == h[..k] + h[k + 1..]
            else History(Supersede(s, target, next), subject) == h
  {
    var h, e := History(s, subject), s.events[target];
    HistoryFacts(s, subject);
    var before, after := WorkflowSet(s, subject), WorkflowSet(Supersede(s, target, next), subject);
    forall x ensures x in after <==> x in before && x != e {
      if x in before && x != e {
        assert x.id != target && s.events[x.id] == x;
      }
    }
    if e in h {
      k :| 0 <= k < |h| && h[k] == e;
      assert after == before - {e};
      SortedRemove(before, k);
    } else {
      k := 0;
      assert after == before;
    }
  }

  // ------------------------------------------------------------------ corrections

  /** The corrections reached from an event by following pointers. */
  function Chain(s: Store, id: string, seen: set<string>): seq<string>
    decreases |s.events.Keys - seen|
  {
    if id !in s.supersede || s.supersede[id] in seen || s.supersede[id] !in s.events then []
    else
      var next := s.supersede[id];
      assert s.events.Keys - (seen + {next}) < s.events.Keys - seen;
      CardinalitySmaller(s.events.Keys - (seen + {next}), s.events.Keys - seen);
      [next] + Chain(s, next, seen + {next})
  }

  lemma CardinalitySmaller(a: set<string>, b: set<string>)
    requires a < b
    ensures |a| < |b|
  {
    var x :| x in b && x !in a;
    assert a <= b - {x};
    CardinalityMonotone(a, b - {x});
  }

  lemma {:induction false} CardinalityMonotone<T>(a: set<T>, b: set<T>)
    requires a <= b
    ensures |a| <= |b|
  {
    if a != {} {
      var x :| x in a;
      CardinalityMonotone(a - {x}, b - {x});
    }
  }

  datatype Effective = Effective(payload: Payload, last: string)

  /** The walk of `effectiveEvent`: None when a pointer closes a cycle, leads nowhere, or leads
      to an event without a well-formed patch. */
  function Walk(s: Store, id: string, payload: Payload, last: string, seen: set<string>): Option<Effective>
    decreases |s.events.Keys - seen|
  {
    if id !in s.supersede then Some(Effective(payload, last))
    else
      var next := s.supersede[id];
      if next in seen || next !in s.events || !Patch(s.events[next]).JObject? then None
      else
        CardinalitySmaller(s.events.Keys - (seen + {next}), s.events.Keys - seen);
        Walk(s, next, Overlay(payload, Patch(s.events[next]).fields), next, seen + {next})
  }

  function EffectiveEvent(s: Store, e: Event): Option<Effective> {
    Walk(s, e.id, e.payload, "", {e.id})
  }

  /** The whole chain of corrections of an event. */
  function Corrections(s: Store, id: string): seq<string> {
    Chain(s, id, {id})
  }

  /** The payload with the patches of a chain laid over it in chain order. */
  function OverlayAll(s: Store, payload: Payload, c: seq<string>): Payload {
    if c == [] then payload
    else
      var last, below := c[|c| - 1], OverlayAll(s, payload, c[..|c| - 1]);
      if last in s.events && Patch(s.events[last]).JObject? then Overlay(below, Patch(s.events[last]).fields) else below
  }

  lemma {:induction false} OverlayFirst(s: Store, payload: Payload, first: string, rest: seq<string>)
    requires first in s.events && Patch(s.events[first]).JObject?
    ensures OverlayAll(s, payload, [first] + rest)
            == OverlayAll(s, Overlay(payload, Patch(s.events[first]).fields), rest)
  {
    var c := [first] + rest;
    if rest == [] {
      assert c == [first] && c[..0] == [];
    } else {
      assert c[..|c| - 1] == [first] + rest[..|rest| - 1];
      OverlayFirst(s, payload, first, rest[..|rest| - 1]);
    }
  }

  function Prior(id: string, c: seq<string>, i: nat): string
    requires i <= |c|
  {
    if i == 0 then id else c[i - 1]
  }

  /** A chain is unbroken, well formed, and ends at an event that nothing supersedes. */
  ghost predicate WholeChain(s: Store, id: string, c: seq<string>) {
    && (forall i :: 0 <= i < |c| ==> c[i] in s.events && Patch(s.events[c[i]]).JObject?)
    && (forall i {:trigger Prior(id, c, i)} :: 0 <= i < |c| ==>
        Prior(id, c, i) in s.supersede && s.supersede[Prior(id, c, i)] == c[i])
    && Prior(id, c, |c|) !in s.supersede
  }

  /** A pointer leads from a commit position to a later one. */
  lemma PointsLater(s: Store, p: nat) returns (q: nat)
    requires LogMatches(s) && ChainsMatch(s) && p < |s.log| && s.log[p] in s.supersede
    ensures p < q < |s.log| && s.log[q] == s.supersede[s.log[p]] && s.log[q] !in s.log[..p + 1]
    ensures s.log[q] in s.events && Patch(s.events[s.log[q]]).JObject?
  {
    assert s.log[p] in s.events;
    assert s.supersede[s.log[p]] in s.log;
    q :| 0 <= q < |s.log| && s.log[q] == s.supersede[s.log[p]];
  }

  lemma {:induction false} ChainIsWhole(s: Store, id: string, seen: set<string>, p: nat)
    requires LogMatches(s) && ChainsMatch(s) && p < |s.log| && s.log[p] == id
    requires forall x :: x in seen ==> x in s.log[..p + 1]
    ensures WholeChain(s, id, Chain(s, id, seen))
    decreases |s.log| - p
  {
    if id in s.supersede {
      var q := PointsLater(s, p);
      var next := s.supersede[id];
      ChainIsWhole(s, next, seen + {next}, q);
      WholeChainGrows(s, id, next, Chain(s, next, seen + {next}));
    }
  }

  /** Pointers lead forward, so a walk from commit position `p` never meets what it has seen. */
  lemma {:induction false} WalkFollowsChain(s: Store, id: string, payload: Payload, last: string, seen: set<string>,
                                            p: nat)
    requires LogMatches(s) && ChainsMatch(s) && p < |s.log| && s.log[p] == id
    requires forall x :: x in seen ==> x in s.log[..p + 1]
    ensures var c := Chain(s, id, seen);
            Walk(s, id, payload, last, seen)
                == Some(Effective(OverlayAll(s, payload, c), if c == [] then last else c[|c| - 1]))
    decreases |s.log| - p
  {
    if id in s.supersede {
      var q := PointsLater(s, p);
      var next := s.supersede[id];
      var patched, rest := Overlay(payload, Patch(s.events[next]).fields), Chain(s, next, seen + {next});
      WalkFollowsChain(s, next, patched, next, seen + {next}, q);
      OverlayFirst(s, payload, next, rest);
    }
  }

  lemma WholeChainGrows(s: Store, id: string, next: string, rest: seq<string>)
    requires WholeChain(s, next, rest) && id in s.supersede && s.supersede[id] == next
    requires next in s.events && Patch(s.events[next]).JObject?
    ensures WholeChain(s, id, [next] + rest)
  {
    var c := [next] + rest;
    forall i | 0 < i <= |c| ensures Prior(id, c, i) == Prior(next, rest, i - 1) {}
    forall i | 0 <= i < |c|
      ensures Prior(id, c, i) in s.supersede && s.supersede[Prior(id, c, i)] == c[i] && c[i] in s.events
      ensures Patch(s.events[c[i]]).JObject?
    {
      if i > 0 {
        assert c[i] == rest[i - 1];
      }
    }
  }

  /** In a consistent store the walk of every event ends, and yields the original payload overlaid
      with the patches of its whole chain in chain order. */
  lemma EffectiveIsOverlay(s: Store, id: string)
    requires StoreInv(s) && id in s.events
    ensures var c, e := Corrections(s, id), s.events[id];
            && WholeChain(s, id, c)
            && EffectiveEvent(s, e) == Some(Effective(OverlayAll(s, e.payload, c), if c == [] then "" else c[|c| - 1]))
  {
    assert id in s.log;
    var p :| 0 <= p < |s.log| && s.log[p] == id;
    ChainIsWhole(s, id, {id}, p);
    WalkFollowsChain(s, id, s.events[id].payload, "", {id}, p);
  }

  /** Each key of an overlaid payload comes from the latest patch that has it, or else from the original. */
  lemma {:induction false} LatestPatchWins(s: Store, payload: Payload, c: seq<string>, key: string, i: int)
    requires forall k :: 0 <= k < |c| ==> c[k] in s.events && Patch(s.events[c[k]]).JObject?
    requires -1 <= i < |c| && (i >= 0 ==> key in Patch(s.events[c[i]]).fields)
    requires forall k :: i < k < |c| ==> key !in Patch(s.events[c[k]]).fields
    ensures Field(OverlayAll(s, payload, c), key) == if i >= 0 then Patch(s.events[c[i]]).fields[key]
            else Field(payload, key)
    ensures key in OverlayAll(s, payload, c) <==> i >= 0 || key in payload
  {
    if i < |c| - 1 {
      LatestPatchWins(s, payload, c[..|c| - 1], key, i);
    }
  }

  /** An event that nothing supersedes is its own effective event. */
  lemma UnsupersededIsEffective(s: Store, e: Event)
    requires e.id !in s.supersede
    ensures EffectiveEvent(s, e) == Some(Effective(e.payload, ""))
  {
  }

  lemma SamePointer(s: Store, x: string, y: string)
    requires ChainsMatch(s) && x in s.supersede && y in s.supersede && s.supersede[x] == s.supersede[y]
    ensures x == y
  {
  }

  lemma PointedAtIsCorrection(s: Store, x: string)
    requires ChainsMatch(s) && x in s.supersede
    ensures s.supersede[x] in s.events && s.events[s.supersede[x]].etype == Correction
  {
  }

  ghost predicate Original(s: Store, id: string) {
    id in s.events && s.events[id].etype != Correction
  }

  lemma {:induction false} ChainsMeetBackwards(s: Store, a: string, b: string, ca: seq<string>, cb: seq<string>, i: nat,
                                               j: nat)
    requires ChainsMatch(s) && WholeChain(s, a, ca) && WholeChain(s, b, cb)
    requires i < |ca| && j < |cb| && ca[i] == cb[j]
    requires a in s.events && b in s.events && s.events[a].etype != Correction && s.events[b].etype != Correction
    ensures a == b
  {
    var x, y := Prior(a, ca, i), Prior(b, cb, j);
    SamePointer(s, x, y);
    if i > 0 {
      PointedAtIsCorrection(s, Prior(a, ca, i - 1));
    }
    if j > 0 {
      PointedAtIsCorrection(s, Prior(b, cb, j - 1));
    }
    if i > 0 && j > 0 {
      ChainsMeetBackwards(s, a, b, ca, cb, i - 1, j - 1);
    }
  }

  /** Two different original events never share a correction. */
  lemma ChainsDisjoint(s: Store, a: string, b: string)
    requires StoreInv(s) && a in s.events && b in s.events && a != b
    requires s.events[a].etype != Correction && s.events[b].etype != Correction
    ensures forall x :: x in Corrections(s, a) ==> x !in Corrections(s, b)
  {
    EffectiveIsOverlay(s, a);
    EffectiveIsOverlay(s, b);
    var ca, cb := Corrections(s, a), Corrections(s, b);
    forall x | x in ca ensures x !in cb {
      var i :| 0 <= i < |ca| && ca[i] == x;
      if j :| 0 <= j < |cb| && cb[j] == x {
        ChainsMeetBackwards(s, a, b, ca, cb, i, j);
      }
    }
  }
}
