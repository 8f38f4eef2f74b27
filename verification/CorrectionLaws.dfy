/** What an accepted correction does to the effective payloads of all original events. */
module CorrectionLaws {
  import opened Values
  import opened Events
  import opened EventStore
  import opened World
  import WorkflowRuns

  /** The event at the end of a chain, which nothing supersedes. */
  function Newest(s: EventStore.Store, id: string): string {
    Prior(id, Corrections(s, id), |Corrections(s, id)|)
  }

  // ----------------------------------------------------------------- one chain each

  lemma {:induction false} WholeChainUnique(s: EventStore.Store, id: string, a: seq<string>, b: seq<string>, n: nat)
    requires WholeChain(s, id, a) && WholeChain(s, id, b) && n <= |a|
    ensures n <= |b| && a[..n] == b[..n]
  {
    if n > 0 {
      WholeChainUnique(s, id, a, b, n - 1);
      assert Prior(id, a, n - 1) == Prior(id, b, n - 1);
      assert n - 1 < |b|;
      assert a[..n] == a[..n - 1] + [a[n - 1]] && b[..n] == b[..n - 1] + [b[n - 1]];
    }
  }

  lemma CorrectionsAre(s: EventStore.Store, id: string, c: seq<string>)
    requires StoreInv(s) && id in s.events && WholeChain(s, id, c)
    ensures Corrections(s, id) == c
  {
    EffectiveIsOverlay(s, id);
    WholeChainUnique(s, id, c, Corrections(s, id), |c|);
    WholeChainUnique(s, id, Corrections(s, id), c, |Corrections(s, id)|);
    assert c[..|c|] == c && Corrections(s, id)[..|c|] == Corrections(s, id);
  }

  lemma PointedFrom(s: EventStore.Store, p: nat) returns (q: nat)
    requires LogMatches(s) && ChainsMatch(s) && p < |s.log| && s.events[s.log[p]].etype == Correction
    ensures q < p && s.log[q] in s.supersede && s.supersede[s.log[q]] == s.log[p]
  {
    var x := Target(s.events[s.log[p]]);
    assert s.log[p] in s.events && x in s.supersede;
    assert x in s.log;
    q :| 0 <= q < |s.log| && s.log[q] == x;
  }

  lemma NextOnChain(s: EventStore.Store, o: string, c: seq<string>, i: nat)
    requires WholeChain(s, o, c) && i <= |c| && Prior(o, c, i) in s.supersede
    ensures i < |c| && Prior(o, c, i + 1) == s.supersede[Prior(o, c, i)]
  {
  }

  /** Every stored event is an original or a correction on the chain of one. */
  lemma {:induction false} OnSomeChain(s: EventStore.Store, p: nat) returns (o: string, i: nat)
    requires StoreInv(s) && p < |s.log|
    ensures Original(s, o) && i <= |Corrections(s, o)| && Prior(o, Corrections(s, o), i) == s.log[p]
    decreases p
  {
    assert s.log[p] in s.events;
    if s.events[s.log[p]].etype != Correction {
      o, i := s.log[p], 0;
    } else {
      var q := PointedFrom(s, p);
      o, i := OnSomeChain(s, q);
      EffectiveIsOverlay(s, o);
      NextOnChain(s, o, Corrections(s, o), i);
      i := i + 1;
    }
  }

  /** An event that nothing supersedes is the newest of the chain of exactly one original. */
  lemma NewestOfOne(s: EventStore.Store, id: string) returns (o: string)
    requires StoreInv(s) && id in s.events && id !in s.supersede
    ensures Original(s, o) && Newest(s, o) == id
    ensures forall x :: Original(s, x) && Newest(s, x) == id ==> x == o
  {
    assert id in s.log;
    var p :| 0 <= p < |s.log| && s.log[p] == id;
    var i: nat;
    o, i := OnSomeChain(s, p);
    EffectiveIsOverlay(s, o);
    forall x | Original(s, x) && Newest(s, x) == id ensures x == o {
      SameNewest(s, x, o);
    }
  }

  lemma NewestIs(s: EventStore.Store, id: string)
    requires StoreInv(s) && id in s.events
    ensures Newest(s, id) == id || (Newest(s, id) in Corrections(s, id) && !Original(s, Newest(s, id)))
  {
    EffectiveIsOverlay(s, id);
    var c := Corrections(s, id);
    if c != [] {
      assert c[|c| - 1] in c;
      PointedAtIsCorrection(s, Prior(id, c, |c| - 1));
    }
  }

  lemma SameNewest(s: EventStore.Store, x: string, y: string)
    requires StoreInv(s) && Original(s, x) && Original(s, y) && Newest(s, x) == Newest(s, y)
    ensures x == y
  {
    NewestIs(s, x);
    NewestIs(s, y);
    if x != y {
      ChainsDisjoint(s, x, y);
    }
  }

  // -------------------------------------------------------------- one more correction

  lemma {:induction false} OverlayKept(s: EventStore.Store, t: EventStore.Store, payload: Payload, c: seq<string>)
    requires forall x :: x in c ==> x in s.events && x in t.events && t.events[x] == s.events[x]
    ensures OverlayAll(t, payload, c) == OverlayAll(s, payload, c)
  {
    if c != [] {
      OverlayKept(s, t, payload, c[..|c| - 1]);
    }
  }

  /** The second store holds the first and one more pointer, from the target to a new correction. */
  ghost predicate OneMore(s: EventStore.Store, t: EventStore.Store, target: string, n: string) {
    && (forall id :: id in s.events ==> id in t.events && t.events[id] == s.events[id])
    && target !in s.supersede && n !in s.supersede && n != target
    && t.supersede == s.supersede[target := n]
    && n in t.events && Patch(t.events[n]).JObject?
  }

  lemma ChainExtends(s: EventStore.Store, t: EventStore.Store, target: string, n: string, o: string, c: seq<string>)
    requires OneMore(s, t, target, n) && WholeChain(s, o, c)
    ensures WholeChain(t, o, c + (if Prior(o, c, |c|) == target then [n] else []))
  {
    var d := c + (if Prior(o, c, |c|) == target then [n] else []);
    forall i | 0 <= i <= |c| ensures Prior(o, d, i) == Prior(o, c, i) {}
    forall i {:trigger Prior(o, d, i)} | 0 <= i < |d|
      ensures d[i] in t.events && Patch(t.events[d[i]]).JObject?
      ensures Prior(o, d, i) in t.supersede && t.supersede[Prior(o, d, i)] == d[i]
    {
      if i < |c| {
        assert Prior(o, c, i) in s.supersede && d[i] == c[i];
      }
    }
  }

  lemma ChainAfter(s: EventStore.Store, t: EventStore.Store, target: string, n: string, o: string)
    requires StoreInv(s) && StoreInv(t) && OneMore(s, t, target, n) && Original(s, o)
    ensures Corrections(t, o) == Corrections(s, o) + (if Newest(s, o) == target then [n] else [])
    ensures forall x :: x in Corrections(s, o) ==> x in s.events
  {
    EffectiveIsOverlay(s, o);
    ChainExtends(s, t, target, n, o, Corrections(s, o));
    CorrectionsAre(t, o, Corrections(s, o) + (if Newest(s, o) == target then [n] else []));
  }

  lemma EffectiveAfter(s: EventStore.Store, t: EventStore.Store, target: string, n: string, o: string)
    requires StoreInv(s) && StoreInv(t) && OneMore(s, t, target, n) && Original(s, o)
    ensures Patched(s, t, o, Patch(t.events[n]).fields, Newest(s, o) == target)
  {
    var c, payload := Corrections(s, o), s.events[o].payload;
    EffectiveIsOverlay(s, o);
    EffectiveIsOverlay(t, o);
    ChainAfter(s, t, target, n, o);
    OverlayKept(s, t, payload, c);
    if Newest(s, o) == target {
      OverlayLast(t, payload, c, n);
      OverlayLays(OverlayAll(s, payload, c), Patch(t.events[n]).fields);
    } else {
      assert c + [] == c;
    }
  }

  lemma OverlayLast(t: EventStore.Store, payload: Payload, c: seq<string>, n: string)
    requires n in t.events && Patch(t.events[n]).JObject?
    ensures OverlayAll(t, payload, c + [n]) == Overlay(OverlayAll(t, payload, c), Patch(t.events[n]).fields)
  {
    assert (c + [n])[..|c|] == c;
  }

  /** The effective payload of an original before and after: either the keys of a patch take the patch's
      values and every other key keeps its own, or nothing changes. */
  ghost predicate Patched(s: EventStore.Store, t: EventStore.Store, o: string, patch: Payload, changed: bool) {
    && o in s.events && o in t.events && t.events[o] == s.events[o]
    && var before, after := EffectiveEvent(s, s.events[o]), EffectiveEvent(t, t.events[o]);
       && before.Some? && after.Some?
       && if changed then Lays(before.value.payload, after.value.payload, patch)
          else after.value.payload == before.value.payload
  }

  ghost predicate Lays(was: Payload, now: Payload, patch: Payload) {
    && (forall k :: k in patch ==> k in now && now[k] == patch[k])
    && (forall k :: k !in patch ==> (k in now <==> k in was) && Field(now, k) == Field(was, k))
  }

  lemma OverlayLays(was: Payload, patch: Payload)
    ensures Lays(was, Overlay(was, patch), patch)
  {
  }

  // -------------------------------------------------------------- accepted corrections

  /** An accepted correction lays the caller's patch over the effective payload of the one original whose
      chain ends at the target, and leaves the effective payload of every other original alone. */
  lemma CorrectionLaysPatch(w: State, c: Ctx, tx: Tx, o: string)
    requires Inv(w) && tx.CorrectEvent? && Step(w, c, tx) != w && Original(w.store, o)
    ensures Patched(w.store, Step(w, c, tx).store, o, tx.patch, Newest(w.store, o) == tx.target)
  {
    StepIs(w, c, tx);
    StepKeeps(w, c, tx);
    WorkflowRuns.AcceptedShape(w, c, tx);
    var e := NewEvent(c, Caller(c).value, Correction, w.store.events[tx.target].subject,
                      CorrectionPayload(tx.target, tx.reason, tx.patch), tx.eventId);
    NotSuperseded(w.store, e.id);
    EffectiveAfter(w.store, Step(w, c, tx).store, tx.target, e.id, o);
  }

  /** ... of which there is exactly one. */
  lemma CorrectionHitsOne(w: State, c: Ctx, tx: Tx) returns (o: string)
    requires Inv(w) && tx.CorrectEvent? && Step(w, c, tx) != w
    ensures Original(w.store, o) && Newest(w.store, o) == tx.target
    ensures Patched(w.store, Step(w, c, tx).store, o, tx.patch, true)
    ensures forall x :: Original(w.store, x) && x != o ==> Patched(w.store, Step(w, c, tx).store, x, tx.patch, false)
  {
    StepIs(w, c, tx);
    WorkflowRuns.AcceptedShape(w, c, tx);
    o := NewestOfOne(w.store, tx.target);
    CorrectionLaysPatch(w, c, tx, o);
    forall x | Original(w.store, x) && x != o
      ensures Patched(w.store, Step(w, c, tx).store, x, tx.patch, false)
    {
      CorrectionLaysPatch(w, c, tx, x);
    }
  }

  /** The stored correction names its target and reason and holds the patch as submitted. */
  lemma CorrectionStored(w: State, c: Ctx, tx: Tx, id: string)
    requires tx.CorrectEvent? && id !in w.store.events && id in Step(w, c, tx).store.events
    ensures var e := Step(w, c, tx).store.events[id];
            && id == (if tx.eventId == "" then c.txId else tx.eventId) && e.id == id && e.etype == Correction
            && HoldsCorrection(e.payload, tx.target, tx.reason, tx.patch)
  {
    StepIs(w, c, tx);
    WorkflowRuns.AcceptedShape(w, c, tx);
    PayloadHolds(tx.target, tx.reason, tx.patch);
  }

  predicate HoldsCorrection(p: Payload, target: string, reason: string, patch: Payload) {
    && p.Keys == {"supersedes_event", "reason", "corrected_payload"}
    && AsString(Field(p, "supersedes_event")) == target && AsString(Field(p, "reason")) == reason
    && Field(p, "corrected_payload").JObject? && Field(p, "corrected_payload").fields == patch
  }

  lemma PayloadHolds(target: string, reason: string, patch: Payload)
    ensures HoldsCorrection(CorrectionPayload(target, reason, patch), target, reason, patch)
  {
  }
}
