/** What the service's ledger answers for a corrected event, said on the stored corrections alone. */
module LocalCorrections {
  import opened Values
  import opened Events
  import opened LocalLedger

  /** The event at `j` is a correction that names the event at `i`. */
  predicate Names(entries: seq<Entry>, j: int, i: int) {
    && 0 <= j < |entries| && 0 <= i < |entries|
    && entries[j].body.etype == Correction
    && var v := Field(entries[j].body.payload, "supersedes_event");
       IsString(v) && AsString(v) == entries[i].body.id
  }

  /** ... and the last one that does. */
  ghost predicate LastNaming(entries: seq<Entry>, j: int, i: int) {
    Names(entries, j, i) && forall k :: j < k < |entries| ==> !Names(entries, k, i)
  }

  // ------------------------------------------------------------------------ pointers

  /** The rebuilt pointer of an event is that of the last correction read so far that names it. */
  lemma {:induction false} RebuiltPointer(file: seq<Entry>, n: nat, i: nat) returns (j: int)
    requires n <= |file| && i < |file| && file[i].supersededBy == None
    ensures |Rebuilt(file, n)| == |file| && -1 <= j < n
    ensures j >= 0 ==> Names(file, j, i) && Rebuilt(file, n)[i].supersededBy == Some(file[j].body.id)
    ensures j == -1 ==> Rebuilt(file, n)[i].supersededBy == None
    ensures forall k :: j < k < n ==> !Names(file, k, i)
  {
    j := -1;
    if n > 0 {
      j := RebuiltPointer(file, n - 1, i);
      AppliedPointer(file, n - 1, i);
      if Names(file, n - 1, i) {
        j := n - 1;
      }
    }
  }

  lemma AppliedPointer(file: seq<Entry>, n: nat, i: nat)
    requires n < |file| && i < |file| && |Rebuilt(file, n)| == |file|
    ensures |Rebuilt(file, n + 1)| == |file|
    ensures Rebuilt(file, n + 1)[i].supersededBy ==
            if Names(file, n, i) then Some(file[n].body.id) else Rebuilt(file, n)[i].supersededBy
  {
    RebuiltSame(file, n);
    SameBodies(Rebuilt(file, n), file);
  }

  /** Every pointer names the last stored correction of its event, and an event without one is named by none. */
  ghost predicate PointersAreLast(entries: seq<Entry>) {
    forall i {:trigger PointerIsLast(entries, i)} :: 0 <= i < |entries| ==> PointerIsLast(entries, i)
  }

  ghost predicate PointerIsLast(entries: seq<Entry>, i: nat)
    requires i < |entries|
  {
    && (entries[i].supersededBy.None? <==> forall j :: !Names(entries, j, i))
    && (forall j :: LastNaming(entries, j, i) ==> entries[i].supersededBy == Some(entries[j].body.id))
  }

  lemma LoadedPointers(file: seq<Entry>)
    requires forall i :: 0 <= i < |file| ==> file[i].supersededBy == None
    ensures PointersAreLast(Load(file))
  {
    var entries := Load(file);
    RebuiltSame(file, |file|);
    SameBodies(entries, file);
    forall i: nat | i < |entries| ensures PointerIsLast(entries, i) {
      var j := RebuiltPointer(file, |file|, i);
      SameNames(file, entries, i);
      forall k | LastNaming(entries, k, i) ensures k == j {
        assert Names(file, k, i);
      }
    }
  }

  lemma SameNames(a: seq<Entry>, b: seq<Entry>, i: nat)
    requires |a| == |b| && forall k :: 0 <= k < |a| ==> a[k].body == b[k].body
    ensures forall j :: Names(a, j, i) <==> Names(b, j, i)
  {
  }

  lemma {:induction false} LastOf(entries: seq<Entry>, i: nat, n: nat) returns (j: nat)
    requires n <= |entries| && exists k :: 0 <= k < n && Names(entries, k, i)
    requires forall k :: n <= k < |entries| ==> !Names(entries, k, i)
    ensures LastNaming(entries, j, i)
  {
    if Names(entries, n - 1, i) {
      j := n - 1;
    } else {
      j := LastOf(entries, i, n - 1);
    }
  }

  // --------------------------------------------------------------------------- chains

  /** The corrections of an event: each is the last that names the one before, up to one that none names.
      A correction under the empty id ends the chain, as the walk does not follow an empty pointer. */
  ghost predicate CorrectedBy(entries: seq<Entry>, i: nat, at: seq<nat>) {
    && Within(entries, at)
    && (forall n {:trigger Before(i, at, n)} :: 0 <= n < |at| ==>
          LastNaming(entries, at[n], Before(i, at, n)) && entries[at[n]].body.id != "")
    && forall j :: LastNaming(entries, j, Before(i, at, |at|)) ==> entries[j].body.id == ""
  }

  predicate Within(entries: seq<Entry>, at: seq<nat>) {
    forall n :: 0 <= n < |at| ==> at[n] < |entries|
  }

  function Before(i: nat, at: seq<nat>, n: nat): nat
    requires n <= |at|
  {
    if n == 0 then i else at[n - 1]
  }

  lemma ChainGrows(entries: seq<Entry>, i: nat, j: nat, rest: seq<nat>)
    requires LastNaming(entries, j, i) && entries[j].body.id != "" && CorrectedBy(entries, j, rest)
    ensures CorrectedBy(entries, i, [j] + rest)
  {
    var at := [j] + rest;
    forall n | 0 < n <= |at| ensures Before(i, at, n) == Before(j, rest, n - 1) {}
    forall n {:trigger Before(i, at, n)} | 0 <= n < |at|
      ensures LastNaming(entries, at[n], Before(i, at, n)) && entries[at[n]].body.id != ""
    {
      if n > 0 {
        assert at[n] == rest[n - 1];
      }
    }
  }

  lemma {:induction false} PatchesAreCorrections(entries: seq<Entry>, i: nat)
    requires DistinctIds(entries) && PointersForward(entries) && PointersAreLast(entries) && i < |entries|
    ensures CorrectedBy(entries, i, PatchesFrom(entries, i))
    decreases |entries| - i
  {
    if !Follows(entries, i) {
      NoPointerFollowed(entries, i);
    } else {
      var j := NextPatch(entries, i);
      PositionFinds(entries, entries[i].supersededBy.value);
      PointsAtLast(entries, i, j);
      PatchesAreCorrections(entries, j);
      ChainGrows(entries, i, j, PatchesFrom(entries, j));
    }
  }

  lemma PointsAtLast(entries: seq<Entry>, i: nat, j: nat)
    requires DistinctIds(entries) && PointersAreLast(entries) && i < |entries| && j < |entries|
    requires entries[i].supersededBy == Some(entries[j].body.id)
    ensures LastNaming(entries, j, i)
  {
    assert PointerIsLast(entries, i);
    var k :| Names(entries, k, i);
    var last := LastOf(entries, i, |entries|);
    assert entries[last].body.id == entries[j].body.id;
  }

  lemma NoPointerFollowed(entries: seq<Entry>, i: nat)
    requires PointersAreLast(entries) && i < |entries| && !Follows(entries, i)
    ensures forall j :: LastNaming(entries, j, i) ==> entries[j].body.id == ""
  {
    assert PointerIsLast(entries, i);
  }

  // ------------------------------------------------------------------------- payloads

  /** The correction's patch is an object that has the key. */
  predicate Sets(e: Entry, key: string) {
    var patch := Field(e.body.payload, "corrected_payload");
    patch.JObject? && key in patch.fields
  }

  /** Without its key, or with an empty text or list, a correction changes nothing; with an object it changes fields. */
  lemma ReadableIs(e: Entry)
    ensures Readable(e) <==>
              "corrected_payload" in e.body.payload ==>
                var patch := e.body.payload["corrected_payload"];
                patch.JObject? || patch == JText("") || (patch.JArray? && patch.items == [])
  {
  }

  /** Each key comes from the latest correction of the chain that sets it, or else from the payload at the start. */
  lemma {:induction false} LatestSets(entries: seq<Entry>, i: nat, payload: Payload, key: string, n: int)
    requires i < |entries| && EffectiveFrom(entries, i, payload).Some?
    requires var at := PatchesFrom(entries, i);
             && -1 <= n < |at| && Within(entries, at)
             && (n >= 0 ==> Sets(entries[at[n]], key)) && forall k :: n < k < |at| ==> !Sets(entries[at[k]], key)
    ensures var at, p := PatchesFrom(entries, i), EffectiveFrom(entries, i, payload).value;
            && (key in p <==> n >= 0 || key in payload)
            && Field(p, key) ==
               if n >= 0 then Field(entries[at[n]].body.payload, "corrected_payload").fields[key]
               else Field(payload, key)
    decreases |entries| - i
  {
    if Follows(entries, i) {
      var j, at := PositionOf(entries, entries[i].supersededBy.value), PatchesFrom(entries, i);
      var rest := PatchesFrom(entries, j);
      assert at == [j] + rest && at[0] == j;
      forall k | 0 <= k < |rest| ensures rest[k] == at[k + 1] {}
      PatchSets(payload, entries[j], key);
      LatestSets(entries, j, Patched(payload, entries[j].body.payload).value, key, if n > 0 then n - 1 else -1);
    }
  }

  lemma PatchSets(payload: Payload, e: Entry, key: string)
    requires Patched(payload, e.body.payload).Some?
    ensures var p := Patched(payload, e.body.payload).value;
            && (key in p <==> Sets(e, key) || key in payload)
            && Field(p, key) == if Sets(e, key) then Field(e.body.payload, "corrected_payload").fields[key]
                                else Field(payload, key)
  {
  }

  /** The key's value is that of the latest correction that sets it, or else the original's. */
  ghost predicate FromLatest(entries: seq<Entry>, at: seq<nat>, payload: Payload, p: Payload, key: string)
    requires Within(entries, at)
  {
    || (exists n :: LatestIn(entries, at, n, key) && key in p
          && p[key] == Field(entries[at[n]].body.payload, "corrected_payload").fields[key])
    || ((forall n :: 0 <= n < |at| ==> !Sets(entries[at[n]], key))
        && (key in p <==> key in payload) && Field(p, key) == Field(payload, key))
  }

  ghost predicate LatestIn(entries: seq<Entry>, at: seq<nat>, n: int, key: string)
    requires Within(entries, at)
  {
    && 0 <= n < |at| && Sets(entries[at[n]], key)
    && forall k :: n < k < |at| ==> !Sets(entries[at[k]], key)
  }

  lemma {:induction false} LastSetting(entries: seq<Entry>, at: seq<nat>, key: string) returns (n: int)
    requires Within(entries, at)
    ensures -1 <= n < |at| && (n >= 0 ==> LatestIn(entries, at, n, key))
    ensures n == -1 ==> forall k :: 0 <= k < |at| ==> !Sets(entries[at[k]], key)
  {
    n := |at| - 1;
    while n >= 0 && !Sets(entries[at[n]], key)
      invariant -1 <= n < |at| && forall k :: n < k < |at| ==> !Sets(entries[at[k]], key)
    {
      n := n - 1;
    }
  }

  /** What the corrections of an event make of its payload. */
  ghost predicate EffectiveIs(entries: seq<Entry>, i: nat, at: seq<nat>, r: Option<Payload>)
    requires i < |entries|
  {
    && CorrectedBy(entries, i, at)
    && (r.Some? <==> forall n :: 0 <= n < |at| ==> Readable(entries[at[n]]))
    && (r.Some? ==> forall key :: FromLatest(entries, at, entries[i].body.payload, r.value, key))
  }

  lemma EffectiveOf(entries: seq<Entry>, i: nat)
    requires DistinctIds(entries) && PointersForward(entries) && PointersAreLast(entries) && i < |entries|
    ensures EffectiveIs(entries, i, PatchesFrom(entries, i), EffectiveFrom(entries, i, entries[i].body.payload))
  {
    var at, payload := PatchesFrom(entries, i), entries[i].body.payload;
    PatchesAreCorrections(entries, i);
    EffectiveEnds(entries, i, payload);
    CorrectionsOnly(entries, i, at);
    if EffectiveFrom(entries, i, payload).Some? {
      forall key ensures FromLatest(entries, at, payload, EffectiveFrom(entries, i, payload).value, key) {
        var n := LastSetting(entries, at, key);
        LatestSets(entries, i, payload, key, n);
      }
    }
  }

  lemma CorrectionsOnly(entries: seq<Entry>, i: nat, at: seq<nat>)
    requires CorrectedBy(entries, i, at)
    ensures AllReadable(entries, at) <==> forall n :: 0 <= n < |at| ==> Readable(entries[at[n]])
  {
    forall n | 0 <= n < |at| ensures entries[at[n]].body.etype == Correction {
      assert LastNaming(entries, at[n], Before(i, at, n));
    }
  }

  /** In every ledger reached by appends and commits: the corrections of an event are the last that names it, the
      last that names that one, and so on; there is an effective payload exactly when the patch of each is
      readable; and each of its keys comes from the latest of them that sets it, or else from the event. */
  lemma EffectiveOfReached(c: Crypto, reg: Registry, ops: seq<Op>, i: nat)
    requires i < |Run(c, reg, ops).entries|
    ensures var entries := Run(c, reg, ops).entries;
            EffectiveIs(entries, i, PatchesFrom(entries, i), EffectiveFrom(entries, i, entries[i].body.payload))
  {
    ReachedLedgers(c, reg, ops);
    RunKeeps(c, reg, ops);
    LoadedPointers(Run(c, reg, ops).file);
    EffectiveOf(Run(c, reg, ops).entries, i);
  }
}
