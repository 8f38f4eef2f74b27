/** The service's own hash-chained ledger: append, prepared commit, audit, corrections, reload. */
module LocalLedger {
  import opened Values
  import opened Events

  datatype Organization = Organization(roles: set<Role>, key: string)

  type Registry = map<string, Organization>

  /** What an organisation signs. */
  datatype Body = Body(
    id: string, etype: EventType, subject: string, actor: string, timestamp: real,
    payload: Payload, evidence: seq<Json>, prevHash: string)

  /** A stored event; `user`, `wallet` and `supersededBy` are outside the signed body. */
  datatype Entry = Entry(
    body: Body, user: string, wallet: string, signature: string, hash: string, supersededBy: Option<string>)

  const GENESIS := "0000000000000000000000000000000000000000000000000000000000000000"

  /** Serialisation, hashing and signature checking, which stay abstract. */
  datatype Crypto = Crypto(
    encode: Body -> string, hash: string -> string, verify: (string, string, string) -> bool)

  // ------------------------------------------------------------------------ audit

  /** What is hashed: the serialised body followed by the signature. */
  function HashedText(c: Crypto, e: Entry): string {
    c.encode(e.body) + e.signature
  }

  function HashOf(c: Crypto, e: Entry): string {
    c.hash(HashedText(c, e))
  }

  /** The hash an event must name: that of the event before it. */
  function HeadHash(entries: seq<Entry>): string {
    if entries == [] then GENESIS else entries[|entries| - 1].hash
  }

  predicate Signed(c: Crypto, reg: Registry, e: Entry) {
    e.body.actor in reg && c.verify(reg[e.body.actor].key, c.encode(e.body), e.signature)
  }

  predicate LinkOk(c: Crypto, reg: Registry, entries: seq<Entry>, i: nat)
    requires i < |entries|
  {
    entries[i].body.prevHash == HeadHash(entries[..i]) && Signed(c, reg, entries[i])
        && entries[i].hash == HashOf(c, entries[i])
  }

  predicate ChainOk(c: Crypto, reg: Registry, entries: seq<Entry>) {
    forall i :: 0 <= i < |entries| ==> LinkOk(c, reg, entries, i)
  }

  datatype Problem = BrokenLink(index: nat) | InvalidSignature(index: nat) | TamperedContent(index: nat)

  lemma BraceInside(x: string, s: string, y: string, t: string)
    requires |x| < |y| && y[|y| - 1] == '}' && x + s == y + t
    ensures '}' in s
  {
    assert (x + s)[|y| - 1] == s[|y| - 1 - |x|] && (y + t)[|y| - 1] == y[|y| - 1];
  }

  /** A text that ends with its only brace splits off uniquely. */
  lemma SplitAtBrace(x: string, s: string, y: string, t: string)
    requires x != "" && y != "" && x[|x| - 1] == '}' && y[|y| - 1] == '}'
    requires '}' !in s && '}' !in t && x + s == y + t
    ensures x == y && s == t
  {
    if |x| < |y| {
      BraceInside(x, s, y, t);
    } else if |y| < |x| {
      BraceInside(y, t, x, s);
    } else {
      assert (x + s)[..|x|] == x && (y + t)[..|x|] == y;
      assert (x + s)[|x|..] == s && (y + t)[|x|..] == t;
    }
  }

  /** The body is written as a JSON object, and the signature as text without braces. */
  predicate Framed(c: Crypto, e: Entry) {
    var text := c.encode(e.body);
    text != "" && text[|text| - 1] == '}' && '}' !in e.signature
  }

  /** Two different texts with the same hash, or two different bodies with the same text. */
  predicate Collide(c: Crypto, e: Entry, f: Entry) {
    || (HashedText(c, e) != HashedText(c, f) && HashOf(c, e) == HashOf(c, f))
    || (e.body != f.body && c.encode(e.body) == c.encode(f.body))
  }

  ghost predicate CollisionIn(c: Crypto, a: seq<Entry>, b: seq<Entry>) {
    exists i, j :: 0 <= i < |a| && 0 <= j < |b| && Collide(c, a[i], b[j])
  }

  ghost predicate GenesisIn(a: seq<Entry>) {
    exists i :: 0 <= i < |a| && a[i].hash == GENESIS
  }

  ghost predicate SameRecords(a: seq<Entry>, b: seq<Entry>) {
    |a| == |b| && forall i :: 0 <= i < |a| ==> a[i].body == b[i].body && a[i].signature == b[i].signature
  }

  /** Equal hashes mean equal bodies and equal signatures, or a collision. */
  lemma HashDetermines(c: Crypto, e: Entry, f: Entry)
    requires Framed(c, e) && Framed(c, f) && HashOf(c, e) == HashOf(c, f) && !Collide(c, e, f)
    ensures e.body == f.body && e.signature == f.signature
  {
    SplitAtBrace(c.encode(e.body), e.signature, c.encode(f.body), f.signature);
  }

  lemma CollisionStays(c: Crypto, a: seq<Entry>, b: seq<Entry>, m: nat, n: nat)
    requires m <= |a| && n <= |b|
    ensures CollisionIn(c, a[..m], b[..n]) ==> CollisionIn(c, a, b)
    ensures GenesisIn(a[..m]) ==> GenesisIn(a)
  {
    if i, j :| 0 <= i < m && 0 <= j < n && Collide(c, a[..m][i], b[..n][j]) {
      assert Collide(c, a[i], b[j]);
    }
    if i :| 0 <= i < m && a[..m][i].hash == GENESIS {
      assert a[i].hash == GENESIS;
    }
  }

  /** Two chains that both pass the audit and end in the same head hash have the same length and agree,
      position by position, on every signed body and signature; otherwise the two chains themselves exhibit
      a collision, or a hash that equals the genesis value. */
  lemma {:induction false} HeadDeterminesChain(c: Crypto, regA: Registry, regB: Registry, a: seq<Entry>, b: seq<Entry>)
    requires ChainOk(c, regA, a) && ChainOk(c, regB, b) && HeadHash(a) == HeadHash(b)
    requires forall i :: 0 <= i < |a| ==> Framed(c, a[i])
    requires forall j :: 0 <= j < |b| ==> Framed(c, b[j])
    ensures SameRecords(a, b) || CollisionIn(c, a, b) || GenesisIn(a) || GenesisIn(b)
  {
    if a != [] && b != [] {
      var m, n := |a| - 1, |b| - 1;
      assert LinkOk(c, regA, a, m) && LinkOk(c, regB, b, n);
      if !Collide(c, a[m], b[n]) {
        HashDetermines(c, a[m], b[n]);
        PrefixOk(c, regA, a, m);
        PrefixOk(c, regB, b, n);
        HeadDeterminesChain(c, regA, regB, a[..m], b[..n]);
        CollisionStays(c, a, b, m, n);
        CollisionStays(c, b, a, n, m);
        LastRecord(a, b);
      }
    } else if a != [] {
      assert a[|a| - 1].hash == GENESIS;
    } else if b != [] {
      assert b[|b| - 1].hash == GENESIS;
    }
  }

  lemma LastRecord(a: seq<Entry>, b: seq<Entry>)
    requires a != [] && b != []
    requires a[|a| - 1].body == b[|b| - 1].body && a[|a| - 1].signature == b[|b| - 1].signature
    ensures SameRecords(a[..|a| - 1], b[..|b| - 1]) ==> SameRecords(a, b)
  {
    if SameRecords(a[..|a| - 1], b[..|b| - 1]) {
      forall i | 0 <= i < |a| - 1 ensures a[i].body == b[i].body && a[i].signature == b[i].signature {
        assert a[..|a| - 1][i] == a[i] && b[..|b| - 1][i] == b[i];
      }
    }
  }

  lemma PrefixOk(c: Crypto, reg: Registry, entries: seq<Entry>, n: nat)
    requires ChainOk(c, reg, entries) && n <= |entries|
    ensures ChainOk(c, reg, entries[..n])
  {
    forall i | 0 <= i < n ensures LinkOk(c, reg, entries[..n], i) {
      assert LinkOk(c, reg, entries, i);
      assert entries[..n][..i] == entries[..i];
    }
  }

  /** The audit does not see the fields outside the signed body. */
  lemma AuditIgnoresUnsigned(c: Crypto, reg: Registry, a: seq<Entry>, b: seq<Entry>)
    requires |a| == |b|
    requires forall i :: 0 <= i < |a| ==>
            a[i].body == b[i].body && a[i].signature == b[i].signature && a[i].hash == b[i].hash
    ensures ChainOk(c, reg, a) <==> ChainOk(c, reg, b)
  {
    forall i | 0 <= i < |a| ensures LinkOk(c, reg, a, i) <==> LinkOk(c, reg, b, i) {
      if i > 0 {
        assert a[..i][i - 1] == a[i - 1] && b[..i][i - 1] == b[i - 1];
      }
    }
  }

  lemma AppendOk(c: Crypto, reg: Registry, entries: seq<Entry>, e: Entry)
    requires ChainOk(c, reg, entries) && e.body.prevHash == HeadHash(entries) && Signed(c, reg, e)
    requires e.hash == HashOf(c, e)
    ensures ChainOk(c, reg, entries + [e])
  {
    var all := entries + [e];
    forall i | 0 <= i < |all| ensures LinkOk(c, reg, all, i) {
      assert all[..i] == entries[..i];
      if i < |entries| { assert LinkOk(c, reg, entries, i); }
    }
    assert entries[..|entries|] == entries;
  }

  // --------------------------------------------------------------- supersession

  /** The event a correction names, when it names one by a string. */
  function TargetOf(p: Payload): Option<string> {
    var v := Field(p, "supersedes_event");
    if IsString(v) then Some(AsString(v)) else None
  }

  predicate IsAt(entries: seq<Entry>, i: nat, id: string) {
    i < |entries| && entries[i].body.id == id
  }

  /** Sets the pointer of every event with the given id. */
  function Point(entries: seq<Entry>, target: string, id: string): seq<Entry> {
    seq(|entries|, i requires 0 <= i < |entries| =>
      if entries[i].body.id == target then entries[i].(supersededBy := Some(id)) else entries[i])
  }

  /** What the correction at a position does to the pointers; other events do nothing. */
  function Applied(entries: seq<Entry>, e: Entry): seq<Entry> {
    if e.body.etype == Correction && TargetOf(e.body.payload).Some?
        then Point(entries, TargetOf(e.body.payload).value, e.body.id)
    else entries
  }

  /** The pointers rebuilt from the first `n` corrections, in order, so that the last one of a target wins. */
  function Rebuilt(entries: seq<Entry>, n: nat): seq<Entry>
    requires n <= |entries|
  {
    if n == 0 then entries else Applied(Rebuilt(entries, n - 1), entries[n - 1])
  }

  /** Lines of the file as they were written, one per event. */
  function Load(lines: seq<Entry>): seq<Entry> {
    Rebuilt(lines, |lines|)
  }

  ghost predicate DistinctIds(entries: seq<Entry>) {
    forall i, j :: 0 <= i < j < |entries| ==> entries[i].body.id != entries[j].body.id
  }

  /** Every correction names an earlier event. */
  ghost predicate TargetsEarlier(entries: seq<Entry>) {
    forall j :: 0 <= j < |entries| && entries[j].body.etype == Correction ==>
      && TargetOf(entries[j].body.payload).Some?
      && exists i :: 0 <= i < j && IsAt(entries, i, TargetOf(entries[j].body.payload).value)
  }

  ghost predicate SameSigned(a: seq<Entry>, b: seq<Entry>) {
    |a| == |b| && forall i :: 0 <= i < |a| ==> a[i].(supersededBy := None) == b[i].(supersededBy := None)
  }

  /** The memory and the file of a ledger. */
  datatype State = State(entries: seq<Entry>, file: seq<Entry>)

  const EMPTY := State([], [])

  ghost predicate Inv(c: Crypto, reg: Registry, s: State) {
    && ChainOk(c, reg, s.entries) && DistinctIds(s.file) && TargetsEarlier(s.file)
    && (forall i :: 0 <= i < |s.file| ==> s.file[i].supersededBy == None)
    && s.entries == Load(s.file)
  }

  lemma {:induction false} RebuiltSame(entries: seq<Entry>, n: nat)
    requires n <= |entries|
    ensures SameSigned(Rebuilt(entries, n), entries)
  {
    if n > 0 {
      RebuiltSame(entries, n - 1);
    }
  }

  /** A new last event that no earlier correction names takes no pointer from them. */
  lemma {:induction false} RebuiltAppend(entries: seq<Entry>, e: Entry, n: nat)
    requires n <= |entries| && TargetsEarlier(entries) && e.supersededBy == None
    requires forall i :: 0 <= i < |entries| ==> entries[i].body.id != e.body.id
    ensures Rebuilt(entries + [e], n) == Rebuilt(entries, n) + [e]
  {
    if n > 0 {
      RebuiltAppend(entries, e, n - 1);
      RebuiltSame(entries, n - 1);
      var x := entries[n - 1];
      assert (entries + [e])[n - 1] == x;
      if x.body.etype == Correction {
        var target := TargetOf(x.body.payload).value;
        var i :| 0 <= i < n - 1 && IsAt(entries, i, target);
        assert target != e.body.id;
        assert Point(Rebuilt(entries, n - 1) + [e], target, x.body.id)
            == Point(Rebuilt(entries, n - 1), target, x.body.id) + [e];
      }
    }
  }

  // ------------------------------------------------------------------- writing

  predicate Knows(entries: seq<Entry>, id: string) {
    exists i :: 0 <= i < |entries| && IsAt(entries, i, id)
  }

  predicate MayWrite(reg: Registry, body: Body) {
    && body.actor in reg
    && (body.etype == Correction || reg[body.actor].roles * Permitted(body.etype) != {})
    && (body.etype == Correction ==> reg[body.actor].roles != {})
    && RequiredFields(body.etype) <= body.payload.Keys
  }

  /** A correction names a known event, by its own actor or by an authority. */
  predicate MayCorrect(reg: Registry, entries: seq<Entry>, body: Body) {
    && body.actor in reg && TargetOf(body.payload).Some? && Knows(entries, TargetOf(body.payload).value)
    && ((exists i | 0 <= i < |entries| ::
           IsAt(entries, i, TargetOf(body.payload).value) && entries[i].body.actor == body.actor)
        || Authority in reg[body.actor].roles)
  }

  /** Both writers end the same way: pointers, memory, one line of file. */
  function Recorded(s: State, e: Entry): State {
    State(Applied(s.entries, e) + [e], s.file + [e])
  }

  function NewEntry(c: Crypto, body: Body, signature: string): Entry {
    var e := Entry(body, "", "", signature, "", None);
    e.(hash := HashOf(c, e))
  }

  /** `signature` is what the submitted key pair yields for the assembled body. */
  function Append(c: Crypto, reg: Registry, s: State, body: Body, signature: string): Option<State> {
    var e := NewEntry(c, body.(prevHash := HeadHash(s.entries)), signature);
    if !MayWrite(reg, body) || !Signed(c, reg, e) || (body.etype == Correction && !MayCorrect(reg, s.entries, body))
        then None
    else Some(Recorded(s, e))
  }

  /** The second half of the two-phase flow; the signature was checked before. */
  function CommitPrepared(c: Crypto, reg: Registry, s: State, body: Body, signature: string): Option<State> {
    if !MayWrite(reg, body) || Knows(s.entries, body.id) || body.prevHash != HeadHash(s.entries)
       || (body.etype == Correction && !MayCorrect(reg, s.entries, body)) then None
    else Some(Recorded(s, NewEntry(c, body, signature)))
  }

  /** The endpoint checks the signature against the registered key, then commits. */
  function Commit(c: Crypto, reg: Registry, s: State, body: Body, signature: string): Option<State> {
    if body.actor !in reg || !c.verify(reg[body.actor].key, c.encode(body), signature) then None
    else CommitPrepared(c, reg, s, body, signature)
  }

  lemma RecordedKeeps(c: Crypto, reg: Registry, s: State, e: Entry)
    requires Inv(c, reg, s) && e.supersededBy == None && !Knows(s.entries, e.body.id)
    requires e.body.prevHash == HeadHash(s.entries) && Signed(c, reg, e) && e.hash == HashOf(c, e)
    requires e.body.etype == Correction ==> MayCorrect(reg, s.entries, e.body)
    ensures Inv(c, reg, Recorded(s, e))
  {
    var n := |s.file|;
    RebuiltSame(s.file, n);
    assert forall i :: 0 <= i < n ==> s.file[i].body == s.entries[i].body;
    forall i | 0 <= i < n ensures s.file[i].body.id != e.body.id {
      assert !IsAt(s.entries, i, e.body.id);
    }
    RebuiltAppend(s.file, e, n);
    var file := s.file + [e];
    assert file[n] == e;
    AppliedAppend(s.entries, e);
    assert Load(file) == Recorded(s, e).entries;
    AppliedChain(c, reg, s.entries, e);
    AppendOk(c, reg, Applied(s.entries, e), e);
    TargetsStayEarlier(s, e);
  }

  /** A correction does not point at itself. */
  lemma AppliedAppend(entries: seq<Entry>, e: Entry)
    requires !Knows(entries, e.body.id)
    requires e.body.etype == Correction ==>
            TargetOf(e.body.payload).Some? && Knows(entries, TargetOf(e.body.payload).value)
    ensures Applied(entries + [e], e) == Applied(entries, e) + [e]
  {
  }

  lemma AppliedChain(c: Crypto, reg: Registry, entries: seq<Entry>, e: Entry)
    requires ChainOk(c, reg, entries)
    ensures ChainOk(c, reg, Applied(entries, e)) && HeadHash(Applied(entries, e)) == HeadHash(entries)
  {
    AuditIgnoresUnsigned(c, reg, entries, Applied(entries, e));
  }

  lemma TargetsStayEarlier(s: State, e: Entry)
    requires TargetsEarlier(s.file) && |s.entries| == |s.file|
    requires forall i :: 0 <= i < |s.file| ==> s.file[i].body == s.entries[i].body
    requires e.body.etype == Correction ==>
            TargetOf(e.body.payload).Some? && Knows(s.entries, TargetOf(e.body.payload).value)
    ensures TargetsEarlier(s.file + [e])
  {
    var file := s.file + [e];
    forall j | 0 <= j < |file| && file[j].body.etype == Correction
      ensures TargetOf(file[j].body.payload).Some?
      ensures exists i :: 0 <= i < j && IsAt(file, i, TargetOf(file[j].body.payload).value)
    {
      var target := TargetOf(file[j].body.payload).value;
      if j < |s.file| {
        var i :| 0 <= i < j && IsAt(s.file, i, target);
        assert IsAt(file, i, target);
      } else {
        var i :| 0 <= i < |s.entries| && IsAt(s.entries, i, target);
        assert IsAt(file, i, target);
      }
    }
  }

  /** Appending under a fresh id keeps the audit passing and memory equal to what a reload rebuilds. */
  lemma AppendKeeps(c: Crypto, reg: Registry, s: State, body: Body, signature: string)
    requires Inv(c, reg, s) && !Knows(s.entries, body.id) && Append(c, reg, s, body, signature).Some?
    ensures Inv(c, reg, Append(c, reg, s, body, signature).value)
  {
    RecordedKeeps(c, reg, s, NewEntry(c, body.(prevHash := HeadHash(s.entries)), signature));
  }

  /** So does a commit through the endpoint, which refuses known ids itself. */
  lemma CommitKeeps(c: Crypto, reg: Registry, s: State, body: Body, signature: string)
    requires Inv(c, reg, s) && Commit(c, reg, s, body, signature).Some?
    ensures Inv(c, reg, Commit(c, reg, s, body, signature).value)
  {
    RecordedKeeps(c, reg, s, NewEntry(c, body, signature));
  }

  // -------------------------------------------------------------- effective payload

  /** What a patch does to a payload: a missing or empty one nothing, an object overlays, anything else fails. */
  function Patched(payload: Payload, correction: Payload): Option<Payload> {
    if "corrected_payload" !in correction then Some(payload)
    else
      match correction["corrected_payload"]
      case JObject(fields, _) => Some(Overlay(payload, fields))
      case JText(s) => if s == "" then Some(payload) else None
      case JArray(items, _) => if items == [] then Some(payload) else None
      case _ => None
  }

  predicate Follows(entries: seq<Entry>, i: nat)
    requires i < |entries|
  {
    entries[i].supersededBy.Some? && entries[i].supersededBy.value != ""
  }

  /** Position of an id. */
  function PositionOf(entries: seq<Entry>, id: string): int {
    if entries == [] then -1
    else if entries[|entries| - 1].body.id == id then |entries| - 1
    else PositionOf(entries[..|entries| - 1], id)
  }

  lemma {:induction false} PositionFinds(entries: seq<Entry>, id: string)
    ensures -1 <= PositionOf(entries, id) < |entries|
    ensures PositionOf(entries, id) >= 0 ==> entries[PositionOf(entries, id)].body.id == id
    ensures PositionOf(entries, id) == -1 ==> forall i :: 0 <= i < |entries| ==> entries[i].body.id != id
  {
    if entries != [] {
      PositionFinds(entries[..|entries| - 1], id);
    }
  }

  /** The walk from position `i` with the payload so far; None where the original raises or never ends. */
  function EffectiveFrom(entries: seq<Entry>, i: nat, payload: Payload): Option<Payload>
    requires i < |entries|
    decreases |entries| - i
  {
    if !Follows(entries, i) then Some(payload)
    else
      var j := PositionOf(entries, entries[i].supersededBy.value);
      if j <= i || j >= |entries| then None
      else
        var next := Patched(payload, entries[j].body.payload);
        if next.None? then None else EffectiveFrom(entries, j, next.value)
  }

  /** Every pointer leads to a later correction. */
  ghost predicate PointersForward(entries: seq<Entry>) {
    forall i :: 0 <= i < |entries| && entries[i].supersededBy.Some? ==> PointsForward(entries, i)
  }

  ghost predicate PointsForward(entries: seq<Entry>, i: nat)
    requires i < |entries| && entries[i].supersededBy.Some?
  {
    exists j :: i < j < |entries| && entries[j].body.id == entries[i].supersededBy.value
        && entries[j].body.etype == Correction
  }

  lemma {:induction false} RebuiltPointsForward(file: seq<Entry>, n: nat)
    requires n <= |file| && DistinctIds(file) && TargetsEarlier(file)
    requires forall i :: 0 <= i < |file| ==> file[i].supersededBy == None
    ensures PointersForward(Rebuilt(file, n))
  {
    if n > 0 {
      RebuiltPointsForward(file, n - 1);
      RebuiltSame(file, n - 1);
      AppliedPointsForward(file, n - 1, Rebuilt(file, n - 1));
    }
  }

  lemma AppliedPointsForward(file: seq<Entry>, n: nat, before: seq<Entry>)
    requires n < |file| && DistinctIds(file) && TargetsEarlier(file) && SameSigned(before, file)
    requires PointersForward(before)
    ensures PointersForward(Applied(before, file[n]))
  {
    var after := Applied(before, file[n]);
    SameBodies(before, file);
    assert forall j :: 0 <= j < |before| ==> after[j].body == before[j].body;
    forall i | 0 <= i < |after| && after[i].supersededBy.Some? ensures PointsForward(after, i) {
      if after[i] == before[i] {
        SameTarget(before, after, i);
      } else {
        NewTarget(file, n, before, i);
        assert after[n].body == file[n].body;
      }
    }
  }

  lemma SameBodies(a: seq<Entry>, b: seq<Entry>)
    requires SameSigned(a, b)
    ensures forall i :: 0 <= i < |a| ==> a[i].body == b[i].body
  {
    forall i | 0 <= i < |a| ensures a[i].body == b[i].body {
      assert a[i].(supersededBy := None).body == b[i].(supersededBy := None).body;
    }
  }

  lemma SameTarget(before: seq<Entry>, after: seq<Entry>, i: nat)
    requires |before| == |after| && i < |before| && after[i] == before[i]
    requires forall j :: 0 <= j < |before| ==> after[j].body == before[j].body
    requires before[i].supersededBy.Some? && PointsForward(before, i)
    ensures PointsForward(after, i)
  {
    var j :| i < j < |before| && before[j].body.id == before[i].supersededBy.value
        && before[j].body.etype == Correction;
    assert after[j].body == before[j].body;
  }

  /** What the correction at `n` points at lies before it. */
  lemma NewTarget(file: seq<Entry>, n: nat, before: seq<Entry>, i: nat)
    requires n < |file| && DistinctIds(file) && TargetsEarlier(file) && SameSigned(before, file) && i < |before|
    requires Applied(before, file[n])[i] != before[i]
    ensures i < n && file[n].body.etype == Correction
    ensures Applied(before, file[n])[i].supersededBy == Some(file[n].body.id)
  {
    var target := TargetOf(file[n].body.payload).value;
    var k :| 0 <= k < n && IsAt(file, k, target);
    SameBodies(before, file);
  }

  /** The positions of the corrections that the walk from position `i` lays over its payload. */
  function PatchesFrom(entries: seq<Entry>, i: nat): seq<nat>
    requires i < |entries|
    decreases |entries| - i
  {
    if !Follows(entries, i) then []
    else
      var j := PositionOf(entries, entries[i].supersededBy.value);
      if j <= i || j >= |entries| then [] else [j] + PatchesFrom(entries, j)
  }

  predicate Readable(e: Entry) {
    Patched(map[], e.body.payload).Some?
  }

  /** Each position is that of a correction whose patch is readable. */
  predicate AllReadable(entries: seq<Entry>, at: seq<nat>) {
    forall n :: 0 <= n < |at| ==>
        at[n] < |entries| && entries[at[n]].body.etype == Correction && Readable(entries[at[n]])
  }

  lemma AllReadableFirst(entries: seq<Entry>, j: nat, rest: seq<nat>)
    requires j < |entries| && entries[j].body.etype == Correction
    ensures AllReadable(entries, [j] + rest) <==> Readable(entries[j]) && AllReadable(entries, rest)
  {
    var all := [j] + rest;
    if AllReadable(entries, all) {
      forall n | 0 <= n < |rest|
        ensures rest[n] < |entries| && entries[rest[n]].body.etype == Correction && Readable(entries[rest[n]])
      {
        assert all[n + 1] == rest[n];
      }
      assert all[0] == j;
    }
  }

  /** A pointer leads to the position of a later correction. */
  lemma NextPatch(entries: seq<Entry>, i: nat) returns (j: nat)
    requires PointersForward(entries) && DistinctIds(entries) && i < |entries| && Follows(entries, i)
    ensures i < j < |entries| && entries[j].body.etype == Correction
    ensures PositionOf(entries, entries[i].supersededBy.value) == j
  {
    var id := entries[i].supersededBy.value;
    j :| i < j < |entries| && entries[j].body.id == id && entries[j].body.etype == Correction;
    PositionFinds(entries, id);
  }

  /** In every consistent ledger each walk goes forward to its end, and yields a payload exactly when every
      patch on its own chain is readable. */
  lemma {:induction false} EffectiveEnds(entries: seq<Entry>, i: nat, payload: Payload)
    requires PointersForward(entries) && DistinctIds(entries) && i < |entries|
    ensures EffectiveFrom(entries, i, payload).Some? <==> AllReadable(entries, PatchesFrom(entries, i))
    decreases |entries| - i
  {
    if Follows(entries, i) {
      var j := NextPatch(entries, i);
      AllReadableFirst(entries, j, PatchesFrom(entries, j));
      if Readable(entries[j]) {
        EffectiveEnds(entries, j, Patched(payload, entries[j].body.payload).value);
      }
    }
  }

  // -------------------------------------------------------------------- whole runs

  datatype Op = AppendOp(body: Body, signature: string) | CommitOp(body: Body, signature: string)

  /** A refused operation leaves the ledger as it is; ids of appended events are fresh. */
  function Step(c: Crypto, reg: Registry, s: State, op: Op): State {
    var next := match op
      case AppendOp(body, signature) => if Knows(s.entries, body.id) then None else Append(c, reg, s, body, signature)
      case CommitOp(body, signature) => Commit(c, reg, s, body, signature);
    if next.None? then s else next.value
  }

  function Run(c: Crypto, reg: Registry, ops: seq<Op>): State {
    if ops == [] then EMPTY else Step(c, reg, Run(c, reg, ops[..|ops| - 1]), ops[|ops| - 1])
  }

  lemma {:induction false} RunKeeps(c: Crypto, reg: Registry, ops: seq<Op>)
    ensures Inv(c, reg, Run(c, reg, ops))
  {
    if ops != [] {
      var s, op := Run(c, reg, ops[..|ops| - 1]), ops[|ops| - 1];
      RunKeeps(c, reg, ops[..|ops| - 1]);
      match op {
        case AppendOp(body, signature) =>
          if !Knows(s.entries, body.id)
              && Append(c, reg, s, body, signature).Some? { AppendKeeps(c, reg, s, body, signature); }
        case CommitOp(body, signature) =>
          if Commit(c, reg, s, body, signature).Some? { CommitKeeps(c, reg, s, body, signature); }
      }
    }
  }

  /** Every ledger reached by appends and commits passes its audit; reloading its file gives back the same
      events with the same pointers, so the same effective payloads; and every pointer leads forward. */
  lemma ReachedLedgers(c: Crypto, reg: Registry, ops: seq<Op>)
    ensures var s := Run(c, reg, ops);
            && ChainOk(c, reg, s.entries) && Load(s.file) == s.entries
            && DistinctIds(s.entries) && PointersForward(s.entries)
            && forall i, p :: 0 <= i < |s.entries| ==>
               EffectiveFrom(Load(s.file), i, p) == EffectiveFrom(s.entries, i, p)
  {
    RunKeeps(c, reg, ops);
    var s := Run(c, reg, ops);
    RebuiltPointsForward(s.file, |s.file|);
    RebuiltSame(s.file, |s.file|);
    assert forall i :: 0 <= i < |s.file| ==> s.file[i].body == s.entries[i].body;
  }

  // --------------------------------------------------------------- the ledger object

  class Ledger {
    const crypto: Crypto
    const registry: Registry
    var entries: seq<Entry>
    var byId: map<string, nat>
    var file: seq<Entry>

    function Now(): State
      reads this
    {
      State(entries, file)
    }

    ghost predicate Indexed()
      reads this
    {
      && DistinctIds(entries)
      && (forall id :: id in byId <==> Knows(entries, id))
      && (forall id :: id in byId ==> IsAt(entries, byId[id], id))
    }

    ghost predicate Valid()
      reads this
    {
      Inv(crypto, registry, Now()) && Indexed()
    }

    constructor (crypto: Crypto, registry: Registry)
      ensures Valid() && Now() == EMPTY && this.crypto == crypto && this.registry == registry
    {
      this.crypto, this.registry := crypto, registry;
      entries, byId, file := [], map[], [];
    }

    method HeadOfChain() returns (hash: string)
      ensures hash == HeadHash(entries)
    {
      hash := if entries != [] then entries[|entries| - 1].hash else GENESIS;
    }

    /** The correction checks; on success the target gets its pointer. */
    method PointTarget(e: Entry) returns (ok: bool)
      requires Indexed() && e.body.etype == Correction && e.body.actor in registry
      modifies this`entries
      ensures ok == MayCorrect(registry, old(entries), e.body)
      ensures entries == if ok then Applied(old(entries), e) else old(entries)
    {
      var target := TargetOf(e.body.payload);
      if target.None? || target.value !in byId {
        return false;
      }
      var k := byId[target.value];
      assert IsAt(entries, k, target.value);
      if entries[k].body.actor != e.body.actor && Authority !in registry[e.body.actor].roles {
        assert forall i :: 0 <= i < |entries| && IsAt(entries, i, target.value) ==> i == k;
        return false;
      }
      entries := entries[k := entries[k].(supersededBy := Some(e.body.id))];
      return true;
    }

    /** One more event in memory, in the index and in the file. */
    method Record(e: Entry)
      requires e.body.id !in byId
      modifies this
      ensures entries == old(entries) + [e] && file == old(file) + [e] && byId == old(byId)[e.body.id := |old(entries)|]
    {
      byId := byId[e.body.id := |entries|];
      entries := entries + [e];
      file := file + [e];
    }

    method AppendEvent(body: Body, signature: string) returns (ok: bool)
      requires Valid() && !Knows(entries, body.id)
      modifies this
      ensures Valid()
      ensures var next := Append(crypto, registry, old(Now()), body, signature);
              ok == next.Some? && Now() == if ok then next.value else old(Now())
    {
      if !MayWrite(registry, body) {
        return false;
      }
      var head := HeadOfChain();
      var e := NewEntry(crypto, body.(prevHash := head), signature);
      if !crypto.verify(registry[body.actor].key, crypto.encode(e.body), signature) {
        return false;
      }
      ok := Finish(e);
    }

    method CommitEvent(body: Body, signature: string) returns (ok: bool)
      requires Valid()
      modifies this
      ensures Valid()
      ensures var next := Commit(crypto, registry, old(Now()), body, signature);
              ok == next.Some? && Now() == if ok then next.value else old(Now())
    {
      if body.actor !in registry || !crypto.verify(registry[body.actor].key, crypto.encode(body), signature) {
        return false;
      }
      var head := HeadOfChain();
      if !MayWrite(registry, body) || body.id in byId || body.prevHash != head {
        return false;
      }
      ok := Finish(NewEntry(crypto, body, signature));
    }

    /** What both writers do once the event is assembled and its signature holds. */
    method Finish(e: Entry) returns (ok: bool)
      requires Valid() && !Knows(entries, e.body.id) && e.supersededBy == None
      requires e.body.prevHash == HeadHash(entries) && Signed(crypto, registry, e) && e.hash == HashOf(crypto, e)
      modifies this
      ensures Valid()
      ensures ok == (e.body.etype == Correction ==> MayCorrect(registry, old(entries), e.body))
      ensures Now() == if ok then Recorded(old(Now()), e) else old(Now())
    {
      ghost var before := Now();
      if e.body.etype == Correction {
        var pointed := PointTarget(e);
        if !pointed {
          return false;
        }
      }
      RecordedKeeps(crypto, registry, before, e);
      RecordedIndexed(before.entries, e);
      Record(e);
      assert Now() == Recorded(before, e);
      return true;
    }

    /** Follows the pointers from an event, laying each patch over its payload. */
    method EffectivePayload(start: nat) returns (r: Option<Payload>)
      requires Valid() && start < |entries|
      ensures r == EffectiveFrom(entries, start, entries[start].body.payload)
    {
      RebuiltPointsForward(file, |file|);
      var i, payload := start, entries[start].body.payload;
      while entries[i].supersededBy.Some? && entries[i].supersededBy.value != ""
        invariant i < |entries|
        invariant EffectiveFrom(entries, i, payload) == EffectiveFrom(entries, start, entries[start].body.payload)
        decreases |entries| - i
      {
        var id := entries[i].supersededBy.value;
        ghost var j :| i < j < |entries| && entries[j].body.id == id;
        PositionFinds(entries, id);
        assert IsAt(entries, j, id);
        var next := byId[id];
        assert next == j == PositionOf(entries, id);
        var patched := Patched(payload, entries[next].body.payload);
        if patched.None? {
          return None;
        }
        i, payload := next, patched.value;
      }
      return Some(payload);
    }

    /** Full audit; None when an event names an organisation the registry does not know. */
    method VerifyChain() returns (r: Option<seq<Problem>>)
      ensures r.None? <==> exists i :: 0 <= i < |entries| && entries[i].body.actor !in registry
      ensures r.Some? ==>
                && (r.value == [] <==> ChainOk(crypto, registry, entries))
                && (forall p :: p in r.value <==> Faulty(crypto, registry, entries, p))
    {
      var problems: seq<Problem> := [];
      var prev := GENESIS;
      for i := 0 to |entries|
        invariant prev == HeadHash(entries[..i])
        invariant forall k :: 0 <= k < i ==> entries[k].body.actor in registry
        invariant forall p :: p in problems <==> p.index < i && Faulty(crypto, registry, entries, p)
      {
        var e := entries[i];
        if e.body.actor !in registry {
          return None;
        }
        if e.body.prevHash != prev {
          problems := problems + [BrokenLink(i)];
        }
        if !crypto.verify(registry[e.body.actor].key, crypto.encode(e.body), e.signature) {
          problems := problems + [InvalidSignature(i)];
        }
        if e.hash != crypto.hash(crypto.encode(e.body) + e.signature) {
          problems := problems + [TamperedContent(i)];
        }
        prev := e.hash;
        assert HeadHash(entries[..i + 1]) == e.hash;
      }
      FaultsMeanBroken(crypto, registry, entries, problems);
      return Some(problems);
    }

    /** Reads the lines back, then rebuilds the pointers in order. */
    method Reload()
      requires Valid()
      modifies this
      ensures Valid() && entries == Load(old(file)) && entries == old(entries) && file == old(file)
    {
      ReadLines();
      RebuildPointers();
      RebuiltSame(file, |file|);
      SameIds(entries, file);
    }

    method ReadLines()
      modifies this`entries, this`byId
      ensures entries == file
      ensures forall id :: id in byId <==> Knows(file, id)
      ensures forall id :: id in byId ==> IsAt(file, byId[id], id)
    {
      entries, byId := file, map[];
      for i := 0 to |entries|
        invariant entries == file
        invariant forall id :: id in byId <==> exists k :: 0 <= k < i && IsAt(file, k, id)
        invariant forall id :: id in byId ==> IsAt(file, byId[id], id)
      {
        byId := byId[entries[i].body.id := i];
        assert IsAt(file, i, entries[i].body.id);
      }
    }

    method RebuildPointers()
      requires entries == file && DistinctIds(file)
      requires forall id :: id in byId <==> Knows(file, id)
      requires forall id :: id in byId ==> IsAt(file, byId[id], id)
      modifies this`entries
      ensures entries == Load(file)
    {
      for i := 0 to |file|
        invariant entries == Rebuilt(file, i)
      {
        RebuiltSame(file, i);
        var e := entries[i];
        assert e.body == file[i].body;
        if e.body.etype == Correction {
          var target := TargetOf(e.body.payload);
          if target.Some? {
            if target.value in byId {
              var k := byId[target.value];
              PointOne(entries, file, k, target.value, e.body.id);
              entries := entries[k := entries[k].(supersededBy := Some(e.body.id))];
            } else {
              PointNone(entries, file, target.value, e.body.id);
            }
          }
        }
      }
    }
  }

  /** The faults the audit reports, each at its position. */
  predicate Faulty(c: Crypto, reg: Registry, entries: seq<Entry>, p: Problem) {
    p.index < |entries|
    && match p
       case BrokenLink(i) => entries[i].body.prevHash != HeadHash(entries[..i])
       case InvalidSignature(i) => !Signed(c, reg, entries[i])
       case TamperedContent(i) => entries[i].hash != HashOf(c, entries[i])
  }

  lemma FaultsMeanBroken(c: Crypto, reg: Registry, entries: seq<Entry>, problems: seq<Problem>)
    requires forall p :: p in problems <==> Faulty(c, reg, entries, p)
    ensures problems == [] <==> ChainOk(c, reg, entries)
  {
    if problems != [] {
      assert problems[0] in problems;
      assert !LinkOk(c, reg, entries, problems[0].index);
    } else {
      forall i | 0 <= i < |entries| ensures LinkOk(c, reg, entries, i) {
        assert !Faulty(c, reg, entries, BrokenLink(i)) && !Faulty(c, reg, entries, InvalidSignature(i));
        assert !Faulty(c, reg, entries, TamperedContent(i));
      }
    }
  }

  lemma RecordedIndexed(entries: seq<Entry>, e: Entry)
    requires DistinctIds(entries) && !Knows(entries, e.body.id)
    ensures var all := Applied(entries, e) + [e];
            && DistinctIds(all) && IsAt(all, |entries|, e.body.id)
            && (forall i, id :: IsAt(entries, i, id) ==> IsAt(all, i, id))
            && (forall id :: Knows(all, id) <==> Knows(entries, id) || id == e.body.id)
  {
    var all := Applied(entries, e) + [e];
    forall i | 0 <= i < |entries| ensures entries[i].body.id != e.body.id && all[i].body == entries[i].body {
      assert !IsAt(entries, i, e.body.id);
    }
    forall id ensures Knows(all, id) <==> Knows(entries, id) || id == e.body.id {
      if i :| 0 <= i < |entries| && IsAt(entries, i, id) { assert IsAt(all, i, id); }
      if i :| 0 <= i < |all| && IsAt(all, i, id) { assert i < |entries| ==> IsAt(entries, i, id); }
      assert IsAt(all, |entries|, e.body.id);
    }
  }

  /** With distinct ids, pointing at an id is pointing at its position. */
  lemma PointOne(entries: seq<Entry>, file: seq<Entry>, k: nat, target: string, id: string)
    requires SameSigned(entries, file) && DistinctIds(file) && IsAt(file, k, target)
    ensures Point(entries, target, id) == entries[k := entries[k].(supersededBy := Some(id))]
  {
  }

  lemma PointNone(entries: seq<Entry>, file: seq<Entry>, target: string, id: string)
    requires SameSigned(entries, file) && !Knows(file, target)
    ensures Point(entries, target, id) == entries
  {
    forall i | 0 <= i < |entries| ensures entries[i].body.id != target {
      assert entries[i].body == file[i].body && !IsAt(file, i, target);
    }
  }

  lemma SameIds(entries: seq<Entry>, file: seq<Entry>)
    requires SameSigned(entries, file) && DistinctIds(file)
    ensures DistinctIds(entries)
    ensures forall id :: Knows(entries, id) <==> Knows(file, id)
    ensures forall i, id :: 0 <= i < |file| ==> (IsAt(entries, i, id) <==> IsAt(file, i, id))
  {
    assert forall i :: 0 <= i < |entries| ==> entries[i].body == file[i].body;
    forall id ensures Knows(entries, id) <==> Knows(file, id) {
      if i :| 0 <= i < |entries| && IsAt(entries, i, id) { assert IsAt(file, i, id); }
      if i :| 0 <= i < |file| && IsAt(file, i, id) { assert IsAt(entries, i, id); }
    }
  }
}
