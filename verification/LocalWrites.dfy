/** Exactly what the service's ledger accepts, what a write leaves behind, and who wrote what it holds. */
module LocalWrites {
  import opened Values
  import opened Events
  import opened LocalLedger

  /** A registered organisation with a role for the type and every required field. */
  ghost predicate Permits(reg: Registry, body: Body) {
    && body.actor in reg
    && (exists r :: r in reg[body.actor].roles && (body.etype == Correction || r in Permitted(body.etype)))
    && forall field :: field in RequiredFields(body.etype) ==> field in body.payload
  }

  /** The entry at a position is the one the correction names by a string. */
  predicate NamedAt(entries: seq<Entry>, i: int, body: Body) {
    var v := Field(body.payload, "supersedes_event");
    0 <= i < |entries| && IsString(v) && AsString(v) == entries[i].body.id
  }

  /** It names a stored entry, by that entry's own actor or by an authority. */
  ghost predicate Corrects(reg: Registry, entries: seq<Entry>, body: Body) {
    && body.actor in reg
    && (exists i :: NamedAt(entries, i, body))
    && ((exists i :: NamedAt(entries, i, body) && entries[i].body.actor == body.actor)
        || Authority in reg[body.actor].roles)
  }

  lemma MayWriteIs(reg: Registry, body: Body)
    ensures MayWrite(reg, body) <==> Permits(reg, body)
  {
    if body.actor in reg {
      var roles := reg[body.actor].roles;
      if r :| r in roles && (body.etype == Correction || r in Permitted(body.etype)) {
        assert body.etype != Correction ==> r in roles * Permitted(body.etype);
      }
      if body.etype == Correction && roles != {} {
        var r :| r in roles;
      }
      if roles * Permitted(body.etype) != {} {
        var r :| r in roles * Permitted(body.etype);
      }
    }
  }

  lemma MayCorrectIs(reg: Registry, entries: seq<Entry>, body: Body)
    ensures MayCorrect(reg, entries, body) <==> Corrects(reg, entries, body)
  {
    var target := TargetOf(body.payload);
    forall i: int | i >= 0 ensures NamedAt(entries, i, body) <==> target.Some? && IsAt(entries, i, target.value) {}
    if target.Some? {
      if i :| 0 <= i < |entries| && IsAt(entries, i, target.value) { assert NamedAt(entries, i, body); }
      if i :| 0 <= i < |entries| && IsAt(entries, i, target.value) && entries[i].body.actor == body.actor {
        assert NamedAt(entries, i, body);
      }
      if i :| NamedAt(entries, i, body) { assert IsAt(entries, i, target.value); }
      if i :| NamedAt(entries, i, body) && entries[i].body.actor == body.actor {
        assert IsAt(entries, i, target.value);
      }
    }
  }

  /** An append is accepted exactly when its author may write it, its signature over the body with the head's
      hash verifies under the author's key, and a correction may correct what it names. */
  lemma AppendExactly(c: Crypto, reg: Registry, s: State, body: Body, signature: string)
    ensures Append(c, reg, s, body, signature).Some? <==>
              && Permits(reg, body)
              && c.verify(reg[body.actor].key, c.encode(body.(prevHash := HeadHash(s.entries))), signature)
              && (body.etype == Correction ==> Corrects(reg, s.entries, body))
  {
    MayWriteIs(reg, body);
    MayCorrectIs(reg, s.entries, body);
  }

  /** A commit also needs a new id and the hash of the present head, as it was signed before. */
  lemma CommitExactly(c: Crypto, reg: Registry, s: State, body: Body, signature: string)
    ensures Commit(c, reg, s, body, signature).Some? <==>
              && Permits(reg, body)
              && c.verify(reg[body.actor].key, c.encode(body), signature)
              && (forall i :: 0 <= i < |s.entries| ==> s.entries[i].body.id != body.id)
              && body.prevHash == (if s.entries == [] then GENESIS else s.entries[|s.entries| - 1].hash)
              && (body.etype == Correction ==> Corrects(reg, s.entries, body))
  {
    MayWriteIs(reg, body);
    MayCorrectIs(reg, s.entries, body);
    assert Knows(s.entries, body.id) <==> exists i :: 0 <= i < |s.entries| && s.entries[i].body.id == body.id by {
      if i :| 0 <= i < |s.entries| && s.entries[i].body.id == body.id { assert IsAt(s.entries, i, body.id); }
    }
  }

  /** A write adds one entry, in memory and in the file, that no correction supersedes; of the others only the one
      it corrects changes, and only in its pointer. */
  ghost predicate OneMore(s: State, next: State, body: Body, signature: string, hash: string) {
    && |next.entries| == |s.entries| + 1 && next.file == s.file + [next.entries[|s.entries|]]
    && next.entries[|s.entries|] == Entry(body, "", "", signature, hash, None)
    && forall i :: 0 <= i < |s.entries| ==>
         next.entries[i] == if body.etype == Correction && NamedAt(s.entries, i, body)
                              then s.entries[i].(supersededBy := Some(body.id)) else s.entries[i]
  }

  lemma RecordedIs(s: State, e: Entry)
    requires e.user == "" && e.wallet == "" && e.supersededBy == None
    ensures OneMore(s, Recorded(s, e), e.body, e.signature, e.hash)
  {
  }

  lemma WritesLeave(c: Crypto, reg: Registry, s: State, body: Body, signature: string)
    ensures var next, signed := Append(c, reg, s, body, signature), body.(prevHash := HeadHash(s.entries));
            next.Some? ==> OneMore(s, next.value, signed, signature, c.hash(c.encode(signed) + signature))
    ensures var next := Commit(c, reg, s, body, signature);
            next.Some? ==> OneMore(s, next.value, body, signature, c.hash(c.encode(body) + signature))
  {
    var signed := body.(prevHash := HeadHash(s.entries));
    RecordedIs(s, NewEntry(c, signed, signature));
    RecordedIs(s, NewEntry(c, body, signature));
  }

  // --------------------------------------------------------------------- whole runs

  /** The entry's author may write it, and may correct what it names among the earlier entries. */
  ghost predicate Written(reg: Registry, entries: seq<Entry>, n: nat)
    requires n < |entries|
  {
    var body := entries[n].body;
    Permits(reg, body) && (body.etype == Correction ==> Corrects(reg, entries[..n], body))
  }

  ghost predicate AllWritten(reg: Registry, entries: seq<Entry>) {
    forall n {:trigger Written(reg, entries, n)} :: 0 <= n < |entries| ==> Written(reg, entries, n)
  }

  lemma WrittenStays(reg: Registry, s: State, next: State, body: Body, signature: string, hash: string, n: nat)
    requires OneMore(s, next, body, signature, hash) && n < |s.entries| && Written(reg, s.entries, n)
    ensures Written(reg, next.entries, n)
  {
    SameCorrects(reg, s.entries[..n], next.entries[..n], s.entries[n].body);
  }

  lemma SameCorrects(reg: Registry, a: seq<Entry>, b: seq<Entry>, body: Body)
    requires |a| == |b| && forall i :: 0 <= i < |a| ==> a[i].body == b[i].body
    ensures Corrects(reg, a, body) <==> Corrects(reg, b, body)
  {
    forall i ensures NamedAt(a, i, body) <==> NamedAt(b, i, body) {}
  }

  lemma WriteKeepsWritten(reg: Registry, s: State, next: State, body: Body, signature: string, hash: string)
    requires OneMore(s, next, body, signature, hash) && Permits(reg, body)
    requires body.etype == Correction ==> Corrects(reg, s.entries, body)
    requires AllWritten(reg, s.entries)
    ensures AllWritten(reg, next.entries)
  {
    forall n: nat | 0 <= n < |next.entries| ensures Written(reg, next.entries, n) {
      if n < |s.entries| {
        WrittenStays(reg, s, next, body, signature, hash, n);
      } else {
        SameCorrects(reg, s.entries, next.entries[..n], body);
      }
    }
  }

  lemma StepKeepsWritten(c: Crypto, reg: Registry, s: State, op: Op)
    requires AllWritten(reg, s.entries)
    ensures AllWritten(reg, Step(c, reg, s, op).entries)
  {
    var next := Step(c, reg, s, op);
    if next != s {
      WritesLeave(c, reg, s, op.body, op.signature);
      if op.AppendOp? {
        var body := op.body.(prevHash := HeadHash(s.entries));
        AppendExactly(c, reg, s, op.body, op.signature);
        assert forall i :: NamedAt(s.entries, i, body) <==> NamedAt(s.entries, i, op.body);
        WriteKeepsWritten(reg, s, next, body, op.signature, c.hash(c.encode(body) + op.signature));
      } else {
        CommitExactly(c, reg, s, op.body, op.signature);
        WriteKeepsWritten(reg, s, next, op.body, op.signature, c.hash(c.encode(op.body) + op.signature));
      }
    }
  }

  /** In every ledger reached by appends and commits every entry was written by someone who may write it, and
      every correction corrects an earlier entry of its own author or is by an authority. */
  lemma {:induction false} EntriesWritten(c: Crypto, reg: Registry, ops: seq<Op>)
    ensures AllWritten(reg, Run(c, reg, ops).entries)
  {
    if ops != [] {
      EntriesWritten(c, reg, ops[..|ops| - 1]);
      StepKeepsWritten(c, reg, Run(c, reg, ops[..|ops| - 1]), ops[|ops| - 1]);
    }
  }
}
