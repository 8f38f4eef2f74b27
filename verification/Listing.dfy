/** The (timestamp, event id) order in which every listing is returned. */
module Listing {
  import opened Values
  import opened Events

  predicate Before(a: Event, b: Event) {
    a.timestamp < b.timestamp || (a.timestamp == b.timestamp && LexLess(a.id, b.id))
  }

  lemma BeforeIsStrictOrder(a: Event, b: Event, c: Event)
    ensures !(Before(a, b) && Before(b, a))
    ensures Before(a, b) && Before(b, c) ==> Before(a, c)
    ensures a.id != b.id ==> Before(a, b) || Before(b, a)
  {
    LexAsymmetric(a.id, b.id);
    LexTotal(a.id, b.id);
    if LexLess(a.id, b.id) && LexLess(b.id, c.id) {
      LexTransitive(a.id, b.id, c.id);
    }
  }

  ghost predicate Ordered(s: seq<Event>) {
    forall i, j :: 0 <= i < j < |s| ==> Before(s[i], s[j])
  }

  ghost function Elements(s: seq<Event>): set<Event> {
    set e | e in s
  }

  ghost predicate DistinctIds(s: set<Event>) {
    forall a, b :: a in s && b in s && a.id == b.id ==> a == b
  }

  /** A strictly ordered sequence is determined by its elements. */
  lemma {:induction false} OrderedUnique(s: seq<Event>, t: seq<Event>)
    requires Ordered(s) && Ordered(t) && Elements(s) == Elements(t)
    ensures s == t
  {
    assert s == [] || s[0] in Elements(s);
    assert t == [] || t[0] in Elements(t);
    if s != [] && t != [] {
      var i :| 0 <= i < |t| && t[i] == s[0];
      var j :| 0 <= j < |s| && s[j] == t[0];
      BeforeIsStrictOrder(s[0], t[0], t[0]);
      assert s[0] == t[0];
      TailElements(s);
      TailElements(t);
      OrderedUnique(s[1..], t[1..]);
      assert s == [s[0]] + s[1..] && t == [t[0]] + t[1..];
    }
  }

  lemma TailElements(s: seq<Event>)
    requires s != [] && Ordered(s)
    ensures Ordered(s[1..]) && Elements(s[1..]) == Elements(s) - {s[0]}
  {
    BeforeIsStrictOrder(s[0], s[0], s[0]);
    forall e | e in s[1..] ensures e != s[0] {
      var i :| 0 <= i < |s[1..]| && s[1..][i] == e;
      assert Before(s[0], s[i + 1]);
    }
    forall e | e in Elements(s) - {s[0]} ensures e in s[1..] {
      var i :| 0 <= i < |s| && s[i] == e;
      assert s[1..][i - 1] == e;
    }
  }

  /** Stable insertion: an element goes after everything it does not precede. */
  function Insert(s: seq<Event>, e: Event): seq<Event> {
    if s == [] then [e]
    else if Before(e, s[0]) then [e] + s
    else [s[0]] + Insert(s[1..], e)
  }

  lemma {:induction false} InsertSplits(s: seq<Event>, e: Event) returns (j: nat)
    requires Ordered(s) && forall x :: x in s ==> x.id != e.id
    ensures j <= |s| && Insert(s, e) == s[..j] + [e] + s[j..]
    ensures forall i :: 0 <= i < j ==> Before(s[i], e)
    ensures forall i :: j <= i < |s| ==> Before(e, s[i])
  {
    j := 0;
    if s != [] {
      BeforeIsStrictOrder(e, s[0], s[0]);
      if Before(e, s[0]) {
        forall i | 0 <= i < |s| ensures Before(e, s[i]) {
          BeforeIsStrictOrder(e, s[0], s[i]);
        }
      } else {
        var k := InsertSplits(s[1..], e);
        j := k + 1;
        BeforeIsStrictOrder(s[0], e, e);
        assert Before(s[0], e);
        assert s[..j] == [s[0]] + s[1..][..k] && s[j..] == s[1..][k..];
        forall i | 0 <= i < j ensures Before(s[i], e) {
          if i > 0 { assert s[1..][i - 1] == s[i]; }
        }
        forall i | j <= i < |s| ensures Before(e, s[i]) {
          assert s[1..][i - 1] == s[i];
        }
      }
    }
  }

  lemma {:induction false} InsertLast(s: seq<Event>, e: Event)
    requires forall x :: x in s ==> Before(x, e)
    ensures Insert(s, e) == s + [e]
  {
    if s != [] {
      BeforeIsStrictOrder(s[0], e, e);
      InsertLast(s[1..], e);
      assert s == [s[0]] + s[1..];
    }
  }

  lemma InsertOrdered(s: seq<Event>, e: Event)
    requires Ordered(s) && forall x :: x in s ==> x.id != e.id
    ensures Ordered(Insert(s, e)) && Elements(Insert(s, e)) == Elements(s) + {e}
  {
    var j := InsertSplits(s, e);
    assert Elements(s) == Elements(s[..j] + s[j..]) by { assert s == s[..j] + s[j..]; }
  }

  /** The events of a set, in listing order. */
  ghost function Sorted(s: set<Event>): (r: seq<Event>)
    ensures DistinctIds(s) ==> Ordered(r) && Elements(r) == s
  {
    if s == {} then [] else
    var e :| e in s;
    var rest := Sorted(s - {e});
    assert DistinctIds(s) ==> Ordered(rest) && Elements(rest) == s - {e};
    assert DistinctIds(s) ==> Ordered(Insert(rest, e)) && Elements(Insert(rest, e)) == s by {
      if DistinctIds(s) {
        assert forall x :: x in rest ==> x in Elements(rest);
        InsertOrdered(rest, e);
        assert s - {e} + {e} == s;
      }
    }
    Insert(rest, e)
  }

  lemma SortedIs(s: set<Event>, r: seq<Event>)
    requires DistinctIds(s) && Ordered(r) && Elements(r) == s
    ensures r == Sorted(s)
  {
    OrderedUnique(r, Sorted(s));
  }

  lemma SortedInsert(s: set<Event>, e: Event)
    requires DistinctIds(s) && forall x :: x in s ==> x.id != e.id
    ensures Sorted(s + {e}) == Insert(Sorted(s), e)
  {
    var r := Sorted(s);
    forall x | x in r ensures x.id != e.id {
      assert x in Elements(r);
    }
    InsertOrdered(r, e);
    SortedIs(s + {e}, Insert(r, e));
  }

  lemma RemoveOrdered(h: seq<Event>, k: nat)
    requires Ordered(h) && k < |h|
    ensures Ordered(h[..k] + h[k + 1..])
    ensures Elements(h[..k] + h[k + 1..]) == Elements(h) - {h[k]}
  {
    var r := h[..k] + h[k + 1..];
    forall i, j | 0 <= i < j < |r| ensures Before(r[i], r[j]) {
      assert r[i] == h[if i < k then i else i + 1] && r[j] == h[if j < k then j else j + 1];
    }
    forall i | 0 <= i < |r| ensures r[i] in h && r[i] != h[k] {
      var i' := if i < k then i else i + 1;
      BeforeIsStrictOrder(h[i'], h[k], h[i']);
    }
    forall e | e in h && e != h[k] ensures e in r {
      var i :| 0 <= i < |h| && h[i] == e;
      assert r[if i < k then i else i - 1] == e;
    }
  }

  lemma SortedRemove(s: set<Event>, k: nat)
    requires DistinctIds(s) && k < |Sorted(s)|
    ensures Sorted(s - {Sorted(s)[k]}) == Sorted(s)[..k] + Sorted(s)[k + 1..]
  {
    RemoveOrdered(Sorted(s), k);
    SortedIs(s - {Sorted(s)[k]}, Sorted(s)[..k] + Sorted(s)[k + 1..]);
  }

  function Filter(s: seq<Event>, keep: Event -> bool): seq<Event> {
    if s == [] then []
    else Filter(s[..|s| - 1], keep) + if keep(s[|s| - 1]) then [s[|s| - 1]] else []
  }

  lemma {:induction false} FilterOrdered(s: seq<Event>, keep: Event -> bool)
    ensures forall e :: e in Filter(s, keep) <==> e in s && keep(e)
    ensures Ordered(s) ==> Ordered(Filter(s, keep))
  {
    if s != [] {
      var front := s[..|s| - 1];
      FilterOrdered(front, keep);
      assert s == front + [s[|s| - 1]];
      if Ordered(s) {
        var r := Filter(front, keep);
        assert Ordered(front);
        forall i | 0 <= i < |r| ensures Before(r[i], s[|s| - 1]) {
          assert r[i] in front;
          var k :| 0 <= k < |front| && front[k] == r[i];
          assert Before(s[k], s[|s| - 1]);
        }
      }
    }
  }

  lemma SortedFilter(s: set<Event>, keep: Event -> bool, kept: set<Event>)
    requires DistinctIds(s) && forall e :: e in kept <==> e in s && keep(e)
    ensures Filter(Sorted(s), keep) == Sorted(kept)
  {
    var r := Filter(Sorted(s), keep);
    FilterOrdered(Sorted(s), keep);
    forall e ensures e in Elements(r) <==> e in kept {
      assert e in Sorted(s) <==> e in Elements(Sorted(s));
    }
    SortedIs(kept, r);
  }

  /** Insertion sort, standing for the library's stable sort. */
  function SortEvents(s: seq<Event>): seq<Event> {
    if s == [] then [] else Insert(SortEvents(s[..|s| - 1]), s[|s| - 1])
  }

  lemma {:induction false} SortEventsSorts(s: seq<Event>)
    requires forall i, j :: 0 <= i < j < |s| ==> s[i].id != s[j].id
    ensures SortEvents(s) == Sorted(Elements(s))
  {
    if s != [] {
      var front, e := s[..|s| - 1], s[|s| - 1];
      SortEventsSorts(front);
      assert s == front + [e];
      assert Elements(s) == Elements(front) + {e};
      SortedInsert(Elements(front), e);
    }
  }
}
