/** The holder-set builder: every sender and receiver of the gathered Transfer
    events, inserted into an insertion-ordered set, then the zero address and
    `null` deleted. A JavaScript `Set` is modelled as a sequence without
    duplicates in insertion order, which is the order `Array.from` yields. */
module HolderSet {
  import opened Wrappers
  import opened Chain

  /** The participants one event contributes: sender then receiver, or
      nothing when the event has no decoded arguments. */
  function EventParticipants(e: TransferEvent): seq<Participant>
  {
    match e.args
    case None => []
    case Some(a) => [a.sender, a.receiver]
  }

  /** The participants of all events, in the order they are inserted. */
  function Participants(events: seq<TransferEvent>): seq<Participant>
  {
    if events == [] then []
    else Participants(events[..|events| - 1]) + EventParticipants(events[|events| - 1])
  }

  ghost predicate Distinct(s: seq<Participant>)
  {
    forall i, j :: 0 <= i < j < |s| ==> s[i] != s[j]
  }

  /** `Set.prototype.add`: a new element goes to the end, a present one
      keeps its place. */
  function Add(s: seq<Participant>, x: Participant): (r: seq<Participant>)
    ensures forall y :: y in r <==> y in s || y == x
    ensures Distinct(s) ==> Distinct(r)
    ensures s <= r
  {
    if x in s then s else s + [x]
  }

  /** `Set.prototype.delete`: the element goes, the others keep their order. */
  function Delete(s: seq<Participant>, x: Participant): (r: seq<Participant>)
    ensures forall y :: y in r <==> y in s && y != x
  {
    if s == [] then []
    else
      var last := s[|s| - 1];
      Delete(s[..|s| - 1], x) + (if last == x then [] else [last])
  }

  lemma AppendDistinct(d: seq<Participant>, y: Participant)
    requires Distinct(d) && y !in d
    ensures Distinct(d + [y])
  {
  }

  lemma {:induction false} DeleteKeepsDistinct(s: seq<Participant>, x: Participant)
    requires Distinct(s)
    ensures Distinct(Delete(s, x))
  {
    if s != [] {
      var init, last := s[..|s| - 1], s[|s| - 1];
      assert forall j :: 0 <= j < |init| ==> init[j] == s[j];
      DeleteKeepsDistinct(init, x);
      if last != x {
        AppendDistinct(Delete(init, x), last);
      }
    }
  }

  /** The set built by adding every element of `s` in order. */
  function InsertAll(s: seq<Participant>): seq<Participant>
  {
    if s == [] then [] else Add(InsertAll(s[..|s| - 1]), s[|s| - 1])
  }

  /** The holder set the builder produces from the gathered events. */
  function Holders(events: seq<TransferEvent>): seq<Participant>
  {
    Delete(Delete(InsertAll(Participants(events)), ZERO_ADDRESS), Null)
  }

  /** `a` occurs in `p` before the first occurrence of `b`. */
  ghost predicate Precedes(p: seq<Participant>, a: Participant, b: Participant)
  {
    exists k :: 0 <= k < |p| && p[k] == a && b !in p[..k]
  }

  /** `h` lists its elements in the order of their first occurrence in `p`. */
  ghost predicate FirstAppearanceOrder(h: seq<Participant>, p: seq<Participant>)
  {
    forall i, j :: 0 <= i < j < |h| ==> Precedes(p, h[i], h[j])
  }

  /** The loop over the events followed by the two deletions. */
  method BuildHolderSet(events: seq<TransferEvent>) returns (holders: seq<Participant>)
    ensures holders == Holders(events)
    ensures Distinct(holders)
    ensures forall x :: x in holders <==> x in Participants(events) && x != ZERO_ADDRESS && x != Null
  {
    var addresses: seq<Participant> := [];
    for i := 0 to |events|
      invariant addresses == InsertAll(Participants(events[..i]))
    {
      var e := events[i];
      ghost var p := Participants(events[..i]);
      assert events[..i + 1][..i] == events[..i];
      if e.args.Some? {
        var a := e.args.value;
        assert (p + [a.sender, a.receiver])[..|p| + 1] == p + [a.sender];
        assert (p + [a.sender])[..|p|] == p;
        addresses := Add(addresses, a.sender);
        addresses := Add(addresses, a.receiver);
      } else {
        assert p + [] == p;
      }
    }
    assert events[..|events|] == events;
    addresses := Delete(addresses, ZERO_ADDRESS);
    addresses := Delete(addresses, Null);
    holders := addresses;
    HoldersDistinct(events);
    HoldersMembership(events);
  }

  lemma {:induction false} InsertAllMembership(s: seq<Participant>)
    ensures forall y :: y in InsertAll(s) <==> y in s
    ensures Distinct(InsertAll(s))
  {
    if s != [] {
      var init := s[..|s| - 1];
      InsertAllMembership(init);
      assert s == init + [s[|s| - 1]];
    }
  }

  /** A holder is exactly a sender or receiver of a decoded event other than
      the zero address and `null`; an `undefined` participant stays. */
  lemma {:induction false} HoldersMembership(events: seq<TransferEvent>)
    ensures forall x :: x in Holders(events) <==>
      x in Participants(events) && x != ZERO_ADDRESS && x != Null
  {
    InsertAllMembership(Participants(events));
  }

  /** No holder is listed twice. */
  lemma {:induction false} HoldersDistinct(events: seq<TransferEvent>)
    ensures Distinct(Holders(events))
  {
    var inserted := InsertAll(Participants(events));
    InsertAllMembership(Participants(events));
    DeleteKeepsDistinct(inserted, ZERO_ADDRESS);
    DeleteKeepsDistinct(Delete(inserted, ZERO_ADDRESS), Null);
  }

  lemma {:induction false} PrecedesExtends(p: seq<Participant>, q: seq<Participant>, a: Participant, b: Participant)
    requires Precedes(p, a, b)
    ensures Precedes(p + q, a, b)
  {
    var k :| 0 <= k < |p| && p[k] == a && b !in p[..k];
    assert (p + q)[..k] == p[..k];
    assert (p + q)[k] == a;
  }

  lemma {:induction false} InsertAllOrder(s: seq<Participant>)
    ensures FirstAppearanceOrder(InsertAll(s), s)
  {
    if s != [] {
      var init := s[..|s| - 1];
      var x := s[|s| - 1];
      var h := InsertAll(init);
      InsertAllOrder(init);
      InsertAllMembership(init);
      assert s == init + [x];
      forall i, j | 0 <= i < j < |h| ensures Precedes(s, h[i], h[j]) {
        PrecedesExtends(init, [x], h[i], h[j]);
      }
      if x !in h {
        forall i | 0 <= i < |h| ensures Precedes(s, h[i], x) {
          assert h[i] in h;
          var k :| 0 <= k < |init| && init[k] == h[i];
          assert s[..k] == init[..k];
          assert s[k] == h[i];
        }
        var r := h + [x];
        forall i, j | 0 <= i < j < |r| ensures Precedes(s, r[i], r[j]) {
          if j < |h| {
            assert r[i] == h[i] && r[j] == h[j];
          } else {
            assert r[i] == h[i] && r[j] == x;
          }
        }
      }
    }
  }

  lemma {:induction false} DeleteKeepsOrder(h: seq<Participant>, p: seq<Participant>, x: Participant)
    requires FirstAppearanceOrder(h, p)
    ensures FirstAppearanceOrder(Delete(h, x), p)
  {
    if h != [] {
      var init := h[..|h| - 1];
      var last := h[|h| - 1];
      assert FirstAppearanceOrder(init, p) by {
        forall i, j | 0 <= i < j < |init| ensures Precedes(p, init[i], init[j]) {
          assert init[i] == h[i] && init[j] == h[j];
        }
      }
      DeleteKeepsOrder(init, p, x);
      var d := Delete(init, x);
      if last != x {
        var r := d + [last];
        forall i, j | 0 <= i < j < |r| ensures Precedes(p, r[i], r[j]) {
          if j < |d| {
            assert r[i] == d[i] && r[j] == d[j];
          } else {
            assert r[i] in init;
            var k :| 0 <= k < |init| && init[k] == r[i];
            assert h[k] == r[i] && h[|h| - 1] == last;
          }
        }
      }
    }
  }

  /** Holders come in the order in which each first appears as a sender or
      receiver, which is the insertion order of the set. */
  lemma {:induction false} HoldersInFirstAppearanceOrder(events: seq<TransferEvent>)
    ensures FirstAppearanceOrder(Holders(events), Participants(events))
  {
    var p := Participants(events);
    InsertAllOrder(p);
    DeleteKeepsOrder(InsertAll(p), p, ZERO_ADDRESS);
    DeleteKeepsOrder(Delete(InsertAll(p), ZERO_ADDRESS), p, Null);
  }
}
