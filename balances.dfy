/** The balance snapshot and the non-zero filter: one record per holder with
    the balance `balanceOf` reports at the target block (0 when the call
    throws), then only the records whose balance is not zero. */
module Balances {
  import opened Wrappers
  import opened Chain

  /** The balance a holder is recorded with; a failed lookup counts as 0. */
  function BalanceOrZero(balanceOf: BalanceQuery, a: Participant): nat
  {
    match balanceOf(a)
    case Some(b) => b
    case None => 0
  }

  /** The per-holder lookups, in holder order: the map awaited as a whole,
      where a failed lookup yields a zero record instead of aborting. */
  function Snapshot(holders: seq<Participant>, balanceOf: BalanceQuery): (r: seq<Position>)
    ensures |r| == |holders|
    ensures forall i :: 0 <= i < |r| ==> r[i].address == holders[i]
    ensures forall i :: 0 <= i < |r| ==>
      (balanceOf(holders[i]) == Some(r[i].balance)) || (balanceOf(holders[i]) == None && r[i].balance == 0)
  {
    if holders == [] then []
    else [Position(holders[0], BalanceOrZero(balanceOf, holders[0]))] + Snapshot(holders[1..], balanceOf)
  }

  /** The records whose balance is not zero, in their original order. */
  function NonZero(records: seq<Position>): (r: seq<Position>)
    ensures forall i :: 0 <= i < |r| ==> r[i].balance != 0
    ensures forall x :: x in r <==> x in records && x.balance != 0
  {
    if records == [] then []
    else if records[0].balance != 0 then [records[0]] + NonZero(records[1..])
    else NonZero(records[1..])
  }

  /** `a` is `b` with some elements left out and the rest in order. */
  ghost predicate IsSubsequence<T>(a: seq<T>, b: seq<T>)
    decreases |b|
  {
    a == [] ||
    (b != [] && ((a[0] == b[0] && IsSubsequence(a[1..], b[1..])) || IsSubsequence(a, b[1..])))
  }

  /** The holders the records are about, in record order. */
  function Addresses(records: seq<Position>): (r: seq<Participant>)
    ensures |r| == |records|
    ensures forall i :: 0 <= i < |r| ==> r[i] == records[i].address
  {
    if records == [] then [] else [records[0].address] + Addresses(records[1..])
  }

  ghost predicate DistinctAddresses(records: seq<Position>)
  {
    forall i, j :: 0 <= i < j < |records| ==> records[i].address != records[j].address
  }

  /** The filter keeps the records in order: it drops and never reorders. */
  lemma {:induction false} NonZeroIsSubsequence(records: seq<Position>)
    ensures IsSubsequence(NonZero(records), records)
  {
    if records != [] {
      NonZeroIsSubsequence(records[1..]);
      var rest := NonZero(records[1..]);
      if records[0].balance != 0 {
        assert ([records[0]] + rest)[1..] == rest;
      } else if rest != [] {
        assert IsSubsequence(rest, records[1..]);
      }
    }
  }

  /** No non-zero record is dropped and no zero record kept, counting
      repetitions: the filter's result holds each non-zero record exactly as
      often as the input does. */
  lemma {:induction false} NonZeroKeepsEveryNonZero(records: seq<Position>)
    ensures forall x :: multiset(NonZero(records))[x] == if x.balance == 0 then 0 else multiset(records)[x]
  {
    if records != [] {
      NonZeroKeepsEveryNonZero(records[1..]);
      assert records == [records[0]] + records[1..];
    }
  }

  /** Holders with distinct addresses stay distinct after the filter. */
  lemma {:induction false} NonZeroKeepsDistinctAddresses(records: seq<Position>)
    requires DistinctAddresses(records)
    ensures DistinctAddresses(NonZero(records))
  {
    if records != [] {
      var rest := records[1..];
      assert DistinctAddresses(rest) by {
        forall i, j | 0 <= i < j < |rest| ensures rest[i].address != rest[j].address {
          assert rest[i] == records[i + 1] && rest[j] == records[j + 1];
        }
      }
      NonZeroKeepsDistinctAddresses(rest);
      if records[0].balance != 0 {
        var r := [records[0]] + NonZero(rest);
        forall i, j | 0 <= i < j < |r| ensures r[i].address != r[j].address {
          if i == 0 {
            assert r[j] in rest;
            var k :| 0 <= k < |rest| && rest[k] == r[j];
            assert records[k + 1] == r[j];
          }
        }
      }
    }
  }

  /** The addresses of a subsequence of records form a subsequence of the
      addresses. */
  lemma {:induction false} AddressesOfSubsequence(a: seq<Position>, b: seq<Position>)
    requires IsSubsequence(a, b)
    ensures IsSubsequence(Addresses(a), Addresses(b))
    decreases |b|
  {
    if a != [] {
      if a[0] == b[0] && IsSubsequence(a[1..], b[1..]) {
        AddressesOfSubsequence(a[1..], b[1..]);
        assert Addresses(a)[1..] == Addresses(a[1..]);
        assert Addresses(b)[1..] == Addresses(b[1..]);
      } else {
        AddressesOfSubsequence(a, b[1..]);
        assert Addresses(b)[1..] == Addresses(b[1..]);
      }
    }
  }

  /** Every element of a subsequence is an element of the sequence. */
  lemma {:induction false} SubsequenceElements<T>(a: seq<T>, b: seq<T>)
    requires IsSubsequence(a, b)
    ensures forall x :: x in a ==> x in b
    decreases |b|
  {
    if a != [] {
      if a[0] == b[0] && IsSubsequence(a[1..], b[1..]) {
        SubsequenceElements(a[1..], b[1..]);
        assert a == [a[0]] + a[1..];
      } else {
        SubsequenceElements(a, b[1..]);
      }
    }
  }
}
