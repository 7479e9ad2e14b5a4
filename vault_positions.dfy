/** The whole of `getVaultPositions` after its diagnostics: scan the Transfer
    log of the vault from block 0 to the chain head, build the holder set,
    look up each holder's balance at the target block and return the
    non-zero positions. The chain gateway is passed in as the log query and
    the balance query; `latestBlock` is the chain height read once at the
    start. */
module VaultPositions {
  import opened Wrappers
  import opened Chain
  import opened Paginator
  import opened HolderSet
  import opened Balances

  /** The positions the gathered events lead to. */
  function PositionsOf(events: seq<TransferEvent>, balanceOf: BalanceQuery): seq<Position>
  {
    NonZero(Snapshot(Holders(events), balanceOf))
  }

  /** The result of one run: the error of the first failing log query, or the
      positions of the events of all ranges. */
  function Positions(query: LogQuery, balanceOf: BalanceQuery, latestBlock: nat): Result<seq<Position>, RpcError>
  {
    match Collect(query, Ranges(0, latestBlock, CHUNK_SIZE))
    case Failure(e) => Failure(e)
    case Success(events) => Success(PositionsOf(events, balanceOf))
  }

  /** Some range query of `rs` fails. */
  ghost predicate SomeQueryFails(query: LogQuery, rs: seq<BlockRange>)
  {
    exists i :: 0 <= i < |rs| && query(rs[i].lo, rs[i].hi).Failure?
  }

  /** Range `i` of `rs` is the first whose query fails. */
  ghost predicate FirstFailure(query: LogQuery, rs: seq<BlockRange>, i: int)
  {
    && 0 <= i < |rs|
    && query(rs[i].lo, rs[i].hi).Failure?
    && forall j :: 0 <= j < i ==> query(rs[j].lo, rs[j].hi).Success?
  }

  /** The first failing range query of `rs` fails with `e`. */
  ghost predicate FailsFirstWith(query: LogQuery, rs: seq<BlockRange>, e: RpcError)
  {
    exists i :: FirstFailure(query, rs, i) && query(rs[i].lo, rs[i].hi) == Failure(e)
  }

  /** When some range query fails, there is a first one. */
  lemma {:induction false} FirstFailingRange(query: LogQuery, rs: seq<BlockRange>) returns (i: nat)
    requires SomeQueryFails(query, rs)
    ensures FirstFailure(query, rs, i)
  {
    if query(rs[0].lo, rs[0].hi).Failure? {
      i := 0;
    } else {
      var tail := rs[1..];
      var k :| 0 <= k < |rs| && query(rs[k].lo, rs[k].hi).Failure?;
      assert tail[k - 1] == rs[k];
      var t := FirstFailingRange(query, tail);
      i := t + 1;
      assert forall j :: 0 < j < |rs| ==> rs[j] == tail[j - 1];
    }
  }

  /** The pipeline: a failed log query aborts the whole run with its error,
      failed balance lookups do not. */
  method GetVaultPositions(query: LogQuery, balanceOf: BalanceQuery, latestBlock: nat)
      returns (r: Result<seq<Position>, RpcError>)
    ensures r == Positions(query, balanceOf, latestBlock)
    ensures r.Failure? <==> SomeQueryFails(query, Ranges(0, latestBlock, CHUNK_SIZE))
    ensures r.Failure? ==> FailsFirstWith(query, Ranges(0, latestBlock, CHUNK_SIZE), r.error)
  {
    var scanned := ScanEvents(query, latestBlock);
    ghost var rs := Ranges(0, latestBlock, CHUNK_SIZE);
    CollectSucceedsIff(query, rs);
    if scanned.Failure? {
      var i := FirstFailingRange(query, rs);
      CollectFirstError(query, rs, i);
      return Failure(scanned.error);
    }
    var holders := BuildHolderSet(scanned.value);
    var balances := Snapshot(holders, balanceOf);
    r := Success(NonZero(balances));
  }

  /** What a successful run returns: every position has a non-zero balance
      that `balanceOf` reported for a sender or receiver of some event other
      than the zero address and `null`; every such holder with a non-zero
      balance is returned; no holder is returned twice. */
  lemma {:induction false} PositionsCharacterized(events: seq<TransferEvent>, balanceOf: BalanceQuery)
    ensures forall i :: 0 <= i < |PositionsOf(events, balanceOf)| ==>
      var p := PositionsOf(events, balanceOf)[i];
      && p.balance != 0
      && balanceOf(p.address) == Some(p.balance)
      && p.address in Participants(events)
      && p.address != ZERO_ADDRESS && p.address != Null
    ensures forall a ::
      (a in Participants(events) && a != ZERO_ADDRESS && a != Null && balanceOf(a).Some? && balanceOf(a).value != 0)
      ==> Position(a, balanceOf(a).value) in PositionsOf(events, balanceOf)
    ensures DistinctAddresses(PositionsOf(events, balanceOf))
  {
    var holders := Holders(events);
    var snapshot := Snapshot(holders, balanceOf);
    HoldersMembership(events);
    HoldersDistinct(events);
    forall a | a in Participants(events) && a != ZERO_ADDRESS && a != Null &&
      balanceOf(a).Some? && balanceOf(a).value != 0
      ensures Position(a, balanceOf(a).value) in PositionsOf(events, balanceOf)
    {
      var k :| 0 <= k < |holders| && holders[k] == a;
      assert snapshot[k] == Position(a, balanceOf(a).value);
    }
    forall i | 0 <= i < |PositionsOf(events, balanceOf)|
      ensures PositionsOf(events, balanceOf)[i].address in holders
    {
      var p := PositionsOf(events, balanceOf)[i];
      assert p in snapshot;
    }
    assert DistinctAddresses(snapshot);
    NonZeroKeepsDistinctAddresses(snapshot);
  }

  /** A subsequence keeps the first-appearance order of the sequence. */
  lemma {:induction false} SubsequenceKeepsOrder(a: seq<Participant>, b: seq<Participant>, p: seq<Participant>)
    requires IsSubsequence(a, b) && FirstAppearanceOrder(b, p)
    ensures FirstAppearanceOrder(a, p)
    decreases |b|
  {
    if a != [] {
      var tail := b[1..];
      assert FirstAppearanceOrder(tail, p) by {
        forall i, j | 0 <= i < j < |tail| ensures Precedes(p, tail[i], tail[j]) {
          assert tail[i] == b[i + 1] && tail[j] == b[j + 1];
        }
      }
      if a[0] == b[0] && IsSubsequence(a[1..], tail) {
        SubsequenceKeepsOrder(a[1..], tail, p);
        SubsequenceElements(a[1..], tail);
        forall i, j | 0 <= i < j < |a| ensures Precedes(p, a[i], a[j]) {
          if i == 0 {
            assert a[j] in a[1..];
            var k :| 0 <= k < |tail| && tail[k] == a[j];
            assert b[0] == a[0] && b[k + 1] == a[j];
          } else {
            assert a[i] == a[1..][i - 1] && a[j] == a[1..][j - 1];
          }
        }
      } else {
        SubsequenceKeepsOrder(a, tail, p);
      }
    }
  }

  /** Positions come in the order in which their holders first appear as a
      sender or receiver in the scanned log. */
  lemma {:induction false} PositionsInFirstAppearanceOrder(events: seq<TransferEvent>, balanceOf: BalanceQuery)
    ensures FirstAppearanceOrder(Addresses(PositionsOf(events, balanceOf)), Participants(events))
  {
    var holders := Holders(events);
    var snapshot := Snapshot(holders, balanceOf);
    assert Addresses(snapshot) == holders;
    NonZeroIsSubsequence(snapshot);
    AddressesOfSubsequence(NonZero(snapshot), snapshot);
    HoldersInFirstAppearanceOrder(events);
    SubsequenceKeepsOrder(Addresses(NonZero(snapshot)), holders, Participants(events));
  }
}
