/** The chunked event paginator: Transfer logs from block 0 to the chain head,
    fetched one bounded range at a time, in increasing block order. */
module Paginator {
  import opened Wrappers
  import opened Chain

  /** The largest value of `endBlock - startBlock` in one query. */
  const CHUNK_SIZE: nat := 10000

  function Min(a: nat, b: nat): nat
  {
    if a <= b then a else b
  }

  /** The ranges queried when the cursor starts at `start`: each is
      `[start, min(start + chunk, latest)]` and the next starts one past it. */
  function Ranges(start: nat, latest: nat, chunk: nat): seq<BlockRange>
    decreases latest + 1 - start
  {
    if start > latest then []
    else
      var end := Min(start + chunk, latest);
      [BlockRange(start, end)] + Ranges(end + 1, latest, chunk)
  }

  /** The answer of one query followed by the rest of the scan: the first
      failure wins, otherwise the events are concatenated. */
  function Then(first: Result<seq<TransferEvent>, RpcError>, rest: Result<seq<TransferEvent>, RpcError>)
    : Result<seq<TransferEvent>, RpcError>
  {
    match first
    case Failure(e) => Failure(e)
    case Success(u) =>
      match rest
      case Failure(e) => Failure(e)
      case Success(v) => Success(u + v)
  }

  /** The events gathered by querying `rs` in order: the concatenation of the
      answers, or the error of the first query that fails (later ranges are
      never asked). */
  function Collect(query: LogQuery, rs: seq<BlockRange>): Result<seq<TransferEvent>, RpcError>
  {
    if rs == [] then Success([])
    else Then(query(rs[0].lo, rs[0].hi), Collect(query, rs[1..]))
  }

  /** Concatenation of a sequence of event batches. */
  function Flatten(batches: seq<seq<TransferEvent>>): seq<TransferEvent>
  {
    if batches == [] then [] else batches[0] + Flatten(batches[1..])
  }

  /** The pagination loop: queries the ranges of `Ranges(0, latestBlock,
      CHUNK_SIZE)` one after the other and stops at the first failure. */
  method ScanEvents(query: LogQuery, latestBlock: nat) returns (r: Result<seq<TransferEvent>, RpcError>)
    ensures r == Collect(query, Ranges(0, latestBlock, CHUNK_SIZE))
  {
    var allEvents: seq<TransferEvent> := [];
    var startBlock: nat := 0;
    ThenFromNothing(Collect(query, Ranges(0, latestBlock, CHUNK_SIZE)));
    while startBlock <= latestBlock
      invariant startBlock <= latestBlock + 1
      invariant Collect(query, Ranges(0, latestBlock, CHUNK_SIZE))
        == Then(Success(allEvents), Collect(query, Ranges(startBlock, latestBlock, CHUNK_SIZE)))
      decreases latestBlock + 1 - startBlock
    {
      var endBlock := Min(startBlock + CHUNK_SIZE, latestBlock);
      var events := query(startBlock, endBlock);
      RangesUnfold(startBlock, latestBlock, CHUNK_SIZE);
      if events.Failure? {
        return Failure(events.error);
      }
      ThenAssociates(allEvents, events.value, Collect(query, Ranges(endBlock + 1, latestBlock, CHUNK_SIZE)));
      allEvents := allEvents + events.value;
      startBlock := endBlock + 1;
    }
    assert allEvents + [] == allEvents;
    r := Success(allEvents);
  }

  lemma RangesUnfold(start: nat, latest: nat, chunk: nat)
    requires start <= latest
    ensures Ranges(start, latest, chunk) ==
      [BlockRange(start, Min(start + chunk, latest))] + Ranges(Min(start + chunk, latest) + 1, latest, chunk)
  {
  }

  lemma ThenFromNothing(rest: Result<seq<TransferEvent>, RpcError>)
    ensures Then(Success([]), rest) == rest
  {
    if rest.Success? {
      assert [] + rest.value == rest.value;
    }
  }

  lemma ThenAssociates(u: seq<TransferEvent>, v: seq<TransferEvent>, rest: Result<seq<TransferEvent>, RpcError>)
    ensures Then(Success(u), Then(Success(v), rest)) == Then(Success(u + v), rest)
  {
    if rest.Success? {
      assert u + (v + rest.value) == (u + v) + rest.value;
    }
  }

  /** The ranges tile `[start, latest]`: the first starts at `start`, each
      later one starts right after the previous one ends, the last ends at
      `latest`, and each spans at most `chunk + 1` blocks. */
  lemma {:induction false} RangesTile(start: nat, latest: nat, chunk: nat)
    ensures var rs := Ranges(start, latest, chunk);
      && (|rs| > 0 <==> start <= latest)
      && (|rs| > 0 ==> rs[0].lo == start && rs[|rs| - 1].hi == latest)
      && (forall i :: 0 <= i < |rs| ==>
            start <= rs[i].lo <= rs[i].hi <= latest && rs[i].hi - rs[i].lo <= chunk)
      && (forall i :: 0 < i < |rs| ==> rs[i].lo == rs[i - 1].hi + 1)
    decreases latest + 1 - start
  {
    if start <= latest {
      var end := Min(start + chunk, latest);
      RangesTile(end + 1, latest, chunk);
    }
  }

  /** Ranges never overlap: an earlier range ends before a later one starts. */
  lemma {:induction false} RangesDisjoint(start: nat, latest: nat, chunk: nat)
    ensures var rs := Ranges(start, latest, chunk);
      forall i, j :: 0 <= i < j < |rs| ==> rs[i].hi < rs[j].lo
    decreases latest + 1 - start
  {
    if start <= latest {
      var end := Min(start + chunk, latest);
      RangesDisjoint(end + 1, latest, chunk);
      RangesTile(end + 1, latest, chunk);
    }
  }

  /** Block `b` lies in one of the ranges `rs`. */
  ghost predicate InSomeRange(rs: seq<BlockRange>, b: nat)
  {
    exists i :: 0 <= i < |rs| && rs[i].lo <= b <= rs[i].hi
  }

  /** Every block of `[start, latest]` lies in exactly one queried range. */
  lemma {:induction false} BlockCoveredOnce(start: nat, latest: nat, chunk: nat, b: nat)
    requires start <= b <= latest
    ensures InSomeRange(Ranges(start, latest, chunk), b)
    ensures var rs := Ranges(start, latest, chunk);
      forall i, j ::
        (0 <= i < |rs| && 0 <= j < |rs| && rs[i].lo <= b <= rs[i].hi && rs[j].lo <= b <= rs[j].hi) ==> i == j
    decreases latest + 1 - start
  {
    var rs := Ranges(start, latest, chunk);
    var end := Min(start + chunk, latest);
    RangesDisjoint(start, latest, chunk);
    assert rs[0] == BlockRange(start, end);
    if b <= end {
      assert 0 < |rs| && rs[0].lo <= b <= rs[0].hi;
      assert InSomeRange(rs, b);
    } else {
      BlockCoveredOnce(end + 1, latest, chunk, b);
      var rest := Ranges(end + 1, latest, chunk);
      var k :| 0 <= k < |rest| && rest[k].lo <= b <= rest[k].hi;
      assert rs == [rs[0]] + rest;
      assert k + 1 < |rs| && rs[k + 1] == rest[k];
      assert InSomeRange(rs, b);
    }
  }

  /** The scan succeeds exactly when every range query succeeds. */
  lemma {:induction false} CollectSucceedsIff(query: LogQuery, rs: seq<BlockRange>)
    ensures Collect(query, rs).Success? <==>
      forall i :: 0 <= i < |rs| ==> query(rs[i].lo, rs[i].hi).Success?
  {
    if rs != [] {
      CollectSucceedsIff(query, rs[1..]);
      assert forall i :: 0 < i < |rs| ==> rs[1..][i - 1] == rs[i];
    }
  }

  /** When a range query fails, the scan fails with the error of the first
      failing range. */
  lemma {:induction false} CollectFirstError(query: LogQuery, rs: seq<BlockRange>, i: nat)
    requires i < |rs| && query(rs[i].lo, rs[i].hi).Failure?
    requires forall j :: 0 <= j < i ==> query(rs[j].lo, rs[j].hi).Success?
    ensures Collect(query, rs) == query(rs[i].lo, rs[i].hi)
  {
    if i > 0 {
      var tail := rs[1..];
      assert forall j :: 0 <= j < i - 1 ==> tail[j] == rs[j + 1];
      CollectFirstError(query, tail, i - 1);
    }
  }

  /** When every range query succeeds, the scan returns the answers
      concatenated in range order. */
  lemma {:induction false} CollectConcatenates(query: LogQuery, rs: seq<BlockRange>)
    requires forall i :: 0 <= i < |rs| ==> query(rs[i].lo, rs[i].hi).Success?
    ensures Collect(query, rs) ==
      Success(Flatten(seq(|rs|, i requires 0 <= i < |rs| && query(rs[i].lo, rs[i].hi).Success? =>
                                query(rs[i].lo, rs[i].hi).value)))
  {
    if rs != [] {
      var tail := rs[1..];
      assert forall j :: 0 <= j < |tail| ==> tail[j] == rs[j + 1];
      CollectConcatenates(query, tail);
      var answers := seq(|rs|, i requires 0 <= i < |rs| && query(rs[i].lo, rs[i].hi).Success? =>
                                query(rs[i].lo, rs[i].hi).value);
      var tailAnswers := seq(|tail|, i requires 0 <= i < |tail| && query(tail[i].lo, tail[i].hi).Success? =>
                                query(tail[i].lo, tail[i].hi).value);
      assert answers[1..] == tailAnswers;
    }
  }

  /** The log of a chain, in order, restricted to the inclusive block range. */
  function LogsIn(chain: seq<TransferEvent>, lo: nat, hi: nat): seq<TransferEvent>
  {
    if chain == [] then []
    else if lo <= chain[0].blockNumber <= hi then [chain[0]] + LogsIn(chain[1..], lo, hi)
    else LogsIn(chain[1..], lo, hi)
  }

  ghost predicate SortedByBlock(chain: seq<TransferEvent>)
  {
    forall i, j :: 0 <= i < j < |chain| ==> chain[i].blockNumber <= chain[j].blockNumber
  }

  /** The gateway answers every range query from one fixed chain log. */
  ghost predicate AnswersFrom(query: LogQuery, chain: seq<TransferEvent>)
  {
    forall lo: nat, hi: nat :: query(lo, hi) == Success(LogsIn(chain, lo, hi))
  }

  lemma {:induction false} LogsInNone(chain: seq<TransferEvent>, lo: nat, hi: nat)
    requires forall i :: 0 <= i < |chain| ==> !(lo <= chain[i].blockNumber <= hi)
    ensures LogsIn(chain, lo, hi) == []
  {
    if chain != [] {
      LogsInNone(chain[1..], lo, hi);
    }
  }

  /** On a block-sorted log, the events of `[a, c]` are those of `[a, b]`
      followed by those of `[b + 1, c]`. */
  lemma {:induction false} LogsInSplit(chain: seq<TransferEvent>, a: nat, b: nat, c: nat)
    requires SortedByBlock(chain)
    requires a <= b + 1 && b <= c
    ensures LogsIn(chain, a, c) == LogsIn(chain, a, b) + LogsIn(chain, b + 1, c)
  {
    if chain != [] {
      var e, rest := chain[0], chain[1..];
      assert SortedByBlock(rest) by {
        forall i, j | 0 <= i < j < |rest| ensures rest[i].blockNumber <= rest[j].blockNumber {
          assert rest[i] == chain[i + 1] && rest[j] == chain[j + 1];
        }
      }
      LogsInSplit(rest, a, b, c);
      var low, high := LogsIn(rest, a, b), LogsIn(rest, b + 1, c);
      var k := e.blockNumber;
      if k < a || c < k {
        assert LogsIn(chain, a, c) == LogsIn(rest, a, c);
        assert LogsIn(chain, a, b) == low && LogsIn(chain, b + 1, c) == high;
      } else if k <= b {
        assert LogsIn(chain, a, c) == [e] + LogsIn(rest, a, c);
        assert LogsIn(chain, a, b) == [e] + low && LogsIn(chain, b + 1, c) == high;
        assert [e] + (low + high) == ([e] + low) + high;
      } else {
        assert forall i :: 0 <= i < |rest| ==> rest[i] == chain[i + 1];
        LogsInNone(rest, a, b);
        assert LogsIn(chain, a, c) == [e] + LogsIn(rest, a, c);
        assert LogsIn(chain, a, b) == [] && LogsIn(chain, b + 1, c) == [e] + high;
        assert [e] + ([] + high) == [] + ([e] + high);
      }
    }
  }

  /** Every event of blocks `[start, latest]` is gathered exactly once and in
      chain order, whatever the chunk size, when the gateway answers from one
      block-sorted log. */
  lemma {:induction false} ScanIsChunkIndependent(query: LogQuery, chain: seq<TransferEvent>,
                                                 start: nat, latest: nat, chunk: nat)
    requires SortedByBlock(chain) && AnswersFrom(query, chain)
    requires start <= latest + 1
    ensures Collect(query, Ranges(start, latest, chunk)) == Success(LogsIn(chain, start, latest))
    decreases latest + 1 - start
  {
    if start > latest {
      LogsInNone(chain, start, latest);
    } else {
      var end := Min(start + chunk, latest);
      RangesUnfold(start, latest, chunk);
      ScanIsChunkIndependent(query, chain, end + 1, latest, chunk);
      assert query(start, end) == Success(LogsIn(chain, start, end));
      LogsInSplit(chain, start, end, latest);
    }
  }

  /** Re-chunking the scan with another chunk size gathers the same events. */
  lemma ReChunkingAgrees(query: LogQuery, chain: seq<TransferEvent>, latest: nat, c1: nat, c2: nat)
    requires SortedByBlock(chain) && AnswersFrom(query, chain)
    ensures Collect(query, Ranges(0, latest, c1)) == Collect(query, Ranges(0, latest, c2))
  {
    ScanIsChunkIndependent(query, chain, 0, latest, c1);
    ScanIsChunkIndependent(query, chain, 0, latest, c2);
  }
}
