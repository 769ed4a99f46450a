/** Ingesting a block range: detecting the token standard, fetching the logs chunk by chunk,
    decoding them and persisting them in one transaction. */
module Ingests {
  import opened Wrappers
  import opened Domain
  import opened Evm
  import opened Numerals
  import opened Backfill
  import L = LedgerModel
  import T = LedgerTheorems
  import B = Batches
  import R = LedgerRepositories
  import P = Protocol

  /** The logs that the contract emitted in each block, in order. */
  type History = nat -> seq<RpcLog>

  datatype PrefetchedLogChunk = PrefetchedLogChunk(from: U64, to: U64, logs: seq<RpcLog>)

  datatype TokenStandardDetection = TokenStandardDetection(standard: TokenStandard, prefetched: PrefetchedLogChunk)

  // ---------------------------------------------------------------- the RPC

  predicate IsSupported(log: RpcLog, standard: TokenStandard) {
    log.topic0.Some? && log.topic0.value in SupportedTopics(standard)
  }

  function Matching(logs: seq<RpcLog>, standard: TokenStandard): seq<RpcLog> {
    if logs == [] then [] else
    var last := logs[|logs| - 1];
    Matching(logs[..|logs| - 1], standard) + (if IsSupported(last, standard) then [last] else [])
  }

  /** A range request: the matching logs of the blocks from..to, in order. */
  function RpcLogs(history: History, standard: TokenStandard, from: int, to: int): seq<RpcLog>
    requires from >= 0
    decreases 1 + to - from
  {
    if to < from then [] else RpcLogs(history, standard, from, to - 1) + Matching(history(to), standard)
  }

  lemma Associative<X>(a: seq<X>, b: seq<X>, c: seq<X>)
    ensures (a + b) + c == a + (b + c)
  {
  }

  lemma {:induction false} RpcLogsSplit(history: History, standard: TokenStandard, from: int, middle: int, to: int)
    requires 0 <= from <= middle + 1 && middle <= to
    ensures RpcLogs(history, standard, from, to)
         == RpcLogs(history, standard, from, middle) + RpcLogs(history, standard, middle + 1, to)
    decreases 1 + to - middle
  {
    if to <= middle {
      assert RpcLogs(history, standard, middle + 1, to) == [];
    } else {
      RpcLogsSplit(history, standard, from, middle, to - 1);
      Associative(RpcLogs(history, standard, from, middle), RpcLogs(history, standard, middle + 1, to - 1),
                  Matching(history(to), standard));
    }
  }

  // ---------------------------------------------------------------- detection

  predicate Shows(log: RpcLog, standard: TokenStandard) {
    DetectTokenStandardFromLog(log) == Ok(Some(standard))
  }

  predicate IsQuiet(log: RpcLog) {
    DetectTokenStandardFromLog(log) == Ok(None)
  }

  predicate Silent(logs: seq<RpcLog>) {
    forall i :: 0 <= i < |logs| ==> IsQuiet(logs[i])
  }

  /** Some log shows the standard and no log shows another one or has a broken shape. */
  predicate Unanimous(logs: seq<RpcLog>, standard: TokenStandard) {
    && (exists i :: 0 <= i < |logs| && Shows(logs[i], standard))
    && (forall i :: 0 <= i < |logs| ==> IsQuiet(logs[i]) || Shows(logs[i], standard))
  }

  method DetectTokenStandardFromLogs(logs: seq<RpcLog>) returns (r: Result<Option<TokenStandard>>)
    ensures r == Ok(None) <==> Silent(logs)
    ensures forall standard :: r == Ok(Some(standard)) <==> Unanimous(logs, standard)
  {
    var detected: Option<TokenStandard> := None;
    for n := 0 to |logs|
      invariant detected == None ==> Silent(logs[..n])
      invariant detected.Some? ==> Unanimous(logs[..n], detected.value)
      invariant detected.Some? ==> exists i :: 0 <= i < n && Shows(logs[i], detected.value)
    {
      assert logs[..n + 1] == logs[..n] + [logs[n]];
      var candidate := DetectTokenStandardFromLog(logs[n]);
      if candidate == Err {
        return Err;
      }
      if candidate.value.Some? {
        assert Shows(logs[n], candidate.value.value);
        if detected.Some? {
          if detected.value != candidate.value.value {
            return Err;
          }
        } else {
          detected := candidate.value;
          assert Shows(logs[..n + 1][n], detected.value);
        }
      }
      if detected.Some? {
        var i :| 0 <= i <= n && Shows(logs[i], detected.value);
        assert Shows(logs[..n + 1][i], detected.value);
      }
    }
    assert logs[..|logs|] == logs;
    return Ok(detected);
  }

  lemma {:induction false} MatchingSupported(logs: seq<RpcLog>, standard: TokenStandard, i: nat)
    requires i < |Matching(logs, standard)|
    ensures IsSupported(Matching(logs, standard)[i], standard)
    decreases |logs|
  {
    var init := logs[..|logs| - 1];
    if |Matching(init, standard)| <= i {
    } else {
      MatchingSupported(init, standard, i);
    }
  }

  lemma {:induction false} RangeSupported(history: History, standard: TokenStandard, from: int, to: int, i: nat)
    requires from >= 0 && i < |RpcLogs(history, standard, from, to)|
    ensures IsSupported(RpcLogs(history, standard, from, to)[i], standard)
    decreases 1 + to - from
  {
    var n := |RpcLogs(history, standard, from, to - 1)|;
    if i < n {
      RangeSupported(history, standard, from, to - 1, i);
    } else {
      MatchingSupported(history(to), standard, i - n);
    }
  }

  /** No log that matches any standard is passed over by detection. */
  lemma AutoLogsSpeak(history: History, from: int, to: int)
    requires from >= 0
    ensures Silent(RpcLogs(history, Auto, from, to)) <==> RpcLogs(history, Auto, from, to) == []
    ensures forall i :: 0 <= i < |RpcLogs(history, Auto, from, to)| ==> !IsQuiet(RpcLogs(history, Auto, from, to)[i])
  {
    var logs := RpcLogs(history, Auto, from, to);
    forall i | 0 <= i < |logs| ensures !IsQuiet(logs[i]) {
      RangeSupported(history, Auto, from, to, i);
    }
    if logs != [] {
      assert !IsQuiet(logs[0]);
    }
  }

  /** Logs that all show one standard are the same under the filter of that standard. */
  lemma {:induction false} MatchingNarrows(logs: seq<RpcLog>, standard: TokenStandard)
    requires forall i :: 0 <= i < |Matching(logs, Auto)| ==> Shows(Matching(logs, Auto)[i], standard)
    ensures Matching(logs, standard) == Matching(logs, Auto)
    decreases |logs|
  {
    if logs == [] {
    } else {
      var init, last := logs[..|logs| - 1], logs[|logs| - 1];
      var n := |Matching(init, Auto)|;
      assert forall i :: 0 <= i < n ==> Matching(init, Auto)[i] == Matching(logs, Auto)[i];
      MatchingNarrows(init, standard);
      if IsSupported(last, Auto) {
        assert Matching(logs, Auto)[n] == last;
      }
    }
  }

  lemma {:induction false} RangeNarrows(history: History, standard: TokenStandard, from: int, to: int)
    requires from >= 0
    requires forall i ::
             0 <= i < |RpcLogs(history, Auto, from, to)| ==> Shows(RpcLogs(history, Auto, from, to)[i], standard)
    ensures RpcLogs(history, standard, from, to) == RpcLogs(history, Auto, from, to)
    decreases 1 + to - from
  {
    if to < from {
    } else {
      var head, tail := RpcLogs(history, Auto, from, to - 1), Matching(history(to), Auto);
      var all := RpcLogs(history, Auto, from, to);
      forall i | 0 <= i < |head| ensures Shows(head[i], standard) {
        assert all[i] == head[i];
      }
      forall i | 0 <= i < |tail| ensures Shows(tail[i], standard) {
        assert all[|head| + i] == tail[i];
      }
      RangeNarrows(history, standard, from, to - 1);
      MatchingNarrows(history(to), standard);
    }
  }

  /** A chunk prefetched for detection is what a request for the detected standard returns. */
  lemma PrefetchedIsGenuine(history: History, standard: TokenStandard, from: int, to: int)
    requires from >= 0 && Unanimous(RpcLogs(history, Auto, from, to), standard)
    ensures RpcLogs(history, standard, from, to) == RpcLogs(history, Auto, from, to)
    ensures standard != Auto
  {
    AutoLogsSpeak(history, from, to);
    RangeNarrows(history, standard, from, to);
  }

  /** Chunk number k of the range. */
  predicate IsChunkAt(chunk: Chunk, k: nat, from: int, to: int, size: int) {
    chunk.from == from + k * size && chunk.from <= to && chunk.to == Min(chunk.from + size - 1, to)
  }

  /** The first chunk of the range in which the contract emitted a log of any standard. */
  ghost predicate IsFirstActive(history: History, chunk: Chunk, k: nat, from: nat, to: int, size: int) {
    && IsChunkAt(chunk, k, from, to, size) && size > 0
    && RpcLogs(history, Auto, from, chunk.from - 1) == []
    && RpcLogs(history, Auto, chunk.from, chunk.to) != []
  }

  lemma EmptyExtends(history: History, from: nat, middle: int, to: int)
    requires from <= middle + 1 && middle <= to
    ensures RpcLogs(history, Auto, from, to) == [] <==>
              RpcLogs(history, Auto, from, middle) == [] && RpcLogs(history, Auto, middle + 1, to) == []
  {
    RpcLogsSplit(history, Auto, from, middle, to);
  }

  /** What detection finds in one chunk: nothing, a standard, or a conflict. */
  lemma DetectedChunk(history: History, from: nat, to: int, size: int, chunk: Chunk, k: nat,
                      detected: Result<Option<TokenStandard>>)
    requires RpcLogs(history, Auto, from, chunk.from - 1) == []
    requires IsChunkAt(chunk, k, from, to, size) && size > 0 && from <= chunk.from <= chunk.to <= to
    requires detected == Ok(None) <==> Silent(RpcLogs(history, Auto, chunk.from, chunk.to))
    ensures detected == Ok(None) ==> RpcLogs(history, Auto, from, chunk.to) == []
    ensures detected != Ok(None) ==>
            IsFirstActive(history, chunk, k, from, to, size) && RpcLogs(history, Auto, from, to) != []
  {
    AutoLogsSpeak(history, chunk.from, chunk.to);
    EmptyExtends(history, from, chunk.from - 1, chunk.to);
    EmptyExtends(history, from, chunk.to, to);
  }

  lemma LaterStart(k: nat, size: int)
    requires size > 0
    ensures (k + 1) * size == k * size + size && k * size >= 0
  {
  }

  /** What detection over the range comes to: the first chunk with logs decides. */
  ghost predicate IsDetection(history: History, from: nat, to: int, size: int, first: Chunk, k: nat,
                              d: Result<TokenStandardDetection>) {
    var logs := RpcLogs(history, Auto, first.from, first.to);
    && IsFirstActive(history, first, k, from, to, size)
    && (d.Ok? <==> exists standard :: Unanimous(logs, standard))
    && (d.Ok? ==>
        Unanimous(logs, d.value.standard) && d.value.prefetched == PrefetchedLogChunk(first.from, first.to, logs))
  }

  method DetectInChunks(history: History, from: U64, to: U64, size: U64)
    returns (d: Result<TokenStandardDetection>, ghost first: Chunk, ghost k: nat)
    requires from <= to && size > 0
    ensures if RpcLogs(history, Auto, from, to) == [] then d == Err
            else IsDetection(history, from, to, size, first, k, d)
  {
    first, k := Chunk(0, 0), 0;
    var chunkFrom: U64 := from;
    while chunkFrom <= to
      invariant from <= chunkFrom <= to + 1
      invariant chunkFrom <= to ==> chunkFrom == from + k * size
      invariant RpcLogs(history, Auto, from, chunkFrom - 1) == []
      decreases 1 + to - chunkFrom
    {
      var chunkTo: U64 := Min(SaturatingAdd(chunkFrom, size - 1), to);
      var logs := RpcLogs(history, Auto, chunkFrom, chunkTo);
      first := Chunk(chunkFrom, chunkTo);
      var detected := DetectTokenStandardFromLogs(logs);
      DetectedChunk(history, from, to, size, first, k, detected);
      if detected == Err {
        return Err, first, k;
      }
      if detected.value.Some? {
        return Ok(TokenStandardDetection(detected.value.value, PrefetchedLogChunk(chunkFrom, chunkTo, logs))), first, k;
      }
      if chunkTo == U64_MAX {
        break;
      }
      LaterStart(k, size);
      chunkFrom, k := chunkTo + 1, k + 1;
    }
    return Err, first, k;
  }

  method DetectTokenStandardWithPrefetchedLogs(history: History, from: U64, to: U64, size: U64)
    returns (d: Result<TokenStandardDetection>, ghost first: Chunk, ghost k: nat)
    ensures from > to || size == 0 ==> d == Err
    ensures from <= to && RpcLogs(history, Auto, from, to) == [] ==> d == Err
    ensures from <= to && size > 0 && RpcLogs(history, Auto, from, to) != [] ==>
              IsDetection(history, from, to, size, first, k, d)
  {
    if from > to {
      return Err, Chunk(0, 0), 0;
    }
    if size == 0 {
      return Err, Chunk(0, 0), 0;
    }
    d, first, k := DetectInChunks(history, from, to, size);
  }

  // ---------------------------------------------------------------- fetching

  predicate IsPrefetched(prefetched: Option<PrefetchedLogChunk>, chunk: Chunk) {
    prefetched.Some? && prefetched.value.from == chunk.from && prefetched.value.to == chunk.to
  }

  ghost predicate IsGenuine(history: History, standard: TokenStandard, prefetched: Option<PrefetchedLogChunk>) {
    prefetched.Some? ==> prefetched.value.logs == RpcLogs(history, standard, prefetched.value.from, prefetched.value.to)
  }

  /** The chunks that are asked from the RPC: all but the prefetched one. */
  ghost function Requested(chunks: seq<Chunk>, prefetched: Option<PrefetchedLogChunk>): seq<Chunk> {
    if chunks == [] then [] else
    var last := chunks[|chunks| - 1];
    Requested(chunks[..|chunks| - 1], prefetched) + (if IsPrefetched(prefetched, last) then [] else [last])
  }

  lemma RequestedStep(chunks: seq<Chunk>, prefetched: Option<PrefetchedLogChunk>, next: Chunk)
    ensures Requested(chunks + [next], prefetched)
         == Requested(chunks, prefetched) + (if IsPrefetched(prefetched, next) then [] else [next])
  {
    assert (chunks + [next])[..|chunks|] == chunks;
  }

  lemma {:induction false} RequestedAll(chunks: seq<Chunk>, prefetched: Option<PrefetchedLogChunk>)
    requires forall i :: 0 <= i < |chunks| ==> !IsPrefetched(prefetched, chunks[i])
    ensures Requested(chunks, prefetched) == chunks
    decreases |chunks|
  {
    if chunks == [] {
    } else {
      RequestedAll(chunks[..|chunks| - 1], prefetched);
    }
  }

  lemma WithoutOne<X>(xs: seq<X>, i: nat)
    requires i < |xs| - 1
    ensures xs[..i] + xs[i + 1..] == xs[..|xs| - 1][..i] + xs[..|xs| - 1][i + 1..] + [xs[|xs| - 1]]
  {
  }

  /** Every chunk of the range but the prefetched one is requested, once and in order. */
  lemma {:induction false} RequestedExact(chunks: seq<Chunk>, from: int, to: int, size: int,
                                          prefetched: Option<PrefetchedLogChunk>, i: nat)
    requires IsTiling(chunks, from, to, size) && i < |chunks| && IsPrefetched(prefetched, chunks[i])
    ensures Requested(chunks, prefetched) == chunks[..i] + chunks[i + 1..]
    decreases |chunks|
  {
    var n := |chunks| - 1;
    var init := chunks[..n];
    if i == n {
      forall j | 0 <= j < n ensures !IsPrefetched(prefetched, chunks[j]) {
        TilingIncreases(chunks, from, to, size, j, n);
      }
      RequestedAll(init, prefetched);
    } else {
      TilingIncreases(chunks, from, to, size, i, n);
      var middle := TilingInit(chunks, from, to, size);
      RequestedExact(init, from, middle, size, prefetched, i);
      WithoutOne(chunks, i);
    }
  }

  lemma ChunkIndexBound(k: nat, n: nat, size: nat, length: int)
    requires k * size <= length < n * size + size && size > 0
    ensures k <= n
  {
    if n < k {
      ProductsOrdered(n + 1, k, size);
    }
  }

  /** Chunk k is in every tiling of the range. */
  lemma ChunkInTiling(chunks: seq<Chunk>, chunk: Chunk, k: nat, from: int, to: int, size: int)
    requires IsTiling(chunks, from, to, size) && IsChunkAt(chunk, k, from, to, size)
    ensures k < |chunks| && chunks[k] == chunk
  {
    var n := |chunks| - 1;
    TilingStarts(chunks, from, to, size, n);
    ChunkIndexBound(k, n, size, to - from);
    TilingStarts(chunks, from, to, size, k);
    if k < n {
      TilingIncreases(chunks, from, to, size, k, n);
      assert chunks[k + 1].from == chunks[k].to + 1;
    }
  }

  /** The logs of the blocks from..next-1, provided that the prefetched ones are genuine. */
  ghost predicate IsFetched(history: History, standard: TokenStandard, prefetched: Option<PrefetchedLogChunk>,
                            logs: seq<RpcLog>, from: nat, next: int) {
    IsGenuine(history, standard, prefetched) ==> logs == RpcLogs(history, standard, from, next - 1)
  }

  lemma FetchedExtends(history: History, standard: TokenStandard, prefetched: Option<PrefetchedLogChunk>,
                       logs: seq<RpcLog>, chunkLogs: seq<RpcLog>, from: nat, chunk: Chunk)
    requires IsFetched(history, standard, prefetched, logs, from, chunk.from) && from <= chunk.from <= chunk.to
    requires IsGenuine(history, standard, prefetched) ==> chunkLogs == RpcLogs(history, standard, chunk.from, chunk.to)
    ensures IsFetched(history, standard, prefetched, logs + chunkLogs, from, chunk.to + 1)
  {
    RpcLogsSplit(history, standard, from, chunk.from - 1, chunk.to);
  }

  /** The prefetched chunk is still at hand, or lies behind. */
  predicate IsPending(prefetched: Option<PrefetchedLogChunk>, pending: Option<PrefetchedLogChunk>, next: int) {
    pending == prefetched || (pending == None && prefetched.Some? && prefetched.value.from < next)
  }

  /** How far a fetch has come: the logs of the blocks before `next`, what is left of the
      prefetched chunk, and the chunks and requests made. */
  ghost predicate IsFetch(history: History, standard: TokenStandard, prefetched: Option<PrefetchedLogChunk>,
                          from: nat, to: int, size: int, next: int, logs: seq<RpcLog>,
                          pending: Option<PrefetchedLogChunk>, chunks: seq<Chunk>, requests: seq<Chunk>)
  {
    && IsPartTiling(chunks, from, next, to, size)
    && IsPending(prefetched, pending, next)
    && IsFetched(history, standard, prefetched, logs, from, next)
    && requests == Requested(chunks, prefetched)
  }

  /** Appends the logs of one chunk: the prefetched ones, used up, or those that the RPC returns. */
  method FetchChunk(history: History, standard: TokenStandard, chunk: Chunk, logs: seq<RpcLog>,
                    pending: Option<PrefetchedLogChunk>,
                    ghost prefetched: Option<PrefetchedLogChunk>, ghost from: nat, ghost to: int, ghost size: int,
                    ghost chunks: seq<Chunk>, ghost requests: seq<Chunk>)
    returns (all: seq<RpcLog>, rest: Option<PrefetchedLogChunk>, ghost chunks': seq<Chunk>, ghost requests': seq<Chunk>)
    requires chunk.from <= to && size > 0 && chunk.to == Min(chunk.from + size - 1, to)
    requires IsFetch(history, standard, prefetched, from, to, size, chunk.from, logs, pending, chunks, requests)
    ensures IsFetch(history, standard, prefetched, from, to, size, chunk.to + 1, all, rest, chunks', requests')
  {
    RequestedStep(chunks, prefetched, chunk);
    PartTilingExtends(chunks, from, to, size, chunk);
    chunks' := chunks + [chunk];
    var chunkLogs: seq<RpcLog>;
    if pending.Some? && pending.value.from == chunk.from && pending.value.to == chunk.to {
      chunkLogs, rest := pending.value.logs, None;
      requests' := requests;
    } else {
      chunkLogs, rest := RpcLogs(history, standard, chunk.from, chunk.to), pending;
      requests' := requests + [chunk];
    }
    FetchedExtends(history, standard, prefetched, logs, chunkLogs, from, chunk);
    all := logs + chunkLogs;
  }

  /** The chunk loop. */
  method FetchChunks(history: History, standard: TokenStandard, from: U64, to: U64, size: U64,
                     prefetched: Option<PrefetchedLogChunk>)
    returns (logs: seq<RpcLog>, ghost rest: Option<PrefetchedLogChunk>, ghost chunks: seq<Chunk>,
             ghost requests: seq<Chunk>)
    requires from <= to && size > 0
    ensures IsFetch(history, standard, prefetched, from, to, size, to + 1, logs, rest, chunks, requests)
  {
    logs, chunks, requests := [], [], [];
    var chunkFrom: U64 := from;
    var pending := prefetched;
    ghost var next: int := from;
    while chunkFrom <= to
      invariant if chunkFrom <= to then next == chunkFrom else next == to + 1
      invariant IsFetch(history, standard, prefetched, from, to, size, next, logs, pending, chunks, requests)
      decreases 1 + to - chunkFrom
    {
      var chunkTo: U64 := Min(SaturatingAdd(chunkFrom, size - 1), to);
      logs, pending, chunks, requests :=
        FetchChunk(history, standard, Chunk(chunkFrom, chunkTo), logs, pending, prefetched, from, to, size, chunks,
                   requests);
      next := chunkTo + 1;
      if chunkTo == U64_MAX {
        break;
      }
      chunkFrom := chunkTo + 1;
    }
    assert next == to + 1;
    rest := pending;
  }

  /** Fetching with one chunk already at hand gives what one request for the whole range would. */
  method FetchLogsInChunks(history: History, standard: TokenStandard, from: U64, to: U64, size: U64,
                           prefetched: Option<PrefetchedLogChunk>)
    returns (fetched: Result<seq<RpcLog>>, ghost chunks: seq<Chunk>, ghost requests: seq<Chunk>)
    ensures fetched.Ok? <==> from <= to && size > 0
    ensures fetched.Ok? ==> IsTiling(chunks, from, to, size) && requests == Requested(chunks, prefetched)
    ensures fetched.Ok? && IsGenuine(history, standard, prefetched) ==>
            fetched.value == RpcLogs(history, standard, from, to)
  {
    if from > to {
      return Err, [], [];
    }
    if size == 0 {
      return Err, [], [];
    }
    var logs, rest, made, asked := FetchChunks(history, standard, from, to, size, prefetched);
    return Ok(logs), made, asked;
  }

  // ---------------------------------------------------------------- decoding a range

  function ToEntry(entry: DecodedEntry): Result<B.DecodedEntry> {
    match Value(entry.amount, 10)
    case None => Err
    case Some(amount) => Ok(B.DecodedEntry(entry.from, entry.to, entry.token, amount, entry.batchIndex))
  }

  function ToEntries(entries: seq<DecodedEntry>): Result<seq<B.DecodedEntry>> {
    if entries == [] then Ok([]) else
    var init :- ToEntries(entries[..|entries| - 1]);
    var last :- ToEntry(entries[|entries| - 1]);
    Ok(init + [last])
  }

  /** The ledger's view of one log: no row, or one row per entry. */
  function ToLedgerLogs(log: RpcLog, standard: TokenStandard, timestamps: nat -> int): Result<seq<B.DecodedLog>> {
    var decoded :- DecodeLog(log, standard);
    match decoded
    case None => Ok([])
    case Some(parts) =>
      var entries :- ToEntries(parts);
      Ok([B.DecodedLog(log.transactionHash, log.logIndex, log.block,
                       L.Metadata(log.blockHash, Some(timestamps(log.block)), log.transactionIndex), entries)])
  }

  /** One result after another, with any failure winning. */
  function Joined<X>(a: Result<seq<X>>, b: Result<seq<X>>): Result<seq<X>> {
    match (a, b)
    case (Ok(x), Ok(y)) => Ok(x + y)
    case _ => Err
  }

  function JoinAll<X>(results: seq<Result<seq<X>>>): Result<seq<X>> {
    if results == [] then Ok([]) else Joined(JoinAll(results[..|results| - 1]), results[|results| - 1])
  }

  lemma JoinedAssociative<X>(a: Result<seq<X>>, b: Result<seq<X>>, c: Result<seq<X>>)
    ensures Joined(Joined(a, b), c) == Joined(a, Joined(b, c))
  {
    if a.Ok? && b.Ok? && c.Ok? {
      assert (a.value + b.value) + c.value == a.value + (b.value + c.value);
    }
  }

  lemma {:induction false} JoinAllAppend<X>(a: seq<Result<seq<X>>>, b: seq<Result<seq<X>>>)
    ensures JoinAll(a + b) == Joined(JoinAll(a), JoinAll(b))
    decreases |b|
  {
    if b == [] {
      assert a + b == a;
      assert JoinAll(a).Ok? ==> JoinAll(a).value + [] == JoinAll(a).value;
    } else {
      var n := |b| - 1;
      assert (a + b)[..|a + b| - 1] == a + b[..n];
      JoinAllAppend(a, b[..n]);
      JoinedAssociative(JoinAll(a), JoinAll(b[..n]), b[n]);
    }
  }

  lemma JoinOne<X>(results: seq<Result<seq<X>>>)
    requires |results| == 1
    ensures JoinAll(results) == results[0]
  {
    assert results[..0] == [];
    assert results[0].Ok? ==> [] + results[0].value == results[0].value;
  }

  function Mapped<X, Y>(f: X -> Y, xs: seq<X>): seq<Y> {
    seq(|xs|, i requires 0 <= i < |xs| => f(xs[i]))
  }

  lemma MappedAppend<X, Y>(f: X -> Y, a: seq<X>, b: seq<X>)
    ensures Mapped(f, a + b) == Mapped(f, a) + Mapped(f, b)
  {
  }

  function Decoder(standard: TokenStandard, timestamps: nat -> int): RpcLog -> Result<seq<B.DecodedLog>> {
    log => ToLedgerLogs(log, standard, timestamps)
  }

  function DecodeAll(logs: seq<RpcLog>, standard: TokenStandard, timestamps: nat -> int): Result<seq<B.DecodedLog>> {
    JoinAll(Mapped(Decoder(standard, timestamps), logs))
  }

  lemma DecodeAllAppend(a: seq<RpcLog>, b: seq<RpcLog>, standard: TokenStandard, timestamps: nat -> int)
    ensures DecodeAll(a + b, standard, timestamps)
            == Joined(DecodeAll(a, standard, timestamps), DecodeAll(b, standard, timestamps))
  {
    var f := Decoder(standard, timestamps);
    MappedAppend(f, a, b);
    JoinAllAppend(Mapped(f, a), Mapped(f, b));
  }

  lemma DecodeAllOne(log: RpcLog, standard: TokenStandard, timestamps: nat -> int)
    ensures DecodeAll([log], standard, timestamps) == ToLedgerLogs(log, standard, timestamps)
  {
    JoinOne(Mapped(Decoder(standard, timestamps), [log]));
  }

  /** One log more. */
  lemma DecodeNext(logs: seq<RpcLog>, n: nat, standard: TokenStandard, timestamps: nat -> int)
    requires n < |logs|
    ensures DecodeAll(logs[..n + 1], standard, timestamps)
            == Joined(DecodeAll(logs[..n], standard, timestamps), ToLedgerLogs(logs[n], standard, timestamps))
  {
    DecodeAllOne(logs[n], standard, timestamps);
    DecodeAllAppend(logs[..n], [logs[n]], standard, timestamps);
    assert logs[..n] + [logs[n]] == logs[..n + 1];
  }

  /** A log that does not decode spoils the whole list. */
  lemma DecodeSpoiled(logs: seq<RpcLog>, n: nat, standard: TokenStandard, timestamps: nat -> int)
    requires n <= |logs| && DecodeAll(logs[..n], standard, timestamps) == Err
    ensures DecodeAll(logs, standard, timestamps) == Err
  {
    DecodeAllAppend(logs[..n], logs[n..], standard, timestamps);
    assert logs[..n] + logs[n..] == logs;
  }

  method DecodeLogs(logs: seq<RpcLog>, standard: TokenStandard, timestamps: nat -> int)
    returns (r: Result<seq<B.DecodedLog>>)
    ensures r == DecodeAll(logs, standard, timestamps)
  {
    var decoded: seq<B.DecodedLog> := [];
    for n := 0 to |logs|
      invariant DecodeAll(logs[..n], standard, timestamps) == Ok(decoded)
    {
      var next := ToLedgerLogs(logs[n], standard, timestamps);
      DecodeNext(logs, n, standard, timestamps);
      if next == Err {
        DecodeSpoiled(logs, n + 1, standard, timestamps);
        return Err;
      }
      decoded := decoded + next.value;
    }
    assert logs[..|logs|] == logs;
    return Ok(decoded);
  }

  /** What the whole range adds to the ledger when it is fetched by one request. */
  function RangeItems(history: History, source: B.Source, standard: TokenStandard, timestamps: nat -> int, from: nat,
                      to: int)
    : Result<seq<L.Item>>
  {
    var decoded :- DecodeAll(RpcLogs(history, standard, from, to), standard, timestamps);
    Ok(B.BatchItems(source, decoded))
  }

  // ---------------------------------------------------------------- the standard of a range

  /** The standard under which the range is ingested. */
  ghost predicate Resolves(history: History, configured: TokenStandard, from: nat, to: int, size: int,
                           standard: TokenStandard) {
    if configured != Auto then standard == configured
    else exists chunk, k :: IsFirstActive(history, chunk, k, from, to, size)
                            && Unanimous(RpcLogs(history, Auto, chunk.from, chunk.to), standard)
  }

  lemma LaterChunk(a: Chunk, j: nat, b: Chunk, k: nat, from: nat, to: int, size: int)
    requires IsChunkAt(a, j, from, to, size) && IsChunkAt(b, k, from, to, size) && size > 0
    ensures j < k ==> a.to < b.from
    ensures from <= a.from
  {
    if j < k {
      ProductsOrdered(j + 1, k, size);
    }
  }

  /** Chunks inside a range without logs hold none. */
  lemma QuietPart(history: History, from: nat, to: int, chunk: Chunk)
    requires RpcLogs(history, Auto, from, to) == [] && from <= chunk.from <= chunk.to <= to
    ensures RpcLogs(history, Auto, chunk.from, chunk.to) == []
  {
    EmptyExtends(history, from, chunk.from - 1, to);
    EmptyExtends(history, chunk.from, chunk.to, to);
  }

  lemma FirstActiveUnique(history: History, a: Chunk, j: nat, b: Chunk, k: nat, from: nat, to: int, size: int)
    requires IsFirstActive(history, a, j, from, to, size) && IsFirstActive(history, b, k, from, to, size)
    ensures a == b
  {
    LaterChunk(a, j, b, k, from, to, size);
    LaterChunk(b, k, a, j, from, to, size);
    if j < k {
      QuietPart(history, from, b.from - 1, a);
    } else if k < j {
      QuietPart(history, from, a.from - 1, b);
    }
  }

  lemma UnanimousUnique(logs: seq<RpcLog>, s: TokenStandard, t: TokenStandard)
    requires Unanimous(logs, s) && Unanimous(logs, t)
    ensures s == t
  {
    var i :| 0 <= i < |logs| && Shows(logs[i], s);
    assert IsQuiet(logs[i]) || Shows(logs[i], t);
  }

  lemma ResolvesUnique(history: History, configured: TokenStandard, from: nat, to: int, size: int, s: TokenStandard,
                       t: TokenStandard)
    requires Resolves(history, configured, from, to, size, s) && Resolves(history, configured, from, to, size, t)
    ensures s == t
  {
    if configured == Auto {
      var a, j :| IsFirstActive(history, a, j, from, to, size) && Unanimous(RpcLogs(history, Auto, a.from, a.to), s);
      var b, k :| IsFirstActive(history, b, k, from, to, size) && Unanimous(RpcLogs(history, Auto, b.from, b.to), t);
      FirstActiveUnique(history, a, j, b, k, from, to, size);
      UnanimousUnique(RpcLogs(history, Auto, a.from, a.to), s, t);
    }
  }

  /** A chunk that the caller prefetched is genuine; with auto-detection it is not used. */
  ghost predicate IsTrusted(history: History, configured: TokenStandard, prefetched: Option<PrefetchedLogChunk>) {
    configured != Auto ==> IsGenuine(history, configured, prefetched)
  }

  method ResolveStandard(history: History, configured: TokenStandard, from: U64, to: U64, size: U64,
                         prefetched: Option<PrefetchedLogChunk>)
    returns (r: Result<(TokenStandard, Option<PrefetchedLogChunk>)>)
    requires from <= to && size > 0
    ensures r.Ok? ==> Resolves(history, configured, from, to, size, r.value.0)
    ensures r.Ok? && IsTrusted(history, configured, prefetched) ==> IsGenuine(history, r.value.0, r.value.1)
    ensures r == Err ==> forall standard :: !Resolves(history, configured, from, to, size, standard)
  {
    if configured != Auto {
      return Ok((configured, prefetched));
    }
    var d, first, k := DetectTokenStandardWithPrefetchedLogs(history, from, to, size);
    if d == Err {
      forall standard ensures !Resolves(history, configured, from, to, size, standard) {
        if Resolves(history, configured, from, to, size, standard) {
          Undetected(history, from, to, size, first, k, standard);
        }
      }
      return Err;
    }
    PrefetchedIsGenuine(history, d.value.standard, first.from, first.to);
    return Ok((d.value.standard, Some(d.value.prefetched)));
  }

  lemma Undetected(history: History, from: nat, to: int, size: int, first: Chunk, k: nat, standard: TokenStandard)
    requires from <= to && size > 0
    requires RpcLogs(history, Auto, from, to) != [] ==>
               IsFirstActive(history, first, k, from, to, size)
               && !exists s :: Unanimous(RpcLogs(history, Auto, first.from, first.to), s)
    ensures !Resolves(history, Auto, from, to, size, standard)
  {
    if Resolves(history, Auto, from, to, size, standard) {
      var b, j :| IsFirstActive(history, b, j, from, to, size)
          && Unanimous(RpcLogs(history, Auto, b.from, b.to), standard);
      LaterChunk(b, j, b, j, from, to, size);
      RpcLogsSplit(history, Auto, from, b.from - 1, to);
      RpcLogsSplit(history, Auto, b.from, b.to, to);
      FirstActiveUnique(history, first, k, b, j, from, to, size);
      assert false;
    }
  }

  // ---------------------------------------------------------------- ingestion

  /** Whatever the chunk size and whatever genuine chunk was prefetched, ingestion persists the rows of the whole
      range under the resolved standard in one transaction, and otherwise changes nothing. */
  method IngestSourceRange(repository: R.LedgerRepository, source: B.Source, configured: TokenStandard,
                           history: History, timestamps: nat -> int, from: U64, to: U64, size: U64,
                           prefetched: Option<PrefetchedLogChunk>, restore: bool)
    returns (r: Result<nat>)
    modifies repository`rows, repository`balances
    ensures r == Err ==> repository.Contents() == old(repository.Contents())
    ensures r.Ok? ==> from <= to && size > 0
    ensures r.Ok? ==> exists standard :: Resolves(history, configured, from, to, size, standard)
    ensures from <= to && size > 0 && IsTrusted(history, configured, prefetched) ==>
              forall standard :: Resolves(history, configured, from, to, size, standard) ==>
              var items := RangeItems(history, source, standard, timestamps, from, to);
              && (r.Ok? <==> items.Ok? && L.PersistAll(old(repository.Contents()), items.value, restore).Some?)
              && (r.Ok? ==>
                  L.PersistAll(old(repository.Contents()), items.value, restore) == Some(repository.Contents()))
              && (r.Ok? ==> r.value == |items.value|)
    ensures L.Consistent(old(repository.Contents())) ==> L.Consistent(repository.Contents())
  {
    if from > to {
      return Err;
    }
    if size == 0 {
      return Err;
    }
    var resolved := ResolveStandard(history, configured, from, to, size, prefetched);
    if resolved == Err {
      return Err;
    }
    var standard := resolved.value.0;
    forall s | Resolves(history, configured, from, to, size, s) ensures s == standard {
      ResolvesUnique(history, configured, from, to, size, s, standard);
    }
    var logs, chunks, requests := FetchLogsInChunks(history, standard, from, to, size, resolved.value.1);
    var decoded := DecodeLogs(logs.value, standard, timestamps);
    if decoded == Err {
      return Err;
    }
    B.BatchItemsCount(source, decoded.value);
    r := repository.PersistDecodedLogs(source, decoded.value, restore);
  }

  // ---------------------------------------------------------------- chunk sizes

  lemma WholeChunk(chunk: Chunk, k: nat, from: nat, to: int, size: int)
    requires IsChunkAt(chunk, k, from, to, size) && size > to - from >= 0
    ensures chunk.from == from && chunk.to == to
  {
    if k > 0 {
      ProductsOrdered(1, k, size);
    }
  }

  /** The first chunk with logs exists as soon as the range has any. */
  lemma {:induction false} FirstActiveExists(history: History, from: U64, to: U64, size: int, k: nat, start: U64)
    requires size > 0 && start == from + k * size && start <= to
    requires RpcLogs(history, Auto, from, to) != [] && RpcLogs(history, Auto, from, start - 1) == []
    ensures exists chunk, j :: IsFirstActive(history, chunk, j, from, to, size)
    decreases 1 + to - start
  {
    var end: U64 := Min(start + size - 1, to);
    LaterStart(k, size);
    if RpcLogs(history, Auto, start, end) != [] {
      assert IsFirstActive(history, Chunk(start, end), k, from, to, size);
    } else {
      EmptyExtends(history, from, start - 1, end);
      FirstActiveExists(history, from, to, size, k + 1, end + 1);
    }
  }

  lemma {:induction false} UnanimousPart(logs: seq<RpcLog>, before: seq<RpcLog>, part: seq<RpcLog>, after: seq<RpcLog>,
                                         standard: TokenStandard)
    requires logs == before + part + after && part != []
    requires Unanimous(logs, standard) && forall i :: 0 <= i < |part| ==> !IsQuiet(part[i])
    ensures Unanimous(part, standard)
  {
    forall i | 0 <= i < |part| ensures Shows(part[i], standard) {
      assert part[i] == logs[|before| + i];
    }
    assert Shows(part[0], standard);
  }

  lemma ChunkIsPart(history: History, from: nat, to: int, chunk: Chunk)
    returns (before: seq<RpcLog>, after: seq<RpcLog>)
    requires from <= chunk.from <= chunk.to <= to
    ensures RpcLogs(history, Auto, from, to) == before + RpcLogs(history, Auto, chunk.from, chunk.to) + after
  {
    before, after := RpcLogs(history, Auto, from, chunk.from - 1), RpcLogs(history, Auto, chunk.to + 1, to);
    RpcLogsSplit(history, Auto, from, chunk.to, to);
    RpcLogsSplit(history, Auto, from, chunk.from - 1, chunk.to);
  }

  lemma UnanimousResolves(history: History, from: U64, to: U64, size: int, standard: TokenStandard)
    requires size > 0 && Unanimous(RpcLogs(history, Auto, from, to), standard)
    ensures Resolves(history, Auto, from, to, size, standard)
  {
    assert RpcLogs(history, Auto, from, to) != [];
    FirstActiveExists(history, from, to, size, 0, from);
    var chunk, k :| IsFirstActive(history, chunk, k, from, to, size);
    LaterChunk(chunk, k, chunk, k, from, to, size);
    var before, after := ChunkIsPart(history, from, to, chunk);
    AutoLogsSpeak(history, chunk.from, chunk.to);
    UnanimousPart(RpcLogs(history, Auto, from, to), before, RpcLogs(history, Auto, chunk.from, chunk.to), after,
                  standard);
  }

  /** Auto-detection finds a standard at every chunk size exactly when all logs of the range, taken
      together, show that standard. */
  lemma ChunkSizeIrrelevant(history: History, from: U64, to: U64, standard: TokenStandard)
    requires from <= to
    ensures (forall size :: size > 0 ==> Resolves(history, Auto, from, to, size, standard))
       <==> Unanimous(RpcLogs(history, Auto, from, to), standard)
  {
    if forall size :: size > 0 ==> Resolves(history, Auto, from, to, size, standard) {
      var size := 1 + to - from;
      assert Resolves(history, Auto, from, to, size, standard);
      var chunk, k :| IsFirstActive(history, chunk, k, from, to, size)
                      && Unanimous(RpcLogs(history, Auto, chunk.from, chunk.to), standard);
      WholeChunk(chunk, k, from, to, size);
    }
    if Unanimous(RpcLogs(history, Auto, from, to), standard) {
      forall size | size > 0 ensures Resolves(history, Auto, from, to, size, standard) {
        UnanimousResolves(history, from, to, size, standard);
      }
    }
  }

  // ---------------------------------------------------------------- splitting a range

  lemma {:induction false} BatchItemsAppend(source: B.Source, a: seq<B.DecodedLog>, b: seq<B.DecodedLog>)
    ensures B.BatchItems(source, a + b) == B.BatchItems(source, a) + B.BatchItems(source, b)
    decreases |b|
  {
    if b == [] {
      assert a + b == a;
    } else {
      var n := |b| - 1;
      assert (a + b)[..|a + b| - 1] == a + b[..n];
      BatchItemsAppend(source, a, b[..n]);
    }
  }

  lemma RangeItemsSplit(history: History, source: B.Source, standard: TokenStandard, timestamps: nat -> int,
                        from: nat, middle: int, to: int)
    requires from <= middle + 1 && middle <= to
    ensures RangeItems(history, source, standard, timestamps, from, to)
         == Joined(RangeItems(history, source, standard, timestamps, from, middle),
                   RangeItems(history, source, standard, timestamps, middle + 1, to))
  {
    var a, b := RpcLogs(history, standard, from, middle), RpcLogs(history, standard, middle + 1, to);
    RpcLogsSplit(history, standard, from, middle, to);
    DecodeAllAppend(a, b, standard, timestamps);
    var x, y := DecodeAll(a, standard, timestamps), DecodeAll(b, standard, timestamps);
    if x.Ok? && y.Ok? {
      BatchItemsAppend(source, x.value, y.value);
    }
  }

  type RangeFunction<!X> = (int, int) -> Result<seq<X>>

  ghost predicate Adds<X>(f: RangeFunction<X>, from: int, middle: int, to: int) {
    f(from, to) == Joined(f(from, middle), f(middle + 1, to))
  }

  /** Splitting a range anywhere splits what it yields. */
  ghost predicate IsAdditive<X(!new)>(f: RangeFunction<X>) {
    forall from, middle, to :: 0 <= from <= middle + 1 && middle <= to ==> Adds(f, from, middle, to)
  }

  ghost function PerChunk<X>(f: RangeFunction<X>, chunks: seq<Chunk>): seq<Result<seq<X>>> {
    seq(|chunks|, i requires 0 <= i < |chunks| => f(chunks[i].from, chunks[i].to))
  }

  lemma {:induction false} TiledParts<X(!new)>(f: RangeFunction<X>, chunks: seq<Chunk>, from: U64, to: U64, size: int)
    requires IsAdditive(f) && IsTiling(chunks, from, to, size)
    ensures JoinAll(PerChunk(f, chunks)) == f(from, to)
    decreases |chunks|
  {
    var n := |chunks| - 1;
    var results := PerChunk(f, chunks);
    if n == 0 {
      JoinOne(results);
    } else {
      var init := chunks[..n];
      var middle := TilingInit(chunks, from, to, size);
      assert Adds(f, from, middle, to);
      TiledParts(f, init, from, middle, size);
      assert results[..n] == PerChunk(f, init);
    }
  }

  lemma {:induction false} BlockParts(f: RangeFunction<L.Item>, env: P.Env, source: SourceId, from: nat, to: int)
    requires IsAdditive(f) && f(from, from - 1) == Ok([]) && from <= to + 1 && f(from, to).Ok?
    requires forall block: nat :: from <= block <= to && f(block, block).Ok? ==>
               env.blockItems(source, block) == f(block, block).value
    ensures P.RangeItems(env, source, from, to) == f(from, to).value
    decreases 1 + to - from
  {
    if to < from {
    } else {
      assert Adds(f, from, to - 1, to);
      BlockParts(f, env, source, from, to - 1);
      assert f(to, to).Ok?;
    }
  }

  ghost function Ranges(history: History, source: B.Source, standard: TokenStandard,
                        timestamps: nat -> int): RangeFunction<L.Item> {
    (from, to) => if from < 0 then Err else RangeItems(history, source, standard, timestamps, from, to)
  }

  lemma RangesAdditive(history: History, source: B.Source, standard: TokenStandard, timestamps: nat -> int)
    ensures IsAdditive(Ranges(history, source, standard, timestamps))
  {
    var f := Ranges(history, source, standard, timestamps);
    forall from, middle, to | 0 <= from <= middle + 1 && middle <= to ensures Adds(f, from, middle, to) {
      RangeItemsSplit(history, source, standard, timestamps, from, middle, to);
    }
  }

  function Values(results: seq<Result<seq<L.Item>>>): seq<seq<L.Item>> {
    seq(|results|, i requires 0 <= i < |results| => if results[i].Ok? then results[i].value else [])
  }

  lemma {:induction false} JoinedValues(results: seq<Result<seq<L.Item>>>)
    ensures JoinAll(results).Ok? <==> forall i :: 0 <= i < |results| ==> results[i].Ok?
    ensures JoinAll(results).Ok? ==> JoinAll(results).value == T.Concat(Values(results))
    decreases |results|
  {
    if results == [] {
    } else {
      var n := |results| - 1;
      JoinedValues(results[..n]);
      assert Values(results)[..n] == Values(results[..n]);
      assert (forall i :: 0 <= i < n ==> results[i].Ok?) <==> (forall i :: 0 <= i < n ==> results[..n][i].Ok?);
    }
  }

  /** Splitting a range into ingest jobs of any size is irrelevant: the jobs decode exactly when one
      job for the whole range would and, run in order, they commit exactly when it would and leave
      the same ledger. */
  lemma JobSizeIrrelevant(db: L.Db, history: History, source: B.Source, standard: TokenStandard, timestamps: nat -> int,
                          chunks: seq<Chunk>, from: U64, to: U64, size: int, restore: bool)
    requires IsTiling(chunks, from, to, size)
    ensures var whole := RangeItems(history, source, standard, timestamps, from, to);
            var parts := PerChunk(Ranges(history, source, standard, timestamps), chunks);
            && (whole.Ok? <==> forall i :: 0 <= i < |parts| ==> parts[i].Ok?)
            && (whole.Ok? ==> T.PersistBatches(db, Values(parts), restore) == L.PersistAll(db, whole.value, restore))
  {
    var f := Ranges(history, source, standard, timestamps);
    RangesAdditive(history, source, standard, timestamps);
    TiledParts(f, chunks, from, to, size);
    JoinedValues(PerChunk(f, chunks));
    T.ChunkingIrrelevant(db, Values(PerChunk(f, chunks)), restore);
  }

  /** The canonical rows of the protocol model are what ingestion fetches and decodes. */
  lemma CanonicalRows(env: P.Env, history: History, source: B.Source, standard: TokenStandard, timestamps: nat -> int,
                      from: nat, to: int)
    requires from <= to + 1 && RangeItems(history, source, standard, timestamps, from, to).Ok?
    requires forall block: nat ::
               from <= block <= to && RangeItems(history, source, standard, timestamps, block, block).Ok? ==>
                 env.blockItems(source.id, block)
                 == RangeItems(history, source, standard, timestamps, block, block).value
    ensures P.RangeItems(env, source.id, from, to) == RangeItems(history, source, standard, timestamps, from, to).value
  {
    RangesAdditive(history, source, standard, timestamps);
    BlockParts(Ranges(history, source, standard, timestamps), env, source.id, from, to);
  }
}
