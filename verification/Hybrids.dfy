/** A contract that emits logs of two standards, and what the chunk size makes of it. */
module Hybrids {
  import opened Wrappers
  import opened Evm
  import opened Numerals
  import opened Backfill
  import opened Ingests
  import L = LedgerModel
  import T = LedgerTheorems
  import B = Batches
  import R = LedgerRepositories

  const HOLDER: string := "0x1111111111111111111111111111111111111111"

  /** An ERC-20 mint of 5 units in block 0. */
  function MintLog(): RpcLog {
    RpcLog(Some(TransferTopic), [EncodeAddress(L.ZERO_ADDRESS), EncodeAddress(HOLDER)], "0x" + EncodeUint(5),
           0, "0xaa", Some(0), 0, "0xbb")
  }

  /** An ERC-1155 mint of 5 units of token 1 in block 1. */
  function SingleLog(): RpcLog {
    RpcLog(Some(TransferSingleTopic), [EncodeAddress(HOLDER), EncodeAddress(L.ZERO_ADDRESS), EncodeAddress(HOLDER)],
           "0x" + EncodeUint(1) + EncodeUint(5), 1, "0xcc", Some(0), 0, "0xdd")
  }

  function Hybrid(): History {
    block => if block == 0 then [MintLog()] else if block == 1 then [SingleLog()] else []
  }

  lemma AddressesNormalized()
    ensures IsNormalized(HOLDER) && IsNormalized(L.ZERO_ADDRESS)
  {
  }

  lemma MintDecodes()
    ensures DecodeLog(MintLog(), Erc20)
            == Ok(Some([DecodedEntry(Erc20, None, L.ZERO_ADDRESS, HOLDER, "", Print(5, 10), 0)]))
    ensures Shows(MintLog(), Erc20)
  {
    AddressesNormalized();
    Erc20RoundTrip(MintLog(), L.ZERO_ADDRESS, HOLDER, 5);
    OneWord(5);
  }

  lemma SingleDecodes()
    ensures DecodeLog(SingleLog(), Erc1155)
         == Ok(Some([DecodedEntry(Erc1155, Some(HOLDER), L.ZERO_ADDRESS, HOLDER, Print(1, 10), Print(5, 10), 0)]))
    ensures Shows(SingleLog(), Erc1155)
  {
    AddressesNormalized();
    SingleRoundTrip(SingleLog(), HOLDER, L.ZERO_ADDRESS, HOLDER, 1, 5);
  }

  // ---------------------------------------------------------------- which standard resolves

  lemma MatchingOne(log: RpcLog, standard: TokenStandard)
    ensures Matching([log], standard) == if IsSupported(log, standard) then [log] else []
  {
    assert [log][..0] == [];
  }

  lemma TwoBlocks(history: History, a: RpcLog, b: RpcLog, standard: TokenStandard)
    requires history(0) == [a] && history(1) == [b]
    ensures RpcLogs(history, standard, 0, 0) == if IsSupported(a, standard) then [a] else []
    ensures RpcLogs(history, standard, 0, 1)
         == (if IsSupported(a, standard) then [a] else []) + (if IsSupported(b, standard) then [b] else [])
  {
    MatchingOne(a, standard);
    MatchingOne(b, standard);
    assert RpcLogs(history, standard, 0, 0) == [] + Matching([a], standard);
  }

  /** With logs in the first chunk, that chunk decides. */
  lemma FirstChunkResolves(history: History, to: U64, size: U64, standard: TokenStandard)
    requires 0 < size <= to + 1 && RpcLogs(history, Auto, 0, size - 1) != []
    ensures Resolves(history, Auto, 0, to, size, standard) <==> Unanimous(RpcLogs(history, Auto, 0, size - 1), standard)
  {
    var first := Chunk(0, size - 1);
    assert IsFirstActive(history, first, 0, 0, to, size);
    if Resolves(history, Auto, 0, to, size, standard) {
      var chunk, k :| IsFirstActive(history, chunk, k, 0, to, size)
                      && Unanimous(RpcLogs(history, Auto, chunk.from, chunk.to), standard);
      FirstActiveUnique(history, first, 0, chunk, k, 0, to, size);
    }
  }

  lemma TwoStandards(a: RpcLog, b: RpcLog)
    requires Shows(a, Erc20) && Shows(b, Erc1155)
    ensures Unanimous([a], Erc20)
    ensures forall standard :: !Unanimous([a, b], standard)
  {
    assert Shows([a][0], Erc20);
    forall standard ensures !Unanimous([a, b], standard) {
      assert Shows([a, b][0], Erc20) && Shows([a, b][1], Erc1155);
    }
  }

  lemma TwoStandardsResolve(history: History, a: RpcLog, b: RpcLog)
    requires history(0) == [a] && history(1) == [b]
    requires Shows(a, Erc20) && Shows(b, Erc1155) && IsSupported(a, Auto) && IsSupported(b, Auto)
    ensures Resolves(history, Auto, 0, 1, 1, Erc20)
    ensures forall standard :: !Resolves(history, Auto, 0, 1, 2, standard)
  {
    TwoBlocks(history, a, b, Auto);
    assert RpcLogs(history, Auto, 0, 1) == [a, b];
    TwoStandards(a, b);
    FirstChunkResolves(history, 1, 1, Erc20);
    forall standard ensures !Resolves(history, Auto, 0, 1, 2, standard) {
      FirstChunkResolves(history, 1, 2, standard);
    }
  }

  lemma HybridResolves()
    ensures Resolves(Hybrid(), Auto, 0, 1, 1, Erc20)
    ensures forall standard :: !Resolves(Hybrid(), Auto, 0, 1, 2, standard)
  {
    MintDecodes();
    SingleDecodes();
    TwoStandardsResolve(Hybrid(), MintLog(), SingleLog());
  }

  // ---------------------------------------------------------------- what is ingested

  function MintItem(source: B.Source, timestamps: nat -> int): L.Item {
    L.Item(L.Key(source.chain, "0xaa", 0, 0),
           L.Row(source.id, None, Some(HOLDER), "", 5, 0, L.Metadata("0xbb", Some(timestamps(0)), Some(0)), false))
  }

  lemma MintLedgerLog(timestamps: nat -> int)
    ensures ToLedgerLogs(MintLog(), Erc20, timestamps)
         == Ok([B.DecodedLog("0xaa", 0, 0, L.Metadata("0xbb", Some(timestamps(0)), Some(0)),
                             [B.DecodedEntry(L.ZERO_ADDRESS, HOLDER, "", 5, 0)])])
  {
    MintDecodes();
    PrintRoundTrip(5, 10);
    OneEntry(DecodedEntry(Erc20, None, L.ZERO_ADDRESS, HOLDER, "", Print(5, 10), 0));
  }

  lemma OneEntry(entry: DecodedEntry)
    requires ToEntry(entry).Ok?
    ensures ToEntries([entry]) == Ok([ToEntry(entry).value])
  {
    var last := ToEntry(entry).value;
    assert [entry][..0] == [] && [] + [last] == [last];
  }

  lemma OneLogItems(source: B.Source, log: B.DecodedLog)
    requires |log.entries| == 1
    ensures B.BatchItems(source, [log]) == [B.ItemOf(source, log, log.entries[0])]
  {
    assert [log][..0] == [];
  }

  lemma HybridDecodes(source: B.Source, timestamps: nat -> int)
    ensures RangeItems(Hybrid(), source, Erc20, timestamps, 0, 1) == Ok([MintItem(source, timestamps)])
  {
    MintFetched();
    MintLedgerLog(timestamps);
    DecodeAllOne(MintLog(), Erc20, timestamps);
    var decoded := ToLedgerLogs(MintLog(), Erc20, timestamps).value;
    MintBatch(source, timestamps, decoded[0]);
    DecodedRange(Hybrid(), source, Erc20, timestamps, 0, 1, [MintLog()], decoded);
  }

  lemma MintFetched()
    ensures RpcLogs(Hybrid(), Erc20, 0, 1) == [MintLog()]
  {
    TwoBlocks(Hybrid(), MintLog(), SingleLog(), Erc20);
  }

  lemma DecodedRange(history: History, source: B.Source, standard: TokenStandard, timestamps: nat -> int, from: nat,
                     to: int, logs: seq<RpcLog>, decoded: seq<B.DecodedLog>)
    requires RpcLogs(history, standard, from, to) == logs && DecodeAll(logs, standard, timestamps) == Ok(decoded)
    ensures RangeItems(history, source, standard, timestamps, from, to) == Ok(B.BatchItems(source, decoded))
  {
  }

  lemma MintBatch(source: B.Source, timestamps: nat -> int, log: B.DecodedLog)
    requires log == B.DecodedLog("0xaa", 0, 0, L.Metadata("0xbb", Some(timestamps(0)), Some(0)),
                                 [B.DecodedEntry(L.ZERO_ADDRESS, HOLDER, "", 5, 0)])
    ensures B.BatchItems(source, [log]) == [MintItem(source, timestamps)]
  {
    OneLogItems(source, log);
  }

  /** Under ERC-20 the hybrid range holds the mint alone, and the ledger takes it. */
  lemma HybridItems(source: B.Source, timestamps: nat -> int, restore: bool)
    ensures RangeItems(Hybrid(), source, Erc20, timestamps, 0, 1) == Ok([MintItem(source, timestamps)])
    ensures L.PersistAll(L.Db(map[], map[]), [MintItem(source, timestamps)], restore).Some?
  {
    HybridDecodes(source, timestamps);
    MintCommits(MintItem(source, timestamps), restore);
  }

  lemma MintCommits(item: L.Item, restore: bool)
    requires item.row.from == None && item.row.to.Some?
    ensures L.PersistAll(L.Db(map[], map[]), [item], restore).Some?
  {
    var items := [item];
    forall i, slot | 0 <= i <= |items| ensures T.ItemsTotal(items[..i], slot) >= 0 {
      assert items[..0] == [] && items[..1] == items;
      assert T.ItemsTotal(items, slot) == L.Effect(item.row, slot);
    }
    T.InOrderComplete(items, restore);
  }

  /** Auto-detection ingests this contract with chunks of one block and refuses it with chunks of
      two, although the decoder accepts both its logs. */
  method HybridDependsOnChunkSize(source: B.Source, timestamps: nat -> int, restore: bool)
    returns (small: Result<nat>, large: Result<nat>)
    ensures small == Ok(1) && large == Err
    ensures DecodeLog(MintLog(), Erc20).Ok? && DecodeLog(SingleLog(), Erc1155).Ok?
  {
    MintDecodes();
    SingleDecodes();
    HybridResolves();
    HybridItems(source, timestamps, restore);
    var first := new R.LedgerRepository();
    small := IngestSourceRange(first, source, Auto, Hybrid(), timestamps, 0, 1, 1, None, restore);
    var second := new R.LedgerRepository();
    large := IngestSourceRange(second, source, Auto, Hybrid(), timestamps, 0, 1, 2, None, restore);
  }
}
