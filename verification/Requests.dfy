/** What a range request returns and what ingesting it stores, stated on the logs that the contract
    emitted, requested or not. */
module Requests {
  import opened Wrappers
  import opened Domain
  import opened Evm
  import opened Numerals
  import opened Ingests
  import L = LedgerModel
  import T = LedgerTheorems
  import B = Batches

  // ---------------------------------------------------------------- no decodable log is lost

  /** Every log of the blocks from..to. */
  function AllLogs(history: History, from: int, to: int): seq<RpcLog>
    requires from >= 0
    decreases 1 + to - from
  {
    if to < from then [] else AllLogs(history, from, to - 1) + history(to)
  }

  /** A log is in the request for a standard exactly when the decoder of that standard reads it,
      even if only to reject it. */
  lemma RequestedIsRead(log: RpcLog, standard: TokenStandard)
    ensures Matching([log], standard) == [log] <==> DecodeLog(log, standard) != Ok(None)
    ensures Matching([log], standard) == [] <==> DecodeLog(log, standard) == Ok(None)
  {
    assert [log][..0] == [];
  }

  lemma DecodesOne(logs: seq<RpcLog>, standard: TokenStandard, timestamps: nat -> int)
    requires logs != []
    ensures var n := |logs| - 1;
            DecodeAll(logs, standard, timestamps)
            == Joined(DecodeAll(logs[..n], standard, timestamps), ToLedgerLogs(logs[n], standard, timestamps))
  {
    DecodeNext(logs, |logs| - 1, standard, timestamps);
    assert logs[..|logs| - 1 + 1] == logs;
  }

  lemma JoinedNothing<X>(a: Result<seq<X>>)
    ensures Joined(a, Ok([])) == a
  {
    assert a.Ok? ==> a.value + [] == a.value;
  }

  lemma {:induction false} MatchingDecodes(logs: seq<RpcLog>, standard: TokenStandard, timestamps: nat -> int)
    ensures DecodeAll(Matching(logs, standard), standard, timestamps) == DecodeAll(logs, standard, timestamps)
    decreases |logs|
  {
    if logs == [] {
    } else {
      var init, last := logs[..|logs| - 1], logs[|logs| - 1];
      MatchingDecodes(init, standard, timestamps);
      DecodesOne(logs, standard, timestamps);
      RequestedIsRead(last, standard);
      assert [last][..0] == [];
      if DecodeLog(last, standard) == Ok(None) {
        JoinedNothing(DecodeAll(init, standard, timestamps));
        assert Matching(logs, standard) == Matching(init, standard);
      } else {
        var kept := Matching(logs, standard);
        assert kept[..|kept| - 1] == Matching(init, standard) && kept[|kept| - 1] == last;
        DecodesOne(kept, standard, timestamps);
      }
    }
  }

  /** A range request loses nothing: the logs it returns decode to what all the logs of the range
      decode to. */
  lemma {:induction false} RequestComplete(history: History, standard: TokenStandard, timestamps: nat -> int,
                                           from: nat, to: int)
    ensures DecodeAll(RpcLogs(history, standard, from, to), standard, timestamps)
         == DecodeAll(AllLogs(history, from, to), standard, timestamps)
    decreases 1 + to - from
  {
    if to < from {
    } else {
      RequestComplete(history, standard, timestamps, from, to - 1);
      MatchingDecodes(history(to), standard, timestamps);
      DecodeAllAppend(RpcLogs(history, standard, from, to - 1), Matching(history(to), standard), standard, timestamps);
      DecodeAllAppend(AllLogs(history, from, to - 1), history(to), standard, timestamps);
    }
  }

  // ---------------------------------------------------------------- which rows a range holds

  /** The log decodes, and the amounts of its entries are numerals. */
  predicate IsReadable(log: RpcLog, standard: TokenStandard) {
    && DecodeLog(log, standard).Ok?
    && (DecodeLog(log, standard).value.Some? ==>
          forall part :: part in DecodeLog(log, standard).value.value ==> Value(part.amount, 10).Some?)
  }

  /** The item is what one decoded part of the log asks for: its key and row, field by field. */
  predicate IsPart(item: L.Item, source: B.Source, log: RpcLog, part: DecodedEntry, timestamps: nat -> int) {
    && item.key == L.Key(source.chain, log.transactionHash, log.logIndex, part.batchIndex)
    && Value(part.amount, 10) == Some(item.row.amount)
    && item.row.source == source.id && item.row.token == part.token && !item.row.orphaned
    && item.row.from == (if part.from == L.ZERO_ADDRESS then None else Some(part.from))
    && item.row.to == (if part.to == L.ZERO_ADDRESS then None else Some(part.to))
    && item.row.block == log.block
    && item.row.meta == L.Metadata(log.blockHash, Some(timestamps(log.block)), log.transactionIndex)
  }

  ghost predicate IsLogItem(item: L.Item, source: B.Source, log: RpcLog, standard: TokenStandard,
                            timestamps: nat -> int) {
    DecodeLog(log, standard).Ok? && DecodeLog(log, standard).value.Some?
    && exists part :: part in DecodeLog(log, standard).value.value && IsPart(item, source, log, part, timestamps)
  }

  lemma {:induction false} EntriesReadable(parts: seq<DecodedEntry>)
    ensures ToEntries(parts).Ok? <==> forall part :: part in parts ==> Value(part.amount, 10).Some?
    ensures ToEntries(parts).Ok? ==>
              |ToEntries(parts).value| == |parts|
              && forall j :: 0 <= j < |parts| ==> ToEntry(parts[j]) == Ok(ToEntries(parts).value[j])
    decreases |parts|
  {
    if parts == [] {
    } else {
      var n := |parts| - 1;
      EntriesReadable(parts[..n]);
      assert parts == parts[..n] + [parts[n]];
    }
  }

  lemma LogReadable(log: RpcLog, standard: TokenStandard, timestamps: nat -> int)
    ensures ToLedgerLogs(log, standard, timestamps).Ok? <==> IsReadable(log, standard)
  {
    if DecodeLog(log, standard).Ok? && DecodeLog(log, standard).value.Some? {
      EntriesReadable(DecodeLog(log, standard).value.value);
    }
  }

  lemma EntryIsPart(source: B.Source, log: RpcLog, decoded: B.DecodedLog, part: DecodedEntry, timestamps: nat -> int,
                    item: L.Item)
    requires ToEntry(part).Ok?
    requires decoded.(entries := []) == B.DecodedLog(log.transactionHash, log.logIndex, log.block,
                                                     L.Metadata(log.blockHash, Some(timestamps(log.block)),
                                                                log.transactionIndex), [])
    ensures IsPart(item, source, log, part, timestamps) <==> item == B.ItemOf(source, decoded, ToEntry(part).value)
  {
  }

  /** The items of one decoded log with the given parts. */
  lemma PartItems(source: B.Source, log: RpcLog, decoded: B.DecodedLog, parts: seq<DecodedEntry>,
                  timestamps: nat -> int, item: L.Item)
    requires ToEntries(parts) == Ok(decoded.entries)
    requires decoded.(entries := []) == B.DecodedLog(log.transactionHash, log.logIndex, log.block,
                                                     L.Metadata(log.blockHash, Some(timestamps(log.block)),
                                                                log.transactionIndex), [])
    ensures item in B.LogItems(source, decoded, |decoded.entries|)
            <==> exists part :: part in parts && IsPart(item, source, log, part, timestamps)
  {
    EntriesReadable(parts);
    var items := B.LogItems(source, decoded, |decoded.entries|);
    forall j | 0 <= j < |parts| ensures IsPart(item, source, log, parts[j], timestamps) <==> item == items[j] {
      EntryIsPart(source, log, decoded, parts[j], timestamps, item);
    }
    if j :| 0 <= j < |items| && items[j] == item {
      assert parts[j] in parts;
    }
    if part :| part in parts && IsPart(item, source, log, part, timestamps) {
      var j :| 0 <= j < |parts| && parts[j] == part;
      assert items[j] in items;
    }
  }

  lemma OneLog(source: B.Source, decoded: B.DecodedLog)
    ensures B.BatchItems(source, [decoded]) == B.LogItems(source, decoded, |decoded.entries|)
  {
    assert [decoded][..0] == [];
    assert [] + B.LogItems(source, decoded, |decoded.entries|) == B.LogItems(source, decoded, |decoded.entries|);
  }

  lemma LogItemsExact(source: B.Source, log: RpcLog, standard: TokenStandard, timestamps: nat -> int, item: L.Item)
    requires ToLedgerLogs(log, standard, timestamps).Ok?
    ensures item in B.BatchItems(source, ToLedgerLogs(log, standard, timestamps).value)
            <==> IsLogItem(item, source, log, standard, timestamps)
  {
    if DecodeLog(log, standard).value.Some? {
      var decoded := ToLedgerLogs(log, standard, timestamps).value[0];
      OneLog(source, decoded);
      PartItems(source, log, decoded, DecodeLog(log, standard).value.value, timestamps, item);
    }
  }

  /** The items of decoded logs come from those logs and from no others. */
  lemma {:induction false} DecodedItemsExact(source: B.Source, logs: seq<RpcLog>, standard: TokenStandard,
                                             timestamps: nat -> int)
    ensures DecodeAll(logs, standard, timestamps).Ok? <==> forall log :: log in logs ==> IsReadable(log, standard)
    ensures DecodeAll(logs, standard, timestamps).Ok? ==>
              forall item :: item in B.BatchItems(source, DecodeAll(logs, standard, timestamps).value)
                             <==> exists log :: log in logs && IsLogItem(item, source, log, standard, timestamps)
    decreases |logs|
  {
    if logs == [] {
    } else {
      var init, last := logs[..|logs| - 1], logs[|logs| - 1];
      assert logs == init + [last];
      DecodedItemsExact(source, init, standard, timestamps);
      DecodesOne(logs, standard, timestamps);
      LogReadable(last, standard, timestamps);
      if DecodeAll(logs, standard, timestamps).Ok? {
        var a, b := DecodeAll(init, standard, timestamps).value, ToLedgerLogs(last, standard, timestamps).value;
        BatchItemsAppend(source, a, b);
        forall item
          ensures item in B.BatchItems(source, a + b)
                  <==> exists log :: log in logs && IsLogItem(item, source, log, standard, timestamps)
        {
          LogItemsExact(source, last, standard, timestamps, item);
        }
      }
    }
  }

  ghost predicate IsEmitted(history: History, from: int, to: int, log: RpcLog) {
    exists block: nat :: from <= block <= to && log in history(block)
  }

  lemma {:induction false} AllLogsExact(history: History, from: nat, to: int, log: RpcLog)
    ensures log in AllLogs(history, from, to) <==> IsEmitted(history, from, to, log)
    decreases 1 + to - from
  {
    if to < from {
    } else {
      AllLogsExact(history, from, to - 1, log);
      if block: nat :| from <= block <= to && log in history(block) {
        assert block <= to - 1 ==> IsEmitted(history, from, to - 1, log);
      }
    }
  }

  /** What a range holds: it decodes exactly when every log that the contract emitted in it does, and
      its rows are exactly those that the entries of these logs ask for. */
  lemma RangeItemsExact(history: History, source: B.Source, standard: TokenStandard, timestamps: nat -> int,
                        from: nat, to: int)
    ensures RangeItems(history, source, standard, timestamps, from, to).Ok?
            <==> forall log :: IsEmitted(history, from, to, log) ==> IsReadable(log, standard)
    ensures RangeItems(history, source, standard, timestamps, from, to).Ok? ==>
              forall item :: item in RangeItems(history, source, standard, timestamps, from, to).value
                             <==> exists log :: IsEmitted(history, from, to, log)
                                                && IsLogItem(item, source, log, standard, timestamps)
  {
    RequestComplete(history, standard, timestamps, from, to);
    DecodedItemsExact(source, AllLogs(history, from, to), standard, timestamps);
    forall log ensures log in AllLogs(history, from, to) <==> IsEmitted(history, from, to, log) {
      AllLogsExact(history, from, to, log);
    }
  }

  lemma RowsAreItems(items: seq<L.Item>, restore: bool, k: L.Key, row: L.FreshRow)
    requires T.DistinctKeys(items)
    ensures L.Stored(L.RowsAfter(map[], items, restore), k) == Some(row) <==> L.Item(k, row) in items
    ensures L.Stored(L.RowsAfter(map[], items, restore), k).Some? ==>
              !L.RowsAfter(map[], items, restore)[k].orphaned
  {
    if i :| 0 <= i < |items| && items[i].key == k {
      T.RowsAfterAt(map[], items, restore, i);
      if j :| 0 <= j < |items| && items[j] == L.Item(k, row) {
        assert j < i || i < j || i == j;
      }
    } else {
      T.RowsAfterOther(map[], items, restore, k);
    }
  }

  /** Ingesting a range into an empty ledger stores a row exactly when an entry of a log emitted in
      the range asks for it, and nothing else. */
  lemma IngestedExactly(history: History, source: B.Source, standard: TokenStandard, timestamps: nat -> int,
                        from: nat, to: int, restore: bool, k: L.Key, row: L.FreshRow)
    requires RangeItems(history, source, standard, timestamps, from, to).Ok?
    requires var items := RangeItems(history, source, standard, timestamps, from, to).value;
             T.DistinctKeys(items) && L.PersistAll(L.Db(map[], map[]), items, restore).Some?
    ensures var items := RangeItems(history, source, standard, timestamps, from, to).value;
            var rows := L.PersistAll(L.Db(map[], map[]), items, restore).value.rows;
            && (k in rows ==> !rows[k].orphaned)
            && (k in rows && rows[k] == row
                <==> exists log :: IsEmitted(history, from, to, log)
                                   && IsLogItem(L.Item(k, row), source, log, standard, timestamps))
  {
    var items := RangeItems(history, source, standard, timestamps, from, to).value;
    L.EmptyConsistent();
    L.PersistExact(L.Db(map[], map[]), items, restore);
    RowsAreItems(items, restore, k, row);
    RangeItemsExact(history, source, standard, timestamps, from, to);
  }

  /** The zero address of mints and burns is the one that a topic of zeros holds. */
  lemma ZeroTopic(topic: string)
    requires |topic| == 66 && HasHexPrefix(topic) && forall i :: 2 <= i < 66 ==> topic[i] == '0'
    ensures TopicAddress(topic) == Ok(L.ZERO_ADDRESS) && L.NonZeroAddress(TopicAddress(topic).value) == None
  {
    var digits := topic[2..];
    var raw := "0x" + digits[24..64];
    forall i | 0 <= i < 42 ensures raw[i] == L.ZERO_ADDRESS[i] && LowerChar(raw[i]) == raw[i] {
      assert i >= 2 ==> raw[i] == digits[24..64][i - 2] == digits[22 + i] == topic[24 + i];
    }
    assert Lower(raw) == raw == L.ZERO_ADDRESS;
  }
}
