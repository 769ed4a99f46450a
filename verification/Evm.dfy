/** Decoding of ERC-20, ERC-721 and ERC-1155 transfer logs from their ABI form. */
module Evm {
  import opened Wrappers
  import opened Domain
  import opened Numerals

  /** A machine word of the supported platforms. */
  const USIZE_MAX: nat := U64_MAX

  /** A 32-byte word of event data: the number it holds, or None when it holds no number. Reading a
      word without a number is an error; carrying one is not. */
  type Word = Option<nat>

  datatype TokenStandard = Auto | Erc20 | Erc721 | Erc1155

  /** The event signature in topic 0. */
  datatype Topic = TransferTopic | TransferSingleTopic | TransferBatchTopic | OtherTopic

  /** `args` are the topics after topic 0. */
  datatype RpcLog = RpcLog(topic0: Option<Topic>, args: seq<string>, data: string, block: nat,
                           transactionHash: string, transactionIndex: Option<nat>, logIndex: nat, blockHash: string)

  datatype DecodedEntry = DecodedEntry(standard: TokenStandard, operator: Option<string>, from: string, to: string,
                                       token: string, amount: string, batchIndex: nat)

  function TopicCount(log: RpcLog): nat {
    if log.topic0 == None then 0 else 1 + |log.args|
  }

  function SupportedTopics(standard: TokenStandard): set<Topic> {
    match standard
    case Auto => {TransferTopic, TransferSingleTopic, TransferBatchTopic}
    case Erc20 => {TransferTopic}
    case Erc721 => {TransferTopic}
    case Erc1155 => {TransferSingleTopic, TransferBatchTopic}
  }

  // ---------------------------------------------------------------- words

  predicate HasHexPrefix(s: string) {
    |s| >= 2 && s[0] == '0' && (s[1] == 'x' || s[1] == 'X')
  }

  function Strip0x(s: string): Result<string> {
    if HasHexPrefix(s) then Ok(s[2..]) else Err
  }

  function StripOptional0x(s: string): string {
    if HasHexPrefix(s) then s[2..] else s
  }

  function WithoutUnderscores(s: string): string {
    if s == "" then "" else (if s[0] == '_' then "" else [s[0]]) + WithoutUnderscores(s[1..])
  }

  /** Big-integer parsing: one leading plus sign and underscores between digits are skipped. */
  function ParseHex(s: string): Option<nat> {
    var digits := if |s| > 0 && s[0] == '+' && !(|s| > 1 && s[1] == '+') then s[1..] else s;
    if digits == "" || digits[0] == '_' then None else Value(WithoutUnderscores(digits), 16)
  }

  /** The number in the 64 digits of a 32-byte word. */
  function WordValue(word: string): Word {
    var w := StripOptional0x(word);
    if |w| != 64 then None else ParseHex(w)
  }

  function DecodeWordAsDecimal(word: Word): Result<string> {
    match word
    case None => Err
    case Some(v) => Ok(Print(v, 10))
  }

  function WordDecimalAsUsize(word: Word): Result<nat> {
    var value :- DecodeWordAsDecimal(word);
    match Value(value, 10)
    case Some(v) => if v <= USIZE_MAX then Ok(v) else Err
    case None => Err
  }

  function DataWordCount(data: string): Result<nat> {
    var digits :- Strip0x(data);
    if |digits| % 64 != 0 then Err else Ok(|digits| / 64)
  }

  /** The words of 64 digits each. */
  function WordValues(digits: string): seq<Word>
    requires |digits| % 64 == 0
  {
    if digits == "" then [] else [WordValue(digits[..64])] + WordValues(digits[64..])
  }

  function DecodeDataWords(data: string): Result<seq<Word>> {
    var digits :- Strip0x(data);
    if |digits| % 64 != 0 then Err else Ok(WordValues(digits))
  }

  function WordAt(data: string, index: nat): Result<string> {
    var digits :- Strip0x(data);
    if |digits| < index * 64 + 64 then Err else Ok(digits[index * 64..index * 64 + 64])
  }

  function LowerChar(c: char): char {
    if 'A' <= c <= 'Z' then c - 'A' + 'a' else c
  }

  function Lower(s: string): string {
    seq(|s|, i requires 0 <= i < |s| => LowerChar(s[i]))
  }

  function TopicAddress(topic: string): Result<string> {
    var t :- Strip0x(topic);
    if |t| != 64 then Err else Ok(Lower("0x" + t[24..64]))
  }

  // ---------------------------------------------------------------- dynamic arrays

  /** Items `i..len` of the array whose length word is at `start`. */
  function DecodeItems(words: seq<Word>, start: nat, len: nat, i: nat): Result<seq<string>>
    requires i <= len
    decreases len - i
  {
    if i == len then Ok([])
    else if start + 1 + i >= |words| then Err
    else
      var first :- DecodeWordAsDecimal(words[start + 1 + i]);
      var rest :- DecodeItems(words, start, len, i + 1);
      Ok([first] + rest)
  }

  function DecodeDynamicUintArray(words: seq<Word>, offset: nat): Result<seq<string>> {
    if offset % 32 != 0 then Err
    else
      var start := offset / 32;
      if start >= |words| then Err
      else
        var len :- WordDecimalAsUsize(words[start]);
        DecodeItems(words, start, len, 0)
  }

  function BatchEntries(operator: string, from: string, to: string, ids: seq<string>,
                        amounts: seq<string>): seq<DecodedEntry>
    requires |ids| == |amounts|
  {
    seq(|ids|, i requires 0 <= i < |ids| => DecodedEntry(Erc1155, Some(operator), from, to, ids[i], amounts[i], i))
  }

  function DecodeTransferBatch(log: RpcLog): Result<seq<DecodedEntry>> {
    if TopicCount(log) != 4 then Err
    else
      var words :- DecodeDataWords(log.data);
      if |words| < 1 then Err
      else
        var idsOffset :- WordDecimalAsUsize(words[0]);
        if |words| < 2 then Err
        else
          var amountsOffset :- WordDecimalAsUsize(words[1]);
          var ids :- DecodeDynamicUintArray(words, idsOffset);
          var amounts :- DecodeDynamicUintArray(words, amountsOffset);
          if |ids| != |amounts| then Err
          else
            var operator :- TopicAddress(log.args[0]);
            var from :- TopicAddress(log.args[1]);
            var to :- TopicAddress(log.args[2]);
            Ok(BatchEntries(operator, from, to, ids, amounts))
  }

  function DecodeTransferSingle(log: RpcLog): Result<seq<DecodedEntry>> {
    if TopicCount(log) != 4 then Err
    else
      var idWord :- WordAt(log.data, 0);
      var token :- DecodeWordAsDecimal(WordValue(idWord));
      var amountWord :- WordAt(log.data, 1);
      var amount :- DecodeWordAsDecimal(WordValue(amountWord));
      var operator :- TopicAddress(log.args[0]);
      var from :- TopicAddress(log.args[1]);
      var to :- TopicAddress(log.args[2]);
      Ok([DecodedEntry(Erc1155, Some(operator), from, to, token, amount, 0)])
  }

  function DecodeErc20(log: RpcLog): Result<seq<DecodedEntry>> {
    if TopicCount(log) != 3 then Err
    else
      var word :- WordAt(log.data, 0);
      var amount :- DecodeWordAsDecimal(WordValue(word));
      var from :- TopicAddress(log.args[0]);
      var to :- TopicAddress(log.args[1]);
      Ok([DecodedEntry(Erc20, None, from, to, "", amount, 0)])
  }

  function DecodeErc721(log: RpcLog): Result<seq<DecodedEntry>> {
    if TopicCount(log) != 4 then Err
    else
      var from :- TopicAddress(log.args[0]);
      var to :- TopicAddress(log.args[1]);
      var idWord :- Strip0x(log.args[2]);
      var token :- DecodeWordAsDecimal(WordValue(idWord));
      Ok([DecodedEntry(Erc721, None, from, to, token, "1", 0)])
  }

  // ---------------------------------------------------------------- logs

  function DetectTokenStandardFromLog(log: RpcLog): Result<Option<TokenStandard>> {
    match log.topic0
    case Some(TransferSingleTopic) => Ok(Some(Erc1155))
    case Some(TransferBatchTopic) => Ok(Some(Erc1155))
    case Some(TransferTopic) =>
      var words :- DataWordCount(log.data);
      if TopicCount(log) == 4 && words == 0 then Ok(Some(Erc721))
      else if TopicCount(log) == 3 && words == 1 then Ok(Some(Erc20))
      else Err
    case _ => Ok(None)
  }

  /** A log that has the Transfer shape of the other standard is rejected. */
  function ValidateTransferShape(log: RpcLog, standard: TokenStandard): Result<()> {
    var shape :- DetectTokenStandardFromLog(log);
    if shape.Some? && shape.value != standard then Err else Ok(())
  }

  /** Decoding for a concrete standard: None when the log is not one of its events. */
  function DecodeAs(log: RpcLog, standard: TokenStandard): Result<Option<seq<DecodedEntry>>> {
    if log.topic0 == Some(TransferTopic) && (standard == Erc20 || standard == Erc721) then
      var _ :- ValidateTransferShape(log, standard);
      var entries :- if standard == Erc20 then DecodeErc20(log) else DecodeErc721(log);
      Ok(Some(entries))
    else if log.topic0 == Some(TransferSingleTopic) && standard == Erc1155 then
      var entries :- DecodeTransferSingle(log);
      Ok(Some(entries))
    else if log.topic0 == Some(TransferBatchTopic) && standard == Erc1155 then
      var entries :- DecodeTransferBatch(log);
      Ok(Some(entries))
    else Ok(None)
  }

  function DecodeLog(log: RpcLog, standard: TokenStandard): Result<Option<seq<DecodedEntry>>> {
    if standard == Auto then
      var detected :- DetectTokenStandardFromLog(log);
      match detected
      case None => Ok(None)
      case Some(s) => DecodeAs(log, s)
    else DecodeAs(log, standard)
  }

  // ---------------------------------------------------------------- what the decoder accepts

  function Decimals(xs: seq<nat>): seq<string> {
    seq(|xs|, i requires 0 <= i < |xs| => Print(xs[i], 10))
  }

  lemma UsizeExact(word: Word)
    ensures WordDecimalAsUsize(word).Ok? <==> word.Some? && word.value <= USIZE_MAX
    ensures WordDecimalAsUsize(word).Ok? ==> WordDecimalAsUsize(word).value == word.value
  {
    if word.Some? {
      PrintRoundTrip(word.value, 10);
    }
  }

  /** The words from `base` on hold these numbers. */
  predicate ItemsAt(words: seq<Word>, base: nat, xs: seq<nat>) {
    base + |xs| <= |words| && forall j :: 0 <= j < |xs| ==> words[base + j] == Some(xs[j])
  }

  lemma ItemsUnfold(words: seq<Word>, base: nat, x: nat, xs: seq<nat>)
    requires base < |words|
    ensures ItemsAt(words, base, [x] + xs) <==> words[base] == Some(x) && ItemsAt(words, base + 1, xs)
    ensures Decimals([x] + xs) == [Print(x, 10)] + Decimals(xs)
  {
    var ys := [x] + xs;
    if ItemsAt(words, base, ys) {
      assert words[base + 0] == Some(ys[0]);
      forall j | 0 <= j < |xs| ensures words[base + 1 + j] == Some(xs[j]) {
        assert words[base + (1 + j)] == Some(ys[1 + j]);
      }
    }
    if words[base] == Some(x) && ItemsAt(words, base + 1, xs) {
      forall j | 0 <= j < |ys| ensures words[base + j] == Some(ys[j]) {
        assert j > 0 ==> words[base + 1 + (j - 1)] == Some(xs[j - 1]);
      }
    }
  }

  lemma {:induction false} ItemsDecode(words: seq<Word>, start: nat, i: nat, xs: seq<nat>)
    requires ItemsAt(words, start + 1 + i, xs)
    ensures DecodeItems(words, start, i + |xs|, i) == Ok(Decimals(xs))
    decreases |xs|
  {
    if xs == [] {
      assert Decimals(xs) == [];
    } else {
      assert xs == [xs[0]] + xs[1..];
      ItemsUnfold(words, start + 1 + i, xs[0], xs[1..]);
      ItemsDecode(words, start, i + 1, xs[1..]);
      assert i + 1 + |xs[1..]| == i + |xs|;
    }
  }

  /** Whatever the item decoder accepts is there. */
  lemma {:induction false} ItemsFound(words: seq<Word>, start: nat, len: nat, i: nat) returns (xs: seq<nat>)
    requires i <= len && start + 1 + i <= |words| && DecodeItems(words, start, len, i).Ok?
    ensures |xs| == len - i && ItemsAt(words, start + 1 + i, xs)
    decreases len - i
  {
    if i == len {
      xs := [];
    } else {
      var x := words[start + 1 + i].value;
      var rest := ItemsFound(words, start, len, i + 1);
      ItemsUnfold(words, start + 1 + i, x, rest);
      xs := [x] + rest;
    }
  }

  /** The array of items `xs` stands at this offset: aligned, its length word, then its items. */
  predicate ArrayAt(words: seq<Word>, offset: nat, xs: seq<nat>) {
    && offset % 32 == 0 && |xs| <= USIZE_MAX
    && offset / 32 < |words| && words[offset / 32] == Some(|xs|)
    && ItemsAt(words, offset / 32 + 1, xs)
  }

  lemma ArrayDecodes(words: seq<Word>, offset: nat, xs: seq<nat>)
    requires ArrayAt(words, offset, xs)
    ensures DecodeDynamicUintArray(words, offset) == Ok(Decimals(xs))
  {
    UsizeExact(words[offset / 32]);
    ItemsDecode(words, offset / 32, 0, xs);
  }

  lemma ArrayFound(words: seq<Word>, offset: nat)
    requires DecodeDynamicUintArray(words, offset).Ok?
    ensures exists xs :: ArrayAt(words, offset, xs)
  {
    var start := offset / 32;
    UsizeExact(words[start]);
    var xs := ItemsFound(words, start, words[start].value, 0);
    assert ArrayAt(words, offset, xs);
  }

  /** On arbitrary words the array decoder fails unless an array stands at the offset, and otherwise
      yields exactly that array. */
  lemma ArrayExact(words: seq<Word>, offset: nat)
    ensures DecodeDynamicUintArray(words, offset).Ok? <==> exists xs :: ArrayAt(words, offset, xs)
    ensures forall xs :: ArrayAt(words, offset, xs) ==> DecodeDynamicUintArray(words, offset) == Ok(Decimals(xs))
  {
    forall xs | ArrayAt(words, offset, xs) ensures DecodeDynamicUintArray(words, offset) == Ok(Decimals(xs)) {
      ArrayDecodes(words, offset, xs);
    }
    if DecodeDynamicUintArray(words, offset).Ok? {
      ArrayFound(words, offset);
    }
  }

  predicate AddressTopics(log: RpcLog) {
    |log.args| == 3 && TopicAddress(log.args[0]).Ok? && TopicAddress(log.args[1]).Ok? && TopicAddress(log.args[2]).Ok?
  }

  /** The two arrays a TransferBatch log states, by the offsets in its first two words. */
  predicate StatesBatch(words: seq<Word>, ids: seq<nat>, amounts: seq<nat>) {
    && |words| >= 2 && words[0].Some? && words[1].Some?
    && words[0].value <= USIZE_MAX && words[1].value <= USIZE_MAX
    && ArrayAt(words, words[0].value, ids) && ArrayAt(words, words[1].value, amounts)
  }

  function EntriesOf(log: RpcLog, ids: seq<nat>, amounts: seq<nat>): seq<DecodedEntry>
    requires AddressTopics(log) && |ids| == |amounts|
  {
    BatchEntries(TopicAddress(log.args[0]).value, TopicAddress(log.args[1]).value, TopicAddress(log.args[2]).value,
                 Decimals(ids), Decimals(amounts))
  }

  lemma BatchDecodes(log: RpcLog, words: seq<Word>, ids: seq<nat>, amounts: seq<nat>)
    requires log.topic0.Some? && AddressTopics(log) && DecodeDataWords(log.data) == Ok(words)
             && StatesBatch(words, ids, amounts)
    ensures |ids| == |amounts| ==> DecodeTransferBatch(log) == Ok(EntriesOf(log, ids, amounts))
    ensures |ids| != |amounts| ==> DecodeTransferBatch(log) == Err
  {
    UsizeExact(words[0]);
    UsizeExact(words[1]);
    ArrayDecodes(words, words[0].value, ids);
    ArrayDecodes(words, words[1].value, amounts);
  }

  lemma BatchFound(log: RpcLog, words: seq<Word>) returns (ids: seq<nat>, amounts: seq<nat>)
    requires DecodeDataWords(log.data) == Ok(words) && DecodeTransferBatch(log).Ok?
    ensures StatesBatch(words, ids, amounts) && AddressTopics(log) && log.topic0.Some?
  {
    UsizeExact(words[0]);
    UsizeExact(words[1]);
    ArrayFound(words, words[0].value);
    ArrayFound(words, words[1].value);
    ids :| ArrayAt(words, words[0].value, ids);
    amounts :| ArrayAt(words, words[1].value, amounts);
  }

  /** On arbitrary data the batch decoder accepts exactly two stated arrays of one length beside
      three address topics, and then yields those pairs in order. */
  lemma BatchExact(log: RpcLog, words: seq<Word>, ids: seq<nat>, amounts: seq<nat>)
    requires DecodeDataWords(log.data) == Ok(words)
    ensures DecodeTransferBatch(log).Ok? ==> exists xs, ys :: StatesBatch(words, xs, ys) && |xs| == |ys|
    ensures StatesBatch(words, ids, amounts) ==>
              (DecodeTransferBatch(log).Ok? <==> log.topic0.Some? && AddressTopics(log) && |ids| == |amounts|)
    ensures StatesBatch(words, ids, amounts) && DecodeTransferBatch(log).Ok? ==>
              DecodeTransferBatch(log).value == EntriesOf(log, ids, amounts)
  {
    if DecodeTransferBatch(log).Ok? {
      var xs, ys := BatchFound(log, words);
      BatchDecodes(log, words, xs, ys);
      assert StatesBatch(words, xs, ys) && |xs| == |ys|;
    }
    if StatesBatch(words, ids, amounts) && log.topic0.Some? && AddressTopics(log) {
      BatchDecodes(log, words, ids, amounts);
    }
  }

  // ---------------------------------------------------------------- the ABI encoder

  const WORD_LIMIT: nat := 0x1_0000000000000000_0000000000000000_0000000000000000_0000000000000000

  predicate FitWords(xs: seq<nat>) {
    forall i :: 0 <= i < |xs| ==> xs[i] < WORD_LIMIT
  }

  /** The text of one word. */
  type WordText = s: string | |s| == 64 witness seq(64, i => '0')

  function Concatenated(texts: seq<WordText>): (s: string)
    ensures |s| == 64 * |texts| && |s| % 64 == 0
  {
    if texts == [] then "" else texts[0] + Concatenated(texts[1..])
  }

  /** A uint256 as one word. */
  function EncodeUint(n: nat): WordText {
    Padded(n, 16, 64)
  }

  function EncodeWords(xs: seq<nat>): string {
    Concatenated(WordTexts(xs))
  }

  function WordTexts(xs: seq<nat>): seq<WordText> {
    seq(|xs|, i requires 0 <= i < |xs| => EncodeUint(xs[i]))
  }

  /** The words of (uint256[] ids, uint256[] amounts): two offsets, then each array as its length
      and its items. */
  function BatchWords(ids: seq<nat>, amounts: seq<nat>): seq<nat> {
    [64, 96 + 32 * |ids|] + ([|ids|] + ids) + ([|amounts|] + amounts)
  }

  function EncodeBatch(ids: seq<nat>, amounts: seq<nat>): string {
    "0x" + EncodeWords(BatchWords(ids, amounts))
  }

  /** The pair of lists has an ABI encoding: every number is a uint256. */
  predicate Encodable(ids: seq<nat>, amounts: seq<nat>) {
    FitWords(ids) && FitWords(amounts) && 96 + 32 * |ids| < WORD_LIMIT && |amounts| < WORD_LIMIT
  }

  lemma {:induction false} NoUnderscores(s: string)
    requires AllDigits(s)
    ensures WithoutUnderscores(s) == s
    decreases |s|
  {
    if s == "" {
    } else {
      NoUnderscores(s[1..]);
      assert CharDigit(s[0]).Some?;
      assert [s[0]] + s[1..] == s;
    }
  }

  lemma {:induction false} PowerAdds(base: nat, a: nat, b: nat)
    ensures Power(base, a + b) == Power(base, a) * Power(base, b)
    decreases a
  {
    if a == 0 {
    } else {
      PowerAdds(base, a - 1, b);
      assert base * (Power(base, a - 1) * Power(base, b)) == base * Power(base, a - 1) * Power(base, b);
    }
  }

  lemma HalfWordLimit()
    ensures Power(16, 32) == 0x1_0000000000000000_0000000000000000
  {
    assert Power(16, 4) == 65536;
    PowerAdds(16, 4, 4);
    PowerAdds(16, 8, 8);
    PowerAdds(16, 16, 16);
  }

  /** 64 hexadecimal digits hold a uint256. */
  lemma WordLimit()
    ensures Power(16, 64) == WORD_LIMIT
  {
    HalfWordLimit();
    PowerAdds(16, 32, 32);
  }

  lemma ParsedDigits(s: string)
    requires s != "" && AllDigits(s)
    ensures ParseHex(s) == Value(s, 16)
  {
    NoUnderscores(s);
    assert CharDigit(s[0]).Some?;
  }

  lemma DigitsWord(w: string)
    requires |w| == 64 && AllDigits(w)
    ensures WordValue(w) == ParseHex(w)
  {
    assert CharDigit(w[1]).Some?;
    assert StripOptional0x(w) == w;
  }

  lemma EncodedWord(n: nat)
    requires n < WORD_LIMIT
    ensures |EncodeUint(n)| == 64 && WordValue(EncodeUint(n)) == Some(n)
  {
    WordLimit();
    PaddedRoundTrip(n, 16, 64);
    DigitsWord(EncodeUint(n));
    ParsedDigits(EncodeUint(n));
  }

  function Words(xs: seq<nat>): seq<Word> {
    seq(|xs|, i requires 0 <= i < |xs| => Some(xs[i]))
  }

  lemma WordsUnfold(first: string, rest: string)
    requires |first| == 64 && |rest| % 64 == 0
    ensures |first + rest| % 64 == 0 && WordValues(first + rest) == [WordValue(first)] + WordValues(rest)
  {
    assert (first + rest)[..64] == first && (first + rest)[64..] == rest;
  }

  function ValuesOf(texts: seq<WordText>): seq<Word> {
    seq(|texts|, i requires 0 <= i < |texts| => WordValue(texts[i]))
  }

  lemma {:induction false} ConcatenatedWords(texts: seq<WordText>)
    ensures WordValues(Concatenated(texts)) == ValuesOf(texts)
    decreases |texts|
  {
    if texts == [] {
    } else {
      WordsUnfold(texts[0], Concatenated(texts[1..]));
      ConcatenatedWords(texts[1..]);
      assert ValuesOf(texts) == [WordValue(texts[0])] + ValuesOf(texts[1..]);
    }
  }

  lemma EncodedWords(xs: seq<nat>)
    requires FitWords(xs)
    ensures |EncodeWords(xs)| == 64 * |xs| && WordValues(EncodeWords(xs)) == Words(xs)
  {
    var texts := WordTexts(xs);
    ConcatenatedWords(texts);
    forall i | 0 <= i < |xs| ensures ValuesOf(texts)[i] == Some(xs[i]) {
      EncodedWord(xs[i]);
    }
  }

  lemma EncodedData(xs: seq<nat>)
    requires FitWords(xs)
    ensures DecodeDataWords("0x" + EncodeWords(xs)) == Ok(Words(xs))
  {
    var data := "0x" + EncodeWords(xs);
    assert data[2..] == EncodeWords(xs);
    EncodedWords(xs);
  }

  /** Where everything is in the encoding: the two heads, then each array after its length word. */
  lemma BatchHeads(ids: seq<nat>, amounts: seq<nat>)
    ensures var words := BatchWords(ids, amounts);
            && |words| == 4 + |ids| + |amounts|
            && words[0] == 64 && words[1] == 96 + 32 * |ids| && words[2] == |ids| && words[3 + |ids|] == |amounts|
    ensures forall j :: 0 <= j < |ids| ==> BatchWords(ids, amounts)[3 + j] == ids[j]
    ensures forall j :: 0 <= j < |amounts| ==> BatchWords(ids, amounts)[4 + |ids| + j] == amounts[j]
  {
  }

  lemma BatchFits(ids: seq<nat>, amounts: seq<nat>)
    requires Encodable(ids, amounts)
    ensures FitWords(BatchWords(ids, amounts))
  {
    BatchHeads(ids, amounts);
    var words := BatchWords(ids, amounts);
    forall i | 0 <= i < |words| ensures words[i] < WORD_LIMIT {
      if 3 <= i < 3 + |ids| {
        assert words[3 + (i - 3)] == ids[i - 3];
      } else if 4 + |ids| <= i {
        assert words[4 + |ids| + (i - 4 - |ids|)] == amounts[i - 4 - |ids|];
      }
    }
  }

  /** An array whose length word is word number `start`. */
  lemma ArrayAtWord(numbers: seq<nat>, start: nat, xs: seq<nat>)
    requires |xs| <= USIZE_MAX && start + 1 + |xs| <= |numbers| && numbers[start] == |xs|
    requires forall j :: 0 <= j < |xs| ==> numbers[start + 1 + j] == xs[j]
    ensures ArrayAt(Words(numbers), 32 * start, xs)
  {
    var words := Words(numbers);
    assert (32 * start) / 32 == start && (32 * start) % 32 == 0;
    forall j | 0 <= j < |xs| ensures words[start + 1 + j] == Some(xs[j]) {
      assert numbers[start + 1 + j] == xs[j];
    }
  }

  lemma IdsLayout(ids: seq<nat>, amounts: seq<nat>)
    requires |ids| <= USIZE_MAX
    ensures ArrayAt(Words(BatchWords(ids, amounts)), 64, ids)
  {
    BatchHeads(ids, amounts);
    ArrayAtWord(BatchWords(ids, amounts), 2, ids);
  }

  lemma AmountsLayout(ids: seq<nat>, amounts: seq<nat>)
    requires |amounts| <= USIZE_MAX
    ensures ArrayAt(Words(BatchWords(ids, amounts)), 96 + 32 * |ids|, amounts)
  {
    BatchHeads(ids, amounts);
    ArrayAtWord(BatchWords(ids, amounts), 3 + |ids|, amounts);
  }

  lemma BatchLayout(ids: seq<nat>, amounts: seq<nat>)
    requires Encodable(ids, amounts)
    ensures FitWords(BatchWords(ids, amounts))
    ensures |ids| <= USIZE_MAX ==> ArrayAt(Words(BatchWords(ids, amounts)), 64, ids)
    ensures |amounts| <= USIZE_MAX ==> ArrayAt(Words(BatchWords(ids, amounts)), 96 + 32 * |ids|, amounts)
  {
    BatchFits(ids, amounts);
    if |ids| <= USIZE_MAX {
      IdsLayout(ids, amounts);
    }
    if |amounts| <= USIZE_MAX {
      AmountsLayout(ids, amounts);
    }
  }

  lemma EncodedBatch(log: RpcLog, words: seq<Word>, ids: seq<nat>, amounts: seq<nat>)
    requires DecodeDataWords(log.data) == Ok(words) && words == Words(BatchWords(ids, amounts))
    requires Encodable(ids, amounts) && log.topic0.Some? && AddressTopics(log)
    ensures DecodeTransferBatch(log).Ok? <==> |ids| == |amounts| && 96 + 32 * |ids| <= USIZE_MAX
    ensures DecodeTransferBatch(log).Ok? ==> DecodeTransferBatch(log).value == EntriesOf(log, ids, amounts)
  {
    BatchLayout(ids, amounts);
    if DecodeTransferBatch(log).Ok? {
      var xs, ys := BatchFound(log, words);
      EncodedHeads(words, ids, amounts, xs, ys);
    }
    if 96 + 32 * |ids| <= USIZE_MAX && |amounts| <= USIZE_MAX {
      BatchDecodes(log, words, ids, amounts);
    }
  }

  lemma EncodedHeads(words: seq<Word>, ids: seq<nat>, amounts: seq<nat>, xs: seq<nat>, ys: seq<nat>)
    requires words == Words(BatchWords(ids, amounts)) && StatesBatch(words, xs, ys)
    ensures 96 + 32 * |ids| <= USIZE_MAX && |amounts| <= USIZE_MAX
  {
    assert words[1] == Some(96 + 32 * |ids|);
    assert words[(96 + 32 * |ids|) / 32] == Some(|amounts|);
  }

  lemma BatchData(log: RpcLog, ids: seq<nat>, amounts: seq<nat>)
    requires Encodable(ids, amounts) && log.data == EncodeBatch(ids, amounts)
    ensures DecodeDataWords(log.data) == Ok(Words(BatchWords(ids, amounts)))
  {
    BatchLayout(ids, amounts);
    EncodedData(BatchWords(ids, amounts));
  }

  lemma BatchDispatch(log: RpcLog)
    requires log.topic0 == Some(TransferBatchTopic)
    ensures DecodeLog(log, Auto) == DecodeLog(log, Erc1155)
    ensures DecodeLog(log, Erc1155).Ok? <==> DecodeTransferBatch(log).Ok?
    ensures DecodeLog(log, Erc1155).Ok? ==> DecodeLog(log, Erc1155).value == Some(DecodeTransferBatch(log).value)
  {
  }

  /** `TransferBatch` decoding inverts ABI encoding: the encoding of two uint256 lists decodes
      exactly when the lists have one length and the second offset fits the machine word, and then
      gives back the same pairs, in order, with batch indexes 0..n-1. */
  lemma BatchRoundTrip(log: RpcLog, ids: seq<nat>, amounts: seq<nat>)
    requires Encodable(ids, amounts) && log.data == EncodeBatch(ids, amounts)
    requires log.topic0 == Some(TransferBatchTopic) && AddressTopics(log)
    ensures DecodeLog(log, Erc1155).Ok? <==> |ids| == |amounts| && 96 + 32 * |ids| <= USIZE_MAX
    ensures DecodeLog(log, Erc1155).Ok? ==> DecodeLog(log, Erc1155).value == Some(EntriesOf(log, ids, amounts))
    ensures DecodeLog(log, Auto) == DecodeLog(log, Erc1155)
  {
    BatchData(log, ids, amounts);
    EncodedBatch(log, Words(BatchWords(ids, amounts)), ids, amounts);
    BatchDispatch(log);
  }

  // ---------------------------------------------------------------- single transfers

  /** An address as an indexed event argument: 12 zero bytes, then the 20 bytes of the address. */
  function EncodeAddress(address: string): string
    requires |address| == 42
  {
    "0x" + "000000000000000000000000" + address[2..]
  }

  /** A normalised address: the prefix 0x and 40 characters, none of them in upper case. */
  predicate IsNormalized(address: string) {
    && |address| == 42 && address[0] == '0' && address[1] == 'x'
    && forall i :: 0 <= i < |address| ==> !('A' <= address[i] <= 'Z')
  }

  lemma AddressRoundTrip(address: string)
    requires IsNormalized(address)
    ensures TopicAddress(EncodeAddress(address)) == Ok(address)
  {
    var topic := EncodeAddress(address);
    assert topic[2..][24..64] == address[2..];
    assert "0x" + address[2..] == address;
    assert Lower(address) == address;
  }

  lemma SingleEntry(log: RpcLog, operator: string, from: string, to: string, id: nat, amount: nat)
    requires log.topic0.Some? && |log.args| == 3 && TopicAddress(log.args[0]) == Ok(operator)
    requires TopicAddress(log.args[1]) == Ok(from) && TopicAddress(log.args[2]) == Ok(to)
    requires WordAt(log.data, 0).Ok? && WordValue(WordAt(log.data, 0).value) == Some(id)
    requires WordAt(log.data, 1).Ok? && WordValue(WordAt(log.data, 1).value) == Some(amount)
    ensures DecodeTransferSingle(log)
         == Ok([DecodedEntry(Erc1155, Some(operator), from, to, Print(id, 10), Print(amount, 10), 0)])
  {
  }

  lemma SingleDispatch(log: RpcLog)
    requires log.topic0 == Some(TransferSingleTopic) && DecodeTransferSingle(log).Ok?
    ensures DecodeLog(log, Auto) == DecodeLog(log, Erc1155) == Ok(Some(DecodeTransferSingle(log).value))
  {
  }

  lemma PairAt(data: string, a: WordText, b: WordText)
    requires data == "0x" + a + b
    ensures WordAt(data, 0) == Ok(a) && WordAt(data, 1) == Ok(b)
  {
    assert data[2..] == a + b;
    assert (a + b)[0..64] == a && (a + b)[64..128] == b;
  }

  lemma TwoWords(data: string, x: nat, y: nat)
    requires x < WORD_LIMIT && y < WORD_LIMIT && data == "0x" + EncodeUint(x) + EncodeUint(y)
    ensures WordAt(data, 0).Ok? && WordValue(WordAt(data, 0).value) == Some(x)
    ensures WordAt(data, 1).Ok? && WordValue(WordAt(data, 1).value) == Some(y)
  {
    EncodedWord(x);
    EncodedWord(y);
    PairAt(data, EncodeUint(x), EncodeUint(y));
  }

  /** `TransferSingle` decoding inverts ABI encoding. */
  lemma SingleRoundTrip(log: RpcLog, operator: string, from: string, to: string, id: nat, amount: nat)
    requires IsNormalized(operator) && IsNormalized(from) && IsNormalized(to) && id < WORD_LIMIT && amount < WORD_LIMIT
    requires log.topic0 == Some(TransferSingleTopic)
    requires log.args == [EncodeAddress(operator), EncodeAddress(from), EncodeAddress(to)]
    requires log.data == "0x" + EncodeUint(id) + EncodeUint(amount)
    ensures DecodeLog(log, Auto) == DecodeLog(log, Erc1155)
         == Ok(Some([DecodedEntry(Erc1155, Some(operator), from, to, Print(id, 10), Print(amount, 10), 0)]))
  {
    AddressRoundTrip(operator);
    AddressRoundTrip(from);
    AddressRoundTrip(to);
    TwoWords(log.data, id, amount);
    SingleEntry(log, operator, from, to, id, amount);
    SingleDispatch(log);
  }

  /** A Transfer log decodes under at most one of the two standards: the one that its shape shows. */
  lemma TransferDispatch(log: RpcLog)
    requires log.topic0 == Some(TransferTopic)
    ensures DecodeLog(log, Erc20).Ok? <==> |log.args| == 2 && DataWordCount(log.data) == Ok(1) && DecodeErc20(log).Ok?
    ensures DecodeLog(log, Erc20).Ok? ==>
              DecodeLog(log, Erc20).value == Some(DecodeErc20(log).value)
              && DecodeLog(log, Auto) == DecodeLog(log, Erc20) && DecodeLog(log, Erc721) == Err
    ensures DecodeLog(log, Erc721).Ok? <==> |log.args| == 3 && DataWordCount(log.data) == Ok(0) && DecodeErc721(log).Ok?
    ensures DecodeLog(log, Erc721).Ok? ==>
              DecodeLog(log, Erc721).value == Some(DecodeErc721(log).value)
              && DecodeLog(log, Auto) == DecodeLog(log, Erc721) && DecodeLog(log, Erc20) == Err
  {
  }

  lemma Erc20Entry(log: RpcLog, from: string, to: string, amount: nat)
    requires log.topic0.Some? && |log.args| == 2 && TopicAddress(log.args[0]) == Ok(from)
             && TopicAddress(log.args[1]) == Ok(to)
    requires WordAt(log.data, 0).Ok? && WordValue(WordAt(log.data, 0).value) == Some(amount)
    ensures DecodeErc20(log) == Ok([DecodedEntry(Erc20, None, from, to, "", Print(amount, 10), 0)])
  {
  }

  lemma Erc721Entry(log: RpcLog, from: string, to: string, id: nat)
    requires log.topic0.Some? && |log.args| == 3 && TopicAddress(log.args[0]) == Ok(from)
             && TopicAddress(log.args[1]) == Ok(to)
    requires Strip0x(log.args[2]).Ok? && WordValue(Strip0x(log.args[2]).value) == Some(id)
    ensures DecodeErc721(log) == Ok([DecodedEntry(Erc721, None, from, to, Print(id, 10), "1", 0)])
  {
  }

  lemma OneWord(x: nat)
    requires x < WORD_LIMIT
    ensures DataWordCount("0x" + EncodeUint(x)) == Ok(1)
    ensures Strip0x("0x" + EncodeUint(x)) == Ok(EncodeUint(x)) && WordValue(EncodeUint(x)) == Some(x)
    ensures WordAt("0x" + EncodeUint(x), 0) == Ok(EncodeUint(x))
  {
    EncodedWord(x);
    var data := "0x" + EncodeUint(x);
    assert data[2..] == EncodeUint(x);
    assert data[2..][0..64] == EncodeUint(x);
  }

  lemma NoWords(data: string)
    requires data == "0x"
    ensures DataWordCount(data) == Ok(0)
  {
  }

  /** ERC-20 `Transfer` decoding inverts ABI encoding, and detection agrees. */
  lemma Erc20RoundTrip(log: RpcLog, from: string, to: string, amount: nat)
    requires IsNormalized(from) && IsNormalized(to) && amount < WORD_LIMIT
    requires log.topic0 == Some(TransferTopic) && log.args == [EncodeAddress(from), EncodeAddress(to)]
    requires log.data == "0x" + EncodeUint(amount)
    ensures DecodeLog(log, Auto) == DecodeLog(log, Erc20)
         == Ok(Some([DecodedEntry(Erc20, None, from, to, "", Print(amount, 10), 0)]))
    ensures DecodeLog(log, Erc721) == Err
  {
    AddressRoundTrip(from);
    AddressRoundTrip(to);
    OneWord(amount);
    Erc20Entry(log, from, to, amount);
    TransferDispatch(log);
  }

  /** ERC-721 `Transfer` decoding inverts ABI encoding, and detection agrees. */
  lemma Erc721RoundTrip(log: RpcLog, from: string, to: string, id: nat)
    requires IsNormalized(from) && IsNormalized(to) && id < WORD_LIMIT
    requires log.topic0 == Some(TransferTopic) && |log.args| == 3 && log.data == "0x"
    requires log.args[0] == EncodeAddress(from) && log.args[1] == EncodeAddress(to)
             && log.args[2] == "0x" + EncodeUint(id)
    ensures DecodeLog(log, Auto) == DecodeLog(log, Erc721)
         == Ok(Some([DecodedEntry(Erc721, None, from, to, Print(id, 10), "1", 0)]))
    ensures DecodeLog(log, Erc20) == Err
  {
    AddressRoundTrip(from);
    AddressRoundTrip(to);
    OneWord(id);
    NoWords(log.data);
    Erc721Entry(log, from, to, id);
    TransferDispatch(log);
  }
}
