/** What the decoder reads in the text of a log, character by character, and what it refuses. */
module LogTexts {
  import opened Wrappers
  import opened Numerals
  import opened Evm

  predicate IsHexText(s: string) {
    "0x" <= s || "0X" <= s
  }

  // ---------------------------------------------------------------- words of data

  lemma {:induction false} WordsCount(digits: string, n: nat)
    requires |digits| == 64 * n && |digits| % 64 == 0
    ensures |WordValues(digits)| == n
    decreases n
  {
    if n == 0 {
    } else {
      WordsCount(digits[64..], n - 1);
    }
  }

  /** Event data holds n words exactly when it is the prefix 0x and 64 n characters more. */
  lemma DataExact(data: string, n: nat)
    ensures DataWordCount(data) == Ok(n) <==> IsHexText(data) && |data| == 2 + 64 * n
    ensures DecodeDataWords(data).Ok? && |DecodeDataWords(data).value| == n
       <==> IsHexText(data) && |data| == 2 + 64 * n
  {
    if HasHexPrefix(data) && |data[2..]| % 64 == 0 {
      WordsCount(data[2..], |data[2..]| / 64);
    }
  }

  /** Every word is read in its place. */
  lemma DataWordsExact(prefix: string, texts: seq<WordText>)
    requires prefix == "0x" || prefix == "0X"
    ensures DecodeDataWords(prefix + Concatenated(texts)) == Ok(ValuesOf(texts))
  {
    assert (prefix + Concatenated(texts))[2..] == Concatenated(texts);
    ConcatenatedWords(texts);
  }

  /** One word is read wherever the data reaches that far. */
  lemma WordAtExact(data: string, i: nat)
    ensures WordAt(data, i).Ok? <==> IsHexText(data) && |data| >= 66 + 64 * i
    ensures WordAt(data, i).Ok? ==> WordAt(data, i).value == data[2 + 64 * i..66 + 64 * i]
  {
    if HasHexPrefix(data) && |data| >= 66 + 64 * i {
      assert data[2..][i * 64..i * 64 + 64] == data[2 + 64 * i..66 + 64 * i];
    }
  }

  // ---------------------------------------------------------------- addresses

  /** The lower-case form of an ASCII letter, any other character as it is. */
  predicate IsLowered(c: char, d: char) {
    if 'A' <= c <= 'Z' then d as int == c as int + 32 else d == c
  }

  /** An address is the last 20 bytes of a topic of exactly 32, in lower case. */
  lemma TopicExact(topic: string)
    ensures TopicAddress(topic).Ok? <==> IsHexText(topic) && |topic| == 66
    ensures TopicAddress(topic).Ok? ==>
              var address := TopicAddress(topic).value;
              && |address| == 42 && address[..2] == "0x"
              && forall i :: 2 <= i < 42 ==> IsLowered(topic[24 + i], address[i])
  {
    if HasHexPrefix(topic) && |topic| == 66 {
      var raw := "0x" + topic[2..][24..64];
      assert TopicAddress(topic) == Ok(Lower(raw));
      assert Lower(raw)[..2] == "0x";
      forall i | 2 <= i < 42 ensures IsLowered(topic[24 + i], Lower(raw)[i]) {
        assert raw[i] == topic[24 + i];
      }
    }
  }

  // ---------------------------------------------------------------- digits

  predicate SameDigits(s: string, t: string) {
    |s| == |t| && forall i :: 0 <= i < |s| ==> IsLowered(s[i], t[i])
  }

  /** Hexadecimal digits may be written in either case. */
  lemma {:induction false} CaseIrrelevant(s: string, t: string)
    requires SameDigits(s, t)
    ensures Value(s, 16) == Value(t, 16)
    decreases |s|
  {
    if s == "" {
    } else {
      var n := |s| - 1;
      CaseIrrelevant(s[..n], t[..n]);
      assert IsLowered(s[n], t[n]);
    }
  }

  lemma {:induction false} UnderscoreSkipped(a: string, b: string)
    requires AllDigits(a)
    ensures WithoutUnderscores(a + "_" + b) == WithoutUnderscores(a + b)
    decreases |a|
  {
    if a == "" {
      assert (a + "_" + b)[1..] == b && a + b == b;
    } else {
      assert (a + "_" + b)[1..] == a[1..] + "_" + b && (a + b)[1..] == a[1..] + b;
      assert (a + "_" + b)[0] == a[0] == (a + b)[0];
      UnderscoreSkipped(a[1..], b);
    }
  }

  /** Big-integer parsing skips one plus sign in front and underscores after the first digit, and
      refuses an underscore in front and the empty numeral. */
  lemma Separators(a: string, b: string)
    requires a != "" && AllDigits(a)
    ensures ParseHex(a) == Value(a, 16) && ParseHex("+" + a) == ParseHex(a)
    ensures ParseHex(a + "_" + b) == ParseHex(a + b)
    ensures ParseHex("_" + b) == None && ParseHex("") == None && ParseHex("+") == None
  {
    ParsedDigits(a);
    assert a[0] in a;
    assert ("+" + a)[1..] == a;
    UnderscoreSkipped(a, b);
    assert (a + "_" + b)[0] == a[0] == (a + b)[0];
  }

  // ---------------------------------------------------------------- what each decoder accepts

  predicate HasNumberAt(log: RpcLog, i: nat) {
    WordAt(log.data, i).Ok? && WordValue(WordAt(log.data, i).value).Some?
  }

  /** The decoders of the four events accept exactly these logs. */
  lemma SingleAccepted(log: RpcLog)
    requires log.topic0.Some?
    ensures DecodeTransferSingle(log).Ok? <==> AddressTopics(log) && HasNumberAt(log, 0) && HasNumberAt(log, 1)
  {
  }

  lemma Erc20Accepted(log: RpcLog)
    requires log.topic0.Some?
    ensures DecodeErc20(log).Ok? <==>
              |log.args| == 2 && TopicAddress(log.args[0]).Ok? && TopicAddress(log.args[1]).Ok? && HasNumberAt(log, 0)
  {
  }

  lemma Erc721Accepted(log: RpcLog)
    requires log.topic0.Some?
    ensures DecodeErc721(log).Ok? <==>
              && |log.args| == 3 && TopicAddress(log.args[0]).Ok? && TopicAddress(log.args[1]).Ok?
              && IsHexText(log.args[2]) && WordValue(log.args[2][2..]).Some?
  {
  }

  /** Under auto-detection a Transfer log decodes exactly when one of the two standards takes it, and
      a batch or single transfer exactly when ERC-1155 does; no other log is read. */
  lemma AutoExact(log: RpcLog)
    ensures log.topic0 == Some(TransferTopic) ==>
              (DecodeLog(log, Auto).Ok? <==> DecodeLog(log, Erc20).Ok? || DecodeLog(log, Erc721).Ok?)
    ensures log.topic0 == Some(TransferSingleTopic) || log.topic0 == Some(TransferBatchTopic) ==>
              DecodeLog(log, Auto) == DecodeLog(log, Erc1155)
              && DecodeLog(log, Erc20) == DecodeLog(log, Erc721) == Ok(None)
    ensures log.topic0 == Some(TransferTopic) ==> DecodeLog(log, Erc1155) == Ok(None)
    ensures log.topic0 == None || log.topic0 == Some(OtherTopic) ==>
              forall standard :: DecodeLog(log, standard) == Ok(None)
  {
  }
}
