/** Event logs, log filters, and the chain that discovery reads. */
module Logs {
  import opened Wrappers

  const TWO_160: nat := 0x1_00000000_00000000_00000000_00000000_00000000

  /** A 32-byte word or hash, as the number it spells. */
  type Word = nat

  /** A 20-byte address, as the number it spells; zero is the event sentinel. */
  type Address = a: nat | a < TWO_160

  datatype Log = Log(
    address: Address,
    topics: seq<Word>,
    data: seq<nat>,
    block: nat,
    blockHash: Word,
    txHash: Word,
    txIndex: nat,
    logIndex: nat)
  {
    function Identity(): (Word, Word, nat) {
      (blockHash, txHash, logIndex)
    }
  }

  /** Order of (block, transaction index, log index, transaction hash). */
  predicate LogLe(a: Log, b: Log) {
    a.block < b.block || (a.block == b.block &&
    (a.txIndex < b.txIndex || (a.txIndex == b.txIndex &&
    (a.logIndex < b.logIndex || (a.logIndex == b.logIndex && a.txHash <= b.txHash)))))
  }

  /** An optional contract, and an optional list of accepted words per topic position. */
  datatype LogFilter = LogFilter(address: Option<Address>, topics: seq<Option<seq<Word>>>) {
    predicate MatchesTopics(words: seq<Word>) {
      forall p :: 0 <= p < |topics| && topics[p].Some? ==> p < |words| && words[p] in topics[p].value
    }

    predicate Matches(log: Log) {
      (address.None? || log.address == address.value) && MatchesTopics(log.topics)
    }
  }

  /** The finalized chain: the logs of every block. */
  type Chain = nat -> set<Log>

  /** A log lies in its own block, has a topic, and is named by its block and log index alone as well
      as by its identity. */
  ghost predicate WellFormedChain(chain: Chain) {
    && (forall b, l :: l in chain(b) ==> l.block == b && l.topics != [])
    && (forall b, l, l' :: l in chain(b) && l' in chain(b) && l.logIndex == l'.logIndex ==> l == l')
    && (forall b, b', l, l' :: l in chain(b) && l' in chain(b') && l.Identity() == l'.Identity() ==> l == l')
  }

  ghost predicate OnChain(chain: Chain, filter: LogFilter, lo: int, hi: int, log: Log) {
    lo <= log.block < hi && log in chain(log.block) && filter.Matches(log)
  }

  /** The address in a topic word, unless the word has a nonzero high part. */
  function TopicAddress(word: Word): (a: Option<Address>)
    ensures a.Some? <==> word < TWO_160
    ensures a.Some? ==> a.value == word
  {
    if word / TWO_160 != 0 then None else Some(word % TWO_160)
  }

  /** The addresses in the configured topic positions of a log; `None` where the program raises. */
  function Holders(log: Log, positions: seq<nat>, includeZero: bool): Option<seq<Address>> {
    if positions == [] then
      Some([])
    else if positions[0] < 1 || positions[0] >= |log.topics| then
      None
    else
      match TopicAddress(log.topics[positions[0]])
      case None => None
      case Some(address) =>
        match Holders(log, positions[1..], includeZero)
        case None => None
        case Some(rest) => Some((if includeZero || address != 0 then [address] else []) + rest)
  }

  /** `who` stands in one of the configured topic positions of the log. */
  ghost predicate Mentions(log: Log, positions: seq<nat>, includeZero: bool, who: Address) {
    && (includeZero || who != 0)
    && exists i :: 0 <= i < |positions| && 1 <= positions[i] < |log.topics| && log.topics[positions[i]] == who
  }

  /** Holder extraction finds exactly the mentioned addresses, and refuses exactly the logs in which
      a configured position is missing or is not an address word. */
  lemma {:induction false} HoldersExact(log: Log, positions: seq<nat>, includeZero: bool)
    ensures Holders(log, positions, includeZero).Some? <==>
            forall p :: p in positions ==> 1 <= p < |log.topics| && log.topics[p] < TWO_160
    ensures Holders(log, positions, includeZero).Some? ==>
              forall who: Address :: who in Holders(log, positions, includeZero).value <==>
                                     Mentions(log, positions, includeZero, who)
  {
    if positions != [] {
      HoldersExact(log, positions[1..], includeZero);
      assert positions == [positions[0]] + positions[1..];
      assert forall p :: p in positions <==> p == positions[0] || p in positions[1..];
      if Holders(log, positions, includeZero).Some? {
        var rest := positions[1..];
        forall who: Address
          ensures who in Holders(log, positions, includeZero).value <==> Mentions(log, positions, includeZero, who)
        {
          if Mentions(log, rest, includeZero, who) {
            var i :| 0 <= i < |rest| && 1 <= rest[i] < |log.topics| && log.topics[rest[i]] == who;
            assert positions[i + 1] == rest[i];
          }
          if Mentions(log, positions, includeZero, who) {
            var i :| 0 <= i < |positions| && 1 <= positions[i] < |log.topics| && log.topics[positions[i]] == who;
            assert i > 0 ==> rest[i - 1] == positions[i];
          }
        }
      }
    }
  }
}
