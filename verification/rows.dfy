/** The text of the sorted-set members (storage/redis.go:65-77, 262-264, 870-922), and the proof
    that a typed row stands for exactly one member: what Redis keeps as strings may be modelled
    as typed rows, and the raw key that the unlocker remembers removes the row it came from. */
module Rows {
  import opened Common
  import opened Text
  import opened Blocks

  predicate IsInt64(n: int) {
    MIN_INT64 <= n <= MAX_INT64
  }

  ghost predicate ValidCandidate(r: CandidateRow) {
    && ColonFree(r.nonce) && ColonFree(r.eNonce1) && ColonFree(r.eNonce2)
    && IsInt64(r.timestamp) && IsInt64(r.difficulty) && IsInt64(r.totalShares)
    && IsInt64(r.coinBase) && IsInt64(r.fee)
  }

  ghost predicate ValidBlock(r: BlockRow) {
    && ColonFree(r.nonce) && ColonFree(r.hash)
    && IsInt64(r.timestamp) && IsInt64(r.difficulty) && IsInt64(r.totalShares)
  }

  function CandidateFields(r: CandidateRow): seq<string> {
    [r.nonce, r.eNonce1, r.eNonce2, FormatInt(r.timestamp), FormatInt(r.difficulty),
     FormatInt(r.totalShares), FormatInt(r.coinBase), FormatInt(r.fee)]
  }

  /** The member that WriteBlock adds to `blocks:candidates`. */
  function CandidateMember(r: CandidateRow): string {
    Join(CandidateFields(r))
  }

  /** WriteBlock joins an already joined triple with five numbers. */
  method WriteCandidateMember(params: seq<string>, ts: int, roundDiff: int, totalShares: int,
                              coinBase: int, fee: int) returns (member: string)
    requires |params| == 3
    ensures member == CandidateMember(CandidateRow(params[0], params[1], params[2], ts, roundDiff, totalShares,
                                                   coinBase, fee))
  {
    var hashHex := Join(params);
    member := JoinFields([Str(hashHex), Int(ts), Int(roundDiff), Int(totalShares), Int(coinBase), Int(fee)]);
    var numbers := [FormatInt(ts), FormatInt(roundDiff), FormatInt(totalShares), FormatInt(coinBase), FormatInt(fee)];
    assert RenderAll([Str(hashHex), Int(ts), Int(roundDiff), Int(totalShares), Int(coinBase), Int(fee)])
           == [hashHex] + numbers;
    JoinNested(params, numbers);
    assert params + numbers
        == CandidateFields(CandidateRow(params[0], params[1], params[2], ts, roundDiff, totalShares, coinBase, fee));
  }

  function BlockFields(r: BlockRow): seq<string> {
    [FormatInt(0), if r.orphan then "1" else "0", r.nonce, r.hash, FormatInt(r.timestamp), FormatInt(r.difficulty),
     FormatInt(r.totalShares), FormatInt(r.coinBase), FormatInt(r.fee), FormatInt(r.reward)]
  }

  function BlockMember(r: BlockRow): string {
    Join(BlockFields(r))
  }

  /** BlockData.key (storage/redis.go:65-77). */
  method Key(b: BlockData) returns (member: string)
    ensures member == BlockMember(b.Key())
  {
    var fields := [Int(0), Bool(b.orphan), Str(b.nonce), Str(b.SerializeHash()), Int(b.timestamp), Int(b.difficulty),
                   Int(b.totalShares), Big(Some(b.coinBase)), Big(Some(b.fee)), Big(b.reward)];
    member := JoinFields(fields);
    assert FormatInt(0) == "0";
    assert RenderAll(fields) == BlockFields(b.Key());
  }

  /** strconv.ParseBool, whose value on an error is false. */
  predicate ParseBool(s: string) {
    s in ["1", "t", "T", "true", "TRUE", "True"]
  }

  /** One turn of convertCandidateResults; a member with too few fields is an index panic. */
  function ParseCandidate(member: string): Option<CandidateRow> {
    var fields := Split(member);
    if |fields| < 8 then None
    else Some(CandidateRow(fields[0], fields[1], fields[2], ParseInt(fields[3]), ParseInt(fields[4]),
                           ParseInt(fields[5]), ParseInt(fields[6]), ParseInt(fields[7])))
  }

  /** The index panic of convertBlockResults. */
  predicate HasBlockFields(member: string) {
    |Split(member)| >= 10
  }

  /** One turn of convertBlockResults; big integers come from (*big.Int).SetString, and None stands
      for a record that holds nil for a value that does not parse. */
  function ParseBlock(member: string): Option<BlockRow> {
    var fields := Split(member);
    if |fields| < 10 || ParseBig(fields[7]).None? || ParseBig(fields[8]).None? || ParseBig(fields[9]).None? then None
    else Some(BlockRow(ParseBool(fields[1]), fields[2], fields[3], ParseInt(fields[4]), ParseInt(fields[5]),
                       ParseInt(fields[6]), ParseBig(fields[7]).value, ParseBig(fields[8]).value,
                       ParseBig(fields[9]).value))
  }

  /** A candidate member reads back as the row it was written from. */
  lemma CandidateRoundTrip(r: CandidateRow)
    requires ValidCandidate(r)
    ensures ParseCandidate(CandidateMember(r)) == Some(r)
  {
    hide FormatInt, ParseInt, Join, Split, ColonFree;
    ParseFormatInt(r.timestamp);
    ParseFormatInt(r.difficulty);
    ParseFormatInt(r.totalShares);
    ParseFormatInt(r.coinBase);
    ParseFormatInt(r.fee);
    SplitJoin(CandidateFields(r));
  }

  lemma FlagsAreColonFree()
    ensures ColonFree("0") && ColonFree("1")
  {
  }

  /** A block member reads back as the row it was written from, whatever the size of its three
      big integers. */
  lemma BlockRoundTrip(r: BlockRow)
    requires ValidBlock(r)
    ensures ParseBlock(BlockMember(r)) == Some(r)
  {
    hide FormatInt, ParseInt, ParseBig, Join, Split, ColonFree;
    ParseFormatInt(0);
    ParseFormatInt(r.timestamp);
    ParseFormatInt(r.difficulty);
    ParseFormatInt(r.totalShares);
    ParseFormatInt(r.coinBase);
    ParseFormatInt(r.fee);
    ParseFormatInt(r.reward);
    FlagsAreColonFree();
    SplitJoin(BlockFields(r));
  }

  /** The layout of a candidate's member: eight values with colons between them. */
  lemma CandidateText(r: CandidateRow)
    ensures CandidateMember(r) ==
              r.nonce + ":" + r.eNonce1 + ":" + r.eNonce2 + ":" + FormatInt(r.timestamp) + ":"
              + (FormatInt(r.difficulty) + ":" + FormatInt(r.totalShares) + ":"
                 + FormatInt(r.coinBase) + ":" + FormatInt(r.fee))
  {
    hide FormatInt, Join;
    var f := CandidateFields(r);
    JoinFour(f[0], f[1], f[2], f[3], f[4..]);
    assert f == [f[0], f[1], f[2], f[3]] + f[4..];
    JoinMore(f[4..]);
    JoinMore(f[5..]);
    JoinLast(f[6], f[7]);
    assert f[4..][1..] == f[5..] && f[5..][1..] == f[6..] == [f[6], f[7]];
  }

  /** The layout of a block's member: ten values, the first of them always 0. */
  lemma BlockText(r: BlockRow)
    ensures BlockMember(r) ==
              "0" + ":" + (if r.orphan then "1" else "0") + ":" + r.nonce + ":" + r.hash + ":"
              + (FormatInt(r.timestamp) + ":" + FormatInt(r.difficulty) + ":" + FormatInt(r.totalShares) + ":"
                 + FormatInt(r.coinBase) + ":" + (FormatInt(r.fee) + ":" + FormatInt(r.reward)))
  {
    var f := BlockFields(r);
    assert f[0] == "0";
    hide FormatInt, Join;
    JoinFour(f[0], f[1], f[2], f[3], f[4..]);
    assert f == [f[0], f[1], f[2], f[3]] + f[4..];
    JoinFour(f[4], f[5], f[6], f[7], f[8..]);
    assert f[4..] == [f[4], f[5], f[6], f[7]] + f[8..];
    JoinLast(f[8], f[9]);
    assert f[8..] == [f[8], f[9]];
  }

  /** What the first pass reads is what was recorded, at the height that is its score; nothing is known
      yet of its hash, and it is neither an orphan nor rewarded. */
  lemma CandidateRecord(r: CandidateRow, height: int)
    requires ValidCandidate(r)
    ensures ParseCandidate(CandidateMember(r)).Some?
    ensures var b := FromCandidate(ParseCandidate(CandidateMember(r)).value, height);
            && b.height == height && b.roundHeight == height && b.nonce == r.nonce && b.hash == "" && !b.orphan
            && b.timestamp == r.timestamp && b.difficulty == r.difficulty && b.totalShares == r.totalShares
            && b.coinBase == r.coinBase && b.fee == r.fee && b.reward.None? && b.extraReward.None?
            && b.candidateKey == Some(r) && b.immatureKey.None?
  {
    hide CandidateMember, ParseCandidate;
    CandidateRoundTrip(r);
  }

  /** What the second pass reads is what the first pass knew, except that an empty hash has
      become the placeholder and the two reward fields are nil again. */
  lemma RecordRoundTrip(b: BlockData)
    requires ValidBlock(b.Key())
    ensures ParseBlock(BlockMember(b.Key())).Some?
    ensures var again := FromBlockRow(ParseBlock(BlockMember(b.Key())).value, b.height);
            again == b.(roundHeight := b.height, hash := if b.hash == "" then "0x0" else b.hash,
                        reward := None, extraReward := None, candidateKey := None, immatureKey := Some(b.Key()))
  {
    BlockRoundTrip(b.Key());
  }

  // ------------------------------------------------------------------------------------------
  // Sorted sets of strings and maps of typed rows

  ghost predicate AllValid(rows: map<CandidateRow, int>) {
    forall r | r in rows :: ValidCandidate(r)
  }

  /** The sorted set of strings that a map of typed rows stands for. */
  ghost predicate Represents(members: map<string, int>, rows: map<CandidateRow, int>) {
    && (forall r | r in rows :: CandidateMember(r) in members && members[CandidateMember(r)] == rows[r])
    && (forall m | m in members :: ParseCandidate(m).Some? && ParseCandidate(m).value in rows
                                   && CandidateMember(ParseCandidate(m).value) == m)
  }

  /** ZADD of a row's member and ZREM of the raw member a row was read from do to the strings
      what the typed store does to the rows. */
  lemma SortedSetSteps(members: map<string, int>, rows: map<CandidateRow, int>, r: CandidateRow, score: int)
    requires Represents(members, rows) && AllValid(rows) && ValidCandidate(r)
    ensures Represents(members[CandidateMember(r) := score], rows[r := score])
    ensures Represents(members - {CandidateMember(r)}, rows - {r})
  {
    hide ValidCandidate, CandidateMember, ParseCandidate;
    CandidateRoundTrip(r);
    forall a | a in rows
      ensures CandidateMember(a) == CandidateMember(r) ==> a == r
    {
      CandidateRoundTrip(a);
    }
  }

  ghost predicate AllValidBlocks(rows: map<BlockRow, int>) {
    forall r | r in rows :: ValidBlock(r)
  }

  ghost predicate RepresentsBlocks(members: map<string, int>, rows: map<BlockRow, int>) {
    && (forall r | r in rows :: BlockMember(r) in members && members[BlockMember(r)] == rows[r])
    && (forall m | m in members :: ParseBlock(m).Some? && ParseBlock(m).value in rows
                                   && BlockMember(ParseBlock(m).value) == m)
  }

  lemma BlockSetSteps(members: map<string, int>, rows: map<BlockRow, int>, r: BlockRow, score: int)
    requires RepresentsBlocks(members, rows) && AllValidBlocks(rows) && ValidBlock(r)
    ensures RepresentsBlocks(members[BlockMember(r) := score], rows[r := score])
    ensures RepresentsBlocks(members - {BlockMember(r)}, rows - {r})
  {
    hide ValidBlock, BlockMember, ParseBlock;
    BlockRoundTrip(r);
    forall a | a in rows
      ensures BlockMember(a) == BlockMember(r) ==> a == r
    {
      BlockRoundTrip(a);
    }
  }

  /** convertCandidateResults: one record per member, in order, each remembering its raw member;
      None stands for the index panic. */
  method ConvertCandidateResults(raw: seq<(string, int)>) returns (result: Option<seq<BlockData>>)
    ensures result.Some? <==> forall i | 0 <= i < |raw| :: ParseCandidate(raw[i].0).Some?
    ensures result.Some? ==>
              && |result.value| == |raw|
              && forall i | 0 <= i < |raw| ::
                   result.value[i] == FromCandidate(ParseCandidate(raw[i].0).value, raw[i].1)
  {
    hide ParseCandidate;
    var blocks: seq<BlockData> := [];
    for i := 0 to |raw|
      invariant |blocks| == i
      invariant forall j | 0 <= j < i :: ParseCandidate(raw[j].0).Some?
      invariant forall j | 0 <= j < i :: blocks[j] == FromCandidate(ParseCandidate(raw[j].0).value, raw[j].1)
    {
      var row := ParseCandidate(raw[i].0);
      if row.None? {
        return None;
      }
      blocks := blocks + [FromCandidate(row.value, raw[i].1)];
    }
    result := Some(blocks);
  }

  /** convertBlockResults, likewise; a member whose big integers do not parse gives a record with
      nil numbers, here None. */
  method ConvertBlockResults(raw: seq<(string, int)>) returns (result: Option<seq<Option<BlockData>>>)
    ensures result.Some? <==> forall i | 0 <= i < |raw| :: HasBlockFields(raw[i].0)
    ensures result.Some? ==>
              && |result.value| == |raw|
              && forall i | 0 <= i < |raw| ::
                   var row := ParseBlock(raw[i].0);
                   result.value[i] == if row.Some? then Some(FromBlockRow(row.value, raw[i].1)) else None
  {
    hide ParseBlock, Split;
    var blocks: seq<Option<BlockData>> := [];
    for i := 0 to |raw|
      invariant |blocks| == i
      invariant forall j | 0 <= j < i :: HasBlockFields(raw[j].0)
      invariant forall j | 0 <= j < i ::
                  var row := ParseBlock(raw[j].0);
                  blocks[j] == if row.Some? then Some(FromBlockRow(row.value, raw[j].1)) else None
    {
      if |Split(raw[i].0)| < 10 {
        return None;
      }
      var row := ParseBlock(raw[i].0);
      blocks := blocks + [if row.Some? then Some(FromBlockRow(row.value, raw[i].1)) else None];
    }
    result := Some(blocks);
  }
}
