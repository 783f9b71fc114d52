/**
 * The two account types of the voting program, `VotingAccount` and
 * `VoteAccount`, their stored byte layout (Anchor's 8-byte account
 * discriminator followed by the Borsh encoding of the fields in declaration
 * order) and the sizes the program reserves for them.
 */
module Layout {
  import opened Wrappers
  import opened Bytes
  import opened Borsh
  import opened Addresses

  /** One voting session: its ids, question, option labels and counters. Strings are their UTF-8 bytes. */
  datatype VotingAccount = VotingAccount(
    companyId: u64,
    votingId: u64,
    question: seq<byte>,
    options: seq<seq<byte>>,
    votes: seq<u64>,
    totalVotes: u64)

  /** The record of one voter's ballot: the voter's key and the chosen option index. */
  datatype VoteAccount = VoteAccount(voter: Pubkey, selectedOption: byte)

  /** First 8 bytes of SHA-256("account:VotingAccount"). */
  const VOTING_ACCOUNT_DISCRIMINATOR: seq<byte> := [245, 166, 249, 102, 0, 37, 201, 162]
  /** First 8 bytes of SHA-256("account:VoteAccount"). */
  const VOTE_ACCOUNT_DISCRIMINATOR: seq<byte> := [203, 238, 154, 106, 200, 131, 0, 41]

  /** Bytes reserved for a `VotingAccount`, sized for a question of 256 bytes and three options of 64. */
  const VOTING_ACCOUNT_SPACE: int :=
    8 +              // discriminator
    8 +              // company_id
    8 +              // voting_id
    4 + 256 +        // question
    4 + 3 * (4 + 64) + // options
    4 + 3 * 8 +      // votes
    8                // total_votes

  /** Bytes reserved for a `VoteAccount`. */
  const VOTE_ACCOUNT_SPACE: int :=
    8 +   // discriminator
    32 +  // voter key
    1     // selected_option

  /** Why stored bytes are not a valid account of the expected type. */
  datatype AccountError = DiscriminatorNotFound | DiscriminatorMismatch | DidNotDeserialize

  /** A `VotingAccount` whose strings and vectors Borsh can length-prefix. */
  predicate Encodable(a: VotingAccount) {
    FitsU32(a.question) && StringsFit(a.options) && |a.votes| < U32_LIMIT
  }

  /** The stored bytes of a `VotingAccount`. */
  function EncodeVotingAccount(a: VotingAccount): (data: seq<byte>)
    requires Encodable(a)
    ensures |data| == 8 + 8 + 8 + (4 + |a.question|) + (4 + StringItemsSize(a.options))
                      + (4 + 8 * |a.votes|) + 8
    ensures data[..8] == VOTING_ACCOUNT_DISCRIMINATOR
  {
    VOTING_ACCOUNT_DISCRIMINATOR +
    (EncodeU64(a.companyId) +
    (EncodeU64(a.votingId) +
    (EncodeString(a.question) +
    (EncodeStrings(a.options) +
    (EncodeU64s(a.votes) +
    EncodeU64(a.totalVotes))))))
  }

  /** The fields of a `VotingAccount` in declaration order, and the bytes after them. */
  function DecodeVotingAccountFields(bs: seq<byte>): (r: Decoded<VotingAccount>)
    ensures r.Ok? ==> && Encodable(r.value.0)
                      && VOTING_ACCOUNT_DISCRIMINATOR + bs == EncodeVotingAccount(r.value.0) + r.value.1
  {
    var (companyId, r1) :- DecodeU64(bs);
    var (votingId, r2) :- DecodeU64(r1);
    var (question, r3) :- DecodeString(r2);
    var (options, r4) :- DecodeStrings(r3);
    var (votes, r5) :- DecodeU64s(r4);
    var (totalVotes, r6) :- DecodeU64(r5);
    var a := VotingAccount(companyId, votingId, question, options, votes, totalVotes);
    EncodeVotingAccountThen(a, r6);
    Ok((a, r6))
  }

  /** The stored bytes of `a` followed by `rest`, field by field. */
  lemma EncodeVotingAccountThen(a: VotingAccount, rest: seq<byte>)
    requires Encodable(a)
    ensures EncodeVotingAccount(a) + rest ==
              VOTING_ACCOUNT_DISCRIMINATOR +
              (EncodeU64(a.companyId) +
              (EncodeU64(a.votingId) +
              (EncodeString(a.question) +
              (EncodeStrings(a.options) +
              (EncodeU64s(a.votes) +
              (EncodeU64(a.totalVotes) + rest))))))
  {
  }

  /**
   * Reading a `VotingAccount` from account data: the discriminator must be
   * present and match, then the fields are read in order; bytes after the
   * last field (the unused part of the reserved space) are ignored.
   */
  function DecodeVotingAccount(data: seq<byte>): (r: Result<VotingAccount, AccountError>)
    ensures |data| < 8 ==> r == Err(DiscriminatorNotFound)
    ensures |data| >= 8 && data[..8] != VOTING_ACCOUNT_DISCRIMINATOR ==> r == Err(DiscriminatorMismatch)
    ensures r.Ok? ==> Encodable(r.value) && EncodeVotingAccount(r.value) <= data
  {
    if |data| < 8 then Err(DiscriminatorNotFound)
    else if data[..8] != VOTING_ACCOUNT_DISCRIMINATOR then Err(DiscriminatorMismatch)
    else
      assert data == VOTING_ACCOUNT_DISCRIMINATOR + data[8..];
      match DecodeVotingAccountFields(data[8..])
      case Ok((a, _)) => Ok(a)
      case Err(_) => Err(DidNotDeserialize)
  }

  /** Reading back what was stored, with any slack after it, gives the stored account. */
  lemma VotingAccountRoundTrip(a: VotingAccount, slack: seq<byte>)
    requires Encodable(a)
    ensures DecodeVotingAccount(EncodeVotingAccount(a) + slack) == Ok(a)
  {
    var total := EncodeU64(a.totalVotes) + slack;
    var r5 := EncodeU64s(a.votes) + total;
    var r4 := EncodeStrings(a.options) + r5;
    var r3 := EncodeString(a.question) + r4;
    var r2 := EncodeU64(a.votingId) + r3;
    var r1 := EncodeU64(a.companyId) + r2;
    var data := EncodeVotingAccount(a) + slack;
    assert data == VOTING_ACCOUNT_DISCRIMINATOR + r1;
    assert data[8..] == r1;
    DecodeU64Encoded(a.companyId, r2);
    DecodeU64Encoded(a.votingId, r3);
    DecodeStringEncoded(a.question, r4);
    DecodeStringsEncoded(a.options, r5);
    DecodeU64sEncoded(a.votes, total);
    DecodeU64Encoded(a.totalVotes, slack);
  }

  /**
   * Data with the right discriminator is refused as `DidNotDeserialize`
   * exactly when it does not start with the stored bytes of any session.
   */
  lemma VotingAccountDidNotDeserialize(data: seq<byte>)
    ensures DecodeVotingAccount(data) == Err(DidNotDeserialize) <==>
              && |data| >= 8 && data[..8] == VOTING_ACCOUNT_DISCRIMINATOR
              && forall a | Encodable(a) :: !(EncodeVotingAccount(a) <= data)
  {
    if DecodeVotingAccount(data) == Err(DidNotDeserialize) {
      forall a | Encodable(a)
        ensures !(EncodeVotingAccount(a) <= data)
      {
        if EncodeVotingAccount(a) <= data {
          StoredPrefixDecodes(a, data);
        }
      }
    }
  }

  /** Data that starts with a stored session decodes to it. */
  lemma StoredPrefixDecodes(a: VotingAccount, data: seq<byte>)
    requires Encodable(a) && EncodeVotingAccount(a) <= data
    ensures DecodeVotingAccount(data) == Ok(a)
  {
    var slack := data[|EncodeVotingAccount(a)|..];
    assert data == EncodeVotingAccount(a) + slack;
    VotingAccountRoundTrip(a, slack);
  }

  /** A question whose declared length runs past the end of the data is refused. */
  lemma QuestionOverrun(companyId: u64, votingId: u64, n: u32, body: seq<byte>)
    requires |body| < n
    ensures DecodeVotingAccount(VOTING_ACCOUNT_DISCRIMINATOR + EncodeU64(companyId) + EncodeU64(votingId)
                                + EncodeU32(n) + body) == Err(DidNotDeserialize)
  {
    var data := VOTING_ACCOUNT_DISCRIMINATOR + EncodeU64(companyId) + EncodeU64(votingId) + EncodeU32(n) + body;
    var r2 := EncodeU32(n) + body;
    var r1 := EncodeU64(votingId) + r2;
    assert data[..8] == VOTING_ACCOUNT_DISCRIMINATOR && data[8..] == EncodeU64(companyId) + r1;
    DecodeU64Encoded(companyId, r1);
    DecodeU64Encoded(votingId, r2);
    DecodeStringOverrun(n, body);
  }

  /** Distinct accounts are stored as distinct bytes. */
  lemma EncodeVotingAccountInjective(a: VotingAccount, b: VotingAccount)
    requires Encodable(a) && Encodable(b)
    ensures EncodeVotingAccount(a) == EncodeVotingAccount(b) <==> a == b
  {
    if EncodeVotingAccount(a) == EncodeVotingAccount(b) {
      VotingAccountRoundTrip(a, []);
      VotingAccountRoundTrip(b, []);
      assert EncodeVotingAccount(a) + [] == EncodeVotingAccount(b) + [];
    }
  }

  lemma {:induction false} StringItemsSizeBound(ss: seq<seq<byte>>, limit: nat)
    requires forall i | 0 <= i < |ss| :: |ss[i]| <= limit
    ensures StringItemsSize(ss) <= |ss| * (4 + limit)
    ensures (forall i | 0 <= i < |ss| :: |ss[i]| == limit) ==> StringItemsSize(ss) == |ss| * (4 + limit)
  {
    if ss != [] {
      StringItemsSizeBound(ss[1..], limit);
    }
  }

  /**
   * The reserved space holds every account within the sizes it was computed
   * for (question up to 256 bytes, up to three options of up to 64 bytes,
   * one counter per option), and exactly fills it at those sizes.
   */
  lemma VotingAccountFitsSpace(a: VotingAccount)
    requires |a.question| <= 256
    requires |a.options| <= 3 && forall i | 0 <= i < |a.options| :: |a.options[i]| <= 64
    requires |a.votes| == |a.options|
    ensures Encodable(a)
    ensures |EncodeVotingAccount(a)| <= VOTING_ACCOUNT_SPACE
    ensures |a.question| == 256 && |a.options| == 3 && (forall i | 0 <= i < 3 :: |a.options[i]| == 64)
            ==> |EncodeVotingAccount(a)| == VOTING_ACCOUNT_SPACE
  {
    StringItemsSizeBound(a.options, 64);
  }

  /** The stored bytes of a `VoteAccount`; the voter key is written raw, without a length. */
  function EncodeVoteAccount(v: VoteAccount): (data: seq<byte>)
    ensures |data| == VOTE_ACCOUNT_SPACE
    ensures data[..8] == VOTE_ACCOUNT_DISCRIMINATOR
  {
    VOTE_ACCOUNT_DISCRIMINATOR + (v.voter + EncodeU8(v.selectedOption))
  }

  function DecodeVoteAccount(data: seq<byte>): (r: Result<VoteAccount, AccountError>)
    ensures |data| < 8 ==> r == Err(DiscriminatorNotFound)
    ensures |data| >= 8 && data[..8] != VOTE_ACCOUNT_DISCRIMINATOR ==> r == Err(DiscriminatorMismatch)
    ensures r.Ok? <==> |data| >= VOTE_ACCOUNT_SPACE && data[..8] == VOTE_ACCOUNT_DISCRIMINATOR
  {
    if |data| < 8 then Err(DiscriminatorNotFound)
    else if data[..8] != VOTE_ACCOUNT_DISCRIMINATOR then Err(DiscriminatorMismatch)
    else if |data| < 8 + 32 + 1 then Err(DidNotDeserialize)
    else Ok(VoteAccount(data[8..40], data[40]))
  }

  lemma VoteAccountRoundTrip(v: VoteAccount, slack: seq<byte>)
    ensures DecodeVoteAccount(EncodeVoteAccount(v) + slack) == Ok(v)
  {
    var data := EncodeVoteAccount(v) + slack;
    assert data[8..40] == v.voter;
  }

  /** A vote record can never be read as a voting session, nor the reverse. */
  lemma AccountTypesDoNotMix(a: VotingAccount, v: VoteAccount)
    requires Encodable(a)
    ensures DecodeVotingAccount(EncodeVoteAccount(v)) == Err(DiscriminatorMismatch)
    ensures DecodeVoteAccount(EncodeVotingAccount(a)) == Err(DiscriminatorMismatch)
  {
  }
}
