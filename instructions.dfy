/**
 * Instruction data and dispatch: Anchor's 8-byte instruction discriminator
 * followed by the handler's arguments, Borsh-encoded in declaration order,
 * and the entry point that routes the data to `initialize_voting` or `vote`.
 */
module Instructions {
  import opened Wrappers
  import opened Bytes
  import opened Borsh
  import opened Addresses
  import opened Program
  import opened Properties

  /** First 8 bytes of SHA-256("global:initialize_voting"). */
  const INITIALIZE_VOTING_DISCRIMINATOR: seq<byte> := [221, 65, 224, 76, 101, 60, 147, 175]
  /** First 8 bytes of SHA-256("global:vote"). */
  const VOTE_DISCRIMINATOR: seq<byte> := [227, 110, 155, 23, 136, 126, 172, 25]

  datatype Instruction =
    | InitializeVotingIx(companyId: u64, votingId: u64, question: seq<byte>, options: seq<seq<byte>>)
    | VoteIx(companyId: u64, votingId: u64, selectedOption: byte)

  /** Anchor's dispatch errors. */
  datatype DispatchError = InstructionMissing | InstructionFallbackNotFound | InstructionDidNotDeserialize

  /** Why a transaction carrying instruction data was aborted. */
  datatype TransactionError = Dispatch(reason: DispatchError) | Handler(error: Error)

  predicate EncodableIx(ix: Instruction) {
    ix.InitializeVotingIx? ==> FitsU32(ix.question) && StringsFit(ix.options)
  }

  function EncodeInstruction(ix: Instruction): (data: seq<byte>)
    requires EncodableIx(ix)
    ensures |data| >= 8
    ensures data[..8] == if ix.InitializeVotingIx? then INITIALIZE_VOTING_DISCRIMINATOR else VOTE_DISCRIMINATOR
  {
    match ix
    case InitializeVotingIx(companyId, votingId, question, options) =>
      INITIALIZE_VOTING_DISCRIMINATOR +
      (EncodeU64(companyId) + (EncodeU64(votingId) + (EncodeString(question) + EncodeStrings(options))))
    case VoteIx(companyId, votingId, selectedOption) =>
      VOTE_DISCRIMINATOR + (EncodeU64(companyId) + (EncodeU64(votingId) + EncodeU8(selectedOption)))
  }

  function DecodeInitializeVotingArgs(bs: seq<byte>): (r: Decoded<Instruction>)
    ensures r.Ok? ==> && r.value.0.InitializeVotingIx? && EncodableIx(r.value.0)
                      && INITIALIZE_VOTING_DISCRIMINATOR + bs == EncodeInstruction(r.value.0) + r.value.1
  {
    var (companyId, r1) :- DecodeU64(bs);
    var (votingId, r2) :- DecodeU64(r1);
    var (question, r3) :- DecodeString(r2);
    var (options, r4) :- DecodeStrings(r3);
    var ix := InitializeVotingIx(companyId, votingId, question, options);
    EncodeInitializeVotingThen(ix, r4);
    Ok((ix, r4))
  }

  /** The encoding of an `initialize_voting` instruction followed by `rest`, argument by argument. */
  lemma EncodeInitializeVotingThen(ix: Instruction, rest: seq<byte>)
    requires ix.InitializeVotingIx? && EncodableIx(ix)
    ensures EncodeInstruction(ix) + rest ==
              INITIALIZE_VOTING_DISCRIMINATOR +
              (EncodeU64(ix.companyId) + (EncodeU64(ix.votingId) + (EncodeString(ix.question) +
              (EncodeStrings(ix.options) + rest))))
  {
  }

  function DecodeVoteArgs(bs: seq<byte>): (r: Decoded<Instruction>)
    ensures r.Ok? ==> && r.value.0.VoteIx?
                      && VOTE_DISCRIMINATOR + bs == EncodeInstruction(r.value.0) + r.value.1
  {
    var (companyId, r1) :- DecodeU64(bs);
    var (votingId, r2) :- DecodeU64(r1);
    var (selectedOption, r3) :- DecodeU8(r2);
    var ix := VoteIx(companyId, votingId, selectedOption);
    assert VOTE_DISCRIMINATOR + bs == EncodeInstruction(ix) + r3;
    Ok((ix, r3))
  }

  /**
   * Instruction data: at least a discriminator, one of the two known ones,
   * followed by arguments that deserialize. Trailing bytes are ignored.
   */
  function DecodeInstruction(data: seq<byte>): (r: Result<Instruction, DispatchError>)
    ensures |data| < 8 ==> r == Err(InstructionMissing)
    ensures |data| >= 8 && data[..8] != INITIALIZE_VOTING_DISCRIMINATOR && data[..8] != VOTE_DISCRIMINATOR
            ==> r == Err(InstructionFallbackNotFound)
    ensures r.Ok? && r.value.VoteIx? ==> data[..8] == VOTE_DISCRIMINATOR
    ensures r.Ok? && r.value.InitializeVotingIx? ==> data[..8] == INITIALIZE_VOTING_DISCRIMINATOR
    ensures r.Ok? ==> EncodableIx(r.value) && EncodeInstruction(r.value) <= data
  {
    if |data| < 8 then Err(InstructionMissing)
    else if data[..8] == INITIALIZE_VOTING_DISCRIMINATOR then
      assert data == INITIALIZE_VOTING_DISCRIMINATOR + data[8..];
      match DecodeInitializeVotingArgs(data[8..])
      case Ok((ix, _)) => Ok(ix)
      case Err(_) => Err(InstructionDidNotDeserialize)
    else if data[..8] == VOTE_DISCRIMINATOR then
      assert data == VOTE_DISCRIMINATOR + data[8..];
      match DecodeVoteArgs(data[8..])
      case Ok((ix, _)) => Ok(ix)
      case Err(_) => Err(InstructionDidNotDeserialize)
    else Err(InstructionFallbackNotFound)
  }

  lemma InitializeVotingArgsRoundTrip(ix: Instruction, slack: seq<byte>)
    requires ix.InitializeVotingIx? && EncodableIx(ix)
    ensures DecodeInitializeVotingArgs(EncodeInstruction(ix)[8..] + slack) == Ok((ix, slack))
  {
    var r4 := EncodeStrings(ix.options) + slack;
    var r3 := EncodeString(ix.question) + r4;
    var r2 := EncodeU64(ix.votingId) + r3;
    var r1 := EncodeU64(ix.companyId) + r2;
    assert EncodeInstruction(ix)[8..] + slack == r1;
    DecodeU64Encoded(ix.companyId, r2);
    DecodeU64Encoded(ix.votingId, r3);
    DecodeStringEncoded(ix.question, r4);
    DecodeStringsEncoded(ix.options, slack);
  }

  lemma VoteArgsRoundTrip(ix: Instruction, slack: seq<byte>)
    requires ix.VoteIx?
    ensures DecodeVoteArgs(EncodeInstruction(ix)[8..] + slack) == Ok((ix, slack))
  {
    var r3 := EncodeU8(ix.selectedOption) + slack;
    var r2 := EncodeU64(ix.votingId) + r3;
    var r1 := EncodeU64(ix.companyId) + r2;
    assert EncodeInstruction(ix)[8..] + slack == r1;
    DecodeU64Encoded(ix.companyId, r2);
    DecodeU64Encoded(ix.votingId, r3);
  }

  lemma SplitAfterDiscriminator(encoded: seq<byte>, slack: seq<byte>)
    requires |encoded| >= 8
    ensures (encoded + slack)[..8] == encoded[..8]
    ensures (encoded + slack)[8..] == encoded[8..] + slack
  {
  }

  /** Decoding encoded instruction data, with anything after it, gives back the instruction. */
  lemma InstructionRoundTrip(ix: Instruction, slack: seq<byte>)
    requires EncodableIx(ix)
    ensures DecodeInstruction(EncodeInstruction(ix) + slack) == Ok(ix)
  {
    SplitAfterDiscriminator(EncodeInstruction(ix), slack);
    if ix.InitializeVotingIx? {
      InitializeVotingArgsRoundTrip(ix, slack);
    } else {
      assert VOTE_DISCRIMINATOR != INITIALIZE_VOTING_DISCRIMINATOR by {
        assert VOTE_DISCRIMINATOR[0] != INITIALIZE_VOTING_DISCRIMINATOR[0];
      }
      VoteArgsRoundTrip(ix, slack);
    }
  }

  /**
   * Data with a known discriminator is refused as `InstructionDidNotDeserialize`
   * exactly when it does not start with the encoding of any instruction.
   */
  lemma InstructionArgsRefused(data: seq<byte>)
    ensures DecodeInstruction(data) == Err(InstructionDidNotDeserialize) <==>
              && |data| >= 8
              && (data[..8] == INITIALIZE_VOTING_DISCRIMINATOR || data[..8] == VOTE_DISCRIMINATOR)
              && forall ix | EncodableIx(ix) :: !(EncodeInstruction(ix) <= data)
  {
    if DecodeInstruction(data) == Err(InstructionDidNotDeserialize) {
      forall ix | EncodableIx(ix)
        ensures !(EncodeInstruction(ix) <= data)
      {
        if EncodeInstruction(ix) <= data {
          EncodedPrefixDecodes(ix, data);
        }
      }
    }
  }

  /** Data that starts with an encoded instruction decodes to it. */
  lemma EncodedPrefixDecodes(ix: Instruction, data: seq<byte>)
    requires EncodableIx(ix) && EncodeInstruction(ix) <= data
    ensures DecodeInstruction(data) == Ok(ix)
  {
    var slack := data[|EncodeInstruction(ix)|..];
    assert data == EncodeInstruction(ix) + slack;
    InstructionRoundTrip(ix, slack);
  }

  /** Every session's total is below the u64 maximum, so any vote can be counted. */
  predicate TotalsBelowMax(accts: Accounts) {
    forall a | a in accts && accts[a].Session? :: accts[a].voting.totalVotes < U64_MAX
  }

  /**
   * The program's entry point: decode the instruction data and run the
   * handler it names, `signer` being the transaction's signer (the payer of
   * `initialize_voting`, the voter of `vote`).
   */
  function Process(accts: Accounts, signer: Pubkey, data: seq<byte>): (r: Result<Accounts, TransactionError>)
    requires Program.Valid(accts) && TotalsBelowMax(accts)
    ensures DecodeInstruction(data).Err? ==> r == Err(Dispatch(DecodeInstruction(data).error))
  {
    var ix :- DecodeInstruction(data).MapFailure(e => Dispatch(e));
    Run(accts, signer, ix).MapFailure(e => Handler(e))
  }

  /** The handler an instruction names, applied to its arguments. */
  function Run(accts: Accounts, signer: Pubkey, ix: Instruction): Result<Accounts, Error>
    requires Program.Valid(accts) && TotalsBelowMax(accts)
  {
    match ix
    case InitializeVotingIx(companyId, votingId, question, options) =>
      InitializeVoting(accts, companyId, votingId, question, options)
    case VoteIx(companyId, votingId, selectedOption) =>
      ValidCanCount(accts, companyId, votingId);
      Vote(accts, companyId, votingId, signer, selectedOption)
  }

  /** Processing encoded instruction data runs exactly the handler it encodes, with its arguments. */
  lemma ProcessEncoded(accts: Accounts, signer: Pubkey, ix: Instruction)
    requires Program.Valid(accts) && TotalsBelowMax(accts) && EncodableIx(ix)
    ensures
      var r := Process(accts, signer, EncodeInstruction(ix));
      match ix
      case InitializeVotingIx(companyId, votingId, question, options) =>
        r == InitializeVoting(accts, companyId, votingId, question, options).MapFailure(e => Handler(e))
      case VoteIx(companyId, votingId, selectedOption) =>
        CanCount(accts, companyId, votingId) &&
        r == Vote(accts, companyId, votingId, signer, selectedOption).MapFailure(e => Handler(e))
  {
    InstructionRoundTrip(ix, []);
    assert EncodeInstruction(ix) + [] == EncodeInstruction(ix);
    if ix.VoteIx? {
      ValidCanCount(accts, ix.companyId, ix.votingId);
    }
  }

  /** Whatever instruction data arrives, the ledger stays valid. */
  lemma ProcessPreservesValid(accts: Accounts, signer: Pubkey, data: seq<byte>)
    requires Program.Valid(accts) && TotalsBelowMax(accts)
    ensures var r := Process(accts, signer, data);
            r.Ok? ==> Program.Valid(r.value)
  {
    var d := DecodeInstruction(data);
    if d.Ok? {
      match d.value
      case InitializeVotingIx(companyId, votingId, question, options) =>
        InitializeVotingPreservesValid(accts, companyId, votingId, question, options);
      case VoteIx(companyId, votingId, selectedOption) =>
        ValidCanCount(accts, companyId, votingId);
        VotePreservesValid(accts, companyId, votingId, signer, selectedOption);
    }
  }
}
