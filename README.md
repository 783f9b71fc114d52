# Solana voting program — Dafny model

This project models the on-ledger voting program of SolanaVoting (an Anchor
program written in Rust). A voting session is an account created once per
(company id, voting id) pair. It holds a question, two or three option labels,
one counter per option and a running total. A voter casts at most one vote per
session. The vote creates a per-voter record account and adds one to the chosen
option's counter and to the total.

The model has these parts:

- `bytes.dfy` (`Bytes`): fixed-width unsigned integers and their little-endian
  bytes, as produced by `to_le_bytes`.
- `borsh.dfy` (`Borsh`): the Borsh encoding of integers, strings, `Vec<String>`
  and `Vec<u64>`, with decoders that fail instead of reading past the end.
- `layout.dfy` (`Layout`): the two account types. Each is stored as an 8-byte
  Anchor account discriminator followed by its fields in declaration order. The
  file also holds the `SPACE` constants reserved for each type.
- `addresses.dfy` (`Addresses`): the seeds of the two program-derived addresses,
  `["voting", company_id LE8, voting_id LE8]` and `["vote", session, voter]`.
- `program.dfy` (`Program`): the two entry points as a state machine over the
  ledger's accounts, and the ledger invariant.
- `properties.dfy` (`Properties`): the lemmas that both entry points keep the
  invariant, that a session is created once, that a voter votes once per
  session, and that sessions are independent.
- `runtime.dfy` (`Runtime`): a `Ledger` class. Its methods change the account
  store in place, step by step, and are proved to agree with `Program`.
- `instructions.dfy` (`Instructions`): instruction data, meaning Anchor's
  8-byte instruction discriminator followed by the Borsh-encoded handler
  arguments, and the dispatch to the two handlers.

Modelling choices:

- A transaction is atomic. An entry point returns either the new accounts or
  the error that aborted it, and an aborted transaction changes nothing.
- Anchor validates the declared accounts before the handler body runs, so the
  account errors come first. For `initialize_voting`, an existing session
  account gives `AccountAlreadyInUse` even when the option count is also
  wrong. For `vote`, a missing session gives `AccountNotInitialized`. An
  existing vote record gives `AccountAlreadyInUse` before the option index is
  checked.
- A derived address is represented by its seed list (`Addresses.Derived`).
  This stands for the hash-and-bump search, treated as injective and as never
  producing a wallet key. A seed that is an address's bytes
  (`voting.key().as_ref()`) is `KeyOf(address)`.
- Strings are byte sequences, which stand for their UTF-8 encoding.
- The discriminators are constants: the first 8 bytes of SHA-256 of
  `account:VotingAccount`, `account:VoteAccount`, `global:initialize_voting`
  and `global:vote`.
- The ledger invariant (`Program.Valid`) has three parts:
  - every session sits at the address derived from its own ids, has two or
    three options and one counter per option, and its counters add up to its
    total;
  - every vote record sits at the address derived from an existing session and
    its own voter, and names one of that session's options;
  - each counter equals the number of vote records for its option, and the
    total equals the number of vote records of the session.

The vote record stores the voter's key and the chosen option
(`lib.rs:75-77`), and the model keeps both.

## Model

| member | source | states |
|---|---|---|
| `Bytes.U64Bytes` | src/SolanaVoting.SmartContract/programs/voting/src/lib.rs:102-103 | `to_le_bytes` of a u64 is 8 bytes |
| `Bytes.LittleEndianRoundTrip` | src/SolanaVoting.SmartContract/programs/voting/src/lib.rs:102-103 | reading back the little-endian bytes of a value that fits gives the value |
| `Bytes.FromLittleEndianRoundTrip` | src/SolanaVoting.SmartContract/programs/voting/src/lib.rs:102-103 | writing back the value of any byte string gives the same bytes |
| `Bytes.U64BytesInjective` | src/SolanaVoting.SmartContract/programs/voting/src/lib.rs:100-104 | two ids have the same 8-byte seed exactly when they are equal |
| `Borsh.DecodeU64` | src/SolanaVoting.SmartContract/programs/voting/src/lib.rs:159-160 | a u64 field fails exactly when fewer than 8 bytes remain; otherwise the input is the field's bytes followed by the rest |
| `Borsh.DecodeString` | src/SolanaVoting.SmartContract/programs/voting/src/lib.rs:161 | a decoded string is length-prefixed and followed by the rest of the input |
| `Borsh.DecodeStringEncoded` | src/SolanaVoting.SmartContract/programs/voting/src/lib.rs:161 | an encoded `String` decodes back to itself and leaves the following bytes |
| `Borsh.DecodeStringOverrun` | src/SolanaVoting.SmartContract/programs/voting/src/lib.rs:161 | a string whose declared length runs past the end of the buffer is refused |
| `Borsh.DecodeStringItems` | src/SolanaVoting.SmartContract/programs/voting/src/lib.rs:162 | n decoded strings are the encoding of exactly those n strings followed by the rest of the input |
| `Borsh.DecodeStrings` | src/SolanaVoting.SmartContract/programs/voting/src/lib.rs:162 | a decoded `Vec<String>` is its own count-prefixed encoding followed by the rest of the input |
| `Borsh.DecodeU64Items` | src/SolanaVoting.SmartContract/programs/voting/src/lib.rs:163 | n decoded u64 values are the encoding of exactly those values followed by the rest of the input |
| `Borsh.DecodeU64s` | src/SolanaVoting.SmartContract/programs/voting/src/lib.rs:163 | a decoded `Vec<u64>` is its own count-prefixed encoding followed by the rest of the input |
| `Borsh.DecodeStringItemsEncoded` | src/SolanaVoting.SmartContract/programs/voting/src/lib.rs:162 | the elements of an encoded `Vec<String>` decode back in order |
| `Borsh.DecodeStringsEncoded` | src/SolanaVoting.SmartContract/programs/voting/src/lib.rs:162 | an encoded `Vec<String>` decodes back to itself |
| `Borsh.DecodeU64ItemsEncoded` | src/SolanaVoting.SmartContract/programs/voting/src/lib.rs:163 | the elements of an encoded `Vec<u64>` decode back in order |
| `Borsh.DecodeU64sEncoded` | src/SolanaVoting.SmartContract/programs/voting/src/lib.rs:163 | an encoded `Vec<u64>` decodes back to itself |
| `Layout.EncodeVotingAccount` | src/SolanaVoting.SmartContract/programs/voting/src/lib.rs:157-165 | stored bytes start with the account discriminator; their length is 8+8+8, plus 4+question, plus 4 and 4+label per option, plus 4, and 8 per counter, plus 8 |
| `Layout.DecodeVotingAccount` | src/SolanaVoting.SmartContract/programs/voting/src/lib.rs:157-165 | fewer than 8 bytes: no discriminator; a different discriminator: mismatch; a success returns a storable session whose stored bytes start the data |
| `Layout.StoredPrefixDecodes` | src/SolanaVoting.SmartContract/programs/voting/src/lib.rs:157-165 | data that starts with a session's stored bytes decodes to that session, whatever follows |
| `Layout.VotingAccountDidNotDeserialize` | src/SolanaVoting.SmartContract/programs/voting/src/lib.rs:157-165 | with the right discriminator, the data is refused as `DidNotDeserialize` exactly when no session's stored bytes start it |
| `Layout.QuestionOverrun` | src/SolanaVoting.SmartContract/programs/voting/src/lib.rs:161 | a stored question whose declared length runs past the end of the data makes the session `DidNotDeserialize` |
| `Layout.VotingAccountRoundTrip` | src/SolanaVoting.SmartContract/programs/voting/src/lib.rs:157-165 | stored bytes of a session, followed by any unused reserved bytes, decode to the same session |
| `Layout.EncodeVotingAccountInjective` | src/SolanaVoting.SmartContract/programs/voting/src/lib.rs:157-165 | two sessions are stored as the same bytes exactly when they are equal |
| `Layout.StringItemsSizeBound` | src/SolanaVoting.SmartContract/programs/voting/src/lib.rs:178 | options of at most L bytes take at most 4+L bytes each, and exactly that when all are L bytes |
| `Layout.VotingAccountFitsSpace` | src/SolanaVoting.SmartContract/programs/voting/src/lib.rs:167-181 | a question of at most 256 bytes and at most 3 options of at most 64 bytes with one counter each fit in `SPACE`, and fill it exactly at those maxima |
| `Layout.EncodeVoteAccount` | src/SolanaVoting.SmartContract/programs/voting/src/lib.rs:185-197 | a vote record's stored bytes start with its discriminator and are exactly `VoteAccount::SPACE` = 8+32+1 long |
| `Layout.DecodeVoteAccount` | src/SolanaVoting.SmartContract/programs/voting/src/lib.rs:185-189 | decoding succeeds exactly when the data has at least 41 bytes and the right discriminator |
| `Layout.VoteAccountRoundTrip` | src/SolanaVoting.SmartContract/programs/voting/src/lib.rs:185-189 | a stored vote record decodes to the same voter and option |
| `Layout.AccountTypesDoNotMix` | src/SolanaVoting.SmartContract/programs/voting/src/lib.rs:157-189 | a vote record never decodes as a session, nor a session as a vote record |
| `Addresses.VotingSeeds` | src/SolanaVoting.SmartContract/programs/voting/src/lib.rs:100-104 | the session seeds are three, led by `b"voting"` |
| `Addresses.VoteSeeds` | src/SolanaVoting.SmartContract/programs/voting/src/lib.rs:142 | the vote-record seeds are three, led by `b"vote"` |
| `Addresses.VotingAddressInjective` | src/SolanaVoting.SmartContract/programs/voting/src/lib.rs:96-106 | one session address per (company_id, voting_id), and different pairs never share one |
| `Addresses.VoteAddressInjective` | src/SolanaVoting.SmartContract/programs/voting/src/lib.rs:138-145 | one vote-record address per (session, voter), different pairs never share one, and the session can be read back from it |
| `Addresses.AddressKindsDisjoint` | src/SolanaVoting.SmartContract/programs/voting/src/lib.rs:100-142 | a session address is never a vote-record address, and neither is a wallet key |
| `Program.ZeroTallies` | src/SolanaVoting.SmartContract/programs/voting/src/lib.rs:45 | one zero counter per option |
| `Program.InitializeVoting` | src/SolanaVoting.SmartContract/programs/voting/src/lib.rs:23-49 | fails with `AccountAlreadyInUse` exactly when the session address is taken; otherwise fails with `InvalidOptionsCount` exactly when there are not 2 or 3 options; succeeds exactly when the address is free and there are 2 or 3 options; on success adds only the session, with the given ids, question and options, zero counters and total 0 |
| `Program.Counted` | src/SolanaVoting.SmartContract/programs/voting/src/lib.rs:80-81 | the chosen counter and the total go up by one; the other counters, the ids, the question and the options are unchanged |
| `Program.Vote` | src/SolanaVoting.SmartContract/programs/voting/src/lib.rs:60-84 | fails with `AccountNotInitialized` exactly when there is no session; with `AccountAlreadyInUse` exactly when the voter's record exists; with `InvalidOption` exactly when the index is not below the option count; succeeds exactly when the session exists, the voter has no record in it and the index is in range; on success adds only the record (voter, option) and counts the vote in the session |
| `Program.Valid` | src/SolanaVoting.SmartContract/programs/voting/src/lib.rs:44-81 | the ledger invariant that lines 45-46 establish and lines 80-81 keep: every session is well shaped and at its own address, every vote record is at its own address in an existing session, each counter is the number of records for its option and the total is the number of records |
| `Properties.SumOfZeros` | src/SolanaVoting.SmartContract/programs/voting/src/lib.rs:45-46 | zero counters add up to the zero total |
| `Properties.SumIncrement` | src/SolanaVoting.SmartContract/programs/voting/src/lib.rs:80-81 | adding one to one counter adds one to their sum |
| `Properties.SumBoundsEach` | src/SolanaVoting.SmartContract/programs/voting/src/lib.rs:80-81 | no counter exceeds the sum of all counters |
| `Properties.ValidCanCount` | src/SolanaVoting.SmartContract/programs/voting/src/lib.rs:80-81 | in a valid ledger, a total below the u64 maximum means no counter is at the maximum |
| `Properties.EmptyLedgerValid` | src/SolanaVoting.SmartContract/programs/voting/src/lib.rs:157-189 | a ledger with no accounts satisfies the invariant |
| `Properties.InitializedFromInitializeVoting` | src/SolanaVoting.SmartContract/programs/voting/src/lib.rs:39-46 | a created session is at its own ids' address, is well shaped, and has zero counters and total |
| `Properties.InitializedHasNoBallots` | src/SolanaVoting.SmartContract/programs/voting/src/lib.rs:136-145 | a newly created session has no vote records |
| `Properties.InitializeVotingPreservesValid` | src/SolanaVoting.SmartContract/programs/voting/src/lib.rs:23-49 | `initialize_voting` keeps the ledger invariant |
| `Properties.VotedBallots` | src/SolanaVoting.SmartContract/programs/voting/src/lib.rs:75-81 | a vote adds exactly its own record to the session's records |
| `Properties.VotedBallotsFor` | src/SolanaVoting.SmartContract/programs/voting/src/lib.rs:75-81 | a vote adds one record for the chosen option and none for the others |
| `Properties.VotedBallotsElsewhere` | src/SolanaVoting.SmartContract/programs/voting/src/lib.rs:138-145 | a vote leaves the records of every other session unchanged |
| `Properties.VotePreservesValid` | src/SolanaVoting.SmartContract/programs/voting/src/lib.rs:60-84 | `vote` keeps the ledger invariant, so counters keep counting the records and keep adding up to the total |
| `Properties.SecondInitializeFails` | src/SolanaVoting.SmartContract/programs/voting/src/lib.rs:95-106 | after a session is created, a second `initialize_voting` for the same ids fails with `AccountAlreadyInUse` and changes nothing |
| `Properties.SecondVoteFails` | src/SolanaVoting.SmartContract/programs/voting/src/lib.rs:136-145 | after a vote, the same voter's next vote in that session fails with `AccountAlreadyInUse`, whatever option it names |
| `Properties.VotingElsewhereUnaffected` | src/SolanaVoting.SmartContract/programs/voting/src/lib.rs:142 | a vote in one session does not change whether the same voter's vote in another session succeeds |
| `Properties.SessionFitsSpace` | src/SolanaVoting.SmartContract/programs/voting/src/lib.rs:167-181 | a session within the documented sizes fits its reserved space, however many votes it has |
| `Properties.OneVoteScenario` | src/SolanaVoting.SmartContract/programs/voting/src/lib.rs:23-84 | company 1, voting 1, options "Yes"/"No", one vote for option 0: counters [1, 0], total 1, record (voter, 0) |
| `Runtime.Ledger.InitializeVoting` | src/SolanaVoting.SmartContract/programs/voting/src/lib.rs:23-49 | the in-place update leaves the store as `Program.InitializeVoting` says, reports its outcome, and keeps the invariant |
| `Runtime.Ledger.Vote` | src/SolanaVoting.SmartContract/programs/voting/src/lib.rs:60-84 | the in-place update leaves the store as `Program.Vote` says, reports its outcome, and keeps the invariant |
| `Instructions.EncodeInstruction` | src/SolanaVoting.SmartContract/programs/voting/src/lib.rs:23-28 | instruction data starts with the discriminator of the handler it names |
| `Instructions.DecodeInstruction` | src/SolanaVoting.SmartContract/programs/voting/src/lib.rs:9-85 | data shorter than 8 bytes is `InstructionMissing`; a discriminator of neither handler is `InstructionFallbackNotFound`; a success is an encodable instruction whose encoding starts the data |
| `Instructions.EncodedPrefixDecodes` | src/SolanaVoting.SmartContract/programs/voting/src/lib.rs:9-85 | data that starts with an encoded instruction decodes to that instruction, whatever follows |
| `Instructions.InstructionArgsRefused` | src/SolanaVoting.SmartContract/programs/voting/src/lib.rs:9-85 | with a handler's discriminator, the data is refused as `InstructionDidNotDeserialize` exactly when no instruction's encoding starts it |
| `Instructions.InitializeVotingArgsRoundTrip` | src/SolanaVoting.SmartContract/programs/voting/src/lib.rs:23-28 | the arguments (company_id, voting_id, question, options) decode back in order |
| `Instructions.VoteArgsRoundTrip` | src/SolanaVoting.SmartContract/programs/voting/src/lib.rs:60-65 | the arguments (company_id, voting_id, selected_option) decode back in order |
| `Instructions.InstructionRoundTrip` | src/SolanaVoting.SmartContract/programs/voting/src/lib.rs:9-85 | encoded instruction data, with anything after it, decodes to the same instruction |
| `Instructions.Process` | src/SolanaVoting.SmartContract/programs/voting/src/lib.rs:9-85 | data that does not decode aborts with the dispatch error and no handler runs |
| `Instructions.ProcessEncoded` | src/SolanaVoting.SmartContract/programs/voting/src/lib.rs:9-85 | encoded instruction data runs exactly the handler it encodes, with its arguments |
| `Instructions.ProcessPreservesValid` | src/SolanaVoting.SmartContract/programs/voting/src/lib.rs:9-85 | whatever instruction data arrives, the ledger invariant holds afterwards |

## Left out

- Program.Vote: requires, through `CanCount`, that the session has one counter per option (`|votes| == |options|`, which `initialize_voting` sets up and every valid ledger has) and that its counters and total are below 2^64−1. Whether `+= 1` at the maximum wraps or panics depends on a build profile that is not part of this model.
- Runtime.Ledger.Vote: requires the session's total to be below 2^64−1, for the same reason. In a valid ledger this implies the `CanCount` bound.
- Instructions.Process: requires every session's total to be below 2^64−1, for the same reason.
- Seeds constraint: the model takes no account list. Each handler works on the accounts at the derived addresses `VotingAddress(company_id, voting_id)` and `VoteAddress(session, voter)`. Anchor checks that the passed accounts are those addresses (`lib.rs:100-105`, `lib.rs:127-133`, `lib.rs:142`) and aborts with `ConstraintSeeds` otherwise. That abort is not modelled: the accounts are assumed to be the derived ones, and the one-session-per-ids and one-vote-per-voter properties rest on that check.
- Address derivation: the SHA-256 hash, the bump search and the off-curve test are not modelled. A derived address is its seed list. The program id from `declare_id!` is left out because it is the same for every address.
- Instructions.DecodeInstruction: Anchor's built-in IDL-management instructions, whose data starts with the IDL tag and which every program built without `no-idl` accepts, are not modelled; the model reports such data as `InstructionFallbackNotFound`.
- Discriminators: the hashes that produce the discriminators are not modelled; only their 8-byte values are used.
- Account checks other than existence are left out: signer and `mut` flags, account ownership, rent paid by `authority`/`voter`, and the System Program call that creates accounts. The `authority` of `initialize_voting` is not recorded, because the program does not store it.
- Program.InitializeVoting: succeeds whenever the address is free and there are 2 or 3 options, without the account-size failure. The ledger stores account values, not their bytes. When a handler finishes, Anchor writes the account into its reserved `SPACE` bytes and fails with `AccountDidNotSerialize` if it does not fit. A session whose stored bytes exceed `VOTING_ACCOUNT_SPACE` (528) is refused on the ledger but accepted by the model; a longer question with short labels can still fit. `Properties.SessionFitsSpace` shows that sessions within the documented sizes always fit, after any number of votes.
- UTF-8: strings are byte sequences. The check that a decoded `String` is valid UTF-8 is left out.
- Borsh errors: all decoding failures are one error (`UnexpectedEnd`).
- Error messages: the text attached to `InvalidOptionsCount` and `InvalidOption` is left out; only the variants are modelled.
- The C# client is not part of this model: transaction submission, confirmation polling, RPC, wallet loading and console output.
- Concurrency: transactions are applied one at a time, as the ledger orders them.
