/**
 * The ledger as the program sees it: one mutable store of accounts, changed
 * in place by the two entry points. Each method does what the handler and
 * its account constraints do, step by step, and is proved to leave the store
 * exactly as the state machine in `Program` says.
 */
module Runtime {
  import opened Wrappers
  import opened Bytes
  import opened Addresses
  import opened Layout
  import opened Program
  import opened Properties

  /** The result of a transaction as its sender sees it. */
  datatype Outcome = Success | Failure(error: Error)

  function OutcomeOf(r: Result<Accounts, Error>): Outcome {
    if r.Ok? then Success else Failure(r.error)
  }

  class Ledger {
    var accounts: Accounts

    ghost predicate Valid()
      reads this
    {
      Program.Valid(accounts)
    }

    constructor ()
      ensures Valid() && accounts == map[]
    {
      accounts := map[];
    }

    /** `initialize_voting(company_id, voting_id, question, options)`. */
    method InitializeVoting(companyId: u64, votingId: u64, question: seq<byte>, options: seq<seq<byte>>)
      returns (outcome: Outcome)
      requires Valid()
      modifies this
      ensures Valid()
      ensures var r := Program.InitializeVoting(old(accounts), companyId, votingId, question, options);
              outcome == OutcomeOf(r) && accounts == After(old(accounts), r)
    {
      // account constraint: `init` at ["voting", company_id, voting_id]
      var address := VotingAddress(companyId, votingId);
      if address in accounts {
        return Failure(AccountAlreadyInUse);
      }
      // handler
      if !(2 <= |options| <= 3) {
        return Failure(Program(InvalidOptionsCount));
      }
      var voting := VotingAccount(companyId, votingId, question, options, ZeroTallies(|options|), 0);
      accounts := accounts[address := Session(voting)];
      InitializeVotingPreservesValid(old(accounts), companyId, votingId, question, options);
      outcome := Success;
    }

    /** `vote(company_id, voting_id, selected_option)` signed by `voter`. */
    method Vote(companyId: u64, votingId: u64, voter: Pubkey, selectedOption: byte) returns (outcome: Outcome)
      requires Valid()
      requires var a := VotingAddress(companyId, votingId);
               a in accounts && accounts[a].Session? ==> accounts[a].voting.totalVotes < U64_MAX
      modifies this
      ensures Valid()
      ensures CanCount(old(accounts), companyId, votingId)
      ensures var r := Program.Vote(old(accounts), companyId, votingId, voter, selectedOption);
              outcome == OutcomeOf(r) && accounts == After(old(accounts), r)
    {
      ValidCanCount(accounts, companyId, votingId);
      // account constraint: the session at ["voting", company_id, voting_id] exists
      var session := VotingAddress(companyId, votingId);
      if session !in accounts || !accounts[session].Session? {
        return Failure(AccountNotInitialized);
      }
      // account constraint: `init` at ["vote", session, voter]
      var ballot := VoteAddress(session, voter);
      AddressKindsDisjoint(companyId, votingId, session, voter, voter);
      if ballot in accounts {
        return Failure(AccountAlreadyInUse);
      }
      // handler
      var voting := accounts[session].voting;
      if selectedOption >= |voting.options| {
        return Failure(Program(InvalidOption));
      }
      accounts := accounts[ballot := Ballot(VoteAccount(voter, selectedOption))];
      voting := voting.(votes := voting.votes[selectedOption := voting.votes[selectedOption] + 1]);
      voting := voting.(totalVotes := voting.totalVotes + 1);
      accounts := accounts[session := Session(voting)];
      VotePreservesValid(old(accounts), companyId, votingId, voter, selectedOption);
      outcome := Success;
    }
  }

  /** A session with two options, one voter voting twice: the second vote is refused and counts nothing. */
  method VoteTwiceScenario(voter: Pubkey) {
    var ledger := new Ledger();
    var created := ledger.InitializeVoting(1, 1, [0x51], [[0x59], [0x4e]]);
    assert created == Success;
    var first := ledger.Vote(1, 1, voter, 0);
    assert first == Success;
    var second := ledger.Vote(1, 1, voter, 1);
    assert second == Failure(AccountAlreadyInUse);
    assert ledger.accounts[VotingAddress(1, 1)].voting.votes == [1, 0];
    var again := ledger.InitializeVoting(1, 1, [0x52], [[0x41], [0x42], [0x43]]);
    assert again == Failure(AccountAlreadyInUse);
    assert ledger.accounts[VotingAddress(1, 1)].voting.totalVotes == 1;
  }
}
