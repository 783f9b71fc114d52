/**
 * The voting program as a state machine over the ledger's accounts. Each
 * entry point takes the accounts before the transaction and returns either
 * the accounts after it or the error that aborted it; an aborted transaction
 * changes nothing. Account validation (the session must exist, an `init`
 * target must not) happens before the handler body, in the order the
 * accounts are declared.
 */
module Program {
  import opened Wrappers
  import opened Bytes
  import opened Addresses
  import opened Layout

  /** What lives at an address: a voting session or a vote record. */
  datatype Account = Session(voting: VotingAccount) | Ballot(vote: VoteAccount)

  /** The ledger's accounts, by address. */
  type Accounts = map<Address, Account>

  /** The program's own error codes. */
  datatype VotingError = InvalidOptionsCount | InvalidOption

  /** Why a transaction was aborted. */
  datatype Error =
    | Program(code: VotingError)
    | AccountAlreadyInUse      // an `init` target already exists
    | AccountNotInitialized    // the voting session to vote in does not exist

  /** The counters of a session: one zero per option. */
  function ZeroTallies(n: nat): (votes: seq<u64>)
    ensures |votes| == n && forall i | 0 <= i < n :: votes[i] == 0
  {
    seq(n, _ => 0)
  }

  /**
   * `initialize_voting`: create the session account at
   * ["voting", company_id, voting_id] and fill it in.
   */
  function InitializeVoting(accts: Accounts, companyId: u64, votingId: u64,
                            question: seq<byte>, options: seq<seq<byte>>): (r: Result<Accounts, Error>)
    ensures r == Err(AccountAlreadyInUse) <==> VotingAddress(companyId, votingId) in accts
    ensures r == Err(Program(InvalidOptionsCount)) <==>
              VotingAddress(companyId, votingId) !in accts && !(2 <= |options| <= 3)
    ensures r.Ok? <==> VotingAddress(companyId, votingId) !in accts && 2 <= |options| <= 3
    ensures r.Ok? ==>
              var address := VotingAddress(companyId, votingId);
              && r.value.Keys == accts.Keys + {address}
              && (forall a | a in accts :: r.value[a] == accts[a])
              && r.value[address] == Session(VotingAccount(companyId, votingId, question, options,
                                                           ZeroTallies(|options|), 0))
  {
    var address := VotingAddress(companyId, votingId);
    if address in accts then Err(AccountAlreadyInUse)
    else if !(2 <= |options| <= 3) then Err(Program(InvalidOptionsCount))
    else
      var session := VotingAccount(companyId, votingId, question, options, ZeroTallies(|options|), 0);
      Ok(accts[address := Session(session)])
  }

  /**
   * The session's counters can take one more vote: the indexed tally exists
   * and neither it nor the total is at the u64 maximum.
   */
  predicate CanCount(accts: Accounts, companyId: u64, votingId: u64) {
    var address := VotingAddress(companyId, votingId);
    address in accts && accts[address].Session? ==>
      var s := accts[address].voting;
      && |s.votes| == |s.options|
      && s.totalVotes < U64_MAX
      && forall i | 0 <= i < |s.votes| :: s.votes[i] < U64_MAX
  }

  /** A session after one more vote for `option`. */
  function Counted(s: VotingAccount, option: nat): (t: VotingAccount)
    requires option < |s.votes| && s.votes[option] < U64_MAX && s.totalVotes < U64_MAX
    ensures t.companyId == s.companyId && t.votingId == s.votingId
    ensures t.question == s.question && t.options == s.options
    ensures |t.votes| == |s.votes| && t.totalVotes == s.totalVotes + 1
    ensures forall i | 0 <= i < |s.votes| :: t.votes[i] == s.votes[i] + (if i == option then 1 else 0)
  {
    s.(votes := s.votes[option := s.votes[option] + 1], totalVotes := s.totalVotes + 1)
  }

  /**
   * `vote`: the session at ["voting", company_id, voting_id] must exist, the
   * vote record at ["vote", session, voter] is created, and the chosen
   * option's tally and the total go up by one.
   */
  function Vote(accts: Accounts, companyId: u64, votingId: u64, voter: Pubkey, selectedOption: byte): (r: Result<Accounts, Error>)
    requires CanCount(accts, companyId, votingId)
    ensures
      var session := VotingAddress(companyId, votingId);
      var ballot := VoteAddress(session, voter);
      && (r == Err(AccountNotInitialized) <==> session !in accts || !accts[session].Session?)
      && (r == Err(AccountAlreadyInUse) <==> session in accts && accts[session].Session? && ballot in accts)
      && (r == Err(Program(InvalidOption)) <==>
            session in accts && accts[session].Session? && ballot !in accts
            && selectedOption >= |accts[session].voting.options|)
      && (r.Ok? <==>
            session in accts && accts[session].Session? && ballot !in accts
            && selectedOption < |accts[session].voting.options|)
      && (r.Ok? ==>
            && r.value.Keys == accts.Keys + {ballot}
            && (forall a | a in accts && a != session :: r.value[a] == accts[a])
            && r.value[ballot] == Ballot(VoteAccount(voter, selectedOption))
            && r.value[session] == Session(Counted(accts[session].voting, selectedOption)))
  {
    var session := VotingAddress(companyId, votingId);
    if session !in accts || !accts[session].Session? then Err(AccountNotInitialized)
    else
      var ballot := VoteAddress(session, voter);
      AddressKindsDisjoint(companyId, votingId, session, voter, voter);
      if ballot in accts then Err(AccountAlreadyInUse)
      else
        var s := accts[session].voting;
        if selectedOption >= |s.options| then Err(Program(InvalidOption))
        else Ok(accts[ballot := Ballot(VoteAccount(voter, selectedOption))][session := Session(Counted(s, selectedOption))])
  }

  /** The accounts after a transaction: its result, or the old accounts if it aborted. */
  function After(accts: Accounts, r: Result<Accounts, Error>): Accounts {
    if r.Ok? then r.value else accts
  }

  // ---------------------------------------------------------------------------
  // The ledger invariant

  function Sum(xs: seq<u64>): nat {
    if xs == [] then 0 else xs[0] + Sum(xs[1..])
  }

  /** A session's shape: two or three options, one tally per option, and the tallies add up to the total. */
  ghost predicate ValidSession(s: VotingAccount) {
    && 2 <= |s.options| <= 3
    && |s.votes| == |s.options|
    && Sum(s.votes) == s.totalVotes
  }

  /** The vote records of `session` that chose `option`. */
  ghost function BallotsFor(accts: Accounts, session: Address, option: nat): set<Address> {
    set a | a in accts && accts[a].Ballot? && SessionOfVote(a) == session && accts[a].vote.selectedOption == option
  }

  /** All vote records of `session`. */
  ghost function BallotsOf(accts: Accounts, session: Address): set<Address> {
    set a | a in accts && accts[a].Ballot? && SessionOfVote(a) == session
  }

  /** Every session sits at the address derived from its own ids and is well shaped. */
  ghost predicate SessionsInPlace(accts: Accounts) {
    forall a | a in accts && accts[a].Session? ::
      && a == VotingAddress(accts[a].voting.companyId, accts[a].voting.votingId)
      && ValidSession(accts[a].voting)
  }

  /**
   * Every vote record sits at the address derived from an existing session
   * and its own voter, and names one of that session's options.
   */
  ghost predicate BallotsInPlace(accts: Accounts) {
    forall a | a in accts && accts[a].Ballot? ::
      var session := SessionOfVote(a);
      && a == VoteAddress(session, accts[a].vote.voter)
      && session in accts && accts[session].Session?
      && accts[a].vote.selectedOption < |accts[session].voting.options|
  }

  /** Each tally is the number of vote records for its option, and the total the number of vote records. */
  ghost predicate TalliesCountBallots(accts: Accounts) {
    forall a | a in accts && accts[a].Session? ::
      && accts[a].voting.totalVotes == |BallotsOf(accts, a)|
      && forall i | 0 <= i < |accts[a].voting.votes| :: accts[a].voting.votes[i] == |BallotsFor(accts, a, i)|
  }

  ghost predicate Valid(accts: Accounts) {
    SessionsInPlace(accts) && BallotsInPlace(accts) && TalliesCountBallots(accts)
  }
}
