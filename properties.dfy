/**
 * What the two entry points guarantee together: the ledger invariant is kept
 * (one tally per option, tallies add up to the total, each tally counts the
 * vote records for its option), a session is created once, a voter votes
 * once per session, and votes in one session do not affect another.
 */
module Properties {
  import opened Wrappers
  import opened Bytes
  import opened Addresses
  import opened Layout
  import opened Program

  lemma {:induction false} SumOfZeros(n: nat)
    ensures Sum(ZeroTallies(n)) == 0
  {
    if n > 0 {
      assert ZeroTallies(n)[1..] == ZeroTallies(n - 1);
      SumOfZeros(n - 1);
    }
  }

  /** Adding one to one tally adds one to the sum. */
  lemma {:induction false} SumIncrement(xs: seq<u64>, i: nat)
    requires i < |xs| && xs[i] < U64_MAX
    ensures Sum(xs[i := xs[i] + 1]) == Sum(xs) + 1
  {
    var ys := xs[i := xs[i] + 1];
    if i == 0 {
      assert ys[1..] == xs[1..];
    } else {
      assert ys[1..] == xs[1..][i - 1 := xs[i] + 1];
      SumIncrement(xs[1..], i - 1);
    }
  }

  /** No tally exceeds the sum. */
  lemma {:induction false} SumBoundsEach(xs: seq<u64>, i: nat)
    requires i < |xs|
    ensures xs[i] <= Sum(xs)
  {
    if i > 0 {
      SumBoundsEach(xs[1..], i - 1);
    }
  }

  /** In a valid ledger, a total below the u64 maximum is all a vote needs to count without overflow. */
  lemma ValidCanCount(accts: Accounts, companyId: u64, votingId: u64)
    requires Valid(accts)
    requires var a := VotingAddress(companyId, votingId);
             a in accts && accts[a].Session? ==> accts[a].voting.totalVotes < U64_MAX
    ensures CanCount(accts, companyId, votingId)
  {
    var a := VotingAddress(companyId, votingId);
    if a in accts && accts[a].Session? {
      var s := accts[a].voting;
      forall i | 0 <= i < |s.votes|
        ensures s.votes[i] < U64_MAX
      {
        SumBoundsEach(s.votes, i);
      }
    }
  }

  lemma EmptyLedgerValid()
    ensures Valid(map[])
  {
  }

  /** The accounts after a successful `initialize_voting` that created `session` at the fresh `address`. */
  ghost predicate Initialized(accts: Accounts, after: Accounts, address: Address, session: VotingAccount) {
    && address !in accts
    && address == VotingAddress(session.companyId, session.votingId)
    && ValidSession(session)
    && session.totalVotes == 0
    && (forall i | 0 <= i < |session.votes| :: session.votes[i] == 0)
    && after == accts[address := Session(session)]
  }

  lemma InitializedFromInitializeVoting(accts: Accounts, companyId: u64, votingId: u64,
                                        question: seq<byte>, options: seq<seq<byte>>)
    requires InitializeVoting(accts, companyId, votingId, question, options).Ok?
    ensures var address := VotingAddress(companyId, votingId);
            var after := InitializeVoting(accts, companyId, votingId, question, options).value;
            after[address].Session? && Initialized(accts, after, address, after[address].voting)
  {
    SumOfZeros(|options|);
  }

  lemma InitializedKeepsSessionsInPlace(accts: Accounts, after: Accounts, address: Address, session: VotingAccount)
    requires Valid(accts) && Initialized(accts, after, address, session)
    ensures SessionsInPlace(after)
  {
    forall a | a in after && after[a].Session?
      ensures a == VotingAddress(after[a].voting.companyId, after[a].voting.votingId)
      ensures ValidSession(after[a].voting)
    {
      if a != address {
        assert accts[a] == after[a];
      }
    }
  }

  lemma InitializedKeepsBallotsInPlace(accts: Accounts, after: Accounts, address: Address, session: VotingAccount)
    requires Valid(accts) && Initialized(accts, after, address, session)
    ensures BallotsInPlace(after)
  {
    forall a | a in after && after[a].Ballot?
      ensures var owner := SessionOfVote(a);
        && a == VoteAddress(owner, after[a].vote.voter)
        && owner in after && after[owner].Session?
        && after[a].vote.selectedOption < |after[owner].voting.options|
    {
      assert a != address && accts[a] == after[a];
      var owner := SessionOfVote(a);
      assert owner in accts && owner != address;
      assert after[owner] == accts[owner];
    }
  }

  /** A new session has no vote records yet: any record naming it would have needed it to exist. */
  lemma InitializedHasNoBallots(accts: Accounts, after: Accounts, address: Address, session: VotingAccount)
    requires Valid(accts) && Initialized(accts, after, address, session)
    ensures BallotsOf(after, address) == {}
    ensures forall i: nat :: BallotsFor(after, address, i) == {}
  {
    forall b | b in after && after[b].Ballot?
      ensures SessionOfVote(b) != address
    {
      assert b in accts && accts[b] == after[b];
    }
  }

  /** The vote records of every older session are unchanged. */
  lemma InitializedBallotsElsewhere(accts: Accounts, after: Accounts, address: Address, session: VotingAccount,
                                    owner: Address, i: nat)
    requires Initialized(accts, after, address, session) && owner != address
    ensures BallotsOf(after, owner) == BallotsOf(accts, owner)
    ensures BallotsFor(after, owner, i) == BallotsFor(accts, owner, i)
  {
    forall b | b in accts && b != address
      ensures after[b] == accts[b]
    {
    }
  }

  lemma InitializedKeepsTallies(accts: Accounts, after: Accounts, address: Address, session: VotingAccount)
    requires Valid(accts) && Initialized(accts, after, address, session)
    ensures TalliesCountBallots(after)
  {
    forall owner | owner in after && after[owner].Session?
      ensures after[owner].voting.totalVotes == |BallotsOf(after, owner)|
      ensures forall i | 0 <= i < |after[owner].voting.votes| ::
                after[owner].voting.votes[i] == |BallotsFor(after, owner, i)|
    {
      if owner == address {
        InitializedHasNoBallots(accts, after, address, session);
      } else {
        assert after[owner] == accts[owner];
        InitializedBallotsElsewhere(accts, after, address, session, owner, 0);
        forall i | 0 <= i < |after[owner].voting.votes|
          ensures after[owner].voting.votes[i] == |BallotsFor(after, owner, i)|
        {
          InitializedBallotsElsewhere(accts, after, address, session, owner, i);
        }
      }
    }
  }

  /** A successful `initialize_voting` keeps the ledger valid. */
  lemma InitializeVotingPreservesValid(accts: Accounts, companyId: u64, votingId: u64,
                                       question: seq<byte>, options: seq<seq<byte>>)
    requires Valid(accts)
    ensures Valid(After(accts, InitializeVoting(accts, companyId, votingId, question, options)))
  {
    var r := InitializeVoting(accts, companyId, votingId, question, options);
    if r.Ok? {
      var address := VotingAddress(companyId, votingId);
      InitializedFromInitializeVoting(accts, companyId, votingId, question, options);
      var session := r.value[address].voting;
      InitializedKeepsSessionsInPlace(accts, r.value, address, session);
      InitializedKeepsBallotsInPlace(accts, r.value, address, session);
      InitializedKeepsTallies(accts, r.value, address, session);
    }
  }

  /**
   * The accounts after a successful vote by `voter` for `option` in the
   * session at `address`: the record is added at `ballot`, the session is
   * counted, everything else is as before.
   */
  ghost predicate Voted(accts: Accounts, after: Accounts, address: Address, ballot: Address, voter: Pubkey, option: byte) {
    && address in accts && accts[address].Session?
    && ballot !in accts && ballot != address
    && SessionOfVote(ballot) == address && ballot == VoteAddress(address, voter)
    && option < |accts[address].voting.votes|
    && accts[address].voting.votes[option] < U64_MAX && accts[address].voting.totalVotes < U64_MAX
    && after == accts[ballot := Ballot(VoteAccount(voter, option))][address := Session(Counted(accts[address].voting, option))]
  }

  lemma VotedFromVote(accts: Accounts, companyId: u64, votingId: u64, voter: Pubkey, selectedOption: byte)
    requires Valid(accts) && CanCount(accts, companyId, votingId)
    requires Vote(accts, companyId, votingId, voter, selectedOption).Ok?
    ensures var address := VotingAddress(companyId, votingId);
            Voted(accts, Vote(accts, companyId, votingId, voter, selectedOption).value,
                  address, VoteAddress(address, voter), voter, selectedOption)
  {
    var address := VotingAddress(companyId, votingId);
    VoteAddressInjective(address, voter, address, voter);
    AddressKindsDisjoint(companyId, votingId, address, voter, voter);
  }

  lemma VotedKeepsSessionsInPlace(accts: Accounts, after: Accounts, address: Address, ballot: Address, voter: Pubkey, option: byte)
    requires Valid(accts) && Voted(accts, after, address, ballot, voter, option)
    ensures SessionsInPlace(after)
  {
    var old_s := accts[address].voting;
    var s := after[address].voting;
    SumIncrement(old_s.votes, option);
    assert s.votes == old_s.votes[option := old_s.votes[option] + 1];
    assert ValidSession(s);
    forall a | a in after && after[a].Session?
      ensures a == VotingAddress(after[a].voting.companyId, after[a].voting.votingId)
      ensures ValidSession(after[a].voting)
    {
      if a != address {
        assert a != ballot && accts[a] == after[a];
      }
    }
  }

  lemma VotedKeepsBallotsInPlace(accts: Accounts, after: Accounts, address: Address, ballot: Address, voter: Pubkey, option: byte)
    requires Valid(accts) && Voted(accts, after, address, ballot, voter, option)
    ensures BallotsInPlace(after)
  {
    forall a | a in after && after[a].Ballot?
      ensures var session := SessionOfVote(a);
        && a == VoteAddress(session, after[a].vote.voter)
        && session in after && after[session].Session?
        && after[a].vote.selectedOption < |after[session].voting.options|
    {
      if a != ballot {
        assert a != address && accts[a] == after[a];
      }
    }
  }

  /** The vote records of the voted-in session: the old ones and the new one. */
  lemma VotedBallots(accts: Accounts, after: Accounts, address: Address, ballot: Address, voter: Pubkey, option: byte)
    requires Voted(accts, after, address, ballot, voter, option)
    ensures BallotsOf(after, address) == BallotsOf(accts, address) + {ballot}
    ensures |BallotsOf(after, address)| == |BallotsOf(accts, address)| + 1
  {
    forall b
      ensures b in BallotsOf(after, address) <==> b in BallotsOf(accts, address) + {ballot}
    {
      if b != address && b != ballot && b in accts {
        assert after[b] == accts[b];
      }
    }
    assert ballot !in BallotsOf(accts, address);
  }

  /** The vote records of the voted-in session for one option: one more if it was the chosen one. */
  lemma VotedBallotsFor(accts: Accounts, after: Accounts, address: Address, ballot: Address, voter: Pubkey, option: byte, i: nat)
    requires Voted(accts, after, address, ballot, voter, option)
    ensures |BallotsFor(after, address, i)| == |BallotsFor(accts, address, i)| + (if i == option then 1 else 0)
  {
    var extra: set<Address> := if i == option then {ballot} else {};
    forall b
      ensures b in BallotsFor(after, address, i) <==> b in BallotsFor(accts, address, i) + extra
    {
      if b != address && b != ballot && b in accts {
        assert after[b] == accts[b];
      }
    }
    assert BallotsFor(after, address, i) == BallotsFor(accts, address, i) + extra;
    assert ballot !in BallotsFor(accts, address, i);
  }

  /** The vote records of any other session are unchanged. */
  lemma VotedBallotsElsewhere(accts: Accounts, after: Accounts, address: Address, ballot: Address, voter: Pubkey, option: byte,
                              session: Address, i: nat)
    requires Voted(accts, after, address, ballot, voter, option) && session != address
    ensures BallotsOf(after, session) == BallotsOf(accts, session)
    ensures BallotsFor(after, session, i) == BallotsFor(accts, session, i)
  {
    forall b | b in accts && b != address && b != ballot
      ensures after[b] == accts[b]
    {
    }
  }

  lemma VotedKeepsTallies(accts: Accounts, after: Accounts, address: Address, ballot: Address, voter: Pubkey, option: byte)
    requires Valid(accts) && Voted(accts, after, address, ballot, voter, option)
    ensures TalliesCountBallots(after)
  {
    forall session | session in after && after[session].Session?
      ensures after[session].voting.totalVotes == |BallotsOf(after, session)|
      ensures forall i | 0 <= i < |after[session].voting.votes| ::
                after[session].voting.votes[i] == |BallotsFor(after, session, i)|
    {
      if session == address {
        var s := after[session].voting;
        VotedBallots(accts, after, address, ballot, voter, option);
        forall i | 0 <= i < |s.votes|
          ensures s.votes[i] == |BallotsFor(after, session, i)|
        {
          VotedBallotsFor(accts, after, address, ballot, voter, option, i);
        }
      } else {
        assert session != ballot && after[session] == accts[session];
        VotedBallotsElsewhere(accts, after, address, ballot, voter, option, session, 0);
        forall i | 0 <= i < |after[session].voting.votes|
          ensures after[session].voting.votes[i] == |BallotsFor(after, session, i)|
        {
          VotedBallotsElsewhere(accts, after, address, ballot, voter, option, session, i);
        }
      }
    }
  }

  /** A successful `vote` keeps the ledger valid. */
  lemma VotePreservesValid(accts: Accounts, companyId: u64, votingId: u64, voter: Pubkey, selectedOption: byte)
    requires Valid(accts) && CanCount(accts, companyId, votingId)
    ensures Valid(After(accts, Vote(accts, companyId, votingId, voter, selectedOption)))
  {
    var r := Vote(accts, companyId, votingId, voter, selectedOption);
    if r.Ok? {
      var address := VotingAddress(companyId, votingId);
      var ballot := VoteAddress(address, voter);
      VotedFromVote(accts, companyId, votingId, voter, selectedOption);
      VotedKeepsSessionsInPlace(accts, r.value, address, ballot, voter, selectedOption);
      VotedKeepsBallotsInPlace(accts, r.value, address, ballot, voter, selectedOption);
      VotedKeepsTallies(accts, r.value, address, ballot, voter, selectedOption);
    }
  }

  /**
   * A session is created at most once: once `initialize_voting` has succeeded
   * for (company, voting), every later one for the same pair is refused and
   * leaves the ledger, the existing session included, as it is.
   */
  lemma SecondInitializeFails(accts: Accounts, companyId: u64, votingId: u64,
                              question: seq<byte>, options: seq<seq<byte>>,
                              question': seq<byte>, options': seq<seq<byte>>)
    requires InitializeVoting(accts, companyId, votingId, question, options).Ok?
    ensures var after := InitializeVoting(accts, companyId, votingId, question, options).value;
            var again := InitializeVoting(after, companyId, votingId, question', options');
            again == Err(AccountAlreadyInUse) && After(after, again) == after
  {
  }

  /**
   * One vote per voter and session: once a vote has been cast, the same
   * voter's next vote in that session is refused, whatever option it names,
   * and the tallies stay as they are.
   */
  lemma SecondVoteFails(accts: Accounts, companyId: u64, votingId: u64, voter: Pubkey,
                        selectedOption: byte, selectedOption': byte)
    requires CanCount(accts, companyId, votingId)
    requires Vote(accts, companyId, votingId, voter, selectedOption).Ok?
    requires CanCount(Vote(accts, companyId, votingId, voter, selectedOption).value, companyId, votingId)
    ensures var after := Vote(accts, companyId, votingId, voter, selectedOption).value;
            Vote(after, companyId, votingId, voter, selectedOption') == Err(AccountAlreadyInUse)
  {
    var session := VotingAddress(companyId, votingId);
    AddressKindsDisjoint(companyId, votingId, session, voter, voter);
  }

  /**
   * Voting in one session does not use up the voter's vote elsewhere: in any
   * other session the same voter's vote succeeds or fails exactly as it
   * would have before.
   */
  lemma VotingElsewhereUnaffected(accts: Accounts, companyId: u64, votingId: u64, voter: Pubkey, selectedOption: byte,
                                  companyId': u64, votingId': u64, selectedOption': byte)
    requires (companyId, votingId) != (companyId', votingId')
    requires CanCount(accts, companyId, votingId) && CanCount(accts, companyId', votingId')
    requires Vote(accts, companyId, votingId, voter, selectedOption).Ok?
    ensures var after := Vote(accts, companyId, votingId, voter, selectedOption).value;
            && CanCount(after, companyId', votingId')
            && (Vote(after, companyId', votingId', voter, selectedOption').Err? <==>
                Vote(accts, companyId', votingId', voter, selectedOption').Err?)
  {
    var session := VotingAddress(companyId, votingId);
    var session' := VotingAddress(companyId', votingId');
    VotingAddressInjective(companyId, votingId, companyId', votingId');
    VoteAddressInjective(session, voter, session', voter);
    AddressKindsDisjoint(companyId, votingId, session', voter, voter);
    AddressKindsDisjoint(companyId', votingId', session, voter, voter);
    var after := Vote(accts, companyId, votingId, voter, selectedOption).value;
    assert session' in after <==> session' in accts;
    if session' in accts {
      assert after[session'] == accts[session'];
    }
    assert VoteAddress(session', voter) in after <==> VoteAddress(session', voter) in accts;
  }

  /**
   * A session created within the sizes the reserved space was computed for
   * (question up to 256 bytes, options up to 64 bytes) still fits that space
   * after any number of votes: voting changes no length.
   */
  lemma SessionFitsSpace(accts: Accounts, address: Address)
    requires Valid(accts) && address in accts && accts[address].Session?
    requires |accts[address].voting.question| <= 256
    requires forall i | 0 <= i < |accts[address].voting.options| :: |accts[address].voting.options[i]| <= 64
    ensures Encodable(accts[address].voting)
    ensures |EncodeVotingAccount(accts[address].voting)| <= VOTING_ACCOUNT_SPACE
  {
    VotingAccountFitsSpace(accts[address].voting);
  }

  /**
   * One session for company 1, voting 1 with options "Yes" and "No", one
   * vote for option 0: the tallies are [1, 0] and the total 1.
   */
  lemma OneVoteScenario(voter: Pubkey)
    ensures var question := [0x44, 0x6f, 0x20, 0x79, 0x6f, 0x75, 0x20, 0x6c, 0x69, 0x6b, 0x65, 0x20,
                             0x53, 0x6f, 0x6c, 0x61, 0x6e, 0x61, 0x3f];  // "Do you like Solana?"
            var options := [[0x59, 0x65, 0x73], [0x4e, 0x6f]];      // "Yes", "No"
            var created := InitializeVoting(map[], 1, 1, question, options);
            && created.Ok?
            && CanCount(created.value, 1, 1)
            && var voted := Vote(created.value, 1, 1, voter, 0);
               && voted.Ok?
               && voted.value[VotingAddress(1, 1)].voting.votes == [1, 0]
               && voted.value[VotingAddress(1, 1)].voting.totalVotes == 1
               && voted.value[VoteAddress(VotingAddress(1, 1), voter)] == Ballot(VoteAccount(voter, 0))
  {
    var address := VotingAddress(1, 1);
    AddressKindsDisjoint(1, 1, address, voter, voter);
  }
}
