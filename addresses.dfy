/**
 * Account addresses and the two program-derived addresses of the voting
 * program. A derived address is modelled by its seed list: the hash-and-bump
 * search that turns seeds into an off-curve key is treated as an injective
 * function whose results never coincide with a wallet key.
 */
module Addresses {
  import opened Bytes

  /** A 32-byte public key. */
  type Pubkey = k: seq<byte> | |k| == 32 witness seq(32, _ => 0)

  /** A wallet's 32-byte public key, or the address derived from a seed list. */
  datatype Address = Wallet(key: Pubkey) | Derived(seeds: seq<Seed>)

  /** A seed: raw bytes, or the 32 bytes of an address (`key().as_ref()`). */
  datatype Seed = Raw(bytes: seq<byte>) | KeyOf(address: Address)

  /** b"voting" */
  const VOTING_SEED: seq<byte> := [0x76, 0x6f, 0x74, 0x69, 0x6e, 0x67]
  /** b"vote" */
  const VOTE_SEED: seq<byte> := [0x76, 0x6f, 0x74, 0x65]

  /** Seeds of a voting session: ["voting", company_id as 8 LE bytes, voting_id as 8 LE bytes]. */
  function VotingSeeds(companyId: u64, votingId: u64): (seeds: seq<Seed>)
    ensures |seeds| == 3 && seeds[0] == Raw(VOTING_SEED)
  {
    [Raw(VOTING_SEED), Raw(U64Bytes(companyId)), Raw(U64Bytes(votingId))]
  }

  function VotingAddress(companyId: u64, votingId: u64): Address {
    Derived(VotingSeeds(companyId, votingId))
  }

  /** Seeds of a vote record: ["vote", the session's address, the voter's key]. */
  function VoteSeeds(session: Address, voter: Pubkey): (seeds: seq<Seed>)
    ensures |seeds| == 3 && seeds[0] == Raw(VOTE_SEED)
  {
    [Raw(VOTE_SEED), KeyOf(session), KeyOf(Wallet(voter))]
  }

  function VoteAddress(session: Address, voter: Pubkey): Address {
    Derived(VoteSeeds(session, voter))
  }

  /** The session a vote record's address was derived from. */
  function SessionOfVote(a: Address): Address {
    if a.Derived? && |a.seeds| == 3 && a.seeds[1].KeyOf? then a.seeds[1].address else a
  }

  /** One session address per (company, voting) pair, and different pairs never share one. */
  lemma VotingAddressInjective(c1: u64, v1: u64, c2: u64, v2: u64)
    ensures VotingAddress(c1, v1) == VotingAddress(c2, v2) <==> c1 == c2 && v1 == v2
  {
    if VotingAddress(c1, v1) == VotingAddress(c2, v2) {
      assert VotingSeeds(c1, v1)[1] == VotingSeeds(c2, v2)[1];
      assert VotingSeeds(c1, v1)[2] == VotingSeeds(c2, v2)[2];
      U64BytesInjective(c1, c2);
      U64BytesInjective(v1, v2);
    }
  }

  /** One vote-record address per (session, voter) pair, and different pairs never share one. */
  lemma VoteAddressInjective(s1: Address, w1: Pubkey, s2: Address, w2: Pubkey)
    ensures VoteAddress(s1, w1) == VoteAddress(s2, w2) <==> s1 == s2 && w1 == w2
    ensures SessionOfVote(VoteAddress(s1, w1)) == s1
  {
    if VoteAddress(s1, w1) == VoteAddress(s2, w2) {
      assert VoteSeeds(s1, w1)[1] == VoteSeeds(s2, w2)[1];
      assert VoteSeeds(s1, w1)[2] == VoteSeeds(s2, w2)[2];
    }
  }

  /** A session address is never a vote-record address, and neither is a wallet. */
  lemma AddressKindsDisjoint(companyId: u64, votingId: u64, session: Address, voter: Pubkey, key: Pubkey)
    ensures VotingAddress(companyId, votingId) != VoteAddress(session, voter)
    ensures VotingAddress(companyId, votingId) != Wallet(key)
    ensures VoteAddress(session, voter) != Wallet(key)
  {
    assert VotingSeeds(companyId, votingId)[0] != VoteSeeds(session, voter)[0] by {
      assert VOTING_SEED[4] != VOTE_SEED[3] || |VOTING_SEED| != |VOTE_SEED|;
    }
  }
}
