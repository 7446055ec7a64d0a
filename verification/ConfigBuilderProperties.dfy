/** What a built config promises: names, ids, votes, and what modifications cannot change. */
module ConfigBuilderProperties {
  import opened ConfigBuilder
  import opened Config
  import opened Names
  import opened Wrappers

  // ---------------------------------------------------------------- what modifications preserve

  /** Modifications set arguments and sections; identity, FCV, topology and version are out of their reach. */
  predicate SameSkeleton(a: AutomationConfig, b: AutomationConfig) {
    && a.version == b.version && a.replicaSets == b.replicaSets && a.versions == b.versions
    && |a.processes| == |b.processes|
    && forall i :: 0 <= i < |a.processes| ==>
         a.processes[i].(args := map[]) == b.processes[i].(args := map[])
  }

  lemma {:induction false} ModificationsKeepSkeleton(ms: seq<Modification>, ac: AutomationConfig)
    ensures SameSkeleton(ApplyAll(ms, ac), ac)
  {
    if ms != [] {
      ModificationsKeepSkeleton(ms[..|ms| - 1], ac);
    }
  }

  /** The config of a replica set with these counts. */
  predicate HasTopology(ac: AutomationConfig, name: string, members: nat, arbiters: nat) {
    && ProcessNames(ac.processes) == AllNames(name, members, arbiters)
    && |ac.replicaSets| == 1
    && |ac.replicaSets[0].members| == members + arbiters
    && ac.replicaSets[0].numberArbiters == arbiters
  }

  lemma AssembledNames(s: Settings, ms: seq<Modification>, versions: seq<VersionConfig>, fcv: string, version: int)
    ensures var ps := ApplyAll(ms, Assemble(s, versions, fcv, version)).processes;
            |ps| == s.members + s.arbiters
            && forall i :: 0 <= i < |ps| ==> ps[i].name == AllNames(s.name, s.members, s.arbiters)[i]
                                             && ps[i].fcv == fcv
  {
    var assembled := Assemble(s, versions, fcv, version);
    ModificationsKeepSkeleton(ms, assembled);
    SkeletonNames(s, fcv, ApplyAll(ms, assembled).processes);
  }

  lemma SkeletonNames(s: Settings, fcv: string, ps: seq<Process>)
    requires |ps| == s.members + s.arbiters
    requires forall i :: 0 <= i < |ps| ==> ps[i].(args := map[]) == ProcessAt(s, fcv, i).(args := map[])
    ensures forall i :: 0 <= i < |ps| ==> ps[i].name == AllNames(s.name, s.members, s.arbiters)[i] && ps[i].fcv == fcv
  {
    forall i | 0 <= i < |ps|
      ensures ps[i].name == AllNames(s.name, s.members, s.arbiters)[i] && ps[i].fcv == fcv
    {
      ProcessAtName(s, fcv, i);
      assert ps[i].(args := map[]) == ProcessAt(s, fcv, i).(args := map[]);
    }
  }

  lemma BuiltSkeleton(s: Settings, ms: seq<Modification>, fcv: string, versions: seq<VersionConfig>,
                      previous: AutomationConfig)
    requires BuildSpec(s, ms, fcv, versions, previous).Ok?
    ensures var ac := BuildSpec(s, ms, fcv, versions, previous).value;
            && HasTopology(ac, s.name, s.members, s.arbiters)
            && ac.replicaSets[0].members == Members(s)
            && ac.version == previous.version + (if AreEqual(previous, ac) then 0 else 1)
            && forall i :: 0 <= i < |ac.processes| ==>
                 EffectiveFcv(previous, fcv, s.mongodbVersion) == Ok(ac.processes[i].fcv)
  {
    var f := EffectiveFcv(previous, fcv, s.mongodbVersion).value;
    var assembled := Assemble(s, versions, f, previous.version);
    ModificationsKeepSkeleton(ms, assembled);
    AssembledNames(s, ms, versions, f, previous.version);
    assert ProcessNames(ApplyAll(ms, assembled).processes) == AllNames(s.name, s.members, s.arbiters);
  }

  // ---------------------------------------------------------------- member ids

  /** Whatever the counts of two configs of one resource, equal process names have equal ids. */
  lemma IdSurvivesScaling(s: Settings, i: nat, t: Settings, j: nat)
    requires s.name == t.name
    requires i < s.members + s.arbiters && j < t.members + t.arbiters
    requires MemberAt(s, i).host == MemberAt(t, j).host
    ensures MemberAt(s, i).id == MemberAt(t, j).id
  {
    ProcessNameInjective(s.name, Ordinal(s, i), i >= s.members, Ordinal(t, j), j >= t.members);
  }

  /** Ids of one config are pairwise distinct exactly up to 100 data-bearing members, or without arbiters. */
  lemma IdsDistinctExactly(s: Settings)
    ensures (forall i, j :: 0 <= i < j < s.members + s.arbiters ==> MemberAt(s, i).id != MemberAt(s, j).id)
       <==> s.members <= ARBITERS_STARTING_INDEX || s.arbiters == 0
  {
    if s.members > ARBITERS_STARTING_INDEX && s.arbiters > 0 {
      assert MemberAt(s, ARBITERS_STARTING_INDEX).id == MemberAt(s, s.members).id;
    }
  }

  // ---------------------------------------------------------------- votes

  function TotalVotes(ms: seq<Member>): int {
    if ms == [] then 0 else TotalVotes(ms[..|ms| - 1]) + ms[|ms| - 1].VoteCount()
  }

  /** Votes among the first k members: data-bearing nodes get what the arbiters leave of the seven. */
  function VotesUpTo(s: Settings, k: nat): nat {
    var open := if s.arbiters < MAX_VOTING_MEMBERS then MAX_VOTING_MEMBERS - s.arbiters else 0;
    if k <= s.members then (if k < open then k else open)
    else (if s.members < open then s.members else open) + (k - s.members)
  }

  lemma {:induction false} CountVotes(s: Settings, k: nat)
    requires s.memberOptions == [] && k <= s.members + s.arbiters
    ensures TotalVotes(Members(s)[..k]) == VotesUpTo(s, k)
  {
    if k > 0 {
      CountVotes(s, k - 1);
      assert Members(s)[..k][..k - 1] == Members(s)[..k - 1];
      assert Members(s)[..k][k - 1] == MemberAt(s, k - 1);
    }
  }

  /**
   * Without member options: every arbiter votes, the voting data-bearing members are a prefix, and the config has
   * min(7, members + arbiters) votes.  The limit of seven is kept exactly when there are at most seven arbiters.
   */
  lemma VotesAreCapped(s: Settings)
    requires s.memberOptions == []
    ensures forall i :: s.members <= i < s.members + s.arbiters ==> MemberAt(s, i).VoteCount() == 1
    ensures forall i, j :: 0 <= i < j < s.members && MemberAt(s, j).VoteCount() == 1 ==> MemberAt(s, i).VoteCount() == 1
    ensures s.arbiters <= MAX_VOTING_MEMBERS ==>
              TotalVotes(Members(s)) == if s.members + s.arbiters < MAX_VOTING_MEMBERS then s.members + s.arbiters
                                        else MAX_VOTING_MEMBERS
    ensures TotalVotes(Members(s)) <= MAX_VOTING_MEMBERS <==> s.arbiters <= MAX_VOTING_MEMBERS
  {
    CountVotes(s, s.members + s.arbiters);
    assert Members(s)[..s.members + s.arbiters] == Members(s);
  }
}
