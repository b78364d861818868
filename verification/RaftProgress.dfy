/**
 What a node gets done: the leader commits all that it may, a proposal reaches every peer, votes are given
 whenever they may be, and a majority of them elects.
 */
module RaftProgress {
  import opened Basics
  import opened RaftCore

  // ---------------------------------------------------------------- committing

  ghost predicate Rising(l: Log) { forall i, j :: 0 <= i < j < |l| ==> l[i].term <= l[j].term }

  /** More than half of the peers are known to hold k entries. */
  ghost predicate Majority(prs: map<nat, Progress>, k: nat) {
    |set j | j in prs && prs[j].matched >= k| > |prs| / 2
  }

  /** A majority holds k entries, and the k-th is of the node's own term. */
  ghost predicate Agreed(n: RaftState, k: nat) {
    1 <= k <= |n.log.log| && n.log.log[k - 1].term == n.term && Majority(n.prs, k)
  }

  /** Terms do not fall and do not exceed the node's; no majority is beyond the log. */
  ghost predicate Orderly(n: RaftState) {
    && n.prs != map[] && n.term >= 1 && !Majority(n.prs, |n.log.log| + 1)
    && Rising(n.log.log) && forall i :: 0 <= i < |n.log.log| ==> n.log.log[i].term <= n.term
  }

  /** c is the greatest of the commit index and all that is agreed. */
  ghost predicate Commits(n: RaftState, c: nat) {
    n.log.commit <= c && (c == n.log.commit || Agreed(n, c)) && forall k: nat :: Agreed(n, k) ==> k <= c
  }

  lemma MajorityIs(prs: map<nat, Progress>, k: nat)
    ensures Majority(prs, k) <==> |Holders(prs, k)| >= Quorum(prs.Keys)
  {
    assert Holders(prs, k) == set j | j in prs && prs[j].matched >= k;
    assert |prs.Keys| == |prs|;
  }

  /** The commit rule commits all that it may: what a majority holds, up to an entry of the leader's own term. */
  lemma CommitsGreatest(n: RaftState)
    requires Orderly(n)
    ensures MaybeCommit(n).Ok?
    ensures var c := MaybeCommit(n).value.log.commit; Commits(n, c) && MaybeCommit(n).value == n.(log := n.log.(commit := c))
  {
    hide Majority;
    var k := QuorumIndex(n.prs);
    MajorityIs(n.prs, k);
    MajorityIs(n.prs, k + 1);
    MajorityIs(n.prs, |n.log.log| + 1);
    if k > |n.log.log| { HoldersShrink(n.prs, |n.log.log| + 1, k); }
    forall a: nat | Agreed(n, a) ensures a <= k && n.log.log[k - 1].term == n.term {
      MajorityIs(n.prs, a);
      if a > k { HoldersShrink(n.prs, k + 1, a); }
      assert n.log.log[a - 1].term <= n.log.log[k - 1].term;
    }
  }

  // ---------------------------------------------------------------- sending

  /** The node has a message for j with its log from the peer's next index on, and its commit index. */
  ghost predicate Offers(n: RaftState, j: nat) {
    && j in n.prs
    && exists m :: && m in n.msgs && m.App? && m.from == n.id && m.to == j && m.term == n.term && m.commit == n.log.commit
                   && m.logIndex + 1 == n.prs[j].next
                   && m.logTerm == (if 1 <= m.logIndex <= |n.log.log| then n.log.log[m.logIndex - 1].term else 0)
                   && m.entries == (if m.logIndex < |n.log.log| then n.log.log[m.logIndex..] else [])
  }

  ghost predicate OffersAll(n: RaftState) { forall j :: j in n.prs && j != n.id ==> Offers(n, j) }

  lemma BroadcastOffers(n: RaftState)
    ensures OffersAll(BroadcastAppend(n))
  {
    var n' := BroadcastAppend(n);
    forall j | j in n'.prs && j != n'.id ensures Offers(n', j) {
      assert AppendMsg(n, j) in n'.msgs;
    }
  }

  /** An acceptance that is news is counted, commits all that it may, and then goes out to everyone. */
  lemma AckIsCounted(n: RaftState, m: Message)
    requires n.role.Leader? && m.AppResp? && !m.reject && m.term == n.term >= 1 && m.from in n.prs
    requires n.prs[m.from].matched < m.logIndex && Step(n, m).Ok?
    ensures var n' := Step(n, m).value;
            && n'.prs.Keys == n.prs.Keys && (forall j :: j in n.prs && j != m.from ==> n'.prs[j] == n.prs[j])
            && n'.prs[m.from].matched == m.logIndex < n'.prs[m.from].next && n'.log.log == n.log.log
            && (Orderly(n.(prs := n'.prs)) ==> Commits(n.(prs := n'.prs), n'.log.commit))
            && (n'.log.commit != n.log.commit ==> OffersAll(n'))
  {
    hide OffersAll, Orderly, Commits, BroadcastAppend, Step, MaybeCommit;
    LeaderStep(n, m);
    var n1 := n.(prs := n.prs[m.from := MaybeUpdate(n.prs[m.from], m.logIndex)]);
    CommitKeeps(n1);
    if Orderly(n1) { CommitsGreatest(n1); }
    var n2 := MaybeCommit(n1).value;
    BroadcastOffers(n2);
    BroadcastKeeps(n2);
  }

  lemma CommitKeeps(n: RaftState)
    requires MaybeCommit(n).Ok?
    ensures MaybeCommit(n).value == n.(log := n.log.(commit := MaybeCommit(n).value.log.commit))
  {
  }

  lemma LeaderStep(n: RaftState, m: Message)
    requires n.role.Leader? && m.AppResp? && m.term == n.term >= 1
    ensures Step(n, m) == HandleAppResp(n, m)
  {
    hide HandleAppResp;
  }

  lemma SentOffer(n: RaftState, j: nat)
    requires j in n.prs
    ensures Offers(Send(n, {AppendMsg(n, j)}), j)
  {
    assert AppendMsg(n, j) in Send(n, {AppendMsg(n, j)}).msgs;
  }

  lemma BroadcastKeeps(n: RaftState)
    ensures BroadcastAppend(n) == n.(msgs := BroadcastAppend(n).msgs)
  {
  }

  /** A refusal of the current probe lowers the next index, to the peer's log end if that is less, and tries again. */
  lemma RefusalIsAnswered(n: RaftState, m: Message)
    requires n.role.Leader? && m.AppResp? && m.reject && m.term == n.term >= 1 && m.from in n.prs
    ensures Step(n, m).Ok?
    ensures var n' := Step(n, m).value;
            if n.prs[m.from].next != m.logIndex + 1 then n' == n
            else && n'.prs[m.from].matched == n.prs[m.from].matched && Offers(n', m.from)
                 && (m.logIndex >= 1 ==> n'.prs[m.from].next <= m.logIndex && n'.prs[m.from].next <= m.rejectHint + 1)
                 && (n'.prs[m.from].next == 1 || n'.prs[m.from].next == m.logIndex || n'.prs[m.from].next == m.rejectHint + 1)
  {
    hide Step, Offers, AppendMsg;
    LeaderStep(n, m);
    if n.prs[m.from].next == m.logIndex + 1 {
      SentOffer(n.(prs := n.prs[m.from := MayDecreaseTo(n.prs[m.from], m.logIndex, m.rejectHint).value]), m.from);
    }
  }

  // ---------------------------------------------------------------- proposing

  /** A configuration change is among the first i entries. */
  ghost predicate Changes(es: seq<Entry>, i: nat) { exists j :: 0 <= j < i && j < |es| && es[j].typ.ConfChange? }

  lemma ChangesStep(es: seq<Entry>, i: nat)
    requires es != [] && i > 0
    ensures Changes(es, i) <==> es[0].typ.ConfChange? || Changes(es[1..], i - 1)
  {
    if Changes(es[1..], i - 1) {
      var j :| 0 <= j < i - 1 && j < |es[1..]| && es[1..][j].typ.ConfChange?;
      assert es[j + 1] == es[1..][j];
    }
    if Changes(es, i) && !es[0].typ.ConfChange? {
      var j :| 0 <= j < i && j < |es| && es[j].typ.ConfChange?;
      assert es[1..][j - 1] == es[j];
    }
  }

  /** A configuration change that follows another is replaced by an empty entry; all else stays. */
  lemma {:induction false} FilterConfIs(es: seq<Entry>, pending: bool)
    ensures var (fs, p) := FilterConf(es, pending);
            && |fs| == |es| && (p <==> pending || Changes(es, |es|))
            && forall i :: 0 <= i < |es| ==>
                 fs[i] == if es[i].typ.ConfChange? && (pending || Changes(es, i)) then EMPTY_ENTRY else es[i]
    decreases |es|
  {
    hide Changes;
    if es == [] {
      NoChanges(es);
    } else {
      var rest, more := es[1..], pending || es[0].typ.ConfChange?;
      FilterConfIs(rest, more);
      ChangesStep(es, |es|);
      NoChanges(es);
      var (fs, p) := FilterConf(es, pending);
      forall i | 0 <= i < |es|
        ensures fs[i] == if es[i].typ.ConfChange? && (pending || Changes(es, i)) then EMPTY_ENTRY else es[i]
      {
        if i > 0 {
          ChangesStep(es, i);
          assert es[i] == rest[i - 1] && fs[i] == FilterConf(rest, more).0[i - 1];
        }
      }
    }
  }

  lemma NoChanges(es: seq<Entry>)
    ensures !Changes(es, 0) && (es == [] ==> !Changes(es, |es|))
  {
  }

  /** The log has the proposed entries at its end, of the term and numbered on. */
  ghost predicate Proposed(l: Log, l': Log, es: seq<Entry>, term: nat, pending: bool) {
    && |l'| == |l| + |es| && l <= l'
    && forall i :: 0 <= i < |es| ==>
         && l'[|l| + i].term == term && l'[|l| + i].index == |l| + i + 1
         && (if es[i].typ.ConfChange? && (pending || Changes(es, i)) then l'[|l| + i].typ.Normal? && l'[|l| + i].data == []
             else l'[|l| + i].typ == es[i].typ && l'[|l| + i].data == es[i].data)
  }

  lemma StampedIsProposed(l: Log, es: seq<Entry>, term: nat, pending: bool)
    ensures Proposed(l, l + Stamp(FilterConf(es, pending).0, term, |l|), es, term, pending)
  {
    hide Changes, FilterConf;
    FilterConfIs(es, pending);
    var fs := FilterConf(es, pending).0;
    var ss := Stamp(fs, term, |l|);
    var l' := l + ss;
    forall i | 0 <= i < |es| ensures l'[|l| + i] == fs[i].(term := term, index := |l| + i + 1) { assert l'[|l| + i] == ss[i]; }
  }

  /** A leader's proposal is in its log and on its way to everyone. */
  lemma ProposalIsSent(n: RaftState, m: Message)
    requires n.role.Leader? && m.Prop? && m.entries != [] && n.id in n.prs && Step(n, m).Ok?
    ensures var n' := Step(n, m).value; Proposed(n.log.log, n'.log.log, m.entries, n.term, n.pendingConf) && OffersAll(n')
  {
    hide OffersAll, MaybeCommit, BroadcastAppend, Step, FilterConf, AppendEntry, Proposed;
    ProposeStep(n, m);
    StampedIsProposed(n.log.log, m.entries, n.term, n.pendingConf);
    var (fs, p) := FilterConf(m.entries, n.pendingConf);
    var n1 := AppendEntry(n.(pendingConf := p), fs).value;
    AppendsAll(n.(pendingConf := p), fs);
    BroadcastOffers(n1);
    BroadcastKeeps(n1);
  }

  lemma ProposeStep(n: RaftState, m: Message)
    requires n.role.Leader? && m.Prop?
    ensures Step(n, m) == Propose(n, m.entries)
  {
    hide Propose;
  }

  lemma AppendsAll(n: RaftState, es: seq<Entry>)
    requires AppendEntry(n, es).Ok?
    ensures AppendEntry(n, es).value.log.log == n.log.log + Stamp(es, n.term, |n.log.log|)
    ensures var n' := AppendEntry(n, es).value; n' == n.(log := n'.log, prs := n'.prs)
  {
    var stamped := Stamp(es, n.term, |n.log.log|);
    if es != [] { assert n.log.log[..|n.log.log|] == n.log.log; }
  }

  /** An append is answered: taken exactly if the log has the entry before it, and refused with the log's end. */
  lemma AppendIsAnswered(n: RaftState, m: Message)
    requires n.role.Follower? && m.App? && m.term == n.term >= 1 && Step(n, m).Ok?
    ensures var n', last := Step(n, m).value, m.logIndex + |m.entries|;
            var fits := m.logTerm == if 1 <= m.logIndex <= |n.log.log| then n.log.log[m.logIndex - 1].term else 0;
            && n'.lead == m.from
            && (fits ==> AppResp(n.id, m.from, n.term, last, false, 0) in n'.msgs && n'.log.commit >= n.log.commit
                         && (n'.log.commit == n.log.commit || n'.log.commit == m.commit || n'.log.commit == last)
                         && (n'.log.commit >= m.commit || n'.log.commit >= last))
            && (!fits ==> AppResp(n.id, m.from, n.term, m.logIndex, true, |n.log.log|) in n'.msgs && n'.log == n.log)
  {
    hide Step, MaybeAppend;
    FollowerStep(n, m);
    TakenIs(n.log, m.logIndex, m.logTerm, m.commit, m.entries);
  }

  lemma TakenIs(v: LogView, logIndex: nat, logTerm: nat, commit: nat, es: seq<Entry>)
    requires MaybeAppend(v, logIndex, logTerm, commit, es).Ok?
    ensures var o, last := MaybeAppend(v, logIndex, logTerm, commit, es).value, logIndex + |es|;
            && (o.Some? <==> TermAt(v.log, logIndex) == logTerm)
            && (o.Some? ==> && o.value.commit >= v.commit && (o.value.commit >= commit || o.value.commit >= last)
                            && (o.value.commit == v.commit || o.value.commit == commit || o.value.commit == last))
  {
    hide FindConflict;
  }

  lemma FollowerStep(n: RaftState, m: Message)
    requires n.role.Follower? && m.App? && m.term == n.term >= 1
    ensures Step(n, m) == HandleApp(n.(lead := m.from), m)
  {
    hide HandleApp;
  }

  // ---------------------------------------------------------------- electing

  /** The log of a candidate, given by its last entry, is not behind this one. */
  ghost predicate NotBehind(l: Log, logTerm: nat, logIndex: nat) {
    var last := if l == [] then 0 else l[|l| - 1].term;
    logTerm > last || (logTerm == last && logIndex >= |l|)
  }

  /** A vote is given exactly if the candidate is not behind and the node has no other vote in the term. */
  lemma VoteIsGiven(n: RaftState, m: Message)
    requires m.Vote? && m.term >= n.term && m.term >= 1
    ensures Step(n, m).Ok?
    ensures var n' := Step(n, m).value;
            var free := m.term > n.term || n.vote == NONE || n.vote == m.from;
            && n'.term == m.term && n'.log == n.log
            && (if NotBehind(n.log.log, m.logTerm, m.logIndex) && free
                then n'.vote == m.from && VoteResp(n.id, m.from, m.term, false) in n'.msgs
                else n'.vote == (if m.term > n.term then NONE else n.vote) && VoteResp(n.id, m.from, m.term, true) in n'.msgs)
  {
  }

  /** A pre-vote is answered by the same rule and changes nothing. */
  lemma PreVoteIsAnswered(n: RaftState, m: Message)
    requires m.PreVote? && m.term >= n.term && m.term >= 1
    ensures Step(n, m).Ok?
    ensures var free := m.term > n.term || n.vote == NONE || n.vote == m.from;
            Step(n, m).value ==
              n.(msgs := n.msgs + {PreVoteResp(n.id, m.from, n.term, !(NotBehind(n.log.log, m.logTerm, m.logIndex) && free))})
  {
  }

  /** A node that is not alone and whose time is up asks everyone for a vote in the next term. */
  lemma CampaignAsks(n: RaftState)
    requires !n.role.Leader? && n.id in n.prs && |n.prs| > 1 && !n.preVote
    requires n.log.applied <= n.log.commit <= |n.log.log|
    requires forall i :: n.log.applied <= i < n.log.commit ==> !n.log.log[i].typ.ConfChange?
    ensures Step(n, Hup).Ok?
    ensures var n' := Step(n, Hup).value;
            && n'.role.Candidate? && n'.term == n.term + 1 && n'.vote == n.id && n'.votes == map[n.id := true] && n'.log == n.log
            && forall j :: j in n.prs && j != n.id ==>
                 Vote(n.id, j, n.term + 1, if n.log.log == [] then 0 else n.log.log[|n.log.log| - 1].term, |n.log.log|) in n'.msgs
  {
    assert NoPendingConf(n.log.log[n.log.applied..n.log.commit]);
    var n1 := BecomeCandidate(n).value;
    var n2 := RecordVote(n1, n.id, true);
    assert n2.votes == map[n.id := true];
    assert Granted(n2.votes) == {n.id};
    assert |n.prs.Keys| == |n.prs|;
  }

  /** The vote that makes a majority elects: the candidate leads, with an empty entry of its term for everyone. */
  lemma MajorityElects(n: RaftState, m: Message)
    requires n.role.Candidate? && m.VoteResp? && !m.reject && m.term == n.term >= 1 && m.from !in n.votes && n.id in n.prs
    requires 2 * (|set j | j in n.votes && n.votes[j]| + 1) > |n.prs| >= 2 * |set j | j in n.votes && n.votes[j]|
    requires Step(n, m).Ok?
    ensures var n' := Step(n, m).value;
            && n'.role.Leader? && n'.term == n.term && n'.lead == n.id && OffersAll(n')
            && n'.log.log == n.log.log + [Entry(n.term, |n.log.log| + 1, Normal, [])]
  {
    hide Step, OffersAll, MaybeCommit, BroadcastAppend;
    ElectedStep(n, m);
    var n1 := RecordVote(n, m.from, true);
    var n2 := BecomeLeader(n1).value;
    AppendsAll(FreshLeader(n1), [EMPTY_ENTRY]);
    BroadcastOffers(n2);
    BroadcastKeeps(n2);
  }

  lemma ElectedStep(n: RaftState, m: Message)
    requires n.role.Candidate? && m.VoteResp? && !m.reject && m.term == n.term >= 1 && m.from !in n.votes
    requires 2 * (|set j | j in n.votes && n.votes[j]| + 1) > |n.prs| >= 2 * |set j | j in n.votes && n.votes[j]|
    requires Step(n, m).Ok?
    ensures var won := BecomeLeader(RecordVote(n, m.from, true)); won.Ok? && Step(n, m).value == BroadcastAppend(won.value)
  {
    hide Step, BecomeLeader, BroadcastAppend, Granted, Quorum;
    VoteMakesQuorum(n.votes, n.prs, m.from);
    CandidateStep(n, m);
  }

  lemma CandidateStep(n: RaftState, m: Message)
    requires n.role.Candidate? && m.VoteResp? && m.term == n.term >= 1
    ensures Step(n, m) == HandleVoteResp(n, m)
  {
    hide HandleVoteResp;
  }

  lemma VoteMakesQuorum(votes: map<nat, bool>, prs: map<nat, Progress>, from: nat)
    requires from !in votes
    requires 2 * (|set j | j in votes && votes[j]| + 1) > |prs| >= 2 * |set j | j in votes && votes[j]|
    ensures |Granted(votes[from := true])| == Quorum(prs.Keys)
  {
    assert Granted(votes) == set j | j in votes && votes[j];
    assert Granted(votes[from := true]) == Granted(votes) + {from};
    assert |prs.Keys| == |prs|;
  }

  /** A heartbeat commits what the leader has committed, as far as the log reaches, and is answered. */
  lemma HeartbeatIsAnswered(n: RaftState, m: Message)
    requires n.role.Follower? && m.Heartbeat? && m.term == n.term >= 1
    ensures Step(n, m).Ok?
    ensures var n' := Step(n, m).value;
            && n'.log.log == n.log.log && n'.lead == m.from && HeartbeatResp(n.id, m.from, n.term) in n'.msgs
            && n'.log.commit >= n.log.commit && (m.commit <= |n.log.log| ==> n'.log.commit >= m.commit)
            && (n'.log.commit == n.log.commit || n'.log.commit == m.commit || n'.log.commit == |n.log.log|)
  {
  }
}
