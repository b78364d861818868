/**
 How a step may change a node's log, whatever the message: the committed part stays, and storage
 still holds what lies below the tail.
 */
module RaftLogSteps {
  import opened RaftCore

  ghost predicate LogStep(v: LogView, v': LogView) {
    && v'.disk == v.disk
    && v'.applied == v.applied
    && v.commit <= v'.commit <= |v'.log|
    && v.commit <= |v.log| && v'.log[..v.commit] == v.log[..v.commit]
    && v'.stable <= v.stable <= |v.log|
    && v'.stable <= |v'.log| && v'.log[..v'.stable] == v.log[..v'.stable]
    && (v'.stable == |v'.log| ==> v'.stable == v.stable == |v.log|)
  }

  /** A step keeps the node's identity and never lowers its term. */
  ghost predicate NodeStep(n: RaftState, n': RaftState) {
    n'.id == n.id && n.term <= n'.term && LogStep(n.log, n'.log)
  }

  ghost predicate Sound(v: LogView) { v.commit <= |v.log| && v.stable <= |v.log| }

  lemma LogStepTrans(a: LogView, b: LogView, c: LogView)
    requires LogStep(a, b) && LogStep(b, c)
    ensures LogStep(a, c)
  {
  }

  lemma AppendLog(v: LogView, es: seq<Entry>)
    requires Sound(v) && Append(v, es).Ok?
    ensures LogStep(v, Append(v, es).value)
  {
  }

  lemma CommitLog(v: LogView, c: nat)
    requires Sound(v) && CommitTo(v, c).Ok?
    ensures LogStep(v, CommitTo(v, c).value)
  {
  }

  lemma MaybeAppendLog(v: LogView, i: nat, t: nat, c: nat, es: seq<Entry>)
    requires Sound(v) && MaybeAppend(v, i, t, c, es).Ok? && MaybeAppend(v, i, t, c, es).value.Some?
    ensures LogStep(v, MaybeAppend(v, i, t, c, es).value.value)
  {
    hide FindConflict, Append, CommitTo, LogStep;
    var k := FindConflict(v.log, es);
    var v1 := if k == 0 then v else Append(v, es[k - i - 1..]).value;
    if k != 0 {
      AppendLog(v, es[k - i - 1..]);
    }
    CommitLog(v1, Min(c, i + |es|));
    LogStepTrans(v, v1, CommitTo(v1, Min(c, i + |es|)).value);
  }

  lemma MaybeCommitLog(n: RaftState)
    requires Sound(n.log) && MaybeCommit(n).Ok?
    ensures NodeStep(n, MaybeCommit(n).value)
  {
  }

  lemma AppendEntryLog(n: RaftState, es: seq<Entry>)
    requires Sound(n.log) && AppendEntry(n, es).Ok?
    ensures NodeStep(n, AppendEntry(n, es).value)
  {
    var v := Append(n.log, Stamp(es, n.term, |n.log.log|)).value;
    AppendLog(n.log, Stamp(es, n.term, |n.log.log|));
    var n1 := n.(log := v, prs := n.prs[n.id := MaybeUpdate(n.prs[n.id], |v.log|)]);
    MaybeCommitLog(n1);
    LogStepTrans(n.log, v, MaybeCommit(n1).value.log);
  }

  lemma BecomeLeaderLog(n: RaftState)
    requires Sound(n.log) && BecomeLeader(n).Ok?
    ensures NodeStep(n, BecomeLeader(n).value)
  {
    hide AppendEntry;
    AppendEntryLog(FreshLeader(n), [EMPTY_ENTRY]);
  }

  lemma CampaignLog(n: RaftState)
    requires Sound(n.log) && Campaign(n).Ok?
    ensures NodeStep(n, Campaign(n).value)
  {
    hide BecomeLeader;
    var n2 := RecordVote(BecomeCandidate(n).value, n.id, true);
    if Quorum(n2.prs.Keys) == |Granted(n2.votes)| {
      BecomeLeaderLog(n2);
    }
  }

  lemma PreCampaignLog(n: RaftState)
    requires Sound(n.log) && PreCampaign(n).Ok?
    ensures NodeStep(n, PreCampaign(n).value)
  {
    hide Campaign;
    var n2 := RecordVote(BecomePreCandidate(n).value, n.id, true);
    if Quorum(n2.prs.Keys) == |Granted(n2.votes)| {
      CampaignLog(n2);
    }
  }

  lemma VoteRespLog(n: RaftState, m: Message)
    requires Sound(n.log) && (m.VoteResp? || m.PreVoteResp?) && HandleVoteResp(n, m).Ok?
    ensures NodeStep(n, HandleVoteResp(n, m).value)
  {
    hide Campaign, BecomeLeader;
    var n1 := RecordVote(n, m.from, !m.reject);
    if Quorum(n1.prs.Keys) == |Granted(n1.votes)| {
      if n1.role.PreCandidate? {
        CampaignLog(n1);
      } else {
        BecomeLeaderLog(n1);
      }
    }
  }

  lemma HandleAppLog(n: RaftState, m: Message)
    requires Sound(n.log) && m.App? && HandleApp(n, m).Ok?
    ensures NodeStep(n, HandleApp(n, m).value)
  {
    hide MaybeAppend;
    if MaybeAppend(n.log, m.logIndex, m.logTerm, m.commit, m.entries).value.Some? {
      MaybeAppendLog(n.log, m.logIndex, m.logTerm, m.commit, m.entries);
    }
  }

  lemma StepLeaderLog(n: RaftState, m: Message)
    requires Sound(n.log) && StepLeader(n, m).Ok?
    ensures NodeStep(n, StepLeader(n, m).value)
  {
    hide AppendEntry, MaybeCommit;
    if m.Prop? && n.id in n.prs {
      var (fs, p) := FilterConf(m.entries, n.pendingConf);
      AppendEntryLog(n.(pendingConf := p), fs);
    } else if m.AppResp? && !m.reject && m.from in n.prs && n.prs[m.from].matched < m.logIndex {
      MaybeCommitLog(n.(prs := n.prs[m.from := MaybeUpdate(n.prs[m.from], m.logIndex)]));
    }
  }

  lemma StepCandidateLog(n: RaftState, m: Message)
    requires Sound(n.log) && StepCandidate(n, m).Ok? && (m.Heartbeat? ==> n.term <= m.term)
    ensures NodeStep(n, StepCandidate(n, m).value)
  {
    hide HandleApp, HandleVoteResp;
    if m.App? {
      HandleAppLog(BecomeFollower(n, n.term, m.from), m);
    } else if m.Heartbeat? {
      CommitLog(n.log, Min(m.commit, |n.log.log|));
    } else if (m.VoteResp? && !n.role.PreCandidate?) || (m.PreVoteResp? && n.role.PreCandidate?) {
      VoteRespLog(n, m);
    }
  }

  lemma DispatchLog(n: RaftState, m: Message)
    requires Sound(n.log) && Dispatch(n, m).Ok? && (m.Heartbeat? ==> n.term <= m.term)
    ensures NodeStep(n, Dispatch(n, m).value)
  {
    hide Campaign, PreCampaign, StepLeader, StepCandidate, HandleApp;
    if m.Hup? {
      if !n.role.Leader? && n.id in n.prs && NoPendingConf(n.log.log[n.log.applied..n.log.commit]) {
        if n.preVote { PreCampaignLog(n); } else { CampaignLog(n); }
      }
    } else if m.Vote? || m.PreVote? {
    } else if n.role.Leader? {
      StepLeaderLog(n, m);
    } else if n.role.Follower? {
      if m.App? {
        HandleAppLog(n.(lead := m.from), m);
      } else if m.Heartbeat? {
        CommitLog(n.log, Min(m.commit, |n.log.log|));
      }
    } else {
      StepCandidateLog(n, m);
    }
  }

  /** Every message: committed entries stay, the tail only starts earlier and never becomes empty. */
  lemma StepLog(n: RaftState, m: Message)
    requires Sound(n.log) && Step(n, m).Ok? && (m.Heartbeat? ==> m.term != 0)
    ensures NodeStep(n, Step(n, m).value)
  {
    hide Dispatch;
    if TermOf(m) != 0 && TermOf(m) < n.term {
    } else if AdoptsTerm(n, m) {
      DispatchLog(BecomeFollower(n, m.term, if m.Vote? then NONE else m.from), m);
    } else {
      DispatchLog(n, m);
    }
  }
}
