/**
 Handling any message keeps the invariants and never panics.
 */
module RaftStep {
  import opened RaftCore
  import opened RaftHistory
  import opened RaftActions
  import opened RaftLeading
  import opened RaftFollowing

  /** The network delivers a message to its addressee; local messages have none. */
  predicate Addressed(m: Message, id: nat) {
    m.Hup? || m.Beat? || m.to == id
  }

  lemma LeadIsFree(h: Hist, n: RaftState, lead: nat)
    requires NodeOk(h, n)
    ensures NodeOk(h, n.(lead := lead))
  {
  }

  lemma StepFollowerOk(h: Hist, n: RaftState, m: Message) returns (h': Hist)
    requires HistOk(h) && NodeOk(h, n) && n.role.Follower?
    requires MsgOk(h, m) && Addressed(m, n.id) && (TermOf(m) == n.term || TermOf(m) == 0 || m.PreVoteResp?)
    ensures StepFollower(n, m).Ok?
    ensures Extends(h, h', n.id) && NodeOk(h', StepFollower(n, m).value)
  {
    hide Grows;
    GrowsReflexive(h, n.id);
    match m
    case Prop(from, _, es) =>
      if n.lead == NONE { h' := h; } else { h' := SendMsgs(h, n, {Prop(from, n.lead, es)}); }
    case App(from, _, _, _, _, _, _) =>
      assert ReignOk(h, m.term);
      LeadIsFree(h, n, from);
      h' := HandleAppOk(h, n.(lead := from), m);
    case Heartbeat(from, _, _, _) =>
      assert ReignOk(h, m.term);
      LeadIsFree(h, n, from);
      h' := HandleHeartbeatOk(h, n.(lead := from), m);
    case _ => h' := h;
  }

  // ---------------------------------------------------------------- elections

  lemma VoteRequestOk(h: Hist, n: RaftState, to: nat)
    requires HistOk(h) && NodeOk(h, n) && n.role.Candidate? && to != n.id
    ensures MsgOk(h, Vote(n.id, to, n.term, LastTerm(n.log.log), |n.log.log|))
  {
  }

  lemma QuorumGranted(h: Hist, n: RaftState)
    requires NodeOk(h, n) && (n.role.Candidate? || n.role.PreCandidate?)
    requires Quorum(n.prs.Keys) == |Granted(n.votes)|
    ensures IsQuorum(h, Granted(n.votes))
  {
  }

  lemma CampaignOk(h: Hist, n: RaftState) returns (h': Hist)
    requires HistOk(h) && NodeOk(h, n) && !n.role.Leader?
    ensures Campaign(n).Ok?
    ensures Extends(h, h', n.id) && NodeOk(h', Campaign(n).value)
  {
    hide Grows;
    var n1 := BecomeCandidate(n).value;
    var h1 := CandidateStep(h, n);
    CountVote(h1, n1, n.id, true);
    var n2 := RecordVote(n1, n.id, true);
    h' := FinishCampaign(h, h1, n2);
  }

  lemma FinishCampaign(h: Hist, h1: Hist, n: RaftState) returns (h': Hist)
    requires Extends(h, h1, n.id) && NodeOk(h1, n) && n.role.Candidate?
    ensures Extends(h, h', n.id)
    ensures Quorum(n.prs.Keys) == |Granted(n.votes)| ==> BecomeLeader(n).Ok? && NodeOk(h', BecomeLeader(n).value)
    ensures Quorum(n.prs.Keys) != |Granted(n.votes)| ==>
              NodeOk(h', Send(n, set j | j in n.prs && j != n.id ::
                                   Vote(n.id, j, n.term, LastTerm(n.log.log), |n.log.log|)))
  {
    hide Grows, LogOk, CommitStateOk;
    if Quorum(n.prs.Keys) == |Granted(n.votes)| {
      QuorumGranted(h1, n);
      h' := BecomeLeaderOk(h1, n);
    } else {
      forall j | j in n.prs && j != n.id
        ensures MsgOk(h1, Vote(n.id, j, n.term, LastTerm(n.log.log), |n.log.log|))
      {
        VoteRequestOk(h1, n, j);
      }
      h' := SendMsgs(h1, n, set j | j in n.prs && j != n.id ::
                              Vote(n.id, j, n.term, LastTerm(n.log.log), |n.log.log|));
    }
    GrowsTrans(h, h1, h', n.id);
  }

  lemma PreCampaignOk(h: Hist, n: RaftState) returns (h': Hist)
    requires HistOk(h) && NodeOk(h, n) && !n.role.Leader?
    ensures PreCampaign(n).Ok?
    ensures Extends(h, h', n.id) && NodeOk(h', PreCampaign(n).value)
  {
    hide Grows;
    PreCandidateOk(h, n);
    var n1 := BecomePreCandidate(n).value;
    CountVote(h, n1, n.id, true);
    var n2 := RecordVote(n1, n.id, true);
    if Quorum(n2.prs.Keys) == |Granted(n2.votes)| {
      h' := CampaignOk(h, n2);
    } else {
      h' := SendMsgs(h, n2, set j | j in n2.prs && j != n2.id ::
                              PreVote(n2.id, j, n2.term, LastTerm(n2.log.log), |n2.log.log|));
    }
  }

  /** The count after one more answer. */
  lemma CountedOk(h: Hist, n: RaftState) returns (h': Hist)
    requires HistOk(h) && NodeOk(h, n) && n.role.Candidate? && Quorum(n.prs.Keys) == |Granted(n.votes)|
    ensures BecomeLeader(n).Ok?
    ensures Extends(h, h', n.id) && NodeOk(h', BroadcastAppend(BecomeLeader(n).value))
  {
    hide Grows, HistOk, LogOk, CommitStateOk, VoteStateOk, BroadcastAppend;
    QuorumGranted(h, n);
    var h1 := BecomeLeaderOk(h, n);
    h' := ThenBroadcast(h, h1, BecomeLeader(n).value);
  }

  lemma VoteRespOk(h: Hist, n: RaftState, m: Message) returns (h': Hist)
    requires HistOk(h) && NodeOk(h, n) && MsgOk(h, m) && Addressed(m, n.id)
    requires (m.VoteResp? && n.role.Candidate? && m.term == n.term) || (m.PreVoteResp? && n.role.PreCandidate?)
    ensures HandleVoteResp(n, m).Ok?
    ensures Extends(h, h', n.id) && NodeOk(h', HandleVoteResp(n, m).value)
  {
    hide HistOk, Grows, LogOk, CommitStateOk, Campaign, BecomeLeader, BroadcastAppend;
    h' := h;
    GrowsReflexive(h, n.id);
    CountVote(h, n, m.from, !m.reject);
    var n1 := RecordVote(n, m.from, !m.reject);
    if Quorum(n1.prs.Keys) == |Granted(n1.votes)| {
      if n1.role.PreCandidate? {
        h' := CampaignOk(h, n1);
      } else {
        h' := CountedOk(h, n1);
      }
    } else {
      AdoptTerm(h, n1, n1.term, NONE);
    }
  }

  lemma StepCandidateOk(h: Hist, n: RaftState, m: Message) returns (h': Hist)
    requires HistOk(h) && NodeOk(h, n) && (n.role.Candidate? || n.role.PreCandidate?)
    requires MsgOk(h, m) && Addressed(m, n.id) && (TermOf(m) == n.term || TermOf(m) == 0 || m.PreVoteResp?)
    ensures StepCandidate(n, m).Ok?
    ensures Extends(h, h', n.id) && NodeOk(h', StepCandidate(n, m).value)
  {
    hide Grows, LogOk, CommitStateOk;
    h' := h;
    GrowsReflexive(h, n.id);
    if m.App? {
      assert ReignOk(h, m.term);
      AdoptTerm(h, n, n.term, m.from);
      h' := HandleAppOk(h, BecomeFollower(n, n.term, m.from), m);
    } else if m.Heartbeat? {
      assert ReignOk(h, m.term);
      AdoptTerm(h, n, n.term, m.from);
      h' := HandleHeartbeatOk(h, BecomeFollower(n, m.term, m.from), m);
    } else if m.VoteResp? && n.role.Candidate? {
      h' := VoteRespOk(h, n, m);
    } else if m.PreVoteResp? && n.role.PreCandidate? {
      h' := VoteRespOk(h, n, m);
    }
  }

  lemma HandleVoteOk(h: Hist, n: RaftState, m: Message) returns (h': Hist)
    requires HistOk(h) && NodeOk(h, n) && m.Vote? && MsgOk(h, m) && m.term == n.term && m.to == n.id
    ensures Extends(h, h', n.id) && NodeOk(h', HandleVote(n, m))
  {
    if CanGrant(n, m.from, m.term, m.logTerm, m.logIndex) {
      if n.vote == NONE {
        var h1 := CastVote(h, n, m.from);
        h' := SendMsgs(h1, n.(vote := m.from), {VoteResp(n.id, m.from, n.term, false)});
        GrowsTrans(h, h1, h', n.id);
      } else {
        assert n.(vote := m.from) == n;
        h' := SendMsgs(h, n, {VoteResp(n.id, m.from, n.term, false)});
      }
    } else {
      h' := SendMsgs(h, n, {VoteResp(n.id, m.from, n.term, true)});
    }
  }

  // ---------------------------------------------------------------- the leader

  lemma StepLeaderOk(h: Hist, n: RaftState, m: Message) returns (h': Hist)
    requires HistOk(h) && NodeOk(h, n) && n.role.Leader?
    requires MsgOk(h, m) && Addressed(m, n.id) && (TermOf(m) == n.term || TermOf(m) == 0 || m.PreVoteResp?)
    requires m.AppResp? ==> m.term == n.term
    ensures StepLeader(n, m).Ok?
    ensures Extends(h, h', n.id) && NodeOk(h', StepLeader(n, m).value)
  {
    hide Grows;
    h' := h;
    GrowsReflexive(h, n.id);
    if m.Beat? {
      h' := BroadcastHeartbeatOk(h, n);
    } else if m.Prop? {
      h' := ProposeOk(h, n, m.entries);
    } else if m.AppResp? {
      h' := AppRespOk(h, n, m);
    }
  }

  // ---------------------------------------------------------------- every message

  lemma Within(h: Hist, n: RaftState)
    requires NodeOk(h, n)
    ensures n.id in n.prs && n.log.commit <= |n.log.log|
  {
  }

  lemma HandleHupOk(h: Hist, n: RaftState) returns (h': Hist)
    requires HistOk(h) && NodeOk(h, n) && n.log.applied <= n.log.commit
    ensures HandleHup(n).Ok?
    ensures Extends(h, h', n.id) && NodeOk(h', HandleHup(n).value)
  {
    hide Grows, HistOk, NodeOk, Campaign, PreCampaign, NoPendingConf;
    Within(h, n);
    h' := h;
    GrowsReflexive(h, n.id);
    if !n.role.Leader? && NoPendingConf(n.log.log[n.log.applied..n.log.commit]) {
      if n.preVote {
        h' := PreCampaignOk(h, n);
      } else {
        h' := CampaignOk(h, n);
      }
    }
  }

  /** Messages that a node processes in its own term. */
  predicate InTerm(n: RaftState, m: Message) {
    m.PreVote? || m.PreVoteResp? || m.Hup? || m.Beat? || m.Prop? || (TermOf(m) == n.term && TermOf(m) != 0)
  }

  lemma DispatchOk(h: Hist, n: RaftState, m: Message) returns (h': Hist)
    requires HistOk(h) && NodeOk(h, n) && MsgOk(h, m) && Addressed(m, n.id) && InTerm(n, m)
    requires n.log.applied <= n.log.commit
    ensures Dispatch(n, m).Ok?
    ensures Extends(h, h', n.id) && NodeOk(h', Dispatch(n, m).value)
  {
    hide Grows, LogOk, CommitStateOk;
    if m.Hup? {
      h' := HandleHupOk(h, n);
    } else if m.Vote? {
      h' := HandleVoteOk(h, n, m);
    } else if m.PreVote? {
      h' := SendMsgs(h, n, {PreVoteResp(n.id, m.from, n.term, !CanGrant(n, m.from, m.term, m.logTerm, m.logIndex))});
    } else if n.role.Leader? {
      h' := StepLeaderOk(h, n, m);
    } else if n.role.Follower? {
      h' := StepFollowerOk(h, n, m);
    } else {
      h' := StepCandidateOk(h, n, m);
    }
  }

  lemma StepOk(h: Hist, n: RaftState, m: Message) returns (h': Hist)
    requires HistOk(h) && NodeOk(h, n) && MsgOk(h, m) && Addressed(m, n.id)
    requires n.log.applied <= n.log.commit
    ensures Step(n, m).Ok?
    ensures Extends(h, h', n.id) && NodeOk(h', Step(n, m).value)
  {
    hide Grows, LogOk, CommitStateOk, RoleOk;
    if TermOf(m) != 0 && TermOf(m) < n.term {
      h' := h;
      GrowsReflexive(h, n.id);
      if n.checkQuorum && (m.Heartbeat? || m.App?) {
        h' := SendMsgs(h, n, {AppResp(n.id, m.from, n.term, 0, false, 0)});
      }
    } else if AdoptsTerm(n, m) {
      var lead := if m.Vote? then NONE else m.from;
      AdoptTerm(h, n, m.term, lead);
      h' := DispatchOk(h, BecomeFollower(n, m.term, lead), m);
    } else {
      h' := DispatchOk(h, n, m);
    }
  }
}
