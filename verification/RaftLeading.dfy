/**
 Winning an election, appending as the leader and committing keep the invariants.
 */
module RaftLeading {
  import opened RaftCore
  import opened RaftHistory
  import opened RaftCompleteness
  import opened RaftActions

  // ---------------------------------------------------------------- election

  ghost function WithReign(h: Hist, n: RaftState): Hist {
    h.(reigns := h.reigns[n.term := Reign(n.id, Granted(n.votes), n.log.log)],
       acked := h.acked[At(n.id, n.term) := |n.log.log|])
  }

  /** Election safety (section 5.2): a candidate with a quorum of votes finds its term without a leader. */
  lemma TermIsVacant(h: Hist, n: RaftState)
    requires HistOk(h) && NodeOk(h, n) && n.role.Candidate? && IsQuorum(h, Granted(n.votes))
    ensures n.term !in h.reigns && At(n.id, n.term) !in h.acked
  {
    if n.term in h.reigns {
      assert ReignOk(h, n.term);
      var v := QuorumsMeet(h, h.reigns[n.term].voters, Granted(n.votes));
      assert false;
    }
    assert At(n.id, n.term) in h.acked ==> AckedOk(h, At(n.id, n.term));
  }

  lemma Elect(h: Hist, n: RaftState) returns (h': Hist)
    requires HistOk(h) && NodeOk(h, n) && n.role.Candidate? && IsQuorum(h, Granted(n.votes))
    ensures Extends(h, h', n.id) && NodeOk(h', FreshLeader(n))
  {
    TermIsVacant(h, n);
    h' := WithReign(h, n);
    ReignAdded(h, n);
    ReignKeepsNode(h, n);
  }

  lemma ReignAdded(h: Hist, n: RaftState)
    requires HistOk(h) && NodeOk(h, n) && n.role.Candidate? && IsQuorum(h, Granted(n.votes))
    requires n.term !in h.reigns && At(n.id, n.term) !in h.acked
    ensures Extends(h, WithReign(h, n), n.id)
  {
    hide LogOk, CommitStateOk, RoleOk, ReignsOk;
    var h' := WithReign(h, n);
    assert Grows(h, h', n.id);
    ReignAcksOk(h, n);
    ReignsPlusOne(h, n);
    SnapshotsStay(h, h', n.id);
    SnapshotsAreVotes(h);
    SnapshotsStillKeep(h, h', n.id);
    MsgsStay(h, h', n.id);
  }

  lemma ReignAcksOk(h: Hist, n: RaftState)
    requires AcksOk(h) && n.term !in h.reigns
    ensures AcksOk(WithReign(h, n))
  {
    var h' := WithReign(h, n);
    forall k | k in h'.acked ensures AckedOk(h', k) {
      assert k in h.acked ==> AckedOk(h, k);
    }
  }

  lemma ReignsPlusOne(h: Hist, n: RaftState)
    requires HistOk(h) && NodeOk(h, n) && n.role.Candidate? && IsQuorum(h, Granted(n.votes))
    requires n.term !in h.reigns && Grows(h, WithReign(h, n), n.id) && AcksOk(WithReign(h, n))
    ensures ReignsOk(WithReign(h, n))
  {
    hide LogOk, CommitStateOk, RoleOk;
    var h' := WithReign(h, n);
    forall t: nat | t in h'.reigns ensures ReignOk(h', t) {
      if t == n.term {
        NewReignOk(h, n);
      } else {
        assert ReignOk(h, t);
        assert AckedOk(h', At(h.reigns[t].leader, t));
        ReignOkGrows(h, h', n.id, t);
      }
    }
  }

  lemma NewReignOk(h: Hist, n: RaftState)
    requires HistOk(h) && NodeOk(h, n) && n.role.Candidate? && IsQuorum(h, Granted(n.votes))
    requires n.term !in h.reigns && Grows(h, WithReign(h, n), n.id)
    ensures ReignOk(WithReign(h, n), n.term)
  {
    var h' := WithReign(h, n);
    AnchoredGrows(h.reigns, h'.reigns, n.id, n.log.log);
    forall v | v in Granted(n.votes) ensures VotedFor(h', At(v, n.term), n.id) && At(v, n.term) in h'.snapshot {
      assert VotedFor(h, At(v, n.term), n.id);
    }
  }

  lemma ReignKeepsNode(h: Hist, n: RaftState)
    requires HistOk(h) && NodeOk(h, n) && n.role.Candidate? && n.term !in h.reigns
    requires Extends(h, WithReign(h, n), n.id)
    ensures NodeOk(WithReign(h, n), FreshLeader(n))
  {
    var h', n' := WithReign(h, n), FreshLeader(n);
    AnchoredGrows(h.reigns, h'.reigns, n.id, n.log.log);
    forall t, i | Acked(h', n.id, t, i) ensures Kept(h', t, i, n.log.log, n.term + 1) {
      if t != n.term {
        assert Acked(h, n.id, t, i) && AckedOk(h, At(n.id, t));
        KeptGrows(h, h', n.id, t, i, n.log.log, n.log.log, n.term + 1);
      }
    }
    CommitOkGrows(h, h', n.id, n.log.log[..n.log.commit], n.log.log[..n.log.commit], n.term, n.term);
    assert LeaderOk(h', n');
  }

  // ---------------------------------------------------------------- appending

  ghost function WithLog(h: Hist, n: RaftState, l: Log): Hist
    requires n.term in h.reigns
  {
    h.(reigns := h.reigns[n.term := h.reigns[n.term].(log := l)],
       acked := h.acked[At(n.id, n.term) := |l|])
  }

  /** The leader's state after its own entries es, before it looks at what is committed. */
  function Appended(n: RaftState, es: seq<Entry>): RaftState
    requires n.id in n.prs
  {
    var l := n.log.log + Stamp(es, n.term, |n.log.log|);
    n.(log := n.log.(log := l, stable := Min(n.log.stable, |n.log.log|)),
       prs := n.prs[n.id := MaybeUpdate(n.prs[n.id], |l|)])
  }

  lemma AppendEntryIs(n: RaftState, es: seq<Entry>)
    requires n.id in n.prs && n.log.commit <= |n.log.log| && es != []
    ensures AppendEntry(n, es) == MaybeCommit(Appended(n, es))
  {
    assert n.log.log[..|n.log.log|] == n.log.log;
  }

  lemma LeaderAppend(h: Hist, n: RaftState, es: seq<Entry>) returns (h': Hist)
    requires HistOk(h) && NodeOk(h, n) && n.role.Leader? && es != []
    ensures Extends(h, h', n.id) && NodeOk(h', Appended(n, es))
  {
    var l := n.log.log + Stamp(es, n.term, |n.log.log|);
    LogGrows(h, n, l);
    LogAppended(h, n, l);
    AppendKeepsNode(h, n, es, l);
    h' := WithLog(h, n, l);
  }

  lemma LogGrows(h: Hist, n: RaftState, l: Log)
    requires HistOk(h) && NodeOk(h, n) && n.role.Leader? && n.log.log <= l
    ensures Grows(h, WithLog(h, n, l), n.id)
  {
    assert ReignOk(h, n.term);
  }

  ghost predicate ExtendsLog(n: RaftState, l: Log) {
    && n.log.log <= l
    && forall i :: |n.log.log| <= i < |l| ==> l[i].term == n.term && l[i].index == i + 1
  }

  lemma AnchoredAppend(h: Hist, n: RaftState, l: Log)
    requires HistOk(h) && NodeOk(h, n) && n.role.Leader? && ExtendsLog(n, l)
    requires Grows(h, WithLog(h, n, l), n.id)
    ensures Anchored(WithLog(h, n, l).reigns, l) && TermsUpTo(l, n.term)
  {
    var g' := WithLog(h, n, l).reigns;
    forall i: nat | i < |l| ensures AnchoredAt(g', l, i) {
      if i < |n.log.log| {
        AnchoredGrows(h.reigns, g', n.id, n.log.log);
        assert AnchoredAt(g', n.log.log, i);
        assert l[..i + 1] == n.log.log[..i + 1];
      }
    }
  }

  lemma LogAppended(h: Hist, n: RaftState, l: Log)
    requires HistOk(h) && NodeOk(h, n) && n.role.Leader? && ExtendsLog(n, l)
    requires Grows(h, WithLog(h, n, l), n.id)
    ensures HistOk(WithLog(h, n, l))
  {
    var h' := WithLog(h, n, l);
    forall k | k in h'.acked ensures AckedOk(h', k) {
      assert k in h.acked ==> AckedOk(h, k);
    }
    SnapshotsStay(h, h', n.id);
    SnapshotsAreVotes(h);
    SnapshotsStillKeep(h, h', n.id);
    MsgsStay(h, h', n.id);
    forall t: nat | t in h'.reigns ensures ReignOk(h', t) {
      assert ReignOk(h, t);
      if t == n.term {
        GrownReignOk(h, n, l);
      } else {
        assert AckedOk(h', At(h.reigns[t].leader, t));
        ReignOkGrows(h, h', n.id, t);
      }
    }
  }

  lemma GrownReignOk(h: Hist, n: RaftState, l: Log)
    requires HistOk(h) && NodeOk(h, n) && n.role.Leader? && ExtendsLog(n, l)
    requires Grows(h, WithLog(h, n, l), n.id)
    ensures ReignOk(WithLog(h, n, l), n.term)
  {
    var h' := WithLog(h, n, l);
    assert ReignOk(h, n.term);
    AnchoredAppend(h, n, l);
    PrefixTrans(h.snapshot[At(n.id, n.term)], n.log.log, l);
    forall v | v in h.reigns[n.term].voters ensures VotedFor(h', At(v, n.term), n.id) && At(v, n.term) in h'.snapshot {
      assert VotedFor(h, At(v, n.term), n.id);
    }
  }

  lemma AppendKeepsNode(h: Hist, n: RaftState, es: seq<Entry>, l: Log)
    requires HistOk(h) && NodeOk(h, n) && n.role.Leader? && ExtendsLog(n, l)
    requires l == n.log.log + Stamp(es, n.term, |n.log.log|)
    requires Extends(h, WithLog(h, n, l), n.id)
    ensures NodeOk(WithLog(h, n, l), Appended(n, es))
  {
    hide ReignsOk, SnapshotsOk, SnapshotsKeep, MsgsOk, Grows;
    var h', n' := WithLog(h, n, l), Appended(n, es);
    AnchoredAppend(h, n, l);
    forall t, i | Acked(h', n.id, t, i) ensures Kept(h', t, i, l, n.term + 1) {
      if t != n.term {
        assert Acked(h, n.id, t, i) && AckedOk(h, At(n.id, t));
        KeptGrows(h, h', n.id, t, i, n.log.log, l, n.term + 1);
      }
    }
    assert l[..n.log.commit] == n.log.log[..n.log.commit];
    CommitOkGrows(h, h', n.id, n.log.log[..n.log.commit], n.log.log[..n.log.commit], n.term, n.term);
    forall j | j in n'.prs && j != n'.id ensures ProgressOk(h', n', j) {
      assert ProgressOk(h, n, j);
    }
  }

  // ---------------------------------------------------------------- committing

  /** What the commit rule admits is acknowledged by a quorum (section 5.4.2). */
  lemma QuorumHolds(h: Hist, n: RaftState, k: nat)
    requires HistOk(h) && NodeOk(h, n) && n.role.Leader?
    requires |Holders(n.prs, k)| >= Quorum(n.prs.Keys) && 0 < k && TermAt(n.log.log, k) == n.term
    ensures k <= |n.log.log| && Committed(h, n.term, k)
  {
    var q := Holders(n.prs, k);
    assert IsQuorum(h, q);
    assert ReignOk(h, n.term);
    forall j | j in q ensures Acked(h, j, n.term, k) {
      if j != n.id {
        assert ProgressOk(h, n, j);
      }
    }
    assert AllAcked(h, q, n.term, k);
  }

  lemma LeaderCommits(h: Hist, n: RaftState)
    requires HistOk(h) && NodeOk(h, n) && n.role.Leader?
    ensures MaybeCommit(n).Ok? && NodeOk(h, MaybeCommit(n).value) && MaybeCommit(n).value.role.Leader?
  {
    assert n.id in n.prs;
    var k := QuorumIndex(n.prs);
    if k > n.log.commit && TermAt(n.log.log, k) == n.term {
      QuorumHolds(h, n, k);
      var n' := MaybeCommit(n).value;
      assert n' == n.(log := n.log.(commit := k));
      assert n.log.log[..k] == Prefix(h, n.term, k);
      assert CommitOk(h, n.log.log[..k], n.term);
      forall j | j in n'.prs && j != n'.id ensures ProgressOk(h, n', j) {
        assert ProgressOk(h, n, j);
      }
    }
  }

  lemma AppendEntryOk(h: Hist, n: RaftState, es: seq<Entry>) returns (h': Hist)
    requires HistOk(h) && NodeOk(h, n) && n.role.Leader? && es != []
    ensures AppendEntry(n, es).Ok? && AppendEntry(n, es).value.role.Leader?
    ensures Extends(h, h', n.id) && NodeOk(h', AppendEntry(n, es).value)
  {
    AppendEntryIs(n, es);
    h' := LeaderAppend(h, n, es);
    LeaderCommits(h', Appended(n, es));
  }

  lemma BecomeLeaderOk(h: Hist, n: RaftState) returns (h': Hist)
    requires HistOk(h) && NodeOk(h, n) && n.role.Candidate? && IsQuorum(h, Granted(n.votes))
    ensures BecomeLeader(n).Ok? && BecomeLeader(n).value.role.Leader?
    ensures Extends(h, h', n.id) && NodeOk(h', BecomeLeader(n).value)
  {
    hide HistOk, Grows;
    var h1 := Elect(h, n);
    h' := AppendEntryOk(h1, FreshLeader(n), [EMPTY_ENTRY]);
    GrowsTrans(h, h1, h', n.id);
  }

  // ---------------------------------------------------------------- what the leader sends

  lemma AppendMsgOk(h: Hist, n: RaftState, to: nat)
    requires HistOk(h) && NodeOk(h, n) && n.role.Leader? && to in n.prs && to != n.id
    ensures MsgOk(h, AppendMsg(n, to))
  {
  }

  lemma HeartbeatMsgOk(h: Hist, n: RaftState, to: nat)
    requires HistOk(h) && NodeOk(h, n) && n.role.Leader? && to in n.prs && to != n.id
    ensures MsgOk(h, HeartbeatMsg(n, to))
  {
  }

  lemma BroadcastAppendOk(h: Hist, n: RaftState) returns (h': Hist)
    requires HistOk(h) && NodeOk(h, n) && n.role.Leader?
    ensures Extends(h, h', n.id) && NodeOk(h', BroadcastAppend(n))
  {
    forall j | j in n.prs && j != n.id ensures MsgOk(h, AppendMsg(n, j)) {
      AppendMsgOk(h, n, j);
    }
    h' := SendMsgs(h, n, set j | j in n.prs && j != n.id :: AppendMsg(n, j));
  }

  lemma BroadcastHeartbeatOk(h: Hist, n: RaftState) returns (h': Hist)
    requires HistOk(h) && NodeOk(h, n) && n.role.Leader?
    ensures Extends(h, h', n.id) && NodeOk(h', BroadcastHeartbeat(n))
  {
    forall j | j in n.prs && j != n.id ensures MsgOk(h, HeartbeatMsg(n, j)) {
      HeartbeatMsgOk(h, n, j);
    }
    h' := SendMsgs(h, n, set j | j in n.prs && j != n.id :: HeartbeatMsg(n, j));
  }

  // ---------------------------------------------------------------- what the leader receives

  lemma FilterConfLength(es: seq<Entry>, pending: bool)
    ensures |FilterConf(es, pending).0| == |es|
  {
  }

  lemma ProposeOk(h: Hist, n: RaftState, es: seq<Entry>) returns (h': Hist)
    requires HistOk(h) && NodeOk(h, n) && n.role.Leader? && es != []
    ensures Propose(n, es).Ok?
    ensures Extends(h, h', n.id) && NodeOk(h', Propose(n, es).value)
  {
    var p, fs := FilterConf(es, n.pendingConf).1, FilterConf(es, n.pendingConf).0;
    FilterConfLength(es, n.pendingConf);
    PendingConfIsFree(h, n, p);
    h' := AppendAndBroadcast(h, n.(pendingConf := p), fs);
  }

  lemma AppendAndBroadcast(h: Hist, n: RaftState, es: seq<Entry>) returns (h': Hist)
    requires HistOk(h) && NodeOk(h, n) && n.role.Leader? && es != []
    ensures AppendEntry(n, es).Ok?
    ensures Extends(h, h', n.id) && NodeOk(h', BroadcastAppend(AppendEntry(n, es).value))
  {
    hide HistOk, Grows;
    var h1 := AppendEntryOk(h, n, es);
    h' := ThenBroadcast(h, h1, AppendEntry(n, es).value);
  }

  lemma ThenBroadcast(h: Hist, h1: Hist, n: RaftState) returns (h': Hist)
    requires Extends(h, h1, n.id) && NodeOk(h1, n) && n.role.Leader?
    ensures Extends(h, h', n.id) && NodeOk(h', BroadcastAppend(n))
  {
    hide HistOk, Grows;
    h' := BroadcastAppendOk(h1, n);
    GrowsTrans(h, h1, h', n.id);
  }

  lemma PendingConfIsFree(h: Hist, n: RaftState, p: bool)
    requires NodeOk(h, n)
    ensures NodeOk(h, n.(pendingConf := p))
  {
  }

  /** Progress that stays within what the peer acknowledged and what the leader has. */
  lemma SetProgress(h: Hist, n: RaftState, j: nat, pr: Progress)
    requires HistOk(h) && NodeOk(h, n) && n.role.Leader? && j in n.prs
    requires pr.next <= |n.log.log| + 1 || j == n.id
    requires pr.matched == 0 || Acked(h, j, n.term, pr.matched) || j == n.id
    ensures NodeOk(h, n.(prs := n.prs[j := pr]))
  {
  }

  lemma RejectOk(h: Hist, n: RaftState, j: nat, pr: Progress) returns (h': Hist)
    requires HistOk(h) && NodeOk(h, n) && n.role.Leader? && j in n.prs && j != n.id
    requires pr.next <= n.prs[j].next && pr.matched == n.prs[j].matched
    ensures Extends(h, h', n.id)
    ensures var n1 := n.(prs := n.prs[j := pr]); NodeOk(h', Send(n1, {AppendMsg(n1, j)}))
  {
    assert ProgressOk(h, n, j);
    var n1 := n.(prs := n.prs[j := pr]);
    SetProgress(h, n, j, pr);
    AppendMsgOk(h, n1, j);
    h' := SendMsgs(h, n1, {AppendMsg(n1, j)});
  }

  lemma AcceptOk(h: Hist, n: RaftState, j: nat, i: nat)
    requires HistOk(h) && NodeOk(h, n) && n.role.Leader? && j in n.prs && j != n.id
    requires i == 0 || Acked(h, j, n.term, i)
    ensures NodeOk(h, n.(prs := n.prs[j := MaybeUpdate(n.prs[j], i)]))
  {
    assert ProgressOk(h, n, j);
    assert i != 0 ==> AckedOk(h, At(j, n.term));
    SetProgress(h, n, j, MaybeUpdate(n.prs[j], i));
  }

  lemma AppRespOk(h: Hist, n: RaftState, m: Message) returns (h': Hist)
    requires HistOk(h) && NodeOk(h, n) && n.role.Leader?
    requires m.AppResp? && MsgOk(h, m) && m.term == n.term && m.from != n.id
    ensures HandleAppResp(n, m).Ok?
    ensures Extends(h, h', n.id) && NodeOk(h', HandleAppResp(n, m).value)
  {
    hide HistOk, Grows, LogOk, CommitStateOk, VoteStateOk, BroadcastAppend, AppendMsg;
    h' := h;
    GrowsReflexive(h, n.id);
    if m.reject {
      match MayDecreaseTo(n.prs[m.from], m.logIndex, m.rejectHint)
      case None =>
      case Some(pr) => h' := RejectOk(h, n, m.from, pr);
    } else {
      AcceptOk(h, n, m.from, m.logIndex);
      var n1 := n.(prs := n.prs[m.from := MaybeUpdate(n.prs[m.from], m.logIndex)]);
      LeaderCommits(h, n1);
      if n.prs[m.from].matched < m.logIndex && MaybeCommit(n1).value.log.commit != n1.log.commit {
        h' := BroadcastAppendOk(h, MaybeCommit(n1).value);
      }
    }
  }
}
