/**
 Each thing a node can do keeps the invariants, with the history extended by what it did.
 */
module RaftActions {
  import opened RaftCore
  import opened RaftHistory
  import opened RaftCompleteness

  ghost predicate Extends(h: Hist, h': Hist, id: nat) {
    Grows(h, h', id) && HistOk(h')
  }

  lemma GrowsTrans(h: Hist, h': Hist, h'': Hist, id: nat)
    requires Grows(h, h', id) && Grows(h', h'', id)
    ensures Grows(h, h'', id)
  {
  }

  // ---------------------------------------------------------------- sending

  lemma SendMsgs(h: Hist, n: RaftState, ms: set<Message>) returns (h': Hist)
    requires HistOk(h) && NodeOk(h, n)
    requires forall m :: m in ms ==> MsgOk(h, m)
    ensures Extends(h, h', n.id) && NodeOk(h', Send(n, ms))
    ensures h' == h.(sent := h.sent + ms)
  {
    h' := h.(sent := h.sent + ms);
    SentGrows(h, h', n.id);
    SentKeepsNode(h, h', n);
  }

  lemma SentKeepsNode(h: Hist, h': Hist, n: RaftState)
    requires HistOk(h) && NodeOk(h, n)
    requires h' == h.(sent := h'.sent) && h.sent <= h'.sent
    ensures NodeOk(h', n)
  {
    assert Grows(h, h', n.id + 1);
    NodeOkGrows(h, h', n.id + 1, n);
  }

  lemma SentGrows(h: Hist, h': Hist, id: nat)
    requires HistOk(h)
    requires h' == h.(sent := h'.sent) && h.sent <= h'.sent
    requires forall m :: m in h'.sent && m !in h.sent ==> MsgOk(h, m)
    ensures Extends(h, h', id)
  {
    AcksStay(h, h', id);
    ReignsStay(h, h', id);
    SnapshotsStay(h, h', id);
    SnapshotsStillKeep(h, h', id);
    MsgsStay(h, h', id);
  }

  // ---------------------------------------------------------------- terms

  /** A later term, with no vote in it yet. */
  lemma AdoptTerm(h: Hist, n: RaftState, t: nat, lead: nat)
    requires NodeOk(h, n) && n.term <= t
    ensures NodeOk(h, BecomeFollower(n, t, lead))
  {
  }

  lemma PreCandidateOk(h: Hist, n: RaftState)
    requires NodeOk(h, n) && BecomePreCandidate(n).Ok?
    ensures NodeOk(h, BecomePreCandidate(n).value)
  {
  }

  // ---------------------------------------------------------------- votes

  ghost function WithVote(h: Hist, n: RaftState, c: nat): Hist {
    h.(ballot := h.ballot[At(n.id, n.term) := c],
       snapshot := if n.term in h.reigns then h.snapshot else h.snapshot[At(n.id, n.term) := n.log.log])
  }

  /** The candidate is the voter itself, or one whose log is known to be up to date. */
  ghost predicate MayVoteFor(h: Hist, n: RaftState, c: nat) {
    c == n.id ||
    (At(c, n.term) in h.snapshot && (var s := h.snapshot[At(c, n.term)]; UpToDate(n.log.log, |s|, LastTerm(s))))
  }

  lemma CastVote(h: Hist, n: RaftState, c: nat) returns (h': Hist)
    requires HistOk(h) && NodeOk(h, n) && n.vote == NONE && c in h.servers
    requires n.term !in h.reigns ==> MayVoteFor(h, n, c)
    ensures h' == WithVote(h, n, c)
    ensures Extends(h, h', n.id)
    ensures NodeOk(h', n.(vote := c))
  {
    h' := WithVote(h, n, c);
    var k := At(n.id, n.term);
    assert k !in h.ballot;
    assert k in h.snapshot ==> SnapshotOk(h, k);
    VoteKeepsHistory(h, n, c);
    if n.role.Candidate? { assert false; }
    VoteKeepsNode(h, h', n, c);
  }

  lemma VoteKeepsNode(h: Hist, h': Hist, n: RaftState, c: nat)
    requires HistOk(h) && NodeOk(h, n) && n.vote == NONE && c in h.servers && !n.role.Candidate?
    requires h' == WithVote(h, n, c) && Grows(h, h', n.id)
    ensures NodeOk(h', n.(vote := c))
  {
    forall t, i | Acked(h', n.id, t, i) ensures Kept(h', t, i, n.log.log, n.term + 1) {
      assert Acked(h, n.id, t, i) && AckedOk(h, At(n.id, t));
      KeptGrows(h, h', n.id, t, i, n.log.log, n.log.log, n.term + 1);
    }
    CommitOkGrows(h, h', n.id, n.log.log[..n.log.commit], n.log.log[..n.log.commit], n.term, n.term);
    if n.role.Leader? {
      forall j | j in n.prs && j != n.id ensures ProgressOk(h', n.(vote := c), j) {
        assert ProgressOk(h, n, j);
      }
    }
  }

  lemma VoteKeepsHistory(h: Hist, n: RaftState, c: nat)
    requires HistOk(h) && NodeOk(h, n) && n.vote == NONE && c in h.servers
    requires At(n.id, n.term) !in h.ballot && At(n.id, n.term) !in h.snapshot
    requires n.term !in h.reigns ==> MayVoteFor(h, n, c)
    ensures Extends(h, WithVote(h, n, c), n.id)
  {
    var h' := WithVote(h, n, c);
    assert Grows(h, h', n.id);
    AcksStay(h, h', n.id);
    ReignsStay(h, h', n.id);
    MsgsStay(h, h', n.id);
    if n.term in h.reigns {
      SnapshotsStay(h, h', n.id);
      SnapshotsStillKeep(h, h', n.id);
    } else {
      VoteAddsSnapshot(h, n, c);
      VoteSnapshotsKeep(h, n, c);
    }
  }

  lemma VoteAddsSnapshot(h: Hist, n: RaftState, c: nat)
    requires HistOk(h) && NodeOk(h, n) && n.term !in h.reigns && MayVoteFor(h, n, c)
    requires Grows(h, WithVote(h, n, c), n.id)
    ensures SnapshotsOk(WithVote(h, n, c))
  {
    var h' := WithVote(h, n, c);
    var k0 := At(n.id, n.term);
    forall k | k in h'.snapshot ensures SnapshotOk(h', k) {
      if k == k0 {
        NewSnapshotOk(h, n, c);
      } else {
        SnapshotOkGrows(h, h', n.id, k);
      }
    }
  }

  lemma VoteSnapshotsKeep(h: Hist, n: RaftState, c: nat)
    requires HistOk(h) && NodeOk(h, n) && n.term !in h.reigns
    requires Grows(h, WithVote(h, n, c), n.id)
    ensures SnapshotsKeep(WithVote(h, n, c))
  {
    var h' := WithVote(h, n, c);
    var k0 := At(n.id, n.term);
    forall k: At, t: nat, i: nat | k in h'.snapshot ensures SnapshotKeeps(h', k, t, i) {
      if k == k0 {
        NewSnapshotKeeps(h, n, c, t, i);
      } else {
        SnapshotKeepsGrows(h, h', n.id, k, t, i);
      }
    }
  }

  lemma NewSnapshotOk(h: Hist, n: RaftState, c: nat)
    requires HistOk(h) && NodeOk(h, n) && n.term !in h.reigns && MayVoteFor(h, n, c)
    ensures SnapshotOk(WithVote(h, n, c), At(n.id, n.term))
  {
    forall i | 0 <= i < |n.log.log| ensures n.log.log[i].term < n.term {
      assert AnchoredAt(h.reigns, n.log.log, i);
    }
  }

  lemma NewSnapshotKeeps(h: Hist, n: RaftState, c: nat, t: nat, i: nat)
    requires HistOk(h) && NodeOk(h, n) && n.term !in h.reigns
    requires Grows(h, WithVote(h, n, c), n.id)
    ensures SnapshotKeeps(WithVote(h, n, c), At(n.id, n.term), t, i)
  {
    var h' := WithVote(h, n, c);
    if t < n.term && Acked(h', n.id, t, i) {
      assert Acked(h, n.id, t, i) && AckedOk(h, At(n.id, t));
      assert Kept(h, t, i, n.log.log, n.term + 1);
      if !(Prefix(h, t, i) <= n.log.log) {
        var t' :| t < t' < n.term + 1 && t' in h.reigns && !(Prefix(h, t, i) <= ElectedLog(h, t'));
        assert Lost(h, t, i, n.term);
      }
      KeptGrows(h, h', n.id, t, i, n.log.log, n.log.log, n.term);
    }
  }

  /** A candidate has all that a node of its term has that voted for itself. */
  lemma OwnVoteOk(h: Hist, n: RaftState)
    requires BecomeCandidate(n).Ok? && NodeOk(h, BecomeFollower(n, n.term + 1, NONE).(vote := n.id))
    requires CandidateOk(h, BecomeCandidate(n).value)
    ensures NodeOk(h, BecomeCandidate(n).value)
  {
  }

  lemma CandidateStep(h: Hist, n: RaftState) returns (h': Hist)
    requires HistOk(h) && NodeOk(h, n) && BecomeCandidate(n).Ok?
    ensures Extends(h, h', n.id) && NodeOk(h', BecomeCandidate(n).value)
  {
    hide Grows, LogOk;
    var n1 := BecomeFollower(n, n.term + 1, NONE);
    AdoptTerm(h, n, n.term + 1, NONE);
    if n1.term in h.reigns {
      assert ReignOk(h, n1.term);
    }
    h' := CastVote(h, n1, n.id);
    OwnVoteOk(h', n);
  }

  /** A vote in the candidate's count is a ballot cast for it. */
  lemma CountVote(h: Hist, n: RaftState, from: nat, granted: bool)
    requires NodeOk(h, n) && from in h.servers
    requires n.role.Candidate? && granted ==> VotedFor(h, At(from, n.term), n.id)
    requires n.role.Candidate? || n.role.PreCandidate?
    ensures NodeOk(h, RecordVote(n, from, granted))
  {
  }
}
