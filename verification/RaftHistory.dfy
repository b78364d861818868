/**
 What a run of the cluster leaves behind, and the invariants stated over it. The history never
 enters a node's decisions: it only records, per term, who led with whose votes and with which log,
 which votes were cast on which log, and which prefixes were acknowledged.
 */
module RaftHistory {
  import opened RaftCore

  datatype At = At(node: nat, term: nat)

  /** One term's leadership: `log` is the leader's log, growing as long as it leads. */
  datatype Reign = Reign(leader: nat, voters: set<nat>, log: Log)

  datatype Hist = Hist(
    servers: set<nat>,
    reigns: map<nat, Reign>,
    ballot: map<At, nat>,       // the candidate a node voted for in a term
    snapshot: map<At, Log>,     // the voter's log at that moment, for votes cast before the term had a leader
    acked: map<At, nat>,        // the longest prefix of the term's log a node has acknowledged
    sent: set<Message>)

  // ---------------------------------------------------------------- logs

  /** Every prefix of l that ends in a term's entry is a prefix of that term's log. */
  ghost predicate AnchoredAt(g: map<nat, Reign>, l: Log, i: nat)
    requires i < |l|
  {
    && l[i].index == i + 1
    && 1 <= l[i].term
    && l[i].term in g
    && i < |g[l[i].term].log|
    && l[..i + 1] == g[l[i].term].log[..i + 1]
  }

  ghost predicate Anchored(g: map<nat, Reign>, l: Log) {
    forall i: nat {:trigger AnchoredAt(g, l, i)} :: i < |l| ==> AnchoredAt(g, l, i)
  }

  ghost predicate TermsUpTo(l: Log, t: nat) {
    forall i :: 0 <= i < |l| ==> l[i].term <= t
  }

  ghost predicate TermsBelow(l: Log, t: nat) {
    forall i :: 0 <= i < |l| ==> l[i].term < t
  }

  // ---------------------------------------------------------------- votes and acknowledgements

  ghost predicate IsQuorum(h: Hist, q: set<nat>) {
    q <= h.servers && |q| >= Quorum(h.servers)
  }

  /** The log with which the leader of term t was elected. */
  ghost function ElectedLog(h: Hist, t: nat): Log {
    if t in h.reigns && At(h.reigns[t].leader, t) in h.snapshot then h.snapshot[At(h.reigns[t].leader, t)] else []
  }

  /** The first i entries of term t's log. */
  ghost function Prefix(h: Hist, t: nat, i: nat): Log {
    if t in h.reigns && i <= |h.reigns[t].log| then h.reigns[t].log[..i] else []
  }

  /** Some leader elected after t and before hi lacks the first i entries of term t's log. */
  ghost predicate Lost(h: Hist, t: nat, i: nat, hi: nat) {
    exists t' :: t < t' < hi && t' in h.reigns && !(Prefix(h, t, i) <= ElectedLog(h, t'))
  }

  ghost predicate Kept(h: Hist, t: nat, i: nat, l: Log, hi: nat) {
    Prefix(h, t, i) <= l || Lost(h, t, i, hi)
  }

  ghost predicate ReignOk(h: Hist, t: nat)
    requires t in h.reigns
  {
    var r := h.reigns[t];
    && 1 <= t
    && r.leader in h.servers
    && IsQuorum(h, r.voters)
    && Anchored(h.reigns, r.log)
    && TermsUpTo(r.log, t)
    && At(r.leader, t) in h.snapshot
    && h.snapshot[At(r.leader, t)] <= r.log
    && At(r.leader, t) in h.acked
    && h.acked[At(r.leader, t)] == |r.log|
    && forall v :: v in r.voters ==> VotedFor(h, At(v, t), r.leader) && At(v, t) in h.snapshot
  }

  ghost predicate VotedFor(h: Hist, k: At, c: nat) {
    k in h.ballot && h.ballot[k] == c
  }

  /** A vote went to a candidate at least as up to date, and remembers what the voter had acknowledged. */
  ghost predicate SnapshotOk(h: Hist, k: At)
    requires k in h.snapshot
  {
    && k in h.ballot
    && At(h.ballot[k], k.term) in h.snapshot
    && (var c := h.snapshot[At(h.ballot[k], k.term)]; UpToDate(h.snapshot[k], |c|, LastTerm(c)))
    && Anchored(h.reigns, h.snapshot[k])
    && TermsBelow(h.snapshot[k], k.term)
  }

  ghost predicate SnapshotKeeps(h: Hist, k: At, t: nat, i: nat)
    requires k in h.snapshot
  {
    t < k.term && Acked(h, k.node, t, i) ==> Kept(h, t, i, h.snapshot[k], k.term)
  }

  /** Node n has acknowledged the first i entries of term t's log. */
  ghost predicate Acked(h: Hist, n: nat, t: nat, i: nat) {
    At(n, t) in h.acked && i <= h.acked[At(n, t)]
  }

  ghost predicate AckedOk(h: Hist, k: At)
    requires k in h.acked
  {
    k.term in h.reigns && h.acked[k] <= |h.reigns[k.term].log|
  }

  // ---------------------------------------------------------------- commitment

  /** A quorum has acknowledged entry i of term t's log, an entry of term t itself. */
  ghost predicate Committed(h: Hist, t: nat, i: nat) {
    && t in h.reigns
    && 0 < i <= |h.reigns[t].log|
    && h.reigns[t].log[i - 1].term == t
    && exists q :: IsQuorum(h, q) && AllAcked(h, q, t, i)
  }

  ghost predicate AllAcked(h: Hist, q: set<nat>, t: nat, i: nat) {
    forall n :: n in q ==> Acked(h, n, t, i)
  }

  /** p is part of a log prefix committed in some term up to t. */
  ghost predicate CommitOk(h: Hist, p: Log, t: nat) {
    p == [] || exists t0: nat, i: nat :: t0 <= t && Committed(h, t0, i) && p <= Prefix(h, t0, i)
  }

  // ---------------------------------------------------------------- messages

  ghost predicate AppOk(h: Hist, m: Message)
    requires m.App?
  {
    && m.term in h.reigns
    && (var g := h.reigns[m.term].log;
        && m.logIndex + |m.entries| <= |g|
        && m.entries == g[m.logIndex..m.logIndex + |m.entries|]
        && m.logTerm == TermAt(g, m.logIndex)
        && m.commit <= |g|
        && CommitOk(h, g[..m.commit], m.term))
  }

  ghost predicate HeartbeatOk(h: Hist, m: Message)
    requires m.Heartbeat?
  {
    && m.term in h.reigns
    && (m.commit == 0 || Acked(h, m.to, m.term, m.commit))
    && CommitOk(h, Prefix(h, m.term, m.commit), m.term)
  }

  ghost predicate VoteOk(h: Hist, m: Message)
    requires m.Vote?
  {
    && m.from in h.servers
    && VotedFor(h, At(m.from, m.term), m.from)
    && (m.term !in h.reigns ==>
          && At(m.from, m.term) in h.snapshot
          && m.logIndex == |h.snapshot[At(m.from, m.term)]|
          && m.logTerm == LastTerm(h.snapshot[At(m.from, m.term)]))
  }

  /** Only proposals and local messages lack a term; nodes send nothing else to themselves. */
  predicate WellFormed(m: Message) {
    m.Hup? || m.Beat? || m.Prop? || (TermOf(m) >= 1 && m.from != m.to)
  }

  ghost predicate MsgOk(h: Hist, m: Message) {
    && WellFormed(m)
    && match m
    case App(_, _, _, _, _, _, _) => AppOk(h, m)
    case AppResp(from, _, t, i, reject, _) =>
      from in h.servers && (reject || i == 0 || Acked(h, from, t, i))
    case Vote(_, _, _, _, _) => VoteOk(h, m)
    case VoteResp(from, to, t, reject) => from in h.servers && (reject || VotedFor(h, At(from, t), to))
    case Heartbeat(_, _, _, _) => HeartbeatOk(h, m)
    case Prop(_, _, es) => es != []
    case PreVoteResp(from, _, _, _) => from in h.servers
    case _ => true
  }

  // ---------------------------------------------------------------- the history invariant

  ghost predicate ReignsOk(h: Hist) {
    forall t: nat {:trigger ReignOk(h, t)} :: t in h.reigns ==> ReignOk(h, t)
  }

  ghost predicate SnapshotsOk(h: Hist) {
    && (forall k: At {:trigger SnapshotOk(h, k)} :: k in h.snapshot ==> SnapshotOk(h, k))
    && (forall k :: k in h.ballot && k.term !in h.reigns ==> k in h.snapshot)
  }

  ghost predicate SnapshotsKeep(h: Hist) {
    forall k: At, t: nat, i: nat {:trigger SnapshotKeeps(h, k, t, i)} :: k in h.snapshot ==> SnapshotKeeps(h, k, t, i)
  }

  ghost predicate AcksOk(h: Hist) {
    forall k: At {:trigger AckedOk(h, k)} :: k in h.acked ==> AckedOk(h, k)
  }

  ghost predicate MsgsOk(h: Hist) {
    forall m: Message {:trigger MsgOk(h, m)} :: m in h.sent ==> MsgOk(h, m)
  }

  ghost predicate HistOk(h: Hist) {
    && NONE !in h.servers
    && h.servers != {}
    && ReignsOk(h)
    && SnapshotsOk(h)
    && SnapshotsKeep(h)
    && AcksOk(h)
    && MsgsOk(h)
  }

  // ---------------------------------------------------------------- node invariants

  ghost predicate VoteStateOk(h: Hist, n: RaftState) {
    && (forall k :: k in h.ballot && k.node == n.id ==> k.term <= n.term)
    && (forall k :: k in h.acked && k.node == n.id ==> k.term <= n.term)
    && (n.vote == NONE ==> At(n.id, n.term) !in h.ballot)
    && (n.vote != NONE ==> VotedFor(h, At(n.id, n.term), n.vote))
  }

  ghost predicate LogOk(h: Hist, n: RaftState) {
    && Anchored(h.reigns, n.log.log)
    && TermsUpTo(n.log.log, n.term)
    && forall t, i :: Acked(h, n.id, t, i) ==> Kept(h, t, i, n.log.log, n.term + 1)
  }

  ghost predicate CommitStateOk(h: Hist, n: RaftState) {
    n.log.commit <= |n.log.log| && CommitOk(h, n.log.log[..n.log.commit], n.term)
  }

  ghost predicate ProgressOk(h: Hist, n: RaftState, j: nat)
    requires j in n.prs
  {
    && n.prs[j].next <= |n.log.log| + 1
    && (n.prs[j].matched == 0 || Acked(h, j, n.term, n.prs[j].matched))
  }

  ghost predicate LeaderOk(h: Hist, n: RaftState) {
    && n.term in h.reigns
    && h.reigns[n.term].leader == n.id
    && h.reigns[n.term].log == n.log.log
    && forall j :: j in n.prs && j != n.id ==> ProgressOk(h, n, j)
  }

  ghost predicate CandidateOk(h: Hist, n: RaftState) {
    && n.vote == n.id
    && (n.term in h.reigns ==> h.reigns[n.term].leader != n.id)
    && (n.term !in h.reigns ==> At(n.id, n.term) in h.snapshot && h.snapshot[At(n.id, n.term)] == n.log.log)
    && forall v :: v in n.votes && n.votes[v] ==> VotedFor(h, At(v, n.term), n.id)
  }

  ghost predicate RoleOk(h: Hist, n: RaftState) {
    && (n.role.Leader? ==> LeaderOk(h, n))
    && (n.role.Candidate? ==> CandidateOk(h, n))
    && (n.role.Candidate? || n.role.PreCandidate? ==> n.votes.Keys <= h.servers)
  }

  ghost predicate NodeOk(h: Hist, n: RaftState) {
    && n.id in h.servers
    && n.prs.Keys == h.servers
    && 1 <= n.term
    && VoteStateOk(h, n)
    && LogOk(h, n)
    && CommitStateOk(h, n)
    && RoleOk(h, n)
    && n.msgs <= h.sent
  }

  // ---------------------------------------------------------------- how the history grows

  /** h' adds to h only what node `id` may add: its votes, its acknowledgements, its terms of leadership. */
  ghost predicate Grows(h: Hist, h': Hist, id: nat) {
    && h'.servers == h.servers
    && ReignsGrow(h.reigns, h'.reigns, id)
    && (forall k :: k in h.ballot ==> k in h'.ballot && h'.ballot[k] == h.ballot[k])
    && (forall k :: k in h'.ballot && k !in h.ballot ==> k.node == id)
    && (forall k :: k in h.snapshot ==> k in h'.snapshot && h'.snapshot[k] == h.snapshot[k])
    && (forall k :: k in h.acked ==> k in h'.acked && h.acked[k] <= h'.acked[k])
    && (forall k :: k in h'.acked && k.node != id ==> k in h.acked && h.acked[k] == h'.acked[k])
    && h.sent <= h'.sent
  }

  ghost predicate ReignsGrow(g: map<nat, Reign>, g': map<nat, Reign>, id: nat) {
    && (forall t :: t in g ==> t in g' && g'[t].leader == g[t].leader && g'[t].voters == g[t].voters && g[t].log <= g'[t].log)
    && (forall t :: t in g && g[t].leader != id ==> g'[t].log == g[t].log)
    && (forall t :: t in g' && t !in g ==> g'[t].leader == id)
  }

  lemma PrefixTrans(a: Log, b: Log, c: Log)
    requires a <= b && b <= c
    ensures a <= c
  {
  }

  lemma AnchoredGrows(g: map<nat, Reign>, g': map<nat, Reign>, id: nat, l: Log)
    requires ReignsGrow(g, g', id) && Anchored(g, l)
    ensures Anchored(g', l)
  {
    forall i | 0 <= i < |l| ensures AnchoredAt(g', l, i) {
      assert AnchoredAt(g, l, i);
      var t := l[i].term;
      assert g[t].log <= g'[t].log;
      assert g'[t].log[..i + 1] == g[t].log[..i + 1];
    }
  }

  lemma PrefixGrows(h: Hist, h': Hist, id: nat, t: nat, i: nat)
    requires Grows(h, h', id)
    requires t in h.reigns && i <= |h.reigns[t].log|
    ensures t in h'.reigns && i <= |h'.reigns[t].log| && Prefix(h', t, i) == Prefix(h, t, i)
  {
    assert h.reigns[t].log <= h'.reigns[t].log;
  }

  /** Terms once led keep the log of their election. */
  lemma ElectedLogGrows(h: Hist, h': Hist, id: nat, t: nat)
    requires Grows(h, h', id) && t in h.reigns && ReignOk(h, t)
    ensures ElectedLog(h', t) == ElectedLog(h, t)
  {
    var k := At(h.reigns[t].leader, t);
    assert k in h.snapshot;
  }

  lemma LostGrows(h: Hist, h': Hist, id: nat, t: nat, i: nat, hi: nat)
    requires Grows(h, h', id) && HistOk(h)
    requires t in h.reigns && i <= |h.reigns[t].log|
    requires Lost(h, t, i, hi)
    ensures Lost(h', t, i, hi)
  {
    var t' :| t < t' < hi && t' in h.reigns && !(Prefix(h, t, i) <= ElectedLog(h, t'));
    PrefixGrows(h, h', id, t, i);
    ElectedLogGrows(h, h', id, t');
    assert t' in h'.reigns;
  }

  lemma KeptGrows(h: Hist, h': Hist, id: nat, t: nat, i: nat, l: Log, l': Log, hi: nat)
    requires Grows(h, h', id) && HistOk(h) && l <= l'
    requires t in h.reigns && i <= |h.reigns[t].log|
    requires Kept(h, t, i, l, hi)
    ensures Kept(h', t, i, l', hi)
  {
    if Prefix(h, t, i) <= l {
      PrefixGrows(h, h', id, t, i);
    } else {
      LostGrows(h, h', id, t, i, hi);
    }
  }

  lemma CommittedGrows(h: Hist, h': Hist, id: nat, t: nat, i: nat)
    requires Grows(h, h', id) && Committed(h, t, i)
    ensures Committed(h', t, i) && Prefix(h', t, i) == Prefix(h, t, i)
  {
    PrefixGrows(h, h', id, t, i);
    assert h.reigns[t].log <= h'.reigns[t].log;
    var q :| IsQuorum(h, q) && AllAcked(h, q, t, i);
    assert IsQuorum(h', q);
    assert AllAcked(h', q, t, i) by {
      forall n | n in q ensures Acked(h', n, t, i) { assert Acked(h, n, t, i); }
    }
  }

  lemma CommitOkGrows(h: Hist, h': Hist, id: nat, p: Log, p': Log, t: nat, t': nat)
    requires Grows(h, h', id) && CommitOk(h, p, t) && p' <= p && t <= t'
    ensures CommitOk(h', p', t')
  {
    if p' != [] {
      var t0: nat, i: nat :| t0 <= t && Committed(h, t0, i) && p <= Prefix(h, t0, i);
      CommittedGrows(h, h', id, t0, i);
      assert t0 <= t' && Committed(h', t0, i) && p' <= Prefix(h', t0, i);
    }
  }

  lemma GrowsReflexive(h: Hist, id: nat)
    ensures Grows(h, h, id)
  {
  }

  lemma AppOkGrows(h: Hist, h': Hist, id: nat, m: Message)
    requires Grows(h, h', id) && m.App? && AppOk(h, m)
    ensures AppOk(h', m)
  {
    var g, g' := h.reigns[m.term].log, h'.reigns[m.term].log;
    assert g <= g';
    assert g'[..m.commit] == g[..m.commit];
    CommitOkGrows(h, h', id, g[..m.commit], g[..m.commit], m.term, m.term);
  }

  lemma HeartbeatOkGrows(h: Hist, h': Hist, id: nat, m: Message)
    requires Grows(h, h', id) && m.Heartbeat? && HeartbeatOk(h, m)
    requires AcksOk(h)
    ensures HeartbeatOk(h', m)
  {
    if m.commit != 0 {
      assert AckedOk(h, At(m.to, m.term));
    }
    PrefixGrows(h, h', id, m.term, m.commit);
    CommitOkGrows(h, h', id, Prefix(h, m.term, m.commit), Prefix(h, m.term, m.commit), m.term, m.term);
  }

  lemma MsgOkGrows(h: Hist, h': Hist, id: nat, m: Message)
    requires Grows(h, h', id) && MsgOk(h, m)
    requires AcksOk(h)
    ensures MsgOk(h', m)
  {
    if m.App? {
      AppOkGrows(h, h', id, m);
    } else if m.Heartbeat? {
      HeartbeatOkGrows(h, h', id, m);
    }
  }

  /** Other nodes are not disturbed by what node `id` adds. */
  lemma NodeOkGrows(h: Hist, h': Hist, id: nat, n: RaftState)
    requires Grows(h, h', id) && HistOk(h) && NodeOk(h, n) && n.id != id
    ensures NodeOk(h', n)
  {
    AnchoredGrows(h.reigns, h'.reigns, id, n.log.log);
    forall t, i | Acked(h', n.id, t, i) ensures Kept(h', t, i, n.log.log, n.term + 1) {
      assert Acked(h, n.id, t, i) && AckedOk(h, At(n.id, t));
      KeptGrows(h, h', id, t, i, n.log.log, n.log.log, n.term + 1);
    }
    CommitOkGrows(h, h', id, n.log.log[..n.log.commit], n.log.log[..n.log.commit], n.term, n.term);
    if n.role.Leader? {
      forall j | j in n.prs && j != n.id ensures ProgressOk(h', n, j) {
        assert ProgressOk(h, n, j);
      }
    }
  }

  lemma ReignOkGrows(h: Hist, h': Hist, id: nat, t: nat)
    requires Grows(h, h', id) && HistOk(h) && t in h.reigns
    requires h'.reigns[t] == h.reigns[t]
    requires Acked(h', h.reigns[t].leader, t, |h.reigns[t].log|) && AckedOk(h', At(h.reigns[t].leader, t))
    ensures ReignOk(h', t)
  {
    assert ReignOk(h, t);
    AnchoredGrows(h.reigns, h'.reigns, id, h.reigns[t].log);
    forall v | v in h.reigns[t].voters ensures VotedFor(h', At(v, t), h.reigns[t].leader) && At(v, t) in h'.snapshot {
      assert VotedFor(h, At(v, t), h.reigns[t].leader) && At(v, t) in h.snapshot;
    }
  }

  lemma SnapshotOkGrows(h: Hist, h': Hist, id: nat, k: At)
    requires Grows(h, h', id) && HistOk(h) && k in h.snapshot
    ensures SnapshotOk(h', k)
  {
    assert SnapshotOk(h, k);
    AnchoredGrows(h.reigns, h'.reigns, id, h.snapshot[k]);
  }

  /** A snapshot keeps what was acknowledged before it, if nothing older is acknowledged afterwards. */
  lemma SnapshotKeepsGrows(h: Hist, h': Hist, id: nat, k: At, t: nat, i: nat)
    requires Grows(h, h', id) && HistOk(h) && k in h.snapshot
    requires t < k.term && Acked(h', k.node, t, i) ==> Acked(h, k.node, t, i)
    ensures SnapshotKeeps(h', k, t, i)
  {
    if t < k.term && Acked(h', k.node, t, i) {
      assert SnapshotKeeps(h, k, t, i);
      assert AckedOk(h, At(k.node, t));
      KeptGrows(h, h', id, t, i, h.snapshot[k], h.snapshot[k], k.term);
    }
  }

  // ---------------------------------------------------------------- the parts of the history an action leaves alone

  lemma ReignsStay(h: Hist, h': Hist, id: nat)
    requires Grows(h, h', id) && HistOk(h) && AcksOk(h')
    requires h'.reigns == h.reigns
    ensures ReignsOk(h')
  {
    forall t: nat | t in h'.reigns ensures ReignOk(h', t) {
      assert ReignOk(h, t);
      assert AckedOk(h', At(h.reigns[t].leader, t));
      ReignOkGrows(h, h', id, t);
    }
  }

  lemma SnapshotsStay(h: Hist, h': Hist, id: nat)
    requires Grows(h, h', id) && HistOk(h)
    requires h'.snapshot == h.snapshot
    requires forall k :: k in h'.ballot && k !in h.ballot ==> k.term in h'.reigns
    ensures SnapshotsOk(h')
  {
    forall k | k in h'.snapshot ensures SnapshotOk(h', k) {
      SnapshotOkGrows(h, h', id, k);
    }
  }

  lemma SnapshotsAreVotes(h: Hist)
    requires HistOk(h)
    ensures forall k :: k in h.snapshot ==> k in h.ballot
  {
    forall k | k in h.snapshot ensures k in h.ballot { assert SnapshotOk(h, k); }
  }

  /** No snapshot is of a later term than a new acknowledgement. */
  lemma SnapshotsStillKeep(h: Hist, h': Hist, id: nat)
    requires Grows(h, h', id) && HistOk(h)
    requires h'.snapshot == h.snapshot
    requires forall k, a :: k in h.snapshot && a in h'.acked && a.node == k.node && a.term < k.term ==>
                              a in h.acked && h.acked[a] == h'.acked[a]
    ensures SnapshotsKeep(h')
  {
    forall k: At, t: nat, i: nat | k in h'.snapshot ensures SnapshotKeeps(h', k, t, i) {
      if t < k.term && Acked(h', k.node, t, i) {
        assert At(k.node, t) in h'.acked;
      }
      SnapshotKeepsGrows(h, h', id, k, t, i);
    }
  }

  lemma AcksStay(h: Hist, h': Hist, id: nat)
    requires Grows(h, h', id) && HistOk(h)
    requires h'.acked == h.acked
    ensures AcksOk(h')
  {
    forall k | k in h'.acked ensures AckedOk(h', k) {
      assert AckedOk(h, k);
      assert h.reigns[k.term].log <= h'.reigns[k.term].log;
    }
  }

  lemma MsgsStay(h: Hist, h': Hist, id: nat)
    requires Grows(h, h', id) && HistOk(h)
    requires forall m :: m in h'.sent && m !in h.sent ==> MsgOk(h, m)
    ensures MsgsOk(h')
  {
    forall m | m in h'.sent ensures MsgOk(h', m) {
      assert MsgOk(h, m);
      MsgOkGrows(h, h', id, m);
    }
  }
}
