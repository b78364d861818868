/**
 The safety of every run: one leader per term, matching logs, one committed log, one sequence of
 delivered entries, a log that reads as one across storage and tail, and no reachable panic.
 */
module RaftSafety {
  import opened RaftCore
  import opened RaftHistory
  import opened RaftCompleteness
  import opened RaftActions
  import opened RaftStep
  import opened RaftCluster
  import opened RaftLogSteps

  // ---------------------------------------------------------------- the invariant

  /**
   A pending Ready may be stale: the tail can have been cut below it. What it will put on disk still
   is a log this node once had.
   */
  ghost predicate PendingOk(h: Hist, v: LogView, rd: Ready) {
    rd.entries != [] ==>
      && v.stable < |v.log|
      && 1 <= rd.entries[0].index <= |v.disk| + 1
      && v.stable < rd.entries[0].index
      && Anchored(h.reigns, Persisted(v, rd.entries))
  }

  ghost predicate DeliveryOk(p: Peer) {
    var v := p.raft.log;
    && v.applied <= p.prevHard.commit <= v.commit <= |v.log|
    && p.delivered == v.log[..v.applied]
    && (p.pending.None? ==> p.prevHard.commit == v.applied)
    && (p.pending.Some? ==> p.pending.value.committed == v.log[v.applied..p.prevHard.commit])
  }

  ghost predicate PeerOk(h: Hist, p: Peer) {
    && NodeOk(h, p.raft)
    && ReadsAsOneLog(p.raft.log)
    && DeliveryOk(p)
    && (p.pending.Some? ==> PendingOk(h, p.raft.log, p.pending.value))
  }

  ghost predicate ClusterOk(h: Hist, c: Cluster) {
    && HistOk(h)
    && c.servers == h.servers
    && c.peers.Keys == c.servers
    && c.net <= h.sent
    && (forall i {:trigger PeerOk(h, c.peers[i])} :: i in c.peers ==> PeerOk(h, c.peers[i]))
    && forall i :: i in c.peers ==> c.peers[i].raft.id == i
  }

  // ---------------------------------------------------------------- it holds initially

  lemma InitOk(c: Cluster) returns (h: Hist)
    requires Init(c)
    ensures ClusterOk(h, c)
  {
    h := Hist(c.servers, map[], map[], map[], map[], {});
    forall i | i in c.peers ensures PeerOk(h, c.peers[i]) && c.peers[i].raft.id == i {
      var pv, cq :| c.peers[i] == FreshPeer(i, c.servers, pv, cq);
    }
  }

  // ---------------------------------------------------------------- it is kept

  lemma PeerOkGrows(h: Hist, h': Hist, id: nat, p: Peer)
    requires Extends(h, h', id) && HistOk(h) && PeerOk(h, p) && p.raft.id != id
    ensures PeerOk(h', p)
  {
    NodeOkGrows(h, h', id, p.raft);
    if p.pending.Some? && p.pending.value.entries != [] {
      AnchoredGrows(h.reigns, h'.reigns, id, Persisted(p.raft.log, p.pending.value.entries));
    }
  }

  /** One peer changes; the others only see the history grow. */
  lemma PeerChanges(h: Hist, h': Hist, c: Cluster, i: nat, p: Peer, net: set<Message>)
    requires ClusterOk(h, c) && i in c.peers && Extends(h, h', i)
    requires PeerOk(h', p) && p.raft.id == i && net <= h'.sent
    ensures ClusterOk(h', c.(peers := c.peers[i := p], net := net))
  {
    hide Grows, NodeOk, HistOk, ReadsAsOneLog, DeliveryOk, PendingOk;
    var c' := c.(peers := c.peers[i := p], net := net);
    SentKept(h, h', i);
    forall j | j in c'.peers ensures PeerOk(h', c'.peers[j]) {
      if j != i {
        assert PeerOk(h, c.peers[j]);
        PeerOkGrows(h, h', i, c.peers[j]);
      }
    }
  }

  lemma PrefixCut(l: Log, l': Log, c: nat, a: nat, b: nat)
    requires a <= b <= c <= |l| && c <= |l'| && l[..c] == l'[..c]
    ensures l[..b] == l'[..b] && l[a..b] == l'[a..b]
  {
    assert l[..b] == l[..c][..b] && l'[..b] == l'[..c][..b];
    assert l[a..b] == l[..b][a..] && l'[a..b] == l'[..b][a..];
  }

  lemma DeliveryKept(p: Peer, n: RaftState)
    requires DeliveryOk(p) && LogStep(p.raft.log, n.log)
    ensures DeliveryOk(p.(raft := n))
  {
    var v, a, b := p.raft.log, p.raft.log.applied, p.prevHard.commit;
    PrefixCut(v.log, n.log.log, v.commit, a, b);
    PrefixCut(v.log, n.log.log, v.commit, 0, a);
  }

  lemma OneLogKept(v: LogView, v': LogView)
    requires ReadsAsOneLog(v) && LogStep(v, v')
    ensures ReadsAsOneLog(v')
  {
    PrefixCut(v.disk, v.log, v.stable, 0, v'.stable);
  }

  lemma PendingKept(h: Hist, h': Hist, id: nat, v: LogView, v': LogView, rd: Ready)
    requires PendingOk(h, v, rd) && Grows(h, h', id) && LogStep(v, v')
    ensures PendingOk(h', v', rd)
  {
    hide Anchored;
    if rd.entries != [] { AnchoredGrows(h.reigns, h'.reigns, id, Persisted(v, rd.entries)); }
  }

  lemma StepKeepsPeer(h: Hist, h': Hist, p: Peer, n: RaftState)
    requires PeerOk(h, p) && Extends(h, h', p.raft.id) && NodeOk(h', n) && NodeStep(p.raft, n)
    ensures PeerOk(h', p.(raft := n))
  {
    hide NodeOk, HistOk, Grows, LogStep, DeliveryOk, ReadsAsOneLog, PendingOk;
    DeliveryKept(p, n);
    OneLogKept(p.raft.log, n.log);
    if p.pending.Some? { PendingKept(h, h', p.raft.id, p.raft.log, n.log, p.pending.value); }
  }

  lemma StepAtOk(h: Hist, c: Cluster, i: nat, m: Message) returns (h': Hist)
    requires ClusterOk(h, c) && i in c.peers && MsgOk(h, m) && Addressed(m, i)
    ensures StepAt(c, i, m).Ok? && Extends(h, h', i) && ClusterOk(h', StepAt(c, i, m).value)
    ensures NodeStep(c.peers[i].raft, StepAt(c, i, m).value.peers[i].raft)
  {
    hide Grows, NodeOk, HistOk;
    var p := c.peers[i];
    assert PeerOk(h, p);
    h' := StepOk(h, p.raft, m);
    StepLog(p.raft, m);
    StepKeepsPeer(h, h', p, Step(p.raft, m).value);
    SentKept(h, h', i);
    PeerChanges(h, h', c, i, p.(raft := Step(p.raft, m).value), c.net);
    assert StepAt(c, i, m).value == c.(peers := c.peers[i := p.(raft := Step(p.raft, m).value)], net := c.net);
  }

  lemma SentKept(h: Hist, h': Hist, id: nat)
    requires Grows(h, h', id)
    ensures h.sent <= h'.sent && h'.servers == h.servers
  {
  }

  // ---------------------------------------------------------------- the Ready loop

  lemma ReadyOk(h: Hist, p: Peer)
    requires PeerOk(h, p) && p.pending.None?
    ensures NewReady(p).Ok? && PeerOk(h, TakeReady(p, NewReady(p).value))
    ensures NewReady(p).value.messages <= h.sent
  {
    var rd, v := NewReady(p).value, p.raft.log;
    var p' := TakeReady(p, rd);
    assert p'.prevHard.commit == v.commit;
    NodeMsgsAreFree(h, p.raft);
    if rd.entries != [] {
      assert AnchoredAt(h.reigns, v.log, v.stable);
      assert v.log == v.log[..v.stable] + v.log[v.stable..];
      assert Persisted(v, rd.entries) == v.log;
    }
  }

  lemma NodeMsgsAreFree(h: Hist, n: RaftState)
    requires NodeOk(h, n)
    ensures NodeOk(h, n.(msgs := {}))
  {
    var n' := n.(msgs := {});
    if n.role.Leader? {
      forall j | j in n'.prs && j != n'.id ensures ProgressOk(h, n', j) { assert ProgressOk(h, n, j); }
    }
  }

  /** Applying and persisting change neither the log nor what is committed. */
  lemma ViewIsFree(h: Hist, n: RaftState, v: LogView)
    requires NodeOk(h, n) && v.log == n.log.log && v.commit == n.log.commit
    ensures NodeOk(h, n.(log := v))
  {
    var n' := n.(log := v);
    if n.role.Leader? {
      forall j | j in n'.prs && j != n'.id ensures ProgressOk(h, n', j) { assert ProgressOk(h, n, j); }
    }
  }

  /** Persisting a pending Ready, stale or not, leaves storage and tail reading as the same log. */
  lemma PersistOk(h: Hist, v: LogView, rd: Ready)
    requires Anchored(h.reigns, v.log) && ReadsAsOneLog(v) && PendingOk(h, v, rd) && rd.entries != []
    ensures StorageAppend(v, rd.entries).Ok?
    ensures var last := rd.entries[|rd.entries| - 1];
            ReadsAsOneLog(StableTo(StorageAppend(v, rd.entries).value, last.index, last.term))
  {
    var es := rd.entries;
    var d := Persisted(v, es);
    var w := v.(disk := d);
    assert d[..v.stable] == v.disk[..v.stable];
    assert AnchoredAt(h.reigns, d, |d| - 1);
    var last := es[|es| - 1];
    assert d[|d| - 1] == last && last.index == |d|;
    if v.stable < |d| <= |v.log| && TermAt(v.log, |d|) == last.term {
      LogsMatch(h.reigns, v.log, d, |d|);
      assert d[..|d|] == d;
    }
  }

  lemma AdvanceOk(h: Hist, p: Peer)
    requires PeerOk(h, p) && p.pending.Some?
    ensures Advance(p).Ok? && PeerOk(h, Advance(p).value)
    ensures Advance(p).value.raft.log.log == p.raft.log.log && Advance(p).value.raft.log.commit == p.raft.log.commit
  {
    hide NodeOk;
    var rd, v := p.pending.value, p.raft.log;
    var v1 := AppliedTo(v, p.prevHard.commit).value;
    NodeLogAnchored(h, p.raft);
    if rd.entries != [] {
      PersistOk(h, v1, rd);
    }
    var p' := Advance(p).value;
    ViewIsFree(h, p.raft, p'.raft.log);
    var a, b := v.applied, p.prevHard.commit;
    assert v.log[..a] + v.log[a..b] == v.log[..b];
  }

  lemma NodeLogAnchored(h: Hist, n: RaftState)
    requires NodeOk(h, n)
    ensures Anchored(h.reigns, n.log.log)
  {
  }

  // ---------------------------------------------------------------- every event

  /** The node at which an event happens. */
  function Place(e: Event): nat
    requires e.Deliver? ==> !e.m.Hup? && !e.m.Beat?
  {
    if e.Deliver? then e.m.to else e.id
  }

  lemma EventOk(h: Hist, c: Cluster, e: Event) returns (h': Hist)
    requires ClusterOk(h, c) && Enabled(c, e)
    ensures Apply(c, e).Ok? && ClusterOk(h', Apply(c, e).value)
    ensures Extends(h, h', Place(e))
  {
    hide Grows, NodeOk, Step, NewReady, Advance;
    match e
    case Timeout(i) => h' := StepAtOk(h, c, i, Hup);
    case HeartbeatDue(i) => h' := StepAtOk(h, c, i, Beat);
    case Client(i, entry) => h' := StepAtOk(h, c, i, Prop(i, i, [entry]));
    case Deliver(m) =>
      assert MsgOk(h, m);
      h' := StepAtOk(h, c, m.to, m);
    case HandOut(i) =>
      h' := h;
      GrowsReflexive(h, i);
      assert PeerOk(h, c.peers[i]);
      ReadyOk(h, c.peers[i]);
      var rd := NewReady(c.peers[i]).value;
      PeerChanges(h, h, c, i, TakeReady(c.peers[i], rd), c.net + rd.messages);
    case Acknowledge(i) =>
      h' := h;
      GrowsReflexive(h, i);
      assert PeerOk(h, c.peers[i]);
      AdvanceOk(h, c.peers[i]);
      AdvanceKeepsId(c.peers[i]);
      PeerChanges(h, h, c, i, Advance(c.peers[i]).value, c.net);
      assert Apply(c, e).value == c.(peers := c.peers[i := Advance(c.peers[i]).value], net := c.net);
  }

  lemma AdvanceKeepsId(p: Peer)
    requires p.pending.Some? && Advance(p).Ok?
    ensures Advance(p).value.raft.id == p.raft.id
  {
  }

  // ---------------------------------------------------------------- states

  ghost predicate Safe(c: Cluster) {
    && ElectionSafety(c)
    && LogMatching(c)
    && StateMachineSafety(c)
    && forall i :: i in c.peers ==> ReadsAsOneLog(c.peers[i].raft.log) && DeliveredInOrder(c.peers[i])
  }

  lemma LeadersAreOne(h: Hist, c: Cluster)
    requires ClusterOk(h, c)
    ensures ElectionSafety(c)
  {
    forall i, j | i in c.peers && j in c.peers && c.peers[i].raft.role.Leader? && c.peers[j].raft.role.Leader?
      ensures c.peers[i].raft.term == c.peers[j].raft.term ==> i == j
    {
      assert PeerOk(h, c.peers[i]) && PeerOk(h, c.peers[j]);
    }
  }

  lemma LogsMatchEverywhere(h: Hist, c: Cluster)
    requires ClusterOk(h, c)
    ensures LogMatching(c)
  {
    forall i, j, k | i in c.peers && j in c.peers && 1 <= k <= |LogOf(c, i)| && k <= |LogOf(c, j)|
      ensures LogOf(c, i)[k - 1].term == LogOf(c, j)[k - 1].term ==> LogOf(c, i)[..k] == LogOf(c, j)[..k]
    {
      assert PeerOk(h, c.peers[i]) && PeerOk(h, c.peers[j]);
      if LogOf(c, i)[k - 1].term == LogOf(c, j)[k - 1].term {
        LogsMatch(h.reigns, LogOf(c, i), LogOf(c, j), k);
      }
    }
  }

  lemma CommittedIsOne(h: Hist, c: Cluster)
    requires ClusterOk(h, c)
    ensures StateMachineSafety(c)
  {
    forall i, j | i in c.peers && j in c.peers
      ensures CommittedOf(c, i) <= CommittedOf(c, j) || CommittedOf(c, j) <= CommittedOf(c, i)
    {
      assert PeerOk(h, c.peers[i]) && PeerOk(h, c.peers[j]);
      CommittedAgree(h, CommittedOf(c, i), c.peers[i].raft.term, CommittedOf(c, j), c.peers[j].raft.term);
    }
  }

  lemma StateIsSafe(h: Hist, c: Cluster)
    requires ClusterOk(h, c)
    ensures Safe(c)
  {
    LeadersAreOne(h, c);
    LogsMatchEverywhere(h, c);
    CommittedIsOne(h, c);
    forall i | i in c.peers ensures ReadsAsOneLog(c.peers[i].raft.log) && DeliveredInOrder(c.peers[i]) {
      assert PeerOk(h, c.peers[i]);
    }
  }

  // ---------------------------------------------------------------- runs

  /** Terms led stay led by the same node with a growing log; votes stay cast. */
  ghost predicate Remembers(h: Hist, h': Hist) {
    && (forall t :: t in h.reigns ==> t in h'.reigns && h'.reigns[t].leader == h.reigns[t].leader && h.reigns[t].log <= h'.reigns[t].log)
    && (forall k :: k in h.ballot ==> k in h'.ballot && h'.ballot[k] == h.ballot[k])
  }

  /** What never goes back at a node. */
  ghost predicate PeerForward(p: Peer, p': Peer) {
    && p'.raft.id == p.raft.id
    && p.raft.term <= p'.raft.term
    && p.raft.log.commit <= p'.raft.log.commit <= |p'.raft.log.log|
    && p.raft.log.commit <= |p.raft.log.log|
    && p'.raft.log.log[..p.raft.log.commit] == p.raft.log.log[..p.raft.log.commit]
    && p.delivered <= p'.delivered
  }

  ghost predicate Forward(c: Cluster, c': Cluster) {
    && c'.peers.Keys == c.peers.Keys
    && forall i {:trigger PeerForward(c.peers[i], c'.peers[i])} :: i in c.peers ==> PeerForward(c.peers[i], c'.peers[i])
  }

  /** The message that a node's step handles, for events that are steps. */
  function Handled(e: Event): Message {
    match e
    case Timeout(_) => Hup
    case Client(i, entry) => Prop(i, i, [entry])
    case Deliver(m) => m
    case _ => Beat
  }

  lemma StepForward(h: Hist, c: Cluster, e: Event)
    requires ClusterOk(h, c) && Enabled(c, e) && Apply(c, e).Ok?
    ensures Forward(c, Apply(c, e).value)
  {
    hide Grows, NodeOk, HistOk, StepAt, NewReady, Advance;
    var c', i := Apply(c, e).value, Place(e);
    forall j | j in c.peers ensures c'.peers.Keys == c.peers.Keys && PeerForward(c.peers[j], c'.peers[j]) {
      assert PeerOk(h, c.peers[j]);
      if e.Acknowledge? {
        AdvanceOk(h, c.peers[i]);
        AdvanceForward(c.peers[i]);
      } else if !e.HandOut? {
        assert MsgOk(h, Handled(e)) by { if e.Deliver? { SentIsOk(h, e.m); } }
        StepAtForward(h, c, i, Handled(e));
        assert c' == StepAt(c, i, Handled(e)).value;
        assert PeerForward(c.peers[j], c'.peers[j]);
      }
    }
  }

  lemma AdvanceForward(p: Peer)
    requires p.pending.Some? && Advance(p).Ok? && p.raft.log.commit <= |p.raft.log.log|
    requires Advance(p).value.raft.log.log == p.raft.log.log && Advance(p).value.raft.log.commit == p.raft.log.commit
    ensures PeerForward(p, Advance(p).value)
  {
  }

  lemma StepAtForward(h: Hist, c: Cluster, i: nat, m: Message)
    requires ClusterOk(h, c) && i in c.peers && MsgOk(h, m) && Addressed(m, i)
    ensures StepAt(c, i, m).Ok? && Forward(c, StepAt(c, i, m).value)
  {
    hide Grows, NodeOk, HistOk, Step;
    var _ := StepAtOk(h, c, i, m);
    var c' := StepAt(c, i, m).value;
    forall j | j in c.peers ensures PeerForward(c.peers[j], c'.peers[j]) {
      assert PeerOk(h, c.peers[j]);
    }
  }

  lemma SentIsOk(h: Hist, m: Message)
    requires HistOk(h) && m in h.sent
    ensures MsgOk(h, m)
  {
  }

  lemma ForwardTrans(a: Cluster, b: Cluster, c: Cluster)
    requires Forward(a, b) && Forward(b, c)
    ensures Forward(a, c)
  {
    forall i | i in a.peers ensures PeerForward(a.peers[i], c.peers[i]) {
      var p, q, r := a.peers[i], b.peers[i], c.peers[i];
      assert PeerForward(p, q) && PeerForward(q, r);
      assert r.raft.log.log[..p.raft.log.commit] == r.raft.log.log[..q.raft.log.commit][..p.raft.log.commit];
      assert q.raft.log.log[..p.raft.log.commit] == q.raft.log.log[..q.raft.log.commit][..p.raft.log.commit];
    }
  }

  lemma RemembersTrans(a: Hist, b: Hist, c: Hist)
    requires Remembers(a, b) && Remembers(b, c)
    ensures Remembers(a, c)
  {
    forall t | t in a.reigns ensures t in c.reigns && a.reigns[t].log <= c.reigns[t].log {
      PrefixTrans(a.reigns[t].log, b.reigns[t].log, c.reigns[t].log);
    }
  }

  ghost predicate Linked(h: Hist, c: Cluster, h': Hist, c': Cluster) {
    ClusterOk(h, c) && ClusterOk(h', c') && Remembers(h, h') && Forward(c, c')
  }

  /** One more event. */
  lemma NextLinked(h: Hist, c: Cluster, h1: Hist, c1: Cluster, c2: Cluster) returns (h2: Hist)
    requires Linked(h, c, h1, c1) && Next(c1, c2)
    ensures Linked(h, c, h2, c2)
  {
    hide ClusterOk, Forward, Apply;
    var e :| Enabled(c1, e) && Apply(c1, e) == Ok(c2);
    h2 := EventOk(h1, c1, e);
    StepForward(h1, c1, e);
    ForwardTrans(c, c1, c2);
    RemembersTrans(h, h1, h2);
  }

  lemma SelfForward(h: Hist, c: Cluster)
    requires ClusterOk(h, c)
    ensures Forward(c, c)
  {
    forall i | i in c.peers ensures PeerForward(c.peers[i], c.peers[i]) {
      assert PeerOk(h, c.peers[i]);
    }
  }

  lemma {:induction false} RunLinked(run: seq<Cluster>, i: nat, j: nat) returns (h: Hist, h': Hist)
    requires IsRun(run) && i <= j < |run|
    ensures Linked(h, run[i], h', run[j])
    decreases j
  {
    hide ClusterOk, Forward, Next, Init;
    if j == 0 {
      h := InitOk(run[0]);
      h' := h;
      SelfForward(h, run[0]);
    } else if i < j {
      var h1;
      h, h1 := RunLinked(run, i, j - 1);
      assert Next(run[j - 1], run[j - 1 + 1]);
      h' := NextLinked(h, run[i], h1, run[j - 1], run[j]);
    } else {
      var _, h1 := RunLinked(run, j - 1, j - 1);
      SelfForward(h1, run[j - 1]);
      assert Next(run[j - 1], run[j - 1 + 1]);
      h := NextLinked(h1, run[j - 1], h1, run[j - 1], run[j]);
      h' := h;
      SelfForward(h, run[j]);
    }
  }

  // ---------------------------------------------------------------- the theorems

  /** Every state of every run is safe. */
  lemma RunsAreSafe(run: seq<Cluster>, i: nat)
    requires IsRun(run) && i < |run|
    ensures Safe(run[i])
  {
    var h, _ := RunLinked(run, i, i);
    StateIsSafe(h, run[i]);
  }

  /** No event enabled in a reachable state panics. */
  lemma RunsNeverPanic(run: seq<Cluster>, i: nat, e: Event)
    requires IsRun(run) && i < |run| && Enabled(run[i], e)
    ensures Apply(run[i], e).Ok?
  {
    var h, _ := RunLinked(run, i, i);
    var _ := EventOk(h, run[i], e);
  }

  /** A term has one leader throughout the run, and that leader only appends to its log. */
  lemma OneLeaderPerTerm(run: seq<Cluster>, i: nat, j: nat, a: nat, b: nat)
    requires IsRun(run) && i <= j < |run| && a in run[i].peers && b in run[j].peers
    requires run[i].peers[a].raft.role.Leader? && run[j].peers[b].raft.role.Leader?
    requires run[i].peers[a].raft.term == run[j].peers[b].raft.term
    ensures a == b && LogOf(run[i], a) <= LogOf(run[j], a)
  {
    var h, h' := RunLinked(run, i, j);
    assert PeerOk(h, run[i].peers[a]) && PeerOk(h', run[j].peers[b]);
  }

  /** A node's term never falls, and its vote changes only when its term rises. */
  lemma OneVotePerTerm(run: seq<Cluster>, i: nat, j: nat, a: nat)
    requires IsRun(run) && i <= j < |run| && a in run[i].peers
    ensures a in run[j].peers
    ensures var n, n' := run[i].peers[a].raft, run[j].peers[a].raft;
            n.term <= n'.term && (n.term == n'.term && n.vote != NONE ==> n'.vote == n.vote)
  {
    hide HistOk, LogOk, CommitStateOk, RoleOk, DeliveryOk, ReadsAsOneLog, PendingOk;
    var h, h' := RunLinked(run, i, j);
    assert PeerForward(run[i].peers[a], run[j].peers[a]);
    assert PeerOk(h, run[i].peers[a]) && PeerOk(h', run[j].peers[a]);
  }

  /** Committed entries are final, for every node and at every later time. */
  lemma CommittedForever(run: seq<Cluster>, i: nat, j: nat, a: nat, b: nat)
    requires IsRun(run) && i <= j < |run| && a in run[i].peers && b in run[j].peers
    ensures a in run[j].peers && CommittedOf(run[i], a) <= CommittedOf(run[j], a)
    ensures CommittedOf(run[i], a) <= CommittedOf(run[j], b) || CommittedOf(run[j], b) <= CommittedOf(run[i], a)
  {
    var h, h' := RunLinked(run, i, j);
    assert PeerForward(run[i].peers[a], run[j].peers[a]);
    CommittedIsOne(h', run[j]);
    ComparablePrefix(CommittedOf(run[i], a), CommittedOf(run[j], a), CommittedOf(run[j], b));
  }

  lemma ComparablePrefix(p: Log, q: Log, r: Log)
    requires p <= q && (q <= r || r <= q)
    ensures p <= r || r <= p
  {
    if r <= q {
      assert p == q[..|p|] && r == q[..|r|];
    }
  }

  /** What applications are given, anywhere and at any time, is one sequence of entries. */
  lemma DeliveredIsOneSequence(run: seq<Cluster>, i: nat, j: nat, a: nat, b: nat)
    requires IsRun(run) && i <= j < |run| && a in run[i].peers && b in run[j].peers
    ensures a in run[j].peers && run[i].peers[a].delivered <= run[j].peers[a].delivered
    ensures run[i].peers[a].delivered <= run[j].peers[b].delivered || run[j].peers[b].delivered <= run[i].peers[a].delivered
  {
    var h, h' := RunLinked(run, i, j);
    assert PeerForward(run[i].peers[a], run[j].peers[a]);
    DeliveredAgree(h', run[j], a, b);
    ComparablePrefix(run[i].peers[a].delivered, run[j].peers[a].delivered, run[j].peers[b].delivered);
  }

  lemma DeliveredAgree(h: Hist, c: Cluster, a: nat, b: nat)
    requires ClusterOk(h, c) && a in c.peers && b in c.peers
    ensures c.peers[a].delivered <= c.peers[b].delivered || c.peers[b].delivered <= c.peers[a].delivered
  {
    hide Grows, NodeOk, HistOk;
    StateIsSafe(h, c);
    var p, q := c.peers[a].delivered, c.peers[b].delivered;
    assert p <= CommittedOf(c, a) && q <= CommittedOf(c, b);
    if CommittedOf(c, a) <= CommittedOf(c, b) {
      ComparablePrefix(p, CommittedOf(c, b), q);
    } else {
      ComparablePrefix(q, CommittedOf(c, a), p);
    }
  }
}
