/**
 A cluster of nodes with fixed membership over a network that may lose, duplicate and reorder
 messages, and its runs from freshly started nodes.
 */
module RaftCluster {
  import opened Basics
  import opened RaftCore

  datatype Cluster = Cluster(servers: set<nat>, peers: map<nat, Peer>, net: set<Message>)

  /** A node started on empty storage. */
  function FreshPeer(id: nat, servers: set<nat>, preVote: bool, checkQuorum: bool): Peer {
    Peer(RaftState(id, 1, NONE, Follower, NONE, LogView([], 0, [], 0, 0),
                   map j | j in servers :: Progress(0, 1), map[], {}, preVote, checkQuorum, false),
         SoftState(NONE, Follower), EMPTY_HARD, None, [])
  }

  ghost predicate Init(c: Cluster) {
    && c.servers != {}
    && NONE !in c.servers
    && c.peers.Keys == c.servers
    && c.net == {}
    && forall i :: i in c.servers ==> exists pv, cq :: c.peers[i] == FreshPeer(i, c.servers, pv, cq)
  }

  datatype Event =
    | Timeout(id: nat)                 // the election timer fires
    | HeartbeatDue(id: nat)            // the heartbeat timer fires
    | Client(id: nat, entry: Entry)    // a proposal arrives
    | Deliver(m: Message)              // any message sent so far arrives, again or for the first time
    | HandOut(id: nat)                 // the application takes a Ready
    | Acknowledge(id: nat)             // the application calls Advance

  ghost predicate Enabled(c: Cluster, e: Event) {
    match e
    case Timeout(i) => i in c.peers
    case HeartbeatDue(i) => i in c.peers
    case Client(i, _) => i in c.peers
    case Deliver(m) => m in c.net && !m.Hup? && !m.Beat? && m.to in c.peers
    case HandOut(i) =>
      && i in c.peers && c.peers[i].pending.None?
      && (NewReady(c.peers[i]).Ok? ==> NewReady(c.peers[i]).value.ContainsUpdates())
    case Acknowledge(i) => i in c.peers && c.peers[i].pending.Some?
  }

  ghost function StepAt(c: Cluster, i: nat, m: Message): Outcome<Cluster>
    requires i in c.peers
  {
    var r :- Step(c.peers[i].raft, m);
    Ok(c.(peers := c.peers[i := c.peers[i].(raft := r)]))
  }

  ghost function Apply(c: Cluster, e: Event): Outcome<Cluster>
    requires Enabled(c, e)
  {
    match e
    case Timeout(i) => StepAt(c, i, Hup)
    case HeartbeatDue(i) => StepAt(c, i, Beat)
    case Client(i, entry) => StepAt(c, i, Prop(i, i, [entry]))
    case Deliver(m) => StepAt(c, m.to, m)
    case HandOut(i) =>
      var rd :- NewReady(c.peers[i]);
      Ok(c.(peers := c.peers[i := TakeReady(c.peers[i], rd)], net := c.net + rd.messages))
    case Acknowledge(i) =>
      var p :- Advance(c.peers[i]);
      Ok(c.(peers := c.peers[i := p]))
  }

  ghost predicate Next(c: Cluster, c': Cluster) {
    exists e :: Enabled(c, e) && Apply(c, e) == Ok(c')
  }

  ghost predicate IsRun(run: seq<Cluster>) {
    && run != []
    && Init(run[0])
    && forall i :: 0 <= i < |run| - 1 ==> Next(run[i], run[i + 1])
  }

  // ---------------------------------------------------------------- what is to be shown of every run

  ghost function LogOf(c: Cluster, i: nat): Log
    requires i in c.peers
  {
    c.peers[i].raft.log.log
  }

  ghost function CommittedOf(c: Cluster, i: nat): Log
    requires i in c.peers
  {
    var v := c.peers[i].raft.log;
    if v.commit <= |v.log| then v.log[..v.commit] else v.log
  }

  /** At most one leader per term. */
  ghost predicate ElectionSafety(c: Cluster) {
    forall i, j | i in c.peers && j in c.peers && c.peers[i].raft.role.Leader? && c.peers[j].raft.role.Leader? ::
      c.peers[i].raft.term == c.peers[j].raft.term ==> i == j
  }

  /** Logs that agree on the term of one entry are identical up to it. */
  ghost predicate LogMatching(c: Cluster) {
    forall i, j, k | i in c.peers && j in c.peers && 1 <= k <= |LogOf(c, i)| && k <= |LogOf(c, j)| ::
      LogOf(c, i)[k - 1].term == LogOf(c, j)[k - 1].term ==> LogOf(c, i)[..k] == LogOf(c, j)[..k]
  }

  /** Committed logs never differ where both reach. */
  ghost predicate StateMachineSafety(c: Cluster) {
    forall i, j | i in c.peers && j in c.peers ::
      CommittedOf(c, i) <= CommittedOf(c, j) || CommittedOf(c, j) <= CommittedOf(c, i)
  }

  /** Storage below the tail, followed by the tail, is the log; an empty tail means storage is the log. */
  ghost predicate ReadsAsOneLog(v: LogView) {
    && v.stable <= |v.log| && v.stable <= |v.disk|
    && v.disk[..v.stable] == v.log[..v.stable]
    && (v.stable == |v.log| ==> |v.disk| == v.stable)
  }

  /** The application has been given the committed log up to `applied`, each entry once and in order. */
  ghost predicate DeliveredInOrder(p: Peer) {
    var v := p.raft.log;
    v.applied <= v.commit <= |v.log| && p.delivered == v.log[..v.applied]
  }
}
