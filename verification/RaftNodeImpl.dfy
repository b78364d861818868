/**
 The event loop of a node: it hands out a Ready at a time, and on Advance applies and persists what
 that Ready held, while messages may have moved the log on in between.
 */
module RaftNodeImpl {
  import opened Basics
  import C = RaftCore
  import L = RaftLogImpl
  import R = RaftImpl
  import S = RaftSafety
  import H = RaftHistory
  import K = RaftCluster
  import F = RaftCompleteness

  class Node {
    const raft: R.Raft
    var prevSoft: C.SoftState
    var prevHard: C.HardState
    var rd: C.Ready
    var advancing: bool
    var prevLastUnstableI: nat
    var prevLastUnstableT: nat
    var hasPrevLastUnstableI: bool
    ghost var delivered: seq<C.Entry>

    ghost predicate Valid() reads this, raft, raft.raftLog, raft.raftLog.storage, raft.raftLog.unstable {
      && raft.Valid()
      && (advancing ==>
            && hasPrevLastUnstableI == (rd.entries != [])
            && (rd.entries != [] ==> prevLastUnstableI == rd.entries[|rd.entries| - 1].index &&
                                     prevLastUnstableT == rd.entries[|rd.entries| - 1].term))
    }

    ghost function View(): C.Peer
      requires Valid()
      reads this, raft, raft.raftLog, raft.raftLog.storage, raft.raftLog.unstable
    {
      C.Peer(raft.View(), prevSoft, prevHard, if advancing then Some(rd) else None, delivered)
    }

    constructor (id: nat, peers: set<nat>, preVote: bool, checkQuorum: bool)
      ensures Valid() && View() == K.FreshPeer(id, peers, preVote, checkQuorum)
    {
      var storage := new L.MemoryStorage();
      raft := new R.Raft(id, peers, storage, preVote, checkQuorum);
      prevSoft, prevHard := C.SoftState(C.NONE, C.Follower), C.EMPTY_HARD;
      rd := C.Ready(None, C.EMPTY_HARD, [], [], {});
      advancing, hasPrevLastUnstableI, prevLastUnstableI, prevLastUnstableT := false, false, 0, 0;
      delivered := [];
    }

    method Receive(m: C.Message)
      requires Valid() && R.Receivable(m) && C.Step(View().raft, m).Ok?
      modifies raft, raft.raftLog, raft.raftLog.unstable
      ensures Valid() && View() == old(View()).(raft := C.Step(old(View()).raft, m).value)
    {
      raft.Step(m);
    }

    method NewReady() returns (r: C.Ready)
      requires Valid() && C.NewReady(View()).Ok?
      ensures r == C.NewReady(View()).value
    {
      var committed := raft.raftLog.NextEntries();
      var soft := C.SoftState(raft.lead, raft.role);
      var hard := C.HardState(raft.term, raft.vote, raft.raftLog.commitIndex);
      raft.raftLog.ViewReadsAsOneLog();
      r := C.Ready(if soft == prevSoft then None else Some(soft),
                   if hard == prevHard then C.EMPTY_HARD else hard,
                   raft.raftLog.unstable.entries, committed, set m | m in raft.msgs);
    }

    method Take(r: C.Ready)
      requires Valid() && !advancing
      modifies this, raft`msgs
      ensures Valid() && View() == C.TakeReady(old(View()), r)
    {
      hide R.Raft.Valid, R.Raft.View, L.RaftLog.Valid, L.RaftLog.View;
      raft.ClearMsgs();
      Remember(r);
    }

    /** The loop variables after a Ready has been handed out. */
    method Remember(r: C.Ready)
      requires Valid() && !advancing
      modifies this
      ensures Valid() && View().raft == old(View()).raft
      ensures View() == C.TakeReady(old(View()), r).(raft := View().raft)
    {
      hide R.Raft.Valid, R.Raft.View, L.RaftLog.Valid, L.RaftLog.View;
      var soft := if r.soft.Some? then r.soft.value else prevSoft;
      var hard := if r.hard != C.EMPTY_HARD then r.hard else prevHard;
      var some := |r.entries| > 0;
      var last := if some then r.entries[|r.entries| - 1] else C.EMPTY_ENTRY;
      rd, prevSoft, prevHard, advancing := r, soft, hard, true;
      hasPrevLastUnstableI, prevLastUnstableI, prevLastUnstableT := some, last.index, last.term;
    }

    /** Offers a Ready when none is pending and there is something new. */
    method Ready() returns (offered: Option<C.Ready>)
      requires Valid() && C.NewReady(View()).Ok?
      modifies this, raft`msgs
      ensures Valid()
      ensures offered.Some? <==> old(View()).pending.None? && C.NewReady(old(View())).value.ContainsUpdates()
      ensures offered.Some? ==> C.NewReady(old(View())) == C.Ok(offered.value) && View() == C.TakeReady(old(View()), offered.value)
      ensures offered.None? ==> View() == old(View())
    {
      hide C.NewReady, C.TakeReady;
      if advancing { return None; }
      var r := NewReady();
      if !r.ContainsUpdates() { return None; }
      Take(r);
      return Some(r);
    }

    method Advance()
      requires Valid() && View().pending.Some? && C.Advance(View()).Ok?
      requires L.CanPersist(View().raft.log, View().pending.value.entries)
      modifies this, raft.raftLog, raft.raftLog.unstable, raft.raftLog.storage
      ensures Valid() && View() == C.Advance(old(View())).value
    {
      hide L.RaftLog.Valid, L.RaftLog.View, C.StableTo, C.Persisted, L.CanPersist;
      if prevHard.commit != 0 {
        L.AppliedCanPersist(raft.raftLog.View(), prevHard.commit, rd.entries);
        raft.raftLog.AppliedTo(prevHard.commit);
      }
      if hasPrevLastUnstableI {
        raft.raftLog.Persist(rd.entries, prevLastUnstableI, prevLastUnstableT);
        hasPrevLastUnstableI := false;
      }
      advancing := false;
      delivered := delivered + rd.committed;
    }
  }

  // ---------------------------------------------------------------- in a cluster the methods may be called

  /** Entries sent by a leader continue the log. */
  lemma SentIsReceivable(h: H.Hist, m: C.Message)
    requires H.HistOk(h) && H.MsgOk(h, m)
    ensures R.Receivable(m)
  {
    if m.App? {
      assert H.ReignOk(h, m.term);
      var g := h.reigns[m.term].log;
      forall i | 0 <= i < |m.entries| ensures m.entries[i].index == m.logIndex + 1 + i && 1 <= m.entries[i].term {
        assert H.AnchoredAt(h.reigns, g, m.logIndex + i);
      }
    }
  }

  /** Log matching makes a pending Ready fit, stale or not. */
  lemma PendingCanPersist(h: H.Hist, p: C.Peer)
    requires S.PeerOk(h, p) && p.pending.Some?
    ensures L.CanPersist(p.raft.log, p.pending.value.entries)
  {
    var v, es := p.raft.log, p.pending.value.entries;
    if es != [] {
      var d := C.Persisted(v, es);
      forall i | 0 <= i < |es| ensures es[i].index == es[0].index + i && 1 <= es[i].term {
        assert H.AnchoredAt(h.reigns, d, es[0].index - 1 + i);
        assert d[es[0].index - 1 + i] == es[i];
      }
      if |d| <= |v.log| && C.TermAt(v.log, |d|) == C.LastTerm(d) {
        F.LogsMatch(h.reigns, v.log, d, |d|);
        assert d[..|d|] == d;
      }
    }
  }

  /** In every reachable state the node's methods may be called for every enabled event. */
  lemma MethodsMayBeCalled(run: seq<K.Cluster>, i: nat, e: K.Event)
    requires K.IsRun(run) && i < |run| && K.Enabled(run[i], e)
    ensures e.Timeout? ==> C.Step(run[i].peers[e.id].raft, C.Hup).Ok?
    ensures e.HeartbeatDue? ==> C.Step(run[i].peers[e.id].raft, C.Beat).Ok?
    ensures e.Client? ==> C.Step(run[i].peers[e.id].raft, C.Prop(e.id, e.id, [e.entry])).Ok?
    ensures e.Deliver? ==> R.Receivable(e.m) && C.Step(run[i].peers[e.m.to].raft, e.m).Ok?
    ensures e.HandOut? ==> C.NewReady(run[i].peers[e.id]).Ok?
    ensures e.Acknowledge? ==>
              var p := run[i].peers[e.id];
              C.Advance(p).Ok? && L.CanPersist(p.raft.log, p.pending.value.entries)
  {
    S.RunsNeverPanic(run, i, e);
    var h, _ := S.RunLinked(run, i, i);
    if e.Deliver? {
      S.SentIsOk(h, e.m);
      SentIsReceivable(h, e.m);
    } else if e.Acknowledge? {
      assert S.PeerOk(h, run[i].peers[e.id]);
      PendingCanPersist(h, run[i].peers[e.id]);
    }
  }

  /** The node at which an event happens. */
  function Where(e: K.Event): nat
    requires e.Deliver? ==> !e.m.Hup? && !e.m.Beat?
  {
    if e.Deliver? then e.m.to else e.id
  }

  /** A node driven by an event of a run becomes what the cluster's step makes of it. */
  method Drive(node: Node, e: K.Event, ghost run: seq<K.Cluster>, ghost i: nat)
    requires K.IsRun(run) && i < |run| && K.Enabled(run[i], e)
    requires node.Valid() && node.View() == run[i].peers[Where(e)]
    modifies node, node.raft, node.raft.raftLog, node.raft.raftLog.unstable, node.raft.raftLog.storage
    ensures node.Valid() && K.Apply(run[i], e).Ok? && node.View() == K.Apply(run[i], e).value.peers[Where(e)]
  {
    hide C.Step, C.NewReady, C.TakeReady, C.Advance, K.IsRun, L.CanPersist, Node.Valid, Node.View;
    MethodsMayBeCalled(run, i, e);
    match e
    case Timeout(_) => node.Receive(C.Hup);
    case HeartbeatDue(_) => node.Receive(C.Beat);
    case Client(id, entry) => node.Receive(C.Prop(id, id, [entry]));
    case Deliver(m) => node.Receive(m);
    case HandOut(_) => var _ := node.Ready();
    case Acknowledge(_) => node.Advance();
  }
}
