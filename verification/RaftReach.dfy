/**
 In every run, what reaches a leader is committed as far as it may be. And a run in which two nodes elect a
 leader, replicate its entry, commit it and deliver it to the application.
 */
module RaftReach {
  import opened Basics
  import opened RaftCore
  import opened RaftHistory
  import opened RaftActions
  import opened RaftCluster
  import opened RaftSafety
  import opened RaftProgress

  // ---------------------------------------------------------------- every leader commits all that it may

  lemma AnchoredRises(h: Hist, l: Log)
    requires HistOk(h) && Anchored(h.reigns, l)
    ensures Rising(l)
  {
    forall i, j | 0 <= i < j < |l| ensures l[i].term <= l[j].term {
      assert AnchoredAt(h.reigns, l, j);
      var t := l[j].term;
      assert ReignOk(h, t);
      assert l[..j + 1][i] == h.reigns[t].log[..j + 1][i];
    }
  }

  /** Only the leader's own match can be beyond its log. */
  lemma OthersWithin(h: Hist, n: RaftState, j: nat)
    requires HistOk(h) && NodeOk(h, n) && n.role.Leader? && j in n.prs && j != n.id
    ensures n.prs[j].matched <= |n.log.log|
  {
    assert ProgressOk(h, n, j);
    if n.prs[j].matched > 0 { assert AckedOk(h, At(j, n.term)); }
  }

  lemma LeaderIsOrderly(h: Hist, n: RaftState, other: nat)
    requires HistOk(h) && NodeOk(h, n) && n.role.Leader? && other in n.prs && other != n.id
    ensures Orderly(n)
  {
    hide HistOk;
    AnchoredRises(h, n.log.log);
    var ahead := Holders(n.prs, |n.log.log| + 1);
    assert ahead <= {n.id} by {
      forall j | j in ahead ensures j == n.id { if j != n.id { OthersWithin(h, n, j); } }
    }
    SubsetCard(ahead, {n.id});
    SubsetCard({n.id, other}, n.prs.Keys);
    assert |n.prs.Keys| == |n.prs| && |{n.id, other}| == 2 && |{n.id}| == 1;
    MajorityIs(n.prs, |n.log.log| + 1);
  }

  /** In every run, an acceptance that is news to a leader commits all that it may and then goes out to everyone. */
  lemma AckCommits(run: seq<Cluster>, i: nat, m: Message)
    requires IsRun(run) && i < |run| && Enabled(run[i], Deliver(m)) && m.AppResp? && !m.reject
    requires var n := run[i].peers[m.to].raft;
             n.role.Leader? && n.term == m.term && m.from in n.prs && n.prs[m.from].matched < m.logIndex
    ensures var n := run[i].peers[m.to].raft;
            && Step(n, m).Ok?
            && (var n' := Step(n, m).value;
                && n'.prs[m.from].matched == m.logIndex && Commits(n.(prs := n'.prs), n'.log.commit)
                && (n'.log.commit != n.log.commit ==> OffersAll(n')))
  {
    var c, e := run[i], Deliver(m);
    var n := c.peers[m.to].raft;
    var h, _ := RunLinked(run, i, i);
    SentIsOk(h, m);
    assert PeerOk(h, c.peers[m.to]);
    var h' := EventOk(h, c, e);
    var c' := Apply(c, e).value;
    var n' := Step(n, m).value;
    assert PeerOk(h', c'.peers[m.to]) && c'.peers[m.to].raft == n';
    AckIsCounted(n, m);
    LeaderStays(n, m);
    LeaderIsOrderly(h', n', m.from);
    SameOrder(n, n');
  }

  lemma LeaderStays(n: RaftState, m: Message)
    requires n.role.Leader? && m.AppResp? && m.term == n.term >= 1 && Step(n, m).Ok?
    ensures var n' := Step(n, m).value; n'.role.Leader? && n'.id == n.id && n'.term == n.term
  {
    hide Step, BroadcastAppend;
    LeaderStep(n, m);
    if !m.reject && m.from in n.prs {
      var o := MaybeCommit(n.(prs := n.prs[m.from := MaybeUpdate(n.prs[m.from], m.logIndex)]));
      if o.Ok? { BroadcastKeeps(o.value); }
    }
  }

  lemma SameOrder(n: RaftState, n': RaftState)
    requires Orderly(n') && n'.log.log == n.log.log && n'.term == n.term
    ensures Orderly(n.(prs := n'.prs))
  {
    hide Majority;
  }

  // ---------------------------------------------------------------- a run that delivers an entry

  const ENTRY := Entry(2, 1, Normal, [])
  const VOTE := Vote(1, 2, 2, 0, 0)
  const GRANT := VoteResp(2, 1, 2, false)
  const APPEND := App(1, 2, 2, 0, 0, [ENTRY], 0)
  const ACK := AppResp(2, 1, 2, 1, false, 0)
  const NEWS := App(1, 2, 2, 2, 1, [], 1)

  function Fresh(id: nat): RaftState { FreshPeer(id, {1, 2}, false, false).raft }

  /** Node 1 as a candidate, as a leader with one entry, and with that entry committed. */
  function Candidate1(): RaftState { Fresh(1).(term := 2, vote := 1, role := Candidate, votes := map[1 := true], msgs := {VOTE}) }

  function Leader1(): RaftState {
    Fresh(1).(term := 2, vote := 1, role := Leader, lead := 1, log := LogView([ENTRY], 0, [], 0, 0),
              prs := map[1 := Progress(1, 2), 2 := Progress(0, 1)], msgs := {APPEND})
  }

  function Committed1(): RaftState {
    Leader1().(log := LogView([ENTRY], 0, [], 1, 0), prs := map[1 := Progress(1, 2), 2 := Progress(1, 2)], msgs := {NEWS})
  }

  /** Node 2 as a voter, and with the entry. */
  function Voter2(): RaftState { Fresh(2).(term := 2, vote := 1, msgs := {GRANT}) }

  function Holder2(): RaftState { Fresh(2).(term := 2, vote := 1, lead := 1, log := LogView([ENTRY], 0, [], 0, 0), msgs := {ACK}) }

  lemma FreshIs(id: nat)
    ensures Fresh(id).prs == map[1 := Progress(0, 1), 2 := Progress(0, 1)] && Quorum(Fresh(id).prs.Keys) == 2
  {
    assert Fresh(id).prs.Keys == {1, 2};
  }

  lemma Asks()
    ensures Step(Fresh(1), Hup) == Ok(Candidate1())
  {
    FreshIs(1);
    var n2 := RecordVote(BecomeCandidate(Fresh(1)).value, 1, true);
    assert n2.votes == map[1 := true];
    assert Granted(n2.votes) == {1};
    var asked := set j | j in n2.prs && j != n2.id :: Vote(n2.id, j, n2.term, LastTerm(n2.log.log), |n2.log.log|);
    assert 2 in n2.prs && n2.id == 1 && Vote(n2.id, 2, n2.term, LastTerm(n2.log.log), |n2.log.log|) == VOTE;
    assert VOTE in asked && forall j :: j in n2.prs && j != n2.id ==> j == 2;
    assert asked == {VOTE};
    assert n2.msgs + asked == {VOTE};
  }

  lemma Grants()
    ensures Step(Fresh(2), VOTE) == Ok(Voter2())
  {
    assert Fresh(2).msgs + {GRANT} == {GRANT};
  }

  lemma Holds(n: RaftState)
    requires n.prs == map[1 := Progress(1, 2), 2 := Progress(0, 1)] && n.log.commit == 0 && n.term == 2
    requires n.log.log == [ENTRY]
    ensures MaybeCommit(n) == Ok(n)
  {
    hide MaybeCommit, Majority;
    assert n.prs.Keys == {1, 2} && Holders(n.prs, 2) == {} && Holders(n.prs, 1) == {1};
    MajorityIs(n.prs, 1);
    MajorityIs(n.prs, 2);
    CommitsGreatest(n);
  }

  /** Node 1 before its entry goes out. */
  function Leading1(): RaftState { Leader1().(msgs := {}) }

  lemma Leads()
    ensures BecomeLeader(RecordVote(Candidate1().(msgs := {}), 2, true)) == Ok(Leading1())
  {
    hide MaybeCommit;
    FreshIs(1);
    var n1 := RecordVote(Candidate1().(msgs := {}), 2, true);
    var f, a := FreshLeader(n1), Leading1();
    assert f.prs == map[1 := Progress(0, 1), 2 := Progress(0, 1)];
    assert Stamp([EMPTY_ENTRY], 2, 0) == [ENTRY];
    assert f.log.log[..0] + [ENTRY] == [ENTRY];
    assert f.prs[1 := MaybeUpdate(f.prs[1], 1)] == a.prs;
    Holds(a);
  }

  lemma SendsEntry()
    ensures BroadcastAppend(Leading1()) == Leader1()
  {
    var a := Leading1();
    var sent := set j | j in a.prs && j != a.id :: AppendMsg(a, j);
    assert AppendMsg(a, 2) == APPEND by { assert [ENTRY][0..] == [ENTRY]; }
    assert sent == {APPEND};
    assert a.msgs + sent == {APPEND};
  }

  lemma Elects()
    ensures Step(Candidate1().(msgs := {}), GRANT) == Ok(Leader1())
  {
    hide BecomeLeader, BroadcastAppend, Fresh;
    var n := Candidate1().(msgs := {});
    var n1 := RecordVote(n, 2, true);
    FreshIs(1);
    assert Granted(n1.votes) == {1, 2};
    Leads();
    SendsEntry();
  }

  lemma Accepts()
    ensures Step(Voter2().(msgs := {}), APPEND) == Ok(Holder2())
  {
    var n := Voter2().(msgs := {}, lead := 1);
    assert FindConflict(n.log.log, [ENTRY]) == 1;
    assert [ENTRY][0..] == [ENTRY] && n.log.log[..0] + [ENTRY] == [ENTRY];
    assert MaybeAppend(n.log, 0, 0, 0, [ENTRY]) == Ok(Some(LogView([ENTRY], 0, [], 0, 0)));
    assert n.msgs + {ACK} == {ACK};
  }

  lemma CommitsOne(n: RaftState)
    requires n.prs == map[1 := Progress(1, 2), 2 := Progress(1, 2)] && n.log.commit == 0 && n.term == 2 && n.log.log == [ENTRY]
    ensures MaybeCommit(n) == Ok(n.(log := n.log.(commit := 1)))
  {
    hide MaybeCommit, Majority;
    assert n.prs.Keys == {1, 2} && Holders(n.prs, 2) == {} && Holders(n.prs, 1) == {1, 2};
    MajorityIs(n.prs, 1);
    MajorityIs(n.prs, 2);
    CommitsGreatest(n);
    assert Agreed(n, 1);
  }

  lemma Confirms()
    ensures Step(Leader1().(msgs := {}), ACK) == Ok(Committed1())
  {
    hide MaybeCommit, Step;
    var n := Leader1().(msgs := {});
    LeaderStep(n, ACK);
    var n1 := n.(prs := map[1 := Progress(1, 2), 2 := Progress(1, 2)]);
    assert n.prs[2 := MaybeUpdate(n.prs[2], 1)] == n1.prs;
    CommitsOne(n1);
    var n2 := n1.(log := n1.log.(commit := 1));
    var sent := set j | j in n2.prs && j != n2.id :: AppendMsg(n2, j);
    assert sent == {NEWS} by { assert AppendMsg(n2, 2) == NEWS; }
    assert n2.msgs + sent == {NEWS};
    assert BroadcastAppend(n2) == Committed1();
  }

  // ---------------------------------------------------------------- the two nodes with their event loops

  function Two(p1: Peer, p2: Peer, net: set<Message>): Cluster { Cluster({1, 2}, map[1 := p1, 2 := p2], net) }

  /** The cluster with another state of one node. */
  function With(p1: Peer, p2: Peer, i: nat, p: Peer, net: set<Message>): Cluster {
    if i == 1 then Two(p, p2, net) else Two(p1, p, net)
  }

  function NodeOf(p1: Peer, p2: Peer, i: nat): Peer { if i == 1 then p1 else p2 }

  lemma PutNode(p1: Peer, p2: Peer, i: nat, p: Peer, net: set<Message>)
    requires i == 1 || i == 2
    ensures var c := Two(p1, p2, net);
            i in c.peers && c.peers[i] == NodeOf(p1, p2, i) && c.(peers := c.peers[i := p]) == With(p1, p2, i, p, net)
  {
    assert map[1 := p1, 2 := p2][1 := p] == map[1 := p, 2 := p2];
    assert map[1 := p1, 2 := p2][2 := p] == map[1 := p1, 2 := p];
  }

  /** From c the event leads to c'. */
  ghost predicate Leading(c: Cluster, e: Event, c': Cluster) { Enabled(c, e) && Apply(c, e) == Ok(c') }

  lemma Times(p1: Peer, p2: Peer, net: set<Message>, r: RaftState)
    requires Step(p1.raft, Hup) == Ok(r)
    ensures Leading(Two(p1, p2, net), Timeout(1), Two(p1.(raft := r), p2, net))
  {
    hide Step;
    PutNode(p1, p2, 1, p1.(raft := r), net);
  }

  lemma Arrives(p1: Peer, p2: Peer, net: set<Message>, m: Message, r: RaftState)
    requires m in net && !m.Hup? && !m.Beat? && (m.to == 1 || m.to == 2) && Step(NodeOf(p1, p2, m.to).raft, m) == Ok(r)
    ensures Leading(Two(p1, p2, net), Deliver(m), With(p1, p2, m.to, NodeOf(p1, p2, m.to).(raft := r), net))
  {
    hide Step;
    PutNode(p1, p2, m.to, NodeOf(p1, p2, m.to).(raft := r), net);
  }

  lemma Takes(p1: Peer, p2: Peer, net: set<Message>, i: nat, rd: Ready)
    requires i == 1 || i == 2
    requires var p := NodeOf(p1, p2, i); p.pending.None? && NewReady(p) == Ok(rd) && rd.ContainsUpdates()
    ensures Leading(Two(p1, p2, net), HandOut(i), With(p1, p2, i, TakeReady(NodeOf(p1, p2, i), rd), net + rd.messages))
  {
    hide NewReady, TakeReady;
    PutNode(p1, p2, i, TakeReady(NodeOf(p1, p2, i), rd), net);
  }

  lemma Finishes(p1: Peer, p2: Peer, net: set<Message>, i: nat, p: Peer)
    requires (i == 1 || i == 2) && NodeOf(p1, p2, i).pending.Some? && Advance(NodeOf(p1, p2, i)) == Ok(p)
    ensures Leading(Two(p1, p2, net), Acknowledge(i), With(p1, p2, i, p, net))
  {
    hide Advance;
    PutNode(p1, p2, i, p, net);
  }

  lemma Grow(run: seq<Cluster>, e: Event, c: Cluster) returns (more: seq<Cluster>)
    requires IsRun(run) && Leading(run[|run| - 1], e, c)
    ensures IsRun(more) && more[|more| - 1] == c
  {
    hide Enabled, Apply, Init;
    more := run + [c];
    forall i | 0 <= i < |more| - 1 ensures Next(more[i], more[i + 1]) {
      if i < |run| - 1 {
        assert more[i] == run[i] && more[i + 1] == run[i + 1];
      } else {
        assert more[i] == run[|run| - 1] && more[i + 1] == c;
      }
    }
  }

  function Start(id: nat): Peer { FreshPeer(id, {1, 2}, false, false) }

  const HARD := HardState(2, 1, 0)

  /** Node 1 waiting for votes, and leading with its entry sent out. */
  function Waiting1(): Peer {
    var soft := SoftState(NONE, Candidate);
    Peer(Candidate1().(msgs := {}), soft, HARD, Some(Ready(Some(soft), HARD, [], [], {VOTE})), [])
  }

  function Sent1(): Peer {
    var soft := SoftState(1, Leader);
    Peer(Leading1(), soft, HARD, Some(Ready(Some(soft), EMPTY_HARD, [ENTRY], [], {APPEND})), [])
  }

  /** Node 2 after its vote. */
  function Voted2(): Peer {
    Peer(Voter2().(msgs := {}), SoftState(NONE, Follower), HARD, Some(Ready(None, HARD, [], [], {GRANT})), [])
  }

  /** The two nodes elect a leader. */
  lemma Election() returns (run: seq<Cluster>)
    ensures IsRun(run) && run[|run| - 1] == Two(Waiting1().(raft := Leader1()), Voted2(), {VOTE, GRANT})
  {
    hide Step, Candidate1, Leader1, Voter2, Enabled, Apply, NewReady, TakeReady, Start, IsRun;
    run := Beginning();
    Asks();
    Times(Start(1), Start(2), {}, Candidate1()) by { StartIs(); }
    run := Grow(run, Timeout(1), Two(Start(1).(raft := Candidate1()), Start(2), {}));
    ReadyToAsk();
    Takes(Start(1).(raft := Candidate1()), Start(2), {}, 1, Waiting1().pending.value);
    run := Grow(run, HandOut(1), Two(Waiting1(), Start(2), {} + {VOTE}));
    Grants();
    Arrives(Waiting1(), Start(2), {} + {VOTE}, VOTE, Voter2()) by { StartIs(); }
    run := Grow(run, Deliver(VOTE), Two(Waiting1(), Start(2).(raft := Voter2()), {} + {VOTE}));
    ReadyToGrant();
    Takes(Waiting1(), Start(2).(raft := Voter2()), {} + {VOTE}, 2, Voted2().pending.value);
    run := Grow(run, HandOut(2), Two(Waiting1(), Voted2(), {} + {VOTE} + {GRANT}));
    assert {} + {VOTE} + {GRANT} == {VOTE, GRANT};
    Elects();
    Arrives(Waiting1(), Voted2(), {VOTE, GRANT}, GRANT, Leader1());
    run := Grow(run, Deliver(GRANT), Two(Waiting1().(raft := Leader1()), Voted2(), {VOTE, GRANT}));
  }

  lemma StartIs()
    ensures Start(1).raft == Fresh(1) && Start(2).raft == Fresh(2)
  {
  }

  lemma Beginning() returns (run: seq<Cluster>)
    ensures IsRun(run) && run[|run| - 1] == Two(Start(1), Start(2), {})
  {
    var c := Two(Start(1), Start(2), {});
    assert c.peers.Keys == {1, 2};
    assert c.peers[1] == FreshPeer(1, c.servers, false, false) && c.peers[2] == FreshPeer(2, c.servers, false, false);
    run := [c];
  }

  lemma ReadyToAsk()
    ensures var p, rd := Start(1).(raft := Candidate1()), Waiting1().pending.value;
            p.pending.None? && NewReady(p) == Ok(rd) && rd.ContainsUpdates() && TakeReady(p, rd) == Waiting1() && rd.messages == {VOTE}
  {
  }

  lemma ReadyToGrant()
    ensures var p, rd := Start(2).(raft := Voter2()), Voted2().pending.value;
            p.pending.None? && NewReady(p) == Ok(rd) && rd.ContainsUpdates() && TakeReady(p, rd) == Voted2() && rd.messages == {GRANT}
  {
  }

  /** Node 2 with the entry, before and after it has told the application. */
  function Holding2(): Peer { Voted2().(raft := Holder2(), pending := None) }

  function Told2(): Peer {
    var soft := SoftState(1, Follower);
    Peer(Holder2().(msgs := {}), soft, HARD, Some(Ready(Some(soft), EMPTY_HARD, [ENTRY], [], {ACK})), [])
  }

  /** Node 1 with the entry committed, stored, given to the application and delivered. */
  function Stored1(): Peer { Sent1().(raft := Committed1().(log := LogView([ENTRY], 1, [ENTRY], 1, 0)), pending := None) }

  function Given1(): Peer {
    var hard := HardState(2, 1, 1);
    Peer(Stored1().raft.(msgs := {}), SoftState(1, Leader), hard, Some(Ready(None, hard, [], [ENTRY], {NEWS})), [])
  }

  function Delivered1(): Peer {
    Given1().(raft := Given1().raft.(log := LogView([ENTRY], 1, [ENTRY], 1, 1)), pending := None, delivered := [ENTRY])
  }

  /** The leader's entry reaches the other node. */
  lemma Replication() returns (run: seq<Cluster>)
    ensures IsRun(run) && run[|run| - 1] == Two(Sent1(), Told2(), {VOTE, GRANT, APPEND, ACK})
  {
    hide Step, Leader1, Holder2, Enabled, Apply, NewReady, TakeReady, Advance, IsRun;
    run := Election();
    var net := {VOTE, GRANT};
    var led := Waiting1().(raft := Leader1(), pending := None);
    AskedDone();
    Finishes(Waiting1().(raft := Leader1()), Voted2(), net, 1, led);
    run := Grow(run, Acknowledge(1), Two(led, Voted2(), net));
    ReadyToSend();
    Takes(led, Voted2(), net, 1, Sent1().pending.value);
    run := Grow(run, HandOut(1), Two(Sent1(), Voted2(), net + {APPEND}));
    Accepts();
    Arrives(Sent1(), Voted2(), net + {APPEND}, APPEND, Holder2());
    run := Grow(run, Deliver(APPEND), Two(Sent1(), Voted2().(raft := Holder2()), net + {APPEND}));
    GrantedDone();
    Finishes(Sent1(), Voted2().(raft := Holder2()), net + {APPEND}, 2, Holding2());
    run := Grow(run, Acknowledge(2), Two(Sent1(), Holding2(), net + {APPEND}));
    ReadyToAck();
    Takes(Sent1(), Holding2(), net + {APPEND}, 2, Told2().pending.value);
    run := Grow(run, HandOut(2), Two(Sent1(), Told2(), net + {APPEND} + {ACK}));
    assert net + {APPEND} + {ACK} == {VOTE, GRANT, APPEND, ACK};
  }

  lemma AskedDone()
    ensures Advance(Waiting1().(raft := Leader1())) == Ok(Waiting1().(raft := Leader1(), pending := None))
  {
    assert Waiting1().delivered + [] == [];
  }

  lemma ReadyToSend()
    ensures var p, rd := Waiting1().(raft := Leader1(), pending := None), Sent1().pending.value;
            p.pending.None? && NewReady(p) == Ok(rd) && rd.ContainsUpdates() && TakeReady(p, rd) == Sent1() && rd.messages == {APPEND}
  {
    assert [ENTRY][0..] == [ENTRY];
  }

  lemma GrantedDone()
    ensures Advance(Voted2().(raft := Holder2())) == Ok(Holding2())
  {
    assert Voted2().delivered + [] == [];
  }

  lemma ReadyToAck()
    ensures var p, rd := Holding2(), Told2().pending.value;
            p.pending.None? && NewReady(p) == Ok(rd) && rd.ContainsUpdates() && TakeReady(p, rd) == Told2() && rd.messages == {ACK}
  {
    assert [ENTRY][0..] == [ENTRY];
  }

  /** A run exists in which an entry is committed and delivered to the application. */
  lemma EntryIsDelivered() returns (run: seq<Cluster>)
    ensures IsRun(run) && 1 in run[|run| - 1].peers && run[|run| - 1].peers[1].delivered == [ENTRY]
  {
    hide Step, Committed1, Enabled, Apply, NewReady, TakeReady, Advance, IsRun;
    run := Replication();
    var net := {VOTE, GRANT, APPEND, ACK};
    Confirms();
    Arrives(Sent1(), Told2(), net, ACK, Committed1());
    run := Grow(run, Deliver(ACK), Two(Sent1().(raft := Committed1()), Told2(), net));
    SentDone();
    Finishes(Sent1().(raft := Committed1()), Told2(), net, 1, Stored1());
    run := Grow(run, Acknowledge(1), Two(Stored1(), Told2(), net));
    ReadyToGive();
    Takes(Stored1(), Told2(), net, 1, Given1().pending.value);
    run := Grow(run, HandOut(1), Two(Given1(), Told2(), net + {NEWS}));
    GivenDone();
    Finishes(Given1(), Told2(), net + {NEWS}, 1, Delivered1());
    run := Grow(run, Acknowledge(1), Two(Delivered1(), Told2(), net + {NEWS}));
  }

  lemma SentDone()
    ensures Advance(Sent1().(raft := Committed1())) == Ok(Stored1())
  {
    hide Advance;
    StoresEntry(Sent1().(raft := Committed1()));
  }

  lemma StoresEntry(p: Peer)
    requires p.pending.Some? && p.pending.value.entries == [ENTRY] && p.pending.value.committed == []
    requires p.raft.log == LogView([ENTRY], 0, [], 1, 0) && p.prevHard.commit == 0
    ensures Advance(p) == Ok(p.(raft := p.raft.(log := LogView([ENTRY], 1, [ENTRY], 1, 0)), pending := None))
  {
    var v := p.raft.log;
    assert p.delivered + [] == p.delivered && [] + [ENTRY] == [ENTRY];
    assert Persisted(v, [ENTRY]) == [ENTRY];
    assert AppliedTo(v, 0) == Ok(v) && StorageAppend(v, [ENTRY]) == Ok(v.(disk := [ENTRY]));
  }

  lemma ReadyToGive()
    ensures var p, rd := Stored1(), Given1().pending.value;
            p.pending.None? && NewReady(p) == Ok(rd) && rd.ContainsUpdates() && TakeReady(p, rd) == Given1() && rd.messages == {NEWS}
  {
    assert [ENTRY][1..] == [] && [ENTRY][0..1] == [ENTRY];
  }

  lemma GivenDone()
    ensures Advance(Given1()) == Ok(Delivered1())
  {
    assert Given1().delivered + [ENTRY] == [ENTRY];
  }
}
