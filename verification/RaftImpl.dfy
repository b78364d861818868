/**
 The Raft node as the program runs it: fields updated in place, loops over peers and votes. Each
 method computes the function of RaftCore of the same name on the node's state; the order in which
 a loop over a map sends its messages is left open.
 */
module RaftImpl {
  import opened Basics
  import C = RaftCore
  import L = RaftLogImpl
  import P = RaftProgress

  type Message = C.Message
  type Entry = C.Entry

  /** A message as peers send it: App entries continue the log, and every remote message has a term. */
  ghost predicate Receivable(m: Message) {
    && (m.App? ==> L.Numbered(m.entries, m.logIndex + 1))
    && (m.Hup? || m.Beat? || m.Prop? || C.TermOf(m) >= 1)
  }

  // ---------------------------------------------------------------- the quorum index of sorted matches

  lemma {:induction false} DistinctCard(s: seq<nat>)
    requires Distinct(s)
    ensures |Elems(s)| == |s|
  {
    if s != [] {
      var t := s[..|s| - 1];
      DistinctCard(t);
      assert Elems(s) == Elems(t) + {s[|s| - 1]};
    } else {
      assert Elems(s) == {};
    }
  }

  ghost predicate Descending(s: seq<nat>) {
    forall i, j :: 0 <= i < j < |s| ==> s[i] >= s[j]
  }

  /** s lists the matches of the peers ids. */
  ghost predicate MatchesOf(prs: map<nat, C.Progress>, ids: seq<nat>, s: seq<nat>) {
    |s| == |ids| && forall i :: 0 <= i < |ids| ==> ids[i] in prs && prs[ids[i]].matched == s[i]
  }

  /** Of matches sorted downwards, the first q peers hold at least the q-th, and no others more. */
  lemma SortedHolders(prs: map<nat, C.Progress>, ids: seq<nat>, s: seq<nat>, q: nat)
    requires MatchesOf(prs, ids, s) && Descending(s) && Elems(ids) == prs.Keys && 1 <= q <= |ids|
    ensures Elems(ids[..q]) <= C.Holders(prs, s[q - 1])
    ensures C.Holders(prs, s[q - 1] + 1) <= Elems(ids[..q - 1])
  {
    var more := C.Holders(prs, s[q - 1] + 1);
    forall j: nat {:trigger j in more} | j in more ensures j in Elems(ids[..q - 1]) {
      assert j in Elems(ids);
      var i :| 0 <= i < |ids| && ids[i] == j;
      assert i < q - 1;
      assert ids[..q - 1][i] == j;
    }
  }

  /** The entry at the quorum's position of the sorted matches is the largest index a quorum holds. */
  lemma SortedGivesQuorumIndex(prs: map<nat, C.Progress>, ids: seq<nat>, s: seq<nat>)
    requires MatchesOf(prs, ids, s) && Descending(s) && Distinct(ids) && Elems(ids) == prs.Keys && ids != []
    ensures C.Quorum(prs.Keys) <= |s| && C.IsQuorumIndex(prs, s[C.Quorum(prs.Keys) - 1])
  {
    DistinctCard(ids);
    var q := C.Quorum(prs.Keys);
    SortedHolders(prs, ids, s, q);
    DistinctCard(ids[..q]);
    DistinctCard(ids[..q - 1]);
    C.SubsetCard(Elems(ids[..q]), C.Holders(prs, s[q - 1]));
    C.SubsetCard(C.Holders(prs, s[q - 1] + 1), Elems(ids[..q - 1]));
  }

  method SortDescending(ms: seq<nat>, ghost prs: map<nat, C.Progress>, ghost ids: seq<nat>)
    returns (s: seq<nat>, ghost p: seq<nat>)
    requires MatchesOf(prs, ids, ms) && Distinct(ids)
    ensures MatchesOf(prs, p, s) && Descending(s) && Distinct(p) && Elems(p) == Elems(ids)
  {
    hide MatchesOf, Descending, Distinct, Elems;
    SortStarts(prs, ids, ms);
    s, p := [], [];
    for i := 0 to |ms|
      invariant Sorting(prs, ids, ms, s, p, i)
    {
      var j := Position(s, ms[i]);
      SortStep(prs, ids, ms, s, p, i, j);
      s, p := s[..j] + [ms[i]] + s[j..], p[..j] + [ids[i]] + p[j..];
    }
    assert ids[..|ms|] == ids;
  }

  /** The first i matches are sorted. */
  ghost predicate Sorting(prs: map<nat, C.Progress>, ids: seq<nat>, ms: seq<nat>, s: seq<nat>, p: seq<nat>, i: nat) {
    && i <= |ms| == |ids| && |s| == |p| == i
    && MatchesOf(prs, p, s) && Descending(s) && Distinct(p) && Elems(p) == Elems(ids[..i])
  }

  lemma SortStarts(prs: map<nat, C.Progress>, ids: seq<nat>, ms: seq<nat>)
    requires MatchesOf(prs, ids, ms)
    ensures Sorting(prs, ids, ms, [], [], 0)
  {
  }

  /** Where a further match goes among sorted ones. */
  method Position(s: seq<nat>, x: nat) returns (j: nat)
    ensures j <= |s| && (forall k :: 0 <= k < j ==> s[k] >= x) && (j < |s| ==> s[j] < x)
  {
    j := 0;
    while j < |s| && s[j] >= x
      invariant 0 <= j <= |s|
      invariant forall k :: 0 <= k < j ==> s[k] >= x
    {
      j := j + 1;
    }
  }

  lemma SortStep(prs: map<nat, C.Progress>, ids: seq<nat>, ms: seq<nat>, s: seq<nat>, p: seq<nat>, i: nat, j: nat)
    requires MatchesOf(prs, ids, ms) && Distinct(ids) && Sorting(prs, ids, ms, s, p, i) && i < |ms| && j <= |s|
    requires (forall k :: 0 <= k < j ==> s[k] >= ms[i]) && (j < |s| ==> s[j] < ms[i])
    ensures Sorting(prs, ids, ms, s[..j] + [ms[i]] + s[j..], p[..j] + [ids[i]] + p[j..], i + 1)
  {
    assert ids[i] in p <==> ids[i] in Elems(ids[..i]) by { assert forall x :: x in p <==> x in Elems(p); }
    assert Elems(ids[..i + 1]) == Elems(ids[..i]) + {ids[i]};
    InsertElems(p, j, ids[i]);
    InsertDescending(s, ms[i], j);
  }

  lemma InsertDescending(s: seq<nat>, x: nat, j: nat)
    requires Descending(s) && j <= |s| && (forall k :: 0 <= k < j ==> s[k] >= x) && (j < |s| ==> s[j] < x)
    ensures Descending(s[..j] + [x] + s[j..])
  {
  }

  lemma InsertElems(p: seq<nat>, j: nat, x: nat)
    requires j <= |p| && Distinct(p) && x !in p
    ensures Elems(p[..j] + [x] + p[j..]) == Elems(p) + {x} && Distinct(p[..j] + [x] + p[j..])
  {
    assert p == p[..j] + p[j..];
  }

  lemma AppendMsgIgnoresMsgs(n: C.RaftState, out: set<Message>, j: nat)
    requires j in n.prs
    ensures C.AppendMsg(C.Send(n, out), j) == C.AppendMsg(n, j)
  {
  }

  class Raft {
    const id: nat
    var term: nat
    var vote: nat
    var role: C.Role
    var lead: nat
    const raftLog: L.RaftLog
    var prs: map<nat, C.Progress>
    var votes: map<nat, bool>
    var msgs: seq<Message>
    const preVote: bool
    const checkQuorum: bool
    var pendingConf: bool

    ghost predicate Valid() reads this, raftLog, raftLog.storage, raftLog.unstable {
      raftLog.Valid() && 1 <= term
    }

    ghost function View(): C.RaftState
      requires Valid()
      reads this, raftLog, raftLog.storage, raftLog.unstable
    {
      C.RaftState(id, term, vote, role, lead, raftLog.View(), prs, votes, (set m | m in msgs),
                  preVote, checkQuorum, pendingConf)
    }

    constructor (id: nat, peers: set<nat>, storage: L.MemoryStorage, preVote: bool, checkQuorum: bool)
      requires storage.Valid() && storage.Disk() == []
      ensures Valid() && raftLog.storage == storage && fresh(raftLog) && fresh(raftLog.unstable)
      ensures View() == C.RaftState(id, 1, C.NONE, C.Follower, C.NONE, C.LogView([], 0, [], 0, 0),
                                    map j | j in peers :: C.Progress(0, 1), map[], {}, preVote, checkQuorum, false)
    {
      hide L.RaftLog.Valid, L.RaftLog.View;
      this.id := id;
      term, vote, role, lead := 1, C.NONE, C.Follower, C.NONE;
      raftLog := new L.RaftLog(storage);
      prs := map j | j in peers :: C.Progress(0, 1);
      votes, msgs := map[], [];
      this.preVote, this.checkQuorum, pendingConf := preVote, checkQuorum, false;
    }

    method Send(m: Message)
      requires Valid()
      modifies this`msgs
      ensures Valid() && View() == C.Send(old(View()), {m})
    {
      msgs := msgs + [m];
    }

    method ClearMsgs()
      requires Valid()
      modifies this`msgs
      ensures Valid() && View() == old(View()).(msgs := {})
    {
      msgs := [];
    }

    method Reset(t: nat)
      requires Valid() && 1 <= t
      modifies this
      ensures Valid() && View() == C.Reset(old(View()), t)
    {
      if term != t {
        term := t;
        vote := C.NONE;
      }
      lead := C.NONE;
      votes := map[];
      pendingConf := false;
    }

    method BecomeFollower(t: nat, l: nat)
      requires Valid() && 1 <= t
      modifies this
      ensures Valid() && View() == C.BecomeFollower(old(View()), t, l)
    {
      Reset(t);
      lead := l;
      role := C.Follower;
    }

    method BecomePreCandidate()
      requires Valid() && C.BecomePreCandidate(View()).Ok?
      modifies this
      ensures Valid() && View() == C.BecomePreCandidate(old(View())).value
    {
      votes := map[];
      role := C.PreCandidate;
    }

    method BecomeCandidate()
      requires Valid() && C.BecomeCandidate(View()).Ok?
      modifies this
      ensures Valid() && View() == C.BecomeCandidate(old(View())).value
    {
      Reset(term + 1);
      vote := id;
      role := C.Candidate;
    }

    // -------------------------------------------------------------- votes

    method Quorum() returns (q: nat)
      ensures q == C.Quorum(prs.Keys)
    {
      q := |prs| / 2 + 1;
    }

    method CountGranted() returns (granted: nat)
      ensures granted == |C.Granted(votes)|
    {
      granted := 0;
      var ids := votes.Keys;
      ghost var counted: set<nat> := {};
      while ids != {}
        invariant ids <= votes.Keys
        invariant counted == set j | j in votes && j !in ids && votes[j]
        invariant granted == |counted|
        decreases ids
      {
        var j :| j in ids;
        if votes[j] {
          granted := granted + 1;
          counted := counted + {j};
        }
        ids := ids - {j};
      }
      assert counted == C.Granted(votes);
    }

    method Poll(from: nat, v: bool) returns (granted: nat)
      requires Valid()
      modifies this`votes
      ensures Valid() && View() == C.RecordVote(old(View()), from, v)
      ensures granted == |C.Granted(votes)|
    {
      if from !in votes {
        votes := votes[from := v];
      }
      granted := CountGranted();
    }

    // -------------------------------------------------------------- the leader

    method Matches() returns (ms: seq<nat>, ghost ids: seq<nat>)
      ensures MatchesOf(prs, ids, ms) && Distinct(ids) && Elems(ids) == prs.Keys
    {
      ms, ids := [], [];
      var todo := prs.Keys;
      while todo != {}
        invariant todo <= prs.Keys
        invariant MatchesOf(prs, ids, ms) && Distinct(ids) && Elems(ids) == prs.Keys - todo
        decreases todo
      {
        var j :| j in todo;
        assert j !in Elems(ids);
        ms := ms + [prs[j].matched];
        assert Elems(ids + [j]) == Elems(ids) + {j};
        ids := ids + [j];
        todo := todo - {j};
      }
    }

    /** The quorum-th of the matches sorted downwards. */
    method QuorumMatch() returns (k: nat)
      requires prs != map[]
      ensures C.IsQuorumIndex(prs, k)
    {
      hide C.IsQuorumIndex;
      var ms, ids := Matches();
      ghost var p;
      ms, p := SortDescending(ms, prs, ids);
      assert p != [] by {
        var j :| j in prs.Keys;
        assert j in Elems(p);
      }
      SortedGivesQuorumIndex(prs, p, ms);
      var q := Quorum();
      k := ms[q - 1];
    }

    method MaybeCommit() returns (committed: bool)
      requires Valid() && prs != map[]
      modifies raftLog
      ensures Valid() && C.MaybeCommit(old(View())) == C.Ok(View())
      ensures committed == (View().log.commit != old(View()).log.commit)
      ensures P.Orderly(old(View())) ==> P.Commits(old(View()), View().log.commit)
    {
      hide L.RaftLog.Valid, P.Orderly, P.Commits, C.IsQuorumIndex;
      if P.Orderly(View()) { P.CommitsGreatest(View()); }
      var k := QuorumMatch();
      C.QuorumIndexUnique(prs, k, C.QuorumIndex(prs));
      committed := raftLog.MaybeCommit(k, term);
    }

    method AppendEntry(es: seq<Entry>)
      requires Valid() && C.AppendEntry(View(), es).Ok?
      modifies this, raftLog, raftLog.unstable
      ensures Valid() && View() == C.AppendEntry(old(View()), es).value
    {
      hide L.RaftLog.Valid, L.RaftLog.View, C.MaybeCommit;
      ghost var n := View();
      var last := raftLog.LastIndex();
      var stamped: seq<Entry> := [];
      for i := 0 to |es|
        invariant |stamped| == i
        invariant forall k :: 0 <= k < i ==> stamped[k] == es[k].(term := term, index := last + k + 1)
      {
        stamped := stamped + [es[i].(term := term, index := last + i + 1)];
      }
      assert stamped == C.Stamp(es, term, last);
      last := raftLog.Append(stamped);
      prs := prs[id := C.MaybeUpdate(prs[id], last)];
      assert View() == n.(log := C.Append(n.log, stamped).value, prs := prs);
      assert id in prs;
      var _ := MaybeCommit();
    }

    method ResetProgress(last: nat)
      modifies this`prs
      ensures prs == map j | j in old(prs) :: if j == id then old(prs)[j] else C.Progress(0, last + 1)
    {
      var todo := prs.Keys;
      while todo != {}
        invariant todo <= prs.Keys == old(prs).Keys
        invariant forall j :: j in prs ==> prs[j] == if j == id || j in todo then old(prs)[j] else C.Progress(0, last + 1)
        decreases todo
      {
        var j :| j in todo;
        if j != id {
          prs := prs[j := C.Progress(0, last + 1)];
        }
        todo := todo - {j};
      }
    }

    method BecomeLeader()
      requires Valid() && C.BecomeLeader(View()).Ok?
      modifies this, raftLog, raftLog.unstable
      ensures Valid() && View() == C.BecomeLeader(old(View())).value
    {
      hide L.RaftLog.Valid, L.RaftLog.View, C.AppendEntry;
      ghost var n := View();
      Reset(term);
      lead := id;
      role := C.Leader;
      var last := raftLog.LastIndex();
      ResetProgress(last);
      assert View() == C.FreshLeader(n);
      AppendEntry([C.EMPTY_ENTRY]);
    }

    method SendAppend(to: nat)
      requires Valid() && to in prs
      modifies this`msgs
      ensures Valid() && View() == C.Send(old(View()), {C.AppendMsg(old(View()), to)})
    {
      hide L.RaftLog.Valid;
      var pr := prs[to];
      var t, _ := raftLog.Term(pr.next - 1);
      var es := raftLog.Entries(pr.next);
      Send(C.App(id, to, term, t, pr.next - 1, es, raftLog.commitIndex));
    }

    method SendHeartbeat(to: nat)
      requires Valid() && to in prs
      modifies this`msgs
      ensures Valid() && View() == C.Send(old(View()), {C.HeartbeatMsg(old(View()), to)})
    {
      Send(C.Heartbeat(id, to, term, C.Min(raftLog.commitIndex, prs[to].matched)));
    }

    method BroadcastAppend()
      requires Valid()
      modifies this`msgs
      ensures Valid() && View() == C.BroadcastAppend(old(View()))
    {
      hide L.RaftLog.Valid, L.RaftLog.View, C.AppendMsg;
      ghost var n := View();
      var todo := prs.Keys;
      ghost var out: set<Message> := {};
      while todo != {}
        invariant Valid() && todo <= prs.Keys && View() == C.Send(n, out)
        invariant out == set j | j in n.prs && j != id && j !in todo :: C.AppendMsg(n, j)
        decreases todo
      {
        var j :| j in todo;
        if j != id {
          AppendMsgIgnoresMsgs(n, out, j);
          SendAppend(j);
          out := out + {C.AppendMsg(n, j)};
        }
        todo := todo - {j};
      }
    }

    method BroadcastHeartbeat()
      requires Valid()
      modifies this`msgs
      ensures Valid() && View() == C.BroadcastHeartbeat(old(View()))
    {
      hide L.RaftLog.Valid, L.RaftLog.View;
      ghost var n := View();
      var todo := prs.Keys;
      ghost var out: set<Message> := {};
      while todo != {}
        invariant Valid() && todo <= prs.Keys && View() == C.Send(n, out)
        invariant out == set j | j in n.prs && j != id && j !in todo :: C.HeartbeatMsg(n, j)
        decreases todo
      {
        var j :| j in todo;
        if j != id {
          SendHeartbeat(j);
          out := out + {C.HeartbeatMsg(n, j)};
        }
        todo := todo - {j};
      }
    }

    method FilterConf(es: seq<Entry>) returns (fs: seq<Entry>)
      modifies this`pendingConf
      ensures fs == C.FilterConf(es, old(pendingConf)).0 && pendingConf == C.FilterConf(es, old(pendingConf)).1
    {
      fs := [];
      assert es[0..] == es;
      for i := 0 to |es|
        invariant C.FilterConf(es, old(pendingConf)).0 == fs + C.FilterConf(es[i..], pendingConf).0
        invariant C.FilterConf(es, old(pendingConf)).1 == C.FilterConf(es[i..], pendingConf).1
      {
        var e := es[i];
        assert es[i..][0] == e && es[i..][1..] == es[i + 1..];
        if e.typ.ConfChange? {
          if pendingConf { e := C.EMPTY_ENTRY; }
          pendingConf := true;
        }
        fs := fs + [e];
      }
      assert es[|es|..] == [];
    }

    method Propose(es: seq<Entry>)
      requires Valid() && C.Propose(View(), es).Ok?
      modifies this, raftLog, raftLog.unstable
      ensures Valid() && View() == C.Propose(old(View()), es).value
    {
      hide C.AppendEntry, C.FilterConf;
      if id !in prs { return; }
      ghost var n := View();
      var fs := FilterConf(es);
      assert View() == n.(pendingConf := pendingConf);
      AppendEntry(fs);
      BroadcastAppend();
    }

    lemma ProgressIs()
      requires Valid()
      ensures View().prs == prs
    {
    }

    method SetProgress(j: nat, pr: C.Progress)
      requires Valid()
      modifies this`prs
      ensures Valid() && View() == old(View()).(prs := old(View()).prs[j := pr])
    {
      hide L.RaftLog.Valid, L.RaftLog.View;
      prs := prs[j := pr];
    }

    method HandleAppResp(m: Message)
      requires Valid() && m.AppResp? && C.HandleAppResp(View(), m).Ok?
      modifies this, raftLog
      ensures Valid() && View() == C.HandleAppResp(old(View()), m).value
    {
      hide L.RaftLog.Valid, L.RaftLog.View, Valid, View, C.MaybeCommit, C.BroadcastAppend, C.AppendMsg, C.Send;
      ProgressIs();
      if m.from !in prs { return; }
      var pr := prs[m.from];
      if m.reject {
        match C.MayDecreaseTo(pr, m.logIndex, m.rejectHint) {
          case None =>
          case Some(pr') =>
            SetProgress(m.from, pr');
            ProgressIs();
            SendAppend(m.from);
        }
        return;
      }
      SetProgress(m.from, C.MaybeUpdate(pr, m.logIndex));
      if pr.matched < m.logIndex {
        ProgressIs();
        assert m.from in prs;
        var committed := MaybeCommit();
        if committed { BroadcastAppend(); }
      }
    }

    method StepLeader(m: Message)
      requires Valid() && C.StepLeader(View(), m).Ok?
      modifies this, raftLog, raftLog.unstable
      ensures Valid() && View() == C.StepLeader(old(View()), m).value
    {
      hide C.Propose, C.HandleAppResp;
      match m
      case Beat => BroadcastHeartbeat();
      case Prop(_, _, es) => Propose(es);
      case AppResp(_, _, _, _, _, _) => HandleAppResp(m);
      case _ =>
    }

    // -------------------------------------------------------------- followers

    method HandleAppendEntries(m: Message)
      requires Valid() && m.App? && Receivable(m) && C.HandleApp(View(), m).Ok?
      modifies this, raftLog, raftLog.unstable
      ensures Valid() && View() == C.HandleApp(old(View()), m).value
    {
      hide C.MaybeAppend;
      var last, ok := raftLog.MaybeAppend(m.logIndex, m.logTerm, m.commit, m.entries);
      if ok {
        Send(C.AppResp(id, m.from, term, last, false, 0));
        return;
      }
      var hint := raftLog.LastIndex();
      Send(C.AppResp(id, m.from, term, m.logIndex, true, hint));
    }

    method HandleHeartbeat(m: Message)
      requires Valid() && m.Heartbeat? && C.HandleHeartbeat(View(), m).Ok?
      modifies this, raftLog
      ensures Valid() && View() == C.HandleHeartbeat(old(View()), m).value
    {
      var last := raftLog.LastIndex();
      raftLog.CommitTo(C.Min(m.commit, last));
      Send(C.HeartbeatResp(id, m.from, term));
    }

    method StepFollower(m: Message)
      requires Valid() && Receivable(m) && C.StepFollower(View(), m).Ok?
      modifies this, raftLog, raftLog.unstable
      ensures Valid() && View() == C.StepFollower(old(View()), m).value
    {
      hide C.HandleApp, C.HandleHeartbeat;
      ghost var n := View();
      match m
      case Prop(from, _, es) =>
        if lead != C.NONE { Send(C.Prop(from, lead, es)); }
      case App(from, _, _, _, _, _, _) =>
        lead := from;
        assert View() == n.(lead := from);
        HandleAppendEntries(m);
      case Heartbeat(from, _, _, _) =>
        lead := from;
        assert View() == n.(lead := from);
        HandleHeartbeat(m);
      case _ =>
    }

    // -------------------------------------------------------------- elections

    method BroadcastVote(pre: bool, t: nat, i: nat)
      requires Valid()
      modifies this`msgs
      ensures Valid()
      ensures View() == C.Send(old(View()), set j | j in prs && j != id ::
                                 if pre then C.PreVote(id, j, term, t, i) else C.Vote(id, j, term, t, i))
    {
      hide L.RaftLog.Valid, L.RaftLog.View;
      ghost var n := View();
      var todo := prs.Keys;
      ghost var out: set<Message> := {};
      while todo != {}
        invariant Valid() && todo <= prs.Keys && View() == C.Send(n, out)
        invariant out == set j | j in n.prs && j != id && j !in todo ::
                           if pre then C.PreVote(id, j, term, t, i) else C.Vote(id, j, term, t, i)
        decreases todo
      {
        var j :| j in todo;
        if j != id {
          var m := if pre then C.PreVote(id, j, term, t, i) else C.Vote(id, j, term, t, i);
          Send(m);
          out := out + {m};
        }
        todo := todo - {j};
      }
    }

    method Campaign()
      requires Valid() && C.Campaign(View()).Ok?
      modifies this, raftLog, raftLog.unstable
      ensures Valid() && View() == C.Campaign(old(View())).value
    {
      hide L.RaftLog.Valid, L.RaftLog.View, C.BecomeLeader;
      BecomeCandidate();
      var granted := Poll(id, true);
      var q := Quorum();
      if q == granted {
        BecomeLeader();
        return;
      }
      var t := raftLog.LastTerm();
      var i := raftLog.LastIndex();
      BroadcastVote(false, t, i);
    }

    method PreCampaign()
      requires Valid() && C.PreCampaign(View()).Ok?
      modifies this, raftLog, raftLog.unstable
      ensures Valid() && View() == C.PreCampaign(old(View())).value
    {
      hide L.RaftLog.Valid, L.RaftLog.View, C.Campaign;
      BecomePreCandidate();
      var granted := Poll(id, true);
      var q := Quorum();
      if q == granted {
        Campaign();
        return;
      }
      var t := raftLog.LastTerm();
      var i := raftLog.LastIndex();
      BroadcastVote(true, t, i);
    }

    method HandleVoteResp(m: Message)
      requires Valid() && (m.VoteResp? || m.PreVoteResp?) && C.HandleVoteResp(View(), m).Ok?
      modifies this, raftLog, raftLog.unstable
      ensures Valid() && View() == C.HandleVoteResp(old(View()), m).value
    {
      hide L.RaftLog.Valid, L.RaftLog.View, C.Campaign, C.BecomeLeader;
      var granted := Poll(m.from, !m.reject);
      var q := Quorum();
      if q == granted {
        if role.PreCandidate? {
          Campaign();
        } else {
          BecomeLeader();
          BroadcastAppend();
        }
      } else if q == |votes| - granted {
        BecomeFollower(term, C.NONE);
      }
    }

    method StepCandidate(m: Message)
      requires Valid() && Receivable(m) && C.StepCandidate(View(), m).Ok?
      modifies this, raftLog, raftLog.unstable
      ensures Valid() && View() == C.StepCandidate(old(View()), m).value
    {
      hide C.HandleApp, C.HandleHeartbeat, C.HandleVoteResp;
      match m
      case App(from, _, _, _, _, _, _) =>
        BecomeFollower(term, from);
        HandleAppendEntries(m);
      case Heartbeat(from, _, t, _) =>
        BecomeFollower(t, from);
        HandleHeartbeat(m);
      case VoteResp(_, _, _, _) =>
        if !role.PreCandidate? { HandleVoteResp(m); }
      case PreVoteResp(_, _, _, _) =>
        if role.PreCandidate? { HandleVoteResp(m); }
      case _ =>
    }

    method HandleVote(m: Message)
      requires Valid() && (m.Vote? || m.PreVote?)
      modifies this
      ensures Valid()
      ensures View() == if m.Vote? then C.HandleVote(old(View()), m) else C.HandlePreVote(old(View()), m)
    {
      hide L.RaftLog.Valid, L.RaftLog.View;
      var upToDate := raftLog.IsUpToDate(m.logIndex, m.logTerm);
      if upToDate && (vote == C.NONE || m.term > term || m.from == vote) {
        if m.Vote? {
          vote := m.from;
          Send(C.VoteResp(id, m.from, term, false));
        } else {
          Send(C.PreVoteResp(id, m.from, term, false));
        }
      } else if m.Vote? {
        Send(C.VoteResp(id, m.from, term, true));
      } else {
        Send(C.PreVoteResp(id, m.from, term, true));
      }
    }

    method HandleHup()
      requires Valid() && C.HandleHup(View()).Ok?
      modifies this, raftLog, raftLog.unstable
      ensures Valid() && View() == C.HandleHup(old(View())).value
    {
      hide C.Campaign, C.PreCampaign;
      if role.Leader? { return; }
      if id !in prs { return; }
      var es := raftLog.Slice(raftLog.applyIndex + 1, raftLog.commitIndex + 1);
      for i := 0 to |es|
        invariant forall k :: 0 <= k < i ==> !es[k].typ.ConfChange?
      {
        if es[i].typ.ConfChange? { return; }
      }
      if preVote {
        PreCampaign();
      } else {
        Campaign();
      }
    }

    // -------------------------------------------------------------- one message

    method Dispatch(m: Message)
      requires Valid() && Receivable(m) && C.Dispatch(View(), m).Ok?
      modifies this, raftLog, raftLog.unstable
      ensures Valid() && View() == C.Dispatch(old(View()), m).value
    {
      hide C.HandleHup, C.HandleVote, C.HandlePreVote, C.StepLeader, C.StepFollower, C.StepCandidate;
      if m.Hup? {
        HandleHup();
      } else if m.Vote? || m.PreVote? {
        HandleVote(m);
      } else {
        match role
        case Leader => StepLeader(m);
        case Follower => StepFollower(m);
        case Candidate => StepCandidate(m);
        case PreCandidate => StepCandidate(m);
      }
    }

    /** The node's state after any receivable message is RaftCore's Step of its state before. */
    method Step(m: Message)
      requires Valid() && Receivable(m) && C.Step(View(), m).Ok?
      modifies this, raftLog, raftLog.unstable
      ensures Valid() && View() == C.Step(old(View()), m).value
    {
      hide C.Dispatch;
      var t := C.TermOf(m);
      if t != 0 && t < term {
        if checkQuorum && (m.Heartbeat? || m.App?) {
          Send(C.AppResp(id, m.from, term, 0, false, 0));
        }
        return;
      }
      if t > term && !m.PreVote? && !(m.PreVoteResp? && !m.reject) {
        BecomeFollower(t, if m.Vote? then C.NONE else m.from);
      }
      Dispatch(m);
    }
  }
}
