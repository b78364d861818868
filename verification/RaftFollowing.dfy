/**
 Accepting entries and commit indexes from the leader keeps the invariants. Accepting an append
 leaves the longer of the two logs when they agree, and the leader's prefix when they conflict.
 */
module RaftFollowing {
  import opened Basics
  import opened RaftCore
  import opened RaftHistory
  import opened RaftCompleteness
  import opened RaftActions

  // ---------------------------------------------------------------- the log after an append

  /** The log l after the first m entries of g were accepted. */
  function Accepted(l: Log, g: Log, m: nat): Log
    requires m <= |g|
  {
    if g[..m] <= l then l else g[..m]
  }

  /** What is common to both logs survives. */
  lemma CommonSurvives(p: Log, l: Log, g: Log, m: nat)
    requires p <= l && p <= g && m <= |g|
    ensures p <= Accepted(l, g, m)
  {
    if |p| <= m {
      assert p == g[..|p|] == g[..m][..|p|];
    } else {
      assert g[..m] == p[..m] == l[..m];
    }
  }

  lemma AnchoredPrefix(g: map<nat, Reign>, l: Log, m: nat)
    requires Anchored(g, l) && m <= |l|
    ensures Anchored(g, l[..m])
  {
    forall i: nat | i < m ensures AnchoredAt(g, l[..m], i) {
      assert AnchoredAt(g, l, i);
      assert l[..m][..i + 1] == l[..i + 1];
    }
  }

  /** Agreeing at one index means agreeing below it; index 0 always agrees. */
  lemma MatchMeansPrefix(r: map<nat, Reign>, l: Log, g: Log, p: nat)
    requires Anchored(r, l) && Anchored(r, g) && p <= |g| && TermAt(l, p) == TermAt(g, p)
    ensures p <= |l| && l[..p] == g[..p]
  {
    if p > 0 {
      assert AnchoredAt(r, g, p - 1);
      LogsMatch(r, l, g, p);
    }
  }

  ghost predicate ConflictAt(l: Log, g: Log, p: nat, m: nat, k: nat)
    requires p <= m <= |g|
  {
    if k == 0 then g[..m] <= l
    else p < k <= m && k <= |l| + 1 && l[..k - 1] == g[..k - 1] && (k <= |l| ==> l[k - 1] != g[k - 1])
  }

  lemma {:induction false} FindConflictIs(r: map<nat, Reign>, l: Log, g: Log, p: nat, m: nat)
    requires Anchored(r, l) && Anchored(r, g) && p <= m <= |g|
    requires p <= |l| && l[..p] == g[..p]
    ensures ConflictAt(l, g, p, m, FindConflict(l, g[p..m]))
    decreases m - p
  {
    if p < m {
      assert AnchoredAt(r, g, p) && g[p..m][0] == g[p] && g[p..m][1..] == g[p + 1..m];
      if TermAt(l, p + 1) == g[p].term {
        LogsMatch(r, l, g, p + 1);
        FindConflictIs(r, l, g, p + 1, m);
      }
    }
  }

  /** The log part of an append from a leader whose log is g. */
  lemma MaybeAppendIs(r: map<nat, Reign>, v: LogView, g: Log, p: nat, m: nat, c: nat)
    requires Anchored(r, v.log) && Anchored(r, g) && p <= m <= |g|
    requires v.commit <= |v.log| && v.log[..v.commit] <= g
    ensures TermAt(v.log, p) != TermAt(g, p) ==> MaybeAppend(v, p, TermAt(g, p), c, g[p..m]) == Ok(None)
    ensures TermAt(v.log, p) == TermAt(g, p) ==>
              var o := MaybeAppend(v, p, TermAt(g, p), c, g[p..m]);
              && o.Ok? && o.value.Some?
              && o.value.value.log == Accepted(v.log, g, m)
              && o.value.value.commit == (if v.commit >= Min(c, m) then v.commit else Min(c, m))
              && g[..m] <= o.value.value.log
  {
    hide FindConflict, Anchored, Append;
    if TermAt(v.log, p) == TermAt(g, p) {
      MatchMeansPrefix(r, v.log, g, p);
      FindConflictIs(r, v.log, g, p, m);
      var k := FindConflict(v.log, g[p..m]);
      if k != 0 {
        ConflictAboveCommit(v, g, p, m, k);
        ConflictReplaced(r, v, g, p, m, k);
      }
    }
  }

  lemma ConflictAboveCommit(v: LogView, g: Log, p: nat, m: nat, k: nat)
    requires p <= m <= |g| && k != 0 && ConflictAt(v.log, g, p, m, k)
    requires v.commit <= |v.log| && v.log[..v.commit] <= g
    ensures k > v.commit
  {
    assert v.log[..v.commit] == g[..v.commit];
  }

  lemma ConflictReplaced(r: map<nat, Reign>, v: LogView, g: Log, p: nat, m: nat, k: nat)
    requires Anchored(r, g) && p <= m <= |g| && k > v.commit && ConflictAt(v.log, g, p, m, k)
    ensures var o := Append(v, g[p..m][k - p - 1..]);
            o.Ok? && o.value.log == g[..m] && o.value.commit == v.commit && !(g[..m] <= v.log)
  {
    assert AnchoredAt(r, g, k - 1);
    var es := g[p..m][k - p - 1..];
    assert es == g[k - 1..m];
    assert v.log[..k - 1] + es == g[..m];
    assert g[..m][k - 1] == g[k - 1];
  }

  // ---------------------------------------------------------------- acknowledging

  ghost function WithAck(h: Hist, n: RaftState, m: nat): Hist {
    var k := At(n.id, n.term);
    h.(acked := h.acked[k := if k in h.acked && h.acked[k] >= m then h.acked[k] else m])
  }

  lemma AckedStillOk(h: Hist, n: RaftState, m: nat)
    requires AcksOk(h) && n.term in h.reigns && m <= |h.reigns[n.term].log|
    ensures AcksOk(WithAck(h, n, m))
  {
    var h' := WithAck(h, n, m);
    forall k | k in h'.acked ensures AckedOk(h', k) {
      assert k in h.acked ==> AckedOk(h, k);
    }
  }

  lemma AckGrows(h: Hist, n: RaftState, m: nat)
    ensures Grows(h, WithAck(h, n, m), n.id)
  {
  }

  /** An acknowledgement of the current term is later than every vote of the node. */
  lemma AckIsLate(h: Hist, n: RaftState, m: nat)
    requires HistOk(h) && VoteStateOk(h, n)
    ensures forall k, a :: k in h.snapshot && a in WithAck(h, n, m).acked && a.node == k.node && a.term < k.term ==>
                             a in h.acked && h.acked[a] == WithAck(h, n, m).acked[a]
  {
    hide ReignsOk, SnapshotsOk, SnapshotsKeep, AcksOk, MsgsOk;
    SnapshotsAreVotes(h);
  }

  lemma AckAdded(h: Hist, n: RaftState, m: nat)
    requires HistOk(h) && NodeOk(h, n) && n.term in h.reigns && m <= |h.reigns[n.term].log|
    ensures Extends(h, WithAck(h, n, m), n.id)
  {
    hide LogOk, RoleOk, CommitStateOk, VoteStateOk, ReignsOk, SnapshotsOk, SnapshotsKeep, AcksOk, MsgsOk, Grows;
    var h' := WithAck(h, n, m);
    AckGrows(h, n, m);
    AckedStillOk(h, n, m);
    ReignsStay(h, h', n.id);
    SnapshotsStay(h, h', n.id);
    AckIsLate(h, n, m);
    SnapshotsStillKeep(h, h', n.id);
    MsgsStay(h, h', n.id);
  }

  /** In the current term nothing acknowledged can be lost. */
  lemma CurrentTermKept(h: Hist, n: RaftState, i: nat)
    requires NodeOk(h, n) && Acked(h, n.id, n.term, i)
    ensures Prefix(h, n.term, i) <= n.log.log
  {
    assert Kept(h, n.term, i, n.log.log, n.term + 1);
  }

  /** What was acknowledged earlier survives the acceptance, unless an earlier leader had lost it. */
  lemma AcceptedKeeps(h: Hist, n: RaftState, m: nat, t: nat, i: nat)
    requires HistOk(h) && NodeOk(h, n) && n.term in h.reigns && m <= |h.reigns[n.term].log|
    requires Acked(h, n.id, t, i)
    ensures Kept(h, t, i, Accepted(n.log.log, h.reigns[n.term].log, m), n.term + 1)
  {
    var g := h.reigns[n.term].log;
    var p := Prefix(h, t, i);
    assert AckedOk(h, At(n.id, t));
    assert Kept(h, t, i, n.log.log, n.term + 1);
    if t == n.term {
      CurrentTermKept(h, n, i);
      CommonSurvives(p, n.log.log, g, m);
    } else if p <= n.log.log && p <= ElectedLog(h, n.term) {
      assert ReignOk(h, n.term);
      CommonSurvives(p, n.log.log, g, m);
    } else if p <= n.log.log {
      assert t < n.term < n.term + 1;
      assert Lost(h, t, i, n.term + 1);
    }
  }

  lemma AcceptKeepsLog(h: Hist, n: RaftState, m: nat, l': Log)
    requires HistOk(h) && NodeOk(h, n) && n.term in h.reigns && m <= |h.reigns[n.term].log|
    requires l' == Accepted(n.log.log, h.reigns[n.term].log, m)
    requires Extends(h, WithAck(h, n, m), n.id) && h.reigns[n.term].log[..m] <= l'
    ensures LogOk(WithAck(h, n, m), n.(log := n.log.(log := l')))
  {
    var h', g := WithAck(h, n, m), h.reigns[n.term].log;
    assert ReignOk(h, n.term);
    AnchoredPrefix(h.reigns, g, m);
    forall t: nat, i: nat | Acked(h', n.id, t, i) ensures Kept(h', t, i, l', n.term + 1) {
      if Acked(h, n.id, t, i) {
        assert AckedOk(h, At(n.id, t));
        AcceptedKeeps(h, n, m, t, i);
        KeptGrows(h, h', n.id, t, i, l', l', n.term + 1);
      } else {
        assert t == n.term && i <= m;
        assert Prefix(h', t, i) == g[..m][..i];
      }
    }
  }

  lemma AcceptKeepsCommit(h: Hist, n: RaftState, m: nat, c: nat, l': Log, c': nat)
    requires HistOk(h) && NodeOk(h, n) && n.term in h.reigns && m <= |h.reigns[n.term].log|
    requires l' == Accepted(n.log.log, h.reigns[n.term].log, m) && h.reigns[n.term].log[..m] <= l'
    requires c <= |h.reigns[n.term].log| && CommitOk(h, h.reigns[n.term].log[..c], n.term)
    requires c' == if n.log.commit >= Min(c, m) then n.log.commit else Min(c, m)
    ensures c' <= |l'| && CommitOk(h, l'[..c'], n.term)
  {
    var g, p := h.reigns[n.term].log, n.log.log[..n.log.commit];
    CommittedInLater(h, p, n.term, n.term);
    CommonSurvives(p, n.log.log, g, m);
    if c' == n.log.commit {
      assert l'[..c'] == p;
    } else {
      assert l'[..c'] == g[..m][..c'] <= g[..c];
      CommitOkGrows(h, h, n.id, g[..c], l'[..c'], n.term, n.term);
    }
  }

  /** A follower's state with the log v. */
  lemma AcceptKeepsNode(h: Hist, n: RaftState, m: nat, c: nat, v: LogView)
    requires HistOk(h) && NodeOk(h, n) && n.role.Follower?
    requires n.term in h.reigns && m <= |h.reigns[n.term].log|
    requires v.log == Accepted(n.log.log, h.reigns[n.term].log, m) && h.reigns[n.term].log[..m] <= v.log
    requires c <= |h.reigns[n.term].log| && CommitOk(h, h.reigns[n.term].log[..c], n.term)
    requires v.commit == if n.log.commit >= Min(c, m) then n.log.commit else Min(c, m)
    requires Extends(h, WithAck(h, n, m), n.id)
    ensures NodeOk(WithAck(h, n, m), n.(log := v))
  {
    AcceptKeepsLog(h, n, m, v.log);
    AcceptKeepsCommit(h, n, m, c, v.log, v.commit);
    CommitOkGrows(h, WithAck(h, n, m), n.id, v.log[..v.commit], v.log[..v.commit], n.term, n.term);
  }

  /** The append of a message, in terms of the sending leader's log: in particular it never panics. */
  lemma MessageAppendIs(h: Hist, n: RaftState, m: Message)
    requires HistOk(h) && NodeOk(h, n) && m.App? && MsgOk(h, m) && m.term == n.term
    ensures var o := MaybeAppend(n.log, m.logIndex, m.logTerm, m.commit, m.entries);
            var g, k := h.reigns[n.term].log, m.logIndex + |m.entries|;
            && o.Ok?
            && (o.value.Some? ==>
                  && o.value.value.log == Accepted(n.log.log, g, k)
                  && o.value.value.commit == (if n.log.commit >= Min(m.commit, k) then n.log.commit else Min(m.commit, k))
                  && g[..k] <= o.value.value.log)
  {
    hide MaybeAppend, Accepted, FindConflict;
    var g := h.reigns[n.term].log;
    assert ReignOk(h, n.term);
    CommittedInLater(h, n.log.log[..n.log.commit], n.term, n.term);
    MaybeAppendIs(h.reigns, n.log, g, m.logIndex, m.logIndex + |m.entries|, m.commit);
  }

  lemma HandleAppOk(h: Hist, n: RaftState, m: Message) returns (h': Hist)
    requires HistOk(h) && NodeOk(h, n) && n.role.Follower?
    requires m.App? && MsgOk(h, m) && m.term == n.term && m.to == n.id
    ensures HandleApp(n, m).Ok?
    ensures Extends(h, h', n.id) && NodeOk(h', HandleApp(n, m).value)
  {
    hide HistOk, Grows, MaybeAppend, LogOk, CommitStateOk, VoteStateOk, RoleOk, Anchored;
    MessageAppendIs(h, n, m);
    var o := MaybeAppend(n.log, m.logIndex, m.logTerm, m.commit, m.entries);
    if o.value.None? {
      h' := SendMsgs(h, n, {AppResp(n.id, m.from, n.term, m.logIndex, true, |n.log.log|)});
    } else {
      h' := AckAndReply(h, n, m.from, m.logIndex + |m.entries|, m.commit, o.value.value);
    }
  }

  lemma AckAndReply(h: Hist, n: RaftState, to: nat, m: nat, c: nat, v: LogView) returns (h': Hist)
    requires HistOk(h) && NodeOk(h, n) && n.role.Follower? && to != n.id
    requires n.term in h.reigns && m <= |h.reigns[n.term].log|
    requires v.log == Accepted(n.log.log, h.reigns[n.term].log, m) && h.reigns[n.term].log[..m] <= v.log
    requires c <= |h.reigns[n.term].log| && CommitOk(h, h.reigns[n.term].log[..c], n.term)
    requires v.commit == if n.log.commit >= Min(c, m) then n.log.commit else Min(c, m)
    ensures Extends(h, h', n.id)
    ensures NodeOk(h', Send(n.(log := v), {AppResp(n.id, to, n.term, m, false, 0)}))
  {
    AckAdded(h, n, m);
    var h1 := WithAck(h, n, m);
    AcceptKeepsNode(h, n, m, c, v);
    h' := SendMsgs(h1, n.(log := v), {AppResp(n.id, to, n.term, m, false, 0)});
    GrowsTrans(h, h1, h', n.id);
  }

  // ---------------------------------------------------------------- heartbeats

  lemma HeartbeatCommit(h: Hist, n: RaftState, m: Message)
    requires HistOk(h) && NodeOk(h, n) && n.role.Follower?
    requires m.Heartbeat? && MsgOk(h, m) && m.term == n.term && m.to == n.id
    ensures CommitTo(n.log, Min(m.commit, |n.log.log|)).Ok?
    ensures NodeOk(h, n.(log := CommitTo(n.log, Min(m.commit, |n.log.log|)).value))
  {
    if m.commit > n.log.commit {
      CurrentTermKept(h, n, m.commit);
      assert AckedOk(h, At(n.id, n.term));
      assert n.log.log[..m.commit] == Prefix(h, n.term, m.commit);
    }
  }

  lemma HandleHeartbeatOk(h: Hist, n: RaftState, m: Message) returns (h': Hist)
    requires HistOk(h) && NodeOk(h, n) && n.role.Follower?
    requires m.Heartbeat? && MsgOk(h, m) && m.term == n.term && m.to == n.id
    ensures HandleHeartbeat(n, m).Ok?
    ensures Extends(h, h', n.id) && NodeOk(h', HandleHeartbeat(n, m).value)
  {
    HeartbeatCommit(h, n, m);
    var v := CommitTo(n.log, Min(m.commit, |n.log.log|)).value;
    h' := SendMsgs(h, n.(log := v), {HeartbeatResp(n.id, m.from, n.term)});
  }
}
