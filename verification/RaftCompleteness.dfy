/**
 Leader completeness (section 5.4.3 of the extended Raft paper), as a consequence of the history
 invariant: whatever a quorum has acknowledged in its own term is in the log of every later leader.
 */
module RaftCompleteness {
  import opened RaftCore
  import opened RaftHistory

  lemma QuorumsMeet(h: Hist, a: set<nat>, b: set<nat>) returns (v: nat)
    requires IsQuorum(h, a) && IsQuorum(h, b)
    ensures v in a && v in b
  {
    if a !! b {
      assert |a + b| == |a| + |b|;
      SubsetCard(a + b, h.servers);
      assert false;
    }
    v :| v in a && v in b;
  }

  /** Terms never decrease along an anchored log. */
  lemma TermsAscend(h: Hist, l: Log, i: nat, j: nat)
    requires HistOk(h)
    requires Anchored(h.reigns, l) && i <= j < |l|
    ensures l[i].term <= l[j].term
  {
    assert AnchoredAt(h.reigns, l, j);
    var g := h.reigns[l[j].term].log;
    assert ReignOk(h, l[j].term);
    assert l[i] == l[..j + 1][i] == g[..j + 1][i] == g[i];
  }

  /** Log matching (section 5.3): an entry's term and index determine everything before it. */
  lemma LogsMatch(g: map<nat, Reign>, a: Log, b: Log, i: nat)
    requires Anchored(g, a) && Anchored(g, b)
    requires 1 <= i <= |a| && i <= |b| && a[i - 1].term == b[i - 1].term
    ensures a[..i] == b[..i]
  {
    assert AnchoredAt(g, a, i - 1) && AnchoredAt(g, b, i - 1);
  }

  lemma LeaderCompleteness(h: Hist, t: nat, i: nat, t': nat)
    requires HistOk(h) && Committed(h, t, i) && t < t' && t' in h.reigns
    ensures Prefix(h, t, i) <= ElectedLog(h, t')
    decreases t'
  {
    var q :| IsQuorum(h, q) && AllAcked(h, q, t, i);
    assert ReignOk(h, t');
    var v := QuorumsMeet(h, q, h.reigns[t'].voters);
    var k := At(v, t');
    assert VotedFor(h, k, h.reigns[t'].leader) && k in h.snapshot;
    assert Acked(h, v, t, i);
    assert SnapshotKeeps(h, k, t, i);
    if Lost(h, t, i, t') {
      var t'' :| t < t'' < t' && t'' in h.reigns && !(Prefix(h, t, i) <= ElectedLog(h, t''));
      LeaderCompleteness(h, t, i, t'');
      assert false;
    }
    assert SnapshotOk(h, k) && SnapshotOk(h, At(h.reigns[t'].leader, t'));
    UpToDateCarries(h, t, i, h.snapshot[k], ElectedLog(h, t'), t');
  }

  /** A log at least as up to date as one that holds a committed prefix holds it too. */
  lemma UpToDateCarries(h: Hist, t: nat, i: nat, s: Log, e: Log, t': nat)
    requires HistOk(h) && Committed(h, t, i)
    requires Anchored(h.reigns, s) && Anchored(h.reigns, e) && TermsBelow(e, t')
    requires UpToDate(s, |e|, LastTerm(e)) && Prefix(h, t, i) <= s
    ensures Prefix(h, t, i) <= e
    decreases t', 0
  {
    assert s[i - 1] == Prefix(h, t, i)[i - 1];
    TermsAscend(h, s, i - 1, |s| - 1);
    assert ReignOk(h, t) && 1 <= t;
    var t0 := LastTerm(e);
    assert e != [];
    if t0 == LastTerm(s) {
      assert AnchoredAt(h.reigns, s, |s| - 1) && AnchoredAt(h.reigns, e, |e| - 1);
      assert s == s[..|s|] == h.reigns[t0].log[..|s|];
      assert e == e[..|e|] == h.reigns[t0].log[..|e|];
    } else {
      assert AnchoredAt(h.reigns, e, |e| - 1);
      LeaderCompleteness(h, t, i, t0);
      ElectedLogIsShorter(h, e);
    }
  }

  /** A log ending in an entry of term t contains all the leader of t was elected with. */
  lemma ElectedLogIsShorter(h: Hist, e: Log)
    requires HistOk(h) && Anchored(h.reigns, e) && e != []
    ensures ElectedLog(h, LastTerm(e)) <= e
  {
    var t := LastTerm(e);
    assert AnchoredAt(h.reigns, e, |e| - 1);
    assert ReignOk(h, t);
    var k := At(h.reigns[t].leader, t);
    assert SnapshotOk(h, k);
    var s, g := h.snapshot[k], h.reigns[t].log;
    assert e == e[..|e|] == g[..|e|];
    if |e| <= |s| {
      assert false;
    }
  }

  /** What is committed up to some term is in the log of that term and of every later one. */
  lemma CommittedInLater(h: Hist, p: Log, t: nat, t': nat)
    requires HistOk(h) && CommitOk(h, p, t) && t <= t' && t' in h.reigns
    ensures p <= h.reigns[t'].log
  {
    if p != [] {
      var t0: nat, i: nat :| t0 <= t && Committed(h, t0, i) && p <= Prefix(h, t0, i);
      if t0 < t' {
        LeaderCompleteness(h, t0, i, t');
        assert ReignOk(h, t');
      }
    }
  }

  /** Any two committed prefixes agree as far as both reach. */
  lemma CommittedAgree(h: Hist, p: Log, t: nat, p': Log, t': nat)
    requires HistOk(h) && CommitOk(h, p, t) && CommitOk(h, p', t')
    ensures p <= p' || p' <= p
  {
    if p != [] && p' != [] {
      var t0: nat, i: nat :| t0 <= t && Committed(h, t0, i) && p <= Prefix(h, t0, i);
      var t1: nat, j: nat :| t1 <= t' && Committed(h, t1, j) && p' <= Prefix(h, t1, j);
      var m := if t0 <= t1 then t1 else t0;
      assert CommitOk(h, p, t0) && CommitOk(h, p', t1);
      CommittedInLater(h, p, t0, m);
      CommittedInLater(h, p', t1, m);
      assert p == h.reigns[m].log[..|p|] && p' == h.reigns[m].log[..|p'|];
    }
  }
}
