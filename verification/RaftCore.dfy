/**
 One Raft node as a value: the state of components/raft/raft and the function every message,
 timeout and proposal computes on it. The log is given by its meaning, one sequence of entries;
 `stable` and `disk` record how much of it storage holds.

 A Go panic is the outcome `Panic`, so that its unreachability can be stated.
 */
module RaftCore {
  import opened Basics

  datatype Outcome<+T> = Panic | Ok(value: T) {
    predicate IsFailure() { Panic? }
    function PropagateFailure<U>(): Outcome<U> requires Panic? { Panic }
    function Extract(): T requires Ok? { value }
  }

  /** The id and term zero mean "none". */
  const NONE: nat := 0

  type Pos = x: nat | 1 <= x witness 1

  datatype EntryType = Normal | ConfChange

  datatype Entry = Entry(term: nat, index: nat, typ: EntryType, data: seq<bv8>)

  const EMPTY_ENTRY := Entry(0, 0, Normal, [])

  type Log = seq<Entry>

  datatype Message =
    | Hup
    | Beat
    | Prop(from: nat, to: nat, entries: seq<Entry>)
    | App(from: nat, to: nat, term: nat, logTerm: nat, logIndex: nat, entries: seq<Entry>, commit: nat)
    | AppResp(from: nat, to: nat, term: nat, logIndex: nat, reject: bool, rejectHint: nat)
    | Vote(from: nat, to: nat, term: nat, logTerm: nat, logIndex: nat)
    | VoteResp(from: nat, to: nat, term: nat, reject: bool)
    | Heartbeat(from: nat, to: nat, term: nat, commit: nat)
    | HeartbeatResp(from: nat, to: nat, term: nat)
    | PreVote(from: nat, to: nat, term: nat, logTerm: nat, logIndex: nat)
    | PreVoteResp(from: nat, to: nat, term: nat, reject: bool)

  /** The term a message carries; proposals and local messages carry none. */
  function TermOf(m: Message): nat {
    if m.Hup? || m.Beat? || m.Prop? then 0 else m.term
  }

  datatype Role = Follower | Candidate | Leader | PreCandidate

  datatype Progress = Progress(matched: nat, next: Pos)

  // ---------------------------------------------------------------- the log

  /** `stable` entries of `log` are read from `disk`; the rest is the unstable tail. */
  datatype LogView = LogView(log: Log, stable: nat, disk: Log, commit: nat, applied: nat)

  function Min(a: nat, b: nat): nat { if a <= b then a else b }

  /** The term of entry i, and 0 outside the log. */
  function TermAt(l: Log, i: nat): nat {
    if 1 <= i <= |l| then l[i - 1].term else 0
  }

  function LastTerm(l: Log): nat { TermAt(l, |l|) }

  /** A log ending in (index, term) is at least as up to date as l. */
  predicate UpToDate(l: Log, index: nat, term: nat) {
    term > LastTerm(l) || (term == LastTerm(l) && index >= |l|)
  }

  /** The index of the first entry that l does not hold, or 0. */
  function FindConflict(l: Log, es: seq<Entry>): nat {
    if es == [] then 0
    else if TermAt(l, es[0].index) == es[0].term then FindConflict(l, es[1..])
    else es[0].index
  }

  /** The entries es replace everything from their first index on. */
  function Append(v: LogView, es: seq<Entry>): Outcome<LogView> {
    if es == [] then Ok(v)
    else
      var first := es[0].index;
      if first == 0 || first - 1 < v.commit || first > |v.log| + 1 then Panic
      else Ok(v.(log := v.log[..first - 1] + es, stable := Min(v.stable, first - 1)))
  }

  function CommitTo(v: LogView, c: nat): Outcome<LogView> {
    if v.commit >= c then Ok(v)
    else if |v.log| < c then Panic
    else Ok(v.(commit := c))
  }

  function AppliedTo(v: LogView, i: nat): Outcome<LogView> {
    if i == 0 then Ok(v)
    else if v.commit < i || i < v.applied then Panic
    else Ok(v.(applied := i))
  }

  /** The log part of an append: None when the previous entry does not match. */
  function MaybeAppend(v: LogView, logIndex: nat, logTerm: nat, commit: nat, es: seq<Entry>): Outcome<Option<LogView>> {
    if TermAt(v.log, logIndex) != logTerm then Ok(None)
    else
      var k := FindConflict(v.log, es);
      var v1 :- if k == 0 then Ok(v)
                else if k <= v.commit || k <= logIndex || k - logIndex - 1 > |es| then Panic
                else Append(v, es[k - logIndex - 1..]);
      var v2 :- CommitTo(v1, Min(commit, logIndex + |es|));
      Ok(Some(v2))
  }

  /** Storage keeps what lies below the first entry of es and appends es. */
  function StorageAppend(v: LogView, es: seq<Entry>): Outcome<LogView> {
    if es == [] then Ok(v)
    else if es[0].index == 0 || es[0].index > |v.disk| + 1 then Panic
    else Ok(v.(disk := Persisted(v, es)))
  }

  /** What storage then holds. */
  function Persisted(v: LogView, es: seq<Entry>): Log
    requires es != [] && 1 <= es[0].index <= |v.disk| + 1
  {
    v.disk[..es[0].index - 1] + es
  }

  /** Entry i of term t is on disk: the tail starts after it, if it still is in the tail. */
  function StableTo(v: LogView, i: nat, t: nat): LogView {
    if v.stable < i <= |v.log| && TermAt(v.log, i) == t then v.(stable := i) else v
  }

  // ---------------------------------------------------------------- progress of a peer

  function MaybeUpdate(pr: Progress, n: nat): Progress {
    Progress(if pr.matched < n then n else pr.matched, if pr.next < n + 1 then n + 1 else pr.next)
  }

  /** The probe index after a rejection, or None when the rejection is stale. */
  function MayDecreaseTo(pr: Progress, logIndex: nat, rejectHint: nat): Option<Progress> {
    if pr.next - 1 != logIndex then None
    else
      var n := Min(logIndex, rejectHint + 1);
      Some(pr.(next := if n < 1 then 1 else n))
  }

  // ---------------------------------------------------------------- a node

  datatype RaftState = RaftState(
    id: nat, term: nat, vote: nat, role: Role, lead: nat, log: LogView,
    prs: map<nat, Progress>, votes: map<nat, bool>, msgs: set<Message>,
    preVote: bool, checkQuorum: bool, pendingConf: bool)

  function Quorum<T>(s: set<T>): nat { |s| / 2 + 1 }

  function Send(n: RaftState, ms: set<Message>): RaftState { n.(msgs := n.msgs + ms) }

  function Reset(n: RaftState, term: nat): RaftState {
    n.(term := term, vote := if n.term != term then NONE else n.vote, lead := NONE,
       votes := map[], pendingConf := false)
  }

  function BecomeFollower(n: RaftState, term: nat, lead: nat): RaftState {
    Reset(n, term).(role := Follower, lead := lead)
  }

  function BecomePreCandidate(n: RaftState): Outcome<RaftState> {
    if n.role.Leader? then Panic else Ok(n.(votes := map[], role := PreCandidate))
  }

  function BecomeCandidate(n: RaftState): Outcome<RaftState> {
    if n.role.Leader? then Panic else Ok(Reset(n, n.term + 1).(vote := n.id, role := Candidate))
  }

  // ---------------------------------------------------------------- commitment

  /** The peers known to hold at least k entries. */
  function Holders(prs: map<nat, Progress>, k: nat): set<nat> {
    set j | j in prs && prs[j].matched >= k
  }

  /** k is the largest index that a quorum of peers holds. */
  ghost predicate IsQuorumIndex(prs: map<nat, Progress>, k: nat) {
    |Holders(prs, k)| >= Quorum(prs.Keys) && |Holders(prs, k + 1)| < Quorum(prs.Keys)
  }

  lemma MatchesAreBounded(prs: map<nat, Progress>, ids: set<nat>) returns (b: nat)
    requires ids <= prs.Keys
    ensures forall j :: j in ids ==> prs[j].matched < b
  {
    if ids == {} { return 0; }
    var j :| j in ids;
    var b' := MatchesAreBounded(prs, ids - {j});
    b := if prs[j].matched < b' then b' else prs[j].matched + 1;
  }

  lemma QuorumIndexBelow(prs: map<nat, Progress>, b: nat) returns (k: nat)
    requires prs != map[]
    requires |Holders(prs, b)| < Quorum(prs.Keys)
    ensures IsQuorumIndex(prs, k)
    decreases b
  {
    assert Holders(prs, 0) == prs.Keys && |prs.Keys| == |prs|;
    if b == 0 {
      assert false;
    } else if |Holders(prs, b - 1)| >= Quorum(prs.Keys) {
      k := b - 1;
    } else {
      k := QuorumIndexBelow(prs, b - 1);
    }
  }

  lemma QuorumIndexExists(prs: map<nat, Progress>)
    requires prs != map[]
    ensures exists k: nat :: IsQuorumIndex(prs, k)
  {
    var b := MatchesAreBounded(prs, prs.Keys);
    assert Holders(prs, b) == {};
    var k := QuorumIndexBelow(prs, b);
  }

  /** IsQuorumIndex determines the index: holders shrink as k grows. */
  lemma QuorumIndexUnique(prs: map<nat, Progress>, k: nat, k': nat)
    requires IsQuorumIndex(prs, k) && IsQuorumIndex(prs, k')
    ensures k == k'
  {
    if k < k' {
      HoldersShrink(prs, k + 1, k');
    } else if k' < k {
      HoldersShrink(prs, k' + 1, k);
    }
  }

  lemma HoldersShrink(prs: map<nat, Progress>, k: nat, k': nat)
    requires k <= k'
    ensures |Holders(prs, k')| <= |Holders(prs, k)|
  {
    SubsetCard(Holders(prs, k'), Holders(prs, k));
  }

  lemma SubsetCard<T>(a: set<T>, b: set<T>)
    requires a <= b
    ensures |a| <= |b|
  {
    assert b == a + (b - a);
  }

  ghost function QuorumIndex(prs: map<nat, Progress>): (k: nat)
    requires prs != map[]
    ensures IsQuorumIndex(prs, k)
  {
    QuorumIndexExists(prs);
    var k: nat :| IsQuorumIndex(prs, k);
    k
  }

  /** The leader commits what a quorum holds, but only through an entry of its own term. */
  ghost function MaybeCommit(n: RaftState): Outcome<RaftState> {
    if n.prs == map[] then Panic
    else
      var k := QuorumIndex(n.prs);
      if k > n.log.commit && TermAt(n.log.log, k) == n.term then
        var v :- CommitTo(n.log, k);
        Ok(n.(log := v))
      else Ok(n)
  }

  // ---------------------------------------------------------------- the leader

  /** Entries stamped with a term and the indexes after `last`. */
  function Stamp(es: seq<Entry>, term: nat, last: nat): (r: seq<Entry>)
    ensures |r| == |es|
    ensures forall i :: 0 <= i < |r| ==> r[i] == es[i].(term := term, index := last + i + 1)
  {
    seq(|es|, i requires 0 <= i < |es| => es[i].(term := term, index := last + i + 1))
  }

  ghost function AppendEntry(n: RaftState, es: seq<Entry>): Outcome<RaftState> {
    var last := |n.log.log|;
    var v :- Append(n.log, Stamp(es, n.term, last));
    if n.id !in n.prs then Panic
    else MaybeCommit(n.(log := v, prs := n.prs[n.id := MaybeUpdate(n.prs[n.id], |v.log|)]))
  }

  /** A leader before its first entry: only the other peers' progress starts anew. */
  function FreshLeader(n: RaftState): RaftState {
    Reset(n, n.term).(lead := n.id, role := Leader,
                      prs := map j | j in n.prs :: if j == n.id then n.prs[j] else Progress(0, |n.log.log| + 1))
  }

  ghost function BecomeLeader(n: RaftState): Outcome<RaftState> {
    if n.role.Follower? then Panic else AppendEntry(FreshLeader(n), [EMPTY_ENTRY])
  }

  function AppendMsg(n: RaftState, to: nat): Message
    requires to in n.prs
  {
    var i := n.prs[to].next - 1;
    App(n.id, to, n.term, TermAt(n.log.log, i), i, if i < |n.log.log| then n.log.log[i..] else [], n.log.commit)
  }

  function HeartbeatMsg(n: RaftState, to: nat): Message
    requires to in n.prs
  {
    Heartbeat(n.id, to, n.term, Min(n.log.commit, n.prs[to].matched))
  }

  function BroadcastAppend(n: RaftState): RaftState {
    Send(n, set j | j in n.prs && j != n.id :: AppendMsg(n, j))
  }

  function BroadcastHeartbeat(n: RaftState): RaftState {
    Send(n, set j | j in n.prs && j != n.id :: HeartbeatMsg(n, j))
  }

  /** Only one configuration change may be pending; further ones become empty entries. */
  function FilterConf(es: seq<Entry>, pending: bool): (seq<Entry>, bool) {
    if es == [] then ([], pending)
    else
      var e := if es[0].typ.ConfChange? && pending then EMPTY_ENTRY else es[0];
      var (rest, p) := FilterConf(es[1..], pending || es[0].typ.ConfChange?);
      ([e] + rest, p)
  }

  ghost function Propose(n: RaftState, es: seq<Entry>): Outcome<RaftState> {
    if es == [] then Panic
    else if n.id !in n.prs then Ok(n)
    else
      var (fs, p) := FilterConf(es, n.pendingConf);
      var n1 :- AppendEntry(n.(pendingConf := p), fs);
      Ok(BroadcastAppend(n1))
  }

  ghost function HandleAppResp(n: RaftState, m: Message): Outcome<RaftState>
    requires m.AppResp?
  {
    if m.from !in n.prs then Ok(n)
    else if m.reject then
      match MayDecreaseTo(n.prs[m.from], m.logIndex, m.rejectHint)
      case None => Ok(n)
      case Some(pr) =>
        var n1 := n.(prs := n.prs[m.from := pr]);
        Ok(Send(n1, {AppendMsg(n1, m.from)}))
    else
      var n1 := n.(prs := n.prs[m.from := MaybeUpdate(n.prs[m.from], m.logIndex)]);
      if n.prs[m.from].matched < m.logIndex then
        var n2 :- MaybeCommit(n1);
        Ok(if n2.log.commit != n1.log.commit then BroadcastAppend(n2) else n2)
      else Ok(n1)
  }

  ghost function StepLeader(n: RaftState, m: Message): Outcome<RaftState> {
    match m
    case Beat => Ok(BroadcastHeartbeat(n))
    case Prop(_, _, es) => Propose(n, es)
    case AppResp(_, _, _, _, _, _) => HandleAppResp(n, m)
    case _ => Ok(n)
  }

  // ---------------------------------------------------------------- followers

  function HandleApp(n: RaftState, m: Message): Outcome<RaftState>
    requires m.App?
  {
    var r :- MaybeAppend(n.log, m.logIndex, m.logTerm, m.commit, m.entries);
    match r
    case Some(v) =>
      Ok(Send(n.(log := v), {AppResp(n.id, m.from, n.term, m.logIndex + |m.entries|, false, 0)}))
    case None =>
      Ok(Send(n, {AppResp(n.id, m.from, n.term, m.logIndex, true, |n.log.log|)}))
  }

  function HandleHeartbeat(n: RaftState, m: Message): Outcome<RaftState>
    requires m.Heartbeat?
  {
    var v :- CommitTo(n.log, Min(m.commit, |n.log.log|));
    Ok(Send(n.(log := v), {HeartbeatResp(n.id, m.from, n.term)}))
  }

  function StepFollower(n: RaftState, m: Message): Outcome<RaftState> {
    match m
    case Prop(from, _, es) => Ok(if n.lead == NONE then n else Send(n, {Prop(from, n.lead, es)}))
    case App(from, _, _, _, _, _, _) => HandleApp(n.(lead := from), m)
    case Heartbeat(from, _, _, _) => HandleHeartbeat(n.(lead := from), m)
    case _ => Ok(n)
  }

  // ---------------------------------------------------------------- elections

  function Granted(votes: map<nat, bool>): set<nat> { set j | j in votes && votes[j] }

  function RecordVote(n: RaftState, from: nat, granted: bool): RaftState {
    if from in n.votes then n else n.(votes := n.votes[from := granted])
  }

  /** Election: a new term, the own vote, and requests for the others'. */
  ghost function Campaign(n: RaftState): Outcome<RaftState> {
    var n1 :- BecomeCandidate(n);
    var n2 := RecordVote(n1, n.id, true);
    if Quorum(n2.prs.Keys) == |Granted(n2.votes)| then BecomeLeader(n2)
    else Ok(Send(n2, set j | j in n2.prs && j != n2.id ::
                       Vote(n2.id, j, n2.term, LastTerm(n2.log.log), |n2.log.log|)))
  }

  ghost function PreCampaign(n: RaftState): Outcome<RaftState> {
    var n1 :- BecomePreCandidate(n);
    var n2 := RecordVote(n1, n.id, true);
    if Quorum(n2.prs.Keys) == |Granted(n2.votes)| then Campaign(n2)
    else Ok(Send(n2, set j | j in n2.prs && j != n2.id ::
                       PreVote(n2.id, j, n2.term, LastTerm(n2.log.log), |n2.log.log|)))
  }

  ghost function HandleVoteResp(n: RaftState, m: Message): Outcome<RaftState>
    requires m.VoteResp? || m.PreVoteResp?
  {
    var n1 := RecordVote(n, m.from, !m.reject);
    var q := Quorum(n1.prs.Keys);
    if q == |Granted(n1.votes)| then
      if n1.role.PreCandidate? then Campaign(n1)
      else
        var n2 :- BecomeLeader(n1);
        Ok(BroadcastAppend(n2))
    else if q == |n1.votes| - |Granted(n1.votes)| then Ok(BecomeFollower(n1, n1.term, NONE))
    else Ok(n1)
  }

  ghost function StepCandidate(n: RaftState, m: Message): Outcome<RaftState> {
    match m
    case App(from, _, _, _, _, _, _) => HandleApp(BecomeFollower(n, n.term, from), m)
    case Heartbeat(from, _, term, _) => HandleHeartbeat(BecomeFollower(n, term, from), m)
    case VoteResp(_, _, _, _) => if n.role.PreCandidate? then Ok(n) else HandleVoteResp(n, m)
    case PreVoteResp(_, _, _, _) => if n.role.PreCandidate? then HandleVoteResp(n, m) else Ok(n)
    case _ => Ok(n)
  }

  predicate CanGrant(n: RaftState, from: nat, term: nat, logTerm: nat, logIndex: nat) {
    UpToDate(n.log.log, logIndex, logTerm) && (n.vote == NONE || term > n.term || from == n.vote)
  }

  function HandleVote(n: RaftState, m: Message): RaftState
    requires m.Vote?
  {
    if CanGrant(n, m.from, m.term, m.logTerm, m.logIndex) then
      Send(n.(vote := m.from), {VoteResp(n.id, m.from, n.term, false)})
    else
      Send(n, {VoteResp(n.id, m.from, n.term, true)})
  }

  function HandlePreVote(n: RaftState, m: Message): RaftState
    requires m.PreVote?
  {
    Send(n, {PreVoteResp(n.id, m.from, n.term, !CanGrant(n, m.from, m.term, m.logTerm, m.logIndex))})
  }

  predicate NoPendingConf(es: seq<Entry>) {
    forall e :: e in es ==> !e.typ.ConfChange?
  }

  ghost function HandleHup(n: RaftState): Outcome<RaftState> {
    if n.role.Leader? || n.id !in n.prs then Ok(n)
    else if n.log.applied > n.log.commit || n.log.commit > |n.log.log| then Panic
    else if !NoPendingConf(n.log.log[n.log.applied..n.log.commit]) then Ok(n)
    else if n.preVote then PreCampaign(n)
    else Campaign(n)
  }

  // ---------------------------------------------------------------- one message

  ghost function Dispatch(n: RaftState, m: Message): Outcome<RaftState> {
    match m
    case Hup => HandleHup(n)
    case Vote(_, _, _, _, _) => Ok(HandleVote(n, m))
    case PreVote(_, _, _, _, _) => Ok(HandlePreVote(n, m))
    case _ =>
      match n.role
      case Leader => StepLeader(n, m)
      case Follower => StepFollower(n, m)
      case _ => StepCandidate(n, m)
  }

  /** A message of a later term makes the node a follower in it, pre-votes and their grants excepted. */
  predicate AdoptsTerm(n: RaftState, m: Message) {
    TermOf(m) > n.term && !m.PreVote? && !(m.PreVoteResp? && !m.reject)
  }

  ghost function Step(n: RaftState, m: Message): Outcome<RaftState> {
    if TermOf(m) != 0 && TermOf(m) < n.term then
      Ok(if n.checkQuorum && (m.Heartbeat? || m.App?)
         then Send(n, {AppResp(n.id, m.from, n.term, 0, false, 0)}) else n)
    else if AdoptsTerm(n, m) then
      Dispatch(BecomeFollower(n, m.term, if m.Vote? then NONE else m.from), m)
    else Dispatch(n, m)
  }

  // ---------------------------------------------------------------- the Ready loop

  datatype SoftState = SoftState(lead: nat, role: Role)
  datatype HardState = HardState(term: nat, vote: nat, commit: nat)

  const EMPTY_HARD := HardState(0, 0, 0)

  datatype Ready = Ready(soft: Option<SoftState>, hard: HardState, entries: seq<Entry>,
                         committed: seq<Entry>, messages: set<Message>)
  {
    predicate ContainsUpdates() {
      soft.Some? || hard != EMPTY_HARD || entries != [] || committed != [] || messages != {}
    }
  }

  function Soft(n: RaftState): SoftState { SoftState(n.lead, n.role) }
  function Hard(n: RaftState): HardState { HardState(n.term, n.vote, n.log.commit) }

  /** The committed entries not yet applied. */
  function NextEntries(v: LogView): Outcome<seq<Entry>> {
    if v.commit <= v.applied then Ok([])
    else if v.commit > |v.log| then Panic
    else Ok(v.log[v.applied..v.commit])
  }

  function UnstableEntries(v: LogView): seq<Entry> {
    if v.stable <= |v.log| then v.log[v.stable..] else []
  }

  /**
   A node with the variables of its event loop. `pending` is the Ready handed out and not yet
   acknowledged; `delivered` collects the committed entries of all acknowledged ones.
   */
  datatype Peer = Peer(raft: RaftState, prevSoft: SoftState, prevHard: HardState,
                       pending: Option<Ready>, delivered: seq<Entry>)

  function NewReady(p: Peer): Outcome<Ready> {
    var committed :- NextEntries(p.raft.log);
    Ok(Ready(if Soft(p.raft) == p.prevSoft then None else Some(Soft(p.raft)),
             if Hard(p.raft) == p.prevHard then EMPTY_HARD else Hard(p.raft),
             UnstableEntries(p.raft.log), committed, p.raft.msgs))
  }

  /** The application takes a Ready: its messages leave the node. */
  function TakeReady(p: Peer, rd: Ready): Peer {
    p.(raft := p.raft.(msgs := {}),
       prevSoft := if rd.soft.Some? then rd.soft.value else p.prevSoft,
       prevHard := if rd.hard != EMPTY_HARD then rd.hard else p.prevHard,
       pending := Some(rd))
  }

  /** The application acknowledges it: entries are applied and persisted. */
  function Advance(p: Peer): Outcome<Peer>
    requires p.pending.Some?
  {
    var rd := p.pending.value;
    var v :- AppliedTo(p.raft.log, p.prevHard.commit);
    var w :- StorageAppend(v, rd.entries);
    var x := if rd.entries == [] then w
             else StableTo(w, rd.entries[|rd.entries| - 1].index, rd.entries[|rd.entries| - 1].term);
    Ok(p.(raft := p.raft.(log := x), pending := None, delivered := p.delivered + rd.committed))
  }
}
