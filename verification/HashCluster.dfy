/**
 Nodes join and leave the ring with several virtual nodes each, and the recorded data keys follow their
 owners.
 */
module HashCluster {
  import opened Basics
  import opened HashNames
  import opened HashCircle
  import opened HashOwners
  import opened HashLeaving
  import opened HashMembers
  import opened HashRemoval
  import opened HashSkiplist
  import opened HashTasks

  /** The weight nearest to the given one between 1 and 10. */
  function ValidWeight(weight: int): (w: nat)
    ensures 1 <= w <= 10 && (w < weight ==> w == 10) && (w > weight ==> w == 1)
  {
    if weight <= 0 then 1 else if weight >= 10 then 10 else weight
  }

  // ---------------------------------------------------------------- the cluster

  class ConsistentHash {
    const ring: SkiplistHashRing
    const h: Hash
    const replicas: nat
    ghost var placed: set<string>

    /** The ring holds exactly the names of the nodes. */
    ghost predicate Settled()
      reads this, ring, ring.nodes, ring.root
    {
      && ring.Valid() && replicas > 0
      && RingOk(ring.ring, h, placed) && NamesAre(ring.nodeToReplicas, placed)
      && (forall id :: id in ring.nodeToReplicas ==> ring.nodeToReplicas[id] > 0)
    }

    /** Moreover, every recorded key is with its owner. */
    ghost predicate Valid()
      reads this, ring, ring.nodes, ring.root
    {
      Settled() && Owned(ring.ring, h, ring.nodeToDataKey)
    }

    ghost function Now(): Placement
      reads ring
    {
      Placement(ring.ring, ring.nodeToDataKey)
    }

    constructor (h: Hash, replicas: int)
      ensures Valid() && ring.nodeToReplicas == map[] && ring.nodeToDataKey == map[] && ring.ring == map[]
      ensures this.h == h && this.replicas == if replicas <= 0 then 5 else replicas
      ensures fresh(ring) && fresh(ring.root) && fresh(ring.nodes)
    {
      ring := new SkiplistHashRing();
      this.h := h;
      this.replicas := if replicas <= 0 then 5 else replicas;
      placed := {};
    }

    /** The owner of a data key, who is recorded with it; none if the ring is empty. */
    method GetNode(dataKey: string) returns (node: Option<string>)
      requires Valid()
      modifies ring`nodeToDataKey
      ensures Valid()
      ensures node == if ring.ring == map[] then None else Some(Owner(ring.ring, h(dataKey)))
      ensures forall d, x :: Recorded(ring.nodeToDataKey, d, x)
                             <==> Recorded(old(ring.nodeToDataKey), d, x) || (d == dataKey && node == Some(x))
    {
      hide SkiplistHashRing.Valid, NamesAre, Owner;
      var score := ring.Ceiling(h(dataKey));
      if score == -1 { return None; }
      var names, ok := ring.Node(score);
      assert ListOk(ring.ring, h, placed, score);
      OwnerIs(ring.ring, h(dataKey), score);
      var id := NodeId(names[0]);
      RecordOwned(ring.ring, h, ring.nodeToDataKey, dataKey, id);
      hide Owned, RingOk, Recorded;
      ring.AddNodeToDataKeys(id, {dataKey});
      return Some(id);
    }

    // -------------------------------------------------------------- joining

    /** The loop that picks the keys a new virtual node takes over. */
    method PickIncoming(keys: set<string>, last: Score, v: Score, next: Score) returns (picked: set<string>)
      ensures picked == Incoming(h, keys, last, v, next)
    {
      hide TakenOver;
      picked := {};
      var left := keys;
      while left != {}
        invariant left <= keys && picked == Incoming(h, keys - left, last, v, next)
        decreases |left|
      {
        var d :| d in left;
        if TakenOver(last, v, next, h(d)) { picked := picked + {d}; }
        left := left - {d};
      }
      assert keys - left == keys;
    }

    /** Takes over the keys of a virtual node that has just been added. */
    method MigrateIn(raw: string, ghost before: Ring) returns (task: Task)
      requires ring.Valid() && RingOk(before, h, placed) && Owned(before, h, ring.nodeToDataKey)
      requires raw !in placed && ring.ring == AddTo(before, h(raw), raw)
      modifies ring`nodeToDataKey
      ensures ring.Valid() && Owned(ring.ring, h, ring.nodeToDataKey)
      ensures SameKeys(old(ring.nodeToDataKey), ring.nodeToDataKey)
      ensures forall d, x :: Recorded(ring.nodeToDataKey, d, x) <==>
                if d in task.keys then x == NodeId(raw) else Recorded(old(ring.nodeToDataKey), d, x)
      ensures forall d :: d in task.keys ==> Recorded(old(ring.nodeToDataKey), d, task.from) && task.to == NodeId(raw)
      ensures forall d :: d in task.keys <==> TakesKey(before, h, old(ring.nodeToDataKey), raw, d)
      ensures task.keys != {} ==> before != map[] && task.from == Owner(before, h(raw))
    {
      hide SkiplistHashRing.Valid, Owned, RingOk, IsFloor, IsCeil, IsLast, SameKeys, Incoming, NodeId, Recorded, KeysOf,
           AddTo, Move, TakesKey, Owner;
      var v := h(raw);
      task := Task({}, "", "");
      var names, _ := ring.Node(v);
      JoinOrNew(before, h, placed, raw);
      TakesNone(before, h, ring.nodeToDataKey, raw);
      SameKeysItself(ring.nodeToDataKey);
      if |names| > 1 {
        JoinScore(before, h, placed, ring.nodeToDataKey, raw);
        return;
      }
      var last := ring.Floor(Decr(v));
      FloorBefore(ring.ring.Keys, v, last);
      if last == -1 || last == v {
        FirstScore(before, h, ring.nodeToDataKey, raw);
        return;
      }
      var next := ring.Ceiling(Incr(v));
      CeilAfter(ring.ring.Keys, v, next);
      if next == -1 || next == v { return; }
      NewScore(before, h, placed, ring.nodeToDataKey, raw, last, next);
      var nextNames, _ := ring.Node(next);
      if |nextNames| == 0 { return; }
      var from, to := NodeId(nextNames[0]), NodeId(raw);
      IncomingIs(before, h, placed, ring.nodeToDataKey, raw, last, next);
      Moved(before, h, ring.nodeToDataKey, Incoming(h, KeysOf(ring.nodeToDataKey, from), last, v, next), from, to);
      var picked := TakeKeys(from, to, last, v, next);
      task := Task(picked, from, to);
    }

    /** The keys that a new score takes over are recorded with its node. */
    method TakeKeys(from: string, to: string, last: Score, v: Score, next: Score) returns (picked: set<string>)
      modifies ring`nodeToDataKey
      ensures picked == Incoming(h, KeysOf(old(ring.nodeToDataKey), from), last, v, next)
      ensures ring.nodeToDataKey == Move(old(ring.nodeToDataKey), picked, from, to)
    {
      hide Incoming, KeysOf, Record, Forget, Recorded;
      var keys := ring.DataKeys(from);
      picked := PickIncoming(keys, last, v, next);
      ring.DeleteNodeToDataKeys(from, picked);
      ring.AddNodeToDataKeys(to, picked);
    }

    /** Where a node that joins stands when i of its names are on the ring that started as s. */
    ghost predicate Coming(n: map<string, nat>, p: set<string>, s: Placement, id: string, count: nat, i: nat)
      reads this, ring, ring.nodes, ring.root
    {
      && id !in n && NamesAre(n, p) && i <= count
      && placed == p + Upto(id, i) && ring.nodeToReplicas == n[id := count]
      && ring.Valid() && ring.ring == Joined(s.ring, h, id, i) && RingOk(ring.ring, h, placed)
      && Owned(ring.ring, h, ring.nodeToDataKey) && SameKeys(s.data, ring.nodeToDataKey)
    }

    /** One virtual node of a joining node takes its place. */
    method JoinOne(id: string, i: nat, height: nat, ghost n: map<string, nat>, ghost p: set<string>, ghost s: Placement,
                   ghost count: nat)
      returns (task: Task)
      requires Coming(n, p, s, id, count, i) && i < count && 1 <= height
      modifies this`placed, ring`nodes, ring`ring, ring`nodeToDataKey, ring.nodes, ring.root`nexts
      ensures Coming(n, p, s, id, count, i + 1) && fresh(ring.nodes - old(ring.nodes))
      ensures forall d, x :: Recorded(ring.nodeToDataKey, d, x) <==>
                if d in task.keys then x == id else Recorded(old(ring.nodeToDataKey), d, x)
      ensures forall d :: d in task.keys ==> Recorded(old(ring.nodeToDataKey), d, task.from) && task.to == id
      ensures forall d :: d in task.keys <==> TakesKey(old(ring.ring), h, old(ring.nodeToDataKey), RawKey(id, i), d)
      ensures task.keys != {} ==> old(ring.ring) != map[] && task.from == Owner(old(ring.ring), h(RawKey(id, i)))
    {
      hide SkiplistHashRing.Valid, Owned, RingOk, NamesAre, SameKeys, AddTo, Upto, NodeId, RawKey, Recorded, TakesKey, Owner;
      var raw := RawKey(id, i);
      NodeIdOfRaw(id, i);
      NewName(n, p, id, i);
      UptoMore(id, i);
      ghost var before, data := ring.ring, ring.nodeToDataKey;
      AddToOk(before, h, placed, raw);
      ring.Add(h(raw), raw, height);
      task := MigrateIn(raw, before);
      SameKeysTrans(s.data, data, ring.nodeToDataKey);
      placed := placed + {raw};
    }

    /** A new node takes its places on the ring one by one; heights are whatever is drawn for new scores. */
    method AddNode(nodeID: string, weight: int, heights: nat -> nat) returns (ok: bool, tasks: seq<Task>)
      requires Valid() && forall i :: heights(i) >= 1
      modifies this`placed, ring, ring.nodes, ring.root`nexts
      ensures Valid() && fresh(ring.nodes - old(ring.nodes))
      ensures ok <==> nodeID !in old(ring.nodeToReplicas)
      ensures ring.nodeToReplicas ==
              if ok then old(ring.nodeToReplicas)[nodeID := ValidWeight(weight) * replicas] else old(ring.nodeToReplicas)
      ensures ring.ring ==
              if ok then Joined(old(ring.ring), h, nodeID, ValidWeight(weight) * replicas) else old(ring.ring)
      ensures SameKeys(old(ring.nodeToDataKey), ring.nodeToDataKey)
      ensures ToldIn(old(ring.nodeToDataKey), ring.nodeToDataKey, nodeID, tasks)
      ensures ok ==> ((exists i :: 0 <= i < |tasks| && tasks[i].from == nodeID) <==>
                      exists i :: 0 <= i < ValidWeight(weight) * replicas &&
                                  TakesOwn(old(ring.ring), h, old(ring.nodeToDataKey), nodeID, i))
      ensures !ok ==> ring.nodeToDataKey == old(ring.nodeToDataKey) && tasks == []
    {
      hide SkiplistHashRing.Valid, Owned, RingOk, NamesAre, SameKeys, Upto, RawKey, Recorded, ToldIn, TakesOwn, SelfTold,
           TakesKey, Once, Joined, Owner;
      NothingToldIn(ring.nodeToDataKey, nodeID);
      tasks := [];
      SameKeysItself(ring.nodeToDataKey);
      if nodeID in ring.nodeToReplicas { return false, []; }
      ghost var n, p, s := ring.nodeToReplicas, placed, Now();
      var count := ValidWeight(weight) * replicas;
      assert count > 0;
      ring.nodeToReplicas := ring.nodeToReplicas[nodeID := count];
      NamesJoin(n, p, nodeID, count);
      NotYetRecorded(n, p, s.ring, h, s.data, nodeID);
      NoSelf(s.ring, h, s.data, nodeID);
      UptoNone(nodeID);
      JoinedNone(s.ring, h, nodeID);
      assert p + {} == p;
      var i := 0;
      while i < count
        invariant 0 <= i <= count && Coming(n, p, s, nodeID, count, i) && fresh(ring.nodes - old(ring.nodes))
        invariant ToldIn(s.data, ring.nodeToDataKey, nodeID, tasks) && SelfTold(s.ring, h, s.data, nodeID, tasks, i)
      {
        ghost var before, data := ring.ring, ring.nodeToDataKey;
        OwnedOnce(before, h, data);
        var task := JoinOne(nodeID, i, heights(i), n, p, s, count);
        TellIn(s.data, data, ring.nodeToDataKey, nodeID, tasks, task);
        SelfMore(s.ring, h, s.data, data, nodeID, tasks, task, i);
        if task.keys != {} { tasks := tasks + [task]; }
        i := i + 1;
      }
      SelfAtEnd(s.ring, h, s.data, nodeID, tasks, i);
      return true, tasks;
    }

    // -------------------------------------------------------------- leaving

    /** The loop that picks the keys a virtual node gives up; all of them if it has the only score. */
    method PickOutgoing(keys: set<string>, last: int, v: Score, onlyScore: bool) returns (picked: set<string>)
      requires !onlyScore ==> 0 <= last < M
      ensures picked == set d | d in keys && (onlyScore || GivenUp(last, v, h(d)))
    {
      hide GivenUp;
      picked := {};
      var left := keys;
      while left != {}
        invariant left <= keys && picked == set d | d in keys - left && (onlyScore || GivenUp(last, v, h(d)))
        decreases |left|
      {
        var d :| d in left;
        if onlyScore || GivenUp(last, v, h(d)) { picked := picked + {d}; }
        left := left - {d};
      }
      assert keys - left == keys;
    }

    /** One step of the walk: the node it finds, or the score to go on from; "" if all are seen. */
    method NextStep(score: Score, id: string, ranged: set<Score>, ghost v: Score) returns (to: string, more: Option<Score>)
      requires ring.Valid() && RingOk(ring.ring, h, placed) && score in ring.ring
      requires Walking(ring.ring, id, v, score, ranged)
      ensures more.None? ==> to == NextHeir(ring.ring, id, v)
      ensures more.Some? ==> more.value in ring.ring && more.value !in ranged &&
                             (more.value == score ==> ring.ring.Keys == {score})
      ensures more.Some? ==> Walking(ring.ring, id, v, more.value, ranged + {score})
    {
      hide SkiplistHashRing.Valid, RingOk, IsCeil, NodeId, Incr, Passed, NextHeir, Stops, Walking;
      var next := ring.Ceiling(Incr(score));
      if next == -1 { return "", None; }
      WalkStep(ring.ring, h, placed, id, v, score, ranged, next);
      if next in ranged { return "", None; }
      var names, _ := ring.Node(next);
      if NodeId(names[0]) != id { return NodeId(names[0]), None; }
      if |names| > 1 { return NodeId(names[1]), None; }
      return "", Some(next);
    }

    /** The first node met after a score that can take over from the leaving one, "" if there is none. */
    method NextNode(score: Score, id: string, ranged: set<Score>, ghost v: Score) returns (to: string)
      requires ring.Valid() && RingOk(ring.ring, h, placed) && score in ring.ring && ranged <= ring.ring.Keys
      requires score !in ranged || ring.ring.Keys == {score}
      requires Walking(ring.ring, id, v, score, ranged)
      ensures to == NextHeir(ring.ring, id, v)
      decreases ring.ring.Keys - ranged
    {
      hide SkiplistHashRing.Valid, RingOk, NextHeir, Walking;
      var more;
      to, more := NextStep(score, id, ranged, v);
      if more.Some? {
        assert ring.ring.Keys - (ranged + {score}) == ring.ring.Keys - ranged - {score};
        to := NextNode(more.value, id, ranged + {score}, v);
      }
    }

    /**
     Hands over the keys of a virtual node that is about to go. With a second name at the score its node takes
     over, which is no failure even if the id is empty; otherwise the walk must find a node.
     */
    method MigrateOut(raw: string, id: string) returns (task: Task, ok: bool)
      requires ring.Valid() && RingOk(ring.ring, h, placed) && raw in placed && NodeId(raw) == id
      modifies ring`nodeToDataKey
      ensures ring.Valid() && h(raw) in ring.ring && ring.ring[h(raw)] != []
      ensures ok <==> !Blocked(old(Now()), h, id, raw)
      ensures ring.nodeToDataKey ==
              if ok then Handed(ring.ring, h, old(ring.nodeToDataKey), id, raw) else old(ring.nodeToDataKey)
      ensures ok ==> TaskIs(ring.ring, h, old(ring.nodeToDataKey), id, raw, task)
    {
      hide SkiplistHashRing.Valid, RingOk, IsCeil, IsFloor, IsLast, GivenUp, NodeId, NextHeir, Outgoing, KeysOf, Stops;
      task := Task({}, "", "");
      var v := h(raw);
      NamePlaced(ring.ring, h, placed, raw);
      NamesPlaced(ring.ring, h, placed, v);
      var names, _ := ring.Node(v);
      if NodeId(names[0]) != id { return task, true; }
      var all := ring.DataKeys(id);
      if all == {} {
        NoKeys(ring.ring, h, ring.nodeToDataKey, id, v);
        return task, true;
      }
      var last := ring.Floor(Decr(v));
      FloorBefore(ring.ring.Keys, v, last);
      var onlyScore := last == -1 || last == v;
      if onlyScore && |names| == 1 {
        Alone(ring.ring, id, v);
        return task, false;
      }
      var picked := PickOutgoing(all, last, v, onlyScore);
      PickedIs(ring.ring, h, ring.nodeToDataKey, id, v, last, onlyScore, picked);
      var to;
      if |names| > 1 {
        to := NodeId(names[1]);
      } else {
        WalkStarts(ring.ring, id, v);
        to := NextNode(v, id, {}, v);
        if to == "" { return task, false; }
      }
      if to != "" && picked != {} {
        ring.DeleteNodeToDataKeys(id, picked);
        ring.AddNodeToDataKeys(to, picked);
      }
      return Task(picked, id, to), true;
    }

    /** Where a removal that started from s stands when i names are gone. */
    ghost predicate Going(n: map<string, nat>, p: set<string>, s: Placement, a: string, i: nat)
      reads this, ring, ring.nodes, ring.root
    {
      && a in n && i <= n[a] && NamesAre(n, p) && RingOk(s.ring, h, p) && OnWay(s, h, a)
      && placed == p - Upto(a, i) && ring.nodeToReplicas == n - {a}
      && ring.Valid() && RingOk(ring.ring, h, placed) && Now() == After(s, h, a, i)
    }

    /** One virtual node of the leaving node goes; this fails only if its keys have nowhere to go. */
    method LeaveOne(a: string, i: nat, ghost n: map<string, nat>, ghost p: set<string>, ghost s: Placement)
      returns (task: Task, ok: bool)
      requires Going(n, p, s, a, i) && i < n[a]
      modifies this`placed, ring, ring.nodes, ring.root`nexts
      ensures ok <==> !FailsAt(s, h, a, i)
      ensures Going(n, p, s, a, if ok then i + 1 else i)
      ensures ok ==> TakesOut(old(ring.nodeToDataKey), ring.nodeToDataKey, a, RawKey(a, i), task)
      ensures ok && task.keys != {} ==> (!Moves(task, a) <==> TellsNothing(s, h, a, i))
      ensures ok && TellsNothing(s, h, a, i) ==> task.keys != {}
      ensures ok && task.keys != {} && task.to == "" && a != "" ==> task.keys <= Doomed(s.ring, h, s.data, a)
      ensures ring.nodes <= old(ring.nodes)
    {
      hide SkiplistHashRing.Valid, RingOk, NamesAre, Upto, NodeId, RawKey, Recorded, Blocked, Handed, TaskIs, RemoveFrom, OnWay, TakesOut,
           TellsNothing, Doomed;
      var raw := RawKey(a, i);
      ghost var now := Now();
      NextName(n, p, a, i);
      task, ok := MigrateOut(raw, a);
      if !ok { return; }
      LongerName(a, i);
      HandedTakesOut(now.ring, h, now.data, a, raw, task);
      TaskTells(s, n, p, h, a, i, task);
      NamePlaced(ring.ring, h, placed, raw);
      RemoveFromOk(ring.ring, h, placed, raw);
      ok := ring.Rem(h(raw), raw);
      UptoMore(a, i);
      placed := placed - {raw};
    }

    /**
     A node leaves the ring name by name and hands its keys over. The first name whose walk finds no node ends
     this with an error. Otherwise the owners are right again exactly if no key should have gone to the empty id.
     Keys recorded with a node that is named like one of the names are forgotten.
     */
    method RemoveNode(nodeID: string) returns (ok: bool, tasks: seq<Task>, ghost gone: nat)
      requires Valid()
      modifies this`placed, ring, ring.nodes, ring.root`nexts
      ensures nodeID !in old(ring.nodeToReplicas) ==> !ok && Valid() && Now() == old(Now()) && gone == 0
      ensures nodeID in old(ring.nodeToReplicas) ==>
                && gone <= old(ring.nodeToReplicas)[nodeID]
                && (ok <==> forall i :: 0 <= i < old(ring.nodeToReplicas)[nodeID] ==> !FailsAt(old(Now()), h, nodeID, i))
                && (if ok then gone == old(ring.nodeToReplicas)[nodeID] else FailsAt(old(Now()), h, nodeID, gone))
      ensures Now() == After(old(Now()), h, nodeID, gone) && ring.nodeToReplicas == old(ring.nodeToReplicas) - {nodeID}
      ensures ok ==> Settled()
      ensures ok ==> (Valid() <==> Doomed(old(ring.ring), h, old(ring.nodeToDataKey), nodeID) == {})
      ensures ok ==> ToldOut(old(ring.nodeToDataKey), ring.nodeToDataKey, nodeID, Upto(nodeID, gone), tasks)
      ensures ok ==> ((exists i :: 0 <= i < |tasks| && !Moves(tasks[i], nodeID)) <==>
                      exists i :: 0 <= i < gone && TellsNothing(old(Now()), h, nodeID, i))
      ensures ok && nodeID != "" ==> forall i :: 0 <= i < |tasks| && tasks[i].to == "" ==>
                tasks[i].keys <= Doomed(old(ring.ring), h, old(ring.nodeToDataKey), nodeID)
      ensures SameKeys(old(ring.nodeToDataKey), ring.nodeToDataKey) <==>
              forall i :: 0 <= i < gone ==> !DropsAt(old(Now()), h, nodeID, i)
      ensures nodeID in old(ring.nodeToReplicas) && !HasOtherNode(old(ring.nodeToReplicas), nodeID) ==>
                (ok <==> KeysOf(old(ring.nodeToDataKey), nodeID) == {})
      ensures nodeID in old(ring.nodeToReplicas) && "" !in old(ring.nodeToReplicas) ==>
                && (HasOtherNode(old(ring.nodeToReplicas), nodeID) ==> ok)
                && (ok ==> Valid())
      ensures NoClash(old(ring.nodeToReplicas)) ==>
                && SameKeys(old(ring.nodeToDataKey), ring.nodeToDataKey)
                && OnlyFrom(old(ring.nodeToDataKey), ring.nodeToDataKey, nodeID)
      ensures ring.nodes <= old(ring.nodes)
    {
      hide SkiplistHashRing.Valid, Owned, RingOk, NoClash, NamesAre, SameKeys, Upto, NodeId, RawKey, Recorded, Others,
           HasOtherNode, ToldOut, TakesOut, OnWay, After, FailsAt, DropsAt, Doomed, KeysOf, OnlyFrom, TellsNothing, Moves,
           NothingTold, Once, ToNobody;
      NothingToldOut(ring.nodeToDataKey, nodeID);
      tasks, gone := [], 0;
      ghost var n, p, s := ring.nodeToReplicas, placed, Now();
      AfterNone(s, h, nodeID);
      SameKeysItself(s.data);
      OnlyFromItself(s.data, nodeID);
      if nodeID !in ring.nodeToReplicas { return false, [], 0; }
      var count := ring.nodeToReplicas[nodeID];
      ring.nodeToReplicas := ring.nodeToReplicas - {nodeID};
      StartLeaving(n, p, s, h, nodeID);
      UptoNone(nodeID);
      assert p - {} == p;
      NoneTold(s, h, nodeID);
      var i := 0;
      while i < count
        invariant 0 <= i <= count && gone == i && Going(n, p, s, nodeID, i) && ring.nodes <= old(ring.nodes)
        invariant forall j :: 0 <= j < i ==> !FailsAt(s, h, nodeID, j)
        invariant ToldOut(s.data, ring.nodeToDataKey, nodeID, Upto(nodeID, i), tasks) && NothingTold(s, h, nodeID, tasks, i)
        invariant ToNobody(s, h, nodeID, tasks)
      {
        ghost var data := ring.nodeToDataKey;
        var task, went := LeaveOne(nodeID, i, n, p, s);
        if !went {
          Ended(n, p, s, h, nodeID, i, false);
          return false, tasks, i;
        }
        LongerName(nodeID, i);
        UptoMore(nodeID, i);
        OnceAt(s.data, nodeID);
        TellOut(s.data, data, ring.nodeToDataKey, nodeID, Upto(nodeID, i), RawKey(nodeID, i), tasks, task);
        NothingMore(s, h, nodeID, tasks, task, i);
        if task.keys != {} { tasks := tasks + [task]; }
        i, gone := i + 1, i + 1;
      }
      Ended(n, p, s, h, nodeID, i, true);
      ToldAtEnd(s, h, nodeID, tasks, i);
      NamesLeave(n, p, nodeID);
      return true, tasks, i;
    }
  }

  /** What is known of a removal when it has come to an end after i names. */
  lemma Ended(n: map<string, nat>, p: set<string>, s: Placement, h: Hash, a: string, i: nat, ok: bool)
    requires NamesAre(n, p) && a in n && n[a] > 0 && RingOk(s.ring, h, p) && OnWay(s, h, a) && Once(s.data)
    requires HasOtherNode(n, a) <==> Others(s.ring, a) != {}
    requires i <= n[a] && (if ok then i == n[a] else i < n[a] && FailsAt(s, h, a, i))
    requires forall j :: 0 <= j < i ==> !FailsAt(s, h, a, j)
    ensures var t := After(s, h, a, i);
            && (SameKeys(s.data, t.data) <==> forall j :: 0 <= j < i ==> !DropsAt(s, h, a, j))
            && (ok ==> RingOk(t.ring, h, p - Upto(a, i)) && (Owned(t.ring, h, t.data) <==> Doomed(s.ring, h, s.data, a) == {}))
            && (!HasOtherNode(n, a) ==> (ok <==> KeysOf(s.data, a) == {}))
            && ("" !in n ==> (HasOtherNode(n, a) ==> ok) && Doomed(s.ring, h, s.data, a) == {})
            && (NoClash(n) ==> SameKeys(s.data, t.data) && OnlyFrom(s.data, t.data, a))
  {
    hide NamesAre, RingOk, OnWay, Once, HasOtherNode, Others, SameKeys, Upto, Doomed, FailsAt, DropsAt, Owned, NoClash, Recorded, After, OnlyFrom;
    KeysAfter(s, h, n, p, a, i);
    if ok { OwnedAfter(s, h, n, p, a); }
    if !HasOtherNode(n, a) {
      if KeysOf(s.data, a) != {} { LastFails(s, h, n, p, a); } else { EmptyNeverFails(s, h, n, p, a, i); }
    }
    if "" !in n {
      NamedNotDoomed(s, h, n, p, a);
      if HasOtherNode(n, a) && i < n[a] { NamedNeverFails(s, h, n, p, a, i); }
    }
    if NoClash(n) {
      forall j | 0 <= j < i ensures !DropsAt(s, h, a, j) { NoClashNoDrop(s, h, n, p, a, j); }
      NoneAtNames(s, h, n, p, a, i);
      OnlyFromFar(s.data, After(s, h, a, i).data, a, Upto(a, i));
    }
  }

  lemma LongerName(a: string, i: nat)
    ensures RawKey(a, i) != a
  {
    assert |RawKey(a, i)| > |a|;
  }

  lemma OnceAt(data: Data, a: string)
    requires Once(data)
    ensures forall d, x :: Recorded(data, d, a) && Recorded(data, d, x) ==> x == a
  {
  }

  /** Some task moves nothing exactly if the taker at some name is the node itself or has no id. */
  ghost predicate NothingTold(s: Placement, h: Hash, a: string, tasks: seq<Task>, k: nat) {
    (exists i :: 0 <= i < |tasks| && !Moves(tasks[i], a)) <==> exists i: nat :: i < k && TellsNothing(s, h, a, i)
  }

  ghost predicate ToNobody(s: Placement, h: Hash, a: string, tasks: seq<Task>) {
    a != "" ==> forall i :: 0 <= i < |tasks| && tasks[i].to == "" ==> tasks[i].keys <= Doomed(s.ring, h, s.data, a)
  }

  lemma NoneTold(s: Placement, h: Hash, a: string)
    ensures NothingTold(s, h, a, [], 0) && ToNobody(s, h, a, [])
  {
  }

  lemma NothingMore(s: Placement, h: Hash, a: string, tasks: seq<Task>, t: Task, k: nat)
    requires NothingTold(s, h, a, tasks, k) && ToNobody(s, h, a, tasks)
    requires t.keys != {} ==> (!Moves(t, a) <==> TellsNothing(s, h, a, k))
    requires TellsNothing(s, h, a, k) ==> t.keys != {}
    requires t.keys != {} && t.to == "" && a != "" ==> t.keys <= Doomed(s.ring, h, s.data, a)
    ensures NothingTold(s, h, a, WithTask(tasks, t), k + 1) && ToNobody(s, h, a, WithTask(tasks, t))
  {
    hide Moves, TellsNothing, Doomed;
    var more := WithTask(tasks, t);
    assert forall i :: 0 <= i < |tasks| ==> more[i] == tasks[i];
    if t.keys != {} { assert more[|tasks|] == t; }
  }

  lemma ToldAtEnd(s: Placement, h: Hash, a: string, tasks: seq<Task>, k: nat)
    requires NothingTold(s, h, a, tasks, k) && ToNobody(s, h, a, tasks)
    ensures (exists i :: 0 <= i < |tasks| && !Moves(tasks[i], a)) <==> exists i :: 0 <= i < k && TellsNothing(s, h, a, i)
    ensures a != "" ==> forall i :: 0 <= i < |tasks| && tasks[i].to == "" ==> tasks[i].keys <= Doomed(s.ring, h, s.data, a)
  {
    hide Moves, TellsNothing, Doomed;
  }

  /** What the task at a name says of the removal. */
  lemma TaskTells(s: Placement, n: map<string, nat>, p: set<string>, h: Hash, a: string, i: nat, t: Task)
    requires NamesAre(n, p) && a in n && i < n[a] && RingOk(s.ring, h, p) && OnWay(s, h, a)
    requires var now, raw := After(s, h, a, i), RawKey(a, i);
             && h(raw) in now.ring && now.ring[h(raw)] != [] && TaskIs(now.ring, h, now.data, a, raw, t)
             && !Blocked(now, h, a, raw)
    ensures t.keys != {} ==> (!Moves(t, a) <==> TellsNothing(s, h, a, i))
    ensures TellsNothing(s, h, a, i) ==> t.keys != {}
    ensures t.keys != {} && t.to == "" && a != "" ==> t.keys <= Doomed(s.ring, h, s.data, a)
  {
    hide NodeId, RawKey, RingOk, NamesAre, Upto, OnWay, Doomed, After, Others, FinalOwner, NextHeir;
    var now, raw, placed := After(s, h, a, i), RawKey(a, i), p - Upto(a, i);
    AfterOk(s, h, n, p, a, i);
    NextName(n, p, a, i);
    if t.keys != {} && t.to == "" && a != "" {
      if Others(now.ring, a) != {} {
        ToldToNobody(now.ring, h, placed, now.data, a, raw, t);
      } else {
        AloneTakes(now, h, placed, a, raw, t);
      }
    }
  }

  /** A node that is alone does not tell anyone to give to the empty id, since it fails first. */
  lemma AloneTakes(s: Placement, h: Hash, placed: set<string>, a: string, raw: string, t: Task)
    requires RingOk(s.ring, h, placed) && h(raw) in s.ring && s.ring[h(raw)] != [] && Others(s.ring, a) == {} && a != ""
    requires TaskIs(s.ring, h, s.data, a, raw, t) && t.keys != {} && !Blocked(s, h, a, raw)
    ensures t.to != ""
  {
    hide NodeId, NextHeir, IsCeil;
    AllMine(s.ring, h, placed, a);
    assert ListOk(s.ring, h, placed, h(raw));
    assert KeysOf(s.data, a) != {};
  }

  lemma EmptyNeverFails(s: Placement, h: Hash, n: map<string, nat>, p: set<string>, a: string, i: nat)
    requires NamesAre(n, p) && a in n && i <= n[a] && RingOk(s.ring, h, p) && OnWay(s, h, a)
    requires Others(s.ring, a) == {} && KeysOf(s.data, a) == {}
    ensures !FailsAt(s, h, a, i)
  {
    AfterOk(s, h, n, p, a, i);
  }

  /** Records with other nodes stay. */
  ghost predicate OnlyFrom(data: Data, data': Data, id: string) {
    forall d, x :: x != id && Recorded(data, d, x) ==> Recorded(data', d, x)
  }

  lemma OnlyFromItself(data: Data, id: string)
    ensures OnlyFrom(data, data, id)
  {
  }

  lemma OnlyFromFar(data: Data, data': Data, id: string, names: set<string>)
    requires forall d, x :: x != id && x !in names && Recorded(data, d, x) ==> Recorded(data', d, x)
    requires forall d, x :: Recorded(data, d, x) ==> x !in names
    ensures OnlyFrom(data, data', id)
  {
  }

  lemma NoneAtNames(s: Placement, h: Hash, n: map<string, nat>, p: set<string>, a: string, i: nat)
    requires NamesAre(n, p) && NoClash(n) && a in n && i <= n[a] && RingOk(s.ring, h, p) && OnWay(s, h, a)
    ensures forall d, x :: Recorded(s.data, d, x) ==> x !in Upto(a, i)
  {
    hide NamesAre, RingOk, OnWay, NodeId, RawKey;
    forall y | y in p ensures NodeId(y) in n { NameOf(n, p, y); }
    forall d, x | Recorded(s.data, d, x) ensures x !in Upto(a, i) { InNodes(s, h, n, p, a, d, x); }
  }

  lemma AfterNone(s: Placement, h: Hash, a: string)
    ensures After(s, h, a, 0) == s
  {
  }

  ghost predicate HasOtherNode(n: map<string, nat>, a: string) { exists b :: b in n && b != a }

  lemma StartLeaving(n: map<string, nat>, p: set<string>, s: Placement, h: Hash, a: string)
    requires NamesAre(n, p) && RingOk(s.ring, h, p) && Owned(s.ring, h, s.data) && a in n
    requires forall id :: id in n ==> n[id] > 0
    ensures HasOtherNode(n, a) <==> Others(s.ring, a) != {}
    ensures OnWay(s, h, a) && Once(s.data)
  {
    hide NodeId;
    if HasOtherNode(n, a) {
      var b :| b in n && b != a;
      OtherStays(n, p, s.ring, h, a, b);
    }
    if Others(s.ring, a) != {} {
      LeavingStarts(s.ring, h, s.data, a, p);
      var v :| v in Others(s.ring, a);
      assert ListOk(s.ring, h, p, v);
      FirstOtherIs(s.ring[v], a);
      NameOf(n, p, FirstOther(s.ring[v], a));
      assert NodeId(FirstOther(s.ring[v], a)) in n;
    } else {
      AllMine(s.ring, h, p, a);
      forall d, x | Recorded(s.data, d, x) ensures x == a {
        var c := Ceil(s.ring.Keys, h(d));
        NamesPlaced(s.ring, h, p, c);
      }
    }
  }

  /** The picked keys are the node's keys on the arc of v. */
  lemma PickedIs(ring: Ring, h: Hash, data: Data, a: string, v: Score, last: int, onlyScore: bool, picked: set<string>)
    requires v in ring && (if onlyScore then ring.Keys == {v} else 0 <= last < M && IsLast(ring.Keys, v, last))
    requires picked == set d | d in KeysOf(data, a) && (onlyScore || GivenUp(last, v, h(d)))
    ensures picked == Outgoing(ring, h, data, a, v)
  {
    hide GivenUp, IsLast;
    forall d | d in KeysOf(data, a) ensures onlyScore || GivenUp(last, v, h(d)) <==> IsCeil(ring.Keys, h(d), v) {
      if !onlyScore { GivenUpIsArc(ring.Keys, last, v, h(d)); }
    }
  }

  /** The walk from v has come to `score`, and what it has ranged over lies before. */
  ghost predicate Walking(ring: Ring, a: string, v: Score, score: Score, ranged: set<Score>) {
    Stops(ring, a) != {} ==> Passed(ring, a, v, score) && forall k :: k in ranged ==> Dist(v, k) <= Dist(v, score)
  }

  lemma WalkStarts(ring: Ring, a: string, v: Score)
    requires v in ring && |ring[v]| == 1 && NodeId(ring[v][0]) == a
    ensures Walking(ring, a, v, v, {})
  {
    hide NodeId;
  }

  lemma WalkStep(ring: Ring, h: Hash, placed: set<string>, a: string, v: Score, score: Score, ranged: set<Score>, next: Score)
    requires RingOk(ring, h, placed) && score in ring && IsCeil(ring.Keys, Incr(score), next)
    requires Walking(ring, a, v, score, ranged)
    ensures next in ring && ring[next] != [] && (next == score ==> ring.Keys == {score})
    ensures next in ranged ==> NextHeir(ring, a, v) == ""
    ensures NodeId(ring[next][0]) != a ==> NextHeir(ring, a, v) == NodeId(ring[next][0])
    ensures NodeId(ring[next][0]) == a && |ring[next]| > 1 ==> NextHeir(ring, a, v) == NodeId(ring[next][1])
    ensures NodeId(ring[next][0]) == a && |ring[next]| == 1 ==> Walking(ring, a, v, next, ranged + {score})
  {
    hide RingOk, NodeId, Passed, Dist, Incr;
    NamesPlaced(ring, h, placed, next);
    CeilAfter(ring.Keys, score, next);
    assert next in Stops(ring, a) <==> NodeId(ring[next][0]) != a || |ring[next]| > 1;
    if Stops(ring, a) != {} { WalkGoesOn(ring, a, v, score, next); }
  }

  /** A name that is alone on the ring finds no heir. */
  lemma Alone(ring: Ring, a: string, v: Score)
    requires v in ring && ring.Keys == {v} && |ring[v]| == 1 && NodeId(ring[v][0]) == a
    ensures NextHeir(ring, a, v) == ""
  {
    hide NodeId;
  }

  lemma NoKeys(ring: Ring, h: Hash, data: Data, a: string, v: Score)
    requires KeysOf(data, a) == {}
    ensures Outgoing(ring, h, data, a, v) == {}
  {
  }

  lemma RecordOwned(ring: Ring, h: Hash, data: Data, key: string, id: string)
    requires Owned(ring, h, data) && ring != map[] && id == Owner(ring, h(key))
    ensures Owned(ring, h, Record(data, id, {key}))
    ensures forall d, x :: Recorded(Record(data, id, {key}), d, x) <==> Recorded(data, d, x) || (d == key && x == id)
  {
    forall d, x | Recorded(Record(data, id, {key}), d, x) ensures x == Owner(ring, h(d)) {
      if !Recorded(data, d, x) {
        assert x == id && d == key;
      }
    }
  }

  lemma SameKeysItself(data: Data)
    ensures SameKeys(data, data)
  {
  }

  /** Keys that are recorded once are recorded once after a move. */
  lemma Moved(ring: Ring, h: Hash, data: Data, keys: set<string>, from: string, to: string)
    requires Owned(ring, h, data) && forall d :: d in keys ==> Recorded(data, d, from)
    ensures forall d, x :: Recorded(Move(data, keys, from, to), d, x) <==>
              if d in keys then x == to else Recorded(data, d, x)
  {
    forall d, x ensures Recorded(Move(data, keys, from, to), d, x) <==>
                        if d in keys then x == to else Recorded(data, d, x) {
      MoveIs(data, keys, from, to, d, x);
    }
  }

  /** A new score of a ring that has others takes the known keys on its arc. */
  ghost predicate TakesKey(before: Ring, h: Hash, data: Data, raw: string, d: string) {
    before != map[] && h(raw) !in before && Known(data, d) && IsCeil(before.Keys + {h(raw)}, h(d), h(raw))
  }

  lemma TakesNone(before: Ring, h: Hash, data: Data, raw: string)
    ensures before == map[] || h(raw) in before ==> forall d :: !TakesKey(before, h, data, raw, d)
  {
  }

  lemma IncomingIs(before: Ring, h: Hash, placed: set<string>, data: Data, raw: string, last: Score, next: Score)
    requires RingOk(before, h, placed) && Owned(before, h, data) && h(raw) !in before
    requires var ks, v := before.Keys + {h(raw)}, h(raw);
             IsLast(ks, v, last) && IsCeil(ks, Incr(v), next) && next != v
    ensures next in before && before[next] != []
    ensures var from := NodeId(before[next][0]);
            && before != map[] && from == Owner(before, h(raw))
            && forall d :: d in Incoming(h, KeysOf(data, from), last, h(raw), next) <==> TakesKey(before, h, data, raw, d)
    ensures var from := NodeId(before[next][0]);
            forall d :: d in Incoming(h, KeysOf(data, from), last, h(raw), next) ==> Recorded(data, d, from)
  {
    hide NodeId, TakenOver, Owner, RingOk, IsLast;
    var ks, v := before.Keys + {h(raw)}, h(raw);
    assert next in before;
    assert AddTo(before, v, raw).Keys == ks;
    NewScoreOwner(before, h, placed, raw, next, v);
    assert IsCeil(ks, v, v);
    var from := NodeId(before[next][0]);
    forall d ensures d in Incoming(h, KeysOf(data, from), last, v, next) <==> TakesKey(before, h, data, raw, d) {
      TakenOverIsArc(ks, last, v, next, h(d));
      NewScoreOwner(before, h, placed, raw, next, h(d));
      if TakesKey(before, h, data, raw, d) {
        var x :| Recorded(data, d, x);
        assert x == from;
      }
      assert d in KeysOf(data, from) ==> Recorded(data, d, from);
    }
  }

  /** Some task is from the new node to itself exactly if one of its names takes from it. */
  ghost predicate SelfTold(ring: Ring, h: Hash, data: Data, id: string, tasks: seq<Task>, k: nat) {
    (exists i :: 0 <= i < |tasks| && tasks[i].from == id) <==> exists i: nat :: i < k && TakesOwn(ring, h, data, id, i)
  }

  lemma NoSelf(ring: Ring, h: Hash, data: Data, id: string)
    ensures SelfTold(ring, h, data, id, [], 0)
  {
  }

  lemma SelfMore(ring: Ring, h: Hash, start: Data, data: Data, id: string, tasks: seq<Task>, t: Task, k: nat)
    requires SelfTold(ring, h, start, id, tasks, k) && SameKeys(start, data)
    requires forall d :: d in t.keys <==> TakesKey(Joined(ring, h, id, k), h, data, RawKey(id, k), d)
    requires t.keys != {} ==> Joined(ring, h, id, k) != map[] && t.from == Owner(Joined(ring, h, id, k), h(RawKey(id, k)))
    ensures SelfTold(ring, h, start, id, WithTask(tasks, t), k + 1)
  {
    hide Owner, RawKey, TakesKey, TakesOwn, Joined;
    var more := WithTask(tasks, t);
    TakesOwnIs(ring, h, start, data, id, t, k);
    assert forall i :: 0 <= i < |tasks| ==> more[i] == tasks[i];
    if t.keys != {} { assert more[|tasks|] == t; }
  }

  lemma TakesOwnIs(ring: Ring, h: Hash, start: Data, data: Data, id: string, t: Task, k: nat)
    requires SameKeys(start, data)
    requires forall d :: d in t.keys <==> TakesKey(Joined(ring, h, id, k), h, data, RawKey(id, k), d)
    requires t.keys != {} ==> Joined(ring, h, id, k) != map[] && t.from == Owner(Joined(ring, h, id, k), h(RawKey(id, k)))
    ensures TakesOwn(ring, h, start, id, k) <==> t.keys != {} && t.from == id
  {
    hide Owner, RawKey, IsCeil, Known;
    var r, v := Joined(ring, h, id, k), h(RawKey(id, k));
    assert v !in r ==> Joined(ring, h, id, k + 1).Keys == r.Keys + {v};
    if TakesOwn(ring, h, start, id, k) {
      var d :| Known(start, d) && IsCeil(Joined(ring, h, id, k + 1).Keys, h(d), v);
      assert d in t.keys;
    }
    if t.keys != {} {
      var d :| d in t.keys;
      assert TakesKey(r, h, data, RawKey(id, k), d);
    }
  }

  lemma SelfAtEnd(ring: Ring, h: Hash, data: Data, id: string, tasks: seq<Task>, k: nat)
    requires SelfTold(ring, h, data, id, tasks, k)
    ensures (exists i :: 0 <= i < |tasks| && tasks[i].from == id) <==> exists i :: 0 <= i < k && TakesOwn(ring, h, data, id, i)
  {
    hide TakesOwn;
  }

  lemma JoinedNone(ring: Ring, h: Hash, id: string)
    ensures Joined(ring, h, id, 0) == ring
  {
  }

  lemma OwnedOnce(ring: Ring, h: Hash, data: Data)
    requires Owned(ring, h, data)
    ensures Once(data)
  {
  }

  /** A node that is not on the ring has no keys. */
  lemma NotYetRecorded(n: map<string, nat>, p: set<string>, ring: Ring, h: Hash, data: Data, id: string)
    requires NamesAre(n, p) && RingOk(ring, h, p) && Owned(ring, h, data) && id !in n
    ensures forall d :: !Recorded(data, d, id)
  {
    hide NodeId;
    forall d | Recorded(data, d, id) ensures false {
      var c := Ceil(ring.Keys, h(d));
      NamesPlaced(ring, h, p, c);
      NameOf(n, p, ring[c][0]);
    }
  }

  /** After adding a name, its score has several names or that one only, and then it is a new score. */
  lemma JoinOrNew(before: Ring, h: Hash, placed: set<string>, raw: string)
    requires RingOk(before, h, placed) && raw !in placed
    ensures var ring, v := AddTo(before, h(raw), raw), h(raw);
            && v in ring && ring.Keys == before.Keys + {v}
            && (if v in before then |ring[v]| > 1 else ring[v] == [raw])
            && (v !in before && ring.Keys == {v} ==> before == map[])
            && (forall w :: w in before && w != v ==> w in ring && ring[w] == before[w])
  {
    var v := h(raw);
    if v in before {
      assert ListOk(before, h, placed, v);
    } else {
      assert forall w :: w in before ==> w in AddTo(before, v, raw).Keys && w != v;
      assert AddTo(before, v, raw).Keys == {v} ==> before.Keys == {};
    }
  }
}
