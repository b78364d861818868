/**
 What the migrator is told when nodes join and leave: every task is a move of recorded keys, every key that
 changes place is in one such task, and when a task moves nothing.
 */
module HashTasks {
  import opened HashNames
  import opened HashCircle
  import opened HashOwners
  import opened HashLeaving
  import opened HashMembers
  import opened HashRemoval

  /** What the migrator is told to move. */
  datatype Task = Task(keys: set<string>, from: string, to: string)

  function WithTask(tasks: seq<Task>, t: Task): seq<Task> { if t.keys != {} then tasks + [t] else tasks }

  // ---------------------------------------------------------------- joining

  /** The keys of a task are with the new node now, and were with the task's source unless that is the new node. */
  ghost predicate TaskIn(first: Data, data: Data, id: string, t: Task) {
    && t.keys != {} && t.to == id
    && forall d :: d in t.keys ==> Recorded(data, d, id) && (t.from != id ==> Recorded(first, d, t.from))
  }

  ghost predicate TakenIn(tasks: seq<Task>, id: string, d: string) {
    exists i :: 0 <= i < |tasks| && tasks[i].from != id && d in tasks[i].keys
  }

  /** Every task is a move to the new node, and each key that changed place is in exactly one task from another. */
  ghost predicate ToldIn(first: Data, data: Data, id: string, tasks: seq<Task>) {
    && (forall i :: 0 <= i < |tasks| ==> TaskIn(first, data, id, tasks[i]))
    && (forall d, x :: Recorded(data, d, x) && !Recorded(first, d, x) ==> x == id && TakenIn(tasks, id, d))
    && (forall i, j :: 0 <= i < j < |tasks| && tasks[i].from != id && tasks[j].from != id ==> tasks[i].keys !! tasks[j].keys)
  }

  lemma NothingToldIn(data: Data, id: string)
    ensures ToldIn(data, data, id, [])
  {
  }

  lemma TakenMore(tasks: seq<Task>, t: Task, id: string, d: string)
    ensures TakenIn(WithTask(tasks, t), id, d) <==> TakenIn(tasks, id, d) || (t.from != id && d in t.keys)
  {
    var more := WithTask(tasks, t);
    if TakenIn(tasks, id, d) {
      var i :| 0 <= i < |tasks| && tasks[i].from != id && d in tasks[i].keys;
      assert more[i] == tasks[i];
    }
    if t.keys != {} { assert more[|tasks|] == t; }
  }

  lemma TellIn(first: Data, data: Data, data': Data, id: string, tasks: seq<Task>, t: Task)
    requires ToldIn(first, data, id, tasks) && Once(data) && (forall d :: !Recorded(first, d, id))
    requires forall d, x :: Recorded(data', d, x) <==> if d in t.keys then x == id else Recorded(data, d, x)
    requires forall d :: d in t.keys ==> Recorded(data, d, t.from) && t.to == id
    ensures ToldIn(first, data', id, WithTask(tasks, t))
  {
    hide TakenIn, Recorded;
    var more := WithTask(tasks, t);
    forall i | 0 <= i < |more| ensures TaskIn(first, data', id, more[i]) {
      assert i < |tasks| ==> more[i] == tasks[i] && TaskIn(first, data, id, tasks[i]);
    }
    forall d, x | Recorded(data', d, x) && !Recorded(first, d, x) ensures x == id && TakenIn(more, id, d) {
      TakenMore(tasks, t, id, d);
    }
    forall i, j | 0 <= i < j < |more| && more[i].from != id && more[j].from != id ensures more[i].keys !! more[j].keys {
      assert TaskIn(first, data, id, tasks[i]);
    }
  }

  /** The i-th name of a joining node comes right before one of its own, and a known key lies on its arc. */
  ghost predicate TakesOwn(ring: Ring, h: Hash, data: Data, id: string, i: nat) {
    var r, v := Joined(ring, h, id, i), h(RawKey(id, i));
    && r != map[] && v !in r && Owner(r, v) == id
    && exists d :: Known(data, d) && IsCeil(Joined(ring, h, id, i + 1).Keys, h(d), v)
  }

  // ---------------------------------------------------------------- leaving

  /** The task moves its keys to another node. */
  predicate Moves(t: Task, id: string) { t.to != id && t.to != "" }

  /** The keys of a task were with the leaving node; they are with its target now, unless its record went. */
  ghost predicate TaskOut(first: Data, data: Data, id: string, names: set<string>, t: Task) {
    && t.keys != {} && t.from == id
    && forall d :: d in t.keys ==>
         && Recorded(first, d, id)
         && (Moves(t, id) ==> !Recorded(data, d, id) && (t.to !in names ==> Recorded(data, d, t.to)))
  }

  ghost predicate TakenOut(tasks: seq<Task>, id: string, d: string) {
    exists i :: 0 <= i < |tasks| && Moves(tasks[i], id) && d in tasks[i].keys
  }

  ghost predicate SentTo(tasks: seq<Task>, id: string, d: string, x: string) {
    exists i :: 0 <= i < |tasks| && Moves(tasks[i], id) && d in tasks[i].keys && tasks[i].to == x
  }

  /** Every task is of keys that were with the node, and each key that left it is in exactly one task that moves. */
  ghost predicate ToldOut(first: Data, data: Data, id: string, names: set<string>, tasks: seq<Task>) {
    && (forall i :: 0 <= i < |tasks| ==> TaskOut(first, data, id, names, tasks[i]))
    && (forall d, x :: Recorded(data, d, x) && !Recorded(first, d, x) ==> Recorded(first, d, id) && SentTo(tasks, id, d, x))
    && (forall d :: Recorded(first, d, id) && !Recorded(data, d, id) ==> TakenOut(tasks, id, d))
    && (forall i, j :: 0 <= i < j < |tasks| && Moves(tasks[i], id) && Moves(tasks[j], id) ==> tasks[i].keys !! tasks[j].keys)
  }

  lemma NothingToldOut(data: Data, id: string)
    ensures ToldOut(data, data, id, {}, [])
  {
  }

  /** What a task and the end of a name do to the records. */
  ghost predicate TakesOut(data: Data, data': Data, id: string, raw: string, t: Task) {
    && (t.keys != {} ==> t.from == id) && (forall d :: d in t.keys ==> Recorded(data, d, id))
    && forall d, x :: Recorded(data', d, x) <==>
         x != raw && if d in t.keys && Moves(t, id) then x == t.to || (x != id && Recorded(data, d, x)) else Recorded(data, d, x)
  }

  lemma TakenOutMore(tasks: seq<Task>, t: Task, id: string, d: string, x: string)
    ensures TakenOut(WithTask(tasks, t), id, d) <==> TakenOut(tasks, id, d) || (Moves(t, id) && d in t.keys)
    ensures SentTo(WithTask(tasks, t), id, d, x) <==> SentTo(tasks, id, d, x) || (Moves(t, id) && d in t.keys && t.to == x)
  {
    hide Moves;
    var more := WithTask(tasks, t);
    if TakenOut(tasks, id, d) {
      var i :| 0 <= i < |tasks| && Moves(tasks[i], id) && d in tasks[i].keys;
      assert more[i] == tasks[i];
    }
    if SentTo(tasks, id, d, x) {
      var i :| 0 <= i < |tasks| && Moves(tasks[i], id) && d in tasks[i].keys && tasks[i].to == x;
      assert more[i] == tasks[i];
    }
    if t.keys != {} { assert more[|tasks|] == t; }
  }

  lemma TellOut(first: Data, data: Data, data': Data, id: string, names: set<string>, raw: string, tasks: seq<Task>, t: Task)
    requires ToldOut(first, data, id, names, tasks) && TakesOut(data, data', id, raw, t) && raw != id
    requires forall d, x :: Recorded(first, d, id) && Recorded(first, d, x) ==> x == id
    ensures ToldOut(first, data', id, names + {raw}, WithTask(tasks, t))
  {
    hide TakenOut, SentTo, Recorded;
    var more := WithTask(tasks, t);
    assert forall d :: d in t.keys ==> Recorded(first, d, id) by {
      forall d | d in t.keys ensures Recorded(first, d, id) { assert Recorded(data, d, id); }
    }
    forall i | 0 <= i < |more| ensures TaskOut(first, data', id, names + {raw}, more[i]) {
      assert i < |tasks| ==> more[i] == tasks[i] && TaskOut(first, data, id, names, tasks[i]);
    }
    forall d, x | Recorded(data', d, x) && !Recorded(first, d, x) ensures Recorded(first, d, id) && SentTo(more, id, d, x) {
      TakenOutMore(tasks, t, id, d, x);
    }
    forall d | Recorded(first, d, id) && !Recorded(data', d, id) ensures TakenOut(more, id, d) {
      TakenOutMore(tasks, t, id, d, id);
    }
    forall i, j | 0 <= i < j < |more| && Moves(more[i], id) && Moves(more[j], id) ensures more[i].keys !! more[j].keys {
      assert TaskOut(first, data, id, names, tasks[i]);
    }
  }

  /** The task names the keys of the arc, if the node comes first there, and who takes over. */
  ghost predicate TaskIs(ring: Ring, h: Hash, data: Data, a: string, raw: string, t: Task)
    requires h(raw) in ring && ring[h(raw)] != []
  {
    && t.keys == (if NodeId(ring[h(raw)][0]) == a then Outgoing(ring, h, data, a, h(raw)) else {})
    && (t.keys != {} ==> t.from == a && t.to == Taker(ring, a, h(raw)))
  }

  lemma HandedTakesOut(ring: Ring, h: Hash, data: Data, a: string, raw: string, t: Task)
    requires h(raw) in ring && ring[h(raw)] != [] && TaskIs(ring, h, data, a, raw, t) && raw != a
    ensures TakesOut(data, Handed(ring, h, data, a, raw) - {raw}, a, raw, t)
  {
    hide NodeId, Taker, IsCeil, Move;
    var data' := Handed(ring, h, data, a, raw) - {raw};
    forall d, x ensures Recorded(data', d, x) <==>
      x != raw && if d in t.keys && Moves(t, a) then x == t.to || (x != a && Recorded(data, d, x)) else Recorded(data, d, x)
    {
      MoveIs(data, Outgoing(ring, h, data, a, h(raw)), a, Taker(ring, a, h(raw)), d, x);
    }
  }

  /** The task at the i-th name of a leaving node moves nothing: who takes over is the node itself or has no id. */
  ghost predicate TellsNothing(s: Placement, h: Hash, a: string, i: nat) {
    var t, v := After(s, h, a, i), h(RawKey(a, i));
    && v in t.ring && t.ring[v] != [] && NodeId(t.ring[v][0]) == a
    && Outgoing(t.ring, h, t.data, a, v) != {} && (Taker(t.ring, a, v) == a || Taker(t.ring, a, v) == "")
  }

  /** Keys that are told to go to the empty id are those that should belong to it. */
  lemma ToldToNobody(ring: Ring, h: Hash, placed: set<string>, data: Data, a: string, raw: string, t: Task)
    requires RingOk(ring, h, placed) && raw in placed && NodeId(raw) == a && h(raw) in ring && ring[h(raw)] != []
    requires TaskIs(ring, h, data, a, raw, t) && t.keys != {} && t.to == "" && a != "" && Others(ring, a) != {}
    ensures t.keys <= Doomed(ring, h, data, a)
  {
    hide NodeId, Taker, RingOk, FinalOwner, Others, Owner, RemoveFrom;
    TakerIsHeir(ring, h, placed, a, raw);
  }
}
