/**
 The time wheel: a ring of slots, each with a list of tasks and the rounds they still wait. It refines a
 map from key to the number of ticks until the task fires.
 */
module TimeWheel {
  import opened Basics

  /** A task, identified by a number, with its place on the wheel. */
  datatype TaskElement = TaskElement(task: int, pos: nat, cycle: nat, key: string)

  // ---------------------------------------------------------------- the specification: a countdown per key

  /** A task that fires on the left-th tick from now. */
  datatype Due = Due(task: int, left: nat)
  type Pending = map<string, Due>

  function Ticked(p: Pending): Pending { map k | k in p && p[k].left > 1 :: Due(p[k].task, p[k].left - 1) }

  /** The tasks that a tick fires. */
  function Firing(p: Pending): map<string, int> { map k | k in p && p[k].left <= 1 :: p[k].task }

  /** How many ticks a delay is, a tick that is due now counting as one. */
  function TicksOf(delay: int, interval: nat): nat
    requires interval > 0
  {
    (if delay < 0 then 0 else delay) / interval + 1
  }

  datatype Event = Tick | Add(key: string, task: int, delay: int) | Remove(key: string)

  function Step(p: Pending, e: Event, interval: nat): Pending
    requires interval > 0
  {
    match e
    case Tick => Ticked(p)
    case Add(k, t, d) => p[k := Due(t, TicksOf(d, interval))]
    case Remove(k) => p - {k}
  }

  function Run(p: Pending, es: seq<Event>, interval: nat): Pending
    requires interval > 0
    decreases |es|
  {
    if es == [] then p else Run(Step(p, es[0], interval), es[1..], interval)
  }

  function Ticks(es: seq<Event>): nat {
    if es == [] then 0 else (if es[0].Tick? then 1 else 0) + Ticks(es[1..])
  }

  predicate Touches(e: Event, k: string) { (e.Add? && e.key == k) || (e.Remove? && e.key == k) }

  /**
   A task that is neither replaced nor removed counts down by the ticks alone: it is still pending while
   fewer ticks than it has left have passed, and gone after that.
   */
  lemma {:induction false} CountsDown(p: Pending, es: seq<Event>, k: string, interval: nat)
    requires interval > 0 && forall i :: 0 <= i < |es| ==> !Touches(es[i], k)
    ensures k in p && Ticks(es) < p[k].left ==>
              k in Run(p, es, interval) && Run(p, es, interval)[k] == Due(p[k].task, p[k].left - Ticks(es))
    ensures k in p && 1 <= p[k].left <= Ticks(es) ==> k !in Run(p, es, interval)
    ensures k !in p ==> k !in Run(p, es, interval)
    decreases |es|
  {
    if es != [] {
      var p' := Step(p, es[0], interval);
      assert forall i :: 0 <= i < |es[1..]| ==> es[1..][i] == es[i + 1];
      CountsDown(p', es[1..], k, interval);
    }
  }

  /** The tick in whose interval a delay ends, counted from 0; a delay in the past ends in the first. */
  predicate EndsIn(delay: int, interval: nat, n: nat) {
    if delay < 0 then n == 0 else n * interval <= delay < (n + 1) * interval
  }

  lemma TicksOfIs(delay: int, interval: nat, n: nat)
    requires interval > 0
    ensures EndsIn(delay, interval, n) <==> TicksOf(delay, interval) == n + 1
  {
    var d := if delay < 0 then 0 else delay;
    Split(d, interval);
    assert (d / interval + 1) * interval == d / interval * interval + interval;
    if EndsIn(delay, interval, n) && delay >= 0 {
      assert (n + 1) * interval == n * interval + interval;
      QuotientIs(d, interval, n, d - n * interval);
    }
  }

  /** The main law: a task fires on the next tick exactly if its delay ends in the interval of that tick. */
  lemma FiresExactlyOn(p: Pending, k: string, task: int, delay: int, es: seq<Event>, interval: nat)
    requires interval > 0 && forall i :: 0 <= i < |es| ==> !Touches(es[i], k)
    ensures var q := Run(Step(p, Add(k, task, delay), interval), es, interval);
            && (k in Firing(q) <==> if delay < 0 then Ticks(es) == 0
                                    else Ticks(es) * interval <= delay < (Ticks(es) + 1) * interval)
            && (k in Firing(q) ==> Firing(q)[k] == task && k !in Ticked(q))
  {
    TicksOfIs(delay, interval, Ticks(es));
    CountsDown(Step(p, Add(k, task, delay), interval), es, k, interval);
  }

  /** A removed task does not fire until it is added again. */
  lemma RemovedNeverFires(p: Pending, k: string, es: seq<Event>, interval: nat)
    requires interval > 0 && forall i :: 0 <= i < |es| ==> !Touches(es[i], k)
    ensures k !in Firing(Run(Step(p, Remove(k), interval), es, interval))
  {
    CountsDown(Step(p, Remove(k), interval), es, k, interval);
  }

  // ---------------------------------------------------------------- lists of tasks

  ghost predicate UniqueKeys(l: seq<TaskElement>) {
    forall i, j :: 0 <= i < j < |l| ==> l[i].key != l[j].key
  }

  function Find(l: seq<TaskElement>, k: string): Option<TaskElement> {
    if l == [] then None else if l[0].key == k then Some(l[0]) else Find(l[1..], k)
  }

  function Without(l: seq<TaskElement>, k: string): seq<TaskElement> {
    if l == [] then [] else if l[0].key == k then l[1..] else [l[0]] + Without(l[1..], k)
  }

  /** What stays in a slot when its turn comes, with one round less to wait. */
  function Kept(l: seq<TaskElement>): seq<TaskElement> {
    if l == [] then []
    else if l[0].cycle > 0 then [l[0].(cycle := l[0].cycle - 1)] + Kept(l[1..])
    else Kept(l[1..])
  }

  lemma {:induction false} FindIs(l: seq<TaskElement>, k: string)
    ensures match Find(l, k)
            case Some(e) => e in l && e.key == k
            case None => forall e :: e in l ==> e.key != k
    decreases |l|
  {
    if l != [] && l[0].key != k { FindIs(l[1..], k); }
  }

  lemma {:induction false} FindUnique(l: seq<TaskElement>, e: TaskElement)
    requires UniqueKeys(l) && e in l
    ensures Find(l, e.key) == Some(e)
    decreases |l|
  {
    if l[0] != e {
      assert e in l[1..];
      var i :| 0 <= i < |l[1..]| && l[1..][i] == e;
      assert l[i + 1] == e;
      FindUnique(l[1..], e);
    }
  }

  lemma {:induction false} FindAppend(l: seq<TaskElement>, e: TaskElement, k: string)
    ensures Find(l + [e], k) == if Find(l, k).Some? then Find(l, k) else if k == e.key then Some(e) else None
    decreases |l|
  {
    if l == [] {
      assert l + [e] == [e];
    } else {
      assert (l + [e])[1..] == l[1..] + [e];
      FindAppend(l[1..], e, k);
    }
  }

  lemma {:induction false} FindWithout(l: seq<TaskElement>, k: string, j: string)
    requires UniqueKeys(l)
    ensures Find(Without(l, k), j) == if j == k then None else Find(l, j)
    ensures UniqueKeys(Without(l, k)) && forall e :: e in Without(l, k) ==> e in l
    decreases |l|
  {
    if l != [] {
      FindWithout(l[1..], k, j);
      FindIs(l[1..], k);
      if l[0].key == k {
        assert forall i :: 0 <= i < |l[1..]| ==> l[1..][i].key != k;
      } else {
        var w := Without(l[1..], k);
        forall i | 0 <= i < |w| ensures w[i].key != l[0].key {
          assert w[i] in l[1..];
        }
      }
    }
  }

  lemma {:induction false} FindKept(l: seq<TaskElement>, k: string)
    requires UniqueKeys(l)
    ensures Find(Kept(l), k) ==
            match Find(l, k)
            case None => None
            case Some(e) => if e.cycle > 0 then Some(e.(cycle := e.cycle - 1)) else None
    decreases |l|
  {
    if l != [] {
      FindKept(l[1..], k);
      FindIs(l[1..], k);
    }
  }

  lemma {:induction false} KeptUnique(l: seq<TaskElement>)
    requires UniqueKeys(l)
    ensures UniqueKeys(Kept(l))
    decreases |l|
  {
    if l != [] {
      KeptUnique(l[1..]);
      KeptKeys(l[1..]);
      var q := Kept(l[1..]);
      forall i | 0 <= i < |q| ensures q[i].key != l[0].key {
        assert q[i] in q;
      }
    }
  }

  lemma {:induction false} KeptKeys(l: seq<TaskElement>)
    ensures forall e :: e in Kept(l) ==> exists i :: 0 <= i < |l| && l[i].key == e.key && l[i].pos == e.pos
    decreases |l|
  {
    if l != [] {
      KeptKeys(l[1..]);
      forall e | e in Kept(l) ensures exists i :: 0 <= i < |l| && l[i].key == e.key && l[i].pos == e.pos {
        if e in Kept(l[1..]) {
          var i :| 0 <= i < |l[1..]| && l[1..][i].key == e.key && l[1..][i].pos == e.pos;
          assert l[i + 1].key == e.key;
        } else {
          assert l[0].key == e.key;
        }
      }
    }
  }

  // ---------------------------------------------------------------- the wheel

  /** The slots, where each key is, and the slot whose turn is next. */
  datatype Wheel = Wheel(slots: seq<seq<TaskElement>>, index: map<string, nat>, cur: nat)

  ghost predicate SlotOk(w: Wheel, i: nat)
    requires i < |w.slots|
  {
    UniqueKeys(w.slots[i]) && forall e :: e in w.slots[i] ==> e.pos == i && e.key in w.index && w.index[e.key] == i
  }

  ghost predicate KeyOk(w: Wheel, k: string)
    requires k in w.index
  {
    w.index[k] < |w.slots| && Find(w.slots[w.index[k]], k).Some?
  }

  /** Keys and listed tasks correspond one to one. */
  ghost predicate WheelOk(w: Wheel) {
    && w.cur < |w.slots|
    && (forall i: nat {:trigger SlotOk(w, i)} :: i < |w.slots| ==> SlotOk(w, i))
    && (forall k {:trigger KeyOk(w, k)} :: k in w.index ==> KeyOk(w, k))
  }

  /** Slots to go until position pos. */
  function Ahead(pos: nat, cur: nat, n: nat): int { if pos >= cur then pos - cur else pos - cur + n }

  function Left(e: TaskElement, cur: nat, n: nat): int { Ahead(e.pos, cur, n) + n * e.cycle + 1 }

  ghost function TaskAt(w: Wheel, k: string): TaskElement
    requires k in w.index && KeyOk(w, k)
  {
    Find(w.slots[w.index[k]], k).value
  }

  lemma TaskAtIs(w: Wheel, k: string)
    requires WheelOk(w) && k in w.index
    ensures KeyOk(w, k)
    ensures var e := TaskAt(w, k); e in w.slots[w.index[k]] && e.key == k && e.pos == w.index[k] < |w.slots| && Left(e, w.cur, |w.slots|) >= 1
  {
    assert KeyOk(w, k) && SlotOk(w, w.index[k]);
    FindIs(w.slots[w.index[k]], k);
    Product(|w.slots|, TaskAt(w, k).cycle);
  }

  lemma Product(a: nat, b: nat)
    ensures a * b >= 0
  {
  }

  ghost function DueOf(w: Wheel, k: string): Due
    requires WheelOk(w) && k in w.index
  {
    TaskAtIs(w, k);
    Due(TaskAt(w, k).task, Left(TaskAt(w, k), w.cur, |w.slots|))
  }

  /** The wheel as a map of countdowns. */
  ghost function Pend(w: Wheel): Pending
    requires WheelOk(w)
  {
    map k | k in w.index :: DueOf(w, k)
  }

  // ---------------------------------------------------------------- a tick

  function KeysFired(l: seq<TaskElement>): set<string> { set e | e in l && e.cycle == 0 :: e.key }

  function AfterTick(w: Wheel): Wheel
    requires w.cur < |w.slots|
  {
    Wheel(w.slots[w.cur := Kept(w.slots[w.cur])], w.index - KeysFired(w.slots[w.cur]), (w.cur + 1) % |w.slots|)
  }

  lemma TickKeys(w: Wheel, k: string)
    requires WheelOk(w) && k in w.index
    ensures KeyOk(w, k)
    ensures k in KeysFired(w.slots[w.cur]) <==> w.index[k] == w.cur && TaskAt(w, k).cycle == 0
  {
    TaskAtIs(w, k);
    assert SlotOk(w, w.cur);
    if k in KeysFired(w.slots[w.cur]) {
      var e :| e in w.slots[w.cur] && e.cycle == 0 && e.key == k;
      FindUnique(w.slots[w.cur], e);
    }
  }

  lemma TickOk(w: Wheel)
    requires WheelOk(w)
    ensures WheelOk(AfterTick(w))
  {
    var t := AfterTick(w);
    assert SlotOk(w, w.cur);
    forall i: nat | i < |t.slots| ensures SlotOk(t, i) {
      assert SlotOk(w, i);
      forall e | e in t.slots[i] ensures e.pos == i && e.key in t.index && t.index[e.key] == i {
        TickSlot(w, i, e);
      }
      KeptUnique(w.slots[w.cur]);
    }
    forall k | k in t.index ensures KeyOk(t, k) {
      TickKeys(w, k);
      FindKept(w.slots[w.cur], k);
    }
  }

  lemma TickSlot(w: Wheel, i: nat, e: TaskElement)
    requires WheelOk(w) && i < |w.slots| && e in AfterTick(w).slots[i]
    ensures e.pos == i && e.key in AfterTick(w).index && w.index[e.key] == i
  {
    assert SlotOk(w, i);
    if i == w.cur {
      KeptKeys(w.slots[i]);
      KeptUnique(w.slots[i]);
      FindUnique(Kept(w.slots[i]), e);
      FindKept(w.slots[i], e.key);
    }
    TickKeys(w, e.key);
  }

  /** A tick of the wheel is a tick of every countdown. */
  lemma TickRefines(w: Wheel)
    requires WheelOk(w)
    ensures WheelOk(AfterTick(w)) && Pend(AfterTick(w)) == Ticked(Pend(w))
    ensures Firing(Pend(w)).Keys == KeysFired(w.slots[w.cur])
  {
    TickOk(w);
    var t := AfterTick(w);
    forall k | k in w.index
      ensures k in t.index <==> DueOf(w, k).left > 1
      ensures k in t.index ==> DueOf(t, k) == Due(DueOf(w, k).task, DueOf(w, k).left - 1)
    {
      TickOne(w, k);
    }
    forall k ensures k in Firing(Pend(w)) <==> k in KeysFired(w.slots[w.cur]) {
      if k in KeysFired(w.slots[w.cur]) { assert SlotOk(w, w.cur); }
    }
  }

  lemma TickOne(w: Wheel, k: string)
    requires WheelOk(w) && k in w.index && WheelOk(AfterTick(w))
    ensures k in AfterTick(w).index <==> DueOf(w, k).left > 1
    ensures k in AfterTick(w).index ==> DueOf(AfterTick(w), k) == Due(DueOf(w, k).task, DueOf(w, k).left - 1)
  {
    var t, n := AfterTick(w), |w.slots|;
    TickKeys(w, k);
    TaskAtIs(w, k);
    var e := TaskAt(w, k);
    assert SlotOk(w, w.cur);
    FindKept(w.slots[w.cur], k);
    Rounds(n, e.cycle);
    NextSlot(w.cur, n);
    if k in t.index { TaskAtIs(t, k); }
  }

  lemma Rounds(n: nat, c: nat)
    requires n > 0
    ensures c > 0 ==> n * (c - 1) == n * c - n && n * c >= n
    ensures c == 0 ==> n * c == 0
  {
  }

  lemma NextSlot(cur: nat, n: nat)
    requires cur < n
    ensures (cur + 1) % n == if cur + 1 == n then 0 else cur + 1
  {
  }

  // ---------------------------------------------------------------- adding and removing

  function AfterRemove(w: Wheel, k: string): Wheel
    requires k in w.index && w.index[k] < |w.slots|
  {
    Wheel(w.slots[w.index[k] := Without(w.slots[w.index[k]], k)], w.index - {k}, w.cur)
  }

  lemma RemoveOk(w: Wheel, k: string)
    requires WheelOk(w) && k in w.index
    ensures KeyOk(w, k) && WheelOk(AfterRemove(w, k))
    ensures forall j :: j in w.index && j != k ==> KeyOk(w, j) && KeyOk(AfterRemove(w, k), j) &&
                                                   TaskAt(AfterRemove(w, k), j) == TaskAt(w, j)
  {
    assert KeyOk(w, k);
    var p := w.index[k];
    var t := AfterRemove(w, k);
    assert SlotOk(w, p);
    forall i: nat | i < |t.slots| ensures SlotOk(t, i) {
      assert SlotOk(w, i);
      FindWithout(w.slots[p], k, k);
      FindIs(t.slots[p], k);
    }
    forall j | j in t.index ensures KeyOk(t, j) && KeyOk(w, j) && TaskAt(t, j) == TaskAt(w, j) {
      assert KeyOk(w, j);
      FindWithout(w.slots[p], k, j);
    }
  }

  lemma RemoveRefines(w: Wheel, k: string)
    requires WheelOk(w) && k in w.index
    ensures KeyOk(w, k) && WheelOk(AfterRemove(w, k)) && Pend(AfterRemove(w, k)) == Pend(w) - {k}
  {
    RemoveOk(w, k);
    var t := AfterRemove(w, k);
    assert forall j :: j in t.index ==> DueOf(t, j) == DueOf(w, j);
  }

  function AfterPush(w: Wheel, e: TaskElement): Wheel
    requires e.pos < |w.slots|
  {
    Wheel(w.slots[e.pos := w.slots[e.pos] + [e]], w.index[e.key := e.pos], w.cur)
  }

  lemma PushOk(w: Wheel, e: TaskElement)
    requires WheelOk(w) && e.pos < |w.slots| && e.key !in w.index
    ensures WheelOk(AfterPush(w, e)) && KeyOk(AfterPush(w, e), e.key) && TaskAt(AfterPush(w, e), e.key) == e
    ensures forall j :: j in w.index ==> KeyOk(w, j) && KeyOk(AfterPush(w, e), j) && TaskAt(AfterPush(w, e), j) == TaskAt(w, j)
  {
    var t := AfterPush(w, e);
    var l := w.slots[e.pos];
    assert SlotOk(w, e.pos);
    forall i: nat | i < |t.slots| ensures SlotOk(t, i) {
      assert SlotOk(w, i);
    }
    FindIs(l, e.key);
    FindAppend(l, e, e.key);
    forall j | j in w.index ensures KeyOk(t, j) && KeyOk(w, j) && TaskAt(t, j) == TaskAt(w, j) {
      assert KeyOk(w, j);
      FindAppend(l, e, j);
    }
  }

  lemma PushRefines(w: Wheel, e: TaskElement)
    requires WheelOk(w) && e.pos < |w.slots| && e.key !in w.index
    ensures WheelOk(AfterPush(w, e)) && Left(e, w.cur, |w.slots|) >= 0
    ensures Pend(AfterPush(w, e)) == Pend(w)[e.key := Due(e.task, Left(e, w.cur, |w.slots|))]
  {
    PushOk(w, e);
    Product(|w.slots|, e.cycle);
    var t := AfterPush(w, e);
    assert forall j :: j in w.index ==> DueOf(t, j) == DueOf(w, j);
    assert DueOf(t, e.key) == Due(e.task, Left(e, w.cur, |w.slots|));
  }

  // ---------------------------------------------------------------- where a delay belongs

  lemma DivDiv(d: nat, n: nat, interval: nat)
    requires n > 0 && interval > 0
    ensures n * interval > 0 && d / (n * interval) == (d / interval) / n
  {
    var q, r := d / interval, d % interval;
    var c, s := q / n, q % n;
    Split(d, interval);
    Split(q, n);
    Products(n, interval, c, s, r);
    QuotientIs(d, n * interval, c, s * interval + r);
  }

  lemma Split(d: nat, n: nat)
    requires n > 0
    ensures d == d / n * n + d % n && 0 <= d % n < n
  {
  }

  lemma Products(n: nat, i: nat, c: nat, s: nat, r: nat)
    requires s < n && r < i && n > 0 && i > 0
    ensures n * i > 0 && 0 <= s * i + r < n * i
    ensures (c * n + s) * i == c * (n * i) + s * i
  {
    assert s * i + i == (s + 1) * i;
    assert (s + 1) * i <= n * i;
    assert (c * n + s) * i == (c * n) * i + s * i;
    assert (c * n) * i == c * (n * i);
  }

  lemma QuotientIs(d: nat, m: nat, c: nat, r: nat)
    requires m > 0 && d == c * m + r && r < m
    ensures d / m == c
  {
    var q := d / m;
    assert d == q * m + d % m;
    assert (c - q) * m == c * m - q * m;
    SmallMultiple(c - q, m);
  }

  lemma SmallMultiple(x: int, m: int)
    requires 0 < m && -m < x * m < m
    ensures x == 0
  {
  }

  lemma Around(cur: nat, q: nat, n: nat)
    requires cur < n
    ensures (cur + q) % n == (if cur + q % n < n then cur + q % n else cur + q % n - n)
    ensures Ahead((cur + q) % n, cur, n) == q % n
  {
    var c, s := q / n, q % n;
    assert cur + q == c * n + (cur + s);
    if cur + s < n {
      QuotientIs(cur + q, n, c, cur + s);
    } else {
      assert (c + 1) * n == c * n + n;
      QuotientIs(cur + q, n, c + 1, cur + s - n);
    }
    assert cur + q == (cur + q) / n * n + (cur + q) % n;
  }

  /** The position and the rounds that a delay gets make it fire on the right tick. */
  lemma PlaceIsRight(e: TaskElement, delay: nat, cur: nat, n: nat, interval: nat)
    requires cur < n && interval > 0
    requires n * interval > 0 && e.cycle == delay / (n * interval) && e.pos == (cur + delay / interval) % n
    ensures Left(e, cur, n) == delay / interval + 1
  {
    var q := delay / interval;
    DivDiv(delay, n, interval);
    Around(cur, q, n);
    assert q == n * (q / n) + q % n;
  }

  // ---------------------------------------------------------------- the object

  function Fired(l: seq<TaskElement>): seq<TaskElement> {
    if l == [] then [] else if l[0].cycle > 0 then Fired(l[1..]) else [l[0]] + Fired(l[1..])
  }

  lemma {:induction false} FiredIs(l: seq<TaskElement>)
    requires UniqueKeys(l)
    ensures forall e :: e in Fired(l) <==> e in l && e.cycle == 0
    ensures UniqueKeys(Fired(l))
    decreases |l|
  {
    if l != [] {
      FiredIs(l[1..]);
      var f := Fired(l[1..]);
      forall i | 0 <= i < |f| ensures f[i].key != l[0].key {
        assert f[i] in f && f[i] in l[1..];
      }
    }
  }

  class Wheels {
    const interval: nat
    const slots: array<seq<TaskElement>>
    var curSlot: nat
    var keyToETask: map<string, nat>

    ghost function At(): Wheel
      reads this, slots
    {
      Wheel(slots[..], keyToETask, curSlot)
    }

    ghost predicate Valid()
      reads this, slots
    {
      interval > 0 && WheelOk(At())
    }

    ghost function Pending(): Pending
      requires Valid()
      reads this, slots
    {
      Pend(At())
    }

    constructor (slotNum: int, interval: int)
      ensures Valid() && Pending() == map[] && fresh(slots)
      ensures this.interval == (if interval <= 0 then 1_000_000_000 else interval)
      ensures slots.Length == (if slotNum <= 0 then 10 else slotNum)
    {
      this.interval := if interval <= 0 then 1_000_000_000 else interval;
      slots := new seq<TaskElement>[if slotNum <= 0 then 10 else slotNum](_ => []);
      curSlot, keyToETask := 0, map[];
      new;
      forall i: nat | i < |At().slots| ensures SlotOk(At(), i) { assert At().slots[i] == []; }
    }

    /** Runs through the slot whose turn it is: what has no round to wait fires and is forgotten. */
    method Execute() returns (fired: seq<TaskElement>)
      requires curSlot < slots.Length
      modifies slots, this`keyToETask
      ensures fired == Fired(old(slots[curSlot]))
      ensures slots[..] == old(slots[..])[curSlot := Kept(old(slots[curSlot]))]
      ensures keyToETask == old(keyToETask) - KeysFired(old(slots[curSlot]))
    {
      hide KeysFired, Kept, Fired;
      var l := slots[curSlot];
      var kept := [];
      NoneFired();
      assert l[0..] == l;
      fired := [];
      for i := 0 to |l|
        invariant kept + Kept(l[i..]) == Kept(l) && fired + Fired(l[i..]) == Fired(l)
        invariant keyToETask == old(keyToETask) - KeysFired(l[..i]) && slots[..] == old(slots[..])
      {
        assert l[..i + 1] == l[..i] + [l[i]];
        KeysFiredMore(l[..i], l[i]);
        SlotStep(l, i);
        if l[i].cycle > 0 {
          kept := kept + [l[i].(cycle := l[i].cycle - 1)];
        } else {
          fired := fired + [l[i]];
          keyToETask := keyToETask - {l[i].key};
        }
      }
      assert l[..|l|] == l;
      NothingLeft(l);
      assert kept + [] == kept && fired + [] == fired;
      slots[curSlot] := kept;
    }

    /** One tick: every countdown goes down by one, and the tasks that reach zero fire, each once. */
    method Tick() returns (fired: seq<TaskElement>)
      requires Valid()
      modifies this, slots
      ensures Valid() && Pending() == Ticked(old(Pending()))
      ensures forall e :: e in fired ==> e.key in Firing(old(Pending())) && Firing(old(Pending()))[e.key] == e.task
      ensures forall k :: k in Firing(old(Pending())) ==> exists e :: e in fired && e.key == k
      ensures UniqueKeys(fired)
    {
      ghost var w := At();
      TickRefines(w);
      FiredTasks(w);
      hide WheelOk, Pend, Ticked, Firing, UniqueKeys, KeysFired, Fired, Kept;
      fired := Execute();
      curSlot := (curSlot + 1) % slots.Length;
      assert At() == AfterTick(w);
    }

    method RemoveTask(key: string)
      requires Valid()
      modifies this, slots
      ensures Valid() && Pending() == old(Pending()) - {key} && curSlot == old(curSlot) && key !in keyToETask
    {
      if key !in keyToETask { return; }
      ghost var w := At();
      RemoveRefines(w, key);
      hide WheelOk, Pend, Without;
      var pos := keyToETask[key];
      keyToETask := keyToETask - {key};
      slots[pos] := Without(slots[pos], key);
      assert At() == AfterRemove(w, key);
    }

    /** Adds or replaces a task; a delay in the past counts as none. */
    method AddTask(key: string, task: int, delay: int)
      requires Valid()
      modifies this, slots
      ensures Valid() && key in Pending() && Pending()[key].task == task && Pending()[key].left >= 1
      ensures Pending() == old(Pending())[key := Pending()[key]] == Step(old(Pending()), Add(key, task, delay), interval)
      ensures (Pending()[key].left - 1) * interval <= (if delay < 0 then 0 else delay) < Pending()[key].left * interval
    {
      hide WheelOk, Pend;
      TicksOfIs(delay, interval, TicksOf(delay, interval) - 1);
      var d := if delay < 0 then 0 else delay;
      var pos, cycle := PosAndCycle(d);
      if key in keyToETask { RemoveTask(key); }
      var e := TaskElement(task, pos, cycle, key);
      PlaceIsRight(e, d, curSlot, slots.Length, interval);
      Push(e);
    }

    method Push(e: TaskElement)
      requires Valid() && e.key !in keyToETask && e.pos < slots.Length
      modifies this, slots
      ensures Left(e, old(curSlot), slots.Length) >= 0
      ensures Valid() && Pending() == old(Pending())[e.key := Due(e.task, Left(e, old(curSlot), slots.Length))]
    {
      hide WheelOk, Pend, Left;
      ghost var w := At();
      PushRefines(w, e);
      slots[e.pos] := slots[e.pos] + [e];
      keyToETask := keyToETask[e.key := e.pos];
      assert At() == AfterPush(w, e);
    }

    method PosAndCycle(delay: nat) returns (pos: nat, cycle: nat)
      requires Valid()
      ensures curSlot < slots.Length && slots.Length * interval > 0 && pos < slots.Length
      ensures cycle == delay / (slots.Length * interval) && pos == (curSlot + delay / interval) % slots.Length
    {
      DivDiv(delay, slots.Length, interval);
      cycle := delay / (slots.Length * interval);
      pos := (curSlot + delay / interval) % slots.Length;
    }
  }

  lemma SlotStep(l: seq<TaskElement>, i: nat)
    requires i < |l|
    ensures Kept(l[i..]) == (if l[i].cycle > 0 then [l[i].(cycle := l[i].cycle - 1)] else []) + Kept(l[i + 1..])
    ensures Fired(l[i..]) == (if l[i].cycle > 0 then [] else [l[i]]) + Fired(l[i + 1..])
  {
    assert l[i..][1..] == l[i + 1..];
  }

  lemma NothingLeft(l: seq<TaskElement>)
    ensures Kept(l[|l|..]) == [] && Fired(l[|l|..]) == []
  {
  }

  lemma NoneFired()
    ensures KeysFired([]) == {}
  {
  }

  lemma KeysFiredMore(l: seq<TaskElement>, e: TaskElement)
    ensures KeysFired(l + [e]) == KeysFired(l) + if e.cycle == 0 then {e.key} else {}
  {
    forall k ensures k in KeysFired(l + [e]) <==> k in KeysFired(l) || (e.cycle == 0 && k == e.key) {
      if k in KeysFired(l) {
        var f :| f in l && f.cycle == 0 && f.key == k;
        assert f in l + [e];
      }
      if e.cycle == 0 && k == e.key { assert e in l + [e]; }
    }
  }

  /** What the slot fires is what the countdowns say. */
  lemma FiredTasks(w: Wheel)
    requires WheelOk(w)
    ensures var fired := Fired(w.slots[w.cur]);
            && UniqueKeys(fired)
            && (forall e :: e in fired ==> e.key in Firing(Pend(w)) && Firing(Pend(w))[e.key] == e.task)
            && (forall k :: k in Firing(Pend(w)) ==> exists e :: e in fired && e.key == k)
  {
    var l := w.slots[w.cur];
    assert SlotOk(w, w.cur);
    FiredIs(l);
    TickRefines(w);
    forall e | e in Fired(l) ensures e.key in Firing(Pend(w)) && Firing(Pend(w))[e.key] == e.task {
      assert e.key in KeysFired(l);
      FindUnique(l, e);
      assert DueOf(w, e.key).task == e.task;
    }
    forall k | k in Firing(Pend(w)) ensures exists e :: e in Fired(l) && e.key == k {
      assert k in KeysFired(l);
      var e :| e in l && e.cycle == 0 && e.key == k;
      assert e in Fired(l);
    }
  }
}
