/**
 Query conditions compiled to a filter document: an equality or a set of operators per field, further
 conditions of the same field in an "$and" list, alternatives in an "$or" list.
 */
module OrmFilter {

  // ---------------------------------------------------------------- conditions and documents

  /** An operand: a scalar, a range to be negated, or a regular expression. Field names do not start with `$`. */
  datatype Operand = Null | Scalar(v: int) | Range(low: int, high: int) | Regex(pattern: string, options: string)

  datatype Condition =
    | Equal(field: string, value: Operand)
    | IsNull(field: string)
    | NotNull(field: string)
    | Between(field: string, low: int, high: int)
    | NotBetween(field: string, low: int, high: int)
    | Like(field: string, pattern: string)
    | ILike(field: string, pattern: string)
    | Op(field: string, op: string, value: Operand)

  /** What a document says of one field. */
  datatype FieldExpr = Value(v: Operand) | Ops(m: map<string, Operand>)

  /** An element of an "$and" list. */
  datatype Clause = Clause(field: string, expr: FieldExpr)

  datatype Doc = Doc(fields: map<string, FieldExpr>, ands: seq<Clause>)

  datatype Filter = Plain(doc: Doc) | Or(docs: seq<Doc>)

  // ---------------------------------------------------------------- meaning

  /** An elementary test of a stored document; a stored document is known by the tests it passes. */
  datatype Atom = Atom(field: string, op: string, operand: Operand)
  type Stored = iset<Atom>

  ghost predicate Test(d: Stored, field: string, op: string, x: Operand) {
    if op == "$not" && x.Range? then
      !(Atom(field, "$gte", Scalar(x.low)) in d && Atom(field, "$lte", Scalar(x.high)) in d)
    else Atom(field, op, x) in d
  }

  ghost predicate Satisfies(d: Stored, c: Condition) {
    match c
    case Equal(f, v) => Test(d, f, "$eq", v)
    case IsNull(f) => Test(d, f, "$eq", Null)
    case NotNull(f) => Test(d, f, "$ne", Null)
    case Between(f, a, b) => Test(d, f, "$gte", Scalar(a)) && Test(d, f, "$lte", Scalar(b))
    case NotBetween(f, a, b) => !(Test(d, f, "$gte", Scalar(a)) && Test(d, f, "$lte", Scalar(b)))
    case Like(f, p) => Test(d, f, "$regex", Regex(LikeToRegex(p), ""))
    case ILike(f, p) => Test(d, f, "$regex", Regex(LikeToRegex(p), "i"))
    case Op(f, op, v) => Test(d, f, op, v)
  }

  ghost predicate All(d: Stored, cs: seq<Condition>) { forall i :: 0 <= i < |cs| ==> Satisfies(d, cs[i]) }

  ghost predicate FieldOk(d: Stored, field: string, e: FieldExpr) {
    match e
    case Value(v) => Test(d, field, "$eq", v)
    case Ops(m) => forall op :: op in m ==> Test(d, field, op, m[op])
  }

  ghost predicate FieldsOk(d: Stored, fields: map<string, FieldExpr>) {
    forall f :: f in fields ==> FieldOk(d, f, fields[f])
  }

  ghost predicate ClausesOk(d: Stored, ands: seq<Clause>) {
    forall i :: 0 <= i < |ands| ==> FieldOk(d, ands[i].field, ands[i].expr)
  }

  ghost predicate DocAccepts(d: Stored, doc: Doc) { FieldsOk(d, doc.fields) && ClausesOk(d, doc.ands) }

  ghost predicate Accepts(d: Stored, f: Filter) {
    match f
    case Plain(doc) => DocAccepts(d, doc)
    case Or(docs) => exists i :: 0 <= i < |docs| && DocAccepts(d, docs[i])
  }

  // ---------------------------------------------------------------- like patterns

  predicate IsMeta(c: char) { c in "\\.+*?()|[]{}^$" }

  function QuoteMeta(p: string): string {
    if p == "" then "" else (if IsMeta(p[0]) then ['\\', p[0]] else [p[0]]) + QuoteMeta(p[1..])
  }

  function ReplaceAll(s: string, c: char, sub: string): string {
    if s == "" then "" else (if s[0] == c then sub else [s[0]]) + ReplaceAll(s[1..], c, sub)
  }

  function LikeToRegex(p: string): string {
    "^" + ReplaceAll(ReplaceAll(QuoteMeta(p), '%', ".*"), '_', ".") + "$"
  }

  /** A like pattern read character by character. */
  function CharWise(p: string): string {
    if p == "" then ""
    else (if p[0] == '%' then ".*" else if p[0] == '_' then "." else if IsMeta(p[0]) then ['\\', p[0]] else [p[0]]) + CharWise(p[1..])
  }

  lemma {:induction false} ReplaceConcat(a: string, b: string, c: char, sub: string)
    ensures ReplaceAll(a + b, c, sub) == ReplaceAll(a, c, sub) + ReplaceAll(b, c, sub)
    decreases |a|
  {
    if a == "" {
      assert a + b == b;
    } else {
      assert (a + b)[1..] == a[1..] + b;
      ReplaceConcat(a[1..], b, c, sub);
    }
  }

  /** The two replacements and the quoting do not disturb each other. */
  lemma {:induction false} LikeIsCharWise(p: string)
    ensures LikeToRegex(p) == "^" + CharWise(p) + "$"
    ensures ReplaceAll(ReplaceAll(QuoteMeta(p), '%', ".*"), '_', ".") == CharWise(p)
    decreases |p|
  {
    if p != "" {
      LikeIsCharWise(p[1..]);
      var q := QuoteMeta(p[1..]);
      var one := if IsMeta(p[0]) then ['\\', p[0]] else [p[0]];
      ReplaceConcat(one, q, '%', ".*");
      var mid := if p[0] == '%' then ".*" else one;
      OneReplaced(p[0]);
      ReplaceConcat(mid, ReplaceAll(q, '%', ".*"), '_', ".");
    }
  }

  lemma OneReplaced(x: char)
    ensures var one := if IsMeta(x) then ['\\', x] else [x];
            var mid := if x == '%' then ".*" else one;
            && ReplaceAll(one, '%', ".*") == mid
            && ReplaceAll(mid, '_', ".") == if x == '_' then "." else mid
  {
  }

  // ---------------------------------------------------------------- building one document

  class Builder {
    var filter: map<string, FieldExpr>
    var opFields: set<string>
    var andClauses: seq<Clause>

    ghost predicate Valid()
      reads this
    {
      forall f :: f in opFields ==> f in filter && filter[f].Ops?
    }

    ghost function Made(): Doc
      reads this
    {
      Doc(filter, andClauses)
    }

    constructor ()
      ensures Valid() && Made() == Doc(map[], [])
    {
      filter, opFields, andClauses := map[], {}, [];
    }

    /** Adds an equality; it joins the document of the field, or the "$and" list if that is taken. */
    method SetEquality(field: string, value: Operand)
      requires Valid()
      modifies this
      ensures Valid()
      ensures forall d: Stored :: DocAccepts(d, Made()) <==> old(DocAccepts(d, Made())) && Test(d, field, "$eq", value)
    {
      hide DocAccepts, FieldOk, Test;
      ghost var before := Made();
      Equality(field, value);
      if field !in filter {
        filter := filter[field := Value(value)];
        NewField(before, field, Value(value));
        return;
      }
      if field in opFields {
        var m := filter[field].m;
        if "$eq" !in m {
          filter := filter[field := Ops(m["$eq" := value])];
          MoreOps(before, field, "$eq", value);
          return;
        }
      }
      andClauses := andClauses + [Clause(field, Value(value))];
      MoreClauses(before, Clause(field, Value(value)));
    }

    /** Adds an operator on a field, likewise. */
    method SetOp(field: string, op: string, value: Operand)
      requires Valid()
      modifies this
      ensures Valid()
      ensures forall d: Stored :: DocAccepts(d, Made()) <==> old(DocAccepts(d, Made())) && Test(d, field, op, value)
    {
      hide DocAccepts, FieldOk, Test;
      ghost var before := Made();
      if field in filter {
        if field in opFields {
          var m := filter[field].m;
          if op !in m {
            filter := filter[field := Ops(m[op := value])];
            MoreOps(before, field, op, value);
            return;
          }
        }
        andClauses := andClauses + [Clause(field, Ops(map[op := value]))];
        MoreClauses(before, Clause(field, Ops(map[op := value])));
        OneOp(field, op, value);
        return;
      }
      filter := filter[field := Ops(map[op := value])];
      opFields := opFields + {field};
      NewField(before, field, Ops(map[op := value]));
      OneOp(field, op, value);
    }

    /** Adds one condition. */
    method Put(c: Condition)
      requires Valid()
      modifies this
      ensures Valid()
      ensures forall d: Stored :: DocAccepts(d, Made()) <==> old(DocAccepts(d, Made())) && Satisfies(d, c)
    {
      hide DocAccepts;
      match c
      case Equal(f, v) => SetEquality(f, v);
      case IsNull(f) => SetEquality(f, Null);
      case NotNull(f) => SetOp(f, "$ne", Null);
      case Between(f, a, b) =>
        SetOp(f, "$gte", Scalar(a));
        SetOp(f, "$lte", Scalar(b));
      case NotBetween(f, a, b) => SetOp(f, "$not", Range(a, b));
      case Like(f, p) => SetOp(f, "$regex", Regex(LikeToRegex(p), ""));
      case ILike(f, p) => SetOp(f, "$regex", Regex(LikeToRegex(p), "i"));
      case Op(f, op, v) => SetOp(f, op, v);
    }
  }

  lemma NewField(doc: Doc, field: string, e: FieldExpr)
    requires field !in doc.fields
    ensures forall d: Stored :: DocAccepts(d, doc.(fields := doc.fields[field := e])) <==> DocAccepts(d, doc) && FieldOk(d, field, e)
  {
    forall d: Stored
      ensures FieldsOk(d, doc.fields[field := e]) <==> FieldsOk(d, doc.fields) && FieldOk(d, field, e)
    {
      var more := doc.fields[field := e];
      if FieldsOk(d, more) {
        assert FieldOk(d, field, more[field]);
        forall f | f in doc.fields ensures FieldOk(d, f, doc.fields[f]) { assert FieldOk(d, f, more[f]); }
      }
    }
  }

  /** An operator that the field did not have yet. */
  lemma MoreOps(doc: Doc, field: string, op: string, value: Operand)
    requires field in doc.fields && doc.fields[field].Ops? && op !in doc.fields[field].m
    ensures forall d: Stored ::
              DocAccepts(d, doc.(fields := doc.fields[field := Ops(doc.fields[field].m[op := value])]))
              <==> DocAccepts(d, doc) && Test(d, field, op, value)
  {
    var m := doc.fields[field].m;
    var more := doc.fields[field := Ops(m[op := value])];
    forall d: Stored ensures FieldsOk(d, more) <==> FieldsOk(d, doc.fields) && Test(d, field, op, value) {
      OpsOk(d, field, m, op, value);
      if FieldsOk(d, more) {
        assert FieldOk(d, field, more[field]);
        forall f | f in doc.fields ensures FieldOk(d, f, doc.fields[f]) { assert FieldOk(d, f, more[f]); }
      }
      if FieldsOk(d, doc.fields) {
        assert FieldOk(d, field, doc.fields[field]);
      }
    }
  }

  lemma OpsOk(d: Stored, field: string, m: map<string, Operand>, op: string, value: Operand)
    requires op !in m
    ensures FieldOk(d, field, Ops(m[op := value])) <==> FieldOk(d, field, Ops(m)) && Test(d, field, op, value)
  {
    var more := m[op := value];
    if FieldOk(d, field, Ops(more)) {
      assert Test(d, field, op, more[op]);
      forall o | o in m ensures Test(d, field, o, m[o]) { assert Test(d, field, o, more[o]); }
    }
  }

  lemma Equality(field: string, value: Operand)
    ensures forall d: Stored :: FieldOk(d, field, Value(value)) <==> Test(d, field, "$eq", value)
  {
  }

  lemma OneOp(field: string, op: string, value: Operand)
    ensures forall d: Stored :: FieldOk(d, field, Ops(map[op := value])) <==> Test(d, field, op, value)
  {
    forall d: Stored ensures FieldOk(d, field, Ops(map[op := value])) <==> Test(d, field, op, value) {
      assert map[op := value][op] == value;
    }
  }

  lemma MoreClauses(doc: Doc, c: Clause)
    ensures forall d: Stored :: DocAccepts(d, doc.(ands := doc.ands + [c])) <==> DocAccepts(d, doc) && FieldOk(d, c.field, c.expr)
  {
    forall d: Stored ensures ClausesOk(d, doc.ands + [c]) <==> ClausesOk(d, doc.ands) && FieldOk(d, c.field, c.expr) {
      var more := doc.ands + [c];
      if ClausesOk(d, more) {
        assert FieldOk(d, more[|doc.ands|].field, more[|doc.ands|].expr);
        forall i | 0 <= i < |doc.ands| ensures FieldOk(d, doc.ands[i].field, doc.ands[i].expr) { assert more[i] == doc.ands[i]; }
      }
    }
  }

  /** The document accepts exactly what satisfies all conditions. */
  method BuildConditionFilter(conditions: seq<Condition>) returns (doc: Doc)
    ensures forall d: Stored :: DocAccepts(d, doc) <==> All(d, conditions)
  {
    hide Satisfies;
    var b := new Builder();
    for i := 0 to |conditions|
      invariant b.Valid() && fresh(b)
      invariant forall d: Stored :: DocAccepts(d, b.Made()) <==> All(d, conditions[..i])
    {
      b.Put(conditions[i]);
      forall d: Stored ensures All(d, conditions[..i + 1]) <==> All(d, conditions[..i]) && Satisfies(d, conditions[i]) {
        AllMore(d, conditions, i);
      }
    }
    assert conditions[..|conditions|] == conditions;
    doc := Doc(b.filter, b.andClauses);
  }

  lemma AllMore(d: Stored, cs: seq<Condition>, i: nat)
    requires i < |cs|
    ensures All(d, cs[..i + 1]) <==> All(d, cs[..i]) && Satisfies(d, cs[i])
  {
  }

  // ---------------------------------------------------------------- alternatives

  function Nonempty(groups: seq<seq<Condition>>): seq<seq<Condition>> {
    if groups == [] then [] else if groups[0] == [] then Nonempty(groups[1..]) else [groups[0]] + Nonempty(groups[1..])
  }

  /** A query accepts what satisfies all of some nonempty group, and everything if there is none. */
  ghost predicate Wanted(d: Stored, conditions: seq<Condition>, orGroups: seq<seq<Condition>>) {
    var gs := Nonempty([conditions] + orGroups);
    gs == [] || exists i :: 0 <= i < |gs| && All(d, gs[i])
  }

  ghost predicate Match(docs: seq<Doc>, gs: seq<seq<Condition>>) {
    |docs| == |gs| && forall i :: 0 <= i < |docs| ==> forall d: Stored :: DocAccepts(d, docs[i]) <==> All(d, gs[i])
  }

  method BuildFilter(conditions: seq<Condition>, orGroups: seq<seq<Condition>>) returns (f: Filter)
    ensures forall d: Stored :: Accepts(d, f) <==> Wanted(d, conditions, orGroups)
  {
    hide DocAccepts, Satisfies, Accepts, Wanted, Match, Nonempty, All;
    var base := BuildConditionFilter(conditions);
    if |orGroups| == 0 {
      OneGroup(conditions, orGroups);
      PlainMeans(base);
      return Plain(base);
    }
    var docs := Groups(base, conditions, orGroups);
    MatchMeans(docs, conditions, orGroups);
    if |docs| == 0 {
      PlainMeans(base);
      return Plain(base);
    }
    if |docs| == 1 { return Plain(docs[0]); }
    return Or(docs);
  }

  /** The documents of the nonempty groups, the base conditions first. */
  method Groups(base: Doc, conditions: seq<Condition>, orGroups: seq<seq<Condition>>) returns (docs: seq<Doc>)
    requires forall d: Stored :: DocAccepts(d, base) <==> All(d, conditions)
    ensures Match(docs, Nonempty([conditions] + orGroups))
  {
    hide DocAccepts, All, Match, Nonempty;
    docs := [];
    MatchNone();
    NonemptyOne(conditions);
    if |conditions| > 0 {
      docs := docs + [base];
      assert docs == [base];
      MatchOne(base, conditions);
    }
    assert [conditions] + orGroups[..0] == [conditions];
    for i := 0 to |orGroups|
      invariant Match(docs, Nonempty([conditions] + orGroups[..i]))
    {
      ghost var before := [conditions] + orGroups[..i];
      NonemptyMore(before, orGroups[i]);
      assert before + [orGroups[i]] == [conditions] + orGroups[..i + 1];
      if |orGroups[i]| == 0 { continue; }
      var doc := BuildConditionFilter(orGroups[i]);
      MatchMore(docs, Nonempty(before), doc, orGroups[i]);
      docs := docs + [doc];
    }
    assert orGroups[..|orGroups|] == orGroups;
  }

  lemma MatchNone()
    ensures Match([], [])
  {
  }

  lemma MatchOne(doc: Doc, g: seq<Condition>)
    requires forall d: Stored :: DocAccepts(d, doc) <==> All(d, g)
    ensures Match([doc], [g])
  {
    hide DocAccepts, All;
  }

  lemma MatchMore(docs: seq<Doc>, gs: seq<seq<Condition>>, doc: Doc, g: seq<Condition>)
    requires Match(docs, gs) && forall d: Stored :: DocAccepts(d, doc) <==> All(d, g)
    ensures Match(docs + [doc], gs + [g])
  {
    hide DocAccepts, All;
  }

  lemma PlainMeans(doc: Doc)
    ensures forall d: Stored :: Accepts(d, Plain(doc)) <==> DocAccepts(d, doc)
  {
  }

  /** One document per nonempty group means what the query wants; without any, everything is wanted. */
  lemma MatchMeans(docs: seq<Doc>, conditions: seq<Condition>, orGroups: seq<seq<Condition>>)
    requires Match(docs, Nonempty([conditions] + orGroups))
    ensures docs != [] ==> forall d: Stored :: Accepts(d, Or(docs)) <==> Wanted(d, conditions, orGroups)
    ensures |docs| == 1 ==> forall d: Stored :: Accepts(d, Plain(docs[0])) <==> Wanted(d, conditions, orGroups)
    ensures docs == [] ==> forall d: Stored :: All(d, conditions) && Wanted(d, conditions, orGroups)
  {
    hide DocAccepts, Nonempty;
    if docs == [] { NoneWanted(conditions, orGroups); }
  }

  lemma OneGroup(conditions: seq<Condition>, orGroups: seq<seq<Condition>>)
    requires orGroups == []
    ensures forall d: Stored :: Wanted(d, conditions, orGroups) <==> All(d, conditions)
  {
    assert [conditions] + orGroups == [conditions];
    NonemptyOne(conditions);
    var gs := Nonempty([conditions]);
    assert gs != [] ==> gs[0] == conditions;
  }

  lemma NonemptyOne(g: seq<Condition>)
    ensures Nonempty([g]) == if g == [] then [] else [g]
  {
  }

  lemma NoneWanted(conditions: seq<Condition>, orGroups: seq<seq<Condition>>)
    requires Nonempty([conditions] + orGroups) == []
    ensures conditions == []
  {
  }

  lemma {:induction false} NonemptyMore(gs: seq<seq<Condition>>, g: seq<Condition>)
    ensures Nonempty(gs + [g]) == if g == [] then Nonempty(gs) else Nonempty(gs) + [g]
    decreases |gs|
  {
    if gs == [] {
      assert gs + [g] == [g] && [g][1..] == [];
    } else {
      assert (gs + [g])[1..] == gs[1..] + [g];
      NonemptyMore(gs[1..], g);
    }
  }
}
