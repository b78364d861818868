/**
 The router: one trie per request method. A request finds a route exactly if a registered pattern matches
 its path, and gets the parameters that the pattern names.
 */
module Router {
  import opened Basics
  import opened RouteParts
  import opened RouteTrie
  import opened RouteOrder
  import opened RouteNodes

  // ---------------------------------------------------------------- a trie of registered patterns

  /** The trie holds exactly the registered patterns, each as its canonical text. */
  ghost predicate TreeIs(t: Node, routes: set<Parts>) {
    forall qs, p :: Holds(t, qs, p) <==> qs in routes && p == Canonical(qs)
  }

  lemma InsertTree(t: Node, routes: set<Parts>, ps: Parts)
    requires TreeIs(t, routes) && NodeOk(t) && Proper(ps) && !IsStar(t.part)
    ensures var t' := Insert(t, Canonical(ps), ps); TreeIs(t', routes + {ps}) && NodeOk(t') && t'.part == t.part
  {
    hide Insert, Canonical, NodeOk;
    InsertOk(t, Canonical(ps), ps);
    CanonicalNonempty(ps);
    forall qs, p ensures Holds(Insert(t, Canonical(ps), ps), qs, p) <==> qs in routes + {ps} && p == Canonical(qs) {
      InsertHolds(t, Canonical(ps), ps, qs, p);
    }
  }

  lemma CanonicalNonempty(ps: Parts)
    ensures Canonical(ps) != ""
  {
  }

  ghost predicate Found(routes: set<Parts>, segs: Parts, p: string, qs: Parts) {
    qs in routes && Matches(qs, segs) && p == Canonical(qs)
  }

  /** A search succeeds exactly if a registered pattern matches, and finds one that does. */
  lemma SearchFinds(t: Node, routes: set<Parts>, segs: Parts)
    requires TreeIs(t, routes) && NodeOk(t) && !IsStar(t.part)
    ensures Search(t, segs).Some? <==> exists qs :: qs in routes && Matches(qs, segs)
    ensures Search(t, segs).Some? ==> exists qs :: Found(routes, segs, Search(t, segs).value, qs)
  {
    hide NodeOk, Canonical, Search;
    if qs :| qs in routes && Matches(qs, segs) {
      assert Holds(t, qs, Canonical(qs));
      SearchComplete(t, segs, qs, Canonical(qs));
    }
    if Search(t, segs).Some? {
      SearchSound(t, segs);
      var qs :| Holds(t, qs, Search(t, segs).value) && Matches(qs, segs);
      assert Found(routes, segs, Search(t, segs).value, qs);
    }
  }

  /** What is found goes before every other registered pattern that matches. */
  lemma FoundIsBest(t: Node, routes: set<Parts>, seen: seq<Parts>, segs: Parts) returns (qs: Parts)
    requires TreeIs(t, routes) && NodeOk(t) && !IsStar(t.part) && Ordered(t, seen) && Search(t, segs).Some?
    ensures Found(routes, segs, Search(t, segs).value, qs) && Best(routes, seen, segs, qs)
  {
    hide NodeOk, Canonical, Search, Ordered, Better, Matches;
    qs := SearchBest(t, seen, segs);
    forall rs | rs in routes && Matches(rs, segs) ensures rs == qs || Better(seen, segs, qs, rs) {
      assert Holds(t, rs, Canonical(rs)) && Leads(t, rs, segs);
    }
  }

  /** Of the registered patterns that match, none goes before this one. */
  ghost predicate Best(routes: set<Parts>, seen: seq<Parts>, segs: Parts, qs: Parts) {
    forall rs :: rs in routes && Matches(rs, segs) ==> rs == qs || Better(seen, segs, qs, rs)
  }

  /** A registered pattern that is the path itself is the best one. */
  lemma VeryPathIsFound(routes: set<Parts>, seen: seq<Parts>, segs: Parts, qs: Parts)
    requires Proper(segs) && Best(routes, seen, segs, qs) && segs in routes
    ensures qs == segs
  {
    MatchesItself(segs);
    VeryPathIsBest(seen, segs, qs);
  }

  lemma {:induction false} MatchesItself(segs: Parts)
    requires Proper(segs)
    ensures Matches(segs, segs)
    decreases |segs|
  {
    if segs != [] {
      assert forall i :: 0 <= i < |segs[1..]| ==> segs[1..][i] == segs[i + 1];
      MatchesItself(segs[1..]);
    }
  }

  // ---------------------------------------------------------------- parameters

  datatype Binding = Binding(name: string, value: string)

  /** What the i-th part of a pattern binds: its segment, or all from there on for a named wildcard. */
  function BindAt(qs: Parts, segs: Parts, i: nat): Option<Binding>
    requires i < |qs| <= |segs|
  {
    if qs[i] != "" && qs[i][0] == ':' then Some(Binding(qs[i][1..], segs[i]))
    else if IsStar(qs[i]) && |qs[i]| > 1 then Some(Binding(qs[i][1..], Join(segs[i..])))
    else None
  }

  /** Parameter `name` is bound by the i-th part and by none after it among the first k. */
  ghost predicate BoundAt(qs: Parts, segs: Parts, k: nat, name: string, value: string, i: nat)
    requires k <= |qs| <= |segs|
  {
    && i < k && BindAt(qs, segs, i) == Some(Binding(name, value))
    && forall j :: i < j < k && BindAt(qs, segs, j).Some? ==> BindAt(qs, segs, j).value.name != name
  }

  /** The parameters are the bindings of the first k parts, the last one of a name counting. */
  ghost predicate ParamsAre(qs: Parts, segs: Parts, k: nat, params: map<string, string>)
    requires k <= |qs| <= |segs|
  {
    && (forall i :: 0 <= i < k && BindAt(qs, segs, i).Some? ==> BindAt(qs, segs, i).value.name in params)
    && (forall name :: name in params ==> exists i: nat :: BoundAt(qs, segs, k, name, params[name], i))
  }

  lemma ParamsMore(qs: Parts, segs: Parts, k: nat, params: map<string, string>)
    requires k < |qs| <= |segs| && ParamsAre(qs, segs, k, params)
    ensures match BindAt(qs, segs, k)
            case None => ParamsAre(qs, segs, k + 1, params)
            case Some(b) => ParamsAre(qs, segs, k + 1, params[b.name := b.value])
  {
    hide BindAt;
    var b := BindAt(qs, segs, k);
    var params' := if b.Some? then params[b.value.name := b.value.value] else params;
    var k' := k + 1;
    forall name | name in params' ensures exists i: nat :: BoundAt(qs, segs, k', name, params'[name], i) {
      if b.Some? && name == b.value.name {
        assert BoundAt(qs, segs, k', name, params'[name], k);
      } else {
        var i: nat :| BoundAt(qs, segs, k, name, params[name], i);
        assert BoundAt(qs, segs, k', name, params'[name], i);
      }
    }
  }

  method Params(parts: Parts, segs: Parts) returns (params: map<string, string>)
    requires Proper(parts) && |parts| <= |segs|
    ensures ParamsAre(parts, segs, |parts|, params)
  {
    params := map[];
    for index := 0 to |parts|
      invariant ParamsAre(parts, segs, index, params)
    {
      ParamsMore(parts, segs, index, params);
      var part := parts[index];
      assert PartOk(part);
      if part[0] == ':' { params := params[part[1..] := segs[index]]; }
      if part[0] == '*' && |part| > 1 {
        params := params[part[1..] := Join(segs[index..])];
        assert index == |parts| - 1;
        return;
      }
    }
  }

  // ---------------------------------------------------------------- the keys of the handlers

  function Key(verb: string, pattern: string): string { verb + "-" + pattern }

  /** Method names have no slash (section 9.1 of RFC 9110: a method is a token), so keys do not collide. */
  lemma KeysDiffer(verb: string, ps: Parts, verb': string, qs: Parts)
    requires '/' !in verb && '/' !in verb' && Proper(ps) && Proper(qs)
    requires Key(verb, Canonical(ps)) == Key(verb', Canonical(qs))
    ensures verb == verb' && ps == qs
  {
    var k := Key(verb, Canonical(ps));
    assert k[|verb| + 1] == '/' && k[|verb'| + 1] == '/';
    assert forall i :: 0 <= i < |verb| ==> k[i] == verb[i];
    assert forall i :: 0 <= i < |verb'| ==> k[i] == verb'[i];
    assert k[|verb|] == '-' && k[|verb'|] == '-';
    assert |verb| == |verb'|;
    assert k[..|verb|] == verb && k[..|verb'|] == verb';
    assert k[|verb| + 1..] == Canonical(ps) && k[|verb| + 1..] == Canonical(qs);
    CanonicalInjective(ps, qs);
  }

  /** With a slash in a method name, the keys of different routes can coincide. */
  lemma SlashesCollide()
    ensures Proper(["c"]) && Proper(["b-", "c"]) && Key("A-/b", Canonical(["c"])) == Key("A", Canonical(["b-", "c"]))
  {
  }

  // ---------------------------------------------------------------- the router

  /** What is registered for a method: the handler registered last for each pattern, and the patterns in order. */
  datatype Book = Book(routes: map<Parts, int>, seen: seq<Parts>)

  function Entered(b: Book, ps: Parts, handler: int): Book { Book(b.routes[ps := handler], b.seen + [ps]) }

  ghost predicate RootOk(root: TrieNode, b: Book)
    reads root, root.Repr
  {
    && root.Valid() && NodeOk(root.Tree()) && root.part == ""
    && TreeIs(root.Tree(), b.routes.Keys) && Ordered(root.Tree(), b.seen)
  }

  /** No method name has a slash. */
  ghost predicate Plain(verbs: set<string>) { forall v :: v in verbs ==> '/' !in v }

  ghost predicate HandlersOk(handlers: map<string, int>, verb: string, routes: map<Parts, int>) {
    forall qs :: qs in routes ==>
      Key(verb, Canonical(qs)) in handlers && handlers[Key(verb, Canonical(qs))] == routes[qs]
  }

  ghost predicate AllProper(keys: set<Parts>) { forall qs :: qs in keys ==> Proper(qs) }

  lemma HandlersMore(handlers: map<string, int>, verbs: set<string>, verb: string, routes: map<Parts, int>, verb': string,
                     ps: Parts, handler: int)
    requires verb in verbs && verb' in verbs && AllProper(routes.Keys) && Proper(ps)
    requires Plain(verbs) ==> HandlersOk(handlers, verb, routes)
    ensures var handlers' := handlers[Key(verb', Canonical(ps)) := handler];
            var routes' := if verb == verb' then routes[ps := handler] else routes;
            AllProper(routes'.Keys) && (Plain(verbs) ==> HandlersOk(handlers', verb, routes'))
  {
    hide Canonical, Key, Proper;
    var routes' := if verb == verb' then routes[ps := handler] else routes;
    if Plain(verbs) {
      forall qs | qs in routes' && Key(verb, Canonical(qs)) == Key(verb', Canonical(ps)) ensures verb == verb' && qs == ps {
        KeysDiffer(verb, qs, verb', ps);
      }
    }
  }

  /** Roots are among their own nodes. */
  lemma RootInRepr(root: TrieNode, b: Book)
    requires RootOk(root, b)
    ensures root in root.Repr
  {
  }

  class RouterTable {
    var roots: map<string, TrieNode>
    var handlers: map<string, int>
    ghost var books: map<string, Book>

    ghost predicate VerbOk(v: string)
      requires roots.Keys == books.Keys && v in roots
      reads this, roots[v], roots[v].Repr
    {
      && RootOk(roots[v], books[v]) && AllProper(books[v].routes.Keys)
      && (Plain(roots.Keys) ==> HandlersOk(handlers, v, books[v].routes))
    }

    /** Tries of different methods share no nodes. */
    ghost predicate Separate(v: string, w: string)
      requires v in roots && w in roots
      reads this, roots[v], roots[w]
    {
      roots[v].Repr !! roots[w].Repr
    }

    ghost predicate Valid()
      reads this, roots.Values, set v, x | v in roots && x in roots[v].Repr :: x
    {
      && roots.Keys == books.Keys
      && (forall v {:trigger VerbOk(v)} :: v in roots ==> VerbOk(v))
      && (forall v, w {:trigger Separate(v, w)} :: v in roots && w in roots && v != w ==> Separate(v, w))
    }

    constructor ()
      ensures Valid() && books == map[]
    {
      roots, handlers, books := map[], map[], map[];
    }

    /** The route of a request and its parameters; null if no registered pattern matches. */
    method GetRoute(verb: string, path: string) returns (n: TrieNode?, params: map<string, string>)
      requires Valid()
      ensures n != null <==> verb in books && exists qs :: qs in books[verb].routes && Matches(qs, Parse(path))
      ensures n == null ==> params == map[]
      ensures n != null ==>
                exists qs :: && Found(books[verb].routes.Keys, Parse(path), n.pattern, qs) && |qs| <= |Parse(path)|
                             && Best(books[verb].routes.Keys, books[verb].seen, Parse(path), qs)
                             && ParamsAre(qs, Parse(path), |qs|, params)
                             && (Plain(roots.Keys) ==>
                                   Key(verb, n.pattern) in handlers && handlers[Key(verb, n.pattern)] == books[verb].routes[qs])
      ensures verb in books && Parse(path) in books[verb].routes ==> n != null && n.pattern == Canonical(Parse(path))
    {
      hide TreeIs, NodeOk, Canonical, Matches, ParamsAre, Parse, TrieNode.Valid, TrieNode.Tree, Search, Ordered, Best, Proper;
      ParseIsProper(path);
      MatchesItself(Parse(path));
      var segs := ParsePattern(path);
      if verb !in roots { return null, map[]; }
      assert VerbOk(verb);
      var root := roots[verb];
      Apart(root);
      SearchFinds(root.Tree(), books[verb].routes.Keys, segs);
      assert segs[0..] == segs;
      n := root.Search(segs, 0);
      if n == null { return null, map[]; }
      ghost var qs := FoundIsBest(root.Tree(), books[verb].routes.Keys, books[verb].seen, segs);
      if segs in books[verb].routes { VeryPathIsFound(books[verb].routes.Keys, books[verb].seen, segs, qs); }
      RoundTrip(qs);
      MatchesLength(qs, segs);
      var parts := ParsePattern(n.pattern);
      params := Params(parts, segs);
    }

    /** Makes sure that a method has a trie. */
    method EnsureRoot(verb: string)
      requires Valid()
      modifies this`roots, this`books
      ensures Valid() && verb in roots && handlers == old(handlers)
      ensures books == if verb in old(books) then old(books) else old(books)[verb := Book(map[], [])]
      ensures forall v :: v in old(roots) ==> v in roots && roots[v] == old(roots[v])
      ensures verb !in old(roots) ==> fresh(roots[verb]) && fresh(roots[verb].Repr)
    {
      hide RootOk, HandlersOk, Plain, AllProper;
      if verb in roots { return; }
      forall v | v in roots ensures roots[v] in roots[v].Repr {
        assert VerbOk(v);
        RootInRepr(roots[v], books[v]);
      }
      var root := new TrieNode("");
      NewRoot(root);
      NoHandlers(handlers, verb);
      FewerPlain(roots.Keys, verb);
      roots := roots[verb := root];
      books := books[verb := Book(map[], [])];
      assert roots.Keys == old(roots).Keys + {verb} && books[verb].routes.Keys == {};
      forall v | v in roots ensures VerbOk(v) {
        if v != verb { assert old(VerbOk(v)); }
      }
      forall v, w | v in roots && w in roots && v != w ensures Separate(v, w) {
        if v != verb && w != verb { assert old(Separate(v, w)); }
      }
    }

    /** Registers a pattern; registering it again replaces its handler. */
    method AddRoute(verb: string, pattern: string, handler: int)
      requires Valid()
      modifies this, set v, x | v in roots && x in roots[v].Repr :: x
      ensures Valid()
      ensures verb in books && books == old(books)[verb := books[verb]]
      ensures var before := if verb in old(books) then old(books[verb]) else Book(map[], []);
              && books[verb].routes == before.routes[Parse(pattern) := handler]
              && books[verb].seen == before.seen + [Parse(pattern)]
    {
      hide RootOk, HandlersOk, Parse, Proper, TrieNode.Valid, Plain, AllProper;
      var parts := ParsePattern(pattern);
      ParseIsProper(pattern);
      EnsureRoot(verb);
      Register(verb, parts, handler);
    }

    method Register(verb: string, parts: Parts, handler: int)
      requires Valid() && verb in roots && Proper(parts)
      modifies this`handlers, this`books, roots[verb].Repr
      ensures Valid() && books == old(books)[verb := Entered(old(books[verb]), parts, handler)] && roots == old(roots)
    {
      hide RootOk, HandlersOk, Canonical, Proper, Key, Plain, AllProper;
      var root := roots[verb];
      forall v | v in roots
        ensures VerbOk(v) && roots[v] in roots[v].Repr && (v != verb ==> roots[v].Repr !! root.Repr)
      {
        assert VerbOk(v);
        RootInRepr(roots[v], books[v]);
        if v != verb { assert Separate(v, verb); }
      }
      var canonical := Canonical(parts);
      InsertRoot(root, books[verb], parts, handler);
      handlers := handlers[Key(verb, canonical) := handler];
      books := books[verb := Entered(books[verb], parts, handler)];
      forall v | v in roots ensures VerbOk(v) {
        assert old(VerbOk(v));
        HandlersMore(old(handlers), roots.Keys, v, old(books[v].routes), verb, parts, handler);
      }
      forall v, w | v in roots && w in roots && v != w ensures Separate(v, w) {
        assert old(Separate(v, w));
      }
    }
  }

  method InsertRoot(root: TrieNode, ghost b: Book, parts: Parts, ghost handler: int)
    requires RootOk(root, b) && Proper(parts)
    modifies root.Repr
    ensures RootOk(root, Entered(b, parts, handler)) && fresh(root.Repr - old(root.Repr)) && old(root.Repr) <= root.Repr
  {
    hide TreeIs, NodeOk, Canonical, TrieNode.Valid, TrieNode.Tree, Insert, Proper, Ordered;
    Apart(root);
    InsertTree(root.Tree(), b.routes.Keys, parts);
    InsertOrdered(root.Tree(), b.seen, Canonical(parts), parts);
    assert Entered(b, parts, handler).routes.Keys == b.routes.Keys + {parts};
    assert parts[0..] == parts;
    root.Insert(Canonical(parts), parts, 0);
    Apart(root);
  }

  lemma NewRoot(root: TrieNode)
    requires root.Valid() && root.Tree() == Node("", "", []) && root.part == ""
    ensures RootOk(root, Book(map[], []))
  {
    EmptyOrdered("", "");
  }

  lemma FewerPlain(verbs: set<string>, verb: string)
    ensures Plain(verbs + {verb}) ==> Plain(verbs)
  {
  }

  lemma NoHandlers(handlers: map<string, int>, verb: string)
    ensures HandlersOk(handlers, verb, map[]) && AllProper({})
  {
  }
}
