/** JSON:API compound documents: the `included` members a request asks for, over the relations that
    are loaded. The graph may be cyclic. */
module JsonApi {
  import opened Seqs

  /** A resource identifier object. */
  datatype Id = Id(type_: string, id: string)

  datatype Related = ToOne(node: Option<nat>) | ToMany(nodes: seq<nat>)

  /** A model wrapped in its resource class, with the declared relations that are loaded, in declared
      order. Related models are wrapped in the class the relation declares. */
  datatype Node = Node(id: Id, relations: seq<(string, Related)>)

  type Graph = seq<Node>

  /** Per type, the fields the client asked for; a type not mentioned is not constrained. */
  type Fields = map<string, set<string>>

  datatype Linkage = One(to: Option<Id>) | Many(ids: seq<Id>)

  /** A resource object; attributes are not modelled. */
  datatype Object = Object(id: Id, linkage: seq<(string, Linkage)>)

  function Items(r: Related): seq<nat> {
    match r
    case ToOne(None) => []
    case ToOne(Some(n)) => [n]
    case ToMany(ns) => ns
  }

  /** Every related model exists. */
  ghost predicate Closed(g: Graph) {
    forall n, i, k :: 0 <= n < |g| && 0 <= i < |g[n].relations| && k in Items(g[n].relations[i].1) ==> k < |g|
  }

  predicate Shown(fields: Fields, type_: string, name: string) {
    type_ !in fields || name in fields[type_]
  }

  // --- resource objects ---------------------------------------------------------------------

  function LinkageOf(g: Graph, r: Related): Linkage
    requires forall k :: k in Items(r) ==> k < |g|
  {
    match r
    case ToOne(None) => One(None)
    case ToOne(Some(n)) => assert n in Items(r); One(Some(g[n].id))
    case ToMany(ns) => Many(seq(|ns|, i requires 0 <= i < |ns| => assert ns[i] in Items(r); g[ns[i]].id))
  }

  function Linkages(g: Graph, fields: Fields, type_: string, relations: seq<(string, Related)>): seq<(string, Linkage)>
    requires forall i, k :: 0 <= i < |relations| && k in Items(relations[i].1) ==> k < |g|
  {
    if relations == [] then []
    else
      (if Shown(fields, type_, relations[0].0) then [(relations[0].0, LinkageOf(g, relations[0].1))] else [])
      + Linkages(g, fields, type_, relations[1..])
  }

  function Render(g: Graph, fields: Fields, n: nat): (o: Object)
    requires Closed(g) && n < |g|
    ensures o.id == g[n].id
  {
    Object(g[n].id, Linkages(g, fields, g[n].id.type_, g[n].relations))
  }

  /** An object's relationships are exactly those loaded relations that no fieldset of its type leaves out,
      each under its name. */
  lemma {:induction false} LinkageIs(g: Graph, fields: Fields, n: nat, l: (string, Linkage))
    requires Closed(g) && n < |g|
    ensures l in Render(g, fields, n).linkage <==>
            exists i :: && 0 <= i < |g[n].relations|
                        && (g[n].id.type_ in fields ==> g[n].relations[i].0 in fields[g[n].id.type_])
                        && l == (g[n].relations[i].0, LinkageOf(g, g[n].relations[i].1))
  {
    LinkagesAre(g, fields, g[n].id.type_, g[n].relations, l);
  }

  lemma {:induction false} LinkagesAre(g: Graph, fields: Fields, type_: string, relations: seq<(string, Related)>,
                                       l: (string, Linkage))
    requires forall i, k :: 0 <= i < |relations| && k in Items(relations[i].1) ==> k < |g|
    ensures l in Linkages(g, fields, type_, relations) <==>
            exists i :: && 0 <= i < |relations| && (type_ in fields ==> relations[i].0 in fields[type_])
                        && l == (relations[i].0, LinkageOf(g, relations[i].1))
  {
    if relations != [] {
      LinkagesAre(g, fields, type_, relations[1..], l);
      assert forall i :: 0 <= i < |relations[1..]| ==> relations[1..][i] == relations[i + 1];
      if i :| 0 <= i < |relations| && (type_ in fields ==> relations[i].0 in fields[type_])
              && l == (relations[i].0, LinkageOf(g, relations[i].1)) {
        if i > 0 { assert relations[1..][i - 1] == relations[i]; }
      }
    }
  }

  /** A linkage names exactly the identities of the related resources, in order, as one or as many. */
  lemma LinkageNames(g: Graph, r: Related)
    requires forall k :: k in Items(r) ==> k < |g|
    ensures LinkageOf(g, r).One? <==> r.ToOne?
    ensures match LinkageOf(g, r)
            case One(None) => Items(r) == []
            case One(Some(id)) => |Items(r)| == 1 && NamesAt(g, r, 0, id)
            case Many(ids) => |ids| == |Items(r)| && forall i :: 0 <= i < |ids| ==> NamesAt(g, r, i, ids[i])
  {
    assert forall i :: 0 <= i < |Items(r)| ==> Items(r)[i] in Items(r);
  }

  ghost predicate NamesAt(g: Graph, r: Related, i: nat, id: Id) {
    i < |Items(r)| && Items(r)[i] < |g| && g[Items(r)[i]].id == id
  }

  ghost predicate Points(l: Linkage, id: Id) {
    match l
    case One(to) => to == Some(id)
    case Many(ids) => id in ids
  }

  /** The object's linkage names the resource. */
  ghost predicate Names(o: Object, id: Id) {
    exists l :: l in o.linkage && Points(l.1, id)
  }

  // --- include paths ------------------------------------------------------------------------------

  function Dot(path: string): (k: nat)
    ensures k <= |path| && (k < |path| ==> path[k] == '.')
  {
    if path == [] || path[0] == '.' then 0 else 1 + Dot(path[1..])
  }

  /** `partition(".")`. */
  function Head(path: string): string {
    path[..Dot(path)]
  }

  function Tail(path: string): (t: string)
    ensures t == [] || |t| < |path|
  {
    if Dot(path) < |path| then path[Dot(path) + 1..] else []
  }

  /** A path is its first segment, or that, a dot and the rest. */
  lemma {:induction false} PathSplits(first: string, rest: string)
    requires '.' !in first
    ensures Head(first) == first && Tail(first) == []
    ensures Head(first + "." + rest) == first && Tail(first + "." + rest) == rest
  {
    if first == [] {
      assert ("." + rest)[1..] == rest;
    } else {
      var whole := first + "." + rest;
      assert whole[1..] == first[1..] + "." + rest;
      PathSplits(first[1..], rest);
      DotOf(first[1..], rest);
      DotOf(first, rest);
    }
  }

  lemma {:induction false} DotOf(first: string, rest: string)
    requires '.' !in first
    ensures Dot(first) == |first| && Dot(first + "." + rest) == |first|
  {
    if first != [] {
      assert (first + "." + rest)[1..] == first[1..] + "." + rest;
      DotOf(first[1..], rest);
    }
  }

  predicate Asked(paths: set<string>, name: string) {
    exists p :: p in paths && Head(p) == name
  }

  function Tails(paths: set<string>, name: string): set<string> {
    set p | p in paths && Head(p) == name && Tail(p) != [] :: Tail(p)
  }

  // --- the walk ----------------------------------------------------------------------------------------

  /** A resource to visit, and the paths to follow from it. */
  type Visit = (nat, set<string>)

  function Visits(ns: seq<nat>, tails: set<string>): seq<Visit> {
    Map((n: nat) => (n, tails), ns)
  }

  /** What the paths ask for among the relations: those asked for by name and not hidden by a fieldset. */
  function WantedFrom(fields: Fields, type_: string, relations: seq<(string, Related)>, paths: set<string>)
    : seq<Visit>
  {
    if relations == [] then []
    else
      var (name, related) := relations[0];
      (if Asked(paths, name) && Shown(fields, type_, name) then Visits(Items(related), Tails(paths, name)) else [])
      + WantedFrom(fields, type_, relations[1..], paths)
  }

  function Wanted(g: Graph, fields: Fields, n: nat, paths: set<string>): seq<Visit>
    requires n < |g|
  {
    WantedFrom(fields, g[n].id.type_, g[n].relations, paths)
  }

  ghost predicate Valid(g: Graph, todo: seq<Visit>) {
    forall v :: v in todo ==> v.0 < |g|
  }

  ghost function AllIds(g: Graph): set<Id> {
    set n | n in g :: n.id
  }

  lemma {:induction false} WantedFromIn(fields: Fields, type_: string, relations: seq<(string, Related)>,
                                        paths: set<string>, v: Visit)
    ensures v in WantedFrom(fields, type_, relations, paths) <==>
            exists i :: 0 <= i < |relations| && Asked(paths, relations[i].0) && Shown(fields, type_, relations[i].0)
                        && v.0 in Items(relations[i].1) && v.1 == Tails(paths, relations[i].0)
  {
    if relations != [] {
      WantedFromIn(fields, type_, relations[1..], paths, v);
      var (name, related) := relations[0];
      VisitsIn(Items(related), Tails(paths, name), v);
      if v in WantedFrom(fields, type_, relations[1..], paths) {
        var i :| 0 <= i < |relations[1..]| && Asked(paths, relations[1..][i].0)
                 && Shown(fields, type_, relations[1..][i].0)
                 && v.0 in Items(relations[1..][i].1) && v.1 == Tails(paths, relations[1..][i].0);
        assert relations[i + 1] == relations[1..][i];
      }
      if i :| 0 < i < |relations| && Asked(paths, relations[i].0) && Shown(fields, type_, relations[i].0)
              && v.0 in Items(relations[i].1) && v.1 == Tails(paths, relations[i].0) {
        assert relations[i] == relations[1..][i - 1];
      }
    }
  }

  lemma VisitsIn(ns: seq<nat>, tails: set<string>, v: Visit)
    ensures v in Visits(ns, tails) <==> v.0 in ns && v.1 == tails
  {
    if v.0 in ns && v.1 == tails {
      var i :| 0 <= i < |ns| && ns[i] == v.0;
      assert Visits(ns, tails)[i] == v;
    }
  }

  lemma WantedValid(g: Graph, fields: Fields, n: nat, paths: set<string>)
    requires Closed(g) && n < |g|
    ensures Valid(g, Wanted(g, fields, n, paths))
  {
    forall v | v in Wanted(g, fields, n, paths) ensures v.0 < |g| {
      WantedFromIn(fields, g[n].id.type_, g[n].relations, paths, v);
    }
  }

  /** Visiting in order: a resource whose identity was seen is skipped whole, any other is emitted and
      then walked along its own paths. */
  function Collect(g: Graph, fields: Fields, todo: seq<Visit>, seen: set<Id>): (r: (seq<Object>, set<Id>))
    requires Closed(g) && Valid(g, todo)
    ensures seen <= r.1
    decreases AllIds(g) - seen, |todo|
  {
    if todo == [] then ([], seen)
    else
      var (n, tails) := todo[0];
      assert todo[0] in todo;
      var id := g[n].id;
      if id in seen then
        SkipShrinks(g, todo);
        Collect(g, fields, todo[1..], seen)
      else
        assert g[n] in g && id in AllIds(g);
        WantedValid(g, fields, n, tails);
        SkipShrinks(g, todo);
        var (sub, s1) := if tails != {} then Collect(g, fields, Wanted(g, fields, n, tails), seen + {id})
                         else ([], seen + {id});
        var (rest, s2) := Collect(g, fields, todo[1..], s1);
        ([Render(g, fields, n)] + sub + rest, s2)
  }

  lemma SkipShrinks(g: Graph, todo: seq<Visit>)
    requires todo != [] && Valid(g, todo)
    ensures Valid(g, todo[1..])
  {
  }

  /** What emitting one resource leads to. */
  function Descend(g: Graph, fields: Fields, n: nat, tails: set<string>, seen: set<Id>): (r: (seq<Object>, set<Id>))
    requires Closed(g) && n < |g|
    ensures seen + {g[n].id} <= r.1
  {
    WantedValid(g, fields, n, tails);
    if tails == {} then ([], seen + {g[n].id})
    else Collect(g, fields, Wanted(g, fields, n, tails), seen + {g[n].id})
  }

  lemma CollectStep(g: Graph, fields: Fields, todo: seq<Visit>, seen: set<Id>)
    requires Closed(g) && Valid(g, todo) && todo != []
    ensures todo[0].0 < |g| && Valid(g, todo[1..])
    ensures Valid(g, Wanted(g, fields, todo[0].0, todo[0].1)) && g[todo[0].0].id in AllIds(g)
    ensures var (n, tails) := todo[0];
            var id := g[n].id;
            var sub := Descend(g, fields, n, tails, seen);
            var rest := Collect(g, fields, todo[1..], if id in seen then seen else sub.1);
            Collect(g, fields, todo, seen) ==
            if id in seen then rest else ([Render(g, fields, n)] + sub.0 + rest.0, rest.1)
  {
    assert todo[0] in todo && g[todo[0].0] in g;
    WantedValid(g, fields, todo[0].0, todo[0].1);
    SkipShrinks(g, todo);
  }

  // --- no two included objects share an identity ---------------------------------------------------

  function Ids(os: seq<Object>): set<Id> {
    set o | o in os :: o.id
  }

  ghost predicate DistinctIds(os: seq<Object>) {
    forall i, j :: 0 <= i < j < |os| ==> os[i].id != os[j].id
  }

  lemma DistinctIdsConcat(a: seq<Object>, b: seq<Object>)
    requires DistinctIds(a) && DistinctIds(b) && Ids(a) !! Ids(b)
    ensures DistinctIds(a + b) && Ids(a + b) == Ids(a) + Ids(b)
  {
    forall i, j | 0 <= i < j < |a + b| ensures (a + b)[i].id != (a + b)[j].id {
      if i < |a| <= j {
        assert a[i] in a && b[j - |a|] in b;
        assert a[i].id in Ids(a) && b[j - |a|].id in Ids(b);
      }
    }
  }

  /** What a walk emits is new, has distinct identities, and is all that it marks as seen. */
  lemma {:induction false} CollectDistinct(g: Graph, fields: Fields, todo: seq<Visit>, seen: set<Id>)
    requires Closed(g) && Valid(g, todo)
    ensures var (os, after) := Collect(g, fields, todo, seen);
            DistinctIds(os) && Ids(os) !! seen && after == seen + Ids(os)
    decreases AllIds(g) - seen, |todo|
  {
    hide Collect, Render, Wanted, Closed, DistinctIds, Ids;
    NoObjects();
    if todo == [] {
      CollectNothing(g, fields, seen);
    } else {
      CollectStep(g, fields, todo, seen);
      var (n, tails) := todo[0];
      var id := g[n].id;
      if id in seen {
        CollectDistinct(g, fields, todo[1..], seen);
      } else {
        var sub := Descend(g, fields, n, tails, seen);
        if tails != {} { CollectDistinct(g, fields, Wanted(g, fields, n, tails), seen + {id}); }
        CollectDistinct(g, fields, todo[1..], sub.1);
        OneObject(Render(g, fields, n));
        DistinctIdsConcat([Render(g, fields, n)], sub.0);
        DistinctIdsConcat([Render(g, fields, n)] + sub.0, Collect(g, fields, todo[1..], sub.1).0);
      }
    }
  }

  lemma CollectNothing(g: Graph, fields: Fields, seen: set<Id>)
    requires Closed(g)
    ensures Valid(g, []) && Collect(g, fields, [], seen) == ([], seen)
  {
  }

  lemma NoObjects()
    ensures DistinctIds([]) && Ids([]) == {}
  {
  }

  lemma OneObject(o: Object)
    ensures DistinctIds([o]) && Ids([o]) == {o.id}
  {
    assert o in [o];
  }

  // --- full linkage --------------------------------------------------------------------------------------

  ghost predicate Named(id: Id, os: seq<Object>) {
    exists o :: o in os && Names(o, id)
  }

  /** Each object is named by a source or by an object before it. */
  ghost predicate Linked(os: seq<Object>, sources: seq<Object>) {
    forall i :: 0 <= i < |os| ==> Named(os[i].id, sources + os[..i])
  }

  lemma NamedByMore(id: Id, few: seq<Object>, more: seq<Object>)
    requires Named(id, few) && forall o :: o in few ==> o in more
    ensures Named(id, more)
  {
  }

  lemma LinkedConcat(a: seq<Object>, b: seq<Object>, sources: seq<Object>, own: seq<Object>)
    requires Linked(a, sources) && Linked(b, own) && forall o :: o in own ==> o in sources || o in a
    ensures Linked(a + b, sources)
  {
    forall i | 0 <= i < |a + b| ensures Named((a + b)[i].id, sources + (a + b)[..i]) {
      if i < |a| {
        assert (a + b)[..i] == a[..i];
      } else {
        var j := i - |a|;
        assert (a + b)[..i] == a + b[..j];
        NamedByMore(b[j].id, own + b[..j], sources + (a + b)[..i]);
      }
    }
  }

  /** What a resource object's relations ask for is named in its linkage. */
  lemma {:induction false} LinkagesName(g: Graph, fields: Fields, type_: string, relations: seq<(string, Related)>,
                                        i: nat, k: nat)
    requires forall j, m :: 0 <= j < |relations| && m in Items(relations[j].1) ==> m < |g|
    requires i < |relations| && Shown(fields, type_, relations[i].0) && k in Items(relations[i].1)
    ensures exists l :: l in Linkages(g, fields, type_, relations) && Points(l.1, g[k].id)
  {
    if i == 0 {
      var l := (relations[0].0, LinkageOf(g, relations[0].1));
      assert l in Linkages(g, fields, type_, relations);
      if relations[0].1.ToMany? {
        var j :| 0 <= j < |relations[0].1.nodes| && relations[0].1.nodes[j] == k;
        assert l.1.ids[j] == g[k].id;
      }
      assert Points(l.1, g[k].id);
    } else {
      assert relations[1..][i - 1] == relations[i];
      LinkagesName(g, fields, type_, relations[1..], i - 1, k);
    }
  }

  lemma WantedNamed(g: Graph, fields: Fields, n: nat, paths: set<string>, v: Visit)
    requires Closed(g) && n < |g| && v in Wanted(g, fields, n, paths)
    ensures v.0 < |g| && Names(Render(g, fields, n), g[v.0].id)
  {
    WantedFromIn(fields, g[n].id.type_, g[n].relations, paths, v);
    var i :| 0 <= i < |g[n].relations| && Shown(fields, g[n].id.type_, g[n].relations[i].0)
             && v.0 in Items(g[n].relations[i].1);
    LinkagesName(g, fields, g[n].id.type_, g[n].relations, i, v.0);
  }

  lemma {:induction false} CollectLinked(g: Graph, fields: Fields, todo: seq<Visit>, seen: set<Id>,
                                         sources: seq<Object>)
    requires Closed(g) && Valid(g, todo)
    requires forall v :: v in todo ==> Named(g[v.0].id, sources)
    ensures Linked(Collect(g, fields, todo, seen).0, sources)
    decreases AllIds(g) - seen, |todo|
  {
    hide Collect, Render, Wanted, Closed, Linked, Named;
    NothingLinked(sources);
    if todo == [] {
      CollectNothing(g, fields, seen);
    } else {
      CollectStep(g, fields, todo, seen);
      var (n, tails) := todo[0];
      var id := g[n].id;
      if id in seen {
        CollectLinked(g, fields, todo[1..], seen, sources);
      } else {
        var sub := Descend(g, fields, n, tails, seen);
        var o := Render(g, fields, n);
        if tails != {} {
          forall v | v in Wanted(g, fields, n, tails) ensures Named(g[v.0].id, [o]) {
            WantedNamed(g, fields, n, tails, v);
            NamedByOne(g[v.0].id, o);
          }
          CollectLinked(g, fields, Wanted(g, fields, n, tails), seen + {id}, [o]);
        } else {
          NothingLinked([o]);
        }
        CollectLinked(g, fields, todo[1..], sub.1, sources);
        assert todo[0] in todo;
        OneLinked(o, sources);
        LinkedConcat([o], sub.0, sources, [o]);
        LinkedConcat([o] + sub.0, Collect(g, fields, todo[1..], sub.1).0, sources, sources);
      }
    }
  }

  lemma NothingLinked(sources: seq<Object>)
    ensures Linked([], sources)
  {
  }

  lemma NamedByOne(id: Id, o: Object)
    requires Names(o, id)
    ensures Named(id, [o])
  {
    assert o in [o];
  }

  lemma OneLinked(o: Object, sources: seq<Object>)
    requires Named(o.id, sources)
    ensures Linked([o], sources)
  {
    assert sources + [o][..0] == sources;
  }

  // --- what is included ---------------------------------------------------------------------------------

  /** A loaded relation of that name, not hidden by a fieldset, leads from `n` to `k`. */
  ghost predicate Leads(g: Graph, fields: Fields, n: nat, name: string, k: nat)
    requires n < |g|
  {
    exists i :: 0 <= i < |g[n].relations| && g[n].relations[i].0 == name
                && Shown(fields, g[n].id.type_, name) && k in Items(g[n].relations[i].1)
  }

  /** Along the path, from `n`, one arrives at `m`: at its first segment or further on. */
  ghost predicate Walk(g: Graph, fields: Fields, n: nat, path: string, m: nat)
    decreases |path|
  {
    n < |g| &&
    exists k: nat :: Leads(g, fields, n, Head(path), k)
                     && (k == m || (Tail(path) != [] && Walk(g, fields, k, Tail(path), m)))
  }

  /** A visit reaches its own node, and what its paths lead to. */
  ghost predicate Reaches(g: Graph, fields: Fields, v: Visit, m: nat)
    requires Closed(g) && v.0 < |g|
  {
    v.0 == m || exists p :: p in v.1 && Walk(g, fields, v.0, p, m)
  }

  lemma WalkOn(g: Graph, fields: Fields, n: nat, path: string, k: nat, m: nat)
    requires n < |g| && Leads(g, fields, n, Head(path), k)
    requires k == m || (Tail(path) != [] && Walk(g, fields, k, Tail(path), m))
    ensures Walk(g, fields, n, path, m)
  {
  }

  lemma WantedReaches(g: Graph, fields: Fields, n: nat, paths: set<string>, v: Visit, m: nat)
    requires Closed(g) && n < |g| && v in Wanted(g, fields, n, paths) && v.0 < |g| && Reaches(g, fields, v, m)
    ensures exists p :: p in paths && Walk(g, fields, n, p, m)
  {
    WantedFromIn(fields, g[n].id.type_, g[n].relations, paths, v);
    var i :| 0 <= i < |g[n].relations| && Asked(paths, g[n].relations[i].0)
             && Shown(fields, g[n].id.type_, g[n].relations[i].0)
             && v.0 in Items(g[n].relations[i].1) && v.1 == Tails(paths, g[n].relations[i].0);
    assert Leads(g, fields, n, g[n].relations[i].0, v.0);
    hide Walk, Head, Tail, Wanted, Closed;
    if v.0 == m {
      var p :| p in paths && Head(p) == g[n].relations[i].0;
      WalkOn(g, fields, n, p, v.0, m);
    } else {
      var t :| t in v.1 && Walk(g, fields, v.0, t, m);
      var p :| p in paths && Head(p) == g[n].relations[i].0 && Tail(p) != [] && Tail(p) == t;
      WalkOn(g, fields, n, p, v.0, m);
    }
  }

  ghost predicate FromVisits(g: Graph, fields: Fields, todo: seq<Visit>, o: Object)
    requires Closed(g) && Valid(g, todo)
  {
    exists v: Visit, m: nat :: v in todo && m < |g| && o == Render(g, fields, m) && Reaches(g, fields, v, m)
  }

  /** Everything emitted is the object of a resource that the paths lead to. */
  lemma {:induction false} CollectReached(g: Graph, fields: Fields, todo: seq<Visit>, seen: set<Id>, o: Object)
    requires Closed(g) && Valid(g, todo) && o in Collect(g, fields, todo, seen).0
    ensures FromVisits(g, fields, todo, o)
    decreases AllIds(g) - seen, |todo|
  {
    hide Collect, Render, Wanted, Closed, Walk;
    if todo == [] {
      CollectNothing(g, fields, seen);
    } else {
      CollectStep(g, fields, todo, seen);
      var (n, tails) := todo[0];
      var id := g[n].id;
      assert todo[0] in todo && forall v :: v in todo[1..] ==> v in todo;
      var sub := Descend(g, fields, n, tails, seen);
      if id !in seen && o == Render(g, fields, n) {
        assert Reaches(g, fields, todo[0], n);
      } else if id !in seen && o in sub.0 {
        CollectReached(g, fields, Wanted(g, fields, n, tails), seen + {id}, o);
        var v: Visit, m: nat :|
          v in Wanted(g, fields, n, tails) && m < |g| && o == Render(g, fields, m) && Reaches(g, fields, v, m);
        WantedReaches(g, fields, n, tails, v, m);
        assert Reaches(g, fields, todo[0], m);
      } else {
        CollectReached(g, fields, todo[1..], if id in seen then seen else sub.1, o);
      }
    }
  }

  /** Everything asked for directly is seen in the end. */
  lemma {:induction false} CollectComplete(g: Graph, fields: Fields, todo: seq<Visit>, seen: set<Id>)
    requires Closed(g) && Valid(g, todo)
    ensures forall v :: v in todo ==> g[v.0].id in Collect(g, fields, todo, seen).1
    decreases AllIds(g) - seen, |todo|
  {
    hide Collect, Render, Wanted, Closed;
    if todo == [] {
      CollectNothing(g, fields, seen);
    } else {
      CollectStep(g, fields, todo, seen);
      var (n, tails) := todo[0];
      var id := g[n].id;
      var sub := Descend(g, fields, n, tails, seen);
      assert todo == [todo[0]] + todo[1..];
      CollectComplete(g, fields, todo[1..], if id in seen then seen else sub.1);
    }
  }

  // --- what the deduplication skips ----------------------------------------------------------------------

  /** The visits that emit a resource, in order: each identity's first. */
  ghost function Emitted(g: Graph, fields: Fields, todo: seq<Visit>, seen: set<Id>): seq<Visit>
    requires Closed(g) && Valid(g, todo)
    decreases AllIds(g) - seen, |todo|
  {
    if todo == [] then []
    else
      CollectStep(g, fields, todo, seen);
      var (n, tails) := todo[0];
      if g[n].id in seen then Emitted(g, fields, todo[1..], seen)
      else
        [todo[0]]
        + (if tails == {} then [] else Emitted(g, fields, Wanted(g, fields, n, tails), seen + {g[n].id}))
        + Emitted(g, fields, todo[1..], Descend(g, fields, n, tails, seen).1)
  }

  /** The visits that are skipped because their identity was seen. */
  ghost function Skipped(g: Graph, fields: Fields, todo: seq<Visit>, seen: set<Id>): seq<Visit>
    requires Closed(g) && Valid(g, todo)
    decreases AllIds(g) - seen, |todo|
  {
    if todo == [] then []
    else
      CollectStep(g, fields, todo, seen);
      var (n, tails) := todo[0];
      if g[n].id in seen then [todo[0]] + Skipped(g, fields, todo[1..], seen)
      else
        (if tails == {} then [] else Skipped(g, fields, Wanted(g, fields, n, tails), seen + {g[n].id}))
        + Skipped(g, fields, todo[1..], Descend(g, fields, n, tails, seen).1)
  }

  /** A visit either emits or is skipped. */
  ghost predicate Taken(v: Visit, emitted: seq<Visit>, skipped: seq<Visit>) {
    v in emitted || v in skipped
  }

  /** Every visit asked for, by the start or by an emitting visit, is taken. */
  ghost predicate AllTaken(g: Graph, fields: Fields, todo: seq<Visit>, emitted: seq<Visit>, skipped: seq<Visit>)
    requires Valid(g, emitted)
  {
    && (forall v :: v in todo ==> Taken(v, emitted, skipped))
    && forall e, w :: e in emitted && w in Wanted(g, fields, e.0, e.1) ==> Taken(w, emitted, skipped)
  }

  lemma {:induction false} VisitsTaken(g: Graph, fields: Fields, todo: seq<Visit>, seen: set<Id>)
    requires Closed(g) && Valid(g, todo)
    ensures var (emitted, skipped) := (Emitted(g, fields, todo, seen), Skipped(g, fields, todo, seen));
            && Valid(g, emitted) && Valid(g, skipped)
            && AllTaken(g, fields, todo, emitted, skipped)
    decreases AllIds(g) - seen, |todo|
  {
    hide Collect, Wanted, Closed, Descend, AllTaken;
    if todo == [] {
      NothingTaken(g, fields);
    } else {
      CollectStep(g, fields, todo, seen);
      var (n, tails) := todo[0];
      var id := g[n].id;
      var after := if id in seen then seen else Descend(g, fields, n, tails, seen).1;
      VisitsTaken(g, fields, todo[1..], after);
      var (emitted, skipped) := (Emitted(g, fields, todo[1..], after), Skipped(g, fields, todo[1..], after));
      if id in seen {
        TakenSkipping(g, fields, todo, emitted, skipped);
      } else if tails == {} {
        WantedNothing(g, fields, n);
        NothingTaken(g, fields);
        TakenEmitting(g, fields, todo, [], [], emitted, skipped);
      } else {
        var wanted := Wanted(g, fields, n, tails);
        VisitsTaken(g, fields, wanted, seen + {id});
        TakenEmitting(g, fields, todo, Emitted(g, fields, wanted, seen + {id}),
                      Skipped(g, fields, wanted, seen + {id}), emitted, skipped);
      }
    }
  }

  lemma NothingTaken(g: Graph, fields: Fields)
    ensures Valid(g, []) && AllTaken(g, fields, [], [], [])
  {
  }

  lemma WantedNothing(g: Graph, fields: Fields, n: nat)
    requires n < |g|
    ensures Wanted(g, fields, n, {}) == []
  {
    if Wanted(g, fields, n, {}) != [] {
      WantedFromIn(fields, g[n].id.type_, g[n].relations, {}, Wanted(g, fields, n, {})[0]);
    }
  }

  lemma TakenSkipping(g: Graph, fields: Fields, todo: seq<Visit>, emitted: seq<Visit>, skipped: seq<Visit>)
    requires todo != [] && Valid(g, todo) && Valid(g, emitted) && Valid(g, skipped)
    requires AllTaken(g, fields, todo[1..], emitted, skipped)
    ensures Valid(g, [todo[0]] + skipped) && AllTaken(g, fields, todo, emitted, [todo[0]] + skipped)
  {
    hide Wanted;
    TakenMore([todo[0]], todo[1..], [], [todo[0]], emitted, skipped);
    assert todo == [todo[0]] + todo[1..] && [] + emitted == emitted;
    forall e, w | e in emitted && w in Wanted(g, fields, e.0, e.1) ensures Taken(w, emitted, [todo[0]] + skipped) {
      assert Taken(w, emitted, skipped);
    }
  }

  lemma TakenMore(a: seq<Visit>, b: seq<Visit>, emitted: seq<Visit>, skipped: seq<Visit>,
                  emitted': seq<Visit>, skipped': seq<Visit>)
    requires forall v :: v in a ==> Taken(v, emitted, skipped)
    requires forall v :: v in b ==> Taken(v, emitted', skipped')
    ensures forall v :: v in a + b ==> Taken(v, emitted + emitted', skipped + skipped')
  {
    forall v | v in a + b ensures Taken(v, emitted + emitted', skipped + skipped') {
      assert v in a || v in b;
    }
  }

  lemma TakenEmitting(g: Graph, fields: Fields, todo: seq<Visit>, subEmitted: seq<Visit>, subSkipped: seq<Visit>,
                      emitted: seq<Visit>, skipped: seq<Visit>)
    requires todo != [] && Valid(g, todo) && Valid(g, emitted) && Valid(g, skipped)
    requires Valid(g, subEmitted) && Valid(g, subSkipped) && todo[0].0 < |g|
    requires AllTaken(g, fields, Wanted(g, fields, todo[0].0, todo[0].1), subEmitted, subSkipped)
    requires AllTaken(g, fields, todo[1..], emitted, skipped)
    ensures Valid(g, [todo[0]] + subEmitted + emitted) && Valid(g, subSkipped + skipped)
    ensures AllTaken(g, fields, todo, [todo[0]] + subEmitted + emitted, subSkipped + skipped)
  {
    hide Wanted;
    var head := [todo[0]] + subEmitted;
    assert todo == [todo[0]] + todo[1..];
    assert Taken(todo[0], head, subSkipped);
    TakenMore([todo[0]], todo[1..], head, subSkipped, emitted, skipped);
    forall e, w | e in head + emitted && w in Wanted(g, fields, e.0, e.1)
      ensures Taken(w, head + emitted, subSkipped + skipped)
    {
      if e == todo[0] || e in subEmitted {
        assert Taken(w, subEmitted, subSkipped);
      } else {
        assert Taken(w, emitted, skipped);
      }
    }
  }

  /** The emitting visits are what is emitted. */
  lemma {:induction false} EmittedIds(g: Graph, fields: Fields, todo: seq<Visit>, seen: set<Id>, v: Visit)
    requires Closed(g) && Valid(g, todo) && v in Emitted(g, fields, todo, seen)
    ensures v.0 < |g| && g[v.0].id in Ids(Collect(g, fields, todo, seen).0)
    decreases AllIds(g) - seen, |todo|
  {
    hide Collect, Render, Wanted, Closed, Ids;
    if todo != [] {
      CollectStep(g, fields, todo, seen);
      var (n, tails) := todo[0];
      var id := g[n].id;
      var sub := Descend(g, fields, n, tails, seen);
      var after := if id in seen then seen else sub.1;
      var rest := Collect(g, fields, todo[1..], after).0;
      IdsOf([Render(g, fields, n)], sub.0, rest, Render(g, fields, n));
      if id !in seen && v == todo[0] {
      } else if v in Emitted(g, fields, todo[1..], after) {
        EmittedIds(g, fields, todo[1..], after, v);
      } else {
        EmittedIds(g, fields, Wanted(g, fields, n, tails), seen + {id}, v);
      }
    }
  }

  lemma IdsOf(a: seq<Object>, b: seq<Object>, c: seq<Object>, o: Object)
    ensures Ids(a + b + c) == Ids(a) + Ids(b) + Ids(c) && Ids([o]) == {o.id}
  {
    assert o in [o];
  }

  /** A visit is only skipped once its identity has been emitted, or had been seen before. */
  lemma {:induction false} SkippedIds(g: Graph, fields: Fields, todo: seq<Visit>, seen: set<Id>, v: Visit)
    requires Closed(g) && Valid(g, todo) && v in Skipped(g, fields, todo, seen)
    ensures v.0 < |g| && g[v.0].id in Collect(g, fields, todo, seen).1
    decreases AllIds(g) - seen, |todo|
  {
    hide Collect, Render, Wanted, Closed;
    if todo != [] {
      CollectStep(g, fields, todo, seen);
      var (n, tails) := todo[0];
      var id := g[n].id;
      var after := if id in seen then seen else Descend(g, fields, n, tails, seen).1;
      if id in seen && v == todo[0] {
      } else if v in Skipped(g, fields, todo[1..], after) {
        SkippedIds(g, fields, todo[1..], after, v);
      } else {
        SkippedIds(g, fields, Wanted(g, fields, n, tails), seen + {id}, v);
      }
    }
  }

  /** What a skipped visit would have led to is among what the start leads to. */
  lemma {:induction false} SkippedReached(g: Graph, fields: Fields, todo: seq<Visit>, seen: set<Id>, w: Visit, m: nat)
    requires Closed(g) && Valid(g, todo) && w in Skipped(g, fields, todo, seen)
    requires w.0 < |g| && Reaches(g, fields, w, m)
    ensures exists v :: v in todo && Reaches(g, fields, v, m)
    decreases AllIds(g) - seen, |todo|
  {
    hide Collect, Wanted, Closed, Walk, Descend;
    if todo != [] {
      CollectStep(g, fields, todo, seen);
      var (n, tails) := todo[0];
      var id := g[n].id;
      assert todo[0] in todo && forall v :: v in todo[1..] ==> v in todo;
      var after := if id in seen then seen else Descend(g, fields, n, tails, seen).1;
      if id in seen && w == todo[0] {
      } else if w in Skipped(g, fields, todo[1..], after) {
        SkippedReached(g, fields, todo[1..], after, w, m);
      } else {
        SkippedReached(g, fields, Wanted(g, fields, n, tails), seen + {id}, w, m);
        var v :| v in Wanted(g, fields, n, tails) && Reaches(g, fields, v, m);
        WantedReaches(g, fields, n, tails, v, m);
        assert Reaches(g, fields, todo[0], m);
      }
    }
  }

  /** The visit that one step of a walk asks for. */
  lemma WalkWants(g: Graph, fields: Fields, n: nat, paths: set<string>, path: string, k: nat)
    requires Closed(g) && n < |g| && path in paths && Leads(g, fields, n, Head(path), k)
    ensures (k, Tails(paths, Head(path))) in Wanted(g, fields, n, paths)
    ensures k < |g| && (Tail(path) != [] ==> Tail(path) in Tails(paths, Head(path)))
  {
    WantedFromIn(fields, g[n].id.type_, g[n].relations, paths, (k, Tails(paths, Head(path))));
    var i :| 0 <= i < |g[n].relations| && g[n].relations[i].0 == Head(path)
             && Shown(fields, g[n].id.type_, Head(path)) && k in Items(g[n].relations[i].1);
    assert Asked(paths, Head(path));
  }

  lemma {:induction false} WalkValid(g: Graph, fields: Fields, n: nat, path: string, m: nat)
    requires Closed(g) && Walk(g, fields, n, path, m)
    ensures m < |g|
    decreases |path|
  {
    var k: nat :| Leads(g, fields, n, Head(path), k)
                  && (k == m || (Tail(path) != [] && Walk(g, fields, k, Tail(path), m)));
    if k != m {
      WalkValid(g, fields, k, Tail(path), m);
    }
  }

  /** A skipped visit carries a path that no emitting visit of its node carries. */
  ghost predicate Uncarried(emitted: seq<Visit>, skipped: seq<Visit>, w: Visit, path: string) {
    w in skipped && path in w.1 && forall e :: e in emitted && e.0 == w.0 ==> path !in e.1
  }

  /** An emitting visit has this identity. */
  ghost predicate Represented(g: Graph, emitted: seq<Visit>, id: Id) {
    exists e :: e in emitted && e.0 < |g| && g[e.0].id == id
  }

  /** What one of these paths leads to. */
  ghost predicate LostAt(g: Graph, fields: Fields, emitted: seq<Visit>, skipped: seq<Visit>, m: nat) {
    exists w, path :: Uncarried(emitted, skipped, w, path) && Walk(g, fields, w.0, path, m)
  }

  /** Following a walk from a visit, one arrives at an emitted identity or turns into a path that a skipped
      visit carries alone. */
  lemma {:induction false} WalkFromTaken(g: Graph, fields: Fields, emitted: seq<Visit>, skipped: seq<Visit>,
                                         w: Visit, path: string, m: nat)
    requires Closed(g) && Valid(g, emitted) && Valid(g, skipped) && AllTaken(g, fields, [], emitted, skipped)
    requires forall v :: v in skipped ==> Represented(g, emitted, g[v.0].id)
    requires Taken(w, emitted, skipped) && path in w.1 && Walk(g, fields, w.0, path, m)
    ensures m < |g| && (Represented(g, emitted, g[m].id) || LostAt(g, fields, emitted, skipped, m))
    decreases |path|
  {
    hide Wanted, Closed, Head, Tail, Tails;
    WalkValid(g, fields, w.0, path, m);
    if Uncarried(emitted, skipped, w, path) {
      assert LostAt(g, fields, emitted, skipped, m);
    } else {
      hide LostAt;
      var e :| e in emitted && e.0 == w.0 && path in e.1;
      var k: nat :| Leads(g, fields, e.0, Head(path), k)
                    && (k == m || (Tail(path) != [] && Walk(g, fields, k, Tail(path), m)));
      WalkWants(g, fields, e.0, e.1, path, k);
      var next := (k, Tails(e.1, Head(path)));
      assert Taken(next, emitted, skipped);
      hide AllTaken, Walk;
      if k != m {
        WalkFromTaken(g, fields, emitted, skipped, next, Tail(path), m);
      }
    }
  }

  // --- documents ----------------------------------------------------------------------------------------

  datatype Document = Document(data: seq<Object>, included: seq<Object>)

  ghost predicate NodesOf(g: Graph, ns: seq<nat>) {
    forall i :: 0 <= i < |ns| ==> ns[i] < |g|
  }

  /** What a document with these primary resources asks for. */
  function Requested(g: Graph, fields: Fields, primaries: seq<nat>, paths: set<string>): (todo: seq<Visit>)
    requires Closed(g) && NodesOf(g, primaries)
    ensures Valid(g, todo)
  {
    if primaries == [] then []
    else
      WantedValid(g, fields, primaries[0], paths);
      Wanted(g, fields, primaries[0], paths) + Requested(g, fields, primaries[1..], paths)
  }

  function DataOf(g: Graph, fields: Fields, primaries: seq<nat>): (os: seq<Object>)
    requires Closed(g) && NodesOf(g, primaries)
    ensures |os| == |primaries| && forall i :: 0 <= i < |os| ==> os[i] == Render(g, fields, primaries[i])
  {
    seq(|primaries|, i requires 0 <= i < |primaries| => Render(g, fields, primaries[i]))
  }

  function Payload(g: Graph, fields: Fields, primaries: seq<nat>, paths: set<string>): Document
    requires Closed(g) && NodesOf(g, primaries)
  {
    Document(DataOf(g, fields, primaries), Collect(g, fields, Requested(g, fields, primaries, paths), {}).0)
  }

  lemma {:induction false} RequestedIn(g: Graph, fields: Fields, primaries: seq<nat>, paths: set<string>, v: Visit)
    requires Closed(g) && NodesOf(g, primaries)
    ensures v in Requested(g, fields, primaries, paths) <==>
            exists n :: n in primaries && v in Wanted(g, fields, n, paths)
  {
    if primaries != [] {
      assert primaries == [primaries[0]] + primaries[1..];
      RequestedIn(g, fields, primaries[1..], paths, v);
    }
  }

  /** A primary resource's relation, asked for by name and not hidden, leads to that identity. */
  ghost predicate AsksFor(g: Graph, fields: Fields, primaries: seq<nat>, paths: set<string>, id: Id)
    requires NodesOf(g, primaries)
  {
    exists n, v :: n in primaries && v in Wanted(g, fields, n, paths) && v.0 < |g| && g[v.0].id == id
  }

  lemma RequestedAsks(g: Graph, fields: Fields, primaries: seq<nat>, paths: set<string>, id: Id)
    requires Closed(g) && NodesOf(g, primaries)
    ensures AsksFor(g, fields, primaries, paths, id) <==>
            exists v :: v in Requested(g, fields, primaries, paths) && g[v.0].id == id
  {
    hide Wanted, Closed;
    forall v ensures v in Requested(g, fields, primaries, paths) <==>
                     exists n :: n in primaries && v in Wanted(g, fields, n, paths)
    {
      RequestedIn(g, fields, primaries, paths, v);
    }
    hide Requested;
  }

  /** On any graph, cyclic or not: no two included objects share type and id; each is named by a linkage
      in the primary data or in an earlier included object; and all that was asked for directly is there. */
  lemma CompoundDocument(g: Graph, fields: Fields, primaries: seq<nat>, paths: set<string>)
    requires Closed(g) && NodesOf(g, primaries)
    ensures var doc := Payload(g, fields, primaries, paths);
            && DistinctIds(doc.included)
            && Linked(doc.included, doc.data)
            && forall id :: AsksFor(g, fields, primaries, paths, id) ==> id in Ids(doc.included)
  {
    hide Collect, Render, Wanted, Linked, DistinctIds, Ids, Named, Requested, Closed, AsksFor;
    var todo := Requested(g, fields, primaries, paths);
    CollectDistinct(g, fields, todo, {});
    CollectComplete(g, fields, todo, {});
    forall id | AsksFor(g, fields, primaries, paths, id) ensures id in Collect(g, fields, todo, {}).1 {
      RequestedAsks(g, fields, primaries, paths, id);
    }
    forall v | v in todo ensures Named(g[v.0].id, DataOf(g, fields, primaries)) {
      RequestedNamed(g, fields, primaries, paths, v);
    }
    CollectLinked(g, fields, todo, {}, DataOf(g, fields, primaries));
  }

  lemma RequestedNamed(g: Graph, fields: Fields, primaries: seq<nat>, paths: set<string>, v: Visit)
    requires Closed(g) && NodesOf(g, primaries) && v in Requested(g, fields, primaries, paths)
    ensures Named(g[v.0].id, DataOf(g, fields, primaries))
  {
    hide Render, Wanted;
    RequestedIn(g, fields, primaries, paths, v);
    var n :| n in primaries && v in Wanted(g, fields, n, paths);
    var i :| 0 <= i < |primaries| && primaries[i] == n;
    WantedNamed(g, fields, n, paths, v);
    assert DataOf(g, fields, primaries)[i] in DataOf(g, fields, primaries);
  }

  /** Along one of the paths, from one of the primary resources, one arrives at `m`. */
  ghost predicate PathsReach(g: Graph, fields: Fields, primaries: seq<nat>, paths: set<string>, m: nat) {
    m < |g| && exists n, p :: n in primaries && p in paths && Walk(g, fields, n, p, m)
  }

  /** Nothing is included that the paths do not lead to. */
  lemma IncludedIsReached(g: Graph, fields: Fields, primaries: seq<nat>, paths: set<string>, o: Object)
    requires Closed(g) && NodesOf(g, primaries)
    requires o in Payload(g, fields, primaries, paths).included
    ensures exists m: nat :: PathsReach(g, fields, primaries, paths, m) && o == Render(g, fields, m)
  {
    hide Collect, Render, Wanted, Walk;
    var todo := Requested(g, fields, primaries, paths);
    CollectReached(g, fields, todo, {}, o);
    var v: Visit, m: nat :| v in todo && m < |g| && o == Render(g, fields, m) && Reaches(g, fields, v, m);
    RequestedReach(g, fields, primaries, paths, v, m);
  }

  lemma RequestedReach(g: Graph, fields: Fields, primaries: seq<nat>, paths: set<string>, v: Visit, m: nat)
    requires Closed(g) && NodesOf(g, primaries) && v in Requested(g, fields, primaries, paths)
    requires m < |g| && Reaches(g, fields, v, m)
    ensures PathsReach(g, fields, primaries, paths, m)
  {
    hide Wanted, Walk;
    RequestedIn(g, fields, primaries, paths, v);
    var n :| n in primaries && v in Wanted(g, fields, n, paths);
    WantedReaches(g, fields, n, paths, v, m);
  }

  ghost function EmittedBy(g: Graph, fields: Fields, primaries: seq<nat>, paths: set<string>): (vs: seq<Visit>)
    requires Closed(g) && NodesOf(g, primaries)
    ensures Valid(g, vs)
  {
    VisitsTaken(g, fields, Requested(g, fields, primaries, paths), {});
    Emitted(g, fields, Requested(g, fields, primaries, paths), {})
  }

  ghost function SkippedBy(g: Graph, fields: Fields, primaries: seq<nat>, paths: set<string>): (vs: seq<Visit>)
    requires Closed(g) && NodesOf(g, primaries)
    ensures Valid(g, vs)
  {
    VisitsTaken(g, fields, Requested(g, fields, primaries, paths), {});
    Skipped(g, fields, Requested(g, fields, primaries, paths), {})
  }

  /** The included identities are those of the emitting visits, and no visit is skipped but for one of them. */
  lemma IncludedAreEmitted(g: Graph, fields: Fields, primaries: seq<nat>, paths: set<string>)
    requires Closed(g) && NodesOf(g, primaries)
    ensures var (emitted, skipped) := (EmittedBy(g, fields, primaries, paths), SkippedBy(g, fields, primaries, paths));
            && (forall id :: id in Ids(Payload(g, fields, primaries, paths).included) <==> Represented(g, emitted, id))
            && forall v :: v in skipped ==> Represented(g, emitted, g[v.0].id)
  {
    hide Collect, Render, Wanted, Closed, Emitted, Skipped, Ids, Requested;
    var todo := Requested(g, fields, primaries, paths);
    var emitted := EmittedBy(g, fields, primaries, paths);
    forall id ensures id in Ids(Payload(g, fields, primaries, paths).included) <==> Represented(g, emitted, id) {
      if id in Ids(Payload(g, fields, primaries, paths).included) {
        EmittedCovers(g, fields, todo, {}, id);
      }
      if e :| e in emitted && e.0 < |g| && g[e.0].id == id {
        EmittedIds(g, fields, todo, {}, e);
      }
    }
    forall v | v in SkippedBy(g, fields, primaries, paths) ensures Represented(g, emitted, g[v.0].id) {
      TakenIncluded(g, fields, primaries, paths, v);
    }
  }

  /** A walk from a primary resource arrives at an emitted identity or at one that is lost. */
  lemma WalkFromPrimary(g: Graph, fields: Fields, primaries: seq<nat>, paths: set<string>, m: nat)
    requires Closed(g) && NodesOf(g, primaries) && PathsReach(g, fields, primaries, paths, m)
    ensures var (emitted, skipped) := (EmittedBy(g, fields, primaries, paths), SkippedBy(g, fields, primaries, paths));
            Represented(g, emitted, g[m].id) || LostAt(g, fields, emitted, skipped, m)
  {
    hide Wanted, Closed, Head, Tail, Tails, Emitted, Skipped, Requested, LostAt, Ids, Payload;
    var (emitted, skipped) := (EmittedBy(g, fields, primaries, paths), SkippedBy(g, fields, primaries, paths));
    IncludedAreEmitted(g, fields, primaries, paths);
    var n, path :| n in primaries && path in paths && Walk(g, fields, n, path, m);
    var k: nat :| Leads(g, fields, n, Head(path), k)
                  && (k == m || (Tail(path) != [] && Walk(g, fields, k, Tail(path), m)));
    WalkWants(g, fields, n, paths, path, k);
    var w := (k, Tails(paths, Head(path)));
    RequestedIn(g, fields, primaries, paths, w);
    VisitsTaken(g, fields, Requested(g, fields, primaries, paths), {});
    assert Taken(w, emitted, skipped);
    hide Walk;
    if k != m {
      WalkFromTaken(g, fields, emitted, skipped, w, Tail(path), m);
    }
  }

  /** Every identity the paths lead to is included. */
  ghost predicate AllReachedIncluded(g: Graph, fields: Fields, primaries: seq<nat>, paths: set<string>)
    requires Closed(g) && NodesOf(g, primaries)
  {
    forall m: nat :: PathsReach(g, fields, primaries, paths, m) ==>
      g[m].id in Ids(Payload(g, fields, primaries, paths).included)
  }

  /** What the paths lead to is missing from the document if and only if a skipped visit carries a path that
      no emitting visit of its node carries, and that path leads to an identity that no visit emits. */
  lemma IncompleteIffSkippingLoses(g: Graph, fields: Fields, primaries: seq<nat>, paths: set<string>)
    requires Closed(g) && NodesOf(g, primaries)
    ensures var (emitted, skipped) := (EmittedBy(g, fields, primaries, paths), SkippedBy(g, fields, primaries, paths));
            AllReachedIncluded(g, fields, primaries, paths) <==>
            forall m: nat :: m < |g| && LostAt(g, fields, emitted, skipped, m) ==> Represented(g, emitted, g[m].id)
  {
    hide Collect, Render, Wanted, Walk, Emitted, Skipped, Ids, Closed, Requested, Represented;
    var todo := Requested(g, fields, primaries, paths);
    var (emitted, skipped) := (EmittedBy(g, fields, primaries, paths), SkippedBy(g, fields, primaries, paths));
    IncludedAreEmitted(g, fields, primaries, paths);
    forall m: nat | m < |g| && LostAt(g, fields, emitted, skipped, m)
      ensures PathsReach(g, fields, primaries, paths, m)
    {
      var w, path :| Uncarried(emitted, skipped, w, path) && Walk(g, fields, w.0, path, m);
      assert Reaches(g, fields, w, m);
      SkippedReached(g, fields, todo, {}, w, m);
      var v :| v in todo && Reaches(g, fields, v, m);
      RequestedReach(g, fields, primaries, paths, v, m);
    }
    hide LostAt, PathsReach;
    forall m: nat | PathsReach(g, fields, primaries, paths, m)
      ensures m < |g| && (Represented(g, emitted, g[m].id) || LostAt(g, fields, emitted, skipped, m))
    {
      PathsReachNode(g, fields, primaries, paths, m);
      WalkFromPrimary(g, fields, primaries, paths, m);
    }
  }

  lemma PathsReachNode(g: Graph, fields: Fields, primaries: seq<nat>, paths: set<string>, m: nat)
    requires PathsReach(g, fields, primaries, paths, m)
    ensures m < |g|
  {
  }

  /** No identity is visited again with a path its first visit did not already carry. */
  ghost predicate CarriesAll(emitted: seq<Visit>, skipped: seq<Visit>) {
    forall w :: w in skipped ==> w.1 == {} || exists e :: e in emitted && e.0 == w.0 && w.1 <= e.1
  }

  lemma TakenIncluded(g: Graph, fields: Fields, primaries: seq<nat>, paths: set<string>, w: Visit)
    requires Closed(g) && NodesOf(g, primaries)
    requires Taken(w, EmittedBy(g, fields, primaries, paths), SkippedBy(g, fields, primaries, paths))
    ensures w.0 < |g| && g[w.0].id in Ids(Payload(g, fields, primaries, paths).included)
  {
    hide Collect, Render, Wanted, Closed, Emitted, Skipped, Ids;
    var todo := Requested(g, fields, primaries, paths);
    if w in EmittedBy(g, fields, primaries, paths) {
      EmittedIds(g, fields, todo, {}, w);
    } else {
      SkippedIds(g, fields, todo, {}, w);
      CollectDistinct(g, fields, todo, {});
    }
  }

  /** If every repeated visit only carries paths that the first one carried, the included identities are
      exactly those the paths lead to. So a primary resource is included again if and only if some path
      leads back to its identity. */
  lemma IncludedIffReached(g: Graph, fields: Fields, primaries: seq<nat>, paths: set<string>, id: Id)
    requires Closed(g) && NodesOf(g, primaries)
    requires CarriesAll(EmittedBy(g, fields, primaries, paths), SkippedBy(g, fields, primaries, paths))
    ensures id in Ids(Payload(g, fields, primaries, paths).included) <==>
            exists m: nat :: PathsReach(g, fields, primaries, paths, m) && g[m].id == id
  {
    hide Collect, Render, Wanted, Emitted, Skipped, Closed, Requested;
    if id in Ids(Payload(g, fields, primaries, paths).included) {
      var o :| o in Payload(g, fields, primaries, paths).included && o.id == id;
      IncludedIsReached(g, fields, primaries, paths, o);
    }
    IncompleteIffSkippingLoses(g, fields, primaries, paths);
    assert AllReachedIncluded(g, fields, primaries, paths);
  }

  /** The visits the paths ask for `k` steps behind the primary resources, on the graph alone. */
  ghost predicate ArisesAt(g: Graph, fields: Fields, primaries: seq<nat>, paths: set<string>, v: Visit, k: nat)
    requires Closed(g) && NodesOf(g, primaries)
    decreases k
  {
    if k == 0 then v in Requested(g, fields, primaries, paths)
    else exists u: Visit ::
      ArisesAt(g, fields, primaries, paths, u, k - 1) && u.0 < |g| && v in Wanted(g, fields, u.0, u.1)
  }

  ghost predicate Arises(g: Graph, fields: Fields, primaries: seq<nat>, paths: set<string>, v: Visit)
    requires Closed(g) && NodesOf(g, primaries)
  {
    exists k: nat :: ArisesAt(g, fields, primaries, paths, v, k)
  }

  lemma ArisesNext(g: Graph, fields: Fields, primaries: seq<nat>, paths: set<string>, u: Visit, v: Visit)
    requires Closed(g) && NodesOf(g, primaries) && Arises(g, fields, primaries, paths, u)
    requires u.0 < |g| && v in Wanted(g, fields, u.0, u.1)
    ensures Arises(g, fields, primaries, paths, v)
  {
    hide Wanted, Closed;
    var k: nat :| ArisesAt(g, fields, primaries, paths, u, k);
    assert ArisesAt(g, fields, primaries, paths, v, k + 1);
  }

  /** No two of these visits share an identity without being the same visit. */
  ghost predicate Unambiguous(g: Graph, fields: Fields, primaries: seq<nat>, paths: set<string>)
    requires Closed(g) && NodesOf(g, primaries)
  {
    forall v: Visit, w: Visit ::
      (Arises(g, fields, primaries, paths, v) && Arises(g, fields, primaries, paths, w)
       && v.0 < |g| && w.0 < |g| && g[v.0].id == g[w.0].id) ==> v == w
  }

  lemma {:induction false} VisitsArise(g: Graph, fields: Fields, primaries: seq<nat>, paths: set<string>,
                                       todo: seq<Visit>, seen: set<Id>, v: Visit)
    requires Closed(g) && NodesOf(g, primaries) && Valid(g, todo)
    requires forall u :: u in todo ==> Arises(g, fields, primaries, paths, u)
    requires v in Emitted(g, fields, todo, seen) || v in Skipped(g, fields, todo, seen)
    ensures Arises(g, fields, primaries, paths, v)
    decreases AllIds(g) - seen, |todo|
  {
    hide Collect, Wanted, Closed, Descend, Arises;
    if todo != [] {
      CollectStep(g, fields, todo, seen);
      var (n, tails) := todo[0];
      var id := g[n].id;
      assert todo[0] in todo && forall u :: u in todo[1..] ==> u in todo;
      var after := if id in seen then seen else Descend(g, fields, n, tails, seen).1;
      if v in Emitted(g, fields, todo[1..], after) || v in Skipped(g, fields, todo[1..], after) {
        VisitsArise(g, fields, primaries, paths, todo[1..], after, v);
      } else if v != todo[0] {
        forall u | u in Wanted(g, fields, n, tails) ensures Arises(g, fields, primaries, paths, u) {
          ArisesNext(g, fields, primaries, paths, todo[0], u);
        }
        VisitsArise(g, fields, primaries, paths, Wanted(g, fields, n, tails), seen + {id}, v);
      }
    }
  }

  lemma {:induction false} EmittedCovers(g: Graph, fields: Fields, todo: seq<Visit>, seen: set<Id>, id: Id)
    requires Closed(g) && Valid(g, todo) && id in Ids(Collect(g, fields, todo, seen).0)
    ensures exists v :: v in Emitted(g, fields, todo, seen) && v.0 < |g| && g[v.0].id == id
    decreases AllIds(g) - seen, |todo|
  {
    hide Collect, Render, Wanted, Closed, Ids, Descend;
    if todo == [] {
      CollectNothing(g, fields, seen);
      NoObjects();
    } else {
      CollectStep(g, fields, todo, seen);
      var (n, tails) := todo[0];
      var first := g[n].id;
      var sub := Descend(g, fields, n, tails, seen);
      var after := if first in seen then seen else sub.1;
      var rest := Collect(g, fields, todo[1..], after).0;
      IdsOf([Render(g, fields, n)], sub.0, rest, Render(g, fields, n));
      if id in Ids(rest) {
        EmittedCovers(g, fields, todo[1..], after, id);
      } else if id != first {
        DescendIs(g, fields, n, tails, seen);
        EmittedCovers(g, fields, Wanted(g, fields, n, tails), seen + {first}, id);
      }
    }
  }

  lemma DescendIs(g: Graph, fields: Fields, n: nat, tails: set<string>, seen: set<Id>)
    requires Closed(g) && n < |g|
    ensures Valid(g, Wanted(g, fields, n, tails))
    ensures tails == {} ==> Ids(Descend(g, fields, n, tails, seen).0) == {}
    ensures tails != {} ==> Descend(g, fields, n, tails, seen) ==
                            Collect(g, fields, Wanted(g, fields, n, tails), seen + {g[n].id})
  {
    WantedValid(g, fields, n, tails);
  }

  /** What a client can tell from the graph and the paths alone: where no two of the visits asked for
      share an identity without being the same, the document includes exactly what the paths lead to. */
  lemma UnambiguousIsComplete(g: Graph, fields: Fields, primaries: seq<nat>, paths: set<string>, id: Id)
    requires Closed(g) && NodesOf(g, primaries) && Unambiguous(g, fields, primaries, paths)
    ensures id in Ids(Payload(g, fields, primaries, paths).included) <==>
            exists m: nat :: PathsReach(g, fields, primaries, paths, m) && g[m].id == id
  {
    hide Collect, Render, Wanted, Emitted, Skipped, Closed, Requested, Walk, Ids;
    var todo := Requested(g, fields, primaries, paths);
    var (emitted, skipped) := (EmittedBy(g, fields, primaries, paths), SkippedBy(g, fields, primaries, paths));
    forall u | u in todo ensures Arises(g, fields, primaries, paths, u) {
      assert ArisesAt(g, fields, primaries, paths, u, 0);
    }
    hide Arises;
    forall w | w in skipped ensures exists e :: e in emitted && e.0 == w.0 && w.1 <= e.1 {
      TakenIncluded(g, fields, primaries, paths, w);
      EmittedCovers(g, fields, todo, {}, g[w.0].id);
      var e :| e in emitted && e.0 < |g| && g[e.0].id == g[w.0].id;
      VisitsArise(g, fields, primaries, paths, todo, {}, w);
      VisitsArise(g, fields, primaries, paths, todo, {}, e);
      assert e == w;
    }
    IncludedIffReached(g, fields, primaries, paths, id);
  }

  /** For paths without a dot no visit carries any path, so that is always so. */
  lemma PrimaryRepeatedIff(g: Graph, fields: Fields, primaries: seq<nat>, paths: set<string>, id: Id)
    requires Closed(g) && NodesOf(g, primaries) && forall p :: p in paths ==> Tail(p) == []
    ensures id in Ids(Payload(g, fields, primaries, paths).included) <==>
            AsksFor(g, fields, primaries, paths, id)
  {
    hide Collect, Render, Ids, Closed, Wanted, AsksFor, Emitted, Skipped, Walk;
    var todo := Requested(g, fields, primaries, paths);
    RequestedAsks(g, fields, primaries, paths, id);
    forall v | v in todo ensures v.1 == {} {
      RequestedIn(g, fields, primaries, paths, v);
      var n :| n in primaries && v in Wanted(g, fields, n, paths);
      WantedLeaf(g, fields, n, paths, v);
    }
    CollectComplete(g, fields, todo, {});
    CollectDistinct(g, fields, todo, {});
    if id in Ids(Payload(g, fields, primaries, paths).included) {
      var o := ObjectOf(Payload(g, fields, primaries, paths).included, id);
      CollectReached(g, fields, todo, {}, o);
      var v: Visit, m: nat :| v in todo && m < |g| && o == Render(g, fields, m) && Reaches(g, fields, v, m);
      RenderId(g, fields, m);
    }
  }

  lemma ObjectOf(os: seq<Object>, id: Id) returns (o: Object)
    requires id in Ids(os)
    ensures o in os && o.id == id
  {
    o :| o in os && o.id == id;
  }

  lemma RenderId(g: Graph, fields: Fields, n: nat)
    requires Closed(g) && n < |g|
    ensures Render(g, fields, n).id == g[n].id
  {
  }

  lemma WantedLeaf(g: Graph, fields: Fields, n: nat, paths: set<string>, v: Visit)
    requires n < |g| && v in Wanted(g, fields, n, paths) && forall p :: p in paths ==> Tail(p) == []
    ensures v.1 == {}
  {
    WantedFromIn(fields, g[n].id.type_, g[n].relations, paths, v);
  }

  // --- which requests are complete on every graph ---------------------------------------------------------

  /** Every identity belongs to one node. */
  ghost predicate UniqueNodes(g: Graph) {
    forall i, j :: 0 <= i < j < |g| ==> g[i].id != g[j].id
  }

  ghost predicate CompleteEverywhere(paths: set<string>) {
    forall g: Graph, fields: Fields, primaries: seq<nat> ::
      Closed(g) && UniqueNodes(g) && NodesOf(g, primaries) ==> AllReachedIncluded(g, fields, primaries, paths)
  }

  lemma UndottedIsComplete(g: Graph, fields: Fields, primaries: seq<nat>, paths: set<string>)
    requires Closed(g) && NodesOf(g, primaries) && forall p :: p in paths ==> Tail(p) == []
    ensures AllReachedIncluded(g, fields, primaries, paths)
  {
    hide Collect, Render, Ids, Closed, Wanted, Tail, Head, Payload;
    forall m: nat | PathsReach(g, fields, primaries, paths, m)
      ensures g[m].id in Ids(Payload(g, fields, primaries, paths).included)
    {
      var n, p :| n in primaries && p in paths && Walk(g, fields, n, p, m);
      WalkWants(g, fields, n, paths, p, m);
      assert AsksFor(g, fields, primaries, paths, g[m].id);
      PrimaryRepeatedIff(g, fields, primaries, paths, g[m].id);
    }
  }

  /** The path behind its first `k` segments. */
  function Behind(path: string, k: nat): string
    decreases k
  {
    if k == 0 then path else Behind(Tail(path), k - 1)
  }

  function Segments(path: string): (k: nat)
    ensures k > 0
    decreases |path|
  {
    if Tail(path) == [] then 1 else 1 + Segments(Tail(path))
  }

  lemma {:induction false} BehindNext(path: string, k: nat)
    ensures Behind(path, k + 1) == Tail(Behind(path, k))
    decreases k
  {
    if k > 0 {
      BehindNext(Tail(path), k - 1);
    }
  }

  lemma {:induction false} BehindEnds(path: string, k: nat)
    requires k < Segments(path)
    ensures Tail(Behind(path, k)) == [] <==> k + 1 == Segments(path)
    decreases k
  {
    if k > 0 {
      BehindEnds(Tail(path), k - 1);
    }
  }

  /** Node 0 leads by `head` to node 1 and to node `n + 1`, where `n` counts the segments of `tail`. From node
      1 the segments lead to node `n + 1`; from there the first one leads on to the last node. */
  function ChainRelation(head: string, tail: string, n: nat, k: nat): seq<(string, Related)>
  {
    if k == 0 then [(head, ToMany([1, n + 1]))]
    else if k <= n then [(Head(Behind(tail, k - 1)), ToOne(Some(k + 1)))]
    else if k == n + 1 then [(Head(tail), ToOne(Some(n + 2)))]
    else []
  }

  function Numbered(k: nat): (id: Id)
    ensures |id.id| == k
  {
    Id("", seq(k, i => 'x'))
  }

  function ChainGraph(head: string, tail: string): (g: Graph)
    ensures |g| == Segments(tail) + 3
    ensures forall k :: 0 <= k < |g| ==> g[k] == Node(Numbered(k), ChainRelation(head, tail, Segments(tail), k))
  {
    seq(Segments(tail) + 3, k requires 0 <= k < Segments(tail) + 3 =>
      Node(Numbered(k), ChainRelation(head, tail, Segments(tail), k)))
  }

  lemma TailLength(path: string)
    ensures Tail(path) != [] ==> |Tail(path)| == |path| - |Head(path)| - 1
  {
  }

  /** Of paths that begin alike the longest has the longest tail; so if its tail is empty, all are. */
  lemma TailsNoLonger(paths: set<string>, longest: string)
    requires longest in paths && forall p :: p in paths ==> |p| <= |longest|
    ensures forall t :: t in Tails(paths, Head(longest)) ==> |t| <= |Tail(longest)|
    ensures if Tail(longest) == [] then Tails(paths, Head(longest)) == {}
            else Tail(longest) in Tails(paths, Head(longest))
  {
    TailLength(longest);
    forall t | t in Tails(paths, Head(longest)) ensures 0 < |t| <= |Tail(longest)| {
      var p :| p in paths && Head(p) == Head(longest) && Tail(p) != [] && Tail(p) == t;
      TailLength(p);
      assert Dot(longest) == |Head(longest)| == |Head(p)|;
    }
  }

  ghost predicate Chain(g: Graph, head: string, tail: string) {
    && |g| == Segments(tail) + 3 && Closed(g) && UniqueNodes(g)
    && g[0].relations == [(head, ToMany([1, Segments(tail) + 1]))]
    && (forall k :: 0 <= k < Segments(tail) ==>
          g[k + 1].relations == [(Head(Behind(tail, k)), ToOne(Some(k + 2)))])
    && g[Segments(tail) + 1].relations == [(Head(tail), ToOne(Some(Segments(tail) + 2)))]
  }

  lemma ChainGraphIs(head: string, tail: string)
    ensures Chain(ChainGraph(head, tail), head, tail)
  {
    hide Head, Tail, Dot, Behind, Segments, ChainGraph, Numbered;
  }

  lemma ChainWanted(g: Graph, head: string, tail: string, k: nat, paths: set<string>)
    requires Chain(g, head, tail) && k < Segments(tail) && Behind(tail, k) in paths
    ensures k + 2 < |g| && Closed(g)
    ensures Wanted(g, map[], k + 1, paths) == [(k + 2, Tails(paths, Head(Behind(tail, k))))]
    ensures forall i :: k + 2 < i < |g| ==> g[i].id != g[k + 2].id
  {
    var name := Head(Behind(tail, k));
    assert Asked(paths, name);
    assert g[k + 1].relations == [(name, ToOne(Some(k + 2)))];
    hide Head, Tail, Dot, Behind, Segments, Chain, Tails, Asked, Closed;
    OneRelation(g[k + 1].id.type_, name, ToOne(Some(k + 2)), paths);
  }

  lemma ChainTails(tail: string, k: nat, paths: set<string>, tails: set<string>)
    requires k < Segments(tail) && tails == Tails(paths, Head(Behind(tail, k)))
    requires Behind(tail, k) in paths && forall p :: p in paths ==> |p| <= |Behind(tail, k)|
    ensures if k + 1 == Segments(tail) then tails == {}
            else Behind(tail, k + 1) in tails && forall t :: t in tails ==> |t| <= |Behind(tail, k + 1)|
  {
    TailsNoLonger(paths, Behind(tail, k));
    BehindNext(tail, k);
    BehindEnds(tail, k);
  }

  /** Walking down the chain emits its last node as a leaf, so it does not go on from there. */
  lemma {:induction false} ChainStops(g: Graph, head: string, tail: string, k: nat, paths: set<string>,
                                      seen: set<Id>)
    requires Chain(g, head, tail) && |g| == Segments(tail) + 3 && Closed(g) && k < Segments(tail)
    requires Behind(tail, k) in paths && forall p :: p in paths ==> |p| <= |Behind(tail, k)|
    requires forall i :: k + 1 < i < |g| ==> g[i].id !in seen
    ensures Valid(g, Wanted(g, map[], k + 1, paths))
    ensures var after := Collect(g, map[], Wanted(g, map[], k + 1, paths), seen).1;
            g[Segments(tail) + 1].id in after && g[Segments(tail) + 2].id !in after
    decreases Segments(tail) - k
  {
    hide Head, Tail, Dot, Behind, Segments, Chain, Tails, Collect, Render, Closed, Wanted, Descend;
    var tails := Tails(paths, Head(Behind(tail, k)));
    ChainTails(tail, k, paths, tails);
    ChainWanted(g, head, tail, k, paths);
    OneVisit(g, k + 2, tails, seen);
    if k + 1 < Segments(tail) {
      ChainStops(g, head, tail, k + 1, tails, seen + {g[k + 2].id});
    } else {
      WantedNothing(g, map[], k + 2);
      CollectNothing(g, map[], seen + {g[k + 2].id});
    }
  }

  /** One unseen visit. */
  lemma OneVisit(g: Graph, n: nat, tails: set<string>, seen: set<Id>)
    requires Closed(g) && n < |g| && g[n].id !in seen
    ensures Valid(g, Wanted(g, map[], n, tails)) && Valid(g, [(n, tails)])
    ensures Collect(g, map[], [(n, tails)], seen).1 ==
            Collect(g, map[], Wanted(g, map[], n, tails), seen + {g[n].id}).1
  {
    var visit: Visit := (n, tails);
    WantedValid(g, map[], n, tails);
    hide Collect, Render, Closed, Wanted;
    assert [visit][1..] == [];
    CollectStep(g, map[], [visit], seen);
    CollectNothing(g, map[], Descend(g, map[], n, tails, seen).1);
    if tails == {} {
      WantedNothing(g, map[], n);
      CollectNothing(g, map[], seen + {g[n].id});
    }
  }

  lemma Longest(paths: set<string>) returns (longest: string)
    requires paths != {}
    ensures longest in paths && forall p :: p in paths ==> |p| <= |longest|
  {
    longest :| longest in paths;
    var left := paths - {longest};
    while left != {}
      invariant left <= paths && longest in paths
      invariant forall p :: p in paths - left ==> |p| <= |longest|
    {
      var p :| p in left;
      if |p| > |longest| { longest := p; }
      left := left - {p};
    }
  }

  lemma ChainReaches(g: Graph, head: string, tail: string, paths: set<string>)
    requires Chain(g, head, tail) && tail in Tails(paths, head)
    ensures PathsReach(g, map[], [0], paths, Segments(tail) + 2)
  {
    var n := Segments(tail);
    var p :| p in paths && Head(p) == head && Tail(p) != [] && Tail(p) == tail;
    hide Head, Tail, Dot, Behind, Segments, Closed, Walk, UniqueNodes;
    assert Leads(g, map[], 0, head, n + 1) by { assert g[0].relations[0].0 == head; }
    assert Leads(g, map[], n + 1, Head(tail), n + 2) by { assert g[n + 1].relations[0].0 == Head(tail); }
    hide Leads, Chain;
    WalkOn(g, map[], n + 1, tail, n + 2, n + 2);
    WalkOn(g, map[], 0, p, n + 1, n + 2);
    assert 0 in [0];
  }

  lemma ChainRequested(g: Graph, head: string, tail: string, paths: set<string>)
    requires Chain(g, head, tail) && |g| == Segments(tail) + 3 && Closed(g) && tail in Tails(paths, head)
    ensures NodesOf(g, [0])
    ensures Requested(g, map[], [0], paths) == [(1, Tails(paths, head)), (Segments(tail) + 1, Tails(paths, head))]
    ensures forall i :: 1 < i < |g| ==> g[i].id != g[1].id
  {
    var n := Segments(tail);
    hide Head, Tail, Dot, Segments, Behind, Closed;
    assert Asked(paths, head);
    var relations := g[0].relations;
    assert relations == [(head, ToMany([1, n + 1]))];
    hide Chain, Tails, Asked;
    OneRelation(g[0].id.type_, head, ToMany([1, n + 1]), paths);
    assert [0][1..] == [];
  }

  /** The dotted path's own chain: its last node is emitted at the end of the longest path, as a leaf, and
      skipped where the path should go on from it. */
  lemma ChainLosesItsEnd(g: Graph, head: string, tail: string, paths: set<string>)
    requires Chain(g, head, tail) && |g| == Segments(tail) + 3 && Closed(g)
    requires tail in Tails(paths, head) && forall t :: t in Tails(paths, head) ==> |t| <= |tail|
    ensures NodesOf(g, [0]) && !AllReachedIncluded(g, map[], [0], paths)
  {
    hide Head, Tail, Dot, Behind, Segments, Chain, Tails, Collect, Render, Closed, Wanted, Walk, PathsReach,
         Requested, Descend, AllReachedIncluded;
    ChainReaches(g, head, tail, paths);
    ChainRequested(g, head, tail, paths);
    ChainMisses(g, head, tail, Tails(paths, head));
    MissingUnlessSeen(g, [0], paths, Segments(tail) + 2);
  }

  lemma ChainMisses(g: Graph, head: string, tail: string, tails: set<string>)
    requires Chain(g, head, tail) && |g| == Segments(tail) + 3 && Closed(g)
    requires tail in tails && forall t :: t in tails ==> |t| <= |tail|
    requires forall i :: 1 < i < |g| ==> g[i].id != g[1].id
    ensures Valid(g, [(1, tails), (Segments(tail) + 1, tails)])
    ensures g[Segments(tail) + 2].id !in Collect(g, map[], [(1, tails), (Segments(tail) + 1, tails)], {}).1
  {
    assert Behind(tail, 0) == tail;
    hide Head, Tail, Dot, Behind, Segments, Chain, Collect, Render, Closed, Wanted, WantedFrom, UniqueNodes, AllIds,
         Valid;
    var n: nat := Segments(tail);
    var seen: set<Id> := {g[1].id};
    ChainStops(g, head, tail, 0, tails, seen);
    SkippedAgain(g, 1, n + 1, tails);
  }

  lemma MissingUnlessSeen(g: Graph, primaries: seq<nat>, paths: set<string>, m: nat)
    requires Closed(g) && NodesOf(g, primaries) && PathsReach(g, map[], primaries, paths, m) && m < |g|
    requires g[m].id !in Collect(g, map[], Requested(g, map[], primaries, paths), {}).1
    ensures !AllReachedIncluded(g, map[], primaries, paths)
  {
    hide Collect, Render, Closed, Walk, PathsReach, Requested, Ids;
    CollectDistinct(g, map[], Requested(g, map[], primaries, paths), {});
  }

  /** A second visit of what the first one has led to adds nothing. */
  lemma SkippedAgain(g: Graph, first: nat, again: nat, tails: set<string>)
    requires Closed(g) && first < |g| && again < |g|
    requires Valid(g, Wanted(g, map[], first, tails))
    requires g[again].id in Collect(g, map[], Wanted(g, map[], first, tails), {g[first].id}).1
    ensures Valid(g, [(first, tails), (again, tails)])
    ensures Collect(g, map[], [(first, tails), (again, tails)], {}).1 ==
            Collect(g, map[], Wanted(g, map[], first, tails), {g[first].id}).1
  {
    hide Collect, Render, Closed, Wanted;
    var a: seq<Visit>, b: seq<Visit> := [(first, tails)], [(again, tails)];
    assert a + b == [(first, tails), (again, tails)] && {} + {g[first].id} == {g[first].id};
    OneVisit(g, first, tails, {});
    CollectConcat(g, map[], a, b, {});
    var after := Collect(g, map[], a, {}).1;
    assert b[1..] == [];
    CollectStep(g, map[], b, after);
    CollectNothing(g, map[], after);
  }

  /** What a client can tell from the request alone: the document has all that the paths lead to, whatever the
      graph, exactly when no path has a dot. */
  lemma CompleteEverywhereIffUndotted(paths: set<string>)
    ensures CompleteEverywhere(paths) <==> forall p :: p in paths ==> Tail(p) == []
  {
    if forall p :: p in paths ==> Tail(p) == [] {
      forall g: Graph, fields: Fields, primaries: seq<nat> | Closed(g) && UniqueNodes(g) && NodesOf(g, primaries)
        ensures AllReachedIncluded(g, fields, primaries, paths)
      {
        UndottedIsComplete(g, fields, primaries, paths);
      }
    } else {
      var p :| p in paths && Tail(p) != [];
      assert Tail(p) in Tails(paths, Head(p));
      var tail := Longest(Tails(paths, Head(p)));
      ChainGraphIs(Head(p), tail);
      ChainLosesItsEnd(ChainGraph(Head(p), tail), Head(p), tail, paths);
    }
  }

  /** Node 0 leads to node 1 by `a` and by `b`, node 1 to node 2 by `c`. */
  function MeetingGraph(x: Id, y: Id, z: Id): (g: Graph)
    ensures Closed(g)
  {
    [Node(x, [("a", ToOne(Some(1))), ("b", ToOne(Some(1)))]), Node(y, [("c", ToOne(Some(2)))]), Node(z, [])]
  }

  /** Two paths meet at one resource and only the later one goes on: what lies beyond is missing. */
  lemma ConvergingPathsLoseAResource(x: Id, y: Id, z: Id)
    requires y != z
    ensures var g := MeetingGraph(x, y, z);
            && NodesOf(g, [0])
            && PathsReach(g, map[], [0], {"a", "b.c"}, 2) && g[2].id == z
            && Ids(Payload(g, map[], [0], {"a", "b.c"}).included) == {y}
  {
    MeetingWanted(x, y, z);
    MeetingReach(x, y, z);
    hide Wanted, Collect, Closed, Render, PathsReach;
    MeetAgain(MeetingGraph(x, y, z), {"a", "b.c"});
  }

  lemma MeetingWanted(x: Id, y: Id, z: Id)
    ensures Wanted(MeetingGraph(x, y, z), map[], 0, {"a", "b.c"}) == [(1, {}), (1, {"c"})]
  {
    var relations := [("a", ToOne(Some(1))), ("b", ToOne(Some(1)))];
    MeetingParts();
    assert relations[1..] == [("b", ToOne(Some(1)))];
    hide Head, Tail, Dot, Asked, Tails;
    OneRelation(x.type_, "b", ToOne(Some(1)), {"a", "b.c"});
  }

  lemma MeetingReach(x: Id, y: Id, z: Id)
    ensures PathsReach(MeetingGraph(x, y, z), map[], [0], {"a", "b.c"}, 2)
  {
    var g := MeetingGraph(x, y, z);
    MeetingParts();
    assert g[0].relations[1].0 == "b" && g[1].relations[0].0 == "c";
    assert Leads(g, map[], 0, "b", 1) && Leads(g, map[], 1, "c", 2);
    hide Head, Tail, Leads;
    WalkOn(g, map[], 1, "c", 2, 2);
    WalkOn(g, map[], 0, "b.c", 1, 2);
    hide Walk;
    assert 0 in [0] && "b.c" in {"a", "b.c"};
  }

  lemma MeetAgain(g: Graph, paths: set<string>)
    requires Closed(g) && |g| == 3 && Wanted(g, map[], 0, paths) == [(1, {}), (1, {"c"})]
    ensures NodesOf(g, [0]) && Ids(Payload(g, map[], [0], paths).included) == {g[1].id}
  {
    hide Wanted, Collect, Closed, Render;
    var first: Visit, again: Visit := (1, {}), (1, {"c"});
    assert Requested(g, map[], [0], paths) == [first, again] by { assert [0][1..] == []; }
    assert [first, again][1..] == [again] && [again][1..] == [];
    assert {} + {g[1].id} == {g[1].id};
    CollectStep(g, map[], [first, again], {});
    CollectStep(g, map[], [again], {g[1].id});
    CollectNothing(g, map[], {g[1].id});
    OneObject(Render(g, map[], 1));
    assert [Render(g, map[], 1)] + [] + [] == [Render(g, map[], 1)];
  }

  lemma MeetingParts()
    ensures Head("a") == "a" && Head("b.c") == "b" && Tail("b.c") == "c" && Head("c") == "c"
    ensures Asked({"a", "b.c"}, "a") && Asked({"a", "b.c"}, "b")
    ensures Tails({"a", "b.c"}, "a") == {} && Tails({"a", "b.c"}, "b") == {"c"}
  {
    assert "b.c"[1..] == ".c" && "a"[1..] == [] && "c"[1..] == [];
    assert Dot(".c") == 0 && Dot("b.c") == 1 && Dot("a") == 1 && Dot("c") == 1;
    assert Tail("a") == [];
    var paths := {"a", "b.c"};
    assert "a" in paths && "b.c" in paths;
    hide Dot;
    forall t ensures t in Tails(paths, "b") <==> t == "c" {}
  }

  /** A path that leads back to the primary resource includes it a second time. */
  lemma CyclicIncludeRepeatsPrimary(post: Id, user: Id)
    requires post != user
    ensures var g := [Node(post, [("u", ToOne(Some(1)))]), Node(user, [("p", ToMany([0]))])];
            && Closed(g) && NodesOf(g, [0])
            && post in Ids(Payload(g, map[], [0], {"u.p"}).included)
            && Payload(g, map[], [0], {"u.p"}).data[0].id == post
  {
    var g := [Node(post, [("u", ToOne(Some(1)))]), Node(user, [("p", ToMany([0]))])];
    TailParts();
    hide Head, Tail, Dot, Collect, Render, Asked, Tails;
    OneRelation(post.type_, "u", ToOne(Some(1)), {"u.p"});
    OneRelation(user.type_, "p", ToMany([0]), {"p"});
    BackAgain(g, {"u.p"}, {"p"});
  }

  lemma BackAgain(g: Graph, paths: set<string>, tails: set<string>)
    requires Closed(g) && |g| == 2 && g[0].id != g[1].id && tails != {}
    requires Wanted(g, map[], 0, paths) == [(1, tails)] && Wanted(g, map[], 1, tails) == [(0, {})]
    ensures NodesOf(g, [0]) && g[0].id in Ids(Payload(g, map[], [0], paths).included)
  {
    hide Wanted, Collect, Closed, Render;
    var (there, back) := ([(1, tails)], [(0, {})]);
    assert Requested(g, map[], [0], paths) == there by { assert [0][1..] == []; }
    CollectStep(g, map[], there, {});
    CollectStep(g, map[], back, {g[1].id});
    assert {} + {g[1].id} == {g[1].id};
    var again := Collect(g, map[], back, {g[1].id});
    assert Render(g, map[], 0) in again.0;
    var rest := Collect(g, map[], there[1..], again.1);
    assert Collect(g, map[], there, {}).0 == [Render(g, map[], 1)] + again.0 + rest.0;
    assert Render(g, map[], 0) in Payload(g, map[], [0], paths).included;
  }

  lemma OneRelation(type_: string, name: string, related: Related, paths: set<string>)
    requires Asked(paths, name)
    ensures WantedFrom(map[], type_, [(name, related)], paths) == Visits(Items(related), Tails(paths, name))
  {
    assert [(name, related)][1..] == [];
  }

  lemma TailParts()
    ensures Asked({"u.p"}, "u") && Asked({"p"}, "p")
    ensures Tails({"u.p"}, "u") == {"p"} && Tails({"p"}, "p") == {}
  {
    PathParts();
    hide Head, Tail;
  }

  lemma PathParts()
    ensures Head("u.p") == "u" && Tail("u.p") == "p" && Head("p") == "p" && Tail("p") == []
    ensures Asked({"u.p"}, "u") && Asked({"p"}, "p")
  {
    assert "u.p"[1..] == ".p" && "p"[1..] == [];
    assert Dot(".p") == 0 && Dot("u.p") == 1 && Dot("p") == 1;
    assert "u.p" in {"u.p"} && Head("u.p") == "u";
    assert "p" in {"p"} && Head("p") == "p";
  }

  // --- the walk as it runs: one shared set of what was seen -----------------------------------------------

  /** What was emitted so far, and what remains, make up the whole walk. */
  ghost predicate Continues(g: Graph, fields: Fields, all: seq<Visit>, start: set<Id>,
                            included: seq<Object>, todo: seq<Visit>, seen: set<Id>)
    requires Closed(g) && Valid(g, all)
  {
    && start <= seen && Valid(g, todo)
    && Collect(g, fields, all, start) ==
         (included + Collect(g, fields, todo, seen).0, Collect(g, fields, todo, seen).1)
  }

  lemma Assoc(a: seq<Object>, o: Object, b: seq<Object>, c: seq<Object>)
    ensures a + ([o] + b + c) == a + [o] + b + c
    ensures [o] + b + (c + a) == [o] + b + c + a
  {
  }

  lemma ContinuesStep(g: Graph, fields: Fields, all: seq<Visit>, start: set<Id>,
                      included: seq<Object>, n: nat, tails: set<string>, rest: seq<Visit>, seen: set<Id>)
    requires Closed(g) && Valid(g, all) && Continues(g, fields, all, start, included, [(n, tails)] + rest, seen)
    ensures n < |g| && Valid(g, Wanted(g, fields, n, tails)) && g[n].id in AllIds(g)
    ensures var id := g[n].id;
            var sub := Descend(g, fields, n, tails, seen);
            if id in seen then Continues(g, fields, all, start, included, rest, seen)
            else Continues(g, fields, all, start, included + [Render(g, fields, n)] + sub.0, rest, sub.1)
  {
    var todo := [(n, tails)] + rest;
    assert todo[0] == (n, tails) && todo[1..] == rest;
    CollectStep(g, fields, todo, seen);
    hide Collect, Render, Wanted, Closed, AllIds, Descend;
    var sub := Descend(g, fields, n, tails, seen);
    if g[n].id !in seen {
      Assoc(included, Render(g, fields, n), sub.0, Collect(g, fields, rest, sub.1).0);
    }
  }

  lemma VisitsFrom(items: seq<nat>, j: nat, tails: set<string>, rest: seq<Visit>)
    requires j < |items|
    ensures Visits(items[j..], tails) + rest == [(items[j], tails)] + (Visits(items[j + 1..], tails) + rest)
  {
    assert items[j..] == [items[j]] + items[j + 1..];
  }

  lemma NoVisits(items: seq<nat>, tails: set<string>, rest: seq<Visit>)
    ensures Visits(items[|items|..], tails) + rest == rest
  {
  }

  lemma WantedFromNext(fields: Fields, type_: string, relations: seq<(string, Related)>, i: nat, paths: set<string>)
    requires i < |relations|
    ensures var (name, related) := relations[i];
            var rest := WantedFrom(fields, type_, relations[i + 1..], paths);
            WantedFrom(fields, type_, relations[i..], paths) ==
            if Asked(paths, name) && Shown(fields, type_, name)
            then Visits(Items(related), Tails(paths, name)) + rest else rest
  {
    assert relations[i..][1..] == relations[i + 1..];
  }

  lemma CollectMore(g: Graph, fields: Fields, todo: seq<Visit>, seen: set<Id>)
    requires Closed(g) && Valid(g, todo)
    ensures Continues(g, fields, todo, seen, [], todo, seen)
  {
    assert [] + Collect(g, fields, todo, seen).0 == Collect(g, fields, todo, seen).0;
  }

  lemma {:induction false} CollectConcat(g: Graph, fields: Fields, a: seq<Visit>, b: seq<Visit>, seen: set<Id>)
    requires Closed(g) && Valid(g, a) && Valid(g, b)
    ensures Valid(g, a + b)
    ensures var first := Collect(g, fields, a, seen);
            var second := Collect(g, fields, b, first.1);
            Collect(g, fields, a + b, seen) == (first.0 + second.0, second.1)
    decreases AllIds(g) - seen, |a|
  {
    assert Valid(g, a + b);
    hide Collect, Render, Wanted, Closed, Descend;
    if a == [] {
      CollectNothing(g, fields, seen);
      assert a + b == b && [] + Collect(g, fields, b, seen).0 == Collect(g, fields, b, seen).0;
    } else {
      assert (a + b)[1..] == a[1..] + b && (a + b)[0] == a[0];
      CollectStep(g, fields, a, seen);
      CollectStep(g, fields, a + b, seen);
      var (n, tails) := a[0];
      var id := g[n].id;
      var sub := Descend(g, fields, n, tails, seen);
      CollectConcat(g, fields, a[1..], b, if id in seen then seen else sub.1);
      if id !in seen {
        var first := Collect(g, fields, a[1..], sub.1);
        var second := Collect(g, fields, b, first.1);
        Assoc(second.0, Render(g, fields, n), sub.0, first.0);
      }
    }
  }

  class Walker {
    const g: Graph
    const fields: Fields
    var seen: set<Id>

    constructor (g: Graph, fields: Fields)
      ensures this.g == g && this.fields == fields && seen == {}
    {
      this.g := g;
      this.fields := fields;
      seen := {};
    }

    /** The paths by head segment; an empty tail marks a leaf. */
    method GroupPaths(paths: set<string>) returns (heads: map<string, set<string>>)
      ensures forall h :: h in heads <==> Asked(paths, h)
      ensures forall h :: h in heads ==> heads[h] == Tails(paths, h)
    {
      heads := map[];
      var left := paths;
      while left != {}
        invariant left <= paths
        invariant forall h :: h in heads <==> Asked(paths - left, h)
        invariant forall h :: h in heads ==> heads[h] == Tails(paths - left, h)
        decreases left
      {
        var p :| p in left;
        var tails := if Head(p) in heads then heads[Head(p)] else {};
        AskedOneMore(paths - left, p);
        assert paths - (left - {p}) == (paths - left) + {p};
        heads := heads[Head(p) := if Tail(p) == [] then tails else tails + {Tail(p)}];
        left := left - {p};
      }
      assert paths - left == paths;
    }

    /** Emits what the node's asked-for, unhidden relations lead to, each identity once. */
    method CollectIncluded(n: nat, paths: set<string>) returns (included: seq<Object>)
      requires Closed(g) && n < |g|
      modifies this
      ensures Valid(g, Wanted(g, fields, n, paths))
      ensures (included, seen) == Collect(g, fields, Wanted(g, fields, n, paths), old(seen))
      decreases AllIds(g) - seen
    {
      hide Collect, Render, Closed, Continues;
      var heads := GroupPaths(paths);
      var relations, type_ := g[n].relations, g[n].id.type_;
      ghost var all := Wanted(g, fields, n, paths);
      WantedValid(g, fields, n, paths);
      CollectMore(g, fields, all, seen);
      included := [];
      var i := 0;
      assert relations[0..] == relations;
      while i < |relations|
        invariant 0 <= i <= |relations| && old(seen) <= seen
        invariant Continues(g, fields, all, old(seen), included, WantedFrom(fields, type_, relations[i..], paths), seen)
      {
        var (name, related) := relations[i];
        WantedFromNext(fields, type_, relations, i, paths);
        if name in heads && Shown(fields, type_, name) {
          included := CollectItems(Items(related), heads[name], included, all, old(seen),
                                   WantedFrom(fields, type_, relations[i + 1..], paths));
        }
        i := i + 1;
      }
      NothingLeft(g, fields, all, old(seen), included, seen);
    }

    method CollectItems(items: seq<nat>, tails: set<string>, before: seq<Object>,
                        ghost all: seq<Visit>, ghost start: set<Id>, ghost rest: seq<Visit>)
      returns (included: seq<Object>)
      requires Closed(g) && Valid(g, all) && start <= seen
      requires Continues(g, fields, all, start, before, Visits(items, tails) + rest, seen)
      modifies this
      ensures start <= seen && Continues(g, fields, all, start, included, rest, seen)
      decreases AllIds(g) - start, 0
    {
      hide Collect, Render, Closed, Continues, Wanted;
      included := before;
      var j := 0;
      assert items[0..] == items;
      while j < |items|
        invariant 0 <= j <= |items| && start <= seen
        invariant Continues(g, fields, all, start, included, Visits(items[j..], tails) + rest, seen)
      {
        var n := items[j];
        VisitsFrom(items, j, tails, rest);
        ContinuesStep(g, fields, all, start, included, n, tails, Visits(items[j + 1..], tails) + rest, seen);
        if g[n].id !in seen {
          seen := seen + {g[n].id};
          included := included + [Render(g, fields, n)];
          if tails != {} {
            var sub := CollectIncluded(n, tails);
            included := included + sub;
          } else {
            assert included + [] == included;
          }
        }
        j := j + 1;
      }
      NoVisits(items, tails, rest);
    }

    /** A document over the primary resources. */
    method ToPayload(primaries: seq<nat>, paths: set<string>) returns (doc: Document)
      requires Closed(g) && NodesOf(g, primaries)
      modifies this
      ensures doc == Payload(g, fields, primaries, paths)
    {
      hide Collect, Render, Closed, Wanted;
      var data := DataOf(g, fields, primaries);
      seen := {};
      var included := [];
      var i := 0;
      CollectNothing(g, fields, {});
      assert primaries[..0] == [] && primaries[..|primaries|] == primaries;
      while i < |primaries|
        invariant 0 <= i <= |primaries|
        invariant (included, seen) == Collect(g, fields, Requested(g, fields, primaries[..i], paths), {})
      {
        var more := CollectIncluded(primaries[i], paths);
        RequestedSnoc(g, fields, primaries, i, paths);
        CollectConcat(g, fields, Requested(g, fields, primaries[..i], paths),
                      Wanted(g, fields, primaries[i], paths), {});
        included := included + more;
        i := i + 1;
      }
      doc := Document(data, included);
    }
  }

  lemma NothingLeft(g: Graph, fields: Fields, all: seq<Visit>, start: set<Id>, included: seq<Object>, seen: set<Id>)
    requires Closed(g) && Valid(g, all) && Continues(g, fields, all, start, included, [], seen)
    ensures (included, seen) == Collect(g, fields, all, start)
  {
    CollectNothing(g, fields, seen);
    assert included + [] == included;
  }

  lemma AskedOneMore(paths: set<string>, p: string)
    ensures forall h :: Asked(paths + {p}, h) <==> Asked(paths, h) || h == Head(p)
    ensures forall h :: Tails(paths + {p}, h) ==
              Tails(paths, h) + if h == Head(p) && Tail(p) != [] then {Tail(p)} else {}
    ensures forall h :: !Asked(paths, h) ==> Tails(paths, h) == {}
  {
    assert p in paths + {p};
    forall h ensures Asked(paths + {p}, h) <==> Asked(paths, h) || h == Head(p) {
      if x :| x in paths && Head(x) == h { assert x in paths + {p}; }
    }
  }

  lemma RequestedSnoc(g: Graph, fields: Fields, primaries: seq<nat>, i: nat, paths: set<string>)
    requires Closed(g) && NodesOf(g, primaries) && i < |primaries|
    ensures Valid(g, Wanted(g, fields, primaries[i], paths))
    ensures Requested(g, fields, primaries[..i + 1], paths) ==
            Requested(g, fields, primaries[..i], paths) + Wanted(g, fields, primaries[i], paths)
    decreases i
  {
    hide Wanted, Closed;
    WantedValid(g, fields, primaries[i], paths);
    if i == 0 {
      assert primaries[..1][1..] == [];
    } else {
      RequestedSnoc(g, fields, primaries[1..], i - 1, paths);
      assert primaries[..i + 1][1..] == primaries[1..][..i] && primaries[..i][1..] == primaries[1..][..i - 1];
    }
  }
}
