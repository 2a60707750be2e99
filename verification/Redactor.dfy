/** Redaction of decoded JSON, in place: objects are shared references, arrays and scalars are values. */
module Redactor {

  class JsonObject {
    var entries: map<string, Json>
    /** How deep the object's own objects can nest; decoded JSON has no cycles. */
    ghost const rank: nat

    constructor (entries: map<string, Json>, ghost rank: nat)
      ensures this.entries == entries && this.rank == rank
    {
      this.entries, this.rank := entries, rank;
    }
  }

  /** `Literal` is a number, a boolean or null. */
  datatype Json = Text(s: string) | Literal(s: string) | Object(obj: JsonObject) | Array(items: seq<Json>)
  {
    predicate Scalar() {
      Text? || Literal?
    }
  }

  const REDACTED := "[REDACTED]"

  const ALWAYS := ["authorization", "cookie", "set-cookie", "x-api-key", "apikey", "password", "passwd", "secret",
                   "token", "access_token", "refresh_token", "jwt", "credential", "x-auth-token", "client-secret"]

  const SPECIAL := map["authorization" := REDACTED, "cookie" := REDACTED, "set-cookie" := REDACTED,
                       "x-api-key" := REDACTED, "apikey" := REDACTED, "api-key" := REDACTED,
                       "password" := REDACTED, "passwd" := REDACTED, "secret" := REDACTED, "token" := REDACTED,
                       "access_token" := REDACTED, "refresh_token" := REDACTED, "jwt" := REDACTED,
                       "credential" := REDACTED, "x-auth-token" := REDACTED, "client-secret" := REDACTED]

  // ----- What redaction should do -----

  /** The keys to redact; case conversion and case-blind comparison are parameters. */
  datatype Rules = Rules(fields: seq<string>, lower: string -> string, sameFold: (string, string) -> bool)
  {
    predicate Sensitive(k: string) {
      lower(k) in SPECIAL || exists i :: 0 <= i < |fields| && sameFold(k, fields[i])
    }

    function Entry(k: string, v: Json): Json {
      if v.Scalar() && Sensitive(k) then Text(REDACTED) else v
    }

    function Redacted(m: map<string, Json>): map<string, Json> {
      map k | k in m :: Entry(k, m[k])
    }
  }

  ghost function Listed(items: seq<Json>): set<JsonObject> {
    set i | 0 <= i < |items| && items[i].Object? :: items[i].obj
  }

  /** The objects that a value holds directly or in an array; arrays in arrays are not looked into. */
  ghost function Direct(v: Json): set<JsonObject> {
    match v
    case Object(o) => {o}
    case Array(items) => Listed(items)
    case _ => {}
  }

  ghost function Children(m: map<string, Json>): set<JsonObject> {
    set k, o | k in m && o in Direct(m[k]) :: o
  }

  /** The state of some objects. */
  type Heap = map<JsonObject, map<string, Json>>

  ghost function Snap(s: set<JsonObject>): Heap
    reads s
  {
    map o | o in s :: o.entries
  }

  ghost predicate Closed(h: Heap) {
    forall o, c :: o in h && c in Children(h[o]) ==> c in h && c.rank < o.rank
  }

  /** The objects reached from `o` through objects and arrays of objects. */
  ghost function Reach(h: Heap, o: JsonObject): set<JsonObject>
    requires Closed(h) && o in h
    decreases o.rank
  {
    {o} + ReachAny(h, Children(h[o]), o.rank)
  }

  ghost function ReachAny(h: Heap, os: set<JsonObject>, rank: nat): set<JsonObject>
    requires Closed(h) && forall c :: c in os ==> c in h && c.rank < rank
    decreases rank, 0
  {
    set c, o | c in os && o in Reach(h, c) :: o
  }

  /** The state once the objects in `r` have been redacted. */
  ghost function RedactedIn(h: Heap, r: set<JsonObject>, rules: Rules): Heap {
    map o | o in h :: if o in r then rules.Redacted(h[o]) else h[o]
  }

  /** The state once a body has been redacted. */
  ghost function AfterBody(h: Heap, body: Json, rules: Rules): Heap
    requires body.Object? ==> Closed(h) && body.obj in h
  {
    if body.Object? then RedactedIn(h, Reach(h, body.obj), rules) else h
  }

  // ----- Redacting changes no structure -----

  lemma ChildrenKept(m: map<string, Json>, rules: Rules)
    ensures Children(rules.Redacted(m)) == Children(m)
  {
    hide Rules.Sensitive;
    var m' := rules.Redacted(m);
    forall k | k in m ensures Direct(m'[k]) == Direct(m[k]) {
    }
  }

  ghost predicate SameShape(h: Heap, h': Heap) {
    h.Keys == h'.Keys && forall o :: o in h ==> Children(h'[o]) == Children(h[o])
  }

  lemma ShapeClosed(h: Heap, h': Heap)
    requires Closed(h) && SameShape(h, h')
    ensures Closed(h')
  {
    hide Children;
  }

  lemma RedactedShape(h: Heap, r: set<JsonObject>, rules: Rules)
    ensures SameShape(h, RedactedIn(h, r, rules))
  {
    hide Rules.Redacted, Children;
    forall o | o in h ensures Children(RedactedIn(h, r, rules)[o]) == Children(h[o]) {
      ChildrenKept(h[o], rules);
    }
  }

  lemma {:induction false} ReachSame(h: Heap, h': Heap, o: JsonObject)
    requires Closed(h) && Closed(h') && SameShape(h, h') && o in h
    ensures Reach(h', o) == Reach(h, o)
    decreases o.rank
  {
    hide Children;
    forall c | c in Children(h[o]) ensures Reach(h', c) == Reach(h, c) {
      ReachSame(h, h', c);
    }
  }

  lemma ReachAnySame(h: Heap, h': Heap, os: set<JsonObject>, rank: nat)
    requires Closed(h) && Closed(h') && SameShape(h, h') && forall c :: c in os ==> c in h && c.rank < rank
    ensures ReachAny(h', os, rank) == ReachAny(h, os, rank)
  {
    hide Children, Reach;
    forall c | c in os ensures Reach(h', c) == Reach(h, c) {
      ReachSame(h, h', c);
    }
  }

  lemma {:induction false} ReachRank(h: Heap, o: JsonObject, x: JsonObject)
    requires Closed(h) && o in h && x in Reach(h, o)
    ensures x in h && (x == o || x.rank < o.rank)
    decreases o.rank
  {
    hide Children;
    if x != o {
      var c :| c in Children(h[o]) && x in Reach(h, c);
      ReachRank(h, c, x);
    }
  }

  lemma ReachAnyRank(h: Heap, os: set<JsonObject>, rank: nat, x: JsonObject)
    requires Closed(h) && (forall c :: c in os ==> c in h && c.rank < rank) && x in ReachAny(h, os, rank)
    ensures x in h && x.rank < rank
  {
    hide Children, Reach;
    var c :| c in os && x in Reach(h, c);
    ReachRank(h, c, x);
  }

  lemma RedactedTwice(m: map<string, Json>, rules: Rules)
    ensures rules.Redacted(rules.Redacted(m)) == rules.Redacted(m)
  {
    hide Rules.Sensitive;
  }

  lemma RedactedInTwice(h: Heap, r: set<JsonObject>, r': set<JsonObject>, rules: Rules)
    ensures RedactedIn(RedactedIn(h, r, rules), r', rules) == RedactedIn(h, r + r', rules)
  {
    hide Rules.Redacted;
    forall o | o in h {
      RedactedTwice(h[o], rules);
    }
  }

  // ----- The loop over one object's entries -----

  ghost function ChildrenAt(m: map<string, Json>, ks: set<string>): set<JsonObject> {
    set k, o | k in ks && k in m && o in Direct(m[k]) :: o
  }

  ghost function Partly(m: map<string, Json>, ks: set<string>, rules: Rules): map<string, Json> {
    map k | k in m :: if k in ks then rules.Entry(k, m[k]) else m[k]
  }

  /** Everything reached through the entries `seen` is redacted, and so are those entries. */
  ghost function Progress(h: Heap, o: JsonObject, seen: set<string>, rules: Rules): Heap
    requires Closed(h) && o in h
  {
    RedactedIn(h, ReachAny(h, ChildrenAt(h[o], seen), o.rank), rules)[o := Partly(h[o], seen, rules)]
  }

  lemma PartlyChildren(m: map<string, Json>, ks: set<string>, rules: Rules)
    ensures Children(Partly(m, ks, rules)) == Children(m)
  {
    hide Rules.Sensitive;
    forall k | k in m ensures Direct(Partly(m, ks, rules)[k]) == Direct(m[k]) {
    }
  }

  lemma ChildrenAtAreChildren(m: map<string, Json>, ks: set<string>)
    ensures ChildrenAt(m, ks) <= Children(m)
    ensures m.Keys <= ks ==> ChildrenAt(m, ks) == Children(m)
  {
    hide Direct;
  }

  lemma ProgressShape(h: Heap, o: JsonObject, seen: set<string>, rules: Rules)
    requires Closed(h) && o in h
    ensures SameShape(h, Progress(h, o, seen, rules)) && Closed(Progress(h, o, seen, rules))
  {
    ChildrenAtAreChildren(h[o], seen);
    hide Children, Partly, Reach, ReachAny, ChildrenAt;
    RedactedShape(h, ReachAny(h, ChildrenAt(h[o], seen), o.rank), rules);
    PartlyChildren(h[o], seen, rules);
    ShapeClosed(h, Progress(h, o, seen, rules));
  }

  lemma ChildrenAtMore(m: map<string, Json>, ks: set<string>, k: string)
    requires k in m
    ensures ChildrenAt(m, ks + {k}) == ChildrenAt(m, ks) + Direct(m[k])
  {
    hide Direct;
  }

  lemma ReachAnyUnion(h: Heap, a: set<JsonObject>, b: set<JsonObject>, rank: nat)
    requires Closed(h) && (forall c :: c in a + b ==> c in h && c.rank < rank)
    ensures ReachAny(h, a + b, rank) == ReachAny(h, a, rank) + ReachAny(h, b, rank)
  {
    hide Reach;
  }

  lemma NothingSeen(h: Heap, o: JsonObject, rules: Rules)
    requires Closed(h) && o in h
    ensures Progress(h, o, {}, rules) == h
  {
    assert ChildrenAt(h[o], {}) == {};
    assert Partly(h[o], {}, rules) == h[o];
  }

  lemma RedactElsewhere(h: Heap, r: set<JsonObject>, o: JsonObject, m: map<string, Json>, rules: Rules)
    requires o in h && o !in r
    ensures RedactedIn(h[o := m], r, rules) == RedactedIn(h, r, rules)[o := m]
  {
  }

  /** An object or an array at `k`: redacting what it reaches is the next step of the loop. */
  lemma NestedSeen(h: Heap, o: JsonObject, seen: set<string>, k: string, rules: Rules)
    requires Closed(h) && o in h && k in h[o] && !h[o][k].Scalar()
    ensures var p := Progress(h, o, seen, rules);
            && Closed(p) && (forall c :: c in Direct(h[o][k]) ==> c in p && c.rank < o.rank)
            && RedactedIn(p, ReachAny(p, Direct(h[o][k]), o.rank), rules) == Progress(h, o, seen + {k}, rules)
  {
    var p, os, old' := Progress(h, o, seen, rules), Direct(h[o][k]), ChildrenAt(h[o], seen);
    ProgressShape(h, o, seen, rules);
    ChildrenAtMore(h[o], seen, k);
    ChildrenAtAreChildren(h[o], seen + {k});
    assert Partly(h[o], seen + {k}, rules) == Partly(h[o], seen, rules);
    hide Children, ChildrenAt, Partly, Direct, Reach;
    ReachAnySame(h, p, os, o.rank);
    ReachAnyUnion(h, old', os, o.rank);
    var r, r' := ReachAny(h, old', o.rank), ReachAny(h, os, o.rank);
    if o in r' {
      ReachAnyRank(h, os, o.rank, o);
    }
    hide ReachAny;
    RedactedInTwice(h, r, r', rules);
    RedactElsewhere(RedactedIn(h, r, rules), r', o, Partly(h[o], seen, rules), rules);
  }

  lemma ScalarSeen(h: Heap, o: JsonObject, seen: set<string>, k: string, rules: Rules)
    requires Closed(h) && o in h && k in h[o] && h[o][k].Scalar() && k !in seen
    ensures var p := Progress(h, o, seen, rules);
            && k in p[o] && p[o][k] == h[o][k]
            && Progress(h, o, seen + {k}, rules) == p[o := p[o][k := rules.Entry(k, h[o][k])]]
  {
    ChildrenAtMore(h[o], seen, k);
    hide ChildrenAt, Reach, ReachAny;
    assert ChildrenAt(h[o], seen + {k}) == ChildrenAt(h[o], seen);
    hide RedactedIn, Rules.Sensitive;
    assert Partly(h[o], seen + {k}, rules) == Partly(h[o], seen, rules)[k := rules.Entry(k, h[o][k])];
  }

  lemma {:induction false} AllSeen(h: Heap, o: JsonObject, rules: Rules)
    requires Closed(h) && o in h
    ensures Progress(h, o, h[o].Keys, rules) == RedactedIn(h, Reach(h, o), rules)
  {
    ChildrenAtAreChildren(h[o], h[o].Keys);
    hide Children, ChildrenAt;
    var r := ReachAny(h, Children(h[o]), o.rank);
    if o in r {
      ReachAnyRank(h, Children(h[o]), o.rank, o);
    }
    hide ReachAny;
    assert Partly(h[o], h[o].Keys, rules) == rules.Redacted(h[o]);
  }

  lemma ListedPrefix(items: seq<Json>, i: nat)
    requires i <= |items|
    ensures Listed(items[..i]) <= Listed(items)
    ensures i < |items| ==>
      Listed(items[..i + 1]) == Listed(items[..i]) + if items[i].Object? then {items[i].obj} else {}
  {
    forall o | o in Listed(items[..i]) ensures o in Listed(items) {
      var j :| 0 <= j < i && items[..i][j].Object? && items[..i][j].obj == o;
      assert items[j].obj == o;
    }
    if i < |items| {
      var a, b := items[..i], items[..i + 1];
      assert b == a + [items[i]];
      forall o | o in Listed(a) ensures o in Listed(b) {
        var j :| 0 <= j < i && a[j].Object? && a[j].obj == o;
        assert b[j].obj == o;
      }
      if items[i].Object? {
        assert b[i].obj == items[i].obj;
      }
    }
  }

  /** The objects among the first `i` items, and all they reach, redacted. */
  ghost function ListedProgress(h: Heap, items: seq<Json>, i: nat, rank: nat, rules: Rules): Heap
    requires Closed(h) && i <= |items| && forall c :: c in Listed(items) ==> c in h && c.rank < rank
  {
    assert Listed(items[..i]) <= Listed(items) by { ListedPrefix(items, i); }
    RedactedIn(h, ReachAny(h, Listed(items[..i]), rank), rules)
  }

  lemma NothingListed(h: Heap, items: seq<Json>, rank: nat, rules: Rules)
    requires Closed(h) && forall c :: c in Listed(items) ==> c in h && c.rank < rank
    ensures ListedProgress(h, items, 0, rank, rules) == h
  {
    assert Listed(items[..0]) == {};
  }

  lemma ReachOne(h: Heap, o: JsonObject, rank: nat)
    requires Closed(h) && o in h && o.rank < rank
    ensures ReachAny(h, {o}, rank) == Reach(h, o)
  {
    hide Reach;
  }

  lemma NextObject(h: Heap, before: set<JsonObject>, sub: JsonObject, rank: nat, rules: Rules)
    requires Closed(h) && forall c :: c in before + {sub} ==> c in h && c.rank < rank
    ensures var p := RedactedIn(h, ReachAny(h, before, rank), rules);
            && sub in p && Closed(p)
            && RedactedIn(p, Reach(p, sub), rules) == RedactedIn(h, ReachAny(h, before + {sub}, rank), rules)
  {
    hide Reach, Children;
    ReachAnyUnion(h, before, {sub}, rank);
    ReachOne(h, sub, rank);
    var r := ReachAny(h, before, rank);
    hide ReachAny;
    RedactedShape(h, r, rules);
    var p := RedactedIn(h, r, rules);
    ShapeClosed(h, p);
    ReachSame(h, p, sub);
    RedactedInTwice(h, r, Reach(h, sub), rules);
  }

  lemma ListedStep(h: Heap, items: seq<Json>, i: nat, rank: nat, rules: Rules)
    requires Closed(h) && i < |items| && forall c :: c in Listed(items) ==> c in h && c.rank < rank
    ensures var p, next := ListedProgress(h, items, i, rank, rules), ListedProgress(h, items, i + 1, rank, rules);
            match items[i]
            case Object(sub) =>
              sub in p && sub.rank < rank && Closed(p) && RedactedIn(p, Reach(p, sub), rules) == next
            case _ => next == p
  {
    ListedPrefix(items, i);
    ListedPrefix(items, i + 1);
    if items[i].Object? {
      var sub := items[i].obj;
      assert sub in Listed(items);
      hide Listed, Reach, ReachAny;
      NextObject(h, Listed(items[..i]), sub, rank, rules);
    } else {
      assert Listed(items[..i + 1]) == Listed(items[..i]);
    }
  }

  lemma StillThere(h: Heap, o: JsonObject, seen: set<string>, k: string, rules: Rules)
    requires Closed(h) && o in h && k in h[o] && k !in seen
    ensures var p := Progress(h, o, seen, rules); k in p[o] && p[o][k] == h[o][k]
  {
  }

  lemma SpecialIsRedacted(k: string)
    requires k in SPECIAL
    ensures SPECIAL[k] == REDACTED
  {
  }

  class Redactor {
    const rules: Rules

    constructor (fields: seq<string>, lower: string -> string, sameFold: (string, string) -> bool)
      ensures rules == Rules(fields + ALWAYS, lower, sameFold)
    {
      rules := Rules(fields + ALWAYS, lower, sameFold);
    }

    method IsSensitive(k: string) returns (b: bool)
      ensures b <==> rules.Sensitive(k)
    {
      if rules.lower(k) in SPECIAL { return true; }
      for i := 0 to |rules.fields|
        invariant forall j :: 0 <= j < i ==> !rules.sameFold(k, rules.fields[j])
      {
        if rules.sameFold(k, rules.fields[i]) { return true; }
      }
      return false;
    }

    /** One iteration: descends into the entry, or replaces it. */
    method RedactEntry(o: JsonObject, k: string, ghost s: set<JsonObject>, ghost h: Heap, ghost seen: set<string>)
      requires o in s && Closed(h) && o in h && k in h[o] && k !in seen
      requires Snap(s) == Progress(h, o, seen, rules) && k in o.entries && o.entries[k] == h[o][k]
      modifies s
      ensures Snap(s) == Progress(h, o, seen + {k}, rules)
      decreases o.rank, 1
    {
      hide Closed, Reach, ReachAny, Progress, RedactedIn, Rules.Sensitive;
      var v := o.entries[k];
      match v {
        case Object(sub) =>
          NestedSeen(h, o, seen, k, rules);
          ReachOne(Snap(s), sub, o.rank);
          RedactMap(sub, s);
        case Array(items) =>
          NestedSeen(h, o, seen, k, rules);
          RedactSlice(items, s, o.rank);
        case _ =>
          ScalarSeen(h, o, seen, k, rules);
          ghost var p := Snap(s);
          var b := IsSensitive(k);
          if b {
            var lk := rules.lower(k);
            var text := REDACTED;
            if lk in SPECIAL {
              text := SPECIAL[lk];
              SpecialIsRedacted(lk);
            }
            o.entries := o.entries[k := Text(text)];
            assert o.entries == p[o][k := rules.Entry(k, v)];
            assert Snap(s) == p[o := o.entries];
          } else {
            assert p[o][k := v] == p[o] && p[o := p[o]] == p;
          }
      }
    }

    /** Redacts exactly what is reached from `o`, whichever order the entries are visited in. */
    method RedactMap(o: JsonObject, ghost s: set<JsonObject>)
      requires o in s && Closed(Snap(s))
      modifies s
      ensures Closed(old(Snap(s))) && Snap(s) == RedactedIn(old(Snap(s)), Reach(old(Snap(s)), o), rules)
      decreases o.rank, 2
    {
      hide Closed, Reach, Progress, RedactedIn;
      ghost var h := Snap(s);
      var rest := o.entries.Keys;
      NothingSeen(h, o, rules);
      assert h[o].Keys - rest == {};
      while rest != {}
        invariant rest <= h[o].Keys
        invariant Snap(s) == Progress(h, o, h[o].Keys - rest, rules)
        decreases rest
      {
        var k :| k in rest;
        ghost var seen := h[o].Keys - rest;
        StillThere(h, o, seen, k, rules);
        assert Snap(s)[o] == o.entries;
        RedactEntry(o, k, s, h, seen);
        assert h[o].Keys - (rest - {k}) == seen + {k};
        rest := rest - {k};
      }
      assert h[o].Keys - rest == h[o].Keys;
      AllSeen(h, o, rules);
    }

    method RedactSlice(items: seq<Json>, ghost s: set<JsonObject>, ghost rank: nat)
      requires Closed(Snap(s)) && forall c :: c in Listed(items) ==> c in s && c.rank < rank
      modifies s
      ensures Closed(old(Snap(s))) && (forall c :: c in Listed(items) ==> c in old(Snap(s)))
      ensures Snap(s) == RedactedIn(old(Snap(s)), ReachAny(old(Snap(s)), Listed(items), rank), rules)
      decreases rank, 0
    {
      hide Closed, Reach, ReachAny, RedactedIn;
      ghost var h := Snap(s);
      NothingListed(h, items, rank, rules);
      for i := 0 to |items|
        invariant ListedProgress(h, items, i, rank, rules) == Snap(s)
      {
        hide ListedProgress;
        ListedStep(h, items, i, rank, rules);
        match items[i] {
          case Object(sub) => RedactMap(sub, s);
          case _ =>
        }
      }
      assert items[..|items|] == items;
    }

    /** A body that does not decode into a map is left as it is, whatever it holds. */
    method RedactBody(body: Json, ghost s: set<JsonObject>)
      requires body.Object? ==> body.obj in s && Closed(Snap(s))
      modifies s
      ensures body.Object? ==> Closed(old(Snap(s))) && body.obj in old(Snap(s))
      ensures Snap(s) == AfterBody(old(Snap(s)), body, rules)
    {
      hide Reach;
      match body {
        case Object(o) => RedactMap(o, s);
        case _ =>
      }
    }
  }

  // ----- What redaction achieves -----

  /** Each object of the path is directly in, or in an array directly in, the one before it. */
  ghost predicate IsPath(h: Heap, older path: seq<JsonObject>) {
    && path != [] && (forall i :: 0 <= i < |path| ==> path[i] in h)
    && forall i :: 0 < i < |path| ==> path[i] in Children(h[path[i - 1]])
  }

  /** Every object at the end of a path is reached. */
  lemma {:induction false} PathsReach(h: Heap, path: seq<JsonObject>)
    requires Closed(h) && IsPath(h, path)
    ensures path[|path| - 1] in Reach(h, path[0])
    decreases |path|
  {
    hide Children;
    if |path| > 1 {
      assert path[1] in Children(h[path[0]]);
      PathsReach(h, path[1..]);
    }
  }

  /** Every object reached is at the end of a path. */
  lemma {:induction false} ReachedByPath(h: Heap, o: JsonObject, x: JsonObject) returns (path: seq<JsonObject>)
    requires Closed(h) && o in h && x in Reach(h, o)
    ensures IsPath(h, path) && path[0] == o && path[|path| - 1] == x
    decreases o.rank
  {
    hide Children;
    if x == o {
      path := [o];
    } else {
      var c :| c in Children(h[o]) && x in Reach(h, c);
      var rest := ReachedByPath(h, c, x);
      path := [o] + rest;
    }
  }

  /**
   After redaction from `o`: the scalar under every sensitive key of every object at the end
   of a path is gone, and nothing else has changed anywhere.
   */
  lemma {:induction false} RedactionIsExact(h: Heap, path: seq<JsonObject>, x: JsonObject, k: string, rules: Rules)
    requires Closed(h) && IsPath(h, path) && x in h && k in h[x]
    ensures var h' := RedactedIn(h, Reach(h, path[0]), rules);
            && x in h' && k in h'[x]
            && (x == path[|path| - 1] && rules.Sensitive(k) && h[x][k].Scalar() ==> h'[x][k] == Text(REDACTED))
            && (h'[x][k] != h[x][k] ==> x in Reach(h, path[0]) && rules.Sensitive(k) && h[x][k].Scalar())
  {
    PathsReach(h, path);
    hide Children, Reach, Rules.Sensitive;
  }

  ghost predicate HasPath(h: Heap, o: JsonObject, x: JsonObject) {
    exists path :: IsPath(h, path) && path[0] == o && path[|path| - 1] == x
  }

  lemma ReachedIffPath(h: Heap, o: JsonObject, x: JsonObject)
    requires Closed(h) && o in h
    ensures x in Reach(h, o) <==> HasPath(h, o, x)
  {
    if x in Reach(h, o) {
      var path := ReachedByPath(h, o, x);
    } else if HasPath(h, o, x) {
      var path :| IsPath(h, path) && path[0] == o && path[|path| - 1] == x;
      PathsReach(h, path);
    }
  }

  /**
   An entry of a whole body is replaced if and only if it is a scalar under a sensitive key, the
   body is an object, and a path through objects and arrays of objects leads from it to the entry.
   */
  lemma BodyEntryReplacedIff(h: Heap, body: Json, x: JsonObject, k: string, rules: Rules)
    requires (body.Object? ==> Closed(h) && body.obj in h) && x in h && k in h[x]
    ensures var h' := AfterBody(h, body, rules);
            var replaced := body.Object? && HasPath(h, body.obj, x) && h[x][k].Scalar() && rules.Sensitive(k);
            && h'.Keys == h.Keys && h'[x].Keys == h[x].Keys
            && h'[x][k] == if replaced then Text(REDACTED) else h[x][k]
  {
    if body.Object? {
      ReachedIffPath(h, body.obj, x);
      hide HasPath, Reach, Closed, Rules.Sensitive;
    }
  }

  /** Redacting a second time does nothing. */
  lemma {:induction false} SecondPassDoesNothing(h: Heap, o: JsonObject, rules: Rules)
    requires Closed(h) && o in h
    ensures var h' := RedactedIn(h, Reach(h, o), rules);
            Closed(h') && RedactedIn(h', Reach(h', o), rules) == h'
  {
    var r := Reach(h, o);
    RedactedShape(h, r, rules);
    var h' := RedactedIn(h, r, rules);
    ShapeClosed(h, h');
    ReachSame(h, h', o);
    RedactedInTwice(h, r, r, rules);
    hide Children, Reach;
    assert r + r == r;
  }

  /** No configuration can leave out a key that is always redacted. */
  lemma AlwaysMeansAlways(fields: seq<string>, lower: string -> string, sameFold: (string, string) -> bool, k: string)
    requires lower(k) in ALWAYS || exists a :: a in ALWAYS && sameFold(k, a)
    ensures Rules(fields + ALWAYS, lower, sameFold).Sensitive(k)
  {
    var rules := Rules(fields + ALWAYS, lower, sameFold);
    if exists a :: a in ALWAYS && sameFold(k, a) {
      var a :| a in ALWAYS && sameFold(k, a);
      var i :| 0 <= i < |ALWAYS| && ALWAYS[i] == a;
      assert rules.fields[|fields| + i] == a;
    }
  }

  // ----- What escapes -----

  lemma NothingDirect(m: map<string, Json>, inner: JsonObject, secret: string)
    requires m == map["list" := Array([Array([Object(inner)])]), "password" := Array([Text(secret)])]
    ensures Children(m) == {}
    ensures forall rules: Rules :: rules.Redacted(m) == m
  {
  }

  /** A secret in an array directly inside an array stays, and so does an array under a sensitive key. */
  method SecretsEscape(r: Redactor, secret: string) returns (o: JsonObject, inner: JsonObject)
    ensures inner.entries == map["password" := Text(secret)]
    ensures o.entries == map["list" := Array([Array([Object(inner)])]), "password" := Array([Text(secret)])]
  {
    inner := new JsonObject(map["password" := Text(secret)], 0);
    o := new JsonObject(map["list" := Array([Array([Object(inner)])]), "password" := Array([Text(secret)])], 1);
    ghost var s := {o};
    NothingDirect(o.entries, inner, secret);
    assert Closed(Snap(s));
    r.RedactMap(o, s);
    assert Snap(s)[o] == o.entries;
  }

  /** A body that is an array keeps every secret, a password directly in its first object included. */
  method ArrayBodyEscapes(r: Redactor, secret: string) returns (body: Json, o: JsonObject)
    ensures body == Array([Object(o)]) && o.entries == map["password" := Text(secret)]
  {
    o := new JsonObject(map["password" := Text(secret)], 0);
    body := Array([Object(o)]);
    r.RedactBody(body, {o});
    assert Snap({o})[o] == o.entries;
  }
}
