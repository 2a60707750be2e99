/** Scoring a parsed GraphQL query: the recursive walk over selection sets, and the report built from it. */
module GraphQLCost {
  import opened Wrappers

  datatype Selection =
    | Field(alias: string, name: string, selections: seq<Selection>)
    | Inline(selections: seq<Selection>)
    | Spread(name: string)

  // ----- What the walk measures -----

  /** Every field and fragment spread of a selection set, at any depth, in document order. */
  function Nodes(ss: seq<Selection>): seq<Selection> {
    if ss == [] then [] else Nodes(ss[..|ss| - 1]) + NodesOf(ss[|ss| - 1])
  }

  function NodesOf(s: Selection): seq<Selection> {
    match s
    case Field(_, _, selections) => [s] + Nodes(selections)
    case Inline(selections) => Nodes(selections)
    case Spread(_) => [s]
  }

  function Max(a: nat, b: nat): nat {
    if a < b then b else a
  }

  /** The most fields nested in one another. */
  function Depth(ss: seq<Selection>): nat {
    if ss == [] then 0 else Max(Depth(ss[..|ss| - 1]), DepthOf(ss[|ss| - 1]))
  }

  function DepthOf(s: Selection): nat {
    match s
    case Field(_, _, selections) => Depth(selections) + 1
    case Inline(selections) => Depth(selections)
    case Spread(_) => 0
  }

  /** An alias that renames its field. */
  predicate Aliased(s: Selection) {
    s.Field? && s.alias != "" && s.alias != s.name
  }

  predicate Introspects(s: Selection) {
    s.Field? && (s.name == "__schema" || s.name == "__type" || s.name == "__typename")
  }

  function CountAliased(ns: seq<Selection>): nat {
    if ns == [] then 0 else CountAliased(ns[..|ns| - 1]) + if Aliased(ns[|ns| - 1]) then 1 else 0
  }

  predicate AnyIntrospects(ns: seq<Selection>) {
    exists i :: 0 <= i < |ns| && Introspects(ns[i])
  }

  datatype Measure = Measure(depth: nat, complexity: nat, aliases: nat, introspection: bool)

  function MeasureOf(ss: seq<Selection>): Measure {
    var ns := Nodes(ss);
    Measure(Depth(ss), |ns|, CountAliased(ns), AnyIntrospects(ns))
  }

  lemma {:induction false} CountAliasedConcat(a: seq<Selection>, b: seq<Selection>)
    ensures CountAliased(a + b) == CountAliased(a) + CountAliased(b)
  {
    if b == [] {
      assert a + b == a;
    } else {
      assert (a + b)[..|a + b| - 1] == a + b[..|b| - 1];
      CountAliasedConcat(a, b[..|b| - 1]);
    }
  }

  lemma AnyIntrospectsConcat(a: seq<Selection>, b: seq<Selection>)
    ensures AnyIntrospects(a + b) <==> AnyIntrospects(a) || AnyIntrospects(b)
  {
    if AnyIntrospects(a) {
      var i :| 0 <= i < |a| && Introspects(a[i]);
      assert Introspects((a + b)[i]);
    } else if AnyIntrospects(b) {
      var i :| 0 <= i < |b| && Introspects(b[i]);
      assert Introspects((a + b)[|a| + i]);
    }
  }

  /** Two measures side by side. */
  function Join(m: Measure, n: Measure): Measure {
    Measure(Max(m.depth, n.depth), m.complexity + n.complexity, m.aliases + n.aliases,
            m.introspection || n.introspection)
  }

  const NOTHING := Measure(0, 0, 0, false)

  function MeasureOne(s: Selection): Measure {
    match s
    case Field(_, _, selections) =>
      var m := MeasureOf(selections);
      Measure(m.depth + 1, m.complexity + 1, m.aliases + (if Aliased(s) then 1 else 0),
              m.introspection || Introspects(s))
    case Inline(selections) => MeasureOf(selections)
    case Spread(_) => Measure(0, 1, 0, false)
  }

  lemma NodeFirst(s: Selection, ns: seq<Selection>)
    ensures CountAliased([s] + ns) == CountAliased(ns) + if Aliased(s) then 1 else 0
    ensures AnyIntrospects([s] + ns) <==> Introspects(s) || AnyIntrospects(ns)
  {
    CountAliasedConcat([s], ns);
    AnyIntrospectsConcat([s], ns);
    assert CountAliased([s]) == CountAliased([]) + if Aliased(s) then 1 else 0 by {
      assert [s][..0] == [];
    }
    assert AnyIntrospects([s]) <==> Introspects(s) by {
      assert [s][0] == s;
    }
  }

  lemma NodesSnoc(ss: seq<Selection>, s: Selection)
    ensures Nodes(ss + [s]) == Nodes(ss) + NodesOf(s) && Depth(ss + [s]) == Max(Depth(ss), DepthOf(s))
  {
    assert (ss + [s])[..|ss|] == ss;
  }

  lemma NodesOfMeasure(s: Selection)
    ensures var ns := NodesOf(s);
            MeasureOne(s) == Measure(DepthOf(s), |ns|, CountAliased(ns), AnyIntrospects(ns))
  {
    if s.Field? {
      NodeFirst(s, Nodes(s.selections));
    } else if s.Spread? {
      NodeFirst(s, []);
      assert [s] + [] == [s] && !AnyIntrospects([]);
    }
  }

  /** The measures add up selection by selection. */
  lemma MeasureSnoc(ss: seq<Selection>, s: Selection)
    ensures MeasureOf(ss + [s]) == Join(MeasureOf(ss), MeasureOne(s))
  {
    NodesSnoc(ss, s);
    NodesOfMeasure(s);
    hide Nodes, NodesOf, Depth, DepthOf, CountAliased, AnyIntrospects, MeasureOne;
    CountAliasedConcat(Nodes(ss), NodesOf(s));
    AnyIntrospectsConcat(Nodes(ss), NodesOf(s));
  }

  lemma MeasureFields(ss: seq<Selection>)
    ensures MeasureOf(ss) == Measure(Depth(ss), |Nodes(ss)|, CountAliased(Nodes(ss)), AnyIntrospects(Nodes(ss)))
  {
  }

  lemma MeasureNothing()
    ensures MeasureOf([]) == NOTHING
  {
  }

  lemma {:induction false} MeasureConcat(a: seq<Selection>, b: seq<Selection>)
    ensures MeasureOf(a + b) == Join(MeasureOf(a), MeasureOf(b))
  {
    hide MeasureOf, MeasureOne;
    if b == [] {
      assert a + b == a;
      MeasureNothing();
    } else {
      var init, s := b[..|b| - 1], b[|b| - 1];
      MeasureConcat(a, init);
      MeasureSnoc(a + init, s);
      MeasureSnoc(init, s);
      assert a + b == (a + init) + [s] && b == init + [s];
    }
  }

  /** The walk, with `level` fields around it already. */
  method Walk(ss: seq<Selection>, level: nat) returns (depth: nat, complexity: nat, aliases: nat, introspection: bool)
    ensures depth == level + Depth(ss)
    ensures complexity == |Nodes(ss)|
    ensures aliases == CountAliased(Nodes(ss))
    ensures introspection <==> AnyIntrospects(Nodes(ss))
    decreases ss
  {
    hide MeasureOf, MeasureOne, Depth, Nodes, CountAliased, AnyIntrospects;
    MeasureFields(ss);
    MeasureNothing();
    if |ss| == 0 {
      return level, 0, 0, false;
    }
    depth, complexity, aliases, introspection := level, 0, 0, false;
    for i := 0 to |ss|
      invariant depth >= level
      invariant Measure(depth - level, complexity, aliases, introspection) == MeasureOf(ss[..i])
    {
      var cd, cc, ca, ci := WalkOne(ss, i, level);
      if cd > depth { depth := cd; }
      complexity, aliases, introspection := complexity + cc, aliases + ca, introspection || ci;
      MeasureSnoc(ss[..i], ss[i]);
      assert ss[..i + 1] == ss[..i] + [ss[i]];
    }
    assert ss[..|ss|] == ss;
  }

  /** The body of the loop: what `ss[i]` adds. */
  method WalkOne(ss: seq<Selection>, i: nat, level: nat)
    returns (depth: nat, complexity: nat, aliases: nat, introspection: bool)
    requires i < |ss|
    ensures depth >= level
    ensures Measure(depth - level, complexity, aliases, introspection) == MeasureOne(ss[i])
    decreases ss, 0
  {
    match ss[i] {
      case Field(alias, name, selections) =>
        aliases, introspection := 0, false;
        if alias != "" && alias != name { aliases := 1; }
        if name == "__schema" || name == "__type" || name == "__typename" { introspection := true; }
        var cd, cc, ca, ci := Walk(selections, level + 1);
        return cd, cc + 1, aliases + ca, introspection || ci;
      case Inline(selections) =>
        depth, complexity, aliases, introspection := Walk(selections, level);
      case Spread(_) =>
        return level, 1, 0, false;
    }
  }

  // ----- Depth is a longest chain -----

  /** The fields of a selection set that no other field encloses. */
  function TopFields(ss: seq<Selection>): seq<Selection> {
    if ss == [] then [] else
    var last := ss[|ss| - 1];
    TopFields(ss[..|ss| - 1]) + match last
      case Field(_, _, _) => [last]
      case Inline(selections) => TopFields(selections)
      case Spread(_) => []
  }

  /** Each field of the chain is selected directly by the one before it. */
  predicate IsChain(ss: seq<Selection>, chain: seq<Selection>)
    decreases |chain|
  {
    chain != [] ==> chain[0] in TopFields(ss) && chain[0].Field? && IsChain(chain[0].selections, chain[1..])
  }

  lemma {:induction false} TopFieldDepth(ss: seq<Selection>, f: Selection)
    requires f in TopFields(ss)
    ensures f.Field? && Depth(f.selections) + 1 <= Depth(ss)
  {
    var init, last := ss[..|ss| - 1], ss[|ss| - 1];
    if f in TopFields(init) {
      TopFieldDepth(init, f);
    } else if last.Inline? {
      TopFieldDepth(last.selections, f);
    }
  }

  lemma {:induction false} NoLongerChain(ss: seq<Selection>, chain: seq<Selection>)
    requires IsChain(ss, chain)
    ensures |chain| <= Depth(ss)
    decreases |chain|
  {
    if chain != [] {
      TopFieldDepth(ss, chain[0]);
      NoLongerChain(chain[0].selections, chain[1..]);
    }
  }

  lemma {:induction false} DeepestField(ss: seq<Selection>) returns (f: Selection)
    requires Depth(ss) > 0
    ensures f in TopFields(ss) && f.Field? && Depth(f.selections) + 1 == Depth(ss)
  {
    var init, last := ss[..|ss| - 1], ss[|ss| - 1];
    if Depth(init) == Depth(ss) {
      f := DeepestField(init);
    } else if last.Inline? {
      f := DeepestField(last.selections);
    } else {
      f := last;
    }
  }

  /** Some chain of nested fields is as long as the depth says, and none is longer. */
  lemma {:induction false} DepthIsLongestChain(ss: seq<Selection>) returns (chain: seq<Selection>)
    ensures IsChain(ss, chain) && |chain| == Depth(ss)
    ensures forall other :: IsChain(ss, other) ==> |other| <= |chain|
    decreases Depth(ss)
  {
    if Depth(ss) == 0 {
      chain := [];
    } else {
      var f := DeepestField(ss);
      var rest := DepthIsLongestChain(f.selections);
      chain := [f] + rest;
      assert chain[1..] == rest;
    }
    forall other | IsChain(ss, other) ensures |other| <= |chain| {
      NoLongerChain(ss, other);
    }
  }

  // ----- Inline fragments are transparent -----

  /** All inline fragments replaced by their selections, everywhere. */
  function Spliced(ss: seq<Selection>): seq<Selection> {
    if ss == [] then [] else
    var last := ss[|ss| - 1];
    Spliced(ss[..|ss| - 1]) + match last
      case Field(alias, name, selections) => [Field(alias, name, Spliced(selections))]
      case Inline(selections) => Spliced(selections)
      case Spread(_) => [last]
  }

  /** Wrapping selections in inline fragments, or unwrapping them, changes no measure. */
  lemma {:induction false} SplicingIsInvisible(ss: seq<Selection>)
    ensures MeasureOf(Spliced(ss)) == MeasureOf(ss)
  {
    hide MeasureOf;
    if ss != [] {
      var init, last := ss[..|ss| - 1], ss[|ss| - 1];
      assert ss == init + [last];
      SplicingIsInvisible(init);
      MeasureSnoc(init, last);
      match last
      case Field(alias, name, selections) =>
        SplicingIsInvisible(selections);
        MeasureSnoc(Spliced(init), Field(alias, name, Spliced(selections)));
      case Inline(selections) =>
        SplicingIsInvisible(selections);
        MeasureConcat(Spliced(init), Spliced(selections));
      case Spread(_) =>
        MeasureSnoc(Spliced(init), last);
    }
  }

  /** In particular one fragment may be spliced in place, or wrapped around any stretch of selections. */
  lemma SplicedInPlace(a: seq<Selection>, b: seq<Selection>, c: seq<Selection>)
    ensures MeasureOf(a + [Inline(b)] + c) == MeasureOf(a + b + c)
  {
    MeasureSnoc(a, Inline(b));
    MeasureConcat(a + [Inline(b)], c);
    MeasureConcat(a, b);
    MeasureConcat(a + b, c);
    hide MeasureOf;
  }

  // ----- Adding selections -----

  predicate SameNode(t: Selection, s: Selection) {
    match s
    case Field(alias, name, _) => t.Field? && t.alias == alias && t.name == name
    case Inline(_) => t.Inline?
    case Spread(_) => t == s
  }

  /** `b` is `a` with selections added anywhere in it. */
  predicate Extends(b: seq<Selection>, a: seq<Selection>) {
    a == [] ||
    (b != [] &&
      (|| Extends(b[..|b| - 1], a)
       || (SameNode(b[|b| - 1], a[|a| - 1]) && ExtendsBelow(b[|b| - 1], a[|a| - 1])
           && Extends(b[..|b| - 1], a[..|a| - 1]))))
  }

  predicate ExtendsBelow(t: Selection, s: Selection) {
    t.Spread? || s.Spread? || Extends(t.selections, s.selections)
  }

  predicate AtMost(m: Measure, n: Measure) {
    && m.depth <= n.depth && m.complexity <= n.complexity && m.aliases <= n.aliases
    && (m.introspection ==> n.introspection)
  }

  lemma JoinGrows(m: Measure, m': Measure, n: Measure, n': Measure)
    requires AtMost(m, m') && AtMost(n, n')
    ensures AtMost(Join(m, n), Join(m', n'))
  {
  }

  lemma JoinKeeps(m: Measure, m': Measure, n': Measure)
    requires AtMost(m, m')
    ensures AtMost(m, Join(m', n'))
  {
  }

  lemma SameNodeGrows(s: Selection, t: Selection)
    requires SameNode(t, s)
    requires !s.Spread? ==> AtMost(MeasureOf(s.selections), MeasureOf(t.selections))
    ensures AtMost(MeasureOne(s), MeasureOne(t))
  {
    hide MeasureOf;
  }

  /** The last selection of `b` is an added one, or the one that the last of `a` has become. */
  lemma ExtendsCases(b: seq<Selection>, a: seq<Selection>)
    requires Extends(b, a) && a != []
    ensures b != []
    ensures var b0, t, a0, s := b[..|b| - 1], b[|b| - 1], a[..|a| - 1], a[|a| - 1];
            || Extends(b0, a)
            || (SameNode(t, s) && (s.Spread? || Extends(t.selections, s.selections)) && Extends(b0, a0))
  {
  }

  /** Adding a selection anywhere lowers no measure and clears no flag. */
  lemma {:induction false} AddingNeverHelps(a: seq<Selection>, b: seq<Selection>)
    requires Extends(b, a)
    ensures AtMost(MeasureOf(a), MeasureOf(b))
    decreases b
  {
    MeasureNothing();
    if a == [] {
      hide MeasureOf, Extends;
    } else {
      ExtendsCases(b, a);
      hide MeasureOf, MeasureOne, Extends, AtMost, Join;
      var b0, t, a0, s := b[..|b| - 1], b[|b| - 1], a[..|a| - 1], a[|a| - 1];
      assert b == b0 + [t] && a == a0 + [s];
      MeasureSnoc(b0, t);
      MeasureSnoc(a0, s);
      if Extends(b0, a) {
        AddingNeverHelps(a, b0);
        JoinKeeps(MeasureOf(a), MeasureOf(b0), MeasureOne(t));
      } else {
        AddingNeverHelps(a0, b0);
        if !s.Spread? {
          AddingNeverHelps(s.selections, t.selections);
        }
        SameNodeGrows(s, t);
        JoinGrows(MeasureOf(a0), MeasureOf(b0), MeasureOne(s), MeasureOne(t));
      }
    }
  }

  // ----- Named fragments -----

  /** Every spread of the fragment `name` replaced by the fragment's selections. */
  function Expanded(ss: seq<Selection>, name: string, body: seq<Selection>): seq<Selection>
    decreases ss
  {
    if ss == [] then [] else Expanded(ss[..|ss| - 1], name, body) + [ExpandedOne(ss[|ss| - 1], name, body)]
  }

  function ExpandedOne(s: Selection, name: string, body: seq<Selection>): Selection
    decreases s
  {
    match s
    case Field(alias, n, selections) => Field(alias, n, Expanded(selections, name, body))
    case Inline(selections) => Inline(Expanded(selections, name, body))
    case Spread(n) => if n == name then Inline(body) else s
  }

  /** How many times the fragment is spread. */
  function SpreadCount(ss: seq<Selection>, name: string): nat
    decreases ss
  {
    if ss == [] then 0 else SpreadCount(ss[..|ss| - 1], name) + SpreadCountOf(ss[|ss| - 1], name)
  }

  function SpreadCountOf(s: Selection, name: string): nat
    decreases s
  {
    match s
    case Field(_, _, selections) => SpreadCount(selections, name)
    case Inline(selections) => SpreadCount(selections, name)
    case Spread(n) => if n == name then 1 else 0
  }

  /** One more than the most fields around a spread of the fragment; 0 if it is not spread. */
  function SpreadDepth(ss: seq<Selection>, name: string): nat
    decreases ss
  {
    if ss == [] then 0 else Max(SpreadDepth(ss[..|ss| - 1], name), SpreadDepthOf(ss[|ss| - 1], name))
  }

  function SpreadDepthOf(s: Selection, name: string): nat
    decreases s
  {
    match s
    case Field(_, _, selections) =>
      var d := SpreadDepth(selections, name);
      if d == 0 then 0 else d + 1
    case Inline(selections) => SpreadDepth(selections, name)
    case Spread(n) => if n == name then 1 else 0
  }

  /** The measure `m` once `c` spreads, the deepest below `d - 1` fields, give way to selections measured `b`. */
  function Inflated(m: Measure, c: nat, d: nat, b: Measure): Measure
    requires c <= m.complexity
  {
    Measure(if d == 0 then m.depth else Max(m.depth, d - 1 + b.depth),
            m.complexity - c + c * b.complexity, m.aliases + c * b.aliases,
            m.introspection || (c > 0 && b.introspection))
  }

  lemma JoinInflated(m: Measure, c: nat, d: nat, n: Measure, e: nat, f: nat, b: Measure)
    requires c <= m.complexity && e <= n.complexity
    ensures Inflated(Join(m, n), c + e, Max(d, f), b) == Join(Inflated(m, c, d, b), Inflated(n, e, f, b))
  {
    assert (c + e) * b.complexity == c * b.complexity + e * b.complexity;
    assert (c + e) * b.aliases == c * b.aliases + e * b.aliases;
  }

  lemma NothingInflated(b: Measure)
    ensures Inflated(NOTHING, 0, 0, b) == NOTHING
  {
  }

  /**
   Fragment definitions are never walked. What the report leaves out is exactly this: each
   spread counts one instead of the fragment's cost, its aliases and its introspection count
   nothing, and its depth is not added to that of the spread.
   */
  lemma {:induction false} ExpandedMeasure(ss: seq<Selection>, name: string, body: seq<Selection>)
    ensures SpreadCount(ss, name) <= MeasureOf(ss).complexity
    ensures SpreadCount(ss, name) == 0 <==> SpreadDepth(ss, name) == 0
    ensures MeasureOf(Expanded(ss, name, body))
            == Inflated(MeasureOf(ss), SpreadCount(ss, name), SpreadDepth(ss, name), MeasureOf(body))
    decreases ss
  {
    MeasureNothing();
    hide MeasureOf, MeasureOne, ExpandedOne, SpreadCountOf, SpreadDepthOf, Inflated;
    if ss == [] {
      NothingInflated(MeasureOf(body));
    } else {
      var init, last := ss[..|ss| - 1], ss[|ss| - 1];
      assert ss == init + [last];
      ExpandedMeasure(init, name, body);
      ExpandedMeasureOne(last, name, body);
      MeasureSnoc(init, last);
      MeasureSnoc(Expanded(init, name, body), ExpandedOne(last, name, body));
      JoinInflated(MeasureOf(init), SpreadCount(init, name), SpreadDepth(init, name),
                   MeasureOne(last), SpreadCountOf(last, name), SpreadDepthOf(last, name), MeasureOf(body));
    }
  }

  lemma {:induction false} ExpandedMeasureOne(s: Selection, name: string, body: seq<Selection>)
    ensures SpreadCountOf(s, name) <= MeasureOne(s).complexity
    ensures SpreadCountOf(s, name) == 0 <==> SpreadDepthOf(s, name) == 0
    ensures MeasureOne(ExpandedOne(s, name, body))
            == Inflated(MeasureOne(s), SpreadCountOf(s, name), SpreadDepthOf(s, name), MeasureOf(body))
    decreases s
  {
    hide MeasureOf, Expanded, SpreadCount, SpreadDepth;
    if !s.Spread? {
      ExpandedMeasure(s.selections, name, body);
    }
  }

  lemma Cancels(c: nat, x: nat, y: nat)
    requires c > 0
    ensures c * x == c <==> x == 1
    ensures c * y == 0 <==> y == 0
  {
    assert c * x - c == c * (x - 1);
  }

  /**
   The report is right if and only if the fragment is not spread, or stands for one plain node
   no deeper than the rest.
   */
  lemma {:induction false} ReportIsExactIff(ss: seq<Selection>, name: string, body: seq<Selection>)
    ensures var m, b := MeasureOf(ss), MeasureOf(body);
            MeasureOf(Expanded(ss, name, body)) == m <==>
              || SpreadCount(ss, name) == 0
              || (b.complexity == 1 && b.aliases == 0 && SpreadDepth(ss, name) - 1 + b.depth <= m.depth
                  && (b.introspection ==> m.introspection))
  {
    ExpandedMeasure(ss, name, body);
    hide MeasureOf, Expanded, SpreadCount, SpreadDepth;
    var c, b := SpreadCount(ss, name), MeasureOf(body);
    if c > 0 {
      Cancels(c, b.complexity, b.aliases);
    }
  }

  /**
   A depth limit on the report limits the expanded query if and only if it leaves room for
   the fragment below its spreads.
   */
  lemma DepthLimitHoldsIff(ss: seq<Selection>, name: string, body: seq<Selection>, limit: nat)
    ensures Depth(Expanded(ss, name, body)) <= limit <==>
              && Depth(ss) <= limit
              && (SpreadCount(ss, name) > 0 ==> SpreadDepth(ss, name) - 1 + Depth(body) <= limit)
  {
    ExpandedMeasure(ss, name, body);
    hide Expanded, SpreadCount, SpreadDepth, Depth;
  }

  lemma Grows(c: nat, x: nat)
    requires x >= 1
    ensures c * x >= c
  {
  }

  lemma InflatedGrows(m: Measure, c: nat, d: nat, b: Measure)
    requires c <= m.complexity && b.complexity >= 1
    ensures AtMost(m, Inflated(m, c, d, b))
  {
    Grows(c, b.complexity);
  }

  /** So, for a fragment with at least one node, what is reported is a lower bound of the expanded query's. */
  lemma SpreadsUnderestimate(ss: seq<Selection>, name: string, body: seq<Selection>)
    requires Nodes(body) != []
    ensures AtMost(MeasureOf(ss), MeasureOf(Expanded(ss, name, body)))
  {
    assert MeasureOf(body).complexity >= 1;
    hide MeasureOf, Expanded, SpreadCount, SpreadDepth, Inflated, AtMost, Nodes;
    ExpandedMeasure(ss, name, body);
    InflatedGrows(MeasureOf(ss), SpreadCount(ss, name), SpreadDepth(ss, name), MeasureOf(body));
  }

  // ----- Whole tables of fragments -----

  datatype Def = Def(name: string, body: seq<Selection>)

  function IndexOf(defs: seq<Def>, name: string): (k: nat)
    ensures k <= |defs| && (k < |defs| ==> defs[k].name == name)
    ensures forall j :: 0 <= j < k ==> defs[j].name != name
  {
    if defs == [] || defs[0].name == name then 0 else 1 + IndexOf(defs[1..], name)
  }

  /** No fragment spreads itself or one before it, so expansion comes to an end. */
  predicate Acyclic(defs: seq<Def>) {
    forall j, k :: 0 <= j <= k < |defs| ==> SpreadCount(defs[k].body, defs[j].name) == 0
  }

  /** Every spread of a defined fragment replaced by the fragment, in the fragments' own selections too. */
  function Resolved(ss: seq<Selection>, defs: seq<Def>): seq<Selection>
    decreases |defs|, ss
  {
    if ss == [] then [] else Resolved(ss[..|ss| - 1], defs) + [ResolvedOne(ss[|ss| - 1], defs)]
  }

  function ResolvedOne(s: Selection, defs: seq<Def>): Selection
    decreases |defs|, s
  {
    match s
    case Field(alias, n, selections) => Field(alias, n, Resolved(selections, defs))
    case Inline(selections) => Inline(Resolved(selections, defs))
    case Spread(n) =>
      var k := IndexOf(defs, n);
      if k < |defs| then Inline(Resolved(defs[k].body, defs[k + 1..])) else s
  }

  /** The walk as it would be if it knew what each fragment costs. */
  function CostOf(ss: seq<Selection>, costs: map<string, Measure>): Measure {
    if ss == [] then NOTHING else Join(CostOf(ss[..|ss| - 1], costs), CostOne(ss[|ss| - 1], costs))
  }

  function CostOne(s: Selection, costs: map<string, Measure>): Measure {
    match s
    case Field(_, _, selections) =>
      var m := CostOf(selections, costs);
      Measure(m.depth + 1, m.complexity + 1, m.aliases + (if Aliased(s) then 1 else 0),
              m.introspection || Introspects(s))
    case Inline(selections) => CostOf(selections, costs)
    case Spread(n) => if n in costs then costs[n] else Measure(0, 1, 0, false)
  }

  /** The fragments' costs, each computed once from those after it. */
  function Costs(defs: seq<Def>): map<string, Measure> {
    if defs == [] then map[] else
    var rest := Costs(defs[1..]);
    rest[defs[0].name := CostOf(defs[0].body, rest)]
  }

  lemma {:induction false} CostsAt(defs: seq<Def>, name: string)
    ensures var k := IndexOf(defs, name);
            && (name in Costs(defs) <==> k < |defs|)
            && (k < |defs| ==> Costs(defs)[name] == CostOf(defs[k].body, Costs(defs[k + 1..])))
  {
    hide CostOf;
    if defs != [] && defs[0].name != name {
      CostsAt(defs[1..], name);
      var k := IndexOf(defs[1..], name);
      if k < |defs| - 1 {
        assert defs[1..][k + 1..] == defs[k + 2..];
      }
    }
  }

  /** What the report would be with every fragment expanded can be had from one pass over each definition. */
  lemma {:induction false} ResolvedCost(ss: seq<Selection>, defs: seq<Def>)
    ensures MeasureOf(Resolved(ss, defs)) == CostOf(ss, Costs(defs))
    decreases |defs|, ss
  {
    MeasureNothing();
    hide MeasureOf, MeasureOne, ResolvedOne, CostOne, Costs, Join;
    if ss != [] {
      var init, last := ss[..|ss| - 1], ss[|ss| - 1];
      ResolvedCost(init, defs);
      ResolvedCostOne(last, defs);
      MeasureSnoc(Resolved(init, defs), ResolvedOne(last, defs));
    }
  }

  lemma {:induction false} ResolvedCostOne(s: Selection, defs: seq<Def>)
    ensures MeasureOne(ResolvedOne(s, defs)) == CostOne(s, Costs(defs))
    decreases |defs|, s
  {
    hide MeasureOf, Resolved, CostOf, Costs;
    if s.Spread? {
      CostsAt(defs, s.name);
      var k := IndexOf(defs, s.name);
      if k < |defs| {
        ResolvedCost(defs[k].body, defs[k + 1..]);
      }
    } else {
      ResolvedCost(s.selections, defs);
    }
  }

  /** `name` is gone once resolved: it is defined, or is spread nowhere. */
  predicate Resolvable(ss: seq<Selection>, defs: seq<Def>, name: string) {
    || IndexOf(defs, name) < |defs|
    || (SpreadCount(ss, name) == 0 && forall k :: 0 <= k < |defs| ==> SpreadCount(defs[k].body, name) == 0)
  }

  lemma {:induction false} IndexIn(defs: seq<Def>, k: nat)
    requires k < |defs|
    ensures IndexOf(defs, defs[k].name) <= k
  {
  }

  /** The body of the fragment at `k` is resolvable by those after it. */
  lemma BodyResolvable(ss: seq<Selection>, defs: seq<Def>, name: string, k: nat)
    requires k < |defs| && Acyclic(defs) && Resolvable(ss, defs, name)
    ensures Acyclic(defs[k + 1..]) && Resolvable(defs[k].body, defs[k + 1..], name)
  {
    hide SpreadCount;
    var rest := defs[k + 1..];
    forall i, j | 0 <= i <= j < |rest| ensures SpreadCount(rest[j].body, rest[i].name) == 0 {
      assert rest[j] == defs[k + 1 + j] && rest[i] == defs[k + 1 + i];
    }
    var j := IndexOf(defs, name);
    if j < |defs| && j > k {
      assert rest[j - k - 1] == defs[j];
      IndexIn(rest, j - k - 1);
    }
  }

  lemma {:induction false} NoSpreadLeft(ss: seq<Selection>, defs: seq<Def>, name: string)
    requires Acyclic(defs) && Resolvable(ss, defs, name)
    ensures SpreadCount(Resolved(ss, defs), name) == 0
    decreases |defs|, ss
  {
    hide Acyclic, ResolvedOne, SpreadCountOf;
    if ss != [] {
      var init, last := ss[..|ss| - 1], ss[|ss| - 1];
      var all := Resolved(ss, defs);
      assert all[..|all| - 1] == Resolved(init, defs);
      assert [last][..0] == [] && SpreadCount([last], name) == SpreadCountOf(last, name);
      NoSpreadLeft(init, defs, name);
      NoSpreadLeftOne(last, defs, name);
    }
  }

  lemma {:induction false} NoSpreadLeftOne(s: Selection, defs: seq<Def>, name: string)
    requires Acyclic(defs) && Resolvable([s], defs, name)
    ensures SpreadCountOf(ResolvedOne(s, defs), name) == 0
    decreases |defs|, s
  {
    assert [s][..0] == [];
    assert SpreadCount([s], name) == SpreadCountOf(s, name);
    hide Acyclic, Resolved;
    if s.Spread? {
      var k := IndexOf(defs, s.name);
      if k < |defs| {
        BodyResolvable([s], defs, name, k);
        NoSpreadLeft(defs[k].body, defs[k + 1..], name);
      }
    } else {
      NoSpreadLeft(s.selections, defs, name);
    }
  }

  /** Resolving an acyclic table leaves no spread of any of its fragments. */
  lemma ResolvedIsComplete(ss: seq<Selection>, defs: seq<Def>, k: nat)
    requires Acyclic(defs) && k < |defs|
    ensures SpreadCount(Resolved(ss, defs), defs[k].name) == 0
  {
    IndexIn(defs, k);
    hide Acyclic, Resolved, SpreadCount;
    NoSpreadLeft(ss, defs, defs[k].name);
  }

  /** The fragment `name` leaves a depth of `limit` wherever it is spread. */
  predicate Fits(ss: seq<Selection>, name: string, m: Measure, limit: int) {
    SpreadCount(ss, name) > 0 ==> SpreadDepth(ss, name) - 1 + m.depth <= limit
  }

  ghost predicate AllFit(ss: seq<Selection>, costs: map<string, Measure>, limit: int) {
    forall name :: name in costs ==> Fits(ss, name, costs[name], limit)
  }

  lemma {:induction false} SpreadSomewhere(ss: seq<Selection>, name: string)
    ensures SpreadCount(ss, name) == 0 <==> SpreadDepth(ss, name) == 0
    decreases ss
  {
    ExpandedMeasure(ss, name, []);
  }

  lemma OneSelection(s: Selection, name: string)
    ensures SpreadCount([s], name) == SpreadCountOf(s, name) && SpreadDepth([s], name) == SpreadDepthOf(s, name)
  {
    var one := [s];
    assert one[..|one| - 1] == [] && one[|one| - 1] == s;
    hide SpreadCountOf, SpreadDepthOf;
    assert SpreadCount([], name) == 0 && SpreadDepth([], name) == 0;
  }

  lemma FitsSnoc(ss: seq<Selection>, name: string, m: Measure, limit: int)
    requires ss != []
    ensures Fits(ss, name, m, limit)
            <==> Fits(ss[..|ss| - 1], name, m, limit) && Fits([ss[|ss| - 1]], name, m, limit)
  {
    var init, last := ss[..|ss| - 1], ss[|ss| - 1];
    SpreadSomewhere(init, name);
    SpreadSomewhere([last], name);
    OneSelection(last, name);
    hide SpreadCountOf, SpreadDepthOf;
  }

  lemma FitsBelow(s: Selection, name: string, m: Measure, limit: int)
    requires !s.Spread?
    ensures Fits([s], name, m, limit) <==> Fits(s.selections, name, m, limit - if s.Field? then 1 else 0)
  {
    SpreadSomewhere(s.selections, name);
    OneSelection(s, name);
  }

  /** A depth limit holds with these costs if and only if it does for the report and leaves every fragment room. */
  lemma {:induction false} CostDepthIff(ss: seq<Selection>, costs: map<string, Measure>, limit: int)
    requires limit >= 0
    ensures CostOf(ss, costs).depth <= limit <==> Depth(ss) <= limit && AllFit(ss, costs, limit)
    decreases ss
  {
    if ss == [] {
    } else {
      var init, last := ss[..|ss| - 1], ss[|ss| - 1];
      hide CostOne, DepthOf, Fits;
      CostDepthIff(init, costs, limit);
      CostDepthIffOne(last, costs, limit);
      forall name | name in costs
        ensures Fits(ss, name, costs[name], limit)
                <==> Fits(init, name, costs[name], limit) && Fits([last], name, costs[name], limit)
      {
        FitsSnoc(ss, name, costs[name], limit);
      }
    }
  }

  lemma {:induction false} CostDepthIffOne(s: Selection, costs: map<string, Measure>, limit: int)
    requires limit >= 0
    ensures CostOne(s, costs).depth <= limit <==> DepthOf(s) <= limit && AllFit([s], costs, limit)
    decreases s
  {
    if s.Spread? {
      forall name | name in costs
        ensures Fits([s], name, costs[name], limit) <==> (name == s.name ==> costs[name].depth <= limit)
      {
        OneSelection(s, name);
      }
    } else {
      hide CostOf, Depth, Fits;
      var below := limit - if s.Field? then 1 else 0;
      forall name | name in costs
        ensures Fits([s], name, costs[name], limit) <==> Fits(s.selections, name, costs[name], below)
      {
        FitsBelow(s, name, costs[name], limit);
      }
      if below >= 0 {
        CostDepthIff(s.selections, costs, below);
      }
    }
  }

  /** So a depth limit met by the report is met by the resolved query if and only if every fragment has room. */
  lemma TableDepthLimitIff(ss: seq<Selection>, defs: seq<Def>, limit: nat)
    ensures Depth(Resolved(ss, defs)) <= limit <==> Depth(ss) <= limit && AllFit(ss, Costs(defs), limit)
  {
    ResolvedCost(ss, defs);
    hide Depth, Resolved, CostOf, Costs, AllFit;
    CostDepthIff(ss, Costs(defs), limit);
  }

  lemma JoinOfNothing()
    ensures AtMost(NOTHING, NOTHING)
  {
  }

  lemma {:induction false} CostsMore(ss: seq<Selection>, costs: map<string, Measure>)
    requires forall n :: n in costs ==> costs[n].complexity >= 1
    ensures AtMost(MeasureOf(ss), CostOf(ss, costs))
    decreases ss
  {
    MeasureNothing();
    hide MeasureOf, MeasureOne, CostOne, Join, AtMost;
    if ss == [] {
      assert AtMost(NOTHING, NOTHING) by { JoinOfNothing(); }
    } else {
      var init, last := ss[..|ss| - 1], ss[|ss| - 1];
      assert ss == init + [last];
      CostsMore(init, costs);
      CostsMoreOne(last, costs);
      MeasureSnoc(init, last);
      JoinGrows(MeasureOf(init), CostOf(init, costs), MeasureOne(last), CostOne(last, costs));
    }
  }

  lemma {:induction false} CostsMoreOne(s: Selection, costs: map<string, Measure>)
    requires forall n :: n in costs ==> costs[n].complexity >= 1
    ensures AtMost(MeasureOne(s), CostOne(s, costs))
    decreases s
  {
    hide MeasureOf, CostOf;
    if !s.Spread? {
      CostsMore(s.selections, costs);
    }
  }

  lemma {:induction false} CostsAreLarge(defs: seq<Def>)
    requires forall k :: 0 <= k < |defs| ==> Nodes(defs[k].body) != []
    ensures forall n :: n in Costs(defs) ==> Costs(defs)[n].complexity >= 1
  {
    if defs != [] {
      CostsAreLarge(defs[1..]);
      CostsMore(defs[0].body, Costs(defs[1..]));
      assert MeasureOf(defs[0].body).complexity >= 1;
    }
  }

  /** And if every fragment has a node, the report is a lower bound. */
  lemma TableUnderestimated(ss: seq<Selection>, defs: seq<Def>)
    requires forall k :: 0 <= k < |defs| ==> Nodes(defs[k].body) != []
    ensures AtMost(MeasureOf(ss), MeasureOf(Resolved(ss, defs)))
  {
    CostsAreLarge(defs);
    ResolvedCost(ss, defs);
    hide MeasureOf, Resolved, CostOf, Costs, AtMost;
    CostsMore(ss, Costs(defs));
  }

  function Nested(n: nat): seq<Selection> {
    if n == 0 then [] else [Field("", "f", Nested(n - 1))]
  }

  lemma {:induction false} NestedDepth(n: nat)
    ensures Depth(Nested(n)) == n
  {
    if n > 0 {
      NestedDepth(n - 1);
      assert Nested(n)[..0] == [];
    }
  }

  lemma OneSpread(name: string, ss: seq<Selection>)
    requires ss == [Spread(name)]
    ensures MeasureOf(ss) == Measure(0, 1, 0, false)
  {
    MeasureNothing();
    hide MeasureOf;
    var none: seq<Selection> := ss[..0];
    assert none == [] && ss == none + [Spread(name)];
    MeasureSnoc(none, Spread(name));
  }

  lemma OneSpreadExpanded(name: string, body: seq<Selection>, ss: seq<Selection>)
    requires ss == [Spread(name)]
    ensures Expanded(ss, name, body) == [Inline(body)]
  {
    var none: seq<Selection> := ss[..|ss| - 1];
    assert none == [];
    assert ExpandedOne(ss[0], name, body) == Inline(body);
    hide ExpandedOne;
    assert Expanded(none, name, body) == [];
  }

  lemma InlineDepth(body: seq<Selection>)
    ensures Depth([Inline(body)]) == Depth(body)
  {
    assert [Inline(body)][..0] == [];
  }

  /** The gap has no bound: a query reported with depth zero and cost one can expand to any depth. */
  lemma FragmentsHideDepth(name: string, n: nat) returns (ss: seq<Selection>, body: seq<Selection>)
    ensures MeasureOf(ss) == Measure(0, 1, 0, false)
    ensures Depth(Expanded(ss, name, body)) == n
  {
    hide MeasureOf, Expanded, Depth, Nested;
    ss, body := [Spread(name)], Nested(n);
    OneSpread(name, ss);
    OneSpreadExpanded(name, body, ss);
    InlineDepth(body);
    NestedDepth(n);
  }

  // ----- The report -----

  datatype Operation = Operation(name: string, selections: seq<Selection>)

  datatype Issue =
    | EmptyQuery
    | MalformedQuery
    | Batching(operations: nat)
    | DepthBomb(depth: nat, limit: int)
    | TooComplex(cost: nat, limit: int)
    | Introspection
    | BatchingBlocked
    | AliasAbuse(aliases: nat, limit: int)

  datatype Policy = Policy(
    maxDepth: int, maxComplexity: int, blockIntrospection: bool, blockBatching: bool, maxAliases: int)

  datatype Report = Report(operationName: string, info: Measure, issues: seq<Issue>, malformed: bool)

  /** What the parser makes of the query text. */
  datatype Parsed = Blank | SyntaxError | Document(operations: seq<Operation>)

  /** The selections of all operations, as if they were one. */
  function AllSelections(ops: seq<Operation>): seq<Selection> {
    if ops == [] then [] else AllSelections(ops[..|ops| - 1]) + ops[|ops| - 1].selections
  }

  function LastName(ops: seq<Operation>, given: string): string {
    if ops == [] then given
    else if ops[|ops| - 1].name != "" then ops[|ops| - 1].name
    else LastName(ops[..|ops| - 1], given)
  }

  function When(c: bool, issue: Issue): seq<Issue> {
    if c then [issue] else []
  }

  function Violations(m: Measure, operations: nat, p: Policy): seq<Issue> {
    When(p.maxDepth > 0 && m.depth > p.maxDepth, DepthBomb(m.depth, p.maxDepth))
    + When(p.maxComplexity > 0 && m.complexity > p.maxComplexity, TooComplex(m.complexity, p.maxComplexity))
    + When(p.blockIntrospection && m.introspection, Introspection)
    + When(p.blockBatching && operations > 1, BatchingBlocked)
    + When(p.maxAliases > 0 && m.aliases > p.maxAliases, AliasAbuse(m.aliases, p.maxAliases))
  }

  /** An issue is reported if and only if its limit is set and passed, with the measure that passed it. */
  lemma ViolationsExactly(m: Measure, operations: nat, p: Policy, issue: Issue)
    ensures issue in Violations(m, operations, p) <==>
      match issue
      case DepthBomb(depth, limit) => depth == m.depth && limit == p.maxDepth && 0 < limit < depth
      case TooComplex(cost, limit) => cost == m.complexity && limit == p.maxComplexity && 0 < limit < cost
      case Introspection => p.blockIntrospection && m.introspection
      case BatchingBlocked => p.blockBatching && operations > 1
      case AliasAbuse(aliases, limit) => aliases == m.aliases && limit == p.maxAliases && 0 < limit < aliases
      case _ => false
  {
  }

  method Merge(info: Measure, op: Operation) returns (m: Measure)
    ensures m == Join(info, MeasureOf(op.selections))
  {
    var depth, complexity, aliases, introspection := Walk(op.selections, 0);
    assert Measure(depth, complexity, aliases, introspection) == MeasureOf(op.selections);
    hide MeasureOf, Depth, Nodes, CountAliased, AnyIntrospects;
    m := info;
    if depth > m.depth { m := m.(depth := depth); }
    m := m.(complexity := m.complexity + complexity, aliases := m.aliases + aliases);
    if introspection { m := m.(introspection := true); }
  }

  lemma OneMoreOperation(ops: seq<Operation>, i: nat, given: string)
    requires i < |ops|
    ensures MeasureOf(AllSelections(ops[..i + 1]))
            == Join(MeasureOf(AllSelections(ops[..i])), MeasureOf(ops[i].selections))
    ensures LastName(ops[..i + 1], given) == if ops[i].name != "" then ops[i].name else LastName(ops[..i], given)
  {
    hide MeasureOf;
    assert ops[..i + 1][..i] == ops[..i];
    MeasureConcat(AllSelections(ops[..i]), ops[i].selections);
  }

  lemma NoOperations(given: string)
    ensures MeasureOf(AllSelections([])) == NOTHING && LastName([], given) == given
  {
  }

  /** The aggregation loop: maximum, sums and disjunction over the operations, and the last name. */
  method Combine(ops: seq<Operation>, given: string) returns (name: string, info: Measure)
    ensures info == MeasureOf(AllSelections(ops)) && name == LastName(ops, given)
  {
    hide MeasureOf, AllSelections, LastName, Join;
    name, info := given, NOTHING;
    NoOperations(given);
    for i := 0 to |ops|
      invariant info == MeasureOf(AllSelections(ops[..i])) && name == LastName(ops[..i], given)
    {
      var op := ops[i];
      if op.name != "" { name := op.name; }
      info := Merge(info, op);
      OneMoreOperation(ops, i, given);
    }
    assert ops[..|ops|] == ops;
  }

  method AppendIf(issues: seq<Issue>, c: bool, issue: Issue) returns (more: seq<Issue>)
    ensures more == issues + When(c, issue)
  {
    more := if c then issues + [issue] else issues;
  }

  /** An issue is reported exactly when its limit is set and passed. */
  method Check(m: Measure, operations: nat, p: Policy) returns (issues: seq<Issue>)
    ensures issues == Violations(m, operations, p)
  {
    hide When;
    issues := [];
    issues := AppendIf(issues, p.maxDepth > 0 && m.depth > p.maxDepth, DepthBomb(m.depth, p.maxDepth));
    issues := AppendIf(issues, p.maxComplexity > 0 && m.complexity > p.maxComplexity,
                       TooComplex(m.complexity, p.maxComplexity));
    issues := AppendIf(issues, p.blockIntrospection && m.introspection, Introspection);
    issues := AppendIf(issues, p.blockBatching && operations > 1, BatchingBlocked);
    issues := AppendIf(issues, p.maxAliases > 0 && m.aliases > p.maxAliases, AliasAbuse(m.aliases, p.maxAliases));
  }

  /** Operations are combined as if they were one: splitting a query into several hides nothing. */
  method Inspect(parsed: Parsed, operationName: string, policy: Option<Policy>) returns (r: Report)
    ensures parsed.Blank? ==> r == Report(operationName, NOTHING, [EmptyQuery], true)
    ensures parsed.SyntaxError? ==> r == Report(operationName, NOTHING, [MalformedQuery], true)
    ensures parsed.Document? ==>
      var ops := parsed.operations;
      && r.info == MeasureOf(AllSelections(ops)) && r.operationName == LastName(ops, operationName) && !r.malformed
      && r.issues == When(|ops| > 1, Batching(|ops|))
                     + if policy == None then [] else Violations(r.info, |ops|, policy.value)
  {
    hide MeasureOf, AllSelections, LastName, Violations;
    if parsed.Blank? { return Report(operationName, NOTHING, [EmptyQuery], true); }
    if parsed.SyntaxError? { return Report(operationName, NOTHING, [MalformedQuery], true); }
    var ops := parsed.operations;
    var issues: seq<Issue> := [];
    if |ops| > 1 { issues := issues + [Batching(|ops|)]; }
    var name, info := Combine(ops, operationName);
    if policy.Some? {
      var violations := Check(info, |ops|, policy.value);
      issues := issues + violations;
    }
    return Report(name, info, issues, false);
  }
}
