/**
 The query measure of the GraphQL validation rule: a recursive walk that keeps its
 counts in `acc` and the fragments it stands in in `seen`.
 */
module QueryLimits {
  const MAX_DEPTH: nat := 6
  const MAX_FIELDS: nat := 300
  const MAX_ALIASES: nat := 15

  datatype Selection =
    | Leaf(aliased: bool)
    | Branch(aliased: bool, sub: seq<Selection>)
    | InlineFragment(sub: seq<Selection>)
    | Spread(name: string)

  type Fragments = map<string, seq<Selection>>

  // ---------------------------------------------------------------- inlined documents

  /** A selection set without any fragments. */
  datatype Tree = Plain(aliased: bool) | Nested(aliased: bool, sub: seq<Tree>)

  function Max(a: nat, b: nat): nat {
    if a < b then b else a
  }

  /** The number of nested selection sets, counting the outermost. */
  function Depth(f: seq<Tree>): (d: nat)
    ensures d >= 1
  {
    if f == [] then 1
    else Max(match f[0] case Plain(_) => 1 case Nested(_, sub) => 1 + Depth(sub), Depth(f[1..]))
  }

  function Fields(f: seq<Tree>): nat {
    if f == [] then 0
    else 1 + (match f[0] case Plain(_) => 0 case Nested(_, sub) => Fields(sub)) + Fields(f[1..])
  }

  function Aliases(f: seq<Tree>): nat {
    if f == [] then 0
    else
      (if f[0].aliased then 1 else 0)
      + (match f[0] case Plain(_) => 0 case Nested(_, sub) => Aliases(sub)) + Aliases(f[1..])
  }

  lemma {:induction false} MeasuresAppend(a: seq<Tree>, b: seq<Tree>)
    ensures Depth(a + b) == Max(Depth(a), Depth(b))
    ensures Fields(a + b) == Fields(a) + Fields(b)
    ensures Aliases(a + b) == Aliases(a) + Aliases(b)
  {
    if a == [] {
      assert a + b == b;
    } else {
      MeasuresAppend(a[1..], b);
      assert (a + b)[0] == a[0] && (a + b)[1..] == a[1..] + b;
    }
  }

  lemma {:induction false} Empty(fragments: Fragments, seen: set<string>)
    ensures Inlined([], fragments, seen) == []
    ensures Depth([]) == 1 && Fields([]) == 0 && Aliases([]) == 0
  {
  }

  /** Every spread replaced by its fragment, except one inside its own expansion and one of no fragment. */
  function Inlined(sels: seq<Selection>, fragments: Fragments, seen: set<string>): seq<Tree>
    decreases fragments.Keys - seen, sels
  {
    if sels == [] then []
    else InlinedOne(sels[0], fragments, seen) + Inlined(sels[1..], fragments, seen)
  }

  function InlinedOne(sel: Selection, fragments: Fragments, seen: set<string>): seq<Tree>
    decreases fragments.Keys - seen, sel
  {
    match sel
    case Leaf(aliased) => [Plain(aliased)]
    case Branch(aliased, sub) => [Nested(aliased, Inlined(sub, fragments, seen))]
    case InlineFragment(sub) => Inlined(sub, fragments, seen)
    case Spread(name) =>
      if name in seen || name !in fragments then []
      else
        assert name in fragments.Keys - seen && name !in fragments.Keys - (seen + {name});
        Inlined(fragments[name], fragments, seen + {name})
  }

  /** What a selection adds to the counts of those that follow it. */
  lemma {:induction false} MeasuresStep(sels: seq<Selection>, i: nat, fragments: Fragments, seen: set<string>)
    requires i < |sels|
    ensures var (one, rest, both) := (InlinedOne(sels[i], fragments, seen), Inlined(sels[i + 1..], fragments, seen),
                                      Inlined(sels[i..], fragments, seen));
            && Depth(both) == Max(Depth(one), Depth(rest))
            && Fields(both) == Fields(one) + Fields(rest)
            && Aliases(both) == Aliases(one) + Aliases(rest)
  {
    MeasuresAppend(InlinedOne(sels[i], fragments, seen), Inlined(sels[i + 1..], fragments, seen));
    assert sels[i..][0] == sels[i] && sels[i..][1..] == sels[i + 1..];
  }

  /** What one field adds. */
  lemma {:induction false} FieldMeasures(sel: Selection, fragments: Fragments, seen: set<string>)
    requires sel.Leaf? || sel.Branch?
    ensures var one := InlinedOne(sel, fragments, seen);
            var sub := if sel.Leaf? then [] else Inlined(sel.sub, fragments, seen);
            && Depth(one) == (if sel.Leaf? then 1 else 1 + Depth(sub))
            && Fields(one) == 1 + Fields(sub)
            && Aliases(one) == (if sel.aliased then 1 else 0) + Aliases(sub)
  {
  }

  // ---------------------------------------------------------------- the walk

  class Accumulator {
    var depth: nat
    var fields: nat
    var aliases: nat

    constructor ()
      ensures depth == fields == aliases == 0
    {
      depth, fields, aliases := 0, 0, 0;
    }
  }

  class NameSet {
    var names: set<string>

    constructor ()
      ensures names == {}
    {
      names := {};
    }
  }

  method Measure(sels: seq<Selection>, fragments: Fragments, depth: nat, seen: NameSet, acc: Accumulator)
    requires depth >= 1
    modifies seen, acc
    ensures seen.names == old(seen.names)
    ensures var f := Inlined(sels, fragments, old(seen.names));
            && acc.depth == Max(old(acc.depth), depth - 1 + Depth(f))
            && acc.fields == old(acc.fields) + Fields(f)
            && acc.aliases == old(acc.aliases) + Aliases(f)
    decreases fragments.Keys - seen.names, sels
  {
    hide Inlined, Depth, Fields, Aliases;
    acc.depth := Max(acc.depth, depth);
    ghost var names := seen.names;
    ghost var all := Inlined(sels, fragments, names);
    assert sels[0..] == sels;
    for i := 0 to |sels|
      invariant seen.names == names
      invariant acc.depth >= depth
      invariant var rest := Inlined(sels[i..], fragments, names);
                && Max(acc.depth, depth - 1 + Depth(rest)) == Max(old(acc.depth), depth - 1 + Depth(all))
                && acc.fields + Fields(rest) == old(acc.fields) + Fields(all)
                && acc.aliases + Aliases(rest) == old(acc.aliases) + Aliases(all)
    {
      var sel := sels[i];
      MeasuresStep(sels, i, fragments, names);
      match sel
      case Leaf(aliased) =>
        FieldMeasures(sel, fragments, names);
        Empty(fragments, names);
        acc.fields := acc.fields + 1;
        if aliased { acc.aliases := acc.aliases + 1; }
      case Branch(aliased, sub) =>
        FieldMeasures(sel, fragments, names);
        acc.fields := acc.fields + 1;
        if aliased { acc.aliases := acc.aliases + 1; }
        Measure(sub, fragments, depth + 1, seen, acc);
      case InlineFragment(sub) =>
        Measure(sub, fragments, depth, seen, acc);
      case Spread(name) =>
        if name !in seen.names && name in fragments {
          assert name in fragments.Keys - names && name !in fragments.Keys - (names + {name});
          seen.names := seen.names + {name};
          Measure(fragments[name], fragments, depth, seen, acc);
          seen.names := seen.names - {name};
          assert seen.names == names;
        } else {
          Empty(fragments, names);
        }
    }
    Empty(fragments, names);
    assert sels[|sels|..] == [];
  }

  // ---------------------------------------------------------------- the rule

  datatype Violation = TooDeep(levels: nat) | TooManyFields(count: nat) | TooManyAliases(count: nat)

  predicate WithinLimits(f: seq<Tree>) {
    Depth(f) <= MAX_DEPTH && Fields(f) <= MAX_FIELDS && Aliases(f) <= MAX_ALIASES
  }

  // The three size reports for one operation.
  method CheckOperation(sels: seq<Selection>, fragments: Fragments) returns (errors: seq<Violation>)
    ensures var f := Inlined(sels, fragments, {});
            && (errors == [] <==> WithinLimits(f))
            && (forall e :: e in errors <==>
                  match e
                  case TooDeep(n) => n == Depth(f) && n > MAX_DEPTH
                  case TooManyFields(n) => n == Fields(f) && n > MAX_FIELDS
                  case TooManyAliases(n) => n == Aliases(f) && n > MAX_ALIASES)
  {
    var acc := new Accumulator();
    var seen := new NameSet();
    Measure(sels, fragments, 1, seen, acc);
    hide Inlined, Depth, Fields, Aliases;
    errors := [];
    if acc.depth > MAX_DEPTH { errors := errors + [TooDeep(acc.depth)]; }
    if acc.fields > MAX_FIELDS { errors := errors + [TooManyFields(acc.fields)]; }
    if acc.aliases > MAX_ALIASES { errors := errors + [TooManyAliases(acc.aliases)]; }
    ghost var f := Inlined(sels, fragments, {});
    assert acc.depth == Depth(f) && acc.fields == Fields(f) && acc.aliases == Aliases(f);
  }

  // ---------------------------------------------------------------- acyclic documents

  /** The fragments a selection set names directly, at any depth. */
  function Spreads(sels: seq<Selection>): set<string> {
    if sels == [] then {}
    else
      (match sels[0]
       case Leaf(_) => {}
       case Branch(_, sub) => Spreads(sub)
       case InlineFragment(sub) => Spreads(sub)
       case Spread(name) => {name})
      + Spreads(sels[1..])
  }

  /** Every fragment only names fragments of a smaller rank, so none reaches itself. */
  ghost predicate Acyclic(fragments: Fragments, rank: map<string, nat>) {
    && rank.Keys == fragments.Keys
    && forall name :: name in fragments ==> RanksBelow(fragments[name], fragments, rank, rank[name])
  }

  ghost predicate RanksBelow(sels: seq<Selection>, fragments: Fragments, rank: map<string, nat>, bound: nat)
    requires rank.Keys == fragments.Keys
  {
    forall name :: name in Spreads(sels) && name in fragments ==> rank[name] < bound
  }

  /** Every spread replaced by its fragment, with no record of where the expansion stands. */
  ghost function FullyInlined(sels: seq<Selection>, fragments: Fragments, rank: map<string, nat>, bound: nat): seq<Tree>
    requires Acyclic(fragments, rank) && RanksBelow(sels, fragments, rank, bound)
    decreases bound, sels
  {
    if sels == [] then []
    else
      (match sels[0]
       case Leaf(aliased) => [Plain(aliased)]
       case Branch(aliased, sub) => [Nested(aliased, FullyInlined(sub, fragments, rank, bound))]
       case InlineFragment(sub) => FullyInlined(sub, fragments, rank, bound)
       case Spread(name) =>
         if name !in fragments then [] else FullyInlined(fragments[name], fragments, rank, rank[name]))
      + FullyInlined(sels[1..], fragments, rank, bound)
  }

  lemma {:induction false} SeenOnlyCutsCycles(sels: seq<Selection>, fragments: Fragments, seen: set<string>,
                                              rank: map<string, nat>, bound: nat)
    requires Acyclic(fragments, rank) && RanksBelow(sels, fragments, rank, bound)
    requires forall name :: name in seen && name in fragments ==> rank[name] >= bound
    ensures Inlined(sels, fragments, seen) == FullyInlined(sels, fragments, rank, bound)
    decreases bound, sels
  {
    if sels != [] {
      SeenOnlyCutsCycles(sels[1..], fragments, seen, rank, bound);
      match sels[0]
      case Leaf(_) =>
      case Branch(_, sub) => SeenOnlyCutsCycles(sub, fragments, seen, rank, bound);
      case InlineFragment(sub) => SeenOnlyCutsCycles(sub, fragments, seen, rank, bound);
      case Spread(name) =>
        if name in fragments {
          assert name in Spreads(sels);
          SeenOnlyCutsCycles(fragments[name], fragments, seen + {name}, rank, rank[name]);
        }
    }
  }

  /** In a document without fragment cycles the walk measures the document with every fragment inlined. */
  lemma {:induction false} AcyclicIsFullyInlined(sels: seq<Selection>, fragments: Fragments, rank: map<string, nat>,
                                                 bound: nat)
    requires Acyclic(fragments, rank) && RanksBelow(sels, fragments, rank, bound)
    ensures Inlined(sels, fragments, {}) == FullyInlined(sels, fragments, rank, bound)
  {
    SeenOnlyCutsCycles(sels, fragments, {}, rank, bound);
  }
}
