/**
 `try_merge_identifier_chain`: `a.b` is first parsed as a field reference on a variable; when the
 qualifier is a variable, possibly below `NEXT VALUE FOR`, the field name joins the variable's name.
 */
module IdentifierChains {
  import opened Options
  import opened Regions
  import opened Ast
  import opened VisitedTree

  predicate IsNextValueFor(e: Scalar) {
    e.BuiltinFunctionInvocation? && e.builtin.NextValueFor? && |e.arguments| == 1
  }

  // A variable reference wrapped in zero or more one-argument calls of NEXT VALUE FOR.
  predicate IsChain(e: Scalar) { e.VariableReference? || (IsNextValueFor(e) && IsChain(e.arguments[0])) }

  // Variables are chains, NEXT VALUE FOR keeps chains, and nothing else is one.
  lemma {:induction false} ChainsAreWrappedVariables(e: Scalar, arguments: seq<Scalar>, name: Name, r: Region)
    ensures IsChain(VariableReference(name, r))
    ensures IsChain(BuiltinFunctionInvocation(NextValueFor, [e], r)) <==> IsChain(e)
    ensures |arguments| != 1 ==> !IsChain(BuiltinFunctionInvocation(NextValueFor, arguments, r))
    ensures IsChain(e) ==> e.VariableReference? || (e.BuiltinFunctionInvocation? && e.builtin.NextValueFor?)
  {
  }

  // The regions of the wrappers, outermost first, and of the variable reference.
  function Spine(e: Scalar): (r: seq<Region>)
    requires IsChain(e)
    ensures r != [] && r[0] == e.region
  {
    if e.VariableReference? then [e.region] else [e.region] + Spine(e.arguments[0])
  }

  function ChainName(e: Scalar): Name
    requires IsChain(e)
  {
    if e.VariableReference? then e.name else ChainName(e.arguments[0])
  }

  // The chain with the given spine and name.
  function Chain(spine: seq<Region>, name: Name): Scalar
    requires spine != []
  {
    if |spine| == 1 then VariableReference(name, spine[0])
    else BuiltinFunctionInvocation(NextValueFor, [Chain(spine[1..], name)], spine[0])
  }

  // The simple names of which a name consists.
  function Parts(n: Name): seq<SimpleName> {
    match n
    case Simple(name) => [name]
    case Qualified(qualifier, last, _) => Parts(qualifier) + [last]
  }

  // Every region of the spine grows to cover all regions below it and the identifier.
  function GrownSpine(spine: seq<Region>, r: Region): (s: seq<Region>)
    ensures |s| == |spine|
  {
    seq(|spine|, i requires 0 <= i < |spine| => Union(UnionAll(spine[i..]), r))
  }

  // What merging must yield.
  function Merged(qualifier: Scalar, identifier: SimpleName): (r: Scalar)
    requires IsChain(qualifier)
    ensures IsChain(r) && Spine(r) == GrownSpine(Spine(qualifier), identifier.region)
  {
    var spine := GrownSpine(Spine(qualifier), identifier.region);
    var name := Qualified(ChainName(qualifier), identifier, spine[|spine| - 1]);
    ChainIsDetermined(spine, name);
    Chain(spine, name)
  }

  method TryBuildIdentifierChain(qualifier: Scalar, identifier: SimpleName) returns (r: Option<Name>)
    ensures r == if qualifier.VariableReference?
                 then Some(Qualified(qualifier.name, identifier, Union(qualifier.region, identifier.region)))
                 else None
  {
    if qualifier.VariableReference? {
      var region := Union(qualifier.region, identifier.region);
      return Some(Qualified(qualifier.name, identifier, region));
    }
    return None;
  }

  // The qualifier and the identifier left behind are None when they have been consumed.
  method TryMergeIdentifierChain(qualifier: Scalar, identifier: SimpleName)
    returns (merged: Option<Scalar>, qualifierLeft: Option<Scalar>, identifierLeft: Option<SimpleName>)
    ensures merged == if IsChain(qualifier) then Some(Merged(qualifier, identifier)) else None
    ensures merged.None? ==> qualifierLeft == Some(qualifier) && identifierLeft == Some(identifier)
    ensures merged.Some? ==> qualifierLeft == None && identifierLeft == None
    decreases qualifier
  {
    var name := TryBuildIdentifierChain(qualifier, identifier);
    if name.Some? {
      MergedVariable(qualifier, identifier);
      return Some(VariableReference(name.value, name.value.GetRegion())), None, None;
    }
    if qualifier.BuiltinFunctionInvocation? {
      if qualifier.builtin.NextValueFor? && |qualifier.arguments| == 1 {
        var replaced, _, _ := TryMergeIdentifierChain(qualifier.arguments[0], identifier);
        if replaced.Some? {
          MergedWrapper(qualifier, identifier);
          var region := Union(qualifier.region, replaced.value.region);
          assert qualifier.arguments[0 := replaced.value] == [replaced.value];
          var arguments := qualifier.arguments[0 := replaced.value];
          return Some(BuiltinFunctionInvocation(qualifier.builtin, arguments, region)), None, None;
        }
      }
    }
    return None, Some(qualifier), Some(identifier);
  }

  lemma {:induction false} UnionAllOfOne(r: Region, s: Region)
    ensures Union(UnionAll([r]), s) == Union(r, s)
  {
    assert [r][1..] == [];
  }

  lemma {:induction false} MergedVariable(e: Scalar, identifier: SimpleName)
    requires e.VariableReference?
    ensures var region := Union(e.region, identifier.region);
            Merged(e, identifier) == VariableReference(Qualified(e.name, identifier, region), region)
  {
    UnionAllOfOne(e.region, identifier.region);
    assert [e.region][0..] == [e.region];
  }

  lemma {:induction false} MergedWrapper(e: Scalar, identifier: SimpleName)
    requires IsChain(e) && IsNextValueFor(e)
    ensures var inner := Merged(e.arguments[0], identifier);
            Merged(e, identifier) == BuiltinFunctionInvocation(NextValueFor, [inner], Union(e.region, inner.region))
  {
    var below := Spine(e.arguments[0]);
    var spine := Spine(e);
    var r := identifier.region;
    assert spine[1..] == below;
    forall i | 0 <= i < |below| ensures GrownSpine(spine, r)[i + 1] == GrownSpine(below, r)[i] {
      assert spine[i + 1..] == below[i..];
    }
    assert GrownSpine(spine, r)[1..] == GrownSpine(below, r);
    assert spine[0..] == spine && below[0..] == below;
    UnionAssociates(e.region, UnionAll(below), r);
  }

  // A chain is determined by its spine and its name.
  lemma {:induction false} ChainIsDetermined(spine: seq<Region>, name: Name)
    requires spine != []
    ensures IsChain(Chain(spine, name)) && Spine(Chain(spine, name)) == spine && ChainName(Chain(spine, name)) == name
  {
    if |spine| > 1 { ChainIsDetermined(spine[1..], name); }
  }

  // Merging keeps the number of wrappers, appends the identifier to the name, and covers both regions.
  lemma {:induction false} MergingExtendsTheName(qualifier: Scalar, identifier: SimpleName)
    requires IsChain(qualifier)
    ensures IsChain(Merged(qualifier, identifier))
    ensures |Spine(Merged(qualifier, identifier))| == |Spine(qualifier)|
    ensures Parts(ChainName(Merged(qualifier, identifier))) == Parts(ChainName(qualifier)) + [identifier]
    ensures Merged(qualifier, identifier).region == Union(UnionAll(Spine(qualifier)), identifier.region)
  {
    var spine := GrownSpine(Spine(qualifier), identifier.region);
    ChainIsDetermined(spine, Qualified(ChainName(qualifier), identifier, spine[|spine| - 1]));
    assert Spine(qualifier)[0..] == Spine(qualifier);
  }

  // Every region is valid and lies within the one above it.
  ghost predicate WellNested(spine: seq<Region>) {
    && (forall i | 0 <= i < |spine| :: spine[i].IsValid())
    && (forall i | 0 < i < |spine| :: spine[i - 1].Encloses(spine[i]))
  }

  lemma {:induction false} NestedUnionIsOutermost(spine: seq<Region>)
    requires spine != [] && WellNested(spine)
    ensures UnionAll(spine) == spine[0]
  {
    if |spine| > 1 {
      NestedUnionIsOutermost(spine[1..]);
    } else {
      assert spine[1..] == [];
    }
  }

  lemma {:induction false} GrownNested(spine: seq<Region>, r: Region)
    requires spine != [] && WellNested(spine) && r.IsValid()
    ensures forall i | 0 <= i < |spine| :: GrownSpine(spine, r)[i] == Union(spine[i], r)
    ensures WellNested(GrownSpine(spine, r))
  {
    var grown := GrownSpine(spine, r);
    forall i | 0 <= i < |spine| ensures grown[i] == Union(spine[i], r) {
      var below := spine[i..];
      assert forall j | 0 <= j < |below| :: below[j] == spine[i + j];
      NestedUnionIsOutermost(below);
    }
    forall i | 0 < i < |grown| ensures grown[i - 1].Encloses(grown[i]) {
      assert spine[i - 1].Encloses(spine[i]);
    }
  }

  // Over well-nested regions, merging yields the hull of qualifier and identifier, and keeps nesting.
  lemma {:induction false} MergingKeepsNesting(qualifier: Scalar, identifier: SimpleName)
    requires IsChain(qualifier) && WellNested(Spine(qualifier)) && identifier.region.IsValid()
    ensures IsHull(Merged(qualifier, identifier).region, [qualifier.region, identifier.region])
    ensures WellNested(Spine(Merged(qualifier, identifier)))
  {
    GrownNested(Spine(qualifier), identifier.region);
    assert Merged(qualifier, identifier).region == Union(qualifier.region, identifier.region);
    UnionIsHull(qualifier.region, identifier.region);
  }

  // ---- what merging does to the measures of the validator -----------------------------------------

  lemma {:induction false} ChainMeasures(spine: seq<Region>, name: Name)
    requires spine != []
    ensures Nodes(ScalarTree(Chain(spine, name))) == |spine| + Nodes(NameTree(name))
    ensures Height(ScalarTree(Chain(spine, name))) == |spine| + Height(NameTree(name))
  {
    if |spine| == 1 {
      OneTree(NameTree(name));
    } else {
      var inner := Chain(spine[1..], name);
      ChainMeasures(spine[1..], name);
      OneTree(ScalarTree(inner));
      OneTree(Group([ScalarTree(inner)]));
      assert ScalarTrees([inner]) == [ScalarTree(inner)];
    }
  }

  lemma {:induction false} NameMeasures(n: Name)
    ensures Nodes(NameTree(n)) == 2 * |Parts(n)| - 1 && Height(NameTree(n)) == |Parts(n)|
  {
    match n
    case Simple(_) =>
    case Qualified(qualifier, last, _) =>
      NameMeasures(qualifier);
      var a, b := NameTree(qualifier), SimpleTree(last);
      assert [a, b][1..] == [b];
      OneTree(b);
  }

  // Merging the identifiers one after the other, as the grammar does.
  function MergeAll(qualifier: Scalar, identifiers: seq<SimpleName>): (r: Scalar)
    requires IsChain(qualifier)
    ensures IsChain(r)
  {
    if identifiers == [] then qualifier
    else
      var n := |identifiers| - 1;
      var before := MergeAll(qualifier, identifiers[..n]);
      MergingExtendsTheName(before, identifiers[n]);
      Merged(before, identifiers[n])
  }

  lemma {:induction false} MergeAllExtendsTheName(qualifier: Scalar, identifiers: seq<SimpleName>)
    requires IsChain(qualifier)
    ensures Parts(ChainName(MergeAll(qualifier, identifiers))) == Parts(ChainName(qualifier)) + identifiers
    ensures |Spine(MergeAll(qualifier, identifiers))| == |Spine(qualifier)|
  {
    if identifiers != [] {
      var n := |identifiers| - 1;
      MergeAllExtendsTheName(qualifier, identifiers[..n]);
      MergingExtendsTheName(MergeAll(qualifier, identifiers[..n]), identifiers[n]);
      assert identifiers == identifiers[..n] + [identifiers[n]];
    } else {
      assert Parts(ChainName(qualifier)) + [] == Parts(ChainName(qualifier));
    }
  }

  lemma {:induction false} ChainOfSpine(e: Scalar)
    requires IsChain(e)
    ensures e == Chain(Spine(e), ChainName(e))
  {
    if !e.VariableReference? {
      ChainOfSpine(e.arguments[0]);
      assert Spine(e)[1..] == Spine(e.arguments[0]);
    }
  }

  // An n-part name built by n - 1 merges from one identifier is a variable reference of 2n nodes
  // and height n + 1, holding exactly those identifiers in order.
  lemma {:induction false} BuiltNameMeasures(first: SimpleName, r: Region, rest: seq<SimpleName>)
    ensures var e := MergeAll(VariableReference(Simple(first), r), rest); var n := 1 + |rest|;
            e.VariableReference? && Parts(e.name) == [first] + rest
            && Nodes(ScalarTree(e)) == 2 * n && Height(ScalarTree(e)) == n + 1
  {
    var e := MergeAll(VariableReference(Simple(first), r), rest);
    MergeAllExtendsTheName(VariableReference(Simple(first), r), rest);
    ChainOfSpine(e);
    ChainMeasures(Spine(e), ChainName(e));
    NameMeasures(ChainName(e));
  }
}
