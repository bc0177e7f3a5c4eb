/** The tokens a syntax error lists as expected, with everything that could be an identifier collapsed. */
module ExpectedTokens {

  // Symbol kinds; those that no rule here mentions are numbered.
  datatype SymbolKind =
    | RegularIdentifier | DelimitedIdentifier
    | ASC | CONTINUE | DESC | KEY | IGNORE | SCHEMA | SEQUENCE
    | RESTART | RESTRICT | RENAME | FIRST | LAST | ORDINALITY | VALUE
    | OtherSymbol(code: int)

  // The keywords that the grammar also accepts as identifiers.
  predicate IsContextualKeyword(kind: SymbolKind) {
    match kind
    case ASC | CONTINUE | DESC | KEY | IGNORE | SCHEMA | SEQUENCE => true
    case RESTART | RESTRICT | RENAME | FIRST | LAST | ORDINALITY | VALUE => true
    case _ => false
  }

  predicate IsIdentifier(kind: SymbolKind) { kind == RegularIdentifier || kind == DelimitedIdentifier }

  predicate IsIdentifierLike(kind: SymbolKind) { IsIdentifier(kind) || IsContextualKeyword(kind) }

  // The candidates that cannot be an identifier, in their order.
  function Others(candidates: seq<SymbolKind>): seq<SymbolKind> {
    if candidates == [] then []
    else
      var n := |candidates| - 1;
      Others(candidates[..n]) + if IsIdentifierLike(candidates[n]) then [] else [candidates[n]]
  }

  function Collapsed(candidates: seq<SymbolKind>): seq<SymbolKind> {
    if exists k <- candidates :: IsIdentifier(k) then [RegularIdentifier] + Others(candidates) else candidates
  }

  // `kept` is what is left of the candidates at positions `at`, in order, and those are the
  // positions of all candidates that cannot be an identifier.
  ghost predicate KeptInOrder(candidates: seq<SymbolKind>, kept: seq<SymbolKind>, at: seq<nat>) {
    && |at| == |kept|
    && (forall j | 0 <= j < |at| :: at[j] < |candidates| && kept[j] == candidates[at[j]])
    && (forall i, j | 0 <= i < j < |at| :: at[i] < at[j])
    && (forall i | 0 <= i < |candidates| :: i in at <==> candidates[i].OtherSymbol?)
  }

  lemma {:induction false} OthersInOrder(candidates: seq<SymbolKind>) returns (at: seq<nat>)
    ensures KeptInOrder(candidates, Others(candidates), at)
  {
    at := [];
    if candidates != [] {
      var n := |candidates| - 1;
      var before := OthersInOrder(candidates[..n]);
      KeptInOrderGrows(candidates, Others(candidates[..n]), before);
      at := before + if IsIdentifierLike(candidates[n]) then [] else [n];
    }
  }

  lemma {:induction false} KeptInOrderGrows(candidates: seq<SymbolKind>, kept: seq<SymbolKind>, at: seq<nat>)
    requires candidates != [] && KeptInOrder(candidates[..|candidates| - 1], kept, at)
    ensures var n := |candidates| - 1;
            if IsIdentifierLike(candidates[n]) then KeptInOrder(candidates, kept + [], at + [])
            else KeptInOrder(candidates, kept + [candidates[n]], at + [n])
  {
    var n := |candidates| - 1;
    var front := candidates[..n];
    assert forall i | 0 <= i < n :: front[i] == candidates[i];
    assert forall i | i in at :: i < n;
    assert kept + [] == kept && at + [] == at;
    if candidates[n].OtherSymbol? {
      var more := at + [n];
      forall i | 0 <= i < |candidates| ensures i in more <==> candidates[i].OtherSymbol? {
        assert i in more <==> i in at || i == n;
        if i < n { assert front[i] == candidates[i]; }
      }
    }
  }

  method CollapseIdentifierLikeTokens(candidates: seq<SymbolKind>) returns (result: seq<SymbolKind>)
    ensures result == Collapsed(candidates)
    ensures RegularIdentifier !in candidates && DelimitedIdentifier !in candidates ==> result == candidates
    ensures RegularIdentifier in candidates || DelimitedIdentifier in candidates ==>
              && result != [] && result[0] == RegularIdentifier
              && exists at: seq<nat> :: KeptInOrder(candidates, result[1..], at)
  {
    var identifierExpected := false;
    for i := 0 to |candidates|
      invariant identifierExpected <==> exists k <- candidates[..i] :: IsIdentifier(k)
    {
      assert candidates[..i + 1] == candidates[..i] + [candidates[i]];
      if IsIdentifier(candidates[i]) {
        assert candidates[i] in candidates[..i + 1];
        identifierExpected := true;
      }
    }
    assert candidates[..|candidates|] == candidates;
    if !identifierExpected { return candidates; }
    result := [RegularIdentifier];
    for i := 0 to |candidates|
      invariant result == [RegularIdentifier] + Others(candidates[..i])
    {
      var kind := candidates[i];
      assert candidates[..i + 1][..i] == candidates[..i];
      if !IsIdentifier(kind) && !IsContextualKeyword(kind) {
        result := result + [kind];
      }
    }
    ghost var at := OthersInOrder(candidates);
    assert result[1..] == Others(candidates);
  }

  // Filtering keeps each other candidate as often as it occurs and drops every identifier-like one.
  lemma {:induction false} OthersAreKept(candidates: seq<SymbolKind>, kind: SymbolKind)
    ensures multiset(Others(candidates))[kind] == if IsIdentifierLike(kind) then 0 else multiset(candidates)[kind]
  {
    if candidates != [] {
      var n := |candidates| - 1;
      OthersAreKept(candidates[..n], kind);
      assert candidates == candidates[..n] + [candidates[n]];
    }
  }

  lemma {:induction false} OthersAreFixed(candidates: seq<SymbolKind>)
    ensures Others(Others(candidates)) == Others(candidates)
    ensures forall k <- Others(candidates) :: !IsIdentifierLike(k)
  {
    if candidates != [] {
      var n := |candidates| - 1;
      var front := Others(candidates[..n]);
      OthersAreFixed(candidates[..n]);
      if IsIdentifierLike(candidates[n]) {
        assert Others(candidates) == front;
      } else {
        assert (front + [candidates[n]])[..|front|] == front;
      }
    }
  }

  lemma {:induction false} OthersAreFewer(candidates: seq<SymbolKind>)
    ensures |Others(candidates)| <= |candidates|
    ensures (exists k <- candidates :: IsIdentifierLike(k)) ==> |Others(candidates)| < |candidates|
  {
    if candidates != [] {
      var n := |candidates| - 1;
      OthersAreFewer(candidates[..n]);
      assert candidates == candidates[..n] + [candidates[n]];
    }
  }

  lemma {:induction false} OneIdentifierInFront(candidates: seq<SymbolKind>)
    requires exists k <- candidates :: IsIdentifier(k)
    ensures Collapsed(candidates) != [] && Collapsed(candidates)[0] == RegularIdentifier
    ensures forall i | 0 < i < |Collapsed(candidates)| :: !IsIdentifierLike(Collapsed(candidates)[i])
  {
    var once := Collapsed(candidates);
    OthersAreFixed(candidates);
    forall i | 0 < i < |once| ensures !IsIdentifierLike(once[i]) { assert once[i] in Others(candidates); }
  }

  // Collapsing twice is collapsing once; the list never grows; and when an identifier is expected
  // exactly one identifier-like kind remains, in front of all the others.
  lemma {:induction false} CollapsingIsIdempotent(candidates: seq<SymbolKind>)
    ensures Collapsed(Collapsed(candidates)) == Collapsed(candidates)
    ensures |Collapsed(candidates)| <= |candidates|
    ensures (exists k <- candidates :: IsIdentifier(k)) ==>
              Collapsed(candidates) != [] && Collapsed(candidates)[0] == RegularIdentifier
              && forall i | 0 < i < |Collapsed(candidates)| :: !IsIdentifierLike(Collapsed(candidates)[i])
  {
    if exists k <- candidates :: IsIdentifier(k) {
      var once := Collapsed(candidates);
      OthersAreFixed(candidates);
      OthersAreFewer(candidates);
      assert once[0] in once;
      OthersOfCollapsed(Others(candidates));
      OneIdentifierInFront(candidates);
    }
  }

  lemma {:induction false} OthersOfCollapsed(others: seq<SymbolKind>)
    ensures Others([RegularIdentifier] + others) == Others(others)
  {
    if others == [] {
      assert [RegularIdentifier] + others == [RegularIdentifier];
      assert Others([RegularIdentifier]) == Others([RegularIdentifier][..0]);
    } else {
      var n := |others| - 1;
      var all := [RegularIdentifier] + others;
      assert all[..|all| - 1] == [RegularIdentifier] + others[..n];
      OthersOfCollapsed(others[..n]);
    }
  }
}
