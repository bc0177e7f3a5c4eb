/** Delimited identifiers: `"..."` in which a double quote is written twice (section 5.2 of ISO/IEC 9075-2:1999). */
module DelimitedIdentifiers {
  import opened Options
  import opened Regions
  import opened Ast

  const QUOTE := '\"'

  // The body of a delimited identifier for s: every quote doubled.
  function Doubled(s: string): string {
    if s == [] then [] else (if s[0] == QUOTE then [QUOTE, QUOTE] else [s[0]]) + Doubled(s[1..])
  }

  function Delimit(s: string): string { [QUOTE] + Doubled(s) + [QUOTE] }

  // The lexer's delimited identifier body: characters other than the quote, and pairs of quotes.
  predicate IsBody(b: string) {
    b == [] || (if b[0] == QUOTE then |b| > 1 && b[1] == QUOTE && IsBody(b[2..]) else IsBody(b[1..]))
  }

  // What the decoder reads from a body, and whether it ends just after an unpaired quote.
  datatype Decoded = Decoded(text: string, sawEscape: bool)

  function Decode(b: string, sawEscape: bool): Decoded {
    if b == [] then Decoded([], sawEscape)
    else if !sawEscape && b[0] == QUOTE then Decode(b[1..], true)
    else
      var rest := Decode(b[1..], false);
      Decoded([b[0]] + rest.text, rest.sawEscape)
  }

  // What the assertions at the head of the decoder ask of a token.
  predicate IsDelimited(token: string) { |token| >= 3 && token[0] == QUOTE && token[|token| - 1] == QUOTE }

  function Body(token: string): string
    requires IsDelimited(token)
  {
    token[1..|token| - 1]
  }

  // `sawEscape` is what the closing assertion is about.
  method ParseDelimitedIdentifier(str: string) returns (result: string, sawEscape: bool)
    requires IsDelimited(str)
    ensures Decoded(result, sawEscape) == Decode(Body(str), false)
  {
    result, sawEscape := [], false;
    var n := |str| - 1;
    for i := 1 to n
      invariant Decode(Body(str), false)
             == Decoded(result + Decode(str[i..n], sawEscape).text, Decode(str[i..n], sawEscape).sawEscape)
    {
      var c := str[i];
      assert str[i..n][1..] == str[i + 1..n];
      if sawEscape {
        result := result + [c];
        sawEscape := false;
      } else if c == QUOTE {
        sawEscape := true;
      } else {
        result := result + [c];
      }
    }
    assert str[n..n] == [];
  }

  lemma {:induction false} DecodeDoubled(s: string)
    ensures Decode(Doubled(s), false) == Decoded(s, false) && IsBody(Doubled(s))
  {
    if s != [] {
      DecodeDoubled(s[1..]);
      var b := Doubled(s);
      if s[0] == QUOTE {
        assert b[1..] == [QUOTE] + Doubled(s[1..]) && b[1..][1..] == Doubled(s[1..]) == b[2..];
      } else {
        assert b[1..] == Doubled(s[1..]);
      }
    }
  }

  // Round trip: the token written for a nonempty string decodes to that string, with no quote left open.
  lemma {:induction false} DelimitedRoundTrip(s: string)
    requires s != []
    ensures IsDelimited(Delimit(s)) && Decode(Body(Delimit(s)), false) == Decoded(s, false)
  {
    DecodeDoubled(s);
    assert Doubled(s) != [];
    assert Body(Delimit(s)) == Doubled(s);
  }

  // Doubling the quotes again gives back the body exactly when the lexer accepts that body.
  lemma {:induction false} DoublingRestoresBodies(b: string)
    ensures Doubled(Decode(b, false).text) == b <==> IsBody(b)
    ensures IsBody(b) ==> !Decode(b, false).sawEscape
    decreases |b|
  {
    if IsBody(b) { DoublingRestoresBody(b); }
    DecodeDoubled(Decode(b, false).text);
  }

  lemma {:induction false} DoublingRestoresBody(b: string)
    requires IsBody(b)
    ensures Doubled(Decode(b, false).text) == b && !Decode(b, false).sawEscape
  {
    if b != [] {
      if b[0] == QUOTE {
        DoublingRestoresBody(b[2..]);
        var text := Decode(b[2..], false).text;
        assert b[1..][1..] == b[2..];
        assert Decode(b, false) == Decode(b[1..], true);
        assert Decode(b, false).text == [QUOTE] + text;
        assert ([QUOTE] + text)[1..] == text;
        assert b == [QUOTE, QUOTE] + b[2..];
      } else {
        DoublingRestoresBody(b[1..]);
        var text := Decode(b[1..], false).text;
        assert ([b[0]] + text)[1..] == text;
      }
    }
  }

  // Different tokens name different identifiers.
  lemma {:induction false} DecodingIsInjective(t: string, u: string)
    requires IsDelimited(t) && IsDelimited(u) && IsBody(Body(t)) && IsBody(Body(u))
    requires Decode(Body(t), false).text == Decode(Body(u), false).text
    ensures t == u
  {
    DoublingRestoresBody(Body(t));
    DoublingRestoresBody(Body(u));
    DelimitedByQuotes(t);
    DelimitedByQuotes(u);
  }

  lemma {:induction false} DelimitedByQuotes(t: string)
    requires IsDelimited(t)
    ensures t == [QUOTE] + Body(t) + [QUOTE]
  {
  }

  // A body splits into characters other than the quote and pairs of a quote and any character.
  predicate Splits(b: string) {
    b == [] || (if b[0] == QUOTE then |b| > 1 && Splits(b[2..]) else Splits(b[1..]))
  }

  // The closing assertion of the decoder holds exactly for bodies that split like this: it does
  // not ask that the second character of a pair be a quote.
  lemma {:induction false} ClosingAssertion(b: string)
    ensures !Decode(b, false).sawEscape <==> Splits(b)
  {
    if b != [] {
      if b[0] == QUOTE {
        if |b| > 1 {
          ClosingAssertion(b[2..]);
          assert b[1..][1..] == b[2..];
        } else {
          assert b[1..] == [];
        }
        assert Decode(b, false) == Decode(b[1..], true);
      } else {
        ClosingAssertion(b[1..]);
      }
    }
  }

  // So it can hold of a token that the lexer would not accept.
  lemma {:induction false} ClosingAssertionIsWeaker()
    ensures exists t :: IsDelimited(t) && !Decode(Body(t), false).sawEscape && !IsBody(Body(t))
  {
    var t := [QUOTE, QUOTE, 'a', QUOTE];
    assert Body(t) == [QUOTE, 'a'];
    assert [QUOTE, 'a'][2..] == [];
    assert Splits([QUOTE, 'a']);
    ClosingAssertion([QUOTE, 'a']);
  }

  // ---- the reserved prefix -----------------------------------------------------------------------

  function CheckRegularIdentifier(str: string): bool { |str| >= 2 ==> str[0] != '_' || str[1] != '_' }

  function CheckDelimitedIdentifier(str: string): bool { |str| >= 3 ==> str[1] != '_' || str[2] != '_' }

  const RESERVED_PREFIX := "__"

  lemma {:induction false} StartsWithReserved(s: string)
    ensures RESERVED_PREFIX <= s <==> |s| >= 2 && s[0] == '_' && s[1] == '_'
  {
    if |s| >= 2 { assert s[..2] == [s[0], s[1]]; }
  }

  lemma {:induction false} DelimitedHead(s: string)
    requires |s| >= 1 && s[0] != QUOTE
    ensures Delimit(s) == [QUOTE, s[0]] + Doubled(s[1..]) + [QUOTE]
    ensures |s| >= 2 ==> |Delimit(s)| >= 4 && Delimit(s)[2] == s[1]
  {
    if |s| >= 2 { assert s[1..][0] == s[1]; }
  }

  // Exactly the names that start with the reserved prefix fail, and delimiting one does not get around it.
  lemma {:induction false} ChecksAgree(s: string)
    ensures CheckRegularIdentifier(s) <==> !(RESERVED_PREFIX <= s)
    ensures CheckDelimitedIdentifier(Delimit(s)) <==> !(RESERVED_PREFIX <= s)
  {
    StartsWithReserved(s);
    if s != [] && s[0] != QUOTE {
      DelimitedHead(s);
      assert Delimit(s)[1] == s[0];
      if |s| == 1 { assert Doubled(s[1..]) == []; }
    } else if s != [] {
      assert Delimit(s)[1] == QUOTE;
    }
  }

  // ---- name nodes --------------------------------------------------------------------------------

  method ToDelimitedIdentifier(str: string, location: Region) returns (r: SimpleName)
    requires IsDelimited(str)
    ensures r == SimpleName(Decode(Body(str), false).text, Delimited, location)
  {
    var identifier, _ := ParseDelimitedIdentifier(str);
    r := SimpleName(identifier, Delimited, location);
  }
}
