/**
 * The page's HTML escaper `esc` (four global replaces, `&` first) and the
 * decoder that undoes it (the same four entities, `&amp;` last).
 */
module Escaping {
  import opened Text

  /** The characters `esc` rewrites. */
  const Special: set<char> := {'&', '<', '>', '"'}

  /** The entity reference `esc` writes for a special character. */
  function Entity(c: char): string
  {
    if c == '&' then "&amp;"
    else if c == '<' then "&lt;"
    else if c == '>' then "&gt;"
    else "&quot;"
  }

  /**
   * Reference definition: every character of `enc` written as its entity,
   * every other character kept. `esc` is this with `enc == Special`; the
   * decoder passes through it with ever smaller sets.
   */
  function EncodeSet(s: string, enc: set<char>): string
  {
    if s == [] then []
    else (if s[0] in enc then Entity(s[0]) else [s[0]]) + EncodeSet(s[1..], enc)
  }

  /** `esc(s)`: a falsy (empty) input gives `''`, otherwise four global replaces. */
  function Esc(s: string): string
  {
    if s == [] then []
    else ReplaceAll(ReplaceAll(ReplaceAll(ReplaceAll(s, "&", "&amp;"), "<", "&lt;"), ">", "&gt;"), "\"", "&quot;")
  }

  /** Decoding in the order `&quot;`, `&gt;`, `&lt;`, then `&amp;`. */
  function Unescape(s: string): string
  {
    ReplaceAll(ReplaceAll(ReplaceAll(ReplaceAll(s, "&quot;", "\""), "&gt;", ">"), "&lt;", "<"), "&amp;", "&")
  }

  lemma {:induction false} EncodeNothing(s: string)
    ensures EncodeSet(s, {}) == s
  {
    if s != [] {
      EncodeNothing(s[1..]);
    }
  }

  lemma {:induction false} EncodeConcat(a: string, b: string, enc: set<char>)
    ensures EncodeSet(a + b, enc) == EncodeSet(a, enc) + EncodeSet(b, enc)
  {
    if a == [] {
      assert a + b == b;
    } else {
      assert (a + b)[0] == a[0];
      assert (a + b)[1..] == a[1..] + b;
      EncodeConcat(a[1..], b, enc);
    }
  }

  /**
   * One encoding pass: replacing `c` by its entity in a string where the
   * characters of `enc` are already encoded encodes `c` too, provided `c`
   * occurs in none of the entities already written (which is why `&` goes first).
   */
  lemma {:induction false} EncodeStep(s: string, enc: set<char>, c: char)
    requires c in Special && c !in enc
    requires c == '&' ==> enc == {}
    requires enc <= Special
    ensures ReplaceAll(EncodeSet(s, enc), [c], Entity(c)) == EncodeSet(s, enc + {c})
  {
    if s != [] {
      var tok := if s[0] in enc then Entity(s[0]) else [s[0]];
      ReplaceCharConcat(tok, EncodeSet(s[1..], enc), c, Entity(c));
      EncodeStep(s[1..], enc, c);
      EncodeToken(s[0], enc, c);
    }
  }

  /** The pass on the text written for one character. */
  lemma EncodeToken(x: char, enc: set<char>, c: char)
    requires c in Special && c !in enc
    requires c == '&' ==> enc == {}
    requires enc <= Special
    ensures ReplaceAll(if x in enc then Entity(x) else [x], [c], Entity(c))
      == if x in enc + {c} then Entity(x) else [x]
  {
    if x in enc {
      var tok := Entity(x);
      assert c !in tok;
      ReplaceAllSkip(tok, [], [c], Entity(c));
      assert tok + [] == tok;
    } else if x == c {
      assert [c] <= [x] && [x][1..] == [];
    } else {
      assert !([c] <= [x]) && [x][1..] == [];
    }
  }

  /** Two different entities part at their second character. */
  lemma EntitiesDiffer(c: char, d: char, rest: string)
    requires c in Special && d in Special && c != d
    ensures !(Entity(c) <= Entity(d) + rest)
  {
    assert Entity(c)[1] != Entity(d)[1];
    assert (Entity(d) + rest)[1] == Entity(d)[1];
  }

  lemma DecodeHead(c: char, rest: string)
    ensures ReplaceAll(Entity(c) + rest, Entity(c), [c]) == [c] + ReplaceAll(rest, Entity(c), [c])
  {
    var pat := Entity(c);
    assert pat <= pat + rest;
    assert (pat + rest)[|pat|..] == rest;
  }

  lemma DecodeOtherEntity(c: char, d: char, rest: string)
    requires c in Special && d in Special && c != d
    ensures ReplaceAll(Entity(d) + rest, Entity(c), [c]) == Entity(d) + ReplaceAll(rest, Entity(c), [c])
  {
    var e := Entity(d);
    var pat := Entity(c);
    var x := e + rest;
    EntitiesDiffer(c, d, rest);
    NoMatchStep(x, pat, [c]);
    assert x[1..] == e[1..] + rest;
    assert '&' !in e[1..];
    ReplaceAllSkip(e[1..], rest, pat, [c]);
    assert [x[0]] + e[1..] == e;
  }

  lemma NoMatchStep(s: string, pat: string, rep: string)
    requires pat != [] && s != [] && !(pat <= s)
    ensures ReplaceAll(s, pat, rep) == [s[0]] + ReplaceAll(s[1..], pat, rep)
  {
  }

  lemma DecodePlain(x: char, rest: string, c: char)
    requires x != '&'
    ensures ReplaceAll([x] + rest, Entity(c), [c]) == [x] + ReplaceAll(rest, Entity(c), [c])
  {
    ReplaceAllSkip([x], rest, Entity(c), [c]);
  }

  /**
   * One decoding pass: while `&` is still encoded, every `&` in the string
   * starts an entity, so replacing the entity of `c` by `c` decodes exactly
   * the encoded `c`s.
   */
  lemma {:induction false} DecodeStep(s: string, enc: set<char>, c: char)
    requires '&' in enc && c in enc && enc <= Special
    ensures ReplaceAll(EncodeSet(s, enc), Entity(c), [c]) == EncodeSet(s, enc - {c})
  {
    if s != [] {
      var rest := EncodeSet(s[1..], enc);
      DecodeStep(s[1..], enc, c);
      if s[0] == c {
        DecodeHead(c, rest);
      } else if s[0] in enc {
        DecodeOtherEntity(c, s[0], rest);
      } else {
        DecodePlain(s[0], rest, c);
      }
    }
  }

  /** `esc`'s four passes encode exactly the special characters. */
  lemma EscIsEncoding(s: string)
    ensures Esc(s) == EncodeSet(s, Special)
  {
    if s != [] {
      EncodeNothing(s);
      EncodeStep(s, {}, '&');
      assert {} + {'&'} == {'&'};
      var s1 := ReplaceAll(s, "&", "&amp;");
      assert s1 == EncodeSet(s, {'&'});
      EncodeStep(s, {'&'}, '<');
      assert {'&'} + {'<'} == {'&', '<'};
      var s2 := ReplaceAll(s1, "<", "&lt;");
      assert s2 == EncodeSet(s, {'&', '<'});
      EncodeStep(s, {'&', '<'}, '>');
      assert {'&', '<'} + {'>'} == {'&', '<', '>'};
      var s3 := ReplaceAll(s2, ">", "&gt;");
      assert s3 == EncodeSet(s, {'&', '<', '>'});
      EncodeStep(s, {'&', '<', '>'}, '"');
      assert {'&', '<', '>'} + {'"'} == Special;
    }
  }

  lemma {:induction false} EncodeSpecialIsMarkupFree(s: string)
    ensures var r := EncodeSet(s, Special); '<' !in r && '>' !in r && '"' !in r
  {
    if s != [] {
      EncodeSpecialIsMarkupFree(s[1..]);
    }
  }

  /** No raw `<`, `>` or `"` survives `esc`. */
  lemma EscIsMarkupFree(s: string)
    ensures '<' !in Esc(s) && '>' !in Esc(s) && '"' !in Esc(s)
  {
    EscIsEncoding(s);
    EncodeSpecialIsMarkupFree(s);
  }

  /** Decoding `&quot;`, `&gt;`, `&lt;` and then `&amp;` gives back the input of `esc`. */
  lemma UnescapeEsc(s: string)
    ensures Unescape(Esc(s)) == s
  {
    EscIsEncoding(s);
    DecodeStep(s, Special, '"');
    assert Special - {'"'} == {'&', '<', '>'};
    DecodeStep(s, {'&', '<', '>'}, '>');
    assert {'&', '<', '>'} - {'>'} == {'&', '<'};
    DecodeStep(s, {'&', '<'}, '<');
    assert {'&', '<'} - {'<'} == {'&'};
    DecodeStep(s, {'&'}, '&');
    assert {'&'} - {'&'} == {};
    EncodeNothing(s);
  }

  /** Escaping works character by character, so it distributes over concatenation. */
  lemma EscConcat(a: string, b: string)
    ensures Esc(a + b) == Esc(a) + Esc(b)
  {
    EscIsEncoding(a);
    EscIsEncoding(b);
    EscIsEncoding(a + b);
    EncodeConcat(a, b, Special);
  }
}
