/**
 * Keyword highlighting in the detail view: the nested `highlight` of
 * `renderDetail`, which escapes the text and then wraps every literal,
 * case-insensitive occurrence of the search keyword in `<mark>…</mark>`.
 * The keyword's regular-expression metacharacters are escaped before the
 * `RegExp` is built, so the match is a plain literal scan, modelled here as
 * `Scan` with ASCII case folding.
 */
module Marking {
  import opened Text
  import opened Escaping

  const Open: string := "<mark>"
  const Close: string := "</mark>"
  /** What `highlight` shows for an empty text (an em dash). */
  const Dash: string := "\U{2014}"

  /** ASCII lower-casing, the case folding of the `i` flag on ASCII letters. */
  function Lower(c: char): char
  {
    if 'A' <= c <= 'Z' then (c as int + 32) as char else c
  }

  predicate SameIgnoringCase(a: string, b: string)
  {
    |a| == |b| && forall i :: 0 <= i < |a| ==> Lower(a[i]) == Lower(b[i])
  }

  /** The keyword occurs, ignoring case, at the very start of `s`. */
  predicate MatchesAt(s: string, kw: string)
  {
    |kw| <= |s| && SameIgnoringCase(s[..|kw|], kw)
  }

  /** A piece of a scanned text: a character left alone, or a matched span. */
  datatype Piece = Plain(c: char) | Hit(text: string)

  function PieceText(p: Piece): string
  {
    match p
    case Plain(c) => [c]
    case Hit(t) => t
  }

  /** The text the pieces were cut from. */
  function Concat(ps: seq<Piece>): string
  {
    if ps == [] then [] else PieceText(ps[0]) + Concat(ps[1..])
  }

  /**
   * The global regular-expression scan: at each position, a match is taken if
   * the keyword starts there, and the scan resumes after it; otherwise one
   * character is passed over.
   */
  function Scan(s: string, kw: string): seq<Piece>
    requires kw != []
    decreases |s|
  {
    if s == [] then []
    else if MatchesAt(s, kw) then [Hit(s[..|kw|])] + Scan(s[|kw|..], kw)
    else [Plain(s[0])] + Scan(s[1..], kw)
  }

  /**
   * What a leftmost, non-overlapping search yields: pieces that cover `s` in
   * order, each matched span equal to the keyword up to case, and no
   * character passed over at a position where the keyword starts.
   */
  ghost predicate GreedyParse(ps: seq<Piece>, s: string, kw: string)
  {
    && Concat(ps) == s
    && (forall i :: 0 <= i < |ps| && ps[i].Hit? ==> SameIgnoringCase(ps[i].text, kw))
    && (forall i :: 0 <= i < |ps| && ps[i].Plain? ==> !MatchesAt(Concat(ps[i..]), kw))
  }

  lemma GreedyParseCons(p: Piece, ps: seq<Piece>, s: string, kw: string)
    requires GreedyParse(ps, s, kw)
    requires p.Hit? ==> SameIgnoringCase(p.text, kw)
    requires p.Plain? ==> !MatchesAt(PieceText(p) + s, kw)
    ensures GreedyParse([p] + ps, PieceText(p) + s, kw)
  {
    var qs := [p] + ps;
    assert qs[1..] == ps;
    forall i | 0 < i < |qs|
      ensures qs[i..] == ps[i - 1..]
    {
    }
  }

  /** The scan is a leftmost, non-overlapping search for the keyword. */
  lemma {:induction false} ScanIsGreedyParse(s: string, kw: string)
    requires kw != []
    ensures GreedyParse(Scan(s, kw), s, kw)
    decreases |s|
  {
    if s != [] {
      if MatchesAt(s, kw) {
        ScanIsGreedyParse(s[|kw|..], kw);
        GreedyParseCons(Hit(s[..|kw|]), Scan(s[|kw|..], kw), s[|kw|..], kw);
        assert s[..|kw|] + s[|kw|..] == s;
      } else {
        ScanIsGreedyParse(s[1..], kw);
        GreedyParseCons(Plain(s[0]), Scan(s[1..], kw), s[1..], kw);
        assert [s[0]] + s[1..] == s;
      }
    }
  }

  /** The leftmost, non-overlapping search has only one answer: the scan's. */
  lemma {:induction false} ScanUnique(ps: seq<Piece>, s: string, kw: string)
    requires kw != []
    requires GreedyParse(ps, s, kw)
    ensures ps == Scan(s, kw)
    decreases |ps|
  {
    if ps != [] {
      var p, rest := ps[0], ps[1..];
      var t := Concat(rest);
      assert s == PieceText(p) + t;
      assert GreedyParse(rest, t, kw) by {
        forall i | 0 <= i < |rest|
          ensures rest[i] == ps[i + 1] && rest[i..] == ps[i + 1..]
        {
        }
      }
      ScanUnique(rest, t, kw);
      if p.Hit? {
        assert s[..|kw|] == p.text && s[|kw|..] == t;
        assert MatchesAt(s, kw);
      } else {
        assert !MatchesAt(s, kw) by {
          assert ps[0..] == ps;
        }
        assert s[0] == p.c && s[1..] == t;
      }
      assert ps == [p] + rest;
    } else {
      assert s == [];
    }
  }

  /** The markup `'<mark>$1</mark>'`: matched spans wrapped, the rest copied. */
  function MarkUp(ps: seq<Piece>): string
  {
    if ps == [] then []
    else
      (match ps[0]
       case Plain(c) => [c]
       case Hit(t) => Open + t + Close)
      + MarkUp(ps[1..])
  }

  /** `highlight(text)` as `renderDetail` writes it, for the keyword `kw`. */
  function Highlight(text: string, kw: string): string
  {
    if text == [] then Dash
    else if kw == [] then Esc(text)
    else MarkUp(Scan(Esc(text), kw))
  }

  /** Deleting the `<mark>` and `</mark>` tags from a string. */
  function StripMarks(h: string): string
    decreases |h|
  {
    if h == [] then []
    else if Open <= h then StripMarks(h[|Open|..])
    else if Close <= h then StripMarks(h[|Close|..])
    else [h[0]] + StripMarks(h[1..])
  }

  lemma {:induction false} StripSkip(x: string, rest: string)
    requires '<' !in x
    ensures StripMarks(x + rest) == x + StripMarks(rest)
  {
    if x == [] {
      assert x + rest == rest;
    } else {
      assert (x + rest)[0] == x[0];
      assert (x + rest)[1..] == x[1..] + rest;
      StripSkip(x[1..], rest);
    }
  }

  /** An opening tag never starts where a closing tag does. */
  lemma CloseIsNotOpen(rest: string)
    ensures !(Open <= Close + rest) && Close <= Close + rest
    ensures (Close + rest)[|Close|..] == rest
  {
    assert Open[1] == 'm';
    assert (Close + rest)[1] == '/';
  }

  lemma StripTags(t: string, rest: string)
    requires '<' !in t
    ensures StripMarks(Open + t + Close + rest) == t + StripMarks(rest)
  {
    var h := Open + t + Close + rest;
    assert Open <= h && h[|Open|..] == t + (Close + rest);
    StripSkip(t, Close + rest);
    CloseIsNotOpen(rest);
  }

  lemma {:induction false} ConcatFreeOf(ps: seq<Piece>, c: char)
    requires ps != [] && c !in Concat(ps)
    ensures c !in PieceText(ps[0]) && c !in Concat(ps[1..])
  {
  }

  /** Over a text without `<`, deleting the tags gives back the scanned text. */
  lemma {:induction false} StripMarkUp(ps: seq<Piece>)
    requires '<' !in Concat(ps)
    ensures StripMarks(MarkUp(ps)) == Concat(ps)
  {
    if ps != [] {
      ConcatFreeOf(ps, '<');
      StripMarkUp(ps[1..]);
      match ps[0]
      case Plain(c) =>
        StripSkip([c], MarkUp(ps[1..]));
      case Hit(t) =>
        StripTags(t, MarkUp(ps[1..]));
    }
  }

  /**
   * What `highlight` gives: `'—'` for an empty text, exactly `esc(text)` for an
   * empty keyword, and otherwise `esc(text)` with tags inserted: deleting the
   * `<mark>`/`</mark>` tags gives `esc(text)` back, so every `<` in the result
   * belongs to a tag.
   */
  lemma HighlightCases(text: string, kw: string)
    ensures text == [] ==> Highlight(text, kw) == Dash
    ensures text != [] && kw == [] ==> Highlight(text, kw) == Esc(text)
    ensures text != [] ==> StripMarks(Highlight(text, kw)) == Esc(text)
  {
    EscIsMarkupFree(text);
    if text != [] {
      if kw == [] {
        StripSkip(Esc(text), []);
        assert Esc(text) + [] == Esc(text);
      } else {
        ScanIsGreedyParse(Esc(text), kw);
        StripMarkUp(Scan(Esc(text), kw));
      }
    }
  }

  /**
   * The marked spans of `highlight` are the keyword up to case, found
   * leftmost and non-overlapping over the ESCAPED text.
   */
  lemma HighlightMarksKeyword(text: string, kw: string)
    requires text != [] && kw != []
    ensures Highlight(text, kw) == MarkUp(Scan(Esc(text), kw))
    ensures GreedyParse(Scan(Esc(text), kw), Esc(text), kw)
  {
    ScanIsGreedyParse(Esc(text), kw);
  }

  /**
   * The text a browser shows for a fragment made of character data and mark
   * tags, as far as the four entity references `esc` writes go: each run
   * between tags has `&quot;`, `&gt;`, `&lt;` and `&amp;` decoded on its own
   * (`run` is the part of the current run already read). A browser also
   * decodes other references, such as the legacy forms without `;`; those are
   * not modelled.
   */
  function Displayed(h: string, run: string): string
    decreases |h|
  {
    if h == [] then Unescape(run)
    else if Open <= h then Unescape(run) + Displayed(h[|Open|..], [])
    else if Close <= h then Unescape(run) + Displayed(h[|Close|..], [])
    else Displayed(h[1..], run + [h[0]])
  }

  lemma {:induction false} DisplayedSkip(x: string, rest: string, run: string)
    requires '<' !in x
    ensures Displayed(x + rest, run) == Displayed(rest, run + x)
  {
    if x == [] {
      assert x + rest == rest && run + x == run;
    } else {
      assert (x + rest)[0] == x[0];
      assert (x + rest)[1..] == x[1..] + rest;
      DisplayedSkip(x[1..], rest, run + [x[0]]);
      assert run + [x[0]] + x[1..] == run + x;
    }
  }

  /**
   * As written, a keyword can match inside an entity reference that `esc`
   * inserted: the text `<` with the keyword `lt` becomes `&<mark>lt</mark>;`,
   * which a browser shows as `&lt;` instead of `<`.
   */
  lemma HighlightMarksInsideEntity()
    ensures Highlight("<", "lt") == "&" + Open + "lt" + Close + ";"
    ensures Displayed(Highlight("<", "lt"), []) == "&lt;"
  {
    EscIsEncoding("<");
    assert Esc("<") == "&lt;";
    ScanInsideEntity();
    assert MarkUp(Scan("&lt;", "lt")) == "&" + Open + "lt" + Close + ";" by {
      MarkUpInsideEntity();
    }
    DisplayedInsideEntity();
  }

  lemma ScanInsideEntity()
    ensures Scan("&lt;", "lt") == [Plain('&'), Hit("lt"), Plain(';')]
  {
    assert !MatchesAt(";", "lt");
    assert ";"[1..] == [];
    assert Scan(";", "lt") == [Plain(';')];
    assert MatchesAt("lt;", "lt");
    assert "lt;"[..2] == "lt" && "lt;"[2..] == ";";
    assert Scan("lt;", "lt") == [Hit("lt"), Plain(';')];
    assert !MatchesAt("&lt;", "lt") by {
      assert Lower("&lt;"[0]) != Lower("lt"[0]);
    }
    assert "&lt;"[1..] == "lt;";
  }

  lemma MarkUpInsideEntity()
    ensures MarkUp([Plain('&'), Hit("lt"), Plain(';')]) == "&" + Open + "lt" + Close + ";"
  {
    var ps := [Plain('&'), Hit("lt"), Plain(';')];
    assert ps[1..] == [Hit("lt"), Plain(';')];
    assert ps[1..][1..] == [Plain(';')];
    assert MarkUp([Plain(';')]) == ";";
    assert MarkUp(ps[1..]) == Open + "lt" + Close + ";";
  }

  lemma DisplayedInsideEntity()
    ensures Displayed("&" + Open + "lt" + Close + ";", []) == "&lt;"
  {
    assert "&" + Open + "lt" + Close + ";" == "&" + (Open + ("lt" + (Close + ";")));
    DisplayedSkip("&", Open + ("lt" + (Close + ";")), []);
    DisplayedOpen("lt" + (Close + ";"), "&");
    DisplayedSkip("lt", Close + ";", []);
    DisplayedClose(";", "lt");
    DisplayedSkip(";", [], []);
    assert ";" + [] == ";" && [] + "&" == "&" && [] + "lt" == "lt" && [] + ";" == ";";
    UnescapeLiterals();
  }

  lemma UnescapeLiterals()
    ensures Unescape("&") == "&" && Unescape("lt") == "lt" && Unescape(";") == ";"
  {
  }

  /**
   * The markup `highlight` evidently intends: the keyword is searched in the
   * original text and every piece is escaped on its own.
   */
  function MarkUpEscaped(ps: seq<Piece>): string
  {
    if ps == [] then []
    else
      (match ps[0]
       case Plain(c) => Esc([c])
       case Hit(t) => Open + Esc(t) + Close)
      + MarkUpEscaped(ps[1..])
  }

  /** `highlight` with the search done on the text before escaping. */
  function HighlightIntended(text: string, kw: string): string
  {
    if text == [] then Dash
    else if kw == [] then Esc(text)
    else MarkUpEscaped(Scan(text, kw))
  }

  lemma DisplayedPlain(c: char, rest: string, done: string)
    ensures Displayed(Esc([c]) + rest, Esc(done)) == Displayed(rest, Esc(done + [c]))
  {
    EscIsMarkupFree([c]);
    DisplayedSkip(Esc([c]), rest, Esc(done));
    EscConcat(done, [c]);
  }

  /** Reading an opening tag ends the current run. */
  lemma DisplayedOpen(rest: string, run: string)
    ensures Displayed(Open + rest, run) == Unescape(run) + Displayed(rest, [])
  {
    var h := Open + rest;
    assert h != [] && Open <= h && h[|Open|..] == rest;
  }

  /** Reading a closing tag ends the current run. */
  lemma DisplayedClose(rest: string, run: string)
    ensures Displayed(Close + rest, run) == Unescape(run) + Displayed(rest, [])
  {
    CloseIsNotOpen(rest);
  }

  lemma DisplayedHit(t: string, rest: string, done: string)
    ensures Displayed(Open + Esc(t) + Close + rest, Esc(done)) == done + t + Displayed(rest, [])
  {
    var e := Esc(t);
    EscIsMarkupFree(t);
    assert Open + e + Close + rest == Open + (e + (Close + rest));
    DisplayedOpen(e + (Close + rest), Esc(done));
    UnescapeEsc(done);
    DisplayedSkip(e, Close + rest, []);
    assert [] + e == e;
    DisplayedClose(rest, e);
    UnescapeEsc(t);
  }

  lemma MarkUpEscapedCons(p: Piece, ps: seq<Piece>)
    ensures MarkUpEscaped([p] + ps) == MarkUpEscaped([p]) + MarkUpEscaped(ps)
    ensures Concat([p] + ps) == PieceText(p) + Concat(ps)
  {
    assert ([p] + ps)[1..] == ps;
    assert [p][1..] == [];
  }

  /**
   * Concatenation regrouped. The step is trivial, but asserting it next to
   * `Displayed` terms sends the solver into long searches, so the proofs
   * call it from here.
   */
  lemma Regroup(a: string, b: string, c: string)
    ensures a + b + c == a + (b + c)
  {
  }

  lemma DisplayedPlainCons(c: char, tail: seq<Piece>, done: string)
    requires Displayed(MarkUpEscaped(tail), Esc(done + [c])) == done + [c] + Concat(tail)
    ensures Displayed(MarkUpEscaped([Plain(c)] + tail), Esc(done)) == done + Concat([Plain(c)] + tail)
  {
    MarkUpEscapedCons(Plain(c), tail);
    assert MarkUpEscaped([Plain(c)]) == Esc([c]);
    DisplayedPlain(c, MarkUpEscaped(tail), done);
    Regroup(done, [c], Concat(tail));
  }

  lemma DisplayedHitCons(t: string, tail: seq<Piece>, done: string)
    requires Displayed(MarkUpEscaped(tail), []) == Concat(tail)
    ensures Displayed(MarkUpEscaped([Hit(t)] + tail), Esc(done)) == done + Concat([Hit(t)] + tail)
  {
    MarkUpEscapedCons(Hit(t), tail);
    assert MarkUpEscaped([Hit(t)]) == Open + Esc(t) + Close;
    DisplayedHit(t, MarkUpEscaped(tail), done);
    Regroup(done, t, Concat(tail));
  }

  lemma {:induction false} DisplayedMarkUpEscaped(ps: seq<Piece>, done: string)
    ensures Displayed(MarkUpEscaped(ps), Esc(done)) == done + Concat(ps)
  {
    if ps == [] {
      UnescapeEsc(done);
      assert done + Concat(ps) == done;
    } else {
      var p, tail := ps[0], ps[1..];
      assert ps == [p] + tail;
      match p
      case Plain(c) =>
        DisplayedMarkUpEscaped(tail, done + [c]);
        DisplayedPlainCons(c, tail, done);
      case Hit(t) =>
        assert Esc([]) == [];
        DisplayedMarkUpEscaped(tail, []);
        DisplayedHitCons(t, tail, done);
    }
  }

  /** The corrected highlight always shows the original text, marks aside. */
  lemma HighlightIntendedDisplaysText(text: string, kw: string)
    requires text != []
    ensures Displayed(HighlightIntended(text, kw), []) == text
  {
    assert Esc([]) == [];
    if kw == [] {
      EscIsMarkupFree(text);
      DisplayedSkip(Esc(text), [], []);
      assert Esc(text) + [] == Esc(text) && [] + Esc(text) == Esc(text);
      UnescapeEsc(text);
    } else {
      DisplayedMarkUpEscaped(Scan(text, kw), []);
      ScanIsGreedyParse(text, kw);
    }
  }

  lemma {:induction false} StripMarkUpEscaped(ps: seq<Piece>)
    ensures StripMarks(MarkUpEscaped(ps)) == Esc(Concat(ps))
  {
    if ps == [] {
      assert Esc([]) == [];
    } else {
      var rest := MarkUpEscaped(ps[1..]);
      StripMarkUpEscaped(ps[1..]);
      EscConcat(PieceText(ps[0]), Concat(ps[1..]));
      match ps[0]
      case Plain(c) =>
        EscIsMarkupFree([c]);
        StripSkip(Esc([c]), rest);
      case Hit(t) =>
        EscIsMarkupFree(t);
        StripTags(Esc(t), rest);
    }
  }

  /**
   * The corrected highlight keeps every promise of the original: `'—'` for
   * an empty text, `esc(text)` for an empty keyword, `esc(text)` once the
   * tags are deleted, and marked spans that are the keyword up to case found
   * leftmost and non-overlapping, now over the text the user reads.
   */
  lemma HighlightIntendedCases(text: string, kw: string)
    ensures text == [] ==> HighlightIntended(text, kw) == Dash
    ensures text != [] && kw == [] ==> HighlightIntended(text, kw) == Esc(text)
    ensures text != [] ==> StripMarks(HighlightIntended(text, kw)) == Esc(text)
    ensures text != [] && kw != [] ==>
      HighlightIntended(text, kw) == MarkUpEscaped(Scan(text, kw)) && GreedyParse(Scan(text, kw), text, kw)
  {
    if text != [] {
      if kw == [] {
        EscIsMarkupFree(text);
        StripSkip(Esc(text), []);
        assert Esc(text) + [] == Esc(text);
      } else {
        ScanIsGreedyParse(text, kw);
        StripMarkUpEscaped(Scan(text, kw));
      }
    }
  }
}
