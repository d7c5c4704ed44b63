/**
 * The two java.lang.String operations the router relies on:
 *  - `split(regex)` with a one-character regex that is not a regex
 *    metacharacter (`"/"`, `"&"`, `"="`) and the default limit 0;
 *  - `replace("\"", "\\\"")`, used by the echo handler.
 */
module JavaStrings {

  /** All the pieces between occurrences of `d`, empty pieces included. */
  function Pieces(s: string, d: char): (r: seq<string>)
    ensures |r| >= 1
    ensures forall i :: 0 <= i < |r| ==> d !in r[i]
  {
    if s == [] then [[]]
    else
      var rest := Pieces(s[1..], d);
      if s[0] == d then [[]] + rest
      else [[s[0]] + rest[0]] + rest[1..]
  }

  /** With limit 0, split drops every trailing empty string. */
  function TrimTrailingEmpty(parts: seq<string>): (r: seq<string>)
    ensures r <= parts
    ensures r == [] || r[|r| - 1] != []
    ensures forall i :: |r| <= i < |parts| ==> parts[i] == []
  {
    if parts == [] || parts[|parts| - 1] != [] then parts
    else TrimTrailingEmpty(parts[..|parts| - 1])
  }

  /**
   * `s.split(d)`: with no occurrence of `d` the result is `[s]` itself
   * (so `""` gives `[""]`); otherwise the pieces, less trailing empty ones.
   * A leading empty piece is kept: `"/a"` gives `["", "a"]`.
   */
  function JavaSplit(s: string, d: char): (r: seq<string>)
    ensures forall i :: 0 <= i < |r| ==> d !in r[i]
    ensures d in s ==> r == [] || r[|r| - 1] != []
  {
    if d !in s then [s] else TrimTrailingEmpty(Pieces(s, d))
  }

  /** The pieces glued back together with `d` (Java's `String.join`). */
  function Join(parts: seq<string>, d: char): string
  {
    if |parts| == 0 then []
    else if |parts| == 1 then parts[0]
    else parts[0] + [d] + Join(parts[1..], d)
  }

  lemma {:induction false} JoinPieces(s: string, d: char)
    ensures Join(Pieces(s, d), d) == s
  {
    if s != [] {
      var rest := Pieces(s[1..], d);
      JoinPieces(s[1..], d);
      if s[0] == d {
        assert Pieces(s, d) == [[]] + rest;
        assert ([[]] + rest)[1..] == rest;
        assert s == [d] + s[1..];
      } else {
        var p := [[s[0]] + rest[0]] + rest[1..];
        assert Pieces(s, d) == p;
        assert p[1..] == rest[1..];
        if |rest| == 1 {
          assert Join(rest, d) == rest[0];
        } else {
          assert Join(rest, d) == rest[0] + [d] + Join(rest[1..], d);
        }
        assert s == [s[0]] + s[1..];
      }
    }
  }

  lemma {:induction false} JoinSnoc(parts: seq<string>, x: string, d: char)
    requires parts != []
    ensures Join(parts + [x], d) == Join(parts, d) + [d] + x
  {
    if |parts| > 1 {
      JoinSnoc(parts[1..], x, d);
      assert (parts + [x])[1..] == parts[1..] + [x];
    }
  }

  lemma {:induction false} JoinTrim(parts: seq<string>, d: char)
    ensures Join(TrimTrailingEmpty(parts), d) <= Join(parts, d)
    ensures forall i :: |Join(TrimTrailingEmpty(parts), d)| <= i < |Join(parts, d)| ==> Join(parts, d)[i] == d
  {
    if parts != [] && parts[|parts| - 1] == [] {
      var p := parts[..|parts| - 1];
      JoinTrim(p, d);
      assert parts == p + [[]];
      if p != [] {
        JoinSnoc(p, [], d);
      }
    }
  }

  /** Splitting loses nothing but delimiters at the very end of the input. */
  lemma JavaSplitLosesOnlyTrailingDelimiters(s: string, d: char)
    ensures Join(JavaSplit(s, d), d) <= s
    ensures forall i :: |Join(JavaSplit(s, d), d)| <= i < |s| ==> s[i] == d
  {
    if d in s {
      JoinPieces(s, d);
      JoinTrim(Pieces(s, d), d);
    }
  }

  lemma {:induction false} PiecesWithoutDelimiter(s: string, d: char)
    requires d !in s
    ensures Pieces(s, d) == [s]
  {
    if s != [] {
      PiecesWithoutDelimiter(s[1..], d);
      assert s == [s[0]] + s[1..];
    }
  }

  /** A delimiter-free run followed by a delimiter is one whole piece. */
  lemma {:induction false} PiecesSegment(w: string, t: string, d: char)
    requires d !in w
    ensures Pieces(w + [d] + t, d) == [w] + Pieces(t, d)
  {
    if w == [] {
      assert [d] + t == w + [d] + t;
      assert ([d] + t)[1..] == t;
    } else {
      PiecesSegment(w[1..], t, d);
      assert (w + [d] + t)[1..] == w[1..] + [d] + t;
      assert w == [w[0]] + w[1..];
    }
  }

  lemma {:induction false} PiecesJoin(parts: seq<string>, d: char)
    requires parts != []
    requires forall i :: 0 <= i < |parts| ==> d !in parts[i]
    ensures Pieces(Join(parts, d), d) == parts
  {
    if |parts| == 1 {
      PiecesWithoutDelimiter(parts[0], d);
    } else {
      PiecesJoin(parts[1..], d);
      PiecesSegment(parts[0], Join(parts[1..], d), d);
      assert parts == [parts[0]] + parts[1..];
    }
  }

  /**
   * Splitting undoes joining, for two or more delimiter-free segments of
   * which the last is not empty.
   */
  lemma JavaSplitJoin(parts: seq<string>, d: char)
    requires |parts| >= 2 && parts[|parts| - 1] != []
    requires forall i :: 0 <= i < |parts| ==> d !in parts[i]
    ensures JavaSplit(Join(parts, d), d) == parts
  {
    PiecesJoin(parts, d);
    assert Join(parts, d) == parts[0] + [d] + Join(parts[1..], d);
    assert d in Join(parts, d) by { assert Join(parts, d)[|parts[0]|] == d; }
  }

  lemma {:induction false} PiecesSnocDelimiter(s: string, d: char)
    ensures Pieces(s + [d], d) == Pieces(s, d) + [[]]
  {
    if s == [] {
      assert [d][1..] == [];
    } else {
      PiecesSnocDelimiter(s[1..], d);
      assert (s + [d])[1..] == s[1..] + [d];
    }
  }

  /** One trailing delimiter never changes a split: "/user/42/" splits like "/user/42". */
  lemma TrailingDelimiterIgnored(s: string, d: char)
    requires s != []
    ensures JavaSplit(s + [d], d) == JavaSplit(s, d)
  {
    PiecesSnocDelimiter(s, d);
    var p := Pieces(s, d);
    assert d in s + [d] by { assert (s + [d])[|s|] == d; }
    assert (p + [[]])[..|p|] == p;
    if d !in s {
      PiecesWithoutDelimiter(s, d);
    }
  }

  /** A lone delimiter splits to nothing, so the path "/" has zero segments. */
  lemma LoneDelimiterSplitsToNothing(d: char)
    ensures JavaSplit([d], d) == []
  {
    assert Pieces([d], d) == [[], []];
  }

  /** An empty string has no delimiter and splits to one empty segment. */
  lemma EmptySplitsToOneEmpty(d: char)
    ensures JavaSplit([], d) == [[]]
  {
  }

  /**
   * Read left to right, every double quote of `r` comes right after a
   * backslash that is not itself consumed by an earlier quote.
   */
  predicate QuotesEscaped(r: string)
  {
    if r == [] then true
    else if r[0] == '"' then false
    else if |r| >= 2 && r[0] == '\\' && r[1] == '"' then QuotesEscaped(r[2..])
    else QuotesEscaped(r[1..])
  }

  /** `s.replace("\"", "\\\"")`: a backslash goes in front of every double quote. */
  function EscapeQuotes(s: string): (r: string)
    ensures |r| >= |s|
  {
    if s == [] then []
    else (if s[0] == '"' then ['\\', '"'] else [s[0]]) + EscapeQuotes(s[1..])
  }

  /**
   * The escape adds one backslash per double quote and nothing else: every
   * other character occurs as often as before.
   */
  lemma {:induction false} EscapeQuotesCounts(s: string)
    ensures |EscapeQuotes(s)| == |s| + multiset(s)['"']
    ensures multiset(EscapeQuotes(s))['\\'] == multiset(s)['\\'] + multiset(s)['"']
    ensures forall c :: c != '\\' ==> multiset(EscapeQuotes(s))[c] == multiset(s)[c]
  {
    if s != [] {
      EscapeQuotesCounts(s[1..]);
      assert s == [s[0]] + s[1..];
    }
  }

  lemma {:induction false} EscapeWithoutQuotes(s: string)
    requires '"' !in s
    ensures EscapeQuotes(s) == s
  {
    if s != [] {
      EscapeWithoutQuotes(s[1..]);
      assert s == [s[0]] + s[1..];
    }
  }

  /** A quoted word: both quotes get their backslash, nothing else changes. */
  lemma EscapeQuotedWord(h: string, w: string)
    requires '"' !in h && '"' !in w
    ensures EscapeQuotes(h + ("\"" + (w + "\""))) == h + ("\\\"" + (w + "\\\""))
  {
    var q := "\"";
    EscapeQuotesAppend(h, q + (w + q));
    EscapeQuotesAppend(q, w + q);
    EscapeQuotesAppend(w, q);
    EscapeWithoutQuotes(h);
    EscapeWithoutQuotes(w);
    assert EscapeQuotes(q) == "\\\"";
  }

  /** After escaping, no double quote is left bare. */
  lemma {:induction false} EscapedHasNoBareQuote(s: string)
    ensures QuotesEscaped(EscapeQuotes(s))
    ensures EscapeQuotes(s) == [] || EscapeQuotes(s)[0] != '"'
  {
    if s != [] {
      var e := EscapeQuotes(s[1..]);
      EscapedHasNoBareQuote(s[1..]);
      if s[0] == '"' {
        assert EscapeQuotes(s) == ['\\', '"'] + e;
        assert (['\\', '"'] + e)[2..] == e;
      } else {
        assert EscapeQuotes(s) == [s[0]] + e;
        assert ([s[0]] + e)[1..] == e;
      }
    }
  }

  lemma {:induction false} EscapeQuotesAppend(a: string, b: string)
    ensures EscapeQuotes(a + b) == EscapeQuotes(a) + EscapeQuotes(b)
  {
    if a == [] {
      assert a + b == b;
    } else {
      var head := if a[0] == '"' then ['\\', '"'] else [a[0]];
      var ab := a + b;
      assert ab[0] == a[0] && ab[1..] == a[1..] + b;
      assert EscapeQuotes(ab) == head + EscapeQuotes(a[1..] + b);
      EscapeQuotesAppend(a[1..], b);
      assert EscapeQuotes(a) == head + EscapeQuotes(a[1..]);
    }
  }

  /** Reading `\"` back as `"`, left to right: the inverse of EscapeQuotes. */
  function UnescapeQuotes(s: string): string
  {
    if |s| >= 2 && s[0] == '\\' && s[1] == '"' then ['"'] + UnescapeQuotes(s[2..])
    else if s == [] then []
    else [s[0]] + UnescapeQuotes(s[1..])
  }

  lemma {:induction false} UnescapeEscape(s: string)
    ensures UnescapeQuotes(EscapeQuotes(s)) == s
  {
    if s != [] {
      var e := EscapeQuotes(s[1..]);
      UnescapeEscape(s[1..]);
      EscapedHasNoBareQuote(s[1..]);
      if s[0] == '"' {
        assert EscapeQuotes(s) == ['\\', '"'] + e;
        assert (['\\', '"'] + e)[2..] == e;
      } else {
        assert EscapeQuotes(s) == [s[0]] + e;
        assert ([s[0]] + e)[1..] == e;
        assert e != [] ==> e[0] != '"';
      }
      assert s == [s[0]] + s[1..];
    }
  }
}
