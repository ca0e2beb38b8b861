/** The string operations `load_dataset` applies to a line: `str.rstrip()`,
    `str.split(sep)` and the slice `[1:-1]`. */
module Text {

  /** The characters `str.isspace()` accepts, which `rstrip()` removes. */
  predicate IsSpace(c: char)
  {
    || c == ' ' || '\t' <= c <= '\r' || '\U{1c}' <= c <= '\U{1f}'
    || c == '\U{85}' || c == '\U{a0}' || c == '\U{1680}' || '\U{2000}' <= c <= '\U{200a}'
    || c == '\U{2028}' || c == '\U{2029}' || c == '\U{202f}' || c == '\U{205f}' || c == '\U{3000}'
  }

  /** `s.rstrip()`: `s` without its trailing whitespace. */
  function RStrip(s: string): (r: string)
    ensures |r| <= |s|
  {
    if s != [] && IsSpace(s[|s| - 1]) then RStrip(s[..|s| - 1]) else s
  }

  /** `rstrip()` keeps a prefix, ending in a character that is not whitespace, and
      removes only whitespace. */
  lemma {:induction false} RStripSpaces(s: string)
    ensures var r := RStrip(s);
            && r == s[..|r|]
            && (r == [] || !IsSpace(r[|r| - 1]))
            && forall j | |r| <= j < |s| :: IsSpace(s[j])
  {
    if s != [] && IsSpace(s[|s| - 1]) {
      var p := s[..|s| - 1];
      RStripSpaces(p);
      assert RStrip(s) == RStrip(p);
      assert p[..|RStrip(p)|] == s[..|RStrip(p)|];
    } else {
      assert s[..|s|] == s;
    }
  }

  /** `s.split(sep)`: the pieces between the separators, at least one, none holding
      the separator. */
  function Split(s: string, sep: char): (r: seq<string>)
    ensures |r| >= 1
  {
    if s == [] then [[]]
    else
      var p := Split(s[..|s| - 1], sep);
      var c := s[|s| - 1];
      if c == sep then p + [[]] else p[..|p| - 1] + [p[|p| - 1] + [c]]
  }

  /** No piece of a split holds the separator. */
  lemma {:induction false} SplitPieces(s: string, sep: char)
    ensures forall j | 0 <= j < |Split(s, sep)| :: sep !in Split(s, sep)[j]
  {
    if s != [] {
      SplitPieces(s[..|s| - 1], sep);
    }
  }

  /** `sep.join(parts)`. */
  function Join(parts: seq<string>, sep: char): string
    requires |parts| >= 1
  {
    if |parts| == 1 then parts[0]
    else Join(parts[..|parts| - 1], sep) + [sep] + parts[|parts| - 1]
  }

  /** Extending the last part extends the joined string. */
  lemma JoinLonger(parts: seq<string>, sep: char, c: char)
    requires |parts| >= 1
    ensures Join(parts[..|parts| - 1] + [parts[|parts| - 1] + [c]], sep) == Join(parts, sep) + [c]
  {
    var q := parts[..|parts| - 1] + [parts[|parts| - 1] + [c]];
    assert q[..|q| - 1] == parts[..|parts| - 1];
  }

  /** Joining the pieces of a split gives the string back. */
  lemma {:induction false} JoinSplit(s: string, sep: char)
    ensures Join(Split(s, sep), sep) == s
  {
    if s != [] {
      var p := s[..|s| - 1];
      var c := s[|s| - 1];
      JoinSplit(p, sep);
      var ps := Split(p, sep);
      if c == sep {
        assert (ps + [[]])[..|ps|] == ps;
      } else {
        JoinLonger(ps, sep, c);
      }
      assert p + [c] == s;
    }
  }

  /** A string without the separator is a single piece. */
  lemma {:induction false} SplitNone(x: string, sep: char)
    requires sep !in x
    ensures Split(x, sep) == [x]
  {
    if x != [] {
      SplitNone(x[..|x| - 1], sep);
      assert x[..|x| - 1] + [x[|x| - 1]] == x;
    }
  }

  /** A separator and a piece after a string add that piece to its split. */
  lemma {:induction false} SplitAppend(a: string, sep: char, x: string)
    requires sep !in x
    ensures Split(a + [sep] + x, sep) == Split(a, sep) + [x]
  {
    if x == [] {
      assert a + [sep] + x == a + [sep];
      assert (a + [sep])[..|a|] == a;
    } else {
      var y := x[..|x| - 1];
      SplitAppend(a, sep, y);
      assert (a + [sep] + x)[..|a + [sep] + x| - 1] == a + [sep] + y;
      assert y + [x[|x| - 1]] == x;
    }
  }

  /** Splitting joined pieces without separators gives the pieces back. */
  lemma {:induction false} SplitJoin(parts: seq<string>, sep: char)
    requires |parts| >= 1 && forall j | 0 <= j < |parts| :: sep !in parts[j]
    ensures Split(Join(parts, sep), sep) == parts
  {
    if |parts| == 1 {
      SplitNone(parts[0], sep);
    } else {
      var init := parts[..|parts| - 1];
      SplitJoin(init, sep);
      SplitAppend(Join(init, sep), sep, parts[|parts| - 1]);
      assert init + [parts[|parts| - 1]] == parts;
    }
  }

  /** `s[1:-1]`: `s` without its first and last character; empty when `s` is shorter
      than two characters. */
  function Unquote(s: string): (r: string)
    ensures |s| >= 2 ==> r == s[1..|s| - 1]
    ensures |s| < 2 ==> r == []
  {
    if |s| >= 2 then s[1..|s| - 1] else []
  }

  /** `s` between double quotes, as the dataset's fields are written. */
  function Quote(s: string): (r: string)
    ensures |r| == |s| + 2 && r[0] == '"' && r[|r| - 1] == '"'
  {
    ['"'] + s + ['"']
  }

  /** `[1:-1]` removes the quotes again. */
  lemma UnquoteQuote(s: string)
    ensures Unquote(Quote(s)) == s
  {
    assert Quote(s)[1..|s| + 1] == s;
  }

  /** A quoted field is the quoting of what `[1:-1]` leaves of it. */
  lemma QuoteUnquote(s: string)
    requires |s| >= 2 && s[0] == '"' && s[|s| - 1] == '"'
    ensures Quote(Unquote(s)) == s
  {
    assert s == [s[0]] + s[1..|s| - 1] + [s[|s| - 1]];
  }

  /** Three pieces joined. */
  lemma JoinThree(a: string, b: string, c: string, sep: char)
    ensures Join([a, b, c], sep) == a + [sep] + b + [sep] + c
  {
    assert [a, b, c][..2] == [a, b] && [a, b][..1] == [a];
    assert Join([a, b], sep) == Join([a], sep) + [sep] + b;
    assert Join([a, b, c], sep) == Join([a, b], sep) + [sep] + c;
  }
}
