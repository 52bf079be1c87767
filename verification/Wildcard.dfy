/** Matching file names against patterns with `?` and `*`. */
module Wildcard {

  /** A piece of text fits one symbol of a pattern. */
  predicate Fits(piece: string, symbol: char) {
    match symbol
    case '?' => |piece| == 1
    case '*' => true
    case _ => piece == [symbol]
  }

  function Joined(pieces: seq<string>): string {
    if pieces == [] then "" else pieces[0] + Joined(pieces[1..])
  }

  ghost predicate Pieces(text: string, pattern: string, pieces: seq<string>) {
    && |pieces| == |pattern|
    && Joined(pieces) == text
    && forall i :: 0 <= i < |pattern| ==> Fits(pieces[i], pattern[i])
  }

  /** The text splits into pieces that fit the pattern symbol by symbol. */
  ghost predicate Matches(text: string, pattern: string) {
    exists pieces :: Pieces(text, pattern, pieces)
  }

  /** The first symbol takes a first piece, the rest of the pattern the rest of the text. */
  lemma MatchesSplit(text: string, pattern: string)
    requires pattern != ""
    ensures Matches(text, pattern)
       <==> exists n :: 0 <= n <= |text| && Fits(text[..n], pattern[0]) && Matches(text[n..], pattern[1..])
  {
    if Matches(text, pattern) {
      var pieces :| Pieces(text, pattern, pieces);
      var n := |pieces[0]|;
      assert text[..n] == pieces[0] && text[n..] == Joined(pieces[1..]);
      assert Pieces(text[n..], pattern[1..], pieces[1..]);
    }
    if n :| 0 <= n <= |text| && Fits(text[..n], pattern[0]) && Matches(text[n..], pattern[1..]) {
      var rest :| Pieces(text[n..], pattern[1..], rest);
      var pieces := [text[..n]] + rest;
      assert pieces[1..] == rest && text[..n] + text[n..] == text;
      assert Pieces(text, pattern, pieces);
    }
  }

  lemma EmptyPattern(text: string)
    ensures Matches(text, "") <==> text == ""
  {
    if text == "" {
      assert Pieces("", "", []);
    }
  }

  /** A star is skipped, or takes one more character. */
  lemma StarSplit(text: string, pattern: string)
    requires pattern != "" && pattern[0] == '*'
    ensures Matches(text, pattern)
       <==> Matches(text, pattern[1..]) || (text != "" && Matches(text[1..], pattern))
  {
    hide Matches;
    MatchesSplit(text, pattern);
    if text != "" {
      MatchesSplit(text[1..], pattern);
    }
    assert text[0..] == text;
    if n :| 0 <= n <= |text| && Matches(text[n..], pattern[1..]) {
      if n > 0 {
        assert text[1..][n-1..] == text[n..];
      }
    }
    if text != "" {
      if n :| 0 <= n <= |text[1..]| && Matches(text[1..][n..], pattern[1..]) {
        assert text[n+1..] == text[1..][n..];
      }
    }
  }

  /** Any other symbol takes exactly one character. */
  lemma SymbolSplit(text: string, pattern: string)
    requires pattern != "" && pattern[0] != '*'
    ensures Matches(text, pattern)
       <==> text != "" && (pattern[0] == '?' || text[0] == pattern[0]) && Matches(text[1..], pattern[1..])
  {
    hide Matches;
    MatchesSplit(text, pattern);
    if text != "" {
      assert text[..1] == [text[0]];
    }
  }

  /** wildCardMatch */
  method WildCardMatch(text: string, pattern: string) returns (r: bool)
    ensures r <==> Matches(text, pattern)
    decreases |text| + |pattern|
  {
    hide Matches;
    var s, p := 0, 0;
    assert text[0..] == text && pattern[0..] == pattern;
    while p < |pattern|
      invariant s <= |text| && p <= |pattern|
      invariant Matches(text, pattern) <==> Matches(text[s..], pattern[p..])
    {
      var rest, symbols := text[s..], pattern[p..];
      if pattern[p] == '*' {
        StarSplit(rest, symbols);
        assert pattern[p + 1..] == symbols[1..];
        r := WildCardMatch(text[s..], pattern[p + 1..]);
        if r {
          return true;
        }
        if s < |text| {
          assert text[s + 1..] == rest[1..];
          r := WildCardMatch(text[s + 1..], pattern[p..]);
          if r {
            return true;
          }
        }
        return false;
      }
      SymbolSplit(rest, symbols);
      if s == |text| || (pattern[p] != '?' && text[s] != pattern[p]) {
        return false;
      }
      assert text[s + 1..] == rest[1..] && pattern[p + 1..] == symbols[1..];
      s, p := s + 1, p + 1;
    }
    EmptyPattern(text[s..]);
    assert pattern[p..] == "";
    r := s == |text|;
  }
}
