/**
 * String operations the extractors rely on: Rust's `str::trim`, `str::split`
 * on a one-character separator, and concatenation of text nodes.
 */
module Text {

  /** Characters with the Unicode White_Space property, which `str::trim` removes. */
  predicate IsWhitespace(c: char)
  {
    ('\t' <= c <= '\r') || c == ' ' || c == '\U{0085}' || c == '\U{00A0}' || c == '\U{1680}'
    || ('\U{2000}' <= c <= '\U{200A}') || c == '\U{2028}' || c == '\U{2029}'
    || c == '\U{202F}' || c == '\U{205F}' || c == '\U{3000}'
  }

  /** Neither the first nor the last character is whitespace. */
  predicate IsTrimmed(s: string)
  {
    s == [] || (!IsWhitespace(s[0]) && !IsWhitespace(s[|s| - 1]))
  }

  /** The first index at or after `k` whose character is no whitespace, or `|s|`. */
  function SkipForward(s: string, k: nat): (n: nat)
    requires k <= |s|
    ensures k <= n <= |s|
    ensures forall m :: k <= m < n ==> IsWhitespace(s[m])
    ensures n < |s| ==> !IsWhitespace(s[n])
    decreases |s| - k
  {
    if k < |s| && IsWhitespace(s[k]) then SkipForward(s, k + 1) else k
  }

  /** The least `n` in `lo..j` such that `s[n..j]` is all whitespace. */
  function SkipBackward(s: string, lo: nat, j: nat): (n: nat)
    requires lo <= j <= |s|
    ensures lo <= n <= j
    ensures forall m :: n <= m < j ==> IsWhitespace(s[m])
    ensures lo < n ==> !IsWhitespace(s[n - 1])
    decreases j
  {
    if lo < j && IsWhitespace(s[j - 1]) then SkipBackward(s, lo, j - 1) else j
  }

  /**
   * `str::trim`: removes leading and trailing whitespace. The result is
   * trimmed, no longer than the input, empty exactly when the input is all
   * whitespace, and equal to the input when that was already trimmed; it is
   * the part of the input between its longest whitespace prefix and a
   * whitespace suffix.
   */
  function Trim(s: string): (r: string)
    ensures IsTrimmed(r) && |r| <= |s|
    ensures r == [] <==> forall i :: 0 <= i < |s| ==> IsWhitespace(s[i])
    ensures IsTrimmed(s) ==> r == s
    ensures var i := SkipForward(s, 0);
      i + |r| <= |s| && r == s[i..i + |r|]
      && (forall k :: 0 <= k < i ==> IsWhitespace(s[k]))
      && (forall k :: i + |r| <= k < |s| ==> IsWhitespace(s[k]))
  {
    var i := SkipForward(s, 0);
    var j := SkipBackward(s, i, |s|);
    Middle(s, i, j);
    s[i..j]
  }

  /**
   * The part of `s` between an all-whitespace prefix and an all-whitespace
   * suffix, when it neither starts nor ends with whitespace, is trimmed.
   */
  lemma Middle(s: string, i: nat, j: nat)
    requires i <= j <= |s|
    requires forall k :: 0 <= k < i ==> IsWhitespace(s[k])
    requires forall k :: j <= k < |s| ==> IsWhitespace(s[k])
    requires i < |s| ==> i < j && !IsWhitespace(s[i])
    requires i < j ==> !IsWhitespace(s[j - 1])
    ensures IsTrimmed(s[i..j])
    ensures s[i..j] == [] <==> forall k :: 0 <= k < |s| ==> IsWhitespace(s[k])
    ensures IsTrimmed(s) ==> s[i..j] == s
    ensures var r := s[i..j];
      i + |r| <= |s| && r == s[i..i + |r|]
      && (forall k :: 0 <= k < i ==> IsWhitespace(s[k]))
      && (forall k :: i + |r| <= k < |s| ==> IsWhitespace(s[k]))
  {
    assert i + |s[i..j]| == j;
  }

  /** Trimming is idempotent. */
  lemma TrimIdempotent(s: string)
    ensures Trim(Trim(s)) == Trim(s)
  {
  }

  /**
   * `str::split(sep)` for a one-character separator: the pieces between
   * separators, always at least one (an empty string gives one empty piece).
   */
  function Split(s: string, sep: char): (pieces: seq<string>)
    ensures |pieces| >= 1
    ensures forall p <- pieces :: sep !in p
    decreases |s|
  {
    if s == [] then [[]]
    else
      var rest := Split(s[1..], sep);
      if s[0] == sep then [[]] + rest
      else [[s[0]] + rest[0]] + rest[1..]
  }

  /** Puts the separator back between consecutive pieces. */
  function Join(pieces: seq<string>, sep: char): string
    requires |pieces| >= 1
    decreases |pieces|
  {
    if |pieces| == 1 then pieces[0] else pieces[0] + [sep] + Join(pieces[1..], sep)
  }

  /** Splitting loses nothing: joining the pieces restores the string. */
  lemma {:induction false} JoinSplit(s: string, sep: char)
    ensures Join(Split(s, sep), sep) == s
    decreases |s|
  {
    if s != [] {
      JoinSplit(s[1..], sep);
      var rest := Split(s[1..], sep);
      if s[0] != sep {
        if |rest| == 1 {
          assert Split(s, sep) == [[s[0]] + rest[0]];
        } else {
          assert Split(s, sep)[1..] == rest[1..];
        }
      } else {
        assert Split(s, sep)[1..] == rest;
      }
    }
  }

  /** Splitting a join of separator-free pieces gives the pieces back. */
  lemma {:induction false} SplitJoin(pieces: seq<string>, sep: char)
    requires |pieces| >= 1
    requires forall p <- pieces :: sep !in p
    ensures Split(Join(pieces, sep), sep) == pieces
    decreases |pieces|, |pieces[0]|
  {
    if |pieces| == 1 {
      SplitWithoutSeparator(pieces[0], sep);
    } else if pieces[0] == [] {
      SplitJoin(pieces[1..], sep);
      assert Join(pieces, sep) == [sep] + Join(pieces[1..], sep);
      assert ([sep] + Join(pieces[1..], sep))[1..] == Join(pieces[1..], sep);
      assert pieces == [[]] + pieces[1..];
    } else {
      var shorter := [pieces[0][1..]] + pieces[1..];
      assert forall p <- shorter :: sep !in p by {
        forall i | 0 <= i < |shorter| ensures sep !in shorter[i] {
          if i == 0 {
            assert pieces[0] in pieces;
            assert pieces[0] == [pieces[0][0]] + shorter[0];
          } else {
            assert shorter[i] == pieces[i] && pieces[i] in pieces;
          }
        }
      }
      assert pieces[0][0] != sep by { assert pieces[0][0] in pieces[0]; }
      SplitJoin(shorter, sep);
      SplitJoinFirstChar(pieces, sep);
    }
  }

  /** The step of `SplitJoin` that moves the first character of the first piece. */
  lemma SplitJoinFirstChar(pieces: seq<string>, sep: char)
    requires |pieces| >= 1 && pieces[0] != [] && pieces[0][0] != sep
    requires var shorter := [pieces[0][1..]] + pieces[1..];
      Split(Join(shorter, sep), sep) == shorter
    ensures Split(Join(pieces, sep), sep) == pieces
  {
    var s := Join(pieces, sep);
    var shorter := [pieces[0][1..]] + pieces[1..];
    assert shorter[1..] == pieces[1..];
    assert s == [pieces[0][0]] + Join(shorter, sep);
    assert s[1..] == Join(shorter, sep);
    assert pieces[0] == [pieces[0][0]] + pieces[0][1..];
    assert pieces == [[pieces[0][0]] + shorter[0]] + shorter[1..];
  }

  /** A string without the separator splits into itself alone. */
  lemma {:induction false} SplitWithoutSeparator(s: string, sep: char)
    requires sep !in s
    ensures Split(s, sep) == [s]
    decreases |s|
  {
    if s != [] {
      assert s[0] != sep by { assert s[0] in s; }
      assert sep !in s[1..];
      SplitWithoutSeparator(s[1..], sep);
      assert [s[0]] + s[1..] == s;
    }
  }

  /** Concatenation of text nodes, as `text().collect::<String>()` does. */
  function Concat(texts: seq<string>): (r: string)
    decreases |texts|
  {
    if texts == [] then [] else texts[0] + Concat(texts[1..])
  }
}
