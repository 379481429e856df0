// Python's string splitting on a single separator character, as used by
// the feature-row builder to read a category out of a column name.

module Text {

  /** The longest prefix of `s` that does not contain `c`:
      the text before the first occurrence of `c`, or all of `s`. */
  function TakeUntil(s: string, c: char): (r: string)
    ensures r <= s
    ensures c !in r
    ensures |r| == |s| || s[|r|] == c
  {
    if s == [] || s[0] == c then [] else [s[0]] + TakeUntil(s[1..], c)
  }

  /** The contract of `TakeUntil` pins it down: if position `k` holds the
      first `c`, the result is exactly the text before `k`. */
  lemma TakeUntilFirst(s: string, c: char, k: nat)
    requires k < |s| && s[k] == c && c !in s[..k]
    ensures TakeUntil(s, c) == s[..k]
  {
  }

  /** `s.split(sep)`: the pieces of `s` between occurrences of `sep`.
      There is always at least one piece (the empty string splits into
      `[""]`), no piece contains `sep`, and the first piece is the text
      before the first `sep`. */
  function Split(s: string, sep: char): (r: seq<string>)
    ensures |r| >= 1
    ensures forall k :: 0 <= k < |r| ==> sep !in r[k]
    ensures r[0] == TakeUntil(s, sep)
  {
    if s == [] then [[]]
    else
      var rest := Split(s[1..], sep);
      if s[0] == sep then [[]] + rest
      else [[s[0]] + rest[0]] + rest[1..]
  }

  /** `sep.join(parts)`, the inverse of `Split`. */
  function Join(parts: seq<string>, sep: char): string
    requires |parts| >= 1
  {
    if |parts| == 1 then parts[0] else parts[0] + [sep] + Join(parts[1..], sep)
  }

  /** Splitting loses nothing: joining the pieces gives back the string. */
  lemma {:induction false} JoinSplit(s: string, sep: char)
    ensures Join(Split(s, sep), sep) == s
  {
    if s != [] {
      var rest := Split(s[1..], sep);
      JoinSplit(s[1..], sep);
      if s[0] == sep {
        assert Split(s, sep) == [[]] + rest;
        assert ([[]] + rest)[1..] == rest;
        assert [sep] + s[1..] == s;
      } else {
        var r := [[s[0]] + rest[0]] + rest[1..];
        assert Split(s, sep) == r;
        if |rest| == 1 {
          assert [s[0]] + Join(rest, sep) == s;
        } else {
          assert r[1..] == rest[1..];
          assert Join(rest, sep) == rest[0] + [sep] + Join(rest[1..], sep);
          assert [s[0]] + Join(rest, sep) == s;
        }
      }
    }
  }

  /** A string without the separator splits into itself alone. */
  lemma {:induction false} SplitNoSep(p: string, sep: char)
    requires sep !in p
    ensures Split(p, sep) == [p]
  {
    if p != [] {
      SplitNoSep(p[1..], sep);
      assert [p[0]] + p[1..] == p;
    }
  }

  /** A separator-free piece followed by the separator becomes the
      first piece, and the rest splits on its own. */
  lemma {:induction false} SplitAfterPiece(p: string, rest: string, sep: char)
    requires sep !in p
    ensures Split(p + [sep] + rest, sep) == [p] + Split(rest, sep)
  {
    var s := p + [sep] + rest;
    if p == [] {
      assert s == [sep] + rest;
      assert s[1..] == rest;
    } else {
      assert s[0] == p[0];
      assert s[1..] == p[1..] + [sep] + rest;
      SplitAfterPiece(p[1..], rest, sep);
      assert [p[0]] + p[1..] == p;
    }
  }

  /** Joining separator-free pieces and splitting again gives the pieces back. */
  lemma {:induction false} SplitJoin(parts: seq<string>, sep: char)
    requires |parts| >= 1
    requires forall k :: 0 <= k < |parts| ==> sep !in parts[k]
    ensures Split(Join(parts, sep), sep) == parts
  {
    if |parts| == 1 {
      SplitNoSep(parts[0], sep);
    } else {
      SplitJoin(parts[1..], sep);
      SplitAfterPiece(parts[0], Join(parts[1..], sep), sep);
      assert [parts[0]] + parts[1..] == parts;
    }
  }
}
