/** Splitting a text at a separator character, as `string.Split(c)` does,
    and joining parts by one. */
module Texts {
  /** `string.Split(c)`: the parts between the separators, empty ones
      included, so there is always one part more than separators. */
  function SplitOn(s: string, c: char): (r: seq<string>)
    ensures |r| >= 1
  {
    if s == [] then [""]
    else
      var parts := SplitOn(s[..|s| - 1], c);
      if s[|s| - 1] == c then parts + [""]
      else parts[..|parts| - 1] + [parts[|parts| - 1] + [s[|s| - 1]]]
  }

  /** The parts joined by the separator. */
  function JoinWith(parts: seq<string>, c: char): string
    requires |parts| >= 1
  {
    if |parts| == 1 then parts[0] else JoinWith(parts[..|parts| - 1], c) + [c] + parts[|parts| - 1]
  }

  /** Splitting loses nothing: the parts hold no separator and joining them
      by it gives the text back. */
  lemma {:induction false} SplitJoin(s: string, c: char)
    ensures JoinWith(SplitOn(s, c), c) == s
    ensures forall i :: 0 <= i < |SplitOn(s, c)| ==> c !in SplitOn(s, c)[i]
  {
    if s != [] {
      var init := s[..|s| - 1];
      var x := s[|s| - 1];
      SplitJoin(init, c);
      var parts := SplitOn(init, c);
      var r := SplitOn(s, c);
      assert s == init + [x];
      if x == c {
        assert r[..|r| - 1] == parts;
      } else {
        var n := |parts| - 1;
        assert r[..|r| - 1] == parts[..n];
        assert c !in parts[n];
        if n > 0 {
          assert parts[..n][..n - 1] == parts[..n - 1];
          assert JoinWith(parts, c) == JoinWith(parts[..n], c) + [c] + parts[n];
        }
        forall i | 0 <= i < |r|
          ensures c !in r[i]
        {
          if i < n {
            assert r[i] == parts[i];
          }
        }
      }
    }
  }

  /** A text with no separator is a single part. */
  lemma {:induction false} SplitNone(s: string, c: char)
    requires c !in s
    ensures SplitOn(s, c) == [s]
  {
    if s != [] {
      SplitNone(s[..|s| - 1], c);
      assert s[..|s| - 1] + [s[|s| - 1]] == s;
    }
  }

  /** A separator and a part after a text add that part after the text's
      parts. */
  lemma {:induction false} SplitAppend(a: string, c: char, b: string)
    requires c !in b
    ensures SplitOn(a + [c] + b, c) == SplitOn(a, c) + [b]
    decreases |b|
  {
    if b == [] {
      assert (a + [c] + b)[..|a + [c] + b| - 1] == a;
      assert a + [c] + b == a + [c];
    } else {
      var b' := b[..|b| - 1];
      SplitAppend(a, c, b');
      assert (a + [c] + b)[..|a + [c] + b| - 1] == a + [c] + b';
      assert b' + [b[|b| - 1]] == b;
    }
  }

  /** Two texts without the separator, joined by it, split into those two. */
  lemma SplitTwo(a: string, c: char, b: string)
    requires c !in a && c !in b
    ensures SplitOn(a + [c] + b, c) == [a, b]
  {
    SplitNone(a, c);
    SplitAppend(a, c, b);
  }

  /** Parts without the separator, joined by it, split back into the same
      parts. */
  lemma {:induction false} SplitJoinWords(parts: seq<string>, c: char)
    requires |parts| >= 1 && forall i :: 0 <= i < |parts| ==> c !in parts[i]
    ensures SplitOn(JoinWith(parts, c), c) == parts
  {
    var n := |parts| - 1;
    if n == 0 {
      SplitNone(parts[0], c);
    } else {
      var init := parts[..n];
      assert forall i :: 0 <= i < |init| ==> init[i] == parts[i];
      SplitJoinWords(init, c);
      SplitAppend(JoinWith(init, c), c, parts[n]);
      assert init + [parts[n]] == parts;
    }
  }
}
