/** The few pieces of Python's `str` that the browser relies on:
    `isspace`, `strip`, `split` on one separator character and the
    substring test `pat in s`. */
module PyStr {

  /** A character Python's `str.isspace` (and so `str.strip`) treats as
      white space. */
  predicate IsSpaceChar(c: char) {
    c == ' ' || ('\t' <= c <= '\r') || ('\U{1c}' <= c <= '\U{1f}') ||
    c == '\U{85}' || c == '\U{a0}' || c == '\U{1680}' ||
    ('\U{2000}' <= c <= '\U{200a}') || c == '\U{2028}' || c == '\U{2029}' ||
    c == '\U{202f}' || c == '\U{205f}' || c == '\U{3000}'
  }

  /** `s.isspace()`: true only for a NON-EMPTY string of white space. */
  predicate IsSpace(s: string) {
    |s| > 0 && forall i :: 0 <= i < |s| ==> IsSpaceChar(s[i])
  }

  function LStrip(s: string): string {
    if |s| > 0 && IsSpaceChar(s[0]) then LStrip(s[1..]) else s
  }

  function RStrip(s: string): string {
    if |s| > 0 && IsSpaceChar(s[|s| - 1]) then RStrip(s[..|s| - 1]) else s
  }

  /** `s.strip()` with no argument. */
  function Strip(s: string): string {
    RStrip(LStrip(s))
  }

  lemma {:induction false} LStripIsSuffix(s: string)
    ensures |LStrip(s)| <= |s|
    ensures LStrip(s) == s[|s| - |LStrip(s)|..]
    ensures forall i :: 0 <= i < |s| - |LStrip(s)| ==> IsSpaceChar(s[i])
    ensures LStrip(s) == [] || !IsSpaceChar(LStrip(s)[0])
  {
    if |s| > 0 && IsSpaceChar(s[0]) {
      LStripIsSuffix(s[1..]);
    }
  }

  lemma {:induction false} RStripIsPrefix(s: string)
    ensures |RStrip(s)| <= |s|
    ensures RStrip(s) == s[..|RStrip(s)|]
    ensures forall i :: |RStrip(s)| <= i < |s| ==> IsSpaceChar(s[i])
    ensures RStrip(s) == [] || !IsSpaceChar(RStrip(s)[|RStrip(s)| - 1])
  {
    if |s| > 0 && IsSpaceChar(s[|s| - 1]) {
      RStripIsPrefix(s[..|s| - 1]);
    }
  }

  /** `s.strip()` removes white space at both ends and nothing else: the
      result is the slice `s[lo..hi]`, everything outside it is white
      space, and it neither starts nor ends with white space. */
  lemma StripIsTrimmedSlice(s: string) returns (lo: nat, hi: nat)
    ensures lo <= hi <= |s| && Strip(s) == s[lo..hi]
    ensures forall i :: 0 <= i < lo ==> IsSpaceChar(s[i])
    ensures forall i :: hi <= i < |s| ==> IsSpaceChar(s[i])
    ensures Strip(s) == [] || (!IsSpaceChar(Strip(s)[0]) && !IsSpaceChar(Strip(s)[|Strip(s)| - 1]))
  {
    var l := LStrip(s);
    LStripIsSuffix(s);
    RStripIsPrefix(l);
    lo := |s| - |l|;
    hi := lo + |RStrip(l)|;
    assert Strip(s) == RStrip(l) == l[..|RStrip(l)|];
    forall i | hi <= i < |s| ensures IsSpaceChar(s[i]) {
      assert s[i] == l[i - lo];
    }
    if Strip(s) != [] {
      assert Strip(s)[0] == l[0];
    }
  }

  /** A white-space-only string strips to the empty string. */
  lemma {:induction false} StripOfSpace(s: string)
    requires IsSpace(s)
    ensures Strip(s) == ""
  {
    var lo, hi := StripIsTrimmedSlice(s);
  }

  /** `s.split(sep)`: the pieces between separators, always at least one. */
  function Split(s: string, sep: char): (r: seq<string>)
    ensures |r| >= 1
    ensures forall i :: 0 <= i < |r| ==> sep !in r[i]
  {
    if s == [] then [""]
    else
      var rest := Split(s[1..], sep);
      if s[0] == sep then [""] + rest
      else [[s[0]] + rest[0]] + rest[1..]
  }

  /** `sep.join(parts)`, the inverse of `Split`. */
  function Join(parts: seq<string>, sep: char): string {
    if parts == [] then ""
    else if |parts| == 1 then parts[0]
    else parts[0] + [sep] + Join(parts[1..], sep)
  }

  /** Joining the pieces of a split gives back the string. */
  lemma {:induction false} JoinSplit(s: string, sep: char)
    ensures Join(Split(s, sep), sep) == s
  {
    if s != [] {
      var rest := Split(s[1..], sep);
      JoinSplit(s[1..], sep);
      if s[0] == sep {
        assert Split(s, sep) == [""] + rest;
      } else {
        var r := Split(s, sep);
        assert r == [[s[0]] + rest[0]] + rest[1..];
        if |rest| == 1 {
          assert Join(r, sep) == [s[0]] + rest[0];
        } else {
          assert r[1..] == rest[1..];
          assert Join(rest, sep) == rest[0] + [sep] + Join(rest[1..], sep);
        }
      }
    }
  }

  /** Splitting a join of separator-free pieces gives back the pieces. */
  lemma {:induction false} SplitJoin(parts: seq<string>, sep: char)
    requires |parts| >= 1
    requires forall i :: 0 <= i < |parts| ==> sep !in parts[i]
    ensures Split(Join(parts, sep), sep) == parts
  {
    if |parts| == 1 {
      SplitPiece(parts[0], sep, []);
    } else {
      SplitJoin(parts[1..], sep);
      SplitPiece(parts[0], sep, Join(parts[1..], sep));
      assert [parts[0]] + parts[1..] == parts;
    }
  }

  /** Splitting `p` followed by (a separator and) `tail` where `p` holds no
      separator: `p` becomes the first piece. */
  lemma {:induction false} SplitPiece(p: string, sep: char, tail: string)
    requires sep !in p
    ensures tail == [] ==> Split(p, sep) == [p]
    ensures Split(p + [sep] + tail, sep) == [p] + Split(tail, sep)
  {
    if p != [] {
      SplitPiece(p[1..], sep, tail);
      assert p[0] != sep && p == [p[0]] + p[1..];
      var whole := p + [sep] + tail;
      assert whole[0] == p[0] && whole[1..] == p[1..] + [sep] + tail;
      assert Split(whole, sep) == [[p[0]] + p[1..]] + Split(tail, sep);
      if tail == [] {
        assert Split(p[1..], sep) == [p[1..]];
        assert Split(p, sep) == [[p[0]] + p[1..]];
      }
    } else {
      assert p + [sep] + tail == [sep] + tail;
      assert ([sep] + tail)[1..] == tail;
    }
  }

  /** Joining two non-empty lists of pieces: the joins, with a separator
      between them. */
  lemma {:induction false} JoinAppend(x: seq<string>, y: seq<string>, sep: char)
    requires |x| >= 1 && |y| >= 1
    ensures Join(x + y, sep) == Join(x, sep) + [sep] + Join(y, sep)
  {
    if |x| > 1 {
      JoinAppend(x[1..], y, sep);
      assert (x + y)[1..] == x[1..] + y;
    } else {
      assert (x + y)[1..] == y;
    }
  }

  /** Splitting at a separator: the pieces before it, then those after. */
  lemma {:induction false} SplitAround(a: string, sep: char, b: string)
    ensures Split(a + [sep] + b, sep) == Split(a, sep) + Split(b, sep)
  {
    var x, y := Split(a, sep), Split(b, sep);
    JoinSplit(a, sep);
    JoinSplit(b, sep);
    JoinAppend(x, y, sep);
    SplitJoin(x + y, sep);
  }

  /** The substring test `pat in s`. */
  predicate Contains(s: string, pat: string) {
    |pat| <= |s| && (s[..|pat|] == pat || Contains(s[1..], pat))
  }

  /** A match in `tail` is a match in `head + tail`. */
  lemma {:induction false} ContainsInTail(head: string, tail: string, pat: string)
    requires Contains(tail, pat)
    ensures Contains(head + tail, pat)
  {
    if head != [] {
      ContainsInTail(head[1..], tail, pat);
      var whole := head + tail;
      assert whole[1..] == head[1..] + tail;
      assert |pat| <= |tail| <= |whole|;
      assert Contains(whole[1..], pat);
    } else {
      assert head + tail == tail;
    }
  }
}
