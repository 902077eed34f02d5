/** The JavaScript string operations the booking core relies on: `trim`,
    `split` on a single separator character, and `includes`. */
module Text {
  import opened Seqs

  /** The code points ECMAScript's `String.prototype.trim` removes: the
      WhiteSpace and LineTerminator characters of the language grammar. */
  predicate IsWhitespace(c: char) {
    || c == '\t' || c == '\n' || c == '\U{000B}' || c == '\U{000C}' || c == '\r' || c == ' '
    || c == '\U{00A0}' || c == '\U{1680}' || ('\U{2000}' <= c <= '\U{200A}')
    || c == '\U{2028}' || c == '\U{2029}' || c == '\U{202F}' || c == '\U{205F}'
    || c == '\U{3000}' || c == '\U{FEFF}'
  }

  /** Neither end of `s` is whitespace. */
  predicate IsTrimmed(s: string) {
    s == [] || (!IsWhitespace(s[0]) && !IsWhitespace(s[|s| - 1]))
  }

  /** `s` with its leading whitespace removed. */
  function TrimStart(s: string): (r: string)
    ensures |r| <= |s| && r == s[|s| - |r|..]
    ensures r == [] || !IsWhitespace(r[0])
    ensures forall i :: 0 <= i < |s| - |r| ==> IsWhitespace(s[i])
  {
    if s != [] && IsWhitespace(s[0]) then
      var r := TrimStart(s[1..]);
      assert s[1..][|s| - 1 - |r|..] == s[|s| - |r|..];
      r
    else s
  }

  /** `s` with its trailing whitespace removed. */
  function TrimEnd(s: string): (r: string)
    ensures |r| <= |s| && r == s[..|r|]
    ensures r == [] || !IsWhitespace(r[|r| - 1])
    ensures forall i :: |r| <= i < |s| ==> IsWhitespace(s[i])
  {
    if s != [] && IsWhitespace(s[|s| - 1]) then TrimEnd(s[..|s| - 1]) else s
  }

  /** `s.trim()`. */
  function Trim(s: string): (r: string)
    ensures IsTrimmed(r)
    ensures |r| <= |s| && multiset(r) <= multiset(s)
  {
    var t := TrimStart(s);
    var r := TrimEnd(t);
    SliceMultiset(s, |s| - |t|);
    SliceMultiset(t, |r|);
    r
  }

  lemma SliceMultiset(s: string, k: nat)
    requires k <= |s|
    ensures multiset(s[..k]) <= multiset(s) && multiset(s[k..]) <= multiset(s)
  {
    assert s == s[..k] + s[k..];
  }

  /** `r` stands at index `i` of `s` with only whitespace before and after it. */
  ghost predicate PaddedAt(s: string, i: int, r: string) {
    && 0 <= i <= |s| - |r| && s[i..i + |r|] == r
    && (forall k :: 0 <= k < i ==> IsWhitespace(s[k]))
    && (forall k :: i + |r| <= k < |s| ==> IsWhitespace(s[k]))
  }

  /** Trim removes whitespace from the two ends and nothing else: `s` is
      `Trim(s)` with a run of whitespace on either side. */
  lemma TrimRemovesOnlyEndWhitespace(s: string)
    ensures exists i :: PaddedAt(s, i, Trim(s))
  {
    var t := TrimStart(s);
    var r := TrimEnd(t);
    var i := |s| - |t|;
    assert Trim(s) == r;
    SuffixPrefix(s, i, |r|);
    forall k | i + |r| <= k < |s| ensures IsWhitespace(s[k]) {
      assert s[k] == t[k - i];
    }
    assert PaddedAt(s, i, r);
  }

  lemma SuffixPrefix(s: string, i: nat, n: nat)
    requires i + n <= |s|
    ensures s[i..i + n] == s[i..][..n]
  {
  }

  /** The strings Trim leaves unchanged are exactly the trimmed ones. */
  lemma TrimFixedPoints(s: string)
    ensures Trim(s) == s <==> IsTrimmed(s)
  {
    if IsTrimmed(s) {
      assert TrimStart(s) == s;
      assert TrimEnd(s) == s;
    }
  }

  /** Trimming adds no character: one absent from `s` is absent from `Trim(s)`. */
  lemma TrimKeepsAbsent(s: string, c: char)
    requires c !in s
    ensures c !in Trim(s)
  {
    var r := Trim(s);
    assert multiset(s)[c] == 0;
    assert multiset(r)[c] == 0;
  }

  /** Leading whitespace in front of a trimmed string is all that Trim removes. */
  lemma {:induction false} TrimLeadingPad(pad: string, s: string)
    requires forall k :: 0 <= k < |pad| ==> IsWhitespace(pad[k])
    requires IsTrimmed(s)
    ensures Trim(pad + s) == s
  {
    TrimStartPad(pad, s);
    TrimFixedPoints(s);
  }

  lemma {:induction false} TrimStartPad(pad: string, s: string)
    requires forall k :: 0 <= k < |pad| ==> IsWhitespace(pad[k])
    ensures TrimStart(pad + s) == TrimStart(s)
  {
    if pad == [] {
      assert pad + s == s;
    } else {
      assert (pad + s)[0] == pad[0] && (pad + s)[1..] == pad[1..] + s;
      TrimStartPad(pad[1..], s);
    }
  }

  /** Trimming twice is the same as trimming once. */
  lemma TrimIdempotent(s: string)
    ensures Trim(Trim(s)) == Trim(s)
  {
    TrimFixedPoints(Trim(s));
  }

  /** Number of occurrences of `c` in `s`. */
  function Occurrences(s: string, c: char): nat {
    multiset(s)[c]
  }

  /** `s.split(sep)` for a one-character separator: the maximal
      separator-free pieces between separators, empty pieces included. */
  function Split(s: string, sep: char): (parts: seq<string>)
    ensures |parts| == Occurrences(s, sep) + 1
    ensures forall p :: p in parts ==> sep !in p
  {
    if s == [] then [""]
    else
      assert s == [s[0]] + s[1..];
      var rest := Split(s[1..], sep);
      if s[0] == sep then [""] + rest
      else [[s[0]] + rest[0]] + rest[1..]
  }

  /** `parts.join(sep)`. */
  function Join(parts: seq<string>, sep: char): string
    requires parts != []
  {
    if |parts| == 1 then parts[0] else parts[0] + [sep] + Join(parts[1..], sep)
  }

  /** Splitting loses nothing: joining the pieces gives back the string. */
  lemma {:induction false} JoinSplit(s: string, sep: char)
    ensures Join(Split(s, sep), sep) == s
  {
    if s != [] {
      var rest := Split(s[1..], sep);
      JoinSplit(s[1..], sep);
      if s[0] == sep {
        SplitAtSeparator(s, sep);
        JoinCons("", rest, sep);
      } else {
        SplitAtOther(s, sep);
        JoinExtendFirst(s[0], rest, sep);
      }
    }
  }

  lemma SplitAtSeparator(s: string, sep: char)
    requires s != [] && s[0] == sep
    ensures Split(s, sep) == [""] + Split(s[1..], sep)
    ensures s == [sep] + s[1..]
  {
  }

  lemma SplitAtOther(s: string, sep: char)
    requires s != [] && s[0] != sep
    ensures var rest := Split(s[1..], sep); Split(s, sep) == [[s[0]] + rest[0]] + rest[1..]
    ensures s == [s[0]] + s[1..]
  {
  }

  /** Prefixing a character to the first part prefixes it to the joined string. */
  lemma JoinExtendFirst(c: char, parts: seq<string>, sep: char)
    requires parts != []
    ensures Join([[c] + parts[0]] + parts[1..], sep) == [c] + Join(parts, sep)
  {
    if |parts| > 1 {
      JoinCons([c] + parts[0], parts[1..], sep);
      JoinCons(parts[0], parts[1..], sep);
      assert [parts[0]] + parts[1..] == parts;
    }
  }

  lemma JoinCons(p: string, parts: seq<string>, sep: char)
    requires parts != []
    ensures Join([p] + parts, sep) == p + [sep] + Join(parts, sep)
  {
    assert ([p] + parts)[1..] == parts;
  }

  /** A separator-free piece followed by a separator splits off as one part. */
  lemma {:induction false} SplitPiece(p: string, sep: char, t: string)
    requires sep !in p
    ensures Split(p + [sep] + t, sep) == [p] + Split(t, sep)
  {
    if p == [] {
      assert p + [sep] + t == [sep] + t;
      assert ([sep] + t)[1..] == t;
    } else {
      var u := [sep] + t;
      AppendAssoc(p, [sep], t);
      AppendAssoc(p[1..], [sep], t);
      TailOfAppend(p, u);
      SplitPiece(p[1..], sep, t);
      var rest := Split(p[1..] + u, sep);
      assert rest == [p[1..]] + Split(t, sep);
      assert rest[0] == p[1..] && rest[1..] == Split(t, sep);
      assert [p[0]] + p[1..] == p;
    }
  }

  /** A separator-free string is a single part. */
  lemma {:induction false} SplitWhole(p: string, sep: char)
    requires sep !in p
    ensures Split(p, sep) == [p]
  {
    if p != [] {
      SplitWhole(p[1..], sep);
      assert [p[0]] + p[1..] == p;
    }
  }

  /** Joining separator-free pieces and splitting again gives the pieces back. */
  lemma {:induction false} SplitJoin(parts: seq<string>, sep: char)
    requires parts != []
    requires forall p :: p in parts ==> sep !in p
    ensures Split(Join(parts, sep), sep) == parts
  {
    if |parts| == 1 {
      SplitWhole(parts[0], sep);
    } else {
      SplitJoin(parts[1..], sep);
      SplitPiece(parts[0], sep, Join(parts[1..], sep));
      assert [parts[0]] + parts[1..] == parts;
    }
  }

  /** `hay.includes(needle)`. */
  predicate Includes(hay: string, needle: string)
    decreases |hay|
  {
    needle <= hay || (hay != [] && Includes(hay[1..], needle))
  }

  /** `needle` occurs in `hay` starting at index `k`. */
  ghost predicate OccursAt(hay: string, needle: string, k: int) {
    0 <= k <= |hay| - |needle| && hay[k..k + |needle|] == needle
  }

  /** `needle` occurs somewhere in `hay`. */
  ghost predicate Contains(hay: string, needle: string) {
    exists k :: OccursAt(hay, needle, k)
  }

  /** Includes agrees with the positional reading: `needle` occurs at some index of `hay`. */
  lemma {:induction false} IncludesAt(hay: string, needle: string)
    ensures Includes(hay, needle) <==> exists k :: OccursAt(hay, needle, k)
  {
    if needle <= hay {
      assert OccursAt(hay, needle, 0);
    } else if hay != [] {
      IncludesAt(hay[1..], needle);
      if Includes(hay[1..], needle) {
        var k :| OccursAt(hay[1..], needle, k);
        OccursShift(hay, needle, k);
      }
      if exists k :: OccursAt(hay, needle, k) {
        var k :| OccursAt(hay, needle, k);
        if k > 0 {
          OccursShift(hay, needle, k - 1);
        }
      }
    }
  }

  /** An occurrence in the tail is an occurrence one place later in the whole. */
  lemma OccursShift(hay: string, needle: string, k: nat)
    requires hay != []
    ensures OccursAt(hay[1..], needle, k) <==> OccursAt(hay, needle, k + 1)
  {
    if k + 1 + |needle| <= |hay| {
      assert hay[1..][k..k + |needle|] == hay[k + 1..k + 1 + |needle|];
    }
  }
}
