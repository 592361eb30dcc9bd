/**
 * The parts of Python's `str` behaviour the updater relies on:
 * `str.strip()` without arguments, `str.split(sep)` with a one-character
 * separator, and the universal-newline translation a file opened in text
 * mode applies when it is read.
 */
module PyStr {

  /** The characters for which Python's `str.isspace()` holds, which are the
      characters `str.strip()` removes when called without arguments. */
  predicate IsSpace(c: char) {
    || ('\t' <= c <= '\r')                  // U+0009 .. U+000D
    || ('\U{1C}' <= c <= '\U{1F}')          // file, group, record and unit separators
    || c == ' '
    || c == '\U{85}'                        // next line
    || c == '\U{A0}'                        // no-break space
    || c == '\U{1680}'
    || ('\U{2000}' <= c <= '\U{200A}')
    || c == '\U{2028}' || c == '\U{2029}'   // line and paragraph separators
    || c == '\U{202F}' || c == '\U{205F}' || c == '\U{3000}'
  }

  predicate AllSpace(s: string) {
    forall i :: 0 <= i < |s| ==> IsSpace(s[i])
  }

  /** Neither the first nor the last character is whitespace. */
  predicate NoEdgeSpace(s: string) {
    s == [] || (!IsSpace(s[0]) && !IsSpace(s[|s| - 1]))
  }

  /** `r` is `s` with some whitespace removed from its front and its back. */
  ghost predicate TrimmedFrom(r: string, s: string) {
    exists k :: 0 <= k <= |s| - |r| && AllSpace(s[..k]) && s[k..k + |r|] == r && AllSpace(s[k + |r|..])
  }

  /** `str.lstrip()`: drops the longest all-whitespace prefix. */
  function LStrip(s: string): (r: string)
    ensures |r| <= |s| && r == s[|s| - |r|..]
    ensures AllSpace(s[..|s| - |r|])
    ensures r == [] || !IsSpace(r[0])
  {
    if s != [] && IsSpace(s[0]) then
      var r := LStrip(s[1..]);
      LStripStep(s, r);
      r
    else
      s
  }

  /** One step of `LStrip`: dropping one more leading space keeps its contract. */
  lemma LStripStep(s: string, r: string)
    requires s != [] && IsSpace(s[0]) && |r| <= |s| - 1
    requires r == s[1..][|s| - 1 - |r|..] && AllSpace(s[1..][..|s| - 1 - |r|])
    ensures r == s[|s| - |r|..] && AllSpace(s[..|s| - |r|])
  {
    forall i | 1 <= i < |s| - |r| ensures IsSpace(s[i]) {
      assert s[i] == s[1..][..|s| - 1 - |r|][i - 1];
    }
  }

  /** `str.rstrip()`: drops the longest all-whitespace suffix. */
  function RStrip(s: string): (r: string)
    ensures |r| <= |s| && r == s[..|r|]
    ensures AllSpace(s[|r|..])
    ensures r == [] || !IsSpace(r[|r| - 1])
  {
    if s != [] && IsSpace(s[|s| - 1]) then
      var r := RStrip(s[..|s| - 1]);
      assert s[|r|..] == s[..|s| - 1][|r|..] + [s[|s| - 1]];
      assert r == s[..|s| - 1][..|r|] == s[..|r|];
      r
    else
      s
  }

  /** `str.strip()`: the text between the leading and the trailing whitespace. */
  function Strip(s: string): (r: string)
    ensures NoEdgeSpace(r)
    ensures forall c :: c in r ==> c in s
  {
    var t := LStrip(s);
    var r := RStrip(t);
    SliceOfSuffix(s, t, r, |s| - |t|);
    SliceMembers(s, r, |s| - |t|);
    r
  }

  /** What `Strip` removes is whitespace, from the front and from the back
      only, and (by its contract) what is left has whitespace at neither end. */
  lemma StripRemovesOnlyEdgeSpace(s: string)
    ensures TrimmedFrom(Strip(s), s)
  {
    var t := LStrip(s);
    var r := RStrip(t);
    var k := |s| - |t|;
    SliceOfSuffix(s, t, r, k);
    assert 0 <= k <= |s| - |r| && AllSpace(s[..k]) && s[k..k + |r|] == r && AllSpace(s[k + |r|..]);
  }

  lemma SliceOfSuffix(s: string, t: string, r: string, k: nat)
    requires k <= |s| && t == s[k..] && |r| <= |t| && r == t[..|r|]
    ensures s[k..k + |r|] == r && s[k + |r|..] == t[|r|..]
  {
  }

  lemma SliceMembers(s: string, r: string, k: nat)
    requires k + |r| <= |s| && s[k..k + |r|] == r
    ensures forall c :: c in r ==> c in s
  {
    forall c | c in r ensures c in s {
      var i :| 0 <= i < |r| && r[i] == c;
      assert s[k + i] == c;
    }
  }

  /** Conversely, `Strip` recovers any text with no whitespace at its ends
      from that text surrounded by whitespace. */
  lemma StripSurrounded(a: string, r: string, b: string)
    requires AllSpace(a) && NoEdgeSpace(r) && AllSpace(b)
    ensures Strip(a + r + b) == r
  {
    if r == [] {
      assert a + r + b == (a + b) + [];
      assert AllSpace(a + b);
      LStripSpacePrefix(a + b, []);
    } else {
      assert a + r + b == a + (r + b);
      LStripSpacePrefix(a, r + b);
      RStripSpaceSuffix(r, b);
    }
  }

  /** In particular, `Strip` drops any whitespace after such a text. */
  lemma StripTrailingSpace(r: string, b: string)
    requires NoEdgeSpace(r) && AllSpace(b)
    ensures Strip(r + b) == r
  {
    StripSurrounded([], r, b);
    assert [] + r + b == r + b;
  }

  lemma {:induction false} LStripSpacePrefix(a: string, t: string)
    requires AllSpace(a) && (t == [] || !IsSpace(t[0]))
    ensures LStrip(a + t) == t
    decreases |a|
  {
    if a != [] {
      assert (a + t)[1..] == a[1..] + t;
      LStripSpacePrefix(a[1..], t);
    }
  }

  lemma {:induction false} RStripSpaceSuffix(t: string, b: string)
    requires AllSpace(b) && (t == [] || !IsSpace(t[|t| - 1]))
    ensures RStrip(t + b) == t
    decreases |b|
  {
    if b != [] {
      assert (t + b)[..|t + b| - 1] == t + b[..|b| - 1];
      RStripSpaceSuffix(t, b[..|b| - 1]);
    }
  }

  /** Stripping a string that has no whitespace at either end changes nothing. */
  lemma StripKeepsTrimmed(s: string)
    requires NoEdgeSpace(s)
    ensures Strip(s) == s
  {
  }

  /** `str.strip()` is idempotent. */
  lemma StripIdempotent(s: string)
    ensures Strip(Strip(s)) == Strip(s)
  {
    StripKeepsTrimmed(Strip(s));
  }

  /** The inverse of `str.split(sep)`: `sep.join(parts)`. */
  function Join(parts: seq<string>, sep: char): string
    requires |parts| >= 1
  {
    if |parts| == 1 then parts[0] else parts[0] + [sep] + Join(parts[1..], sep)
  }

  /** `s.split(sep)` for a one-character separator: the pieces between
      separators, empty pieces included, so there is one more piece than
      there are separators and joining them back gives `s`. */
  function Split(s: string, sep: char): (parts: seq<string>)
    ensures |parts| == multiset(s)[sep] + 1
    ensures forall i :: 0 <= i < |parts| ==> sep !in parts[i]
    ensures Join(parts, sep) == s
  {
    if s == [] then
      [[]]
    else
      var rest := Split(s[1..], sep);
      var parts := if s[0] == sep then [[]] + rest else [[s[0]] + rest[0]] + rest[1..];
      SplitStepCount(s, sep, rest, parts);
      SplitStepPieces(s, sep, rest, parts);
      SplitStepJoin(s, sep, rest, parts);
      parts
  }

  /** One more separator in front means one more piece. */
  lemma SplitStepCount(s: string, sep: char, rest: seq<string>, parts: seq<string>)
    requires s != [] && |rest| == multiset(s[1..])[sep] + 1
    requires parts == if s[0] == sep then [[]] + rest else [[s[0]] + rest[0]] + rest[1..]
    ensures |parts| == multiset(s)[sep] + 1
  {
    assert s == [s[0]] + s[1..];
    assert multiset(s) == multiset{s[0]} + multiset(s[1..]);
  }

  /** The pieces stay free of separators. */
  lemma SplitStepPieces(s: string, sep: char, rest: seq<string>, parts: seq<string>)
    requires s != [] && |rest| >= 1 && forall i :: 0 <= i < |rest| ==> sep !in rest[i]
    requires parts == if s[0] == sep then [[]] + rest else [[s[0]] + rest[0]] + rest[1..]
    ensures forall i :: 0 <= i < |parts| ==> sep !in parts[i]
  {
    if s[0] == sep {
      assert forall i :: 1 <= i < |parts| ==> parts[i] == rest[i - 1];
    } else {
      assert forall i :: 1 <= i < |parts| ==> parts[i] == rest[i];
    }
  }

  /** The pieces still join back to the text. */
  lemma SplitStepJoin(s: string, sep: char, rest: seq<string>, parts: seq<string>)
    requires s != [] && |rest| >= 1 && Join(rest, sep) == s[1..]
    requires parts == if s[0] == sep then [[]] + rest else [[s[0]] + rest[0]] + rest[1..]
    ensures Join(parts, sep) == s
  {
    assert s == [s[0]] + s[1..];
    if s[0] == sep {
      assert parts[1..] == rest;
    } else {
      JoinExtendFirst(s[0], rest, sep);
    }
  }

  /** Putting a character in front of the first piece puts it in front of the join. */
  lemma JoinExtendFirst(c: char, parts: seq<string>, sep: char)
    requires |parts| >= 1
    ensures Join([[c] + parts[0]] + parts[1..], sep) == [c] + Join(parts, sep)
  {
    var longer := [[c] + parts[0]] + parts[1..];
    if |parts| > 1 {
      assert longer[1..] == parts[1..];
    }
  }

  /** `Split` is the only way to cut `s` at its separators: any list of
      separator-free pieces that joins to `s` is `Split(s, sep)`. */
  lemma {:induction false} SplitUnique(s: string, sep: char, parts: seq<string>)
    requires |parts| >= 1
    requires forall i :: 0 <= i < |parts| ==> sep !in parts[i]
    requires Join(parts, sep) == s
    ensures parts == Split(s, sep)
    decreases |s|
  {
    if |parts| == 1 {
      SplitOfSeparatorFree(parts[0], sep);
    } else if parts[0] == [] {
      var tail := parts[1..];
      assert s == [sep] + Join(tail, sep);
      SplitUnique(s[1..], sep, tail);
      SplitAtLeadingSeparator(s, sep, tail);
    } else {
      var p := parts[0];
      var shorter := [p[1..]] + parts[1..];
      ShortenFirstPiece(s, sep, parts, shorter);
      SplitUnique(s[1..], sep, shorter);
      SplitAtOrdinaryChar(s, sep, parts, shorter);
    }
  }

  lemma SplitAtLeadingSeparator(s: string, sep: char, tail: seq<string>)
    requires |tail| >= 1 && s != [] && s[0] == sep && tail == Split(s[1..], sep)
    ensures [[]] + tail == Split(s, sep)
  {
  }

  lemma ShortenFirstPiece(s: string, sep: char, parts: seq<string>, shorter: seq<string>)
    requires |parts| >= 2 && parts[0] != [] && shorter == [parts[0][1..]] + parts[1..]
    requires forall i :: 0 <= i < |parts| ==> sep !in parts[i]
    requires Join(parts, sep) == s
    ensures s != [] && s[0] == parts[0][0] && s[0] != sep
    ensures forall i :: 0 <= i < |shorter| ==> sep !in shorter[i]
    ensures Join(shorter, sep) == s[1..]
  {
    var p := parts[0];
    assert p == [p[0]] + p[1..];
    assert sep in p ==> false;
    assert parts == [[p[0]] + shorter[0]] + shorter[1..] by {
      assert shorter[1..] == parts[1..];
    }
    JoinExtendFirst(p[0], shorter, sep);
    assert sep !in p[1..] by {
      assert forall c :: c in p[1..] ==> c in p;
    }
    assert forall i :: 1 <= i < |shorter| ==> shorter[i] == parts[i];
  }

  lemma SplitAtOrdinaryChar(s: string, sep: char, parts: seq<string>, shorter: seq<string>)
    requires |parts| >= 2 && parts[0] != [] && shorter == [parts[0][1..]] + parts[1..]
    requires s != [] && s[0] == parts[0][0] && s[0] != sep
    requires shorter == Split(s[1..], sep)
    ensures parts == Split(s, sep)
  {
    var p := parts[0];
    assert Split(s, sep) == [[s[0]] + shorter[0]] + shorter[1..];
    assert [s[0]] + shorter[0] == p by {
      assert p == [p[0]] + p[1..];
    }
    assert shorter[1..] == parts[1..];
    assert parts == [p] + parts[1..];
  }

  /** A string with no separator splits into itself alone. */
  lemma {:induction false} SplitOfSeparatorFree(s: string, sep: char)
    requires sep !in s
    ensures Split(s, sep) == [s]
  {
    if s != [] {
      assert sep !in s[1..] by {
        assert forall c :: c in s[1..] ==> c in s;
      }
      SplitOfSeparatorFree(s[1..], sep);
      assert s == [s[0]] + s[1..];
    }
  }

  /** What reading a file opened in text mode with the default `newline=None`
      yields: every `\r\n` and every lone `\r` becomes `\n`. */
  function UniversalNewlines(s: string): (r: string)
    ensures '\r' !in r
    ensures |r| <= |s|
  {
    if s == [] then []
    else if s[0] == '\r' then
      ['\n'] + UniversalNewlines(if |s| > 1 && s[1] == '\n' then s[2..] else s[1..])
    else
      [s[0]] + UniversalNewlines(s[1..])
  }

  /** Text without carriage returns reads back exactly as it was written. */
  lemma {:induction false} UniversalNewlinesKeepsPlainText(s: string)
    requires '\r' !in s
    ensures UniversalNewlines(s) == s
  {
    if s != [] {
      assert '\r' !in s[1..] by {
        assert forall c :: c in s[1..] ==> c in s;
      }
      UniversalNewlinesKeepsPlainText(s[1..]);
      assert s == [s[0]] + s[1..];
    }
  }

  /** A `\r\n` pair is read as one `\n`. */
  lemma UniversalNewlinesTranslatesCrLf(t: string)
    ensures UniversalNewlines(['\r', '\n'] + t) == ['\n'] + UniversalNewlines(t)
  {
    assert (['\r', '\n'] + t)[2..] == t;
  }

  /** A `\r` not followed by `\n` is read as one `\n`. */
  lemma UniversalNewlinesTranslatesLoneCr(t: string)
    requires t == [] || t[0] != '\n'
    ensures UniversalNewlines(['\r'] + t) == ['\n'] + UniversalNewlines(t)
  {
    assert (['\r'] + t)[1..] == t;
  }

  /** Any other character is read as itself. */
  lemma UniversalNewlinesKeepsOrdinary(c: char, t: string)
    requires c != '\r'
    ensures UniversalNewlines([c] + t) == [c] + UniversalNewlines(t)
  {
    assert ([c] + t)[1..] == t;
  }

  /** A prefix without carriage returns is read unchanged, whatever follows it. */
  lemma {:induction false} UniversalNewlinesPlainPrefix(p: string, t: string)
    requires '\r' !in p
    ensures UniversalNewlines(p + t) == p + UniversalNewlines(t)
  {
    if p != [] {
      assert '\r' !in p[1..] by {
        assert forall c :: c in p[1..] ==> c in p;
      }
      assert (p + t)[1..] == p[1..] + t;
      UniversalNewlinesPlainPrefix(p[1..], t);
      assert p == [p[0]] + p[1..];
    } else {
      assert p + t == t;
    }
  }

  /** Translating newlines keeps all-whitespace text all whitespace. */
  lemma {:induction false} UniversalNewlinesKeepsBlank(s: string)
    requires AllSpace(s)
    ensures AllSpace(UniversalNewlines(s))
  {
    if s != [] {
      var rest := if s[0] == '\r' && |s| > 1 && s[1] == '\n' then s[2..] else s[1..];
      assert AllSpace(rest);
      UniversalNewlinesKeepsBlank(rest);
    }
  }
}
