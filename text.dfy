/** String operations the stream reader applies to each line: JavaScript's
    `String.prototype.trim`, the `/^data: /` replacement and `split("\n")`. */
module Text {

  /** ECMAScript WhiteSpace and LineTerminator code points: what `trim()` removes. */
  predicate IsSpace(c: char) {
    c == '\t' || c == '\n' || c == '\U{000B}' || c == '\U{000C}' || c == '\r' || c == ' '
    || c == '\U{00A0}' || c == '\U{1680}' || ('\U{2000}' <= c <= '\U{200A}')
    || c == '\U{2028}' || c == '\U{2029}' || c == '\U{202F}' || c == '\U{205F}'
    || c == '\U{3000}' || c == '\U{FEFF}'
  }

  /** Removes leading white space: the result is the suffix of `s` that starts
      at its first non-space character. */
  function TrimStart(s: string): string {
    if s != [] && IsSpace(s[0]) then TrimStart(s[1..]) else s
  }

  /** What `TrimStart` keeps is a suffix, what it drops is white space, and the
      suffix does not start with white space. */
  lemma {:induction false} TrimStartShape(s: string)
    ensures var r := TrimStart(s);
      |r| <= |s| && r == s[|s| - |r|..]
      && (forall k :: 0 <= k < |s| - |r| ==> IsSpace(s[k]))
      && (r == [] || !IsSpace(r[0]))
  {
    if s != [] && IsSpace(s[0]) {
      var t := s[1..];
      TrimStartShape(t);
      var r := TrimStart(t);
      assert s[|s| - |r|..] == t[|t| - |r|..];
      forall k | 1 <= k < |s| - |r|
        ensures IsSpace(s[k])
      {
        assert s[k] == t[k - 1];
      }
    }
  }

  /** Removes trailing white space: the result is the prefix of `s` that ends
      at its last non-space character. */
  function TrimEnd(s: string): string {
    if s != [] && IsSpace(s[|s| - 1]) then TrimEnd(s[..|s| - 1]) else s
  }

  /** What `TrimEnd` keeps is a prefix, what it drops is white space, and the
      prefix does not end with white space. */
  lemma {:induction false} TrimEndShape(s: string)
    ensures var r := TrimEnd(s);
      |r| <= |s| && r == s[..|r|]
      && (forall k :: |r| <= k < |s| ==> IsSpace(s[k]))
      && (r == [] || !IsSpace(r[|r| - 1]))
  {
    if s != [] && IsSpace(s[|s| - 1]) {
      var t := s[..|s| - 1];
      TrimEndShape(t);
      var r := TrimEnd(t);
      assert s[..|r|] == t[..|r|];
      forall k | |r| <= k < |t|
        ensures IsSpace(s[k])
      {
        assert s[k] == t[k];
      }
    }
  }

  /** `s.trim()`. */
  function Trim(s: string): string {
    TrimEnd(TrimStart(s))
  }

  /** `!s.trim()`: the string is empty after trimming. */
  predicate IsBlank(s: string) {
    Trim(s) == []
  }

  /** A string is blank exactly when every character in it is white space. */
  lemma BlankIffAllSpace(s: string)
    ensures IsBlank(s) <==> forall k :: 0 <= k < |s| ==> IsSpace(s[k])
  {
    var t := TrimStart(s);
    var i := |s| - |t|;
    TrimStartShape(s);
    TrimEndShape(t);
    assert t != [] ==> t[0] == s[i];
    forall k | i <= k < |s| ensures s[k] == t[k - i] { }
  }

  /** The trimmed string is a piece of the original with only white space cut
      from either end, and it neither starts nor ends with white space. */
  lemma TrimShape(s: string)
    ensures var r, i := Trim(s), |s| - |TrimStart(s)|;
      0 <= i && i + |r| <= |s| && r == s[i..i + |r|]
      && (forall k :: 0 <= k < i ==> IsSpace(s[k]))
      && (forall k :: i + |r| <= k < |s| ==> IsSpace(s[k]))
    ensures Trim(s) == [] || (!IsSpace(Trim(s)[0]) && !IsSpace(Trim(s)[|Trim(s)| - 1]))
  {
    var t := TrimStart(s);
    var r := TrimEnd(t);
    var i := |s| - |t|;
    TrimStartShape(s);
    TrimEndShape(t);
    assert t == s[i..];
    assert r == t[..|r|];
    assert r == s[i..i + |r|];
    forall k | i + |r| <= k < |s|
      ensures IsSpace(s[k])
    {
      assert s[k] == t[k - i];
    }
    assert r != [] ==> r[0] == t[0];
  }

  /** Trimming twice is trimming once. */
  lemma TrimIdempotent(s: string)
    ensures Trim(Trim(s)) == Trim(s)
  {
    TrimShape(s);
    TrimUnchanged(Trim(s));
  }

  /** A string that neither starts nor ends with white space is its own trim. */
  lemma TrimUnchanged(s: string)
    requires s == [] || (!IsSpace(s[0]) && !IsSpace(s[|s| - 1]))
    ensures Trim(s) == s
  {
    assert TrimStart(s) == s;
  }

  /** The literal prefix that `replace(/^data: /, "")` removes. */
  const DataPrefix: string := "data: "

  /** `line.replace(/^data: /, "")`: the prefix is removed only where the line
      starts with it, and at most once. */
  function StripDataPrefix(line: string): (r: string)
    ensures DataPrefix <= line ==> line == DataPrefix + r
    ensures !(DataPrefix <= line) ==> r == line
  {
    if DataPrefix <= line then line[|DataPrefix|..] else line
  }

  /** A second `data: ` after the first one stays in the line. */
  lemma StripOnlyOnce(x: string)
    ensures StripDataPrefix(DataPrefix + DataPrefix + x) == DataPrefix + x
  {
    assert DataPrefix <= DataPrefix + DataPrefix + x;
    assert (DataPrefix + DataPrefix + x)[|DataPrefix|..] == DataPrefix + x;
  }

  /** Leading white space is all `TrimStart` removes before the rest. */
  lemma {:induction false} TrimStartSpaces(w: string, y: string)
    requires forall k :: 0 <= k < |w| ==> IsSpace(w[k])
    ensures TrimStart(w + y) == TrimStart(y)
    decreases |w|
  {
    if w == [] {
      assert w + y == y;
    } else {
      var v := w[1..];
      assert (w + y)[0] == w[0] && IsSpace(w[0]);
      assert (w + y)[1..] == v + y;
      assert forall k :: 0 <= k < |v| ==> v[k] == w[k + 1];
      TrimStartSpaces(v, y);
    }
  }

  /** Leading white space hides the prefix: the replacement runs before `trim()`,
      so a line with white space before `data: ` keeps its `data: `, which
      trimming then exposes. */
  lemma StripBeforeTrim(w: string, x: string)
    requires |w| > 0 && forall k :: 0 <= k < |w| ==> IsSpace(w[k])
    ensures StripDataPrefix(w + DataPrefix + x) == w + DataPrefix + x
    ensures Trim(StripDataPrefix(w + DataPrefix + x)) == Trim(DataPrefix + x)
  {
    var line := w + DataPrefix + x;
    assert line[0] == w[0] && IsSpace(w[0]) && !IsSpace(DataPrefix[0]);
    assert !(DataPrefix <= line);
    assert line == w + (DataPrefix + x);
    TrimStartSpaces(w, DataPrefix + x);
  }

  /** The index of the first newline in `s`, or `|s|` when there is none. */
  function FirstNewline(s: string): (i: nat)
    ensures i <= |s| && (i < |s| ==> s[i] == '\n')
    ensures forall k :: 0 <= k < i ==> s[k] != '\n'
  {
    if s == [] || s[0] == '\n' then 0 else 1 + FirstNewline(s[1..])
  }

  /** `s.split("\n")`: the segments between newline characters, in order. There is
      always at least one segment; the last one is the text after the last newline. */
  function SplitNL(s: string): (r: seq<string>)
    ensures |r| >= 1
    decreases |s|
  {
    var i := FirstNewline(s);
    if i == |s| then [s] else [s[..i]] + SplitNL(s[i + 1..])
  }

  function Last<T>(s: seq<T>): T
    requires |s| > 0
  {
    s[|s| - 1]
  }

  function DropLast<T>(s: seq<T>): seq<T>
    requires |s| > 0
  {
    s[..|s| - 1]
  }

  lemma DropLastAppend<T>(a: seq<T>, b: seq<T>)
    requires |b| > 0
    ensures DropLast(a + b) == a + DropLast(b) && Last(a + b) == Last(b)
  {
  }

  lemma DropLastLast<T>(s: seq<T>)
    requires |s| > 0
    ensures DropLast(s) + [Last(s)] == s
  {
  }

  lemma TakeSnoc<T>(s: seq<T>, i: nat)
    requires i < |s|
    ensures s[..i + 1] == s[..i] + [s[i]]
  {
  }

  lemma AppendAssoc<T>(a: seq<T>, b: seq<T>, c: seq<T>)
    ensures a + b + c == a + (b + c)
  {
  }

  lemma AppendEmpty<T>(a: seq<T>)
    ensures a + [] == a && [] + a == a
  {
  }

  /** Glues segments back together with a newline between consecutive ones:
      `segments.join("\n")`. */
  function JoinNL(segments: seq<string>): string
    requires |segments| >= 1
  {
    if |segments| == 1 then segments[0] else segments[0] + "\n" + JoinNL(segments[1..])
  }

  /** The concatenation of a sequence of strings, in order. */
  function Concat(parts: seq<string>): string {
    if parts == [] then "" else Concat(DropLast(parts)) + Last(parts)
  }

  lemma {:induction false} ConcatAppend(a: seq<string>, b: seq<string>)
    ensures Concat(a + b) == Concat(a) + Concat(b)
    decreases |b|
  {
    if b == [] {
      assert a + b == a;
    } else {
      assert DropLast(a + b) == a + DropLast(b);
      ConcatAppend(a, DropLast(b));
    }
  }

  /** No segment of a split contains a newline. */
  lemma {:induction false} SplitNoNewline(s: string)
    ensures forall k :: 0 <= k < |SplitNL(s)| ==> '\n' !in SplitNL(s)[k]
    decreases |s|
  {
    var i := FirstNewline(s);
    if i < |s| {
      SplitNoNewline(s[i + 1..]);
      assert '\n' !in s[..i];
    }
  }

  /** Splitting and joining again gives back the text. */
  lemma {:induction false} JoinSplit(s: string)
    ensures JoinNL(SplitNL(s)) == s
    decreases |s|
  {
    var i := FirstNewline(s);
    if i < |s| {
      var rest := SplitNL(s[i + 1..]);
      assert SplitNL(s) == [s[..i]] + rest;
      JoinSplit(s[i + 1..]);
      assert ([s[..i]] + rest)[0] == s[..i];
      assert ([s[..i]] + rest)[1..] == rest;
      assert JoinNL(SplitNL(s)) == s[..i] + "\n" + JoinNL(rest);
      assert s == s[..i] + "\n" + s[i + 1..];
    }
  }

  /** A text without a newline splits into itself alone. */
  lemma SplitWhole(s: string)
    requires '\n' !in s
    ensures SplitNL(s) == [s]
  {
    var i := FirstNewline(s);
    assert forall k :: 0 <= k < |s| ==> s[k] in s;
  }

  /** A text that starts with a newline-free segment followed by a newline
      splits into that segment, then the split of the rest. */
  lemma SplitAfterSegment(seg: string, rest: string)
    requires '\n' !in seg
    ensures SplitNL(seg + "\n" + rest) == [seg] + SplitNL(rest)
  {
    var s := seg + "\n" + rest;
    var i := FirstNewline(s);
    assert s[|seg|] == '\n';
    assert forall k :: 0 <= k < |seg| ==> s[k] == seg[k];
    assert i == |seg|;
    assert s[..i] == seg && s[i + 1..] == rest;
  }

  /** Joining newline-free segments and splitting again gives back the segments. */
  lemma {:induction false} SplitJoin(segments: seq<string>)
    requires |segments| >= 1
    requires forall k :: 0 <= k < |segments| ==> '\n' !in segments[k]
    ensures SplitNL(JoinNL(segments)) == segments
    decreases |segments|
  {
    if |segments| == 1 {
      SplitWhole(segments[0]);
    } else {
      var tail := segments[1..];
      assert forall k :: 0 <= k < |tail| ==> tail[k] == segments[k + 1];
      SplitAfterSegment(segments[0], JoinNL(tail));
      SplitJoin(tail);
      assert segments == [segments[0]] + tail;
    }
  }

  /** The first newline of `x` is the first newline of `x + y`. */
  lemma FirstNewlinePrefix(x: string, y: string)
    requires FirstNewline(x) < |x|
    ensures FirstNewline(x + y) == FirstNewline(x)
  {
    var i, j := FirstNewline(x), FirstNewline(x + y);
    assert (x + y)[i] == x[i];
  }

  /** Splitting text that arrives in two pieces: every segment the first piece
      completes stays as it is, and its unterminated last segment is continued by
      the second piece. This is why carrying the tail over in a buffer gives the
      same lines as splitting the whole text at once. */
  lemma {:induction false} SplitAppend(x: string, y: string)
    ensures SplitNL(x + y) == DropLast(SplitNL(x)) + SplitNL(Last(SplitNL(x)) + y)
    decreases |x|
  {
    var i := FirstNewline(x);
    if i == |x| {
      assert SplitNL(x) == [x];
      assert DropLast([x]) == [];
    } else {
      var x' := x[i + 1..];
      SplitFirstLine(x, y);
      SplitAppend(x', y);
      var r := SplitNL(x');
      DropLastAppend([x[..i]], r);
      AppendAssoc([x[..i]], DropLast(r), SplitNL(Last(r) + y));
    }
  }

  /** When `x` holds a newline, the first line of `x + y` is the first line of `x`. */
  lemma SplitFirstLine(x: string, y: string)
    requires FirstNewline(x) < |x|
    ensures var i := FirstNewline(x);
      SplitNL(x) == [x[..i]] + SplitNL(x[i + 1..])
      && SplitNL(x + y) == [x[..i]] + SplitNL(x[i + 1..] + y)
  {
    var i := FirstNewline(x);
    FirstNewlinePrefix(x, y);
    assert (x + y)[..i] == x[..i];
    assert (x + y)[i + 1..] == x[i + 1..] + y;
  }

  /** Joining splits off the last segment after the last newline. */
  lemma {:induction false} JoinLast(segments: seq<string>)
    requires |segments| > 1
    ensures JoinNL(segments) == JoinNL(DropLast(segments)) + "\n" + Last(segments)
    decreases |segments|
  {
    if |segments| > 2 {
      JoinLast(segments[1..]);
      assert DropLast(segments)[1..] == DropLast(segments[1..]);
    }
  }

  /** The last segment is exactly the text after the last newline: a newline-free
      suffix of the text that is either all of it or preceded by a newline. */
  lemma LastSegmentIsTail(s: string)
    ensures var b := Last(SplitNL(s));
      |b| <= |s| && s[|s| - |b|..] == b && '\n' !in b
      && (|b| < |s| ==> s[|s| - |b| - 1] == '\n')
  {
    var r := SplitNL(s);
    SplitNoNewline(s);
    JoinSplit(s);
    if |r| > 1 {
      JoinLast(r);
    }
  }
}
