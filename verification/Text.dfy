/** The .NET string operations the tasks rely on, over `string` = `seq<char>`:
    `Char.IsWhiteSpace`, `String.IsNullOrWhiteSpace`, `String.Split(params char[])`,
    `String.Join`/concatenation, `String.IndexOf(char)` and the two-part
    `Split(char[], 2)`. Comparisons are ordinal.
 */
module Text {
  import opened Wrappers

  /** `Char.IsWhiteSpace`: the Unicode space separators, the line and paragraph
      separators, and the control characters U+0009..U+000D and U+0085. */
  predicate IsWhiteSpace(c: char) {
    || ('\U{0009}' <= c <= '\U{000D}')
    || c == ' '
    || c == '\U{0085}'
    || c == '\U{00A0}'
    || c == '\U{1680}'
    || ('\U{2000}' <= c <= '\U{200A}')
    || c == '\U{2028}'
    || c == '\U{2029}'
    || c == '\U{202F}'
    || c == '\U{205F}'
    || c == '\U{3000}'
  }

  /** `String.IsNullOrWhiteSpace`: null, empty, or white space only. */
  predicate IsNullOrWhiteSpace(s: Option<string>) {
    s.None? || forall k :: 0 <= k < |s.value| ==> IsWhiteSpace(s.value[k])
  }

  /** Among the ASCII characters exactly the space and the controls tab,
      line feed, vertical tab, form feed and carriage return are white space. */
  lemma AsciiWhiteSpace(c: char)
    requires c < '\U{0080}'
    ensures IsWhiteSpace(c) <==> c in {' ', '\t', '\n', '\U{000B}', '\U{000C}', '\r'}
  {
  }

  /** Two texts glued together are blank exactly when both are. */
  lemma BlankAppend(a: string, b: string)
    ensures IsNullOrWhiteSpace(Some(a + b)) <==> IsNullOrWhiteSpace(Some(a)) && IsNullOrWhiteSpace(Some(b))
  {
    var s := a + b;
    assert forall k :: 0 <= k < |a| ==> s[k] == a[k];
    assert forall k :: 0 <= k < |b| ==> s[|a| + k] == b[k];
  }

  /** Lines glued with nothing between them are blank exactly when every
      line is: one visible character anywhere makes the whole text non-blank. */
  lemma {:induction false} ConcatBlank(parts: seq<string>)
    ensures IsNullOrWhiteSpace(Some(Concat(parts))) <==>
      forall i :: 0 <= i < |parts| ==> IsNullOrWhiteSpace(Some(parts[i]))
  {
    if |parts| > 1 {
      ConcatBlank(parts[1..]);
      assert Concat(parts) == parts[0] + Concat(parts[1..]);
      BlankAppend(parts[0], Concat(parts[1..]));
      assert forall i :: 1 <= i < |parts| ==> parts[i] == parts[1..][i - 1];
    }
  }

  /** No character of `s` is in `cs`. */
  predicate NoneOf(s: string, cs: set<char>) {
    forall k :: 0 <= k < |s| ==> s[k] !in cs
  }

  /** `String.IndexOf(char)`: the first position of `c`, or -1. */
  function IndexOf(s: string, c: char): (r: int)
    ensures -1 <= r < |s|
    ensures r == -1 <==> c !in s
    ensures r >= 0 ==> s[r] == c && c !in s[..r]
  {
    if |s| == 0 then -1
    else if s[0] == c then 0
    else
      var k := IndexOf(s[1..], c);
      if k < 0 then -1
      else
        assert s[..k + 1] == [s[0]] + s[1..][..k];
        k + 1
  }

  /** The first occurrence of `c` in `a + [c] + b` is the separator itself when `a` has none. */
  lemma IndexOfAfter(a: string, c: char, b: string)
    requires c !in a
    ensures IndexOf(a + [c] + b, c) == |a|
  {
    var s := a + [c] + b;
    var r := IndexOf(s, c);
    assert s[|a|] == c;
    assert forall k :: 0 <= k < |a| ==> s[k] == a[k];
  }

  /** `s.Split(new[] { c }, 2)` read as a pair: the text before the first `c`
      and everything after it. None when `c` does not occur, which is where
      the caller's `parts[1]` throws. */
  function SplitOnce(s: string, c: char): (r: Option<(string, string)>)
    ensures r.None? <==> c !in s
    ensures r.Some? ==> s == r.value.0 + [c] + r.value.1 && c !in r.value.0
  {
    var k := IndexOf(s, c);
    if k < 0 then None
    else
      assert s == s[..k] + [c] + s[k + 1..];
      Some((s[..k], s[k + 1..]))
  }

  /** Splitting at a separator absent from the head gives back the head and the tail. */
  lemma SplitOnceOf(a: string, c: char, b: string)
    requires c !in a
    ensures SplitOnce(a + [c] + b, c) == Some((a, b))
  {
    var s := a + [c] + b;
    IndexOfAfter(a, c, b);
    assert s[..|a|] == a;
    assert s[|a| + 1..] == b;
  }

  /** Regrouping a concatenation of four texts. */
  lemma AppendRegroup(a: string, b: string, c: string, d: string)
    ensures a + (b + c + d) == a + b + c + d
  {
  }

  /** `String.Split(params char[] separators)`: every maximal run of
      non-separators, empty pieces kept, so `n` separators give `n + 1` pieces. */
  function Split(s: string, seps: set<char>): (parts: seq<string>)
    ensures |parts| >= 1
    ensures forall i :: 0 <= i < |parts| ==> NoneOf(parts[i], seps)
  {
    if |s| == 0 then [""]
    else
      var rest := Split(s[1..], seps);
      if s[0] in seps then [""] + rest
      else [[s[0]] + rest[0]] + rest[1..]
  }

  /** `String.Join(separator, parts)`; with the empty separator it is the
      plain concatenation `s += piece` builds. */
  function Join(parts: seq<string>, sep: string): string
  {
    if |parts| == 0 then ""
    else if |parts| == 1 then parts[0]
    else parts[0] + sep + Join(parts[1..], sep)
  }

  /** Pieces appended one after another with nothing in between. */
  function Concat(parts: seq<string>): string
  {
    Join(parts, "")
  }

  /** A joined text holds exactly the pieces' characters plus one separator between neighbours. */
  lemma {:induction false} JoinLength(parts: seq<string>, sep: string)
    requires |parts| >= 1
    ensures |Join(parts, sep)| == TotalLength(parts) + (|parts| - 1) * |sep|
  {
    if |parts| > 1 {
      JoinLength(parts[1..], sep);
    }
  }

  function TotalLength(parts: seq<string>): nat
  {
    if |parts| == 0 then 0 else |parts[0]| + TotalLength(parts[1..])
  }

  /** Joining pieces free of some characters with a separator free of them leaves none. */
  lemma {:induction false} JoinNoneOf(parts: seq<string>, sep: string, cs: set<char>)
    requires forall i :: 0 <= i < |parts| ==> NoneOf(parts[i], cs)
    requires NoneOf(sep, cs)
    ensures NoneOf(Join(parts, sep), cs)
  {
    if |parts| > 1 {
      JoinNoneOf(parts[1..], sep, cs);
      var tail := Join(parts[1..], sep);
      var s := parts[0] + sep + tail;
      forall k | 0 <= k < |s|
        ensures s[k] !in cs
      {
        if k < |parts[0]| {
          assert s[k] == parts[0][k];
        } else if k < |parts[0]| + |sep| {
          assert s[k] == sep[k - |parts[0]|];
        } else {
          assert s[k] == tail[k - |parts[0]| - |sep|];
        }
      }
    }
  }

  /** A text without separators is a single piece. */
  lemma {:induction false} SplitWithoutSeparator(s: string, seps: set<char>)
    requires NoneOf(s, seps)
    ensures Split(s, seps) == [s]
  {
    if |s| > 0 {
      SplitWithoutSeparator(s[1..], seps);
      assert [s[0]] + s[1..] == s;
    }
  }

  /** A separator ends the first piece: what follows is split on its own. */
  lemma {:induction false} SplitAtSeparator(a: string, c: char, b: string, seps: set<char>)
    requires NoneOf(a, seps)
    requires c in seps
    ensures Split(a + [c] + b, seps) == [a] + Split(b, seps)
  {
    var s := a + [c] + b;
    if |a| == 0 {
      assert s == [c] + b;
      assert s[1..] == b;
    } else {
      SplitAtSeparator(a[1..], c, b, seps);
      assert s[1..] == a[1..] + [c] + b;
      assert [a[0]] + a[1..] == a;
    }
  }

  /** Round trip: splitting a join at a separator recovers the pieces,
      provided no piece holds a separator and there is at least one piece. */
  lemma {:induction false} SplitOfJoin(parts: seq<string>, sep: char, seps: set<char>)
    requires |parts| >= 1
    requires sep in seps
    requires forall i :: 0 <= i < |parts| ==> NoneOf(parts[i], seps)
    ensures Split(Join(parts, [sep]), seps) == parts
  {
    if |parts| == 1 {
      SplitWithoutSeparator(parts[0], seps);
    } else {
      SplitOfJoin(parts[1..], sep, seps);
      SplitAtSeparator(parts[0], sep, Join(parts[1..], [sep]), seps);
      assert [parts[0]] + parts[1..] == parts;
    }
  }

  /** Round trip the other way: joining the pieces of a split with the one
      separator character gives back the text. */
  lemma {:induction false} JoinOfSplit(s: string, c: char)
    ensures Join(Split(s, {c}), [c]) == s
  {
    if |s| > 0 {
      JoinOfSplit(s[1..], c);
      var rest := Split(s[1..], {c});
      if s[0] == c {
        assert Split(s, {c}) == [""] + rest;
        assert ([""] + rest)[1..] == rest;
        assert [c] + s[1..] == s;
      } else {
        var parts := Split(s, {c});
        assert parts == [[s[0]] + rest[0]] + rest[1..];
        if |rest| == 1 {
          assert [s[0]] + s[1..] == s;
        } else {
          assert parts[1..] == rest[1..];
          assert Join(rest, [c]) == rest[0] + [c] + Join(rest[1..], [c]);
          assert [s[0]] + s[1..] == s;
        }
      }
    }
  }

  /** The first piece of a split is the prefix of the text before the first separator. */
  lemma {:induction false} FirstPiece(s: string, seps: set<char>)
    ensures Split(s, seps)[0] <= s
    ensures |Split(s, seps)[0]| < |s| ==> s[|Split(s, seps)[0]|] in seps
  {
    if |s| > 0 {
      FirstPiece(s[1..], seps);
      if s[0] !in seps {
        var head := Split(s[1..], seps)[0];
        assert Split(s, seps)[0] == [s[0]] + head;
        assert s == [s[0]] + s[1..];
      }
    }
  }
}
