/** String utilities the interpreter borrows from Rust's `str`: whitespace,
    `trim`, `split` on one character and `join`, plus the subsequence
    relation used to state what the tokenizer keeps of its input. */
module Text {

  /** Rust's `char::is_whitespace`: the Unicode White_Space property. */
  predicate IsWhitespace(c: char) {
    var n := c as int;
    (0x09 <= n <= 0x0D) || n == 0x20 || n == 0x85 || n == 0xA0 || n == 0x1680
    || (0x2000 <= n <= 0x200A) || n == 0x2028 || n == 0x2029 || n == 0x202F
    || n == 0x205F || n == 0x3000
  }

  predicate NoWhitespace(s: string) {
    forall i :: 0 <= i < |s| ==> !IsWhitespace(s[i])
  }

  /** Drops leading whitespace: the result is a suffix of `s` and only
      whitespace was dropped. */
  function TrimStart(s: string): (r: string)
    ensures |r| <= |s| && r == s[|s| - |r|..]
    ensures forall i :: 0 <= i < |s| - |r| ==> IsWhitespace(s[i])
    ensures r != [] ==> !IsWhitespace(r[0])
  {
    if s != [] && IsWhitespace(s[0]) then TrimStart(s[1..]) else s
  }

  /** Drops trailing whitespace: the result is a prefix of `s` and only
      whitespace was dropped. */
  function TrimEnd(s: string): (r: string)
    ensures |r| <= |s| && r == s[..|r|]
    ensures forall i :: |r| <= i < |s| ==> IsWhitespace(s[i])
    ensures r != [] ==> !IsWhitespace(r[|r| - 1])
  {
    if s != [] && IsWhitespace(s[|s| - 1]) then TrimEnd(s[..|s| - 1]) else s
  }

  /** `r` is `s[i..j]` and `s` holds only whitespace outside it. */
  predicate SliceWithin(r: string, s: string, i: int, j: int) {
    0 <= i <= j <= |s| && r == s[i..j]
    && (forall k :: 0 <= k < i ==> IsWhitespace(s[k]))
    && (forall k :: j <= k < |s| ==> IsWhitespace(s[k]))
  }

  /** `r` is what is left of `s` once some whitespace is removed from its two
      ends. */
  predicate InnerSlice(r: string, s: string) {
    exists i, j :: 0 <= i <= j <= |s| && SliceWithin(r, s, i, j)
  }

  /** Rust's `str::trim`. */
  function Trim(s: string): (r: string)
    ensures r != [] ==> !IsWhitespace(r[0]) && !IsWhitespace(r[|r| - 1])
    ensures r == [] <==> forall i :: 0 <= i < |s| ==> IsWhitespace(s[i])
    ensures NoWhitespace(s) ==> r == s
    // only the two ends are removed: what is left is one slice of `s`
    ensures InnerSlice(r, s)
  {
    var t := TrimStart(s);
    var r := TrimEnd(t);
    assert r != [] ==> r[0] == t[0];
    TrimBothEnds(s);
    r
  }

  /** Trimming the start and then the end leaves one slice of `s`, with only
      whitespace outside it. */
  lemma TrimBothEnds(s: string)
    ensures InnerSlice(TrimEnd(TrimStart(s)), s)
  {
    var t := TrimStart(s);
    var r := TrimEnd(t);
    var i := |s| - |t|;
    var j := i + |r|;
    SliceBetween(s, t, r, IsWhitespace);
    assert SliceWithin(r, s, i, j);
  }

  /** A prefix `r` of a suffix `t` of `s` is a slice of `s`; whatever `t`
      holds after `r` is what `s` holds after that slice. */
  lemma SliceBetween(s: string, t: string, r: string, p: char -> bool)
    requires |t| <= |s| && t == s[|s| - |t|..]
    requires |r| <= |t| && r == t[..|r|]
    requires forall k :: |r| <= k < |t| ==> p(t[k])
    ensures r == s[|s| - |t|..|s| - |t| + |r|]
    ensures forall k :: |s| - |t| + |r| <= k < |s| ==> p(s[k])
  {
    var i := |s| - |t|;
    forall k | i + |r| <= k < |s| ensures p(s[k]) {
      assert s[k] == t[k - i];
    }
  }

  /** Rust's `str::split` on a single character: empty pieces are kept, so
      there is always at least one piece and none contains `sep`. */
  function Split(s: string, sep: char): (r: seq<string>)
    ensures |r| >= 1
    ensures forall k :: 0 <= k < |r| ==> sep !in r[k]
  {
    if s == [] then [[]]
    else
      var rest := Split(s[1..], sep);
      if s[0] == sep then [[]] + rest
      else [[s[0]] + rest[0]] + rest[1..]
  }

  /** Rust's `[String]::join`. */
  function Join(parts: seq<string>, sep: string): string {
    if parts == [] then []
    else if |parts| == 1 then parts[0]
    else parts[0] + sep + Join(parts[1..], sep)
  }

  /** Splitting a text that starts with a piece free of the separator glues
      that piece to the front of the first piece. */
  lemma {:induction false} SplitPrefix(c: string, s: string, sep: char)
    requires sep !in c
    ensures Split(c + s, sep) == [c + Split(s, sep)[0]] + Split(s, sep)[1..]
  {
    if c != [] {
      var t := Split(s, sep);
      var u := Split(c[1..] + s, sep);
      assert (c + s)[0] == c[0] != sep;
      assert (c + s)[1..] == c[1..] + s;
      SplitPrefix(c[1..], s, sep);
      assert u == [c[1..] + t[0]] + t[1..];
      assert u[0] == c[1..] + t[0] && u[1..] == t[1..];
      assert Split(c + s, sep) == [[c[0]] + u[0]] + u[1..];
      assert [c[0]] + (c[1..] + t[0]) == c + t[0];
    } else {
      var t := Split(s, sep);
      assert c + s == s;
      assert c + t[0] == t[0];
      assert [t[0]] + t[1..] == t;
    }
  }

  /** `join` undoes `split`. */
  lemma {:induction false} JoinSplit(s: string, sep: char)
    ensures Join(Split(s, sep), [sep]) == s
  {
    if s != [] {
      var rest := Split(s[1..], sep);
      JoinSplit(s[1..], sep);
      if s[0] == sep {
        assert Split(s, sep) == [[]] + rest;
        assert ([[]] + rest)[1..] == rest;
      } else {
        var first := [s[0]] + rest[0];
        assert Split(s, sep) == [first] + rest[1..];
        if |rest| == 1 {
          assert Join([first], [sep]) == first;
        } else {
          assert ([first] + rest[1..])[1..] == rest[1..];
          assert Join(rest, [sep]) == rest[0] + [sep] + Join(rest[1..], [sep]);
        }
      }
    }
  }

  /** `split` undoes `join` when no part contains the separator. */
  lemma {:induction false} SplitJoin(parts: seq<string>, sep: char)
    requires |parts| >= 1
    requires forall k :: 0 <= k < |parts| ==> sep !in parts[k]
    ensures Split(Join(parts, [sep]), sep) == parts
  {
    if |parts| == 1 {
      SplitPrefix(parts[0], [], sep);
      assert parts[0] + [] == parts[0];
      assert parts == [parts[0]];
      assert Join(parts, [sep]) == parts[0];
    } else {
      var tail := Join(parts[1..], [sep]);
      SplitJoin(parts[1..], sep);
      assert Join(parts, [sep]) == parts[0] + ([sep] + tail);
      SplitPrefix(parts[0], [sep] + tail, sep);
      var w := Split([sep] + tail, sep);
      assert ([sep] + tail)[0] == sep && ([sep] + tail)[1..] == tail;
      assert w == [[]] + Split(tail, sep);
      assert w[0] == [] && w[1..] == parts[1..];
      assert parts[0] + w[0] == parts[0];
      assert parts == [parts[0]] + parts[1..];
    }
  }

  /** The non-empty pieces, in order. */
  function DropEmpty(pieces: seq<string>): (r: seq<string>)
    ensures forall k :: 0 <= k < |r| ==> r[k] != []
    ensures |r| <= |pieces|
  {
    if pieces == [] then []
    else (if pieces[0] == [] then [] else [pieces[0]]) + DropEmpty(pieces[1..])
  }

  /** The words of `s`: the non-empty pieces between spaces. */
  function Words(s: string): seq<string> {
    DropEmpty(Split(s, ' '))
  }

  /** A word in the tokenizer's sense: non-empty, no whitespace, no quotes. */
  predicate CleanWord(w: string) {
    w != [] && NoWhitespace(w) && '\'' !in w && '"' !in w
  }

  /** Text with no quote characters and no whitespace but the plain space. */
  predicate Plain(s: string) {
    forall i :: 0 <= i < |s| ==> s[i] != '\'' && s[i] != '"' && (IsWhitespace(s[i]) ==> s[i] == ' ')
  }

  /** Clean words joined by spaces form plain text whose words are those
      words again. */
  lemma {:induction false} JoinCleanWords(ws: seq<string>)
    requires forall k :: 0 <= k < |ws| ==> CleanWord(ws[k])
    ensures Plain(Join(ws, " "))
    ensures Words(Join(ws, " ")) == ws
  {
    if ws == [] {
    } else {
      JoinPlain(ws);
      forall k | 0 <= k < |ws| ensures ' ' !in ws[k] {
        assert CleanWord(ws[k]);
      }
      SplitJoin(ws, ' ');
      DropEmptyKeeps(ws);
    }
  }

  lemma {:induction false} JoinPlain(ws: seq<string>)
    requires forall k :: 0 <= k < |ws| ==> CleanWord(ws[k])
    ensures Plain(Join(ws, " "))
  {
    if |ws| > 1 {
      JoinPlain(ws[1..]);
      var j := Join(ws[1..], " ");
      var w := ws[0];
      assert CleanWord(w);
      assert Join(ws, " ") == w + " " + j;
      forall i | 0 <= i < |w + " " + j|
        ensures (w + " " + j)[i] != '\'' && (w + " " + j)[i] != '"'
        ensures IsWhitespace((w + " " + j)[i]) ==> (w + " " + j)[i] == ' '
      {
        if i < |w| {
          assert (w + " " + j)[i] == w[i];
        } else if i > |w| {
          assert (w + " " + j)[i] == j[i - |w| - 1];
        }
      }
    } else if |ws| == 1 {
      assert CleanWord(ws[0]);
    }
  }

  lemma {:induction false} DropEmptyKeeps(ws: seq<string>)
    requires forall k :: 0 <= k < |ws| ==> ws[k] != []
    ensures DropEmpty(ws) == ws
  {
    if ws != [] {
      DropEmptyKeeps(ws[1..]);
    }
  }

  /** Concatenation of a list of strings. */
  function Concat(ts: seq<string>): string {
    if ts == [] then [] else Concat(ts[..|ts| - 1]) + ts[|ts| - 1]
  }

  /** `a` is obtained from `b` by deleting characters. */
  predicate IsSubseq(a: string, b: string)
    decreases |b|
  {
    if a == [] then true
    else if b == [] then false
    else if a[0] == b[0] then IsSubseq(a[1..], b[1..])
    else IsSubseq(a, b[1..])
  }

  lemma {:induction false} SubseqRefl(a: string)
    ensures IsSubseq(a, a)
  {
    if a != [] { SubseqRefl(a[1..]); }
  }

  /** Putting a character in front of the longer text keeps a subsequence. */
  lemma {:induction false} SubseqCons(a: string, x: char, b: string)
    requires IsSubseq(a, b)
    ensures IsSubseq(a, [x] + b)
    decreases |b|, 1
  {
    assert ([x] + b)[1..] == b;
    if a != [] && a[0] == x {
      SubseqTail(a, b);
    }
  }

  /** Dropping the first character of a subsequence keeps a subsequence. */
  lemma {:induction false} SubseqTail(a: string, b: string)
    requires a != [] && IsSubseq(a, b)
    ensures IsSubseq(a[1..], b)
    decreases |b|, 0
  {
    if a[0] == b[0] {
      SubseqCons(a[1..], b[0], b[1..]);
    } else {
      SubseqTail(a, b[1..]);
      SubseqCons(a[1..], b[0], b[1..]);
    }
    assert [b[0]] + b[1..] == b;
  }

  lemma {:induction false} SubseqTrans(a: string, b: string, c: string)
    requires IsSubseq(a, b) && IsSubseq(b, c)
    ensures IsSubseq(a, c)
    decreases |c|
  {
    if a != [] {
      assert b != [] && c != [];
      if b[0] == c[0] {
        if a[0] == b[0] {
          SubseqTrans(a[1..], b[1..], c[1..]);
        } else {
          SubseqTrans(a, b[1..], c[1..]);
        }
      } else {
        SubseqTrans(a, b, c[1..]);
        if a[0] == c[0] {
          SubseqTail(a, c[1..]);
        }
      }
    }
  }

  /** A common prefix keeps a subsequence. */
  lemma {:induction false} SubseqPrefix(p: string, a: string, b: string)
    requires IsSubseq(a, b)
    ensures IsSubseq(p + a, p + b)
  {
    if p != [] {
      SubseqPrefix(p[1..], a, b);
      assert (p + a)[0] == p[0] == (p + b)[0];
      assert (p + a)[1..] == p[1..] + a;
      assert (p + b)[1..] == p[1..] + b;
    } else {
      assert p + a == a && p + b == b;
    }
  }

  /** Every suffix and every prefix is a subsequence. */
  lemma {:induction false} SubseqSuffix(s: string, k: nat)
    requires k <= |s|
    ensures IsSubseq(s[k..], s)
  {
    if k == 0 {
      SubseqRefl(s);
    } else {
      SubseqSuffix(s[1..], k - 1);
      assert s[1..][k - 1..] == s[k..];
      SubseqCons(s[k..], s[0], s[1..]);
      assert [s[0]] + s[1..] == s;
    }
  }

  lemma {:induction false} SubseqPrefixOf(s: string, k: nat)
    requires k <= |s|
    ensures IsSubseq(s[..k], s)
  {
    if k > 0 {
      SubseqPrefixOf(s[1..], k - 1);
      assert s[..k][1..] == s[1..][..k - 1];
    }
  }

  /** `trim` only deletes characters. */
  lemma TrimSubseq(s: string)
    ensures IsSubseq(Trim(s), s)
  {
    var t := TrimStart(s);
    SubseqSuffix(s, |s| - |t|);
    SubseqPrefixOf(t, |TrimEnd(t)|);
    SubseqTrans(Trim(s), t, s);
  }

  /** Whitespace after a word, such as the line terminator, is trimmed away
      and the word is kept whole. */
  lemma TrimTrailing(w: string, tail: string)
    requires w != [] && !IsWhitespace(w[0]) && !IsWhitespace(w[|w| - 1])
    requires forall k :: 0 <= k < |tail| ==> IsWhitespace(tail[k])
    ensures Trim(w + tail) == w
  {
    var s := w + tail;
    assert s[0] == w[0];
    var i, j :| 0 <= i <= j <= |s| && SliceWithin(Trim(s), s, i, j);
    assert Trim(s) != [];
    assert i == 0;
    assert s[j - 1] == Trim(s)[|Trim(s)| - 1];
    assert forall k :: |w| <= k < |s| ==> s[k] == tail[k - |w|];
    assert s[|w| - 1] == w[|w| - 1];
    assert j == |w|;
    assert s[..|w|] == w;
  }
}
