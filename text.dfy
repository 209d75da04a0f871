/** The few Python `str` operations the agent relies on, with Python's meaning:
    `isspace`, `strip`, `split()`, `split(c)[0]`, `split(c)[-1]`, slicing `[:n]`
    and `''.join`. Characters are Unicode code points, as in Python 3. */
module Text {

  /** Python's `str.isspace()` for one character; `str.split()` and `str.strip()`
      without arguments use exactly this set of separators. */
  predicate IsSpace(c: char) {
    || c == ' '
    || '\t' <= c <= '\r'
    || '\U{1C}' <= c <= '\U{1F}'
    || c == '\U{85}'
    || c == '\U{A0}'
    || c == '\U{1680}'
    || '\U{2000}' <= c <= '\U{200A}'
    || c == '\U{2028}'
    || c == '\U{2029}'
    || c == '\U{202F}'
    || c == '\U{205F}'
    || c == '\U{3000}'
  }

  predicate NoSpace(s: string) {
    forall k :: 0 <= k < |s| ==> !IsSpace(s[k])
  }

  /** No whitespace at either end: what `strip()` leaves behind. */
  predicate Stripped(s: string) {
    s == [] || (!IsSpace(s[0]) && !IsSpace(s[|s| - 1]))
  }

  function Min(a: int, b: int): int {
    if a <= b then a else b
  }

  /** `s[:n]` */
  function Take<T>(s: seq<T>, n: nat): (r: seq<T>)
    ensures |r| == Min(n, |s|) && r == s[..|r|]
  {
    if |s| <= n then s else s[..n]
  }

  /** `s.lstrip()`: the suffix of `s` that starts at its first non-whitespace character. */
  function TrimLeft(s: string): (r: string)
    ensures |r| <= |s| && r == s[|s| - |r|..]
    ensures r == [] || !IsSpace(r[0])
    ensures forall k :: 0 <= k < |s| - |r| ==> IsSpace(s[k])
  {
    if s != [] && IsSpace(s[0]) then TrimLeft(s[1..]) else s
  }

  /** `s.rstrip()`: the prefix of `s` that ends at its last non-whitespace character. */
  function TrimRight(s: string): (r: string)
    ensures |r| <= |s| && r == s[..|r|]
    ensures r == [] || !IsSpace(r[|r| - 1])
    ensures forall k :: |r| <= k < |s| ==> IsSpace(s[k])
  {
    if s != [] && IsSpace(s[|s| - 1]) then TrimRight(s[..|s| - 1]) else s
  }

  /** `s.strip()`: no whitespace left at either end, and a string with none
      there already comes back unchanged (so stripping twice is stripping once). */
  function Strip(s: string): (r: string)
    ensures |r| <= |s|
    ensures Stripped(r)
    ensures Stripped(s) ==> r == s
  {
    TrimRight(TrimLeft(s))
  }

  /** `strip()` returns a contiguous piece of its input, starting where `lstrip()` starts. */
  lemma StripIsPiece(s: string)
    ensures |s| - |TrimLeft(s)| + |Strip(s)| <= |s|
    ensures Strip(s) == s[|s| - |TrimLeft(s)|..|s| - |TrimLeft(s)| + |Strip(s)|]
  {
    var t := TrimLeft(s);
    var i := |s| - |t|;
    assert t == s[i..];
    assert Strip(s) == t[..|Strip(s)|];
  }

  /** What `strip()` drops after the piece it keeps is whitespace. */
  lemma StripDropsTrailingSpace(s: string)
    ensures forall k :: |s| - |TrimLeft(s)| + |Strip(s)| <= k < |s| ==> IsSpace(s[k])
  {
    var t := TrimLeft(s);
    var i := |s| - |t|;
    forall k | i + |Strip(s)| <= k < |s| ensures IsSpace(s[k]) {
      assert s[k] == t[k - i];
    }
  }

  /** `strip()` returns the piece of `s` left between a whitespace prefix and a
      whitespace suffix: it removes whitespace, and nothing else. */
  lemma StripRemovesOnlySpace(s: string)
    ensures var i := |s| - |TrimLeft(s)|;
            && i + |Strip(s)| <= |s|
            && Strip(s) == s[i..i + |Strip(s)|]
            && (forall k :: 0 <= k < i ==> IsSpace(s[k]))
            && (forall k :: i + |Strip(s)| <= k < |s| ==> IsSpace(s[k]))
  {
    StripIsPiece(s);
    StripDropsTrailingSpace(s);
  }

  /** Stripping never introduces a character. */
  lemma StripKeepsAbsent(s: string, c: char)
    requires c !in s
    ensures c !in Strip(s)
  {
    var t := TrimLeft(s);
    assert c !in t by {
      assert forall k :: 0 <= k < |t| ==> t[k] == s[|s| - |t| + k];
    }
    assert forall k :: 0 <= k < |Strip(s)| ==> Strip(s)[k] == t[k];
  }

  /** Whitespace in front of a string does not change what `strip()` returns. */
  lemma {:induction false} StripSkipsLeadingSpace(w: string, s: string)
    requires forall k :: 0 <= k < |w| ==> IsSpace(w[k])
    ensures TrimLeft(w + s) == TrimLeft(s)
    ensures Strip(w + s) == Strip(s)
  {
    if w != [] {
      assert (w + s)[0] == w[0];
      assert (w + s)[1..] == w[1..] + s;
      StripSkipsLeadingSpace(w[1..], s);
    } else {
      assert w + s == s;
    }
  }

  /** Length of the leading run of non-whitespace characters. */
  function TokenLength(s: string): (n: nat)
    ensures n <= |s| && NoSpace(s[..n])
    ensures n < |s| ==> IsSpace(s[n])
  {
    if s == [] || IsSpace(s[0]) then 0 else 1 + TokenLength(s[1..])
  }

  /** A non-whitespace run followed by whitespace or the end is read whole. */
  lemma {:induction false} TokenLengthAtSpace(t: string, s: string)
    requires NoSpace(t)
    requires s == [] || IsSpace(s[0])
    ensures TokenLength(t + s) == |t|
  {
    if t == [] {
      assert t + s == s;
    } else {
      assert (t + s)[0] == t[0];
      assert (t + s)[1..] == t[1..] + s;
      TokenLengthAtSpace(t[1..], s);
    }
  }

  /** `s.split()`: the maximal runs of non-whitespace characters, in order. */
  function Words(s: string): (ws: seq<string>)
    decreases |s|
  {
    var t := TrimLeft(s);
    if t == [] then []
    else
      var n := TokenLength(t);
      [t[..n]] + Words(t[n..])
  }

  /** Every word `split()` returns is non-empty and free of whitespace. */
  lemma {:induction false} WordsAreTokens(s: string)
    ensures forall k :: 0 <= k < |Words(s)| ==> Words(s)[k] != [] && NoSpace(Words(s)[k])
    decreases |s|
  {
    var t := TrimLeft(s);
    if t != [] {
      var n := TokenLength(t);
      var rest := Words(t[n..]);
      WordsAreTokens(t[n..]);
      assert Words(s) == [t[..n]] + rest;
      forall k | 0 <= k < |Words(s)|
        ensures Words(s)[k] != [] && NoSpace(Words(s)[k])
      {
        if k > 0 {
          assert Words(s)[k] == rest[k - 1];
        }
      }
    }
  }

  /** Whitespace in front of a string adds no word. */
  lemma WordsSkipLeadingSpace(w: string, s: string)
    requires forall k :: 0 <= k < |w| ==> IsSpace(w[k])
    ensures Words(w + s) == Words(s)
  {
    StripSkipsLeadingSpace(w, s);
  }

  /** A run of non-whitespace ending at whitespace or at the end of the text is
      one whole word: `split()` takes maximal runs and loses no character. */
  lemma WordsLeadingToken(t: string, s: string)
    requires t != [] && NoSpace(t)
    requires s == [] || IsSpace(s[0])
    ensures Words(t + s) == [t] + Words(s)
  {
    var u := t + s;
    assert u[0] == t[0];
    assert TrimLeft(u) == u;
    TokenLengthAtSpace(t, s);
    assert u[..|t|] == t && u[|t|..] == s;
  }

  /** `s.split(c)[0]`: the text before the first `c`, or all of `s` when it has none. */
  function BeforeFirst(s: string, c: char): (r: string)
    ensures |r| <= |s| && r == s[..|r|]
    ensures c !in r
    ensures |r| < |s| ==> s[|r|] == c
  {
    if s == [] || s[0] == c then [] else [s[0]] + BeforeFirst(s[1..], c)
  }

  /** `s.split(c)[-1]`: the text after the last `c`, or all of `s` when it has none. */
  function AfterLast(s: string, c: char): (r: string)
    ensures |r| <= |s| && r == s[|s| - |r|..]
    ensures c !in r
    ensures |r| < |s| ==> s[|s| - |r| - 1] == c
  {
    if s == [] then []
    else if s[|s| - 1] == c then []
    else AfterLast(s[..|s| - 1], c) + [s[|s| - 1]]
  }

  /** The text before the first `c` of `a + [c] + b`, when `a` has none, is `a`. */
  lemma BeforeFirstAt(a: string, c: char, b: string)
    requires c !in a
    ensures BeforeFirst(a + [c] + b, c) == a
  {
    var s := a + [c] + b;
    assert s[|a|] == c;
    assert s[..|a|] == a;
  }

  /** The text after the last `c` of `a + [c] + b`, when `b` has none, is `b`. */
  lemma AfterLastAt(a: string, c: char, b: string)
    requires c !in b
    ensures AfterLast(a + [c] + b, c) == b
  {
    var s := a + [c] + b;
    assert s[|a|] == c;
    assert s[|a| + 1..] == b;
  }

  /** `[f(x) for x in s]`, built one element at a time. */
  function Map<A, B>(f: A -> B, s: seq<A>): seq<B> {
    if s == [] then [] else Map(f, s[..|s| - 1]) + [f(s[|s| - 1])]
  }

  lemma MapSnoc<A, B>(f: A -> B, s: seq<A>, x: A)
    ensures Map(f, s + [x]) == Map(f, s) + [f(x)]
  {
    assert (s + [x])[..|s|] == s;
  }

  /** The `k`-th result is `f` of the `k`-th element. */
  lemma {:induction false} MapIndex<A, B>(f: A -> B, s: seq<A>)
    ensures |Map(f, s)| == |s|
    ensures forall k :: 0 <= k < |s| ==> Map(f, s)[k] == f(s[k])
  {
    if s != [] {
      var p := s[..|s| - 1];
      MapIndex(f, p);
      assert forall k :: 0 <= k < |p| ==> p[k] == s[k];
    }
  }

  /** `''.join(parts)` */
  function Concat(parts: seq<string>): string {
    if parts == [] then [] else parts[0] + Concat(parts[1..])
  }
}
