/** Splitting a payload into tokens the way Python's `bytes.split()` with no
    separator does: runs of ASCII whitespace separate tokens, leading and
    trailing whitespace yields no empty token, and every token is a maximal
    run of non-whitespace bytes. */
module WhitespaceSplit {

  newtype byte = b: int | 0 <= b < 256

  /** ASCII whitespace: tab, line feed, vertical tab, form feed, carriage
      return (9 to 13) and space (32). */
  predicate IsSpace(b: byte) {
    b == 32 || 9 <= b <= 13
  }

  predicate AllSpace(s: seq<byte>) {
    forall i :: 0 <= i < |s| ==> IsSpace(s[i])
  }

  predicate NoSpace(s: seq<byte>) {
    forall i :: 0 <= i < |s| ==> !IsSpace(s[i])
  }

  /** A token: a non-empty run of non-whitespace bytes. */
  predicate IsToken(t: seq<byte>) {
    |t| > 0 && NoSpace(t)
  }

  /** The length of the whitespace run that starts `s`. */
  function SpaceRun(s: seq<byte>): (n: nat)
    ensures n <= |s|
    ensures forall i :: 0 <= i < n ==> IsSpace(s[i])
    ensures n == |s| || !IsSpace(s[n])
  {
    if s != [] && IsSpace(s[0]) then 1 + SpaceRun(s[1..]) else 0
  }

  /** The length of the non-whitespace run that starts `s`. */
  function WordRun(s: seq<byte>): (n: nat)
    ensures n <= |s|
    ensures forall i :: 0 <= i < n ==> !IsSpace(s[i])
    ensures n == |s| || IsSpace(s[n])
  {
    if s != [] && !IsSpace(s[0]) then 1 + WordRun(s[1..]) else 0
  }

  /** The token list of a payload. */
  function Split(s: seq<byte>): (toks: seq<seq<byte>>)
    ensures forall i :: 0 <= i < |toks| ==> IsToken(toks[i])
    decreases |s|
  {
    var a := SpaceRun(s);
    if a == |s| then []
    else
      var t := s[a..];
      var n := WordRun(t);
      [t[..n]] + Split(t[n..])
  }

  /** The non-whitespace bytes of `s`, in order. */
  function NonSpace(s: seq<byte>): seq<byte> {
    if s == [] then []
    else (if IsSpace(s[0]) then [] else [s[0]]) + NonSpace(s[1..])
  }

  /** The tokens glued back together. */
  function Concat(toks: seq<seq<byte>>): seq<byte> {
    if toks == [] then [] else toks[0] + Concat(toks[1..])
  }

  /** `gaps` can surround `n` tokens: one gap before each token and one
      after the last, all of them whitespace, and the gaps between two
      tokens non-empty. */
  predicate IsLayout(gaps: seq<seq<byte>>, n: nat) {
    |gaps| == n + 1 &&
    (forall i :: 0 <= i < |gaps| ==> AllSpace(gaps[i])) &&
    (forall i :: 0 < i < n ==> gaps[i] != [])
  }

  /** The payload that interleaves the gaps with the tokens. */
  function Layout(gaps: seq<seq<byte>>, toks: seq<seq<byte>>): seq<byte>
    requires |gaps| == |toks| + 1
  {
    if toks == [] then gaps[0]
    else gaps[0] + (toks[0] + Layout(gaps[1..], toks[1..]))
  }

  lemma {:induction false} NonSpaceAppend(a: seq<byte>, b: seq<byte>)
    ensures NonSpace(a + b) == NonSpace(a) + NonSpace(b)
  {
    if a == [] {
      assert a + b == b;
    } else {
      assert (a + b)[1..] == a[1..] + b;
      NonSpaceAppend(a[1..], b);
    }
  }

  lemma {:induction false} NonSpaceOfSpace(s: seq<byte>)
    requires AllSpace(s)
    ensures NonSpace(s) == []
  {
    if s != [] {
      NonSpaceOfSpace(s[1..]);
    }
  }

  lemma {:induction false} NonSpaceOfWord(s: seq<byte>)
    requires NoSpace(s)
    ensures NonSpace(s) == s
  {
    if s != [] {
      NonSpaceOfWord(s[1..]);
      assert s == [s[0]] + s[1..];
    }
  }

  /** The non-whitespace bytes of `s` are those after its first
      whitespace run. */
  lemma NonSpaceAfterRun(s: seq<byte>, a: nat)
    requires a <= |s| && forall i :: 0 <= i < a ==> IsSpace(s[i])
    ensures NonSpace(s) == NonSpace(s[a..])
  {
    assert s == s[..a] + s[a..];
    NonSpaceAppend(s[..a], s[a..]);
    NonSpaceOfSpace(s[..a]);
  }

  /** A run of non-whitespace bytes passes through NonSpace unchanged. */
  lemma NonSpaceOfRun(s: seq<byte>, b: nat)
    requires b <= |s| && forall i :: 0 <= i < b ==> !IsSpace(s[i])
    ensures NonSpace(s) == s[..b] + NonSpace(s[b..])
  {
    assert s == s[..b] + s[b..];
    NonSpaceAppend(s[..b], s[b..]);
    NonSpaceOfWord(s[..b]);
  }

  /** One unfolding of Split, named so that SplitConcat can use it with the
      slices bound to variables: the first token is the word after the
      leading whitespace, and splitting resumes after that word. */
  lemma SplitStep(s: seq<byte>, t: seq<byte>, n: nat)
    requires SpaceRun(s) < |s| && t == s[SpaceRun(s)..] && n == WordRun(t)
    ensures Split(s) == [t[..n]] + Split(t[n..])
  {
  }

  /** Splitting loses no non-whitespace byte and keeps their order: the
      tokens, glued back together, are the payload with its whitespace
      removed. */
  lemma {:induction false} SplitConcat(s: seq<byte>)
    ensures Concat(Split(s)) == NonSpace(s)
    decreases |s|
  {
    var a := SpaceRun(s);
    NonSpaceAfterRun(s, a);
    if a < |s| {
      var t := s[a..];
      var n := WordRun(t);
      SplitStep(s, t, n);
      NonSpaceOfRun(t, n);
      SplitConcat(t[n..]);
      var toks := Split(s);
      assert toks[0] == t[..n] && toks[1..] == Split(t[n..]);
    } else {
      assert s[a..] == [];
    }
  }

  lemma {:induction false} SpaceRunOfGap(gap: seq<byte>, x: seq<byte>)
    requires AllSpace(gap)
    requires x == [] || !IsSpace(x[0])
    ensures SpaceRun(gap + x) == |gap|
  {
    if gap == [] {
      assert gap + x == x;
    } else {
      assert (gap + x)[1..] == gap[1..] + x;
      SpaceRunOfGap(gap[1..], x);
    }
  }

  lemma {:induction false} WordRunOfToken(t: seq<byte>, rest: seq<byte>)
    requires NoSpace(t)
    requires rest == [] || IsSpace(rest[0])
    ensures WordRun(t + rest) == |t|
  {
    if t == [] {
      assert t + rest == rest;
    } else {
      assert (t + rest)[1..] == t[1..] + rest;
      WordRunOfToken(t[1..], rest);
    }
  }

  lemma SplitOfGap(gap: seq<byte>)
    requires AllSpace(gap)
    ensures Split(gap) == []
  {
    SpaceRunOfGap(gap, []);
    assert gap + [] == gap;
  }

  /** A token preceded by whitespace and followed by nothing or by
      whitespace comes out first, and splitting resumes after it. */
  lemma SplitCons(gap: seq<byte>, tok: seq<byte>, rest: seq<byte>)
    requires AllSpace(gap) && IsToken(tok)
    requires rest == [] || IsSpace(rest[0])
    ensures Split(gap + (tok + rest)) == [tok] + Split(rest)
  {
    var s := gap + (tok + rest);
    SpaceRunOfGap(gap, tok + rest);
    var a := |gap|;
    assert s[a..] == tok + rest;
    WordRunOfToken(tok, rest);
    var b := a + |tok|;
    assert s[a..b] == tok;
    assert s[b..] == rest;
  }

  /** Splitting inverts any layout of a token list: tokens separated by
      any non-empty whitespace, with any whitespace before the first and
      after the last, come back exactly. */
  lemma {:induction false} SplitLayout(gaps: seq<seq<byte>>, toks: seq<seq<byte>>)
    requires IsLayout(gaps, |toks|)
    requires forall i :: 0 <= i < |toks| ==> IsToken(toks[i])
    ensures Split(Layout(gaps, toks)) == toks
  {
    if toks == [] {
      SplitOfGap(gaps[0]);
    } else {
      var rest := Layout(gaps[1..], toks[1..]);
      assert rest == [] || IsSpace(rest[0]) by {
        if toks[1..] != [] {
          assert gaps[1..][0] == gaps[1] && gaps[1] != [];
          assert rest[0] == gaps[1][0];
        }
      }
      SplitCons(gaps[0], toks[0], rest);
      SplitLayout(gaps[1..], toks[1..]);
      assert toks == [toks[0]] + toks[1..];
    }
  }

  /** Tokens joined by single spaces, as a one-line body of the table is
      written. */
  function Join(toks: seq<seq<byte>>): seq<byte> {
    if toks == [] then []
    else if |toks| == 1 then toks[0]
    else toks[0] + ([32] + Join(toks[1..]))
  }

  /** Splitting inverts joining by single spaces, whatever whitespace
      precedes the joined tokens. */
  lemma {:induction false} SplitJoin(gap: seq<byte>, toks: seq<seq<byte>>)
    requires AllSpace(gap)
    requires forall i :: 0 <= i < |toks| ==> IsToken(toks[i])
    ensures Split(gap + Join(toks)) == toks
    decreases |toks|
  {
    if toks == [] {
      assert gap + [] == gap;
      SplitOfGap(gap);
    } else if |toks| == 1 {
      assert gap + Join(toks) == gap + (toks[0] + []);
      SplitCons(gap, toks[0], []);
      SplitOfGap([]);
    } else {
      var rest := [32] + Join(toks[1..]);
      assert gap + Join(toks) == gap + (toks[0] + rest);
      SplitCons(gap, toks[0], rest);
      SplitJoin([32], toks[1..]);
      assert toks == [toks[0]] + toks[1..];
    }
  }
}
