/**
 * The string primitives `parse_line` of Programming_Assignment_3.py relies
 * on, over ASCII text: whitespace as `str.isspace` sees it, `rstrip()`,
 * `split()` without a separator, deleting characters with `translate`, and
 * `lower()`.
 */
module TextTokens {

  /** ASCII whitespace for `str.split()`/`str.rstrip()`: space, `\t` to `\r`, and the separators 0x1c to 0x1f. */
  predicate IsSpace(c: char): (b: bool)
    ensures b ==> c as int < 128 && !IsPunctuation(c) && !IsDigit(c) && !IsUpper(c)
  {
    c == ' ' || (9 <= c as int <= 13) || (0x1c <= c as int <= 0x1f)
  }

  /** `string.punctuation`: the 32 ASCII characters !"#$%&'()*+,-./:;<=>?@[\]^_`{|}~ */
  predicate IsPunctuation(c: char): (b: bool)
    ensures b ==> c as int < 128 && !IsDigit(c) && !IsUpper(c)
  {
    (33 <= c as int <= 47) || (58 <= c as int <= 64) || (91 <= c as int <= 96) || (123 <= c as int <= 126)
  }

  /** The ten ASCII digits `"0123456789"`. */
  predicate IsDigit(c: char): (b: bool)
    ensures b ==> c as int < 128 && !IsUpper(c)
  {
    '0' <= c <= '9'
  }

  predicate IsUpper(c: char) { 'A' <= c <= 'Z' }

  predicate AllSpace(s: string) {
    forall i :: 0 <= i < |s| ==> IsSpace(s[i])
  }

  /** A non-empty run of non-whitespace characters. */
  predicate IsWord(w: string) {
    |w| > 0 && forall i :: 0 <= i < |w| ==> !IsSpace(w[i])
  }

  /** `s.rstrip()`: the longest prefix not ending in whitespace, with only whitespace after it. */
  function RStrip(s: string): (r: string)
    ensures |r| <= |s| && r == s[..|r|]
    ensures r == [] || !IsSpace(r[|r| - 1])
    ensures AllSpace(s[|r|..])
  {
    if s == [] || !IsSpace(s[|s| - 1]) then s
    else
      var r := RStrip(s[..|s| - 1]);
      assert s[|r|..] == s[..|s| - 1][|r|..] + [s[|s| - 1]];
      r
  }

  /** The length of the word `s` starts with. */
  function WordLength(s: string): (n: nat)
    requires s != [] && !IsSpace(s[0])
    ensures 1 <= n <= |s|
    ensures forall i :: 0 <= i < n ==> !IsSpace(s[i])
    ensures n == |s| || IsSpace(s[n])
  {
    if |s| == 1 || IsSpace(s[1]) then 1 else 1 + WordLength(s[1..])
  }

  /** `s.split()`: the maximal whitespace-free runs of `s`, in order (`SplitWeave`, `WeaveSplits`). */
  function Split(s: string): (r: seq<string>)
    ensures forall k :: 0 <= k < |r| ==> IsWord(r[k])
    decreases |s|
  {
    if s == [] then []
    else if IsSpace(s[0]) then Split(s[1..])
    else [s[..WordLength(s)]] + Split(s[WordLength(s)..])
  }

  /** Each word is made of characters of `s`. */
  lemma {:induction false} SplitChars(s: string)
    ensures forall k, c :: 0 <= k < |Split(s)| && c in Split(s)[k] ==> c in s
    decreases |s|
  {
    if s != [] {
      if IsSpace(s[0]) {
        SplitChars(s[1..]);
        assert forall c :: c in s[1..] ==> c in s;
      } else {
        var n := WordLength(s);
        SplitChars(s[n..]);
        assert forall c :: c in s[..n] || c in s[n..] ==> c in s;
        assert Split(s) == [s[..n]] + Split(s[n..]);
        forall k, c | 0 <= k < |Split(s)| && c in Split(s)[k]
          ensures c in s
        {
          if k > 0 {
            assert Split(s)[k] == Split(s[n..])[k - 1];
          }
        }
      }
    }
  }

  /** `s.translate(...)` with a deletion table: the characters of `s` that `drop` does not reject, in order. */
  function Delete(s: string, drop: char -> bool): (r: string)
    ensures |r| <= |s|
    ensures forall i :: 0 <= i < |r| ==> r[i] in s && !drop(r[i])
  {
    if s == [] then [] else Delete(s[..|s| - 1], drop) + (if drop(s[|s| - 1]) then [] else [s[|s| - 1]])
  }

  /** `idx` picks out of `s`, in increasing order, exactly the positions whose character `drop` does not reject, and `r` is what it picks. */
  ghost predicate Keeps(s: string, drop: char -> bool, r: string, idx: seq<nat>) {
    && |idx| == |r|
    && (forall k :: 0 <= k < |idx| ==> idx[k] < |s| && r[k] == s[idx[k]])
    && (forall k, l :: 0 <= k < l < |idx| ==> idx[k] < idx[l])
    && (forall j :: 0 <= j < |s| && !drop(s[j]) ==> j in idx)
  }

  /** The selection for `s` extends the one for all but its last character, by that character's position when it is kept. */
  ghost function KeptAfter(s: string, drop: char -> bool, prev: seq<nat>): seq<nat>
    requires s != []
  {
    if drop(s[|s| - 1]) then prev else prev + [|s| - 1]
  }

  lemma KeptPicks(s: string, drop: char -> bool, prev: seq<nat>)
    requires s != [] && Keeps(s[..|s| - 1], drop, Delete(s[..|s| - 1], drop), prev)
    ensures var idx := KeptAfter(s, drop, prev);
            && |idx| == |Delete(s, drop)|
            && forall k :: 0 <= k < |idx| ==> idx[k] < |s| && Delete(s, drop)[k] == s[idx[k]]
  {
    var n := |s| - 1;
    var front := s[..n];
    var r0 := Delete(front, drop);
    var r := Delete(s, drop);
    var idx := KeptAfter(s, drop, prev);
    assert r == r0 + (if drop(s[n]) then [] else [s[n]]);
    forall k | 0 <= k < |idx|
      ensures idx[k] < |s| && r[k] == s[idx[k]]
    {
      if k < |prev| {
        assert r[k] == r0[k] == front[prev[k]];
      }
    }
  }

  lemma KeptComplete(s: string, drop: char -> bool, prev: seq<nat>)
    requires s != [] && Keeps(s[..|s| - 1], drop, Delete(s[..|s| - 1], drop), prev)
    ensures forall j :: 0 <= j < |s| && !drop(s[j]) ==> j in KeptAfter(s, drop, prev)
  {
    var n := |s| - 1;
    var idx := KeptAfter(s, drop, prev);
    forall j | 0 <= j < |s| && !drop(s[j])
      ensures j in idx
    {
      if j < n {
        assert s[..n][j] == s[j];
        assert j in prev;
      } else {
        assert idx[|prev|] == n;
      }
    }
  }

  /** Deleting keeps the order and the multiplicity of the characters it does not reject, and drops every other. */
  lemma {:induction false} DeleteKeepsOrder(s: string, drop: char -> bool) returns (idx: seq<nat>)
    ensures Keeps(s, drop, Delete(s, drop), idx)
    decreases |s|
  {
    if s == [] {
      idx := [];
    } else {
      var prev := DeleteKeepsOrder(s[..|s| - 1], drop);
      idx := KeptAfter(s, drop, prev);
      KeptPicks(s, drop, prev);
      KeptComplete(s, drop, prev);
    }
  }

  /** A character survives deletion exactly when it occurs and is not rejected. */
  lemma DeleteMembers(s: string, drop: char -> bool, c: char)
    ensures c in Delete(s, drop) <==> c in s && !drop(c)
  {
    var idx := DeleteKeepsOrder(s, drop);
    if c in s && !drop(c) {
      var j :| 0 <= j < |s| && s[j] == c;
      assert j in idx;
      var k :| 0 <= k < |idx| && idx[k] == j;
      assert Delete(s, drop)[k] == c;
    }
  }

  function LowerChar(c: char): (d: char)
    ensures !IsUpper(d)
    ensures IsUpper(c) ==> d as int == c as int + 32
    ensures !IsUpper(c) ==> d == c
  {
    if IsUpper(c) then (c as int + 32) as char else c
  }

  /** `s.lower()` restricted to ASCII: each capital letter becomes its small letter, everything else stays. */
  function Lower(s: string): (r: string)
    ensures |r| == |s|
    ensures forall i :: 0 <= i < |s| ==> r[i] == LowerChar(s[i])
  {
    if s == [] then [] else [LowerChar(s[0])] + Lower(s[1..])
  }

  // ---------------------------------------------------------------------
  // How `split` treats concatenations.

  lemma {:induction false} SplitAllSpace(s: string)
    requires AllSpace(s)
    ensures Split(s) == []
    decreases |s|
  {
    if s != [] {
      SplitAllSpace(s[1..]);
    }
  }

  /** The word `a` starts with is unchanged by what follows, once it has ended inside `a` or the continuation starts with whitespace. */
  lemma {:induction false} WordLengthExtend(a: string, x: string)
    requires a != [] && !IsSpace(a[0])
    requires WordLength(a) < |a| || x == [] || IsSpace(x[0])
    ensures WordLength(a + x) == WordLength(a)
    decreases |a|
  {
    if |a| > 1 && !IsSpace(a[1]) {
      assert (a + x)[1..] == a[1..] + x;
      WordLengthExtend(a[1..], x);
    }
  }

  /** Trailing whitespace adds no word. */
  lemma {:induction false} SplitAppendSpace(a: string, b: string)
    requires AllSpace(b)
    ensures Split(a + b) == Split(a)
    decreases |a|
  {
    if a == [] {
      assert a + b == b;
      SplitAllSpace(b);
    } else if IsSpace(a[0]) {
      assert (a + b)[1..] == a[1..] + b;
      SplitAppendSpace(a[1..], b);
    } else {
      WordLengthExtend(a, b);
      var n := WordLength(a);
      assert (a + b)[..n] == a[..n];
      assert (a + b)[n..] == a[n..] + b;
      SplitAppendSpace(a[n..], b);
    }
  }

  /** A word on its own splits into itself. */
  lemma SplitWord(w: string)
    requires IsWord(w)
    ensures Split(w) == [w]
  {
    assert WordLength(w) == |w|;
    assert w[..|w|] == w;
    assert Split(w[|w|..]) == [];
  }

  /** A word appended after whitespace (or to nothing) becomes the last word. */
  lemma {:induction false} SplitAppendWord(a: string, w: string)
    requires a == [] || IsSpace(a[|a| - 1])
    requires IsWord(w)
    ensures Split(a + w) == Split(a) + [w]
    decreases |a|
  {
    if a == [] {
      assert a + w == w;
      SplitWord(w);
    } else if IsSpace(a[0]) {
      var rest := a[1..];
      assert (a + w)[1..] == rest + w;
      assert Split(a + w) == Split(rest + w) && Split(a) == Split(rest);
      SplitAppendWord(rest, w);
    } else {
      var n := WordLength(a);
      assert n < |a|;
      WordLengthExtend(a, w);
      var rest := a[n..];
      assert (a + w)[..n] == a[..n];
      assert (a + w)[n..] == rest + w;
      assert Split(a + w) == [a[..n]] + Split(rest + w) && Split(a) == [a[..n]] + Split(rest);
      SplitAppendWord(rest, w);
    }
  }

  /** `g0 + w0 + g1 + w1 + … + w(n-1) + gn`: the words `ws` woven between the gaps `gs`. */
  function Weave(gs: seq<string>, ws: seq<string>): string
    requires |gs| == |ws| + 1
    decreases |ws|
  {
    if ws == [] then gs[0] else gs[0] + ws[0] + Weave(gs[1..], ws[1..])
  }

  /** `gs` are whitespace gaps, and the ones between two words are not empty. */
  predicate Gaps(gs: seq<string>) {
    && (forall k :: 0 <= k < |gs| ==> AllSpace(gs[k]))
    && (forall k :: 0 < k < |gs| - 1 ==> gs[k] != [])
  }

  /** A gap put in front of a weave joins its first gap. */
  lemma WeaveFront(x: string, gs: seq<string>, ws: seq<string>)
    requires |gs| == |ws| + 1
    ensures Weave([x + gs[0]] + gs[1..], ws) == x + Weave(gs, ws)
  {
    var gs' := [x + gs[0]] + gs[1..];
    assert gs'[0] == x + gs[0] && gs'[1..] == gs[1..];
  }

  /** A leading whitespace character joins the first gap. */
  lemma WeaveSpaceStep(s: string, gs0: seq<string>) returns (gs: seq<string>)
    requires s != [] && IsSpace(s[0])
    requires |gs0| == |Split(s[1..])| + 1 && Gaps(gs0) && Weave(gs0, Split(s[1..])) == s[1..]
    ensures |gs| == |Split(s)| + 1 && Gaps(gs)
    ensures Weave(gs, Split(s)) == s
  {
    gs := [[s[0]] + gs0[0]] + gs0[1..];
    WeaveFront([s[0]], gs0, Split(s[1..]));
    assert [s[0]] + s[1..] == s;
    assert AllSpace(gs[0]) by {
      assert AllSpace(gs0[0]);
      assert forall i :: 0 < i < |gs[0]| ==> gs[0][i] == gs0[0][i - 1];
    }
    assert forall k :: 0 < k < |gs| ==> gs[k] == gs0[k];
  }

  lemma WeaveCons(g: string, w: string, gs: seq<string>, ws: seq<string>)
    requires |gs| == |ws| + 1
    ensures Weave([g] + gs, [w] + ws) == g + w + Weave(gs, ws)
  {
    assert ([g] + gs)[1..] == gs && ([w] + ws)[1..] == ws;
  }

  /** A weave starts with its first gap, or with its first word when that gap is empty. */
  lemma WeaveFirst(gs: seq<string>, ws: seq<string>)
    requires |gs| == |ws| + 1 && ws != [] && ws[0] != []
    ensures |Weave(gs, ws)| > 0
    ensures Weave(gs, ws)[0] == if gs[0] == [] then ws[0][0] else gs[0][0]
  {
  }

  /** An empty gap in front keeps the gaps between words non-empty when the old first gap was. */
  lemma GapsAfterEmpty(gs: seq<string>)
    requires Gaps(gs) && (|gs| > 1 ==> gs[0] != [])
    ensures Gaps([[]] + gs)
  {
    var g := [[]] + gs;
    assert forall k :: 0 < k < |g| ==> g[k] == gs[k - 1];
  }

  /** A word in front of a weave that starts with whitespace (or is empty) becomes its first word, after an empty gap. */
  lemma WeaveWord(w: string, rest: string, gs0: seq<string>, ws0: seq<string>)
    requires IsWord(w) && (rest == [] || IsSpace(rest[0]))
    requires |gs0| == |ws0| + 1 && Gaps(gs0) && Weave(gs0, ws0) == rest
    requires forall k :: 0 <= k < |ws0| ==> IsWord(ws0[k])
    ensures Gaps([[]] + gs0)
    ensures Weave([[]] + gs0, [w] + ws0) == w + rest
  {
    if ws0 != [] {
      WeaveFirst(gs0, ws0);
      assert IsWord(ws0[0]);
    }
    GapsAfterEmpty(gs0);
    WeaveCons([], w, gs0, ws0);
    assert [] + w == w;
  }

  /** A leading word becomes the first word, after an empty gap. */
  lemma WeaveWordStep(s: string, gs0: seq<string>) returns (gs: seq<string>)
    requires s != [] && !IsSpace(s[0])
    requires var rest := s[WordLength(s)..];
             |gs0| == |Split(rest)| + 1 && Gaps(gs0) && Weave(gs0, Split(rest)) == rest
    ensures |gs| == |Split(s)| + 1 && Gaps(gs)
    ensures Weave(gs, Split(s)) == s
  {
    var n := WordLength(s);
    var rest := s[n..];
    var w := s[..n];
    gs := [[]] + gs0;
    assert Split(s) == [w] + Split(rest);
    WeaveWord(w, rest, gs0, Split(rest));
    assert w + rest == s;
  }

  /** `split()` loses nothing but whitespace: `s` is its words woven between whitespace gaps, with whitespace between consecutive words. */
  lemma {:induction false} SplitWeave(s: string) returns (gs: seq<string>)
    ensures |gs| == |Split(s)| + 1 && Gaps(gs)
    ensures Weave(gs, Split(s)) == s
    decreases |s|
  {
    if s == [] {
      gs := [[]];
    } else if IsSpace(s[0]) {
      var gs0 := SplitWeave(s[1..]);
      gs := WeaveSpaceStep(s, gs0);
    } else {
      var gs0 := SplitWeave(s[WordLength(s)..]);
      gs := WeaveWordStep(s, gs0);
    }
  }

  /** Whitespace in front adds no word. */
  lemma {:induction false} SplitSkipSpace(a: string, b: string)
    requires AllSpace(a)
    ensures Split(a + b) == Split(b)
    decreases |a|
  {
    if a != [] {
      assert (a + b)[1..] == a[1..] + b;
      SplitSkipSpace(a[1..], b);
    } else {
      assert a + b == b;
    }
  }

  /** A word followed by whitespace (or by nothing) is the first word. */
  lemma SplitWordThen(w: string, rest: string)
    requires IsWord(w) && (rest == [] || IsSpace(rest[0]))
    ensures Split(w + rest) == [w] + Split(rest)
  {
    assert WordLength(w) == |w|;
    WordLengthExtend(w, rest);
    assert (w + rest)[..|w|] == w && (w + rest)[|w|..] == rest;
  }

  /** And only `split()`'s words weave `s` so: words woven between whitespace gaps are exactly what `split()` returns. */
  lemma {:induction false} WeaveSplits(gs: seq<string>, ws: seq<string>)
    requires |gs| == |ws| + 1 && Gaps(gs)
    requires forall k :: 0 <= k < |ws| ==> IsWord(ws[k])
    ensures Split(Weave(gs, ws)) == ws
    decreases |ws|
  {
    if ws == [] {
      SplitAllSpace(gs[0]);
    } else {
      var w := ws[0];
      var rest := Weave(gs[1..], ws[1..]);
      assert Gaps(gs[1..]) by {
        assert forall k :: 0 <= k < |gs| - 1 ==> gs[1..][k] == gs[k + 1];
      }
      WeaveSplits(gs[1..], ws[1..]);
      if |ws| > 1 {
        WeaveFirst(gs[1..], ws[1..]);
        assert gs[1] != [] && AllSpace(gs[1]);
      }
      assert Weave(gs, ws) == gs[0] + (w + rest);
      SplitSkipSpace(gs[0], w + rest);
      SplitWordThen(w, rest);
    }
  }

  // ---------------------------------------------------------------------
  // What deleting and lowering do to whitespace.

  /** Deleting characters a predicate rejects distributes over concatenation. */
  lemma {:induction false} DeleteAppend(a: string, b: string, drop: char -> bool)
    ensures Delete(a + b, drop) == Delete(a, drop) + Delete(b, drop)
    decreases |b|
  {
    if b == [] {
      assert a + b == a;
    } else {
      var n := |b| - 1;
      assert (a + b)[..|a + b| - 1] == a + b[..n];
      DeleteAppend(a, b[..n], drop);
    }
  }

  lemma {:induction false} LowerAppend(a: string, b: string)
    ensures Lower(a + b) == Lower(a) + Lower(b)
  {
  }

  /** Whitespace survives deletion of characters that are not whitespace, and lowering. */
  lemma {:induction false} DeleteKeepsSpace(s: string, drop: char -> bool)
    requires AllSpace(s)
    requires forall c :: IsSpace(c) ==> !drop(c)
    ensures Delete(s, drop) == s
    decreases |s|
  {
    if s != [] {
      var n := |s| - 1;
      var front := s[..n];
      assert AllSpace(front) by {
        assert forall i :: 0 <= i < n ==> front[i] == s[i];
      }
      DeleteKeepsSpace(front, drop);
      assert !drop(s[n]) by {
        assert IsSpace(s[n]);
      }
      assert Delete(s, drop) == Delete(front, drop) + [s[n]];
      assert s == front + [s[n]];
    }
  }

  lemma LowerKeepsSpace(s: string)
    requires AllSpace(s)
    ensures Lower(s) == s
  {
  }
}
