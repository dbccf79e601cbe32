/**
 * `build_vocabulary` of Programming_Assignment_3.py: the words of every line,
 * gathered with `extend` and returned as `sorted(set(vocabulary))`.
 */
module Vocabulary {
  import opened Options
  import opened LineParser

  /** Python's `<` on `str`: code points compared left to right, a proper prefix first. */
  predicate Less(a: string, b: string): (r: bool)
    ensures r ==> b != []
    ensures |a| < |b| && a == b[..|a|] ==> r
    decreases |a|
  {
    if a == [] then b != []
    else if b == [] then false
    else a[0] < b[0] || (a[0] == b[0] && Less(a[1..], b[1..]))
  }

  lemma {:induction false} LessIrreflexive(a: string)
    ensures !Less(a, a)
    decreases |a|
  {
    if a != [] {
      LessIrreflexive(a[1..]);
    }
  }

  lemma {:induction false} LessTransitive(a: string, b: string, c: string)
    requires Less(a, b) && Less(b, c)
    ensures Less(a, c)
    decreases |a|
  {
    if a != [] && a[0] == b[0] && b[0] == c[0] {
      LessTransitive(a[1..], b[1..], c[1..]);
    }
  }

  /** Any two different strings are ordered one way or the other. */
  lemma {:induction false} LessTotal(a: string, b: string)
    ensures a == b || Less(a, b) || Less(b, a)
    decreases |a|
  {
    if a != [] && b != [] && a[0] == b[0] {
      LessTotal(a[1..], b[1..]);
      if a[1..] == b[1..] {
        assert a == [a[0]] + a[1..] && b == [b[0]] + b[1..];
      }
    }
  }

  /** Sorted with no repeats. */
  predicate Increasing(s: seq<string>) {
    forall i, j :: 0 <= i < j < |s| ==> Less(s[i], s[j])
  }

  /** Put `w` into its place in a sorted list, unless it is there already. */
  function Insert(s: seq<string>, w: string): (r: seq<string>)
    requires Increasing(s)
    ensures Increasing(r)
    ensures forall x :: x in r <==> x in s || x == w
  {
    if s == [] then [w]
    else if w == s[0] then s
    else if Less(w, s[0]) then
      assert forall j :: 0 < j < |s| ==> Less(w, s[j]) by {
        forall j | 0 < j < |s|
          ensures Less(w, s[j])
        {
          LessTransitive(w, s[0], s[j]);
        }
      }
      [w] + s
    else
      LessTotal(w, s[0]);
      var rest := Insert(s[1..], w);
      assert forall x :: x in rest ==> Less(s[0], x) by {
        forall x | x in rest
          ensures Less(s[0], x)
        {
          if x != w {
            var j :| 0 <= j < |s[1..]| && s[1..][j] == x;
            assert s[j + 1] == x;
          }
        }
      }
      assert forall x :: x in s ==> x == s[0] || x in s[1..] by {
        assert s == [s[0]] + s[1..];
      }
      [s[0]] + rest
  }

  /** `sorted(set(ws))`: the distinct words of `ws` in increasing order. */
  function SortedSet(ws: seq<string>): (r: seq<string>)
    ensures Increasing(r)
    ensures forall x :: x in r <==> x in ws
  {
    if ws == [] then []
    else
      var n := |ws| - 1;
      assert ws == ws[..n] + [ws[n]];
      Insert(SortedSet(ws[..n]), ws[n])
  }

  /** When every word of `a` is in `b`, `a` cannot start below `b`'s first word. */
  lemma {:induction false} HeadNotBelow(a: seq<string>, b: seq<string>)
    requires Increasing(b) && a != [] && b != []
    requires forall x :: x in a ==> x in b
    ensures !Less(a[0], b[0])
  {
    if Less(a[0], b[0]) {
      assert a[0] in a;
      var j :| 0 <= j < |b| && b[j] == a[0];
      LessIrreflexive(a[0]);
      if j > 0 {
        assert Less(b[0], b[j]);
        LessTransitive(a[0], b[0], a[0]);
      }
    }
  }

  lemma EmptyTogether(a: seq<string>, b: seq<string>)
    requires forall x :: x in a <==> x in b
    ensures a == [] <==> b == []
  {
    if a != [] {
      assert a[0] in a;
    }
    if b != [] {
      assert b[0] in b;
    }
  }

  /** There is one sorted repeat-free list of a given set of words, so `SortedSet` is the only answer. */
  lemma {:induction false} IncreasingUnique(a: seq<string>, b: seq<string>)
    requires Increasing(a) && Increasing(b)
    requires forall x :: x in a <==> x in b
    ensures a == b
    decreases |a|
  {
    if a != [] && b != [] {
      HeadNotBelow(a, b);
      HeadNotBelow(b, a);
      LessTotal(a[0], b[0]);
      forall x
        ensures x in a[1..] <==> x in b[1..]
      {
        if x in a[1..] {
          var j :| 0 <= j < |a[1..]| && a[1..][j] == x;
          assert Less(a[0], a[j + 1]);
          LessIrreflexive(x);
          assert x != b[0];
          assert x in b;
          assert b == [b[0]] + b[1..];
        }
        if x in b[1..] {
          var j :| 0 <= j < |b[1..]| && b[1..][j] == x;
          assert Less(b[0], b[j + 1]);
          LessIrreflexive(x);
          assert x != a[0];
          assert x in a;
          assert a == [a[0]] + a[1..];
        }
      }
      IncreasingUnique(a[1..], b[1..]);
      assert a == [a[0]] + a[1..] && b == [b[0]] + b[1..];
    } else {
      EmptyTogether(a, b);
    }
  }

  /** `w` is a word of one of the first `n` lines (all of which parse). */
  ghost predicate OccursBefore(lines: seq<string>, n: nat, w: string)
    requires n <= |lines|
  {
    exists k :: 0 <= k < n && ParseLine(lines[k]).Some? && w in ParseLine(lines[k]).value.words
  }

  /**
   * `build_vocabulary(filename)` over the file's lines: `None` when some line
   * makes `parse_line` raise; otherwise every word of every line, sorted,
   * each once.
   */
  method BuildVocabulary(lines: seq<string>) returns (r: Option<seq<string>>)
    ensures r.None? <==> exists i :: 0 <= i < |lines| && ParseLine(lines[i]).None?
    ensures r.Some? ==> Increasing(r.value)
    ensures r.Some? ==> forall w :: w in r.value <==> OccursBefore(lines, |lines|, w)
  {
    var vocabulary: seq<string> := [];
    for i := 0 to |lines|
      invariant forall k :: 0 <= k < i ==> ParseLine(lines[k]).Some?
      invariant forall w :: w in vocabulary <==> OccursBefore(lines, i, w)
    {
      var parsed := ParseLine(lines[i]);
      if parsed.None? {
        return None;
      }
      assert forall k :: 0 <= k < i + 1 ==> ParseLine(lines[k]).Some? by {
        forall k | 0 <= k < i + 1
          ensures ParseLine(lines[k]).Some?
        {
          if k == i {
            assert ParseLine(lines[k]) == parsed;
          }
        }
      }
      vocabulary := vocabulary + parsed.value.words;
      forall w
        ensures w in vocabulary <==> OccursBefore(lines, i + 1, w)
      {
        if w in parsed.value.words {
          assert OccursBefore(lines, i + 1, w);
        }
        if OccursBefore(lines, i + 1, w) {
          var k :| 0 <= k < i + 1 && ParseLine(lines[k]).Some? && w in ParseLine(lines[k]).value.words;
          if k < i {
            assert OccursBefore(lines, i, w);
          }
        }
      }
    }
    r := Some(SortedSet(vocabulary));
  }
}
