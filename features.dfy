/**
 * The feature records of Programming_Assignment_3.py (`generate_features`)
 * and the integer part of `generate_UDPs`: the split of the records by class
 * label and the count of records in which a word occurs.
 */
module Features {
  import opened Options
  import opened LineParser

  /** One row of features: vocabulary word to `"1"`/`"0"`, plus the class label. */
  type Record = map<string, string>

  const ClassLabel: string := "classlabel"

  /**
   * What lines 26-33 make of one parsed line: a key per vocabulary word and
   * the label key; each word other than `"classlabel"` says whether the
   * line has it; the label key holds the category (it is written last, so a
   * vocabulary word `"classlabel"` is overwritten).
   */
  ghost predicate Describes(rec: Record, vocabulary: seq<string>, p: Parsed) {
    && rec.Keys == (set w | w in vocabulary) + {ClassLabel}
    && rec[ClassLabel] == p.category
    && forall w :: w in vocabulary && w != ClassLabel ==> rec[w] == (if w in p.words then "1" else "0")
  }

  /** The `for word in vocabulary` loop and the label assignment, for one parsed line. */
  method BuildRecord(vocabulary: seq<string>, p: Parsed) returns (record: Record)
    ensures Describes(record, vocabulary, p)
  {
    record := map[];
    for i := 0 to |vocabulary|
      invariant record.Keys == set w | w in vocabulary[..i]
      invariant forall w :: w in vocabulary[..i] ==> record[w] == (if w in p.words then "1" else "0")
    {
      var word := vocabulary[i];
      assert vocabulary[..i + 1] == vocabulary[..i] + [word];
      if word in p.words {
        record := record[word := "1"];
      } else {
        record := record[word := "0"];
      }
    }
    assert vocabulary[..|vocabulary|] == vocabulary;
    record := record[ClassLabel := p.category];
  }

  /**
   * `generate_features` over the input file's lines: one record per line,
   * in order.  `None` when a line makes `parse_line` raise, and when there
   * are no lines at all (the header write at line 37 reads `features[0]`).
   */
  method GenerateFeatures(lines: seq<string>, vocabulary: seq<string>) returns (r: Option<seq<Record>>)
    ensures r.None? <==> |lines| == 0 || exists i :: 0 <= i < |lines| && ParseLine(lines[i]).None?
    ensures r.Some? ==> |r.value| == |lines|
    ensures r.Some? ==> forall i :: 0 <= i < |lines| ==>
              ParseLine(lines[i]).Some? && Describes(r.value[i], vocabulary, ParseLine(lines[i]).value)
  {
    var features: seq<Record> := [];
    for i := 0 to |lines|
      invariant |features| == i
      invariant forall k :: 0 <= k < i ==>
                  ParseLine(lines[k]).Some? && Describes(features[k], vocabulary, ParseLine(lines[k]).value)
    {
      var parsed := ParseLine(lines[i]);
      if parsed.None? {
        return None;
      }
      var record := BuildRecord(vocabulary, parsed.value);
      features := features + [record];
      assert forall k :: 0 <= k < i + 1 ==>
               ParseLine(lines[k]).Some? && Describes(features[k], vocabulary, ParseLine(lines[k]).value) by {
        forall k | 0 <= k < i + 1
          ensures ParseLine(lines[k]).Some? && Describes(features[k], vocabulary, ParseLine(lines[k]).value)
        {
          if k == i {
            assert ParseLine(lines[k]) == parsed && features[k] == record;
          }
        }
      }
    }
    if |features| == 0 {
      return None;
    }
    r := Some(features);
  }

  // ---------------------------------------------------------------------
  // `generate_UDPs`, lines 47-50 and 57-60.

  predicate Labelled(fs: seq<Record>) {
    forall x :: x in fs ==> ClassLabel in x
  }

  /** `[x for x in features if x["classlabel"] != "0"]`. */
  function TrueRecords(fs: seq<Record>): (r: seq<Record>)
    requires Labelled(fs)
    ensures |r| <= |fs|
    ensures forall x :: x in r ==> x in fs
  {
    if fs == [] then []
    else
      var last := fs[|fs| - 1];
      assert forall x :: x in fs[..|fs| - 1] ==> x in fs;
      TrueRecords(fs[..|fs| - 1]) + (if last[ClassLabel] != "0" then [last] else [])
  }

  /** `[x for x in features if x["classlabel"] == "0"]`. */
  function FalseRecords(fs: seq<Record>): (r: seq<Record>)
    requires Labelled(fs)
    ensures |r| <= |fs|
    ensures forall x :: x in r ==> x in fs
  {
    if fs == [] then []
    else
      var last := fs[|fs| - 1];
      assert forall x :: x in fs[..|fs| - 1] ==> x in fs;
      FalseRecords(fs[..|fs| - 1]) + (if last[ClassLabel] == "0" then [last] else [])
  }

  /** The two lists split the records: together they hold each record exactly as often as `features` does. */
  lemma {:induction false} PartitionCounts(fs: seq<Record>)
    requires Labelled(fs)
    ensures |TrueRecords(fs)| + |FalseRecords(fs)| == |fs|
    ensures multiset(TrueRecords(fs)) + multiset(FalseRecords(fs)) == multiset(fs)
  {
    if fs != [] {
      var n := |fs| - 1;
      var front := fs[..n];
      PartitionCounts(front);
      var last := fs[n];
      var t0, f0 := TrueRecords(front), FalseRecords(front);
      assert fs == front + [last];
      assert multiset(fs) == multiset(front) + multiset{last};
      if last[ClassLabel] != "0" {
        assert TrueRecords(fs) == t0 + [last] && FalseRecords(fs) == f0;
        assert multiset(t0 + [last]) == multiset(t0) + multiset{last};
      } else {
        assert TrueRecords(fs) == t0 && FalseRecords(fs) == f0 + [last];
        assert multiset(f0 + [last]) == multiset(f0) + multiset{last};
      }
    }
  }

  /** A record is a true record exactly when it is in `features` with a label other than `"0"`. */
  lemma {:induction false} TrueMembers(fs: seq<Record>, x: Record)
    requires Labelled(fs)
    ensures x in TrueRecords(fs) <==> x in fs && x[ClassLabel] != "0"
  {
    if fs != [] {
      var n := |fs| - 1;
      assert forall y :: y in fs[..n] ==> y in fs;
      TrueMembers(fs[..n], x);
      assert fs == fs[..n] + [fs[n]];
    }
  }

  /** A record is a false record exactly when it is in `features` with the label `"0"`. */
  lemma {:induction false} FalseMembers(fs: seq<Record>, x: Record)
    requires Labelled(fs)
    ensures x in FalseRecords(fs) <==> x in fs && x[ClassLabel] == "0"
  {
    if fs != [] {
      var n := |fs| - 1;
      assert forall y :: y in fs[..n] ==> y in fs;
      FalseMembers(fs[..n], x);
      assert fs == fs[..n] + [fs[n]];
    }
  }

  /** Both lists keep the order of `features`: the split of a concatenation is the concatenation of the splits. */
  lemma {:induction false} PartitionAppend(a: seq<Record>, b: seq<Record>)
    requires Labelled(a) && Labelled(b)
    ensures Labelled(a + b)
    ensures TrueRecords(a + b) == TrueRecords(a) + TrueRecords(b)
    ensures FalseRecords(a + b) == FalseRecords(a) + FalseRecords(b)
    decreases |b|
  {
    assert forall x :: x in a + b ==> x in a || x in b;
    if b == [] {
      assert a + b == a;
    } else {
      var n := |b| - 1;
      assert (a + b)[..|a + b| - 1] == a + b[..n];
      PartitionAppend(a, b[..n]);
    }
  }

  /** `[x for x in records if x[word] == "1"]`: the records in which `word` occurs. */
  function Matching(records: seq<Record>, word: string): (r: seq<Record>)
    requires forall x :: x in records ==> word in x
    ensures |r| <= |records|
    ensures forall i :: 0 <= i < |r| ==> r[i] in records && r[i][word] == "1"
  {
    if records == [] then []
    else
      var n := |records| - 1;
      assert forall x :: x in records[..n] ==> x in records;
      Matching(records[..n], word) + (if records[n][word] == "1" then [records[n]] else [])
  }

  /** Every record in which `word` occurs is kept. */
  lemma {:induction false} MatchingMembers(records: seq<Record>, word: string, x: Record)
    requires forall x :: x in records ==> word in x
    ensures x in Matching(records, word) <==> x in records && x[word] == "1"
  {
    if records != [] {
      var n := |records| - 1;
      assert forall y :: y in records[..n] ==> y in records;
      MatchingMembers(records[..n], word, x);
      assert records == records[..n] + [records[n]];
    }
  }

  /** Each record that has `word` is kept exactly as often as it occurs in `records`; no other record is kept. */
  lemma {:induction false} MatchingMultiplicity(records: seq<Record>, word: string, x: Record)
    requires forall x :: x in records ==> word in x
    ensures multiset(Matching(records, word))[x] == if word in x && x[word] == "1" then multiset(records)[x] else 0
  {
    if records != [] {
      var n := |records| - 1;
      var front := records[..n];
      assert forall y :: y in front ==> y in records;
      MatchingMultiplicity(front, word, x);
      assert records == front + [records[n]];
      assert multiset(records) == multiset(front) + multiset{records[n]};
      var m0 := Matching(front, word);
      if records[n][word] == "1" {
        assert multiset(m0 + [records[n]]) == multiset(m0) + multiset{records[n]};
      } else {
        assert Matching(records, word) == m0;
      }
    }
  }

  /** A set of positions below `n + 1` that agrees with `s0` below `n` grows by `n` exactly when `n` is in it. */
  lemma SnocPositions(s: set<int>, s0: set<int>, n: int, last: bool)
    requires forall i :: i in s0 ==> 0 <= i < n
    requires forall i :: i in s <==> (i in s0 || (i == n && last))
    ensures |s| == |s0| + (if last then 1 else 0)
  {
    if last {
      assert forall i :: i in s <==> i in s0 + {n};
      assert s == s0 + {n};
    } else {
      assert forall i :: i in s <==> i in s0;
      assert s == s0;
    }
  }

  /** The number of matching records is the number of positions of `records` whose record has `word`. */
  lemma {:induction false} MatchingCount(records: seq<Record>, word: string)
    requires forall x :: x in records ==> word in x
    ensures |Matching(records, word)| == |set i | 0 <= i < |records| && records[i][word] == "1"|
  {
    if records != [] {
      var n := |records| - 1;
      var front := records[..n];
      assert forall y :: y in front ==> y in records;
      MatchingCount(front, word);
      var s0 := set i | 0 <= i < n && front[i][word] == "1";
      var s := set i | 0 <= i < |records| && records[i][word] == "1";
      assert forall i :: 0 <= i < n ==> front[i] == records[i];
      SnocPositions(s, s0, n, records[n][word] == "1");
    }
  }

  /**
   * Each record is in exactly one of the two lists, as often as `features`
   * holds it: the true list when its label is not `"0"`, the false list
   * when it is.
   */
  lemma ClassMultiplicity(features: seq<Record>, x: Record)
    requires Labelled(features)
    ensures multiset(TrueRecords(features))[x] == if x in features && x[ClassLabel] != "0" then multiset(features)[x] else 0
    ensures multiset(FalseRecords(features))[x] == if x in features && x[ClassLabel] == "0" then multiset(features)[x] else 0
  {
    PartitionCounts(features);
    TrueMembers(features, x);
    FalseMembers(features, x);
  }

  /**
   * The `matching_records` loops at lines 57-60 and 65-68: the number of
   * records with `record[word] == "1"`, no more than there are records (so
   * the smoothed counts at lines 61-62 and 69-70 are never negative).
   */
  method CountMatching(records: seq<Record>, word: string) returns (count: nat)
    requires forall x :: x in records ==> word in x
    ensures count == |Matching(records, word)|
    ensures count == |set i | 0 <= i < |records| && records[i][word] == "1"|
    ensures count <= |records|
  {
    count := 0;
    for i := 0 to |records|
      invariant count == |Matching(records[..i], word)|
    {
      assert records[..i + 1][..i] == records[..i];
      assert forall x :: x in records[..i + 1] ==> x in records;
      if records[i][word] == "1" {
        count := count + 1;
      }
    }
    assert records[..|records|] == records;
    MatchingCount(records, word);
  }

  /**
   * The whole-number work of `generate_UDPs` for one vocabulary word: the
   * sizes of the two classes (lines 47-50) and the matching counts in each
   * (lines 57-60 and 65-68).
   */
  method ClassCounts(features: seq<Record>, word: string)
    returns (numTrue: nat, numFalse: nat, matchTrue: nat, matchFalse: nat)
    requires Labelled(features)
    requires forall x :: x in features ==> word in x
    ensures numTrue == |TrueRecords(features)| && numFalse == |FalseRecords(features)|
    ensures numTrue + numFalse == |features|
    ensures matchTrue == |Matching(TrueRecords(features), word)| && matchTrue <= numTrue
    ensures matchFalse == |Matching(FalseRecords(features), word)| && matchFalse <= numFalse
    ensures var t := TrueRecords(features); matchTrue == |set i | 0 <= i < |t| && t[i][word] == "1"|
    ensures var f := FalseRecords(features); matchFalse == |set i | 0 <= i < |f| && f[i][word] == "1"|
  {
    var trueRecords := TrueRecords(features);
    var falseRecords := FalseRecords(features);
    PartitionCounts(features);
    numTrue, numFalse := |trueRecords|, |falseRecords|;
    matchTrue := CountMatching(trueRecords, word);
    matchFalse := CountMatching(falseRecords, word);
  }
}
