/** `mode` of services/StatService.ts: a frequency dictionary filled in one
    pass with a running `maxFreq`, then every value whose count equals the
    maximum, ascending; no mode when more than one value is given and all
    of them are different. */
module Modes {
  import opened Descriptive

  function Count(data: seq<real>, v: real): nat {
    multiset(data)[v]
  }

  predicate NoDuplicates(s: seq<real>) {
    forall i, j :: 0 <= i < j < |s| ==> s[i] != s[j]
  }

  /** The largest count, grown one item at a time as the source's
      `forEach` grows `maxFreq`. */
  function MaxFreq(data: seq<real>): nat {
    if data == [] then 0
    else
      var c := Count(data, data[|data| - 1]);
      var m := MaxFreq(data[..|data| - 1]);
      if c > m then c else m
  }

  /** The dictionary's keys in the order they were first inserted. */
  function Distinct(data: seq<real>): (r: seq<real>)
    ensures |r| <= |data|
    ensures forall v :: v in r <==> v in data
    ensures NoDuplicates(r)
  {
    if data == [] then []
    else
      var p := Distinct(data[..|data| - 1]);
      var last := data[|data| - 1];
      assert data == data[..|data| - 1] + [last];
      if last in p then p else p + [last]
  }

  /** `keys.filter(k => frequency[k] === target)`. */
  function WithCount(keys: seq<real>, data: seq<real>, target: nat): (r: seq<real>)
    ensures forall v :: v in r <==> v in keys && Count(data, v) == target
    ensures NoDuplicates(keys) ==> NoDuplicates(r)
  {
    if keys == [] then []
    else
      var p := WithCount(keys[..|keys| - 1], data, target);
      var k := keys[|keys| - 1];
      assert keys == keys[..|keys| - 1] + [k];
      if Count(data, k) == target then p + [k] else p
  }

  /** What `mode` returns. */
  function ModeOf(data: seq<real>): seq<real> {
    if |data| == 0 then []
    else if MaxFreq(data) == 1 && |data| > 1 && |Distinct(data)| == |data| then []
    else SortAscending(WithCount(Distinct(data), data, MaxFreq(data)))
  }

  lemma AppendStep(d: seq<real>, x: real)
    ensures Distinct(d + [x]) == if x in d then Distinct(d) else Distinct(d) + [x]
    ensures forall v :: Count(d + [x], v) == Count(d, v) + (if v == x then 1 else 0)
    ensures MaxFreq(d + [x]) == if Count(d, x) + 1 > MaxFreq(d) then Count(d, x) + 1 else MaxFreq(d)
  {
    assert (d + [x])[..|d|] == d;
  }

  /** The dictionary holds exactly the values of `d`, each with its count. */
  ghost predicate Counts(frequency: map<real, nat>, d: seq<real>) {
    && (forall v :: v in frequency <==> v in d)
    && (forall v :: v in frequency ==> frequency[v] == Count(d, v))
  }

  /** One `forEach` step keeps the dictionary in step with the items seen. */
  lemma CountsStep(d: seq<real>, x: real, frequency: map<real, nat>)
    requires Counts(frequency, d)
    ensures Counts(frequency[x := (if x in frequency then frequency[x] else 0) + 1], d + [x])
  {
    AppendStep(d, x);
    var next := frequency[x := (if x in frequency then frequency[x] else 0) + 1];
    forall v
      ensures v in next <==> v in d + [x]
    {
      assert v in d + [x] <==> v in d || v == x;
    }
  }

  /** ... and the keys in insertion order, and the running maximum. */
  lemma KeysStep(d: seq<real>, x: real, frequency: map<real, nat>, keys: seq<real>, maxFreq: nat)
    requires Counts(frequency, d) && keys == Distinct(d) && maxFreq == MaxFreq(d)
    ensures (if x !in keys then keys + [x] else keys) == Distinct(d + [x])
    ensures var f := (if x in frequency then frequency[x] else 0) + 1;
      (if f > maxFreq then f else maxFreq) == MaxFreq(d + [x])
  {
    AppendStep(d, x);
    assert (if x in frequency then frequency[x] else 0) == Count(d, x);
  }

  /** The `forEach` pass: the frequency dictionary, its keys in insertion
      order and the running maximum. */
  method Tally(data: seq<real>) returns (frequency: map<real, nat>, keys: seq<real>, maxFreq: nat)
    ensures keys == Distinct(data)
    ensures forall v :: v in frequency <==> v in data
    ensures forall v :: v in frequency ==> frequency[v] == Count(data, v)
    ensures maxFreq == MaxFreq(data)
  {
    frequency, keys, maxFreq := map[], [], 0;
    for i := 0 to |data|
      invariant Counts(frequency, data[..i])
      invariant keys == Distinct(data[..i])
      invariant maxFreq == MaxFreq(data[..i])
    {
      var item := data[i];
      assert data[..i + 1] == data[..i] + [item];
      CountsStep(data[..i], item, frequency);
      KeysStep(data[..i], item, frequency, keys, maxFreq);
      var f := (if item in frequency then frequency[item] else 0) + 1;
      frequency := frequency[item := f];
      if item !in keys {
        keys := keys + [item];
      }
      if f > maxFreq {
        maxFreq := f;
      }
    }
    assert data[..|data|] == data;
  }

  method Mode(data: seq<real>) returns (r: seq<real>)
    ensures r == ModeOf(data)
  {
    if |data| == 0 {
      return [];
    }
    var frequency, keys, maxFreq := Tally(data);
    if maxFreq == 1 && |data| > 1 && |keys| == |data| {
      return [];
    }
    var modal: seq<real> := [];
    for j := 0 to |keys|
      invariant modal == WithCount(keys[..j], data, maxFreq)
    {
      assert keys[..j + 1][..j] == keys[..j];
      if frequency[keys[j]] == maxFreq {
        modal := modal + [keys[j]];
      }
    }
    assert keys[..|keys|] == keys;
    r := SortAscending(modal);
  }

  lemma {:induction false} MaxFreqIsLargestCount(data: seq<real>)
    ensures forall v :: Count(data, v) <= MaxFreq(data)
    ensures data != [] ==> exists v :: v in data && Count(data, v) == MaxFreq(data)
  {
    MaxFreqBounds(data);
    if data != [] {
      var v := MaxFreqAttained(data);
    }
  }

  lemma {:induction false} MaxFreqBounds(data: seq<real>)
    ensures forall v :: Count(data, v) <= MaxFreq(data)
  {
    if data != [] {
      var p, last := data[..|data| - 1], data[|data| - 1];
      assert data == p + [last];
      MaxFreqBounds(p);
      AppendStep(p, last);
    }
  }

  lemma {:induction false} MaxFreqAttained(data: seq<real>) returns (v: real)
    requires data != []
    ensures v in data && Count(data, v) == MaxFreq(data)
  {
    var p, last := data[..|data| - 1], data[|data| - 1];
    assert data == p + [last];
    AppendStep(p, last);
    if p == [] || Count(data, last) > MaxFreq(p) {
      v := last;
    } else {
      v := MaxFreqAttained(p);
      assert Count(data, v) >= Count(p, v);
      MaxFreqBounds(data);
    }
  }

  /** `new Set(data).size === data.length` holds exactly when no value is
      repeated. */
  lemma {:induction false} DistinctSizeIff(data: seq<real>)
    ensures |Distinct(data)| == |data| <==> NoDuplicates(data)
  {
    if data != [] {
      var p, last := data[..|data| - 1], data[|data| - 1];
      assert data == p + [last];
      DistinctSizeIff(p);
      if NoDuplicates(data) {
        assert NoDuplicates(p);
        assert last !in p;
      }
      if |Distinct(data)| == |data| {
        assert last !in Distinct(p);
        assert NoDuplicates(p);
        forall i, j | 0 <= i < j < |data|
          ensures data[i] != data[j]
        {
          if j == |data| - 1 {
            assert data[i] in p;
          }
        }
      }
    }
  }

  lemma {:induction false} DistinctDataHasMaxFreqOne(data: seq<real>)
    requires data != [] && NoDuplicates(data)
    ensures MaxFreq(data) == 1
  {
    var p, last := data[..|data| - 1], data[|data| - 1];
    assert data == p + [last];
    assert last !in p;
    assert Count(data, last) == Count(p, last) + 1;
    if p != [] {
      assert NoDuplicates(p);
      DistinctDataHasMaxFreqOne(p);
    }
  }

  lemma {:induction false} NoDuplicatesMultiset(s: seq<real>)
    ensures NoDuplicates(s) <==> forall v :: multiset(s)[v] <= 1
  {
    if s != [] {
      var p, last := s[..|s| - 1], s[|s| - 1];
      assert s == p + [last];
      NoDuplicatesMultiset(p);
      if NoDuplicates(s) {
        assert last !in p;
        assert NoDuplicates(p);
        forall v
          ensures multiset(s)[v] <= 1
        {
          if v == last {
            assert multiset(p)[v] == 0;
          }
        }
      }
      if forall v :: multiset(s)[v] <= 1 {
        assert forall v :: multiset(p)[v] <= multiset(s)[v];
        assert multiset(p)[last] == 0;
        forall i, j | 0 <= i < j < |s|
          ensures s[i] != s[j]
        {
          if j == |s| - 1 {
            assert s[i] in p;
          } else {
            assert p[i] == s[i] && p[j] == s[j];
          }
        }
      }
    }
  }

  /** The no-mode answer `[]` comes exactly for an empty sample or for
      more than one value, all of them different. */
  lemma ModeEmptyIff(data: seq<real>)
    ensures ModeOf(data) == [] <==> (|data| == 0 || (|data| > 1 && NoDuplicates(data)))
  {
    DistinctSizeIff(data);
    if |data| > 0 {
      if NoDuplicates(data) {
        DistinctDataHasMaxFreqOne(data);
      }
      MaxFreqIsLargestCount(data);
      var w :| w in data && Count(data, w) == MaxFreq(data);
      var modal := WithCount(Distinct(data), data, MaxFreq(data));
      assert w in modal;
      if !(MaxFreq(data) == 1 && |data| > 1 && |Distinct(data)| == |data|) {
        assert w in multiset(modal);
        assert w in multiset(SortAscending(modal));
      }
    }
  }

  /** Outside the no-mode case, a value is a mode exactly when it occurs in
      the data with the largest count; the modes come ascending and without
      repetition. */
  lemma ModeMembers(data: seq<real>)
    requires ModeOf(data) != []
    ensures forall v :: v in ModeOf(data) <==> v in data && (forall w :: Count(data, w) <= Count(data, v))
    ensures forall i, j :: 0 <= i < j < |ModeOf(data)| ==> ModeOf(data)[i] < ModeOf(data)[j]
  {
    var modal := WithCount(Distinct(data), data, MaxFreq(data));
    var r := ModeOf(data);
    assert r == SortAscending(modal);
    MaxFreqIsLargestCount(data);
    forall v
      ensures v in r <==> v in data && (forall w :: Count(data, w) <= Count(data, v))
    {
      assert v in r <==> v in multiset(r);
      assert v in modal <==> v in multiset(modal);
      if v in data && (forall w :: Count(data, w) <= Count(data, v)) {
        var u :| u in data && Count(data, u) == MaxFreq(data);
        assert Count(data, u) <= Count(data, v);
      }
    }
    NoDuplicatesMultiset(modal);
    NoDuplicatesMultiset(r);
    forall i, j | 0 <= i < j < |r|
      ensures r[i] < r[j]
    {
      assert r[i] <= r[j];
    }
  }
}
