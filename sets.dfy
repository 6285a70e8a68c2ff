/** `calculateSetOperation` of services/StatService.ts with its `set_*`
    helpers and `sortSetElements`.  A JavaScript `Set<string>` is a
    duplicate-free sequence in insertion order, the order in which the
    engine iterates it. */
module SetOperations {
  import opened Wrappers
  import opened Errors
  import Text
  import Sorting

  /** The operations of `SetOperationType`; `Other` stands for any value
      outside the enumeration, which reaches the `default` branch. */
  datatype SetOperation =
    | Union
    | Intersection
    | DifferenceAB
    | DifferenceBA
    | SymmetricDifference
    | Other(name: string)

  /** `SetOperationsResultsContent`. */
  datatype SetReport = SetReport(
    operation: SetOperation,
    setA: seq<string>,
    setB: seq<string>,
    resultSet: seq<string>,
    elementsOnlyInA: seq<string>,
    elementsOnlyInB: seq<string>,
    intersection: seq<string>,
    countA: nat,
    countB: nat,
    countResultSet: nat,
    countOnlyInA: nat,
    countOnlyInB: nat,
    countIntersection: nat)

  predicate Distinct(s: seq<string>) {
    forall i, j :: 0 <= i < j < |s| ==> s[i] != s[j]
  }

  /** `new Set(s)`: the first occurrence of every element, in order. */
  function Dedupe(s: seq<string>): (r: seq<string>)
    ensures Distinct(r)
    ensures forall x :: x in r <==> x in s
  {
    if s == [] then []
    else
      var d := Dedupe(s[..|s| - 1]);
      var last := s[|s| - 1];
      assert forall x :: x in s <==> x in s[..|s| - 1] || x == last by {
        assert s == s[..|s| - 1] + [last];
      }
      if last in d then d else d + [last]
  }

  /** The elements of `s` that are in `other` (when `inside`) or not in it
      (otherwise), in order: `[...s].filter(e => other.has(e))`. */
  function Keep(s: seq<string>, other: seq<string>, inside: bool): (r: seq<string>)
    ensures |r| <= |s|
    ensures forall x :: x in r <==> x in s && ((x in other) == inside)
  {
    if s == [] then []
    else
      var last := s[|s| - 1];
      assert forall x :: x in s <==> x in s[..|s| - 1] || x == last by {
        assert s == s[..|s| - 1] + [last];
      }
      Keep(s[..|s| - 1], other, inside) + (if (last in other) == inside then [last] else [])
  }

  /** `set_parseElements`: trimmed, non-empty, deduplicated. */
  function ParseElements(elements: seq<string>): seq<string> {
    Dedupe(Text.NonEmpty(Text.TrimAll(elements)))
  }

  function SetUnion(a: seq<string>, b: seq<string>): seq<string> {
    Dedupe(a + b)
  }

  function SetIntersection(a: seq<string>, b: seq<string>): seq<string> {
    Dedupe(Keep(a, b, true))
  }

  function SetDifference(a: seq<string>, b: seq<string>): seq<string> {
    Dedupe(Keep(a, b, false))
  }

  function SetSymmetricDifference(a: seq<string>, b: seq<string>): seq<string> {
    SetUnion(SetDifference(a, b), SetDifference(b, a))
  }

  /** The comparator of `sortSetElements` read as "a may come before b":
      numbers (as `parseFloat` reads them) first and ascending, then the
      other tokens in locale order. */
  function NumericFirst(parse: string -> Option<real>, localeLeq: (string, string) -> bool): (string, string) -> bool {
    (a: string, b: string) =>
      if parse(a).Some? && parse(b).Some? then parse(a).value <= parse(b).value
      else if parse(a).Some? then true
      else if parse(b).Some? then false
      else localeLeq(a, b)
  }

  function SortElements(s: seq<string>, parse: string -> Option<real>, localeLeq: (string, string) -> bool): seq<string> {
    Sorting.Sort(s, NumericFirst(parse, localeLeq))
  }

  function ResultSetOf(op: SetOperation, a: seq<string>, b: seq<string>): Option<seq<string>> {
    match op
    case Union => Some(SetUnion(a, b))
    case Intersection => Some(SetIntersection(a, b))
    case DifferenceAB => Some(SetDifference(a, b))
    case DifferenceBA => Some(SetDifference(b, a))
    case SymmetricDifference => Some(SetSymmetricDifference(a, b))
    case Other(_) => None
  }

  function SetOperationOf(inputA: seq<string>, inputB: seq<string>, op: SetOperation,
                          parse: string -> Option<real>, localeLeq: (string, string) -> bool): Result<SetReport, Error>
  {
    var a := ParseElements(inputA);
    var b := ParseElements(inputB);
    var result := ResultSetOf(op, a, b);
    if result.None? then Err(UnknownSetOperation)
    else Ok(ReportOf(op, a, b, result.value, parse, localeLeq))
  }

  /** The report: the three parts A - B, B - A and A n B are computed
      whatever the operation; every list is sorted, every count is the
      size of the set before sorting. */
  function ReportOf(op: SetOperation, a: seq<string>, b: seq<string>, result: seq<string>,
                    parse: string -> Option<real>, localeLeq: (string, string) -> bool): SetReport
  {
    var onlyA := SetDifference(a, b);
    var onlyB := SetDifference(b, a);
    var both := SetIntersection(a, b);
    SetReport(op,
      SortElements(a, parse, localeLeq), SortElements(b, parse, localeLeq),
      SortElements(result, parse, localeLeq),
      SortElements(onlyA, parse, localeLeq), SortElements(onlyB, parse, localeLeq),
      SortElements(both, parse, localeLeq),
      |a|, |b|, |result|, |onlyA|, |onlyB|, |both|)
  }

  // ----- properties -----

  /** The parsed set holds each trimmed, non-empty token once. */
  lemma ParseElementsMembers(elements: seq<string>)
    ensures Distinct(ParseElements(elements))
    ensures forall x :: x in ParseElements(elements) <==> x != [] && x in Text.TrimAll(elements)
    ensures forall i :: 0 <= i < |elements| && Text.Trim(elements[i]) != [] ==>
      Text.Trim(elements[i]) in ParseElements(elements)
  {
    var t := Text.TrimAll(elements);
    forall i | 0 <= i < |elements| && Text.Trim(elements[i]) != []
      ensures Text.Trim(elements[i]) in ParseElements(elements)
    {
      assert t[i] == Text.Trim(elements[i]);
    }
  }

  lemma {:induction false} DedupeOfDistinct(s: seq<string>)
    requires Distinct(s)
    ensures Dedupe(s) == s
  {
    if s != [] {
      DedupeOfDistinct(s[..|s| - 1]);
    }
  }

  lemma {:induction false} KeepDistinct(s: seq<string>, other: seq<string>, inside: bool)
    requires Distinct(s)
    ensures Distinct(Keep(s, other, inside))
  {
    if s != [] {
      KeepDistinct(s[..|s| - 1], other, inside);
    }
  }

  /** Filtering a set into the elements in `other` and those not in it
      splits its size. */
  lemma {:induction false} KeepSplits(s: seq<string>, other: seq<string>)
    ensures |Keep(s, other, true)| + |Keep(s, other, false)| == |s|
  {
    if s != [] {
      KeepSplits(s[..|s| - 1], other);
    }
  }

  /** For sets, `new Set([...a, ...b])` is a followed by the elements of b
      not in a. */
  lemma {:induction false} UnionAppends(a: seq<string>, b: seq<string>)
    requires Distinct(a) && Distinct(b)
    ensures Dedupe(a + b) == a + Keep(b, a, false)
  {
    if b == [] {
      assert a + b == a;
      DedupeOfDistinct(a);
    } else {
      var init, y := b[..|b| - 1], b[|b| - 1];
      UnionAppends(a, init);
      var d := Dedupe(a + init);
      assert d == a + Keep(init, a, false);
      assert (a + b)[..|a + b| - 1] == a + init;
      assert (a + b)[|a + b| - 1] == y;
      assert Dedupe(a + b) == if y in d then d else d + [y];
      assert Keep(b, a, false) == Keep(init, a, false) + (if y !in a then [y] else []);
      assert y !in init;
      assert y in d <==> y in a;
    }
  }

  lemma DifferenceIsFilter(a: seq<string>, b: seq<string>)
    requires Distinct(a)
    ensures SetDifference(a, b) == Keep(a, b, false)
    ensures SetIntersection(a, b) == Keep(a, b, true)
  {
    KeepDistinct(a, b, false);
    KeepDistinct(a, b, true);
    DedupeOfDistinct(Keep(a, b, false));
    DedupeOfDistinct(Keep(a, b, true));
  }

  /** Each operation yields exactly the elements the set algebra
      prescribes; an operation outside the enumeration yields none. */
  lemma ResultSetMembers(op: SetOperation, a: seq<string>, b: seq<string>)
    ensures ResultSetOf(op, a, b).Some? <==> !op.Other?
    ensures ResultSetOf(op, a, b).Some? ==> Distinct(ResultSetOf(op, a, b).value)
    ensures ResultSetOf(op, a, b).Some? ==> forall x :: x in ResultSetOf(op, a, b).value <==>
      match op
      case Union => x in a || x in b
      case Intersection => x in a && x in b
      case DifferenceAB => x in a && x !in b
      case DifferenceBA => x in b && x !in a
      case SymmetricDifference => (x in a) != (x in b)
      case Other(_) => false
  {
  }

  /** The sorted lists keep every element once; numbers come first and in
      ascending order; the other tokens follow in locale order. */
  lemma SortElementsOrder(s: seq<string>, parse: string -> Option<real>, localeLeq: (string, string) -> bool)
    requires Sorting.TotalPreorder(localeLeq)
    ensures var r := SortElements(s, parse, localeLeq);
      && multiset(r) == multiset(s)
      && (Distinct(s) ==> Distinct(r))
      && (forall i, j :: 0 <= i < j < |r| && parse(r[j]).Some? ==>
            parse(r[i]).Some? && parse(r[i]).value <= parse(r[j]).value)
      && (forall i, j :: 0 <= i < j < |r| && parse(r[i]).None? ==>
            parse(r[j]).None? && localeLeq(r[i], r[j]))
  {
    var leq := NumericFirst(parse, localeLeq);
    NumericFirstPreorder(parse, localeLeq);
    Sorting.SortSorted(s, leq);
    var r := SortElements(s, parse, localeLeq);
    if Distinct(s) {
      DistinctPermutation(s, r);
    }
  }

  lemma NumericFirstPreorder(parse: string -> Option<real>, localeLeq: (string, string) -> bool)
    requires Sorting.TotalPreorder(localeLeq)
    ensures Sorting.TotalPreorder(NumericFirst(parse, localeLeq))
  {
  }

  /** A permutation of a duplicate-free sequence is duplicate-free. */
  lemma DistinctPermutation(s: seq<string>, r: seq<string>)
    requires Distinct(s) && multiset(r) == multiset(s)
    ensures Distinct(r)
  {
    forall x | x in multiset(s)
      ensures multiset(s)[x] == 1
    {
      CountOfDistinct(s, x);
    }
    forall i, j | 0 <= i < j < |r|
      ensures r[i] != r[j]
    {
      CountOfDistinct(s, r[i]);
      if r[i] == r[j] {
        TwiceCounted(r, i, j);
      }
    }
  }

  lemma {:induction false} CountOfDistinct(s: seq<string>, x: string)
    requires Distinct(s)
    ensures multiset(s)[x] <= 1
  {
    if s != [] {
      var init := s[..|s| - 1];
      assert s == init + [s[|s| - 1]];
      CountOfDistinct(init, x);
      if x == s[|s| - 1] {
        assert x !in init;
      }
    }
  }

  lemma TwiceCounted(r: seq<string>, i: nat, j: nat)
    requires i < j < |r| && r[i] == r[j]
    ensures multiset(r)[r[i]] >= 2
  {
    assert r == r[..i] + [r[i]] + r[i + 1..j] + [r[j]] + r[j + 1..];
  }

  /** The three parts of two sets: A - B, B - A and A n B are pairwise
      disjoint and split the sets, |A| = |A - B| + |A n B| and
      |B| = |B - A| + |A n B|. */
  lemma {:induction false} Decomposition(a: seq<string>, b: seq<string>)
    requires Distinct(a) && Distinct(b)
    ensures |a| == |SetDifference(a, b)| + |SetIntersection(a, b)|
    ensures |b| == |SetDifference(b, a)| + |SetIntersection(a, b)|
    ensures forall x :: !(x in SetDifference(a, b) && x in SetDifference(b, a))
    ensures forall x :: !(x in SetDifference(a, b) && x in SetIntersection(a, b))
    ensures forall x :: !(x in SetDifference(b, a) && x in SetIntersection(a, b))
  {
    DifferenceIsFilter(a, b);
    DifferenceIsFilter(b, a);
    KeepSplits(a, b);
    KeepSplits(b, a);
    IntersectionSize(a, b);
  }

  /** A n B and B n A list the same elements, hence have the same size. */
  lemma IntersectionSize(a: seq<string>, b: seq<string>)
    requires Distinct(a) && Distinct(b)
    ensures |SetIntersection(a, b)| == |Keep(b, a, true)|
  {
    DifferenceIsFilter(a, b);
    KeepDistinct(a, b, true);
    KeepDistinct(b, a, true);
    var ab, ba := Keep(a, b, true), Keep(b, a, true);
    assert forall x :: x in ab <==> x in ba;
    SameMembersSameSize(ab, ba);
  }

  lemma SameMembersSameSize(s: seq<string>, t: seq<string>)
    requires Distinct(s) && Distinct(t) && forall x :: x in s <==> x in t
    ensures |s| == |t|
  {
    var ss := set x | x in s;
    var ts := set x | x in t;
    assert ss == ts;
    DistinctCard(s);
    DistinctCard(t);
  }

  lemma {:induction false} DistinctCard(s: seq<string>)
    requires Distinct(s)
    ensures |set x | x in s| == |s|
  {
    if s != [] {
      var init, last := s[..|s| - 1], s[|s| - 1];
      DistinctCard(init);
      assert s == init + [last];
      assert (set x | x in s) == (set x | x in init) + {last};
      assert last !in (set x | x in init);
    }
  }

  /** |A u B| + |A n B| = |A| + |B|. */
  lemma UnionSize(a: seq<string>, b: seq<string>)
    requires Distinct(a) && Distinct(b)
    ensures |SetUnion(a, b)| + |SetIntersection(a, b)| == |a| + |b|
  {
    UnionAppends(a, b);
    Decomposition(a, b);
    DifferenceIsFilter(b, a);
  }

  /** The symmetric difference is (A - B) followed by (B - A), so its size
      is |A - B| + |B - A|. */
  lemma SymmetricDifferenceSize(a: seq<string>, b: seq<string>)
    requires Distinct(a) && Distinct(b)
    ensures SetSymmetricDifference(a, b) == SetDifference(a, b) + SetDifference(b, a)
    ensures |SetSymmetricDifference(a, b)| == |SetDifference(a, b)| + |SetDifference(b, a)|
  {
    DifferenceIsFilter(a, b);
    DifferenceIsFilter(b, a);
    var onlyA, onlyB := Keep(a, b, false), Keep(b, a, false);
    KeepDistinct(a, b, false);
    KeepDistinct(b, a, false);
    UnionAppends(onlyA, onlyB);
    KeepAll(onlyB, onlyA);
  }

  /** Every count of the report is the size of its list, and the counts of
      the three reported parts split those of A and B. */
  lemma SetReportCounts(inputA: seq<string>, inputB: seq<string>, op: SetOperation,
                        parse: string -> Option<real>, localeLeq: (string, string) -> bool)
    requires SetOperationOf(inputA, inputB, op, parse, localeLeq).Ok?
    ensures var r := SetOperationOf(inputA, inputB, op, parse, localeLeq).value;
      && r.operation == op
      && r.countA == |r.setA| && r.countB == |r.setB| && r.countResultSet == |r.resultSet|
      && r.countOnlyInA == |r.elementsOnlyInA| && r.countOnlyInB == |r.elementsOnlyInB|
      && r.countIntersection == |r.intersection|
      && r.countA == r.countOnlyInA + r.countIntersection
      && r.countB == r.countOnlyInB + r.countIntersection
  {
    Decomposition(ParseElements(inputA), ParseElements(inputB));
  }

  lemma ReportDisjoint(op: SetOperation, a: seq<string>, b: seq<string>, result: seq<string>,
                       parse: string -> Option<real>, localeLeq: (string, string) -> bool)
    ensures var r := ReportOf(op, a, b, result, parse, localeLeq);
      && (forall x :: !(x in r.elementsOnlyInA && x in r.elementsOnlyInB))
      && (forall x :: !(x in r.elementsOnlyInA && x in r.intersection))
      && (forall x :: !(x in r.elementsOnlyInB && x in r.intersection))
  {
    var r := ReportOf(op, a, b, result, parse, localeLeq);
    var leq := NumericFirst(parse, localeLeq);
    Sorting.SortMembers(SetDifference(a, b), leq);
    Sorting.SortMembers(SetDifference(b, a), leq);
    Sorting.SortMembers(SetIntersection(a, b), leq);
    assert forall x :: x in r.elementsOnlyInA <==> x in a && x !in b;
    assert forall x :: x in r.elementsOnlyInB <==> x in b && x !in a;
    assert forall x :: x in r.intersection <==> x in a && x in b;
  }

  /** The three reported parts A - B, B - A and A n B are pairwise
      disjoint. */
  lemma SetReportDisjoint(inputA: seq<string>, inputB: seq<string>, op: SetOperation,
                          parse: string -> Option<real>, localeLeq: (string, string) -> bool)
    requires SetOperationOf(inputA, inputB, op, parse, localeLeq).Ok?
    ensures var r := SetOperationOf(inputA, inputB, op, parse, localeLeq).value;
      && (forall x :: !(x in r.elementsOnlyInA && x in r.elementsOnlyInB))
      && (forall x :: !(x in r.elementsOnlyInA && x in r.intersection))
      && (forall x :: !(x in r.elementsOnlyInB && x in r.intersection))
  {
    var a := ParseElements(inputA);
    var b := ParseElements(inputB);
    ReportDisjoint(op, a, b, ResultSetOf(op, a, b).value, parse, localeLeq);
  }

  /** |A u B| = |A| + |B| - |A n B|, and the symmetric difference has
      |A - B| + |B - A| elements. */
  lemma SetReportOperationCounts(inputA: seq<string>, inputB: seq<string>, op: SetOperation,
                                 parse: string -> Option<real>, localeLeq: (string, string) -> bool)
    requires SetOperationOf(inputA, inputB, op, parse, localeLeq).Ok?
    ensures var r := SetOperationOf(inputA, inputB, op, parse, localeLeq).value;
      && (op == Union ==> r.countResultSet + r.countIntersection == r.countA + r.countB)
      && (op == SymmetricDifference ==> r.countResultSet == r.countOnlyInA + r.countOnlyInB)
  {
    var a := ParseElements(inputA);
    var b := ParseElements(inputB);
    if op == Union {
      UnionSize(a, b);
    } else if op == SymmetricDifference {
      SymmetricDifferenceSize(a, b);
    }
  }

  /** Filtering out the elements of a set disjoint from `s` keeps `s`. */
  lemma {:induction false} KeepAll(s: seq<string>, other: seq<string>)
    requires forall x :: x in s ==> x !in other
    ensures Keep(s, other, false) == s
  {
    if s != [] {
      assert s == s[..|s| - 1] + [s[|s| - 1]];
      KeepAll(s[..|s| - 1], other);
    }
  }

  /** Only an operation outside the enumeration makes the function throw. */
  lemma SetOperationFailures(inputA: seq<string>, inputB: seq<string>, op: SetOperation,
                             parse: string -> Option<real>, localeLeq: (string, string) -> bool)
    ensures SetOperationOf(inputA, inputB, op, parse, localeLeq).Err? <==> op.Other?
    ensures op.Other? ==> SetOperationOf(inputA, inputB, op, parse, localeLeq) == Err(UnknownSetOperation)
  {
  }
}
