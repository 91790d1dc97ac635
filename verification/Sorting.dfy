/** Stand-ins for the library sorts that pkg/simulator/report.go calls. Callers
    rely on their contracts only. */
module Sorting {
  import opened Common

  datatype CascadePath = CascadePath(path: seq<Id>, frequency: nat, meanTTF: int)

  /** Lexicographic order on names. */
  predicate Less(a: string, b: string) {
    |b| > 0 && (|a| == 0 || a[0] < b[0] || (a[0] == b[0] && Less(a[1..], b[1..])))
  }

  /** After a common prefix of n characters a ends or has the smaller character. */
  ghost predicate LessAfter(a: string, b: string, n: nat) {
    && n <= |a| && n < |b| && a[..n] == b[..n]
    && (n == |a| || a[n] < b[n])
  }

  /** Lexicographic order by characters. */
  lemma {:induction false} LessMeaning(a: string, b: string)
    ensures Less(a, b) <==> exists n: nat :: LessAfter(a, b, n)
  {
    if |b| > 0 && (|a| == 0 || a[0] < b[0]) {
      assert LessAfter(a, b, 0);
    } else if |a| > 0 && |b| > 0 && a[0] == b[0] {
      LessMeaning(a[1..], b[1..]);
      if n: nat :| LessAfter(a[1..], b[1..], n) {
        LessShifted(a, b, n);
      }
      if n: nat :| LessAfter(a, b, n) {
        LessShiftedBack(a, b, n);
      }
    } else {
      forall n: nat
        ensures !LessAfter(a, b, n)
      {
        if n > 0 && n <= |a| && n < |b| {
          assert a[..n][0] == a[0] && b[..n][0] == b[0];
        }
      }
    }
  }

  lemma LessShifted(a: string, b: string, n: nat)
    requires |a| > 0 && |b| > 0 && a[0] == b[0] && LessAfter(a[1..], b[1..], n)
    ensures LessAfter(a, b, n + 1)
  {
    assert a[..n + 1] == [a[0]] + a[1..][..n] && b[..n + 1] == [b[0]] + b[1..][..n];
  }

  lemma LessShiftedBack(a: string, b: string, n: nat)
    requires |a| > 0 && |b| > 0 && a[0] == b[0] && LessAfter(a, b, n)
    ensures n > 0 && LessAfter(a[1..], b[1..], n - 1)
  {
    if n > 0 {
      assert a[1..][..n - 1] == a[..n][1..] && b[1..][..n - 1] == b[..n][1..];
    }
  }

  lemma {:induction false} LessTotal(a: string, b: string)
    ensures a == b || Less(a, b) || Less(b, a)
  {
    if |a| > 0 && |b| > 0 && a[0] == b[0] {
      LessTotal(a[1..], b[1..]);
      assert a == [a[0]] + a[1..] && b == [b[0]] + b[1..];
    }
  }

  lemma {:induction false} LessTransitive(a: string, b: string, c: string)
    requires Less(a, b) && Less(b, c)
    ensures Less(a, c)
  {
    if |a| > 0 && a[0] == b[0] == c[0] {
      LessTransitive(a[1..], b[1..], c[1..]);
    }
  }

  /** Strictly increasing, hence without duplicates. */
  predicate Ascending(s: seq<Id>) {
    |s| == 0 || ((forall y :: y in s[1..] ==> Less(s[0], y)) && Ascending(s[1..]))
  }

  function InsertName(s: seq<Id>, x: Id): seq<Id> {
    if |s| == 0 then [x]
    else if Less(x, s[0]) then [x] + s
    else [s[0]] + InsertName(s[1..], x)
  }

  lemma {:induction false} InsertNameAscending(s: seq<Id>, x: Id)
    requires Ascending(s) && x !in s
    ensures Ascending(InsertName(s, x))
    ensures forall y :: y in InsertName(s, x) <==> y in s || y == x
  {
    if |s| > 0 {
      if Less(x, s[0]) {
        forall y | y in s
          ensures Less(x, y)
        {
          if y != s[0] {
            LessTransitive(x, s[0], y);
          }
        }
        assert ([x] + s)[1..] == s;
      } else {
        LessTotal(x, s[0]);
        InsertNameAscending(s[1..], x);
        var t := InsertName(s[1..], x);
        assert ([s[0]] + t)[1..] == t;
        assert forall y :: y in s <==> y == s[0] || y in s[1..];
      }
    }
  }

  /** sort.Strings on names without duplicates. */
  method SortStrings(names: seq<Id>) returns (sorted: seq<Id>)
    requires NoDuplicates(names)
    ensures Ascending(sorted)
    ensures forall x :: x in sorted <==> x in names
  {
    sorted := [];
    for i := 0 to |names|
      invariant Ascending(sorted)
      invariant forall x :: x in sorted <==> x in names[..i]
    {
      InsertNameAscending(sorted, names[i]);
      sorted := InsertName(sorted, names[i]);
      assert names[..i + 1] == names[..i] + [names[i]];
    }
    assert names[..|names|] == names;
  }

  /** Most frequent first. */
  predicate Descending(s: seq<CascadePath>) {
    |s| == 0 || ((forall y :: y in s[1..] ==> s[0].frequency >= y.frequency) && Descending(s[1..]))
  }

  function InsertPath(s: seq<CascadePath>, x: CascadePath): seq<CascadePath> {
    if |s| == 0 then [x]
    else if x.frequency > s[0].frequency then [x] + s
    else [s[0]] + InsertPath(s[1..], x)
  }

  lemma {:induction false} InsertPathElements(s: seq<CascadePath>, x: CascadePath)
    ensures multiset(InsertPath(s, x)) == multiset(s) + multiset{x}
  {
    if |s| > 0 {
      assert s == [s[0]] + s[1..];
      InsertPathElements(s[1..], x);
    }
  }

  lemma {:induction false} InsertPathDescending(s: seq<CascadePath>, x: CascadePath)
    requires Descending(s)
    ensures Descending(InsertPath(s, x))
    ensures forall y :: y in InsertPath(s, x) <==> y in s || y == x
  {
    if |s| > 0 {
      assert s == [s[0]] + s[1..];
      if x.frequency > s[0].frequency {
        assert ([x] + s)[1..] == s;
      } else {
        InsertPathDescending(s[1..], x);
        var t := InsertPath(s[1..], x);
        assert ([s[0]] + t)[1..] == t;
      }
    }
  }

  lemma OneMorePath(paths: seq<CascadePath>, i: nat)
    requires i < |paths|
    ensures multiset(paths[..i + 1]) == multiset(paths[..i]) + multiset{paths[i]}
  {
    assert paths[..i + 1] == paths[..i] + [paths[i]];
  }

  /** sort.Slice by falling frequency. */
  method SortByFrequency(paths: seq<CascadePath>) returns (sorted: seq<CascadePath>)
    ensures Descending(sorted) && multiset(sorted) == multiset(paths)
  {
    sorted := [];
    for i := 0 to |paths|
      invariant Descending(sorted) && multiset(sorted) == multiset(paths[..i])
    {
      hide Descending, InsertPath;
      InsertPathDescending(sorted, paths[i]);
      InsertPathElements(sorted, paths[i]);
      sorted := InsertPath(sorted, paths[i]);
      OneMorePath(paths, i);
    }
    assert paths[..|paths|] == paths;
  }

  lemma {:induction false} DescendingPositions(s: seq<CascadePath>, i: nat, j: nat)
    requires Descending(s) && i <= j < |s|
    ensures s[i].frequency >= s[j].frequency
  {
    if i > 0 {
      DescendingPositions(s[1..], i - 1, j - 1);
    } else if j > 0 {
      assert s[j] == s[1..][j - 1];
    }
  }
}
