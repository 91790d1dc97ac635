/** The string keys of the program: names joined by an arrow, as pathKey does in
    pkg/simulator/report.go and edgeKey in pkg/shield/recovery.go. */
module PathKeys {
  import opened Common

  const ARROW: char := '\U{2192}'

  /** Names joined left to right. */
  function PathKey(path: seq<Id>): string {
    if |path| == 0 then ""
    else if |path| == 1 then path[0]
    else PathKey(path[..|path| - 1]) + [ARROW] + path[|path| - 1]
  }

  method BuildPathKey(path: seq<Id>) returns (key: string)
    ensures key == PathKey(path)
  {
    if |path| == 0 {
      return "";
    }
    key := path[0];
    for i := 1 to |path|
      invariant key == PathKey(path[..i])
    {
      key := key + [ARROW] + path[i];
      assert path[..i + 1][..i] == path[..i];
    }
    assert path[..|path|] == path;
  }

  ghost predicate ArrowFree(name: Id) {
    ARROW !in name
  }

  ghost predicate ArrowFreePath(path: seq<Id>) {
    forall i :: 0 <= i < |path| ==> ArrowFree(path[i])
  }

  /** No arrow lies after the last one. */
  lemma LastArrow(k: string, a: string, k': string, a': string)
    requires ArrowFree(a) && k + [ARROW] + a == k' + [ARROW] + a'
    ensures |k'| <= |k|
  {
    var s := k + [ARROW] + a;
    assert (k' + [ARROW] + a')[|k'|] == ARROW;
    forall i | |k| < i < |s|
      ensures s[i] != ARROW
    {
      assert s[i] == a[i - |k| - 1];
    }
  }

  /** The last arrow splits a joined string in only one way. */
  lemma SplitAtLastArrow(k: string, a: string, k': string, a': string)
    requires ArrowFree(a) && ArrowFree(a')
    requires k + [ARROW] + a == k' + [ARROW] + a'
    ensures k == k' && a == a'
  {
    LastArrow(k, a, k', a');
    LastArrow(k', a', k, a);
    var s, s' := k + [ARROW] + a, k' + [ARROW] + a';
    assert s[..|k|] == k && s'[..|k|] == k';
    assert s[|k| + 1..] == a && s'[|k| + 1..] == a';
  }

  /** A key holds an arrow exactly when it joins at least two names. */
  lemma JoinedHasArrow(p: seq<Id>)
    requires |p| > 0 && ArrowFreePath(p)
    ensures ARROW in PathKey(p) <==> |p| > 1
  {
    if |p| > 1 {
      assert PathKey(p)[|PathKey(p[..|p| - 1])|] == ARROW;
    } else {
      assert ArrowFree(p[0]);
    }
  }

  /** Keys identify paths of arrow-free names. */
  lemma {:induction false} PathKeyInjective(p: seq<Id>, q: seq<Id>)
    requires |p| > 0 && |q| > 0 && ArrowFreePath(p) && ArrowFreePath(q)
    requires PathKey(p) == PathKey(q)
    ensures p == q
  {
    JoinedHasArrow(p);
    JoinedHasArrow(q);
    var m, n := |p| - 1, |q| - 1;
    if m > 0 {
      SplitAtLastArrow(PathKey(p[..m]), p[m], PathKey(q[..n]), q[n]);
      PathKeyInjective(p[..m], q[..n]);
      assert p == p[..m] + [p[m]] && q == q[..n] + [q[n]];
    }
  }

  /** Without that assumption they do not: two different paths share a key. */
  lemma PathKeyCollision()
    ensures PathKey([['a', ARROW, 'b'], "c"]) == PathKey(["a", ['b', ARROW, 'c']])
  {
    var p, q := [['a', ARROW, 'b'], "c"], ["a", ['b', ARROW, 'c']];
    assert PathKey(p[..1]) == ['a', ARROW, 'b'];
    assert PathKey(q[..1]) == "a";
    assert PathKey(p) == ['a', ARROW, 'b', ARROW, 'c'];
    assert PathKey(q) == ['a', ARROW, 'b', ARROW, 'c'];
  }
}
