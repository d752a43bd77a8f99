/** Small facts about sequences without repetition and finite sets of naturals. */
module Lists {

  datatype Option<T> = None | Some(value: T)

  ghost predicate Distinct<T>(s: seq<T>) {
    forall j, k | 0 <= j < k < |s| :: s[j] != s[k]
  }

  ghost function Elems<T>(s: seq<T>): set<T> { set x | x in s }

  /** The naturals below n. */
  ghost function Below(n: nat): (r: set<nat>)
    ensures forall x: nat :: x in r <==> x < n
    ensures |r| == n
  {
    if n == 0 then {} else Below(n - 1) + {n - 1}
  }

  lemma {:induction false} DistinctSize<T>(s: seq<T>)
    requires Distinct(s)
    ensures |Elems(s)| == |s|
  {
    if s != [] {
      var m := |s| - 1;
      DistinctSize(s[..m]);
      assert s == s[..m] + [s[m]];
      assert Elems(s) == Elems(s[..m]) + {s[m]};
    }
  }

  lemma {:induction false} ElemsBound<T>(s: seq<T>)
    ensures |Elems(s)| <= |s|
  {
    if s != [] {
      var m := |s| - 1;
      ElemsBound(s[..m]);
      assert s == s[..m] + [s[m]];
      assert Elems(s) == Elems(s[..m]) + {s[m]};
    }
  }

  lemma {:induction false} SubsetSize<T>(s: set<T>, t: set<T>)
    requires s <= t
    ensures |s| <= |t|
    ensures |s| == |t| ==> s == t
  {
    if x :| x in s {
      SubsetSize(s - {x}, t - {x});
    }
  }

  /** n distinct naturals below n are all of them. */
  lemma Pigeonhole(s: seq<nat>, n: nat, i: nat)
    requires Distinct(s) && |s| == n && i < n
    requires forall k | 0 <= k < |s| :: s[k] < n
    ensures i in s
  {
    DistinctSize(s);
    SubsetSize(Elems(s), Below(n));
    assert i in Elems(s);
  }

  /** Two runs of elements with a single one after each. */
  lemma FourParts<T>(t: seq<T>, a: seq<T>, x: T, b: seq<T>, y: T, ws: seq<T>)
    requires |ws| == |a| + |b| + 2
    requires forall j | 0 <= j < |a| :: ws[j] == a[j]
    requires forall j | 0 <= j < |b| :: ws[|a| + 1 + j] == b[j]
    requires ws[|a|] == x && ws[|a| + 1 + |b|] == y
    ensures t + a + [x] + b + [y] == t + ws
  {
    var l := a + [x] + b + [y];
    forall k | 0 <= k < |ws|
      ensures l[k] == ws[k]
    {
      if |a| < k <= |a| + |b| {
        assert ws[|a| + 1 + (k - |a| - 1)] == b[k - |a| - 1];
      }
    }
    assert l == ws;
    assert t + a + [x] + b + [y] == t + l;
  }

  /** The sum of a map's values. */
  ghost function Sum(m: map<nat, nat>): nat {
    if m == map[] then 0 else var p :| p in m; m[p] + Sum(m - {p})
  }

  lemma {:induction false} SumRemove(m: map<nat, nat>, p: nat)
    requires p in m
    ensures Sum(m) == m[p] + Sum(m - {p})
    decreases |m|
  {
    var q :| q in m && Sum(m) == m[q] + Sum(m - {q});
    if q != p {
      SumRemove(m - {q}, p);
      SumRemove(m - {p}, q);
      assert m - {q} - {p} == m - {p} - {q};
    }
  }

  lemma SumUpdate(m: map<nat, nat>, p: nat, v: nat)
    ensures Sum(m[p := v]) == (if p in m then Sum(m) - m[p] else Sum(m)) + v
  {
    SumRemove(m[p := v], p);
    if p in m {
      SumRemove(m, p);
      assert m[p := v] - {p} == m - {p};
    } else {
      assert m[p := v] - {p} == m;
    }
  }

  lemma PutRemove(m: map<nat, nat>, p: nat, v: nat)
    requires p !in m
    ensures m[p := v] - {p} == m
  {
  }
}
