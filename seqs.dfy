// Array.prototype.filter and Array.prototype.map over sequences.
module Seqs {

  /** The order-preserving filter: `xs.filter(p)`. */
  function Filter<T>(s: seq<T>, p: T -> bool): (r: seq<T>)
    ensures |r| <= |s|
    ensures forall i :: 0 <= i < |r| ==> r[i] in s && p(r[i])
    decreases |s|
  {
    if s == [] then []
    else if p(s[|s| - 1]) then Filter(s[..|s| - 1], p) + [s[|s| - 1]]
    else Filter(s[..|s| - 1], p)
  }

  /** Every element the predicate accepts survives the filter. */
  lemma {:induction false} FilterKeeps<T>(s: seq<T>, p: T -> bool)
    ensures forall i :: 0 <= i < |s| && p(s[i]) ==> s[i] in Filter(s, p)
    decreases |s|
  {
    if s != [] {
      var q := s[..|s| - 1];
      FilterKeeps(q, p);
      forall i | 0 <= i < |s| && p(s[i]) ensures s[i] in Filter(s, p) {
        if i < |q| {
          assert s[i] == q[i];
        }
      }
    }
  }

  /** Filtering distributes over concatenation, so the kept elements keep their relative order. */
  lemma {:induction false} FilterConcat<T>(a: seq<T>, b: seq<T>, p: T -> bool)
    ensures Filter(a + b, p) == Filter(a, p) + Filter(b, p)
    decreases |b|
  {
    if b == [] {
      assert a + b == a;
    } else {
      var n := |b| - 1;
      assert (a + b)[..|a + b| - 1] == a + b[..n];
      assert (a + b)[|a + b| - 1] == b[n];
      FilterConcat(a, b[..n], p);
    }
  }

  /** Extending a prefix by one element extends its filter by that element when the predicate accepts it. */
  lemma FilterPrefixStep<T>(s: seq<T>, i: nat, p: T -> bool)
    requires i < |s|
    ensures Filter(s[..i + 1], p) == Filter(s[..i], p) + (if p(s[i]) then [s[i]] else [])
  {
    assert s[..i + 1][..i] == s[..i];
  }

  /** A filter that keeps everything is the identity. */
  lemma {:induction false} FilterAll<T>(s: seq<T>, p: T -> bool)
    requires forall x :: x in s ==> p(x)
    ensures Filter(s, p) == s
    decreases |s|
  {
    if s != [] {
      assert s[|s| - 1] in s;
      forall x | x in s[..|s| - 1] ensures p(x) {
        assert x in s;
      }
      FilterAll(s[..|s| - 1], p);
      assert s[..|s| - 1] + [s[|s| - 1]] == s;
    }
  }

  /** A filter that keeps nothing gives the empty sequence. */
  lemma {:induction false} FilterNone<T>(s: seq<T>, p: T -> bool)
    requires forall x :: x in s ==> !p(x)
    ensures Filter(s, p) == []
    decreases |s|
  {
    if s != [] {
      assert s[|s| - 1] in s;
      forall x | x in s[..|s| - 1] ensures !p(x) {
        assert x in s;
      }
      FilterNone(s[..|s| - 1], p);
    }
  }

  /** `xs.map(f)`. */
  function Map<T, U>(f: T -> U, s: seq<T>): (r: seq<U>)
    ensures |r| == |s|
    ensures forall i :: 0 <= i < |s| ==> r[i] == f(s[i])
  {
    seq(|s|, i requires 0 <= i < |s| => f(s[i]))
  }

  lemma MapConcat<T, U>(f: T -> U, a: seq<T>, b: seq<T>)
    ensures Map(f, a + b) == Map(f, a) + Map(f, b)
  {
  }

  /** Each element of `xs.map(f).filter(p)` is the image under `f` of an element of `xs` that `p` accepts. */
  lemma FilterMapMember<T, U>(f: T -> U, s: seq<T>, p: U -> bool, i: nat)
    requires i < |Filter(Map(f, s), p)|
    ensures exists k :: 0 <= k < |s| && Filter(Map(f, s), p)[i] == f(s[k]) && p(f(s[k]))
  {
    var m := Map(f, s);
    var r := Filter(m, p);
    assert r[i] in m;
    var k :| 0 <= k < |m| && m[k] == r[i];
    assert r[i] == f(s[k]) && p(f(s[k]));
  }

  /** `xs.map(f).filter(p)` holds exactly the images under `f` that `p` accepts. */
  lemma FilterMapMembers<T, U>(f: T -> U, s: seq<T>, p: U -> bool)
    ensures forall x :: x in Filter(Map(f, s), p) ==> p(x) && exists k :: 0 <= k < |s| && x == f(s[k])
    ensures forall k :: 0 <= k < |s| && p(f(s[k])) ==> f(s[k]) in Filter(Map(f, s), p)
  {
    var m := Map(f, s);
    FilterKeeps(m, p);
    forall x | x in Filter(m, p) ensures p(x) && exists k :: 0 <= k < |s| && x == f(s[k]) {
      var i :| 0 <= i < |Filter(m, p)| && Filter(m, p)[i] == x;
      FilterMapMember(f, s, p, i);
    }
    forall k | 0 <= k < |s| && p(f(s[k])) ensures f(s[k]) in Filter(m, p) {
      assert m[k] == f(s[k]);
    }
  }

  /** A filter keeps a key that was distinct across the input distinct across the output. */
  lemma {:induction false} FilterDistinct<T, K>(s: seq<T>, p: T -> bool, key: T -> K)
    requires forall i, j :: 0 <= i < j < |s| ==> key(s[i]) != key(s[j])
    ensures forall i, j :: 0 <= i < j < |Filter(s, p)| ==> key(Filter(s, p)[i]) != key(Filter(s, p)[j])
    decreases |s|
  {
    if s != [] {
      var q, x := s[..|s| - 1], s[|s| - 1];
      FilterDistinct(q, p, key);
      if p(x) {
        var r := Filter(s, p);
        assert r == Filter(q, p) + [x];
        forall i | 0 <= i < |Filter(q, p)| ensures key(Filter(q, p)[i]) != key(x) {
          assert Filter(q, p)[i] in q;
          var k :| 0 <= k < |q| && q[k] == Filter(q, p)[i];
          assert s[k] == q[k];
        }
      }
    }
  }
}
