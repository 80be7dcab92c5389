/** Generic list operations the client performs with `Array.prototype`
    methods and `Set`: filtering, mapping with a callback that may throw,
    order-preserving de-duplication, and splitting text on a separator. */
module Lists {
  import opened Wrappers

  /** `xs.filter(keep)` */
  function Filter<T>(xs: seq<T>, keep: T -> bool): (r: seq<T>)
    ensures |r| <= |xs|
    ensures forall k :: 0 <= k < |r| ==> r[k] in xs && keep(r[k])
    ensures forall i :: 0 <= i < |xs| && keep(xs[i]) ==> xs[i] in r
  {
    if |xs| == 0 then []
    else (if keep(xs[0]) then [xs[0]] else []) + Filter(xs[1..], keep)
  }

  /** Filtering distributes over concatenation, so the survivors keep their
      relative order. */
  lemma {:induction false} FilterAppend<T>(a: seq<T>, b: seq<T>, keep: T -> bool)
    ensures Filter(a + b, keep) == Filter(a, keep) + Filter(b, keep)
  {
    if |a| == 0 {
      assert a + b == b;
    } else {
      assert (a + b)[0] == a[0];
      assert (a + b)[1..] == a[1..] + b;
      FilterAppend(a[1..], b, keep);
    }
  }

  /** A filter that keeps everything changes nothing. */
  lemma {:induction false} FilterKeepsAll<T>(xs: seq<T>, keep: T -> bool)
    requires forall i :: 0 <= i < |xs| ==> keep(xs[i])
    ensures Filter(xs, keep) == xs
  {
    if |xs| > 0 {
      FilterKeepsAll(xs[1..], keep);
    }
  }

  /** Two tests that agree on every element keep the same survivors. */
  lemma {:induction false} FilterAgrees<T>(xs: seq<T>, p: T -> bool, q: T -> bool)
    requires forall i :: 0 <= i < |xs| ==> p(xs[i]) == q(xs[i])
    ensures Filter(xs, p) == Filter(xs, q)
  {
    if |xs| > 0 {
      assert forall i :: 0 <= i < |xs[1..]| ==> xs[1..][i] == xs[i + 1];
      FilterAgrees(xs[1..], p, q);
    }
  }

  /** `xs.map(f)` where `f` may throw: the first element whose callback
      fails decides the error; otherwise every element is mapped in place. */
  function TryMap<A, B, E>(xs: seq<A>, f: A -> Result<B, E>): (r: Result<seq<B>, E>)
    ensures r.Success? <==> forall i :: 0 <= i < |xs| ==> f(xs[i]).Success?
    ensures r.Success? ==> |r.value| == |xs|
    ensures r.Success? ==> forall i :: 0 <= i < |xs| ==> r.value[i] == f(xs[i]).value
    ensures r.Failure? ==> exists i :: 0 <= i < |xs| && f(xs[i]) == Failure(r.error)
                             && forall j :: 0 <= j < i ==> f(xs[j]).Success?
  {
    if |xs| == 0 then Success([])
    else
      match f(xs[0])
      case Failure(e) => Failure(e)
      case Success(y) =>
        match TryMap(xs[1..], f)
        case Failure(e) =>
          assert forall j :: 1 <= j < |xs| ==> xs[j] == xs[1..][j - 1];
          Failure(e)
        case Success(ys) => Success([y] + ys)
  }

  predicate NoDuplicates<T(==)>(xs: seq<T>) {
    forall i, j :: 0 <= i < j < |xs| ==> xs[i] != xs[j]
  }

  /** The position of the first occurrence of `x`. */
  function FirstIndex<T(==)>(xs: seq<T>, x: T): (i: nat)
    requires x in xs
    ensures i < |xs| && xs[i] == x
    ensures forall k :: 0 <= k < i ==> xs[k] != x
  {
    if xs[0] == x then 0 else 1 + FirstIndex(xs[1..], x)
  }

  /** `r` lists the distinct elements of `xs` once each, in order of
      first occurrence. */
  predicate IsDedupOf<T(==)>(r: seq<T>, xs: seq<T>) {
    && NoDuplicates(r)
    && (forall i :: 0 <= i < |r| ==> r[i] in xs)
    && (forall i :: 0 <= i < |xs| ==> xs[i] in r)
    && (forall i, j :: 0 <= i < j < |r| ==> FirstIndex(xs, r[i]) < FirstIndex(xs, r[j]))
  }

  /** `[...new Set(xs)]`: each distinct element once, in order of first
      occurrence (a `Set` iterates in insertion order and ignores repeats).
      `UniqueIsDedup` proves it meets `IsDedupOf`. */
  function Unique<T(==)>(xs: seq<T>): (r: seq<T>)
    ensures |r| <= |xs|
    decreases |xs|
  {
    if |xs| == 0 then []
    else
      var r := Unique(xs[..|xs| - 1]);
      if xs[|xs| - 1] in r then r else r + [xs[|xs| - 1]]
  }

  lemma {:induction false} UniqueIsDedup<T>(xs: seq<T>)
    ensures IsDedupOf(Unique(xs), xs)
    decreases |xs|
  {
    if |xs| > 0 {
      UniqueIsDedup(xs[..|xs| - 1]);
      DedupStep(xs, Unique(xs[..|xs| - 1]));
    }
  }

  /** Extending the input by one element: the de-duplication of the prefix
      either already holds it or gains it at the end. */
  lemma DedupStep<T>(xs: seq<T>, r: seq<T>)
    requires |xs| > 0 && IsDedupOf(r, xs[..|xs| - 1])
    ensures IsDedupOf(if xs[|xs| - 1] in r then r else r + [xs[|xs| - 1]], xs)
  {
    var init := xs[..|xs| - 1];
    FirstIndexOfPrefix(xs, init, r);
    CoversExtension(xs, init, r);
    if xs[|xs| - 1] !in r {
      DedupGrow(xs, init, r);
    }
  }

  /** Whatever covers the prefix and the last element covers the input. */
  lemma CoversExtension<T>(xs: seq<T>, init: seq<T>, r: seq<T>)
    requires |xs| > 0 && init == xs[..|xs| - 1]
    requires forall i :: 0 <= i < |init| ==> init[i] in r
    ensures forall i :: 0 <= i < |xs| ==> xs[i] in r + [xs[|xs| - 1]]
    ensures xs[|xs| - 1] in r ==> forall i :: 0 <= i < |xs| ==> xs[i] in r
  {
    forall i | 0 <= i < |init|
      ensures xs[i] in r
    {
      assert xs[i] == init[i];
    }
  }

  /** A new last element extends the de-duplication at its end. */
  lemma DedupGrow<T>(xs: seq<T>, init: seq<T>, r: seq<T>)
    requires |xs| > 0 && init == xs[..|xs| - 1]
    requires IsDedupOf(r, init) && xs[|xs| - 1] !in r
    requires forall i :: 0 <= i < |r| ==> FirstIndex(xs, r[i]) == FirstIndex(init, r[i])
    requires forall i :: 0 <= i < |xs| ==> xs[i] in r + [xs[|xs| - 1]]
    ensures IsDedupOf(r + [xs[|xs| - 1]], xs)
  {
    var last := xs[|xs| - 1];
    LastIsNew(xs, init, r);
    GrowDistinct(r, last);
    GrowWithin(xs, init, r, r + [last]);
    GrowOrdered(xs, init, r);
  }

  lemma GrowDistinct<T>(r: seq<T>, x: T)
    requires NoDuplicates(r) && x !in r
    ensures NoDuplicates(r + [x])
  {
    var r' := r + [x];
    forall i, j | 0 <= i < j < |r'| ensures r'[i] != r'[j] {
      assert r'[i] == r[i];
      if j < |r| { assert r'[j] == r[j]; }
    }
  }

  lemma GrowWithin<T>(xs: seq<T>, init: seq<T>, r: seq<T>, r': seq<T>)
    requires |xs| > 0 && init == xs[..|xs| - 1] && r' == r + [xs[|xs| - 1]]
    requires forall i :: 0 <= i < |r| ==> r[i] in init
    ensures forall i :: 0 <= i < |r'| ==> r'[i] in xs
  {
    forall i | 0 <= i < |r'| ensures r'[i] in xs {
      if i < |r| {
        var k :| 0 <= k < |init| && init[k] == r[i];
        assert xs[k] == init[k];
      }
    }
  }

  lemma GrowOrdered<T>(xs: seq<T>, init: seq<T>, r: seq<T>)
    requires |xs| > 0 && init == xs[..|xs| - 1] && xs[|xs| - 1] in xs
    requires forall i :: 0 <= i < |r| ==> r[i] in init && r[i] in xs
    requires forall i :: 0 <= i < |r| ==> FirstIndex(xs, r[i]) == FirstIndex(init, r[i])
    requires forall i, j :: 0 <= i < j < |r| ==> FirstIndex(init, r[i]) < FirstIndex(init, r[j])
    requires FirstIndex(xs, xs[|xs| - 1]) == |init|
    ensures var r' := r + [xs[|xs| - 1]];
            forall i, j :: 0 <= i < j < |r'| ==> r'[i] in xs && r'[j] in xs && FirstIndex(xs, r'[i]) < FirstIndex(xs, r'[j])
  {
    var r' := r + [xs[|xs| - 1]];
    forall i, j | 0 <= i < j < |r'|
      ensures r'[i] in xs && r'[j] in xs && FirstIndex(xs, r'[i]) < FirstIndex(xs, r'[j])
    {
      assert r'[i] == r[i];
      if j < |r| {
        assert r'[j] == r[j];
      }
    }
  }

  /** An element missing from the de-duplication of the prefix is new,
      so its first occurrence is the last position. */
  lemma LastIsNew<T>(xs: seq<T>, init: seq<T>, r: seq<T>)
    requires |xs| > 0 && init == xs[..|xs| - 1]
    requires forall i :: 0 <= i < |init| ==> init[i] in r
    requires xs[|xs| - 1] !in r
    ensures FirstIndex(xs, xs[|xs| - 1]) == |init|
  {
    forall k | 0 <= k < |init| ensures xs[k] != xs[|xs| - 1] {
      assert xs[k] == init[k];
    }
  }

  /** Appending an element does not move the first occurrences of the
      elements already present. */
  lemma FirstIndexOfPrefix<T>(xs: seq<T>, init: seq<T>, r: seq<T>)
    requires |xs| > 0 && init == xs[..|xs| - 1]
    requires forall i :: 0 <= i < |r| ==> r[i] in init
    ensures forall i :: 0 <= i < |r| ==> FirstIndex(xs, r[i]) == FirstIndex(init, r[i])
    ensures xs[|xs| - 1] !in init ==> FirstIndex(xs, xs[|xs| - 1]) == |xs| - 1
  {
    forall i | 0 <= i < |r|
      ensures FirstIndex(xs, r[i]) == FirstIndex(init, r[i])
    {
      var k := FirstIndex(init, r[i]);
      assert xs[k] == r[i];
    }
  }

  /** Appending an element already present leaves the de-duplicated list
      unchanged; a new element goes to the end. */
  lemma UniqueSnoc<T>(xs: seq<T>, x: T)
    ensures Unique(xs + [x]) == if x in xs then Unique(xs) else Unique(xs) + [x]
  {
    UniqueIsDedup(xs);
    assert x in Unique(xs) <==> x in xs;
    assert (xs + [x])[..|xs + [x]| - 1] == xs;
  }

  /** A list without repeats is its own de-duplication. */
  lemma {:induction false} UniqueOfDistinct<T>(xs: seq<T>)
    requires NoDuplicates(xs)
    ensures Unique(xs) == xs
  {
    if |xs| > 0 {
      var init := xs[..|xs| - 1];
      var last := xs[|xs| - 1];
      assert NoDuplicates(init) by {
        forall i, j | 0 <= i < j < |init| ensures init[i] != init[j] {
          assert init[i] == xs[i] && init[j] == xs[j];
        }
      }
      UniqueOfDistinct(init);
      assert last !in init by {
        forall k | 0 <= k < |init| ensures init[k] != last {
          assert init[k] == xs[k];
        }
      }
      assert init + [last] == xs;
      UniqueSnoc(init, last);
    }
  }

  /** De-duplicating twice is the same as once. */
  lemma UniqueIdempotent<T>(xs: seq<T>)
    ensures Unique(Unique(xs)) == Unique(xs)
  {
    UniqueIsDedup(xs);
    UniqueOfDistinct(Unique(xs));
  }

  /** `s.split(sep)` */
  function Split(s: string, sep: char): (parts: seq<string>)
    ensures |parts| > 0
  {
    if |s| == 0 then [""]
    else
      var p := Split(s[..|s| - 1], sep);
      if s[|s| - 1] == sep then p + [""]
      else p[..|p| - 1] + [p[|p| - 1] + [s[|s| - 1]]]
  }

  /** Text without the separator is a single part. */
  lemma {:induction false} SplitWhole(b: string, sep: char)
    requires sep !in b
    ensures Split(b, sep) == [b]
  {
    if |b| > 0 {
      SplitWhole(b[..|b| - 1], sep);
      assert b[..|b| - 1] + [b[|b| - 1]] == b;
    }
  }

  /** Splitting `a + sep + b`, where `b` has no separator, adds `b` as the
      last part after the parts of `a`. */
  lemma {:induction false} SplitSnoc(a: string, b: string, sep: char)
    requires sep !in b
    ensures Split(a + [sep] + b, sep) == Split(a, sep) + [b]
  {
    if |b| == 0 {
      assert a + [sep] + b == a + [sep];
      assert (a + [sep])[..|a + [sep]| - 1] == a;
    } else {
      var s := a + [sep] + b;
      var b' := b[..|b| - 1];
      assert s[..|s| - 1] == a + [sep] + b';
      SplitSnoc(a, b', sep);
      assert b' + [b[|b| - 1]] == b;
    }
  }
}
