/** Canonical request targets (kernel-core/src/idempotency.rs), for origin-form targets. */
module RequestTarget {
  import opened Prelude
  import opened Strings

  /** Code-point order, which is the byte order of UTF-8. */
  predicate Le(a: string, b: string) {
    a == [] || (b != [] && (a[0] < b[0] || (a[0] == b[0] && Le(a[1..], b[1..]))))
  }

  predicate Sorted(s: seq<string>) {
    forall i, j :: 0 <= i < j < |s| ==> Le(s[i], s[j])
  }

  function Insert(x: string, s: seq<string>): (r: seq<string>)
    ensures multiset(r) == multiset(s) + multiset{x}
  {
    if s == [] then [x]
    else if Le(x, s[0]) then [x] + s
    else
      var r := [s[0]] + Insert(x, s[1..]);
      assert s == [s[0]] + s[1..];
      r
  }

  function Sort(s: seq<string>): (r: seq<string>)
    ensures multiset(r) == multiset(s)
  {
    if s == [] then [] else
      assert s == [s[0]] + s[1..];
      Insert(s[0], Sort(s[1..]))
  }

  /** Drops one trailing slash, except from the root. */
  function CanonicalPath(path: string): string {
    if |path| > 1 && path[|path| - 1] == '/' then path[..|path| - 1] else path
  }

  /** The raw parameters; an absent query and an empty one have none. */
  function Parameters(query: Option<string>): seq<string> {
    if query.None? || query.value == [] then [] else Split(query.value, '&')
  }

  function Canonicalize(path: string, query: Option<string>): string {
    var p := CanonicalPath(path);
    if query.None? || query.value == [] then p
    else p + "?" + Join(Sort(Split(query.value, '&')), '&')
  }

  // ---------------------------------------------------------------- sorting

  lemma {:induction false} LeTotal(a: string, b: string)
    ensures Le(a, b) || Le(b, a)
  {
    if a != [] && b != [] && a[0] == b[0] { LeTotal(a[1..], b[1..]); }
  }

  /** a and b first differ at i, where a is the smaller. */
  predicate DiffersAt(a: string, b: string, i: nat) {
    i < |a| && i < |b| && a[..i] == b[..i] && a[i] < b[i]
  }

  /** The order: a prefix comes first, else the first difference decides. */
  lemma {:induction false} LeIsLexicographic(a: string, b: string)
    ensures Le(a, b) <==> a <= b || exists i: nat :: DiffersAt(a, b, i)
  {
    if a != [] && b != [] {
      if a[0] == b[0] {
        LeIsLexicographic(a[1..], b[1..]);
        assert a == [a[0]] + a[1..] && b == [b[0]] + b[1..];
        if i: nat :| DiffersAt(a[1..], b[1..], i) {
          assert a[..i + 1] == [a[0]] + a[1..][..i] && b[..i + 1] == [b[0]] + b[1..][..i];
          assert DiffersAt(a, b, i + 1);
        }
        if i: nat :| DiffersAt(a, b, i) {
          assert a[1..][..i - 1] == a[..i][1..] && b[1..][..i - 1] == b[..i][1..];
          assert DiffersAt(a[1..], b[1..], i - 1);
        }
      } else {
        assert a[0] < b[0] ==> DiffersAt(a, b, 0);
        if i: nat :| DiffersAt(a, b, i) {
          assert i > 0 ==> a[..i][0] == b[..i][0];
        }
      }
    }
  }

  lemma {:induction false} LeTransitive(a: string, b: string, c: string)
    requires Le(a, b) && Le(b, c)
    ensures Le(a, c)
  {
    if a != [] && a[0] == b[0] == c[0] { LeTransitive(a[1..], b[1..], c[1..]); }
  }

  lemma {:induction false} LeAntisymmetric(a: string, b: string)
    requires Le(a, b) && Le(b, a)
    ensures a == b
  {
    if a != [] {
      LeAntisymmetric(a[1..], b[1..]);
      assert a == [a[0]] + a[1..] && b == [b[0]] + b[1..];
    }
  }

  lemma {:induction false} InsertSorts(x: string, s: seq<string>)
    requires Sorted(s)
    ensures Sorted(Insert(x, s))
  {
    if s != [] {
      if Le(x, s[0]) {
        forall j | 0 < j < |s|
          ensures Le(x, s[j])
        {
          LeTransitive(x, s[0], s[j]);
        }
      } else {
        LeTotal(x, s[0]);
        InsertSorts(x, s[1..]);
        var tail := Insert(x, s[1..]);
        forall j | 0 <= j < |tail|
          ensures Le(s[0], tail[j])
        {
          assert tail[j] in multiset(tail);
          if tail[j] != x {
            assert tail[j] in s[1..];
          }
        }
      }
    }
  }

  lemma {:induction false} SortSorts(s: seq<string>)
    ensures Sorted(Sort(s))
  {
    if s != [] {
      SortSorts(s[1..]);
      InsertSorts(s[0], Sort(s[1..]));
    }
  }

  /** A multiset has one sorted order. */
  /** Sorted sequences of the same elements begin with the same one. */
  lemma HeadsAgree(a: seq<string>, b: seq<string>)
    requires Sorted(a) && Sorted(b) && multiset(a) == multiset(b) && a != [] && b != []
    ensures a[0] == b[0]
  {
    assert a[0] in multiset(b) && b[0] in multiset(a);
    var i :| 0 <= i < |b| && b[i] == a[0];
    var j :| 0 <= j < |a| && a[j] == b[0];
    if a[0] != b[0] { LeAntisymmetric(a[0], b[0]); }
  }

  lemma {:induction false} SortedIsUnique(a: seq<string>, b: seq<string>)
    requires Sorted(a) && Sorted(b) && multiset(a) == multiset(b)
    ensures a == b
  {
    assert |multiset(a)| == |a| && |multiset(b)| == |b|;
    if a != [] {
      HeadsAgree(a, b);
      assert a == [a[0]] + a[1..] && b == [b[0]] + b[1..];
      assert multiset(a[1..]) == multiset(a) - multiset{a[0]};
      assert multiset(b[1..]) == multiset(b) - multiset{b[0]};
      hide Le;
      SortedIsUnique(a[1..], b[1..]);
    }
  }

  // ---------------------------------------------------------------- the main result

  predicate OriginForm(path: string) {
    path != [] && path[0] == '/' && '?' !in path
  }

  lemma {:induction false} SameQuery(q: string, r: string)
    ensures Join(Sort(Split(q, '&')), '&') == Join(Sort(Split(r, '&')), '&') <==>
            multiset(Split(q, '&')) == multiset(Split(r, '&'))
  {
    var a, b := Split(q, '&'), Split(r, '&');
    PartsStayClean(q);
    PartsStayClean(r);
    SplitJoin(Sort(a), '&');
    SplitJoin(Sort(b), '&');
    if multiset(a) == multiset(b) {
      SortSorts(a);
      SortSorts(b);
      SortedIsUnique(Sort(a), Sort(b));
    }
  }

  /** Sorting permutes the parts, so they still hold no separator and there is still one. */
  lemma {:induction false} PartsStayClean(q: string)
    ensures var s := Sort(Split(q, '&'));
            s != [] && forall i :: 0 <= i < |s| ==> '&' !in s[i]
  {
    var a := Split(q, '&');
    var s := Sort(a);
    assert a[0] in multiset(s);
    forall i | 0 <= i < |s|
      ensures '&' !in s[i]
    {
      assert s[i] in multiset(a);
    }
  }

  /** The root, or a path without a trailing slash. */
  predicate Bare(path: string) {
    path == "/" || (path != [] && path[|path| - 1] != '/')
  }

  /** The paths are equal, or one is the other, bare, with one slash more. */
  predicate SamePath(p: string, q: string) {
    p == q || (Bare(q) && p == q + "/") || (Bare(p) && q == p + "/")
  }

  lemma SamePathExactly(p: string, q: string)
    requires p != [] && q != []
    ensures CanonicalPath(p) == CanonicalPath(q) <==> SamePath(p, q)
  {
    var (c, d) := (CanonicalPath(p), CanonicalPath(q));
    assert c != p ==> p == c + "/";
    assert d != q ==> q == d + "/";
  }

  /**
   * The canonical target itself.  A bare path and the same path with one slash more are the bare
   * path; a query that is not empty follows as its parameters in order.
   */
  lemma {:induction false} CanonicalTargetIs(path: string, query: Option<string>)
    requires Bare(path)
    ensures Canonicalize(path, query) == Canonicalize(path + "/", query)
    ensures query.None? || query.value == [] ==> Canonicalize(path, query) == path
    ensures query.Some? && query.value != [] ==>
              exists ps :: Sorted(ps) && multiset(ps) == multiset(Split(query.value, '&'))
                           && Canonicalize(path, query) == path + "?" + Join(ps, '&')
  {
    assert CanonicalPath(path) == path;
    assert (path + "/")[..|path|] == path;
    if query.Some? && query.value != [] {
      SortSorts(Split(query.value, '&'));
      assert Sorted(Sort(Split(query.value, '&')));
    }
  }

  /**
   * Two origin-form requests have the same canonical target exactly when their paths are equal or
   * differ in one slash after a bare path, and their parameters are the same multiset, an absent
   * query counting as an empty one.
   */
  lemma {:induction false} SameCanonicalTargetExactly(p: string, q: Option<string>, p': string, q': Option<string>)
    requires OriginForm(p) && OriginForm(p')
    ensures Canonicalize(p, q) == Canonicalize(p', q') <==>
            SamePath(p, p') && multiset(Parameters(q)) == multiset(Parameters(q'))
  {
    SamePathExactly(p, p');
    var (c, c') := (CanonicalPath(p), CanonicalPath(p'));
    var (ps, ps') := (Parameters(q), Parameters(q'));
    assert '?' !in c && '?' !in c';
    hide CanonicalPath, SamePath;
    if ps == [] && ps' == [] {
    } else if ps == [] {
      assert '?' in Canonicalize(p', q');
      assert ps'[0] in multiset(ps');
    } else if ps' == [] {
      assert '?' in Canonicalize(p, q);
      assert ps[0] in multiset(ps);
    } else {
      SameQuery(q.value, q'.value);
      var (j, j') := (Join(Sort(ps), '&'), Join(Sort(ps'), '&'));
      if Canonicalize(p, q) == Canonicalize(p', q') {
        SameCut(c, j, c', j', '?');
      }
    }
  }
}
