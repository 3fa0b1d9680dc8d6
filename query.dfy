/** The query shapes the SQL statements share: `WHERE` filters, `COUNT(*)`,
    the first row of a `SELECT`, `UPDATE .. WHERE`, `ORDER BY` (an insertion
    sort against a total preorder), `OFFSET .. FETCH NEXT`, `TOP n`, and
    `Array.prototype.reverse`. */
module Query {
  import opened Common

  ghost predicate Total<T(!new)>(le: (T, T) -> bool) {
    forall a, b :: le(a, b) || le(b, a)
  }

  ghost predicate Transitive<T(!new)>(le: (T, T) -> bool) {
    forall a, b, c :: le(a, b) && le(b, c) ==> le(a, c)
  }

  /** What an `ORDER BY` clause denotes: a total, transitive "may come first" relation. */
  ghost predicate TotalPreorder<T(!new)>(le: (T, T) -> bool) {
    Total(le) && Transitive(le)
  }

  ghost predicate SortedBy<T>(s: seq<T>, le: (T, T) -> bool) {
    forall i, j :: 0 <= i < j < |s| ==> le(s[i], s[j])
  }

  /** `WHERE p`: the rows of `s` that satisfy `p`, in their order. */
  function Filter<T>(s: seq<T>, p: T -> bool): (r: seq<T>)
    ensures |r| <= |s|
    ensures forall i :: 0 <= i < |r| ==> r[i] in s && p(r[i])
    ensures forall i :: 0 <= i < |s| && p(s[i]) ==> s[i] in r
    ensures multiset(r) <= multiset(s)
  {
    if s == [] then []
    else
      assert s == [s[0]] + s[1..];
      if p(s[0]) then [s[0]] + Filter(s[1..], p) else Filter(s[1..], p)
  }

  lemma {:induction false} FilterIdentity<T>(s: seq<T>, p: T -> bool)
    requires forall i :: 0 <= i < |s| ==> p(s[i])
    ensures Filter(s, p) == s
  {
    if s != [] {
      FilterIdentity(s[1..], p);
    }
  }

  lemma {:induction false} FilterNone<T>(s: seq<T>, p: T -> bool)
    requires forall i :: 0 <= i < |s| ==> !p(s[i])
    ensures Filter(s, p) == []
  {
    if s != [] {
      FilterNone(s[1..], p);
    }
  }

  lemma {:induction false} FilterOfFilter<T>(s: seq<T>, p: T -> bool, q: T -> bool)
    ensures Filter(Filter(s, p), q) == Filter(s, x => p(x) && q(x))
  {
    if s != [] {
      FilterOfFilter(s[1..], p, q);
    }
  }

  lemma {:induction false} FilterAppend<T>(s: seq<T>, t: seq<T>, p: T -> bool)
    ensures Filter(s + t, p) == Filter(s, p) + Filter(t, p)
  {
    if s == [] {
      assert s + t == t;
    } else {
      assert (s + t)[1..] == s[1..] + t;
      FilterAppend(s[1..], t, p);
    }
  }

  /** How often `x` survives the filter: all its copies when `p(x)`, none otherwise. */
  lemma {:induction false} FilterMultiset<T>(s: seq<T>, p: T -> bool, x: T)
    ensures multiset(Filter(s, p))[x] == if p(x) then multiset(s)[x] else 0
  {
    if s != [] {
      assert s == [s[0]] + s[1..];
      FilterMultiset(s[1..], p, x);
    }
  }

  lemma FilterMultisets<T>(s: seq<T>, p: T -> bool)
    ensures forall x :: multiset(Filter(s, p))[x] == if p(x) then multiset(s)[x] else 0
  {
    forall x ensures multiset(Filter(s, p))[x] == if p(x) then multiset(s)[x] else 0 {
      FilterMultiset(s, p, x);
    }
  }

  /** `r` is `s` with some rows dropped and the others kept in order. */
  ghost predicate IsSubseq<T>(r: seq<T>, s: seq<T>)
    decreases |s|
  {
    if r == [] then true
    else if s == [] then false
    else if r[0] == s[0] then IsSubseq(r[1..], s[1..])
    else IsSubseq(r, s[1..])
  }

  /** A filter keeps the order of the rows it keeps. */
  lemma {:induction false} FilterSubseq<T>(s: seq<T>, p: T -> bool)
    ensures IsSubseq(Filter(s, p), s)
  {
    if s != [] {
      FilterSubseq(s[1..], p);
      if !p(s[0]) && Filter(s[1..], p) != [] {
        SubseqSkip(Filter(s[1..], p), s[1..], s[0]);
      }
    }
  }

  /** A subsequence of `s` is one of `[x] + s` too. */
  lemma {:induction false} SubseqSkip<T>(r: seq<T>, s: seq<T>, x: T)
    requires IsSubseq(r, s)
    ensures IsSubseq(r, [x] + s)
    decreases |s|, 1
  {
    var t := [x] + s;
    assert t[1..] == s;
    if r != [] && r[0] == x {
      assert s != [];
      if r[0] == s[0] {
        SubseqSkip(r[1..], s[1..], s[0]);
        assert [s[0]] + s[1..] == s;
      } else {
        SubseqTail(r, s);
      }
    }
  }

  /** Dropping the first row of a subsequence leaves a subsequence. */
  lemma {:induction false} SubseqTail<T>(r: seq<T>, s: seq<T>)
    requires r != [] && IsSubseq(r, s)
    ensures IsSubseq(r[1..], s)
    decreases |s|, 0
  {
    if r[0] == s[0] {
      if r[1..] != [] {
        SubseqSkip(r[1..], s[1..], s[0]);
        assert [s[0]] + s[1..] == s;
      }
    } else {
      SubseqTail(r, s[1..]);
      if r[1..] != [] {
        SubseqSkip(r[1..], s[1..], s[0]);
        assert [s[0]] + s[1..] == s;
      }
    }
  }

  /** Position of the first row that satisfies `p` (`|s|` when there is none). */
  function FirstIndex<T>(s: seq<T>, p: T -> bool): (k: nat)
    ensures k <= |s|
    ensures forall j :: 0 <= j < k ==> !p(s[j])
    ensures k < |s| ==> p(s[k])
  {
    if s == [] || p(s[0]) then 0 else 1 + FirstIndex(s[1..], p)
  }

  /** `recordset[0]` of `SELECT ... WHERE p`: the first row that satisfies `p`. */
  function FindFirst<T>(s: seq<T>, p: T -> bool): (r: Option<T>)
    ensures r.None? <==> forall i :: 0 <= i < |s| ==> !p(s[i])
    ensures r.Some? ==> FirstIndex(s, p) < |s| && r.value == s[FirstIndex(s, p)] && p(r.value)
  {
    var k := FirstIndex(s, p);
    if k < |s| then Some(s[k]) else None
  }

  /** Two tables that agree on `p` row by row, and agree on every row that satisfies it, have the
      same first row satisfying it. */
  lemma {:induction false} FirstIndexAgree<T>(s: seq<T>, t: seq<T>, p: T -> bool)
    requires |s| == |t|
    requires forall i :: 0 <= i < |s| ==> (p(s[i]) <==> p(t[i]))
    requires forall i :: 0 <= i < |s| && p(s[i]) ==> s[i] == t[i]
    ensures FindFirst(s, p) == FindFirst(t, p)
  {
    if s != [] && !p(s[0]) {
      FirstIndexAgree(s[1..], t[1..], p);
    }
  }

  /** Appending rows that do not satisfy `p` does not change the first row that does. */
  lemma {:induction false} FindFirstAppend<T>(s: seq<T>, t: seq<T>, p: T -> bool)
    requires forall i :: 0 <= i < |t| ==> !p(t[i])
    ensures FindFirst(s + t, p) == FindFirst(s, p)
  {
    if s == [] {
      assert s + t == t;
    } else {
      assert (s + t)[1..] == s[1..] + t;
      FindFirstAppend(s[1..], t, p);
    }
  }

  /** `UPDATE ... SET f WHERE p`: every row satisfying `p` is rewritten by `f`, the others are kept. */
  function UpdateWhere<T>(s: seq<T>, p: T -> bool, f: T -> T): (r: seq<T>)
    ensures |r| == |s|
    ensures forall i :: 0 <= i < |s| ==> r[i] == if p(s[i]) then f(s[i]) else s[i]
  {
    seq(|s|, i requires 0 <= i < |s| => if p(s[i]) then f(s[i]) else s[i])
  }

  /** `SELECT COUNT(*) ... WHERE p`. */
  function Count<T>(s: seq<T>, p: T -> bool): (n: nat)
    ensures n <= |s|
    ensures n == 0 <==> forall i :: 0 <= i < |s| ==> !p(s[i])
  {
    if s == [] then 0 else (if p(s[0]) then 1 else 0) + Count(s[1..], p)
  }

  lemma {:induction false} CountIsFilterLength<T>(s: seq<T>, p: T -> bool)
    ensures Count(s, p) == |Filter(s, p)|
  {
    if s != [] {
      CountIsFilterLength(s[1..], p);
    }
  }

  lemma {:induction false} CountAppend<T>(s: seq<T>, t: seq<T>, p: T -> bool)
    ensures Count(s + t, p) == Count(s, p) + Count(t, p)
  {
    if s == [] {
      assert s + t == t;
    } else {
      assert (s + t)[1..] == s[1..] + t;
      CountAppend(s[1..], t, p);
    }
  }

  /** No value occurs twice. */
  predicate NoDup<T(==)>(s: seq<T>) {
    forall i, j :: 0 <= i < j < |s| ==> s[i] != s[j]
  }

  lemma {:induction false} NoDupMultiplicity<T>(s: seq<T>, x: T)
    requires NoDup(s)
    ensures multiset(s)[x] <= 1
  {
    if s != [] {
      assert s == [s[0]] + s[1..];
      assert NoDup(s[1..]) by {
        forall i, j | 0 <= i < j < |s[1..]| ensures s[1..][i] != s[1..][j] {
          assert s[1..][i] == s[i + 1] && s[1..][j] == s[j + 1];
        }
      }
      NoDupMultiplicity(s[1..], x);
      if x == s[0] {
        assert x !in s[1..] by {
          forall j | 0 <= j < |s[1..]| ensures s[1..][j] != x {
            assert s[1..][j] == s[j + 1];
          }
        }
      }
    }
  }

  /** No two rows share a key (a primary key). */
  ghost predicate UniqueKeys<T>(s: seq<T>, key: T -> int) {
    forall i, j :: 0 <= i < j < |s| ==> key(s[i]) != key(s[j])
  }

  lemma {:induction false} FilterUniqueKeys<T>(s: seq<T>, p: T -> bool, key: T -> int)
    requires UniqueKeys(s, key)
    ensures UniqueKeys(Filter(s, p), key)
  {
    if s != [] {
      TailUniqueKeys(s, key);
      FilterUniqueKeys(s[1..], p, key);
      if p(s[0]) {
        var rest := Filter(s[1..], p);
        forall y | y in rest ensures key(y) != key(s[0]) {
          assert y in s[1..];
        }
        ConsUniqueKeys(s[0], rest, key);
      }
    }
  }

  /** Dropping the first row keeps keys unique, and no later row has the first row's key. */
  lemma TailUniqueKeys<T>(s: seq<T>, key: T -> int)
    requires s != [] && UniqueKeys(s, key)
    ensures UniqueKeys(s[1..], key)
    ensures forall x :: x in s[1..] ==> key(x) != key(s[0])
  {
    forall i, j | 0 <= i < j < |s[1..]| ensures key(s[1..][i]) != key(s[1..][j]) {
      assert s[1..][i] == s[i + 1] && s[1..][j] == s[j + 1];
    }
    forall x | x in s[1..] ensures key(x) != key(s[0]) {
      var k :| 0 <= k < |s[1..]| && s[1..][k] == x;
      assert s[k + 1] == x;
    }
  }

  /** A row whose key no other row has can be put in front. */
  lemma ConsUniqueKeys<T>(x: T, rest: seq<T>, key: T -> int)
    requires UniqueKeys(rest, key)
    requires forall y :: y in rest ==> key(y) != key(x)
    ensures UniqueKeys([x] + rest, key)
  {
    var r := [x] + rest;
    forall i, j | 0 <= i < j < |r| ensures key(r[i]) != key(r[j]) {
      assert r[j] == rest[j - 1];
      if i > 0 {
        assert r[i] == rest[i - 1];
      }
    }
  }

  /** A value that occurs at two positions occurs at least twice in the multiset. */
  lemma TwiceInMultiset<T>(s: seq<T>, i: nat, j: nat)
    requires i < j < |s| && s[i] == s[j]
    ensures multiset(s)[s[i]] >= 2
  {
    assert s == s[..j] + [s[j]] + s[j + 1..];
    assert s[..j][i] == s[i];
    assert s[i] in multiset(s[..j]);
  }

  /** A value counted at least twice occurs at two positions. */
  lemma {:induction false} TwoPositions<T>(s: seq<T>, x: T)
    requires multiset(s)[x] >= 2
    ensures exists i, j :: 0 <= i < j < |s| && s[i] == x && s[j] == x
  {
    assert s == [s[0]] + s[1..];
    if s[0] == x {
      assert x in multiset(s[1..]);
      var k :| 0 <= k < |s[1..]| && s[1..][k] == x;
      assert s[k + 1] == x;
    } else {
      TwoPositions(s[1..], x);
      var i, j :| 0 <= i < j < |s[1..]| && s[1..][i] == x && s[1..][j] == x;
      assert s[i + 1] == x && s[j + 1] == x;
    }
  }

  /** Reordering the rows keeps a key unique. */
  lemma PermutationUniqueKeys<T>(s: seq<T>, t: seq<T>, key: T -> int)
    requires UniqueKeys(s, key) && multiset(t) == multiset(s)
    ensures UniqueKeys(t, key)
  {
    forall i, j | 0 <= i < j < |t| ensures key(t[i]) != key(t[j]) {
      if t[i] == t[j] {
        TwiceInMultiset(t, i, j);
        TwoPositions(s, t[i]);
      } else {
        assert t[i] in multiset(s) && t[j] in multiset(s);
        var a :| 0 <= a < |s| && s[a] == t[i];
        var b :| 0 <= b < |s| && s[b] == t[j];
        assert a != b;
      }
    }
  }

  /** `s` without its element at `k`. */
  function RemoveAt<T>(s: seq<T>, k: nat): (r: seq<T>)
    requires k < |s|
    ensures |r| == |s| - 1
    ensures multiset(r) == multiset(s) - multiset{s[k]}
    ensures forall i :: 0 <= i < |r| ==> r[i] == if i < k then s[i] else s[i + 1]
  {
    assert s == s[..k] + [s[k]] + s[k + 1..];
    s[..k] + s[k + 1..]
  }

  lemma RemoveAtNoDup<T>(s: seq<T>, k: nat)
    requires k < |s| && NoDup(s)
    ensures NoDup(RemoveAt(s, k))
  {
    var r := RemoveAt(s, k);
    forall i, j | 0 <= i < j < |r| ensures r[i] != r[j] {
      var i' := if i < k then i else i + 1;
      var j' := if j < k then j else j + 1;
      assert r[i] == s[i'] && r[j] == s[j'];
    }
  }

  function Insert<T>(x: T, s: seq<T>, le: (T, T) -> bool): (r: seq<T>)
    ensures multiset(r) == multiset(s) + multiset{x}
  {
    if s == [] || le(x, s[0]) then [x] + s
    else
      assert s == [s[0]] + s[1..];
      [s[0]] + Insert(x, s[1..], le)
  }

  /** `ORDER BY`: insertion sort, stable among rows the order does not separate. */
  function SortBy<T>(s: seq<T>, le: (T, T) -> bool): (r: seq<T>)
    ensures multiset(r) == multiset(s)
    ensures |r| == |s|
  {
    if s == [] then []
    else
      assert s == [s[0]] + s[1..];
      var r := Insert(s[0], SortBy(s[1..], le), le);
      assert |multiset(r)| == |multiset(s)|;
      r
  }

  lemma {:induction false} InsertSorted<T(!new)>(x: T, s: seq<T>, le: (T, T) -> bool)
    requires TotalPreorder(le)
    requires SortedBy(s, le)
    ensures SortedBy(Insert(x, s, le), le)
  {
    if s != [] && !le(x, s[0]) {
      var tail := Insert(x, s[1..], le);
      assert SortedBy(s[1..], le);
      InsertSorted(x, s[1..], le);
      forall j | 0 <= j < |tail| ensures le(s[0], tail[j]) {
        assert tail[j] in multiset(tail);
        if tail[j] != x {
          assert tail[j] in s[1..];
        }
      }
    }
  }

  lemma {:induction false} SortByIsSorted<T(!new)>(s: seq<T>, le: (T, T) -> bool)
    requires TotalPreorder(le)
    ensures SortedBy(SortBy(s, le), le)
  {
    if s != [] {
      SortByIsSorted(s[1..], le);
      InsertSorted(s[0], SortBy(s[1..], le), le);
    }
  }

  /** `OFFSET offset ROWS FETCH NEXT limit ROWS ONLY`. */
  function Page<T>(s: seq<T>, offset: nat, limit: nat): (r: seq<T>)
    ensures |r| == PageSize(|s|, offset, limit)
    ensures forall i :: 0 <= i < |r| ==> r[i] == s[offset + i]
  {
    if offset >= |s| then []
    else if limit < |s| - offset then s[offset..offset + limit]
    else s[offset..]
  }

  /** How many of `n` rows an `OFFSET offset ROWS FETCH NEXT limit ROWS ONLY` page holds. */
  function PageSize(n: int, offset: int, limit: int): int {
    if offset >= n then 0 else if limit < n - offset then limit else n - offset
  }

  /** `SELECT TOP n`. */
  function Take<T>(s: seq<T>, n: nat): (r: seq<T>)
    ensures |r| == if n < |s| then n else |s|
    ensures r == s[..|r|]
  {
    if n < |s| then s[..n] else s
  }

  /** Sorting keeps every property all rows have. */
  lemma SortByKeeps<T>(s: seq<T>, le: (T, T) -> bool, p: T -> bool)
    requires forall i :: 0 <= i < |s| ==> p(s[i])
    ensures forall i :: 0 <= i < |SortBy(s, le)| ==> p(SortBy(s, le)[i])
  {
    var r := SortBy(s, le);
    forall i | 0 <= i < |r| ensures p(r[i]) {
      assert r[i] in multiset(s);
    }
  }

  /** `ORDER BY .. OFFSET .. FETCH`: the page is sorted, holds distinct rows of the table, its
      row `i` stands at position `offset + i` of the order, and its rows keep every property
      the rows of the table have. */
  lemma SortedPage<T(!new)>(s: seq<T>, le: (T, T) -> bool, offset: nat, limit: nat, p: T -> bool)
    requires TotalPreorder(le)
    requires forall i :: 0 <= i < |s| ==> p(s[i])
    ensures SortedBy(Page(SortBy(s, le), offset, limit), le)
    ensures WindowOf(Page(SortBy(s, le), offset, limit), s, le, offset)
    ensures multiset(Page(SortBy(s, le), offset, limit)) <= multiset(s)
    ensures forall i :: 0 <= i < |Page(SortBy(s, le), offset, limit)| ==> p(Page(SortBy(s, le), offset, limit)[i])
  {
    SortByIsSorted(s, le);
    SortByKeeps(s, le, p);
    PageRanks(s, le, offset, limit);
    PageRows(SortBy(s, le), offset, limit);
  }

  /** `SELECT TOP n .. ORDER BY`: likewise for the first `n` rows; moreover every row left out
      may come no earlier than any row kept. */
  lemma SortedTake<T(!new)>(s: seq<T>, le: (T, T) -> bool, n: nat, p: T -> bool)
    requires TotalPreorder(le)
    requires forall i :: 0 <= i < |s| ==> p(s[i])
    ensures TopOf(Take(SortBy(s, le), n), s, le, n)
    ensures forall i :: 0 <= i < |Take(SortBy(s, le), n)| ==> p(Take(SortBy(s, le), n)[i])
  {
    SortByIsSorted(s, le);
    SortByKeeps(s, le, p);
    TakeRanks(s, le, n);
    TakeLeavesLater(s, le, n);
  }

  /** The rows that must come strictly before `y` in the order `le`. */
  function StrictlyBefore<T>(le: (T, T) -> bool, y: T): T -> bool {
    (x: T) => !le(y, x)
  }

  /** The rows that may come no later than `y` in the order `le` (`y` itself among them). */
  function NoLaterThan<T>(le: (T, T) -> bool, y: T): T -> bool {
    (x: T) => le(x, y)
  }

  /** `y` stands at position `k` (from 0) of `s` ordered by `le`: at most `k` rows of `s` must
      come strictly before it, and more than `k` may come no later than it. With distinct sort
      keys this is exactly "`y` is the row with index `k` of the sorted table". */
  ghost predicate RankedAt<T>(s: seq<T>, le: (T, T) -> bool, y: T, k: int) {
    Count(s, StrictlyBefore(le, y)) <= k < Count(s, NoLaterThan(le, y))
  }

  /** Row `i` of `r` stands at position `offset + i` of `s` ordered by `le`: `r` is the
      window of the ordered table that starts at `offset`. */
  ghost predicate WindowOf<T>(r: seq<T>, s: seq<T>, le: (T, T) -> bool, offset: int) {
    forall i :: 0 <= i < |r| ==> RankedAt(s, le, r[i], offset + i)
  }

  /** `r` is `SELECT TOP n` of `s` ordered by `le`: as many rows as `n` allows, sorted,
      distinct rows of `s` each at its own position of the order, and no row left out may
      come earlier than a row kept. */
  ghost predicate TopOf<T>(r: seq<T>, s: seq<T>, le: (T, T) -> bool, n: int) {
    && |r| == (if |s| < n then |s| else n)
    && SortedBy(r, le)
    && WindowOf(r, s, le, 0)
    && multiset(r) <= multiset(s)
    && forall x :: x in multiset(s) - multiset(r) ==> forall i :: 0 <= i < |r| ==> le(r[i], x)
  }

  lemma {:induction false} CountAll<T>(s: seq<T>, p: T -> bool)
    requires forall i :: 0 <= i < |s| ==> p(s[i])
    ensures Count(s, p) == |s|
  {
    if s != [] {
      CountAll(s[1..], p);
    }
  }

  /** A count does not depend on the order of the rows. */
  lemma CountPermutation<T>(s: seq<T>, t: seq<T>, p: T -> bool)
    requires multiset(s) == multiset(t)
    ensures Count(s, p) == Count(t, p)
  {
    CountIsFilterLength(s, p);
    CountIsFilterLength(t, p);
    forall x ensures multiset(Filter(s, p))[x] == multiset(Filter(t, p))[x] {
      FilterMultiset(s, p, x);
      FilterMultiset(t, p, x);
    }
    assert multiset(Filter(s, p)) == multiset(Filter(t, p));
    assert |multiset(Filter(s, p))| == |multiset(Filter(t, p))|;
  }

  /** In a sorted sequence, row `k` stands at position `k`. */
  lemma SortedRank<T(!new)>(t: seq<T>, le: (T, T) -> bool, k: int)
    requires TotalPreorder(le) && SortedBy(t, le) && 0 <= k < |t|
    ensures RankedAt(t, le, t[k], k)
  {
    var y := t[k];
    assert le(y, y);
    assert t == t[..k] + t[k..];
    CountAppend(t[..k], t[k..], StrictlyBefore(le, y));
    assert forall j :: 0 <= j < |t[k..]| ==> !StrictlyBefore(le, y)(t[k..][j]);
    assert t == t[..k + 1] + t[k + 1..];
    CountAppend(t[..k + 1], t[k + 1..], NoLaterThan(le, y));
    CountAll(t[..k + 1], NoLaterThan(le, y));
  }

  /** Row `i` of the page stands at position `offset + i` of the table in the order `le`. */
  lemma PageRanks<T(!new)>(s: seq<T>, le: (T, T) -> bool, offset: nat, limit: nat)
    requires TotalPreorder(le)
    ensures forall i :: 0 <= i < |Page(SortBy(s, le), offset, limit)| ==>
      RankedAt(s, le, Page(SortBy(s, le), offset, limit)[i], offset + i)
  {
    var t := SortBy(s, le);
    SortByIsSorted(s, le);
    var r := Page(t, offset, limit);
    forall i | 0 <= i < |r| ensures RankedAt(s, le, r[i], offset + i) {
      SortedRank(t, le, offset + i);
      CountPermutation(t, s, StrictlyBefore(le, r[i]));
      CountPermutation(t, s, NoLaterThan(le, r[i]));
    }
  }

  /** The page holds distinct rows of the table. */
  lemma PageRows<T>(s: seq<T>, offset: nat, limit: nat)
    ensures multiset(Page(s, offset, limit)) <= multiset(s)
  {
    if offset < |s| {
      var e := offset + |Page(s, offset, limit)|;
      assert s == s[..offset] + Page(s, offset, limit) + s[e..];
    }
  }

  /** A sub-multiset as long as the whole is the whole. */
  lemma SubMultisetSameSize<T>(a: seq<T>, b: seq<T>)
    requires multiset(a) <= multiset(b) && |a| == |b|
    ensures multiset(a) == multiset(b)
  {
    var d := multiset(b) - multiset(a);
    assert multiset(b) == multiset(a) + d;
    assert |d| == 0;
  }

  /** Row `i` of `TOP n` stands at position `i`. */
  lemma TakeRanks<T(!new)>(s: seq<T>, le: (T, T) -> bool, n: nat)
    requires TotalPreorder(le)
    ensures forall i :: 0 <= i < |Take(SortBy(s, le), n)| ==> RankedAt(s, le, Take(SortBy(s, le), n)[i], i)
  {
    var t := SortBy(s, le);
    SortByIsSorted(s, le);
    var r := Take(t, n);
    forall i | 0 <= i < |r| ensures RankedAt(s, le, r[i], i) {
      SortedRank(t, le, i);
      CountPermutation(t, s, StrictlyBefore(le, r[i]));
      CountPermutation(t, s, NoLaterThan(le, r[i]));
    }
  }

  /** `TOP n` keeps distinct rows of the table, and every row it leaves out may come no earlier
      than any row it keeps. */
  lemma TakeLeavesLater<T(!new)>(s: seq<T>, le: (T, T) -> bool, n: nat)
    requires TotalPreorder(le)
    ensures multiset(Take(SortBy(s, le), n)) <= multiset(s)
    ensures forall x :: x in multiset(s) - multiset(Take(SortBy(s, le), n)) ==>
      forall i :: 0 <= i < |Take(SortBy(s, le), n)| ==> le(Take(SortBy(s, le), n)[i], x)
  {
    var t := SortBy(s, le);
    SortByIsSorted(s, le);
    var r := Take(t, n);
    var k := |r|;
    SplitMultiset(t, k);
    SortedSuffixLater(t, le, k);
  }

  /** Cutting a sequence at `k`: the part after the cut is what the prefix leaves of it. */
  lemma SplitMultiset<T>(t: seq<T>, k: nat)
    requires k <= |t|
    ensures multiset(t[..k]) <= multiset(t)
    ensures multiset(t) - multiset(t[..k]) == multiset(t[k..])
  {
    assert t == t[..k] + t[k..];
  }

  /** In a sorted sequence every row after position `k` may come no earlier than those before. */
  lemma SortedSuffixLater<T>(t: seq<T>, le: (T, T) -> bool, k: nat)
    requires SortedBy(t, le) && k <= |t|
    ensures forall x :: x in multiset(t[k..]) ==> forall i :: 0 <= i < k ==> le(t[i], x)
  {
    forall x | x in multiset(t[k..]) ensures forall i :: 0 <= i < k ==> le(t[i], x) {
      assert x in t[k..];
      var j :| 0 <= j < |t[k..]| && t[k..][j] == x;
      assert t[k + j] == x;
    }
  }

  /** `s.map(f)`, and a `SELECT` of one column. */
  function Map<T, U>(s: seq<T>, f: T -> U): (r: seq<U>)
    ensures |r| == |s|
    ensures forall i :: 0 <= i < |s| ==> r[i] == f(s[i])
  {
    if s == [] then [] else [f(s[0])] + Map(s[1..], f)
  }

  /** The rows whose column `f` holds `y`. */
  ghost function MapsTo<T, U>(f: T -> U, y: U): T -> bool {
    (x: T) => f(x) == y
  }

  /** A value occurs in the column as often as rows map to it. */
  lemma {:induction false} MapMultiplicity<T, U>(s: seq<T>, f: T -> U, y: U)
    ensures multiset(Map(s, f))[y] == Count(s, MapsTo(f, y))
  {
    if s != [] {
      MapMultiplicity(s[1..], f, y);
    }
  }

  /** Reordering the rows reorders their column the same way. */
  lemma MapPermutation<T, U>(s: seq<T>, t: seq<T>, f: T -> U)
    requires multiset(s) == multiset(t)
    ensures multiset(Map(s, f)) == multiset(Map(t, f))
  {
    var a, b := multiset(Map(s, f)), multiset(Map(t, f));
    forall y ensures a[y] == b[y] {
      MapMultiplicity(s, f, y);
      MapMultiplicity(t, f, y);
      CountPermutation(s, t, MapsTo(f, y));
    }
    MultisetEqual(a, b);
  }

  /** Two multisets that agree on every multiplicity are equal. */
  lemma MultisetEqual<T>(a: multiset<T>, b: multiset<T>)
    requires forall y :: a[y] == b[y]
    ensures a == b
  {
  }

  /** `Array.prototype.reverse`. */
  function Reverse<T>(s: seq<T>): (r: seq<T>)
    ensures |r| == |s|
    ensures forall i :: 0 <= i < |s| ==> r[i] == s[|s| - 1 - i]
  {
    seq(|s|, i requires 0 <= i < |s| => s[|s| - 1 - i])
  }

  lemma ReverseReverse<T>(s: seq<T>)
    ensures Reverse(Reverse(s)) == s
  {
  }

  lemma ReverseMultiset<T>(s: seq<T>)
    ensures multiset(Reverse(s)) == multiset(s)
    decreases |s|
  {
    if s != [] {
      var r := Reverse(s);
      assert r == [s[|s| - 1]] + Reverse(s[..|s| - 1]);
      ReverseMultiset(s[..|s| - 1]);
      assert s == s[..|s| - 1] + [s[|s| - 1]];
    }
  }

  /** String order used for `ORDER BY` on text columns: code-point lexicographic. */
  predicate StrLe(a: string, b: string) {
    a == [] || (b != [] && (a[0] < b[0] || (a[0] == b[0] && StrLe(a[1..], b[1..]))))
  }

  lemma {:induction false} StrLeTotal(a: string, b: string)
    ensures StrLe(a, b) || StrLe(b, a)
  {
    if a != [] && b != [] && a[0] == b[0] {
      StrLeTotal(a[1..], b[1..]);
    }
  }

  lemma {:induction false} StrLeTransitive(a: string, b: string, c: string)
    requires StrLe(a, b) && StrLe(b, c)
    ensures StrLe(a, c)
  {
    if a != [] && b != [] && c != [] && a[0] == b[0] && b[0] == c[0] {
      StrLeTransitive(a[1..], b[1..], c[1..]);
    }
  }
}
