/** `SlicePage` and the lists it cuts, and the running stage a read job detail patches. */
module Paging {
  import opened Results
  import opened Model
  import opened RunSpec
  import opened Arithmetic
  import StageRecords
  import RunTheorems

  /** The quotient of two floats holding `a` and `b` exactly: exact when it is a whole number,
      otherwise within one part in 2^53. */
  ghost predicate RoundedQuotient(a: nat, b: nat, q: real)
    requires b != 0
  {
    if a % b == 0 then q == (a / b) as real
    else Near(q * b as real, a as real)
  }

  predicate Near(t: real, a: real) {
    -a <= (t - a) * 9007199254740992.0 <= a
  }

  /** `math.Ceil`. */
  function Ceil(q: real): int {
    -(-q).Floor
  }

  function CeilDiv(a: nat, b: nat): nat
    requires b != 0
  {
    (a + b - 1) / b
  }

  /** The number of pages: just enough to hold everything. */
  lemma CeilDivBounds(a: nat, b: nat)
    requires b != 0 && a != 0
    ensures CeilDiv(a, b) >= 1 && (CeilDiv(a, b) - 1) * b < a <= CeilDiv(a, b) * b
  {
    var n := CeilDiv(a, b);
    var e := (a + b - 1) % b;
    assert a + b - 1 == n * b + e;
    assert (n - 1) * b == n * b - b;
    assert n == 0 ==> n * b == 0;
  }

  lemma CeilDivIs(a: nat, b: nat, k: nat)
    requires k * b < a <= k * b + b
    ensures b != 0 && CeilDiv(a, b) == k + 1
  {
    var kb := k * b;
    assert (k + 1) * b == kb + b;
    DivModUnique(a + b - 1, b, k + 1, a - 1 - kb);
  }

  /** Below 2^53 rounding never moves the quotient across a whole number. */
  lemma RoundingKeepsCeiling(a: nat, b: nat, q: real)
    requires b != 0 && a < 0x20_0000_0000_0000 && RoundedQuotient(a, b, q)
    ensures Ceil(q) == CeilDiv(a, b)
  {
    hide Near, Ceil, CeilDiv;
    var k, f := a / b, a % b;
    if f == 0 {
      WholeQuotient(a, b);
      CeilOfWhole(k);
    } else {
      FractionalQuotient(a, b, k, f, q);
    }
  }

  lemma FractionalQuotient(a: nat, b: nat, k: nat, f: nat, q: real)
    requires a == k * b + f && 0 < f < b
    requires a < 0x20_0000_0000_0000 && Near(q * b as real, a as real)
    ensures Ceil(q) == k + 1 == CeilDiv(a, b)
  {
    hide Near, Ceil, CeilDiv;
    var kb, t := k * b, q * b as real;
    CeilDivIs(a, b, k);
    WithinOne(a as real, t);
    Between(k as real, q, b as real, kb as real, t);
    CeilBetween(q, k);
  }

  lemma WithinOne(a: real, t: real)
    requires a < 9007199254740992.0 && Near(t, a)
    ensures a - 1.0 < t < a + 1.0
  {
  }

  lemma WholeQuotient(a: nat, b: nat)
    requires b != 0 && a % b == 0
    ensures CeilDiv(a, b) == a / b
  {
    DivModUnique(a + b - 1, b, a / b, b - 1);
  }

  lemma CeilOfWhole(k: int)
    ensures Ceil(k as real) == k
  {
  }

  lemma CeilBetween(q: real, k: int)
    requires k as real < q < (k + 1) as real
    ensures Ceil(q) == k + 1
  {
  }

  lemma Between(x: real, q: real, b: real, xb: real, qb: real)
    requires b > 0.0 && xb == x * b && qb == q * b && xb < qb < xb + b
    ensures x < q < x + 1.0
  {
    var d := q - x;
    assert d * b == qb - xb;
    assert d <= 0.0 ==> d * b <= 0.0;
    assert d >= 1.0 ==> (d - 1.0) * b >= 0.0;
  }

  // ---- one page ----

  function PageOf(page: int): int {
    if page <= 0 then 1 else page
  }

  function SizeOf(pageSize: int): int {
    if pageSize < 0 then 10 else pageSize
  }

  function Bounds(page: nat, pageSize: nat, nums: nat): (nat, nat)
    requires page >= 1
  {
    if pageSize > nums then (0, nums)
    else if pageSize == 0 || page > CeilDiv(nums, pageSize) then (0, 0)
    else
      var start := (page - 1) * pageSize;
      (start, if start + pageSize > nums then nums else start + pageSize)
  }

  /** `quotient` is what dividing the two numbers as floats yields. Dividing by a page size of zero yields no number,
      and `converted` is whatever the platform makes of it: the page is empty all the same. */
  method SlicePage(page0: int, pageSize0: int, nums: nat, quotient: real, converted: int)
    returns (page: int, pageSize: int, start: nat, end: nat)
    requires nums < 0x20_0000_0000_0000
    requires 0 < SizeOf(pageSize0) <= nums ==> RoundedQuotient(nums, SizeOf(pageSize0), quotient)
    ensures page == PageOf(page0) && pageSize == SizeOf(pageSize0)
    ensures page == (if page0 <= 0 then 1 else page0) && pageSize == (if pageSize0 < 0 then 10 else pageSize0)
    ensures (start, end) == Bounds(page, pageSize, nums)
    ensures start <= end <= nums && (pageSize <= nums ==> end - start <= pageSize)
    ensures pageSize > nums ==> start == 0 && end == nums
    ensures var first := (page - 1) * pageSize;
            0 < pageSize <= nums && first < nums ==>
              start == first && end == (if first + pageSize > nums then nums else first + pageSize)
    ensures pageSize == 0 || (pageSize <= nums && (page - 1) * pageSize >= nums) ==> start == end == 0
  {
    BoundsOutright(PageOf(page0), SizeOf(pageSize0), nums);
    hide CeilDiv, Ceil;
    page, pageSize := page0, pageSize0;
    if page <= 0 {
      page := 1;
    }
    if pageSize < 0 {
      pageSize := 10;
    }
    if pageSize > nums {
      return page, pageSize, 0, nums;
    }
    var pageCount := converted;
    if pageSize != 0 {
      RoundingKeepsCeiling(nums, pageSize, quotient);
      pageCount := Ceil(quotient);
    }
    if page > pageCount {
      return page, pageSize, 0, 0;
    }
    var sliceStart := (page - 1) * pageSize;
    if pageSize != 0 {
      PageStart(page, pageSize, nums);
    }
    var sliceEnd := sliceStart + pageSize;
    if sliceEnd > nums {
      sliceEnd := nums;
    }
    return page, pageSize, sliceStart, sliceEnd;
  }

  /** There is such a page exactly when the pages before it do not hold everything. */
  lemma PageExistsIff(page: nat, pageSize: nat, nums: nat)
    requires 1 <= pageSize <= nums && page >= 1
    ensures page <= CeilDiv(nums, pageSize) <==> (page - 1) * pageSize < nums
  {
    hide CeilDiv;
    var n := CeilDiv(nums, pageSize);
    CeilDivBounds(nums, pageSize);
    if page <= n {
      PageStart(page, pageSize, nums);
    } else {
      Monotone(n, page - 1, pageSize);
    }
  }

  lemma BoundsOutright(page: nat, pageSize: nat, nums: nat)
    requires page >= 1
    ensures var (start, end) := Bounds(page, pageSize, nums); var first := (page - 1) * pageSize;
            && (pageSize > nums ==> start == 0 && end == nums)
            && (0 < pageSize <= nums && first < nums ==>
                  start == first && end == (if first + pageSize > nums then nums else first + pageSize))
            && (pageSize == 0 || (pageSize <= nums && first >= nums) ==> start == end == 0)
  {
    hide CeilDiv;
    if 1 <= pageSize <= nums { PageExistsIff(page, pageSize, nums); }
  }

  lemma PageStart(page: nat, pageSize: nat, nums: nat)
    requires pageSize >= 1 && nums >= 1 && 1 <= page <= CeilDiv(nums, pageSize)
    ensures 0 <= (page - 1) * pageSize < nums
  {
    CeilDivBounds(nums, pageSize);
    var n := CeilDiv(nums, pageSize);
    assert (page - 1) * pageSize <= (n - 1) * pageSize by { Monotone(page - 1, n - 1, pageSize); }
  }

  lemma Monotone(x: nat, y: nat, b: nat)
    requires x <= y
    ensures x * b <= y * b
  {
  }

  // ---- all pages ----

  function Page<T>(s: seq<T>, page: nat, pageSize: nat): seq<T>
    requires page >= 1
  {
    var (start, end) := Bounds(page, pageSize, |s|);
    if start <= end <= |s| then s[start..end] else []
  }

  function FirstPages<T>(s: seq<T>, pages: nat, pageSize: nat): seq<T>
    requires pageSize >= 1
  {
    if pages == 0 then [] else FirstPages(s, pages - 1, pageSize) + Page(s, pages, pageSize)
  }

  lemma {:induction false} PagesAreAdjacent<T>(s: seq<T>, pages: nat, pageSize: nat)
    requires 1 <= pageSize <= |s| && pages <= CeilDiv(|s|, pageSize)
    ensures FirstPages(s, pages, pageSize) == if pages * pageSize <= |s| then s[..pages * pageSize] else s
  {
    hide CeilDiv, Page;
    if pages > 0 {
      PagesAreAdjacent(s, pages - 1, pageSize);
      PageStart(pages, pageSize, |s|);
      NextPage(s, pages, pageSize);
    }
  }

  /** A page takes up where the pages before it end. */
  lemma NextPage<T>(s: seq<T>, page: nat, pageSize: nat)
    requires 1 <= pageSize <= |s| && 1 <= page <= CeilDiv(|s|, pageSize)
    requires 0 <= (page - 1) * pageSize < |s|
    ensures s[..(page - 1) * pageSize] + Page(s, page, pageSize)
            == if page * pageSize <= |s| then s[..page * pageSize] else s
  {
    hide CeilDiv;
    var start := (page - 1) * pageSize;
    assert page * pageSize == start + pageSize;
    TakeMore(s, start, pageSize);
  }

  lemma TakeMore<T>(s: seq<T>, start: nat, n: nat)
    requires start <= |s|
    ensures start + n <= |s| ==> s[..start] + s[start..start + n] == s[..start + n]
    ensures s[..start] + s[start..|s|] == s
  {
  }

  /** Pages one to the last put together are the whole list, for every page size: one page holds it if the size
      exceeds it. Later pages are empty if the size does not exceed the list, and else the whole list again. */
  lemma PagesConcatenate<T>(s: seq<T>, pageSize: nat)
    requires pageSize >= 1
    ensures FirstPages(s, if pageSize > |s| then 1 else CeilDiv(|s|, pageSize), pageSize) == s
    ensures pageSize <= |s| ==> forall page :: page > CeilDiv(|s|, pageSize) ==> Page(s, page, pageSize) == []
    ensures pageSize > |s| ==> forall page :: page >= 1 ==> Page(s, page, pageSize) == s
  {
    hide CeilDiv, FirstPages;
    if pageSize > |s| {
      OnePage(s, pageSize);
    } else {
      var n := CeilDiv(|s|, pageSize);
      PagesAreAdjacent(s, n, pageSize);
      CeilDivBounds(|s|, pageSize);
    }
    assert s[..|s|] == s;
  }

  lemma OnePage<T>(s: seq<T>, pageSize: nat)
    requires pageSize > |s|
    ensures FirstPages(s, 1, pageSize) == s
  {
    assert FirstPages(s, 0, pageSize) == [];
  }

  /** With a page size larger than the list, every page is the whole list; so a page past the end is
      empty exactly when the size is not, or the list is. */
  lemma PagePastTheEnd<T>(s: seq<T>, page: nat, pageSize: nat)
    requires pageSize >= 1 && page > CeilDiv(|s|, pageSize) && page >= 1
    ensures Page(s, page, pageSize) == [] <==> pageSize <= |s| || s == []
  {
  }

  // ---- lists of job details ----

  datatype JobDetail = JobDetail(id: int, stages: seq<StageDetail>)

  /** What sorting by `JobDetailDecrement` can give. */
  ghost predicate IsDescending(sorted: seq<JobDetail>, details: seq<JobDetail>) {
    && multiset(sorted) == multiset(details)
    && forall i, j :: 0 <= i < j < |sorted| ==> sorted[i].id >= sorted[j].id
  }

  ghost predicate DistinctIds(s: seq<JobDetail>) {
    forall i, j :: 0 <= i < j < |s| ==> s[i].id != s[j].id
  }

  /** When no two details share an id there is only one such list. */
  lemma {:induction false} DescendingIsUnique(a: seq<JobDetail>, b: seq<JobDetail>, details: seq<JobDetail>)
    requires IsDescending(a, details) && IsDescending(b, details) && DistinctIds(a)
    ensures a == b
    decreases |a|
  {
    hide DistinctIds;
    assert |a| == |multiset(a)| == |multiset(b)| == |b|;
    if a != [] {
      SameHead(a, b);
      Tail(a, details);
      Tail(b, details);
      assert multiset(a[1..]) == multiset(b[1..]);
      DescendingIsUnique(a[1..], b[1..], a[1..]);
      assert a == [a[0]] + a[1..] && b == [b[0]] + b[1..];
    }
  }

  lemma Tail(a: seq<JobDetail>, details: seq<JobDetail>)
    requires a != [] && IsDescending(a, details)
    ensures IsDescending(a[1..], a[1..]) && (DistinctIds(a) ==> DistinctIds(a[1..]))
    ensures multiset(a[1..]) == multiset(details) - multiset{a[0]}
  {
    assert a == [a[0]] + a[1..];
  }

  lemma SameHead(a: seq<JobDetail>, b: seq<JobDetail>)
    requires a != [] && b != [] && multiset(a) == multiset(b) && DistinctIds(a)
    requires IsDescending(a, a) && IsDescending(b, b)
    ensures a[0] == b[0]
  {
    assert a[0] in multiset(b) && b[0] in multiset(a);
    var i :| 0 <= i < |b| && b[i] == a[0];
    var j :| 0 <= j < |a| && a[j] == b[0];
  }

  /** `sorted` is what the library's sort makes of the details read from the job's folder. */
  method JobDetailList(details: seq<JobDetail>, sorted: seq<JobDetail>, page: int, pageSize: int, quotient: real,
                       converted: int)
    returns (pageNum: int, size: int, data: seq<JobDetail>, total: nat)
    requires IsDescending(sorted, details)
    requires |details| < 0x20_0000_0000_0000
    requires 0 < SizeOf(pageSize) <= |details| ==> RoundedQuotient(|details|, SizeOf(pageSize), quotient)
    ensures pageNum == PageOf(page) && size == SizeOf(pageSize)
    ensures pageNum == (if page <= 0 then 1 else page) && size == (if pageSize < 0 then 10 else pageSize)
    ensures data == Page(sorted, pageNum, size) && total == |details|
    ensures size > |details| ==> data == sorted
    ensures 0 < size <= |details| ==> data == Slice(sorted, (pageNum - 1) * size, size)
    ensures size == 0 ==> data == []
  {
    hide Bounds, RoundedQuotient;
    assert |sorted| == |multiset(sorted)| == |multiset(details)| == |details|;
    var start, end;
    pageNum, size, start, end := SlicePage(page, pageSize, |sorted|, quotient, converted);
    data, total := sorted[start..end], |sorted|;
    PageIs(sorted, pageNum, size, start, end);
    if 0 < size <= |details| { SliceIs(sorted, (pageNum - 1) * size, size, start, end); }
  }

  /** At most `n` items from `first` on. */
  function Slice<T>(s: seq<T>, first: int, n: int): seq<T> {
    if first < 0 || n < 0 || first >= |s| then []
    else if first + n > |s| then s[first..]
    else s[first..first + n]
  }

  lemma PageIs<T>(s: seq<T>, page: nat, pageSize: nat, start: nat, end: nat)
    requires page >= 1 && (start, end) == Bounds(page, pageSize, |s|) && start <= end <= |s|
    ensures Page(s, page, pageSize) == s[start..end]
  {
    hide Bounds;
  }

  lemma SliceIs<T>(s: seq<T>, first: int, n: nat, start: nat, end: nat)
    requires start <= end <= |s|
    requires first < |s| ==> start == first && end == (if first + n > |s| then |s| else first + n)
    requires first >= |s| ==> start == end
    ensures s[start..end] == Slice(s, first, n)
  {
  }

  /** The stage whose duration a read job detail brings up to date: the last one that is RUNNING. */
  method GetJobDetail(stages: seq<StageDetail>) returns (runningStage: Option<nat>)
    ensures runningStage.None? <==> forall i :: 0 <= i < |stages| ==> stages[i].status != Running
    ensures runningStage.Some? ==> runningStage.value < |stages| && stages[runningStage.value].status == Running
    ensures runningStage.Some? ==> forall i :: runningStage.value < i < |stages| ==> stages[i].status != Running
  {
    runningStage := None;
    for i := 0 to |stages|
      invariant runningStage.None? <==> forall j :: 0 <= j < i ==> stages[j].status != Running
      invariant runningStage.Some? ==> runningStage.value < i && stages[runningStage.value].status == Running
      invariant runningStage.Some? ==> forall j :: runningStage.value < j < i ==> stages[j].status != Running
    {
      if stages[i].status == Running {
        runningStage := Some(i);
      }
    }
  }

  /** In every job detail a run saves, the last RUNNING stage is the only one. */
  lemma PatchedStageIsTheOnlyOne(plan: seq<StageDetail>, mkdirFailed: bool, o: Oracle, k: nat, i: nat, j: nat)
    requires StageRecords.Marked(plan, plan, 0, NotRun) && k < |Run(plan, mkdirFailed, o).saved|
    requires var stages := Run(plan, mkdirFailed, o).saved[k].stages;
             i < |stages| && j < |stages| && stages[i].status == Running && stages[j].status == Running
    ensures i == j
  {
    hide Run, StageRecords.Marked;
    RunTheorems.RecordsInOrder(plan, mkdirFailed, o);
    RunTheorems.AtMostOneRunning(plan, Run(plan, mkdirFailed, o).saved[k].stages, i, j);
  }
}
