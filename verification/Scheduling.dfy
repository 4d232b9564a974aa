/** `Job.StageSort`: a fixpoint topological sort over an unordered map of stages. */
module Scheduling {
  import opened Results
  import opened Model

  /** `T` contains every stage whose needs it contains. */
  ghost predicate Closed(g: map<string, Stage>, T: set<string>) {
    forall k :: k in g && NeedsWithin(g[k], T) ==> k in T
  }

  ghost predicate NeedsWithin(s: Stage, T: set<string>) {
    forall i :: 0 <= i < |s.needs| ==> s.needs[i] in T
  }

  /** The least fixed point of "all my needs are already placed": what lies in every closed set. */
  ghost function Placeable(g: map<string, Stage>): set<string> {
    set k | k in g && forall T :: Closed(g, T) ==> k in T
  }

  /** The stages that can never be placed. */
  ghost function Residue(g: map<string, Stage>): map<string, Stage> {
    g - Placeable(g)
  }

  /** Every stage once, unstarted, after all the stages it needs. */
  ghost predicate IsSchedule(g: map<string, Stage>, list: seq<StageDetail>) {
    && Unstarted(g, list)
    && Distinct(list)
    && Names(list) == g.Keys
    && NeedsComeFirst(list)
  }

  ghost predicate Unstarted(g: map<string, Stage>, list: seq<StageDetail>) {
    forall i :: 0 <= i < |list| ==> list[i].name in g && list[i] == NewStageDetail(list[i].name, g[list[i].name])
  }

  ghost predicate Distinct(list: seq<StageDetail>) {
    forall i, j :: 0 <= i < j < |list| ==> list[i].name != list[j].name
  }

  ghost predicate NeedsComeFirst(list: seq<StageDetail>) {
    forall i, m :: 0 <= i < |list| && 0 <= m < |list[i].stage.needs| ==> PlacedBefore(list, i, list[i].stage.needs[m])
  }

  ghost predicate PlacedBefore(list: seq<StageDetail>, i: nat, n: string)
    requires i <= |list|
  {
    exists j :: 0 <= j < i && list[j].name == n
  }

  ghost function Names(list: seq<StageDetail>): set<string> {
    set i | 0 <= i < |list| :: list[i].name
  }

  /** A need of `a` is `b`. */
  ghost predicate Needs(g: map<string, Stage>, a: string, b: string) {
    a in g && b in g[a].needs
  }

  ghost predicate IsPath(g: map<string, Stage>, p: seq<string>) {
    forall i, j :: 0 <= i < j < |p| && j == i + 1 ==> Needs(g, p[i], p[j])
  }

  ghost predicate IsCycle(g: map<string, Stage>, p: seq<string>) {
    |p| >= 2 && p[0] == p[|p| - 1] && IsPath(g, p)
  }

  ghost predicate Acyclic(g: map<string, Stage>) {
    forall p :: !IsCycle(g, p)
  }

  ghost predicate AllNeedsDefined(g: map<string, Stage>) {
    forall k :: k in g ==> NeedsWithin(g[k], g.Keys)
  }

  /** Every member of `R` waits for a member of `R` or for an undefined stage. */
  ghost predicate Blocked(g: map<string, Stage>, R: set<string>) {
    forall k :: k in R ==> k in g && exists i :: 0 <= i < |g[k].needs| && (g[k].needs[i] in R || g[k].needs[i] !in g)
  }

  /** `Placeable` is closed, and each of its members has its needs inside it. */
  lemma PlaceableIsFixedPoint(g: map<string, Stage>)
    ensures Closed(g, Placeable(g))
    ensures forall k :: k in Placeable(g) ==> NeedsWithin(g[k], Placeable(g))
  {
    var P := Placeable(g);
    var ready := set k | k in P && NeedsWithin(g[k], P);
    assert Closed(g, ready);
    assert P <= ready;
  }

  lemma LeastClosed(g: map<string, Stage>, T: set<string>)
    requires Closed(g, T)
    ensures Placeable(g) <= T
  {
  }

  /** The residue is the greatest blocked set of stages. */
  lemma ResidueIsGreatestBlockedSet(g: map<string, Stage>)
    ensures Blocked(g, Residue(g).Keys)
    ensures forall R :: Blocked(g, R) ==> R <= Residue(g).Keys
  {
    PlaceableIsFixedPoint(g);
    forall k | k in Residue(g).Keys
      ensures exists i :: 0 <= i < |g[k].needs| && (g[k].needs[i] in Residue(g).Keys || g[k].needs[i] !in g)
    {
      assert !NeedsWithin(g[k], Placeable(g));
    }
    forall R | Blocked(g, R)
      ensures R <= Residue(g).Keys
    {
      assert Closed(g, g.Keys - R);
      assert Placeable(g) <= g.Keys - R;
    }
  }

  /** Sorting can succeed exactly when every need names a stage and no stage needs itself, directly or not. */
  lemma ResolvableIffAcyclicAndDefined(g: map<string, Stage>)
    ensures Residue(g) == map[] <==> AllNeedsDefined(g) && Acyclic(g)
  {
    hide Placeable, IsCycle, Blocked;
    ResidueIsGreatestBlockedSet(g);
    ResidueKeys(g);
    if Residue(g) == map[] {
      PlaceableIsFixedPoint(g);
      forall p
        ensures !IsCycle(g, p)
      {
        if IsCycle(g, p) {
          CycleIsBlocked(g, p);
        }
      }
    } else if AllNeedsDefined(g) {
      BlockedHasCycle(g, Residue(g).Keys);
    }
  }

  lemma ResidueKeys(g: map<string, Stage>)
    ensures Residue(g).Keys == g.Keys - Placeable(g)
    ensures Residue(g) == map[] <==> Placeable(g) == g.Keys
  {
    if Placeable(g) == g.Keys {
      assert g - g.Keys == map[];
    }
    if Residue(g) == map[] {
      forall k | k in g ensures k in Placeable(g) {
        assert k !in Residue(g);
      }
    }
  }

  lemma CycleIsBlocked(g: map<string, Stage>, p: seq<string>)
    requires IsCycle(g, p)
    ensures Blocked(g, Visited(p)) && Visited(p) != {}
  {
    assert p[0] in Visited(p);
    forall k | k in p
      ensures k in g && exists n :: 0 <= n < |g[k].needs| && g[k].needs[n] in p
    {
      var i :| 0 <= i < |p| && p[i] == k;
      var j := if i == |p| - 1 then 0 else i;
      assert Needs(g, p[j], p[j + 1]);
    }
  }

  lemma BlockedHasCycle(g: map<string, Stage>, R: set<string>)
    requires AllNeedsDefined(g) && Blocked(g, R) && R != {}
    ensures !Acyclic(g)
  {
    var k :| k in R;
    assert Visited([k]) == {k};
    var c := WalkFindsCycle(g, R, [k]);
  }

  /** Following needs inside a blocked set of defined stages must come back to a stage already seen. */
  lemma {:induction false} WalkFindsCycle(g: map<string, Stage>, R: set<string>, p: seq<string>)
    returns (c: seq<string>)
    requires AllNeedsDefined(g) && Blocked(g, R)
    requires |p| > 0 && IsPath(g, p) && Visited(p) <= R
    ensures IsCycle(g, c)
    decreases |R - Visited(p)|
  {
    var x := p[|p| - 1];
    assert NeedsWithin(g[x], g.Keys);
    var m :| 0 <= m < |g[x].needs| && g[x].needs[m] in R;
    var n := g[x].needs[m];
    var q := p + [n];
    ExtendPath(g, p, n);
    if n in p {
      var i :| 0 <= i < |p| && p[i] == n;
      c := q[i..];
    } else {
      VisitMore(R, p, n);
      c := WalkFindsCycle(g, R, q);
    }
  }

  ghost function Visited(p: seq<string>): set<string> {
    set x | x in p
  }

  lemma VisitMore(R: set<string>, p: seq<string>, n: string)
    requires n in R && n !in p && Visited(p) <= R
    ensures Visited(p + [n]) <= R
    ensures |R - Visited(p + [n])| < |R - Visited(p)|
  {
    assert R - Visited(p + [n]) == R - Visited(p) - {n};
  }

  lemma ExtendPath(g: map<string, Stage>, p: seq<string>, n: string)
    requires |p| > 0 && IsPath(g, p) && Needs(g, p[|p| - 1], n)
    ensures IsPath(g, p + [n])
  {
  }

  /** Each pass visits the remaining keys in an order the program does not choose; only the
      key being visited is ever deleted, so each key is visited once. */
  method StageSort(job: map<string, Stage>) returns (r: Result<seq<StageDetail>, map<string, Stage>>)
    ensures r.Ok? <==> AllNeedsDefined(job) && Acyclic(job)
    ensures r.Ok? ==> IsSchedule(job, r.value)
    ensures r.Err? ==> r.error == Residue(job) && r.error != map[]
  {
    hide IsSchedule, Acyclic, AllNeedsDefined;
    ResolvableIffAcyclicAndDefined(job);
    EmptySchedule(job);
    var stages := job;
    var sorted: set<string> := {};
    var stageList: seq<StageDetail> := [];
    while |stages| > 0
      invariant Progress(job, stages, sorted, stageList)
      decreases |stages|
    {
      var last := |stages|;
      var pending := stages.Keys;
      ghost var before := stages;
      while pending != {}
        invariant Progress(job, stages, sorted, stageList)
        invariant pending <= stages.Keys
        invariant stages == before || |stages| < last
        invariant stages == before ==> forall k :: k in stages.Keys - pending ==> !NeedsWithin(stages[k], sorted)
        decreases pending
      {
        var key :| key in pending;
        pending := pending - {key};
        var stage := stages[key];
        var allContains := AllContained(stage, sorted);
        if allContains {
          PlaceOne(job, stages, sorted, stageList, key);
          sorted := sorted + {key};
          stages := stages - {key};
          stageList := stageList + [NewStageDetail(key, stage)];
        }
      }
      if |stages| == last {
        Stuck(job, stages, sorted, stageList);
        return Err(stages);
      }
    }
    Finished(job, sorted, stageList);
    return Ok(stageList);
  }

  method AllContained(stage: Stage, sorted: set<string>) returns (allContains: bool)
    ensures allContains <==> NeedsWithin(stage, sorted)
  {
    allContains := true;
    for i := 0 to |stage.needs|
      invariant allContains <==> forall j :: 0 <= j < i ==> stage.needs[j] in sorted
    {
      if stage.needs[i] !in sorted {
        allContains := false;
      }
    }
  }

  lemma EmptySchedule(job: map<string, Stage>)
    ensures Progress(job, job, {}, [])
  {
    assert job - {} == job;
    assert job - job.Keys == map[];
  }

  /** A pass that places nothing has found the least fixed point. */
  lemma Stuck(job: map<string, Stage>, stages: map<string, Stage>, sorted: set<string>, list: seq<StageDetail>)
    requires Progress(job, stages, sorted, list) && |stages| > 0
    requires forall k :: k in stages ==> !NeedsWithin(stages[k], sorted)
    ensures stages == Residue(job) && stages != map[]
  {
    hide IsSchedule, Placeable, Distinct, NeedsComeFirst, Unstarted, Names;
    forall k | k in job && NeedsWithin(job[k], sorted)
      ensures k in sorted
    {
      assert k in job - sorted || k in sorted;
    }
    LeastClosed(job, sorted);
  }

  lemma Finished(job: map<string, Stage>, sorted: set<string>, list: seq<StageDetail>)
    requires Progress(job, map[], sorted, list)
    ensures Residue(job) == map[] && IsSchedule(job, list)
  {
    assert job - {} == job;
    forall k | k in job ensures k in Placeable(job) {
      assert k !in (job - sorted);
    }
  }

  /** What holds between two placements: placed and remaining stages partition the job, and the
      list is a schedule of the placed ones. */
  ghost predicate Progress(job: map<string, Stage>, stages: map<string, Stage>, sorted: set<string>,
                           list: seq<StageDetail>) {
    && sorted <= Placeable(job)
    && stages == job - sorted
    && Unstarted(job, list)
    && Distinct(list)
    && Names(list) == sorted
    && NeedsComeFirst(list)
  }

  lemma PlaceOne(job: map<string, Stage>, stages: map<string, Stage>, sorted: set<string>, list: seq<StageDetail>,
                 key: string)
    requires Progress(job, stages, sorted, list)
    requires key in stages && NeedsWithin(stages[key], sorted)
    ensures Progress(job, stages - {key}, sorted + {key}, list + [NewStageDetail(key, stages[key])])
    ensures |stages - {key}| == |stages| - 1
  {
    hide NeedsComeFirst, Names, Placeable, Distinct;
    PlaceableIsFixedPoint(job);
    assert key in Placeable(job) by {
      assert NeedsWithin(job[key], Placeable(job));
    }
    AppendName(list, NewStageDetail(key, stages[key]));
    AppendKeepsNeedsFirst(list, NewStageDetail(key, stages[key]));
    assert (stages - {key}).Keys == stages.Keys - {key};
    assert stages - {key} == job - (sorted + {key});
  }

  lemma AppendName(list: seq<StageDetail>, d: StageDetail)
    ensures Names(list + [d]) == Names(list) + {d.name}
    ensures d.name !in Names(list) && Distinct(list) ==> Distinct(list + [d])
  {
    var next := list + [d];
    assert next[|list|].name == d.name;
    forall k | k in Names(list)
      ensures k in Names(next)
    {
      var i :| 0 <= i < |list| && list[i].name == k;
      assert next[i].name == k;
    }
  }

  lemma AppendKeepsNeedsFirst(list: seq<StageDetail>, d: StageDetail)
    requires NeedsComeFirst(list) && NeedsWithin(d.stage, Names(list))
    ensures NeedsComeFirst(list + [d])
  {
    var next := list + [d];
    forall i, m | 0 <= i < |next| && 0 <= m < |next[i].stage.needs|
      ensures PlacedBefore(next, i, next[i].stage.needs[m])
    {
      if i < |list| {
        assert PlacedBefore(list, i, list[i].stage.needs[m]);
        var j :| 0 <= j < i && list[j].name == list[i].stage.needs[m];
        assert next[j].name == next[i].stage.needs[m];
      } else {
        assert d.stage.needs[m] in Names(list);
        var j :| 0 <= j < |list| && list[j].name == d.stage.needs[m];
        assert next[j].name == next[i].stage.needs[m];
      }
    }
  }
}
