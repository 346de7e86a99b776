/** Claim ids over a tree of subagents that grows. A subagent's namespace is its place
    among the children as the query orders them, by the time their spawning
    transaction began. */
module ClaimTrees {
  import opened Basics
  import opened Sorting
  import opened Json
  import opened Identities
  import opened Checkpoints
  import opened CheckpointPrefixes
  import opened ResearchCompletion
  import opened ClaimIds

  /** A row of the subagent table with the log of its Run. `createdAt` is when the
      spawning transaction began, not when it committed. */
  datatype Child = Child(createdAt: int, childId: string, rows: seq<Row>)

  /** The root's log and the table of its children, in the order they were committed. */
  datatype ClaimTree = ClaimTree(rootRows: seq<Row>, children: seq<Child>)

  datatype TreeRun = Root | Spawned(index: nat)

  // ----- The order of the query -----

  predicate TextBefore(a: string, b: string) {
    a == "" || (b != "" && (a[0] < b[0] || (a[0] == b[0] && TextBefore(a[1..], b[1..]))))
  }

  /** order by created_at, child_run_id */
  predicate BySpawn(a: Child, b: Child) {
    a.createdAt < b.createdAt || (a.createdAt == b.createdAt && TextBefore(a.childId, b.childId))
  }

  /** The query lists `a` strictly before `b`. */
  predicate Precedes(a: Child, b: Child) {
    !BySpawn(b, a)
  }

  lemma {:induction false} TextsCompare(a: string, b: string)
    ensures TextBefore(a, b) || TextBefore(b, a)
    ensures TextBefore(a, b) && TextBefore(b, a) ==> a == b
    decreases |a|
  {
    if a != "" && b != "" && a[0] == b[0] {
      TextsCompare(a[1..], b[1..]);
      assert a == [a[0]] + a[1..] && b == [b[0]] + b[1..];
    }
  }

  lemma {:induction false} TextsChain(a: string, b: string, c: string)
    requires TextBefore(a, b) && TextBefore(b, c)
    ensures TextBefore(a, c)
    decreases |a|
  {
    if a != "" && a[0] == b[0] && b[0] == c[0] {
      TextsChain(a[1..], b[1..], c[1..]);
    }
  }

  lemma SpawnOrderIsTotal()
    ensures TotalOrder(BySpawn)
  {
    forall a, b ensures BySpawn(a, b) || BySpawn(b, a) {
      TextsCompare(a.childId, b.childId);
    }
    forall a, b, c | BySpawn(a, b) && BySpawn(b, c) ensures BySpawn(a, c) {
      if a.createdAt == b.createdAt == c.createdAt {
        TextsChain(a.childId, b.childId, c.childId);
      }
    }
  }

  lemma PrecedesOneWay(a: Child, b: Child)
    ensures Precedes(a, b) ==> !Precedes(b, a)
    ensures a.childId != b.childId ==> Precedes(a, b) || Precedes(b, a)
  {
    TextsCompare(a.childId, b.childId);
  }

  lemma PrecedesChains(a: Child, b: Child, c: Child)
    requires Precedes(a, b) && Precedes(b, c)
    ensures Precedes(a, c)
  {
    hide BySpawn;
    SpawnOrderIsTotal();
  }

  /** Earlier by the clock, or at the same time and first by id. */
  lemma PrecedesMeans(a: Child, b: Child)
    ensures Precedes(a, b) <==>
      a.createdAt < b.createdAt ||
      (a.createdAt == b.createdAt && a.childId != b.childId && TextBefore(a.childId, b.childId))
  {
    TextsCompare(a.childId, b.childId);
  }

  // ----- Places -----

  /** How many of these children the query lists before `c`. */
  function CountBefore(children: seq<Child>, c: Child): nat {
    if children == [] then 0
    else CountBefore(children[..|children| - 1], c) + (if Precedes(children[|children| - 1], c) then 1 else 0)
  }

  predicate DifferentChildren(children: seq<Child>) {
    forall i, j | 0 <= i < j < |children| :: children[i].childId != children[j].childId
  }

  lemma {:induction false} CountOfBoth(a: seq<Child>, b: seq<Child>, c: Child)
    ensures CountBefore(a + b, c) == CountBefore(a, c) + CountBefore(b, c)
    decreases |b|
  {
    hide Precedes;
    if b == [] {
      assert a + b == a;
    } else {
      CountOfBoth(a, b[..|b| - 1], c);
      assert (a + b)[..|a + b| - 1] == a + b[..|b| - 1];
    }
  }

  lemma {:induction false} NobodyBefore(children: seq<Child>, c: Child)
    ensures CountBefore(children, c) == 0 <==> forall k | 0 <= k < |children| :: !Precedes(children[k], c)
    decreases |children|
  {
    hide Precedes;
    if children != [] {
      NobodyBefore(children[..|children| - 1], c);
    }
  }

  lemma {:induction false} EverybodyBefore(children: seq<Child>, c: Child)
    requires forall k | 0 <= k < |children| :: Precedes(children[k], c)
    ensures CountBefore(children, c) == |children|
    decreases |children|
  {
    hide Precedes;
    if children != [] {
      EverybodyBefore(children[..|children| - 1], c);
    }
  }

  lemma {:induction false} CountAtMost(children: seq<Child>, c: Child)
    ensures CountBefore(children, c) <= |children|
    decreases |children|
  {
    hide Precedes;
    if children != [] {
      CountAtMost(children[..|children| - 1], c);
    }
  }

  lemma CountHere(children: seq<Child>, i: nat, c: Child)
    requires i < |children|
    ensures CountBefore(children, c) ==
      CountBefore(children[..i], c) + (if Precedes(children[i], c) then 1 else 0) + CountBefore(children[i + 1..], c)
  {
    hide Precedes;
    assert children == children[..i] + ([children[i]] + children[i + 1..]);
    CountOfBoth(children[..i], [children[i]] + children[i + 1..], c);
    CountOfBoth([children[i]], children[i + 1..], c);
    assert [children[i]][..0] == [];
    assert CountBefore([children[i]], c) == CountBefore([], c) + (if Precedes(children[i], c) then 1 else 0);
  }

  lemma PlaceIsInside(children: seq<Child>, i: nat)
    requires i < |children|
    ensures CountBefore(children, children[i]) < |children|
  {
    PrecedesOneWay(children[i], children[i]);
    CountHere(children, i, children[i]);
    CountAtMost(children[..i], children[i]);
    CountAtMost(children[i + 1..], children[i]);
  }

  lemma {:induction false} CountRises(children: seq<Child>, a: Child, b: Child)
    requires Precedes(a, b)
    ensures CountBefore(children, a) <= CountBefore(children, b)
    decreases |children|
  {
    hide Precedes;
    if children != [] {
      CountRises(children[..|children| - 1], a, b);
      if Precedes(children[|children| - 1], a) {
        PrecedesChains(children[|children| - 1], a, b);
      }
    }
  }

  /** A child that comes first has the smaller place. */
  lemma EarlierHasSmallerPlace(children: seq<Child>, i: nat, b: Child)
    requires i < |children| && Precedes(children[i], b)
    ensures CountBefore(children, children[i]) < CountBefore(children, b)
  {
    var a := children[i];
    PrecedesOneWay(a, a);
    CountHere(children, i, a);
    CountHere(children, i, b);
    CountRises(children[..i], a, b);
    CountRises(children[i + 1..], a, b);
  }

  lemma PlacesDiffer(children: seq<Child>, i: nat, j: nat)
    requires DifferentChildren(children) && i < |children| && j < |children| && i != j
    ensures CountBefore(children, children[i]) != CountBefore(children, children[j])
  {
    hide Precedes;
    PrecedesOneWay(children[i], children[j]);
    if Precedes(children[i], children[j]) {
      EarlierHasSmallerPlace(children, i, children[j]);
    } else {
      EarlierHasSmallerPlace(children, j, children[i]);
    }
  }

  // ----- The tree as it is loaded -----

  datatype LoadedRun = LoadedRun(runId: string, namespace: string, prefix: Prefix)

  lemma {:induction false} CountInserted(s: seq<Child>, x: Child, c: Child)
    ensures CountBefore(Inserted(BySpawn, s, x), c) == CountBefore(s, c) + (if Precedes(x, c) then 1 else 0)
    decreases |s|
  {
    hide Precedes, BySpawn;
    One(x, c);
    if s == [] || BySpawn(x, s[0]) {
      CountOfBoth([x], s, c);
    } else {
      CountInserted(s[1..], x, c);
      CountOfBoth([s[0]], Inserted(BySpawn, s[1..], x), c);
      CountOfBoth([s[0]], s[1..], c);
      assert s == [s[0]] + s[1..];
    }
  }

  lemma One(x: Child, c: Child)
    ensures CountBefore([x], c) == (if Precedes(x, c) then 1 else 0)
  {
    assert [x][..0] == [];
    assert CountBefore([], c) == 0;
  }

  lemma {:induction false} CountSorted(s: seq<Child>, c: Child)
    ensures CountBefore(Sorted(BySpawn, s), c) == CountBefore(s, c)
    decreases |s|
  {
    hide Precedes, BySpawn;
    if s != [] {
      CountSorted(s[..|s| - 1], c);
      CountInserted(Sorted(BySpawn, s[..|s| - 1]), s[|s| - 1], c);
    }
  }

  /** In the order of the query the k-th child has place k. */
  lemma SortedByPlace(children: seq<Child>, k: nat)
    requires DifferentChildren(children) && k < |children|
    ensures CountBefore(children, Sorted(BySpawn, children)[k]) == k
    ensures Sorted(BySpawn, children)[k] in children
  {
    var t := Sorted(BySpawn, children);
    SpawnOrderIsTotal();
    SortedAscends(BySpawn, children);
    SortedHasTheSame(BySpawn, children);
    SortedAreDifferent(children);
    hide BySpawn, Sorted;
    assert t[k] in t;
    CountSorted(children, t[k]);
    CountHere(t, k, t[k]);
    PrecedesOneWay(t[k], t[k]);
    var front, rest := t[..k], t[k + 1..];
    forall i | 0 <= i < k ensures Precedes(front[i], t[k]) {
      PrecedesOneWay(t[i], t[k]);
      assert BySpawn(t[i], t[k]);
    }
    EverybodyBefore(front, t[k]);
    forall i | 0 <= i < |rest| ensures !Precedes(rest[i], t[k]) {
      assert rest[i] == t[k + 1 + i] && BySpawn(t[k], t[k + 1 + i]);
    }
    NobodyBefore(rest, t[k]);
  }

  lemma SortedAreDifferent(children: seq<Child>)
    requires DifferentChildren(children)
    ensures DifferentChildren(Sorted(BySpawn, children))
  {
    hide BySpawn;
    var t := Sorted(BySpawn, children);
    forall i, j | 0 <= i < j < |t| ensures t[i].childId != t[j].childId {
      OnePlaceEach(children, t, i, j);
    }
  }

  lemma OnePlaceEach(s: seq<Child>, t: seq<Child>, i: nat, j: nat)
    requires DifferentChildren(s) && multiset(s) == multiset(t) && i < j < |t|
    ensures t[i].childId != t[j].childId
  {
    assert t[i] in multiset(t) && t[j] in multiset(t);
    var m :| 0 <= m < |s| && s[m] == t[i];
    var n :| 0 <= n < |s| && s[n] == t[j];
    if m == n {
      TwiceInMultiset(t, i, j);
      OnceInMultiset(s, m);
    }
  }

  lemma TwiceInMultiset<T>(t: seq<T>, i: nat, j: nat)
    requires i < j < |t| && t[i] == t[j]
    ensures multiset(t)[t[i]] >= 2
  {
    assert t == t[..j] + ([t[j]] + t[j + 1..]);
    assert multiset(t) == multiset(t[..j]) + multiset([t[j]] + t[j + 1..]);
    assert t[..j][i] in multiset(t[..j]);
    assert ([t[j]] + t[j + 1..])[0] in multiset([t[j]] + t[j + 1..]);
  }

  lemma OnceInMultiset(s: seq<Child>, m: nat)
    requires DifferentChildren(s) && m < |s|
    ensures multiset(s)[s[m]] == 1
  {
    assert s == s[..m] + ([s[m]] + s[m + 1..]);
    assert multiset(s) == multiset(s[..m]) + (multiset{s[m]} + multiset(s[m + 1..]));
    assert s[m] !in s[..m] && s[m] !in s[m + 1..];
  }

  /** Loads the tree: the root first, then its children in the order of the query,
      each with the namespace of its place. It fails if a log does not load. */
  method LoadResearchClaimTree(rootId: string, tree: ClaimTree) returns (r: Option<seq<LoadedRun>>)
    requires DifferentChildren(tree.children)
    ensures r.Some? <==>
      Load(tree.rootRows).Some? && forall i | 0 <= i < |tree.children| :: Load(tree.children[i].rows).Some?
    ensures r.Some? ==>
      |r.value| == 1 + |tree.children| && r.value[0] == LoadedRun(rootId, "", Load(tree.rootRows).value)
    ensures r.Some? ==> forall i | 0 <= i < |tree.children| ::
      IsLoaded(r.value, tree, i)
  {
    hide Load, Sorted, BySpawn, ResearchClaimNamespace, CountBefore;
    var sorted := Sorted(BySpawn, tree.children);
    SortedHasTheSame(BySpawn, tree.children);
    var root := Load(tree.rootRows);
    if root.None? {
      return None;
    }
    var runs := [LoadedRun(rootId, "", root.value)];
    for k := 0 to |sorted|
      invariant |runs| == k + 1 && runs[0] == LoadedRun(rootId, "", root.value)
      invariant forall i | 0 <= i < k :: Load(sorted[i].rows).Some?
      invariant forall i | 0 <= i < k ::
        runs[i + 1] == LoadedRun(sorted[i].childId, ResearchClaimNamespace(i), Load(sorted[i].rows).value)
    {
      assert sorted[k] in sorted;
      var prefix := Load(sorted[k].rows);
      if prefix.None? {
        return None;
      }
      runs := runs + [LoadedRun(sorted[k].childId, ResearchClaimNamespace(k), prefix.value)];
    }
    forall i | 0 <= i < |tree.children| ensures Load(tree.children[i].rows).Some? && IsLoaded(runs, tree, i) {
      assert tree.children[i] in sorted;
      var k :| 0 <= k < |sorted| && sorted[k] == tree.children[i];
      SortedByPlace(tree.children, k);
    }
    return Some(runs);
  }

  /** Child i stands in the loaded tree at its place, named by it. */
  ghost predicate IsLoaded(runs: seq<LoadedRun>, tree: ClaimTree, i: nat)
    requires i < |tree.children|
  {
    var c := tree.children[i];
    var place := CountBefore(tree.children, c);
    place + 1 < |runs| && Load(c.rows).Some? &&
    runs[place + 1] == LoadedRun(c.childId, ResearchClaimNamespace(place), Load(c.rows).value)
  }

  // ----- Ids of a tree -----

  predicate InTree(tree: ClaimTree, run: TreeRun) {
    run.Root? || run.index < |tree.children|
  }

  function RowsOf(tree: ClaimTree, run: TreeRun): seq<Row>
    requires InTree(tree, run)
  {
    if run.Root? then tree.rootRows else tree.children[run.index].rows
  }

  function PlaceOf(tree: ClaimTree, run: TreeRun): nat
    requires InTree(tree, run)
  {
    if run.Root? then 0 else 1 + CountBefore(tree.children, tree.children[run.index])
  }

  ghost predicate Sound(tree: ClaimTree) {
    DifferentChildren(tree.children) && forall run | InTree(tree, run) :: Load(RowsOf(tree, run)).Some?
  }

  ghost function ActionsOf(tree: ClaimTree, run: TreeRun): seq<AcceptedAction>
    requires Sound(tree) && InTree(tree, run)
  {
    AllActions(Load(RowsOf(tree, run)).value.proposals)
  }

  /** The id a claim of this Run gets when the tree is loaded now. */
  ghost function CardOf(tree: ClaimTree, run: TreeRun, action: Identity): string
    requires Sound(tree) && InTree(tree, run)
  {
    CardId(PlaceOf(tree, run), Ordinal(ActionsOf(tree, run), action))
  }

  lemma PlaceInRange(tree: ClaimTree, run: TreeRun)
    requires InTree(tree, run)
    ensures PlaceOf(tree, run) <= |tree.children|
  {
    if run.Spawned? { PlaceIsInside(tree.children, run.index); }
  }

  lemma RunsHaveDifferentPlaces(tree: ClaimTree, r: TreeRun, s: TreeRun)
    requires DifferentChildren(tree.children) && InTree(tree, r) && InTree(tree, s)
    requires PlaceOf(tree, r) == PlaceOf(tree, s)
    ensures r == s
  {
    if r.Spawned? && s.Spawned? && r.index != s.index {
      PlacesDiffer(tree.children, r.index, s.index);
    }
  }

  /** In every tree of up to 650 subagents two different claims, of one Run or of two,
      have different ids. */
  lemma TreeIdsAreDistinct(tree: ClaimTree, r: TreeRun, a: Identity, s: TreeRun, b: Identity)
    requires Sound(tree) && |tree.children| <= CHILDREN && InTree(tree, r) && InTree(tree, s)
    requires Claims(ActionsOf(tree, r), a) && Claims(ActionsOf(tree, s), b)
    ensures CardOf(tree, r, a) == CardOf(tree, s, b) <==> r == s && a == b
  {
    hide Load, AllActions, PlaceOf, CardId, Ordinal;
    if CardOf(tree, r, a) == CardOf(tree, s, b) {
      PlaceInRange(tree, r);
      PlaceInRange(tree, s);
      CardIdsAreDistinct(PlaceOf(tree, r), Ordinal(ActionsOf(tree, r), a), PlaceOf(tree, s),
        Ordinal(ActionsOf(tree, s), b));
      RunsHaveDifferentPlaces(tree, r, s);
      if a != b {
        OrdinalsDiffer(ActionsOf(tree, r), a, b);
      }
    }
  }

  // ----- The tree grows -----

  /** Later: the old children are still there, logs may have grown, and children may
      have been added. */
  ghost predicate Grows(before: ClaimTree, after: ClaimTree) {
    before.rootRows <= after.rootRows && |before.children| <= |after.children| &&
    forall i | 0 <= i < |before.children| ::
      after.children[i].createdAt == before.children[i].createdAt &&
      after.children[i].childId == before.children[i].childId &&
      before.children[i].rows <= after.children[i].rows
  }

  function Added(before: ClaimTree, after: ClaimTree): seq<Child>
    requires |before.children| <= |after.children|
  {
    after.children[|before.children|..]
  }

  /** An added child is listed before this one. For a transaction that began earlier
      and committed later that happens. */
  ghost predicate Overtaken(before: ClaimTree, after: ClaimTree, run: TreeRun)
    requires |before.children| <= |after.children| && InTree(after, run)
  {
    run.Spawned? && exists k ::
      0 <= k < |Added(before, after)| && Precedes(Added(before, after)[k], after.children[run.index])
  }

  lemma {:induction false} SameKeysSameCount(a: seq<Child>, b: seq<Child>, c: Child, d: Child)
    requires |a| == |b| && c.createdAt == d.createdAt && c.childId == d.childId
    requires forall i | 0 <= i < |a| :: a[i].createdAt == b[i].createdAt && a[i].childId == b[i].childId
    ensures CountBefore(a, c) == CountBefore(b, d)
    decreases |a|
  {
    hide TextBefore;
    if a != [] {
      SameKeysSameCount(a[..|a| - 1], b[..|b| - 1], c, d);
    }
  }

  /** A present Run keeps its place exactly when nobody was listed before it. */
  lemma PlaceIsKeptUnlessOvertaken(before: ClaimTree, after: ClaimTree, run: TreeRun)
    requires Grows(before, after) && InTree(before, run)
    ensures PlaceOf(after, run) >= PlaceOf(before, run)
    ensures PlaceOf(after, run) == PlaceOf(before, run) <==> !Overtaken(before, after, run)
  {
    hide Precedes;
    if run.Spawned? {
      var n, c := |before.children|, after.children[run.index];
      assert after.children == after.children[..n] + Added(before, after);
      CountOfBoth(after.children[..n], Added(before, after), c);
      SameKeysSameCount(before.children, after.children[..n], before.children[run.index], c);
      NobodyBefore(Added(before, after), c);
    }
  }

  lemma ActionsGoOn(before: ClaimTree, after: ClaimTree, run: TreeRun)
    requires Sound(before) && Sound(after) && Grows(before, after) && InTree(before, run)
    ensures GoesOn(ActionsOf(before, run), ActionsOf(after, run))
  {
    hide Load, AllActions;
    var earlier, later := RowsOf(before, run), RowsOf(after, run);
    assert later == earlier + later[|earlier|..];
    LaterLogsGoOn(earlier, later[|earlier|..]);
  }

  /** When logs grow and subagents are added, a claim that is there keeps its id if and
      only if no added subagent is listed before its Run. */
  lemma ClaimIdIsKeptUnlessOvertaken(before: ClaimTree, after: ClaimTree, run: TreeRun, a: Identity)
    requires Sound(before) && Sound(after) && Grows(before, after) && |after.children| <= CHILDREN
    requires InTree(before, run)
    requires Claims(ActionsOf(before, run), a)
    ensures CardOf(after, run, a) == CardOf(before, run, a) <==> !Overtaken(before, after, run)
  {
    hide Load, AllActions, PlaceOf, CardId, Overtaken, Ordinal;
    ActionsGoOn(before, after, run);
    OrdinalStays(ActionsOf(before, run), ActionsOf(after, run), a);
    PlaceIsKeptUnlessOvertaken(before, after, run);
    PlaceInRange(before, run);
    PlaceInRange(after, run);
    if CardOf(after, run, a) == CardOf(before, run, a) {
      CardIdsAreDistinct(PlaceOf(after, run), Ordinal(ActionsOf(after, run), a), PlaceOf(before, run),
        Ordinal(ActionsOf(before, run), a));
    }
  }

  // ----- Ids given at different moments -----

  /** Claims recorded at two moments have the same id only if one Run stands where the
      other stood. A Run that was not overtaken shares no id with a later claim. */
  lemma IdsOfTwoMoments(before: ClaimTree, after: ClaimTree, r: TreeRun, a: Identity, s: TreeRun, b: Identity)
    requires Sound(before) && Sound(after) && Grows(before, after) && |after.children| <= CHILDREN
    requires InTree(before, r) && InTree(after, s) && Claims(ActionsOf(before, r), a) && Claims(ActionsOf(after, s), b)
    ensures CardOf(before, r, a) == CardOf(after, s, b) <==>
      PlaceOf(before, r) == PlaceOf(after, s) && Ordinal(ActionsOf(before, r), a) == Ordinal(ActionsOf(after, s), b)
    ensures !Overtaken(before, after, r) ==> (CardOf(before, r, a) == CardOf(after, s, b) <==> r == s && a == b)
  {
    hide Load, AllActions, PlaceOf, CardId, Overtaken, Ordinal;
    PlaceInRange(before, r);
    PlaceInRange(after, s);
    if CardOf(before, r, a) == CardOf(after, s, b) {
      CardIdsAreDistinct(PlaceOf(before, r), Ordinal(ActionsOf(before, r), a), PlaceOf(after, s),
        Ordinal(ActionsOf(after, s), b));
    }
    if !Overtaken(before, after, r) {
      ClaimIdIsKeptUnlessOvertaken(before, after, r, a);
      ActionsGoOn(before, after, r);
      StillClaimed(ActionsOf(before, r), ActionsOf(after, r), a);
      TreeIdsAreDistinct(after, r, a, s, b);
    }
  }

  lemma StillClaimed(actions: seq<AcceptedAction>, longer: seq<AcceptedAction>, a: Identity)
    requires Claims(actions, a) && GoesOn(actions, longer)
    ensures Claims(longer, a)
  {
    var i :| 0 <= i < |actions| && actions[i].name == RECORD && actions[i].actionId == a;
    assert longer[i].name == RECORD && longer[i].actionId == a;
  }

  /** The old place of a Run goes to another Run exactly when it was overtaken: from
      then on new cards get ids that were given out before. */
  lemma OldPlaceIsReusedExactlyWhenOvertaken(before: ClaimTree, after: ClaimTree, r: TreeRun)
    requires DifferentChildren(after.children) && Grows(before, after) && InTree(before, r)
    ensures Overtaken(before, after, r) <==>
      exists s | InTree(after, s) :: s != r && PlaceOf(after, s) == PlaceOf(before, r)
  {
    hide Overtaken, Grows, PlaceOf, DifferentChildren;
    GrownHolds(before, after, r);
    PlaceIsKeptUnlessOvertaken(before, after, r);
    if Overtaken(before, after, r) {
      RootIsNeverOvertaken(before, after, r);
      PlaceInRange(after, r);
      ChildrenHavePlaces(before, r);
      var s := RunAt(after, PlaceOf(before, r));
      assert InTree(after, s) && s != r;
    } else {
      forall s | InTree(after, s) && PlaceOf(after, s) == PlaceOf(before, r) ensures s == r {
        RunsHaveDifferentPlaces(after, r, s);
      }
    }
  }

  lemma GrownHolds(before: ClaimTree, after: ClaimTree, r: TreeRun)
    requires Grows(before, after) && InTree(before, r)
    ensures InTree(after, r) && |before.children| <= |after.children|
  {
  }

  lemma ChildrenHavePlaces(tree: ClaimTree, r: TreeRun)
    requires InTree(tree, r) && r.Spawned?
    ensures PlaceOf(tree, r) >= 1
  {
  }

  /** The Run that stands at a place. */
  lemma RunAt(tree: ClaimTree, place: nat) returns (s: TreeRun)
    requires DifferentChildren(tree.children) && 1 <= place <= |tree.children|
    ensures InTree(tree, s) && s.Spawned? && PlaceOf(tree, s) == place
  {
    hide BySpawn, CountBefore, Sorted;
    SortedByPlace(tree.children, place - 1);
    var i :| 0 <= i < |tree.children| && tree.children[i] == Sorted(BySpawn, tree.children)[place - 1];
    s := Spawned(i);
  }

  lemma RootIsNeverOvertaken(before: ClaimTree, after: ClaimTree, r: TreeRun)
    requires |before.children| <= |after.children| && InTree(after, r) && Overtaken(before, after, r)
    ensures r.Spawned?
  {
  }

  // ----- Every tree that comes about -----

  const MAX_SUBAGENTS := 16

  /** A spawn commits with the time its transaction began; a Run's log grows. */
  datatype TreeEvent = Spawn(createdAt: int, childId: string) | Append(run: TreeRun, row: Row)

  predicate IsChild(children: seq<Child>, childId: string) {
    exists i :: 0 <= i < |children| && children[i].childId == childId
  }

  function Happens(tree: ClaimTree, event: TreeEvent): ClaimTree {
    match event
    case Spawn(createdAt, childId) =>
      if |tree.children| >= MAX_SUBAGENTS || IsChild(tree.children, childId) then tree
      else tree.(children := tree.children + [Child(createdAt, childId, [])])
    case Append(run, row) =>
      if !InTree(tree, run) || Load(RowsOf(tree, run) + [row]).None? then tree
      else if run.Root? then tree.(rootRows := tree.rootRows + [row])
      else
        var c := tree.children[run.index];
        tree.(children := tree.children[run.index := c.(rows := c.rows + [row])])
  }

  function TreeAfter(events: seq<TreeEvent>): ClaimTree {
    if events == [] then ClaimTree([], []) else Happens(TreeAfter(events[..|events| - 1]), events[|events| - 1])
  }

  lemma HappensKeepsSound(tree: ClaimTree, event: TreeEvent)
    requires Sound(tree) && |tree.children| <= MAX_SUBAGENTS
    ensures Sound(Happens(tree, event)) && |Happens(tree, event).children| <= MAX_SUBAGENTS
    ensures Grows(tree, Happens(tree, event)) && |Happens(tree, event).children| <= |tree.children| + 1
  {
    hide Load;
    var after := Happens(tree, event);
    NoRowsLoad();
    forall run | InTree(after, run) ensures Load(RowsOf(after, run)).Some? {
      if InTree(tree, run) {
        assert Load(RowsOf(tree, run)).Some?;
      }
    }
  }

  lemma NoRowsLoad()
    ensures Load([]).Some?
  {
  }

  lemma {:induction false} EveryTreeIsSound(events: seq<TreeEvent>)
    ensures Sound(TreeAfter(events)) && |TreeAfter(events).children| <= MAX_SUBAGENTS
    decreases |events|
  {
    hide Happens;
    if events == [] {
      NoRowsLoad();
    } else {
      EveryTreeIsSound(events[..|events| - 1]);
      HappensKeepsSound(TreeAfter(events[..|events| - 1]), events[|events| - 1]);
    }
  }

  lemma {:induction false} TreesGrow(events: seq<TreeEvent>, k: nat)
    requires k <= |events|
    ensures Grows(TreeAfter(events[..k]), TreeAfter(events))
    decreases |events|
  {
    hide Happens;
    if k < |events| {
      var front := events[..|events| - 1];
      assert front[..k] == events[..k];
      TreesGrow(front, k);
      EveryTreeIsSound(front);
      HappensKeepsSound(TreeAfter(front), events[|events| - 1]);
    } else {
      assert events[..k] == events;
    }
  }

  /** In every tree that comes about, which has at most 16 subagents, different claims
      have different ids. */
  lemma IdsAreDistinctInEveryTree(events: seq<TreeEvent>, r: TreeRun, a: Identity, s: TreeRun, b: Identity)
    requires Sound(TreeAfter(events)) && InTree(TreeAfter(events), r) && InTree(TreeAfter(events), s)
    requires Claims(ActionsOf(TreeAfter(events), r), a) && Claims(ActionsOf(TreeAfter(events), s), b)
    ensures CardOf(TreeAfter(events), r, a) == CardOf(TreeAfter(events), s, b) <==> r == s && a == b
  {
    hide TreeAfter, Sound, ActionsOf, CardOf;
    EveryTreeIsSound(events);
    TreeIdsAreDistinct(TreeAfter(events), r, a, s, b);
  }

  /** The table lists its children in the order they were committed. */
  ghost predicate InSpawnOrder(children: seq<Child>) {
    forall i, j | 0 <= i < j < |children| :: !Precedes(children[j], children[i])
  }

  lemma {:induction false} MomentWith(events: seq<TreeEvent>, n: nat) returns (k: nat)
    requires n <= |TreeAfter(events).children|
    ensures k <= |events| && |TreeAfter(events[..k]).children| == n
    decreases |events|
  {
    hide Happens;
    if events == [] {
      k := 0;
    } else if n == |TreeAfter(events).children| {
      k := |events|;
      assert events[..k] == events;
    } else {
      var front := events[..|events| - 1];
      EveryTreeIsSound(front);
      HappensKeepsSound(TreeAfter(front), events[|events| - 1]);
      k := MomentWith(front, n);
      assert front[..k] == events[..k];
    }
  }

  /** No Run is ever overtaken, so that every id given out stays right and is never
      given again, if and only if the spawning transactions committed in the order
      in which they began. */
  lemma IdsAreStableExactlyInSpawnOrder(events: seq<TreeEvent>)
    ensures InSpawnOrder(TreeAfter(events).children) <==>
      forall k, run | 0 <= k <= |events| && InTree(TreeAfter(events[..k]), run) :: NeverOvertaken(events, k, run)
  {
    hide TreeAfter, Precedes;
    var tree := TreeAfter(events);
    if InSpawnOrder(tree.children) {
      forall k, run | 0 <= k <= |events| && InTree(TreeAfter(events[..k]), run) ensures NeverOvertaken(events, k, run) {
        TreesGrow(events, k);
      }
    } else {
      var i, j :| 0 <= i < j < |tree.children| && Precedes(tree.children[j], tree.children[i]);
      var k := MomentWith(events, j);
      TreesGrow(events, k);
      assert InTree(TreeAfter(events[..k]), Spawned(i));
      assert Added(TreeAfter(events[..k]), tree)[0] == tree.children[j];
      assert !NeverOvertaken(events, k, Spawned(i));
    }
  }

  ghost predicate NeverOvertaken(events: seq<TreeEvent>, k: nat, run: TreeRun)
    requires k <= |events| && InTree(TreeAfter(events[..k]), run)
  {
    TreesGrow(events, k);
    !Overtaken(TreeAfter(events[..k]), TreeAfter(events), run)
  }

  // ----- Two readers of one batch -----

  function OneClaim(): Row {
    ProposalRow(1, [Proposed(RECORD, Doc(Obj(map[])))])
  }

  /** The reader whose transaction began second commits first and records a card; then
      the other reader commits, and records one too. */
  function Readers(): seq<TreeEvent> {
    [Spawn(2, "p"), Append(Spawned(0), OneClaim()), Spawn(1, "q"), Append(Spawned(1), OneClaim())]
  }

  lemma OneClaimLoads()
    ensures WellFormed(OneClaim()) && Load([OneClaim()]).Some?
    ensures AllActions(Load([OneClaim()]).value.proposals) ==
      [AcceptedAction(OfAction(1, 0), 0, RECORD, Doc(Obj(map[])), None)]
  {
    assert IsActionName(RECORD);
    NoRowsLoad();
    assert [] + [OneClaim()] == [OneClaim()];
    LoadOneMore([], OneClaim());
    var p := Load([OneClaim()]).value;
    assert Load([]) == Some(EMPTY);
    assert p.proposals == [Unanswered(1, OneClaim().actions)];
    assert p.proposals[..0] == [];
    assert AllActions([]) == [];
    assert p.proposals[0].actions == [AcceptedAction(OfAction(1, 0), 0, RECORD, Doc(Obj(map[])), None)];
  }

  lemma ReadersTree()
    ensures TreeAfter(Readers()[..2]) == ClaimTree([], [Child(2, "p", [OneClaim()])])
    ensures TreeAfter(Readers()) == ClaimTree([], [Child(2, "p", [OneClaim()]), Child(1, "q", [OneClaim()])])
  {
    hide Load;
    OneClaimLoads();
    var all := Readers();
    assert [] + [OneClaim()] == [OneClaim()];
    assert all[..4] == all && all[..4][..3] == all[..3] && all[..3][..2] == all[..2] && all[..2][..1] == all[..1] &&
      all[..1][..0] == [];
    assert TreeAfter([]) == ClaimTree([], []);
    var first := TreeAfter(all[..1]);
    assert first == Happens(TreeAfter([]), Spawn(2, "p")) == ClaimTree([], [Child(2, "p", [])]);
    var second := TreeAfter(all[..2]);
    assert second == Happens(first, Append(Spawned(0), OneClaim()));
    assert second == ClaimTree([], [Child(2, "p", [OneClaim()])]);
    var third := TreeAfter(all[..3]);
    assert third == Happens(second, Spawn(1, "q"));
    assert !IsChild(second.children, "q");
    assert third == ClaimTree([], [Child(2, "p", [OneClaim()]), Child(1, "q", [])]);
    assert TreeAfter(all) == Happens(third, Append(Spawned(1), OneClaim()));
  }

  /** The first card of the reader that was there is a1; once the other reader is in
      the table it would be b1, and a1 is the first card of the newcomer. */
  lemma AReaderThatCommitsLateTakesTheIds()
    ensures var before, after := TreeAfter(Readers()[..2]), TreeAfter(Readers());
      Sound(before) && Sound(after) && Grows(before, after) && InTree(before, Spawned(0)) &&
      InTree(after, Spawned(1)) &&
      Claims(ActionsOf(before, Spawned(0)), OfAction(1, 0)) && Claims(ActionsOf(after, Spawned(1)), OfAction(1, 0)) &&
      CardOf(before, Spawned(0), OfAction(1, 0)) == "a1" &&
      CardOf(after, Spawned(0), OfAction(1, 0)) == "b1" &&
      CardOf(after, Spawned(1), OfAction(1, 0)) == "a1"
  {
    hide Load, AllActions, TreeAfter, Happens;
    OneClaimLoads();
    ReadersTree();
    EveryTreeIsSound(Readers()[..2]);
    EveryTreeIsSound(Readers());
    TreesGrow(Readers(), 2);
    ReadersPlaces();
    FirstClaim(AllActions(Load([OneClaim()]).value.proposals), OfAction(1, 0));
    FirstNames();
  }

  lemma FirstClaim(actions: seq<AcceptedAction>, id: Identity)
    requires actions != [] && actions[0].name == RECORD && actions[0].actionId == id
    ensures Claims(actions, id) && Ordinal(actions, id) == 1
  {
  }

  lemma FirstNames()
    ensures CardId(1, 1) == "a1" && CardId(2, 1) == "b1"
  {
    assert Itoa(1) == "1";
    LettersCount();
    assert "a" + "1" == "a1" && "b" + "1" == "b1";
  }

  lemma ReadersPlaces()
    ensures var p, q := Child(2, "p", [OneClaim()]), Child(1, "q", [OneClaim()]);
      CountBefore([p], p) == 0 && CountBefore([p, q], p) == 1 && CountBefore([p, q], q) == 0
  {
    var p, q := Child(2, "p", [OneClaim()]), Child(1, "q", [OneClaim()]);
    assert [p, q] == [p] + [q];
    CountOfBoth([p], [q], p);
    CountOfBoth([p], [q], q);
    One(p, p);
    One(q, p);
    One(p, q);
    One(q, q);
    PrecedesOneWay(p, p);
    PrecedesOneWay(q, q);
  }
}
