/** `make_splits.py`: the clip index read back, grouped by action, each group shuffled,
    capped and cut into test, validation and training parts, and the three parts written
    as CSV files whose header comes from the first training row. */
module MakeSplits {
  import opened Wrappers
  import opened Text
  import opened Numeric
  import opened Counting
  import opened Slices

  /** One line of the clip index, keyed as the loader's dict. */
  datatype Clip = Clip(clipPath: string, action: string, outcome: string, player: string,
                       videoFilename: string, tEventSec: string)

  /** The command line: `--per-action-cap` (0 for none), `--val-frac`, `--test-frac`. */
  datatype Options = Options(perActionCap: int, valFrac: real, testFrac: real)

  /** The three output lists. */
  datatype Splits = Splits(train: seq<Clip>, val: seq<Clip>, test: seq<Clip>)

  /** A written CSV file: the header and one record per row. */
  datatype CsvFile = CsvFile(header: seq<string>, records: seq<seq<string>>)

  datatype SplitFiles = SplitFiles(train: CsvFile, val: CsvFile, test: CsvFile)

  /** `random.shuffle` is an oracle: its `k`-th call (one per action group) may return
      any arrangement of the list; the properties that need a true permutation say so. */
  type Shuffle = (nat, seq<Clip>) -> seq<Clip>

  ghost predicate Permutes(shuffle: Shuffle) {
    forall k, items :: multiset(shuffle(k, items)) == multiset(items)
  }

  // ---------------------------------------------------------------------------
  // Loading

  /** The loader keeps the six columns, with the action stripped and lower-cased and the
      outcome stripped. */
  function LoadRow(r: Clip): (c: Clip)
    ensures c.action == Lower(Strip(r.action)) && c.outcome == Strip(r.outcome)
    ensures c.clipPath == r.clipPath && c.player == r.player
    ensures c.videoFilename == r.videoFilename && c.tEventSec == r.tEventSec
  {
    r.(action := Lower(Strip(r.action)), outcome := Strip(r.outcome))
  }

  /** The loading loop: one dict per record, in file order. */
  method LoadRows(records: seq<Clip>) returns (rows: seq<Clip>)
    ensures |rows| == |records|
    ensures forall i :: 0 <= i < |rows| ==> rows[i] == LoadRow(records[i])
  {
    rows := [];
    for i := 0 to |records|
      invariant |rows| == i
      invariant forall j :: 0 <= j < i ==> rows[j] == LoadRow(records[j])
    {
      rows := rows + [LoadRow(records[i])];
    }
  }

  function Loaded(records: seq<Clip>): (rows: seq<Clip>)
    ensures |rows| == |records|
  {
    seq(|records|, i requires 0 <= i < |records| => LoadRow(records[i]))
  }

  /** A normalised action is already stripped and lower case. */
  lemma LoadedActionsNormal(records: seq<Clip>, i: nat)
    requires i < |records|
    ensures var a := Loaded(records)[i].action;
      NoEdgeSpace(a) && forall j :: 0 <= j < |a| ==> !('A' <= a[j] <= 'Z')
  {
    var s := Strip(records[i].action);
    assert Loaded(records)[i].action == Lower(s);
    LowerKeepsEdges(s);
  }

  // ---------------------------------------------------------------------------
  // Grouping

  function Actions(rows: seq<Clip>): (acts: seq<string>)
    ensures |acts| == |rows|
    ensures forall i :: 0 <= i < |rows| ==> acts[i] == rows[i].action
  {
    seq(|rows|, i requires 0 <= i < |rows| => rows[i].action)
  }

  /** The rows of action `a`, in file order: what `by_action[a]` holds after the
      grouping loop. */
  function Group(rows: seq<Clip>, a: string): (g: seq<Clip>)
    ensures forall r :: r in g ==> r.action == a
  {
    if rows == [] then []
    else Group(rows[..|rows| - 1], a) + (if rows[|rows| - 1].action == a then [rows[|rows| - 1]] else [])
  }

  /** A group holds every row of its action. */
  lemma {:induction false} GroupCount(rows: seq<Clip>, a: string)
    ensures |Group(rows, a)| == Count(Actions(rows), a)
    decreases |rows|
  {
    if rows != [] {
      var init := rows[..|rows| - 1];
      var last := rows[|rows| - 1];
      GroupCount(init, a);
      assert Actions(rows) == Actions(init) + [last.action];
      CountSnoc(Actions(init), last.action, a);
    }
  }

  lemma GroupSnoc(rows: seq<Clip>, x: Clip, a: string)
    ensures Group(rows + [x], a) == Group(rows, a) + (if x.action == a then [x] else [])
  {
    assert (rows + [x])[..|rows|] == rows;
  }

  /** The grouping loop over a `defaultdict(list)`: the dict's keys in insertion order
      are `order`, and its lists are `groups`. */
  method GroupByAction(rows: seq<Clip>) returns (order: seq<string>, groups: map<string, seq<Clip>>)
    ensures order == Distinct(Actions(rows))
    ensures forall a :: a in groups <==> a in order
    ensures forall a :: a in groups ==> groups[a] == Group(rows, a)
  {
    order := [];
    groups := map[];
    for i := 0 to |rows|
      invariant order == Distinct(Actions(rows[..i]))
      invariant forall a :: a in groups <==> a in order
      invariant Lists(rows[..i], groups)
    {
      assert rows[..i + 1] == rows[..i] + [rows[i]];
      var a := rows[i].action;
      var items := if a in groups then groups[a] else [];
      GroupingContents(rows[..i], rows[i], groups);
      DistinctActionsSnoc(rows[..i], rows[i]);
      if a !in groups {
        order := order + [a];
      }
      groups := groups[a := items + [rows[i]]];
    }
    assert rows[..|rows|] == rows;
  }

  /** The dict's lists after reading `rows`: each key's list is the group of its action. */
  ghost predicate Lists(rows: seq<Clip>, groups: map<string, seq<Clip>>) {
    forall a :: a in groups ==> groups[a] == Group(rows, a)
  }

  lemma DistinctActionsSnoc(rows: seq<Clip>, x: Clip)
    ensures var d := Distinct(Actions(rows));
      Distinct(Actions(rows + [x])) == if x.action in d then d else d + [x.action]
  {
    ActionsSnoc(rows, x);
    DistinctSnoc(Actions(rows), x.action);
  }

  lemma ActionsSnoc(rows: seq<Clip>, x: Clip)
    ensures Actions(rows + [x]) == Actions(rows) + [x.action]
  {
  }

  /** One row through `by_action[row["action"]].append(row)`: a missing key starts as an
      empty list, as in a `defaultdict(list)`. */
  lemma GroupingContents(rows: seq<Clip>, x: Clip, groups: map<string, seq<Clip>>)
    requires Lists(rows, groups)
    requires x.action !in groups ==> x.action !in Actions(rows)
    ensures var a := x.action;
      Lists(rows + [x], groups[a := (if a in groups then groups[a] else []) + [x]])
  {
    var a := x.action;
    var groups' := groups[a := (if a in groups then groups[a] else []) + [x]];
    if a !in groups {
      GroupCount(rows, a);
    }
    forall b | b in groups'
      ensures groups'[b] == Group(rows + [x], b)
    {
      GroupSnoc(rows, x, b);
    }
  }

  /** The dict's lists in key order: `by_action.items()` without the keys. */
  function GroupsOf(rows: seq<Clip>, keys: seq<string>): (gs: seq<seq<Clip>>)
    ensures |gs| == |keys|
    ensures forall i :: 0 <= i < |keys| ==> gs[i] == Group(rows, keys[i])
  {
    seq(|keys|, i requires 0 <= i < |keys| => Group(rows, keys[i]))
  }

  /** The lists one after another. */
  function Flatten(gs: seq<seq<Clip>>): seq<Clip> {
    if gs == [] then [] else Flatten(gs[..|gs| - 1]) + gs[|gs| - 1]
  }

  lemma FlattenSnoc(gs: seq<seq<Clip>>, g: seq<Clip>)
    ensures Flatten(gs + [g]) == Flatten(gs) + g
  {
    assert (gs + [g])[..|gs|] == gs;
  }

  /** Adding a row to the file adds it to the group of its action, when that action is
      one of `keys`, and to no other. */
  lemma {:induction false} FlattenAddRow(before: seq<seq<Clip>>, after: seq<seq<Clip>>, keys: seq<string>, x: Clip)
    requires |before| == |after| == |keys| && NoDuplicates(keys)
    requires forall i :: 0 <= i < |keys| ==> after[i] == before[i] + (if keys[i] == x.action then [x] else [])
    ensures multiset(Flatten(after))
         == multiset(Flatten(before)) + (if x.action in keys then multiset{x} else multiset{})
    decreases |keys|
  {
    if keys != [] {
      var n := |keys| - 1;
      assert keys == keys[..n] + [keys[n]];
      assert before == before[..n] + [before[n]];
      assert after == after[..n] + [after[n]];
      FlattenAddRow(before[..n], after[..n], keys[..n], x);
      FlattenSnoc(before[..n], before[n]);
      FlattenSnoc(after[..n], after[n]);
      assert x.action == keys[n] ==> x.action !in keys[..n];
    }
  }

  /** Grouping loses and duplicates nothing: the groups of all the actions, in
      first-occurrence order, hold exactly the rows read. */
  lemma {:induction false} GroupsHoldAllRows(rows: seq<Clip>)
    ensures multiset(Flatten(GroupsOf(rows, Distinct(Actions(rows))))) == multiset(rows)
    decreases |rows|
  {
    if rows != [] {
      var n := |rows| - 1;
      var init, x := rows[..n], rows[n];
      assert rows == init + [x];
      GroupsHoldAllRows(init);
      GroupsAddRow(init, x);
    }
  }

  /** One more row read: the groups of the actions seen so far gain it when its action
      was seen, and otherwise a new group of that row alone follows them. */
  lemma GroupsAddRow(init: seq<Clip>, x: Clip)
    ensures multiset(Flatten(GroupsOf(init + [x], Distinct(Actions(init + [x])))))
         == multiset(Flatten(GroupsOf(init, Distinct(Actions(init))))) + multiset{x}
  {
    var d := Distinct(Actions(init));
    DistinctActionsSnoc(init, x);
    if x.action in d {
      GroupsAddSeen(init, x, d);
    } else {
      GroupsAddNew(init, x, d);
    }
  }

  lemma GroupsAddSeen(init: seq<Clip>, x: Clip, d: seq<string>)
    requires NoDuplicates(d) && x.action in d
    ensures multiset(Flatten(GroupsOf(init + [x], d))) == multiset(Flatten(GroupsOf(init, d))) + multiset{x}
  {
    GroupsOfSnoc(init, x, d);
    FlattenAddRow(GroupsOf(init, d), GroupsOf(init + [x], d), d, x);
  }

  lemma GroupsAddNew(init: seq<Clip>, x: Clip, d: seq<string>)
    requires NoDuplicates(d) && x.action !in d && d == Distinct(Actions(init))
    ensures multiset(Flatten(GroupsOf(init + [x], d + [x.action])))
         == multiset(Flatten(GroupsOf(init, d))) + multiset{x}
  {
    var after := GroupsOf(init + [x], d);
    GroupsOfSnoc(init, x, d);
    FlattenAddRow(GroupsOf(init, d), after, d, x);
    NewGroup(init, x, d);
    FlattenSnoc(after, [x]);
  }

  lemma GroupsOfSnoc(rows: seq<Clip>, x: Clip, keys: seq<string>)
    ensures forall i :: 0 <= i < |keys| ==>
      GroupsOf(rows + [x], keys)[i] == GroupsOf(rows, keys)[i] + (if keys[i] == x.action then [x] else [])
  {
    forall i | 0 <= i < |keys|
      ensures GroupsOf(rows + [x], keys)[i] == GroupsOf(rows, keys)[i] + (if keys[i] == x.action then [x] else [])
    {
      GroupSnoc(rows, x, keys[i]);
    }
  }

  /** The first row of an action starts its group, after the groups of the earlier
      actions. */
  lemma NewGroup(rows: seq<Clip>, x: Clip, keys: seq<string>)
    requires x.action !in Actions(rows)
    ensures GroupsOf(rows + [x], keys + [x.action]) == GroupsOf(rows + [x], keys) + [[x]]
  {
    GroupCount(rows, x.action);
    GroupSnoc(rows, x, x.action);
    var l, r := GroupsOf(rows + [x], keys + [x.action]), GroupsOf(rows + [x], keys) + [[x]];
    assert forall i :: 0 <= i < |l| ==> l[i] == r[i];
  }

  // ---------------------------------------------------------------------------
  // Capping and slicing one group

  /** `items[:cap]` when a cap is set and the group is longer: a prefix, and no longer
      than a positive cap. */
  function Capped(cap: int, items: seq<Clip>): (r: seq<Clip>)
    ensures r <= items
    ensures cap > 0 ==> |r| <= cap
    ensures cap == 0 || |items| <= cap ==> r == items
    ensures cap > 0 && |items| > cap ==> |r| == cap
    ensures cap < 0 ==> |r| == if |items| + cap < 0 then 0 else |items| + cap
  {
    if cap != 0 && |items| > cap then PyTake(items, cap) else items
  }

  /** `int(round(n * frac))`, with Python's round-half-to-even. */
  function PartSize(n: nat, frac: real): (m: int)
    ensures 0.0 <= frac ==> 0 <= m
  {
    RoundHalfEven(n as real * frac)
  }

  /** The three slices of a shuffled, capped group. */
  function Partition(items: seq<Clip>, nTest: int, nVal: int): Splits {
    Splits(PyDrop(items, nTest + nVal), PySlice(items, nTest, nTest + nVal), PyTake(items, nTest))
  }

  /** With non-negative sizes the slices put back together give the group, the test part
      is the first `min(nTest, n)` rows, the validation part the next
      `min(nVal, max(0, n - nTest))`, and training gets the rest, however the sizes
      compare with `n`. */
  lemma PartitionExact(items: seq<Clip>, nTest: int, nVal: int)
    requires 0 <= nTest && 0 <= nVal
    ensures var p := Partition(items, nTest, nVal);
      && p.test + p.val + p.train == items
      && |p.test| == Min(nTest as real, |items| as real) as int
      && |p.val| == Min(nVal as real, Max(0.0, (|items| - nTest) as real)) as int
      && |p.train| == |items| - |p.test| - |p.val|
  {
    PySliceThree(items, nTest, nTest + nVal);
  }

  /** One action group through the loop body: shuffled by the `k`-th call, capped, and
      cut by the rounded fractions of its capped size. */
  function SplitGroup(opts: Options, shuffle: Shuffle, k: nat, group: seq<Clip>): Splits {
    var items := Capped(opts.perActionCap, shuffle(k, group));
    var n := |items|;
    Partition(items, PartSize(n, opts.testFrac), PartSize(n, opts.valFrac))
  }

  /** With non-negative fractions the three parts of a group are exactly its shuffled,
      capped rows, so none is lost or duplicated. */
  lemma SplitGroupExact(opts: Options, shuffle: Shuffle, k: nat, group: seq<Clip>)
    requires 0.0 <= opts.testFrac && 0.0 <= opts.valFrac
    ensures var p := SplitGroup(opts, shuffle, k, group);
      p.test + p.val + p.train == Capped(opts.perActionCap, shuffle(k, group))
  {
    var items := Capped(opts.perActionCap, shuffle(k, group));
    PartitionExact(items, PartSize(|items|, opts.testFrac), PartSize(|items|, opts.valFrac));
  }

  /** A positive cap bounds what one action contributes to all three splits. */
  lemma SplitGroupCap(opts: Options, shuffle: Shuffle, k: nat, group: seq<Clip>)
    requires 0.0 <= opts.testFrac && 0.0 <= opts.valFrac && opts.perActionCap > 0
    ensures var p := SplitGroup(opts, shuffle, k, group);
      |p.test| + |p.val| + |p.train| <= opts.perActionCap
  {
    SplitGroupExact(opts, shuffle, k, group);
  }

  // ---------------------------------------------------------------------------
  // The split loop

  /** The groups' parts, each extending the three lists with `+=` in turn. */
  function Combine(ps: seq<Splits>): Splits {
    if ps == [] then Splits([], [], [])
    else
      var s := Combine(ps[..|ps| - 1]);
      var p := ps[|ps| - 1];
      Splits(s.train + p.train, s.val + p.val, s.test + p.test)
  }

  /** The parts of every group, the `k`-th shuffled by the `k`-th call. */
  function SplitEach(opts: Options, shuffle: Shuffle, gs: seq<seq<Clip>>): (ps: seq<Splits>)
    ensures |ps| == |gs|
    ensures forall k :: 0 <= k < |gs| ==> ps[k] == SplitGroup(opts, shuffle, k, gs[k])
  {
    seq(|gs|, k requires 0 <= k < |gs| => SplitGroup(opts, shuffle, k, gs[k]))
  }

  /** The loop over the groups. */
  function SplitAll(opts: Options, shuffle: Shuffle, gs: seq<seq<Clip>>): Splits {
    Combine(SplitEach(opts, shuffle, gs))
  }

  method SplitGroups(opts: Options, shuffle: Shuffle, gs: seq<seq<Clip>>) returns (s: Splits)
    ensures s == SplitAll(opts, shuffle, gs)
  {
    var train, val, test := [], [], [];
    for k := 0 to |gs|
      invariant Splits(train, val, test) == SplitAll(opts, shuffle, gs[..k])
    {
      var items := shuffle(k, gs[k]);
      if opts.perActionCap != 0 && |items| > opts.perActionCap {
        items := PyTake(items, opts.perActionCap);
      }
      assert items == Capped(opts.perActionCap, shuffle(k, gs[k]));
      var n := |items|;
      var nTest := PartSize(n, opts.testFrac);
      var nVal := PartSize(n, opts.valFrac);
      assert SplitGroup(opts, shuffle, k, gs[k]) == Partition(items, nTest, nVal);
      SplitAllSnoc(opts, shuffle, gs, k);
      test := test + PyTake(items, nTest);
      val := val + PySlice(items, nTest, nTest + nVal);
      train := train + PyDrop(items, nTest + nVal);
    }
    assert gs[..|gs|] == gs;
    s := Splits(train, val, test);
  }

  lemma SplitAllSnoc(opts: Options, shuffle: Shuffle, gs: seq<seq<Clip>>, k: nat)
    requires k < |gs|
    ensures var s := SplitAll(opts, shuffle, gs[..k]);
      var p := SplitGroup(opts, shuffle, k, gs[k]);
      SplitAll(opts, shuffle, gs[..k + 1]) == Splits(s.train + p.train, s.val + p.val, s.test + p.test)
  {
    var ps := SplitEach(opts, shuffle, gs[..k + 1]);
    assert ps[..k] == SplitEach(opts, shuffle, gs[..k]);
  }

  /** Parts that each hold exactly the rows of their group, put together, hold exactly
      the rows of all the groups. */
  lemma {:induction false} CombineKeepsRows(ps: seq<Splits>, gs: seq<seq<Clip>>)
    requires |ps| == |gs|
    requires forall k :: 0 <= k < |ps| ==>
      multiset(ps[k].test) + multiset(ps[k].val) + multiset(ps[k].train) == multiset(gs[k])
    ensures var s := Combine(ps);
      multiset(s.test) + multiset(s.val) + multiset(s.train) == multiset(Flatten(gs))
    decreases |ps|
  {
    if ps != [] {
      var n := |ps| - 1;
      CombineKeepsRows(ps[..n], gs[..n]);
      assert gs == gs[..n] + [gs[n]];
      FlattenSnoc(gs[..n], gs[n]);
    }
  }

  /** With non-negative fractions and a shuffle that only reorders, a group's three parts
      hold exactly its rows when there is no cap. */
  lemma SplitGroupKeepsRows(opts: Options, shuffle: Shuffle, k: nat, group: seq<Clip>)
    requires 0.0 <= opts.testFrac && 0.0 <= opts.valFrac && opts.perActionCap == 0
    requires Permutes(shuffle)
    ensures var p := SplitGroup(opts, shuffle, k, group);
      multiset(p.test) + multiset(p.val) + multiset(p.train) == multiset(group)
  {
    SplitGroupExact(opts, shuffle, k, group);
    var p := SplitGroup(opts, shuffle, k, group);
    assert multiset(p.test + p.val + p.train) == multiset(shuffle(k, group));
  }

  /** Without a cap, and with a shuffle that only reorders, the three splits together
      hold exactly the rows of the groups. */
  lemma SplitAllKeepsRows(opts: Options, shuffle: Shuffle, gs: seq<seq<Clip>>)
    requires 0.0 <= opts.testFrac && 0.0 <= opts.valFrac && opts.perActionCap == 0
    requires Permutes(shuffle)
    ensures var s := SplitAll(opts, shuffle, gs);
      multiset(s.test) + multiset(s.val) + multiset(s.train) == multiset(Flatten(gs))
  {
    var ps := SplitEach(opts, shuffle, gs);
    forall k | 0 <= k < |ps|
      ensures multiset(ps[k].test) + multiset(ps[k].val) + multiset(ps[k].train) == multiset(gs[k])
    {
      SplitGroupKeepsRows(opts, shuffle, k, gs[k]);
    }
    CombineKeepsRows(ps, gs);
  }

  /** Rows loaded, grouped in first-occurrence order of the action, and split. */
  function Splitting(opts: Options, shuffle: Shuffle, records: seq<Clip>): Splits {
    var rows := Loaded(records);
    SplitAll(opts, shuffle, GroupsOf(rows, Distinct(Actions(rows))))
  }

  /** Without a cap, every row read lands in exactly one split. */
  lemma SplittingKeepsRows(opts: Options, shuffle: Shuffle, records: seq<Clip>)
    requires 0.0 <= opts.testFrac && 0.0 <= opts.valFrac && opts.perActionCap == 0
    requires Permutes(shuffle)
    ensures var s := Splitting(opts, shuffle, records);
      && multiset(s.test) + multiset(s.val) + multiset(s.train) == multiset(Loaded(records))
      && |s.train| + |s.val| + |s.test| == |records|
  {
    var rows := Loaded(records);
    SplitAllKeepsRows(opts, shuffle, GroupsOf(rows, Distinct(Actions(rows))));
    GroupsHoldAllRows(rows);
    var s := Splitting(opts, shuffle, records);
    assert |multiset(s.test) + multiset(s.val) + multiset(s.train)| == |multiset(rows)|;
  }

  // ---------------------------------------------------------------------------
  // Where each action's rows end up

  datatype Part = Train | Val | Test

  function Pick(s: Splits, w: Part): seq<Clip> {
    match w
    case Train => s.train
    case Val => s.val
    case Test => s.test
  }

  /** One of the three lists of each of the parts. */
  function Picks(ps: seq<Splits>, w: Part): (blocks: seq<seq<Clip>>)
    ensures |blocks| == |ps|
    ensures forall k :: 0 <= k < |ps| ==> blocks[k] == Pick(ps[k], w)
  {
    seq(|ps|, k requires 0 <= k < |ps| => Pick(ps[k], w))
  }

  /** Each list of the combined parts is the parts' lists one after another. */
  lemma {:induction false} CombineBlocks(ps: seq<Splits>, w: Part)
    ensures Pick(Combine(ps), w) == Flatten(Picks(ps, w))
    decreases |ps|
  {
    if ps != [] {
      var n := |ps| - 1;
      CombineBlocks(ps[..n], w);
      assert Picks(ps, w) == Picks(ps[..n], w) + [Pick(ps[n], w)];
      FlattenSnoc(Picks(ps[..n], w), Pick(ps[n], w));
    }
  }

  /** What each group adds to one of the three lists. */
  function Parts(opts: Options, shuffle: Shuffle, gs: seq<seq<Clip>>, w: Part): (blocks: seq<seq<Clip>>)
    ensures |blocks| == |gs|
    ensures forall k :: 0 <= k < |gs| ==> blocks[k] == Pick(SplitGroup(opts, shuffle, k, gs[k]), w)
  {
    Picks(SplitEach(opts, shuffle, gs), w)
  }

  /** Each output list is the groups' contributions one after another. */
  lemma SplitAllBlocks(opts: Options, shuffle: Shuffle, gs: seq<seq<Clip>>, w: Part)
    ensures Pick(SplitAll(opts, shuffle, gs), w) == Flatten(Parts(opts, shuffle, gs, w))
  {
    CombineBlocks(SplitEach(opts, shuffle, gs), w);
  }

  /** A group's three parts hold only rows of the group, when the shuffle only
      reorders. */
  lemma SplitGroupMembers(opts: Options, shuffle: Shuffle, k: nat, group: seq<Clip>, w: Part)
    requires 0.0 <= opts.testFrac && 0.0 <= opts.valFrac && Permutes(shuffle)
    ensures forall r :: r in Pick(SplitGroup(opts, shuffle, k, group), w) ==> r in group
  {
    SplitGroupExact(opts, shuffle, k, group);
    var items := shuffle(k, group);
    assert multiset(items) == multiset(group);
    forall r | r in Pick(SplitGroup(opts, shuffle, k, group), w)
      ensures r in group
    {
      assert r in Capped(opts.perActionCap, items);
      assert r in multiset(items);
    }
  }

  /** Block `i` holds only rows of action `keys[i]`. */
  ghost predicate Keyed(blocks: seq<seq<Clip>>, keys: seq<string>) {
    |blocks| <= |keys| && forall i, r :: 0 <= i < |blocks| && r in blocks[i] ==> r.action == keys[i]
  }

  lemma CountActionsAppend(xs: seq<Clip>, ys: seq<Clip>, a: string)
    ensures Count(Actions(xs + ys), a) == Count(Actions(xs), a) + Count(Actions(ys), a)
  {
    assert Actions(xs + ys) == Actions(xs) + Actions(ys);
    CountAppend(Actions(xs), Actions(ys), a);
  }

  lemma {:induction false} CountActionsOfOne(xs: seq<Clip>, b: string, a: string)
    requires forall r :: r in xs ==> r.action == b
    ensures Count(Actions(xs), a) == if a == b then |xs| else 0
    decreases |xs|
  {
    if xs != [] {
      var n := |xs| - 1;
      assert xs == xs[..n] + [xs[n]];
      CountActionsOfOne(xs[..n], b, a);
      ActionsSnoc(xs[..n], xs[n]);
      CountSnoc(Actions(xs[..n]), xs[n].action, a);
    }
  }

  /** Keyed blocks one after another: action `keys[i]` occurs exactly as often as block
      `i` is long, and an action of no block does not occur. */
  lemma {:induction false} BlocksCount(blocks: seq<seq<Clip>>, keys: seq<string>, a: string)
    requires Keyed(blocks, keys) && NoDuplicates(keys)
    ensures forall i :: 0 <= i < |blocks| && keys[i] == a ==> Count(Actions(Flatten(blocks)), a) == |blocks[i]|
    ensures a !in keys[..|blocks|] ==> Count(Actions(Flatten(blocks)), a) == 0
    decreases |blocks|
  {
    if blocks != [] {
      var n := |blocks| - 1;
      assert blocks == blocks[..n] + [blocks[n]];
      assert keys[..n] == keys[..|blocks|][..n];
      BlocksCount(blocks[..n], keys, a);
      FlattenSnoc(blocks[..n], blocks[n]);
      CountActionsAppend(Flatten(blocks[..n]), blocks[n], a);
      CountActionsOfOne(blocks[n], keys[n], a);
      if keys[n] == a {
        assert a !in keys[..n];
      }
    }
  }

  /** The position of `a` among `keys`; `|keys|` when it is not there. */
  function Rank(keys: seq<string>, a: string): (i: nat)
    ensures i <= |keys|
    ensures i < |keys| ==> keys[i] == a && a !in keys[..i]
    ensures i == |keys| ==> a !in keys
  {
    if keys == [] then 0
    else if keys[0] == a then 0
    else
      assert keys[1..][..Rank(keys[1..], a)] == keys[1..1 + Rank(keys[1..], a)];
      1 + Rank(keys[1..], a)
  }

  lemma RankOf(keys: seq<string>, i: nat)
    requires i < |keys| && NoDuplicates(keys)
    ensures Rank(keys, keys[i]) == i
  {
  }

  /** Rows sorted by the position of their action among `keys`. */
  ghost predicate InKeyOrder(xs: seq<Clip>, keys: seq<string>) {
    forall i, j :: 0 <= i < j < |xs| ==> Rank(keys, xs[i].action) <= Rank(keys, xs[j].action)
  }

  /** Keyed blocks one after another are in key order. */
  lemma {:induction false} BlocksInKeyOrder(blocks: seq<seq<Clip>>, keys: seq<string>)
    requires Keyed(blocks, keys) && NoDuplicates(keys)
    ensures InKeyOrder(Flatten(blocks), keys)
    ensures forall r :: r in Flatten(blocks) ==> Rank(keys, r.action) < |blocks|
    decreases |blocks|
  {
    if blocks != [] {
      var n := |blocks| - 1;
      var xs, ys := Flatten(blocks[..n]), blocks[n];
      assert blocks == blocks[..n] + [ys];
      BlocksInKeyOrder(blocks[..n], keys);
      FlattenSnoc(blocks[..n], ys);
      RankOf(keys, n);
      assert forall r :: r in ys ==> Rank(keys, r.action) == n;
      forall i, j | 0 <= i < j < |xs + ys|
        ensures Rank(keys, (xs + ys)[i].action) <= Rank(keys, (xs + ys)[j].action)
      {
        if j >= |xs| {
          assert (xs + ys)[j] in ys;
          if i >= |xs| {
            assert (xs + ys)[i] in ys;
          } else {
            assert (xs + ys)[i] in xs;
          }
        }
      }
    }
  }

  /** The groups of the file, split: block `k` of every list holds rows of the `k`-th
      action in first-occurrence order. */
  lemma SplittingKeyed(opts: Options, shuffle: Shuffle, rows: seq<Clip>, w: Part)
    requires 0.0 <= opts.testFrac && 0.0 <= opts.valFrac && Permutes(shuffle)
    ensures var d := Distinct(Actions(rows));
      Keyed(Parts(opts, shuffle, GroupsOf(rows, d), w), d)
  {
    var d := Distinct(Actions(rows));
    var gs := GroupsOf(rows, d);
    forall k | 0 <= k < |gs|
      ensures forall r :: r in Parts(opts, shuffle, gs, w)[k] ==> r.action == d[k]
    {
      SplitGroupMembers(opts, shuffle, k, gs[k], w);
    }
  }

  /** How many rows of action `a` the three lists hold together. */
  function Contribution(s: Splits, a: string): nat {
    Count(Actions(s.test), a) + Count(Actions(s.val), a) + Count(Actions(s.train), a)
  }

  /** In each list, action `a` has exactly the rows of its own group's part. */
  lemma SplittingPartCount(opts: Options, shuffle: Shuffle, rows: seq<Clip>, w: Part, a: string)
    requires 0.0 <= opts.testFrac && 0.0 <= opts.valFrac && Permutes(shuffle)
    ensures var d := Distinct(Actions(rows));
      var gs := GroupsOf(rows, d);
      Count(Actions(Pick(SplitAll(opts, shuffle, gs), w)), a)
        == if a in d then |Pick(SplitGroup(opts, shuffle, Rank(d, a), gs[Rank(d, a)]), w)| else 0
  {
    var d := Distinct(Actions(rows));
    var gs := GroupsOf(rows, d);
    SplitAllBlocks(opts, shuffle, gs, w);
    SplittingKeyed(opts, shuffle, rows, w);
    BlocksCount(Parts(opts, shuffle, gs, w), d, a);
    assert d[..|d|] == d;
  }

  /** With a positive `--per-action-cap`, no action has more rows than the cap across
      the three splits. */
  lemma SplittingCap(opts: Options, shuffle: Shuffle, records: seq<Clip>, a: string)
    requires 0.0 <= opts.testFrac && 0.0 <= opts.valFrac && opts.perActionCap > 0
    requires Permutes(shuffle)
    ensures Contribution(Splitting(opts, shuffle, records), a) <= opts.perActionCap
  {
    var rows := Loaded(records);
    var d := Distinct(Actions(rows));
    var gs := GroupsOf(rows, d);
    SplittingPartCount(opts, shuffle, rows, Test, a);
    SplittingPartCount(opts, shuffle, rows, Val, a);
    SplittingPartCount(opts, shuffle, rows, Train, a);
    if a in d {
      SplitGroupCap(opts, shuffle, Rank(d, a), gs[Rank(d, a)]);
    }
  }

  /** Each split lists the action groups in the order in which the actions first occur
      in the index. */
  lemma SplittingInOrder(opts: Options, shuffle: Shuffle, records: seq<Clip>, w: Part)
    requires 0.0 <= opts.testFrac && 0.0 <= opts.valFrac && Permutes(shuffle)
    ensures var rows := Loaded(records);
      InKeyOrder(Pick(Splitting(opts, shuffle, records), w), Distinct(Actions(rows)))
  {
    var rows := Loaded(records);
    var d := Distinct(Actions(rows));
    SplitAllBlocks(opts, shuffle, GroupsOf(rows, d), w);
    SplittingKeyed(opts, shuffle, rows, w);
    BlocksInKeyOrder(Parts(opts, shuffle, GroupsOf(rows, d), w), d);
  }

  // ---------------------------------------------------------------------------
  // Writing

  /** The loader's keys, in insertion order. */
  const Header: seq<string> :=
    ["clip_path", "action", "outcome", "player", "video_filename", "t_event_sec"]

  function Fields(c: Clip): seq<string> {
    [c.clipPath, c.action, c.outcome, c.player, c.videoFilename, c.tEventSec]
  }

  /** `write_split`: the header is the keys of `train[0]`, so an empty training split
      fails with an index error whichever split is written. */
  function WriteSplit(train: seq<Clip>, data: seq<Clip>): (r: Result<CsvFile, string>)
    ensures r.Failure? <==> train == []
    ensures r.Success? ==> r.value.header == Header && |r.value.records| == |data|
    ensures r.Success? ==> forall i :: 0 <= i < |data| ==> r.value.records[i] == Fields(data[i])
  {
    if train == [] then Failure("list index out of range")
    else Success(CsvFile(Header, seq(|data|, i requires 0 <= i < |data| => Fields(data[i]))))
  }

  /** The outcome of `main`: the train, val and test files, or the error of the first
      write. */
  function Outcome(opts: Options, shuffle: Shuffle, records: seq<Clip>): Result<SplitFiles, string> {
    var s := Splitting(opts, shuffle, records);
    match WriteSplit(s.train, s.train)
    case Failure(e) => Failure(e)
    case Success(tr) =>
      match WriteSplit(s.train, s.val)
      case Failure(e) => Failure(e)
      case Success(va) =>
        match WriteSplit(s.train, s.test)
        case Failure(e) => Failure(e)
        case Success(te) => Success(SplitFiles(tr, va, te))
  }

  /** `main` fails exactly when the training split is empty, and otherwise writes the
      three splits under the same header. */
  lemma OutcomeFailsOnEmptyTrain(opts: Options, shuffle: Shuffle, records: seq<Clip>)
    ensures var r := Outcome(opts, shuffle, records);
      var s := Splitting(opts, shuffle, records);
      && (r.Failure? <==> s.train == [])
      && (r.Success? ==>
            && r.value.train.header == Header && r.value.val.header == Header && r.value.test.header == Header
            && |r.value.train.records| == |s.train|
            && |r.value.val.records| == |s.val|
            && |r.value.test.records| == |s.test|)
  {
  }

  /** `main` after argument parsing: load, group, split and write. */
  method MakeSplits(opts: Options, shuffle: Shuffle, records: seq<Clip>) returns (r: Result<SplitFiles, string>)
    ensures r == Outcome(opts, shuffle, records)
  {
    var rows := LoadRows(records);
    assert rows == Loaded(records);
    var order, groups := GroupByAction(rows);
    var gs := seq(|order|, i requires 0 <= i < |order| => groups[order[i]]);
    assert gs == GroupsOf(rows, order);
    var s := SplitGroups(opts, shuffle, gs);
    var train := WriteSplit(s.train, s.train);
    if train.Failure? {
      return Failure(train.error);
    }
    var val := WriteSplit(s.train, s.val);
    var test := WriteSplit(s.train, s.test);
    r := Success(SplitFiles(train.value, val.value, test.value));
  }
}
