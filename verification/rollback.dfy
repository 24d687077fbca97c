/** BasicDAO.cancel: undo the tracked edits with classification suspended,
    then forget them. */
module Rollback {
  import opened Common
  import opened Tracking
  import opened BasicDao

  /** The slot a pair's store value is written back to (BasicDAO.java
      lines 269-273): the advisory index if the list still holds the pair's
      last value there, else the first slot holding it, else none (-1). */
  function RestoreSlot<T(==)>(data: seq<Option<T>>, p: Pair<T>): (i: int)
    ensures -1 <= i < |data|
    ensures 0 <= i ==> data[i] == Some(p.lastValue)
    ensures i == -1 <==> Some(p.lastValue) !in data
    ensures p.idx < |data| && data[p.idx] == Some(p.lastValue) ==> i == p.idx
    ensures !(p.idx < |data| && data[p.idx] == Some(p.lastValue)) && 0 <= i ==> Some(p.lastValue) !in data[..i]
  {
    if p.idx < |data| && data[p.idx] == Some(p.lastValue) then p.idx
    else IndexOf(data, Some(p.lastValue))
  }

  /** The pair loop of `cancel` with its null-safe slot test: each pair's
      store value overwrites a slot holding its last value; a pair whose last
      value is gone is skipped. */
  function RestorePairs<T(==)>(c: Cache<T>, ps: seq<Pair<T>>): (r: Cache<T>)
    requires c.skip
    ensures r.skip && r.log == c.log
    ensures |r.data| == |c.data|
    decreases |ps|
  {
    if |ps| == 0 then c
    else
      var i := RestoreSlot(c.data, ps[0]);
      var c1 := if 0 <= i then Perform(c, ReplaceAt(i, Some(ps[0].initValue))) else c;
      RestorePairs(c1, ps[1..])
  }

  /** The pair loop as written: `data.get(i).equals(...)` dereferences the
      slot at the advisory index, so a `null` there throws
      NullPointerException and ends the loop. */
  function RestorePairsAsWritten<T(==)>(c: Cache<T>, ps: seq<Pair<T>>): (r: Outcome<Cache<T>>)
    requires c.skip
    ensures r.state.skip && r.state.log == c.log
    ensures r.fault.Some? ==> r.fault == Some(NullPointer)
    decreases |ps|
  {
    if |ps| == 0 then Outcome(c, None)
    else if ps[0].idx < |c.data| && c.data[ps[0].idx].None? then Outcome(c, Some(NullPointer))
    else
      var i := RestoreSlot(c.data, ps[0]);
      var c1 := if 0 <= i then Perform(c, ReplaceAt(i, Some(ps[0].initValue))) else c;
      RestorePairsAsWritten(c1, ps[1..])
  }

  /** The added-items loop of `cancel`: `data.remove(item)` takes out the
      first occurrence of each added item, if there is one. */
  function RemoveAdded<T(==)>(c: Cache<T>, items: seq<Option<T>>): (r: Cache<T>)
    requires c.skip
    ensures r.skip && r.log == c.log
    ensures |r.data| <= |c.data|
    decreases |items|
  {
    if |items| == 0 then c
    else
      var k := IndexOf(c.data, items[0]);
      var c1 := if 0 <= k then Perform(c, RemoveAt(k)) else c;
      RemoveAdded(c1, items[1..])
  }

  /** The removed-items loop of `cancel`: `data.add(item)` appends each
      removed item, so they come back at the end in removal order. */
  function AppendRemoved<T(==)>(c: Cache<T>, items: seq<Option<T>>): (r: Cache<T>)
    requires c.skip
    ensures r.skip && r.log == c.log
    ensures r.data == c.data + items
    decreases |items|
  {
    if |items| == 0 then c
    else
      var c1 := Perform(c, InsertAt(|c.data|, items[0]));
      assert c1.data == c.data + [items[0]];
      assert c.data + items == c1.data + items[1..];
      AppendRemoved(c1, items[1..])
  }

  /** The rest of `cancel` once the pairs are written back: clear the
      pairs, take out the added items, clear them, put back the removed
      items, clear them, and lift `skip` (BasicDAO.java lines 276-289). */
  function Settle<T(==)>(c: Cache<T>, log: Tracked<T>): (r: Cache<T>)
    requires c.skip
    ensures r.log == NoEdits() && !r.skip
    ensures |r.data| >= |log.removed| && r.data[|r.data| - |log.removed|..] == log.removed
  {
    var c3 := c.(log := c.log.(updated := []));
    var c4 := RemoveAdded(c3, log.added);
    var c5 := c4.(log := c4.log.(added := []));
    var c6 := AppendRemoved(c5, log.removed);
    assert c6.data[|c6.data| - |log.removed|..] == log.removed;
    c6.(log := NoEdits(), skip := false)
  }

  /** `cancel` (BasicDAO.java lines 265-290) with the slot test made
      null-safe. Every tracking list ends empty and `skip` ends false; the
      removed items end up at the tail of the list, in removal order. */
  function Cancel<T(==)>(c: Cache<T>): (r: Cache<T>)
    ensures r.log == NoEdits() && !r.skip
    ensures |r.data| >= |c.log.removed| && r.data[|r.data| - |c.log.removed|..] == c.log.removed
  {
    Settle(RestorePairs(c.(skip := true), c.log.updated), c.log)
  }

  /** `cancel` as written. When the pair loop throws, the `finally` block
      still clears `skip`, but none of the three `clear()` calls is reached:
      every tracking list is left as it was. */
  function CancelAsWritten<T(==)>(c: Cache<T>): (r: Outcome<Cache<T>>)
    ensures !r.state.skip
    ensures r.fault.Some? ==> r.fault == Some(NullPointer) && r.state.log == c.log
    ensures r.fault.None? ==> r.state.log == NoEdits()
  {
    var o := RestorePairsAsWritten(c.(skip := true), c.log.updated);
    if o.fault.Some? then Outcome(o.state.(skip := false), o.fault)
    else Outcome(Settle(o.state, c.log), None)
  }

  /** A second `cancel` finds nothing to undo. */
  lemma CancelIdempotent<T>(c: Cache<T>)
    ensures Cancel(Cancel(c)) == Cancel(c)
  {
    var r := Cancel(c);
    var s := r.(skip := true);
    assert RestorePairs(s, []) == s;
    var c3 := s.(log := s.log.(updated := []));
    assert RemoveAdded(c3, []) == c3;
    assert AppendRemoved(c3, []) == c3;
  }

  /** A `cancel` with nothing tracked leaves the list alone. */
  lemma CancelNothingTracked<T>(c: Cache<T>)
    requires c.log == NoEdits()
    ensures Cancel(c).data == c.data
  {
    var s := c.(skip := true);
    assert RestorePairs(s, []) == s;
    var c3 := s.(log := s.log.(updated := []));
    assert RemoveAdded(c3, []) == c3;
    assert AppendRemoved(c3, []) == c3;
  }

  lemma {:induction false} RestorePairsAgree<T>(c: Cache<T>, ps: seq<Pair<T>>)
    requires c.skip && NonNull(c.data)
    ensures RestorePairsAsWritten(c, ps) == Outcome(RestorePairs(c, ps), None)
    ensures NonNull(RestorePairs(c, ps).data)
    decreases |ps|
  {
    if |ps| > 0 {
      var i := RestoreSlot(c.data, ps[0]);
      var c1 := if 0 <= i then Perform(c, ReplaceAt(i, Some(ps[0].initValue))) else c;
      assert NonNull(c1.data);
      RestorePairsAgree(c1, ps[1..]);
    }
  }

  /** On a list without `null` slots the written `cancel` never throws and
      does exactly what the null-safe one does. */
  lemma CancelAsWrittenAgrees<T>(c: Cache<T>)
    requires NonNull(c.data)
    ensures CancelAsWritten(c) == Outcome(Cancel(c), None)
  {
    RestorePairsAgree(c.(skip := true), c.log.updated);
  }

  /** Every value the tracking lists hold as pending is still in the list,
      and the list, less what is pending, plus what is owed, is the
      baseline. */
  ghost predicate Balanced<T>(base: seq<Option<T>>, c: Cache<T>) {
    && multiset(base) + Pending(c.log) == multiset(c.data) + Owed(c.log)
    && Pending(c.log) <= multiset(c.data)
  }

  lemma MultisetExt<X>(m1: multiset<X>, m2: multiset<X>)
    requires forall x :: m1[x] == m2[x]
    ensures m1 == m2
  {
  }

  /** One pair written back: its last value leaves the list, its store
      value enters it. */
  lemma RestoreOneMoves<T>(c: Cache<T>, p: Pair<T>)
    requires c.skip && Some(p.lastValue) in c.data
    ensures 0 <= RestoreSlot(c.data, p)
    ensures multiset(Perform(c, ReplaceAt(RestoreSlot(c.data, p), Some(p.initValue))).data) + multiset{Some(p.lastValue)}
         == multiset(c.data) + multiset{Some(p.initValue)}
  {
  }

  lemma {:induction false} RestorePairsMoves<T>(c: Cache<T>, ps: seq<Pair<T>>, keep: multiset<Option<T>>)
    requires c.skip
    requires multiset(LastValues(ps)) + keep <= multiset(c.data)
    ensures multiset(RestorePairs(c, ps).data) + multiset(LastValues(ps)) == multiset(c.data) + multiset(InitValues(ps))
    ensures keep <= multiset(RestorePairs(c, ps).data)
    decreases |ps|
  {
    if |ps| > 0 {
      var p := ps[0];
      var last, init := Some(p.lastValue), Some(p.initValue);
      var ls, ins := LastValues(ps[1..]), InitValues(ps[1..]);
      var d := multiset(c.data);
      SplitPairs(ps);
      CoveredIsPresent(d, last, multiset(ls), keep);
      RestoreOneMoves(c, p);
      var c1 := Perform(c, ReplaceAt(RestoreSlot(c.data, p), init));
      assert RestorePairs(c, ps) == RestorePairs(c1, ps[1..]);
      var d1 := multiset(c1.data);
      SwapKeepsCover(d, d1, last, init, multiset(ls), keep);
      RestorePairsMoves(c1, ps[1..], keep);
      SwapAccumulates(d, d1, multiset(RestorePairs(c1, ps[1..]).data), last, init, multiset(ls), multiset(ins));
    }
  }

  /** The head pair's values split off the pair sums. */
  lemma SplitPairs<T>(ps: seq<Pair<T>>)
    requires |ps| > 0
    ensures multiset(LastValues(ps)) == multiset{Some(ps[0].lastValue)} + multiset(LastValues(ps[1..]))
    ensures multiset(InitValues(ps)) == multiset{Some(ps[0].initValue)} + multiset(InitValues(ps[1..]))
  {
    assert LastValues(ps) == [Some(ps[0].lastValue)] + LastValues(ps[1..]);
    assert InitValues(ps) == [Some(ps[0].initValue)] + InitValues(ps[1..]);
  }

  lemma CoveredIsPresent<X>(d: multiset<X>, x: X, ls: multiset<X>, keep: multiset<X>)
    requires multiset{x} + ls + keep <= d
    ensures x in d
  {
    assert (multiset{x} + ls + keep)[x] <= d[x];
  }

  lemma SwapKeepsCover<X>(d: multiset<X>, d1: multiset<X>, last: X, init: X, ls: multiset<X>, keep: multiset<X>)
    requires d1 + multiset{last} == d + multiset{init}
    requires multiset{last} + ls + keep <= d
    ensures ls + keep <= d1
  {
    forall x
      ensures (ls + keep)[x] <= d1[x]
    {
      assert (d1 + multiset{last})[x] == (d + multiset{init})[x];
      assert (multiset{last} + ls + keep)[x] <= d[x];
    }
  }

  lemma SwapAccumulates<X>(d: multiset<X>, d1: multiset<X>, d2: multiset<X>, last: X, init: X, ls: multiset<X>, ins: multiset<X>)
    requires d1 + multiset{last} == d + multiset{init}
    requires d2 + ls == d1 + ins
    ensures d2 + (multiset{last} + ls) == d + (multiset{init} + ins)
  {
    forall x
      ensures (d2 + (multiset{last} + ls))[x] == (d + (multiset{init} + ins))[x]
    {
      assert (d2 + ls)[x] == (d1 + ins)[x];
      assert (d1 + multiset{last})[x] == (d + multiset{init})[x];
    }
    MultisetExt(d2 + (multiset{last} + ls), d + (multiset{init} + ins));
  }

  /** The multiset step behind taking one item out of the list. */
  lemma TakeOne<X>(d: multiset<X>, d1: multiset<X>, x: X, rest: multiset<X>, whole: multiset<X>)
    requires whole == multiset{x} + rest && whole <= d && d1 + multiset{x} == d
    ensures rest <= d1 && d1 - rest == d - whole
  {
    forall y
      ensures rest[y] <= d1[y] && (d1 - rest)[y] == (d - whole)[y]
    {
      assert whole[y] == multiset{x}[y] + rest[y];
      assert (d1 + multiset{x})[y] == d[y];
    }
    MultisetExt(d1 - rest, d - whole);
  }

  lemma {:induction false} RemoveAddedTakes<T>(c: Cache<T>, items: seq<Option<T>>)
    requires c.skip && multiset(items) <= multiset(c.data)
    ensures multiset(RemoveAdded(c, items).data) == multiset(c.data) - multiset(items)
    decreases |items|
  {
    if |items| > 0 {
      Tracking.HeadSplit(items);
      CoveredIsPresent(multiset(c.data), items[0], multiset(items[1..]), multiset{});
      var k := IndexOf(c.data, items[0]);
      var c1 := Perform(c, RemoveAt(k));
      assert RemoveAdded(c, items) == RemoveAdded(c1, items[1..]);
      assert multiset(c1.data) + multiset{items[0]} == multiset(c.data);
      TakeOne(multiset(c.data), multiset(c1.data), items[0], multiset(items[1..]), multiset(items));
      RemoveAddedTakes(c1, items[1..]);
    }
  }

  /** Rolling back a balanced cache restores the baseline's values: the
      list ends with exactly the baseline's items, counted with
      multiplicity, though not necessarily in the baseline's order. */
  lemma CancelRestoresBaseline<T>(base: seq<Option<T>>, c: Cache<T>)
    requires Balanced(base, c)
    ensures multiset(Cancel(c).data) == multiset(base)
  {
    var t := c.log;
    var c1 := c.(skip := true);
    RestorePairsMoves(c1, t.updated, multiset(t.added));
    var c2 := RestorePairs(c1, t.updated);
    var c3 := c2.(log := c2.log.(updated := []));
    RemoveAddedTakes(c3, t.added);
    var c4 := RemoveAdded(c3, t.added);
    var c5 := c4.(log := c4.log.(added := []));
    var c6 := AppendRemoved(c5, t.removed);
    assert Cancel(c).data == c6.data == c4.data + t.removed;
    RollbackArithmetic(multiset(base), multiset(c.data), multiset(t.added), multiset(LastValues(t.updated)),
      multiset(InitValues(t.updated)), multiset(t.removed), multiset(c2.data), multiset(c4.data));
  }

  /** The multiset bookkeeping behind a rollback: the list `d2` after the
      pairs are written back, `d4` after the added items are taken out. */
  lemma RollbackArithmetic<X>(b: multiset<X>, d: multiset<X>, a: multiset<X>, l: multiset<X>, i: multiset<X>, r: multiset<X>, d2: multiset<X>, d4: multiset<X>)
    requires b + (a + l) == d + (i + r)
    requires d2 + l == d + i
    requires a <= d2 && d4 == d2 - a
    ensures d4 + r == b
  {
    forall x
      ensures (d4 + r)[x] == b[x]
    {
      assert (b + (a + l))[x] == (d + (i + r))[x];
      assert (d2 + l)[x] == (d + i)[x];
    }
  }

  /** A command value that is not `null`. */
  predicate NonNullCommand<T>(cmd: Command<T>) {
    cmd.RemoveAt? || cmd.v.Some?
  }

  lemma PerformCovers<T>(c: Cache<T>, cmd: Command<T>)
    requires !c.skip && InRange(c.data, cmd) && NonNullCommand(cmd) && NonNull(c.data)
    requires Pending(c.log) <= multiset(c.data)
    ensures Pending(Perform(c, cmd).log) <= multiset(Perform(c, cmd).data)
  {
    var r := Perform(c, cmd);
    var p, d := Pending(c.log), multiset(c.data);
    match cmd
    case ReplaceAt(i, v) =>
      ReplaceAtClassified(c, i, v);
      var o := c.data[i];
      assert multiset(r.data) + multiset{o} == d + multiset{v};
      if o != v {
        ReplaceOnePending(c.log, i, o, v);
        CoverReplace(p, d, Pending(r.log), multiset(r.data), o, v);
      }
    case RemoveAt(i) =>
      RemoveAtClassified(c, i);
      RemoveOnePending(c.log, c.data[i]);
      assert multiset(r.data) + multiset{c.data[i]} == d;
      CoverRemove(p, d, Pending(r.log), multiset(r.data), c.data[i]);
    case InsertAt(i, v) =>
      InsertAtClassified(c, i, v);
      InsertOnePending(c.log, v);
      assert multiset(r.data) == d + multiset{v};
  }

  /** The multiset step behind a replacement keeping pending values
      covered. */
  lemma CoverReplace<X>(p: multiset<X>, d: multiset<X>, p': multiset<X>, d': multiset<X>, o: X, v: X)
    requires p <= d && o in d && d' + multiset{o} == d + multiset{v}
    requires || (o in p && p' == p - multiset{o} + multiset{v})
             || (o !in p && p' == p + multiset{v})
    ensures p' <= d'
  {
    forall x
      ensures p'[x] <= d'[x]
    {
      assert (d' + multiset{o})[x] == (d + multiset{v})[x];
    }
  }

  /** The multiset step behind a removal keeping pending values covered. */
  lemma CoverRemove<X>(p: multiset<X>, d: multiset<X>, p': multiset<X>, d': multiset<X>, v: X)
    requires p <= d && d' + multiset{v} == d
    requires || (v in p && p' == p - multiset{v})
             || (v !in p && p' == p)
    ensures p' <= d'
  {
    forall x
      ensures p'[x] <= d'[x]
    {
      assert (d' + multiset{v})[x] == d[x];
    }
  }


  /** A non-null command keeps a cache balanced against its baseline. */
  lemma PerformKeepsBalance<T>(base: seq<Option<T>>, c: Cache<T>, cmd: Command<T>)
    requires Balanced(base, c) && !c.skip && NonNull(c.data)
    requires InRange(c.data, cmd) && NonNullCommand(cmd)
    ensures Balanced(base, Perform(c, cmd)) && NonNull(Perform(c, cmd).data)
  {
    var r := Perform(c, cmd);
    var ch := ChangeOf(c.data, cmd);
    ListenAccounts(c.log, ch);
    PerformCovers(c, cmd);
    BalanceArithmetic(multiset(base), Pending(c.log), Owed(c.log), multiset(c.data),
      Pending(r.log), Owed(r.log), multiset(r.data), multiset(ch.removed), multiset(ch.added));
  }

  /** The multiset bookkeeping behind one balanced step: the change took
      `g` out and put `k` in, both in the list and in the account. */
  lemma BalanceArithmetic<X>(b: multiset<X>, p: multiset<X>, o: multiset<X>, d: multiset<X>,
                              p': multiset<X>, o': multiset<X>, d': multiset<X>, g: multiset<X>, k: multiset<X>)
    requires b + p == d + o
    requires p' + o + g == p + o' + k
    requires d' + g == d + k
    ensures b + p' == d' + o'
  {
    forall x
      ensures (b + p')[x] == (d' + o')[x]
    {
      assert (b + p)[x] == (d + o)[x];
      assert (p' + o + g)[x] == (p + o' + k)[x];
      assert (d' + g)[x] == (d + k)[x];
    }
  }

  lemma {:induction false} RunKeepsBalance<T>(base: seq<Option<T>>, c: Cache<T>, cmds: seq<Command<T>>)
    requires Balanced(base, c) && !c.skip && NonNull(c.data)
    requires forall j :: 0 <= j < |cmds| ==> NonNullCommand(cmds[j])
    ensures Balanced(base, Run(c, cmds)) && NonNull(Run(c, cmds).data) && !Run(c, cmds).skip
    decreases |cmds|
  {
    if |cmds| > 0 {
      if InRange(c.data, cmds[0]) {
        PerformKeepsBalance(base, c, cmds[0]);
        RunKeepsBalance(base, Perform(c, cmds[0]), cmds[1..]);
      } else {
        RunKeepsBalance(base, c, cmds[1..]);
      }
    }
  }

  /** The promise of BasicDAO's class comment, "Cancel updates": load a
      baseline without `null` rows, apply any non-null commands, roll back;
      the list holds the baseline's items again (order aside), nothing is
      tracked any more, and `cancel` as written agrees. */
  lemma CancelAfterEditsRestoresBaseline<T>(base: seq<Option<T>>, cmds: seq<Command<T>>)
    requires NonNull(base)
    requires forall j :: 0 <= j < |cmds| ==> NonNullCommand(cmds[j])
    ensures var c := Run(Fresh(base), cmds);
      && multiset(Cancel(c).data) == multiset(base)
      && Cancel(c).log == NoEdits()
      && CancelAsWritten(c) == Outcome(Cancel(c), None)
  {
    var f := Fresh(base);
    assert LastValues(f.log.updated) == [] && InitValues(f.log.updated) == [];
    assert Balanced(base, f);
    RunKeepsBalance(base, f, cmds);
    var c := Run(f, cmds);
    CancelRestoresBaseline(base, c);
    CancelAsWrittenAgrees(c);
  }

  /** The same promise for a DAO opened with nothing tracked: after any
      non-null edits, `cancel` gives back the rows `open` loaded. */
  lemma OpenedDaoCancels<T, P>(dao: Dao<T, P>, query: Option<QueryObject<P>>, hasWrapper: bool, rows: seq<Option<T>>, cmds: seq<Command<T>>)
    requires dao.cache.log == NoEdits() && !dao.cache.skip
    requires Configured(query, hasWrapper) && NonNull(rows)
    requires forall j :: 0 <= j < |cmds| ==> NonNullCommand(cmds[j])
    ensures var c := Run(Open(dao, query, hasWrapper, Ok(rows)).state.cache, cmds);
      multiset(Cancel(c).data) == multiset(rows) && Cancel(c).log == NoEdits()
  {
    OpenLoadsFresh(dao, query, hasWrapper, Ok(rows));
    CancelAfterEditsRestoresBaseline(rows, cmds);
  }

  /** `open` keeps the tracking lists, so a removal made before reopening is
      appended to the newly loaded rows by the next `cancel`. */
  lemma StaleRemovalSurvivesOpen<T, P>(a: T, b: T, q: QueryObject<P>)
    requires Configured(Some(q), true)
    ensures var dao := Dao(Some(q), Cache([], Tracked([], [], [Some(a)]), false));
      Cancel(Open(dao, Some(q), true, Ok([Some(b)])).state.cache).data == [Some(b), Some(a)]
  {
    var c := Cache([Some(b)], Tracked([], [], [Some(a)]), false);
    var s := c.(skip := true);
    assert RestorePairs(s, []) == s;
    assert RemoveAdded(s.(log := s.log.(updated := [])), []) == s.(log := s.log.(updated := []));
    var s5 := s.(log := Tracked([], [], [Some(a)]));
    assert AppendRemoved(s5, [Some(a)]).data == [Some(b), Some(a)];
  }

  /** A `null` written over a stored row is not tracked (BasicDAO.java line
      151), so rolling back cannot bring the row back. */
  lemma NullReplaceEscapesCancel<T>(a: T)
    ensures var c := Run(Fresh([Some(a)]), [ReplaceAt(0, None)]);
      && c.log == NoEdits()
      && Cancel(c).data == [None]
      && multiset(Cancel(c).data) != multiset([Some(a)])
  {
    var f := Fresh([Some(a)]);
    ReplaceAtClassified(f, 0, None);
    var c := Perform(f, ReplaceAt(0, None));
    assert c.data == [None] && c.log == NoEdits();
    assert Run(f, [ReplaceAt(0, None)]) == Run(c, []) == c;
    CancelNothingTracked(c);
    assert multiset(Cancel(c).data)[Some(a)] == 0;
  }

  /** A baseline with a `null` row (a row the wrapper failed to
      instantiate), a stored value replaced at slot 1, then an insertion at
      the front: the pair's advisory slot now holds the `null`, so `cancel`
      as written throws and leaves every tracking list as it was, while the
      null-safe `cancel` clears them and restores the baseline. */
  lemma NullSlotDefeatsCancelAsWritten<T>(a: T, b: T, x: T)
    requires a != b && b != x && a != x
    ensures var c := Run(Fresh([None, Some(a)]), [ReplaceAt(1, Some(b)), InsertAt(0, Some(x))]);
      && c.data == [Some(x), None, Some(b)]
      && c.log == Tracked([Some(x)], [Pair(1, a, b)], [])
      && CancelAsWritten(c) == Outcome(c, Some(NullPointer))
      && Cancel(c).data == [None, Some(a)]
  {
    NullSlotEdits(a, b, x);
    NullSlotCancel(a, b, x);
  }

  /** The two edits of the null-slot scenario. */
  lemma NullSlotEdits<T>(a: T, b: T, x: T)
    requires a != b && b != x && a != x
    ensures Run(Fresh([None, Some(a)]), [ReplaceAt(1, Some(b)), InsertAt(0, Some(x))])
         == Cache([Some(x), None, Some(b)], Tracked([Some(x)], [Pair(1, a, b)], []), false)
  {
    var f := Fresh([None, Some(a)]);
    ReplaceAtClassified(f, 1, Some(b));
    var c1 := Perform(f, ReplaceAt(1, Some(b)));
    assert c1 == Cache([None, Some(b)], Tracked([], [Pair(1, a, b)], []), false);
    InsertAtClassified(c1, 0, Some(x));
    var c2 := Perform(c1, InsertAt(0, Some(x)));
    assert c2.data == [Some(x), None, Some(b)];
    RunTwo(f, ReplaceAt(1, Some(b)), InsertAt(0, Some(x)));
  }

  /** Both rollbacks of the null-slot scenario. */
  lemma NullSlotCancel<T>(a: T, b: T, x: T)
    requires a != b && b != x && a != x
    ensures var c := Cache([Some(x), None, Some(b)], Tracked([Some(x)], [Pair(1, a, b)], []), false);
      && CancelAsWritten(c) == Outcome(c, Some(NullPointer))
      && Cancel(c).data == [None, Some(a)]
  {
    var c := Cache([Some(x), None, Some(b)], Tracked([Some(x)], [Pair(1, a, b)], []), false);
    var s := c.(skip := true);
    assert RestorePairsAsWritten(s, c.log.updated) == Outcome(s, Some(NullPointer));
    assert RestoreSlot(s.data, Pair(1, a, b)) == 2;
    var s1 := Perform(s, ReplaceAt(2, Some(a)));
    assert s1.data == [Some(x), None, Some(a)];
    assert RestorePairs(s, [Pair(1, a, b)]) == RestorePairs(s1, []) == s1;
    var s3 := s1.(log := s1.log.(updated := []));
    assert IndexOf(s3.data, Some(x)) == 0;
    var s4 := Perform(s3, RemoveAt(0));
    assert s4.data == [None, Some(a)];
    assert RemoveAdded(s3, [Some(x)]) == RemoveAdded(s4, []) == s4;
    var s5 := s4.(log := s4.log.(added := []));
    assert AppendRemoved(s5, []) == s5;
  }
}
