/** Worked edit sequences on BasicDAO's cache: what the tracking lists
    record after each step, and what `cancel` leaves behind. */
module Scenarios {
  import opened Common
  import opened Tracking
  import opened BasicDao
  import opened Rollback

  /** Inserting an item and removing it again leaves no trace, whether the
      item is new, `null`, or another copy of a stored row. */
  lemma AddedThenRemovedCollapses<T>(base: seq<Option<T>>, v: Option<T>)
    ensures var c := Run(Fresh(base), [InsertAt(0, v), RemoveAt(0)]);
      c.data == base && c.log == NoEdits()
  {
    var f := Fresh(base);
    InsertAtClassified(f, 0, v);
    var c1 := Perform(f, InsertAt(0, v));
    assert c1.data == [v] + base;
    assert c1.log == Tracked([v], [], []);
    RemoveAtClassified(c1, 0);
    var c2 := Perform(c1, RemoveAt(0));
    assert c2.data == base;
    RunTwo(f, InsertAt(0, v), RemoveAt(0));
  }

  /** Editing a stored row and editing it back keeps a pair whose store
      value and last value agree; the pair is not dropped. */
  lemma UpdateThenRevertKeepsPair<T>(a: T, b: T)
    requires a != b
    ensures var c := Run(Fresh([Some(a)]), [ReplaceAt(0, Some(b)), ReplaceAt(0, Some(a))]);
      c.data == [Some(a)] && c.log == Tracked([], [Pair(0, a, a)], [])
  {
    var f := Fresh([Some(a)]);
    UpdateFirst(a, b);
    var c1 := Cache([Some(b)], Tracked([], [Pair(0, a, b)], []), false);
    UpdateBack(a, b);
    RunTwo(f, ReplaceAt(0, Some(b)), ReplaceAt(0, Some(a)));
  }

  lemma UpdateFirst<T>(a: T, b: T)
    requires a != b
    ensures Perform(Fresh([Some(a)]), ReplaceAt(0, Some(b))) == Cache([Some(b)], Tracked([], [Pair(0, a, b)], []), false)
  {
    ReplaceAtClassified(Fresh([Some(a)]), 0, Some(b));
    FirstReplaceOpensPair(0, a, b);
    assert Edit([Some(a)], ReplaceAt(0, Some(b))) == [Some(b)];
  }

  lemma UpdateBack<T>(a: T, b: T)
    requires a != b
    ensures Perform(Cache([Some(b)], Tracked([], [Pair(0, a, b)], []), false), ReplaceAt(0, Some(a)))
         == Cache([Some(a)], Tracked([], [Pair(0, a, a)], []), false)
  {
    var c1 := Cache([Some(b)], Tracked([], [Pair(0, a, b)], []), false);
    ReplaceAtClassified(c1, 0, Some(a));
    RetargetSolePair(0, a, b, a);
    assert Edit(c1.data, ReplaceAt(0, Some(a))) == [Some(a)];
  }

  /** Removing an edited row records the value the store holds, not the
      edited one, and drops the pair. */
  lemma RemoveOfUpdatedOwesOriginal<T>(a: T, b: T)
    requires a != b
    ensures var c := Run(Fresh([Some(a)]), [ReplaceAt(0, Some(b)), RemoveAt(0)]);
      c.data == [] && c.log == Tracked([], [], [Some(a)])
  {
    var f := Fresh([Some(a)]);
    ReplaceAtClassified(f, 0, Some(b));
    var c1 := Perform(f, ReplaceAt(0, Some(b)));
    assert c1.log == Tracked([], [Pair(0, a, b)], []);
    RemoveAtClassified(c1, 0);
    var c2 := Perform(c1, RemoveAt(0));
    assert c2.log == Tracked([], [], [Some(a)]);
    RunTwo(f, ReplaceAt(0, Some(b)), RemoveAt(0));
  }

  /** A value can be pending twice: an edit that introduces `b` opens a
      pair, and inserting another `b` files it as added as well, because
      the insert rule consults only the removed items. */
  lemma PendingValueTrackedTwice<T>(a: T, b: T)
    requires a != b
    ensures var t := InsertOne(ReplaceOne(NoEdits<T>(), 0, Some(a), Some(b)), Some(b));
      Some(b) in t.added && Some(b) in LastValues(t.updated)
  {
    FirstReplaceOpensPair(0, a, b);
    assert LastValues([Pair(0, a, b)])[0] == Some(b);
  }

  /** First edit of the end-to-end scenario: B at slot 1 becomes D. */
  lemma EndToEndReplace<T>(a: T, b: T, c: T, d: T)
    requires b != d
    ensures Perform(Fresh([Some(a), Some(b), Some(c)]), ReplaceAt(1, Some(d)))
         == Cache([Some(a), Some(d), Some(c)], Tracked([], [Pair(1, b, d)], []), false)
  {
    ReplaceAtClassified(Fresh([Some(a), Some(b), Some(c)]), 1, Some(d));
  }

  /** Second edit: D is removed; the pair goes and B is owed. */
  lemma EndToEndRemove<T>(a: T, b: T, c: T, d: T)
    requires a != d && c != d
    ensures Perform(Cache([Some(a), Some(d), Some(c)], Tracked([], [Pair(1, b, d)], []), false), RemoveAt(1))
         == Cache([Some(a), Some(c)], Tracked([], [], [Some(b)]), false)
  {
    var c1 := Cache([Some(a), Some(d), Some(c)], Tracked([], [Pair(1, b, d)], []), false);
    RemoveAtClassified(c1, 1);
    assert Edit(c1.data, RemoveAt(1)) == [Some(a), Some(c)];
    RemoveOfSolePair(1, b, d);
  }

  /** The first replacement of a store value opens a pair. */
  lemma FirstReplaceOpensPair<T>(i: nat, a: T, b: T)
    requires a != b
    ensures ReplaceOne(NoEdits<T>(), i, Some(a), Some(b)) == Tracked([], [Pair(i, a, b)], [])
  {
    assert FindPair(NoEdits<T>().updated, Some(a)) == -1;
  }

  /** Replacing the last value of the only pair retargets that pair. */
  lemma RetargetSolePair<T>(i: nat, a: T, b: T, x: T)
    requires b != x
    ensures ReplaceOne(Tracked([], [Pair(i, a, b)], []), i, Some(b), Some(x)) == Tracked([], [Pair(i, a, x)], [])
  {
    var t := Tracked([], [Pair(i, a, b)], []);
    assert FindPair(t.updated, Some(b)) == 0;
    assert t.updated[0 := t.updated[0].(lastValue := x)] == [Pair(i, a, x)];
  }

  /** Removing the last value of the only pair drops the pair and owes its
      store value. */
  lemma RemoveOfSolePair<T>(i: nat, b: T, d: T)
    ensures RemoveOne(Tracked([], [Pair(i, b, d)], []), Some(d)) == Tracked([], [], [Some(b)])
  {
    var t := Tracked([], [Pair(i, b, d)], []);
    assert FindPair(t.updated, Some(d)) == 0;
    assert t.updated[..0] + t.updated[1..] == [];
  }

  /** Third edit: E is appended and recorded as added. */
  lemma EndToEndInsert<T>(a: T, b: T, c: T, e: T)
    requires b != e
    ensures Perform(Cache([Some(a), Some(c)], Tracked([], [], [Some(b)]), false), InsertAt(2, Some(e)))
         == Cache([Some(a), Some(c), Some(e)], Tracked([Some(e)], [], [Some(b)]), false)
  {
    var c2 := Cache([Some(a), Some(c)], Tracked([], [], [Some(b)]), false);
    InsertAtClassified(c2, 2, Some(e));
    assert Some(e) !in c2.log.removed;
    assert Edit(c2.data, InsertAt(2, Some(e))) == [Some(a), Some(c), Some(e)];
  }

  /** The edits of the end-to-end scenario: baseline [A, B, C]; B becomes
      D; D is removed; E is appended. */
  lemma EndToEndEdits<T>(a: T, b: T, c: T, d: T, e: T)
    requires a != d && b != d && c != d && b != e
    ensures var s := Run(Fresh([Some(a), Some(b), Some(c)]), [ReplaceAt(1, Some(d)), RemoveAt(1), InsertAt(2, Some(e))]);
      s == Cache([Some(a), Some(c), Some(e)], Tracked([Some(e)], [], [Some(b)]), false)
  {
    var f := Fresh([Some(a), Some(b), Some(c)]);
    var c1 := Cache([Some(a), Some(d), Some(c)], Tracked([], [Pair(1, b, d)], []), false);
    var c2 := Cache([Some(a), Some(c)], Tracked([], [], [Some(b)]), false);
    var c3 := Cache([Some(a), Some(c), Some(e)], Tracked([Some(e)], [], [Some(b)]), false);
    EndToEndReplace(a, b, c, d);
    EndToEndRemove(a, b, c, d);
    EndToEndInsert(a, b, c, e);
    var cmds := [ReplaceAt(1, Some(d)), RemoveAt(1), InsertAt(2, Some(e))];
    assert Step(f, cmds[0]) == Ok(c1);
    assert Run(f, cmds) == Run(c1, cmds[1..]);
    assert Step(c1, cmds[1]) == Ok(c2);
    assert Run(c1, cmds[1..]) == Run(c2, cmds[2..]);
    assert Step(c2, cmds[2]) == Ok(c3);
    assert Run(c2, cmds[2..]) == Run(c3, []) == c3;
  }

  /** The rollback of the end-to-end scenario: E is taken out and the
      removed B comes back at the end, giving [A, C, B]. */
  lemma EndToEndCancel<T>(a: T, b: T, c: T, e: T)
    requires a != e && c != e
    ensures var s := Cache([Some(a), Some(c), Some(e)], Tracked([Some(e)], [], [Some(b)]), false);
      Cancel(s).data == [Some(a), Some(c), Some(b)] && Cancel(s).log == NoEdits()
  {
    var s0 := Cache([Some(a), Some(c), Some(e)], Tracked([Some(e)], [], [Some(b)]), false);
    var s := s0.(skip := true);
    assert RestorePairs(s, []) == s;
    assert Cancel(s0) == Settle(s, s0.log);
    var s3 := s.(log := s.log.(updated := []));
    EndToEndTakesAdded(a, b, c, e);
    var s4 := Cache([Some(a), Some(c)], s3.log, true);
    var s5 := s4.(log := s4.log.(added := []));
    assert AppendRemoved(s5, [Some(b)]).data == [Some(a), Some(c), Some(b)];
  }

  lemma EndToEndTakesAdded<T>(a: T, b: T, c: T, e: T)
    requires a != e && c != e
    ensures var s3 := Cache([Some(a), Some(c), Some(e)], Tracked([Some(e)], [], [Some(b)]), true);
      RemoveAdded(s3, [Some(e)]) == Cache([Some(a), Some(c)], s3.log, true)
  {
    var s3 := Cache([Some(a), Some(c), Some(e)], Tracked([Some(e)], [], [Some(b)]), true);
    assert IndexOf(s3.data, Some(e)) == 2;
    var s4 := Perform(s3, RemoveAt(2));
    assert s4.data == [Some(a), Some(c)];
    assert RemoveAdded(s3, [Some(e)]) == RemoveAdded(s4, []) == s4;
  }

  /** The whole scenario: the list ends as [A, C, B] with nothing tracked. */
  lemma EndToEnd<T>(a: T, b: T, c: T, d: T, e: T)
    requires a != d && b != d && c != d && a != e && b != e && c != e
    ensures var s := Run(Fresh([Some(a), Some(b), Some(c)]), [ReplaceAt(1, Some(d)), RemoveAt(1), InsertAt(2, Some(e))]);
      Cancel(s).data == [Some(a), Some(c), Some(b)] && Cancel(s).log == NoEdits()
  {
    EndToEndEdits(a, b, c, d, e);
    EndToEndCancel(a, b, c, e);
  }
}
