/** The change classification of BasicDAO's list listener: every structural
    change of the cached list is filed into the added items, the update
    pairs or the removed items. The functions here never see the list
    itself; they only see the change record the list reports. */
module Tracking {
  import opened Common

  /** BasicDAO.Pair: the slot the update was first seen at (advisory: later
      inserts and removes shift it), the value that came from the store and
      the value the slot holds now. The listener only ever builds or
      retargets a pair after its null check, so neither value is `null`. */
  datatype Pair<T> = Pair(idx: nat, initValue: T, lastValue: T)

  /** The three tracking lists of BasicDAO. */
  datatype Tracked<T> = Tracked(added: seq<Option<T>>, updated: seq<Pair<T>>, removed: seq<Option<T>>)

  function NoEdits<T>(): (t: Tracked<T>)
    ensures |t.added| == |t.updated| == |t.removed| == 0
  {
    Tracked([], [], [])
  }

  /** One sub-change of a JavaFX list change: the run of items that left the
      list at `from` and the run that took their place. */
  datatype Change<T> = Change(from: nat, removed: seq<Option<T>>, added: seq<Option<T>>) {
    predicate WasRemoved() { |removed| > 0 }
    predicate WasAdded() { |added| > 0 }
    predicate WasReplaced() { WasAdded() && WasRemoved() }
  }

  function LastValues<T>(ps: seq<Pair<T>>): (r: seq<Option<T>>)
    ensures |r| == |ps|
    ensures forall i :: 0 <= i < |ps| ==> r[i] == Some(ps[i].lastValue)
  {
    seq(|ps|, i requires 0 <= i < |ps| => Some(ps[i].lastValue))
  }

  function InitValues<T>(ps: seq<Pair<T>>): (r: seq<Option<T>>)
    ensures |r| == |ps|
    ensures forall i :: 0 <= i < |ps| ==> r[i] == Some(ps[i].initValue)
  {
    seq(|ps|, i requires 0 <= i < |ps| => Some(ps[i].initValue))
  }

  /** The position of the first pair whose `lastValue` equals `v`, or -1. */
  function FindPair<T(==)>(ps: seq<Pair<T>>, v: Option<T>): (k: int)
    ensures -1 <= k < |ps|
    ensures k == -1 <==> forall j :: 0 <= j < |ps| ==> Some(ps[j].lastValue) != v
    ensures 0 <= k ==> Some(ps[k].lastValue) == v
    ensures 0 <= k ==> forall j :: 0 <= j < k ==> Some(ps[j].lastValue) != v
  {
    var k := IndexOf(LastValues(ps), v);
    assert 0 <= k ==> forall j :: 0 <= j < k ==> LastValues(ps)[..k][j] == LastValues(ps)[j];
    k
  }

  /** Values the list holds only because of tracked edits: what a rollback
      must take out of the list again. */
  ghost function Pending<T>(t: Tracked<T>): multiset<Option<T>> {
    multiset(t.added) + multiset(LastValues(t.updated))
  }

  /** Store values the list no longer holds: what a rollback must put back. */
  ghost function Owed<T>(t: Tracked<T>): multiset<Option<T>> {
    multiset(InitValues(t.updated)) + multiset(t.removed)
  }

  /** `after` accounts for a change that took `gone` out of the list and put
      `came` in, starting from the account `before`. */
  ghost predicate Accounts<T>(before: Tracked<T>, after: Tracked<T>, gone: multiset<Option<T>>, came: multiset<Option<T>>) {
    Pending(after) + Owed(before) + gone == Pending(before) + Owed(after) + came
  }

  lemma MultisetWithout<X>(s: seq<X>, k: nat)
    requires k < |s|
    ensures multiset(s[..k] + s[k + 1..]) == multiset(s) - multiset{s[k]}
  {
    assert s == s[..k] + [s[k]] + s[k + 1..];
  }

  /** The replace branch for one position of a replaced run (BasicDAO.java
      lines 148-170): `prev` left slot `at`, `next` took its place. */
  function ReplaceOne<T(==)>(t: Tracked<T>, at: nat, prev: Option<T>, next: Option<T>): (r: Tracked<T>)
    ensures prev.None? || next.None? || prev == next ==> r == t
    ensures prev.Some? && next.Some? && prev != next && prev in t.added ==>
      && r.updated == t.updated && r.removed == t.removed
      && |r.added| == |t.added|
      && r.added[IndexOf(t.added, prev)] == next
      && forall j :: 0 <= j < |t.added| && j != IndexOf(t.added, prev) ==> r.added[j] == t.added[j]
    ensures prev.Some? && next.Some? && prev != next && prev !in t.added ==>
      && r.added == t.added && r.removed == t.removed
      && |t.updated| <= |r.updated| && InitValues(r.updated)[..|t.updated|] == InitValues(t.updated)
      && (FindPair(t.updated, prev) == -1 <==> r.updated == t.updated + [Pair(at, prev.value, next.value)])
    ensures prev.Some? && next.Some? && prev != next && prev !in t.added && 0 <= FindPair(t.updated, prev) ==>
      var k := FindPair(t.updated, prev);
      && |r.updated| == |t.updated|
      && r.updated[k] == Pair(t.updated[k].idx, t.updated[k].initValue, next.value)
      && forall j :: 0 <= j < |t.updated| && j != k ==> r.updated[j] == t.updated[j]
  {
    if prev.None? || next.None? || prev == next then t
    else if prev in t.added then
      var k := IndexOf(t.added, prev);
      t.(added := t.added[k := next])
    else
      var k := FindPair(t.updated, prev);
      if 0 <= k then
        var ps := t.updated[k := t.updated[k].(lastValue := next.value)];
        assert LastValues(ps) == LastValues(t.updated)[k := next];
        assert InitValues(ps) == InitValues(t.updated);
        t.(updated := ps)
      else
        var ps := t.updated + [Pair(at, prev.value, next.value)];
        assert LastValues(ps) == LastValues(t.updated) + [next];
        assert InitValues(ps) == InitValues(t.updated) + [prev];
        t.(updated := ps)
  }

  /** The remove branch for one removed item (BasicDAO.java lines 175-195). */
  function RemoveOne<T(==)>(t: Tracked<T>, v: Option<T>): (r: Tracked<T>)
    ensures v in t.added ==>
      && r.updated == t.updated && r.removed == t.removed
      && multiset(r.added) == multiset(t.added) - multiset{v} && |r.added| == |t.added| - 1
    ensures v !in t.added && 0 <= FindPair(t.updated, v) ==>
      var k := FindPair(t.updated, v);
      && r.added == t.added
      && r.updated == t.updated[..k] + t.updated[k + 1..]
      && r.removed == t.removed + [Some(t.updated[k].initValue)]
    ensures v !in t.added && FindPair(t.updated, v) == -1 ==>
      r == Tracked(t.added, t.updated, t.removed + [v])
  {
    if v !in t.added then
      var k := FindPair(t.updated, v);
      if 0 <= k then
        var ps := t.updated[..k] + t.updated[k + 1..];
        assert LastValues(ps) == LastValues(t.updated)[..k] + LastValues(t.updated)[k + 1..];
        assert InitValues(ps) == InitValues(t.updated)[..k] + InitValues(t.updated)[k + 1..];
        MultisetWithout(LastValues(t.updated), k);
        MultisetWithout(InitValues(t.updated), k);
        t.(updated := ps, removed := t.removed + [Some(t.updated[k].initValue)])
      else
        t.(removed := t.removed + [v])
    else
      t.(added := RemoveFirst(t.added, v))
  }

  /** The add branch for one inserted item (BasicDAO.java lines 197-202). */
  function InsertOne<T(==)>(t: Tracked<T>, v: Option<T>): (r: Tracked<T>)
    ensures v in t.removed ==>
      && r.added == t.added && r.updated == t.updated
      && multiset(r.removed) == multiset(t.removed) - multiset{v} && |r.removed| == |t.removed| - 1
    ensures v !in t.removed ==> r == Tracked(t.added + [v], t.updated, t.removed)
  {
    if v in t.removed then t.(removed := RemoveFirst(t.removed, v))
    else t.(added := t.added + [v])
  }

  /** The `forEach` over the removed run. Every removed item is filed once:
      it either cancels a pending addition or is owed, so the removed items
      only grow, at the tail, and nothing is ever added. */
  function RemoveRun<T(==)>(t: Tracked<T>, vs: seq<Option<T>>): (r: Tracked<T>)
    ensures multiset(r.added) <= multiset(t.added) && |r.added| <= |t.added|
    ensures |r.updated| <= |t.updated|
    ensures |t.removed| <= |r.removed| && r.removed[..|t.removed|] == t.removed
    ensures (|t.added| - |r.added|) + (|r.removed| - |t.removed|) == |vs|
    decreases |vs|
  {
    if |vs| == 0 then t
    else
      var t1 := RemoveOne(t, vs[0]);
      RemoveOneFiles(t, vs[0]);
      var r := RemoveRun(t1, vs[1..]);
      assert r.removed[..|t.removed|] == r.removed[..|t1.removed|][..|t.removed|];
      r
  }

  /** One removed item is filed once, as a cancelled addition or a debt. */
  lemma RemoveOneFiles<T>(t: Tracked<T>, v: Option<T>)
    ensures var r := RemoveOne(t, v);
      && multiset(r.added) <= multiset(t.added) && |r.added| <= |t.added|
      && |r.updated| <= |t.updated|
      && |t.removed| <= |r.removed| && r.removed[..|t.removed|] == t.removed
      && (|t.added| - |r.added|) + (|r.removed| - |t.removed|) == 1
  {
    var r := RemoveOne(t, v);
    if v in t.added {
      assert r.removed == t.removed;
    } else {
      var k := FindPair(t.updated, v);
      var owed := if 0 <= k then Some(t.updated[k].initValue) else v;
      assert r.added == t.added && r.removed == t.removed + [owed];
      assert |r.updated| <= |t.updated|;
      assert (t.removed + [owed])[..|t.removed|] == t.removed;
    }
  }

  /** The `forEach` over the added run. Every inserted item is filed once:
      it either settles an owed removal or becomes a pending addition, at the
      tail; the update pairs are never touched. */
  function InsertRun<T(==)>(t: Tracked<T>, vs: seq<Option<T>>): (r: Tracked<T>)
    ensures r.updated == t.updated
    ensures multiset(r.removed) <= multiset(t.removed) && |r.removed| <= |t.removed|
    ensures |t.added| <= |r.added| && r.added[..|t.added|] == t.added
    ensures (|r.added| - |t.added|) + (|t.removed| - |r.removed|) == |vs|
    decreases |vs|
  {
    if |vs| == 0 then t
    else
      var t1 := InsertOne(t, vs[0]);
      InsertOneFiles(t, vs[0]);
      var r := InsertRun(t1, vs[1..]);
      assert r.added[..|t.added|] == r.added[..|t1.added|][..|t.added|];
      r
  }

  /** One inserted item is filed once, as a settled debt or an addition. */
  lemma InsertOneFiles<T>(t: Tracked<T>, v: Option<T>)
    ensures var r := InsertOne(t, v);
      && r.updated == t.updated
      && multiset(r.removed) <= multiset(t.removed) && |r.removed| <= |t.removed|
      && |t.added| <= |r.added| && r.added[..|t.added|] == t.added
      && (|r.added| - |t.added|) + (|t.removed| - |r.removed|) == 1
  {
    if v !in t.removed {
      assert (t.added + [v])[..|t.added|] == t.added;
    }
  }

  predicate NonNull<T>(s: seq<Option<T>>) {
    forall i :: 0 <= i < |s| ==> s[i].Some?
  }

  /** Positions of a replaced run paired by index, each through the
      single-replace rule. */
  function PairwiseReplace<T(==)>(t: Tracked<T>, from: nat, olds: seq<Option<T>>, news: seq<Option<T>>): (r: Tracked<T>)
    requires |olds| == |news|
    ensures r.removed == t.removed && |r.added| == |t.added|
    ensures |r.updated| <= |t.updated| + |olds|
    decreases |olds|
  {
    if |olds| == 0 then t
    else
      PairwiseReplace(ReplaceOne(t, from, olds[0], news[0]), from + 1, olds[1..], news[1..])
  }

  /** The replaced-run loop as written (BasicDAO.java lines 143-172): it runs
      to the longer of the two runs but reads both, so on runs of unequal
      length it throws once the shorter one is exhausted. */
  function ReplaceRunAsWritten<T(==)>(t: Tracked<T>, from: nat, olds: seq<Option<T>>, news: seq<Option<T>>, i: nat): (r: Outcome<Tracked<T>>)
    ensures r.fault.Some? <==> |olds| != |news| && (i < |olds| || i < |news|)
    ensures r.fault.Some? ==> r.fault == Some(IndexOutOfBounds)
    ensures r.state.removed == t.removed && |r.state.added| == |t.added|
    decreases (if |olds| > |news| then |olds| else |news|) - i
  {
    var size := if |olds| > |news| then |olds| else |news|;
    if size <= i then Outcome(t, None)
    else if |olds| <= i || |news| <= i then Outcome(t, Some(IndexOutOfBounds))
    else ReplaceRunAsWritten(ReplaceOne(t, from + i, olds[i], news[i]), from, olds, news, i + 1)
  }

  /** The replaced-run rule as evidently intended: positions paired up to the
      shorter run, the surplus of the old run filed as removals and the
      surplus of the new run as insertions. */
  function ReplaceRun<T(==)>(t: Tracked<T>, from: nat, olds: seq<Option<T>>, news: seq<Option<T>>): (r: Tracked<T>)
    ensures |r.added| + |olds| + |t.removed| == |t.added| + |news| + |r.removed|
    ensures |r.added| <= |t.added| + |news| && |r.removed| <= |t.removed| + |olds|
  {
    var n := if |olds| < |news| then |olds| else |news|;
    InsertRun(RemoveRun(PairwiseReplace(t, from, olds[..n], news[..n]), olds[n..]), news[n..])
  }

  /** The listener as written (BasicDAO.java lines 139-205), for one
      sub-change. */
  function ListenAsWritten<T(==)>(t: Tracked<T>, c: Change<T>): (r: Outcome<Tracked<T>>)
    ensures r.fault.Some? <==> c.WasReplaced() && |c.removed| != |c.added|
    ensures r.fault.Some? ==> r.fault == Some(IndexOutOfBounds)
    ensures c.WasReplaced() ==> r.state.removed == t.removed
  {
    if c.WasReplaced() then ReplaceRunAsWritten(t, c.from, c.removed, c.added, 0)
    else if c.WasRemoved() then Outcome(RemoveRun(t, c.removed), None)
    else if c.WasAdded() then Outcome(InsertRun(t, c.added), None)
    else Outcome(t, None)
  }

  /** The listener with the replaced-run rule corrected; it never throws and
      accounts for every item of every non-null change. */
  function Listen<T(==)>(t: Tracked<T>, c: Change<T>): (r: Tracked<T>)
    ensures |r.added| + |c.removed| + |t.removed| == |t.added| + |c.added| + |r.removed|
    ensures |r.added| <= |t.added| + |c.added| && |r.removed| <= |t.removed| + |c.removed|
    ensures |r.updated| <= |t.updated| + |c.added|
  {
    if c.WasReplaced() then ReplaceRun(t, c.from, c.removed, c.added)
    else if c.WasRemoved() then RemoveRun(t, c.removed)
    else if c.WasAdded() then InsertRun(t, c.added)
    else t
  }

  /** Accounts compose: two consecutive changes are accounted for by the
      sum of what each took out and put in. */
  lemma AccountsChain<T>(a: Tracked<T>, b: Tracked<T>, c: Tracked<T>, g1: multiset<Option<T>>, c1: multiset<Option<T>>, g2: multiset<Option<T>>, c2: multiset<Option<T>>)
    requires Accounts(a, b, g1, c1) && Accounts(b, c, g2, c2)
    ensures Accounts(a, c, g1 + g2, c1 + c2)
  {
    var l := Pending(c) + Owed(a) + (g1 + g2);
    var r := Pending(a) + Owed(c) + (c1 + c2);
    forall x
      ensures l[x] == r[x]
    {
      assert (Pending(b) + Owed(a) + g1)[x] == (Pending(a) + Owed(b) + c1)[x];
      assert (Pending(c) + Owed(b) + g2)[x] == (Pending(b) + Owed(c) + c2)[x];
    }
    assert l == r;
  }

  /** The four multisets of an account, compared point by point. */
  lemma AccountsPointwise<T>(t: Tracked<T>, r: Tracked<T>, gone: multiset<Option<T>>, came: multiset<Option<T>>)
    requires forall x :: Pending(r)[x] + Owed(t)[x] + gone[x] == Pending(t)[x] + Owed(r)[x] + came[x]
    ensures Accounts(t, r, gone, came)
  {
    assert Pending(r) + Owed(t) + gone == Pending(t) + Owed(r) + came;
  }

  lemma ReplaceInAddedAccounts<T>(t: Tracked<T>, k: nat, next: Option<T>)
    requires k < |t.added|
    ensures Accounts(t, t.(added := t.added[k := next]), multiset{t.added[k]}, multiset{next})
  {
    var r := t.(added := t.added[k := next]);
    assert multiset(r.added) == multiset(t.added) - multiset{t.added[k]} + multiset{next};
    AccountsPointwise(t, r, multiset{t.added[k]}, multiset{next});
  }

  lemma RetargetAccounts<T>(t: Tracked<T>, k: nat, next: T)
    requires k < |t.updated|
    ensures Accounts(t, t.(updated := t.updated[k := t.updated[k].(lastValue := next)]),
                     multiset{Some(t.updated[k].lastValue)}, multiset{Some(next)})
  {
    var r := t.(updated := t.updated[k := t.updated[k].(lastValue := next)]);
    assert LastValues(r.updated) == LastValues(t.updated)[k := Some(next)];
    assert InitValues(r.updated) == InitValues(t.updated);
    assert multiset(LastValues(r.updated)) == multiset(LastValues(t.updated)) - multiset{Some(t.updated[k].lastValue)} + multiset{Some(next)};
    AccountsPointwise(t, r, multiset{Some(t.updated[k].lastValue)}, multiset{Some(next)});
  }

  lemma NewPairAccounts<T>(t: Tracked<T>, p: Pair<T>)
    ensures Accounts(t, t.(updated := t.updated + [p]), multiset{Some(p.initValue)}, multiset{Some(p.lastValue)})
  {
    var r := t.(updated := t.updated + [p]);
    assert LastValues(r.updated) == LastValues(t.updated) + [Some(p.lastValue)];
    assert InitValues(r.updated) == InitValues(t.updated) + [Some(p.initValue)];
    AccountsPointwise(t, r, multiset{Some(p.initValue)}, multiset{Some(p.lastValue)});
  }

  lemma ReplaceOneAccounts<T>(t: Tracked<T>, at: nat, prev: Option<T>, next: Option<T>)
    requires prev.Some? && next.Some?
    ensures Accounts(t, ReplaceOne(t, at, prev, next), multiset{prev}, multiset{next})
  {
    if prev == next {
      AccountsPointwise(t, t, multiset{prev}, multiset{next});
    } else if prev in t.added {
      ReplaceInAddedAccounts(t, IndexOf(t.added, prev), next);
    } else {
      var k := FindPair(t.updated, prev);
      if 0 <= k {
        RetargetAccounts(t, k, next.value);
      } else {
        NewPairAccounts(t, Pair(at, prev.value, next.value));
      }
    }
  }

  lemma DropPairAccounts<T>(t: Tracked<T>, k: nat)
    requires k < |t.updated|
    ensures Accounts(t, t.(updated := t.updated[..k] + t.updated[k + 1..], removed := t.removed + [Some(t.updated[k].initValue)]),
                     multiset{Some(t.updated[k].lastValue)}, multiset{})
  {
    var r := t.(updated := t.updated[..k] + t.updated[k + 1..], removed := t.removed + [Some(t.updated[k].initValue)]);
    assert LastValues(r.updated) == LastValues(t.updated)[..k] + LastValues(t.updated)[k + 1..];
    assert InitValues(r.updated) == InitValues(t.updated)[..k] + InitValues(t.updated)[k + 1..];
    MultisetWithout(LastValues(t.updated), k);
    MultisetWithout(InitValues(t.updated), k);
    AccountsPointwise(t, r, multiset{Some(t.updated[k].lastValue)}, multiset{});
  }

  lemma DropAddedAccounts<T>(t: Tracked<T>, v: Option<T>)
    requires v in t.added
    ensures Accounts(t, t.(added := RemoveFirst(t.added, v)), multiset{v}, multiset{})
  {
    var r := t.(added := RemoveFirst(t.added, v));
    assert multiset(r.added) == multiset(t.added) - multiset{v};
    AccountsPointwise(t, r, multiset{v}, multiset{});
  }

  lemma RecordRemovalAccounts<T>(t: Tracked<T>, v: Option<T>)
    ensures Accounts(t, t.(removed := t.removed + [v]), multiset{v}, multiset{})
  {
    var r := t.(removed := t.removed + [v]);
    assert multiset(r.removed) == multiset(t.removed) + multiset{v};
    AccountsPointwise(t, r, multiset{v}, multiset{});
  }

  lemma RemoveOneAccounts<T>(t: Tracked<T>, v: Option<T>)
    ensures Accounts(t, RemoveOne(t, v), multiset{v}, multiset{})
  {
    if v !in t.added {
      var k := FindPair(t.updated, v);
      if 0 <= k {
        assert RemoveOne(t, v) == t.(updated := t.updated[..k] + t.updated[k + 1..], removed := t.removed + [Some(t.updated[k].initValue)]);
        DropPairAccounts(t, k);
      } else {
        assert RemoveOne(t, v) == t.(removed := t.removed + [v]);
        RecordRemovalAccounts(t, v);
      }
    } else {
      assert RemoveOne(t, v) == t.(added := RemoveFirst(t.added, v));
      DropAddedAccounts(t, v);
    }
  }

  lemma InsertOneAccounts<T>(t: Tracked<T>, v: Option<T>)
    ensures Accounts(t, InsertOne(t, v), multiset{}, multiset{v})
  {
  }

  /** A non-empty sequence is its head plus its tail. */
  lemma HeadSplit<X>(s: seq<X>)
    requires |s| > 0
    ensures multiset(s) == multiset{s[0]} + multiset(s[1..])
  {
    assert s == [s[0]] + s[1..];
  }

  /** `AccountsChain` with the sums named by the caller. */
  lemma AccountsChainSum<T>(a: Tracked<T>, b: Tracked<T>, c: Tracked<T>, g1: multiset<Option<T>>, c1: multiset<Option<T>>, g2: multiset<Option<T>>, c2: multiset<Option<T>>, gone: multiset<Option<T>>, came: multiset<Option<T>>)
    requires Accounts(a, b, g1, c1) && Accounts(b, c, g2, c2)
    requires gone == g1 + g2 && came == c1 + c2
    ensures Accounts(a, c, gone, came)
  {
    AccountsChain(a, b, c, g1, c1, g2, c2);
  }

  lemma {:induction false} RemoveRunAccounts<T>(t: Tracked<T>, vs: seq<Option<T>>)
    ensures Accounts(t, RemoveRun(t, vs), multiset(vs), multiset{})
    decreases |vs|
  {
    if |vs| > 0 {
      var t1 := RemoveOne(t, vs[0]);
      var t2 := RemoveRun(t1, vs[1..]);
      assert RemoveRun(t, vs) == t2;
      RemoveOneAccounts(t, vs[0]);
      RemoveRunAccounts(t1, vs[1..]);
      HeadSplit(vs);
      var none: multiset<Option<T>> := multiset{};
      assert none + none == none;
      AccountsChainSum(t, t1, t2, multiset{vs[0]}, none, multiset(vs[1..]), none, multiset(vs), none);
    } else {
      AccountsPointwise(t, t, multiset{}, multiset{});
    }
  }

  lemma {:induction false} InsertRunAccounts<T>(t: Tracked<T>, vs: seq<Option<T>>)
    ensures Accounts(t, InsertRun(t, vs), multiset{}, multiset(vs))
    decreases |vs|
  {
    if |vs| > 0 {
      var t1 := InsertOne(t, vs[0]);
      var t2 := InsertRun(t1, vs[1..]);
      assert InsertRun(t, vs) == t2;
      InsertOneAccounts(t, vs[0]);
      InsertRunAccounts(t1, vs[1..]);
      HeadSplit(vs);
      var none: multiset<Option<T>> := multiset{};
      assert none + none == none;
      AccountsChainSum(t, t1, t2, none, multiset{vs[0]}, none, multiset(vs[1..]), none, multiset(vs));
    } else {
      AccountsPointwise(t, t, multiset{}, multiset{});
    }
  }

  lemma {:induction false} PairwiseReplaceAccounts<T>(t: Tracked<T>, from: nat, olds: seq<Option<T>>, news: seq<Option<T>>)
    requires |olds| == |news| && NonNull(olds) && NonNull(news)
    ensures Accounts(t, PairwiseReplace(t, from, olds, news), multiset(olds), multiset(news))
    decreases |olds|
  {
    if |olds| > 0 {
      var t1 := ReplaceOne(t, from, olds[0], news[0]);
      var t2 := PairwiseReplace(t1, from + 1, olds[1..], news[1..]);
      assert PairwiseReplace(t, from, olds, news) == t2;
      assert NonNull(olds[1..]) && NonNull(news[1..]) by {
        assert forall i :: 0 <= i < |olds[1..]| ==> olds[1..][i] == olds[i + 1];
        assert forall i :: 0 <= i < |news[1..]| ==> news[1..][i] == news[i + 1];
      }
      ReplaceOneAccounts(t, from, olds[0], news[0]);
      PairwiseReplaceAccounts(t1, from + 1, olds[1..], news[1..]);
      HeadSplit(olds);
      HeadSplit(news);
      AccountsChainSum(t, t1, t2, multiset{olds[0]}, multiset{news[0]}, multiset(olds[1..]), multiset(news[1..]), multiset(olds), multiset(news));
    } else {
      AccountsPointwise(t, t, multiset{}, multiset{});
    }
  }

  /** A run of one item is that item's single rule. */
  lemma RemoveRunSingle<T>(t: Tracked<T>, v: Option<T>)
    ensures RemoveRun(t, [v]) == RemoveOne(t, v)
  {
    assert [v][1..] == [];
  }

  lemma InsertRunSingle<T>(t: Tracked<T>, v: Option<T>)
    ensures InsertRun(t, [v]) == InsertOne(t, v)
  {
    assert [v][1..] == [];
  }

  lemma ReplaceRunSingle<T>(t: Tracked<T>, at: nat, prev: Option<T>, next: Option<T>)
    ensures ReplaceRun(t, at, [prev], [next]) == ReplaceOne(t, at, prev, next)
  {
    var t1 := ReplaceOne(t, at, prev, next);
    assert [prev][..1] == [prev] && [next][..1] == [next] && [prev][1..] == [] && [next][1..] == [];
    assert PairwiseReplace(t, at, [prev], [next]) == PairwiseReplace(t1, at + 1, [], []) == t1;
    assert ReplaceRun(t, at, [prev], [next]) == InsertRun(RemoveRun(t1, []), []) == t1;
  }

  /** A run cut in two: both parts stay non-null and share out its items. */
  lemma SplitRun<T>(s: seq<Option<T>>, n: nat)
    requires NonNull(s) && n <= |s|
    ensures NonNull(s[..n]) && NonNull(s[n..])
    ensures multiset(s) == multiset(s[..n]) + multiset(s[n..])
  {
    assert s == s[..n] + s[n..];
  }

  lemma ReplaceRunAccounts<T>(t: Tracked<T>, from: nat, olds: seq<Option<T>>, news: seq<Option<T>>)
    requires NonNull(olds) && NonNull(news)
    ensures Accounts(t, ReplaceRun(t, from, olds, news), multiset(olds), multiset(news))
  {
    var n := if |olds| < |news| then |olds| else |news|;
    var o1, o2, n1, n2 := olds[..n], olds[n..], news[..n], news[n..];
    SplitRun(olds, n);
    SplitRun(news, n);
    var t1 := PairwiseReplace(t, from, o1, n1);
    var t2 := RemoveRun(t1, o2);
    var t3 := InsertRun(t2, n2);
    assert ReplaceRun(t, from, olds, news) == t3;
    PairwiseReplaceAccounts(t, from, o1, n1);
    RemoveRunAccounts(t1, o2);
    InsertRunAccounts(t2, n2);
    AccountsChain(t, t1, t2, multiset(o1), multiset(n1), multiset(o2), multiset{});
    AccountsChain(t, t2, t3, multiset(o1) + multiset(o2), multiset(n1) + multiset{}, multiset{}, multiset(n2));
    assert multiset(o1) + multiset(o2) + multiset{} == multiset(olds);
    assert multiset(n1) + multiset{} + multiset(n2) == multiset(news);
  }

  /** The corrected listener accounts for every item of every change whose
      items are all non-null: whatever left the list is either cancelled
      against a pending edit or owed back, and whatever entered it is either
      pending or settles something owed. */
  lemma ListenAccounts<T>(t: Tracked<T>, c: Change<T>)
    requires NonNull(c.removed) && NonNull(c.added)
    ensures Accounts(t, Listen(t, c), multiset(c.removed), multiset(c.added))
  {
    if c.WasReplaced() {
      ReplaceRunAccounts(t, c.from, c.removed, c.added);
    } else if c.WasRemoved() {
      RemoveRunAccounts(t, c.removed);
      assert c.added == [];
    } else if c.WasAdded() {
      InsertRunAccounts(t, c.added);
      assert c.removed == [];
    } else {
      assert c.added == [] && c.removed == [];
      AccountsPointwise(t, t, multiset{}, multiset{});
    }
  }

  lemma PendingReplaceInAdded<T>(t: Tracked<T>, k: nat, next: Option<T>)
    requires k < |t.added|
    ensures t.added[k] in Pending(t)
    ensures Pending(t.(added := t.added[k := next])) == Pending(t) - multiset{t.added[k]} + multiset{next}
  {
    assert multiset(t.added[k := next]) == multiset(t.added) - multiset{t.added[k]} + multiset{next};
  }

  lemma PendingRetarget<T>(t: Tracked<T>, k: nat, next: T)
    requires k < |t.updated|
    ensures Some(t.updated[k].lastValue) in Pending(t)
    ensures Pending(t.(updated := t.updated[k := t.updated[k].(lastValue := next)]))
         == Pending(t) - multiset{Some(t.updated[k].lastValue)} + multiset{Some(next)}
  {
    var ps := t.updated[k := t.updated[k].(lastValue := next)];
    assert LastValues(ps) == LastValues(t.updated)[k := Some(next)];
    assert LastValues(t.updated)[k] == Some(t.updated[k].lastValue);
    assert multiset(LastValues(ps)) == multiset(LastValues(t.updated)) - multiset{Some(t.updated[k].lastValue)} + multiset{Some(next)};
  }

  lemma PendingNewPair<T>(t: Tracked<T>, p: Pair<T>)
    ensures Pending(t.(updated := t.updated + [p])) == Pending(t) + multiset{Some(p.lastValue)}
  {
    assert LastValues(t.updated + [p]) == LastValues(t.updated) + [Some(p.lastValue)];
  }

  lemma NotPending<T>(t: Tracked<T>, v: Option<T>)
    requires v !in t.added && FindPair(t.updated, v) == -1
    ensures v !in Pending(t)
  {
    assert v !in LastValues(t.updated);
  }

  /** How one replacement moves the pending values: a pending `prev` is
      swapped for `next`; a `prev` that was not pending (a store value)
      leaves the pending values as they were, plus `next`. */
  lemma ReplaceOnePending<T>(t: Tracked<T>, at: nat, prev: Option<T>, next: Option<T>)
    requires prev.Some? && next.Some? && prev != next
    ensures var p := Pending(ReplaceOne(t, at, prev, next));
      || (prev in Pending(t) && p == Pending(t) - multiset{prev} + multiset{next})
      || (prev !in Pending(t) && p == Pending(t) + multiset{next})
  {
    if prev in t.added {
      PendingReplaceInAdded(t, IndexOf(t.added, prev), next);
    } else {
      var k := FindPair(t.updated, prev);
      if 0 <= k {
        PendingRetarget(t, k, next.value);
      } else {
        PendingNewPair(t, Pair(at, prev.value, next.value));
        NotPending(t, prev);
      }
    }
  }

  lemma PendingDropAdded<T>(t: Tracked<T>, v: Option<T>)
    requires v in t.added
    ensures v in Pending(t)
    ensures Pending(t.(added := RemoveFirst(t.added, v))) == Pending(t) - multiset{v}
  {
  }

  lemma PendingDropPair<T>(t: Tracked<T>, k: nat, removed: seq<Option<T>>)
    requires k < |t.updated|
    ensures Some(t.updated[k].lastValue) in Pending(t)
    ensures Pending(t.(updated := t.updated[..k] + t.updated[k + 1..], removed := removed))
         == Pending(t) - multiset{Some(t.updated[k].lastValue)}
  {
    var ps := t.updated[..k] + t.updated[k + 1..];
    assert LastValues(ps) == LastValues(t.updated)[..k] + LastValues(t.updated)[k + 1..];
    MultisetWithout(LastValues(t.updated), k);
    assert LastValues(t.updated)[k] == Some(t.updated[k].lastValue);
  }

  /** How one removal moves the pending values: a pending item stops being
      pending; any other item leaves them as they were. */
  lemma RemoveOnePending<T>(t: Tracked<T>, v: Option<T>)
    ensures var p := Pending(RemoveOne(t, v));
      || (v in Pending(t) && p == Pending(t) - multiset{v})
      || (v !in Pending(t) && p == Pending(t))
  {
    if v !in t.added {
      var k := FindPair(t.updated, v);
      if 0 <= k {
        var rem := t.removed + [Some(t.updated[k].initValue)];
        assert RemoveOne(t, v) == t.(updated := t.updated[..k] + t.updated[k + 1..], removed := rem);
        PendingDropPair(t, k, rem);
      } else {
        assert Pending(RemoveOne(t, v)) == Pending(t);
        NotPending(t, v);
      }
    } else {
      assert RemoveOne(t, v) == t.(added := RemoveFirst(t.added, v));
      PendingDropAdded(t, v);
    }
  }

  /** One insertion adds at most the inserted item to the pending values. */
  lemma InsertOnePending<T>(t: Tracked<T>, v: Option<T>)
    ensures var p := Pending(InsertOne(t, v));
      p == Pending(t) || p == Pending(t) + multiset{v}
  {
  }

  lemma {:induction false} ReplaceRunAsWrittenPairwise<T>(t: Tracked<T>, from: nat, olds: seq<Option<T>>, news: seq<Option<T>>, i: nat)
    requires |olds| == |news| && i <= |olds|
    ensures ReplaceRunAsWritten(t, from, olds, news, i) == Outcome(PairwiseReplace(t, from + i, olds[i..], news[i..]), None)
    decreases |olds| - i
  {
    if i < |olds| {
      ReplaceRunAsWrittenPairwise(ReplaceOne(t, from + i, olds[i], news[i]), from, olds, news, i + 1);
      assert olds[i..][1..] == olds[i + 1..];
      assert news[i..][1..] == news[i + 1..];
    }
  }

  /** On a replaced run whose two halves have equal length (every change a
      single `set` produces) the listener as written and the corrected one
      agree, and neither throws. */
  lemma ListenAgreesOnEqualRuns<T>(t: Tracked<T>, c: Change<T>)
    requires |c.removed| == |c.added|
    ensures ListenAsWritten(t, c) == Outcome(Listen(t, c), None)
  {
    if c.WasReplaced() {
      ReplaceRunAsWrittenPairwise(t, c.from, c.removed, c.added, 0);
      assert c.removed[..|c.removed|] == c.removed;
      assert c.added[..|c.added|] == c.added;
      assert c.removed[|c.removed|..] == [] && c.added[|c.added|..] == [];
    }
  }

  /** A run of two stored items replaced by one: the listener as written
      throws after the first position and never records that `b` left the
      list, so the account no longer balances. */
  lemma UnequalRunLosesRemoval<T>(a: T, b: T, c: T)
    requires a != c && b != c && a != b
    ensures var h := ListenAsWritten(NoEdits<T>(), Change(0, [Some(a), Some(b)], [Some(c)]));
      && h.fault == Some(IndexOutOfBounds)
      && h.state == Tracked([], [Pair(0, a, c)], [])
      && !Accounts(NoEdits<T>(), h.state, multiset{Some(a), Some(b)}, multiset{Some(c)})
  {
    var t1 := ReplaceOne(NoEdits<T>(), 0, Some(a), Some(c));
    assert t1 == Tracked([], [Pair(0, a, c)], []);
    assert ReplaceRunAsWritten(t1, 0, [Some(a), Some(b)], [Some(c)], 1) == Outcome(t1, Some(IndexOutOfBounds));
    var h := ListenAsWritten(NoEdits<T>(), Change(0, [Some(a), Some(b)], [Some(c)]));
    assert h == Outcome(t1, Some(IndexOutOfBounds));
    assert LastValues(t1.updated) == [Some(c)];
    assert InitValues(t1.updated) == [Some(a)];
    assert (Pending(t1) + Owed(NoEdits<T>()) + multiset{Some(a), Some(b)})[Some(b)] == 1;
    assert (Pending(NoEdits<T>()) + Owed(t1) + multiset{Some(c)})[Some(b)] == 0;
    assert Owed(h.state)[Some(b)] == 0;
  }
}
