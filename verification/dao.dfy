/** BasicDAO's cached list and its three tracking lists, driven by explicit
    commands instead of a list listener: every command edits the list and
    then, unless classification is suspended, files the change it made. */
module BasicDao {
  import opened Common
  import opened Tracking

  /** The cached list `data`, the tracking lists, and the `skip` flag that
      suspends classification while a rollback rewrites the list. */
  datatype Cache<T> = Cache(data: seq<Option<T>>, log: Tracked<T>, skip: bool)

  /** The three structural edits of an ObservableList: `set`, `remove(int)`
      and `add(int, E)`. */
  datatype Command<T> = ReplaceAt(i: int, v: Option<T>) | RemoveAt(i: int) | InsertAt(i: int, v: Option<T>)

  /** A freshly loaded cache: the rows as baseline, nothing tracked. */
  function Fresh<T>(base: seq<Option<T>>): (c: Cache<T>)
    ensures c.data == base && !c.skip
    ensures |c.log.added| == |c.log.updated| == |c.log.removed| == 0
  {
    Cache(base, NoEdits(), false)
  }

  /** The index is one the list accepts; otherwise it throws
      IndexOutOfBoundsException before changing anything. */
  predicate InRange<T>(data: seq<Option<T>>, cmd: Command<T>) {
    match cmd
    case ReplaceAt(i, _) => 0 <= i < |data|
    case RemoveAt(i) => 0 <= i < |data|
    case InsertAt(i, _) => 0 <= i <= |data|
  }

  /** The change record the list reports for a command. */
  function ChangeOf<T>(data: seq<Option<T>>, cmd: Command<T>): (ch: Change<T>)
    requires InRange(data, cmd)
    ensures ch.from == cmd.i
    ensures cmd.ReplaceAt? ==> ch.removed == [data[cmd.i]] && ch.added == [cmd.v]
    ensures cmd.RemoveAt? ==> ch.removed == [data[cmd.i]] && ch.added == []
    ensures cmd.InsertAt? ==> ch.removed == [] && ch.added == [cmd.v]
  {
    match cmd
    case ReplaceAt(i, v) => Change(i, [data[i]], [v])
    case RemoveAt(i) => Change(i, [data[i]], [])
    case InsertAt(i, v) => Change(i, [], [v])
  }

  /** The list after a command. */
  function Edit<T>(data: seq<Option<T>>, cmd: Command<T>): (r: seq<Option<T>>)
    requires InRange(data, cmd)
    ensures cmd.ReplaceAt? ==>
      && |r| == |data| && r[cmd.i] == cmd.v
      && forall j :: 0 <= j < |data| && j != cmd.i ==> r[j] == data[j]
    ensures cmd.RemoveAt? ==>
      && |r| == |data| - 1
      && (forall j :: 0 <= j < cmd.i ==> r[j] == data[j])
      && (forall j :: cmd.i <= j < |r| ==> r[j] == data[j + 1])
    ensures cmd.InsertAt? ==>
      && |r| == |data| + 1 && r[cmd.i] == cmd.v
      && (forall j :: 0 <= j < cmd.i ==> r[j] == data[j])
      && (forall j :: cmd.i < j < |r| ==> r[j] == data[j - 1])
  {
    match cmd
    case ReplaceAt(i, v) => data[i := v]
    case RemoveAt(i) => data[..i] + data[i + 1..]
    case InsertAt(i, v) => data[..i] + [v] + data[i..]
  }

  /** What a command takes out of the list and puts into it is exactly
      what its change record reports. */
  lemma EditReportsChange<T>(data: seq<Option<T>>, cmd: Command<T>)
    requires InRange(data, cmd)
    ensures multiset(Edit(data, cmd)) + multiset(ChangeOf(data, cmd).removed) == multiset(data) + multiset(ChangeOf(data, cmd).added)
  {
    var i := cmd.i;
    assert data == data[..i] + data[i..];
    match cmd
    case ReplaceAt(_, v) =>
      assert data == data[..i] + [data[i]] + data[i + 1..];
      assert data[i := v] == data[..i] + [v] + data[i + 1..];
    case RemoveAt(_) =>
      assert data == data[..i] + [data[i]] + data[i + 1..];
    case InsertAt(_, v) =>
  }

  /** A command applied to the cache: the list changes, and the listener
      files the change unless `skip` is set (BasicDAO.java line 140). */
  function Perform<T(==)>(c: Cache<T>, cmd: Command<T>): (r: Cache<T>)
    requires InRange(c.data, cmd)
    ensures r.skip == c.skip
    ensures multiset(r.data) + multiset(ChangeOf(c.data, cmd).removed) == multiset(c.data) + multiset(ChangeOf(c.data, cmd).added)
    ensures c.skip ==> r.log == c.log
  {
    EditReportsChange(c.data, cmd);
    var d := Edit(c.data, cmd);
    if c.skip then c.(data := d)
    else c.(data := d, log := Listen(c.log, ChangeOf(c.data, cmd)))
  }

  /** A command as a caller issues it: an index the list rejects throws and
      leaves the cache as it was. */
  function Step<T(==)>(c: Cache<T>, cmd: Command<T>): (r: Result<Cache<T>>)
    ensures r.Err? <==> !InRange(c.data, cmd)
    ensures r.Err? ==> r.error == IndexOutOfBounds
    ensures r.Ok? && c.skip ==> r.value.log == c.log
  {
    if InRange(c.data, cmd) then Ok(Perform(c, cmd)) else Err(IndexOutOfBounds)
  }

  /** A sequence of commands; a rejected one is skipped. The `skip` flag is
      only ever changed by a rollback, so it stays put, and while it is set
      nothing is filed. */
  function Run<T(==)>(c: Cache<T>, cmds: seq<Command<T>>): (r: Cache<T>)
    ensures r.skip == c.skip
    ensures c.skip ==> r.log == c.log
    decreases |cmds|
  {
    if |cmds| == 0 then c
    else
      match Step(c, cmds[0])
      case Ok(c') => Run(c', cmds[1..])
      case Err(_) => Run(c, cmds[1..])
  }

  /** Two commands the list accepts, one after the other. */
  lemma RunTwo<T>(c: Cache<T>, x: Command<T>, y: Command<T>)
    requires InRange(c.data, x) && InRange(Perform(c, x).data, y)
    ensures Run(c, [x, y]) == Perform(Perform(c, x), y)
  {
    var c1 := Perform(c, x);
    var c2 := Perform(c1, y);
    assert Step(c, x) == Ok(c1);
    assert [x, y][1..] == [y];
    assert Run(c, [x, y]) == Run(c1, [y]);
    assert Step(c1, y) == Ok(c2);
    assert [y][1..] == [];
    assert Run(c1, [y]) == Run(c2, []);
  }

  /** A single `set` is classified by the single-replace rule. */
  lemma ReplaceAtClassified<T>(c: Cache<T>, i: int, v: Option<T>)
    requires 0 <= i < |c.data| && !c.skip
    ensures Perform(c, ReplaceAt(i, v)).log == ReplaceOne(c.log, i, c.data[i], v)
  {
    var ch := ChangeOf(c.data, ReplaceAt(i, v));
    assert ch == Change(i, [c.data[i]], [v]);
    assert Perform(c, ReplaceAt(i, v)).log == Listen(c.log, ch) == ReplaceRun(c.log, i, [c.data[i]], [v]);
    ReplaceRunSingle(c.log, i, c.data[i], v);
  }

  /** A single `remove` is classified by the single-remove rule. */
  lemma RemoveAtClassified<T>(c: Cache<T>, i: int)
    requires 0 <= i < |c.data| && !c.skip
    ensures Perform(c, RemoveAt(i)).log == RemoveOne(c.log, c.data[i])
  {
    var ch := ChangeOf(c.data, RemoveAt(i));
    assert ch == Change(i, [c.data[i]], []);
    assert Perform(c, RemoveAt(i)).log == Listen(c.log, ch) == RemoveRun(c.log, [c.data[i]]);
    RemoveRunSingle(c.log, c.data[i]);
  }

  /** A single `add` is classified by the single-insert rule. */
  lemma InsertAtClassified<T>(c: Cache<T>, i: int, v: Option<T>)
    requires 0 <= i <= |c.data| && !c.skip
    ensures Perform(c, InsertAt(i, v)).log == InsertOne(c.log, v)
  {
    var ch := ChangeOf(c.data, InsertAt(i, v));
    assert ch == Change(i, [], [v]);
    assert Perform(c, InsertAt(i, v)).log == Listen(c.log, ch) == InsertRun(c.log, [v]);
    InsertRunSingle(c.log, v);
  }

  /** BasicDAO's QueryObject, reduced to what `open` consults: the select
      text, whether a connection is set, and the positional parameters. */
  datatype QueryObject<P> = QueryObject(selectText: Option<string>, connected: bool, params: Option<seq<P>>)

  /** The DAO: its query and its cache. */
  datatype Dao<T, P> = Dao(query: Option<QueryObject<P>>, cache: Cache<T>)

  /** `open` can reach the database: a query with a connection and a
      non-empty select text, and a wrapper to materialise rows. */
  predicate Configured<P>(query: Option<QueryObject<P>>, hasWrapper: bool) {
    && query.Some? && hasWrapper && query.value.connected
    && query.value.selectText.Some? && |query.value.selectText.value| > 0
  }

  /** `open(QueryObject)` (BasicDAO.java lines 230-256). The statement
      execution and the wrapping of each row are external: `rows` is what
      they produced, the materialised rows in result-set order or the
      SQLException they threw. */
  function Open<T, P>(dao: Dao<T, P>, query: Option<QueryObject<P>>, hasWrapper: bool, rows: Result<seq<Option<T>>>): (r: Outcome<Dao<T, P>>)
    ensures r.state.query == query
    ensures r.state.cache.log == dao.cache.log && r.state.cache.skip == dao.cache.skip
    ensures !Configured(query, hasWrapper) ==> r.fault.None? && r.state.cache.data == []
    ensures Configured(query, hasWrapper) && rows.Ok? ==> r.fault.None? && r.state.cache.data == rows.value
    ensures Configured(query, hasWrapper) && rows.Err? ==> r.fault == Some(rows.error) && r.state.cache == dao.cache
  {
    var d := dao.(query := query);
    if !Configured(query, hasWrapper) then Outcome(d.(cache := d.cache.(data := [])), None)
    else
      match rows
      case Ok(newData) => Outcome(d.(cache := d.cache.(data := newData)), None)
      case Err(e) => Outcome(d, Some(e))
  }

  /** `open` on a DAO with nothing tracked starts a fresh cache whose
      baseline is what it loaded, an empty list when it could not query;
      only a failing query leaves the old cache in place. */
  lemma OpenLoadsFresh<T, P>(dao: Dao<T, P>, query: Option<QueryObject<P>>, hasWrapper: bool, rows: Result<seq<Option<T>>>)
    requires dao.cache.log == NoEdits() && !dao.cache.skip
    ensures var r := Open(dao, query, hasWrapper, rows);
      && (r.fault.None? <==> !(Configured(query, hasWrapper) && rows.Err?))
      && (r.fault.None? ==> r.state.cache == Fresh(if Configured(query, hasWrapper) then rows.value else []))
      && (r.fault.Some? ==> r.state.cache == dao.cache)
  {
  }

  /** `open(Object[])` (BasicDAO.java lines 217-222): sets the parameters on
      the configured query and opens it; with no query it throws. */
  function OpenWith<T, P>(dao: Dao<T, P>, params: Option<seq<P>>, hasWrapper: bool, rows: Result<seq<Option<T>>>): (r: Outcome<Dao<T, P>>)
    ensures dao.query.None? ==> r == Outcome(dao, Some(NoQuery))
    ensures dao.query.Some? ==> r.state.query == Some(dao.query.value.(params := params))
    ensures dao.query.Some? ==> r.state.cache.log == dao.cache.log
  {
    match dao.query
    case None => Outcome(dao, Some(NoQuery))
    case Some(q) => Open(dao, Some(q.(params := params)), hasWrapper, rows)
  }
}
