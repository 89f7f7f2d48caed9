/** Column.values and Table.insert_test_data: lazy generators drawing from random sources
    that columns may share, proved equal to eager column-by-column generation. */
module TestData {
  import opened Text
  import opened DataTypes
  import opened ColumnNames
  import opened Literals
  import opened Requests

  /** A random number generator object. */
  class Random {
    const oracle: Oracle
    var history: History

    constructor (oracle: Oracle)
      ensures this.oracle == oracle && history == []
    {
      this.oracle := oracle;
      history := [];
    }
  }

  /** A table column with its own random source. */
  class Column {
    const kind: Type
    const name: string
    const random: Random

    constructor (kind: Type, name: Option<string>, random: Random)
      ensures this.kind == kind && this.random == random
      ensures this.name == if name.Some? then name.value else ColumnName(kind)
    {
      this.kind := kind;
      this.name := if name.Some? then name.value else ColumnName(kind);
      this.random := random;
    }
  }

  // ----- what a column yields

  /** `n` random literals drawn one after the other. */
  function Draws(t: Type, n: nat, oracle: Oracle, h: History): (d: Drawn<seq<string>>)
    ensures |d.value| == n
  {
    if n == 0 then Drawn([], h)
    else
      var front := Draws(t, n - 1, oracle, h);
      var last := RandValue(t, oracle, front.history);
      Drawn(front.value + [last.value], last.history)
  }

  /** The distinct values of a column: maximum, minimum, zero and then draws. */
  function ValueList(t: Type, rowCount: int, legacy: bool, oracle: Oracle, h: History): (d: Drawn<seq<string>>)
    ensures |d.value| >= rowCount && |d.value| >= 3
  {
    var fixed := [Literal(Max, t, legacy), Literal(Min, t, legacy), Literal(Zero, t, legacy)];
    if rowCount > 3 then
      var draws := Draws(t, rowCount - 3, oracle, h);
      Drawn(fixed + draws.value, draws.history)
    else
      Drawn(fixed, h)
  }

  /** Python's `values * count` */
  function Cycled(values: seq<string>, count: int): seq<string>
    decreases if count < 0 then 0 else count
  {
    if count <= 0 then [] else values + Cycled(values, count - 1)
  }

  datatype Yielded = Yield(text: string) | IndexError | StopIteration

  /** The generator object that Column.values returns. Nothing is drawn before the first Next. */
  class ValuesGenerator {
    const column: Column
    const rowCount: int
    const cardinality: int
    const random: Random
    const legacy: bool
    var started: bool
    var values: seq<string>
    var emitted: nat
    var finished: bool

    constructor (column: Column, rowCount: int, cardinality: int, random: Random?, legacy: bool)
      ensures this.column == column && this.rowCount == rowCount && this.cardinality == cardinality
      ensures this.random == (if random == null then column.random else random) && this.legacy == legacy
      ensures IsNew()
    {
      this.column := column;
      this.rowCount := rowCount;
      this.cardinality := cardinality;
      this.random := if random == null then column.random else random;
      this.legacy := legacy;
      started := false;
      values := [];
      emitted := 0;
      finished := false;
    }

    predicate IsNew()
      reads this
    {
      !started && emitted == 0 && !finished
    }

    function FirstDraw(h: History): Drawn<seq<string>> {
      ValueList(column.kind, rowCount, legacy, random.oracle, h)
    }

    method DrawValues() returns (list: seq<string>)
      modifies random`history
      ensures list == FirstDraw(old(random.history)).value
      ensures random.history == FirstDraw(old(random.history)).history
    {
      var t := column.kind;
      list := [Literal(Max, t, legacy), Literal(Min, t, legacy), Literal(Zero, t, legacy)];
      if rowCount > 3 {
        var draws := [];
        for i := 0 to rowCount - 3
          invariant Drawn(draws, random.history) == Draws(t, i, random.oracle, old(random.history))
        {
          var d := RandValue(t, random.oracle, random.history);
          draws := draws + [d.value];
          random.history := d.history;
        }
        list := list + draws;
      }
    }

    /** The end of the rows and an index error finish the generator, which then only answers StopIteration. */
    method Next() returns (r: Yielded)
      modifies this, random`history
      ensures old(finished) ==>
                r == StopIteration && unchanged(this) && random.history == old(random.history)
      ensures !old(finished) ==> started && finished == !r.Yield?
      ensures old(started) ==> values == old(values) && random.history == old(random.history)
      ensures !old(started) && !old(finished) ==>
                values == Cycled(FirstDraw(old(random.history)).value, cardinality)
                && random.history == FirstDraw(old(random.history)).history
      ensures !old(finished) ==>
                r == if old(emitted) >= rowCount then StopIteration
                     else if old(emitted) < |values| then Yield(values[old(emitted)])
                     else IndexError
      ensures emitted == if r.Yield? then old(emitted) + 1 else old(emitted)
    {
      if finished {
        return StopIteration;
      }
      if !started {
        var list := DrawValues();
        values := Cycled(list, cardinality);
        started := true;
      }
      if emitted >= rowCount {
        r := StopIteration;
        finished := true;
      } else if emitted < |values| {
        r := Yield(values[emitted]);
        emitted := emitted + 1;
      } else {
        r := IndexError;
        finished := true;
      }
    }
  }

  // ----- eager reference: whole columns, left to right

  /** A column's type and the random source it draws from. */
  datatype Feed = Feed(kind: Type, random: Random)

  type Store = map<Random, History>

  datatype Eager = Eager(columns: seq<seq<string>>, store: Store)

  predicate Covers(store: Store, feeds: seq<Feed>) {
    forall f | f in feeds :: f.random in store
  }

  /** Generates every column completely before the next one; each draw advances the column's source,
      which other columns may share. */
  function GenerateEagerly(feeds: seq<Feed>, rowCount: int, legacy: bool, store: Store): (e: Eager)
    requires Covers(store, feeds)
    ensures |e.columns| == |feeds| && e.store.Keys == store.Keys
    ensures forall c | 0 <= c < |feeds| :: |e.columns[c]| >= rowCount
  {
    if feeds == [] then Eager([], store)
    else
      var last := |feeds| - 1;
      assert feeds[last] in feeds && forall f | f in feeds[..last] :: f in feeds;
      var front := GenerateEagerly(feeds[..last], rowCount, legacy, store);
      var f := feeds[last];
      var d := ValueList(f.kind, rowCount, legacy, f.random.oracle, front.store[f.random]);
      Eager(front.columns + [d.value], front.store[f.random := d.history])
  }

  /** Row `r` of a list of columns. */
  function RowOf(columns: seq<seq<string>>, r: nat): seq<string>
    requires forall c | 0 <= c < |columns| :: r < |columns[c]|
  {
    seq(|columns|, c requires 0 <= c < |columns| => columns[c][r])
  }

  function Transpose(columns: seq<seq<string>>, rowCount: int): (m: seq<seq<string>>)
    requires forall c | 0 <= c < |columns| :: rowCount <= |columns[c]|
    ensures |m| == if rowCount < 0 then 0 else rowCount
  {
    seq(if rowCount < 0 then 0 else rowCount, r requires 0 <= r < rowCount => RowOf(columns, r))
  }

  /** The last column is generated last. */
  lemma EagerLast(feeds: seq<Feed>, rowCount: int, legacy: bool, store: Store)
    requires Covers(store, feeds) && feeds != []
    ensures var last := |feeds| - 1;
            var f := feeds[last];
            Covers(store, feeds[..last]) && f.random in store
            && var front := GenerateEagerly(feeds[..last], rowCount, legacy, store);
               var d := ValueList(f.kind, rowCount, legacy, f.random.oracle, front.store[f.random]);
               GenerateEagerly(feeds, rowCount, legacy, store)
                 == Eager(front.columns + [d.value], front.store[f.random := d.history])
  {
    hide ValueList;
    assert feeds[|feeds| - 1] in feeds && forall f | f in feeds[..|feeds| - 1] :: f in feeds;
  }

  /** What the first columns contain does not depend on the columns after them. */
  lemma {:induction false} EagerPrefix(feeds: seq<Feed>, c: nat, rowCount: int, legacy: bool, store: Store)
    requires Covers(store, feeds) && c <= |feeds|
    ensures Covers(store, feeds[..c])
    ensures GenerateEagerly(feeds[..c], rowCount, legacy, store).columns
         == GenerateEagerly(feeds, rowCount, legacy, store).columns[..c]
  {
    hide ValueList, GenerateEagerly;
    assert forall f | f in feeds[..c] :: f in feeds;
    if c == |feeds| {
      assert feeds[..c] == feeds;
    } else {
      var front := feeds[..|feeds| - 1];
      EagerLast(feeds, rowCount, legacy, store);
      EagerPrefix(front, c, rowCount, legacy, store);
      assert front[..c] == feeds[..c];
    }
  }

  /** One more column: the prefix grows by that column's value list and its source advances. */
  lemma EagerStep(feeds: seq<Feed>, c: nat, rowCount: int, legacy: bool, store: Store)
    requires Covers(store, feeds) && c < |feeds|
    ensures Covers(store, feeds[..c]) && Covers(store, feeds[..c + 1]) && feeds[c].random in store
    ensures var before := GenerateEagerly(feeds[..c], rowCount, legacy, store).store;
            var f := feeds[c];
            var d := ValueList(f.kind, rowCount, legacy, f.random.oracle, before[f.random]);
            GenerateEagerly(feeds[..c + 1], rowCount, legacy, store).store == before[f.random := d.history]
            && GenerateEagerly(feeds, rowCount, legacy, store).columns[c] == d.value
  {
    hide ValueList, GenerateEagerly;
    EagerPrefix(feeds, c, rowCount, legacy, store);
    EagerPrefix(feeds, c + 1, rowCount, legacy, store);
    var upTo := feeds[..c + 1];
    EagerLast(upTo, rowCount, legacy, store);
    assert upTo[..|upTo| - 1] == feeds[..c] && upTo[|upTo| - 1] == feeds[c];
    var all := GenerateEagerly(feeds, rowCount, legacy, store).columns;
    assert all[..c + 1][c] == all[c];
  }

  lemma EagerNothing(feeds: seq<Feed>, rowCount: int, legacy: bool, store: Store)
    requires Covers(store, feeds)
    ensures Covers(store, feeds[..0]) && GenerateEagerly(feeds[..0], rowCount, legacy, store).store == store
    ensures Covers(store, feeds[..|feeds|])
    ensures GenerateEagerly(feeds[..|feeds|], rowCount, legacy, store) == GenerateEagerly(feeds, rowCount, legacy, store)
  {
    assert feeds[..0] == [] && feeds[..|feeds|] == feeds;
  }

  /** Repeating the list never changes which cells are read: the cardinality is irrelevant. */
  lemma CycledPrefix(values: seq<string>, count: int)
    ensures count >= 1 ==> values <= Cycled(values, count)
    ensures count <= 0 ==> Cycled(values, count) == []
  {
  }

  /** The repeated list goes through the values again and again. */
  lemma {:induction false} CycledExactly(values: seq<string>, count: nat, round: nat, i: nat)
    requires round < count && i < |values|
    ensures |Cycled(values, count)| == |values| * count && |values| * round + i < |values| * count
    ensures Cycled(values, count)[|values| * round + i] == values[i]
  {
    hide Cycled;
    CycledLength(values, count);
    CycledLength(values, count - 1);
    CycledStep(values, count);
    var n := |values|;
    if round > 0 {
      CycledExactly(values, count - 1, round - 1, i);
      OneMore(n, round);
      OneMore(n, count);
      assert Cycled(values, count)[n * round + i] == Cycled(values, count - 1)[n * (round - 1) + i];
    } else {
      OneMore(n, count);
    }
  }

  lemma CycledStep(values: seq<string>, count: pos)
    ensures Cycled(values, count) == values + Cycled(values, count - 1)
  {
  }

  lemma {:induction false} CycledLength(values: seq<string>, count: nat)
    ensures |Cycled(values, count)| == |values| * count
  {
    if count > 0 {
      CycledLength(values, count - 1);
      OneMore(|values|, count);
    }
  }

  lemma OneMore(n: nat, count: pos)
    ensures n + n * (count - 1) == n * count && n * (count - 1) >= 0
  {
  }

  ghost function Histories(sources: set<Random>): Store
    reads sources
  {
    map s | s in sources :: s.history
  }

  /** The generators belong to these feeds and are different objects. */
  ghost predicate Wired(gens: seq<ValuesGenerator>, feeds: seq<Feed>, rowCount: int, cardinality: int, legacy: bool) {
    && |gens| == |feeds|
    && (forall i | 0 <= i < |gens| ::
          gens[i].column.kind == feeds[i].kind && gens[i].random == feeds[i].random
          && gens[i].rowCount == rowCount && gens[i].cardinality == cardinality && gens[i].legacy == legacy)
    && (forall i, j | 0 <= i < j < |gens| :: gens[i] != gens[j])
  }

  lemma WiredSize(gens: seq<ValuesGenerator>, feeds: seq<Feed>, rowCount: int, cardinality: int, legacy: bool)
    requires Wired(gens, feeds, rowCount, cardinality, legacy)
    ensures |gens| == |feeds| && forall i | 0 <= i < |gens| :: gens[i].random == feeds[i].random
  {
  }

  /** The generator has emitted `r` cells; from the first cell on it holds its eager column. */
  ghost predicate Holds(g: ValuesGenerator, r: nat, column: seq<string>)
    reads g
  {
    !g.finished && g.emitted == r && g.started == (r > 0) && (r > 0 ==> g.values == Cycled(column, g.cardinality))
  }

  /** Cell `r` of a column: the generator's first cell builds its whole list and moves its source; later
      cells move no source. Sources the generator does not draw from keep their histories. */
  method NextCell(g: ValuesGenerator, ghost r: nat, ghost column: seq<string>, ghost sources: set<Random>)
    returns (cell: Yielded)
    requires g.random in sources && r < g.rowCount <= |column| && Holds(g, r, column)
    requires r == 0 ==> column == g.FirstDraw(Histories(sources)[g.random]).value
    modifies g, g.random`history
    ensures cell == if g.cardinality >= 1 then Yield(column[r]) else IndexError
    ensures cell.Yield? ==> Holds(g, r + 1, column)
    ensures Histories(sources) == var before := old(Histories(sources));
                                  if r > 0 then before
                                  else before[g.random := g.FirstDraw(before[g.random]).history]
  {
    hide ValueList, Cycled;
    CycledPrefix(column, g.cardinality);
    cell := g.Next();
  }

  /** The histories once the first `c` generators have emitted cell `r`. */
  ghost function StoreAfter(feeds: seq<Feed>, c: nat, r: nat, rowCount: int, legacy: bool, store: Store): Store
    requires Covers(store, feeds) && c <= |feeds|
  {
    assert forall f | f in feeds[..c] :: f in feeds;
    GenerateEagerly(if r == 0 then feeds[..c] else feeds, rowCount, legacy, store).store
  }

  /** The first `c` generators have emitted cell `r`, the others have not. */
  ghost predicate Progress(gens: seq<ValuesGenerator>, c: nat, r: nat, columns: seq<seq<string>>)
    requires |gens| == |columns|
    reads gens
  {
    forall i | 0 <= i < |gens| :: Holds(gens[i], if i < c then r + 1 else r, columns[i])
  }

  /** Cell `r` of column `c`, after those of the columns to its left. */
  method NextOfRow(gens: seq<ValuesGenerator>, c: nat, r: nat, rowCount: int, cardinality: int, legacy: bool,
                   ghost feeds: seq<Feed>, ghost sources: set<Random>, ghost store: Store)
    returns (cell: Yielded)
    requires Wired(gens, feeds, rowCount, cardinality, legacy)
    requires store.Keys == sources && Covers(store, feeds)
    requires c < |gens| && r < rowCount
    requires Progress(gens, c, r, GenerateEagerly(feeds, rowCount, legacy, store).columns)
    requires Histories(sources) == StoreAfter(feeds, c, r, rowCount, legacy, store)
    modifies gens[c], gens[c].random`history
    ensures gens[c].random in sources
    ensures cell == if cardinality >= 1 then Yield(GenerateEagerly(feeds, rowCount, legacy, store).columns[c][r])
                    else IndexError
    ensures cell.Yield? ==> Progress(gens, c + 1, r, GenerateEagerly(feeds, rowCount, legacy, store).columns)
    ensures Histories(sources) == StoreAfter(feeds, c + 1, r, rowCount, legacy, store)
  {
    hide GenerateEagerly, ValueList, Holds, StoreAfter, Histories;
    ghost var columns := GenerateEagerly(feeds, rowCount, legacy, store).columns;
    StoreStep(feeds, c, r, rowCount, legacy, store);
    assert feeds[c] in feeds;
    cell := NextCell(gens[c], r, columns[c], sources);
  }

  /** Asks every generator for its next cell, left to right. An index error stops the row; it happens
      exactly when there is a generator and the cardinality is not positive, in the very first cell. */
  method NextRow(gens: seq<ValuesGenerator>, r: nat, rowCount: int, cardinality: int, legacy: bool,
                 ghost feeds: seq<Feed>, ghost sources: set<Random>, ghost store: Store)
    returns (cells: Option<seq<string>>)
    requires Wired(gens, feeds, rowCount, cardinality, legacy)
    requires store.Keys == sources && Covers(store, feeds)
    requires r < rowCount && (r == 0 || cardinality >= 1 || gens == [])
    requires forall i | 0 <= i < |gens| ::
               Holds(gens[i], r, GenerateEagerly(feeds, rowCount, legacy, store).columns[i])
    requires Histories(sources) == StoreAfter(feeds, 0, r, rowCount, legacy, store)
    modifies gens, sources`history
    ensures cells.None? <==> cardinality <= 0 && gens != []
    ensures cells.None? ==> Histories(sources) == StoreAfter(feeds, 1, r, rowCount, legacy, store)
    ensures cells.Some? ==>
              cells.value == RowOf(GenerateEagerly(feeds, rowCount, legacy, store).columns, r)
              && Histories(sources) == GenerateEagerly(feeds, rowCount, legacy, store).store
              && forall i | 0 <= i < |gens| ::
                   Holds(gens[i], r + 1, GenerateEagerly(feeds, rowCount, legacy, store).columns[i])
  {
    hide GenerateEagerly, ValueList, Holds, StoreAfter, Histories, RowOf, Wired;
    WiredSize(gens, feeds, rowCount, cardinality, legacy);
    ghost var columns := GenerateEagerly(feeds, rowCount, legacy, store).columns;
    var row := [];
    for c := 0 to |gens|
      invariant c == 0 || cardinality >= 1
      invariant |row| == c && forall i | 0 <= i < c :: row[i] == columns[i][r]
      invariant Progress(gens, c, r, columns)
      invariant Histories(sources) == StoreAfter(feeds, c, r, rowCount, legacy, store)
    {
      assert feeds[c] in feeds;
      var cell := NextOfRow(gens, c, r, rowCount, cardinality, legacy, feeds, sources, store);
      if cell.IndexError? {
        return None;
      }
      row := row + [cell.text];
    }
    StoreAll(feeds, r, rowCount, legacy, store);
    RowOfIs(columns, r, row);
    cells := Some(row);
  }

  lemma RowOfIs(columns: seq<seq<string>>, r: nat, row: seq<string>)
    requires |row| == |columns| && forall c | 0 <= c < |columns| :: r < |columns[c]| && row[c] == columns[c][r]
    ensures RowOf(columns, r) == row
  {
  }

  lemma StoreAll(feeds: seq<Feed>, r: nat, rowCount: int, legacy: bool, store: Store)
    requires Covers(store, feeds)
    ensures StoreAfter(feeds, |feeds|, r, rowCount, legacy, store) == GenerateEagerly(feeds, rowCount, legacy, store).store
  {
    EagerNothing(feeds, rowCount, legacy, store);
  }

  lemma StoreStep(feeds: seq<Feed>, c: nat, r: nat, rowCount: int, legacy: bool, store: Store)
    requires Covers(store, feeds) && c < |feeds|
    ensures feeds[c].random in store
    ensures r > 0 ==>
              StoreAfter(feeds, c + 1, r, rowCount, legacy, store) == StoreAfter(feeds, c, r, rowCount, legacy, store)
    ensures r == 0 ==>
              var before := StoreAfter(feeds, c, r, rowCount, legacy, store);
              var f := feeds[c];
              var d := ValueList(f.kind, rowCount, legacy, f.random.oracle, before[f.random]);
              StoreAfter(feeds, c + 1, r, rowCount, legacy, store) == before[f.random := d.history]
              && GenerateEagerly(feeds, rowCount, legacy, store).columns[c] == d.value
  {
    hide ValueList, GenerateEagerly;
    EagerStep(feeds, c, rowCount, legacy, store);
  }

  // ----- the cells

  /** Every draw is the random literal at the history its predecessors left. */
  lemma {:induction false} DrawsInOrder(t: Type, n: nat, i: nat, oracle: Oracle, h: History)
    requires i < n
    ensures Draws(t, n, oracle, h).value[i] == RandValue(t, oracle, Draws(t, i, oracle, h).history).value
    ensures Draws(t, i, oracle, h).value == Draws(t, n, oracle, h).value[..i]
  {
    hide RandValue;
    if i < n - 1 {
      DrawsInOrder(t, n - 1, i, oracle, h);
    }
  }

  /** The cells of column `c`, top to bottom: maximum, minimum, zero, then the draws of that column,
      which start at the history the columns to its left (and earlier runs) left in its source. */
  lemma CellsOfColumn(feeds: seq<Feed>, c: nat, r: nat, rowCount: int, legacy: bool, store: Store)
    requires Covers(store, feeds) && c < |feeds| && r < rowCount
    ensures Covers(store, feeds[..c]) && feeds[c].random in store
    ensures var f := feeds[c];
            var start := GenerateEagerly(feeds[..c], rowCount, legacy, store).store[f.random];
            GenerateEagerly(feeds, rowCount, legacy, store).columns[c][r] ==
              if r == 0 then Literal(Max, f.kind, legacy)
              else if r == 1 then Literal(Min, f.kind, legacy)
              else if r == 2 then Literal(Zero, f.kind, legacy)
              else RandValue(f.kind, f.random.oracle, Draws(f.kind, r - 3, f.random.oracle, start).history).value
  {
    hide GenerateEagerly, Literal, RandValue;
    EagerStep(feeds, c, rowCount, legacy, store);
    var f := feeds[c];
    if r >= 3 {
      var start := GenerateEagerly(feeds[..c], rowCount, legacy, store).store[f.random];
      DrawsInOrder(f.kind, rowCount - 3, r - 3, f.random.oracle, start);
    }
  }

  lemma CellIsSealed(feeds: seq<Feed>, c: nat, r: nat, rowCount: int, legacy: bool, store: Store)
    requires Covers(store, feeds) && c < |feeds| && r < rowCount
    ensures var cell := GenerateEagerly(feeds, rowCount, legacy, store).columns[c][r];
            Sealed(cell) && cell != ""
  {
    hide Literal, RandValue, Sealed, GenerateEagerly, Draws;
    CellsOfColumn(feeds, c, r, rowCount, legacy, store);
    var f := feeds[c];
    var start := GenerateEagerly(feeds[..c], rowCount, legacy, store).store[f.random];
    LiteralIsSealed(Max, f.kind, legacy);
    LiteralIsSealed(Min, f.kind, legacy);
    LiteralIsSealed(Zero, f.kind, legacy);
    if r >= 3 {
      RandValueIsSealed(f.kind, f.random.oracle, Draws(f.kind, r - 3, f.random.oracle, start).history);
    }
  }

  /** The generated matrix, row by row. */
  function Matrix(feeds: seq<Feed>, rowCount: int, legacy: bool, store: Store): seq<seq<string>>
    requires Covers(store, feeds)
  {
    Transpose(GenerateEagerly(feeds, rowCount, legacy, store).columns, rowCount)
  }

  /** A reader that knows nothing of types recovers the exact matrix from the VALUES text. */
  lemma ValuesTextReadsBack(feeds: seq<Feed>, rowCount: int, legacy: bool, store: Store)
    requires Covers(store, feeds)
    ensures ReadRows(CommaJoin(RowTexts(Matrix(feeds, rowCount, legacy, store)))) == Matrix(feeds, rowCount, legacy, store)
  {
    hide Sealed, GenerateEagerly;
    var matrix := Matrix(feeds, rowCount, legacy, store);
    forall row | row in matrix ensures AllSealed(row) && "" !in row {
      var r :| 0 <= r < |matrix| && matrix[r] == row;
      forall cell | cell in row ensures Sealed(cell) && cell != "" {
        var c :| 0 <= c < |row| && row[c] == cell;
        CellIsSealed(feeds, c, r, rowCount, legacy, store);
      }
    }
    ReadsBack(matrix);
  }

  /** Generating at most three rows draws nothing. */
  lemma {:induction false} FewRowsDrawNothing(feeds: seq<Feed>, rowCount: int, legacy: bool, store: Store)
    requires Covers(store, feeds) && rowCount <= 3
    ensures GenerateEagerly(feeds, rowCount, legacy, store).store == store
  {
    hide Literal, GenerateEagerly;
    if feeds == [] {
      EagerNothing(feeds, rowCount, legacy, store);
      assert feeds[..0] == feeds;
    } else {
      var last := |feeds| - 1;
      EagerLast(feeds, rowCount, legacy, store);
      FewRowsDrawNothing(feeds[..last], rowCount, legacy, store);
    }
  }

  lemma StartOfRun(feeds: seq<Feed>, rowCount: int, legacy: bool, store: Store)
    requires Covers(store, feeds)
    ensures StoreAfter(feeds, 0, 0, rowCount, legacy, store) == store
  {
    EagerNothing(feeds, rowCount, legacy, store);
  }

  lemma LaterRows(feeds: seq<Feed>, r: nat, rowCount: int, legacy: bool, store: Store)
    requires Covers(store, feeds) && r > 0
    ensures StoreAfter(feeds, 0, r, rowCount, legacy, store) == GenerateEagerly(feeds, rowCount, legacy, store).store
  {
  }

  lemma EndOfRun(feeds: seq<Feed>, r: nat, rowCount: int, legacy: bool, store: Store)
    requires Covers(store, feeds) && rowCount <= r && (r == 0 || r == rowCount)
    ensures StoreAfter(feeds, 0, r, rowCount, legacy, store) == GenerateEagerly(feeds, rowCount, legacy, store).store
  {
    if r == 0 {
      StartOfRun(feeds, rowCount, legacy, store);
      FewRowsDrawNothing(feeds, rowCount, legacy, store);
    } else {
      LaterRows(feeds, r, rowCount, legacy, store);
    }
  }

  /** The first cell of all moves only its own source. */
  lemma FirstColumnOnly(feeds: seq<Feed>, rowCount: int, legacy: bool, store: Store)
    requires Covers(store, feeds) && feeds != []
    ensures feeds[0].random in store
    ensures var f := feeds[0];
            StoreAfter(feeds, 1, 0, rowCount, legacy, store)
              == store[f.random := ValueList(f.kind, rowCount, legacy, f.random.oracle, store[f.random]).history]
  {
    hide ValueList, GenerateEagerly, StoreAfter;
    assert feeds[0] in feeds;
    StartOfRun(feeds, rowCount, legacy, store);
    StoreStep(feeds, 0, 0, rowCount, legacy, store);
  }

  /** The row loop: stops at the first index error. */
  method AllRows(gens: seq<ValuesGenerator>, rowCount: int, cardinality: int, legacy: bool,
                 ghost feeds: seq<Feed>, ghost sources: set<Random>, ghost store: Store)
    returns (rows: Option<seq<string>>)
    requires Wired(gens, feeds, rowCount, cardinality, legacy)
    requires forall g | g in gens :: g.IsNew()
    requires store.Keys == sources && Covers(store, feeds) && Histories(sources) == store
    modifies gens, sources`history
    ensures rows.None? <==> cardinality <= 0 && gens != [] && rowCount >= 1
    ensures rows.None? ==> Histories(sources) == StoreAfter(feeds, 1, 0, rowCount, legacy, store)
    ensures rows.Some? ==>
              rows.value == RowTexts(Matrix(feeds, rowCount, legacy, store))
              && Histories(sources) == GenerateEagerly(feeds, rowCount, legacy, store).store
  {
    hide GenerateEagerly, StoreAfter, RowText;
    ghost var columns := GenerateEagerly(feeds, rowCount, legacy, store).columns;
    StartOfRun(feeds, rowCount, legacy, store);
    forall i | 0 <= i < |gens| ensures Holds(gens[i], 0, columns[i]) {
      assert gens[i] in gens;
    }
    var texts := [];
    var row := 0;
    while row < rowCount
      invariant 0 <= row && (row <= rowCount || row == 0)
      invariant cardinality >= 1 || row == 0 || gens == []
      invariant |texts| == row && forall i | 0 <= i < row :: texts[i] == RowText(RowOf(columns, i))
      invariant forall i | 0 <= i < |gens| :: Holds(gens[i], row, columns[i])
      invariant Histories(sources) == StoreAfter(feeds, 0, row, rowCount, legacy, store)
    {
      var cells := NextRow(gens, row, rowCount, cardinality, legacy, feeds, sources, store);
      if cells.None? {
        return None;
      }
      LaterRows(feeds, row + 1, rowCount, legacy, store);
      texts := texts + [RowText(cells.value)];
      row := row + 1;
    }
    EndOfRun(feeds, row, rowCount, legacy, store);
    rows := Some(texts);
  }

  // ----- what the sources are asked

  function Copies(requests: seq<Request>, n: nat): seq<Request> {
    if n == 0 then [] else Copies(requests, n - 1) + requests
  }

  /** The requests one source gets: from each column that draws from it, in column order, the requests of
      its type once for every row after the third. */
  function RequestsTo(source: Random, feeds: seq<Feed>, rowCount: int): seq<Request> {
    if feeds == [] then []
    else
      var last := |feeds| - 1;
      RequestsTo(source, feeds[..last], rowCount)
      + if feeds[last].random == source && rowCount > 3 then Copies(RequestsOf(feeds[last].kind), rowCount - 3) else []
  }

  /** Each draw advances the source, by the requests of the type. */
  lemma {:induction false} DrawsAsk(t: Type, n: nat, oracle: Oracle, h: History)
    ensures Draws(t, n, oracle, h).history == h + Copies(RequestsOf(t), n)
  {
    hide RandValue, RequestsOf;
    if n > 0 {
      DrawsAsk(t, n - 1, oracle, h);
      LiteralAsks(t, oracle, h + Copies(RequestsOf(t), n - 1));
      assert h + Copies(RequestsOf(t), n - 1) + RequestsOf(t) == h + (Copies(RequestsOf(t), n - 1) + RequestsOf(t));
    }
  }

  lemma ColumnAsks(t: Type, rowCount: int, legacy: bool, oracle: Oracle, h: History)
    ensures ValueList(t, rowCount, legacy, oracle, h).history
         == h + if rowCount > 3 then Copies(RequestsOf(t), rowCount - 3) else []
  {
    hide Literal, Draws, RequestsOf;
    if rowCount > 3 {
      DrawsAsk(t, rowCount - 3, oracle, h);
    }
  }

  /** Where generation leaves every source, spelled out. */
  lemma {:induction false} EagerAsks(feeds: seq<Feed>, rowCount: int, legacy: bool, store: Store, source: Random)
    requires Covers(store, feeds) && source in store
    ensures GenerateEagerly(feeds, rowCount, legacy, store).store[source]
         == store[source] + RequestsTo(source, feeds, rowCount)
  {
    hide ValueList, GenerateEagerly, Copies, RequestsOf;
    if feeds == [] {
      EagerNothing(feeds, rowCount, legacy, store);
      assert feeds[..0] == feeds;
    } else {
      var last := |feeds| - 1;
      var f := feeds[last];
      EagerLast(feeds, rowCount, legacy, store);
      EagerAsks(feeds[..last], rowCount, legacy, store, source);
      var front := GenerateEagerly(feeds[..last], rowCount, legacy, store).store;
      ColumnAsks(f.kind, rowCount, legacy, f.random.oracle, front[f.random]);
      var front_, own := RequestsTo(source, feeds[..last], rowCount),
                         if rowCount > 3 then Copies(RequestsOf(f.kind), rowCount - 3) else [];
      assert store[source] + front_ + own == store[source] + (front_ + own) && front_ + [] == front_;
    }
  }

  lemma EagerAsksAll(feeds: seq<Feed>, rowCount: int, legacy: bool, store: Store)
    requires Covers(store, feeds)
    ensures forall source | source in store ::
              GenerateEagerly(feeds, rowCount, legacy, store).store[source]
              == store[source] + RequestsTo(source, feeds, rowCount)
  {
    hide GenerateEagerly, RequestsTo;
    forall source | source in store
      ensures GenerateEagerly(feeds, rowCount, legacy, store).store[source]
           == store[source] + RequestsTo(source, feeds, rowCount)
    {
      EagerAsks(feeds, rowCount, legacy, store, source);
    }
  }

  /** Row `r` of the matrix holds cell `r` of every column, in column order. */
  lemma MatrixCells(feeds: seq<Feed>, rowCount: int, legacy: bool, store: Store, r: nat, c: nat)
    requires Covers(store, feeds) && r < rowCount && c < |feeds|
    ensures |Matrix(feeds, rowCount, legacy, store)| == rowCount && |Matrix(feeds, rowCount, legacy, store)[r]| == |feeds|
    ensures Matrix(feeds, rowCount, legacy, store)[r][c] == GenerateEagerly(feeds, rowCount, legacy, store).columns[c][r]
  {
    hide GenerateEagerly;
  }

  // ----- the table

  datatype Result = Executed(rows: seq<string>, statement: string) | RaisedIndexError

  class Table {
    const name: string
    const columns: seq<Column>

    constructor (name: string, columns: seq<Column>)
      ensures this.name == name && this.columns == columns
    {
      this.name := name;
      this.columns := columns;
    }

    /** The source each column draws from: the shared one when given, its own otherwise. */
    function Feeds(random: Random?): (f: seq<Feed>)
      ensures |f| == |columns|
      ensures forall c | 0 <= c < |columns| ::
                f[c].kind == columns[c].kind && (random != null ==> f[c].random == random)
                && (random == null ==> f[c].random == columns[c].random)
    {
      seq(|columns|, i requires 0 <= i < |columns| =>
        Feed(columns[i].kind, if random == null then columns[i].random else random))
    }

    ghost function Sources(random: Random?): (s: set<Random>)
      ensures forall f | f in Feeds(random) :: f.random in s
    {
      set f | f in Feeds(random) :: f.random
    }

    method NewGenerators(rowCount: int, cardinality: int, random: Random?, legacy: bool)
      returns (gens: seq<ValuesGenerator>)
      ensures Wired(gens, Feeds(random), rowCount, cardinality, legacy)
      ensures fresh(gens) && forall g | g in gens :: g.IsNew()
    {
      gens := [];
      for i := 0 to |columns|
        invariant Wired(gens, Feeds(random)[..i], rowCount, cardinality, legacy)
        invariant fresh(gens) && forall g | g in gens :: g.IsNew()
      {
        var g := new ValuesGenerator(columns[i], rowCount, cardinality, random, legacy);
        assert g !in gens;
        gens := gens + [g];
      }
    }

    /** The whole insert. For a cardinality of at least one the row texts read back as the eagerly
        generated matrix and every source ends where eager generation leaves it, whatever sources the
        columns share. A smaller cardinality makes the first generator run off its empty list. */
    method InsertTestData(rowCount: int, cardinality: int, random: Random?, legacy: bool) returns (r: Result)
      modifies Sources(random)`history
      ensures Covers(old(Histories(Sources(random))), Feeds(random))
      ensures cardinality >= 1 || rowCount <= 0 || columns == [] ==>
                var store := old(Histories(Sources(random)));
                r.Executed?
                && r.rows == RowTexts(Matrix(Feeds(random), rowCount, legacy, store))
                && r.statement == "INSERT INTO " + name + " VALUES " + CommaJoin(r.rows)
                && ReadRows(CommaJoin(r.rows)) == Matrix(Feeds(random), rowCount, legacy, store)
                && Histories(Sources(random)) == GenerateEagerly(Feeds(random), rowCount, legacy, store).store
                && forall source | source in Sources(random) ::
                     source.history == old(source.history) + RequestsTo(source, Feeds(random), rowCount)
      ensures cardinality <= 0 && rowCount >= 1 && columns != [] ==>
                var store := old(Histories(Sources(random)));
                var f := Feeds(random)[0];
                r.RaisedIndexError?
                && Histories(Sources(random))
                == store[f.random := ValueList(f.kind, rowCount, legacy, f.random.oracle, store[f.random]).history]
    {
      hide GenerateEagerly, ValueList, ReadRows, CommaJoin, StoreAfter, Wired, RowTexts, Matrix, Feeds;
      ghost var feeds, sources := Feeds(random), Sources(random);
      ghost var store := Histories(sources);
      var gens := NewGenerators(rowCount, cardinality, random, legacy);
      WiredSize(gens, feeds, rowCount, cardinality, legacy);
      var rows := AllRows(gens, rowCount, cardinality, legacy, feeds, sources, store);
      if rows.None? {
        FirstColumnOnly(feeds, rowCount, legacy, store);
        return RaisedIndexError;
      }
      ValuesTextReadsBack(feeds, rowCount, legacy, store);
      EagerAsksAll(feeds, rowCount, legacy, store);
      r := Executed(rows.value, "INSERT INTO " + name + " VALUES " + CommaJoin(rows.value));
    }
  }
}
