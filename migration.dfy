/**
 * The migration differ: resolving two versions of a table and the ALTER TABLE
 * text that turns the FROM version into the TO version.
 *
 * Each version's columns render with that version's own dialect, the one its
 * columns' back-pointers lead to; the ALTER TABLE header uses the live table's.
 */
module Migration {
  import opened Wrappers
  import opened GoTypes
  import opened Dialects
  import opened Schema
  import Text

  predicate StartsWith(s: string, prefix: string)
  {
    |prefix| <= |s| && s[..|prefix|] == prefix
  }

  // ---------------------------------------------------------------------------
  // Version lookup
  // ---------------------------------------------------------------------------

  /** The position of the first history carrying `version`. */
  function FirstVersion(histories: seq<TableValue>, version: string): (r: Option<nat>)
    ensures r.None? <==> forall i :: 0 <= i < |histories| ==> histories[i].version != version
    ensures r.Some? ==> r.value < |histories| && histories[r.value].version == version
    ensures r.Some? ==> forall j :: 0 <= j < r.value ==> histories[j].version != version
  {
    if histories == [] then None
    else if histories[0].version == version then Some(0)
    else
      match FirstVersion(histories[1..], version)
      case Some(i) => Some(i + 1)
      case None => None
  }

  /** `lookupVersion`: the label "current" names the live table, any other label the first history carrying it. */
  function LookupVersion(current: TableValue, histories: seq<TableValue>, version: string): Option<TableValue>
  {
    if version == "current" then Some(current)
    else
      match FirstVersion(histories, version)
      case Some(i) => Some(histories[i])
      case None => None
  }

  /**
   * "current" always resolves to the live table, even when a history carries
   * that label; any other label resolves to a history carrying it, and to
   * nothing exactly when no history does.
   */
  lemma LookupVersionResolves(current: TableValue, histories: seq<TableValue>, version: string)
    ensures version == "current" ==> LookupVersion(current, histories, version) == Some(current)
    ensures version != "current" ==>
      (LookupVersion(current, histories, version).None? <==> forall h :: h in histories ==> h.version != version)
    ensures version != "current" && LookupVersion(current, histories, version).Some? ==>
      var h := LookupVersion(current, histories, version).value;
      h in histories && h.version == version
  {
    if version != "current" && FirstVersion(histories, version).None? {
      forall h | h in histories
        ensures h.version != version
      {
        var i :| 0 <= i < |histories| && histories[i] == h;
      }
    }
  }

  // ---------------------------------------------------------------------------
  // Column statements
  // ---------------------------------------------------------------------------

  /**
   * `Column.Equals`: the two declarations, each rendered with its own table's
   * dialect, are the same text. Rendering the first column comes first, so its
   * failure is the one reported.
   */
  function ColumnEquals(thisD: Dialect, a: ColumnValue, thatD: Dialect, b: ColumnValue): (r: Result<bool, Error>)
    ensures r.Success? <==> IsSupported(a.typ) && IsSupported(b.typ)
    ensures r.Failure? ==> r.error == (if IsSupported(a.typ) then ColumnSQL(thatD, b).error else ColumnSQL(thisD, a).error)
  {
    var x :- ColumnSQL(thisD, a);
    var y :- ColumnSQL(thatD, b);
    Success(x == y)
  }

  /** Every renderable column equals itself, and the comparison is symmetric. */
  lemma ColumnEqualsReflexiveSymmetric(d1: Dialect, a: ColumnValue, d2: Dialect, b: ColumnValue)
    requires IsSupported(a.typ) && IsSupported(b.typ)
    ensures ColumnEquals(d1, a, d1, a) == Success(true)
    ensures ColumnEquals(d1, a, d2, b) == ColumnEquals(d2, b, d1, a)
  {
  }

  /** Columns that compare equal in dialects quoting alike have the same name. */
  lemma EqualColumnsShareName(d1: Dialect, a: ColumnValue, d2: Dialect, b: ColumnValue)
    requires QuoteChar(d1) == QuoteChar(d2) && ColumnEquals(d1, a, d2, b) == Success(true)
    ensures a.name == b.name
  {
    SameDeclarationSameName(d1, a, d2, b);
  }

  /** `AlterAddSQL`: ADD and the column's declaration, whose name reads back after the keyword. */
  function AlterAddSQL(d: Dialect, c: ColumnValue): (r: Result<string, Error>)
    ensures r.Success? <==> IsSupported(c.typ)
    ensures r.Success? ==> StartsWith(r.value, "ADD ")
    ensures r.Success? ==> Text.ReadQuoted(QuoteChar(d), r.value[4..]).Some?
    ensures r.Success? ==> Text.ReadQuoted(QuoteChar(d), r.value[4..]).value.0 == c.name
  {
    var decl :- ColumnSQL(d, c);
    assert ("ADD " + decl)[4..] == decl;
    Success("ADD " + decl)
  }

  /**
   * `AlterDropSQL`: DROP and the quoted name only, so it never fails, whatever
   * the column's kind; the rest of the statement unquotes to the name.
   */
  function AlterDropSQL(d: Dialect, c: ColumnValue): (r: string)
    ensures StartsWith(r, "DROP ")
    ensures Text.Unquote(QuoteChar(d), r[5..]) == Some(c.name)
  {
    assert ("DROP " + Quote(d, c.name))[5..] == Quote(d, c.name);
    "DROP " + Quote(d, c.name)
  }

  /** `AlterModifySQL` as the source has it: MODIFY and the FROM column's own declaration; `to` is unused. */
  function AlterModifySQLAsWritten(fromD: Dialect, from: ColumnValue, to: ColumnValue): (r: Result<string, Error>)
    ensures r.Success? <==> IsSupported(from.typ)
    ensures r.Success? ==> StartsWith(r.value, "MODIFY ") && r.value[7..] == ColumnSQL(fromD, from).value
  {
    var decl :- ColumnSQL(fromD, from);
    assert ("MODIFY " + decl)[7..] == decl;
    Success("MODIFY " + decl)
  }

  /** `AlterModifySQL` as intended: MODIFY and the declaration the column is to have, in the TO version's dialect. */
  function AlterModifySQL(toD: Dialect, to: ColumnValue): (r: Result<string, Error>)
    ensures r.Success? <==> IsSupported(to.typ)
    ensures r.Success? ==> StartsWith(r.value, "MODIFY ") && r.value[7..] == ColumnSQL(toD, to).value
  {
    var decl :- ColumnSQL(toD, to);
    assert ("MODIFY " + decl)[7..] == decl;
    Success("MODIFY " + decl)
  }

  /**
   * Whenever the differ emits MODIFY (the two declarations differ), the
   * as-written statement restates the FROM declaration and so differs from the
   * statement that declares the target.
   */
  lemma ModifyAsWrittenRestatesSource(fromD: Dialect, from: ColumnValue, toD: Dialect, to: ColumnValue)
    requires ColumnEquals(fromD, from, toD, to) == Success(false)
    ensures AlterModifySQLAsWritten(fromD, from, to).value[7..] == ColumnSQL(fromD, from).value
    ensures AlterModifySQLAsWritten(fromD, from, to) != AlterModifySQL(toD, to)
  {
  }

  // ---------------------------------------------------------------------------
  // The diff
  // ---------------------------------------------------------------------------

  /** Whether a statement is one the first loop emits. */
  predicate IsDropOrModify(s: string)
  {
    StartsWith(s, "DROP ") || StartsWith(s, "MODIFY ")
  }

  /** A FROM column whose same-named TO column exists must render, and so must that TO column. */
  predicate Comparable(toT: TableValue, c: ColumnValue)
  {
    match GetColumn(toT.columns, c.name)
    case None => true
    case Some(tc) => IsSupported(c.typ) && IsSupported(tc.typ)
  }

  /**
   * The first loop's work for one FROM column: DROP when TO lacks it, and
   * MODIFY when it renders differently, with the statement `AlterModifySQL`
   * builds as written.
   */
  function FromStep(fromT: TableValue, toT: TableValue, c: ColumnValue): (r: Result<seq<string>, Error>)
    ensures r.Success? <==> Comparable(toT, c)
    ensures r.Success? ==> |r.value| <= 1 && forall k :: 0 <= k < |r.value| ==> IsDropOrModify(r.value[k])
  {
    match GetColumn(toT.columns, c.name)
    case None => Success([AlterDropSQL(fromT.dialect, c)])
    case Some(tc) =>
      var same :- ColumnEquals(fromT.dialect, c, toT.dialect, tc);
      if same then Success([])
      else
        Success([AlterModifySQLAsWritten(fromT.dialect, c, tc).value])
  }

  /** The first loop's step as intended: the same, except that MODIFY declares the TO column. */
  function FromStepIntended(fromT: TableValue, toT: TableValue, c: ColumnValue): (r: Result<seq<string>, Error>)
    ensures r.Success? <==> Comparable(toT, c)
    ensures r.Success? ==> |r.value| <= 1 && forall k :: 0 <= k < |r.value| ==> IsDropOrModify(r.value[k])
  {
    match GetColumn(toT.columns, c.name)
    case None => Success([AlterDropSQL(fromT.dialect, c)])
    case Some(tc) =>
      var same :- ColumnEquals(fromT.dialect, c, toT.dialect, tc);
      if same then Success([])
      else
        Success([AlterModifySQL(toT.dialect, tc).value])
  }

  /** A FROM column that TO has, whose declaration renders differently from that TO column's. */
  predicate Modified(fromT: TableValue, toT: TableValue, c: ColumnValue)
  {
    match GetColumn(toT.columns, c.name)
    case None => false
    case Some(tc) => ColumnEquals(fromT.dialect, c, toT.dialect, tc) == Success(false)
  }

  /**
   * The intended step and the step as written agree everywhere except on a
   * modified column, where the intended MODIFY declares the TO column and the
   * one as written restates the FROM column, so the two differ.
   */
  lemma FromStepIntendedDeclaresTarget(fromT: TableValue, toT: TableValue, c: ColumnValue)
    ensures !Modified(fromT, toT, c) ==> FromStepIntended(fromT, toT, c) == FromStep(fromT, toT, c)
    ensures Modified(fromT, toT, c) ==>
      var tc := GetColumn(toT.columns, c.name).value;
      FromStepIntended(fromT, toT, c) == Success(["MODIFY " + ColumnSQL(toT.dialect, tc).value]) &&
      FromStep(fromT, toT, c) == Success(["MODIFY " + ColumnSQL(fromT.dialect, c).value]) &&
      FromStepIntended(fromT, toT, c) != FromStep(fromT, toT, c)
  {
    if Modified(fromT, toT, c) {
      var tc := GetColumn(toT.columns, c.name).value;
      ModifyAsWrittenRestatesSource(fromT.dialect, c, toT.dialect, tc);
    }
  }

  /** A FROM column whose name TO lacks yields exactly its DROP statement. */
  lemma FromStepDropsMissing(fromT: TableValue, toT: TableValue, c: ColumnValue)
    requires c.name !in ColumnNames(toT.columns)
    ensures FromStep(fromT, toT, c) == Success([AlterDropSQL(fromT.dialect, c)])
  {
  }

  /**
   * A FROM column that TO still has yields nothing when the two declarations
   * render to the same text, and otherwise one MODIFY restating the FROM
   * declaration.
   */
  lemma FromStepComparesPresent(fromT: TableValue, toT: TableValue, c: ColumnValue)
    requires GetColumn(toT.columns, c.name).Some? && IsSupported(c.typ)
    requires IsSupported(GetColumn(toT.columns, c.name).value.typ)
    ensures var tc := GetColumn(toT.columns, c.name).value;
            FromStep(fromT, toT, c)
            == if ColumnSQL(fromT.dialect, c) == ColumnSQL(toT.dialect, tc) then Success([])
               else Success(["MODIFY " + ColumnSQL(fromT.dialect, c).value])
  {
  }

  /** Every column of `cols` is comparable with its TO counterpart. */
  predicate AllComparable(toT: TableValue, cols: seq<ColumnValue>)
  {
    cols == [] || (AllComparable(toT, cols[..|cols| - 1]) && Comparable(toT, cols[|cols| - 1]))
  }

  /** The first loop over `cols`, a prefix of the FROM columns, in order; the first failure aborts. */
  function FromOps(fromT: TableValue, toT: TableValue, cols: seq<ColumnValue>): (r: Result<seq<string>, Error>)
    ensures r.Success? <==> AllComparable(toT, cols)
  {
    if cols == [] then Success([])
    else
      var init := cols[..|cols| - 1];
      var front := FromOps(fromT, toT, init);
      var last := FromStep(fromT, toT, cols[|cols| - 1]);
      if front.Failure? then Failure(front.error)
      else if last.Failure? then Failure(last.error)
      else Success(front.value + last.value)
  }

  /** The first loop emits at most one statement per column, each a DROP or a MODIFY. */
  lemma {:induction false} FromOpsShape(fromT: TableValue, toT: TableValue, cols: seq<ColumnValue>)
    requires FromOps(fromT, toT, cols).Success?
    ensures var ops := FromOps(fromT, toT, cols).value;
            |ops| <= |cols| && forall k :: 0 <= k < |ops| ==> IsDropOrModify(ops[k])
  {
    if cols != [] {
      FromOpsShape(fromT, toT, cols[..|cols| - 1]);
    }
  }

  /** Every statement the step of a column of `cols` emits is among the first loop's statements. */
  lemma {:induction false} FromOpsIncludesStep(fromT: TableValue, toT: TableValue, cols: seq<ColumnValue>, i: nat)
    requires FromOps(fromT, toT, cols).Success? && i < |cols|
    ensures FromStep(fromT, toT, cols[i]).Success?
    ensures forall s :: s in FromStep(fromT, toT, cols[i]).value ==> s in FromOps(fromT, toT, cols).value
  {
    var init := cols[..|cols| - 1];
    var front := FromOps(fromT, toT, init);
    var last := FromStep(fromT, toT, cols[|cols| - 1]);
    assert front.Success? && last.Success? && FromOps(fromT, toT, cols).value == front.value + last.value;
    var step := FromStep(fromT, toT, cols[i]);
    if i < |init| {
      assert init[i] == cols[i];
      FromOpsIncludesStep(fromT, toT, init, i);
      forall s | s in step.value
        ensures s in front.value + last.value
      {
        assert s in front.value;
      }
    } else {
      assert step == last;
    }
  }

  /** The first loop drops every column of `cols` whose name the TO version lacks. */
  lemma FromOpsDropsMissing(fromT: TableValue, toT: TableValue, cols: seq<ColumnValue>, i: nat)
    requires FromOps(fromT, toT, cols).Success?
    requires i < |cols| && cols[i].name !in ColumnNames(toT.columns)
    ensures AlterDropSQL(fromT.dialect, cols[i]) in FromOps(fromT, toT, cols).value
  {
    FromOpsIncludesStep(fromT, toT, cols, i);
    FromStepDropsMissing(fromT, toT, cols[i]);
  }

  /** Once a prefix of the first loop fails, the whole loop fails with that error: later columns are never looked at. */
  lemma {:induction false} FromOpsStopsAtFailure(fromT: TableValue, toT: TableValue, cols: seq<ColumnValue>, i: nat)
    requires i <= |cols| && FromOps(fromT, toT, cols[..i]).Failure?
    ensures FromOps(fromT, toT, cols) == FromOps(fromT, toT, cols[..i])
    decreases |cols| - i
  {
    if i < |cols| {
      var init := cols[..|cols| - 1];
      assert init[..i] == cols[..i];
      FromOpsStopsAtFailure(fromT, toT, init, i);
    } else {
      assert cols[..i] == cols;
    }
  }

  /** The columns of `cols` whose names FROM lacks each render. */
  predicate AllAddable(fromT: TableValue, cols: seq<ColumnValue>)
  {
    cols == [] || (AllAddable(fromT, cols[..|cols| - 1]) && Addable(fromT, cols[|cols| - 1]))
  }

  /** A TO column FROM already has needs no ADD; one it lacks must render. */
  predicate Addable(fromT: TableValue, c: ColumnValue)
  {
    c.name in ColumnNames(fromT.columns) || IsSupported(c.typ)
  }

  /** The second loop's work for one TO column: ADD when FROM lacks it. */
  function ToStep(fromT: TableValue, toT: TableValue, c: ColumnValue): (r: Result<seq<string>, Error>)
    ensures r.Success? <==> Addable(fromT, c)
    ensures r.Success? && c.name in ColumnNames(fromT.columns) ==> r.value == []
    ensures r.Success? && c.name !in ColumnNames(fromT.columns) ==> r.value == [AlterAddSQL(toT.dialect, c).value]
  {
    if GetColumn(fromT.columns, c.name).None? then
      var a :- AlterAddSQL(toT.dialect, c);
      Success([a])
    else Success([])
  }

  /** The second loop over `cols`, a prefix of the TO columns, in order; the first failure aborts. */
  function ToOps(fromT: TableValue, toT: TableValue, cols: seq<ColumnValue>): (r: Result<seq<string>, Error>)
    ensures r.Success? <==> AllAddable(fromT, cols)
  {
    if cols == [] then Success([])
    else
      var init := cols[..|cols| - 1];
      var front := ToOps(fromT, toT, init);
      var last := ToStep(fromT, toT, cols[|cols| - 1]);
      if front.Failure? then Failure(front.error)
      else if last.Failure? then Failure(last.error)
      else Success(front.value + last.value)
  }

  /** The second loop emits at most one statement per column, each an ADD. */
  lemma {:induction false} ToOpsShape(fromT: TableValue, toT: TableValue, cols: seq<ColumnValue>)
    requires ToOps(fromT, toT, cols).Success?
    ensures var ops := ToOps(fromT, toT, cols).value;
            |ops| <= |cols| && forall k :: 0 <= k < |ops| ==> StartsWith(ops[k], "ADD ")
  {
    if cols != [] {
      ToOpsShape(fromT, toT, cols[..|cols| - 1]);
    }
  }

  /** The second loop adds every column of `cols` whose name the FROM version lacks. */
  lemma {:induction false} ToOpsAddsMissing(fromT: TableValue, toT: TableValue, cols: seq<ColumnValue>, i: nat)
    requires ToOps(fromT, toT, cols).Success?
    requires i < |cols| && cols[i].name !in ColumnNames(fromT.columns)
    ensures AlterAddSQL(toT.dialect, cols[i]).Success?
    ensures AlterAddSQL(toT.dialect, cols[i]).value in ToOps(fromT, toT, cols).value
  {
    var init := cols[..|cols| - 1];
    var front := ToOps(fromT, toT, init);
    var last := ToStep(fromT, toT, cols[|cols| - 1]);
    assert front.Success? && last.Success? && ToOps(fromT, toT, cols).value == front.value + last.value;
    if i < |init| {
      assert init[i] == cols[i];
      ToOpsAddsMissing(fromT, toT, init, i);
    } else {
      assert last.value == [AlterAddSQL(toT.dialect, cols[i]).value];
    }
  }

  /** Once a prefix of the second loop fails, the whole loop fails with that error. */
  lemma {:induction false} ToOpsStopsAtFailure(fromT: TableValue, toT: TableValue, cols: seq<ColumnValue>, i: nat)
    requires i <= |cols| && ToOps(fromT, toT, cols[..i]).Failure?
    ensures ToOps(fromT, toT, cols) == ToOps(fromT, toT, cols[..i])
    decreases |cols| - i
  {
    if i < |cols| {
      var init := cols[..|cols| - 1];
      assert init[..i] == cols[..i];
      ToOpsStopsAtFailure(fromT, toT, init, i);
    } else {
      assert cols[..i] == cols;
    }
  }

  /** One more FROM column: its step's statements follow the earlier ones, or its error replaces them. */
  lemma FromOpsSnoc(fromT: TableValue, toT: TableValue, cols: seq<ColumnValue>, i: nat, acc: seq<string>)
    requires i < |cols| && FromOps(fromT, toT, cols[..i]) == Success(acc)
    ensures FromOps(fromT, toT, cols[..i + 1]) ==
      (var s := FromStep(fromT, toT, cols[i]); if s.Failure? then Failure(s.error) else Success(acc + s.value))
  {
    assert cols[..i + 1][..i] == cols[..i];
  }

  /** One more TO column: its step's statements follow the earlier ones, or its error replaces them. */
  lemma ToOpsSnoc(fromT: TableValue, toT: TableValue, cols: seq<ColumnValue>, i: nat, acc: seq<string>)
    requires i < |cols| && ToOps(fromT, toT, cols[..i]) == Success(acc)
    ensures ToOps(fromT, toT, cols[..i + 1]) ==
      (var s := ToStep(fromT, toT, cols[i]); if s.Failure? then Failure(s.error) else Success(acc + s.value))
  {
    assert cols[..i + 1][..i] == cols[..i];
  }

  /** Both loops: DROP/MODIFY statements in FROM order, then ADD statements in TO order. */
  function DiffOps(fromT: TableValue, toT: TableValue): Result<seq<string>, Error>
  {
    var dropsAndModifies :- FromOps(fromT, toT, fromT.columns);
    var adds :- ToOps(fromT, toT, toT.columns);
    Success(dropsAndModifies + adds)
  }

  /** The header and the statements joined by `,\n`. */
  function AlterTableText(current: TableValue, ops: seq<string>): (r: string)
    ensures StartsWith(r, "ALTER TABLE ")
  {
    var q, j := Quote(current.dialect, current.name), Text.Join(ops, ",\n");
    Regroup("ALTER TABLE ", q, "\n");
    Regroup("ALTER TABLE ", q + "\n", j);
    assert ("ALTER TABLE " + (q + "\n" + j))[..12] == "ALTER TABLE ";
    "ALTER TABLE " + q + "\n" + j
  }

  /** `MigrateSQL`: resolve FROM, then TO, then diff them. */
  function MigrateSQL(current: TableValue, histories: seq<TableValue>, from: string, to: string): (r: Result<string, Error>)
    ensures LookupVersion(current, histories, from).None? ==> r == Failure(VersionNotFound(From, from))
    ensures LookupVersion(current, histories, from).Some? && LookupVersion(current, histories, to).None? ==>
      r == Failure(VersionNotFound(To, to))
    ensures r.Success? ==> StartsWith(r.value, "ALTER TABLE ")
  {
    match LookupVersion(current, histories, from)
    case None => Failure(VersionNotFound(From, from))
    case Some(fromT) =>
      match LookupVersion(current, histories, to)
      case None => Failure(VersionNotFound(To, to))
      case Some(toT) =>
        var ops :- DiffOps(fromT, toT);
        Success(AlterTableText(current, ops))
  }

  // ---------------------------------------------------------------------------
  // Properties of the diff
  // ---------------------------------------------------------------------------

  /**
   * Once both labels resolve, the migration is the FROM loop's statements
   * followed by the TO loop's under the header, and the first error of
   * either loop otherwise.
   */
  lemma MigrateSQLResolved(current: TableValue, histories: seq<TableValue>, from: string, to: string,
                           fromT: TableValue, toT: TableValue)
    requires LookupVersion(current, histories, from) == Some(fromT)
    requires LookupVersion(current, histories, to) == Some(toT)
    ensures var f := FromOps(fromT, toT, fromT.columns);
            var a := ToOps(fromT, toT, toT.columns);
            MigrateSQL(current, histories, from, to) ==
              if f.Failure? then Failure(f.error)
              else if a.Failure? then Failure(a.error)
              else Success(AlterTableText(current, f.value + a.value))
  {
  }

  /** A DROP or MODIFY statement is never an ADD statement. */
  lemma DropOrModifyIsNotAdd(s: string)
    requires IsDropOrModify(s)
    ensures !StartsWith(s, "ADD ")
  {
    if StartsWith(s, "DROP ") {
      assert s[0] == s[..5][0];
    } else {
      assert s[0] == s[..7][0];
    }
  }

  /**
   * The statements are the first loop's DROP/MODIFY statements followed by the
   * second loop's ADD statements: a statement is an ADD exactly when it comes
   * after all the first loop's, and there is at most one statement per FROM
   * column plus one per TO column.
   */
  lemma DropsAndModifiesPrecedeAdds(fromT: TableValue, toT: TableValue)
    requires DiffOps(fromT, toT).Success?
    ensures var ops := DiffOps(fromT, toT).value;
            var n := |FromOps(fromT, toT, fromT.columns).value|;
            |ops| <= |fromT.columns| + |toT.columns| &&
            forall k :: 0 <= k < |ops| ==> (StartsWith(ops[k], "ADD ") <==> n <= k)
  {
    var f := FromOps(fromT, toT, fromT.columns).value;
    var a := ToOps(fromT, toT, toT.columns).value;
    FromOpsShape(fromT, toT, fromT.columns);
    ToOpsShape(fromT, toT, toT.columns);
    AddsAfterDropsAndModifies(f, a);
  }

  lemma AddsAfterDropsAndModifies(f: seq<string>, a: seq<string>)
    requires forall k :: 0 <= k < |f| ==> IsDropOrModify(f[k])
    requires forall k :: 0 <= k < |a| ==> StartsWith(a[k], "ADD ")
    ensures forall k :: 0 <= k < |f + a| ==> (StartsWith((f + a)[k], "ADD ") <==> |f| <= k)
  {
    forall k | 0 <= k < |f + a|
      ensures StartsWith((f + a)[k], "ADD ") <==> |f| <= k
    {
      if k < |f| {
        DropOrModifyIsNotAdd(f[k]);
      }
    }
  }

  /** FROM columns whose names TO lacks are all dropped, and TO columns whose names FROM lacks are all added. */
  lemma MissingColumnsDroppedAndAdded(fromT: TableValue, toT: TableValue)
    requires DiffOps(fromT, toT).Success?
    ensures forall c :: c in fromT.columns && c.name !in ColumnNames(toT.columns) ==>
      AlterDropSQL(fromT.dialect, c) in DiffOps(fromT, toT).value
    ensures forall c :: c in toT.columns && c.name !in ColumnNames(fromT.columns) ==>
      AlterAddSQL(toT.dialect, c).Success? && AlterAddSQL(toT.dialect, c).value in DiffOps(fromT, toT).value
  {
    var f := FromOps(fromT, toT, fromT.columns).value;
    var a := ToOps(fromT, toT, toT.columns).value;
    assert DiffOps(fromT, toT).value == f + a;
    forall c | c in fromT.columns && c.name !in ColumnNames(toT.columns)
      ensures AlterDropSQL(fromT.dialect, c) in f + a
    {
      var i :| 0 <= i < |fromT.columns| && fromT.columns[i] == c;
      FromOpsDropsMissing(fromT, toT, fromT.columns, i);
    }
    forall c | c in toT.columns && c.name !in ColumnNames(fromT.columns)
      ensures AlterAddSQL(toT.dialect, c).Success? && AlterAddSQL(toT.dialect, c).value in f + a
    {
      var i :| 0 <= i < |toT.columns| && toT.columns[i] == c;
      ToOpsAddsMissing(fromT, toT, toT.columns, i);
    }
  }

  /** DROP, MODIFY and ADD statements are told apart by their first word. */
  lemma StatementKindsDisjoint(s: string)
    ensures !(StartsWith(s, "DROP ") && StartsWith(s, "MODIFY "))
    ensures !(StartsWith(s, "DROP ") && StartsWith(s, "ADD "))
    ensures !(StartsWith(s, "MODIFY ") && StartsWith(s, "ADD "))
  {
    if StartsWith(s, "DROP ") {
      assert s[0] == s[..5][0] == 'D';
    }
    if StartsWith(s, "MODIFY ") {
      assert s[0] == s[..7][0] == 'M';
    }
  }

  /** What one FROM step emits: the DROP of a column TO lacks, or the as-written MODIFY of a modified column. */
  lemma FromStepStatement(fromT: TableValue, toT: TableValue, c: ColumnValue, s: string)
    requires FromStep(fromT, toT, c).Success? && s in FromStep(fromT, toT, c).value
    ensures c.name !in ColumnNames(toT.columns) ==> s == AlterDropSQL(fromT.dialect, c)
    ensures c.name in ColumnNames(toT.columns) ==>
      Modified(fromT, toT, c) && s == "MODIFY " + ColumnSQL(fromT.dialect, c).value && StartsWith(s, "MODIFY ")
  {
    if c.name in ColumnNames(toT.columns) {
      assert ("MODIFY " + ColumnSQL(fromT.dialect, c).value)[..7] == "MODIFY ";
    }
  }

  /** Every statement of the first loop over `cols` is the step of one of its columns. */
  lemma {:induction false} FromOpsFromSteps(fromT: TableValue, toT: TableValue, cols: seq<ColumnValue>, s: string)
    requires FromOps(fromT, toT, cols).Success? && s in FromOps(fromT, toT, cols).value
    ensures exists c :: c in cols && FromStep(fromT, toT, c).Success? && s in FromStep(fromT, toT, c).value
  {
    assert cols != [];
    var init := cols[..|cols| - 1];
    var front := FromOps(fromT, toT, init);
    var last := FromStep(fromT, toT, cols[|cols| - 1]);
    assert front.Success? && last.Success? && FromOps(fromT, toT, cols).value == front.value + last.value;
    if s in front.value {
      FromOpsFromSteps(fromT, toT, init, s);
      var c :| c in init && FromStep(fromT, toT, c).Success? && s in FromStep(fromT, toT, c).value;
      assert c in cols;
    } else {
      assert cols[|cols| - 1] in cols;
    }
  }

  /** Every statement of the second loop over `cols` is the step of one of its columns. */
  lemma {:induction false} ToOpsFromSteps(fromT: TableValue, toT: TableValue, cols: seq<ColumnValue>, s: string)
    requires ToOps(fromT, toT, cols).Success? && s in ToOps(fromT, toT, cols).value
    ensures exists c :: c in cols && ToStep(fromT, toT, c).Success? && s in ToStep(fromT, toT, c).value
  {
    assert cols != [];
    var init := cols[..|cols| - 1];
    var front := ToOps(fromT, toT, init);
    var last := ToStep(fromT, toT, cols[|cols| - 1]);
    assert front.Success? && last.Success? && ToOps(fromT, toT, cols).value == front.value + last.value;
    if s in front.value {
      ToOpsFromSteps(fromT, toT, init, s);
      var c :| c in init && ToStep(fromT, toT, c).Success? && s in ToStep(fromT, toT, c).value;
      assert c in cols;
    } else {
      assert cols[|cols| - 1] in cols;
    }
  }

  /**
   * The converse of `MissingColumnsDroppedAndAdded` and `ChangedColumnsModified`:
   * every DROP names a FROM column TO lacks, every MODIFY restates a FROM
   * column whose TO counterpart renders differently, and every ADD declares a
   * TO column FROM lacks.
   */
  lemma DiffOpsExplained(fromT: TableValue, toT: TableValue)
    requires DiffOps(fromT, toT).Success?
    ensures forall s :: s in DiffOps(fromT, toT).value && StartsWith(s, "DROP ") ==>
      exists c :: c in fromT.columns && c.name !in ColumnNames(toT.columns) && s == AlterDropSQL(fromT.dialect, c)
    ensures forall s :: s in DiffOps(fromT, toT).value && StartsWith(s, "MODIFY ") ==>
      exists c :: c in fromT.columns && Modified(fromT, toT, c) && s == "MODIFY " + ColumnSQL(fromT.dialect, c).value
    ensures forall s :: s in DiffOps(fromT, toT).value && StartsWith(s, "ADD ") ==>
      exists c :: c in toT.columns && c.name !in ColumnNames(fromT.columns) && AlterAddSQL(toT.dialect, c) == Success(s)
  {
    var f := FromOps(fromT, toT, fromT.columns).value;
    var a := ToOps(fromT, toT, toT.columns).value;
    assert DiffOps(fromT, toT).value == f + a;
    forall s | s in f + a
      ensures StartsWith(s, "DROP ") ==>
        exists c :: c in fromT.columns && c.name !in ColumnNames(toT.columns) && s == AlterDropSQL(fromT.dialect, c)
      ensures StartsWith(s, "MODIFY ") ==>
        exists c :: c in fromT.columns && Modified(fromT, toT, c) && s == "MODIFY " + ColumnSQL(fromT.dialect, c).value
      ensures StartsWith(s, "ADD ") ==>
        exists c :: c in toT.columns && c.name !in ColumnNames(fromT.columns) && AlterAddSQL(toT.dialect, c) == Success(s)
    {
      StatementKindsDisjoint(s);
      if s in f {
        FromOpsFromSteps(fromT, toT, fromT.columns, s);
        var c :| c in fromT.columns && FromStep(fromT, toT, c).Success? && s in FromStep(fromT, toT, c).value;
        FromStepStatement(fromT, toT, c, s);
      } else {
        ToOpsFromSteps(fromT, toT, toT.columns, s);
        var c :| c in toT.columns && ToStep(fromT, toT, c).Success? && s in ToStep(fromT, toT, c).value;
        assert s == AlterAddSQL(toT.dialect, c).value;
      }
    }
  }

  /** The first loop emits the as-written MODIFY of every column of `cols` that TO declares differently. */
  lemma FromOpsModifiesChanged(fromT: TableValue, toT: TableValue, cols: seq<ColumnValue>, i: nat)
    requires FromOps(fromT, toT, cols).Success?
    requires i < |cols| && Modified(fromT, toT, cols[i])
    ensures "MODIFY " + ColumnSQL(fromT.dialect, cols[i]).value in FromOps(fromT, toT, cols).value
  {
    FromOpsIncludesStep(fromT, toT, cols, i);
    FromStepModifies(fromT, toT, cols[i]);
  }

  /** A modified column's step is exactly its as-written MODIFY. */
  lemma FromStepModifies(fromT: TableValue, toT: TableValue, c: ColumnValue)
    requires Modified(fromT, toT, c)
    ensures FromStep(fromT, toT, c) == Success(["MODIFY " + ColumnSQL(fromT.dialect, c).value])
  {
    var tc := GetColumn(toT.columns, c.name).value;
    assert ColumnEquals(fromT.dialect, c, toT.dialect, tc) == Success(false);
    assert ColumnSQL(fromT.dialect, c) != ColumnSQL(toT.dialect, tc);
    FromStepComparesPresent(fromT, toT, c);
  }

  /** Every FROM column whose TO counterpart renders differently gets a MODIFY restating its own declaration. */
  lemma ChangedColumnsModified(fromT: TableValue, toT: TableValue)
    requires DiffOps(fromT, toT).Success?
    ensures forall c :: c in fromT.columns && Modified(fromT, toT, c) ==>
      "MODIFY " + ColumnSQL(fromT.dialect, c).value in DiffOps(fromT, toT).value
  {
    var f := FromOps(fromT, toT, fromT.columns).value;
    var a := ToOps(fromT, toT, toT.columns).value;
    assert DiffOps(fromT, toT).value == f + a;
    forall c | c in fromT.columns && Modified(fromT, toT, c)
      ensures "MODIFY " + ColumnSQL(fromT.dialect, c).value in f + a
    {
      var i :| 0 <= i < |fromT.columns| && fromT.columns[i] == c;
      FromOpsModifiesChanged(fromT, toT, fromT.columns, i);
    }
  }

  /**
   * A version diffed against itself emits no DROP and no ADD: each statement
   * is a MODIFY of a column whose name a differently rendered column shares,
   * the one `GetColumn` finds.
   */
  lemma SelfDiffOnlyModifies(t: TableValue)
    requires DiffOps(t, t).Success?
    ensures forall s :: s in DiffOps(t, t).value ==> SelfModify(t, s)
  {
    var f := FromOps(t, t, t.columns).value;
    PresentToOpsEmpty(t, t.columns);
    assert DiffOps(t, t).value == f + [] == f;
    forall s | s in f
      ensures SelfModify(t, s)
    {
      FromOpsFromSteps(t, t, t.columns, s);
      var c :| c in t.columns && FromStep(t, t, c).Success? && s in FromStep(t, t, c).value;
      SelfStepModifies(t, c, s);
    }
  }

  /** A MODIFY restating a column of `t` whose name the column `GetColumn` finds shares, rendered differently. */
  predicate SelfModify(t: TableValue, s: string)
  {
    StartsWith(s, "MODIFY ") &&
    exists c :: c in t.columns && IsSupported(c.typ) && GetColumn(t.columns, c.name).Some? &&
      ColumnSQL(t.dialect, GetColumn(t.columns, c.name).value) != ColumnSQL(t.dialect, c) &&
      s == "MODIFY " + ColumnSQL(t.dialect, c).value
  }

  lemma SelfStepModifies(t: TableValue, c: ColumnValue, s: string)
    requires c in t.columns && FromStep(t, t, c).Success? && s in FromStep(t, t, c).value
    ensures SelfModify(t, s)
  {
    var i :| 0 <= i < |t.columns| && t.columns[i] == c;
    assert ColumnNames(t.columns)[i] == c.name;
    FromStepStatement(t, t, c, s);
    var tc := GetColumn(t.columns, c.name).value;
    assert ColumnEquals(t.dialect, c, t.dialect, tc) == Success(false);
  }

  /** Over a prefix of columns whose TO counterparts render the same, the first loop emits nothing. */
  lemma {:induction false} UnchangedFromOpsEmpty(t: TableValue, cols: seq<ColumnValue>)
    requires UniqueNames(ColumnNames(t.columns)) && AllSupported(t.columns)
    requires forall c :: c in cols ==> c in t.columns
    ensures FromOps(t, t, cols) == Success([])
  {
    if cols != [] {
      var init := cols[..|cols| - 1];
      var c := cols[|cols| - 1];
      assert forall x :: x in init ==> x in cols;
      UnchangedFromOpsEmpty(t, init);
      assert c in t.columns;
      var i :| 0 <= i < |t.columns| && t.columns[i] == c;
      LastNamedUnique(ColumnNames(t.columns), i);
      assert GetColumn(t.columns, c.name) == Some(c);
      assert ColumnEquals(t.dialect, c, t.dialect, c) == Success(true);
      assert FromStep(t, t, c) == Success([]);
      assert FromOps(t, t, init) == Success([]);
      var none: seq<string> := [];
      assert FromOps(t, t, cols) == Success(none + none);
      assert none + none == none;
    }
  }

  /** Over a prefix of columns that all have a FROM counterpart, the second loop emits nothing. */
  lemma {:induction false} PresentToOpsEmpty(t: TableValue, cols: seq<ColumnValue>)
    requires forall c :: c in cols ==> c in t.columns
    ensures ToOps(t, t, cols) == Success([])
  {
    if cols != [] {
      var init := cols[..|cols| - 1];
      var c := cols[|cols| - 1];
      assert forall x :: x in init ==> x in cols;
      PresentToOpsEmpty(t, init);
      assert c in t.columns;
      var i :| 0 <= i < |t.columns| && t.columns[i] == c;
      assert ColumnNames(t.columns)[i] == c.name;
      assert ToStep(t, t, c) == Success([]);
      assert ToOps(t, t, init) == Success([]);
      var none: seq<string> := [];
      assert ToOps(t, t, cols) == Success(none + none);
      assert none + none == none;
    }
  }

  /** Diffing a version with unique column names and renderable kinds against itself emits nothing. */
  lemma SelfDiffEmpty(t: TableValue)
    requires UniqueNames(ColumnNames(t.columns)) && AllSupported(t.columns)
    ensures DiffOps(t, t) == Success([])
  {
    UnchangedFromOpsEmpty(t, t.columns);
    PresentToOpsEmpty(t, t.columns);
    var none: seq<string> := [];
    assert DiffOps(t, t) == Success(none + none);
    assert none + none == none;
  }
}
