/**
 * The editor side of a component (src/component-vscode.ts): which column each member type opens
 * in, and what `open` asks the editor to do. The editor calls are returned as `Action` values.
 */
module EditorColumns {
  import opened Wrappers
  import opened Text
  import opened DocTypes
  import Config
  import Components

  /** `{ script: 1, style: 2, template: 3 }`. */
  const DEFAULT_COLUMNS: map<string, int> := map["script" := 1, "style" := 2, "template" := 3]

  /** The column record after assigning `order[item] = index + 1` for every configured item, in order. */
  function ColumnsAfter(configOrder: seq<string>): (r: map<string, int>)
    ensures forall k :: k in r <==> k in DEFAULT_COLUMNS || k in configOrder
  {
    if |configOrder| == 0 then DEFAULT_COLUMNS
    else
      var init := configOrder[..|configOrder| - 1];
      assert configOrder == init + [configOrder[|configOrder| - 1]];
      ColumnsAfter(init)[configOrder[|configOrder| - 1] := |configOrder|]
  }

  /** `getColumnsOrder()` for the completed order `configOrder` (`config.columnsOrder`). */
  method GetColumnsOrder(configOrder: seq<string>) returns (order: map<string, int>)
    ensures order == ColumnsAfter(configOrder)
    ensures forall t :: Name(t) in order
  {
    order := DEFAULT_COLUMNS;
    for i := 0 to |configOrder|
      invariant order == ColumnsAfter(configOrder[..i])
    {
      assert configOrder[..i + 1][..i] == configOrder[..i];
      order := order[configOrder[i] := i + 1];
    }
    assert configOrder[..|configOrder|] == configOrder;
    assert forall t :: Name(t) in DEFAULT_COLUMNS;
  }

  /** An item keeps the column of its last occurrence: later duplicates win. */
  lemma {:induction false} ColumnOfLastOccurrence(configOrder: seq<string>, i: nat)
    requires i < |configOrder|
    requires forall j :: i < j < |configOrder| ==> configOrder[j] != configOrder[i]
    ensures ColumnsAfter(configOrder)[configOrder[i]] == i + 1
  {
    var n := |configOrder|;
    var init := configOrder[..n - 1];
    if i < n - 1 {
      assert init[i] == configOrder[i];
      ColumnOfLastOccurrence(init, i);
    }
  }

  /** A type that is not configured keeps its default column. */
  lemma {:induction false} ColumnOfUnconfigured(configOrder: seq<string>, t: DocType)
    requires Name(t) !in configOrder
    ensures ColumnsAfter(configOrder)[Name(t)] == DEFAULT_COLUMNS[Name(t)]
  {
    if |configOrder| > 0 {
      var init := configOrder[..|configOrder| - 1];
      assert forall x :: x in init ==> x in configOrder;
      ColumnOfUnconfigured(init, t);
    }
  }

  /**
   * With a configured order free of duplicates, the completed `columnsOrder` puts the three types in
   * three different columns, each its 1-based position in that order.
   */
  lemma TypesGetDistinctColumns(configured: seq<string>, t: DocType, u: DocType)
    requires Config.Distinct(configured)
    requires t != u
    ensures var order := configured + Config.Missing(Config.DEF_COL_ORDER, configured);
      var cols := ColumnsAfter(order);
      Name(t) in cols && Name(u) in cols && cols[Name(t)] != cols[Name(u)]
  {
    Config.CompletedOrderDistinct(configured);
    assert Name(t) in Config.DEF_COL_ORDER && Name(u) in Config.DEF_COL_ORDER;
    DistinctOrderColumns(configured + Config.Missing(Config.DEF_COL_ORDER, configured), Name(t), Name(u));
  }

  /** In an order without duplicates, two different items get two different columns. */
  lemma DistinctOrderColumns(order: seq<string>, x: string, y: string)
    requires Config.Distinct(order)
    requires x in order && y in order && x != y
    ensures var cols := ColumnsAfter(order);
      x in cols && y in cols && cols[x] != cols[y]
  {
    var i :| 0 <= i < |order| && order[i] == x;
    var j :| 0 <= j < |order| && order[j] == y;
    ColumnOfLastOccurrence(order, i);
    ColumnOfLastOccurrence(order, j);
  }

  // ---------------------------------------------------------------------------------------------
  // open and openFileInColumn

  datatype QuickPickItem = QuickPickItem(labelText: string, description: string, picked: bool)

  /** What `open` asks of the editor. */
  datatype Action =
    | ShowTextDocument(uri: string, viewColumn: int, preserveFocus: bool)
    | ShowQuickPick(items: seq<QuickPickItem>)

  /** `f.split(/\\\//g).pop() || ''`: the text after the last backslash-slash pair. */
  function Label(f: string): string {
    var pieces := SplitBy(f, "\\/");
    if |pieces| == 0 then "" else pieces[|pieces| - 1]
  }

  /** The separator is the two-character pair, so a path with no backslash before a slash is its own label. */
  lemma LabelOfPlainPath(f: string)
    requires !Contains(f, "\\/")
    ensures Label(f) == f
  {
    assert IndexOf(f, "\\/").None?;
  }

  /** The quick-pick entries: label, the full path as description, only the first one picked. */
  function QuickPickItems(files: seq<string>): (r: seq<QuickPickItem>)
    ensures |r| == |files|
    ensures forall i :: 0 <= i < |r| ==> r[i].description == files[i] && r[i].labelText == Label(files[i])
    ensures forall i :: 0 <= i < |r| ==> (r[i].picked <==> i == 0)
  {
    seq(|files|, i requires 0 <= i < |files| => QuickPickItem(Label(files[i]), files[i], i == 0))
  }

  /** `openFileInColumn(files, column)`. */
  function OpenFileInColumn(files: seq<string>, column: int): (r: Action)
    ensures |files| == 1 ==> r == ShowTextDocument("file://" + files[0], column, true)
    ensures |files| != 1 ==> r.ShowQuickPick? && |r.items| == |files|
    ensures |files| != 1 ==> forall i :: 0 <= i < |files| ==> r.items[i].description == files[i]
  {
    if |files| == 1 then ShowTextDocument("file://" + files[0], column, true)
    else ShowQuickPick(QuickPickItems(files))
  }

  /** `open` issues a call for a list exactly when it is present and non-empty. */
  predicate Opens(list: Option<seq<string>>) {
    list.Some? && |list.value| > 0
  }

  /** The position of a type in the order of the calls of `open`: script, template, style. */
  function CallRank(t: DocType): nat {
    match t
    case Script => 0
    case Template => 1
    case Style => 2
  }

  /** The types `open` issues a call for, in the order of its calls. */
  function OpenedTypes(files: Components.ComponentFiles): (r: seq<DocType>)
    ensures forall t :: t in r <==> Opens(files.Get(t))
    ensures forall i, j :: 0 <= i < j < |r| ==> CallRank(r[i]) < CallRank(r[j])
  {
    assert files.Get(Script) == files.script && files.Get(Style) == files.style && files.Get(Template) == files.template;
    (if Opens(files.script) then [Script] else [])
    + (if Opens(files.template) then [Template] else [])
    + (if Opens(files.style) then [Style] else [])
  }

  /** The call `open` makes for one type, if its list is present and non-empty. */
  function OpenOne(files: Option<seq<string>>, column: int): (r: seq<Action>)
    ensures |r| <= 1
    ensures |r| == 1 <==> Opens(files)
  {
    if Opens(files) then [OpenFileInColumn(files.value, column)] else []
  }

  /** `open()` on a filled record: one call per type with a non-empty list, script, then template, then style, each in that type's column. */
  function OpenActions(files: Components.ComponentFiles, order: map<string, int>): (r: seq<Action>)
    requires forall t :: Name(t) in order
    ensures |r| == |OpenedTypes(files)|
    ensures forall i :: 0 <= i < |r| ==>
              var t := OpenedTypes(files)[i];
              Opens(files.Get(t)) && r[i] == OpenFileInColumn(files.Get(t).value, order[Name(t)])
    ensures r == [] <==> forall t :: !Opens(files.Get(t))
  {
    var r := OpenOne(files.script, order[Name(Script)]) + OpenOne(files.template, order[Name(Template)]) + OpenOne(files.style, order[Name(Style)]);
    OpenActionsFollowTypes(files, order);
    var types := OpenedTypes(files);
    assert |types| > 0 ==> types[0] in types;
    r
  }

  /** The call for each type in `types`, in that order. */
  function CallsFor(types: seq<DocType>, files: Components.ComponentFiles, order: map<string, int>): seq<Action>
    requires forall t :: Name(t) in order
    requires forall t :: t in types ==> Opens(files.Get(t))
  {
    assert forall i :: 0 <= i < |types| ==> types[i] in types;
    seq(|types|, i requires 0 <= i < |types| && Opens(files.Get(types[i])) => OpenFileInColumn(files.Get(types[i]).value, order[Name(types[i])]))
  }

  /** The call for one type is the calls for that type if it opens, and none otherwise. */
  lemma OpenOneIsCallsFor(files: Components.ComponentFiles, order: map<string, int>, t: DocType)
    requires forall t :: Name(t) in order
    ensures var ts := if Opens(files.Get(t)) then [t] else [];
      OpenOne(files.Get(t), order[Name(t)]) == CallsFor(ts, files, order)
  {
  }

  lemma CallsForConcat(a: seq<DocType>, b: seq<DocType>, files: Components.ComponentFiles, order: map<string, int>)
    requires forall t :: Name(t) in order
    requires forall t :: t in a + b ==> Opens(files.Get(t))
    ensures CallsFor(a + b, files, order) == CallsFor(a, files, order) + CallsFor(b, files, order)
  {
    assert forall t :: t in a ==> t in a + b;
    assert forall t :: t in b ==> t in a + b;
  }

  /** The three calls of `open` are the calls for the opened types, in call order. */
  lemma OpenActionsFollowTypes(files: Components.ComponentFiles, order: map<string, int>)
    requires forall t :: Name(t) in order
    ensures OpenOne(files.script, order[Name(Script)]) + OpenOne(files.template, order[Name(Template)]) + OpenOne(files.style, order[Name(Style)])
      == CallsFor(OpenedTypes(files), files, order)
  {
    assert files.Get(Script) == files.script && files.Get(Style) == files.style && files.Get(Template) == files.template;
    var a := if Opens(files.script) then [Script] else [];
    var b := if Opens(files.template) then [Template] else [];
    var c := if Opens(files.style) then [Style] else [];
    assert OpenedTypes(files) == a + b + c;
    OpenOneIsCallsFor(files, order, Script);
    OpenOneIsCallsFor(files, order, Template);
    OpenOneIsCallsFor(files, order, Style);
    CallsForConcat(a, b, files, order);
    CallsForConcat(a + b, c, files, order);
  }

  /** The column `open` uses for a type under the configured order: its entry in the column record of the completed order. */
  function ColumnOf(configured: seq<string>, t: DocType): int {
    var order := ColumnsAfter(configured + Config.Missing(Config.DEF_COL_ORDER, configured));
    assert Name(t) in DEFAULT_COLUMNS;
    order[Name(t)]
  }

  /** The calls of `open()` for a filled record and the configured column order (before completion). */
  function OpenFor(files: Components.ComponentFiles, configured: seq<string>): (r: seq<Action>)
    ensures |r| == |OpenedTypes(files)| <= 3
    ensures forall i :: 0 <= i < |r| ==>
              var t := OpenedTypes(files)[i];
              Opens(files.Get(t)) && r[i] == OpenFileInColumn(files.Get(t).value, ColumnOf(configured, t))
    ensures r == [] <==> forall t :: !Opens(files.Get(t))
  {
    var order := ColumnsAfter(configured + Config.Missing(Config.DEF_COL_ORDER, configured));
    assert forall t :: Name(t) in DEFAULT_COLUMNS;
    OpenActions(files, order)
  }

  /**
   * `VscodeComponent.open()`: fill the record (memoised, in place), work out the columns, issue the
   * calls. When the sibling listing throws, no call is issued and the record stays uncompleted.
   */
  method Open(c: Components.Component, configured: seq<string>) returns (actions: Result<seq<Action>, Error>)
    modifies c
    ensures c.componentFiles == Components.Filled(c.uri, c.Classes(), c.io.readdir(Components.ComponentDir(c.uri)), c.exts, old(c.componentFiles))
    ensures actions.Success? <==> c.componentFiles.completed
    ensures actions.Success? ==> actions.value == OpenFor(c.componentFiles, configured)
    ensures actions.Failure? ==> actions.error == NotADirectory(Components.ComponentDir(c.uri))
  {
    var files := c.GetComponentFiles();
    if files.Failure? {
      return Failure(files.error);
    }
    var configOrder := Config.ColumnsOrder(configured);
    var order := GetColumnsOrder(configOrder);
    return Success(OpenActions(files.value, order));
  }

  /** For a script anchor, the first call of `open` shows the anchor itself in the script column without taking the focus. */
  lemma ScriptAnchorShownFirst(uri: string, isType: ByType<bool>, ranked: ByType<seq<string>>, f: Components.ComponentFiles, order: map<string, int>)
    requires isType.script && !isType.template && !isType.style
    requires forall t :: Name(t) in order
    ensures var actions := OpenActions(Components.Completed(uri, isType, ranked, f), order);
      |actions| >= 1 && actions[0] == ShowTextDocument("file://" + uri, order[Name(Script)], true)
  {
  }
}
