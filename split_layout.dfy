/**
 * `getItems`, identical in both editor components: the panes handed to the
 * split widget, with sizes in percent. The sizes use JavaScript `||`
 * fall-backs, so `0` and a `NaN` difference count as absent.
 */
module SplitLayout {
  import opened Js

  datatype Pane = Pane(name: string, size: int)

  /** The `initialSize` input; of its fields only `p`, the editor's share, is read. */
  datatype InitialSize = InitialSize(p: Option<int>)

  /** `x || fallback` on a number that may be undefined (or `NaN`): `0` is falsy too. */
  function NumberOr(x: Option<int>, fallback: int): int
  {
    if x.Some? && x.value != 0 then x.value else fallback
  }

  /** `100 - p`, which is `NaN` when `p` is undefined. */
  function Complement(p: Option<int>): Option<int>
  {
    match p
    case None => None
    case Some(v) => Some(100 - v)
  }

  function SplitItems(showResult: bool, initialSize: Option<InitialSize>): seq<Pane>
  {
    if showResult then
      [ Pane("editor", if initialSize.Some? then NumberOr(initialSize.value.p, 50) else 50),
        Pane("result", if initialSize.Some? then NumberOr(Complement(initialSize.value.p), 50) else 50) ]
    else
      [Pane("editor", 100)]
  }

  /** The sum of the pane sizes. */
  function TotalSize(panes: seq<Pane>): int
  {
    if panes == [] then 0 else panes[0].size + TotalSize(panes[1..])
  }

  /** Without the result pane the editor takes everything. */
  lemma HiddenResultIsWholeEditor(initialSize: Option<InitialSize>)
    ensures SplitItems(false, initialSize) == [Pane("editor", 100)]
  {
  }

  /** With the result pane the editor comes first and the result second. */
  lemma PaneOrder(initialSize: Option<InitialSize>)
    ensures |SplitItems(true, initialSize)| == 2
    ensures SplitItems(true, initialSize)[0].name == "editor" && SplitItems(true, initialSize)[1].name == "result"
  {
  }

  /** No `initialSize`, or one without `p`, gives two halves. */
  lemma DefaultHalves(initialSize: Option<InitialSize>)
    requires initialSize.None? || initialSize.value.p.None?
    ensures SplitItems(true, initialSize) == [Pane("editor", 50), Pane("result", 50)]
  {
  }

  /** A share `p` strictly between 0 and 100 gives `p` and `100 - p`. */
  lemma ShareSplits(p: int)
    requires 0 < p < 100
    ensures SplitItems(true, Some(InitialSize(Some(p)))) == [Pane("editor", p), Pane("result", 100 - p)]
  {
  }

  /**
   * The two sizes add up to 100 exactly when `p` is neither 0 nor 100:
   * `p = 0` gives 50 and 100, `p = 100` gives 100 and 50.
   */
  lemma TotalIsHundredIff(initialSize: Option<InitialSize>)
    ensures TotalSize(SplitItems(true, initialSize)) == 100
        <==> !(initialSize.Some? && initialSize.value.p in {Some(0), Some(100)})
  {
    var items := SplitItems(true, initialSize);
    assert items[1..][1..] == [];
    assert TotalSize(items[1..][1..]) == 0;
    assert TotalSize(items[1..]) == items[1].size;
  }
}
