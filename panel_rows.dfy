/**
 * The entries returned by the extraction service and the object built for
 * each table row: `odd[i]` and `even[i]` paired by index, with `|| {}` for a
 * missing or falsy element and `|| ""` for a missing or falsy field.
 */
module PanelRows {
  import opened Wrappers

  /** One panel entry; `None` stands for an absent field. */
  datatype Entry = Entry(panelNo: Option<string>, panelName: Option<string>)

  /** An element of `odd` or `even`; `None` stands for a falsy element such as `null`. */
  type Item = Option<Entry>

  /** What `JSON.parse` yields, destructured as `{ odd, even }`; `None` is an absent key. */
  datatype Extraction = Extraction(odd: Option<seq<Item>>, even: Option<seq<Item>>)

  /** The keys of the four table columns. */
  const OddNoKey := "oddNo"
  const OddNameKey := "oddName"
  const EvenNoKey := "evenNo"
  const EvenNameKey := "evenName"

  /** The `= []` default of the destructuring. */
  function ListOrEmpty(list: Option<seq<Item>>): seq<Item>
  {
    if list.Some? then list.value else []
  }

  /** `list[i] || {}`: an index out of range and a falsy element both give the empty entry. */
  function EntryAt(list: seq<Item>, i: nat): (e: Entry)
    ensures i >= |list| ==> e == Entry(None, None)
    ensures i < |list| && list[i].Some? ==> e == list[i].value
    ensures i < |list| && list[i].None? ==> e == Entry(None, None)
  {
    if i < |list| && list[i].Some? then list[i].value else Entry(None, None)
  }

  /**
   * `field || ""` on a string field: the empty string is falsy, so this is the
   * field's text when it is present and `""` when it is absent.
   */
  function Cell(field: Option<string>): (r: string)
    ensures r == if field.Some? then field.value else ""
  {
    if field.Some? && field.value != "" then field.value else ""
  }

  /** `Math.max(odd.length, even.length)`. */
  function MaxLen(odd: seq<Item>, even: seq<Item>): (n: nat)
    ensures |odd| <= n && |even| <= n
    ensures n == |odd| || n == |even|
  {
    if |odd| < |even| then |even| else |odd|
  }

  /** The panel number of `list[i]`, or `""` when there is no such element or field. */
  ghost function NoOf(list: seq<Item>, i: nat): string
  {
    if i < |list| && list[i].Some? && list[i].value.panelNo.Some? then list[i].value.panelNo.value else ""
  }

  /** The panel name of `list[i]`, or `""` when there is no such element or field. */
  ghost function NameOf(list: seq<Item>, i: nat): string
  {
    if i < |list| && list[i].Some? && list[i].value.panelName.Some? then list[i].value.panelName.value else ""
  }

  /** The object given to `addRow` for the `i`-th pair (app.js:61-68). */
  function RowObject(odd: seq<Item>, even: seq<Item>, i: nat): (m: map<string, string>)
    ensures m.Keys == {OddNoKey, OddNameKey, EvenNoKey, EvenNameKey}
    ensures m[OddNoKey] == NoOf(odd, i) && m[OddNameKey] == NameOf(odd, i)
    ensures m[EvenNoKey] == NoOf(even, i) && m[EvenNameKey] == NameOf(even, i)
  {
    var oddEntry := EntryAt(odd, i);
    var evenEntry := EntryAt(even, i);
    map[OddNoKey := Cell(oddEntry.panelNo), OddNameKey := Cell(oddEntry.panelName),
        EvenNoKey := Cell(evenEntry.panelNo), EvenNameKey := Cell(evenEntry.panelName)]
  }
}
