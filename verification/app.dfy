/** The dataset gate of the application shell (src/App.jsx): a freshly read dataset is
    accepted or rejected with a message, and the accepted one is shown as a five-row preview
    next to the chart builder. The one-second `setTimeout` is not modelled: `HandleDataLoaded`
    goes from the state before the load to the state after its callback has run. */
module App {
  import opened Wrappers
  import opened JsArray
  import opened Records

  const EmptyMessage: string := "The file appears to be empty"
  const ColumnsMessage: string := "The file needs at least 2 columns for analysis"

  /** `tableData`, `isLoading` and `error`; `None` is `null`. */
  datatype AppState = AppState(tableData: seq<Row>, isLoading: bool, error: Option<string>)

  const InitialState: AppState := AppState([], false, None)

  /** What `handleDataLoaded` sets before it schedules the callback. */
  function BeginLoad(s: AppState): (r: AppState)
    ensures r.isLoading && r.error == None && r.tableData == s.tableData
  {
    s.(isLoading := true, error := None)
  }

  /** The body of the scheduled callback. */
  function FinishLoad(s: AppState, data: seq<Row>): (r: AppState)
    ensures !r.isLoading
    ensures |data| == 0 ==> r == s.(isLoading := false, error := Some(EmptyMessage))
    ensures |data| > 0 && |ObjectKeys(data[0])| < 2 ==>
      r == s.(isLoading := false, error := Some(ColumnsMessage))
    ensures |data| > 0 && |ObjectKeys(data[0])| >= 2 ==> r == s.(isLoading := false, tableData := data)
  {
    if |data| == 0 then s.(error := Some(EmptyMessage), isLoading := false)
    else if |ObjectKeys(data[0])| < 2 then s.(error := Some(ColumnsMessage), isLoading := false)
    else s.(tableData := data, isLoading := false)
  }

  /** `handleDataLoaded(data)` once its callback has run. */
  function HandleDataLoaded(s: AppState, data: seq<Row>): (r: AppState)
    ensures !r.isLoading
  {
    FinishLoad(BeginLoad(s), data)
  }

  /** A load is accepted exactly when the dataset has a row and its first row has two keys or
      more; later rows are not looked at. An accepted dataset is stored as it is with no error;
      a rejected one leaves the stored dataset alone and reports why, the empty check first. */
  lemma LoadOutcome(s: AppState, data: seq<Row>)
    ensures var r := HandleDataLoaded(s, data);
      && (r.error == None <==> |data| > 0 && |ObjectKeys(data[0])| >= 2)
      && (r.error == None ==> r.tableData == data)
      && (r.error != None ==> r.tableData == s.tableData)
      && (r.error == Some(EmptyMessage) <==> |data| == 0)
      && (r.error == Some(ColumnsMessage) <==> |data| > 0 && |ObjectKeys(data[0])| < 2)
  {
    assert EmptyMessage != ColumnsMessage by {
      assert EmptyMessage[9] != ColumnsMessage[9];
    }
  }

  /** The rows the preview table shows: none while loading or when no dataset is stored,
      otherwise `tableData.slice(0, 5)`, the first five rows or all of them if fewer. */
  function Preview(s: AppState): (r: seq<Row>)
    ensures s.isLoading || |s.tableData| == 0 ==> r == []
    ensures !s.isLoading ==> |r| == if |s.tableData| < 5 then |s.tableData| else 5
    ensures forall i :: 0 <= i < |r| ==> r[i] == s.tableData[i]
  {
    if s.isLoading || |s.tableData| == 0 then [] else Take(s.tableData, 5)
  }

  /** The rows the chart builder is given: all stored rows, and none while loading. */
  function ChartRows(s: AppState): (r: seq<Row>)
    ensures s.isLoading ==> r == []
    ensures !s.isLoading ==> r == s.tableData
  {
    if s.isLoading || |s.tableData| == 0 then [] else s.tableData
  }

  /** The preview is a prefix of what the chart builder is given. */
  lemma PreviewIsPrefix(s: AppState)
    ensures |Preview(s)| <= |ChartRows(s)|
    ensures Preview(s) == ChartRows(s)[..|Preview(s)|]
  {
  }
}
