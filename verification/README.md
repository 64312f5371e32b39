# A verified model of the dashboard's data path

The repository is a small browser dashboard. A user uploads a CSV file and gets a table
preview and a set of charts. The charts are bar, line, pie, scatter, a word cloud and a
histogram ("distribution"). The results can be exported back to CSV. A contact page
validates a form before sending it.

This project models the dashboard's pure data path in Dafny and proves properties of it:

- `FileUpload`: reading the CSV text into records.
- `App`: the gate that accepts or rejects a freshly read dataset, and the five-row preview.
- `ChartConfig`: the chart builder's state:
  - column profiling from the first record;
  - the default column bindings;
  - the list of active charts and its toggle;
  - the column-picker edits.
- Chart data (`generateChartData`), in three modules:
  - `WordCloud`: word frequencies.
  - `Distribution`: the histogram.
  - `ChartData`: the category series and the dispatch on the chart type.
- `ExportData`: the CSV export, with an RFC 4180 reader as its partner.
- `Contact`: the contact form's field edits, validation order, email check and reset.

The JavaScript semantics the code relies on are modelled explicitly, in modules of their own:

- `JsString`: `trim`, `split`, `split(/\s+/)` and `join`.
- `JsNumber`: `parseFloat`, over exact reals, with `None` for `NaN`.
- `JsArray`: `filter`, `slice`, and the stable `sort`.
- `JsObject`: plain objects as creation-ordered property lists. `Object.keys`, `Object.values`
  and `Object.entries` list array-index keys first, in ascending order, then the other keys in
  creation order, as in ECMAScript's OrdinaryOwnPropertyKeys.

All of these are pure functions over immutable datatypes. Strings are `seq<char>` and numbers
are `real`.

Behaviour of the code that the model keeps as it is:

- Columns are typed from the first record alone: a column is numeric when `parseFloat` reads
  its first value.
- A histogram value equal to the maximum gets an eleventh bin of its own.
- When all values are equal, the bin step is 0 and the histogram is one `NaN` bin holding
  every value.
- When no value parses, the histogram has no labels and no counts.
- The row limits (100) and the word limit (50) are fixed constants.
- Word-cloud ties follow the object's property order, not first-seen order: words that are
  array indices, such as `123`, come first.

## Model

The table lists the members whose contracts state the properties. The functions that only
compute, such as `WordFrequencies`, `HistogramAsWritten`, `ExportCsv`, `HandleDataLoaded`,
`ProfileOf` and `DefaultConfigs`, are reached through the rows of the lemmas about them.

| member | source | states |
|---|---|---|
| JsString.TrimShape | src/components/FileUpload.jsx:15 | `trim` removes only whitespace from both ends: the result is a substring of the input with no whitespace at either end, and everything outside it is whitespace |
| JsString.TrimOfTrimmed | src/components/FileUpload.jsx:15 | `trim` leaves an already trimmed string unchanged (idempotence) |
| JsString.Split | src/components/FileUpload.jsx:10-13 | `split` on one character gives at least one piece, no piece holds the separator, and joining the pieces with the separator gives the input back |
| JsString.SplitOfJoin | src/components/FileUpload.jsx:10-13 | splitting a join of separator-free pieces returns exactly those pieces |
| JsString.SplitWhite | src/components/ChartBuilder.jsx:100 | `split(/\s+/)` gives at least one piece, the pieces hold no whitespace, and together they hold every non-whitespace character of the input in order; the first piece is empty exactly when the input starts with whitespace, and no interior piece is empty |
| JsString.SplitWhiteBreak | src/components/ChartBuilder.jsx:100 | `split(/\s+/)` breaks at each maximal whitespace run: whitespace-free text, a run of whitespace, and text not starting with whitespace split into the first text followed by the pieces of the rest |
| JsString.SplitWhiteOfJoin | src/components/ChartBuilder.jsx:100 | splitting at whitespace returns exactly the non-empty whitespace-free words that were joined with a whitespace character |
| JsNumber.ParseFloat | src/components/ChartBuilder.jsx:51 | `parseFloat` yields a number exactly when, after leading whitespace and an optional sign, the text starts with a digit or with a dot and a digit; a negative result needs a minus sign |
| JsNumber.ParseFloatOfNatToString | src/components/ChartBuilder.jsx:140 | the decimal rendering of a count parses back to that count |
| JsNumber.ParseFloatSkipsWhite | src/components/ChartBuilder.jsx:51 | leading whitespace never changes what `parseFloat` reads |
| JsArray.Filter | src/components/FileUpload.jsx:19 | `filter` keeps exactly the elements satisfying the predicate, each as many times as it occurs in the input, as an order-preserving sublist |
| JsArray.SortBy | src/components/ChartBuilder.jsx:109 | the sort returns a permutation ordered by key in which equal keys keep their relative order (stable) |
| JsArray.StableSortUnique | src/components/ChartBuilder.jsx:109 | two key-ordered lists that order every key's elements the same are equal, so any conforming stable sort gives the modelled result |
| JsObject.OwnOrder | src/components/ChartBuilder.jsx:49 | property enumeration is a permutation of the properties in which every array-index key precedes every other key, index keys ascend, and the other keys keep creation order |
| JsObject.OwnOrderDistinct | src/components/ChartBuilder.jsx:49 | enumeration never repeats a key |
| JsObject.OwnOrderKeys | src/components/ExportData.jsx:5-8 | the enumeration's key order depends only on the keys and their creation order, never on the values |
| JsObject.OwnOrderSum | src/components/ChartBuilder.jsx:130 | enumerating a count object leaves the total of its counts unchanged |
| JsObject.PutGet | src/components/FileUpload.jsx:15 | after assigning a property, reading it gives the assigned value |
| JsObject.PutOthers | src/components/FileUpload.jsx:15 | assigning one property leaves every other property's value unchanged |
| JsObject.PutKeys | src/components/FileUpload.jsx:15 | assigning a new key appends it to the creation order; reassigning an existing key keeps the order |
| Records.ObjectKeysOfRow | src/components/ChartBuilder.jsx:49 | `Object.keys` of a record lists each of its keys exactly once |
| Records.ObjectValuesContent | src/components/FileUpload.jsx:19 | `Object.values` holds a non-empty string exactly when some property of the record does |
| FileUpload.ParseCsv | src/components/FileUpload.jsx:10-19 | the records are the data lines' records with content, in line order: at most one per line after the header, a sublist of the line records, and no line record with content is lost, each record kept as many times as its line occurs; text without a line feed yields none |
| FileUpload.HasContentIff | src/components/FileUpload.jsx:19 | a record is kept exactly when one of its values is a non-empty string |
| FileUpload.ParsedRowShape | src/components/FileUpload.jsx:11-17 | every record's keys are the trimmed header names other than `__proto__`, each exactly once |
| FileUpload.RowOfCell | src/components/FileUpload.jsx:13-16 | a column's value is the trimmed field at its position, or `""` when the line is short; surplus fields are ignored; with duplicate header names the last such column wins |
| FileUpload.BuildRowCell | src/components/FileUpload.jsx:14-16 | folding the headers over a line gives each key the cell of the last header with that name |
| FileUpload.ParsedCellsClean | src/components/FileUpload.jsx:10-15 | no key or value of a record holds a comma or a line feed, and every key and value is its own trim |
| FileUpload.ParsedKeyOrder | src/components/FileUpload.jsx:14-17 | all records read from one file enumerate their keys in the same order |
| App.FinishLoad | src/App.jsx:81-88 | an empty dataset is rejected as empty; a dataset whose first record has fewer than two keys is rejected for columns; anything else is stored; the loading flag ends false |
| App.BeginLoad | src/App.jsx:76-77 | a load starts with the loading flag raised and the previous error cleared |
| App.LoadOutcome | src/App.jsx:75-94 | a load succeeds exactly when the dataset has a record and its first record has at least two keys; success stores the dataset unchanged; a rejection keeps the previous dataset; each message exactly for its case, the empty check first |
| App.Preview | src/App.jsx:53 | nothing is previewed while loading or with no data; otherwise the preview is the first `min(5, n)` stored records |
| App.PreviewIsPrefix | src/App.jsx:53-57 | the preview is a prefix of the rows the chart builder receives |
| ChartConfig.ProfilePartition | src/components/ChartBuilder.jsx:49-56 | numeric and text columns are order-preserving sublists of the first record's keys; a column is numeric exactly when its first cell parses, and text exactly when it does not |
| ChartConfig.ProfileConsistent | src/components/ChartBuilder.jsx:49-56 | profiled numeric and text columns are columns, and the numeric list has no repeats |
| ChartConfig.DefaultBindings | src/components/ChartBuilder.jsx:63-86 | the defaults bind only columns or `""`; bar, line and scatter share them; the first numeric column is preferred for x, for the pie's value and for the histogram; y is the second numeric column, else the first; x differs from y when two columns are numeric; the pie's labels use the first column; the word cloud uses the first text column; without a numeric column x, y, the pie's value and the histogram use the first column, without a text column so does the word cloud, and without any column every binding is `""` |
| ChartConfig.OnDataChange | src/components/ChartBuilder.jsx:47-48 | an empty dataset leaves the configuration untouched; otherwise it is reset to the defaults of the first record's profile |
| ChartConfig.DatasetDefaults | src/components/ChartBuilder.jsx:47-86 | the defaults installed for a dataset bind only its first record's columns |
| ChartConfig.Toggle | src/components/ChartBuilder.jsx:168-174 | toggling flips the type's membership, removes a present type wherever it is, appends an absent one last, keeps the other types in order, and keeps the list free of duplicates |
| ChartConfig.ToggleTwice | src/components/ChartBuilder.jsx:168-174 | toggling twice restores the set of types, and restores the list exactly when the type was absent or last |
| ChartConfig.SetPrimary | src/components/ChartBuilder.jsx:187-193 | the first picker changes exactly the primary field of one chart type, and every other field of every type keeps its value |
| ChartConfig.SetY | src/components/ChartBuilder.jsx:203-206 | the y picker changes exactly the y axis of one chart type, and nothing else |
| WordCloud.KeepAlnum | src/components/ChartBuilder.jsx:102 | `replace(/[^a-zA-Z0-9]/g, '')` keeps every ASCII letter and digit, each as often as it occurs and in order, and nothing else |
| WordCloud.WordsOf | src/components/ChartBuilder.jsx:101-105 | a cell's counted words are its cleaned pieces of three characters or more, in order, each as often as it occurs among the cleaned pieces, and no shorter piece |
| WordCloud.Words | src/components/ChartBuilder.jsx:99-106 | every counted word consists of lowercase ASCII letters and digits and is longer than two characters |
| WordCloud.WordsOfRow | src/components/ChartBuilder.jsx:100-105 | one row's words are the counted words of its cell split at whitespace runs |
| WordCloud.WordsAppend | src/components/ChartBuilder.jsx:99 | rows are read in order: the words of two runs of rows are the first run's words followed by the second's |
| WordCloud.CountsCorrect | src/components/ChartBuilder.jsx:98-107 | the counts object has one property per distinct word, holding its number of occurrences (corrected counting, see Findings) |
| WordCloud.Ranking | src/components/ChartBuilder.jsx:108-109 | the ranking is a permutation of the counts object's entries with counts never increasing, and words of equal count keep the order `Object.entries` lists them in |
| WordCloud.IndexWordRanksFirst | src/components/ChartBuilder.jsx:108-109 | of two words met once each, a word that is an array index ranks ahead of another word met before it |
| WordCloud.DigitsRankFirst | src/components/ChartBuilder.jsx:108-109 | the word `123` ranks ahead of the word `abc` when `abc` is met first and both occur once |
| WordCloud.WordFrequenciesWords | src/components/ChartBuilder.jsx:97-111 | with a text column the result has at most 50 entries, no word twice, and only words of the first 100 rows that pass the filter |
| WordCloud.WordFrequenciesCounts | src/components/ChartBuilder.jsx:108-111 | every listed count is the word's number of occurrences, at least 1, and the counts never increase along the list |
| WordCloud.WordFrequenciesTop | src/components/ChartBuilder.jsx:108-110 | a word left out means the list is full at 50 and every listed word occurs at least as often |
| WordCloud.OnlyFirstRowsCount | src/components/ChartBuilder.jsx:99 | rows after the first 100 never influence the word cloud |
| WordCloud.ConstructorNotCounted | src/components/ChartBuilder.jsx:104 | as written, counting the word `constructor` once gives the text of the `Object` function followed by `1`, not 1 |
| WordCloud.AsWrittenAgrees | src/components/ChartBuilder.jsx:98-107 | without the word `constructor`, the as-written accumulator is exactly the corrected count |
| Distribution.ColumnValues | src/components/ChartBuilder.jsx:115 | one number per row whose cell parses, over all rows, in row order: the i-th number is what `parseFloat` reads from the i-th such row's cell |
| Distribution.BinIndexRange | src/components/ChartBuilder.jsx:117-122 | with min < max every value's bin index is between 0 and 10; the minimum gets 0, and the maximum alone gets 10, an eleventh bin |
| Distribution.BinsGet | src/components/ChartBuilder.jsx:121-124 | the bins object holds one property per occupied bin start, with the number of values in that bin |
| Distribution.DistributionOf | src/components/ChartBuilder.jsx:113-114 | the histogram is `null` exactly when no column is bound |
| Distribution.DistributionTotal | src/components/ChartBuilder.jsx:113-130 | there are as many labels as counts, and the counts sum to the number of rows whose cell parses, over all rows |
| Distribution.HistogramDegenerate | src/components/ChartBuilder.jsx:115-130 | no parsed number gives no labels and no counts; the histogram is the single `NaN` label exactly when there are numbers and all are equal, and its one count is then the number of values |
| Distribution.AsWrittenCounts | src/components/ChartBuilder.jsx:121-130 | each as-written count is the size of one bin, each bin appearing once, but in property order rather than label order |
| Distribution.MisalignedHistogram | src/components/ChartBuilder.jsx:127-130 | for the numbers -1, -2, -2 the labels are -2, -1 and the as-written counts 1, 2; the aligned counts are 2, 1 |
| Distribution.AlignedCounts | src/components/ChartBuilder.jsx:121-130 | in the corrected histogram the labels strictly ascend, each count is the number of values in its label's bin and at least 1, and the counts sum to the number of values |
| Distribution.SameLabels | src/components/ChartBuilder.jsx:127 | the correction keeps the labels: only the order of the counts changes |
| ChartData.CategorySeries | src/components/ChartBuilder.jsx:137-152 | `null` exactly when an axis is unbound; otherwise `min(100, n)` labels and values; a label is the category cell, or `Row i+1` when that cell is empty; a value is the parsed value cell, or 0 |
| ChartData.RowLabelInjective | src/components/ChartBuilder.jsx:140 | two rows never get the same synthetic label |
| ChartData.RowLabelNumber | src/components/ChartBuilder.jsx:140 | a synthetic label is `Row ` followed by digits that read back as the 1-based row number |
| ChartData.SeriesIgnoresLaterRows | src/components/ChartBuilder.jsx:140-144 | rows after the hundredth never influence the series |
| ChartData.GenerateChartData | src/components/ChartBuilder.jsx:92-153 | the result is `null` exactly when the chart type's bindings are unset; the word cloud yields a word list and the distribution a histogram |
| ChartData.DefaultsDraw | src/components/ChartBuilder.jsx:63-153 | under the defaults for a dataset whose column names are non-empty, every chart type has data to draw |
| ExportData.QuoteRoundTrip | src/components/ExportData.jsx:9 | stripping a written field's enclosing quotes and collapsing doubled quotes recovers the value |
| ExportData.ReadEscapedOfEscape | src/components/ExportData.jsx:9 | an escaped field is read back whole, whatever quotes and commas it holds, and reading stops right after its closing quote |
| ExportData.ReadRowLine | src/components/ExportData.jsx:8-10 | a record's line reads back as its values, in its own key order |
| ExportData.ExportLayout | src/components/ExportData.jsx:5-11 | the file is the header line followed by one line per record, joined by line feeds with none at the end |
| ExportData.ExportRoundTrip | src/components/ExportData.jsx:5-11 | reading the export gives back the first record's keys and every record's values, provided keys hold no comma or line feed, values hold no line feed, and every record has a value |
| ExportData.ExportOfParsed | src/components/ExportData.jsx:5-11 | for any non-empty dataset the CSV reader produced, the export reads back as its keys and values |
| Contact.ValidEmailIff | src/pages/Contact.jsx:20-22 | the left-to-right email check accepts exactly the strings matching `^[^\s@]+@[^\s@]+\.[^\s@]+$` |
| Contact.ValidEmailShape | src/pages/Contact.jsx:20-22 | an email is valid exactly when it has no whitespace, exactly one `@`, something before it, and after it a dot with a character on each side |
| Contact.HandleChange | src/pages/Contact.jsx:24-27 | an edit replaces exactly the named field and clears the error |
| Contact.Validate | src/pages/Contact.jsx:34-44 | the required-fields message exactly when name, email or message is empty; otherwise the email message exactly when the email fails the pattern; otherwise the form may be sent |
| Contact.InquiryTypeIrrelevant | src/pages/Contact.jsx:34-44 | the inquiry type never changes the outcome of validation |
| Contact.BlankCountsAsContent | src/pages/Contact.jsx:37-44 | a name and a message of nothing but whitespace pass the required-fields check, whatever the inquiry type, and the outcome is then decided by the email check alone |
| Contact.BeginSubmit | src/pages/Contact.jsx:29-44 | submitting lowers the success flag and leaves the form as it is; the error is empty exactly when validation passes, and otherwise it is the validation message |
| Contact.Delivered | src/pages/Contact.jsx:64-85 | a successful submission shows the success notice and resets the form to its initial state |
| Contact.ResubmitAfterDelivery | src/pages/Contact.jsx:6-11 | after the reset to the initial form, submitting again at once asks for the required fields |

## Left out

- Cells are always strings, because the CSV reader is the only producer of datasets. So three branches are not modelled: the `typeof … === 'number'` test in profiling, the `typeof … === 'string'` test for text columns, and the export of non-string values.
- Browser I/O and foreign calls are not modelled:
  - the `FileReader`, drag and drop, and the `catch` that loads `[]` (with string content nothing in the `try` can throw);
  - the Blob and download link of the export;
  - the `toPng` chart download;
  - analytics;
  - the one-second `setTimeout` of the dataset gate, modelled as the state after its callback.
- Rendering is not modelled: chart.js registration, option objects and titles, colours, the expanded-chart toggle, the word-cloud component's font scaling and random rotation, and the other pages.
- Contact: the network submission is not modelled. This covers `fetch`, the JSONP fallback, server messages and the loading flag. Only the checks before sending and the reset after a success are modelled.
- JsNumber.ParseFloat: text starting with `Infinity` reads as `NaN`, not as infinity. Floating-point rounding and negative zero are not modelled: arithmetic is exact.
- Distribution.RealIndex: a bin start is taken to be an array-index property key exactly when it is a non-negative integer below 2^32 - 1. `String(bin)` formatting is otherwise not modelled; distinct starts are distinct keys.
- Records.Lookup: reading a key the record does not own gives `undefined`. Inherited `Object.prototype` properties are not modelled here, except for the word cloud's counts object, where they matter (see Findings).
- ChartData.GenerateChartData: the word cloud is built from the corrected counts, because the as-written result is not fully specified. Once `constructor` is counted as text, the comparator returns `NaN`, and the order of a sort with an inconsistent comparator is implementation-defined.
- ChartData.DefaultsDraw: assumes no column is named `""`. A file with an empty header name can bind `""` by default, and that chart is then `null`.

## Findings

| source | as written | input that shows it | evidently intended | confidence | as-written member | corrected member |
|---|---|---|---|---|---|---|
| src/components/ChartBuilder.jsx:104 | `textData[w] = (textData[w] \|\| 0) + 1` reads the inherited `Object.prototype.constructor` for the word `constructor`, so the count becomes the string `function Object() { [native code] }1` | a text cell `constructor` | the word counts 1 like any other | not executed | WordCloud.ConstructorNotCounted | WordCloud.CountsCorrect |
| src/components/ChartBuilder.jsx:127-130 | the labels are the bin starts sorted numerically, but the data are `Object.values(bins)` in property order, so a count can stand under another bin's label | a distribution column with values -1, -2, -2: labels -2, -1 with counts 1, 2 | each count under the label of its own bin (counts 2, 1) | not executed | Distribution.MisalignedHistogram | Distribution.AlignedCounts |
