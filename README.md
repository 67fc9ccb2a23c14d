# news-stock-prediction, modelled in Dafny

This project models the parts of the news-stock-prediction analysis code
whose behaviour can be stated exactly, and proves properties of the model.

- **Headline normalisation** (`clean_text`, `preprocess_text`). The model is
  a chain of left-to-right scanning functions over `seq<char>`: lowercase,
  delete `http` plus the non-whitespace after it, keep only `a-z` and
  whitespace, squeeze whitespace runs, then strip.
- **Publisher, date, hour and weekday aggregates.**
  - `value_counts`, `groupby().size()`, `head`, `sort_index` and the fixed
    Monday..Sunday `reindex`.
  - The spike filter.
  - E-mail domain extraction with `@(.+)$`.
  - The per-publisher `" | ".join` of headlines.
- **The price-table processor `MarketDataProcessor`.** It is a class whose
  `data` field starts as `None`. `load_data` fills it after checking the
  required columns in a fixed order, parsing `Date`, sorting by it and
  moving it into the index. The indicator and metric methods add columns.
  `visualize` saves up to three charts, whose paths come from
  `str.replace(".png", ...)`.

A table is a list of column names plus a list of rows. Each row is an index
label and a map from column name to cell (module `Frames`). A cell is a
`Value`: missing (NaN, NaT and None alike), an integer, a text, a calendar day or a
timestamp.

The caller's frame is an object of the `Frames.DataFrame` class, whose
methods `SetColumn`, `Derive` and `SetContents` assign into it. The functions
that assign into the caller's frame (`AddHeadlineLength`, `PreprocessText`,
`ExtractEmailDomains`, `PrepareDatetime`) are module-level methods that take
a `DataFrame` and call those methods, as do the methods of
`MarketDataProcessor`. Each is proved to leave the frame equal to a pure
table function, and the properties are proved about those functions.
The pandas operations are modelled on their documented behaviour:
- `value_counts` and `groupby` drop missing keys, and `groupby` sorts its
  keys.
- `head(n)` with a negative `n` drops the last `-n` entries.
- `reindex` gives a missing value for an absent label.
- `" | ".join` raises a TypeError on a non-text item.
- `if save_path:` treats `None` and `""` alike.
- `str.replace` replaces non-overlapping matches from the left.

Some outcomes follow directly from the code as written:
- After a failed `load_data`, the raw table stays in `self.data`, since it
  is assigned before the checks.
- A save path without `.png` gives the same file name for all three charts,
  so each save overwrites the one before (`ChartPathsFacts`).
- `clean_text` is not idempotent. Deleting a dot can join `h` and `ttpx`
  into a new URL match, so `h.ttpx` becomes `httpx` and then the empty
  string (`CleanTextNotIdempotent`).

Modules, one file each: `Wrappers`, `Values`, `Sequences` (subsequences and
a stable insertion sort), `TextCleaning`, `Frames`, `Aggregation`,
`DescriptiveStats`, `PublisherAnalysis`, `TimeSeriesAnalysis`,
`TopicModeling` and `MarketDataProcessing`.

## Model

| member | source | states |
|---|---|---|
| TextCleaning.CleanTextCanonical | src/nlp/topic_modeling.py:17-20 | Every output character is a letter `a-z` or a blank; the output has no blank at either end and never two blanks in a row. |
| TextCleaning.CleanTextKeepsLetterOrder | src/nlp/topic_modeling.py:17-20 | Deleting the blanks of the output gives a subsequence of the letters of the lowercased input; no letter is invented or reordered. |
| TextCleaning.CleanTextEmptyIff | src/nlp/topic_modeling.py:18-20 | The output is empty exactly when no letter survives the URL deletion. |
| TextCleaning.BlankTextCleansToEmpty | src/nlp/topic_modeling.py:20 | Empty or whitespace-only text cleans to the empty string. |
| TextCleaning.CleanTextKeepsCanonical | src/nlp/topic_modeling.py:17-20 | Lowercase words separated by single blanks, with no `http` followed by a non-blank, come back unchanged. |
| TextCleaning.StripUrlsLeavesNoUrl | src/nlp/topic_modeling.py:18 | After the URL step, no `http` followed by a non-whitespace character is left. |
| TextCleaning.StripUrlsKeepsPlainText | src/nlp/topic_modeling.py:18 | Text with no URL match passes the URL step unchanged. |
| TextCleaning.UrlDeletionResumesAtSpace | src/nlp/topic_modeling.py:18 | A match is deleted up to the next whitespace; what follows starts with whitespace or is empty. |
| TextCleaning.UrlWordVanishes | src/nlp/topic_modeling.py:18 | A whole word made of `http` and at least one more non-blank is deleted completely. |
| TextCleaning.UrlInsideWordIsDeleted | src/nlp/topic_modeling.py:17-18 | The match happens after lowercasing and inside a word: `xHTTPy` cleans to `x`. |
| TextCleaning.TrailingHttpIsKept | src/nlp/topic_modeling.py:18 | `http` with nothing after it is no match: `see http` is kept. |
| TextCleaning.DotRemovalJoinsUrl | src/nlp/topic_modeling.py:18-19 | Punctuation is removed after the URL step, so `h.ttpx` cleans to `httpx`. |
| TextCleaning.CleanTextNotIdempotent | src/nlp/topic_modeling.py:17-20 | Some text changes again when cleaned a second time. |
| TopicModeling.PreprocessText | src/nlp/topic_modeling.py:24-29 | Fails with a KeyError and leaves the frame unchanged when the text column is absent; otherwise writes `clean_headline` into the caller's frame and returns that frame. |
| TopicModeling.PreprocessTextFacts | src/nlp/topic_modeling.py:28 | The row count and every other column are kept; row i's `clean_headline` is `clean_text(str(text_i))` and is in canonical form. |
| Frames.WithColumnFacts | src/eda/descriptive_stats.py:7 | Assigning a column keeps the row count, the labels and every other column; the column holds the values; an existing column keeps its place and a new one is appended; column names stay distinct. |
| Frames.DeriveFacts | src/eda/descriptive_stats.py:7 | `df[dst] = f(df[src])` fails exactly when `src` is absent; otherwise row i's `dst` is `f` of row i's `src`, and nothing else changes. |
| Frames.WithColumnsKeeps | src/market_data_processor.py:49-59 | Several assignments in turn keep the rows, the labels and every column not assigned. |
| Frames.WithColumnsValues | src/market_data_processor.py:49-59 | With distinct names, each assigned column ends up holding its own values. |
| Frames.WithColumnsAppends | src/market_data_processor.py:49-59 | New names are appended to the columns in assignment order. |
| Frames.DataFrame.SetColumn | src/eda/time_series_analysis.py:7-10 | `df[name] = vals` replaces the frame's contents with the assigned table. |
| Frames.DataFrame.Derive | src/eda/descriptive_stats.py:7 | The in-place form of the derived assignment; on a KeyError the frame is unchanged. |
| Aggregation.MembersCount | src/eda/publisher_analysis.py:34 | The values collected for a key number exactly its occurrences, and some exist exactly when the key occurs. |
| Aggregation.MembersContain | src/eda/publisher_analysis.py:34 | A value is collected for a key exactly when some row pairs that key with it. |
| Aggregation.GroupByGroups | src/eda/publisher_analysis.py:34 | `groupby` gives one group per distinct present key, in strictly ascending key order. Each group holds exactly its rows' values in row order, every present key has a group, and the sizes add up to the present rows. |
| Aggregation.GroupSizesFacts | src/eda/time_series_analysis.py:18 | `groupby().size()` lists each present key once, in ascending order, with its count (at least 1); the counts add up to the present rows. |
| Aggregation.ValueCountsFacts | src/eda/descriptive_stats.py:22 | `value_counts` lists each present key once with its count; counts are non-increasing and add up to the present rows; it rearranges the group sizes. |
| Aggregation.SortIndexFacts | src/eda/time_series_analysis.py:35 | `sort_index` keeps a count series' entries and puts the keys in ascending order. |
| Aggregation.Head | src/eda/publisher_analysis.py:8 | `head(n)` is a prefix: `n` entries, or all when fewer; a negative `n` drops the last `-n`. |
| Aggregation.LookupTallies | src/eda/time_series_analysis.py:42-44 | Looking a label up in a count series gives its count when it occurs and nothing otherwise. |
| Aggregation.AboveFacts | src/eda/time_series_analysis.py:27 | The filter keeps a sub-series in the original order, every kept entry strictly above the threshold, and every entry above it kept as many times as it occurs. |
| DescriptiveStats.AddHeadlineLength | src/eda/descriptive_stats.py:3-8 | Writes `headline_length` into the caller's frame and returns it; a KeyError leaves the frame unchanged. |
| DescriptiveStats.HeadlineLengthFacts | src/eda/descriptive_stats.py:7-8 | Row i's `headline_length` is the length of `str(text_i)`, never negative; the row count and every other column are unchanged. |
| DescriptiveStats.CountArticlesByPublisher | src/eda/descriptive_stats.py:18-22 | Each present publisher once with its count, counts non-increasing and adding up to the present rows; a KeyError for an absent column. |
| DescriptiveStats.PublicationTrends | src/eda/descriptive_stats.py:38-42 | Distinct dates in ascending order, each counted at least once, adding up to the rows with a present date. |
| PublisherAnalysis.TopPublishers | src/eda/publisher_analysis.py:4-8 | At most `top_n` entries, taken from the front of the full ranking, counts non-increasing and correct; no publisher left out has more articles than one kept. |
| PublisherAnalysis.PublisherArticleDistribution | src/eda/publisher_analysis.py:11-15 | Each present publisher exactly once, every count at least 1, the counts adding up to the present rows. |
| PublisherAnalysis.DomainWithoutNewline | src/eda/publisher_analysis.py:24 | For text without a newline: a domain exists exactly when some `@` has a character after it, and it is the text after the first such `@`. |
| PublisherAnalysis.DomainExamples | src/eda/publisher_analysis.py:24 | `a@b@c` gives `b@c`, `a@@` gives `@`, and `a@` or `nan` give none. |
| PublisherAnalysis.DomainNewlineExamples | src/eda/publisher_analysis.py:24 | `$` also matches before a final newline: `a@b\n` gives `b`, while `a@b\nc` gives none. |
| PublisherAnalysis.ExtractEmailDomains | src/eda/publisher_analysis.py:18-26 | Writes `domain` into the caller's frame and returns the `value_counts` of that column; a KeyError leaves the frame unchanged. |
| PublisherAnalysis.ExtractEmailDomainsFacts | src/eda/publisher_analysis.py:24-25 | One `domain` per row, present exactly when the text yields a domain; other columns unchanged; the counts cover the rows with a domain only and add up to their number. |
| PublisherAnalysis.PublisherNewsType | src/eda/publisher_analysis.py:29-34 | A KeyError names the absent publisher or headline column, in that order. |
| PublisherAnalysis.PublisherNewsTypeFacts | src/eda/publisher_analysis.py:34 | Succeeds exactly when every row with a present publisher has a text headline (else a TypeError). Then there is one row per distinct present publisher in ascending order, and every row's publisher occurs in the column; whose text is that publisher's headlines in row order joined by `" \| "`. |
| TimeSeriesAnalysis.DayNameFacts | src/eda/time_series_analysis.py:10 | Day names repeat every seven days, 1970-01-01 being a Thursday, and are always one of the seven names. |
| TimeSeriesAnalysis.PrepareDatetime | src/eda/time_series_analysis.py:3-11 | Parses the date column in place and adds `hour`, `date_only` and `weekday`, each read from the column as just assigned; a KeyError leaves the frame unchanged. |
| TimeSeriesAnalysis.PrepareDatetimeFacts | src/eda/time_series_analysis.py:7-10 | Every hour is missing or in 0..23, every weekday missing or a day name; the row count and unwritten columns are kept; each row's parts come from its parsed timestamp. |
| TimeSeriesAnalysis.PublicationFrequency | src/eda/time_series_analysis.py:14-18 | Distinct dates in ascending order, each counted at least once, adding up to the rows with a present date. |
| TimeSeriesAnalysis.DetectSpikes | src/eda/time_series_analysis.py:21-28 | A sub-series in the original order; every kept entry is strictly above the threshold, and every entry above it is kept as many times as it occurs. |
| TimeSeriesAnalysis.HourlyPublicationDistribution | src/eda/time_series_analysis.py:31-35 | Each present hour once with its count, in ascending hour order, adding up to the rows with a present hour. |
| TimeSeriesAnalysis.WeekdayPublicationDistribution | src/eda/time_series_analysis.py:38-44 | Always seven slots, Monday to Sunday; a day with articles has its count, a day without any a missing value rather than 0. |
| MarketDataProcessing.MarketDataProcessor.constructor | src/market_data_processor.py:14-16 | The file path is stored unchanged and no table is loaded. |
| MarketDataProcessing.FirstMissingFacts | src/market_data_processor.py:26-29 | No column is reported exactly when all required ones are present; otherwise the reported one is absent and every column checked before it is present. |
| MarketDataProcessing.ParseDates | src/market_data_processor.py:32 | `to_datetime` without coercion converts every cell (missing stays missing), or fails when some present cell does not parse. |
| MarketDataProcessing.LoadedTableFacts | src/market_data_processor.py:26-35 | A missing required column fails with `Missing required column: <first missing>`; otherwise an unparseable date fails. On success, `Date` leaves the columns and the rows are exactly the input rows, each labelled by its parsed date, ascending with missing dates last. |
| MarketDataProcessing.SortedIndexFacts | src/market_data_processor.py:33-34 | Sorting by `Date` and then indexing by it rearranges the indexed rows only and leaves the labels in ascending order. |
| MarketDataProcessing.IndexRowsPermutes | src/market_data_processor.py:34 | `set_index` on rearranged rows gives the same rows rearranged. |
| MarketDataProcessing.DatesAscending | src/market_data_processor.py:33 | Rows sorted neighbour by neighbour on `Date` are in order for every pair. |
| MarketDataProcessing.MarketDataProcessor.LoadData | src/market_data_processor.py:21-35 | Stores a new frame holding the input, validates, parses, sorts and indexes it in place, and returns that frame. On an error it returns the error and the raw input stays stored. |
| MarketDataProcessing.IndicatorsInTurn | src/market_data_processor.py:46-59 | The six indicators are assigned one after another, each from the `Close` series read before the first one. |
| MarketDataProcessing.IndicatorsKeep | src/market_data_processor.py:46-59 | The rows, labels and every non-indicator column, `Close` included, are unchanged. |
| MarketDataProcessing.IndicatorsValues | src/market_data_processor.py:49-59 | Each indicator column holds the library's series over `Close`. |
| MarketDataProcessing.IndicatorsColumns | src/market_data_processor.py:49-59 | For any mix of new and existing indicators, existing columns keep their places and the new indicators are appended in the order SMA_20, EMA_20, RSI_14, MACD, MACD_Signal, MACD_Hist. A column is there afterwards exactly when it was there before or is an indicator. |
| Frames.WithColumnsColumns | src/market_data_processor.py:49-59 | Assigning distinct columns in turn keeps the existing columns in place and appends the new ones in assignment order; a column is present afterwards exactly when it was before or was assigned. |
| Frames.NewNamesMembers | src/market_data_processor.py:49-59 | A name is among the appended ones exactly when it is assigned and was not already a column. |
| MarketDataProcessing.MarketDataProcessor.ApplyTaIndicators | src/market_data_processor.py:40-61 | With no table, a TypeError; without `Close`, a KeyError and no change; otherwise the indicator columns are added in place and the same frame is returned. |
| MarketDataProcessing.MetricsFacts | src/market_data_processor.py:73-85 | Without `Close`, the source's ValueError, before anything is added. Otherwise `Returns` comes from `Close`, and `Volatility_20` and `Cumulative_Returns` come from those new returns; exactly these three columns are added and the rest is unchanged. |
| MarketDataProcessing.MarketDataProcessor.CalculateFinancialMetrics | src/market_data_processor.py:66-87 | With no table, an AttributeError; otherwise the metric columns are assigned in place in source order, or the ValueError leaves the table as it was. |
| MarketDataProcessing.ReplaceAbsent | src/market_data_processor.py:119 | `replace` leaves a string without an occurrence unchanged. |
| MarketDataProcessing.ReplaceExtension | src/market_data_processor.py:119 | `q.png` whose only `.png` is the last one becomes `q` followed by the replacement. |
| MarketDataProcessing.ChartPathsFacts | src/market_data_processor.py:103-134 | `x.png` is saved as `x.png`, `x_rsi.png` and `x_macd.png`; a path without `.png` names all three charts; `None` or `""` saves nothing. |
| MarketDataProcessing.MarketDataProcessor.Visualize | src/market_data_processor.py:92-137 | With no table, a TypeError. Otherwise the error is a KeyError naming the first absent column in the order the three charts read them, or none. With a save path, a chart is saved exactly when its columns and those of every earlier chart are present. Without a save path nothing is saved. The saved paths are always a prefix of the chart paths. |
| MarketDataProcessing.FirstMissingConcat | src/market_data_processor.py:92-137 | Reading the charts' columns one chart after another reports the first gap of the earliest chart that has one. |

## Left out

- Unicode lowercasing: `Lower` maps `A-Z` only. Python's `str.lower()` also lowercases other letters, which `[^a-z\s]` then removes. The rare exceptions, such as U+0130 and the Kelvin sign U+212A, lowercase to an `i` or `k` that survives; the model drops them.
- Values.Str: renders every missing value as `nan`, which is how `astype(str)` renders NaN, the missing value `read_csv` gives an empty text cell. pandas renders None as `None` and NaT as `NaT`; the model does not tell the three apart, so on a None or NaT cell the headline length, cleaned headline and domain differ from pandas.
- Dates and timestamps are rendered by their day and second counts, not in ISO form.
- `pd.read_csv` is I/O: `LoadData` takes the table it would produce. `pd.to_datetime` is a parameter `parse` (with `errors="coerce"`, an unparseable cell becomes missing; without it, the conversion fails).
- TA-Lib's SMA, EMA, RSI and MACD, and pandas' `pct_change`, `rolling(20).std() * 252 ** 0.5` and `cumprod`, are floating-point library calls. They are the uninterpreted parameter `Library`, one aligned value per row. Errors those libraries raise on non-numeric input are not modelled.
- The mean and standard deviation in `detect_spikes` are floating point. The threshold `mean + threshold_factor * std` is a parameter of `DetectSpikes`.
- `headline_length_stats` (`describe`) is floating-point statistics.
- `extract_keywords` and `perform_lda_topic_modeling` are scikit-learn tokenising and randomised LDA fitting.
- `nltk.download` and the stop-word list are network and file I/O.
- `prepare_publication_date` (src/eda/descriptive_stats.py:25-35) is not modelled: its `date_only` step equals the one in `prepare_datetime`, and `dt.year`, `dt.month` and `dt.day` are calendar arithmetic. `dt.hour` and `dt.date` are modelled on an abstract timestamp (day number, second of day). `dt.day_name` counts days from 1970-01-01.
- Matplotlib drawing and `plt.show()` are left out; `Visualize` models only which files are saved and which exception stops it.
- scripts/run_quant_analysis.py is orchestration and printing, and is not part of this model.
- Aggregation.ValueCountsFacts: pandas does not promise an order among publishers with equal counts. The model keeps them in ascending key order, and only the non-increasing counts are stated.
- MarketDataProcessing.SortedIndexFacts: `sort_values` uses an unstable sort. Rows with equal dates are kept in input order here, and only the date order and the permutation are stated.
- PublisherAnalysis.PublisherNewsTypeFacts: `reset_index()` becomes a list of (publisher, text) rows rather than a frame with a fresh integer index.
- TimeSeriesAnalysis.PrepareDatetimeFacts: pandas stores `hour` as floating point once a NaT is present. The model keeps integer hours and missing values.
- Column assignment assumes the assigned values are aligned to the rows by position, as they are for every assignment in these files. Alignment by index labels is not modelled.
