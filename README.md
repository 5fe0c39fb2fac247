# Country data pipeline — a Dafny model

This project models the core of a small data pipeline that prepares country-level data for analysis.
The pipeline works on three tables: demographics (life expectancy, urban population, density), GDP
per capita, and population. It takes them from raw values to a feature matrix:

- `normalize_country` turns a raw country name into a canonical spelling. It strips the name,
  drops one leading article "the " in any letter case, and title-cases the rest.
- `clean_demographics` coerces the six measured columns to numbers. It drops incomplete rows and
  rows whose life expectancies lie outside 40–100, normalises the names, and reports the renamed
  rows.
- `clean_df`, `process_gdp_data` and `process_population_data` clean the GDP and population values.
  They split off rows with a missing value and list Tukey outliers: the GDP on its raw values, the
  population after log10. They also list countries that occur twice and keep the first occurrence
  of each.
- `merge_datasets` and the integration script join the three tables. Each canonicalises names
  through its own alias table (`clean_country`) and indexes the tables by country; the
  integration script also keeps one row per country. Each then takes the inner join and records
  the sorted lost countries. It fills numeric gaps with the column mean and drops rows with a
  text gap. The integration script also z-scores three features. Each builds the feature matrix
  over the rows in country order.
- `feature_engineering` coerces GDP per capita and population to numbers and rejects
  non-positive values. It derives total GDP and the two log10 columns, then z-scores
  three features into a matrix.

The data model is a `Table`, a list of column names plus a list of records. Each record carries
an index label, either a position or a country key, and a map from column names to cells. A cell
is `Missing`, a number (`Num`, a real) or `Text`. An absent entry reads as `Missing`, the model of
NaN/None.

Frames that the source changes in place for its caller are a `Frame` class. Its methods are
specified by the value they leave behind:

- the columns coerced by `clean_demographics`;
- the cleaned value column of the GDP and population steps;
- the three inputs of `merge_datasets`, whose Country column is rewritten and then made the index;
- the frame handed to `feature_engineering`.

Errors raised by pandas become `Result` values: `KeyError` for a missing column, `AttributeError`
for a `.strip()` on a non-text cell, and `ValueError` for a non-positive value or overlapping join
columns.

Modules follow the program: `Strings`, `Names`, `Parse`, `Stats`, `Frames`, `Cleaning`,
`Canonical`, `Impute`, `Reconcile`, `Merge`, `Integration` and `Features`. `Wrappers` and `Seqs`
hold the generic pieces.

Each step is a function of its inputs. A step that loops or mutates is a method proved equal to
that function, for example `CleanDemographics`, `ProcessGdp`, `MergeDatasets`, `Integrate` and
`FeatureEngineering`. The properties the source promises are lemmas about those functions. They
cover:

- which rows survive each filter, as a partition of the input;
- the error raised for each missing column, in the source's order;
- the exact set of countries kept and lost by the join;
- the cells of every output row;
- the order of the final rows and the entries of the feature matrix.

The model proves some properties of the code that a reader might not expect:

- `normalize_country` is not idempotent. `Names.NotIdempotentExample` exhibits
  "the  chad" → " Chad" → "Chad".
  `Names.NormalizeIdempotentIff` exactly characterises the names on which it is a fixed point.
- In `process_population_data`, duplicates are detected before the names are normalised. After
  normalisation two rows can therefore share a name (`Cleaning.PopulationNamesCollide`,
  `Cleaning.ChadCollides`).
- In both alias tables the entry "Côte d'Ivoire" can never fire after `normalize_country`, because
  title-casing turns "d'" into "D'" (`Canonical.CoteDIvoireNeverCanonical`).
- `merge_datasets` selects the column "LifeExpectancy Both", but `clean_demographics` produces
  "Life Expectancy Both". The merge therefore fails with a `KeyError` unless one of the inputs
  carries the former name (`Merge.MergeNeedsLifeExpectancy`).

## Model

| member | source | states |
|---|---|---|
| Strings.Strip | code/cleaning_process.py:9 | `str.strip`: the result is a contiguous slice of the input with no outer whitespace (Python's `isspace` set), and an input without outer whitespace is returned unchanged |
| Strings.StripRemovesSpace | code/cleaning_process.py:9 | every character `strip` removes is whitespace |
| Strings.StripIdempotent | code/cleaning_process.py:9 | stripping twice is stripping once |
| Strings.StripSkip | code/cleaning_process.py:9 | with exactly n leading and m trailing whitespace characters, `strip` returns the slice between them |
| Strings.TrimLeftSkip | code/cleaning_process.py:9 | left trimming drops exactly the leading whitespace run |
| Strings.TrimRightSkip | code/cleaning_process.py:9 | right trimming drops exactly the trailing whitespace run |
| Strings.TrimLeftRemovesSpace | code/cleaning_process.py:9 | every character left trimming removes is whitespace |
| Strings.TrimRightRemovesSpace | code/cleaning_process.py:9 | every character right trimming removes is whitespace |
| Strings.LowerStr | code/cleaning_process.py:10 | `str.lower` keeps the length and lowers each character |
| Strings.Lower | code/cleaning_process.py:10 | lowering a character keeps letters letters, leaves no upper-case ASCII and changes only upper-case ASCII |
| Strings.Upper | code/cleaning_process.py:12 | raising a character keeps letters letters, leaves no lower-case ASCII and changes only lower-case ASCII |
| Strings.CaseMapsAbsorb | code/cleaning_process.py:10-12 | a case map applied after either case map gives the same result as applying it alone |
| Strings.Title | code/cleaning_process.py:12 | `str.title`: same length, each character upper-cased at the start of a word and lower-cased after a letter |
| Strings.TitleIdempotent | code/cleaning_process.py:12 | title-casing twice is title-casing once |
| Strings.TitleKeepsLetters | code/cleaning_process.py:12 | title-casing changes only letter case |
| Strings.TitleIgnoresCase | code/cleaning_process.py:12 | strings equal up to case title-case to the same string |
| Strings.LetterKept | code/cleaning_process.py:12 | title-casing keeps each character's letter-ness |
| Strings.TitleLowerFollowsLetter | code/cleaning_process.py:12 | a lower-case letter of a title-cased string follows a letter |
| Strings.TitleDropPrefix | code/cleaning_process.py:12 | title-casing a suffix that starts after a non-letter equals the suffix of the title-cased string |
| Strings.TitleTakePrefix | code/cleaning_process.py:12 | title-casing a prefix equals the prefix of the title-cased string |
| Strings.StrLessTotal | code/merge_datasets.py:56 | the string order used by `sorted` is total |
| Strings.StrLessTransitive | code/merge_datasets.py:56 | the string order is transitive |
| Strings.StrLessIrreflexive | code/merge_datasets.py:56 | no string sorts before itself |
| Strings.StrLessAsymmetric | code/merge_datasets.py:56 | two strings never sort before each other |
| Strings.StrLeTransitive | code/merge_datasets.py:88 | the non-strict string order is transitive |
| Strings.StrLeTotal | code/merge_datasets.py:88 | any two strings are comparable |
| Names.Stem | code/cleaning_process.py:9-11 | the stripped name without one leading "the " is a suffix of the stripped name |
| Names.NormalizeCountry | code/cleaning_process.py:8-12 | the normalised name is title-cased, equals the stem up to letter case, and is no longer than the input |
| Names.NormalizeCountryUnique | code/cleaning_process.py:8-12 | any title-cased string equal to the stem up to case is the normalised name |
| Names.NormalizeArticle | code/cleaning_process.py:10-12 | a name without outer whitespace that starts with "the " (any case) normalises to the title-cased rest |
| Names.NormalizeNoArticle | code/cleaning_process.py:10-12 | a name without outer whitespace or article normalises to its title-cased form |
| Names.NormalizeIgnoresOuterSpace | code/cleaning_process.py:9 | surrounding whitespace does not change the normalised name |
| Names.LowerArticles | code/cleaning_process.py:10 | the article spellings "The ", "THE ", "the " all lower to "the " |
| Names.TitleBahamas | code/cleaning_process.py:12 | `"Bahamas".title()` is "Bahamas" |
| Names.TitleGambia | code/cleaning_process.py:12 | `"GAMBIA".title()` is "Gambia" |
| Names.TitleChad | code/cleaning_process.py:12 | `"chad".title()` is "Chad" and `" chad".title()` is " Chad" |
| Names.StripExample | code/cleaning_process.py:9 | `"  chad ".strip()` is "chad" and `" Chad".strip()` is "Chad" |
| Names.StripBoth | code/cleaning_process.py:9 | `"  chad ".strip()` is "chad" |
| Names.StripLeading | code/cleaning_process.py:9 | `" Chad".strip()` is "Chad" |
| Names.ExampleBahamas | code/cleaning_process.py:8-12 | "The Bahamas" normalises to "Bahamas" |
| Names.ExampleGambia | code/cleaning_process.py:8-12 | "THE GAMBIA" normalises to "Gambia" |
| Names.ExampleOuterSpace | code/cleaning_process.py:8-12 | "  chad " normalises to "Chad" |
| Names.StripShortens | code/cleaning_process.py:9 | a name with outer whitespace gets shorter when stripped |
| Names.TitleKeepsSpaces | code/cleaning_process.py:12 | title-casing keeps whitespace where it is |
| Names.TitledIdempotentIff | code/cleaning_process.py:8-12 | a title-cased stem is a fixed point of normalisation iff it has no leading whitespace and no leading article |
| Names.NormalizeIdempotentIff | code/cleaning_process.py:8-12 | normalising a normalised name changes nothing iff that name has no leading whitespace and no leading article |
| Names.NotIdempotentExample | code/cleaning_process.py:8-12 | "the  chad" normalises to " Chad", which normalises again to "Chad" |
| Names.NormalizeSpacedArticle | code/cleaning_process.py:8-12 | "the  chad" normalises to " Chad" |
| Names.NormalizeSpacedChad | code/cleaning_process.py:8-12 | " Chad" normalises to "Chad" |
| Names.StripTitled | code/cleaning_process.py:9-12 | stripping a title-cased string leaves it title-cased |
| Names.CleanedNameTitled | code/cleaning_process.py:8-12 | a normalised name stays title-cased after a further strip |
| Parse.KeepNumeric | code/cleaning_process.py:52 | the filtered string holds only digits and dots and is no longer than the input |
| Parse.KeepNumericIsFilter | code/cleaning_process.py:52 | it keeps exactly the digit and dot characters, in order |
| Parse.KeepNumericKeeps | code/cleaning_process.py:52 | a string of digits and dots is kept whole |
| Parse.KeepNumericAppend | code/cleaning_process.py:52 | the filter distributes over concatenation |
| Parse.KeepNumericExample | code/cleaning_process.py:52 | "$12,345.67" filters to "12345.67" |
| Parse.KeepNumericHead | code/cleaning_process.py:52 | "$12," filters to "12" |
| Parse.KeepNumericTail | code/cleaning_process.py:52 | "345.67" filters to itself |
| Parse.Pow10 | code/cleaning_process.py:54 | the powers of ten used to place fraction digits are positive |
| Parse.DigitString | code/cleaning_process.py:54 | the decimal spelling of n is a non-empty digit string whose value is n |
| Parse.DotCountNone | code/cleaning_process.py:54 | a string has no dot iff its dot count is zero |
| Parse.DotPos | code/cleaning_process.py:54 | the split point is the first dot, or the end |
| Parse.DotPosCount | code/cleaning_process.py:54 | after the first dot one dot fewer remains |
| Parse.IntPartDigits | code/cleaning_process.py:54 | the part before the dot is all digits |
| Parse.FracPartDigits | code/cleaning_process.py:54 | with at most one dot, the part after it is all digits |
| Parse.SplitAt | code/cleaning_process.py:54 | a string splits around a dot into its prefix, the dot and its suffix |
| Parse.PartsJoin | code/cleaning_process.py:54 | the integer part, dot and fraction part rebuild the string |
| Parse.PartsAreDigits | code/cleaning_process.py:54 | a one-dot string of digits splits into two digit strings that rebuild it |
| Parse.DecimalValue | code/cleaning_process.py:54 | the value of unsigned digits is non-negative |
| Parse.ParseDecimal | code/cleaning_process.py:53-56 | `float()` on the filtered string succeeds iff it has at most one dot and at least one digit; the value is non-negative |
| Parse.ParseDigitString | code/cleaning_process.py:54 | `float()` reads back the decimal spelling of every natural number |
| Parse.DecimalWithFraction | code/cleaning_process.py:54 | `float("a.b")` is the value of a and b |
| Parse.ParseDecimalRejects | code/cleaning_process.py:55-56 | "", "." and "1.2.3" raise `ValueError`, giving None |
| Parse.DecimalExample | code/cleaning_process.py:54 | `float("12345.67")` is 12345.67 |
| Parse.DigitsExamples | code/cleaning_process.py:54 | the digits "12345" and "67" make 12345.67 |
| Parse.DigitStringExamples | code/cleaning_process.py:54 | 12345 and 67 spell "12345" and "67" |
| Parse.DigitStringTwo | code/cleaning_process.py:54 | 67 spells "67" |
| Parse.DigitStringFive | code/cleaning_process.py:54 | 12345 spells "12345" |
| Parse.CleanDf | code/cleaning_process.py:49-56 | `clean_df`: NaN gives None; a number gives its filtered text read back (its absolute value); text gives a number iff its digit-and-dot filter is a decimal; results are non-negative |
| Parse.CleanCell | code/cleaning_process.py:49-56 | the cell stored by `.apply(clean_df)` is never text, is missing exactly when `clean_df` gives None, and otherwise holds its non-negative value |
| Parse.CleanDfExamples | code/cleaning_process.py:49-56 | "$12,345.67" cleans to 12345.67 and "N/A" to None |
| Parse.Unsigned | code/cleaning_process.py:21 | an unsigned decimal string coerces to a non-negative number, anything else to NaN |
| Parse.ToNumeric | code/cleaning_process.py:21 | `to_numeric(errors='coerce')` never leaves text, keeps numbers and NaN |
| Parse.ToNumericReadsDecimal | code/cleaning_process.py:21 | a decimal string, unsigned or with a sign, coerces to its signed value |
| Parse.ToNumericRejects | code/cleaning_process.py:21 | a string with a non-numeric character after its first position coerces to NaN |
| Stats.SumBounds | code/merge_datasets.py:74 | a sum of values between lo and hi lies between n·lo and n·hi |
| Stats.MeanBetween | code/merge_datasets.py:74 | the mean of values between lo and hi lies between them |
| Stats.InsertReal | code/cleaning_process.py:70-71 | inserting into a sorted list adds exactly that value |
| Stats.InsertRealAscending | code/cleaning_process.py:70-71 | inserting keeps the list ascending |
| Stats.SortReals | code/cleaning_process.py:70-71 | the values sorted for the quantile are ascending and a permutation of the input |
| Stats.ValueAtBracket | code/cleaning_process.py:70-71 | a quantile position lies between its two neighbouring sorted values |
| Stats.ValueAtMonotone | code/cleaning_process.py:70-71 | a later quantile position gives a value at least as large |
| Stats.QuantileMonotone | code/cleaning_process.py:70-71 | the 0.25 quantile is at most the 0.75 quantile (and so for any two quarters) |
| Stats.QuantileWithinRange | code/cleaning_process.py:70-71 | every quantile lies between the smallest and the largest value |
| Stats.FencesOrdered | code/cleaning_process.py:70-74 | the Tukey fences exist for a non-empty column and enclose Q1 and Q3 |
| Stats.InterquartileNotOutside | code/cleaning_process.py:73-76 | no value between Q1 and Q3 is an outlier |
| Frames.Column | code/cleaning_process.py:21 | `df[col]` lists the column's cell in every row, NaN where absent |
| Frames.AssignColumn | code/feature_engineering.py:27 | `df[c] = vals` sets column c row by row, adds c to the columns if new, and changes no label and no other cell |
| Frames.MapCells | code/cleaning_process.py:21 | `df[c] = f(df[c])` applies f to every cell of c and changes no label and no other cell |
| Frames.MapText | code/merge_datasets.py:32-34 | `df[c].apply(f)` of a string function raises `KeyError` when c is absent and `AttributeError` when a cell is not text, otherwise rewrites each cell of c and nothing else |
| Frames.DropColumn | code/cleaning_process.py:42 | `drop(columns=[c])` removes c from the columns and the rows, keeping everything else |
| Frames.Project | code/cleaning_process.py:37 | `df[cols]` keeps exactly the listed columns of every row |
| Frames.Labels | code/cleaning_process.py:24 | the index of a table lists each row's label |
| Frames.Filter | code/cleaning_process.py:24-29 | boolean selection keeps, in order, exactly the rows that pass and keeps the columns |
| Frames.FilterMembers | code/cleaning_process.py:24-29 | every kept row is an input row that passes |
| Frames.KeepFirstBy | code/cleaning_process.py:87 | `drop_duplicates(keep='first')` keeps an ordered subsequence, with distinct keys, containing the first row of each key |
| Frames.Duplicates | code/cleaning_process.py:82 | `duplicated(keep=False)` selects an ordered subsequence of the rows |
| Frames.DuplicatesCharacterized | code/cleaning_process.py:82 | a row is listed as duplicate iff another row has the same key |
| Frames.DuplicatesEmptyIffDistinct | code/cleaning_process.py:82-83 | the duplicate list is empty iff all keys are distinct |
| Frames.OccurrencesPositive | code/cleaning_process.py:82 | each row's key occurs at least once |
| Frames.OccurrencesTwo | code/cleaning_process.py:82 | a key carried by two rows occurs at least twice |
| Frames.OccurrencesOne | code/cleaning_process.py:82 | a key occurring twice has another row besides the given one |
| Frames.OccurrencesWitness | code/cleaning_process.py:82 | a key that occurs has a row carrying it |
| Frames.SameLabels | code/cleaning_process.py:24-42 | tables with the same row labels have the same index |
| Frames.KeySeq | code/merge_datasets.py:42-44 | the index of a keyed table lists each row's country key |
| Frames.KeySeqMembers | code/merge_datasets.py:42-44 | `set(df.index)` holds exactly the listed keys |
| Frames.SetIndex | code/merge_datasets.py:37-39 | `set_index("Country")` makes each row's country text its key, removes the column and keeps the other cells |
| Frames.ResetIndex | code/merge_datasets.py:64 | `reset_index()` raises when the column already exists, otherwise puts the key back as the first column and renumbers the rows |
| Frames.Lookup | code/merge_datasets.py:48 | finding the right-hand row for a key succeeds iff one has that key, and returns the first such row |
| Frames.Join | code/merge_datasets.py:48 | `join(how="inner")` fails iff the column lists overlap; otherwise its columns are the left's then the right's |
| Frames.JoinKeys | code/merge_datasets.py:48 | the joined keys are exactly the keys both sides have |
| Frames.JoinKeySound | code/merge_datasets.py:48 | every joined key is on both sides |
| Frames.JoinKeyComplete | code/merge_datasets.py:48 | every key on both sides is joined |
| Frames.JoinLabels | code/merge_datasets.py:48 | the joined index lists, in left order, exactly the left labels the right side has |
| Frames.JoinValues | code/merge_datasets.py:48 | each joined row combines a left row and the first right row with its key, taking each side's columns from its row |
| Frames.JoinKeepsOrder | code/data_integration.py:69 | a join of a key-sorted left table is key-sorted |
| Frames.FirstObserved | code/data_integration.py:57-59 | `groupby.first()` takes NaN for a column iff every row of that key lacks it |
| Frames.FirstObservedWitness | code/data_integration.py:57-59 | otherwise the value is the one of the first row of that key that has it |
| Frames.GroupFirst | code/data_integration.py:57-59 | grouping gives one row per key, keys ascending, the same key set, each cell its first non-NaN value |
| Frames.GroupFirstKeys | code/data_integration.py:57-59 | the grouped keys are distinct, sorted and the original key set |
| Frames.SortByKey | code/data_integration.py:113 | `sort_index()` permutes the rows into key order |
| Frames.SortByColumn | code/merge_datasets.py:88 | `sort_values("Country")` permutes the rows into country order |
| Frames.Matrix | code/merge_datasets.py:91 | `df[cols].values` has one row per record and entry (i, j) the cell of column j |
| Frames.FirstAbsent | code/feature_engineering.py:10-13 | the first wanted column not present, or none iff all are present |
| Frames.FirstAbsentIsFirst | code/feature_engineering.py:10-13 | every wanted column before the reported one is present |
| Frames.FirstAbsentSuffix | code/feature_engineering.py:10-13 | a present prefix can be skipped when looking for the first absent column |
| Frames.CheckColumns | code/feature_engineering.py:11-13 | the column-presence loop reports the first absent column |
| Frames.Frame.constructor | code/merge_datasets.py:6 | a frame holds the given table |
| Frames.Frame.Assign | code/feature_engineering.py:27 | in-place `df[c] = vals` leaves the assigned table |
| Frames.Frame.Apply | code/cleaning_process.py:61 | in-place `df[c] = df[c].apply(f)` leaves the mapped table |
| Frames.Frame.ApplyText | code/merge_datasets.py:32-34 | in-place apply of a string function leaves the mapped table, or raises and leaves the frame unchanged |
| Frames.Frame.SetIndexInPlace | code/merge_datasets.py:37-39 | `set_index(inplace=True)` leaves the indexed table |
| Cleaning.DemoColumnsAreMeasures | code/cleaning_process.py:16-17 | neither name column is among the six coerced columns |
| Cleaning.PresentPrefix | code/cleaning_process.py:19-21 | the columns coerced before a `KeyError` are the present prefix of the list, ending just before the first absent one |
| Cleaning.Coerce | code/cleaning_process.py:19-21 | coercing columns keeps the rows, their labels, and the columns when all are present |
| Cleaning.CoerceStep | code/cleaning_process.py:19-21 | the loop's next step coerces one more column |
| Cleaning.CoerceEffect | code/cleaning_process.py:19-21 | a coerced column's cell is `to_numeric` of the original, any other cell is unchanged |
| Cleaning.ToNumericIdempotent | code/cleaning_process.py:21 | coercing a coerced cell changes nothing |
| Cleaning.CoerceColumns | code/cleaning_process.py:19-21 | the loop coerces the caller's frame column by column until the first absent one, which it reports |
| Cleaning.CleanDemographics | code/cleaning_process.py:15-45 | the caller's frame is left coerced and the result is the cleaned copy or the `KeyError` of the first absent column |
| Cleaning.CleanDemographicsCases | code/cleaning_process.py:16-21 | the first absent measured column raises `KeyError`; otherwise the coerced table is filtered and renamed |
| Cleaning.CoercedAll | code/cleaning_process.py:19-24 | with every column present the whole list is coerced |
| Cleaning.PresentPrefixAll | code/cleaning_process.py:19-21 | with every column present the present prefix is the whole list |
| Cleaning.PrefixUpTo | code/cleaning_process.py:19-21 | a present prefix ending at an absent column is the present prefix |
| Cleaning.Survivors | code/cleaning_process.py:24-29 | the filtered rows are an ordered subsequence with the same columns |
| Cleaning.SurvivorsValid | code/cleaning_process.py:23-29 | every surviving row has all six measures numeric and the three life expectancies within 40–100 |
| Cleaning.SurvivorPassed | code/cleaning_process.py:24-29 | a survivor is an input row with no gap and all three life expectancies in range |
| Cleaning.NormalizedRows | code/cleaning_process.py:34 | each Country cell becomes its normalised name |
| Cleaning.NamedRows | code/cleaning_process.py:32-34 | after naming, each row keeps its label, holds the normalised name, the original name in Original_Country and its other cells unchanged |
| Cleaning.TidyRows | code/cleaning_process.py:32-42 | the output has one row per survivor, with its label and normalised name, and no Original_Country column |
| Cleaning.TidySize | code/cleaning_process.py:24-42 | the output has exactly as many rows as survive the filters |
| Cleaning.TidyCell | code/cleaning_process.py:32-42 | cells other than the two name columns pass through unchanged |
| Cleaning.TidyLabels | code/cleaning_process.py:24-44 | the output index is the survivors' index: the rows are not re-indexed |
| Cleaning.DemographicsRows | code/cleaning_process.py:15-45 | each output row of `clean_demographics` is a coerced survivor with its label and normalised name |
| Cleaning.DemographicsNumeric | code/cleaning_process.py:19-24 | every measured cell of the output is numeric |
| Cleaning.DemographicsInRange | code/cleaning_process.py:27-29 | every output life expectancy lies within 40–100 |
| Cleaning.DemographicsKeepsOrder | code/cleaning_process.py:24-29 | the output index is an ordered subsequence of the input index |
| Cleaning.NamedPairs | code/cleaning_process.py:32-37 | the (Original_Country, Country) pairs are each survivor's name and its normalised form, and a row counts as changed iff the two differ |
| Cleaning.NamedMismatches | code/cleaning_process.py:37 | the mismatch table lists exactly the renamed pairs in order |
| Cleaning.MismatchPairs | code/cleaning_process.py:37 | the mismatch table holds the two name columns of the changed rows |
| Cleaning.MismatchesExact | code/cleaning_process.py:36-37 | the reported mismatches are exactly the survivors whose name normalisation changed, in order |
| Cleaning.SplitByGap | code/cleaning_process.py:64-67 | the missing rows and the kept rows partition the table |
| Cleaning.OutliersExact | code/cleaning_process.py:76 | the outliers are exactly the rows whose value lies outside the fences, in order |
| Cleaning.ColumnFencesOrdered | code/cleaning_process.py:70-74 | a column with a number has fences, the lower at most the upper |
| Cleaning.CleanColumnValues | code/cleaning_process.py:61 | each cleaned cell is `clean_df` of the original, missing or non-negative |
| Cleaning.DedupUnique | code/cleaning_process.py:82-87 | after de-duplication the country keys are distinct and the first row of each country is kept |
| Cleaning.ProcessGdp | code/cleaning_process.py:59-93 | the caller's frame is left with the cleaned GDP column and the result is the four tables of `process_gdp_data` or its `KeyError` |
| Cleaning.GdpSplit | code/cleaning_process.py:61-67 | the missing and the kept rows partition the cleaned rows; the missing ones lack a GDP value, the kept ones hold a non-negative number |
| Cleaning.CleanedValues | code/cleaning_process.py:61 | a cleaned column holds only NaN or non-negative numbers |
| Cleaning.GdpOutliers | code/cleaning_process.py:70-76 | the GDP outliers are exactly the kept rows outside the Tukey fences, whose lower fence is at most the upper |
| Cleaning.GdpDuplicates | code/cleaning_process.py:79-87 | the GDP data has distinct names and comes from the named rows; a row is listed duplicate iff another has its name |
| Cleaning.ProcessPopulation | code/cleaning_process.py:96-136 | the caller's frame is left with the cleaned population column and the result is the four tables of `process_population_data` or its `KeyError` |
| Cleaning.PopulationOutliers | code/cleaning_process.py:109-117 | the outliers are exactly the rows whose log population lies outside the fences, and all of them have a positive population |
| Cleaning.LoggedPositive | code/cleaning_process.py:109 | a log population is present only where the population is positive |
| Cleaning.PopulationNames | code/cleaning_process.py:121-129 | de-duplication happens on the raw names, whose keys are distinct; the output holds their normalised forms |
| Cleaning.PopulationNamesCollide | code/cleaning_process.py:121-129 | two kept rows whose names normalise alike leave the output with a repeated country |
| Cleaning.ChadCollides | code/cleaning_process.py:129 | "chad" and "Chad" are distinct raw names that normalise alike |
| Canonical.CleanCountry | code/merge_datasets.py:22-24 | `clean_country` strips the name and replaces it by its canonical form when it is an alias |
| Canonical.CleanCountryIdempotent | code/merge_datasets.py:22-24 | for a closed alias table, cleaning twice is cleaning once |
| Canonical.CleanCountryUnspaced | code/merge_datasets.py:22-24 | a name without outer whitespace is looked up as it is |
| Canonical.CleanCountryPreimage | code/merge_datasets.py:22-24 | a cleaned name is the stripped name or the canonical form of that alias |
| Canonical.MergeAliasesKeys | code/merge_datasets.py:8-19 | the nine aliases of `merge_datasets` |
| Canonical.MergeAliasesTargets | code/merge_datasets.py:8-19 | the nine canonical names of `merge_datasets` |
| Canonical.MergeAliasesDisjoint | code/merge_datasets.py:8-19 | no canonical name is itself an alias |
| Canonical.MergeAliasesUnspaced | code/merge_datasets.py:8-19 | no canonical name carries outer whitespace |
| Canonical.MergeAliasesClosed | code/merge_datasets.py:8-24 | the table is closed, so its `clean_country` is idempotent |
| Canonical.IntegrationAliasesKeys | code/data_integration.py:18-27 | the seven aliases of the integration script |
| Canonical.IntegrationAliasesTargets | code/data_integration.py:18-27 | the seven canonical names of the integration script |
| Canonical.IntegrationAliasesDisjoint | code/data_integration.py:18-27 | no canonical name is itself an alias |
| Canonical.IntegrationAliasesUnspaced | code/data_integration.py:18-27 | no canonical name carries outer whitespace |
| Canonical.IntegrationAliasesClosed | code/data_integration.py:18-33 | the table is closed, so its `clean_country` is idempotent |
| Canonical.UntitledAliasUnreachable | code/cleaning_process.py:8-12 | an alias that title-casing changes never equals a stripped normalised name |
| Canonical.UntitledCote | code/merge_datasets.py:10 | title-casing changes both "Côte d'Ivoire" and "Cote d'Ivoire" |
| Canonical.UntitledCongo | code/data_integration.py:21 | title-casing changes "DR Congo" |
| Canonical.UntitledMicronesia | code/data_integration.py:23 | title-casing changes "Micronesia (country)" |
| Canonical.MergeCoteAlias | code/merge_datasets.py:10 | only "Côte d'Ivoire" maps to "Cote d'Ivoire" in `merge_datasets` |
| Canonical.IntegrationCoteAlias | code/data_integration.py:20 | only "Côte d'Ivoire" maps to "Cote d'Ivoire" in the integration script |
| Canonical.CoteDIvoireNeverCanonical | code/merge_datasets.py:10 | after `normalize_country` neither table ever yields "Cote d'Ivoire" |
| Impute.Observed | code/merge_datasets.py:74 | the non-NaN numbers of a column are no more than its cells |
| Impute.ObservedEmpty | code/merge_datasets.py:74 | a column with a number has an observed value |
| Impute.ObservedMembers | code/merge_datasets.py:74 | the values `mean()` averages are exactly the numbers of the column |
| Impute.NumericColumns | code/merge_datasets.py:71 | `select_dtypes(include=number)` lists exactly the columns with no text cell |
| Impute.TextColumns | code/merge_datasets.py:77 | `select_dtypes(exclude=number)` lists exactly the columns with a text cell |
| Impute.FillMean | code/merge_datasets.py:72-74 | `fillna(mean)` sets each cell of the column to its fill value and changes nothing else |
| Impute.ImputeColumns | code/merge_datasets.py:72-74 | filling a list of columns keeps the columns, the rows and their labels |
| Impute.ImputeEffect | code/merge_datasets.py:72-74 | a filled column's cell is its fill value, any other cell is unchanged |
| Impute.ImputeNumeric | code/merge_datasets.py:71-74 | the loop over the numeric columns gives the filled table |
| Impute.ImputeColumnsStep | code/merge_datasets.py:72-74 | the loop's next step fills one more column |
| Impute.ImputeFillsNumeric | code/merge_datasets.py:72-74 | after filling, a numeric column with an observed value has no NaN |
| Impute.DropGaps | code/data_integration.py:95-96 | `dropna(subset=cats)` keeps, in order, rows with no gap in those columns |
| Impute.DropGapsPartition | code/data_integration.py:95-96 | the kept and the dropped rows partition the table, and every dropped row has a gap in one of the columns |
| Impute.DropMissingText | code/merge_datasets.py:77-78 | dropping on the text columns keeps, in order, the rows with no text gap |
| Impute.DropMissingTextPartition | code/merge_datasets.py:77-78 | the kept and the dropped rows partition the table, and every dropped row has a text gap |
| Reconcile.Join3 | code/merge_datasets.py:48 | the double inner join has the three tables' columns in order |
| Reconcile.Join3Keys | code/merge_datasets.py:48 | its keys are exactly those all three tables have |
| Reconcile.LostKeys | code/merge_datasets.py:55-56 | the lost-country list is strictly ascending |
| Reconcile.KeyListingMembers | code/merge_datasets.py:42-45 | the listed keys are the union of the three key sets |
| Reconcile.LostKeysMembers | code/merge_datasets.py:55-56 | a country is lost iff some table has it and the join does not |
| Reconcile.LostPartition | code/merge_datasets.py:42-56 | the lost and the joined countries are disjoint and make up all countries |
| Merge.LackingCountry | code/merge_datasets.py:27-29 | the first dataset without a Country column is named, or none iff all have it |
| Merge.FindLacking | code/merge_datasets.py:27-29 | the checking loop reports that dataset |
| Merge.Indexed | code/merge_datasets.py:32-39 | each row is keyed by its canonical country name |
| Merge.Repaired | code/merge_datasets.py:70-78 | gap repair keeps the columns |
| Merge.MergeDatasets | code/merge_datasets.py:6-101 | the result is that of `merge_datasets`, and each input frame is left canonicalised and indexed up to the step that raised |
| Merge.CanonicaliseAll | code/merge_datasets.py:32-34 | the three Country columns are rewritten in turn, stopping at the first that raises and leaving the later ones unchanged |
| Merge.CanonIndexable | code/merge_datasets.py:32-39 | a canonicalised Country column is text, and indexing by it gives the keyed table |
| Merge.MergeJoined | code/merge_datasets.py:42-91 | joining, listing lost countries, repairing, checking and building the matrix gives the combined result |
| Merge.MergeCountryCheck | code/merge_datasets.py:27-29 | a missing Country column raises `KeyError` naming the first such dataset |
| Merge.MergeStages | code/merge_datasets.py:26-48 | a successful merge passed the checks and joined the three indexed tables |
| Merge.CombinedStages | code/merge_datasets.py:48-64 | a successful combination joined, reset the index and finished |
| Merge.MergeKeys | code/merge_datasets.py:42-56 | the merged countries are exactly those all three tables share; the lost list is ascending, disjoint from them and completes them to all countries |
| Merge.IndexedKeys | code/merge_datasets.py:32-44 | the key set of an indexed table is the set of canonical names of its rows |
| Merge.IndexedColumns | code/merge_datasets.py:37-39 | indexing removes exactly the Country column |
| Merge.FinishedResult | code/merge_datasets.py:82-91 | the result holds the lost list, a country-sorted permutation of the repaired rows with the selected columns, and the matrix of those columns |
| Merge.FinishedErrors | code/merge_datasets.py:82-85 | the selected-column check raises `KeyError` naming the first selected column the joined rows lack, and raises nothing when both are present |
| Merge.MergeSelectedErrors | code/merge_datasets.py:48-85 | once the tables are canonicalised and joined, the merge fails iff a selected column is in none of the inputs, with a `KeyError` naming the first such column |
| Merge.MergeColumns | code/merge_datasets.py:48-64 | the merged columns are Country and the columns of the three inputs |
| Merge.MergeNeedsLifeExpectancy | code/merge_datasets.py:82-85 | the merge succeeds only if some input has a column "LifeExpectancy Both" |
| Integration.Grouped | code/data_integration.py:51-59 | canonicalising, indexing and grouping gives a keyed table |
| Integration.CanonIndexable | code/data_integration.py:46-59 | a canonicalised Country column is text, and grouping its indexed table gives the grouped table |
| Integration.Scale | code/data_integration.py:103-110 | scaling raises `KeyError` on the first absent feature, otherwise keeps the columns, rows and labels |
| Integration.ScaleColumns | code/data_integration.py:103-110 | the scaling loop gives the scaled table |
| Integration.ScaleEffect | code/data_integration.py:103-110 | a scaled column's cell is the z-score of its original column at that cell, any other cell is unchanged |
| Integration.Repair | code/data_integration.py:85-96 | gap repair keeps the columns |
| Integration.Integrate | code/data_integration.py:43-116 | the computation from the three tables gives the result of the script, or the error it raises |
| Integration.Combine | code/data_integration.py:62-116 | joining, listing lost countries, repairing, scaling and building the matrix gives the combined result |
| Integration.IntegrateCountryCheck | code/data_integration.py:43-44 | a missing Country column in any table raises `KeyError` |
| Integration.IntegrateStages | code/data_integration.py:43-69 | a successful run canonicalised the three tables and joined their grouped forms |
| Integration.IntegrateKeys | code/data_integration.py:57-77 | the grouped keys are unique; the joined countries are those all three share; the lost list is ascending, disjoint from them and completes them to all countries |
| Integration.RepairNoTextGap | code/data_integration.py:94-96 | after repair no text column has a gap |
| Integration.RepairPartition | code/data_integration.py:85-96 | the kept rows and the rows with a text gap partition the filled rows |
| Integration.SettledResult | code/data_integration.py:98-116 | the result holds the lost list, a key-sorted permutation of the scaled rows, and the matrix of the three features |
| Integration.SameLabelsSorted | code/data_integration.py:110-113 | rewriting cells keeps a key-sorted table key-sorted |
| Integration.RepairKeepsOrder | code/data_integration.py:85-96 | repair keeps a key-sorted table key-sorted |
| Integration.SortIndexKeepsOrder | code/data_integration.py:113 | the joined rows are already in key order, so `sort_index` leaves the scaled table as it is |
| Integration.SettledScaled | code/data_integration.py:103-110 | each scaled feature cell is the z-score of the repaired column at that cell, other cells unchanged |
| Features.Coerced | code/feature_engineering.py:16-17 | coercion keeps the rows |
| Features.CoercedCells | code/feature_engineering.py:16-17 | the two columns become `to_numeric` of their cells, everything else unchanged |
| Features.Products | code/feature_engineering.py:27 | total GDP has one cell per row |
| Features.ProductExample | code/feature_engineering.py:27 | 1500 × 17000000 is 25500000000, and NaN times a number is NaN |
| Features.LogColumn | code/feature_engineering.py:32-33 | a log column has one cell per row |
| Features.Enriched | code/feature_engineering.py:27-33 | adding the three columns keeps the rows |
| Features.ZColumn | code/feature_engineering.py:44-48 | a z-scored column has one cell per row |
| Features.FeatureMatrix | code/feature_engineering.py:51-55 | the matrix has one row per record and one entry per feature |
| Features.NormalizeFeatures | code/feature_engineering.py:44-48 | the loop builds the map of z-scored columns |
| Features.FeatureEngineering | code/feature_engineering.py:6-55 | the caller's frame is left as the source leaves it and the result is the feature matrix or the error raised |
| Features.FeatureKeyErrors | code/feature_engineering.py:10-13 | a missing required column raises `KeyError` naming the first, with the frame untouched |
| Features.FeatureValueErrors | code/feature_engineering.py:19-24 | `ValueError` is raised on GDP iff a coerced GDP value is non-positive, then on population iff a coerced population value is; the frame is left coerced |
| Features.FeatureEnriched | code/feature_engineering.py:26-33 | each row holds the coerced inputs, their product and their logs, and every other cell unchanged |
| Features.FeatureColumns | code/feature_engineering.py:27-33 | the three new columns are appended in order |
| Features.FeatureDefined | code/feature_engineering.py:19-33 | with positive inputs the total GDP is positive and each log is defined exactly where its input is |
| Features.PositiveRowDefined | code/feature_engineering.py:19-33 | a row with positive inputs has a positive product and defined logs |
| Features.FeatureNeedsLifeExpectancy | code/feature_engineering.py:37-41 | with valid inputs the run succeeds iff "LifeExpectancy Both" is present, and raises its `KeyError` otherwise |
| Features.FeatureMatrixEntries | code/feature_engineering.py:44-55 | entry (i, j) of the matrix is the z-score of the j-th feature column of the enriched frame at row i |
| Seqs.Where | code/cleaning_process.py:24 | filtering keeps, in order, exactly the elements that pass |
| Seqs.WherePartition | code/cleaning_process.py:64-67 | an element filter and its complement partition the sequence |
| Seqs.KeepFirst | code/cleaning_process.py:87 | keeping the first of each key gives an ordered subsequence with distinct keys that covers every key |
| Seqs.KeepFirstNoop | code/cleaning_process.py:87 | with distinct keys nothing is dropped |
| Seqs.Insert | code/merge_datasets.py:88 | insertion adds exactly that element |
| Seqs.InsertSorted | code/merge_datasets.py:88 | insertion keeps a sorted sequence sorted |
| Seqs.SortBy | code/merge_datasets.py:88 | sorting by a key gives a sorted permutation |
| Seqs.SortSorted | code/data_integration.py:113 | sorting a sorted sequence leaves it unchanged |
| Seqs.InsertUnique | code/merge_datasets.py:56 | inserting into a strictly ascending list keeps it strictly ascending and adds exactly that element |
| Seqs.SortedUnique | code/merge_datasets.py:56 | `sorted(list(set))` is strictly ascending with exactly the given elements |

## Left out

- Reading CSV files, writing the CSV reports and `X.npy`, creating directories and every `print`
  are not modelled. The integration script's three tables are parameters. The tables each step
  writes out are returned instead.
- `feature_engineering` saves its matrix and its enriched frame; the model returns the matrix and
  leaves the enriched frame in the caller's `Frame`.
- log10 and the z-score are abstract parameters (`log10`, `z`): floating-point means, standard
  deviations and logarithms are not modelled. The z-score of a column is any function of the
  whole column applied cell by cell.
- Numeric dtypes are inferred from the cells: a column is numeric when it holds no text. pandas
  keeps the dtype a column was read with.
- Parse.ToNumeric: only an optional sign followed by an unsigned decimal is recognised. Exponents,
  surrounding whitespace, "inf" and "nan" spellings coerce to NaN.
- Parse.KeepNumeric: the digit filter keeps the ASCII digits '0'–'9' only. Python's `str.isdigit`
  also accepts other Unicode digits, such as '²', '١' or '５'; they are dropped here.
- Parse.CleanDf: `float()` is modelled over ASCII digits only, after the ASCII digit filter. So
  "12²" gives 12.0 here, while Python keeps '²' and `float` then fails (None). And "١٢" gives None
  here, while Python reads 12.0. For a number it yields the absolute value, the reading of its
  plain decimal spelling; spellings in exponent form are not modelled.
- Strings.Title: case mapping covers ASCII letters only; any other non-whitespace character above
  U+007F counts as a letter whose case is not changed. Unicode title-casing is not modelled.
- Frames.Join: each left row takes the first right row with its key. The row multiplication pandas
  performs for repeated keys is not modelled. The integration script makes its keys unique before
  joining; `merge_datasets` does not, so there a country repeated on the right side of a join
  (two aliases collapsed by `clean_country`, say) is joined once where pandas repeats the row.
- Merge.MergeDatasets: the rows are sorted with a stable sort, so rows with the same Country keep
  their joined order. pandas' default `sort_values` is not stable, and ties may come out in
  another order. `Merge.FinishedResult` states only what pandas promises: the rows are sorted
  by Country and are a permutation of the repaired rows.
- Merge.MergeDatasets: requires the three frames to be distinct objects; passing the same frame
  twice is not modelled.
- The `set_index('Country')` calls without `inplace` in the cleaning functions return a copy that is
  discarded; the model leaves their result unindexed, as the code does.
- Concurrency and the crawler, the command-line entry point and the analysis module are outside
  this model.
