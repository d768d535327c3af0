# InsiderBot rule layer in Dafny

InsiderBot collects insider purchases (Form 4 filings, Finviz scans), enriches
them with daily price data, tags every trade, and scores and backtests the
tags. This project models the deterministic rule layer of that pipeline and
proves properties about it:

- **Tagging.** Three rules tag each trade:
  - the insider's role, from the relationship text, by first-match keyword rules;
  - the trade size, from the fraction of the company bought;
  - the company size, from the market cap.

  Footnotes are classified into four motives by ordered substring rules.
- **Scoring and bucketing.** A trade's score is the sum of its tag weights. The score falls into one of four
  conviction buckets. The backtest keeps the trades that carry an outcome tag,
  reads the case 1 and case 2 outcomes, and reports per bucket the share of each
  outcome.
- **Outcome normalisation and training/prediction sets.**
  - Outcomes are mapped to binary labels.
  - Labelled trades become the two training sets; unlabelled trades become the prediction set.
  - Every known tag becomes a 0/1 column.
  - Column names are sanitised as the model libraries require.
  - The prediction feature matrix is aligned to the trained feature list.
- **Filtering.**
  - A ticker pre-filter uses an exclusion list and a market-cap floor.
  - After price enrichment, a split/merger filter compares the insider price with the day's open.
  - A low-volatility filter drops trades below an ATR% floor.
  - ATR is the mean true range over a 14-day window ending on the trade day.
- **Merging and deduplicating the tables.**
  - The per-ticker file keeps the last row of each trade. The daily file does the same within one read, but compares the old file's dates as text with the new batch's dates, so a trade saved again later the same day is kept twice (see Findings).
  - The Finviz master file keeps the first row of each trade.
  - All three are sorted by date, latest first; the master file is then normalised to the required schema.
  - Each ticker's OHLC cache file keeps one bar per day in date order, derives the previous close when it is missing, and merges fetched bars after the cached ones.
- **RRR arithmetic.** Risk-to-reward ratios, targets, stop and net gains of the trade summary.

Data frames are modelled as a column list and rows that map column names to
cell values (`Frames`). Floats that can be NaN or infinite are a `Float`
datatype (`Market`). Dates are day numbers. Prices and caps are exact reals.
Every stateful piece of the source has an imperative model:

- the OHLC cache directory is a class whose `files` map the load and save methods update;
- the loops of `add_atr`, `classify_footnotes`, `one_hot_tags`, `normalize_schema`, `pre_ohlc_noise_reduction`, `calculate_rrr` and `update_ohlc` are methods with loop invariants, proved against specification functions.

## Model

| member | source | states |
|---|---|---|
| Classifier.ClassifyInsiderRole | core/engine/classifier.py:3-34 | An empty relationship gives no role and only an empty one does; anything else gets one of the thirteen role tags |
| Classifier.RoleOfText | core/engine/classifier.py:9-34 | The keyword chain always ends in a role tag ("Other" as the fallback) |
| Classifier.FirstMatchingRole | core/engine/classifier.py:9-34 | The first-match scan over an ordered rule table gives the tag of some rule or "Other" |
| Classifier.FirstMatchingRoleIsFirst | core/engine/classifier.py:9-34 | The scan returns the tag of the first rule whose keywords occur, and "Other" exactly when none does |
| Classifier.RoleOfTextFollowsTable | core/engine/classifier.py:9-34 | The if/elif chain equals the first-match scan over the ordered keyword table (CEO, CFO, COO, CRO, CIO, CBO, Chairman, President, EVP, Portfolio Manager, 10% Owner, Director) |
| Classifier.LaterRolesFollowTable | core/engine/classifier.py:21-34 | The tail of the table from Chairman on reads as the source's elif chain |
| Classifier.MentionsTwo | core/engine/classifier.py:9-20 | A rule with two keywords matches exactly when either keyword occurs in the text |
| Classifier.MentionsOne | core/engine/classifier.py:21-32 | A one-keyword rule matches exactly when its keyword occurs |
| Classifier.FirstMatchingRoleAt | core/engine/classifier.py:9-34 | A scan starting at rule k gives rule k's tag if it matches and otherwise continues with rule k+1 |
| Classifier.RoleIgnoresCase | core/engine/classifier.py:7 | Relationships that agree after lower-casing get the same role |
| Classifier.RoleReadsAmpersandAsAnd | core/engine/classifier.py:7 | Rewriting "&" to "and" beforehand does not change the role |
| Classifier.CeoBeatsDirector | core/engine/classifier.py:9-32 | "CEO, Director" is tagged CEO: earlier rules take priority |
| Classifier.NoKeywordIsOther | core/engine/classifier.py:33-34 | A non-empty relationship that mentions no keyword is "Other" |
| Classifier.RoleOfTextNoKeyword | core/engine/classifier.py:9-34 | Text containing none of the nineteen keywords gets "Other" |
| Classifier.TradeRole | core/engine/classifier.py:70-71 | The role of a row is the role of its stripped, lower-cased relationship text: empty or a role tag |
| Classifier.NanNamesNoRole | core/engine/classifier.py:9-34 | The text "nan" mentions no role keyword |
| Classifier.NanIsNormal | core/engine/classifier.py:70 | "nan" is unchanged by strip, lower-casing and the ampersand rewrite |
| Classifier.NormalTextUnchanged | core/engine/classifier.py:7 | Trimmed lower-case text without "&" is unchanged by the normalisation |
| Classifier.MissingRelationshipIsOther | core/engine/classifier.py:70-73 | A missing relationship cell reads as "nan" and is tagged "Other" rather than left untagged |
| Classifier.BlankRelationshipHasNoRole | core/engine/classifier.py:70-73 | A whitespace-only relationship gives no role tag |
| Classifier.ClassifyCompanyCap | core/engine/classifier.py:37-49 | Unknown size exactly for a missing cap. A NaN cap fails every `<` test and is mega cap. A finite cap gets each band exactly for its half-open dollar range (300M, 2B, 10B, 200B) |
| Classifier.CapBandMonotone | core/engine/classifier.py:40-49 | A larger finite cap never falls in a smaller band |
| Classifier.ClassifyTradeSize | core/engine/classifier.py:51-64 | Unknown exactly for a missing ownership fraction; very large at 0.5% or more, large from 0.1%, small from 0.01%, the dash marker below |
| Classifier.TagTrade | core/engine/classifier.py:66-85 | The tags are the role (if any), the size (unless it is a marker) and the cap of the snapshot's float cell, in that order |
| Classifier.AppendTags | core/engine/classifier.py:67-85 | The three conditional appends build exactly that list |
| Classifier.AssembleTagsShape | core/engine/classifier.py:66-85 | With non-marker parts, the list has the role first, the size second-to-last and the cap last, and no dash marker |
| Classifier.TagTradeShape | core/engine/classifier.py:66-85 | Every trade gets one to three tags: the role if any, the size unless below 0.01%, and always the cap last. It never gets the dash marker; with neither ownership nor cap data the last two tags are both unknown size |
| Classifier.TagsAreNotMarkers | core/engine/classifier.py:72-83 | No role, size or cap tag is a marker that tag_trade filters out, except the dash for tiny trades |
| Backtest.Weight | core/engine/backtest.py:9-25 | A tag weighs at most 4, and an unknown tag weighs 0 |
| Backtest.ScoreTrade | core/engine/backtest.py:39-40 | A score is at most 4 per tag and is 0 when no tag is weighted |
| Backtest.ScoreConcat | core/engine/backtest.py:39-40 | The score is additive over concatenated tag lists |
| Backtest.DuplicateCountsTwice | core/engine/backtest.py:39-40 | A repeated tag is counted again: the score is a sum over the list, not over the tag set |
| Backtest.ScoreRemove | core/engine/backtest.py:39-40 | Removing one tag lowers the score by exactly its weight |
| Backtest.ScorePermutation | core/engine/backtest.py:39-40 | The score does not depend on tag order |
| Backtest.FirstBucket | core/engine/backtest.py:43-47 | The first-match scan over the bucket table returns a bucket containing the score, or "Uncategorized" when none does |
| Backtest.FirstBucketPicksFirst | core/engine/backtest.py:44-46 | The first bucket containing the score is the one returned |
| Backtest.ContiguousCovers | core/engine/backtest.py:27-32 | A gap-free bucket table covers every score from its first lower bound up |
| Backtest.BucketTableReading | core/engine/backtest.py:27-47 | The bucket scan reads as 0-4 Low, 5-8 Medium, 9-12 High, 13+ Ultra, negative Uncategorized |
| Backtest.AssignBucket | core/engine/backtest.py:43-47 | Each bucket is returned exactly for its score range |
| Backtest.ScoreNeverUncategorized | core/engine/backtest.py:27-47 | A computed score is never "Uncategorized" |
| Backtest.FilterOutcomeTrades | core/engine/backtest.py:35-36 | Exactly the rows with an outcome tag (after strip) are kept |
| Backtest.FilterOutcomeTradesConcat | core/engine/backtest.py:35-36 | The filter works batch by batch and keeps row order |
| Backtest.OutcomeCase1Found | core/engine/backtest.py:62-67 | A case 1 outcome is found exactly when the filter would keep the row, and it is one of the three outcome tags |
| Backtest.OutcomeCase1IsFirst | core/engine/backtest.py:62-67 | The case 1 outcome is the first outcome tag, stripped |
| Backtest.OutcomeCase1Skip | core/engine/backtest.py:62-67 | A leading tag that is not an outcome tag is passed over |
| Backtest.KeptTradesHaveOutcome | core/engine/backtest.py:55-69 | Every row that survives the filter has a case 1 outcome |
| Backtest.SimplifyCase2Outcome | core/engine/backtest.py:72-81 | A missing text gives no outcome. Success exactly when the text contains "SUCCESSFUL". Neutral and unsuccessful ("BAD") apply only when the earlier words are absent. No outcome exactly when the text is missing or contains none of the three words |
| Backtest.UnsuccessfulReadsAsSuccess | core/engine/backtest.py:75-76 | Text containing "UNSUCCESSFUL" is read as successful, because it contains "SUCCESSFUL" |
| Backtest.ScoreTrades | core/engine/backtest.py:55-69 | One scored row per kept row, in order. Each row's score is the weight sum of its tags and its bucket that score's bucket (one of four). Its case 1 outcome is the first outcome tag and its case 2 outcome the simplified case 2 text |
| Backtest.ScoreTradesConcat | core/engine/backtest.py:55-69 | Scoring works row by row: scoring two batches apart gives the scored concatenation |
| Backtest.ScoredOutcomesWithin | core/engine/backtest.py:62-83 | Every scored row's outcome on either axis lies in that axis's outcome set |
| Backtest.CountOutcome | core/engine/backtest.py:89-95 | Per-bucket outcome counts are bounded by the row count |
| Backtest.CountLabelled | core/engine/backtest.py:89 | The labelled rows of a bucket are at most the rows |
| Backtest.Outcomes3 | core/engine/backtest.py:7 | Each axis has exactly three distinct outcomes |
| Backtest.CountsPartition | core/engine/backtest.py:89-107 | Within a bucket, the three outcome counts add up to the labelled rows |
| Backtest.OutcomeShare | core/engine/backtest.py:90-95 | A share exists exactly when the bucket has labelled rows, and it is non-negative |
| Backtest.SharesSumToOne | core/engine/backtest.py:90-107 | Each line of the normalised value_counts table sums to 1 |
| Backtest.DivideSum | core/engine/backtest.py:92 | Proof helper, no source behaviour of its own: Three parts of a positive whole, each divided by it, sum to 1 |
| Embedding.MotiveOf | core/engine/embedding.py:59-101 | A matched footnote gets one of the four motive categories. Which rule decides is stated by `Embedding.MotiveIsFirstFiring` |
| Embedding.FirstFiring | core/engine/embedding.py:61-99 | Reference reading of the ordered rule table: a result is always the motive of some rule |
| Embedding.FirstFiringIsFirst | core/engine/embedding.py:61-99 | The reference reading gives the motive of the first rule that fires, and nothing exactly when no rule fires |
| Embedding.FirstFiringAt | core/engine/embedding.py:61-99 | One step of the table scan at rule k |
| Embedding.FiresOne | core/engine/embedding.py:60-101 | A one-phrase rule fires exactly when its phrase occurs |
| Embedding.FiresEither | core/engine/embedding.py:74-97 | A rule of two alternative phrases fires exactly when either occurs |
| Embedding.FiresBoth | core/engine/embedding.py:70-73 | The option-exercise rule fires exactly when both words occur |
| Embedding.MotiveOfFollowsTable | core/engine/embedding.py:59-101 | The chain of tests in the footnote loop equals the first-firing reading of the nine-rule table, in source order |
| Embedding.LaterMotivesFollowTable | core/engine/embedding.py:78-101 | The last five rules of the table read as the tail of the chain |
| Embedding.MotiveIsFirstFiring | core/engine/embedding.py:59-101 | A footnote gets the motive of rule k exactly when rule k fires and no earlier rule does. It gets none exactly when no rule fires |
| Embedding.Matched | core/engine/embedding.py:56-101 | At most one motive per footnote, each from the four categories |
| Embedding.Tags | core/engine/embedding.py:61-99 | The tag list is the motives' tags, in order |
| Embedding.Notes | core/engine/embedding.py:62-100 | The note list is the motives' notes, in order |
| Embedding.ClassifyFootnotes | core/engine/embedding.py:47-123 | Tags and notes are equally long and non-empty. They are the matched motives in footnote order, or the single conviction default when nothing matched |
| Embedding.MatchedStep | core/engine/embedding.py:56-101 | One more footnote appends its motive, if any |
| Embedding.MatchedConcat | core/engine/embedding.py:56-101 | Matching distributes over batches of footnotes |
| Embedding.MatchedOne | core/engine/embedding.py:57-101 | A single footnote yields its lower-cased motive or nothing |
| Embedding.OptionAloneIsNotExercise | core/engine/embedding.py:70-73 | "option" without "exercise" is never tagged as an option exercise |
| Embedding.GrantOrAwardIsCompensation | core/engine/embedding.py:74-77 | Without an earlier automatic rule, a grant or award is compensation |
| PreparePredict.NormalizeTags | core/engine/prepare_predict.py:21-33 | Without duplicates, and with the same elements as a list cell or a parsed list string. A parse error, a non-list parse or any other value gives the empty list |
| PreparePredict.AllTags | core/engine/prepare_predict.py:55 | The merged list has no duplicates and holds exactly the tags and the footnote tags |
| PreparePredict.MergedColumn | core/engine/prepare_predict.py:55 | Each row's all_tags cell is the distinct union of its two tag cells |
| PreparePredict.NormalizedColumn | core/engine/prepare_predict.py:52-53 | Each cell of the column is replaced by its normalised list |
| PreparePredict.WithColumns | core/engine/prepare_predict.py:37-38 | Assigning columns keeps the existing order and appends new names |
| PreparePredict.HotColumn | core/engine/prepare_predict.py:38 | Each row gets 1 exactly when the tag is in its tag list, 0 otherwise |
| PreparePredict.OneHotTags | core/engine/prepare_predict.py:35-39 | Every listed tag column holds the membership bit, other cells are unchanged, and new columns are appended in order |
| PreparePredict.OneHotStep | core/engine/prepare_predict.py:37-38 | Adding one more tag column keeps every earlier encoding |
| PreparePredict.KeepExisting | core/engine/prepare_predict.py:69 | A column is kept exactly when it is wanted and exists |
| PreparePredict.PreparePredictData | core/engine/prepare_predict.py:41-71 | The output has the existing tag and identifier columns and one row per trade with neither outcome. Each plain tag column is that trade's membership bit; identifiers are copied unchanged when the input has no bracketed column names |
| PreparePredict.AugmentKeepsOutcome | core/engine/prepare_predict.py:52-60 | Normalising the tag columns does not change which rows lack outcomes |
| PreparePredict.AugmentKeepsCell | core/engine/prepare_predict.py:52-55 | Normalising the tag columns leaves every other cell unchanged |
| PreparePredict.TagColumnsRow | core/engine/prepare_predict.py:52-55 | Row by row, the three tag assignments equal the per-row augmentation |
| PreparePredict.TagColumnsNames | core/engine/prepare_predict.py:52-55 | The three assignments add only the missing tag columns, in order |
| PreparePredict.TagColumnsAugment | core/engine/prepare_predict.py:52-55 | The frame after the three assignments is the row-wise augmentation |
| PreparePredict.OutputTagCells | core/engine/prepare_predict.py:62-71 | After renaming, each plain tag column of a kept row holds its membership bit in the merged tags |
| PreparePredict.OutputIdentifierCells | core/engine/prepare_predict.py:62-71 | After renaming, the identifier cells of a kept row are its input cells |
| PreparePredict.RenameKeepsPlainName | core/engine/prepare_predict.py:66 | A column without brackets keeps its name and values through the rename |
| PreparePredict.RenameKeepsIdentifier | core/engine/prepare_predict.py:66 | No tag is renamed onto an identifier column, so identifiers keep their values |
| PreparePredict.TagNotRenamedToIdentifier | core/engine/prepare_predict.py:66-68 | A sanitised tag name is never an identifier name |
| PreparePredict.IdentifierNotATag | core/engine/prepare_predict.py:68 | The identifier columns are neither tags nor working tag columns |
| PreparePredict.IdInitials | core/engine/prepare_predict.py:68 | The identifier names start with letters that no tag starts with |
| PreparePredict.TagInitials | core/engine/prepare_predict.py:6-19 | Every master tag starts with a character that is not a bracket or a letter of the identifier names |
| PreparePredict.PeopleTagInitials | core/engine/prepare_predict.py:7-9 | The same holds for the role and size tags |
| PreparePredict.CompanyTagInitials | core/engine/prepare_predict.py:10-13 | The same holds for the cap and sector tags |
| PreparePredict.SignalTagInitials | core/engine/prepare_predict.py:14-18 | The same holds for the price, behaviour and motive tags |
| PreparePredict.TagInitialsOfGroups | core/engine/prepare_predict.py:6-19 | The property holds for the concatenated tag groups |
| PreparePredict.TagInitialsConcat | core/engine/prepare_predict.py:6-19 | The property is preserved by concatenation |
| PreparePredict.HotColumnsPlainOrTag | core/engine/prepare_predict.py:55-63 | Every column after one-hot encoding is bracket-free or a tag |
| PreparePredict.AllTagsNotATag | core/engine/prepare_predict.py:55-63 | The all_tags working column is not a tag |
| PreparePredict.KeptWhenRenamedToItself | core/engine/prepare_predict.py:66-69 | A wanted column that the rename maps to itself is kept |
| PreparePredict.OutputColumnsHaveNoBrackets | core/engine/prepare_predict.py:66-69 | No output column name contains a bracket |
| PreparePredict.KnifeTagsDropped | core/engine/prepare_predict.py:15-69 | Both "caught the knife" tags are lost from the output, because the rename changes their bracketed names |
| PreparePredict.PlainTagKept | core/engine/prepare_predict.py:63-69 | A tag without brackets is always an output column, whatever the input columns |
| PreparePredict.IdentifierKept | core/engine/prepare_predict.py:68-69 | An identifier column that exists in an input without bracketed names is an output column |
| PreparePredict.OutputColumnOrder | core/engine/prepare_predict.py:68-69 | The output lists the kept tag columns first, then the kept identifiers |
| PrepareTrain.Mapping1 | core/engine/prepare_train.py:6-10 | Label 1 exactly for successful C1, 0 exactly for neutral or unsuccessful C1, no label otherwise |
| PrepareTrain.Mapping2 | core/engine/prepare_train.py:12-15 | Label 1 exactly for successful, 0 exactly for unsuccessful, no label otherwise |
| PrepareTrain.NeutralNotInCase2 | core/engine/prepare_train.py:12-15 | Neutral case 2 trades get no label and leave the case 2 set |
| PrepareTrain.SimplifiedOutcomesLabelled | core/engine/prepare_train.py:12-15 | Of the simplified case 2 outcomes, exactly the successful and unsuccessful ones get a label |
| PrepareTrain.Case1OutcomesLabelled | core/engine/prepare_train.py:6-10 | Every case 1 outcome found in a tag list gets a label |
| PrepareTrain.ParsedColumn | core/engine/prepare_train.py:43 | Each tags cell is parsed when it is a string and kept otherwise |
| PrepareTrain.Label1Column | core/engine/prepare_train.py:46 | Each row's case 1 target is the mapping of its outcome |
| PrepareTrain.Label2Column | core/engine/prepare_train.py:47 | Each row's case 2 target is the mapping of its outcome |
| PrepareTrain.LabelRow | core/engine/prepare_train.py:43-47 | Row by row, the three assignments equal the per-row labelling |
| PrepareTrain.LabelRows | core/engine/prepare_train.py:43-47 | The frame after the three assignments is the row-wise labelling |
| PrepareTrain.TargetsMatchLabels | core/engine/prepare_train.py:50-56 | A row has a non-missing target exactly when its outcome has a label |
| PrepareTrain.LabelledCells | core/engine/prepare_train.py:43-47 | A labelled row holds the parsed tags and both mapped targets |
| PrepareTrain.TrainInitials | core/engine/prepare_train.py:18-34 | No training tag is a target column name |
| PrepareTrain.NotATrainTag | core/engine/prepare_train.py:52-58 | The target names are not training tags |
| PrepareTrain.TrainingSet | core/engine/prepare_train.py:50-52 | The set has the tag columns followed by the target, one row per masked row, the membership bits and the row's target |
| PrepareTrain.Case1ReadBack | core/engine/prepare_train.py:46-53 | The case 1 set has one row per trade with a case 1 label. Its tag columns are that trade's parsed tag memberships and its target is the mapped label |
| PrepareTrain.Case2ReadBack | core/engine/prepare_train.py:47-59 | The same for case 2 with the case 2 label |
| PrepareTrain.PrepareTrainingData | core/engine/prepare_train.py:41-59 | Both sets have the tag columns plus their target, exactly the labelled trades, their tag memberships and labels |
| PrepareTrain.PredictTagsExtendTrainTags | core/engine/prepare_train.py:18-34 | The prediction tag list is the training list followed by the four motives |
| Train.SanitizeColumn | core/engine/train.py:11-13 | Same length; "[", "]", "<" and ">" become "_" and every other character is kept, so no forbidden character remains |
| Train.SanitizeIdempotent | core/engine/train.py:11-13 | Sanitising twice is sanitising once |
| Train.SanitizeCleanName | core/engine/train.py:11-13 | A name without forbidden characters is unchanged |
| Predict.SanitizeColumn | core/engine/predict.py:18-19 | Same length; brackets become "_" and every other character is kept |
| Predict.SanitizeRemovesBrackets | core/engine/predict.py:18-19 | No bracket remains |
| Predict.SanitizeIdempotent | core/engine/predict.py:18-19 | Sanitising twice is sanitising once |
| Predict.SanitizePlain | core/engine/predict.py:18-19 | A bracket-free name is unchanged |
| Predict.SanitizeOnlyFrom | core/engine/predict.py:18-19 | A name without "_" is the sanitised form only of itself |
| Predict.SanitizeFirstChar | core/engine/predict.py:18-19 | A first character that is not a bracket is kept |
| Predict.AgreesWithTraining | core/engine/predict.py:18-19 | Without angle brackets, the prediction and training sanitisers agree |
| Predict.DisagreesOnAngles | core/engine/predict.py:18-19 | With an angle bracket they disagree ("a<b") |
| Predict.FeatureColumns | core/engine/predict.py:25-30 | A column is a feature exactly when it is not one of the four identifier columns (ticker, insider, date, price) |
| Predict.FeatureColumnsConcat | core/engine/predict.py:30 | Feature selection works column block by block |
| Predict.FeatureMatrix | core/engine/predict.py:28-35 | The matrix has exactly the expected columns and one row per input row. An expected column that is a feature after the rename holds that feature's value; any other is 0 |
| Predict.FeatureMatrixKeepsValues | core/engine/predict.py:28-35 | When no input column name has a bracket, an expected feature present in the input keeps its value |
| Predict.FeatureMatrixFillsMissing | core/engine/predict.py:35 | An expected feature absent after the rename is filled with 0 |
| Cleaner.DropReasonOf | src/preparation/cleaner.py:28-41 | A ticker is kept exactly when it is not excluded and has a cap that is at least the floor or NaN (NaN fails the `<` test). Otherwise the reason is the exclusion list first, then the missing cap, then the cap below the floor |
| Cleaner.Dropped | src/preparation/cleaner.py:26-39 | Every dropped entry is an input ticker with its own drop reason |
| Cleaner.PreOhlcNoiseReduction | src/preparation/cleaner.py:5-49 | The loop's valid list and dropped list are the kept tickers and the drop reasons, in order |
| Cleaner.Names | src/preparation/cleaner.py:44-45 | The names of the dropped entries, in order |
| Cleaner.EveryTickerOnce | src/preparation/cleaner.py:28-41 | Every input ticker is either valid or dropped, never both, so the counts add up |
| Cleaner.ValidTickersConcat | src/preparation/cleaner.py:28-41 | The pre-filter works batch by batch in order |
| Cleaner.CapAtFloorKept | src/preparation/cleaner.py:37 | A cap exactly at the floor is kept |
| Cleaner.LowAtrAccounting | src/preparation/cleaner.py:51-85 | A row is kept exactly when its ATR% is known and at least the floor. Kept, reported and NaN rows account for every row, so NaN rows vanish unreported |
| Cleaner.SplitRatio | src/preparation/cleaner.py:106-112 | Never infinite. The ratio is 1 when either price is zero (falsy), or when the open is missing but the insider price is not. It is NaN when the insider price is missing and the open is not zero. Otherwise it is max over min, and at least 1 for positive prices |
| Cleaner.QuotientAtLeastOne | src/preparation/cleaner.py:108-109 | The larger positive price over the smaller is at least 1 |
| Cleaner.SplitAccounting | src/preparation/cleaner.py:104-116 | A row is kept exactly when its ratio is finite and at most the threshold. Kept, anomalous and NaN rows account for every row |
| Cleaner.MissingOpenSurvives | src/preparation/cleaner.py:110 | With a threshold of at least 1, a row lacking its open (or with a zero price) survives |
| Cleaner.MissingPriceDropped | src/preparation/cleaner.py:108-115 | A row lacking its insider price is dropped whatever the threshold |
| Cleaner.SplitRatioSymmetric | src/preparation/cleaner.py:108-109 | The ratio is symmetric in the two prices |
| NoiseHandler.PreOhlcFilterByTicker | src/handler/noise_handler.py:17-19 | Going through the distinct tickers keeps exactly the trades whose own ticker passes, in order |
| NoiseHandler.PreOhlcFilterSameTickerSameFate | src/handler/noise_handler.py:17-19 | Trades of one ticker are kept or dropped together |
| NoiseHandler.PreOhlcFilterConcat | src/handler/noise_handler.py:17-19 | The pre-filter works batch by batch |
| NoiseHandler.PostOhlcFilterIsConjunction | src/handler/noise_handler.py:35-38 | The post-OHLC stage is one filter by the conjunction of both tests, and the two filters commute |
| NoiseHandler.PostOhlcFilterRows | src/handler/noise_handler.py:35-38 | A trade survives exactly when its enriched row has a finite ratio within the threshold and an ATR% at least the floor |
| NoiseHandler.PostOhlcFilterNeedsAtr | src/handler/noise_handler.py:35-38 | A trade without an ATR never survives |
| DataPreparation.NormalizeSchema | src/preparation/data_preparation.py:22-29 | Exactly the required columns, same rows; present columns keep their values and missing ones are NA. It equals the reindex |
| DataPreparation.SelectFilledIsReindex | src/preparation/data_preparation.py:26-29 | Adding the missing columns and selecting is the reindex |
| DataPreparation.ReindexIdempotent | src/preparation/data_preparation.py:22-29 | Normalising twice is normalising once |
| DataPreparation.TrueRange | src/preparation/data_preparation.py:79-83 | The true range is the largest of the three ranges against the previous close, and non-negative |
| DataPreparation.WindowTrueRanges | src/preparation/data_preparation.py:79-83 | The first bar's range is high minus low (its previous close is missing); every later bar's is its true range |
| DataPreparation.IndexOfDay | src/preparation/data_preparation.py:63-70 | The first bar of the day, or none when the day is absent |
| DataPreparation.WindowAtr | src/preparation/data_preparation.py:86 | The rolling mean at the last bar is non-negative |
| DataPreparation.AtrOnDay | src/preparation/data_preparation.py:63-87 | No ATR exactly when the day is missing or fewer than `window` bars precede it; the ATR% is ATR over that day's close |
| DataPreparation.WindowCells | src/preparation/data_preparation.py:76-87 | The window's ATR is non-negative and its ATR% is ATR over the last close |
| DataPreparation.WithAtr | src/preparation/data_preparation.py:45-95 | Each trade gets its own ATR cells and nothing else changes |
| DataPreparation.AddAtr | src/preparation/data_preparation.py:31-95 | The loop's output is the trades with their ATR cells |
| DataPreparation.AppendTradeAtr | src/preparation/data_preparation.py:48-90 | One pass appends exactly that trade's two cells |
| DataPreparation.WriteAtrColumns | src/preparation/data_preparation.py:92-93 | The two lists become the trades' ATR columns |
| DataPreparation.ColumnsAreWithAtr | src/preparation/data_preparation.py:92-95 | Writing the accumulated lists gives the ATR-enriched trades |
| DataPreparation.TradeAtr | src/preparation/data_preparation.py:49-90 | One trade's early exits and window computation give exactly its ATR cells |
| DataPreparation.RangesBetween | src/preparation/data_preparation.py:79-83 | The true ranges of a run of bars, each against the previous close |
| DataPreparation.SumNonNegative | src/preparation/data_preparation.py:86 | Proof helper, no source behaviour of its own: Sums of true ranges are non-negative |
| DataPreparation.MeanNonNegative | src/preparation/data_preparation.py:86 | Means of true ranges are non-negative |
| DataPreparation.WindowAtrIsMean | src/preparation/data_preparation.py:76-86 | The rolling mean at the end of a window is the mean of its last `window` true ranges, i.e. of the bars after the first |
| DataPreparation.RangesOfSlice | src/preparation/data_preparation.py:76 | The true ranges of a slice are those of the series at the same bars |
| DataPreparation.AtrIsMeanTrueRange | src/preparation/data_preparation.py:63-86 | The ATR of a trade day is the mean true range of the `window` bars ending on it |
| DataPreparation.SliceAtrIsMean | src/preparation/data_preparation.py:69-86 | The same, stated on the slice `iloc[start:end+1]` |
| DataPreparation.SumBounds | src/preparation/data_preparation.py:86 | Proof helper, no source behaviour of its own: A sum of values within bounds is within n times those bounds |
| DataPreparation.MeanBetween | src/preparation/data_preparation.py:86 | A mean lies between the bounds of its values |
| DataPreparation.AtrBetweenRanges | src/preparation/data_preparation.py:63-86 | The ATR lies between the smallest and largest true range of its window |
| DataPreparation.AtrIgnoresLaterBars | src/preparation/data_preparation.py:63-86 | Bars after the trade day do not change its ATR |
| DataPreparation.SameWindowSameAtr | src/preparation/data_preparation.py:63-86 | Series that agree on the window give the same ATR |
| DataPreparation.IndexOfDayPrefix | src/preparation/data_preparation.py:63-70 | Appending later bars does not move a day's position |
| DataPreparation.AtrPctOnPositiveClose | src/preparation/data_preparation.py:87 | With a positive close the ATR% is finite and non-negative |
| DataPreparation.AtrOfWindow | src/preparation/data_preparation.py:76-87 | The day's ATR cells are those of its window slice |
| DataPreparation.NoSeriesNoAtr | src/preparation/data_preparation.py:52-56 | A ticker with no cached bars gets missing ATR cells |
| Market.Divide | src/preparation/data_preparation.py:87 | Float division of a non-negative number: finite exactly for a non-zero divisor, where it is the quotient. By zero it is +infinity, or NaN for 0/0 |
| Market.DivideByPositive | src/preparation/data_preparation.py:87 | By a positive divisor the quotient is finite, non-negative, and multiplies back |
| Summary.RatioFor | core/engine/summary.py:16-24 | Infinite exactly when the risk is not positive. Otherwise the ratio is non-negative, positive exactly when the reward is, and ratio times risk is the positive part of the reward |
| Summary.CalculateRrr | core/engine/summary.py:3-26 | One ratio per target percentage, each the target's ratio; all infinite when there is no risk |
| Summary.NonEmptyHasElement | core/engine/summary.py:20 | Proof helper, no source behaviour of its own: A non-empty key set has an element |
| Summary.Targets | core/engine/summary.py:49-51 | The targets are 15%, 17% and 20% above the insider price |
| Summary.StopTarget | core/engine/summary.py:52 | The stop is 10% below the price, hence below a positive price |
| Summary.NetGain | core/engine/summary.py:56-57 | With a tax rate in [0, 1] and a gain, the net is between 0 and the gross. Below 100% tax, the net is positive exactly when the gross is |
| Summary.PositiveFactor | core/engine/summary.py:57 | Proof helper, no source behaviour of its own: A product with a positive factor keeps its sign |
| Summary.SetupGains | core/engine/summary.py:54-58 | One (target, net gain) pair per target percentage |
| Summary.PctChange | core/engine/summary.py:47 | Undefined exactly at a zero insider price. Otherwise it is 100 times the relative change, positive exactly when the price rose |
| Summary.RatioPerShare | core/engine/summary.py:16-24 | With risk and reward positive, the share count cancels: the ratio is the per-share reward over the per-share risk |
| Summary.InsiderRatios | core/engine/summary.py:49-61 | For the insider's own entry with shares, the three ratios are exactly 1.5, 1.7 and 2.0 |
| Summary.NoSharesIsInfinite | core/engine/summary.py:17-20 | With no shares every ratio is infinite |
| Summary.LaterEntryNoBetter | core/engine/summary.py:61-71 | With shares held and the stop below both entries, entering at a higher price never gives a better ratio |
| Summary.ShrinkingRatio | core/engine/summary.py:24 | The ratio inequality on per-share prices |
| Summary.CancelFactor | core/engine/summary.py:17-24 | Proof helper, no source behaviour of its own: A common positive factor cancels in a quotient |
| Summary.DivideOut | core/engine/summary.py:24 | Proof helper, no source behaviour of its own: Cross-multiplied inequality of positive quotients |
| CacheManager.SortAscending | src/io/cache_manager.py:72-105 | The bars in ascending date order, a permutation of the input |
| CacheManager.SortAscendingSorted | src/io/cache_manager.py:72 | Sorting bars that are already strictly ascending (one bar per day) changes nothing |
| CacheManager.WithPrev | src/io/cache_manager.py:77-79 | Only the previous-close cell changes: missing for the first bar, the previous close for every later one |
| CacheManager.SaveForm | src/io/cache_manager.py:103-106 | The saved bars are strictly ascending by day, with the same days as the input. Each day's bar is its first input bar |
| CacheManager.SaveFormFirst | src/io/cache_manager.py:104-105 | The saved bar of a day is its first input bar |
| CacheManager.DistinctAscending | src/io/cache_manager.py:104-105 | Distinct days in ascending order are strictly ascending |
| CacheManager.SaveFormIdempotent | src/io/cache_manager.py:103-106 | Saving saved bars again changes nothing |
| CacheManager.LoadedShape | src/io/cache_manager.py:52-89 | A loaded series is ascending and as long as its file; a missing file is the empty series. It has a previous-close column unless it is an empty file saved without one |
| CacheManager.LoadKeepsExistingPrev | src/io/cache_manager.py:71-84 | A file with the column loads as a permutation of its bars, and nothing is written |
| CacheManager.LoadDerivesPrev | src/io/cache_manager.py:71-82 | A non-empty file without the column loads with it derived in date order and is written back |
| CacheManager.LoadIgnoresCase | src/io/cache_manager.py:48-50 | The ticker's case does not matter |
| CacheManager.LoadAfterSave | src/io/cache_manager.py:52-106 | Loading right after saving gives back the bars written, and writes nothing |
| CacheManager.OhlcCache.constructor | src/io/cache_manager.py:5-6 | The cache starts with the given files |
| CacheManager.OhlcCache.Save | src/io/cache_manager.py:92-107 | Only the ticker's file is overwritten, by the deduplicated, sorted bars |
| CacheManager.OhlcCache.Load | src/io/cache_manager.py:52-89 | Returns the loaded series and writes back only a file whose column was derived |
| Ohlc.Today | core/engine/ohlc.py:13 | The last fetchable day is before the current one |
| Ohlc.MinOf | core/engine/ohlc.py:17-23 | The minimum of non-empty days |
| Ohlc.MaxOf | core/engine/ohlc.py:17-24 | The maximum of non-empty days |
| Ohlc.DaysOf | core/engine/ohlc.py:17 | Exactly the trade days of a ticker, non-empty for a traded ticker |
| Ohlc.MinMonotone | core/engine/ohlc.py:20 | Capping at today is monotone |
| Ohlc.Tickers | core/engine/ohlc.py:17-22 | Exactly the traded tickers |
| Ohlc.Ranges | core/engine/ohlc.py:17-20 | One range per ticker |
| Ohlc.Starts | core/engine/ohlc.py:23 | The range starts, in order |
| Ohlc.Ends | core/engine/ohlc.py:24 | The range ends, in order |
| Ohlc.FetchWindow | core/engine/ohlc.py:17-24 | A window exists exactly when there are trades |
| Ohlc.TickerRangeStart | core/engine/ohlc.py:17-18 | A ticker's range starts 7 days before one of its trades, and no trade of the ticker is earlier |
| Ohlc.TickerRangeEnd | core/engine/ohlc.py:17-20 | A ticker's range ends 60 days after its latest trade or at yesterday, whichever is earlier |
| Ohlc.FetchWindowCoversRanges | core/engine/ohlc.py:17-24 | The fetch window covers every ticker's range |
| Ohlc.ExtremeTrades | core/engine/ohlc.py:23-24 | The earliest and latest trades exist |
| Ohlc.FetchWindowStart | core/engine/ohlc.py:18-23 | The window starts 7 days before the earliest trade |
| Ohlc.FetchWindowEnd | core/engine/ohlc.py:19-24 | The window ends 60 days after the latest trade or at yesterday, whichever is earlier |
| Ohlc.FetchWindowEndAbove | core/engine/ohlc.py:19-24 | One half of that bound |
| Ohlc.EndAtLeast | core/engine/ohlc.py:19-24 | The latest ticker's end reaches the bound |
| Ohlc.FetchWindowEndBelow | core/engine/ohlc.py:19-24 | The other half of that bound |
| Ohlc.TickerEndBelow | core/engine/ohlc.py:19-20 | No ticker's end passes the bound |
| Ohlc.FetchWindowOfAllTrades | core/engine/ohlc.py:13-24 | The window is [earliest - 7, min(latest + 60, yesterday)] |
| Ohlc.Fresh | core/engine/ohlc.py:35 | Fetched bars enter the merge without a previous close |
| Ohlc.UpdateOhlc | core/engine/ohlc.py:32-36 | The cache after the saving loop is the in-order merge of every fetched frame |
| Ohlc.MergeFetched | core/engine/ohlc.py:33-36 | One non-empty fetched frame is merged into its ticker's file; an empty one changes nothing |
| Ohlc.SaveAfterLoad | core/engine/ohlc.py:34-36 | The save overwrites whatever the load wrote back |
| Ohlc.MergeAllStep | core/engine/ohlc.py:32-36 | One more fetched frame is one more merge |
| Ohlc.MergedTouchesOnlyTicker | core/engine/ohlc.py:32-36 | Other tickers' files are untouched |
| Ohlc.CachedBarWins | core/engine/ohlc.py:35 | A cached bar wins over a fetched bar of the same day |
| Ohlc.FetchedDayAdded | core/engine/ohlc.py:35 | A new fetched day is added as its first fetched bar, without a previous close |
| Ohlc.FreshFirst | core/engine/ohlc.py:35 | Blanking the previous close does not move a day's first bar |
| Ohlc.MergedDays | core/engine/ohlc.py:35-36 | The merged file has one bar per day, ascending, and exactly the cached and fetched days |
| Ohlc.FreshDays | core/engine/ohlc.py:35 | Blanking the previous close keeps the days |
| Ohlc.MergedKeepsPrevColumn | core/engine/ohlc.py:34-36 | The merged file keeps the previous-close column whenever the loaded series had it |
| Ohlc.MergeAllSkipsEmpty | core/engine/ohlc.py:33 | Empty fetched frames leave the cache as it was |
| Ohlc.MergeAllUntouched | core/engine/ohlc.py:32-36 | A file whose ticker was not fetched is unchanged |
| FileManager.SaveTradesToCsv | core/io/file_manager.py:21-45 | The written file is the concatenation deduplicated keeping the last row per trade key and sorted by filing date, latest first. Without a file it is the sorted batch |
| FileManager.SaveDailyTradesToCsv | core/io/file_manager.py:47-71 | The written file is the old file as read, with its filing dates still text, concatenated with the batch. Repeats of the daily key (filing URL included) are dropped keeping the last, then the dates are parsed and the rows sorted latest first. Without a file it is the sorted batch |
| FileManager.DailyRepeatSurvives | core/io/file_manager.py:59-66 | A trade already in the daily file, saved again the same day, is written twice: the two copies carry the same daily key once parsed |
| FileManager.SavedDailyParsed | core/io/file_manager.py:33-41 | The daily save with the old file read with its dates parsed: one row per daily key, latest first, whenever there was a file |
| FileManager.DailyRepeatDroppedWhenParsed | core/io/file_manager.py:59-66 | With the dates parsed on reading, the repeated trade is written once |
| FileManager.SaveFinvizTradesToCsv | core/io/file_manager.py:99-125 | The daily file is the scan. The master file is the concatenation deduplicated keeping the first row per trade, latest transaction first |
| FileManager.FilingDates | core/io/file_manager.py:93 | Exactly the parsed filing dates of the file |
| FileManager.MaxDay | core/io/file_manager.py:97 | The largest date |
| FileManager.LatestFilingDate | core/io/file_manager.py:75-97 | Nothing without a file or column, or when every date is missing. Otherwise a date in the file that no date exceeds |
| FileManager.KeepLastDistinctSorted | core/io/file_manager.py:35-41 | One row per key, sorted by date, latest first |
| FileManager.KeptLastIsWritten | core/io/file_manager.py:35-41 | The last row of every key is written |
| FileManager.KeepLastNewWins | core/io/file_manager.py:34-41 | A re-saved trade is written as its newest version |
| FileManager.KeepLastExistingSurvives | core/io/file_manager.py:34-41 | A trade only in the old file survives |
| FileManager.KeepLastRows | core/io/file_manager.py:34-41 | Only input rows are written, and exactly the input keys |
| FileManager.KeepFirstDistinctSorted | core/io/file_manager.py:116-122 | One row per key, sorted by date, latest first |
| FileManager.KeepFirstRows | core/io/file_manager.py:116-122 | Only input rows are written, and each key is represented by its first row |
| FileManager.FinvizExistingWins | core/io/file_manager.py:110-122 | An existing master row wins over a rescraped one |
| FileManager.FirstSaveKeepsEveryRow | core/io/file_manager.py:43-45 | A first save keeps every row, sorted by filing date |
| StorageManager.SaveFinvizTradesToCsv | src/io/storage_manager.py:13-61 | The snapshot is the scan; the master file is the first-kept merge, normalised to exactly the required columns |
| StorageManager.KeyColumnsRequired | src/io/storage_manager.py:43-56 | Every key column and the date are required columns |
| StorageManager.MasterColumns | src/io/storage_manager.py:36-40 | The merged columns include the scan's |
| StorageManager.NormalizedMasterDistinctSorted | src/io/storage_manager.py:36-56 | The written master has one row per trade, latest transaction first |
| StorageManager.ReindexedMasterDistinctSorted | src/io/storage_manager.py:36-56 | The same for any column set containing the key and date |
| StorageManager.NormalizedMasterKeepsExisting | src/io/storage_manager.py:36-56 | An existing trade's first row survives normalisation on every column it has |
| StorageManager.NormalizedMasterRowCount | src/io/storage_manager.py:36-56 | The master holds at most the old rows plus the scan |
| Frames.SetColumn | core/engine/prepare_predict.py:52-55 | Column assignment overwrites or appends one column and nothing else |
| Frames.SetColumnRow | core/engine/prepare_predict.py:52-55 | Row by row, assignment updates one cell |
| Frames.ToDatetime | core/io/file_manager.py:66 | Text cells of the column become the dates the parser reads from them, and no text remains in it. Every other cell is unchanged |
| Frames.ToDatetimeRow | core/io/file_manager.py:66 | Row i after the parse is row i with its date cell parsed |
| Frames.Select | core/engine/prepare_train.py:52 | Selection gives exactly the named columns, with unchanged cells |
| Frames.NewColumns | core/io/file_manager.py:34 | The columns of the second frame not in the first |
| Frames.Concat | core/io/file_manager.py:34 | Rows concatenated; columns are the first frame's followed by the new ones |
| Frames.MapNamesHasKey | core/engine/prepare_predict.py:66 | A renamed column comes from some column |
| Frames.Rename | core/engine/prepare_predict.py:66 | Renaming carries each column's values to its new name |
| Frames.RenameIdentity | core/engine/predict.py:28 | A rename that fixes every column keeps the cells |
| Frames.Reindex | src/preparation/data_preparation.py:26-29 | Exactly the given columns; present ones keep their cells, missing ones get the fill |
| Frames.ReindexAgrees | src/preparation/data_preparation.py:29 | Reindexing keeps the cells of present columns |
| Frames.ReindexKeepsRow | src/io/storage_manager.py:56 | Every input row survives reindexing on the shared columns |
| Frames.ReindexKeepsKeysAndOrder | src/io/storage_manager.py:53-56 | Reindexing keeps distinct keys and date order when it keeps those columns |
| Seqs.DedupeLast | core/io/file_manager.py:35-39 | One element per key, the last of each, with the same keys |
| Seqs.DedupeLastPair | core/io/file_manager.py:61-65 | Of two rows, the first is dropped exactly when the second repeats its key |
| Seqs.DedupeFirst | core/io/file_manager.py:116-119 | One element per key, the first of each, with the same keys |
| Seqs.DedupeFirstDistinct | src/io/cache_manager.py:104 | Deduplicating distinct keys changes nothing |
| Seqs.Distinct | core/engine/prepare_predict.py:27-32 | No duplicates, the same elements |
| Seqs.SortByRank | core/io/file_manager.py:41 | The sort gives a sorted permutation |
| Seqs.SortSorted | src/io/cache_manager.py:105 | Sorting input that is already in order with no two ranks equal changes nothing |
| Seqs.SortTwins | core/io/file_manager.py:67 | Sorting two copies of one row gives those two copies |
| Seqs.Insert | core/io/file_manager.py:41 | Insertion keeps the sequence sorted and adds exactly one element |
| Text.Strip | core/engine/classifier.py:70 | The result is no longer than the input and has no whitespace at either end. `Text.StripRemovesOnlySpace` states that only surrounding whitespace is removed |
| Text.StripLeft | core/engine/classifier.py:70 | A suffix of the input, not starting with whitespace, whose removed prefix is all whitespace |
| Text.StripRight | core/engine/classifier.py:70 | A prefix of the input, not ending with whitespace, whose removed suffix is all whitespace |
| Text.StripRemovesOnlySpace | core/engine/classifier.py:70 | The stripped text is a contiguous piece of the input with only whitespace before and after it |
| Text.ReplaceChar | core/engine/classifier.py:7 | No pattern character remains when the replacement has none. A text without the pattern is unchanged. A one-character replacement works position by position |
| Text.ReplaceCharConcat | core/engine/classifier.py:7 | Replacement distributes over concatenation |
| Text.ReplaceCharOne | core/engine/classifier.py:7 | The pattern character becomes the whole replacement ("&" becomes "and"); any other character is kept |

## Left out

- I/O: reading and writing CSV and JSON files, directory creation, printing and progress bars. Files are values passed in and returned, and the OHLC cache directory is a map held by a class. Timestamped snapshot names are not modelled.
- The network and external libraries: fetching filings and OHLC history (`fetch_filing_html`, `extract_footnotes`, `fetch_bulk_ohlc`), the Yahoo and Finviz scrapers, and model training and inference. The fetched bars are the `fetched` input of `Ohlc.UpdateOhlc`; the model's expected feature list is the `expected` input of `Predict.FeatureMatrix`.
- `update_motive_tags` and the commented-out embedding fallback of `classify_footnotes`: they depend on the network or a language model.
- The clock. "Today" is the `now` parameter of `Ohlc.Today`; date parsing (`pd.to_datetime`) and `ast.literal_eval` are inputs, as day numbers and a `parse` function.
- `calculate_ownership_pct` and the snapshot market cap are inputs of `Classifier.TagTrade`; the cap is a float cell, so a NaN cap is tagged mega cap as in the source. The behavioural detectors (cluster, multiple and smart buys) are not part of this model.
- Floating-point rounding: prices, caps, ratios and shares are exact reals. NaN and infinity are the `Float` datatype where the source can produce them. NaN bar prices in the OHLC series are not modelled.
- Unicode case: `lower()` and `upper()` are modelled on ASCII letters. `strip()` removes the six characters of Python's `string.whitespace` (space, tab, newline, carriage return, vertical tab, form feed). The separators `\x1c`-`\x1f`, `\x85`, `\xa0` and other Unicode spaces, which `str.strip()` also removes, are not modelled.
- Order that Python or pandas leave unspecified:
  - `list(set(...))` is modelled as deduplication keeping first occurrences; contracts promise only no duplicates and the same elements;
  - `groupby` output order is not modelled;
  - the default `sort_values` is not stable, but is modelled by a stable insertion sort; contracts promise only sorted order and a permutation, and the lemmas that a sorted input comes back unchanged (`Seqs.SortSorted`, `CacheManager.SortAscendingSorted`) require distinct ranks, so nothing is promised about the order of ties.
- The `.date()` call on a missing transaction date in `drop_split_merger_anomalies`' report, and `add_atr` on a trade without a parsed date. Trade days are always present in the model.
- DataPreparation.TradeAtr: the per-trade re-sort by date is left out, because the series it reads is what the cache loads, already in date order. A day held by several bars is located at its first bar; the source's `get_loc` would return a slice there.
- Frames.ToDatetime: `parse` is total. Text that is not a date, which pandas rejects with an error, gets some date too; the files these saves write hold only dates in that column. Integers in a date column are not reinterpreted.
- FileManager.SaveDailyTradesToCsv: the batch's filing dates are day cells, as the daily scan's `date` objects compare among themselves. The old file's other columns are taken as read, with no dtype differences between a re-read number and the batch's.
- Predict.FeatureMatrix: the final `.astype(float)` is left out. It does not change the 0/1 tag features, but a non-numeric feature cell, where the source raises, is passed through unchanged.
- PrepareTrain.ParsedTags: `parse` is total, so a malformed tags string gets some value. The source's `ast.literal_eval` in `prepare_training_data` has no `try` around it and raises there.
- FileManager.LatestFilingDate: a file that cannot be read is the `None` input, like a missing file. A filing-date column that did not parse as dates is not modelled.
- PreparePredict.OneHotTags: a tag cell that is neither a list nor a string (NaN, a number) reads as holding no tag, where the source raises TypeError. A string cell is tested for substrings, as the source does.
- PrepareTrain.TrainingSet: a tags cell that is neither a list nor a string (NaN, a number) gives 0 in every tag column, where `tag in tags` raises TypeError in the source.
- PrepareTrain.PrepareTrainingData: a NaN tags cell passes the parse unchanged and then reads as holding no tag, so the row's tag columns are 0. The source raises TypeError on it.
- Frames.Cell: a column a frame does not have reads as NA. pandas raises KeyError when such a column is read, for example `df["tags"]` or `df["outcome_case_1"]` on a file without them, so those failures are not modelled.
- Frames.Rename: when two columns are renamed to the same name, the model's column list repeats the name, but each row holds a single value under it, the first column's. pandas keeps both columns' values under the duplicated label, and the later `reindex` in `predict.py` would then raise. That failure is not modelled.
- `core/io/cache.py` does not define `load_ohlc_cache` or `save_ohlc_cache`, although `core/engine/ohlc.py` imports them from it. The model uses the definitions in `src/io/cache_manager.py`.
- The snapshot cache (`load_snapshot_cache`, `save_snapshot_cache`) is a JSON read and write; snapshots are the `snapshots` map input of the cleaner.
- The master tag list `POSSIBLE_TAGS` is written as seven named groups concatenated in the source's order; it has the same contents and order.
- `generate_trade_md`: the Markdown text and the file write are left out. Its arithmetic is modelled: targets, stop, net gains, percentage change and both ratio tables.
- The analyzer orchestration, `main.py` and `new_main.py`, which only chain the modelled steps with I/O.

## Findings

| source | as written | input that shows it | evidently intended | confidence | as-written member | corrected member |
|---|---|---|---|---|---|---|
| core/io/file_manager.py:59-66 | The daily file is read without parsing its dates, so its `filing_date` cells are text while repeats are dropped. The daily scan's batch carries date objects (core/scanner.py:37-46). A text never equals a date, and the dates are parsed only after the dedupe | A trade saved by a morning run and fetched again by a later run on the same day: both copies are written | The docstring's "avoids duplicates": read with `parse_dates=["filing_date"]` as the per-ticker save does, so the file holds one row per daily key | not executed; medium (depends on pandas keeping `date` objects and strings unequal in `drop_duplicates`) | FileManager.DailyRepeatSurvives | FileManager.SavedDailyParsed |
