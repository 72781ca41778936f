# Aptitude test: O*NET derivation and compatibility scoring, modelled in Dafny

The application is a vocational aptitude test. It has two parts with real logic, and this project models both.

**The offline derivation script** (`scripts/deriveOnet.js`) computes a `professions_v2_onet` table that is meant to be pasted into `lib/data.ts`. In order, it:

- reads five O*NET tab-separated tables (Abilities, Skills, Knowledge, Interests, Work Values);
- classifies each element name into one of 22 internal aptitudes, using an ordered list of case-insensitive patterns where the first match wins;
- credits the rescaled rating to every profession whose O*NET code list contains the row's base occupation code;
- averages each (profession, aptitude) bucket;
- divides each average by the aptitude's largest average over all professions, and rounds to three decimals;
- keeps only the positive values as the profession's `req` profile.

**The browser scoring** (`lib/utils.ts`) works in three steps:

- It turns the user's answers into a weighted mean per aptitude, rounded to three decimals.
- It scores every profession as the `req`-weighted mean of those aptitude scores, as a rounded percentage.
- It returns the five best professions, found by a stable descending sort.

## Modules

| file | module | what it models |
|---|---|---|
| `wrappers.dfy` | `Wrappers` | `Option` |
| `text.dfy` | `Text` | JavaScript's `split`, `join`, `trim`, `replace(/c/g, '')`, ASCII lower-casing and substring search |
| `tsv.dfy` | `Tsv` | `parseTsv` over a file's contents (`None` for a missing file), plus a renderer that it inverts |
| `classifier.dfy` | `Classifier` | The 22 aptitudes, the rule list and `mapElementToAptitude` |
| `occupations.dfy` | `Occupations` | The 20 professions, their O*NET code lists and `normalizeCode` |
| `sequences.dfy` | `Sequences` | Mapping over a sequence, and how it treats permutations |
| `aggregator.dfy` | `Aggregator` | `safeNumber`, `considerRecord`, the buckets and element lists, and the fold over all rows |
| `rounding.dfy` | `Rounding` | `+x.toFixed(3)` and `Math.round` over the reals |
| `normalizer.dfy` | `Normalizer` | Averages, global maxima, normalisation and the compact `professions_v2_onet` output |
| `ranking.dfy` | `Ranking` | The stable descending sort and `slice(0, 5)` |
| `scoring.dfy` | `Scoring` | `calculateAptitudeScores`, `calculateCompatibility` and their localized variants |
| `profiles.dfy` | `Profiles` | A derived profile used as a profession's `req` by the scoring |

**How the JavaScript is modelled:**

- Numbers are reals.
- `parseFloat` is a parameter `num: string -> Option<real>`, with `None` for NaN.
- The static tables of `lib/data.ts` are a `Tables` parameter.
- Each classifier pattern is an unanchored alternation of plain words. It is modelled as a list of lower-case literals, any of which must occur in the ASCII-lower-cased name.

**Rule-order consequences shown by the proofs:**

- The first rule's bare word "problem" shadows the later "problem solving" rule.
- "attention" (details) shadows "auditory attention" (music).
- "visual" (spatial) shadows "visual arts" (artistic).
- "management" never counts for entrepreneurship.

**The checked-in table is not one the script can produce.**

- The active profession list is `professions_v2_onet` (lib/data.ts:349). It is the literal table at lib/data.ts:276-295.
- The script divides each average by the aptitude's largest average (scripts/deriveOnet.js:236 and :246). So whenever an aptitude appears in any derived `req`, some profession has it at exactly 1 (`Normalizer.DerivedMaxIsOne`).
- In the checked-in table, six aptitudes reach 1.000 in no profession:
  - `detalhes`: at most 0.949 (administracao);
  - `memoria`: at most 0.857;
  - `velocidade`: at most 0.891;
  - `coord_fina`: at most 0.779 (musica);
  - `organizacao`: at most 0.968;
  - `curiosidade`: at most 0.921.
- So that table was edited by hand or produced some other way. The scoring model takes it as the `Tables` parameter and does not depend on where it came from.

**Rows shorter than the header are not zero-filled.**

- `cols[i]` is `undefined` past the end of the row (scripts/deriveOnet.js:105).
- So a short row's missing name or value makes `considerRecord` skip it; no zero is counted for it.
- `Tsv.BuildRecordMeaning` states this as `None` past the end of the row.

## Model

| member | source | states |
|---|---|---|
| Classifier.Classify | scripts/deriveOnet.js:88-93 | The result is none exactly when no rule matches the lower-cased name; otherwise it is the aptitude of a rule that matches with no earlier rule matching |
| Classifier.FirstMatchDecides | scripts/deriveOnet.js:88-93 | Whenever rule `i` is the first matching rule, the classifier answers that rule's aptitude |
| Classifier.EachAptitudeHasOneRule | scripts/deriveOnet.js:63-86 | The 22 rules name each of the 22 aptitudes exactly once, in list order, so every result is one of the rule aptitudes |
| Classifier.EarlierRuleWins | scripts/deriveOnet.js:88-93 | If an earlier rule matches, a later rule's aptitude is never the answer, and some answer exists |
| Classifier.RuleMatchesMeaning | scripts/deriveOnet.js:89-90 | A rule matches exactly when one of its literals is a substring of the name |
| Classifier.LowerCasedSearchIgnoresCase | scripts/deriveOnet.js:63-86 | Searching a lower-case literal in the lower-cased name is the same as a search that compares ASCII letters without case, as the `/i` flag does |
| Classifier.ProblemMeansLogic | scripts/deriveOnet.js:64-72 | Every name mentioning "problem" is classified as logic, never as problem solving |
| Classifier.ManagementNeverEntrepreneurship | scripts/deriveOnet.js:81-83 | A name containing "management" is classified, and never as entrepreneurship |
| Classifier.AttentionNeverMusic | scripts/deriveOnet.js:69-76 | A name containing "attention" is classified, and never as music |
| Classifier.VisualNeverArtistic | scripts/deriveOnet.js:68-75 | A name containing "visual" is classified, and never as artistic |
| Classifier.MathematicsExample | scripts/deriveOnet.js:64-65 | The element "Mathematics" is classified as mathematics |
| Occupations.NormalizeCode | scripts/deriveOnet.js:153-155 | The result is the prefix of the code before its first '.': it has no '.', and the code continues with '.' when the result is shorter; a dot-free code is returned unchanged |
| Occupations.NormalizeIdempotent | scripts/deriveOnet.js:153-155 | Normalising twice gives the same as normalising once |
| Occupations.NormalizeStripsSuffix | scripts/deriveOnet.js:152-155 | `base.tail` with a dot-free `base` normalises to `base` |
| Occupations.NormalizedTableIsTable | scripts/deriveOnet.js:157-160 | Normalising the profession code table leaves every list unchanged |
| Occupations.ClaimsDetailed | scripts/deriveOnet.js:205-207 | A detailed code whose base is listed for a profession is taken by that profession |
| Occupations.DisclaimsDetailed | scripts/deriveOnet.js:205-207 | A detailed code whose base is not listed, for a profession with dot-free codes, is not taken by it |
| Occupations.SharedSoftwareCode | scripts/deriveOnet.js:35-56 | "15-1252.00" is taken by both computer science and software engineering |
| Occupations.MechanicalCode | scripts/deriveOnet.js:35-56 | "17-2141.00" is taken by mechanical engineering and not by computer science |
| Occupations.EachProfessionOnce | scripts/deriveOnet.js:35-56 | There are 20 professions, each listed once |
| Occupations.ProfessionAtIndex | scripts/deriveOnet.js:146 | Position `i` in the order the professions are visited is entry `i` of `professionOnetCodes` |
| Text.Split | scripts/deriveOnet.js:99-103 | There is at least one piece, no piece contains the separator, and the first piece is the prefix before the first separator |
| Text.JoinSplit | scripts/deriveOnet.js:99-103 | Joining the pieces of a split gives the original string back |
| Text.SplitJoin | scripts/deriveOnet.js:99-103 | Splitting a join of separator-free pieces gives the pieces back |
| Text.Trim | scripts/deriveOnet.js:99-105 | The result is a slice of the input whose surroundings are blank; it is empty exactly for a blank string, and otherwise neither starts nor ends with whitespace |
| Text.TrimUnique | scripts/deriveOnet.js:99-105 | Whatever blank text surrounds a string that neither starts nor ends with whitespace, trimming returns exactly that string |
| Text.RemoveAll | scripts/deriveOnet.js:98 | The result has no occurrence of the character and keeps every other character, with its multiplicity |
| Text.RemoveAllConcat | scripts/deriveOnet.js:98 | Removal works piece by piece: the kept characters of `a + b` are those of `a`, in order, then those of `b` |
| Text.RemoveAllJoin | scripts/deriveOnet.js:98-99 | Removing a character other than the separator from a join removes it from each part and keeps the parts in order |
| Tsv.ParseTsv | scripts/deriveOnet.js:96-108 | A missing file gives no records; otherwise there is one record per non-blank line after the first |
| Tsv.Lines | scripts/deriveOnet.js:98-99 | No kept line is blank or contains a line feed or a carriage return |
| Tsv.LinesOfJoin | scripts/deriveOnet.js:98-99 | For contents made of lines joined by line feeds, the kept lines are exactly those lines, carriage returns removed, that are not blank, in order and with repetitions |
| Tsv.LinesOfContent | scripts/deriveOnet.js:98-99 | For any contents, the kept lines are the line-feed pieces, carriage returns removed, that are not blank, in order |
| Tsv.NonBlank | scripts/deriveOnet.js:99 | It keeps exactly the lines whose trimmed text is non-empty, and never more lines than given |
| Tsv.NonBlankConcat | scripts/deriveOnet.js:99 | The filter works piece by piece: the lines kept from `a + b` are those kept from `a`, in order and with repetitions, then those kept from `b` |
| Tsv.KeptMeaning | scripts/deriveOnet.js:99 | A line is kept exactly when its trimmed length is positive |
| Tsv.BuildRecordMeaning | scripts/deriveOnet.js:104-106 | The record has exactly one key per trimmed header name, holding the field of the last column with that name (`None` past the end of the row); extra fields are ignored |
| Tsv.ParsedRecord | scripts/deriveOnet.js:101-107 | Record `k` is built from the `(k+1)`-th non-blank line under the header line's trimmed names |
| Tsv.FieldsArePlain | scripts/deriveOnet.js:98-103 | No parsed field holds a tab, a line feed or a carriage return |
| Tsv.RenderRoundTrip | scripts/deriveOnet.js:96-108 | Parsing a rendered table of plain rows gives one record per row, built from that row |
| Tsv.BlankContentHasNoRecords | scripts/deriveOnet.js:99-100 | Whitespace-only contents, the empty file included, give no lines and no records |
| Aggregator.Divisor | scripts/deriveOnet.js:196-203 | The divisor is 5 exactly for Abilities and Skills, and 7 exactly for the other three tables |
| Aggregator.Accept | scripts/deriveOnet.js:162-203 | A row is skipped exactly in the early-return cases. An accepted row's element carries its table, code, name, classified aptitude, raw value, and a base score that is the value over the table's divisor |
| Aggregator.AcceptedRow | scripts/deriveOnet.js:162-203 | A row that passes every test gives the element built from its code, name, classified aptitude and value, with the value over the table's divisor as base score |
| Aggregator.ZeroRatingKept | scripts/deriveOnet.js:190 | A rating of 0 is accepted, with base score 0 |
| Aggregator.Consider | scripts/deriveOnet.js:162-221 | A skipped row changes nothing, and no profession is added or removed |
| Aggregator.ConsiderBucket | scripts/deriveOnet.js:205-210 | An accepted row adds its base score and a count of one to its aptitude's bucket in every profession taking its code; every other bucket keeps its value |
| Aggregator.ConsiderElements | scripts/deriveOnet.js:205-218 | An accepted row is appended once to the elements of every profession taking its code, and nowhere else |
| Aggregator.ApplyEffect | scripts/deriveOnet.js:206-220 | One observation changes each bucket by exactly its contribution, and each element list by exactly what it appends |
| Aggregator.Init | scripts/deriveOnet.js:146-150 | Every (profession, aptitude) bucket starts at sum 0 and count 0, and every element list starts empty |
| Aggregator.RunStep | scripts/deriveOnet.js:223-225 | Running the rows considers the first row, then the rest |
| Aggregator.ApplyAllBucket | scripts/deriveOnet.js:223-225 | After any rows, each bucket is its start value plus the tally of all observations |
| Aggregator.ApplyAllElements | scripts/deriveOnet.js:223-225 | After any rows, each element list is its start list followed by the accepted elements, in order |
| Aggregator.OrderIrrelevant | scripts/deriveOnet.js:223-225 | Any two orders of the same rows give the same sums and counts |
| Aggregator.TotalElementsIsTotalCount | scripts/deriveOnet.js:209-211 | After any rows, each profession's element count equals the sum of its bucket counts over all aptitudes |
| Aggregator.AcceptNonNegative | scripts/deriveOnet.js:196-203 | An accepted non-negative rating gives a non-negative base score |
| Aggregator.RunSumsNonNegative | scripts/deriveOnet.js:196-210 | When every rating accepted from the rows is non-negative, every bucket sum stays non-negative |
| Aggregator.RowsOf | scripts/deriveOnet.js:111-115 | Each row comes from a parsed record of one of the tables read |
| Aggregator.RowsOfComplete | scripts/deriveOnet.js:111-115 | Every record of every table read is a row of that table |
| Aggregator.RowsOfConcat | scripts/deriveOnet.js:111-115 | The rows of two lists of tables are the rows of the first list, then those of the second |
| Aggregator.RowsOfOne | scripts/deriveOnet.js:111-115 | The rows of one table are its records, in file order, tagged with the table |
| Aggregator.Aggregate | scripts/deriveOnet.js:223-225 | After all tables, every profession has a bucket for every aptitude |
| Aggregator.NoFilesNoData | scripts/deriveOnet.js:111-115 | With no table files, the accumulator stays as initialised |
| Aggregator.MathematicsRowAccepted | scripts/deriveOnet.js:162-203 | A Skills importance row rating "Mathematics" 4 for 17-2141.00 is accepted as a mathematics element with base score 4/5 |
| Aggregator.MathematicsRowCredited | scripts/deriveOnet.js:162-221 | A Skills importance row rating "Mathematics" 4 for 17-2141.00 gives mechanical engineering a mathematics bucket of 4/5 from one value, and leaves computer science empty |
| Rounding.ToFixed3 | scripts/deriveOnet.js:246 | The result is within half a thousandth of the input and has the input's sign; values at most 1 stay at most 1 |
| Rounding.ToFixed3Nearest | scripts/deriveOnet.js:246 | The result is the multiple of 1/1000 within half a thousandth of the input, the farther one from zero on a tie |
| Rounding.ToFixed3Odd | scripts/deriveOnet.js:246 | Rounding is symmetric about zero |
| Rounding.ToFixed3Monotonic | scripts/deriveOnet.js:246 | Rounding never reverses an order |
| Rounding.ToFixed3Exact | scripts/deriveOnet.js:246 | A value already on three decimals is kept |
| Rounding.ToFixed3Positive | scripts/deriveOnet.js:246-255 | A non-negative value rounds to something positive exactly when it is at least 0.0005 |
| Rounding.MathRound | lib/utils.ts:38 | The result is the integer within half a unit of the input, the upper one on a tie |
| Rounding.MathRoundUnique | lib/utils.ts:38 | Any integer within that half-open half unit is the result |
| Rounding.MathRoundPercent | lib/utils.ts:38 | A value in [0, 100] rounds into 0..100 |
| Normalizer.Average | scripts/deriveOnet.js:233-236 | An empty bucket averages 0; otherwise the average times the count is the sum; a non-negative sum gives a non-negative average |
| Normalizer.MaxOver | scripts/deriveOnet.js:228-238 | The running maximum over the first `n` professions in table order is non-negative, bounds every average seen, and is 0 or one of them |
| Normalizer.GlobalMax | scripts/deriveOnet.js:228-238 | The maximum is non-negative, bounds every profession's average, and a positive maximum is attained |
| Normalizer.Normalized | scripts/deriveOnet.js:242-247 | The value is at most 1, is 0 when the maximum is 0, lies within 0.0005 of average/maximum when the maximum is positive, and is non-negative for a non-negative average |
| Normalizer.NormalizedValue | scripts/deriveOnet.js:246 | With a positive maximum and a non-negative average, the value is the thousandth nearest to average/maximum, the larger one on a tie |
| Normalizer.NormalizedMonotonic | scripts/deriveOnet.js:245-246 | A profession with a larger average never gets a smaller normalised value |
| Normalizer.MaxGetsOne | scripts/deriveOnet.js:242-247 | When the maximum is positive, every profession whose average equals it gets exactly 1 and keeps the aptitude in its `req` |
| Normalizer.SomeProfessionGetsOne | scripts/deriveOnet.js:228-247 | When the maximum is positive, some profession gets exactly 1 |
| Normalizer.KeptMeansSomeOne | scripts/deriveOnet.js:231-256 | If any profession keeps an aptitude in its `req`, some profession keeps it at exactly 1 |
| Normalizer.KeptWhenVisible | scripts/deriveOnet.js:242-256 | With a non-negative sum, an aptitude is in `req` exactly when the maximum is positive and the average reaches 0.0005 of it |
| Normalizer.Req | scripts/deriveOnet.js:253-256 | `req` holds exactly the aptitudes with a positive normalised value, each with that value, which lies in (0, 1] |
| Normalizer.UnobservedAbsent | scripts/deriveOnet.js:231-256 | An aptitude never observed for any profession is in no `req` |
| Normalizer.Derive | scripts/deriveOnet.js:223-258 | The output has an entry for every profession, and every kept value lies in (0, 1] |
| Normalizer.DerivedMaxIsOne | scripts/deriveOnet.js:231-256 | In the script's output, whenever some profession's `req` holds an aptitude, some profession's `req` holds it at exactly 1 |
| Normalizer.DeriveMeaning | scripts/deriveOnet.js:227-257 | When every rating accepted from the tables is non-negative, a profession's `req` holds exactly the aptitudes whose average reaches 0.0005 of the positive maximum, and `totalElements` is the sum of its bucket counts |
| Ranking.SortDescSorted | lib/utils.ts:40 | The sort returns a permutation of its input with non-increasing scores |
| Ranking.SortDescStable | lib/utils.ts:40 | Results with equal scores keep their input order |
| Ranking.InsertStable | lib/utils.ts:40 | Inserting into a sorted list puts the new result after every earlier one with its score |
| Ranking.TopFive | lib/utils.ts:40 | `min(5, n)` results are returned |
| Ranking.TopFiveMeaning | lib/utils.ts:40 | The kept results are non-increasing, drawn from the input, every result left out scores no more than the last one kept, and for each score the kept results are the first ones of that score in input order |
| Ranking.TopFiveStable | lib/utils.ts:40 | For each score, the kept results of that score are a prefix of the input's results of that score |
| Scoring.AptitudeScores | lib/utils.ts:4-27 | Exactly the aptitude ids get a score |
| Scoring.AddAnswer | lib/utils.ts:12-17 | One answered question adds `v·w` and `w` to the running sums of every aptitude id it weights; other keys are ignored |
| Scoring.ScoreQuestions | lib/utils.ts:5-26 | The loops compute, for every aptitude id, the rounded weighted mean over the answered questions |
| Scoring.CalculateAptitudeScores | lib/utils.ts:4-27 | Exactly the aptitude ids get a score, each the rounded weighted mean over the answered questions |
| Scoring.CalculateAptitudeScoresLocalized | lib/utils.ts:44-68 | The same computation over the language's question list, and for Portuguese the same result as the base function |
| Scoring.UnansweredIgnored | lib/utils.ts:10-11 | Removing an unanswered question from anywhere in the list changes no score |
| Scoring.UnknownKeyIgnored | lib/utils.ts:12-16 | Removing a weight whose key is not an aptitude id, from anywhere in any question, changes no score |
| Scoring.OtherKeyIgnored | lib/utils.ts:12-16 | A weight entry for another key, wherever it stands, adds nothing to an aptitude's sums |
| Scoring.SameContribution | lib/utils.ts:8-26 | Replacing a question anywhere in the list by one adding the same amounts to every aptitude's sums changes no score |
| Scoring.UnweightedIsZero | lib/utils.ts:22-24 | An aptitude with zero weight over the answered questions scores exactly 0 |
| Scoring.ScoresInUnitRange | lib/utils.ts:20-25 | With answers in [0, 1] and non-negative weights, every aptitude score lies in [0, 1] |
| Scoring.ReqTotalBounded | lib/utils.ts:33-36 | With scores in [0, 1] and non-negative requirements, the weighted total lies between 0 and the weight sum |
| Scoring.ScoreInPercentRange | lib/utils.ts:30-38 | With scores in [0, 1] and non-negative requirements, a compatibility score lies in 0..100 |
| Scoring.RankedInPercentRange | lib/utils.ts:29-41 | With scores in [0, 1] and non-negative requirements, every ranked result scores in 0..100 |
| Scoring.RankProfessions | lib/utils.ts:29-41 | The loops return the first `min(5, n)` results of the stable descending sort of all professions' results |
| Scoring.CalculateCompatibility | lib/utils.ts:29-41 | The top five of the active profession list, `min(5, n)` of them |
| Scoring.CalculateCompatibilityLocalized | lib/utils.ts:70-83 | The same ranking over the language's profession list, and for Portuguese the same result as the base function |
| Profiles.ReqEntries | scripts/deriveOnet.js:253-256 | No more entries than aptitudes, and every entry pairs the identifier of an aptitude of `req` with that aptitude's value |
| Profiles.ReqEntriesOrdered | scripts/deriveOnet.js:231-256 | Of two entries, the earlier belongs to the aptitude listed first, following the insertion order of `raw`, `avg` and `normalized` |
| Profiles.ReqEntriesDistinctKeys | scripts/deriveOnet.js:253-256 | Over aptitudes listed once each, no two entries share a key |
| Profiles.ReqEntriesComplete | scripts/deriveOnet.js:253-256 | Every aptitude of `req` appears among the entries with its value |
| Profiles.AsProfession | lib/data.ts:275 | A derived entry used as a profession's `req` has all weights in (0, 1] |
| Profiles.DerivedScoreInRange | lib/utils.ts:30-38 | Any derived profile, scored against aptitude scores in [0, 1], gives a compatibility score in 0..100 |

## Left out

- File-system work is not modelled: existence checks, reading, creating the output directory and writing the JSON file. Each table is its contents, with `None` for a missing file.
- Logging and the console preview are not modelled.
- The `generatedAt` timestamp is left out because it is not deterministic.
- `extractScores` is left out because nothing calls it.
- Floating point is not modelled. All arithmetic is over the reals, including `toFixed` and `Math.round`. `OrderIrrelevant` holds over the reals only, since IEEE addition is not associative.
- `parseFloat`'s number grammar is the parameter `num`, not a definition.
- Aggregator.RatingsNonNegative: the sign results take non-negative ratings as a hypothesis about the rows read. O*NET ratings are never negative, but the script does not check this.
- JavaScript object quirks are not modelled:
  - A header column named `__proto__` does not become an own property in `parseTsv`.
  - In `lib/utils.ts`, a weight key such as `constructor` passes the `sum[apt] !== undefined` test through the prototype chain.
  - Records and score tables here are plain maps.
- Classifier.ManagementNeverEntrepreneurship: this states that a name containing "management" is never entrepreneurship. It does not state that the bare name "management" gives leadership. That would mean excluding every literal of the seventeen earlier rules, and for other names containing "management" an earlier rule may indeed win.
- The Unicode case folding of the `/i` patterns is modelled as ASCII lower-casing. Without the `u` flag, JavaScript never folds a non-ASCII character onto an ASCII one, so the two agree on the plain-ASCII words of every rule.
- The literal tables of `lib/data.ts` are not restated. These are the aptitude list, both question lists, both profession lists and the option values. They are the `Tables` parameter of the scoring.
- All user-interface code, browser storage, analytics and image processing are outside the modelled core.
