# Exam generator core, modelled in Dafny

This project models the core of an exam-management application. Teachers
store questions with point values and answers, grouped by subject
(*matière*) and chapter. The server assembles exam versions (*sujets*) from
them. The core modelled here is:

- **The combination search** `trouverCombinaison` (backend/server.js). It is
  a backtracking depth-first search for a set of questions with pairwise
  distinct ids whose points add up to a target within 0.001. The
  `Math.random` shuffle becomes an oracle that only has to permute its input.
- **The version generator** behind `POST /api/generate-exam-versions`:
  - for each requested version, it searches one block per subject with a
    positive target, and the first subject with no combination aborts the
    request;
  - it keeps a version only if it is non-empty and its signature (the
    multiset of its question ids) has not been seen.
- **Answer normalisation** `normalizeReponses`, in its utility form and in
  the server's form, which also normalises `reponses_meta`. `JSON.parse`
  becomes a parameter that yields a value or fails.
- **The pure and imperative helpers of the front-end pages:**
  - grouping questions by subject;
  - the repetition analysis across generated versions;
  - XML sanitising;
  - the subject/points selection;
  - `chunkArray`, the list and table answer editors and the table's
    reshape/flatten round trip;
  - the saved-subject filter parameters;
  - the exam's subject list;
  - the dashboard's typewriter banner and greeting.

Modules:

- `JsRuntime`: JavaScript values, truthiness, `String.prototype.trim`,
  `parseInt(s, 10)` and `String(n)`.
- `Combination`: the search.
- `ExamGeneration` and `ExamProperties`: the route and what it guarantees.
- `Normalize`: answer normalisation.
- `Grouping`: the generic `reduce`-into-buckets.
- One module per front-end page, named after it.

How each kind of source code is modelled:

- **Loops that update state** become methods with loop invariants. Each
  method is proved equal to a specification function, and the properties
  are lemmas about that function. This covers the generation loop, the
  search loop, `analyzeRepetitions`, `chunkArray`, list padding and
  grouping.
- **Objects updated in place** become classes: the typewriter's state and
  `URLSearchParams`.
- **Pure spreads, filters and maps** become functions.

## Model

The specification functions `Normalize.Meta`, `DashboardPage.Next`,
`DashboardPage.GreetingFor`, `GenerateExamPage.SanitizeXmlText` and
`PageSujet.FilterEntries` carry the modelled behaviour. They are specified
through the lemmas listed for them below: `MetaCases`, `NextShows`,
`GreetingMatchesTable`, `SanitizeXmlTextFacts` and `FilterEntriesFacts`.

| member | source | states |
|---|---|---|
| Combination.FindCombination | backend/server.js:896-919 | the search returns `[]` when the remainder is within 0.001 of zero, `null` on a negative remainder or empty pool, any found list is a combination (sub-multiset of the pool, distinct ids, none used, points within 0.001 of the target), and with non-negative points `null` means no combination exists |
| Combination.FindSound | backend/server.js:902-915 | every non-null result of the search is a combination of the pool for the target, avoiding the used ids |
| Combination.ScanSound | backend/server.js:906-917 | every result of the candidate loop from position i is a combination of the shuffled candidates from i on |
| Combination.FindComplete | backend/server.js:904-918 | with non-negative points, if any combination exists the search does not return null, whatever the shuffle |
| Combination.ScanComplete | backend/server.js:906-918 | the candidate loop backtracks: a non-empty combination of the remaining candidates is always found |
| Combination.FindFailsOnlyWhenUnsatisfiable | backend/server.js:896-919 | with non-negative points, the search returns null exactly when no combination exists |
| Combination.PointsConcat | backend/server.js:913-915 | the points of a combination built by prepending add up |
| Combination.ExtendCombination | backend/server.js:908-915 | a combination of the rest for the reduced target plus the current unused candidate is a combination for the full target |
| Combination.WidenCombination | backend/server.js:906-909 | a combination of later candidates is a combination of the longer pool |
| Combination.RemoveFromCombination | backend/server.js:909-913 | removing a combination's member leaves a combination for the reduced target with that id used |
| ExamGeneration.SubjectPool | backend/server.js:976 | the subject's pool holds exactly the pool's questions of that subject, each at most as often |
| ExamGeneration.GenerateExamVersions | backend/server.js:923-1018 | the route's loops compute the specification function `Generate` |
| ExamGeneration.RunVersions | backend/server.js:961-1002 | the attempt loop either reports the first failing subject and target, or yields the versions kept from all attempts |
| ExamGeneration.AssembleVersion | backend/server.js:965-992 | the subject loop concatenates one block per active subject, or reports the first subject with no combination |
| ExamGeneration.KeepIfNew | backend/server.js:995-1001 | a version is appended iff it is non-empty and its signature is new, and the signature set stays the set of kept signatures |
| ExamGeneration.GenerateAfterRun | backend/server.js:1004-1012 | with valid input, the response is the abort of the run, or its kept versions with a warning iff fewer than requested |
| ExamGeneration.RunStep | backend/server.js:964-1002 | one more attempt either aborts with the failing subject or appends the assembled version |
| ExamGeneration.AssembleStep | backend/server.js:969-992 | one more subject is skipped when inactive, fails when its search fails, or appends its block |
| ExamGeneration.KeepStep | backend/server.js:995-1000 | one more attempt is kept iff non-empty with an unseen signature |
| ExamGeneration.SignaturesAppend | backend/server.js:997-999 | appending a version adds exactly its signature |
| ExamGeneration.AssembleFailureStays | backend/server.js:982-988 | once a subject fails, the version's outcome is that failure |
| ExamGeneration.RunAbortStays | backend/server.js:985-987 | once an attempt aborts, the request's outcome is that abort |
| ExamProperties.InputErrors | backend/server.js:930-958 | missing subjects or points give 400, an empty pool (with valid input) gives 404, and the status is 200 exactly for generated versions |
| ExamProperties.AssembleFailedAt | backend/server.js:969-988 | a failed version names a listed subject with a positive target whose search returned null |
| ExamProperties.RunAbortedAt | backend/server.js:964-988 | an aborted run was aborted by an earlier attempt's failure |
| ExamProperties.UnsatisfiableResponse | backend/server.js:982-988 | a 400 abort names a requested subject with a positive target, and with non-negative points no combination for it exists |
| ExamProperties.AssembleBuiltFits | backend/server.js:969-992 | an assembled version's blocks are, per active subject in order, combinations of that subject's pool for its target |
| ExamProperties.BlocksFitAppend | backend/server.js:991 | adding a subject's combination keeps the blocks fitting their subjects |
| ExamProperties.AssembleBuiltFound | backend/server.js:969-992 | in a completed version every active subject's search succeeded |
| ExamProperties.RunCandidates | backend/server.js:964-1002 | a run that did not abort has one version per attempt, each a valid version |
| ExamProperties.RunCandidatesEarlier | backend/server.js:964-988 | a run that did not abort did not abort earlier either |
| ExamProperties.KeepUniqueFrom | backend/server.js:995-1000 | at most as many versions are kept as attempted, each an attempted, non-empty version |
| ExamProperties.KeepUniqueDistinct | backend/server.js:996-1000 | kept versions have pairwise different signatures |
| ExamProperties.KeepUniqueCovers | backend/server.js:996-1000 | every non-empty attempt's signature is among the kept ones |
| ExamProperties.FirstWithSignatureFound | backend/server.js:996-999 | the first attempt with a signature is a non-empty attempt with that signature |
| ExamProperties.KeepUniqueKeepsFirst | backend/server.js:997-999 | the version kept for a signature is the first attempt with it |
| ExamProperties.GeneratedResponse | backend/server.js:1004-1012 | a 200 response holds at most the requested number of non-empty valid versions with distinct signatures, the first of each, and warns iff it holds fewer than requested |
| ExamProperties.GeneratedCoversSubjects | backend/server.js:969-992 | after a 200 response, every active subject has a combination |
| ExamProperties.SignatureIgnoresOrder | backend/server.js:996 | the signature does not depend on question order |
| ExamProperties.SignatureWithout | backend/server.js:996 | taking a question out of a version takes exactly its id out of the signature |
| ExamProperties.IdListConcat | backend/server.js:991 | the ids of concatenated blocks are the concatenated ids |
| ExamProperties.SubjectPoolNonNegative | backend/server.js:976 | filtering keeps points non-negative |
| ExamProperties.CombinationMember | backend/server.js:976-979 | a subject block holds only pool questions of that subject |
| ExamProperties.ConcatMember | backend/server.js:991 | a question of the version comes from one of its blocks |
| ExamProperties.DistinctIdsConcat | backend/server.js:991 | blocks with disjoint ids concatenate to distinct ids |
| ExamProperties.ActiveSubjectsDistinct | backend/server.js:969-973 | with distinct subject ids, the searched subjects are distinct and listed |
| ExamProperties.ConcatDistinct | backend/server.js:991 | blocks of distinct subjects over a pool keyed by id have distinct ids together |
| ExamProperties.VersionHasNoRepeats | backend/server.js:964-992 | with distinct subject ids and a pool keyed by id, no question occurs twice in a version |
| Normalize.Answers | backend/utils/normalize.js:4-20 | the normalised answers are always an array |
| Normalize.NormalizeReponses | backend/utils/normalize.js:3-23 | only `reponses` is replaced, by an array; every other field is kept |
| Normalize.NormalizeQuestion | backend/server.js:76-101 | only `reponses` and `reponses_meta` are replaced, `reponses` as in the utility and `reponses_meta` by the `Meta` rule; every other field is kept |
| Normalize.MetaCases | backend/server.js:92-98 | a `reponses_meta` string becomes its parse, or null when it does not parse; null, arrays and objects are kept; undefined, numbers and booleans become null; the result is undefined only if the parser yields undefined |
| Normalize.AnswersEmptyCases | backend/utils/normalize.js:5-14 | a string that fails to parse, a non-array or an empty array gives `[]`, and the result is empty exactly then |
| Normalize.AnswersFormat | backend/utils/normalize.js:14-19 | when the first element is a string every element becomes `{texte: trimmed String(x), est_correcte: true}`, same length and order; otherwise the array is unchanged |
| Normalize.AnswersIdempotent | backend/utils/normalize.js:13-20 | normalising normalised answers changes nothing |
| Normalize.NormalizeReponsesIdempotent | backend/utils/normalize.js:3-23 | normalising a normalised question changes nothing |
| Normalize.NormalizeQuestionIdempotent | backend/server.js:76-101 | the server's normalisation is idempotent when the normalised meta is an object or null |
| Normalize.MetaScalarNotIdempotent | backend/server.js:92-98 | a meta string that parses to a number becomes that number, and normalising again turns it into null |
| Grouping.GroupBy | frontend/src/pages/GenerateExamPage.jsx:75-81 | the reduce yields exactly the keys that occur, and for each key the items with that key in input order |
| Grouping.BucketMembers | frontend/src/pages/GenerateExamPage.jsx:78-79 | an item is in a bucket iff it is an input item with that bucket's key |
| Grouping.BucketStep | frontend/src/pages/PageSujet.jsx:18-21 | one more item creates its key's bucket if missing and is pushed onto it, other buckets unchanged |
| Grouping.BucketSizesSum | frontend/src/pages/PageSujet.jsx:16-23 | the bucket sizes, each key once, add up to the number of questions |
| GenerateExamPage.FindMatiere | frontend/src/pages/GenerateExamPage.jsx:76 | the result is the first subject with the question's id, none iff no subject has it |
| GenerateExamPage.GroupQuestionsByMatiere | frontend/src/pages/GenerateExamPage.jsx:73-82 | a non-array gives `{}`; otherwise buckets keyed by subject name or 'Matière Inconnue', in input order, each question in its own bucket |
| GenerateExamPage.WithoutApostrophes | frontend/src/pages/GenerateExamPage.jsx:86 | the result has no apostrophe and keeps every other character |
| GenerateExamPage.SanitizeXmlTextFacts | frontend/src/pages/GenerateExamPage.jsx:84-87 | a non-string gives '', the output never contains an apostrophe and keeps exactly the other characters |
| GenerateExamPage.NoApostropheUnchanged | frontend/src/pages/GenerateExamPage.jsx:86 | text without apostrophes is left as is |
| GenerateExamPage.SanitizeIdempotent | frontend/src/pages/GenerateExamPage.jsx:84-87 | sanitising twice is sanitising once |
| GenerateExamPage.Uniq | frontend/src/pages/GenerateExamPage.jsx:101 | the Map's key order: each id once, in first-occurrence order |
| GenerateExamPage.VersionCount | frontend/src/pages/GenerateExamPage.jsx:95-101 | the number of versions holding an id is at most the number of versions |
| GenerateExamPage.FirstWithId | frontend/src/pages/GenerateExamPage.jsx:98 | the recorded details are the first question with that id, none iff the id never occurs |
| GenerateExamPage.AnalyzeRepetitions | frontend/src/pages/GenerateExamPage.jsx:89-106 | null or at most one version gives no repeats and 0; otherwise the repeats are `Repetitions` and the total is the number of distinct ids |
| GenerateExamPage.CountVersions | frontend/src/pages/GenerateExamPage.jsx:94-102 | the loops leave, per id, the number of versions holding it, its first question, the ids in first-seen order and the set of all ids |
| GenerateExamPage.ScanVersion | frontend/src/pages/GenerateExamPage.jsx:95-100 | the inner loop collects the version's distinct ids and extends the details and the id set |
| GenerateExamPage.CountVersion | frontend/src/pages/GenerateExamPage.jsx:101 | each id of the version increments its count once, however often it occurs in the version |
| GenerateExamPage.TallyIds | frontend/src/pages/GenerateExamPage.jsx:101 | the count loop adds one per distinct id of the version |
| GenerateExamPage.TallyOne | frontend/src/pages/GenerateExamPage.jsx:101 | `set(id, (get(id) || 0) + 1)` counts one more version for the id, and a new id goes last in the key order |
| GenerateExamPage.CollectRepeated | frontend/src/pages/GenerateExamPage.jsx:103-104 | the collection loop yields exactly `Repetitions` |
| GenerateExamPage.RepetitionsReport | frontend/src/pages/GenerateExamPage.jsx:101-105 | an id is reported iff it is in at least two versions, with count = versions holding it (2 ≤ count ≤ versions), its first question, each id once, and no more reports than distinct ids |
| GenerateExamPage.RepetitionsCover | frontend/src/pages/GenerateExamPage.jsx:104 | every id in two or more versions is reported |
| GenerateExamPage.UniqCard | frontend/src/pages/GenerateExamPage.jsx:93 | the Map holds as many ids as the Set of all ids |
| GenerateExamPage.SelectFacts | frontend/src/pages/GenerateExamPage.jsx:104 | each reported entry carries its id's count, between 2 and the number of versions, and its first question |
| GenerateExamPage.SelectDistinct | frontend/src/pages/GenerateExamPage.jsx:104 | reports from distinct ids are distinct |
| GenerateExamPage.SelectCovers | frontend/src/pages/GenerateExamPage.jsx:104 | a listed id in two or more versions is reported |
| GenerateExamPage.UniqSnoc | frontend/src/pages/GenerateExamPage.jsx:101 | a new id joins the Map's keys at the end; a known one changes nothing |
| GenerateExamPage.FirstWithIdSnoc | frontend/src/pages/GenerateExamPage.jsx:98 | the details of an id are set only the first time it is seen |
| GenerateExamPage.VersionCountSnoc | frontend/src/pages/GenerateExamPage.jsx:101 | one more version adds one to the count of exactly its ids |
| GenerateExamPage.Without | frontend/src/pages/GenerateExamPage.jsx:415 | the filter removes exactly the given id |
| GenerateExamPage.Toggle | frontend/src/pages/GenerateExamPage.jsx:415 | the id is in the result iff it was not before; other ids keep their membership; a new id is appended at the end |
| GenerateExamPage.WithoutConcat | frontend/src/pages/GenerateExamPage.jsx:415 | the filter distributes over concatenation, so the remaining ids keep their order and repetitions |
| GenerateExamPage.WithoutSingle | frontend/src/pages/GenerateExamPage.jsx:415 | the filter of one id drops it iff it is the removed id |
| GenerateExamPage.MatiereChange | frontend/src/pages/GenerateExamPage.jsx:413-423 | toggles `String(id)`; on select keeps a truthy points value or sets exactly 20; on deselect deletes the key; other keys untouched |
| GenerateExamPage.PointsChange | frontend/src/pages/GenerateExamPage.jsx:425-427 | sets exactly the subject's points, other keys unchanged |
| GenerateExamPage.MatiereChangeKeepsPoints | frontend/src/pages/GenerateExamPage.jsx:413-423 | selecting or deselecting keeps the points map's keys equal to the selected subjects |
| GenerateExamPage.PointsChangeKeepsPoints | frontend/src/pages/GenerateExamPage.jsx:425-427 | editing a selected subject's points keeps that invariant |
| GenerateExamPage.WithoutAppended | frontend/src/pages/GenerateExamPage.jsx:415 | deselecting a just-appended id restores the list |
| GenerateExamPage.ChapitreChangeTwice | frontend/src/pages/GenerateExamPage.jsx:429-432 | toggling an unselected chapter twice restores the selection |
| GenerateExamPage.MatiereChangeTwice | frontend/src/pages/GenerateExamPage.jsx:413-423 | selecting then deselecting a subject restores the selection and removes only its points |
| QuestionManagementPage.ChunkArray | frontend/src/pages/QuestionManagementPage.jsx:10-16 | the loop pushes exactly the consecutive slices of `size` items |
| QuestionManagementPage.ChunksFlatten | frontend/src/pages/QuestionManagementPage.jsx:10-16 | concatenating the chunks gives the input back |
| QuestionManagementPage.ChunksShape | frontend/src/pages/QuestionManagementPage.jsx:10-16 | `[]` iff the input is empty, ceil(n/size) chunks, all of `size` items but the last, which has 1 to `size` |
| QuestionManagementPage.ChunkAt | frontend/src/pages/QuestionManagementPage.jsx:12-13 | chunk k is `array.slice(k*size, (k+1)*size)` |
| QuestionManagementPage.Padded | frontend/src/pages/QuestionManagementPage.jsx:172-176 | padding with empty responses or truncating gives exactly the length asked for |
| QuestionManagementPage.RequestedCount | frontend/src/pages/QuestionManagementPage.jsx:168-169 | the new size is between 1 and 10 |
| QuestionManagementPage.RequestedCountOfNumber | frontend/src/pages/QuestionManagementPage.jsx:168-169 | a typed number k gives k clamped to [1, 10] (0 gives 1) |
| QuestionManagementPage.PushEmptyUntil | frontend/src/pages/QuestionManagementPage.jsx:173-175 | the while loop pads with empty responses up to the count, keeping every existing entry |
| QuestionManagementPage.NombreReponsesChange | frontend/src/pages/QuestionManagementPage.jsx:167-178 | the count is `parseInt || 1` clamped to [1, 10] and the list is padded or truncated to exactly it, surviving entries unchanged |
| QuestionManagementPage.PaddedRoundTrip | frontend/src/pages/QuestionManagementPage.jsx:171-176 | growing then shrinking back restores the list; resizing to its own length changes nothing |
| QuestionManagementPage.PaddedShrinks | frontend/src/pages/QuestionManagementPage.jsx:176 | shrinking keeps exactly the leading entries |
| QuestionManagementPage.ListForEdit | frontend/src/pages/QuestionManagementPage.jsx:261-265 | list mode shows max(6, n) fields: the stored answers in order, then empty responses |
| QuestionManagementPage.UpdateDimensions | frontend/src/pages/QuestionManagementPage.jsx:180-191 | only the chosen dimension changes, by delta but never below 1, the grid is exactly rows × cols, old cells inside both bounds are kept and new ones are empty |
| QuestionManagementPage.UpdateDimensionsRoundTrip | frontend/src/pages/QuestionManagementPage.jsx:180-191 | growing a dimension by d and shrinking it by d restores the table |
| QuestionManagementPage.UpdateDimensionsShrinks | frontend/src/pages/QuestionManagementPage.jsx:185-189 | shrinking keeps every surviving cell |
| QuestionManagementPage.TableCellChange | frontend/src/pages/QuestionManagementPage.jsx:198-205 | only `texte` of the chosen cell changes; every other cell and field is unchanged |
| QuestionManagementPage.TableCellChangeUndo | frontend/src/pages/QuestionManagementPage.jsx:198-205 | writing the old text back restores the table |
| QuestionManagementPage.TableCellChangeKeepsShape | frontend/src/pages/QuestionManagementPage.jsx:198-205 | the table stays rectangular |
| QuestionManagementPage.TableForEdit | frontend/src/pages/QuestionManagementPage.jsx:252-259 | the grid is rectangular with `colonnes || 2` columns |
| QuestionManagementPage.FlatPaddedChunks | frontend/src/pages/QuestionManagementPage.jsx:254-256 | flattening the padded chunks gives the input followed by empty responses only |
| QuestionManagementPage.TableForEditRows | frontend/src/pages/QuestionManagementPage.jsx:253-256 | the rows are the chunks padded with empty responses, or two empty rows when nothing is stored |
| QuestionManagementPage.TableRoundTrip | frontend/src/pages/QuestionManagementPage.jsx:305 | submitting the loaded grid yields the stored answers' `texte`/`est_correcte` in order with `image_url` null, followed only by empty answers, rows × cols in all |
| QuestionManagementPage.StartEdit | frontend/src/pages/QuestionManagementPage.jsx:242-269 | table mode builds the reshaped grid, list mode the padded list of max(6, n) fields |
| PageSujet.NameOf | frontend/src/pages/PageSujet.jsx:17 | the bucket name is `nom_matiere` when non-empty, else 'Matière Inconnue', never empty |
| PageSujet.GroupQuestionsByMatiere | frontend/src/pages/PageSujet.jsx:13-24 | a non-array gives `{}`; otherwise buckets keyed by name, in input order, each question in its own bucket |
| PageSujet.SearchParams.Append | frontend/src/pages/PageSujet.jsx:162 | `append` adds one entry at the end |
| PageSujet.LoadSujetsParams | frontend/src/pages/PageSujet.jsx:161-164 | the built parameters are `FilterEntries` of the filters |
| PageSujet.FilterEntriesFacts | frontend/src/pages/PageSujet.jsx:161-164 | a parameter is present iff its filter is non-empty, with its value, in the order promotionId, parentExamId, typeExamen |
| ExamenManagementPage.FindMatiere | frontend/src/pages/ExamenManagementPage.jsx:85 | finds the first subject whose id loosely equals the selection, none iff there is none |
| ExamenManagementPage.AddSubject | frontend/src/pages/ExamenManagementPage.jsx:83-87 | no-op for an empty id or one already listed; otherwise exactly one entry `{id, name, coefficient 1}` of the subject `find` returns is appended, earlier entries unchanged |
| ExamenManagementPage.RemoveSubject | frontend/src/pages/ExamenManagementPage.jsx:88 | keeps exactly the entries with another id |
| ExamenManagementPage.RemoveConcat | frontend/src/pages/ExamenManagementPage.jsx:88 | the filter distributes over concatenation, so the remaining entries keep their order and repetitions |
| ExamenManagementPage.RemoveSingle | frontend/src/pages/ExamenManagementPage.jsx:88 | the filter of one entry drops it iff it has the removed id |
| ExamenManagementPage.CoefficientOf | frontend/src/pages/ExamenManagementPage.jsx:89 | `parseInt || 1` is the parsed value or 1, never 0, and 1 when the text does not parse or parses to 0 |
| ExamenManagementPage.CoefficientOfNumber | frontend/src/pages/ExamenManagementPage.jsx:89 | a coefficient typed as the number n is n, and 0 becomes 1 |
| ExamenManagementPage.UpdateCoefficient | frontend/src/pages/ExamenManagementPage.jsx:89 | only matching entries' coefficient changes, to `parseInt(newCoeff) || 1` |
| ExamenManagementPage.AddKeepsUnique | frontend/src/pages/ExamenManagementPage.jsx:84-86 | adding keeps "no two entries share an id" |
| ExamenManagementPage.RemoveKeepsUnique | frontend/src/pages/ExamenManagementPage.jsx:88 | removing keeps it |
| ExamenManagementPage.UpdateKeepsUnique | frontend/src/pages/ExamenManagementPage.jsx:89 | updating a coefficient keeps it |
| ExamenManagementPage.RemoveAbsent | frontend/src/pages/ExamenManagementPage.jsx:88 | removing an absent id changes nothing |
| ExamenManagementPage.AddThenRemove | frontend/src/pages/ExamenManagementPage.jsx:83-88 | adding then removing a subject is removing it |
| ExamenManagementPage.RemoveAppended | frontend/src/pages/ExamenManagementPage.jsx:88 | removing drops an appended entry of that id |
| ExamenManagementPage.FormSubmitFacts | frontend/src/pages/ExamenManagementPage.jsx:91-96 | refused iff no subject or no promotion; otherwise `matieres` is the (id, coefficient) projection in order, with distinct ids when the list has them |
| DashboardPage.NextShows | frontend/src/pages/DashboardPage.jsx:22-33 | a tick keeps the text equal to the first `charIndex` characters of the current phrase, types one character or, at the end, moves to the next phrase mod the count and clears |
| DashboardPage.Typewriter.constructor | frontend/src/pages/DashboardPage.jsx:13-15 | the banner starts at phrase 0, character 0, empty text |
| DashboardPage.Typewriter.Step | frontend/src/pages/DashboardPage.jsx:22-33 | one timer callback performs `Next` on the three fields and keeps the invariant |
| DashboardPage.TicksShows | frontend/src/pages/DashboardPage.jsx:22-33 | the invariant holds after any number of ticks |
| DashboardPage.TypedPrefix | frontend/src/pages/DashboardPage.jsx:30-33 | k ticks from a phrase's start show its first k characters |
| DashboardPage.TypesPhrase | frontend/src/pages/DashboardPage.jsx:22-33 | a phrase is typed in full, then one tick later the next phrase starts empty |
| DashboardPage.TicksSplit | frontend/src/pages/DashboardPage.jsx:17-43 | a+b ticks are a ticks then b ticks |
| DashboardPage.PhraseDone | frontend/src/pages/DashboardPage.jsx:22-28 | after typing and clearing a phrase the banner is at the next phrase, wrapping to the first |
| DashboardPage.CycleReturns | frontend/src/pages/DashboardPage.jsx:22-33 | after typing the first i phrases the banner is at the start of phrase i |
| DashboardPage.WholeCycle | frontend/src/pages/DashboardPage.jsx:25 | a full cycle through all phrases returns to the initial state |
| DashboardPage.Lookup | frontend/src/pages/DashboardPage.jsx:100-112 | a grade matches no group exactly when the lookup finds none |
| DashboardPage.GreetingMatchesTable | frontend/src/pages/DashboardPage.jsx:100-112 | the switch gives the greeting of the grade's group, and the personalised greeting for any other grade, the empty one included |
| DashboardPage.GreetingFirstGroups | frontend/src/pages/DashboardPage.jsx:100-106 | the Chef, Général, Colonel and Commandant grades get their group's greeting |
| DashboardPage.GreetingLastGroups | frontend/src/pages/DashboardPage.jsx:107-111 | the other grades get their group's greeting or the personalised one |
| DashboardPage.GreetingGroupsDisjoint | frontend/src/pages/DashboardPage.jsx:100-112 | no grade is in two groups, so the order of the cases does not matter |
| JsRuntime.TrimIsInnerSlice | backend/utils/normalize.js:16 | `trim()` returns a slice of its input with no white space at either end |
| JsRuntime.TrimIdempotent | backend/utils/normalize.js:16 | trimming twice is trimming once |
| JsRuntime.ParseIntOfIntToString | frontend/src/pages/QuestionManagementPage.jsx:168 | `parseInt(String(n), 10)` is n |
| JsRuntime.IntToStringInjective | frontend/src/pages/GenerateExamPage.jsx:414 | distinct ids have distinct `String(id)` keys |

## Left out

- I/O:
  - HTTP, Express, authentication, the MySQL queries, uploads and file clean-up;
  - React rendering, axios, `localStorage`, and PDF/Word export.
- The page handlers are modelled as functions from the old state to the new
  state. React's `setState` calls and the page-level state are not modelled.
- Timers: `setTimeout` and the typing and pause delays of the typewriter.
  `Step` is one timer callback, whichever delay preceded it. The effect's
  clean-up is not modelled.
- Floating point:
  - points, targets and `Number(...)` results are Dafny reals, so IEEE
    rounding is not modelled;
  - NaN is `None`;
  - `Number(numVersions)` is modelled as an integer, so a fractional
    version count is not modelled.
- `Math.random` is an oracle that permutes its input. `JSON.parse` is a
  parameter that yields a value or fails, and `String(x)` of a non-string
  answer is a parameter.
- The signature string `ids.sort().join(',')` is modelled as the multiset of
  ids. Joining numeric ids with commas is injective, so the two have the
  same equalities.
- ExamenManagementPage.AddSubject: in the source, a selected id with no
  matching subject throws at `matiere.id` before any state changes. The
  model leaves the list unchanged in that case.
- ExamenManagementPage.FormSubmit: the payload spreads the whole form
  state (title, description, exam type, promotion) besides `matieres`. The
  model's `Payload` holds only `matieres`, so those fields are not modelled.
- ExamenManagementPage.FindMatiere: loose `==` between the selected string
  and a numeric id is modelled as equality with the canonical decimal
  rendering `String(id)`. Forms such as " 7" or "07", which JavaScript also
  equates, are not modelled.
- QuestionManagementPage.TableForEdit: `colonnes` is required to be a
  non-negative integer, so negative and fractional values are not modelled.
  In the source, a negative value with stored answers makes `chunkArray`
  loop forever. With no stored answers it yields two rows of zero cells,
  because `Array.from` clamps a negative length to 0, and the column count
  is left negative.
- QuestionManagementPage.StartEdit:
  - the `imageFile` and `imageUrl` editing fields are not modelled;
  - stored answers are given as a sequence, so `question.reponses || []`
    is not modelled.
- GenerateExamPage.SanitizeXmlText: the first four `replace` calls map
  `&`, `<`, `>` and `"` to themselves as the text stands, so only the
  apostrophe removal changes anything. The model does exactly that.
- Grouping.GroupBy: buckets are a Dafny map. JavaScript object key order,
  and bucket names that clash with `Object.prototype` members such as
  "constructor", are not modelled.
- PageSujet.LoadSujetsParams: the parameters are kept as name/value pairs.
  `toString()`'s percent-encoding and the request URL are not modelled.
- DashboardPage.Typewriter.Step: characters are Dafny chars. JavaScript
  strings index UTF-16 code units, so a phrase with characters outside the
  Basic Multilingual Plane is not modelled.
- GenerateExamPage.ChapitreChange: stated through `Toggle` and
  `ChapitreChangeTwice`; it has no contract of its own.
