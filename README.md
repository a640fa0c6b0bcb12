# CTFL mock-exam simulator: exam session and upload widget

This project models the two stateful parts of a client-side CTFL (software
testing certification) exam simulator.

- **The exam page** (`Simulado`). It holds a fixed set of 40 questions with ids
  `q1` .. `q40`. One attempt keeps a current-question index, a map from question id to
  the chosen option, a 90-minute countdown in seconds, and a finished flag. The
  handlers move that index (next and previous saturate at the ends, and the
  quick-navigation grid jumps to a box), record an answer for the current question,
  and count the clock down once per second. The attempt finishes when the clock
  reaches 0, or when the user presses the finish button. That button appears only
  on the last question and is enabled only when all 40 questions are answered.
  The score is the number of answer entries that match their question's key, and
  the attempt passes at 26 (65%). The clock is shown as `mm:ss`.
- **The upload widget** (`FileUpload`). It keeps a list of file records. Dropping
  files appends new records in state `uploading` at progress 0. A 500 ms interval
  per file advances its record: +10 while uploading, then processing from 0, +15
  while processing, then completed with 20 to 49 extracted questions. Removing a
  file filters its records out. The start link appears once the completed files
  together hold at least 40 questions.

Timers are modelled as explicit calls: `Session.Tick` is one run of the timer
effect and `Uploader.IntervalFired` one firing of a file's interval. Each
`Math.random()` is a caller-supplied value. For the extracted count it is
`draw < 30` (standing for `Math.floor(Math.random() * 30)`), and for file ids
the caller passes the ids. The result toast is recorded as a `Verdict` appended
to `Session.notices`.

The question-view handlers (answer, next, previous, quick navigation, finish
button) exist only while the question view is rendered. After finishing, the
page renders the results view instead. The model therefore treats an event that
arrives while the results are shown as having no effect. Likewise, a
quick-navigation index outside 0 .. 39 has no grid box, so it has no effect.

Files: `wrappers.dfy` (Option), `decimal.dfy` (decimal text of integers, as
`Number.prototype.toString()` and `padStart` produce it, with its reader),
`simulado.dfy`, `file_upload.dfy`.

## Model

| member | source | states |
|---|---|---|
| Decimal.NatToString | src/pages/Simulado.tsx:60 | `toString()` of a non-negative integer: a non-empty digit run, one digit exactly below 10, no leading zero unless the value is 0 |
| Decimal.ParseNatToString | src/pages/Simulado.tsx:60 | reading the printed digits back gives the number (round trip) |
| Decimal.NatToStringInjective | src/pages/Simulado.tsx:27 | distinct numbers print differently, so the generated ids are distinct |
| Decimal.NatToStringParse | src/pages/Simulado.tsx:60 | a canonical digit run is reprinted exactly (the other round trip) |
| Decimal.PadStart | src/pages/Simulado.tsx:60 | `padStart`: the result has length max(len, width), ends with the input, and the prefix is all fill characters |
| Decimal.ParseNatPadded | src/pages/Simulado.tsx:60 | zero padding does not change the value read back |
| Simulado.MockIdInjective | src/pages/Simulado.tsx:26-27 | `q${i + 1}` ids of different positions differ |
| Simulado.MockQuestionsWellFormed | src/pages/Simulado.tsx:26-37 | about `MockQuestions`: the 40 mock questions have pairwise distinct ids `q1`..`q40`, four options each, and key option 0 |
| Simulado.IdsCardinality | src/pages/Simulado.tsx:26-37 | a question set has at most as many ids as questions, and exactly as many when the ids are distinct |
| Simulado.Find | src/pages/Simulado.tsx:89 | `find` by id: it finds a question iff the id belongs to the set, and what it finds is a question of the set with that id |
| Simulado.FindFirst | src/pages/Simulado.tsx:89 | what `find` returns is the first question carrying the id |
| Simulado.CorrectCountBounds | src/pages/Simulado.tsx:88-91 | about `CorrectCount` (the `filter`/`find` count): the correct count is at most the number of answer entries and at most the number of questions |
| Simulado.CountAnsweredCorrectly | src/pages/Simulado.tsx:88-91 | the question-by-question count of correctly answered questions is at most the number of questions |
| Simulado.CorrectCountPerQuestion | src/pages/Simulado.tsx:88-91 | with distinct ids, counting correct answer entries equals counting questions whose key is the stored answer |
| Simulado.Evaluate | src/pages/Simulado.tsx:87-94 | the verdict from `CorrectCount` and `Passed`: correct count bounded by the answers and by 40, and passed iff correct >= 26 |
| Simulado.PassMarkIsSixtyFivePercent | src/pages/Simulado.tsx:94 | about `Passed`: passing is exactly reaching 65% of 40; 25 fails and 26 passes |
| Simulado.AllCorrectPasses | src/pages/Simulado.tsx:88-94 | answering every question with its key gives 40 correct and a pass |
| Simulado.NoneCorrectFails | src/pages/Simulado.tsx:88-94 | when no stored answer is correct by `IsCorrect` (for example at timeout with 10 wrong answers) the result is 0 correct and a fail |
| Simulado.TwoDigitsReadBack | src/pages/Simulado.tsx:60 | `toString().padStart(2, '0')` gives at least two digits, exactly two below 100, which read back as the number |
| Simulado.ClockParts | src/pages/Simulado.tsx:60 | a digit run, ':' and two digits split back into the two runs |
| Simulado.ClockReadBack | src/pages/Simulado.tsx:60 | the padded minutes and seconds joined by ':' read back as those minutes and seconds |
| Simulado.FormatTimeRoundTrip | src/pages/Simulado.tsx:57-61 | about `FormatTime`: the display has at least five characters and reads back as `seconds / 60` minutes and `seconds % 60` seconds, and minutes * 60 + seconds == seconds with seconds < 60 |
| Simulado.FormatTimeAtStart | src/pages/Simulado.tsx:42-61 | about `FormatTime`: the initial 5400 seconds display as "90:00" |
| Simulado.AnsweredAtMostQuestionCount | src/pages/Simulado.tsx:105 | answers keyed by question ids number at most 40 |
| Simulado.FinishEnabledIffAllAnswered | src/pages/Simulado.tsx:237 | about `Session.FinishEnabled`: the finish button's enabling condition (at least 40 entries) holds iff every question has an answer |
| Simulado.Session.constructor | src/pages/Simulado.tsx:40-44 | an attempt starts at question 0 with no answers, 5400 seconds, not finished, no results shown |
| Simulado.Session.AnswerChange | src/pages/Simulado.tsx:63-68 | upserts exactly the current question's id; every other entry and every other field stays; no effect on the results view |
| Simulado.Session.NextQuestion | src/pages/Simulado.tsx:70-74 | index + 1 only when below the last question, otherwise unchanged |
| Simulado.Session.PreviousQuestion | src/pages/Simulado.tsx:76-80 | index - 1 only when above 0, otherwise unchanged |
| Simulado.Session.GoToQuestion | src/pages/Simulado.tsx:258-265 | jumps to an index in 0 .. 39; any other index leaves the index unchanged |
| Simulado.Session.FinishExam | src/pages/Simulado.tsx:82-103 | marks the attempt finished, shows the results and notifies exactly one verdict computed from the answers |
| Simulado.Session.FinishClicked | src/pages/Simulado.tsx:233-241 | with `Session.FinishOffered` and `Session.FinishEnabled`: finishes only when the button is offered (last question) and enabled (40 answers); otherwise nothing changes |
| Simulado.Session.Tick | src/pages/Simulado.tsx:47-55 | time never increases; while running it drops by exactly 1; at 0 it finishes with no completeness gate; once finished nothing changes |
| Simulado.Session.Results | src/pages/Simulado.tsx:108-115 | the score shown equals the verdict that was notified, bounded by the answers and by 40, passed iff >= 26 |
| FileUpload.NewRecords | src/components/FileUpload.tsx:22-27 | one record per accepted file, with its id, status uploading, progress 0 and no count |
| FileUpload.Advance | src/components/FileUpload.tsx:41-62 | keeps name and id, leaves completed and error records unchanged, preserves well-formedness, and a completion carries 20 + draw questions |
| FileUpload.StepAll | src/components/FileUpload.tsx:40-63 | same length; records with other ids unchanged; records with the id advanced; well-formed lists stay well-formed |
| FileUpload.FreshTrajectory | src/components/FileUpload.tsx:42-59 | after k firings a fresh record is uploading at 10k (k <= 10), processing at 15(k - 11) (k in 11 .. 18, reaching 105), completed at k = 19 |
| FileUpload.CompletedStays | src/components/FileUpload.tsx:40-62 | further firings leave a completed record as it is |
| FileUpload.IterateAdd | src/components/FileUpload.tsx:39-64 | m firings followed by n firings are m + n firings |
| FileUpload.FreshCompletesInTime | src/components/FileUpload.tsx:39-69 | a fresh record is completed iff it has had at least 19 firings, with 20 + draw questions; 19 is also the nominal number of 500 ms firings before the 10 s clear, so when the interval fires on schedule the firings before the clear complete the record |
| FileUpload.Without | src/components/FileUpload.tsx:72-74 | no record with the id remains, and every other record keeps its multiplicity |
| FileUpload.WithoutConcat | src/components/FileUpload.tsx:73 | removal distributes over concatenation, so kept records keep their order |
| FileUpload.WithoutAbsent | src/components/FileUpload.tsx:73 | removing an id no record has changes nothing |
| FileUpload.TotalConcat | src/components/FileUpload.tsx:84-86 | about `TotalQuestions`: the total of a concatenation is the sum of the totals |
| FileUpload.TotalOfNewRecords | src/components/FileUpload.tsx:84-86 | freshly dropped records contribute nothing to the total |
| FileUpload.DropKeepsTotal | src/components/FileUpload.tsx:21-29 | dropping files leaves the total unchanged |
| FileUpload.StepKeepsOrRaisesTotal | src/components/FileUpload.tsx:40-63 | an interval firing never lowers the total |
| FileUpload.RemoveKeepsOrLowersTotal | src/components/FileUpload.tsx:72-74 | removing a file never raises the total |
| FileUpload.TotalBounds | src/components/FileUpload.tsx:84-86 | about `TotalQuestions`: the total lies between 20 and 49 times the number of completed records |
| FileUpload.StartGate | src/components/FileUpload.tsx:174 | about `StartShown`: two completed files always show the start link, and none never does |
| FileUpload.Uploader.constructor | src/components/FileUpload.tsx:18 | the list starts empty |
| FileUpload.Uploader.Drop | src/components/FileUpload.tsx:21-29 | appends the new records after the existing list, which is kept in order |
| FileUpload.Uploader.IntervalFired | src/components/FileUpload.tsx:39-64 | the list becomes `StepAll` of the old list for that id, and stays well-formed |
| FileUpload.Uploader.RemoveFile | src/components/FileUpload.tsx:72-74 | the list becomes the old list without that id's records, and stays well-formed |

## Left out

- Rendering, styling, icons, router links, the progress bars and the "questions available" card: UI only, nothing to verify.
- The score percentage and its `toFixed(1)` text: floating point. The pass verdict is an integer comparison and is kept.
- `toast` calls: a foreign side effect. The exam toast is recorded as a `Verdict` in `Session.notices`. The upload "PDF processed" toast is not recorded.
- `setTimeout`, `setInterval`, `clearInterval` and React's effect scheduling: each timer firing is one explicit call, with no concurrency. The model does not stop calls to `IntervalFired` after 19 firings. `FreshCompletesInTime` shows only that 19 firings complete a fresh record, and 19 is the number that falls before the clear when the interval runs on schedule. The interval of a removed file goes on firing harmlessly, since a step on an absent id changes nothing.
- `Math.random`: file ids and the extracted-question draw are caller-supplied. One `IntervalFired` call takes a single draw. When several records share an id, the source draws a separate number for each of them, but the model gives them all the same draw.
- The `clearInterval` after 10 s (src/components/FileUpload.tsx:66-69) is not modelled. A record that a late or throttled interval leaves uncompleted at the clear stays uploading or processing for good, and its questions never reach the total. The model does not capture that case.
- `react-dropzone` file acceptance and the `File` object: a file is represented by its name.
- `parseInt` on the radio value: the radio group only offers "0" .. "3", so `AnswerChange` takes the option index as an integer.
- `Simulado.Session.AnswerChange`, `NextQuestion`, `PreviousQuestion`, `GoToQuestion`, `FinishClicked`: these add a "results not shown" guard that the handlers lack. The guard stands for the fact that those controls are not rendered once the results view replaces the question view.
- The results history page, the landing page and the layout: static data and markup.
