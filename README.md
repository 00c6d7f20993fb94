# EMT quiz application — a verified model of its session logic

The EMT quiz application is a single-page app. It generates multiple-choice
quizzes from a knowledge base of EMT training topics through a text
generation service. It scores the answers, keeps a history of past results in
browser storage, and lets the user add and delete custom topics uploaded as
files. This project models the parts of the app that are not display:

- **`Session`** (`session.dfy`) is the quiz session controller: a class `App`
  with the controller's state fields and one method per handler. The handlers
  are start, answer, submit, regenerate, restart, view history, review,
  back, clear, add topic and delete topic. The quiz states are `NotStarted`,
  `InProgress`, `Completed`, `ViewingHistory` and `Reviewing`. Two more fields
  hold what the two storage keys contain. A ghost log records every request
  sent to the generation service.
- **`Scoring`** (`scoring.dfy`) holds the counting loop of the submit handler
  and the rounded percentage. The loop is a method proved against a counting
  function, and lemmas relate that function to the set of correctly answered
  questions.
- **`History`** (`history.dfy`) holds the result built at submission, the
  most-recent-first history, and the migration of stored records that lack a
  question type.
- **`Knowledge`** (`knowledge.dfy`) holds adding a topic (refused when the
  name matches an existing one ignoring case), deleting by exact name, the
  custom entries that are written to storage, and resolving selected names
  against the knowledge base.
- **`Generator`** (`generator.dfy`) builds the generation request: its
  numbered directives, the optional avoid-repetition directive and the
  grounding topics. It checks the reply and stamps each question with an id
  and the requested difficulty.
- **`TopicSelection`** (`start_screen.dfy`) covers the start screen. The
  search filter, toggling, select all and deselect all, and the start guard
  are pure functions. Turning an uploaded file into a topic is one too. A
  class `StartScreen` keeps the selection and updates it in its handlers.
- **`Explanations`** (`score_screen.dfy`) covers the score screen. It keeps
  an explanation state per question id in a class `ExplanationPanel`. It also
  holds the explanation request, which answers are marked correct, and the
  colour band of the percentage.
- **`QuizTypes`**, **`Text`** and **`Seqs`** hold the shared records, the
  string operations the code relies on, and an order-preserving filter and
  de-duplication.

The generation and explanation services, the clock and the user's answers to
confirmation dialogs are inputs. A reply is a `ProviderReply`: the call
threw, or it parsed to an object whose `questions` field is an array or is
not. An explanation reply is an `ExplanationReply`. `now` is the clock
reading, and `confirmed` is the dialog's answer.

Points of behaviour the model keeps exactly as the code has them:

- A failed regeneration is not caught: the failure propagates to the caller
  (App.tsx:285-291), and `Session.App.Regenerate` returns it with the session
  unchanged. There is no fallback to a restart on failure.
- No handler checks whether a reply is still wanted: nothing discards a
  generation reply that arrives after a restart. The model has no such guard
  either, and each handler runs to completion.
- The generator accepts an empty `questions` array and does not check
  individual items (App.tsx:199-207). The start flow then rejects an empty
  batch with its own message (App.tsx:216-218), and malformed items are kept
  as they are.
- The start guard also requires a non-zero question count. The start button,
  however, does not look at the count.
- Selected topics are an ordered list, not a set. Resolving them keeps
  knowledge-base order.

## Model

| member | source | states |
|---|---|---|
| QuizTypes.MessageOf | App.tsx:235 | a thrown `Error` is reported with its own message, any other value with "An unknown error occurred." |
| Text.Lower | App.tsx:89 | lower-casing keeps length and lower-cases each character; it is idempotent (`Text.LowerIdempotent`) |
| Text.ContainsAt | components/StartScreen.tsx:34 | `includes` holds exactly when the term occurs at some position |
| Text.TrimEmptyIffBlank | components/StartScreen.tsx:99 | trimming leaves nothing exactly when the text is all white space |
| Text.StripSuffixIgnoringCase | components/StartScreen.tsx:79 | a trailing suffix matched without regard to case is cut off; otherwise the name is unchanged; the result is always a prefix of the name |
| Seqs.DedupAfterDistinct | components/StartScreen.tsx:54 | the union built with a `Set` over a duplicate-free list is that list followed by the new elements only |
| Scoring.FirstCorrectIndex | App.tsx:252 | the position of the first option flagged correct, or none when no option is flagged |
| Scoring.CorrectAnswer | App.tsx:252 | the correct answer text exists exactly when some option is flagged correct, and it is the text of the first flagged option |
| Scoring.AnswerSlot | App.tsx:253 | reading an answer slot gives `undefined` past the end, `null` for an unanswered slot, and the stored answer text otherwise |
| Scoring.AnsweredCorrectly | App.tsx:252-253 | a `null` slot never counts; a given answer counts exactly when it equals the correct answer text; a slot past the end counts exactly when no option is flagged (`undefined === undefined`) |
| Scoring.AnsweredCorrectlyIff | App.tsx:252-253 | a `null` slot never counts, and a given answer counts exactly when it equals the text of the first option flagged correct (the same test marks rows on the score screen) |
| Scoring.Score | App.tsx:250-256 | the score lies between 0 and the number of questions |
| Scoring.ScoreCountsCorrectIndices | App.tsx:250-256 | the score is the number of indices answered correctly |
| Scoring.FullScoreIff | App.tsx:250-256 | full marks exactly when every question is answered correctly |
| Scoring.UnansweredScoresZero | App.tsx:221-222 | an answer sheet of `null`s scores zero |
| Scoring.CountCorrectAnswers | App.tsx:250-257 | the counting loop returns the score of the answers |
| Scoring.Percentage | App.tsx:265 | the percentage is 100·score/total rounded half up, and 0 when there are no questions |
| Scoring.PercentageBounded | App.tsx:265 | a score between 0 and the total gives a percentage between 0 and 100 |
| Scoring.PercentageOfFullScore | App.tsx:265 | full marks give exactly 100 |
| Scoring.PercentageMonotone | App.tsx:265 | a higher score never gives a lower percentage |
| History.NewResult | App.tsx:260-271 | the new result carries the id, date, score, question count, percentage (at most 100), questions, answers and the configuration's difficulty, type and topics |
| History.Prepend | App.tsx:274 | the new result comes first and the older entries follow in their original order |
| History.SubmissionsMostRecentFirst | App.tsx:274-275 | after several submissions the history lists them latest first, ahead of the earlier history |
| History.Backfill | App.tsx:53 | an old record's question type is knowledge-based exactly when its difficulty is easy |
| History.MigrateRecord | App.tsx:51-54 | an existing question type is kept, a missing one is back-filled, and every other field is unchanged |
| History.Migrate | App.tsx:51-54 | migration keeps length and order and migrates each record |
| History.SerializeAll | App.tsx:276 | the stored history has one record per entry, in order |
| History.MigrateSerialized | App.tsx:47-55 | a history written to storage reads back unchanged |
| History.MigrateLegacy | App.tsx:51-54 | a record without a question type reads back intact, with the type derived from its difficulty |
| History.MigrateIdempotent | App.tsx:51-54 | migrating an already migrated history changes nothing |
| History.LoadHistory | App.tsx:46-60 | a missing or unreadable entry gives an empty history, a readable one the migrated history |
| Knowledge.AddTopic | App.tsx:88-94 | a name already taken, ignoring case, leaves the knowledge base unchanged; otherwise the topic is appended at the end |
| Knowledge.AddTopicKeepsDistinct | App.tsx:88-94 | adding keeps names distinct ignoring case, and adding the same topic twice changes nothing more |
| Knowledge.AddTopicRefusesCaseVariant | App.tsx:89 | a name that differs from an existing one only in case is refused |
| Knowledge.DeleteTopic | App.tsx:100-102 | deletion removes exactly the entries with that exact name |
| Knowledge.DeleteKeepsDistinct | App.tsx:101 | deleting keeps names distinct |
| Knowledge.DeleteTopicOrder | App.tsx:101 | deleting keeps the remaining entries in order and removes nothing when no name matches exactly |
| Knowledge.CustomTopics | App.tsx:96 | the persisted custom list holds exactly the entries flagged custom |
| Knowledge.CustomTopicsRoundTrip | App.tsx:62-66 | custom topics loaded after the built-ins are written back as the same list |
| Knowledge.CustomTopicsAfterAdd | App.tsx:93-97 | an accepted custom topic extends the persisted custom list by exactly that topic |
| Knowledge.TopicsNamed | App.tsx:148 | the resolved topics are the entries whose exact name is selected, and none resolve exactly when no entry's name is selected |
| Knowledge.TopicsNamedOrder | App.tsx:148 | resolution keeps knowledge-base order |
| Generator.QuestionTexts | App.tsx:163 | the exclusion list holds each previous question's text, in order |
| Generator.ExclusionDirective | App.tsx:161-168 | the avoid-repetition directive is present exactly when there are previous questions |
| Generator.BuildRequest | App.tsx:148-185 | no request is built exactly when no selected name resolves |
| Generator.RequestShape | App.tsx:170-185 | a request carries the five fixed directives in order, a sixth listing every previous question text exactly when there are previous questions, and as grounding exactly the resolved entries |
| Generator.Stamp | App.tsx:203-207 | item i keeps its text and options and gets id base + i and the requested difficulty |
| Generator.StampIdsIncreasing | App.tsx:205 | ids within one batch are strictly increasing, hence distinct |
| Generator.Generate | App.tsx:148-152 | generation throws "No topics were provided for quiz generation." when no selected name resolves |
| Generator.GenerateOutcome | App.tsx:196-207 | generation succeeds exactly when a name resolves and the reply has a `questions` array; the reply's error or "Invalid response format from AI." otherwise; on success the items are stamped as they are |
| Session.Unanswered | App.tsx:221 | one `null` answer per question |
| Session.StartFlow | App.tsx:210-218 | an empty topic list is refused with "Please select at least one topic to start the quiz."; success always yields a non-empty question set |
| Session.StartFlowOutcome | App.tsx:210-223 | the flow succeeds exactly when topics are selected, one resolves and the reply holds a non-empty array; an empty array is refused with "AI failed to generate questions. Please try again." |
| Session.FlowRequest | App.tsx:211-214 | a request is sent exactly when topics are selected and one of them resolves |
| Session.App.constructor | App.tsx:20-70 | the initial state followed by the start-up load of history and custom topics |
| Session.App.StartQuizFlow | App.tsx:210-224 | on success the new questions with one `null` answer each, score 0 and in progress; on failure the failure is returned and the quiz fields are unchanged |
| Session.App.Start | App.tsx:226-241 | the configuration is recorded even on failure; a failure sets "Failed to start. " + message and the start screen; loading is off afterwards |
| Session.App.AnswerSelect | App.tsx:243-247 | only the chosen slot changes; the length and all other slots stay |
| Session.App.SubmitQuiz | App.tsx:249-283 | the score is the count of correct answers; with a configuration exactly one result is prepended and stored; without one the history is unchanged; the state is completed |
| Session.App.Regenerate | App.tsx:285-291 | with a configuration and questions, the start flow runs with the same configuration, the current count and the current questions as the exclusion list, and a failure is returned uncaught; otherwise a restart |
| Session.App.Restart | App.tsx:293-300 | not started, no questions or answers, score 0, no error and no configuration, whatever the state before |
| Session.RestartTwice | App.tsx:293-300 | a second restart leaves the same state as the first, and history and knowledge base are untouched |
| Session.App.ViewHistory | App.tsx:302 | the history view is shown |
| Session.App.ReviewQuiz | App.tsx:304-307 | the chosen result is under review |
| Session.App.BackToHistory | App.tsx:309-312 | no result is under review and the history view is shown |
| Session.App.ClearHistory | App.tsx:314-326 | after confirmation both storage keys are removed, the history is empty and the knowledge base is the built-ins; without it nothing changes |
| Session.App.AddCustomTopic | App.tsx:88-98 | the topic is accepted exactly when its name is not taken ignoring case; then the custom entries are stored, otherwise storage is unchanged |
| Session.App.DeleteCustomTopic | App.tsx:100-106 | exact-name entries are removed and the custom entries are stored |
| TopicSelection.FilteredKnowledgeBase | components/StartScreen.tsx:33-35 | the visible topics are exactly those whose lower-cased name contains the lower-cased search term |
| TopicSelection.FilteredOrder | components/StartScreen.tsx:33-35 | the filter keeps knowledge-base order |
| TopicSelection.EmptySearchShowsAll | components/StartScreen.tsx:33-35 | an empty search shows the whole knowledge base |
| TopicSelection.SearchIgnoresCase | components/StartScreen.tsx:33-35 | the search term's case does not matter |
| TopicSelection.Toggled | components/StartScreen.tsx:37-43 | a selected topic is removed and nothing else; an unselected one is appended after the others |
| TopicSelection.ToggleRemovesInPlace | components/StartScreen.tsx:40 | removing a topic leaves the other selections in order |
| TopicSelection.ToggleTwice | components/StartScreen.tsx:37-43 | toggling an unselected topic twice restores the selection |
| TopicSelection.ToggleNoDuplicates | components/StartScreen.tsx:37-43 | toggling keeps the selection free of duplicates |
| TopicSelection.AfterSelectAll | components/StartScreen.tsx:47-56 | when all visible topics are selected, exactly they are removed; otherwise the selection becomes the union with the visible topics |
| TopicSelection.SelectAllOver | components/StartScreen.tsx:48-55 | the same on a given visible list |
| TopicSelection.SelectAllEffect | components/StartScreen.tsx:45-56 | select all keeps earlier selections first and in order, leaves the header box ticked and adds no duplicates; deselect all unselects every visible topic and keeps the others in order |
| TopicSelection.SelectAllOverEffect | components/StartScreen.tsx:45-56 | the same on a given visible list |
| TopicSelection.SelectAllRoundTrip | components/StartScreen.tsx:47-56 | with no visible topic selected, select all and then deselect all restores the selection |
| TopicSelection.SelectAllOverRoundTrip | components/StartScreen.tsx:47-56 | the same on a given visible list |
| TopicSelection.DropAppended | components/StartScreen.tsx:51-54 | removing the names just added brings back a list that held none of them |
| TopicSelection.AreAllFilteredSelected | components/StartScreen.tsx:45 | never ticked when nothing is visible; when ticked every visible topic is selected, and otherwise some visible topic is not |
| TopicSelection.StartDisabled | components/StartScreen.tsx:134 | the button is enabled only when not loading, with a topic selected and a type and difficulty chosen, and disabled when any of these fails |
| TopicSelection.StartButtonMatchesGuard | components/StartScreen.tsx:134 | with a non-zero count the start button is enabled exactly when the start guard passes |
| TopicSelection.AlertOf | components/StartScreen.tsx:93-117 | an alert is shown exactly when no topic results from the upload |
| TopicSelection.UploadName | components/StartScreen.tsx:78-82 | the topic name is the file name without a trailing ".txt" (plain text) or ".pdf" (PDF), ignoring case |
| TopicSelection.Upload | components/StartScreen.tsx:78-109 | another file type is refused, a read failure reported, white-space-only content rejected; otherwise a custom topic with the stripped name and the content (trimmed for PDF) |
| TopicSelection.TrimmedBlank | components/StartScreen.tsx:92-99 | trimming the PDF text first does not change whether it counts as empty |
| TopicSelection.AutoSelectOnce | components/StartScreen.tsx:112 | after an upload the new name is in the selection exactly once, after the earlier selections |
| TopicSelection.StartScreen.constructor | components/StartScreen.tsx:23 | the selection starts empty |
| TopicSelection.StartScreen.TopicToggle | components/StartScreen.tsx:37-43 | the selection becomes the toggled selection; the topic is selected afterwards exactly when it was not before |
| TopicSelection.StartScreen.SelectAllToggle | components/StartScreen.tsx:47-56 | the selection becomes the select-all or deselect-all result and stays duplicate-free |
| TopicSelection.StartScreen.Start | components/StartScreen.tsx:58-61 | a start request is passed on exactly when not loading, a topic is selected, the count is non-zero and a type and difficulty are chosen |
| TopicSelection.StartScreen.FileChange | components/StartScreen.tsx:63-120 | an accepted upload is returned and its name selected once; any other outcome leaves the selection |
| TopicSelection.StartScreen.Delete | components/StartScreen.tsx:126-132 | after confirmation the name is absent from the selection and the others stay in order; without it nothing changes |
| Explanations.Pending | components/ScoreScreen.tsx:26 | a pending entry is loading with no text and no error |
| Explanations.Settled | components/ScoreScreen.tsx:64-70 | a reply sets the text and no error; a failure sets no text and "Failed to load explanation. Please try again."; neither is loading |
| Explanations.AfterRequest | components/ScoreScreen.tsx:26 | asking sets that id's entry to pending and leaves every other id's entry |
| Explanations.AfterReply | components/ScoreScreen.tsx:65-70 | a reply sets that id's entry and leaves every other id's entry |
| Explanations.RepliesCommute | components/ScoreScreen.tsx:65-70 | replies for different questions give the same map in either order |
| Explanations.RequestKeepsOtherPending | components/ScoreScreen.tsx:155 | asking about one question keeps another outstanding one disabled |
| Explanations.ExplainDisabled | components/ScoreScreen.tsx:155 | a question with no entry has its button enabled; with an entry the button is disabled exactly while that entry is loading |
| Explanations.ButtonCycle | components/ScoreScreen.tsx:155 | a request disables the question's button and its reply enables it again |
| Explanations.ExplainOffered | components/ScoreScreen.tsx:117-151 | a given answer is marked wrong and offered an explanation exactly when it differs from the correct answer text; a slot past the end exactly when some option is flagged |
| Explanations.UnansweredOffersExplanation | components/ScoreScreen.tsx:117-151 | an unanswered question is marked wrong and offers an explanation |
| Explanations.AnswerLabel | components/ScoreScreen.tsx:54 | a missing, `null` or empty answer is shown as "Not answered", any other as itself |
| Explanations.RequestFor | components/ScoreScreen.tsx:31-54 | the grounding holds exactly the entries whose topic is among the quiz topics; the request carries the question, its option texts, the correct answer and the answer as shown |
| Explanations.ReviewedPercentageMatches | components/ScoreScreen.tsx:22 | the percentage the score screen computes for a stored result equals the percentage stored at submission |
| Explanations.ColorFor | components/ScoreScreen.tsx:75-79 | green from 75, yellow from 50 below 75, red below 50 |
| Explanations.ColorMonotone | components/ScoreScreen.tsx:75-79 | a higher percentage never gets a worse colour |
| Explanations.ColorOfExtremes | components/ScoreScreen.tsx:75-79 | full marks are green and no marks red |
| Explanations.ExplanationPanel.constructor | components/ScoreScreen.tsx:20 | the explanation map starts empty |
| Explanations.ExplanationPanel.GetExplanation | components/ScoreScreen.tsx:24-36 | the question's entry becomes pending, the others stay, and the request for it is produced |
| Explanations.ExplanationPanel.ExplanationArrived | components/ScoreScreen.tsx:64-71 | the reply is recorded for that question only |

## Left out

- Rendering: all markup, the in-progress screen layout, the history screen, the icons, the simulation screen, and the SVG ring geometry of the score screen. None of these changes state.
- The submit button's condition (disabled while an answer is `null`): it belongs to the markup, and the submit handler itself accepts any answers.
- The generation and explanation services: the client construction, the response schema, the model identifier and the prompt wording. The model keeps only which directives are present, in which order and with which parameters, and the reply is an input.
- Storage failures: a failed `setItem` after a submit, and a failed removal in clear, which sets "Could not clear history and topics. Please try again." Storage is modelled as two fields that always accept writes. For the history key, `Unreadable` covers both text that does not parse and a parsed value that is not an array, since the migration's `map` then throws inside the same `try` (App.tsx:46-60). For the custom-topics key, `Unreadable` means only that `JSON.parse` threw, which leaves the built-ins alone.
- A custom-topics entry that parses to something other than an array: the code spreads it into the knowledge base in a state updater that runs outside the `try` (App.tsx:61-69). `null`, a number or a plain object then make rendering fail, and a string becomes one entry per character. The model cannot express such an entry, since `Present` always holds a list of topics.
- The theme preference, its storage key, the media query and the document class toggling: they are display only.
- Reading file contents: `file.text()` and the PDF page extraction are replaced by their result, the extracted text or a failure. The `isProcessingFile` spinner flag and the reset of the file input are left out as display.
- Asynchrony: each handler runs to completion. The time a generation call is outstanding, during which `isLoading` is true and other events could arrive, is not modelled.
- Generator.Stamp: uses one clock reading for the whole batch, whereas the code reads the clock once per item; later readings can only be larger, so the ids stay distinct either way.
- Text.Lower: lower-cases ASCII letters only, where `toLowerCase` also lower-cases other scripts, so case-insensitive comparisons of non-ASCII names are not modelled.
- Floating point: the percentage is exact integer rounding of 100·score/total, half up, as `Math.round` does for these non-negative values.
- The contents of the built-in knowledge base: the built-ins are an arbitrary sequence, given to `Session.App`'s constructor.
- Alert and confirmation dialogs: an alert is a returned outcome (`TopicSelection.AlertOf`), and a confirmation is a `confirmed` parameter.
- The start screen's other form fields (question count, search term, question type, difficulty): they are plain settable values. They are passed as parameters to the handlers that read them.
- The upload handler hands an accepted topic to the session and selects its name whatever the session does. When the session refuses the name because it differs only in case from an existing topic, the selection holds a name that resolves to no entry. The model states exactly this behaviour through `TopicSelection.StartScreen.FileChange` and `Session.App.AddCustomTopic`.
