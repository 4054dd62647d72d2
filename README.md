# EcoSpark core, modelled in Dafny

EcoSpark is a Django web application about electronic waste. This project
models its core logic and proves properties of it:

- the pages in `core/views.py`:
  - the AI quiz;
  - the recycle-or-reuse decision;
  - the reuse marketplace, with its repair-shop search;
  - the urban-mining value estimator;
  - the nearby recycling-centre endpoint;
  - the green challenges, with their CO2 total, progress and badges;
  - the merge of a visitor's session progress into their account at login;
  - the credits page;
  - the informal-collector directory;
- the text-generation helper `get_ai_explanation` in `core/utils/ai.py`;
- the registration and profile forms in `core/forms.py`;
- the schema in `core/models.py`, as an in-memory store whose operations
  keep the schema's rules;
- the Markdown-to-PDF script `scripts/generate_pdf.py`, up to the list of
  flowables handed to ReportLab.

The model is split into modules:

| module | models |
|---|---|
| `Wrappers` | `Option` |
| `Seqs` | filtering and taking from sequences |
| `Text` | the Python string methods the views use (`strip` with Python's whitespace set, `upper`/`lower`, `find`, `split`, `splitlines`, `replace`, integer rendering and parsing) |
| `Numbers` | `float()` of decimal text, and `round()` |
| `Models` | the records and the `Store` class |
| `Forms` | the two forms; `ProfileForm` is a class |
| `Quiz`, `Decision`, `Marketplace`, `Valuation`, `Nearby`, `Challenges`, `Credits`, `Collectors` | one page each |
| `AiClient` | `get_ai_explanation` |
| `MdPdf` | `md_to_pdf` |

Outside systems are parameters:

- The text generator is a function from prompt to reply.
- The place services reply with a status and records, or they raise.
- The environment is a record of optional strings.
- The clock is an `int` passed in.
- The password hash is a function.

Where the code loops, the model has a method with loop invariants. The
method is proved equal to a specification function, and the properties are
lemmas about that function. The database is a class whose methods change
its tables, and every one of them keeps `Valid()`:

- at most one completion per user and challenge;
- the default listing orders;
- references only to existing users and challenges;
- credit rows only for existing users.

Behaviour worth knowing that the model follows as the code has it:

- Answer letters in the quiz are not read after the colon. The view takes
  the first of A, B, C, D that occurs anywhere in the upper-cased line.
  - A line opening with "ANSWER:" or "ANS:" therefore always sets A
    (`Quiz.AnswerKeywordGivesA`).
  - A line opening with "CORRECT:" can never set D
    (`Quiz.CorrectKeywordNeverD`).
- The quiz filter checks that there are four options. It does not check
  that their labels differ.
- The price patterns of the value estimator demand the characters `â‚`
  before the digits; the `¹` after them is optional. These bytes are a
  mis-encoded rupee sign. An answer written with a real rupee sign, or with
  none, keeps the default prices (`Valuation.PricesNeedEncodedSign`).
- A member who submits a challenge id that parses to no existing
  challenge gets a server error: `get_or_create` violates the foreign key.
  At login, the same case ends the merge loop. The rows created before it
  stay, and the session list is kept.
- Progress is `completed / listed * 100`. Ids outside the active list also
  count as completed, so progress can exceed 100 (`Challenges.ProgressBounds`).
- The estimator accepts a negative age. Its depreciation factor is then
  above 1, so the payout exceeds the metal value
  (`Valuation.NegativeAgeOverpays`).
- Registration looks up an empty email like any other, so a second account
  with an empty email is refused.

## Model

| member | source | states |
|---|---|---|
| Numbers.PyFloatOfNat | EcoSpark/core/views.py:122-123 | `float()` of a decimal numeral, with or without a leading minus, is its value |
| Numbers.PyFloatOfPlusNat | EcoSpark/core/views.py:122-123 | `float()` accepts a leading plus sign as well |
| Numbers.RoundHalfEven | EcoSpark/core/views.py:69 | `round()` lands within one half of its argument, and on an exact half it picks the even neighbour |
| Numbers.RoundHalfEvenProperties | EcoSpark/core/views.py:69 | rounding fixes integers and is monotone |
| Text.StripShape | EcoSpark/core/views.py:114 | what `strip()` removes is whitespace, and what it keeps neither starts nor ends with whitespace |
| Text.StripBlank | EcoSpark/core/views.py:894-895 | a text made only of whitespace strips to nothing |
| Text.Partition | EcoSpark/core/views.py:510 | `split(sep, 1)` cuts at the first occurrence of the separator, and only when there is one |
| Text.JoinSplitOn | EcoSpark/scripts/generate_pdf.py:25 | joining the pieces of `split(sep)` with `sep` gives back the text |
| Text.SplitLines | EcoSpark/core/views.py:429 | `splitlines()` breaks at every line-break character, with `\r\n` as one break; it yields no pieces exactly for the empty text, and no piece holds a line break |
| Text.SplitLinesJoin | EcoSpark/core/views.py:429 | for text broken by `\n` only, the pieces each followed by a newline give back the text, plus a final newline when it had none; so a final newline makes no extra empty piece |
| Models.ActiveInOrder | EcoSpark/core/models.py:57-58 | the active challenges keep the default order (order ascending, newest first) and are all active |
| Models.UserCompletionsInOrder | EcoSpark/core/models.py:69-71 | a user's completions are listed newest first, each challenge at most once |
| Models.GetOrCreateEffect | EcoSpark/core/models.py:64-70 | `get_or_create` fails only for an unrecorded pair with an unknown challenge; otherwise the pair is recorded afterwards, and a row is added exactly when it reports Created |
| Models.GetOrCreateKeeps | EcoSpark/core/models.py:69-71 | `get_or_create` keeps pairs unique and the newest-first order |
| Models.IdsAfterDelete | EcoSpark/core/models.py:50-58 | deleting a challenge removes exactly its id |
| Models.CreditLabel | EcoSpark/core/models.py:27-28 | `str(credit)` is the username, " - ", the points and " pts" |
| Models.CreditLabelInjective | EcoSpark/core/models.py:27-28 | two labels of one user are equal only for equal balances |
| Models.Store.constructor | EcoSpark/core/models.py:50-71 | a store holding valid challenges and no rows satisfies every schema rule |
| Models.Store.AddUser | EcoSpark/core/forms.py:73-74 | a saved user gets a fresh id; nothing else changes |
| Models.Store.UpdateUser | EcoSpark/core/forms.py:70-75 | saving an account replaces that account only |
| Models.Store.GetOrCreateCompletion | EcoSpark/core/models.py:64-71 | the completion table becomes what `GetOrCreate` gives, and the schema rules still hold |
| Models.Store.GetOrCreateCredit | EcoSpark/core/views.py:50-54 | afterwards the user has a credit row; an existing row keeps its points, a new one starts at 0 |
| Models.Store.AddPoints | EcoSpark/core/views.py:73-76 | only the user's balance moves, by exactly the points given |
| Models.Store.DeleteUser | EcoSpark/core/models.py:24 | deleting a user cascades to their credit row and their completions |
| Models.Store.DeleteChallenge | EcoSpark/core/models.py:66 | deleting a challenge cascades to its completions and removes its id |
| Forms.RegistrationErrors | EcoSpark/core/forms.py:48-68 | each error is raised exactly when its condition holds: username held, email held, both passwords given and different |
| Forms.RegistrationKeepsUnique | EcoSpark/core/forms.py:48-58 | adding an account that passed validation keeps usernames and emails unique |
| Forms.RegistrationRejectsHeld | EcoSpark/core/forms.py:48-58 | a username or email already held always fails registration |
| Forms.Register | EcoSpark/core/forms.py:70-75 | a form with errors saves nothing; otherwise the account is built with the hashed password and stored exactly when `commit` holds |
| Forms.ProfileForm.constructor | EcoSpark/core/forms.py:124-128 | the form is bound to its account and its email field starts disabled |
| Forms.ProfileForm.CleanedEmail | EcoSpark/core/forms.py:128 | a disabled email field cleans to the stored email, whatever was submitted |
| Forms.ProfileForm.Updated | EcoSpark/core/forms.py:124-135 | the updated account takes the new username, keeps its password and, while the field is disabled, its email |
| Forms.ProfileForm.Save | EcoSpark/core/forms.py:130-135 | the update is saved exactly when no other account holds the username, and then only that account changes |
| Forms.ProfileUsernameRule | EcoSpark/core/forms.py:130-135 | keeping one's own username passes; a passing update keeps usernames unique; a name another account holds fails |
| Quiz.QuestionText | EcoSpark/core/views.py:438 | the prompt taken from a header line is never empty |
| Quiz.AnswerLetterFrom | EcoSpark/core/views.py:444-447 | the letter chosen is the first of A to D occurring in the line, and there is none only when no letter occurs |
| Quiz.Template | EcoSpark/core/views.py:451-462 | a filler question is well formed: a prompt, options A to D, and answer C |
| Quiz.StepGrowth | EcoSpark/core/views.py:435-447 | one line closes at most one question |
| Quiz.Collected | EcoSpark/core/views.py:429-449 | the loop and the final question collect at most five questions, each with a prompt |
| Quiz.RunBound | EcoSpark/core/views.py:431-433 | the loop never collects more than five questions |
| Quiz.CollectedBound | EcoSpark/core/views.py:429-449 | parsing, the final question included, yields at most five questions |
| Quiz.PadShape | EcoSpark/core/views.py:451-462 | padding keeps the parsed questions in front and fills up to five with the numbered templates |
| Quiz.GeneratedShape | EcoSpark/core/views.py:429-462 | a generated quiz has five well-formed questions: the kept parsed ones in order, then templates |
| Quiz.Generated | EcoSpark/core/views.py:429-462 | a generated quiz has exactly five questions, each with a prompt and four options |
| Quiz.AnswerKeywordGivesA | EcoSpark/core/views.py:443-447 | a line opening with "ANSWER:" or "ANS:" always sets answer A |
| Quiz.CorrectKeywordNeverD | EcoSpark/core/views.py:443-447 | a line opening with "CORRECT:" sets A, B or C, never D |
| Quiz.HeaderOpensFresh | EcoSpark/core/views.py:435-438 | a header line opens a fresh question with a non-empty prompt and no options or answer |
| Quiz.NoHeaderNoQuestions | EcoSpark/core/views.py:431-447 | without header lines the loop collects nothing |
| Quiz.NoHeaderAllTemplates | EcoSpark/core/views.py:429-462 | a reply without header lines gives the five templates |
| Quiz.ReadLine | EcoSpark/core/views.py:434-447 | the body of the parsing loop performs one parse step |
| Quiz.ParseLines | EcoSpark/core/views.py:430-449 | the parsing loop, with its break at five, computes the collected questions |
| Quiz.GenerateQuestions | EcoSpark/core/views.py:428-462 | generation gives five well-formed questions, as `Generated` describes |
| Quiz.UserAnswers | EcoSpark/core/views.py:471-472 | five answers, each present exactly when its field `q<i>` was posted |
| Quiz.CorrectUpTo | EcoSpark/core/views.py:473-476 | the count of correct answers never exceeds the questions counted |
| Quiz.AllCorrect | EcoSpark/core/views.py:473-477 | the score is full exactly when every answer equals its question's answer |
| Quiz.BlankScoresFull | EcoSpark/core/views.py:472-476 | unanswered questions without an answer key count as correct |
| Quiz.ShownCount | EcoSpark/core/views.py:474 | at most five questions are scored and shown |
| Quiz.Score | EcoSpark/core/views.py:473-477 | the scoring loop counts the correct answers among the shown questions |
| Quiz.QuizView | EcoSpark/core/views.py:416-482 | a POST shows and scores the posted questions; a GET, or any request with `regen=1`, shows a generated quiz; anything else shows an empty page |
| Decision.Decide | EcoSpark/core/views.py:505-517 | without the exact marker, the reason is the whole answer |
| Decision.Prompt | EcoSpark/core/views.py:495-501 | the item is quoted twice in the prompt |
| Decision.View | EcoSpark/core/views.py:489-519 | there is a result exactly for a POST with a non-blank item, and it is the decision on the answer to that item's prompt |
| Decision.MarkedDecision | EcoSpark/core/views.py:509-515 | with the marker, the reason is the trimmed text after its first occurrence, and the decision is Reuse exactly when "reuse" is in that first line |
| Decision.MisCasedMarker | EcoSpark/core/views.py:509-515 | a marker in another case gives Recycle with the whole answer as reason |
| Decision.UnmarkedDecision | EcoSpark/core/views.py:516-517 | without a marker, Reuse exactly when the answer starts with "reuse" or has " reuse " within its first 50 characters |
| Decision.MarkerFirst | EcoSpark/core/views.py:509-515 | an answer opening with the marker is decided by the rest of it |
| Decision.LabelledAnswer | EcoSpark/core/views.py:512-514 | "Reuse" alone on the marker's line gives Reuse |
| Marketplace.ParseAdvice | EcoSpark/core/views.py:553-569 | a recommendation comes with a reasoning, and both are missing only for a marker written in another case |
| Marketplace.MarkedAdvice | EcoSpark/core/views.py:554-558 | with the marker, the recommendation is the trimmed first line after it and the reasoning everything after it, trimmed |
| Marketplace.MisCasedAdvice | EcoSpark/core/views.py:554-558 | a marker in another case leaves both fields empty |
| Marketplace.UnmarkedAdvice | EcoSpark/core/views.py:559-569 | without a marker, the label is the first of Sell, Donate and Repair found in the first 100 characters, otherwise Recycle, and the reasoning is the whole answer |
| Marketplace.FallbackLabels | EcoSpark/core/views.py:561-573 | of the fallback labels, exactly Donate and Repair need a location |
| Marketplace.UnmarkedNeedsLocation | EcoSpark/core/views.py:559-573 | without a marker, a location is needed exactly when the label is Donate or Repair |
| Marketplace.Classify | EcoSpark/core/views.py:585-598 | the device class is the first whose terms occur in the lowercased model name |
| Marketplace.SearchQuery | EcoSpark/core/views.py:585-597 | every query is a non-empty description of the device followed by "repair shop" |
| Marketplace.CollectedFirstAdmitted | EcoSpark/core/views.py:627-641 | a search loop appends the suggestions for the first admitted places, up to five in all |
| Marketplace.Collect | EcoSpark/core/views.py:627-641 | the filtering loop with its break computes `Collected` |
| Marketplace.CollectedBounds | EcoSpark/core/views.py:640-684 | starting below five, a loop keeps what it had and never ends above five |
| Marketplace.CollectedAdmitted | EcoSpark/core/views.py:632-682 | every added suggestion comes from a place the search admits |
| Marketplace.FindShops | EcoSpark/core/views.py:576-704 | the two searches and the placeholders, run with their loops, give `Suggestions` |
| Marketplace.SuggestionsCount | EcoSpark/core/views.py:640-704 | the page always lists between one and five suggestions |
| Marketplace.Suggestions | EcoSpark/core/views.py:576-704 | there is always a suggestion; without both coordinates, the key, or coordinates that convert, the page shows only placeholders or mock shops |
| Marketplace.NearbyOnlyWhenShort | EcoSpark/core/views.py:645-646 | when the text search keeps three or more, the nearby reply plays no part |
| Marketplace.AdvicePrompt | EcoSpark/core/views.py:545-550 | the prompt names the model, or "electronic device" when it is blank |
| Marketplace.ReuseMarketplace | EcoSpark/core/views.py:535-713 | a POST shows the parsed advice, and suggestions exactly when a location is needed; a GET shows an empty page |
| Valuation.Key | EcoSpark/core/views.py:744 | each metal's name is non-empty and lower-case |
| Valuation.GramsAfter | EcoSpark/core/views.py:744-762 | the grams pattern captures a non-empty run of digits and points |
| Valuation.PriceAfter | EcoSpark/core/views.py:747-765 | a price pattern captures a non-empty run of its digit class |
| Valuation.MatchAt | EcoSpark/core/views.py:744-765 | a match starts at the metal's name, in any case, and captures a non-empty group of the pattern's class |
| Valuation.FirstFrom | EcoSpark/core/views.py:744 | the search takes the first position where the pattern matches |
| Valuation.Search | EcoSpark/core/views.py:744-765 | `re.search` finds a group exactly when the pattern matches somewhere, and the group is that of a match |
| Valuation.CleanedNumeric | EcoSpark/core/views.py:749 | a captured group, commas removed, holds only digits and points |
| Valuation.NumericNonNegative | EcoSpark/core/views.py:746 | `float()` of digits and points is never negative |
| Valuation.ReadingNonNegative | EcoSpark/core/views.py:745-765 | no reading is negative when its default is not |
| Valuation.ReadingsOf | EcoSpark/core/views.py:739-765 | when every conversion succeeds, each metal's grams and price are its own readings, and none is negative |
| Valuation.ReadingsNonNegative | EcoSpark/core/views.py:739-765 | all six readings are non-negative |
| Valuation.ReadingsFail | EcoSpark/core/views.py:744-765 | the readings fail exactly when one conversion fails |
| Valuation.Depreciation | EcoSpark/core/views.py:770 | the factor is at least 0.3, and it is either 0.3 or 1 − age/20 |
| Valuation.DepreciationBounds | EcoSpark/core/views.py:770 | the factor is 1 when new, lies in [0.3, 1] for a non-negative age, is 0.3 from 14 years on and 1 − age/20 up to 14, and never grows with age; a negative age gives a factor above 1 |
| Valuation.BaseValue | EcoSpark/core/views.py:768 | non-negative grams and prices give a non-negative value |
| Valuation.Age | EcoSpark/core/views.py:725 | a blank age is 0; any other is its `float()` |
| Valuation.EstimateOf | EcoSpark/core/views.py:738-771 | there is an estimate exactly when every reading converts |
| Valuation.ValuedBounds | EcoSpark/core/views.py:768-771 | the value is non-negative, and for a non-negative age the payout lies between 30% and 100% of it |
| Valuation.EstimateBounds | EcoSpark/core/views.py:739-771 | every estimate has a non-negative value, and for a non-negative age a payout between 30% and 100% of it |
| Valuation.NegativeAge | EcoSpark/core/views.py:725 | the age field accepts a negative number: "-n" is an age of −n years |
| Valuation.NegativeAgeOverpays | EcoSpark/core/views.py:767-771 | for a negative age the factor is 1 − age/20, above 1, so a positive metal value pays out more than it is worth (an age of −2 gives 1.1) |
| Valuation.View | EcoSpark/core/views.py:721-783 | only a POST gives a result; a bad age or a failed conversion is a server error; a shown estimate has the trimmed model, the age, and the bounds |
| Valuation.GramsEntryMatch | EcoSpark/core/views.py:744 | an entry "<Metal>: <d> g", for any non-empty run d of digits and points and the name in any case, matches the grams pattern wherever it stands, with group d |
| Valuation.GramsEntryIsNoPrice | EcoSpark/core/views.py:747 | the same entry, wherever it stands, is not read as a price |
| Valuation.GramsEntry | EcoSpark/core/views.py:744-746 | an answer opening with such an entry reports the grams `float()` makes of d, and fails when `float()` does |
| Valuation.GramsEntryWhole | EcoSpark/core/views.py:744-746 | an entry with a whole number n reports n grams |
| Valuation.Readings | EcoSpark/core/views.py:739-765 | a price whose pattern finds nothing keeps its default: 7000 for gold, 0.9 for copper, 90 for silver |
| Valuation.NoPriceAfter | EcoSpark/core/views.py:747 | without the encoded sign after the separators, no price follows |
| Valuation.PricesNeedEncodedSign | EcoSpark/core/views.py:747-765 | without the encoded sign anywhere, every price keeps its default |
| Valuation.NoPriceWithoutSign | EcoSpark/core/views.py:747-765 | without the encoded sign, no price pattern matches at any position |
| Nearby.Coordinates | EcoSpark/core/views.py:116-126 | there is a centre exactly when both coordinates are given and both convert |
| Nearby.RadiusMetres | EcoSpark/core/views.py:133 | the radius in metres lies within [1000, 50000] |
| Nearby.RadiusKm | EcoSpark/core/views.py:128-131 | a blank radius is 10 km, and a radius `float()` reads is that number |
| Nearby.RadiusClamp | EcoSpark/core/views.py:128-133 | within 1 to 50 km the radius is the one asked for; outside it, the nearer end |
| Nearby.WithinEdges | EcoSpark/core/views.py:147-154 | incomplete bounds admit every point, and a complete box is closed on its corners |
| Nearby.Within | EcoSpark/core/views.py:147-154 | a point passes a complete box only when the box is not inverted on either axis |
| Nearby.CountryLabel | EcoSpark/core/views.py:173-176 | the label is empty exactly when the country code is |
| Nearby.TextQueryNames | EcoSpark/core/views.py:173-177 | the query starts with the place name; the codes in, us, gb, ca and au add ", India", ", USA", ", UK", ", Canada" and ", Australia"; any other non-empty code adds ", " and the code upper-cased |
| Nearby.Kept | EcoSpark/core/views.py:256-271 | a loop makes at most one centre per record |
| Nearby.Collect | EcoSpark/core/views.py:277-306 | the filtering loop computes `Kept` |
| Nearby.KeptFrom | EcoSpark/core/views.py:277-306 | every centre comes from an admitted record |
| Nearby.KeptEmpty | EcoSpark/core/views.py:309 | a loop finds nothing exactly when no record is admitted |
| Nearby.PlaceCentersInside | EcoSpark/core/views.py:276-306 | every Google centre lies within the bounds and, when US results are excluded, is not west of 30°W and has no US-looking address |
| Nearby.AfterCentre | EcoSpark/core/views.py:207-360 | once the centre is known, the Google branch gives a centre list or a provider failure |
| Nearby.Google | EcoSpark/core/views.py:162-362 | the Google branch answers 200, 400 or 502 |
| Nearby.YelpFrom | EcoSpark/core/views.py:378-389 | every Yelp centre comes from a business with both coordinates set and non-zero |
| Nearby.YelpSearch | EcoSpark/core/views.py:364-392 | the Yelp branch answers 200 or 502 |
| Nearby.CentersNearby | EcoSpark/core/views.py:156-396 | a Google key selects Google; otherwise a Yelp key selects Yelp; the answer is 412 exactly when neither key is set |
| Nearby.Respond | EcoSpark/core/views.py:101-396 | the endpoint, with its loops, computes `CentersNearby` |
| Nearby.GoogleFirst | EcoSpark/core/views.py:162-362 | with a Google key the Yelp reply plays no part |
| Nearby.NoProvider | EcoSpark/core/views.py:394-396 | without any key the answer is 412 |
| Nearby.TextOnlyWhenNeeded | EcoSpark/core/views.py:308-309 | when the nearby search admits a place, the text-search reply plays no part |
| Nearby.FallbackIgnoresCountry | EcoSpark/core/views.py:222-272 | after a failed nearby search the country filter does not apply |
| Nearby.UnresolvedNeedsName | EcoSpark/core/views.py:172-205 | an unresolved answer needs a place name, no usable coordinates and a failed geocode, and it reports the text query |
| Challenges.ChallengeKey | EcoSpark/core/views.py:928 | a page id is "ch" followed by at least one character |
| Challenges.ChallengeKeyRoundTrip | EcoSpark/core/views.py:953 | a page id parses back to its challenge |
| Challenges.KeyAliases | EcoSpark/core/views.py:953 | "7" and "ch07" name challenge 7 as well |
| Challenges.ParseChallengeKey | EcoSpark/core/views.py:953 | a key parses only when it holds nothing but digits and the letters c and h |
| Challenges.TotalCo2 | EcoSpark/core/views.py:968 | with non-negative savings the total is non-negative; with nothing completed, it is zero |
| Challenges.TotalCo2Agree | EcoSpark/core/views.py:968 | only the listed challenges' membership matters to the total |
| Challenges.TotalCo2OnlyListed | EcoSpark/core/views.py:968 | completed ids that no active challenge carries add nothing |
| Challenges.TotalCo2Monotone | EcoSpark/core/views.py:968 | completing more never lowers the total |
| Challenges.Progress | EcoSpark/core/views.py:971 | progress is the floor of count × 100 / total, and 0 without challenges |
| Challenges.ProgressBounds | EcoSpark/core/views.py:969-971 | progress is at most 100 while count ≤ total, exactly 100 at equality, and above 100 past it |
| Challenges.BadgeFor | EcoSpark/core/views.py:973-984 | no badge for 0, Eco Starter for 1–2, Green Influencer for 3–4, Eco Hero from 5 |
| Challenges.BadgeMonotone | EcoSpark/core/views.py:973-984 | more completions never earn a lesser badge |
| Challenges.Submitted | EcoSpark/core/views.py:947-963 | a submission leaves the completed set unchanged exactly when the stripped id is empty or already in it; otherwise it adds that id |
| Challenges.SubmittedIdempotent | EcoSpark/core/views.py:947-963 | submitting the same id again changes nothing |
| Challenges.Session.constructor | EcoSpark/core/views.py:944 | the session holds the given list of completed ids |
| Challenges.MemberVisit | EcoSpark/core/views.py:937-966 | a GET shows the member's completions and stores nothing; a server error stores nothing; a visit only adds rows in front of the old ones |
| Challenges.AnonymousVisit | EcoSpark/core/views.py:944-966 | the page shows as completed exactly the ids of the new session list, which is the old list with at most one id appended, and unchanged on a GET |
| Challenges.MemberSees | EcoSpark/core/views.py:937-971 | a member sees the submitted id as completed, parsed or not; only an id naming an unknown challenge is a server error; rows are only added |
| Challenges.MemberKeyPersisted | EcoSpark/core/views.py:947-963 | after a member submits the page id of an existing challenge, the stored completions show what the page showed |
| Challenges.NotDoneNoCompletion | EcoSpark/core/views.py:939-941 | a challenge missing from the completed set has no completion |
| Challenges.AnonymousSees | EcoSpark/core/views.py:944-963 | for a visitor, the session list afterwards holds exactly the ids shown as completed, and it changes only by appending the submitted id |
| Challenges.GreenChallenges | EcoSpark/core/views.py:917-993 | the page and the new state are those of `MemberVisit` or `AnonymousVisit`, and the other store goes unchanged |
| Challenges.MergeGrowth | EcoSpark/core/views.py:1039-1046 | the merge only adds rows, `migrated` counts exactly the rows added, and every row names a known challenge |
| Challenges.MergeFrom | EcoSpark/core/views.py:1034-1050 | the count of migrated rows never drops below its start |
| Challenges.MergeUnparsable | EcoSpark/core/views.py:1039-1044 | a session list none of whose ids parses changes nothing and does not fail |
| Challenges.MergeFails | EcoSpark/core/views.py:1035-1054 | the merge fails exactly when a session id names an unknown challenge |
| Challenges.MergeRecords | EcoSpark/core/views.py:1039-1046 | a merge that does not fail records every challenge the session's ids name |
| Challenges.MergeSession | EcoSpark/core/views.py:1034-1054 | the merge loop computes `MergeFrom`, and it clears a non-empty session list unless the merge failed |
| Credits.FindDevice | EcoSpark/core/views.py:65 | the first device whose model matches regardless of case, and none exactly when none matches |
| Credits.PointsFor | EcoSpark/core/views.py:69 | the points are ten per gram, rounded, and non-negative for a non-negative metal value |
| Credits.CreditsEffect | EcoSpark/core/views.py:57-98 | a found device gives an award; a member's balance grows by the points and only theirs moves; a visitor sees no balance and nothing is stored |
| Credits.CreditsTwice | EcoSpark/core/views.py:73-76 | submitting the same model twice adds its points twice |
| Credits.CreditsOutcome | EcoSpark/core/views.py:50-98 | a member gets a credit row, no other balance moves, and there is a result exactly when a device was found for a POST |
| Credits.NoAward | EcoSpark/core/views.py:60-67 | with no POST, no model or no device found, there is no award, and a member sees their balance |
| Credits.CreditsView | EcoSpark/core/views.py:57-98 | the page and the credit table become those of `CreditsOutcome` |
| Collectors.ListingIsOneFilter | EcoSpark/core/views.py:883-890 | the two filters in a row keep, in order, exactly the collectors passing both tests |
| Collectors.ListingMembers | EcoSpark/core/views.py:883-890 | a collector is listed exactly when its city matches regardless of case (or no city is chosen) and, with "verified only", it is verified |
| Collectors.Listing | EcoSpark/core/views.py:883-890 | the listing is never longer than the directory, holds only verified collectors under "verified only", and is the whole directory with no filter |
| Collectors.NominationRules | EcoSpark/core/views.py:893-900 | the phone number plays no part in a nomination, and a name or a city made only of whitespace is refused |
| Collectors.UniqueCities | EcoSpark/core/views.py:903 | the offered cities are ascending, distinct, and exactly the directory's cities |
| Collectors.OfferedCitySelects | EcoSpark/core/views.py:883-903 | choosing an offered city lists each collector of that city |
| AiClient.PromptEmbeds | EcoSpark/core/utils/ai.py:14-17 | the prompt is the fixed template around the topic |
| AiClient.ApiKey | EcoSpark/core/utils/ai.py:19 | the key is the first non-empty one of the two variables |
| AiClient.Candidates | EcoSpark/core/utils/ai.py:41-53 | the candidates are the names of the listed models that generate text; a failed listing gives none |
| AiClient.NamesOf | EcoSpark/core/utils/ai.py:48-53 | a name is kept exactly when its model supports text generation |
| AiClient.RankFrom | EcoSpark/core/utils/ai.py:64-70 | the rank is the first preferred entry, from the given position on, that the name exactly or as a "/" suffix stands for, and past the list when there is none |
| AiClient.AppendAccepted | EcoSpark/core/utils/ai.py:66-75 | one pass appends that pass's candidates once each, in discovery order |
| AiClient.TryOrder | EcoSpark/core/utils/ai.py:64-75 | each distinct candidate is tried once: the preferred ones first, in preferred order, then the rest, each group in discovery order |
| AiClient.IsTryOrder | EcoSpark/core/utils/ai.py:64-75 | a try order holds each candidate exactly once and nothing else |
| AiClient.TryOrderUnique | EcoSpark/core/utils/ai.py:64-75 | a list of candidates has only one try order |
| AiClient.TryOrderSorted | EcoSpark/core/utils/ai.py:64-75 | a try order is sorted by preferred rank, ties in discovery order |
| AiClient.Answer | EcoSpark/core/utils/ai.py:77-88 | the answer is the trimmed reply of the first model that answers |
| AiClient.Tried | EcoSpark/core/utils/ai.py:77-88 | the models called are those up to and including the first that answers |
| AiClient.TriedBeforeLastSilent | EcoSpark/core/utils/ai.py:77-88 | every model called before the last gave no answer |
| AiClient.TriedLastAnswers | EcoSpark/core/utils/ai.py:82-86 | an answer is the trimmed reply of the last model called |
| AiClient.TriedAllWhenSilent | EcoSpark/core/utils/ai.py:77-88 | without an answer every model was called |
| AiClient.TryModels | EcoSpark/core/utils/ai.py:77-88 | the try loop computes `Answer` and `Tried` |
| AiClient.TryStep | EcoSpark/core/utils/ai.py:77-88 | calling one model either ends the search with its trimmed reply or leaves the rest of the list to decide |
| AiClient.AskFirst | EcoSpark/core/utils/ai.py:27-38 | a model asked first wins if it answers; otherwise the rest decide |
| AiClient.FallbackNotEmpty | EcoSpark/core/utils/ai.py:93-98 | the static fallback is not empty |
| AiClient.AskModels | EcoSpark/core/utils/ai.py:27-88 | the configured model first, then the candidates in try order, until one answers |
| AiClient.Explain | EcoSpark/core/utils/ai.py:8-98 | the text is never empty; without a key or SDK it is the fallback and nothing is called; otherwise it is the first answer, or the fallback |
| AiClient.ExplicitFirst | EcoSpark/core/utils/ai.py:27-31 | a configured model is the first one called |
| MdPdf.ParagraphsAreTrimmedChunks | EcoSpark/scripts/generate_pdf.py:25 | each paragraph is non-empty, trimmed, and holds no blank line |
| MdPdf.Paragraphs | EcoSpark/scripts/generate_pdf.py:25 | there are no more paragraphs than chunks, and each is non-empty and neither starts nor ends with whitespace |
| MdPdf.SingleParagraph | EcoSpark/scripts/generate_pdf.py:25 | a text with no blank line and some content is one paragraph |
| MdPdf.ParagraphsOfJoin | EcoSpark/scripts/generate_pdf.py:25 | paragraphs keep the order of the chunks they come from |
| MdPdf.HeadingNotTitle | EcoSpark/scripts/generate_pdf.py:39-43 | a paragraph starting "## " is a heading, not a title |
| MdPdf.DeeperHeadingIsBody | EcoSpark/scripts/generate_pdf.py:39-48 | a paragraph starting "###" is body text |
| MdPdf.BuildStory | EcoSpark/scripts/generate_pdf.py:36-50 | each paragraph gives its styled paragraph and then its spacer, in order |
| MdPdf.MdToStory | EcoSpark/scripts/generate_pdf.py:22-50 | two flowables per paragraph: the paragraph styled by its kind (title, heading or body) and the spacer of that kind, in order; each body paragraph unescapes back to its source |
| MdPdf.EscapeIsChunked | EcoSpark/scripts/generate_pdf.py:47-48 | the chain of replacements escapes the text one character at a time |
| MdPdf.Escape | EcoSpark/scripts/generate_pdf.py:47-48 | a paragraph without `&`, `<`, `>` or a newline is left as it is |
| MdPdf.EscapeNothing | EcoSpark/scripts/generate_pdf.py:47-48 | the four replacements leave such a paragraph unchanged |
| MdPdf.UnescapeEscape | EcoSpark/scripts/generate_pdf.py:47-48 | undoing the replacements in reverse order gives back the paragraph |
| MdPdf.EscapedMarkupFree | EcoSpark/scripts/generate_pdf.py:47-48 | the only markup in escaped text is the inserted `<br/>` |
| MdPdf.EscapedBodyIsClean | EcoSpark/scripts/generate_pdf.py:47-49 | escaped body text has no newline, and each `<` or `>` belongs to a `<br/>` |

## Left out

- Floating point is modelled as exact reals, so rounding errors of IEEE doubles are not captured. This affects the CO2 sum, the progress ratio and the estimator's arithmetic.
- `round(…, 1)` on the CO2 total and `round(…, 2)` on the estimator's values are not modelled. The page values are unrounded.
- `float()` is modelled on plain decimal numerals with an optional sign and surrounding whitespace. Exponents, "inf", "nan" and underscores are read as failures.
- Numbers.PyFloat: its own contract states only that a parsed value comes from non-blank text. What it computes is stated by `Numbers.PyFloatOfNat`.
- Case mapping is ASCII only. Unicode case folding and normalisation are not modelled.
- Digits are the ASCII digits 0 to 9 only: in the estimator's patterns (`\d`), in `float()` and in `int()`. Python also accepts other Unicode decimal digits there. So "Gold: ３ g" (a fullwidth three) reports 3 grams in the source but keeps 0 grams in the model, and "ch٣" names challenge 3 in the source but nothing in the model.
- Rendering (templates, `render`, `JsonResponse` bodies, error payload details) is not modelled. The view results are records of what the page or JSON answer carries.
- Centre answers carry no extra Google fields (types, rating, count, phone, website).
- The messages framework (`messages.success/info/warning/error`) is left out. It is output only.
- Logging and the `__str__` methods are left out, except that of `UserCredit`.
- HTTP requests to Google, Yelp and Gemini are parameters: a reply record, or a raised call. Request payloads, headers and timeouts are not modelled.
- The text generator is a function from prompt to reply. Reading `resp.text` or the first candidate's text is folded into that reply.
- AiClient.Explain: `sdkReady` stands for importing and configuring the SDK. A failure there yields the fallback.
- Parsing `questions_json` is a parameter: `None` when it does not decode, otherwise a list of questions. A value that decodes but is not a list (an object, a number, `null`, a non-empty string), and posted list items that are not objects, make the source's scoring loop raise a server error; the model has no such case.
- The nearby endpoint does not handle the antimeridian. The model keeps the same plain box test.
- A non-numeric coordinate inside a place reply, which would raise in the view, is not modelled.
- Challenges.ParseChallengeKey: accepts only digits (after removing "ch"), where Python's `int()` also accepts surrounding whitespace (" 5"), a sign ("+5", "-1") and underscores ("1_0"). So "ch 5" records challenge 5 in the source but nothing in the model. "ch-1" is a server error in the source (challenge -1 does not exist) but an ignored id in the model. At login, the source merges " 5" and "+5" and stops at "-1", which the model skips.
- Nominee phone numbers are read but never checked in the source, so the model does not check them either.
- The collectors page's AI insight is one call of `get_ai_explanation`. That call is modelled in `AiClient` and not repeated on this page.
- `UserCredit` rows are one per user, so the model has no case for `MultipleObjectsReturned`.
- Python set iteration order is not modelled. After an anonymous submission the session list is the old list with the new id appended, whereas the source rebuilds the list from a set.
- JSON `null` and an absent field are treated alike in place and business records.
- Field-level form cleaning is left out: Django's required/email/max-length checks, and the model form's own unique-username check. The hash `set_password` stores is a parameter.
- The profile view that drives `ProfileForm`, and the register and login views around the forms and the merge, are not modelled beyond what the table lists.
- Pickup scheduling, the education pages, eco tips and the hazard visualiser are not part of this model.
- File I/O in `md_to_pdf` (the existence check, reading the file, `sys.exit`) and ReportLab's layout are left out. The model ends at the story list.
