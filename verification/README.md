# Smart recipe analyzer — a verified model of its core

The smart recipe analyzer is a Streamlit app. It takes a comma-separated
list of ingredients, a list of dietary restrictions and a few preference
selections, and asks a remote chat model for recipe suggestions in JSON.
It lets the user rate the suggested recipes and keeps a per-session
history of the rated ones. This project models the logic of
`recipe_generator5.py` that sits under the user interface and proves
properties of it. The model has six modules:

- `Common` (common.dfy) holds the `Option` type and a `Json` value type
  for what `json.loads` produces.
- `Text` (text.dfy) holds the Python string operations the core relies
  on. It covers `str.strip` with Python's whitespace set, `str.split` on
  one character and `sep.join`. It proves that split and join are inverse.
- `Ingredients` (ingredients.dfy) models `validate_ingredients`. Its
  answer is characterised without the list comprehension: an input is
  accepted exactly when two comma-separated pieces are not blank.
- `Prompt` (prompt.dfy) models the per-request prompt of
  `generate_recipes` and the `context_parts` assembly in `main`. The
  second is a method that appends step by step, as the source does. The
  fixed pieces of the prompt's text are one `Template` value. The layout
  lemmas hold for any template. `RenderEnds`, `DietarySlot` and
  `ListsRestrictions` also have a version for the app's own
  `PromptTemplate`; `JoinedRestrictions` and `JoinedPartsInText` are the
  steps of `ListsRestrictions` and have none.
- `Generation` (generation.dfy) models the retry loop of
  `generate_recipes` as a method with loop invariants.
  - The remote chat is an oracle `reply(k)` that gives the outcome of
    the k-th send. `json.loads` is an abstract `decode` function.
  - The delays passed to `time.sleep` are returned as a trace.
  - The method is proved against `RetryOutcome`, a specification of how a
    call ends. Lemmas about that specification state which payload is
    returned, how many sends are made and which delays are slept.
- `Ratings` (ratings.dfy) models the session's rating map and rated-recipe
  history as the class `RatingSession`, with methods that update its
  fields in place. It also holds the pure functions behind the history
  upsert and the five-most-recent view.

Three facts about the code shape the model:

- The prompt embeds the ingredient text exactly as entered, not its
  stripped form.
- The dietary restrictions are a list, so their order and any repeats
  are kept in the prompt.
- The history upsert (`recipe_generator5.py:343-354`) uses the value
  that `display_star_rating` returns. That value is the stored rating
  read at lines 198-200, or the default passed in, which is
  `get_recipe_rating(recipe_id)` (line 238). A click on a star stores a
  new rating and calls `st.rerun()` (lines 209-215), which ends the run
  before line 343. So whenever the upsert runs, the rating it stores is
  the one `get_recipe_rating` returns at that moment.
  `RecordInHistory` therefore reads the rating with `GetRecipeRating`.

## Model

| member | source | states |
|---|---|---|
| Text.Strip | recipe_generator5.py:185 | the stripped text is the piece of the input that starts at its first non-whitespace character, with only whitespace before and after it in the input; it neither starts nor ends with whitespace; it is empty exactly when the input is all whitespace |
| Text.StripIsUnique | recipe_generator5.py:185 | any piece of the input with only whitespace around it, and that neither starts nor ends with whitespace, is the stripped text: `str.strip` has exactly one answer |
| Text.Split | recipe_generator5.py:188 | `str.split` on one character gives at least one piece; no piece contains the separator; joining the pieces with the separator gives back the input |
| Text.SplitJoin | recipe_generator5.py:188 | splitting a join of separator-free pieces gives back exactly those pieces |
| Text.JoinAt | recipe_generator5.py:134 | in `sep.join(parts)` every part sits at its offset; the separator follows every part but the last, and the next part starts right after it; the last part ends the text |
| Ingredients.KeptPieces | recipe_generator5.py:188 | the comprehension `[ing.strip() for ing in pieces if ing.strip()]` keeps every non-blank piece and no other, each once, stripped, in the order of the pieces |
| Ingredients.IngredientsOfText | recipe_generator5.py:188 | the counted ingredients of a text are its stripped non-blank comma-separated pieces, each once, in the order written |
| Ingredients.IngredientList | recipe_generator5.py:188 | every counted ingredient is non-empty and contains no comma |
| Ingredients.ValidateIngredients | recipe_generator5.py:183-192 | the flag is true exactly when the message is empty; a rejection carries one of the two user messages |
| Ingredients.ValidateIngredientsMeaning | recipe_generator5.py:183-192 | blank input gets "Please enter some ingredients"; input with two non-blank comma-separated pieces gets `(True, "")`; anything else gets the "at least 2 ingredients" message |
| Prompt.DietaryBlock | recipe_generator5.py:130-136 | with no restriction the block is empty; with restrictions it is at least as long as its lead; with a non-empty lead it is empty exactly when no restriction is selected |
| Prompt.DietaryPrompt | recipe_generator5.py:130-136 | the app's dietary block is empty exactly when no restriction is selected |
| Prompt.RenderEnds | recipe_generator5.py:138-145 | a prompt opens with the lead followed by the ingredient text as entered; it ends with the additional context followed by the closing instruction |
| Prompt.FormattedPrompt | recipe_generator5.py:138-145 | the app's prompt opens with "Generate 2-3 recipe suggestions using these ingredients: " and the ingredient text as entered; it ends with the additional context and the closing JSON instruction |
| Prompt.DietarySlot | recipe_generator5.py:138-145 | the dietary block sits right after the ingredient line and a blank line, followed by the requirements heading |
| Prompt.PromptDietarySlot | recipe_generator5.py:130-145 | in the app's prompt the dietary block sits right after the ingredient line, followed by "Additional requirements"; it is empty exactly when no restriction is selected |
| Prompt.JoinedRestrictions | recipe_generator5.py:130-134 | with restrictions selected, their joined list appears in the prompt right after the dietary lead |
| Prompt.ListsRestrictions | recipe_generator5.py:130-145 | every selected restriction appears verbatim in a prompt, in the given order; each is followed by the separator and then the next restriction, except the last |
| Prompt.PromptListsRestrictions | recipe_generator5.py:130-145 | the same for the app's prompt: each restriction appears after the "CRITICAL DIETARY REQUIREMENTS" lead, in order, followed by ", " except the last |
| Prompt.JoinedPartsInText | recipe_generator5.py:134 | wherever a joined list is embedded in a text, each part sits at its offset, followed by the separator unless it is the last |
| Prompt.AdditionalContext | recipe_generator5.py:606-616 | one line per preference other than "Any", in the order cuisine, difficulty, cooking time; then the notes line when the notes are not blank; the lines joined by newlines; the context is empty exactly when nothing was chosen and the notes are blank |
| Generation.GenerateRecipes | recipe_generator5.py:123-168 | blank ingredients return `(None, "", "")` with no send and no sleep; otherwise the call ends as `RetryOutcome` says for the formatted prompt |
| Generation.SendWithRetries | recipe_generator5.py:147-168 | the call ends as `RetryOutcome` says: 1 to 3 sends of the same prompt; it stops early only on a decodable response; it sleeps the back-off of failed sends; the last attempt decides between raising and returning; the fall-through return is never reached |
| Generation.RetryOutcomeIsUnique | recipe_generator5.py:147-168 | the replies determine the outcome: two runs that both satisfy `RetryOutcome` agree on the result, the sends and the delays |
| Generation.NoBackoffWithoutTransportErrors | recipe_generator5.py:157-166 | no delay is slept while every earlier send returned text |
| Generation.FirstDecodableResponseWins | recipe_generator5.py:149-156 | when attempt k is the first whose response decodes, exactly k+1 sends are made and `(parsed, that raw text, prompt)` is returned |
| Generation.UndecodableResponsesExhaustRetries | recipe_generator5.py:157-168 | when no response decodes and none fails in transport, all 3 sends are made with no sleep, and `(None, last raw text, prompt)` is returned |
| Generation.TransportFailureIsRetried | recipe_generator5.py:163-166 | a transport failure on attempt k < 2 is retried, and `2 ** k` is among the delays; a transport failure on the last send made happens only on attempt index 2 and propagates |
| Generation.BackoffDelays | recipe_generator5.py:163-166 | a call sleeps at most twice; every delay is 1 or 2 seconds, and they increase |
| Generation.TwoTransportFailuresThenSuccess | recipe_generator5.py:149-166 | two transport failures and then a decodable response: sleeps of 1 then 2 seconds; the third response's payload is returned |
| Ratings.FindEntry | recipe_generator5.py:350 | the search finds the first history entry with the recipe id, or reports that there is none |
| Ratings.Merge | recipe_generator5.py:351-352 | `dict.update`: the new fields overwrite the old; fields only the old entry has are kept; rating and time become the new ones |
| Ratings.Upsert | recipe_generator5.py:343-354 | the history grows by one exactly when the id was absent, and then it is the old history followed by exactly the new record; otherwise the found entry becomes its `dict.update` merge with the new record, keeping the fields only the old entry had; entries with other ids are unchanged; the entry for the id carries the new rating, time and fields; ids that were unique stay unique |
| Ratings.RerateKeepsOneEntry | recipe_generator5.py:343-354 | rating the same recipe twice leaves one entry for it, holding the second rating, and does not grow the history a second time |
| Ratings.BucketsCoverRatings | recipe_generator5.py:370 | when every rating is 1..5, the five per-star counts add up to the number of rated recipes |
| Ratings.InsertByRecency | recipe_generator5.py:380 | inserting into a newest-first list keeps it newest-first and adds exactly that entry |
| Ratings.SortByRecency | recipe_generator5.py:380 | the sorted history is newest-first and a permutation of the history |
| Ratings.RecentHistory | recipe_generator5.py:380 | the view shows min(5, size) entries of the history, newest first; no entry left out is more recent than one shown |
| Ratings.RatingSession.constructor | recipe_generator5.py:176-181 | a new session has no ratings and no history |
| Ratings.RatingSession.GetRecipeRating | recipe_generator5.py:225-229 | the stored rating, which is between 1 and 5, for a rated recipe; 0 for any other |
| Ratings.RatingSession.RateRecipe | recipe_generator5.py:205-214 | star button i stores rating i+1 with the click time, replacing any earlier rating (last write wins); the history is untouched; all ratings stay in 1..5 |
| Ratings.RatingSession.RecordInHistory | recipe_generator5.py:338-354 | a rated recipe is upserted into the history with its current rating; an unrated one leaves the history as it was; the ratings are untouched; history ids stay unique |
| Ratings.RatingSession.ClearRatings | recipe_generator5.py:529-534 | both the ratings and the history become empty, and every recipe then reads as unrated (0) |
| Ratings.RatingSession.RatingStatistics | recipe_generator5.py:358-373 | nothing is shown exactly when no recipe is rated; otherwise the count is the number of rated recipes; the count for star s is the number of recipes rated s; the total is the sum of the ratings; the five counts add up to the count |

## Left out

- The Streamlit user interface is not modelled. This covers page layout, cards, buttons, CSS/HTML, the warnings and errors shown, the export text and `st.rerun`. It is presentation; `st.rerun` appears only as the ordering described above.
- The chat client is not modelled. This covers `genai.Client`, `chats.create`, `_initialize_chat`, `reset_chat` and the system prompt text. They are foreign network calls, reduced to the `reply` oracle.
- JSON parsing is not modelled; `json.loads` is the abstract `decode`, and `None` stands for `JSONDecodeError`. `json.loads` can raise other exceptions: `TypeError` for a `None` response text, `ValueError` for an integer literal over 4300 digits, and `RecursionError` for deeply nested input. The outer `except Exception` handler (line 163) catches these like a failed send, so the oracle's `TransportError` reply covers them.
- `time.sleep`, `time.time()` and `hash()` recipe ids, and `datetime.now()` timestamps are not modelled. Delays are returned as a trace and ids are opaque strings. A `rated_at` timestamp is treated as an abstract ordered key, a natural number; the model does not claim that this order is the order of real moments (`datetime.now()` is naive local time, which can run backwards at a daylight-saving change).
- Ratings.RatingSession.RatingStatistics: the floating-point average and its one-decimal formatting are not modelled. The statistics return the integer total and count it is computed from.
- `load_dotenv` and the API key check are not modelled; they are configuration I/O.
- Ratings.RatingSession.constructor: `initialize_session_state` only creates the two fields when they are missing. The model starts a new session; the case of a session that already has them is a no-op.
- Ratings.SortByRecency: Python's `sorted` with `reverse=True` is stable. The model proves the order and the permutation, but not which of two entries rated at the same moment comes first.
- Ratings.Merge: a history entry keeps the recipe's own fields apart from its rating, id and time. The source stores all of them in one dictionary. So a recipe field literally named `rating`, `recipe_id` or `rated_at` is not overwritten in the model.
- The ingredient chips in `main` use the same list as `IngredientList`; their display is not modelled.
- The rating and history operations are modelled as operations on the session state, not as reachable from the page flow. In the app, recipe cards are drawn only on the run where the generate button was pressed (line 597), with ids built from `time.time()` (line 648). On the run that follows a star click and `st.rerun()`, no card is drawn, so neither `display_star_rating` nor the history upsert runs for that recipe.
