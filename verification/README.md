# Book-character chatbot: emotion state, emotion step, mention context and text handling

A Dafny model of the logic behind a Streamlit chatbot in which the user talks
with characters extracted from a book. Every character carries an emotional
state of eleven reals (Dörner's Psi-theory parameters). Each message runs an
emotion step: a language model is asked for new values, and when its answer
cannot be used the state drifts randomly instead. Questions about third
parties ("tell me about Bob") pull earlier mentions of that name out of the
stored conversations into a history block for the answering chain. Uploaded
PDFs or pasted text are cleaned, chunked, indexed and scanned for character
names.

The model covers both generations of the code:

- the `app/` package: `character_state.py`, `character.py`, `chat.py` and
  `pdf_processor.py`;
- the older root copies of the same four files;
- the self-contained `test.py` script, which keeps history and a long-term
  memory in the session.

Everything the program asks of the outside world during a call becomes a
parameter. That covers the language models' text, what `json.loads`/`eval`
make of it, the `random.uniform` draws, the database's answers, the text
splitter and the answering chain. The database writes of a chat turn are
returned as an ordered list of events.

Modules, one per concern (`wrappers.dfy` and `seqs.dfy` hold `Option`,
`Result` and the subsequence relation):

| file | module | models |
|---|---|---|
| `text.dfy` | `Text` | the `str` operations the code relies on: `isspace`, `strip`, `lower`, `in`, `removeprefix`/`removesuffix`, `split(',')` |
| `emotions.dfy` | `Emotions` | `CharacterState`, its defaults, `update_emotions`, and the clamped display rows (flat and grouped) |
| `store.dfy` | `StateStore` | the upsert-style state store the managers rely on |
| `character.dfy` | `CharacterManager` | load-or-create, fence cleaning (both versions), the success/fallback emotion step |
| `mentions.dfy` | `Mentions` | trigger phrases, name normalisation, the mention filter, the history block |
| `chat.dfy` | `Chat` | `process_user_input` of `app/chat.py` and of `chat.py` |
| `pdf.dfy` | `PdfProcessor` | `_clean_text`, `get_pdf_text`, the empty guards, word counting, prompt choice, list parsing |
| `session.dfy` | `Session` | `test.py`: the memory-carrying state, its emotion step, `user_input`, `extract_characters` |

## Model

| member | source | states |
|---|---|---|
| Text.Split | pdf_processor.py:39 | `split(',')` gives one more part than there are commas; no part contains a comma; joining the parts with commas gives back the text |
| Text.BlankIffAllSpace | app/pdf_processor.py:104 | `text.strip()` is empty exactly when every character is whitespace |
| Text.StripIdempotent | app/character.py:123-124 | stripping an already stripped text changes nothing |
| Text.StripKeepsAbsent | app/pdf_processor.py:199 | stripping never introduces a character, so a comma-free segment stays comma-free |
| Text.ContainsIffOccurs | app/chat.py:125-126 | the `in` substring test holds exactly when the needle occurs at some offset |
| Emotions.Default | app/character_state.py:23-26 | a fresh state has 0.0 for sadness, anger, joy and fear and 0.5 for the other seven fields, all in [0, 1] |
| Emotions.Update | app/character_state.py:70-84 | a field whose key is present takes exactly the given value, unclamped; a field whose key is absent keeps its value |
| Emotions.UpdateEmpty | app/character_state.py:70-84 | updating with the empty dictionary is the identity |
| Emotions.UpdateIdempotent | app/character_state.py:70-84 | applying the same dictionary twice equals applying it once |
| Emotions.UpdateCompose | app/character_state.py:70-84 | an update with m1 then with m2 equals one update with m1 overridden by m2 |
| Emotions.UpdateIgnoresUnknownKey | character_state.py:18-29 | a key naming none of the eleven fields has no effect |
| Emotions.UpdateJoyExample | character_state.py:18-29 | `{joy: 0.9}` on joy 0.2, fear 0.4 gives joy 0.9 and leaves fear 0.4 |
| Emotions.UpdateDoesNotClamp | app/character_state.py:70-84 | an out-of-range value such as anger 1.5 is stored as given, leaving the state out of range |
| Emotions.Clamp | app/character_state.py:119 | the shown value is in [0, 1]; it equals the stored value when that is in range, 0 below, 1 above |
| Emotions.FlatDisplay | character_state.py:33-48 | eleven rows with the labels Arousal … Securing Rate in fixed order, every value in [0, 1] |
| Emotions.GroupedDisplay | app/character_state.py:94-122 | three groups, Core Dimensions (3), Basic Emotions (4) and Cognitive Traits (4), in the fixed label order, every value in [0, 1] |
| Emotions.GroupedDisplayFlattens | app/character_state.py:94-112 | reading the three groups in order gives exactly the flat display of character_state.py |
| Emotions.DisplayClampsStoredValue | character_state.py:48 | row i shows field i's label; the value below 0 shows as 0, above 1 as 1, otherwise unchanged |
| StateStore.Load | database.py:131-149 | a load finds a state exactly when a record exists for that identity, and then also its id |
| StateStore.Save | database.py:95-125 | after an upsert a load returns the saved state with the returned id; other identities are untouched; an existing record keeps its id |
| StateStore.SaveAll | app/character.py:139 | after a series of saves, the last saved state is what a load returns |
| StateStore.SaveIdempotent | database.py:104-116 | upserting the same state twice is the same as once |
| StateStore.SaveLoadedIsNoOp | database.py:104-116 | saving back an unchanged, just-loaded state leaves the store as it was |
| CharacterManager.GetCharacterState | app/character.py:34-41 | a stored state is returned with its id and nothing saved; otherwise the default state is returned, saved first, with the id the save gave |
| CharacterManager.GetCharacterStateAgainstStore | character.py:14-18 | against a store: afterwards the store holds the returned state under the returned id, nothing else changed, and a second call returns the same state without saving |
| CharacterManager.CleanResponse | app/character.py:123-124 | the cleaned text has nothing left to strip; text without fences is only stripped |
| CharacterManager.CleanResponseFenceExample | app/character.py:123-124 | the fenced answer "```json\n{"valence":0.8}\n```" cleans to `{"valence":0.8}` |
| CharacterManager.CleanResponseUnfences | app/character.py:123-124 | any answer that is a ```json fence around a body, with only whitespace outside the fence, cleans to the body stripped |
| CharacterManager.SlicedUnfences | character.py:67-73 | the slice cleaning of a ```json fence around a body returns that body exactly, inner whitespace included |
| CharacterManager.CleanResponseSliced | character.py:67-73 | stripping the slice-cleaned text gives exactly the text app/character.py parses, so the two cleanings differ only by surrounding whitespace |
| CharacterManager.Perturb | app/character.py:137-138 | every drifted field becomes its old value plus its draw, clamped to [0, 1]; every other field is unchanged |
| CharacterManager.PerturbStaysClose | test.py:118-128 | a field that starts in [0, 1] with a draw in [-0.1, 0.1] moves by at most 0.1 |
| CharacterManager.DriftMovesArousalAndValence | character.py:80-83 | the drift touches only arousal and valence; both end in [0, 1] and move by at most 0.1 if they started in range |
| CharacterManager.SimulateEmotions | app/character.py:126-141 | the returned state is the one saved, on both paths; the success path is taken exactly when the cleaned text is non-empty and parses to a dictionary, and then the state is that update; otherwise it is the drift |
| CharacterManager.StepOn | app/character.py:126-139 | a usable text that parses to an object updates the state from it; anything else, and any unusable text, takes the drift of arousal and valence; the result is the one state saved |
| CharacterManager.FallbackDriftsArousalAndValence | app/character.py:134-139 | on the fallback path nine fields are unchanged and arousal and valence end in [0, 1], within 0.1 of where they started in range |
| CharacterManager.BlankAnswerFallsBack | app/character.py:126-132 | a blank answer takes the fallback path |
| CharacterManager.FenceOnlyAnswerFallsBack | app/character.py:123-132 | an answer that is only a ```json fence around whitespace takes the fallback path |
| CharacterManager.EmptyObjectKeepsState | app/character.py:126-130 | an answer parsing to `{}` is a success and leaves the state unchanged |
| CharacterManager.NonObjectFallsBack | app/character.py:129-134 | a parse result that is not a dictionary takes the fallback path |
| CharacterManager.ValenceUpdateExample | app/character.py:129 | `{valence: 0.8}` sets valence to 0.8 and leaves the other ten fields |
| CharacterManager.ParsedValenceExample | app/character.py:126-130 | an answer whose cleaned text parses to `{valence: 0.8}` is a success that sets valence to 0.8 and nothing else |
| CharacterManager.ParsedAnswerUpdates | app/character.py:128-130 | a cleaned text that parses to a dictionary yields exactly that update, saved once |
| CharacterManager.SimulateEmotionsSliced | character.py:67-86 | the returned state is the one saved; the success path is taken exactly when the slice-cleaned text is non-blank and parses to a dictionary, and then the state is that update; otherwise arousal and valence drift and nothing else changes |
| CharacterManager.SimulateVariantsAgree | character.py:67-78 | with a parser that ignores every kind of surrounding whitespace, the two emotion steps return the same path, state and saves |
| CharacterManager.SimulateVariantsAgreeOnJsonSpace | character.py:67-78 | with a parser that, like `json.loads`, ignores only space, tab, newline and carriage return, the two steps still agree whenever the slice-cleaned text has no other whitespace at its ends |
| CharacterManager.VariantsDivergeOnForeignSpace | character.py:67-74 | a fenced object preceded by whitespace that `json.loads` does not skip succeeds in app/character.py, which strips it, and falls back in character.py, which does not |
| CharacterManager.FormFeedIsForeignSpace | app/character.py:124 | the form feed is whitespace to `strip()` but not to `json.loads`, so the divergence above can occur |
| Mentions.IsNameQueryChained | chat.py:54 | the chained `or` test holds exactly when some trigger phrase occurs in the lower-cased prompt |
| Mentions.TitleCaseTriggers | app/chat.py:110-111 | "Tell Me About Alice" triggers a name lookup |
| Mentions.NormaliseName | app/chat.py:198-199 | a present name is never "None" and has no space or period at either end |
| Mentions.NormaliseNameTrims | app/chat.py:198-199 | a bare name wrapped in whitespace and then in spaces and periods normalises to itself, or to no name when it is "None" |
| Mentions.NoneWithPeriodIsAbsent | chat.py:113-114 | "None" and "None." both mean no name |
| Mentions.FilterMentions | app/chat.py:122-127 | the kept rows are a subsequence of the rows, in order, and a row is kept exactly when it mentions the name case-insensitively and lacks "did you know" |
| Mentions.FilterMentionsAppend | app/chat.py:122-127 | filtering two row lists one after the other keeps the same rows as filtering each and concatenating |
| Mentions.ExcludedTurnNeverKept | chat.py:60-63 | a row containing "did you know" is never kept |
| Mentions.BobExample | app/chat.py:122-127 | "Do you know Bob?" and "I don't know much about Bob" are both kept when looking for Bob |
| Mentions.BulletsAppend | chat.py:67-68 | the bullet lines of two runs of mentions are the two line lists one after the other |
| Mentions.HistoryContext | app/chat.py:129-132 | the block is empty exactly when no mention survived, and otherwise starts with `Previous mentions of {name}:\n` |
| Mentions.HistoryContextListsEachMention | app/chat.py:129-132 | every surviving mention appears in the block as its own `- {role} said: '{content}'` line |
| Mentions.BuildHistoryContext | chat.py:65-68 | the source's accumulating loop builds the same block as the header followed by the lines in order |
| Mentions.ResolveMention | app/chat.py:109-132 | the name is the normalised extractor answer when the prompt triggers and none otherwise; a search happens exactly when the prompt triggers and that name is present and non-empty; without a search the block is empty; with one, the mentions are the filtered rows and the block is non-empty exactly when some survived |
| Mentions.AliceQuerySearches | app/chat.py:109-127 | "Tell Me About Alice" with the extractor answer "Alice." searches for Alice and keeps exactly the filtered rows |
| Mentions.NoTriggerNoSearch | app/chat.py:109-113 | a prompt without a trigger phrase gives no name, no search and an empty block |
| Mentions.NoneAnswerSuppressesSearch | app/chat.py:112-113 | an extractor answer of "None." suppresses the search and leaves the block empty |
| Chat.ResponseText | app/chat.py:151-153 | the reply is the chain's output, or the apology prefix followed by the error text |
| Chat.TraceMember | app/chat.py:93-176 | every write of a turn is a state save or one of the record, search and closing writes |
| Chat.ProcessUserInput | app/chat.py:93-176 | the chain is asked the prompt with the mention block; the reply is its output or the apology; the state is that of the emotion step run on the looked-up state |
| Chat.FailureStillUpdatesEmotions | app/chat.py:152-162 | when answering raises, the reply is the apology with the error text and the emotion step still runs |
| Chat.StateIndependentOfAnswer | app/chat.py:155-162 | the new emotional state does not depend on how answering went |
| Chat.AnonymousSavesNoMessages | app/chat.py:164-174 | an anonymous turn creates no record, no conversation and no message |
| Chat.NamedUserPersistsInOrder | app/chat.py:164-174 | a logged-in turn ends by saving the final state, opening a conversation, saving the user's message and then the assistant's; no other message is saved |
| Chat.RecordCreatedOnlyWithoutId | app/chat.py:100-106 | the extra record is created exactly when a state came back without an id and the user is logged in |
| Chat.NoTriggerNoHistory | app/chat.py:108-113 | a prompt without a trigger phrase sends an empty history and searches nothing |
| Chat.ProcessUserInputLegacy | chat.py:49-100 | the same request, reply and state rules as app/chat.py, with the slice-based emotion step |
| Chat.LegacyAlwaysSavesState | chat.py:90-98 | the final state is saved for every user; messages are saved exactly when the user is logged in, and then the turn ends by saving the final state, opening a conversation, saving the user's message and then the assistant's, with no earlier message |
| Chat.LegacyNamedTurnPersistsInOrder | chat.py:90-98 | a logged-in legacy turn ends by saving the final state, opening a conversation, saving the user's message and then the assistant's; no other message is saved |
| Chat.VariantsAgreeOnReplyAndState | chat.py:49-100 | with a whitespace-insensitive parser, both versions send the same request and return the same reply and state |
| PdfProcessor.CollapseShape | app/pdf_processor.py:88 | every run of whitespace becomes one space: the result is single-spaced, empty exactly when the input is, starts with a space exactly when the input starts with whitespace, and keeps every visible character |
| PdfProcessor.CollapseInnerRun | app/pdf_processor.py:88 | a whitespace run between two whitespace-free texts becomes exactly one space and the texts on either side are kept as they are |
| PdfProcessor.CollapseIsJoinedWords | app/pdf_processor.py:88 | on text not starting with whitespace, the substitution gives the text's words joined by single spaces, plus one space when the text ends in whitespace |
| PdfProcessor.CleanText | app/pdf_processor.py:88 | the cleaned text has no surrounding whitespace, only plain single spaces inside, and the same visible characters in the same order |
| PdfProcessor.NormalIffClean | app/pdf_processor.py:88 | cleaning fixes exactly the texts that are already normal |
| PdfProcessor.CleanTextIdempotent | app/pdf_processor.py:88 | cleaning twice is cleaning once |
| PdfProcessor.CleanTextEmptyIffBlank | app/pdf_processor.py:88 | cleaning gives the empty string exactly for whitespace-only text |
| PdfProcessor.CleanTextIsJoinedWords | app/pdf_processor.py:88 | `_clean_text(s)` is `' '.join(s.split())`: the words of the text, in order, joined by single spaces |
| PdfProcessor.MissingPageAddsNothing | app/pdf_processor.py:71 | a page whose extraction returns None contributes nothing |
| PdfProcessor.GetPdfText | app/pdf_processor.py:50-72 | a string gives its `_clean_text`; PDFs give the `_clean_text` of their pages' texts concatenated, a missing page text counting as empty; either way the result is the input's words joined by single spaces |
| PdfProcessor.GetTextChunks | app/pdf_processor.py:104-106 | whitespace-only text raises "Empty text provided for chunking"; any other text is handed to the splitter |
| PdfProcessor.CreateVectorStore | app/pdf_processor.py:122-130 | an empty chunk list raises "No text chunks provided for vector store creation"; otherwise the index holds exactly the chunks under the given name |
| PdfProcessor.Words | app/pdf_processor.py:175 | `split()` yields only non-empty whitespace-free words |
| PdfProcessor.WordsCoverText | app/pdf_processor.py:175 | the words, glued together, are exactly the visible characters of the text |
| PdfProcessor.WordsOfJoin | app/pdf_processor.py:175 | splitting non-empty whitespace-free words joined by single spaces gives back the same words |
| PdfProcessor.NoWordsIffBlank | app/pdf_processor.py:175 | a text has no words exactly when it is whitespace-only |
| PdfProcessor.ChoosePrompt | app/pdf_processor.py:175-189 | the short prompt is chosen exactly when the text has fewer than 50 words |
| PdfProcessor.BlankTextGetsShortPrompt | app/pdf_processor.py:175 | whitespace-only text always gets the short prompt |
| PdfProcessor.NonBlankSegments | pdf_processor.py:39 | at most one entry per segment; every entry is non-empty and has nothing to strip |
| PdfProcessor.NonBlankSegmentsMembers | pdf_processor.py:39 | a name is kept exactly when it is the strip of some non-blank segment |
| PdfProcessor.NonBlankSegmentsOrdered | pdf_processor.py:39 | the kept names are a subsequence of the stripped segments, so they keep their order |
| PdfProcessor.ParseCharacterList | app/pdf_processor.py:192-199 | a trimmed answer of exactly NO_CHARACTERS_FOUND gives []; otherwise the non-blank trimmed comma segments; entries are non-empty, stripped, comma-free and at most one more than the commas |
| PdfProcessor.ParseCharacterListLegacy | pdf_processor.py:39 | entries are non-empty, stripped, comma-free, and there are at most one more than the commas |
| PdfProcessor.LegacyNamesAreSegments | pdf_processor.py:39 | the entries are the non-blank stripped segments, in their original order, and nothing else |
| PdfProcessor.ExtractCharacters | app/pdf_processor.py:172-199 | the names are exactly the list parsing of the model's answer to the prompt chosen by word count, and so satisfy the list guarantees |
| PdfProcessor.ProcessInput | app/pdf_processor.py:149-156 | whitespace-only text returns no names and builds no index; an empty chunk list raises; otherwise the index holds the chunks under "faiss_index" and the names are those extracted |
| PdfProcessor.ProcessedNamesWellFormed | app/pdf_processor.py:149-156 | every name `process_input` returns is non-empty and comma-free |
| Session.SimulateEmotionsScript | test.py:108-130 | a dictionary updates the named fields; a reply that does not evaluate moves every one of the eleven fields to its old value plus its draw, clamped to [0, 1]; any other value raises; the memory is never touched |
| Session.ScriptFallbackStaysClose | test.py:116-128 | on the fallback every one of the eleven fields ends in [0, 1] and, if it started in range, has moved by at most 0.1 |
| Session.ScriptStepKeepsRange | test.py:113-128 | an in-range state stays in range after the step when the dictionary's values are themselves in range |
| Session.UserInput | test.py:132-158 | a duplicate is skipped with nothing changed; an answered call appends the user's entry then the character's and takes the emotions of the emotion step; a greeting gets the canned reply and leaves the memory alone; otherwise the reply is the retrieval answer and the memory is the old map with the question mapped to that answer; a raising step on the retrieval path records nothing |
| Session.GreetingIgnoresRetrieval | test.py:137-143 | the outcome for a greeting does not depend on what retrieval would answer |
| Session.RepeatIsSkipped | test.py:134-135 | sending an answered message again is skipped and changes nothing |
| Session.HistoryGrowth | test.py:140-156 | the history only grows, by exactly two entries per answered call and none for a skipped one, and keeps its old prefix |
| Session.GreetingIgnoresCase | test.py:138 | a message is a greeting exactly when its lower-cased form is |
| Session.GreetingIsWholeMessage | test.py:137-138 | "Hello" is a greeting; "hi there" is not |
| Session.ParseCharacterListScript | test.py:105 | entry k is comma segment k stripped, so there is one entry per segment, one more than the commas, empty entries included, each comma-free |
| Session.ScriptAndLegacyParsersAgree | test.py:105 | the filtering parser of pdf_processor.py is this parser with the empty entries removed |
| Session.ScriptKeepsEmptyEntries | test.py:105 | ", Alice,,Bob " gives four entries |

## Left out

- Streamlit: `app.py`, `app/app.py`, `main` and `process_input` of test.py, all rendering and the chat-history HTML. They are presentation only; the display is modelled as the rows it would draw. Computing those rows is a pure function, so it cannot modify the state.
- The language-model calls are not modelled. Their text is an input, and so are the extractor's answer and the answering chain's outcome.
  - Exceptions raised by `invoke` itself inside `simulate_emotions` are not caught there and are not modelled.
  - Neither is an exception escaping the name extractor.
- `json.loads` and `eval` become an abstract `ParseOutcome`: a dictionary of reals, a non-dictionary value, or a parse error. Dictionary values are assumed to be numbers.
- `random.uniform(-0.1, 0.1)` becomes a `delta` function per field. Its bound is a hypothesis of the lemmas that need it.
- Floating point becomes Dafny `real`; rounding is not modelled.
- FAISS, the embeddings, `RecursiveCharacterTextSplitter` and `PdfReader` are foreign libraries. The splitter is a function parameter, a PDF is its list of page texts, and the index is its name plus the chunks.
- database.py's SQL (the upsert, ILIKE search, ordering and LIMIT) is not modelled. The store is modelled from its callers' side.
  - database.py keys characters by name only (database.py:95, database.py:131).
  - The managers call it with name, book source and user and unpack a pair (app/character.py:34). The model follows the callers: one record per (character, source, user).
  - The search's ILIKE pre-filter and its limit of 5 rows are subsumed by the `rows` input.
- chat.py calls `get_character_state`, `simulate_emotions` and `save_character_state` with fewer arguments than character.py accepts, which would raise TypeError. The model follows the evident data flow, with the state lookup and the slice-based emotion step of character.py.
- pdf_processor.py's `get_pdf_text`, `get_text_chunks` and `create_vector_store` are pure library glue without guards. Only the list parsing of that file is modelled.
  - Its `page.extract_text()` concatenation would raise on a page without text.
- `lower()` is modelled over ASCII letters only. Whitespace (`str.isspace`, regex `\s`) is modelled with Python's full set of whitespace code points.
- test.py's `long_term_memory={}` default (test.py:22) is one dictionary shared by every instance. The model gives each state its own memory map.
- In app/chat.py an anonymous user's state is still saved by `get_character_state` and `simulate_emotions`, because only the extra record and the closing writes check the user. The model keeps those saves, so "nothing is persisted for anonymous" holds only for records, conversations and messages (see Chat.AnonymousSavesNoMessages).
- CharacterManager.ParsedValenceExample: the fenced literal example is split in two. CleanResponseFenceExample proves the cleaning. ParsedValenceExample proves the update for any answer whose cleaned text parses to `{valence: 0.8}`, not for the literal alone, because the parser is a parameter.
- Session.ScriptStepKeepsRange: test.py does not clamp a parsed dictionary, so range is kept only when the dictionary's values are themselves in range.
- CharacterManager.SimulateVariantsAgree: the agreement is proved for a parser that ignores every kind of surrounding whitespace, which is more than `json.loads` does; it skips only space, tab, newline and carriage return. For other whitespace at the ends of the slice-cleaned text (a form feed, say) app/character.py:123-130 and character.py:67-74 really do differ, as VariantsDivergeOnForeignSpace shows; SimulateVariantsAgreeOnJsonSpace gives the agreement for a `json.loads`-like parser when no such whitespace is present. Chat.VariantsAgreeOnReplyAndState carries the same hypothesis.
- The `get_conversation_history`, `save_conversation`, `save_to_memory` and `get_from_memory` wrappers of the character managers are thin pass-throughs to the database and are not modelled.
