# Selftronic AAC V1R3: the phrase-expansion core in Dafny

Selftronic AAC is a desktop picture board for augmentative and alternative
communication. The user taps picture cards to build a sentence in English or
Chinese. Cards come from a fixed vocabulary of 41 items in five categories:
people, action, food, object and feeling. The user can also type free text into
the sentence. The sentence can be spoken as it stands ("play"). It can also be
*expanded*: a small rule engine turns it into a polite, complete phrase. For
example, "I Want Sleep" becomes "I want to sleep.", and 我 家 becomes
"我想回家了。".

This project models that core as pure functions over immutable data:

- `text.dfy` (`Text`): the two string operations the application uses,
  `str.lower` and `" ".join`. It also has a splitter, so we can show that
  joining loses no words.
- `vocabulary.dfy` (`Vocabulary`): the locales, the categories, the catalog
  `vocabulary_db` entry by entry, and the category filter that fills the grid.
- `sentence.dfy` (`Sentence`): sentence tokens (a catalog item or typed text)
  and the application state: language, sentence, grid page. It also holds the
  buffer operations (add, backspace, clear, toggle language, change category)
  and the text that `play_sentence` speaks.
- `expansion.dfy` (`Expansion`): the engine `_ai_process`. It first reads the
  sentence into a context: the words, the last category and the last word. It
  then runs the English if/elif chain or the Chinese "default, then override"
  chain.
- `expansion_facts.dfy` (`ExpansionFacts`): `ai_expand`'s empty-sentence guard.
  It also states each rule over the sentence itself, with precedence, totality
  and "no rule, no change" results.
- `rule_table.dfy` (`RuleTable`): a second, independent definition of both rule
  sets. Each is an ordered table of (condition, reply) pairs, evaluated first
  match. The module proves that the engine computes exactly these tables. It
  also proves that the four category rules exclude each other, so their order
  among themselves does not matter. Two orders do matter: negation before
  feeling in English, and action before 不+吃 in Chinese. Each is shown by a
  lemma over every context where the swap would apply.
- `scenarios.dfy` (`Scenarios`): worked examples on real catalog entries.

Two things are passed in as parameters:

- **The random choice.** `random.choice` among the three English request
  templates becomes a parameter `pick` of type `Pick` (0, 1 or 2).
- **Typed text.** What the user types comes in as the text of a `Manual` token.

Nothing else in the core reads input, the clock or randomness.

Lower-casing happens in two places, and the model keeps them apart.
- The last word that the category rules see is the catalog text lower-cased, in
  both languages (line 426). Typed text is kept as typed (line 422). For the
  Chinese catalog the lower-casing makes no difference.
- The English negation rule lower-cases every word for its "no" test (line 456).
  It also lower-cases the word it refuses, typed or not (line 459).

## Model

| member | source | states |
|---|---|---|
| Text.Lower | selftroniclabs_AAC_V1R3.py:426 | `str.lower` keeps the length, turns each capital A–Z into its small letter, and keeps every other character (so CJK text is unchanged) |
| Text.LowerFixpoint | selftroniclabs_AAC_V1R3.py:426 | lowering changes a string exactly when it holds an ASCII capital |
| Text.LowerIdempotent | selftroniclabs_AAC_V1R3.py:426 | lowering twice is lowering once, so the already-lowered last word is stable |
| Text.IsNoSpellings | selftroniclabs_AAC_V1R3.py:456-457 | the test `w.lower() == 'no'` holds for exactly the spellings no, No, nO, NO |
| Text.Join | selftroniclabs_AAC_V1R3.py:400 | `" ".join` of no words is empty; otherwise its length is the sum of the word lengths plus one separator between each pair, and it starts with the first word |
| Text.Split | selftroniclabs_AAC_V1R3.py:400 | splitting text at a character always yields at least one piece (the inverse used for the join round trip) |
| Text.SplitWithoutSeparator | selftroniclabs_AAC_V1R3.py:400 | a word without the separator splits into just itself |
| Text.SplitAfterWord | selftroniclabs_AAC_V1R3.py:400 | splitting "w, separator, rest" yields w followed by the pieces of the rest |
| Text.SplitJoinRoundTrip | selftroniclabs_AAC_V1R3.py:400 | when no word holds the separator, splitting the joined text gives back exactly the words |
| Vocabulary.BlocksNumbered | selftroniclabs_AAC_V1R3.py:111-162 | each category's block of the catalog has that category only, and item i of category c has id 100·code(c)+i+1 |
| Vocabulary.IncreasingIdsAreUnique | selftroniclabs_AAC_V1R3.py:111-162 | ids that increase along the list are pairwise distinct |
| Vocabulary.IncreasingConcat | selftroniclabs_AAC_V1R3.py:111-162 | two increasing blocks, where the second starts above the end of the first, join into an increasing list |
| Vocabulary.CatalogIdsIncreasing | selftroniclabs_AAC_V1R3.py:113-161 | the catalog ids increase strictly, from 101 for the first entry to 510 for the last |
| Vocabulary.NumberedCodes | selftroniclabs_AAC_V1R3.py:111-162 | in a numbered block, the hundreds digit of every id is the category's code |
| Vocabulary.CodesConcat | selftroniclabs_AAC_V1R3.py:111-162 | the hundreds-digit property survives concatenation |
| Vocabulary.CatalogIdCodes | selftroniclabs_AAC_V1R3.py:111-162 | every catalog id's hundreds digit names its category (1 people … 5 feeling) |
| Vocabulary.CatalogWellFormed | selftroniclabs_AAC_V1R3.py:111-162 | the catalog has 41 entries, increasing and unique ids, and ids coded by category |
| Vocabulary.FilterCategory | selftroniclabs_AAC_V1R3.py:296 | the filter keeps only items of the asked category, in their original order (a subsequence), and never grows the list |
| Vocabulary.FilterMembership | selftroniclabs_AAC_V1R3.py:296 | an item is in the filtered list exactly when it is in the input and has the asked category |
| Vocabulary.FilterConcat | selftroniclabs_AAC_V1R3.py:296 | filtering distributes over concatenation |
| Vocabulary.FilterUniform | selftroniclabs_AAC_V1R3.py:296 | a block of a single category is kept whole by its own filter and emptied by any other |
| Vocabulary.ByCategory | selftroniclabs_AAC_V1R3.py:296 | the grid page holds only items of its category, in catalog order |
| Vocabulary.ByCategoryExact | selftroniclabs_AAC_V1R3.py:296 | the grid page holds every catalog item of its category and nothing else |
| Vocabulary.SubsequenceKeepsIdOrder | selftroniclabs_AAC_V1R3.py:296 | a subsequence of a list with increasing ids has increasing ids |
| Vocabulary.ByCategoryOrdered | selftroniclabs_AAC_V1R3.py:296 | every grid page lists its items by increasing id, without duplicates |
| Vocabulary.FilterFiveConcat | selftroniclabs_AAC_V1R3.py:296 | filtering five concatenated blocks is the concatenation of the five filtered blocks |
| Vocabulary.FilterFiveBlocks | selftroniclabs_AAC_V1R3.py:296 | filtering five single-category blocks, one per category, yields exactly the block of the asked category |
| Vocabulary.ByCategoryIsBlock | selftroniclabs_AAC_V1R3.py:296 | the grid page of a category is exactly that category's block of the catalog |
| Vocabulary.ByCategorySizes | selftroniclabs_AAC_V1R3.py:111-162 | the pages hold 6, 12, 7, 6 and 10 items, and together they cover the whole catalog |
| Sentence.TokenTextByLocale | selftroniclabs_AAC_V1R3.py:395-398 | a catalog token reads as its English text in English and its Chinese text in Chinese; typed text reads the same in both |
| Sentence.InitialPage | selftroniclabs_AAC_V1R3.py:97-98 | the application starts in English (line 17) with an empty sentence and nothing to play, and its first grid page shows exactly the people cards, in catalog order |
| Sentence.Words | selftroniclabs_AAC_V1R3.py:393-398 | one word per token, in order: the item's text in the active language, or the typed text |
| Sentence.AddToSentence | selftroniclabs_AAC_V1R3.py:345-346 | the token is appended at the end, the earlier tokens stay, and language and page are unchanged |
| Sentence.Announcement | selftroniclabs_AAC_V1R3.py:349-352 | typed text is spoken as typed; a catalog item is spoken as its English text in English and its Chinese text in Chinese |
| Sentence.Backspace | selftroniclabs_AAC_V1R3.py:381-384 | an empty sentence is left alone; otherwise exactly the last token is removed and the rest is unchanged |
| Sentence.ClearSentence | selftroniclabs_AAC_V1R3.py:386-388 | the sentence becomes empty; language and page are kept |
| Sentence.ToggleLanguage | selftroniclabs_AAC_V1R3.py:287-289 | the language flips between English and Chinese and the sentence is emptied; the page is kept |
| Sentence.ChangeCategory | selftroniclabs_AAC_V1R3.py:317-318 | the page becomes the chosen category; language and sentence are kept |
| Sentence.VisibleItems | selftroniclabs_AAC_V1R3.py:296 | the cards on screen all belong to the current page's category |
| Sentence.PlayText | selftroniclabs_AAC_V1R3.py:390-400 | an empty sentence speaks nothing; any other sentence speaks something |
| Sentence.BackspaceUndoesAdd | selftroniclabs_AAC_V1R3.py:345-346 | backspace right after adding a token restores the previous state |
| Sentence.ToggleTwiceIsClear | selftroniclabs_AAC_V1R3.py:287-289 | toggling the language twice is the same as clearing the sentence, and clearing is idempotent |
| Sentence.AnnouncementIsLastWord | selftroniclabs_AAC_V1R3.py:349-352 | the text spoken when a token is picked is the word it adds to the sentence |
| Sentence.PlayTextKeepsWords | selftroniclabs_AAC_V1R3.py:393-400 | when no word holds a space, the played text splits back into exactly the sentence's words |
| Expansion.ExtractContext | selftroniclabs_AAC_V1R3.py:413-428 | the words are the sentence's words in order; an empty sentence gives category 'other' and last word ""; otherwise the category and last word come from the final token (catalog text lowered, typed text as typed, category 'manual') |
| Expansion.TokenTags | selftroniclabs_AAC_V1R3.py:419-426 | a catalog token is tagged with its category and typed text 'manual', never 'other'; the last word of a catalog token is its text lowered (no capitals left), and typed text is kept as typed |
| Expansion.LowerAll | selftroniclabs_AAC_V1R3.py:456 | the lowered word list keeps length and lowers each word in place |
| Expansion.LowerAllHasNo | selftroniclabs_AAC_V1R3.py:456 | "no" is among the lowered words exactly when some word is a case-insensitive "no" |
| Expansion.ContentWords | selftroniclabs_AAC_V1R3.py:457 | a word is among the content words exactly when it is among the words and is not a "no" |
| Expansion.ContentWordsCounts | selftroniclabs_AAC_V1R3.py:457 | each word that is not a "no" is kept as many times as it occurs, and no "no" is kept (the same multiset of words minus the "no"s) |
| Expansion.NoContentIffAllNo | selftroniclabs_AAC_V1R3.py:457-461 | there are no content words exactly when every word is a "no" |
| Expansion.LastContentWord | selftroniclabs_AAC_V1R3.py:457-459 | the last content word is the last word that is not a "no" |
| Expansion.ExpandEn | selftroniclabs_AAC_V1R3.py:452-495 | when a rule fires (a "no", or a catalog category at the end), the reply ends in '.' or '?'; when none fires, the words come back unchanged |
| Expansion.RequestTemplatesDistinct | selftroniclabs_AAC_V1R3.py:490-494 | the three request templates are three different sentences for every word, ending in '?', '.' and '?' |
| Expansion.Expand | selftroniclabs_AAC_V1R3.py:413-495 | the engine: a Chinese reply ends in '。' or '？'; an English reply ends in '.' or '?' when a rule fires, and otherwise is the words joined by spaces (each rule is pinned by the ExpansionFacts lemmas) |
| Expansion.ExpandZh | selftroniclabs_AAC_V1R3.py:431-450 | the reply always ends in '。' or '？', and it is the baseline "请问我可以…吗？" exactly when no override fires |
| ExpansionFacts.AiExpand | selftroniclabs_AAC_V1R3.py:403-404 | an empty sentence is never expanded, any other is; a Chinese expansion ends in '。' or '？' |
| ExpansionFacts.EmptySentenceExpansion | selftroniclabs_AAC_V1R3.py:413-433 | the engine on an empty sentence gives "" in English and "请问我可以吗？" in Chinese |
| ExpansionFacts.EnNegationNamesLastContentWord | selftroniclabs_AAC_V1R3.py:456-459 | a "no" anywhere wins over every category rule: the reply is "I don't want" plus the lowered last word that is not a "no" |
| ExpansionFacts.EnAllNoIsThanks | selftroniclabs_AAC_V1R3.py:456-461 | a sentence of nothing but "no" is answered "No, thank you." |
| ExpansionFacts.EnFeelingRule | selftroniclabs_AAC_V1R3.py:464-470 | with no "no", a feeling at the end asks for help (pain, scared, angry), asks for something else (bored, tired), or says "I feel w." |
| ExpansionFacts.EnActionRule | selftroniclabs_AAC_V1R3.py:473-482 | with no "no", an action at the end: "stop" and "help" get fixed replies, and every other action becomes "I want to w." |
| ExpansionFacts.EnPeopleRule | selftroniclabs_AAC_V1R3.py:485-486 | with no "no", a person at the end becomes "I want w." |
| ExpansionFacts.EnRequestRule | selftroniclabs_AAC_V1R3.py:489-495 | with no "no", food or an object at the end gives the picked request template, and the three picks give three different replies |
| ExpansionFacts.PickMattersOnlyForRequests | selftroniclabs_AAC_V1R3.py:489-495 | outside the English request case the random pick has no effect on the reply |
| ExpansionFacts.EnRuleOrIdentity | selftroniclabs_AAC_V1R3.py:428-429 | in English, a rule fires exactly when there is a "no" or the last token is a catalog item; a fired rule's reply ends in '.' or '?', and otherwise the reply is the joined words |
| ExpansionFacts.EnTypedEndIsPlayedText | selftroniclabs_AAC_V1R3.py:428-429 | typed text at the end and no "no": the expansion equals what play would speak |
| ExpansionFacts.ZhDefaultUnlessOverride | selftroniclabs_AAC_V1R3.py:433-450 | the Chinese reply is "请问我可以" + joined words + "吗？" exactly when none of the four overrides fires |
| ExpansionFacts.ZhDistressRule | selftroniclabs_AAC_V1R3.py:436-437 | a distress feeling (痛, 害怕, 生气) at the end outranks every other Chinese rule |
| ExpansionFacts.ZhActionRule | selftroniclabs_AAC_V1R3.py:440-446 | an action at the end: 睡觉/洗澡/画画 become "我想去w。", 停 gets a fixed reply, and any other action becomes "我想w。", whatever the other words |
| ExpansionFacts.ZhHomeRule | selftroniclabs_AAC_V1R3.py:449 | with no distress feeling or action at the end, the whole words 我 and 家 together give "我想回家了。", ahead of 不+吃 |
| ExpansionFacts.ZhNotEatRule | selftroniclabs_AAC_V1R3.py:450 | when no earlier rule fires, the whole words 不 and 吃 together give "我不想吃这个。" |
| ExpansionFacts.LocalesNeverShareReplies | selftroniclabs_AAC_V1R3.py:431-495 | a reply from a fired English rule is never a Chinese reply |
| RuleTable.FirstApplying | selftroniclabs_AAC_V1R3.py:456-489 | first-match evaluation: no rule before the chosen one applies, and the chosen one does apply (or none is left) |
| RuleTable.LastNonNo | selftroniclabs_AAC_V1R3.py:457-458 | there is no non-"no" word exactly when every word is a "no"; otherwise the result is one of the words and not a "no" |
| RuleTable.LastNonNoIsLastContentWord | selftroniclabs_AAC_V1R3.py:457-459 | the table's "last non-no word" is the engine's last content word |
| RuleTable.EnFirstRule | selftroniclabs_AAC_V1R3.py:456-489 | the English table picks negation, feeling, action, people, request or nothing, in that order of precedence |
| RuleTable.ExpandEnIsTable | selftroniclabs_AAC_V1R3.py:452-495 | the English if/elif chain equals the first-match table (negation, feeling, action, people, request) that falls back to the words |
| RuleTable.CategoryRulesExclusive | selftroniclabs_AAC_V1R3.py:464-489 | the feeling, action, people and request rules exclude each other, so their relative order never matters |
| RuleTable.NegationMustPrecedeFeeling | selftroniclabs_AAC_V1R3.py:456-470 | the order matters: for every sentence that holds a "no" and ends in a feeling (such as Book No), trying feeling first would change the reply |
| RuleTable.ExpandZhIsTable | selftroniclabs_AAC_V1R3.py:431-450 | the Chinese "baseline, then overwrite" code equals the first-match table (distress, action, 我+家, 不+吃) that falls back to the baseline |
| RuleTable.ActionMustPrecedeNotEat | selftroniclabs_AAC_V1R3.py:440-450 | the order matters: for every sentence that ends in an action and holds 不 and 吃 (such as 不 吃), trying 不+吃 first would change the reply |
| Scenarios.SleepScenario | selftroniclabs_AAC_V1R3.py:473-476 | the cards I, Want, Sleep expand to "I want to sleep." |
| Scenarios.PainScenario | selftroniclabs_AAC_V1R3.py:464-466 | the card Pain expands to "I am feeling pain, please help." |
| Scenarios.EnRefusePair | selftroniclabs_AAC_V1R3.py:456-459 | a card that is not a "no" followed by one that is: the first card's word is refused, lowered |
| Scenarios.BookNoScenario | selftroniclabs_AAC_V1R3.py:456-459 | the cards Book, No expand to "I don't want book." although No is a feeling card |
| Scenarios.TypedTextScenario | selftroniclabs_AAC_V1R3.py:428-429 | typed "banana split" alone comes back unchanged |
| Scenarios.StopScenario | selftroniclabs_AAC_V1R3.py:443-444 | 我 停 expands to "请停下来，我不喜欢这样。" |
| Scenarios.HomeScenario | selftroniclabs_AAC_V1R3.py:449 | 我 家 expands to "我想回家了。" |
| Scenarios.NotEatEndsInActionScenario | selftroniclabs_AAC_V1R3.py:440-446 | 不 吃 expands to "我想吃。": the action rule answers first |
| Scenarios.EatNotScenario | selftroniclabs_AAC_V1R3.py:450 | 吃 不 expands to "我不想吃这个。" |
| Scenarios.WaterScenario | selftroniclabs_AAC_V1R3.py:489-495 | Water with the first pick expands to "May I have water, please?" |
| Scenarios.PronounScenario | selftroniclabs_AAC_V1R3.py:485-486 | the card I alone expands to "I want i.", because the people rule uses the lowered word |

## Left out

- The Tk user interface is left out: window layout, grid and sentence rendering,
  message boxes, the settings window, and the "thinking" button label. None of
  these change the state the core works on.
- The keyboard dialog `open_keyboard` is left out. The model admits a `Manual`
  token with any text. The application only adds non-empty text, so the model
  covers a superset of its sentences.
- The `translations` label dictionary and the colours and icons of
  `categories_data` are left out. They are display data only.
- Speech is left out: pyttsx3 voice discovery and selection, `speak_text`, and
  the emergency alarm. These are calls into an audio library. The model states
  *what* is spoken (`Sentence.Announcement`, `Sentence.PlayText`), not the
  speaking itself.
- Threads, the engine lock, `time.sleep(0.6)` and `after` scheduling are left
  out. The engine is modelled as one function call on one state.
- ExpansionFacts.AiExpand: runs the engine on the sentence and language as they
  are at the click. The program checks for an empty sentence at the click
  (line 404), but the engine thread reads the sentence and language only after
  a 0.6 s sleep (lines 411, 418, 424, 431). A clear, backspace, language toggle
  or new card in that window changes what is expanded. An emptied sentence then
  expands to "" in English and to "请问我可以吗？" in Chinese. The model does not
  capture that race.
- `random.choice` is left out: its choice is the parameter `pick`.
- Text.Lower: models `str.lower` as lowering A–Z only, one character for one.
  Python's `str.lower` also lowers non-ASCII capitals, and it can change the
  length ("İ" becomes two code points); the model's `|r| == |s|` rules that out.
  The catalog has no such letters, and no non-ASCII character lowers to n or o,
  so the "no" test (lines 456-457) agrees with Python. The difference shows in
  the refused word of line 459: typed "ÄPFEL" followed by the No card gives
  "I don't want Äpfel." in the model where Python says "I don't want äpfel."

- Sentence.PlayText: its contract says when something is spoken. That the
  spoken text is the words joined by single spaces is stated through
  `Sentence.PlayTextKeepsWords`, which needs the words to hold no space. The
  catalog's words have no spaces, but the model does not prove that fact over
  the literal catalog.
