# NHK News Web Easy quiz pipeline, modelled in Dafny

This project models the text logic of the NHK News Web Easy quiz
generator. The program picks an article link from the NHK Easy home page
and scrapes the dictionary definitions of the article's vocabulary. It then
writes the `---`-delimited article file with the article text, the words
annotated with their readings (furigana) and the definitions. From these it
builds two quizzes: a pronunciation quiz over a randomly shrunk vocabulary
dict, and a definition quiz with shuffled prompts and an answer key. It
pushes the chosen quiz to LINE. Other programs read the article file back:
the translator, the sentiment analyser and the LINE answer sender. The
desktop GUI steps the question count, guards it and animates a progress
label.

The browser, HTTP, the parsed HTML, the random choices, the clock and the
LINE platform are parameters of the model:
- the home page link lists, word counts and choices of `get_news_url`;
- the element ids and dictionary tooltips of each page;
- the parsed article page;
- the index `random.choice` picks and the permutation `random.shuffle` applies;
- the date strings;
- the platform's answer to each request.

Files are the strings the program writes, and exceptions are `Result`
failures.

Modules, one per part of the program:

- `Wrappers`: Option, Result and the Python exceptions the program raises.
- `PyText`: the Python `str` operations the program relies on, each with its edge cases:
  - `strip`, `split(sep)`, `split(sep, 1)`, `split()`, `join`, `replace`, `replace(…, 1)`;
  - `splitlines`, `readlines`, `str(int)`, `int()`;
  - string `<=`.
- `Collections`: `dict.fromkeys` order-preserving dedup, list filtering, permutations.
- `Calendar`: the weekday tables.
- `Vocabulary`: the vocabulary dict. It is a class over an insertion-ordered map, mutated in place. The module also builds the readings.
- `Furigana`: `is_hiragana_char` and the reconciliation loop that annotates each word. Both quirks are kept as written. What the loop writes is proved for every key and reading without brackets: with enough tokens, with several tokens that run out, and with a single token that runs out.
- `Pairing`: the pairing of dict keys with scraped definitions.
- `Quiz`: the two quiz generators, proved for every random choice and every permutation.
- `Lister`: the attempt loop of `get_news_url`.
- `Definitions`: `get_number_of_word` and the `get_definition_list` loop with its progress callback.
- `Messaging`: `send_message` routing and `push_quiz`.
- `Store`: the article-file writers and the readers, and the quiz-file reader of `push_quiz`. It proves that each article-file reader gives back what the writer wrote.
- `Gui`: the question-count stepper, the `<= "0"` guard, popup centring and the progress-label animation.
- `Pipeline`: one whole run of `main`. The dict shrunk by the pronunciation quiz is the one the definition quiz receives.

Three behaviours worth noting:
- `generate_definition_quiz` shuffles the headers, which are the prompts (main.py:105-109). The definitions keep their order and are printed lettered A, B, …
- The look-ahead `(is_hiragana_char(key[i + 1]) or " ")` at main.py:335 is always true. So every non-hiragana character takes a reading token, also one followed by another kanji.
- `soup.find("p", …)` returns the date `<p>` itself, and `write_text_data` then calls `find_all("p")` on it. That searches descendants only, so the date is written only through `<p>` elements nested inside it. The model takes the `<p>` texts below each element as its input.

## Model

| member | source | states |
|---|---|---|
| Calendar.DayOfWeekJp | main.py:208-211 | the full weekday name has three characters and ends in 曜日 |
| Calendar.WeekdayShort | customtkinter_GUI.py:1313-1315 | the clock label's weekday name is one character |
| Calendar.FullIsShortPlusSuffix | main.py:210 | the two weekday tables agree: each full name is the short name plus 曜日 |
| Calendar.WeekdayNamesDistinct | main.py:210 | different weekdays get different names in both tables |
| Collections.DedupMembers | get_definition.py:50-52 | `list(dict.fromkeys(…))` holds each value once, loses none and adds none |
| Collections.DedupOrder | get_definition.py:50-52 | the deduplicated list is ordered by first occurrence in the input |
| Collections.WithoutLength | main.py:72 | removing a key from a list of distinct keys leaves one fewer, still distinct |
| Collections.KeepIsOrderedSubset | main.py:165-169 | filtering a list keeps a sub-list of it, in its order |
| Collections.PermutationOnto | main.py:109 | a shuffle permutation of 0..n-1 reaches every position |
| Vocabulary.ReadingMap | main.py:300-316 | the dict's keys are exactly the anchor texts |
| Vocabulary.ReadingMapLastWins | main.py:316 | a surface form maps to the reading of its last anchor |
| Vocabulary.ReadingOf | main.py:302-314 | the reading loop gives the rt texts joined by single spaces, "" when there is none |
| Vocabulary.ReadingTokens | main.py:330 | splitting the reading at " " gives back the rt texts when none of them holds a space |
| Vocabulary.VocabularyDict.constructor | main.py:296 | `{}`: no keys, no values |
| Vocabulary.VocabularyDict.Put | main.py:316 | `d[k] = v` overwrites the value; a new key goes to the end, an existing key keeps its place |
| Vocabulary.VocabularyDict.Pop | main.py:72 | `d.pop(k)` returns k's value and removes k; the other keys keep their order; one key fewer |
| Vocabulary.BuildVocabulary | main.py:295-316 | the dict built in place has the distinct anchor texts as keys, in order of first appearance, and the last reading of each |
| Vocabulary.VocabularyKeys | main.py:300-316 | the dict's key list is duplicate-free and covers exactly its domain |
| Furigana.ContainsHiragana | main.py:322-325 | the flag loop is true exactly when some character is in U+3040..U+309F (main.py:197-199) |
| Furigana.RenderPadded | main.py:330-344 | the rendering loop over the padded key, which builds `word` and pops the deque, ends in the state the step relation reaches |
| Furigana.FormatWord | main.py:320-352 | one dict entry is rendered by the reconciliation relation, both branches of `if word` included |
| Furigana.FormattedAt | main.py:319-352 | the i-th formatted word is the i-th key rendered with its own reading |
| Furigana.FormatWordList | main.py:319-352 | the formatted list has one word per dict key, in the dict's order |
| Furigana.NoHiraganaAnnotated | main.py:345-352 | a word without hiragana and with a non-empty reading renders as `surface(reading)`, spaces of a multi-token reading kept |
| Furigana.NoHiraganaEmptyReading | main.py:349-351 | a word without hiragana and with an empty reading (katakana) renders as the bare surface form |
| Furigana.WalkEnough | main.py:331-344 | while reading tokens last, the loop has written each hiragana unchanged and each non-hiragana character followed by the next token in brackets, using one token per non-hiragana character |
| Furigana.ReconcileEnoughTokens | main.py:328-347 | with enough tokens the word is that interleaving with every space removed, the pad of line 329 included |
| Furigana.ExampleHanashiau | main.py:318 | 話し合う with reading "はな あ" gives 話(はな)し合(あ)う |
| Furigana.ExampleEveryKanjiAnnotated | main.py:332-336 | 勉強する with "べん きょう" gives 勉(べん)強(きょう)する: a kanji followed by a kanji takes a token too |
| Furigana.TokensClean | main.py:330 | a reading without brackets splits into tokens without spaces or brackets |
| Furigana.ClosedInterleave | main.py:331-344 | the interleaving of a bracket-free key closes every `(` it opens before the next space or `(` |
| Furigana.NoReadingIn | main.py:341 | such a word never holds `(` + a reading with a space + `)`, so the `replace` of line 341 cannot match it |
| Furigana.NothingToDelete | main.py:339-341 | with a reading of several tokens, the `replace` in the `IndexError` branch deletes nothing |
| Furigana.StepSeveralTokens | main.py:331-344 | one loop step with a reading of several tokens keeps the state "interleaving so far, tokens not yet used", also after they run out |
| Furigana.WalkSeveralTokens | main.py:331-344 | with a reading of several tokens, after any number of characters the loop has written the interleaving of them, each character after the tokens run out appended bare |
| Furigana.ReconcileSeveralTokens | main.py:328-347 | for every key with hiragana and every reading of two or more tokens, however many non-hiragana characters the key has, the word is the interleaving with every space removed; no exception escapes |
| Furigana.DeleteReading | main.py:341 | `replace` deletes the one bracketed reading when no other `(` is around it |
| Furigana.SecondDeletes | main.py:337-342 | with a one-token reading, the second non-hiragana character finds the deque empty, is appended bare and deletes the annotation written for the first |
| Furigana.StepSingleToken | main.py:331-344 | one loop step with a one-token reading keeps the state: the key so far with its token pending, annotated once, or written back bare |
| Furigana.WalkSingleToken | main.py:331-344 | with a one-token reading, after any number of characters the loop has written that state of the characters read |
| Furigana.ReconcileSingleToken | main.py:328-347 | for every key with hiragana and two or more non-hiragana characters and every reading without a space, the word is the bare key, its annotation deleted; no exception escapes |
| Furigana.InterleaveBrackets | main.py:331-344 | the interleaving writes one `(` per token used: the smaller of the non-hiragana count and the token count |
| Furigana.ReconcileBracketBound | main.py:328-352 | for every bracket-free key and reading, the formatted word holds no more readings than the reading has tokens |
| Furigana.ExampleTokensExhausted | main.py:337-342 | 勉強する with the single token "べんきょう" gives 勉強する |
| Pairing.EntryMeaning | main.py:370-371 | a definition yields an entry exactly when it holds "：", and the entry is key + "：" + the text after the first "：" |
| Pairing.EntryKey | main.py:371 | the text before the first "：" of an entry is its key when the key holds no "：" |
| Pairing.Paired | main.py:368 | the paired list is no longer than min(number of keys, number of definitions) |
| Pairing.PairDefinitions | main.py:367-376 | the pairing loop appends one entry per zipped pair that has a "：" and skips the others, in order |
| Pairing.PairedCount | main.py:367-376 | the number of entries equals the number of zipped definitions with a "：" |
| Pairing.PairedAllColon | main.py:367-376 | when every definition holds "：", the output is the zip, entry by entry |
| Pairing.PairedHoldColon | main.py:370-371 | every paired definition holds "：" |
| Pairing.PairedNoColon | main.py:372-376 | when no definition holds "：", nothing is paired |
| Pairing.PairedKeys | main.py:368-371 | the text before each entry's first "：" is one of the zipped keys |
| Quiz.ShrinkSize | main.py:71-72 | exactly min(questions, original size) keys survive, still distinct |
| Quiz.ShrinkOrdered | main.py:71-72 | the survivors are a sub-list of the original keys, in their original order |
| Quiz.WritePronunciationLines | main.py:84-86 | the lettered lines for the survivors, or IndexError past the 26th letter |
| Quiz.GeneratePronunciationQuiz | main.py:64-86 | the dict is shrunk in place by the removal loop, the survivors keep their readings, and the file holds the header with the point count, the URL and the lettered lines |
| Quiz.PronunciationLinesReadBack | main.py:84-86 | the quiz body reads back one line per survivor: line i starts with the i-th letter and names the i-th survivor |
| Quiz.MatchKeyFailure | main.py:100-102 | the only error of the inner matching loop is IndexError |
| Quiz.MatchKeyFailureStays | main.py:99-102 | once a matching definition without a meaning raises IndexError, that is the outcome |
| Quiz.MatchUpToFailureStays | main.py:98-102 | an IndexError for one key ends the outer loop with it |
| Quiz.MatchDefinitions | main.py:99-102 | the inner loop collects, in order, the definitions whose head is the key, or raises IndexError |
| Quiz.MatchQuestions | main.py:96-102 | both loops: the matches of each key in key order, or IndexError |
| Quiz.MatchKeySound | main.py:99-102 | every question of a key is that key with the meaning of a definition that reads key + "：" + meaning |
| Quiz.MatchSound | main.py:98-102 | every matched question is a dict key with the meaning of one of the definitions |
| Quiz.MatchKeyNoFailure | main.py:100-102 | when every definition holds "：", the inner loop raises nothing |
| Quiz.MatchNoFailure | main.py:98-102 | when every definition holds "：", the matching loops raise nothing |
| Quiz.AnswerKeyIsPermutation | main.py:105-110 | for every shuffle, the answer key has n letters, each among the first n, no letter twice, and every one of them |
| Quiz.PromptsShowShuffledHeaders | main.py:112-115 | prompt j shows the first word of the header that the shuffle put at position j |
| Quiz.AnswerKeyCorrect | main.py:105-138 | for every shuffle, the definition lettered `answer[j]` is the meaning of the header shown at prompt j |
| Quiz.PromptLines | main.py:131-132 | the prompts are written as "(1) word ", "(2) word ", … |
| Quiz.ChoiceLines | main.py:136-138 | the definitions are written lettered A, B, … in matching order, each followed by a blank line |
| Quiz.WriteArticle | main.py:125-127 | the paragraph loop writes each `<p>` text stripped and followed by a blank line |
| Quiz.WritePrompts | main.py:131-132 | the prompt loop writes the numbered prompt lines |
| Quiz.WriteChoices | main.py:136-138 | the choice loop writes the lettered definition lines |
| Quiz.GenerateDefinitionQuiz | main.py:89-145 | the definition quiz file and answer key, or the IndexError of matching or of more than 26 questions |
| Lister.NewsLinks | main.py:157-161 | the news links are exactly the hrefs that contain k1001 |
| Lister.Window | main.py:162 | `news_links[1:9]` holds at most 8 links, exactly those at positions 1 to 8 |
| Lister.WordFilter | main.py:165-169 | the kept links are exactly the candidates with a word count of at least 3; no duplicates appear |
| Lister.SurvivorsQualify | main.py:157-169 | an attempt's survivors are duplicate-free and are exactly the qualifying links |
| Lister.Looks | main.py:150-169 | an attempt fails to navigate exactly when the page cannot be loaded; otherwise its candidates are its survivors |
| Lister.SearchFound | main.py:150-174 | a returned link is a candidate of the attempt that chose it, after attempts that found nothing |
| Lister.SearchExhausted | main.py:150-183 | RuntimeError exactly when every remaining attempt loaded the page and found nothing |
| Lister.SearchConnection | main.py:151-154 | ConnectionError exactly when an attempt could not load the page after attempts that found nothing |
| Lister.NewsUrlFound | main.py:148-174 | `get_news_url` returns an article link from positions 1..8 with at least 3 words, chosen on the first attempt with a survivor |
| Lister.NewsUrlConnection | main.py:151-154 | `get_news_url` raises ConnectionError exactly when some attempt fails to navigate after fruitless attempts |
| Lister.NewsUrlLog | main.py:176-183 | the log holds the date and the message exactly when all 10 attempts were fruitless, and the call then fails |
| Lister.GetNewsUrl | main.py:148-183 | the attempt loop returns what the search relation gives and writes the log only on exhaustion |
| Definitions.MatchingIds | get_definition.py:50-51 | the ids found are exactly the element ids that start with RSHOK- (get_definition.py:14) |
| Definitions.NumberOfWordSpec | get_definition.py:41-53 | the count is the length of the id list, which is duplicate-free, exactly the matching ids, in order of first appearance |
| Definitions.NormaliseSpec | get_definition.py:79-81 | an entry is the box text with all whitespace removed and its first "1" replaced by the literal of line 81; without a "1" it is unchanged and free of whitespace |
| Definitions.Entries | get_definition.py:71-83 | one entry per id, in id order, each the normalised tooltip of that id |
| Definitions.TraceWithCallback | get_definition.py:83-86 | with a callback, each append is followed by one call with index i+1 and the constant total |
| Definitions.TraceWithoutCallback | get_definition.py:83-84 | without a callback, the loop only appends, one entry per id |
| Definitions.GetDefinitionList | get_definition.py:56-88 | the list uses the ids of `get_number_of_word` on the same page, and the events interleave appends and callbacks |
| Messaging.Requests | send_line_message.py:52-69 | one request exactly for "text" or "stamp": a push to the user id without broadcasting, a broadcast with it, carrying the text or the sticker ids; none otherwise |
| Messaging.Delivery | send_line_message.py:70-74 | success when nothing is sent or the platform accepts; LineBotApiError becomes PermissionError, a timeout exits with status 1 |
| Messaging.SendMessage | send_line_message.py:41-74 | `send_message` makes exactly the routed requests and returns the delivery outcome of the platform's answer |
| Messaging.QuizDelivery | main.py:227-236 | a quiz file without "---" raises IndexError before any request; otherwise the instruction is sent, then the questions only if the first was accepted |
| Messaging.PushQuiz | main.py:227-236 | `push_quiz` sends the stripped first two segments of the file, stopping at the first failure |
| Store.StripEmpty | main.py:192-193 | a line is written exactly when it is not all whitespace |
| Store.KeptLinesClean | main.py:191-194 | every line written is non-empty, without surrounding whitespace and without a line break |
| Store.TextLinesClean | main.py:190-194 | the same for the lines of all `<p>` elements |
| Store.WriteTextData | main.py:186-194 | `write_text_data` appends each kept line followed by a blank line, and nothing for a missing element |
| Store.SplitSegments | main.py:219-221 | the first three `---` segments of a file, and exactly when the second and the third exist |
| Store.NonBlankLines | check_sentiment.py:64 | the kept lines are exactly the non-blank lines of the input, in input order |
| Store.GetNewsArticleSpec | translate.py:31-39 | `get_news_article` drops the first line of the first segment; a first segment of one line gives "" |
| Store.HeadwordsSpec | translate.py:48 | each headword is the line's text before its first "：", the whole line when it has none |
| Store.GetNewsVocabulariesSpec | translate.py:42-50 | IndexError exactly when the file has fewer than three segments; otherwise one headword per line of the stripped third segment, in order |
| Store.GetVocabSpec | send_line_message.py:77-82 | IndexError exactly when the file has no "---"; otherwise the stripped second segment |
| Store.SaveQuizVocabSpec | main.py:214-224 | the record is the date, the URL, the stripped second and third segments and a "---" line, or IndexError when the third is missing |
| Store.QuizPartsSpec | main.py:227-233 | IndexError exactly when the quiz file has no "---"; otherwise its stripped first two segments |
| Store.ReadNewsArticleSpec | check_sentiment.py:59-68 | the article never holds "---", is a prefix of the kept lines after the first, and is all of them when they hold no "---" |
| Store.VocabBlockJoin | main.py:355-358 | the vocabulary block is a line break followed by the words joined by line breaks |
| Store.DefinitionBlockJoin | main.py:379-382 | the definition block is the definitions, each followed by a line break |
| Store.ArticleSegments | main.py:278-382 | the article file splits at "---" into exactly the three segments written: URL and text, vocabulary, definitions |
| Store.ArticleReadBack | translate.py:31-39 | `get_news_article` of the article file is the written text after the URL line |
| Store.VocabReadBack | send_line_message.py:77-82 | `get_vocab` of the article file is the formatted words, one per line |
| Store.DefinitionsReadBack | translate.py:42-50 | `get_news_vocabularies` of the article file is the headword of each written definition, in order |
| Store.SaveQuizVocabReadBack | main.py:214-224 | `save_quiz_vocab` of the article file records the words and the definitions exactly as written |
| Store.ArticleTextReadBack | check_sentiment.py:59-68 | `read_news_article` of the article file is the written text lines with their line breaks, without URL and blank lines |
| Store.ArticleFileReadable | main.py:355-382 | `get_vocab` and `save_quiz_vocab` never raise IndexError on a file main wrote |
| Gui.IncrementedShows | customtkinter_GUI.py:1185-1194 | incrementing shows one more than the entry's number, or 1 when it held none |
| Gui.DecrementedShows | customtkinter_GUI.py:1196-1206 | decrementing shows one less down to 1, leaves 0 and 1 unchanged, and turns a non-number into 1 |
| Gui.DecrementUndoesIncrement | customtkinter_GUI.py:1185-1206 | stepping down undoes stepping up for counts of at least 1; from 0 the entry ends at 1 |
| Gui.QuestionEntry.IncrementQuestions | customtkinter_GUI.py:1185-1194 | the entry's text is rewritten in place to the incremented text |
| Gui.QuestionEntry.DecrementQuestions | customtkinter_GUI.py:1196-1206 | the entry's text is rewritten in place to the decremented text |
| Gui.QuestionCountGuard | customtkinter_GUI.py:1117-1119 | the guard stops exactly "", "0" and entries whose first character sorts before '0' |
| Gui.QuestionCountStops | customtkinter_GUI.py:1117-1119 | "", "0", "-3" and " 5" are stopped before `int()` |
| Gui.QuestionCountLetters | customtkinter_GUI.py:1117-1159 | "abc" passes the guard and ends in the ValueError branch |
| Gui.QuestionCountDigits | customtkinter_GUI.py:1117-1136 | a digit string other than "0" passes, and its value, leading zeros included, is passed as `questions=` to the call of main |
| Gui.StepperPassesGuard | customtkinter_GUI.py:1185-1194 | whatever the stepper leaves passes the guard, and a count of at least 1 is passed as `questions=` to the call of main |
| Gui.QuestionCountLetsZeroThrough | customtkinter_GUI.py:1117-1136 | "00" passes the guard and 0 is passed as `questions=` to the call of main |
| Gui.QuestionCountLetsNegativeThrough | customtkinter_GUI.py:1117-1136 | an ideographic space before "-3" passes the guard and -3 is passed as `questions=` to the call of main |
| Gui.QuestionCountNegative | customtkinter_GUI.py:1117-1136 | any whitespace that sorts after '0', then a minus and digits, passes and is read as the negative number |
| Gui.PositiveQuestionCount | customtkinter_GUI.py:1117-1119 | the guard as intended only lets counts of 1 or more through |
| Gui.PositiveQuestionCountAgrees | customtkinter_GUI.py:1117-1136 | the intended guard agrees with the written one on every count of 1 or more, and stops every lower count |
| Gui.CalculateWindowSize | customtkinter_GUI.py:684-694 | the popup keeps its size and its centre lies on the main window's centre, exactly when both widths (heights) have the same parity and within one pixel otherwise |
| Gui.NextInitText | customtkinter_GUI.py:1339-1347 | 初期化中 → 初期化中・ → 初期化中・・ → 初期化中・・・ → 初期化中, and any other text → 初期化中 |
| Gui.InitTextCycles | customtkinter_GUI.py:1339-1347 | four steps bring every frame back to itself |
| Gui.Dots | customtkinter_GUI.py:1357-1359 | `"・" * n` is n dots |
| Gui.GeneratingText | customtkinter_GUI.py:1355-1360 | the progress text ends in dot_counter dots |
| Gui.AppFrame.constructor | customtkinter_GUI.py:888-894 | no index, no total, nothing scheduled, dot_counter 0 |
| Gui.AppFrame.BlinkProgressTextLabel | customtkinter_GUI.py:1329-1369 | at index 0 the init frame advances and is rescheduled in 500 ms; while generating, the progress text is shown, dot_counter cycles modulo 4 and is rescheduled in 2000 ms; otherwise the label is cleared |
| Gui.AppFrame.StartQuizGeneration | customtkinter_GUI.py:1100-1159 | the count reaching main is the guard's outcome; a stopped count shows the feedback and ends the thread; a good count starts the init animation; a ValueError goes to the error handler |
| Gui.AppFrame.UpdateProgressbar | customtkinter_GUI.py:1208-1213 | records the callback's index and total and blinks: the next initialisation frame for index 0, the generating text while the button is disabled, otherwise a cleared label; the feedback text and the button are left as they were |
| PyText.StripIsTrimmedSlice | main.py:192 | `strip()` removes exactly the surrounding whitespace |
| PyText.Find | main.py:100 | the first occurrence of the pattern, and none when it does not occur |
| PyText.SplitJoin | main.py:219 | joining the parts of `split(sep)` with sep gives back the text |
| PyText.SplitPartsFree | translate.py:35 | no part of a split holds the separator |
| PyText.SplitHasTwo | main.py:231 | a split has a second part exactly when the separator occurs |
| PyText.SplitOnceParts | main.py:371 | `split(sep, 1)` is the text before and after the first separator, or the whole text |
| PyText.JoinSplit | main.py:330 | splitting at a one-character separator undoes the join when no part holds it |
| PyText.ReplaceFirst | get_definition.py:81 | `replace(pat, repl, 1)` replaces only the first occurrence and leaves a text without one alone |
| PyText.ReplaceCharByNothing | main.py:346 | `replace(" ", "")` drops every space and nothing else |
| PyText.JoinWords | get_definition.py:80 | `"".join(s.split())` drops every whitespace character and keeps the rest in order |
| PyText.SplitLines | main.py:191 | no line of `splitlines()` holds a line break |
| PyText.ReadLinesJoin | check_sentiment.py:62 | `readlines()` loses nothing, and every line but the last ends with "\n" |
| PyText.ReadLinesOfLines | check_sentiment.py:62 | `readlines()` of "\n"-terminated lines joined together gives those lines back |
| PyText.DecimalRoundTrip | customtkinter_GUI.py:1192-1194 | `int(str(n)) == n` for natural numbers |
| PyText.ParseIntRoundTrip | customtkinter_GUI.py:1136 | `int(str(n)) == n` for every integer |
| PyText.ParseIntDigits | customtkinter_GUI.py:1136 | digits with whitespace around them are read as their value |
| PyText.ParseIntNegative | customtkinter_GUI.py:1136 | a minus and digits with whitespace around them are read as the negated value |
| PyText.LexLessEqZero | customtkinter_GUI.py:1117 | a string is `<= "0"` exactly when it is empty, is "0" or starts with a character below '0' |
| Pipeline.WriteArticleText | main.py:278-292 | the text written after the URL line: date, title and body, each through `write_text_data` |
| Pipeline.WriteVocabulary | main.py:355-358 | a "---" line, then "\n" before each formatted word |
| Pipeline.WriteDefinitions | main.py:379-382 | the second divider, then each paired definition on its own line |
| Pipeline.WriteArticleFile | main.py:277-382 | the dict built from the anchors, and the article file with the text, the formatted words and the definitions paired with the dict's keys |
| Pipeline.Deliver | main.py:404-415 | with push, the chosen quiz is pushed, then recorded with `save_quiz_vocab` and the log marked sent |
| Pipeline.DefinitionQuizOverKeptKeys | main.py:384-390 | the definition quiz gets the dict already shrunk by the pronunciation quiz; matching never raises, every question is a kept key with its paired meaning, and it fails only past 26 questions |
| Pipeline.SentOnlyAfterDelivery | main.py:393-415 | a run succeeds exactly when nothing needs pushing or the push is accepted; a quiz is recorded only after a successful push; the log gains the sent mark only then; requests are made only with push and a known quiz type |
| Pipeline.DeliveredFiles | main.py:393-415 | after both quizzes all four files exist, and the past-quiz record exactly when a known quiz type was pushed successfully |
| Pipeline.DeliveredRequests | main.py:404-411 | at most two text messages, only with push, pushed to the user or broadcast per the flag |
| Pipeline.RunRequests | main.py:250-415 | every request of a whole run is a text message, at most two, only with push, pushed or broadcast per the flag |
| Pipeline.RunFiles | main.py:250-415 | a successful run leaves the article, both quizzes and the log; it records the quiz exactly when it pushed a known quiz type; with push the log ends with 送信済み |
| Pipeline.GenerateAndDeliver | main.py:277-415 | once the page is parsed: the article file, both quizzes over the one shared dict, the log and the delivery, as the run relation says |
| Pipeline.Finish | main.py:384-415 | the definition quiz over the kept keys, then the delivery, as the run relation says |
| Pipeline.RunMain | main.py:250-415 | the whole of `main`, step by step, makes exactly the requests of the run relation and ends with its files and outcome |

## Left out

- Selenium, requests, chardet and BeautifulSoup are out: browser, network and a foreign parser. Pages are parameters, as link lists, element ids, tooltip texts, anchors with their rt texts and `<p>` texts.
- `random.choice` and `random.shuffle` are out: the model takes any chosen index and any permutation, and proves its properties for all of them. The distributions are not modelled.
- The order of `list(set(news_links[1:9]))` is arbitrary in Python. The model uses first-occurrence order; since the choice is arbitrary too, which links can be chosen does not change.
- Files are out: contents are strings, and opening, encodings and a partly written file after an exception are not modelled. A quiz file is modelled as written only when its generator succeeds.
- Dates, locale and strftime are out: the date strings are parameters. Only the weekday tables are modelled.
- Floats are out: the progress fraction, the bar and the sentiment percentages. The callback is stated over the integer index and total. The sentiment lines of the log are not modelled.
- The sentiment model, DeepL, OCR, text-to-speech, gspread and the CLI are foreign libraries and are out.
- The LINE SDK, `read_secrets` and the secrets-file bootstrap are out. The user id is a parameter and the platform's answer to each request is a function of its position.
- The printing of the title, the date and the answer key is console output and is out.
- Threading, the Tk widgets, settings persistence and popups are out. So are the `finally` block of `run_quiz_generation` and the call into `main` from the GUI. That call passes `emotion=` (customtkinter_GUI.py:1137), a keyword main.py:250-256 does not accept.
- The `sys.exit` of `get_number_of_word` on a connection error is a network failure and is out.
- PyText.ParseInt: Python's `int()` and `isdigit()` accept every Unicode decimal digit and `_` between digits. The model accepts ASCII digits only.
- Gui.IncrementedShows: `isdigit()` is restricted to ASCII digits, as for `int()` above.
- Messaging.Delivery: the text of the PermissionError and the printed timeout message are not kept, only the exception kinds.
- Pipeline.RunMain: a status other than 200 ends the run with `sys.exit` (SystemExit(1)) before any file is written. The article file's first `open(…, "w")` at main.py:278 has no explicit encoding, and the model does not distinguish that.
- Furigana.ReconcileSeveralTokens, Furigana.ReconcileSingleToken, Furigana.ReconcileBracketBound: a key or reading that holds `(` or `)` is not covered. The `replace` of main.py:341 could then match brackets the page itself supplied. Real surface forms and kana readings hold none.
- Definitions.NormaliseSpec: the replacement literal of get_definition.py:81 is kept as an opaque constant, the UTF-8 bytes of "：" read as Windows-1252.

## Findings

| source | as written | input that shows it | evidently intended | confidence | as-written member | corrected member |
|---|---|---|---|---|---|---|
| customtkinter_GUI.py:1117 | `if self.quiz_number_entry.get() <= "0"` compares strings, so only "", "0" and entries starting below '0' are stopped | "00" is passed as `questions=0` to the call of main; "　-3" (ideographic space, minus, 3) is passed as `questions=-3`. Once that call is accepted, 0 would empty the dict, and -3 would empty it and then fail in `random.choice` | reject every count below 1 with the same feedback | high, not executed | Gui.QuestionCountLetsNegativeThrough | Gui.PositiveQuestionCount |

The zero case is shown by Gui.QuestionCountLetsZeroThrough. The GUI model
keeps the guard as written (Gui.AppFrame.StartQuizGeneration), because no
other part of the model consumes the count the guard passes on.
