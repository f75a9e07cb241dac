/**
  One run of main (main.py:250-415): choose an article, scrape its
  dictionary definitions, write the article file, build the vocabulary
  dict, pair its keys with the definitions, write the pronunciation quiz
  (which shrinks the dict in place), write the definition quiz over the
  shrunk dict, write the log, and push the chosen quiz to LINE.

  Everything outside the program is part of the `World`: the home page
  looks, word counts and choices of get_news_url, the element ids and
  tooltips of each article page, the parsed article page requests.get
  returns (None for a status other than 200), the random choices of the
  quizzes, and the clock's date strings. The files are the texts main
  leaves behind.
*/
module Pipeline {
  import opened Wrappers
  import opened PyText
  import opened Collections
  import opened Vocabulary
  import opened Furigana
  import opened Pairing
  import opened Quiz
  import opened Lister
  import opened Definitions
  import opened Store
  import opened Messaging

  /** A <div class="article-main__body article-body">: the texts of the <p>
      elements below it, in document order. */
  datatype Div = Div(pTexts: seq<string>)

  /** The parsed article page: the date and the title (the texts of the <p>
      elements below them, None when the page has none), the body divs and
      the dictionary anchors. */
  datatype ArticlePage = ArticlePage(date: Option<seq<string>>, title: Option<seq<string>>,
                                     body: seq<Div>, anchors: seq<Anchor>)

  datatype World = World(
    pages: nat -> Page, counts: (nat, string) -> nat, pickUrl: nat -> nat,
    elementIds: string -> seq<string>, tooltip: string -> string,
    fetch: string -> Option<ArticlePage>,
    pickKey: nat -> nat, shuffle: nat -> seq<nat>,
    today: string, now: string)

  /** The arguments of main. */
  datatype Options = Options(quizType: string, push: bool, broadcasting: bool, questions: int, withCallback: bool)

  /** The files of a run (None: not written by it): the article file, the
      two quiz files, the log, and the record appended to the past quizzes. */
  datatype Files = Files(article: Option<string>, pronunciationQuiz: Option<string>,
                         definitionQuiz: Option<string>, log: Option<string>, pastQuiz: Option<string>)

  datatype Run = Run(outcome: Result<()>, files: Files, events: seq<Event>)

  const NoFiles: Files := Files(None, None, None, None, None)
  const DefinitionQuizType: string := "単語意味クイズ"
  const PronunciationQuizType: string := "読み方クイズ"
  const SentMark: string := "送信済み\n"

  /** What write_text_data appends for the body divs. */
  function BodyText(body: seq<Div>): string {
    if body == [] then "" else BodyText(body[..|body| - 1]) + TextData(Some(body[|body| - 1].pTexts))
  }

  /** What write_text_data appends for the date, the title and the body. */
  function ArticleText(page: ArticlePage): string {
    TextData(page.date) + TextData(page.title) + BodyText(page.body)
  }

  /** The <p> texts generate_definition_quiz writes, div by div. */
  function Paragraphs(body: seq<Div>): seq<string> {
    if body == [] then [] else Paragraphs(body[..|body| - 1]) + body[|body| - 1].pTexts
  }

  /** A log that ends with the sent mark. */
  predicate MarkedSent(log: string) {
    |log| >= |SentMark| && log[|log| - |SentMark|..] == SentMark
  }

  /** The first line of the log. */
  function LogText(now: string, url: string, answer: string): string {
    now + "\n" + url + "\n単語意味クイズ解答：" + answer + "\n"
  }

  /** The files and outcome once both quizzes are written: nothing more
      without push; otherwise the chosen quiz is pushed and, once it is
      delivered, recorded with save_quiz_vocab, and the log is marked sent. */
  function Delivered(o: Options, w: World, url: string, article: string, pron: string, def: DefinitionQuiz,
                     events: seq<Event>, userId: Option<string>, answer: nat -> Reply, n0: nat): (Run, seq<Request>)
  {
    var log := LogText(w.now, url, def.answer);
    var files := Files(Some(article), Some(pron), Some(def.text), Some(log), None);
    if !o.push then (Run(Success(()), files, events), [])
    else if o.quizType == DefinitionQuizType || o.quizType == PronunciationQuizType then
      var content := if o.quizType == DefinitionQuizType then def.text else pron;
      var (sent, requests) := QuizDelivery(content, o.broadcasting, userId, answer, n0);
      if sent.Failure? then (Run(sent, files, events), requests)
      else
        var record := SaveQuizVocab(article, w.today, url);
        if record.Failure? then (Run(Failure(record.error), files, events), requests)
        else (Run(Success(()), files.(log := Some(log + SentMark), pastQuiz := Some(record.value)), events), requests)
    else (Run(Success(()), files.(log := Some(log + SentMark)), events), [])
  }

  /** The run of main and the requests it makes, when the platform has
      received n0 requests before. */
  function MainRun(o: Options, w: World, userId: Option<string>, answer: nat -> Reply, n0: nat): (Run, seq<Request>)
    requires forall n: nat :: IsPermutation(w.shuffle(n), n)
  {
    var found := NewsUrl(w.pages, w.counts, w.pickUrl, w.today);
    if found.result.Failure? then (Run(Failure(found.result.error), NoFiles.(log := found.log), []), [])
    else
      var url := found.result.value;
      var ids := NumberOfWord(w.elementIds(url)).1;
      var definitionList := Entries(ids, w.tooltip, |ids|);
      var events := Trace(definitionList, o.withCallback, |ids|);
      match w.fetch(url)
      case None => (Run(Failure(SystemExit(1)), NoFiles, events), [])
      case Some(page) => Generated(o, w, url, page, definitionList, events, userId, answer, n0)
  }

  /** The rest of the run once the article page is parsed: the article
      file, the two quizzes, the log and the delivery. */
  function Generated(o: Options, w: World, url: string, page: ArticlePage, definitionList: seq<string>,
                     events: seq<Event>, userId: Option<string>, answer: nat -> Reply, n0: nat): (Run, seq<Request>)
    requires forall n: nat :: IsPermutation(w.shuffle(n), n)
  {
    var defs := Paired(Keys(page), definitionList);
    var kept := Kept(o, w, page);
    Completed(o, w, url, ArticleFile(url, ArticleText(page), Words(page), defs),
              PronunciationOutcome(url, w.today, kept, o.questions),
              DefinitionOutcome(w.today, Paragraphs(page.body), kept, defs, w.shuffle), events, userId, answer, n0)
  }

  /** The keys of the vocabulary dict: the anchor texts, first occurrence
      first. */
  function Keys(page: ArticlePage): seq<string> {
    Dedup(Texts(page.anchors))
  }

  /** The formatted vocabulary lines of the article file, one per key. */
  function Words(page: ArticlePage): seq<string> {
    DedupMembers(Texts(page.anchors));
    Formatted(Keys(page), ReadingMap(page.anchors), Reconcile)
  }

  /** The keys left in the dict once the pronunciation quiz has shrunk it. */
  function Kept(o: Options, w: World, page: ArticlePage): seq<string> {
    Shrink(Keys(page), if o.questions < 0 then 0 else o.questions, w.pickKey, 0)
  }

  /** The run once the article file is written, given the outcomes of the
      two quiz generators: each failure ends it with the files written so
      far (the definition quiz is not attempted when the pronunciation quiz
      fails); otherwise the delivery step follows. */
  function Completed(o: Options, w: World, url: string, article: string, pron: Result<string>,
                     def: Result<DefinitionQuiz>, events: seq<Event>, userId: Option<string>,
                     answer: nat -> Reply, n0: nat): (Run, seq<Request>)
  {
    if pron.Failure? then (Run(Failure(pron.error), NoFiles.(article := Some(article)), events), [])
    else if def.Failure? then
      (Run(Failure(def.error), NoFiles.(article := Some(article), pronunciationQuiz := Some(pron.value)), events), [])
    else Delivered(o, w, url, article, pron.value, def.value, events, userId, answer, n0)
  }

  // ---------------------------------------------------------------------
  // What a run guarantees

  /** The definition quiz is built over the keys the pronunciation quiz
      kept and the definitions paired with all the keys; since every paired
      definition holds a colon, matching never raises, every question is a
      kept key with the meaning of its paired definition, and the quiz only
      fails when more than 26 questions match. */
  lemma DefinitionQuizOverKeptKeys(today: string, paras: seq<string>, keys: seq<string>, kept: seq<string>,
                                   definitionList: seq<string>, shuffle: nat -> seq<nat>)
    requires forall n: nat :: IsPermutation(shuffle(n), n)
    ensures var defs := Paired(keys, definitionList);
      var m := MatchUpTo(kept, defs, |kept|);
      && m.Success?
      && (forall q :: q in m.value ==> q.header in kept && q.header + Colon + q.body in defs)
      && (DefinitionOutcome(today, paras, kept, defs, shuffle).Failure? <==> |m.value| > 26)
  {
    var defs := Paired(keys, definitionList);
    PairedHoldColon(keys, definitionList, Min(|keys|, |definitionList|));
    MatchNoFailure(kept, defs, |kept|);
    MatchSound(kept, defs, |kept|);
  }

  /** A run records the quiz in the past quizzes and marks the log as sent
      exactly when push is on and, for the two quiz types, both messages
      were accepted; save_quiz_vocab never fails on an article file, and no
      request is made without push or for another quiz type. */
  lemma SentOnlyAfterDelivery(o: Options, w: World, url: string, text: string, words: seq<string>, defs: seq<string>,
                              pron: string, def: DefinitionQuiz,
                              events: seq<Event>, userId: Option<string>, answer: nat -> Reply, n0: nat)
    ensures var (run, requests) := Delivered(o, w, url, ArticleFile(url, text, words, defs), pron, def, events, userId, answer, n0);
      var known := o.quizType == DefinitionQuizType || o.quizType == PronunciationQuizType;
      var content := if o.quizType == DefinitionQuizType then def.text else pron;
      && (run.outcome.Success? <==> !o.push || !known || QuizDelivery(content, o.broadcasting, userId, answer, n0).0.Success?)
      && (run.files.pastQuiz.Some? <==> o.push && known && run.outcome.Success?)
      && run.files.log == Some(if o.push && run.outcome.Success? then LogText(w.now, url, def.answer) + SentMark
                               else LogText(w.now, url, def.answer))
      && (requests != [] ==> o.push && known)
  {
    ArticleFileReadable(url, text, words, defs, w.today);
  }

  /** The delivery step keeps all four files, and records the quiz exactly
      when it succeeds in pushing one of the two quiz types. */
  lemma DeliveredFiles(o: Options, w: World, url: string, text: string, words: seq<string>, defs: seq<string>,
                       pron: string, def: DefinitionQuiz,
                       events: seq<Event>, userId: Option<string>, answer: nat -> Reply, n0: nat)
    ensures var run := Delivered(o, w, url, ArticleFile(url, text, words, defs), pron, def, events, userId, answer, n0).0;
      var known := o.quizType == DefinitionQuizType || o.quizType == PronunciationQuizType;
      && run.files.article.Some? && run.files.pronunciationQuiz.Some? && run.files.definitionQuiz.Some?
      && run.files.log.Some?
      && (run.files.pastQuiz.Some? <==> run.outcome.Success? && o.push && known)
  {
    ArticleFileReadable(url, text, words, defs, w.today);
  }

  /** The requests of the delivery step are at most two text messages,
      pushed to the user without broadcasting and broadcast with it. */
  lemma DeliveredRequests(o: Options, w: World, url: string, article: string, pron: string, def: DefinitionQuiz,
                          events: seq<Event>, userId: Option<string>, answer: nat -> Reply, n0: nat)
    ensures var requests := Delivered(o, w, url, article, pron, def, events, userId, answer, n0).1;
      && |requests| <= 2
      && (requests != [] ==> o.push)
      && (forall q :: q in requests ==> q.message.TextSendMessage? && (q.PushMessage? <==> !o.broadcasting))
      && (forall q :: q in requests && q.PushMessage? ==> q.to == userId)
  {
  }

  lemma CompletedRequests(o: Options, w: World, url: string, article: string, pron: Result<string>,
                          def: Result<DefinitionQuiz>, events: seq<Event>, userId: Option<string>,
                          answer: nat -> Reply, n0: nat)
    ensures var requests := Completed(o, w, url, article, pron, def, events, userId, answer, n0).1;
      && |requests| <= 2
      && (requests != [] ==> o.push)
      && (forall q :: q in requests ==> q.message.TextSendMessage? && (q.PushMessage? <==> !o.broadcasting))
      && (forall q :: q in requests && q.PushMessage? ==> q.to == userId)
  {
    if pron.Success? && def.Success? {
      DeliveredRequests(o, w, url, article, pron.value, def.value, events, userId, answer, n0);
    }
  }

  lemma CompletedFiles(o: Options, w: World, url: string, text: string, words: seq<string>, defs: seq<string>,
                       pron: Result<string>, def: Result<DefinitionQuiz>, events: seq<Event>,
                       userId: Option<string>, answer: nat -> Reply, n0: nat)
    ensures var run := Completed(o, w, url, ArticleFile(url, text, words, defs), pron, def, events, userId, answer, n0).0;
      var known := o.quizType == DefinitionQuizType || o.quizType == PronunciationQuizType;
      && (run.outcome.Success? ==>
            run.files.article.Some? && run.files.pronunciationQuiz.Some? && run.files.definitionQuiz.Some?
            && run.files.log.Some?)
      && (run.files.pastQuiz.Some? <==> run.outcome.Success? && o.push && known)
  {
    if pron.Success? && def.Success? {
      DeliveredFiles(o, w, url, text, words, defs, pron.value, def.value, events, userId, answer, n0);
    }
  }

  lemma CompletedLog(o: Options, w: World, url: string, text: string, words: seq<string>, defs: seq<string>,
                     pron: Result<string>, def: Result<DefinitionQuiz>, events: seq<Event>,
                     userId: Option<string>, answer: nat -> Reply, n0: nat)
    ensures var run := Completed(o, w, url, ArticleFile(url, text, words, defs), pron, def, events, userId, answer, n0).0;
      run.outcome.Success? ==> run.files.log.Some? && (o.push ==> MarkedSent(run.files.log.value))
  {
    if pron.Success? && def.Success? {
      SentOnlyAfterDelivery(o, w, url, text, words, defs, pron.value, def.value, events, userId, answer, n0);
    }
  }

  lemma GeneratedRequests(o: Options, w: World, url: string, page: ArticlePage, definitionList: seq<string>,
                          events: seq<Event>, userId: Option<string>, answer: nat -> Reply, n0: nat)
    requires forall n: nat :: IsPermutation(w.shuffle(n), n)
    ensures var requests := Generated(o, w, url, page, definitionList, events, userId, answer, n0).1;
      && |requests| <= 2
      && (requests != [] ==> o.push)
      && (forall q :: q in requests ==> q.message.TextSendMessage? && (q.PushMessage? <==> !o.broadcasting))
      && (forall q :: q in requests && q.PushMessage? ==> q.to == userId)
  {
    var defs := Paired(Keys(page), definitionList);
    var kept := Kept(o, w, page);
    CompletedRequests(o, w, url, ArticleFile(url, ArticleText(page), Words(page), defs),
                      PronunciationOutcome(url, w.today, kept, o.questions),
                      DefinitionOutcome(w.today, Paragraphs(page.body), kept, defs, w.shuffle), events, userId, answer, n0);
  }

  /** Every request a run makes is a text message, pushed to the user from
      the secrets file without broadcasting and broadcast with it. */
  lemma RunRequests(o: Options, w: World, userId: Option<string>, answer: nat -> Reply, n0: nat)
    requires forall n: nat :: IsPermutation(w.shuffle(n), n)
    ensures var requests := MainRun(o, w, userId, answer, n0).1;
      && |requests| <= 2
      && (requests != [] ==> o.push)
      && (forall q :: q in requests ==> q.message.TextSendMessage? && (q.PushMessage? <==> !o.broadcasting))
      && (forall q :: q in requests && q.PushMessage? ==> q.to == userId)
  {
    var found := NewsUrl(w.pages, w.counts, w.pickUrl, w.today);
    if found.result.Success? {
      var url := found.result.value;
      var ids := NumberOfWord(w.elementIds(url)).1;
      var definitionList := Entries(ids, w.tooltip, |ids|);
      var events := Trace(definitionList, o.withCallback, |ids|);
      if w.fetch(url).Some? {
        GeneratedRequests(o, w, url, w.fetch(url).value, definitionList, events, userId, answer, n0);
      }
    }
  }

  /** A successful run leaves all four files behind; it records the quiz in
      the past quizzes exactly when it pushed one of the two quiz types, and
      when push is on its log ends with the sent mark. */
  lemma RunFiles(o: Options, w: World, userId: Option<string>, answer: nat -> Reply, n0: nat)
    requires forall n: nat :: IsPermutation(w.shuffle(n), n)
    ensures var run := MainRun(o, w, userId, answer, n0).0;
      var known := o.quizType == DefinitionQuizType || o.quizType == PronunciationQuizType;
      && (run.outcome.Success? ==>
            run.files.article.Some? && run.files.pronunciationQuiz.Some? && run.files.definitionQuiz.Some?
            && run.files.log.Some?)
      && (run.files.pastQuiz.Some? <==> run.outcome.Success? && o.push && known)
      && (run.outcome.Success? && o.push ==> MarkedSent(run.files.log.value))
  {
    var found := NewsUrl(w.pages, w.counts, w.pickUrl, w.today);
    if found.result.Success? {
      var url := found.result.value;
      var ids := NumberOfWord(w.elementIds(url)).1;
      var definitionList := Entries(ids, w.tooltip, |ids|);
      var events := Trace(definitionList, o.withCallback, |ids|);
      if w.fetch(url).Some? {
        var page := w.fetch(url).value;
        var defs := Paired(Keys(page), definitionList);
        var words := Words(page);
        var kept := Kept(o, w, page);
        var pron := PronunciationOutcome(url, w.today, kept, o.questions);
        var def := DefinitionOutcome(w.today, Paragraphs(page.body), kept, defs, w.shuffle);
        CompletedFiles(o, w, url, ArticleText(page), words, defs, pron, def, events, userId, answer, n0);
        CompletedLog(o, w, url, ArticleText(page), words, defs, pron, def, events, userId, answer, n0);
      }
    }
  }

  // ---------------------------------------------------------------------
  // The run itself

  /** The text main.py:278-292 writes after the URL line. */
  method WriteArticleText(page: ArticlePage) returns (text: string)
    ensures text == ArticleText(page)
  {
    var date := WriteTextData(page.date);
    var title := WriteTextData(page.title);
    var body := "";
    var i := 0;
    while i < |page.body|
      invariant 0 <= i <= |page.body|
      invariant body == BodyText(page.body[..i])
    {
      var written := WriteTextData(Some(page.body[i].pTexts));
      BodyTextSnoc(page.body, i);
      body := body + written;
      i := i + 1;
    }
    assert page.body[..i] == page.body;
    text := date + title + body;
  }

  lemma BodyTextSnoc(body: seq<Div>, i: nat)
    requires i < |body|
    ensures BodyText(body[..i + 1]) == BodyText(body[..i]) + TextData(Some(body[i].pTexts))
  {
    assert body[..i + 1][..i] == body[..i];
  }

  /** The vocabulary lines of main.py:355-358. */
  method WriteVocabulary(words: seq<string>) returns (text: string)
    ensures text == "---\n" + VocabBlock(words)
  {
    text := "---\n";
    var i := 0;
    while i < |words|
      invariant 0 <= i <= |words|
      invariant text == "---\n" + VocabBlock(words[..i])
    {
      assert words[..i + 1][..i] == words[..i];
      text := text + "\n" + words[i];
      i := i + 1;
    }
    assert words[..i] == words;
  }

  /** The definition lines of main.py:379-382. */
  method WriteDefinitions(defs: seq<string>) returns (text: string)
    ensures text == "\n\n---\n\n" + DefinitionBlock(defs)
  {
    text := "\n\n---\n\n";
    var i := 0;
    while i < |defs|
      invariant 0 <= i <= |defs|
      invariant text == "\n\n---\n\n" + DefinitionBlock(defs[..i])
    {
      assert defs[..i + 1][..i] == defs[..i];
      text := text + defs[i] + "\n";
      i := i + 1;
    }
    assert defs[..i] == defs;
  }

  /** The article file of main.py:277-382 and the vocabulary dict built on
      the way: the URL, the page text, the formatted words and the
      definitions paired with the dict's keys. */
  method WriteArticleFile(url: string, page: ArticlePage, definitionList: seq<string>)
    returns (article: string, d: VocabularyDict)
    ensures fresh(d) && d.Valid()
    ensures d.keys == Keys(page) && d.values == ReadingMap(page.anchors)
    ensures article == ArticleFile(url, ArticleText(page), Words(page), Paired(d.keys, definitionList))
  {
    var text := WriteArticleText(page);
    d := BuildVocabulary(page.anchors);
    var words := FormatWordList(d);
    var vocab := WriteVocabulary(words);
    var defs := PairDefinitions(d.keys, definitionList);
    var definitions := WriteDefinitions(defs);
    article := url + "\n\n" + text + vocab + definitions;
    ArticleFileConcat(url, text, VocabBlock(words), DefinitionBlock(defs));
  }


  /** The file main writes, piece by piece, is the article file; stated on
      plain strings, where the solver proves it without the method's heap. */
  lemma ArticleFileConcat(url: string, text: string, v: string, d: string)
    ensures url + "\n\n" + text + ("---\n" + v) + ("\n\n---\n\n" + d)
         == url + "\n\n" + text + "---\n" + v + "\n\n---\n\n" + d
  {
  }

  /** main.py:400-412: push the chosen quiz, record it and mark the log. */
  method Deliver(o: Options, w: World, url: string, article: string, pron: string, def: DefinitionQuiz,
                 events: seq<Event>, userId: Option<string>, api: Channel) returns (run: Run)
    modifies api
    ensures var (expected, requests) := Delivered(o, w, url, article, pron, def, events, userId, api.answer, |old(api.requests)|);
      run == expected && api.requests == old(api.requests) + requests
  {
    var log := LogText(w.now, url, def.answer);
    var files := Files(Some(article), Some(pron), Some(def.text), Some(log), None);
    if o.push {
      if o.quizType == DefinitionQuizType || o.quizType == PronunciationQuizType {
        var content := if o.quizType == DefinitionQuizType then def.text else pron;
        var sent := PushQuiz(api, userId, content, o.broadcasting);
        if sent.Failure? {
          return Run(sent, files, events);
        }
        var record := SaveQuizVocab(article, w.today, url);
        if record.Failure? {
          return Run(Failure(record.error), files, events);
        }
        files := files.(pastQuiz := Some(record.value));
      }
      files := files.(log := Some(log + SentMark));
    }
    run := Run(Success(()), files, events);
  }

  /** main: the whole run, step by step, with the LINE platform as `api`. */
  method RunMain(o: Options, w: World, userId: Option<string>, api: Channel) returns (run: Run)
    requires forall n: nat :: IsPermutation(w.shuffle(n), n)
    modifies api
    ensures var (expected, requests) := MainRun(o, w, userId, api.answer, |old(api.requests)|);
      run == expected && api.requests == old(api.requests) + requests
  {
    var found := GetNewsUrl(w.pages, w.counts, w.pickUrl, w.today);
    if found.result.Failure? {
      return Run(Failure(found.result.error), NoFiles.(log := found.log), []);
    }
    var url := found.result.value;
    var definitionList, events := GetDefinitionList(w.elementIds(url), w.tooltip, o.withCallback);
    var response := w.fetch(url);
    if response.None? {
      return Run(Failure(SystemExit(1)), NoFiles, events);
    }
    run := GenerateAndDeliver(o, w, url, response.value, definitionList, events, userId, api);
  }

  /** main.py:277-412, once the article page is parsed: the article file,
      the two quizzes over the shared dict, the log and the delivery. */
  method GenerateAndDeliver(o: Options, w: World, url: string, page: ArticlePage, definitionList: seq<string>,
                            events: seq<Event>, userId: Option<string>, api: Channel) returns (run: Run)
    requires forall n: nat :: IsPermutation(w.shuffle(n), n)
    modifies api
    ensures var (expected, requests) := Generated(o, w, url, page, definitionList, events, userId, api.answer, |old(api.requests)|);
      run == expected && api.requests == old(api.requests) + requests
  {
    ghost var n0 := |api.requests|;
    var article, d := WriteArticleFile(url, page, definitionList);
    var defs := Paired(d.keys, definitionList);
    var pron := GeneratePronunciationQuiz(url, w.today, d, o.questions, w.pickKey);
    assert d.keys == Kept(o, w, page);
    run := Finish(o, w, url, article, pron, Paragraphs(page.body), d.keys, defs, events, userId, api);
  }

  /** main.py:384-412, once the pronunciation quiz is written: the
      definition quiz over the kept keys, then the delivery. */
  method Finish(o: Options, w: World, url: string, article: string, pron: Result<string>, paras: seq<string>,
                kept: seq<string>, defs: seq<string>, events: seq<Event>, userId: Option<string>, api: Channel)
    returns (run: Run)
    requires forall n: nat :: IsPermutation(w.shuffle(n), n)
    modifies api
    ensures var (expected, requests) :=
        Completed(o, w, url, article, pron, DefinitionOutcome(w.today, paras, kept, defs, w.shuffle),
                  events, userId, api.answer, |old(api.requests)|);
      run == expected && api.requests == old(api.requests) + requests
  {
    if pron.Failure? {
      return Run(Failure(pron.error), NoFiles.(article := Some(article)), events);
    }
    var def := GenerateDefinitionQuiz(w.today, paras, kept, defs, w.shuffle);
    if def.Failure? {
      return Run(Failure(def.error), NoFiles.(article := Some(article), pronunciationQuiz := Some(pron.value)), events);
    }
    run := Deliver(o, w, url, article, pron.value, def.value, events, userId, api);
  }
}
