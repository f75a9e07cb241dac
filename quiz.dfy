/**
  The two quizzes (main.py:64-145).  The pronunciation quiz shrinks the
  vocabulary dict in place by random removals and letters the survivors;
  the definition quiz matches keys to definitions, tags each headword with
  its letter, shuffles the headwords and reads the answer key off the tags.
  random.choice is an index oracle and random.shuffle an arbitrary
  permutation; the day's date is a parameter.
*/
module Quiz {
  import opened Wrappers
  import opened PyText
  import opened Collections
  import opened Vocabulary
  import opened Pairing

  // ---------------------------------------------------------------------
  // Pronunciation quiz

  /** The dict's keys after the removal loop of main.py:71-72, for a target
      of q questions: while too many keys remain, the key at the chosen
      index of list(keys) is popped. */
  function Shrink(keys: seq<string>, q: nat, pick: nat -> nat, step: nat): seq<string>
    decreases |keys|
  {
    if |keys| <= q then keys
    else
      var k := keys[pick(step) % |keys|];
      WithoutShorter(keys, k);
      Shrink(Without(keys, k), q, pick, step + 1)
  }

  /** Exactly min(q, len) keys survive, still distinct. */
  lemma {:induction false} ShrinkSize(keys: seq<string>, q: nat, pick: nat -> nat, step: nat)
    requires Distinct(keys)
    ensures |Shrink(keys, q, pick, step)| == if |keys| <= q then |keys| else q
    ensures Distinct(Shrink(keys, q, pick, step))
    decreases |keys|
  {
    if |keys| > q {
      var k := keys[pick(step) % |keys|];
      WithoutLength(keys, k);
      ShrinkSize(Without(keys, k), q, pick, step + 1);
    }
  }

  /** The survivors are a sub-list of the original keys in their original order. */
  lemma {:induction false} ShrinkOrdered(keys: seq<string>, q: nat, pick: nat -> nat, step: nat)
    ensures OrderedSubset(Shrink(keys, q, pick, step), keys)
    decreases |keys|
  {
    if |keys| <= q {
      KeepIsOrderedSubset(keys, Elements(keys));
      KeepIrrelevant(keys, Elements(keys), Elements(Keep(keys, Elements(keys))));
      KeepAll(keys);
    } else {
      var k := keys[pick(step) % |keys|];
      var w := Without(keys, k);
      WithoutShorter(keys, k);
      ShrinkOrdered(w, q, pick, step + 1);
      var r := Shrink(w, q, pick, step + 1);
      var m := Elements(r);
      assert r == Keep(w, m);
      WithoutIsKeep(keys, k);
      KeepKeep(keys, Elements(keys) - {k}, m);
      KeepIrrelevant(keys, (Elements(keys) - {k}) * m, m);
    }
  }

  /** Keeping all of a list's own values keeps the list. */
  lemma {:induction false} KeepAll(s: seq<string>)
    ensures Keep(s, Elements(s)) == s
  {
    if s != [] {
      KeepIrrelevant(s[1..], Elements(s), Elements(s[1..]));
      KeepAll(s[1..]);
    }
  }

  /** Line i of the quiz body: "A. word: ". */
  function PronunciationLine(i: nat, word: string): string
    requires i < 26
  {
    [Letter(i)] + ". " + word + ": \n"
  }

  /** The lettered lines for the survivors, in dict order. */
  function PronunciationLines(keys: seq<string>): (lines: seq<string>)
    requires |keys| <= 26
    ensures |lines| == |keys|
  {
    seq(|keys|, i requires 0 <= i < |keys| => PronunciationLine(i, keys[i]))
  }

  lemma PronunciationLinesSnoc(keys: seq<string>, i: nat)
    requires i < |keys| && i < 26
    ensures PronunciationLines(keys[..i + 1]) == PronunciationLines(keys[..i]) + [PronunciationLine(i, keys[i])]
  {
    var a := PronunciationLines(keys[..i + 1]);
    var b := PronunciationLines(keys[..i]) + [PronunciationLine(i, keys[i])];
    assert |a| == |b|;
    forall j | 0 <= j < |a|
      ensures a[j] == b[j]
    {
      assert keys[..i + 1][j] == keys[j];
      if j < i {
        assert keys[..i][j] == keys[j];
      }
    }
  }

  /** The header of the pronunciation quiz file, with its point count. */
  function PronunciationHeader(today: string, points: nat): string {
    "【語彙力クイズ】" + today + "\n\n"
    + "今日読んだNHK EASYニュース\U{1F4F0}を復習して、辞書を見ずにスマホで単語・漢字の読み方を書いてください。\n"
    + "カタカナの場合は日本語もしくは英語で意味を書いてください。(" + Decimal(points) + "ポイント)\n\n"
  }

  /** The whole pronunciation quiz file for the surviving keys. */
  function PronunciationText(url: string, today: string, keys: seq<string>): string
    requires |keys| <= 26
  {
    PronunciationHeader(today, |keys|) + url + "\n\n" + "---\n\n" + "学生番号: \n\n"
    + Join(PronunciationLines(keys), "")
  }

  /** What generate_pronunciation_quiz produces for the keys left after the
      removal loop: a negative target empties the dict and then fails in
      random.choice on the empty list; a 27th line fails in
      ascii_uppercase[26]. */
  function PronunciationOutcome(url: string, today: string, keys: seq<string>, questions: int): Result<string> {
    if questions < 0 || |keys| > 26 then Failure(IndexError)
    else Success(PronunciationText(url, today, keys))
  }

  /** The writing loop of main.py:84-86. */
  method WritePronunciationLines(keys: seq<string>) returns (r: Result<string>)
    ensures |keys| <= 26 ==> r == Success(Join(PronunciationLines(keys), ""))
    ensures |keys| > 26 ==> r == Failure(IndexError)
  {
    var text := "";
    var i := 0;
    while i < |keys|
      invariant 0 <= i <= |keys| && i <= 26
      invariant text == Join(PronunciationLines(keys[..i]), "")
    {
      if i >= 26 {
        return Failure(IndexError);
      }
      var line := PronunciationLine(i, keys[i]);
      ConcatSnoc(PronunciationLines(keys[..i]), line);
      PronunciationLinesSnoc(keys, i);
      text := text + line;
      i := i + 1;
    }
    assert keys[..i] == keys;
    return Success(text);
  }

  /** generate_pronunciation_quiz (main.py:64-86): shrinks the dict in place
      and returns the text written to the quiz file. */
  method GeneratePronunciationQuiz(url: string, today: string, d: VocabularyDict, questions: int, pick: nat -> nat)
    returns (r: Result<string>)
    requires d.Valid()
    modifies d
    ensures d.Valid()
    ensures d.keys == Shrink(old(d.keys), if questions < 0 then 0 else questions, pick, 0)
    ensures forall k :: k in d.values ==> k in old(d.values) && d.values[k] == old(d.values)[k]
    ensures r == PronunciationOutcome(url, today, d.keys, questions)
  {
    ghost var q: nat := if questions < 0 then 0 else questions;
    var step := 0;
    while d.Size() > questions
      invariant d.Valid()
      invariant Shrink(d.keys, q, pick, step) == Shrink(old(d.keys), q, pick, 0)
      invariant forall k :: k in d.values ==> k in old(d.values) && d.values[k] == old(d.values)[k]
      decreases |d.keys|
    {
      var keys := d.keys;
      if |keys| == 0 {
        return Failure(IndexError);
      }
      var k := keys[pick(step) % |keys|];
      var _ := d.Pop(k);
      step := step + 1;
    }
    var lines := WritePronunciationLines(d.keys);
    if lines.Failure? {
      return Failure(IndexError);
    }
    r := Success(PronunciationHeader(today, d.Size()) + url + "\n\n" + "---\n\n" + "学生番号: \n\n" + lines.value);
  }

  /** The quiz body reads back line by line: line i is lettered with the
      i-th uppercase letter and names the i-th survivor. */
  lemma PronunciationLinesReadBack(keys: seq<string>)
    requires |keys| <= 26
    requires forall i :: 0 <= i < |keys| ==> '\n' !in keys[i]
    ensures ReadLines(Join(PronunciationLines(keys), "")) == PronunciationLines(keys)
    ensures forall i :: 0 <= i < |keys| ==>
      PronunciationLines(keys)[i][0] == Letter(i) && PronunciationLines(keys)[i][3..|keys[i]| + 3] == keys[i]
  {
    var lines := PronunciationLines(keys);
    forall k | 0 <= k < |lines|
      ensures lines[k] != [] && lines[k][|lines[k]| - 1] == '\n' && '\n' !in lines[k][..|lines[k]| - 1]
    {
      assert lines[k][..|lines[k]| - 1] == [Letter(k)] + ". " + keys[k] + ": ";
    }
    ReadLinesOfLines(lines);
  }

  // ---------------------------------------------------------------------
  // Definition quiz

  /** A matched question: the headword and the meaning after its colon. */
  datatype Question = Question(header: string, body: string)

  /** The inner loop of main.py:99-102 for one key over the first n
      definitions.  split("：", 1)[1] of a definition that equals the key
      but has no colon raises IndexError. */
  function MatchKey(key: string, defs: seq<string>, n: nat): Result<seq<Question>>
    requires n <= |defs|
  {
    if n == 0 then Success([])
    else
      var prev := MatchKey(key, defs, n - 1);
      if prev.Failure? then prev
      else
        var parts := SplitOnce(defs[n - 1], Colon);
        if key != parts[0] then prev
        else if |parts| < 2 then Failure(IndexError)
        else Success(prev.value + [Question(parts[0], parts[1])])
  }

  /** Both loops of main.py:98-102 over the first m keys. */
  function MatchUpTo(keys: seq<string>, defs: seq<string>, m: nat): Result<seq<Question>>
    requires m <= |keys|
  {
    if m == 0 then Success([])
    else
      var prev := MatchUpTo(keys, defs, m - 1);
      if prev.Failure? then prev
      else
        var more := MatchKey(keys[m - 1], defs, |defs|);
        if more.Failure? then more else Success(prev.value + more.value)
  }

  /** The only error of the matching loops is IndexError, and once raised it
      is the outcome. */
  lemma {:induction false} MatchKeyFailureStays(key: string, defs: seq<string>, n: nat, n': nat)
    requires n <= n' <= |defs|
    requires MatchKey(key, defs, n).Failure?
    ensures MatchKey(key, defs, n') == Failure(IndexError)
    decreases n' - n
  {
    if n < n' {
      MatchKeyFailureStays(key, defs, n, n' - 1);
    } else {
      MatchKeyFailure(key, defs, n);
    }
  }

  lemma {:induction false} MatchKeyFailure(key: string, defs: seq<string>, n: nat)
    requires n <= |defs|
    ensures MatchKey(key, defs, n).Failure? ==> MatchKey(key, defs, n) == Failure(IndexError)
  {
    if n > 0 {
      MatchKeyFailure(key, defs, n - 1);
    }
  }

  lemma {:induction false} MatchUpToFailureStays(keys: seq<string>, defs: seq<string>, m: nat, m': nat)
    requires m <= m' <= |keys|
    requires MatchUpTo(keys, defs, m) == Failure(IndexError)
    ensures MatchUpTo(keys, defs, m') == Failure(IndexError)
    decreases m' - m
  {
    if m < m' {
      MatchUpToFailureStays(keys, defs, m, m' - 1);
    }
  }

  /** One more definition for the inner loop. */
  lemma MatchKeyNext(key: string, defs: seq<string>, n: nat)
    requires n < |defs| && MatchKey(key, defs, n).Success?
    ensures var parts := SplitOnce(defs[n], Colon);
      MatchKey(key, defs, n + 1) ==
        if key != parts[0] then MatchKey(key, defs, n)
        else if |parts| < 2 then Failure(IndexError)
        else Success(MatchKey(key, defs, n).value + [Question(parts[0], parts[1])])
  {
  }

  /** One more key for the outer loop. */
  lemma MatchUpToNext(keys: seq<string>, defs: seq<string>, m: nat)
    requires m < |keys| && MatchUpTo(keys, defs, m).Success? && MatchKey(keys[m], defs, |defs|).Success?
    ensures MatchUpTo(keys, defs, m + 1) == Success(MatchUpTo(keys, defs, m).value + MatchKey(keys[m], defs, |defs|).value)
  {
  }

  /** A key whose matching raises IndexError ends the outer loop with it. */
  lemma MatchUpToFails(keys: seq<string>, defs: seq<string>, m: nat)
    requires m < |keys| && MatchUpTo(keys, defs, m).Success? && MatchKey(keys[m], defs, |defs|) == Failure(IndexError)
    ensures MatchUpTo(keys, defs, m + 1) == Failure(IndexError)
  {
  }

  /** The inner loop of main.py:99-102: the definitions that belong to key,
      in order, or the IndexError of one without a meaning. */
  method MatchDefinitions(key: string, defs: seq<string>) returns (r: Result<seq<Question>>)
    ensures r == MatchKey(key, defs, |defs|)
  {
    var found: seq<Question> := [];
    var n := 0;
    while n < |defs|
      invariant 0 <= n <= |defs|
      invariant MatchKey(key, defs, n) == Success(found)
    {
      var parts := SplitOnce(defs[n], Colon);
      MatchKeyNext(key, defs, n);
      if key == parts[0] {
        if |parts| < 2 {
          MatchKeyFailureStays(key, defs, n + 1, |defs|);
          return Failure(IndexError);
        }
        found := found + [Question(parts[0], parts[1])];
      }
      n := n + 1;
    }
    r := Success(found);
  }

  /** The matching loops of main.py:96-102 as written. */
  method MatchQuestions(keys: seq<string>, defs: seq<string>) returns (r: Result<seq<Question>>)
    ensures r == MatchUpTo(keys, defs, |keys|)
  {
    var qs: seq<Question> := [];
    var m := 0;
    while m < |keys|
      invariant 0 <= m <= |keys|
      invariant MatchUpTo(keys, defs, m) == Success(qs)
    {
      var more := MatchDefinitions(keys[m], defs);
      if more.Failure? {
        MatchKeyFailure(keys[m], defs, |defs|);
        MatchUpToFails(keys, defs, m);
        MatchUpToFailureStays(keys, defs, m + 1, |keys|);
        return Failure(IndexError);
      }
      MatchUpToNext(keys, defs, m);
      qs := qs + more.value;
      m := m + 1;
    }
    r := Success(qs);
  }

  /** Every matched question is a key of the dict together with the meaning
      of a definition that reads key + "：" + meaning. */
  lemma {:induction false} MatchKeySound(key: string, defs: seq<string>, n: nat)
    requires n <= |defs|
    requires MatchKey(key, defs, n).Success?
    ensures forall q :: q in MatchKey(key, defs, n).value ==>
      q.header == key && q.header + Colon + q.body in defs
  {
    if n > 0 {
      MatchKeySound(key, defs, n - 1);
      var parts := SplitOnce(defs[n - 1], Colon);
      if key == parts[0] && |parts| == 2 {
        SplitOnceParts(defs[n - 1], Colon);
        assert parts[0] + Colon + parts[1] == defs[n - 1];
      }
    }
  }

  lemma {:induction false} MatchSound(keys: seq<string>, defs: seq<string>, m: nat)
    requires m <= |keys|
    requires MatchUpTo(keys, defs, m).Success?
    ensures forall q :: q in MatchUpTo(keys, defs, m).value ==>
      q.header in keys && q.header + Colon + q.body in defs
  {
    if m > 0 {
      MatchSound(keys, defs, m - 1);
      MatchKeySound(keys[m - 1], defs, |defs|);
    }
  }

  /** When every definition holds a colon, as every paired definition does,
      the matching loops raise nothing. */
  lemma {:induction false} MatchKeyNoFailure(key: string, defs: seq<string>, n: nat)
    requires n <= |defs|
    requires forall i :: 0 <= i < |defs| ==> Contains(defs[i], Colon)
    ensures MatchKey(key, defs, n).Success?
  {
    if n > 0 {
      MatchKeyNoFailure(key, defs, n - 1);
    }
  }

  lemma {:induction false} MatchNoFailure(keys: seq<string>, defs: seq<string>, m: nat)
    requires m <= |keys|
    requires forall i :: 0 <= i < |defs| ==> Contains(defs[i], Colon)
    ensures MatchUpTo(keys, defs, m).Success?
  {
    if m > 0 {
      MatchNoFailure(keys, defs, m - 1);
      MatchKeyNoFailure(keys[m - 1], defs, |defs|);
    }
  }

  /** Each headword with its letter before the shuffle: header + "A", ... */
  function Tagged(qs: seq<Question>): (t: seq<string>)
    requires |qs| <= 26
    ensures |t| == |qs|
  {
    seq(|qs|, i requires 0 <= i < |qs| => qs[i].header + [Letter(i)])
  }

  /** The list after random.shuffle, the permutation saying which old
      position lands at each new one. */
  function Shuffled(xs: seq<string>, perm: seq<nat>): (r: seq<string>)
    requires IsPermutation(perm, |xs|)
    ensures |r| == |xs|
  {
    seq(|xs|, j requires 0 <= j < |xs| => xs[perm[j]])
  }

  /** "".join(item[-1] for item in shuffled). */
  function AnswerKey(shuffled: seq<string>): (a: string)
    requires forall j :: 0 <= j < |shuffled| ==> shuffled[j] != []
    ensures |a| == |shuffled|
  {
    seq(|shuffled|, j requires 0 <= j < |shuffled| => shuffled[j][|shuffled[j]| - 1])
  }

  /** word.split(" ")[0] of item[:-1] + " " + letter: what each prompt shows. */
  function Prompts(shuffled: seq<string>): (p: seq<string>)
    requires |shuffled| <= 26
    requires forall j :: 0 <= j < |shuffled| ==> shuffled[j] != []
    ensures |p| == |shuffled|
  {
    seq(|shuffled|, j requires 0 <= j < |shuffled| =>
      Split(shuffled[j][..|shuffled[j]| - 1] + " " + [Letter(j)], " ")[0])
  }

  /** The meanings, in matching order. */
  function Bodies(qs: seq<Question>): (b: seq<string>)
    ensures |b| == |qs|
  {
    seq(|qs|, i requires 0 <= i < |qs| => qs[i].body)
  }

  /** The answer key is a bijection onto the first n letters: it has n
      letters, each below the n-th, no letter twice, and every one of them. */
  lemma AnswerKeyIsPermutation(qs: seq<Question>, perm: seq<nat>)
    requires |qs| <= 26 && IsPermutation(perm, |qs|)
    ensures var a := AnswerKey(Shuffled(Tagged(qs), perm));
      && |a| == |qs|
      && (forall j :: 0 <= j < |a| ==> a[j] == Letter(perm[j]) && 'A' <= a[j] <= 'Z' && LetterIndex(a[j]) < |qs|)
      && (forall j, k :: 0 <= j < k < |a| ==> a[j] != a[k])
      && (forall i :: 0 <= i < |qs| ==> Letter(i) in a)
  {
    var a := AnswerKey(Shuffled(Tagged(qs), perm));
    forall j | 0 <= j < |a|
      ensures a[j] == Letter(perm[j])
    {
      var item := Tagged(qs)[perm[j]];
      assert item == qs[perm[j]].header + [Letter(perm[j])];
    }
    forall i | 0 <= i < |qs|
      ensures Letter(i) in a
    {
      PermutationOnto(perm, |qs|, i);
      var j :| 0 <= j < |qs| && perm[j] == i;
      assert a[j] == Letter(i);
    }
  }

  /** Prompt j shows the first word of the headword that the shuffle put at
      position j. */
  lemma PromptsShowShuffledHeaders(qs: seq<Question>, perm: seq<nat>)
    requires |qs| <= 26 && IsPermutation(perm, |qs|)
    ensures forall j :: 0 <= j < |qs| ==>
      Prompts(Shuffled(Tagged(qs), perm))[j] == Split(qs[perm[j]].header, " ")[0]
  {
    var sh := Shuffled(Tagged(qs), perm);
    forall j | 0 <= j < |qs|
      ensures Prompts(sh)[j] == Split(qs[perm[j]].header, " ")[0]
    {
      var h := qs[perm[j]].header;
      var item := sh[j];
      assert item == h + [Letter(perm[j])];
      assert item[..|item| - 1] == h;
      SplitHead(h + " " + [Letter(j)], " ");
      SplitHead(h, " ");
      if Contains(h, " ") {
        BeforeAppend(h, " " + [Letter(j)], " ");
        assert h + " " + [Letter(j)] == h + (" " + [Letter(j)]);
      } else {
        CharContains(h, ' ');
        BeforeSeparator(h, " ", [Letter(j)]);
      }
    }
  }

  /** The answer key is correct for every shuffle: the meaning lettered
      answer[j] in the choice list is the meaning matched with the headword
      of prompt j. */
  lemma AnswerKeyCorrect(qs: seq<Question>, perm: seq<nat>)
    requires |qs| <= 26 && IsPermutation(perm, |qs|)
    ensures var a := AnswerKey(Shuffled(Tagged(qs), perm));
      forall j :: 0 <= j < |qs| ==>
        'A' <= a[j] <= 'Z' && LetterIndex(a[j]) < |qs|
        && Bodies(qs)[LetterIndex(a[j])] == qs[perm[j]].body
        && Prompts(Shuffled(Tagged(qs), perm))[j] == Split(qs[perm[j]].header, " ")[0]
  {
    var a := AnswerKey(Shuffled(Tagged(qs), perm));
    AnswerKeyIsPermutation(qs, perm);
    PromptsShowShuffledHeaders(qs, perm);
    forall j | 0 <= j < |qs|
      ensures LetterIndex(a[j]) == perm[j] && Bodies(qs)[perm[j]] == qs[perm[j]].body
    {
      assert a[j] == Letter(perm[j]);
    }
  }

  /** The article paragraphs of the definition quiz (main.py:125-127): each
      <p> text stripped and followed by a blank line. */
  function ArticleLines(paras: seq<string>, n: nat): (r: seq<string>)
    requires n <= |paras|
    ensures |r| == n
  {
    if n == 0 then [] else ArticleLines(paras, n - 1) + [ParagraphLine(paras[n - 1])]
  }

  /** One paragraph as written: stripped, then a blank line. */
  function ParagraphLine(para: string): string {
    Strip(para) + "\n\n"
  }

  /** The numbered prompts (main.py:131-132): "(1) word ", "(2) word ", ... */
  function PromptLines(prompts: seq<string>, n: nat): (r: seq<string>)
    requires n <= |prompts|
    ensures |r| == n
    ensures forall i :: 0 <= i < n ==> r[i] == "(" + Decimal(i + 1) + ") " + prompts[i] + " "
  {
    if n == 0 then [] else PromptLines(prompts, n - 1) + ["(" + Decimal(n) + ") " + prompts[n - 1] + " "]
  }

  /** The lettered choices (main.py:136-138), in matching order. */
  function ChoiceLines(bodies: seq<string>, n: nat): (r: seq<string>)
    requires n <= |bodies| && n <= 26
    ensures |r| == n
    ensures forall i :: 0 <= i < n ==> r[i] == [Letter(i)] + ". " + bodies[i] + "\n\n"
  {
    if n == 0 then [] else ChoiceLines(bodies, n - 1) + [[Letter(n - 1)] + ". " + bodies[n - 1] + "\n\n"]
  }

  function DefinitionHeader(today: string, points: nat): string {
    "【単語意味クイズ】" + today + "\n\n"
    + "今日のNHK EASYニュース\U{1F4F0}です。(1) から正しい単語の意味を順番に並べてください。(" + Decimal(points) + "ポイント)\n\n"
  }

  const DefinitionFooter: string :=
    "【返信フォーマット】(英語アルファベットと数字のみ):\n" + "学生番号: A10001\n" + "解答: ABCDE"

  /** The definition quiz file. */
  function DefinitionText(today: string, paras: seq<string>, prompts: seq<string>, bodies: seq<string>): string
    requires |bodies| <= 26
  {
    DefinitionHeader(today, |bodies|)
    + Join(ArticleLines(paras, |paras|), "") + "---\n\n"
    + Join(PromptLines(prompts, |prompts|), "") + "\n\n"
    + Join(ChoiceLines(bodies, |bodies|), "") + DefinitionFooter
  }

  /** The quiz file and the answer key that generate_definition_quiz returns. */
  datatype DefinitionQuiz = DefinitionQuiz(text: string, answer: string)

  /** What generate_definition_quiz (main.py:89-145) produces; shuffle(n)
      is the permutation random.shuffle applies to a list of length n. */
  function DefinitionOutcome(today: string, paras: seq<string>, keys: seq<string>, defs: seq<string>,
                             shuffle: nat -> seq<nat>): Result<DefinitionQuiz>
    requires forall n: nat :: IsPermutation(shuffle(n), n)
  {
    var m := MatchUpTo(keys, defs, |keys|);
    if m.Failure? then Failure(m.error)
    else if |m.value| > 26 then Failure(IndexError)
    else
      var qs := m.value;
      var sh := Shuffled(Tagged(qs), shuffle(|qs|));
      Success(DefinitionQuiz(DefinitionText(today, paras, Prompts(sh), Bodies(qs)), AnswerKey(sh)))
  }

  /** The paragraph-writing loop of main.py:125-127. */
  method WriteArticle(paras: seq<string>) returns (text: string)
    ensures text == Join(ArticleLines(paras, |paras|), "")
  {
    text := "";
    var i := 0;
    while i < |paras|
      invariant 0 <= i <= |paras|
      invariant text == Join(ArticleLines(paras, i), "")
    {
      var line := ParagraphLine(paras[i]);
      assert ArticleLines(paras, i + 1) == ArticleLines(paras, i) + [line];
      ConcatSnoc(ArticleLines(paras, i), line);
      text := text + line;
      i := i + 1;
    }
  }

  /** The prompt-writing loop of main.py:131-132. */
  method WritePrompts(prompts: seq<string>) returns (text: string)
    ensures text == Join(PromptLines(prompts, |prompts|), "")
  {
    text := "";
    var i := 0;
    while i < |prompts|
      invariant 0 <= i <= |prompts|
      invariant text == Join(PromptLines(prompts, i), "")
    {
      var line := "(" + Decimal(i + 1) + ") " + prompts[i] + " ";
      assert PromptLines(prompts, i + 1) == PromptLines(prompts, i) + [line];
      ConcatSnoc(PromptLines(prompts, i), line);
      text := text + line;
      i := i + 1;
    }
  }

  /** The choice-writing loop of main.py:136-138. */
  method WriteChoices(bodies: seq<string>) returns (text: string)
    requires |bodies| <= 26
    ensures text == Join(ChoiceLines(bodies, |bodies|), "")
  {
    text := "";
    var i := 0;
    while i < |bodies|
      invariant 0 <= i <= |bodies|
      invariant text == Join(ChoiceLines(bodies, i), "")
    {
      var line := [Letter(i)] + ". " + bodies[i] + "\n\n";
      assert ChoiceLines(bodies, i + 1) == ChoiceLines(bodies, i) + [line];
      ConcatSnoc(ChoiceLines(bodies, i), line);
      text := text + line;
      i := i + 1;
    }
  }

  /** generate_definition_quiz (main.py:89-145). */
  method GenerateDefinitionQuiz(today: string, paras: seq<string>, keys: seq<string>, defs: seq<string>,
                                shuffle: nat -> seq<nat>) returns (r: Result<DefinitionQuiz>)
    requires forall n: nat :: IsPermutation(shuffle(n), n)
    ensures r == DefinitionOutcome(today, paras, keys, defs, shuffle)
  {
    var m := MatchQuestions(keys, defs);
    if m.Failure? {
      return Failure(m.error);
    }
    var qs := m.value;
    if |qs| > 26 {
      return Failure(IndexError);
    }
    var tagged := Tagged(qs);
    var shuffled := Shuffled(tagged, shuffle(|tagged|));
    var answer := AnswerKey(shuffled);
    var prompts := Prompts(shuffled);
    var article := WriteArticle(paras);
    var promptText := WritePrompts(prompts);
    var choiceText := WriteChoices(Bodies(qs));
    var text := DefinitionHeader(today, |qs|) + article + "---\n\n" + promptText + "\n\n" + choiceText + DefinitionFooter;
    r := Success(DefinitionQuiz(text, answer));
  }
}
