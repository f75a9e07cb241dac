/**
  The article file (txt_files/news_article.txt) and the programs that read
  it back.  main writes the article's URL, its text, a "---" line, the
  formatted vocabulary one per line, another "---" and the paired
  definitions; every reader splits the file at "---" and keeps, strips or
  re-splits one segment.
*/
module Store {
  import opened Wrappers
  import opened PyText
  import opened Pairing
  import opened Collections

  /** The segment separator of the article and quiz files. */
  const Divider: string := "---"

  // ---------------------------------------------------------------------
  // Writing the article text (write_text_data, main.py:186-194)

  /** The lines write_text_data keeps from the lines of one <p> text:
      each stripped, the empty ones dropped. */
  function KeptLines(lines: seq<string>): (r: seq<string>)
    ensures |r| <= |lines|
  {
    if lines == [] then []
    else
      var init := KeptLines(lines[..|lines| - 1]);
      var s := Strip(lines[|lines| - 1]);
      if s != [] then init + [s] else init
  }

  /** The kept lines of a list of <p> texts, in document order. */
  function TextLines(pTexts: seq<string>): seq<string> {
    if pTexts == [] then []
    else TextLines(pTexts[..|pTexts| - 1]) + KeptLines(SplitLines(pTexts[|pTexts| - 1]))
  }

  /** Each line followed by a blank line. */
  function Blocks(lines: seq<string>): string {
    if lines == [] then "" else Blocks(lines[..|lines| - 1]) + lines[|lines| - 1] + "\n\n"
  }

  /** What write_text_data appends for an element (None when soup.find
      found nothing), given the texts of the <p> elements below it. */
  function TextData(content: Option<seq<string>>): string {
    match content
    case None => ""
    case Some(pTexts) => Blocks(TextLines(pTexts))
  }

  /** A kept line is one line of the page text: non-empty, without
      surrounding whitespace and without a line break. */
  ghost predicate CleanLine(s: string) {
    s != [] && Trimmed(s) && forall i :: 0 <= i < |s| ==> !IsLineBreak(s[i])
  }

  lemma StripClean(line: string)
    requires forall i :: 0 <= i < |line| ==> !IsLineBreak(line[i])
    requires Strip(line) != []
    ensures CleanLine(Strip(line))
  {
    StripIsTrimmedSlice(line);
    var r := Strip(line);
    var i := |line| - |StripLeft(line)|;
    forall k | 0 <= k < |r|
      ensures !IsLineBreak(r[k])
    {
      assert r[k] == line[i + k];
    }
  }

  /** Every line write_text_data keeps is clean. */
  lemma {:induction false} KeptLinesClean(lines: seq<string>)
    requires forall k, i :: 0 <= k < |lines| && 0 <= i < |lines[k]| ==> !IsLineBreak(lines[k][i])
    ensures forall k :: 0 <= k < |KeptLines(lines)| ==> CleanLine(KeptLines(lines)[k])
  {
    if lines != [] {
      var last := lines[|lines| - 1];
      KeptLinesClean(lines[..|lines| - 1]);
      if Strip(last) != [] {
        StripClean(last);
      }
    }
  }

  lemma {:induction false} TextLinesClean(pTexts: seq<string>)
    ensures forall k :: 0 <= k < |TextLines(pTexts)| ==> CleanLine(TextLines(pTexts)[k])
  {
    if pTexts != [] {
      TextLinesClean(pTexts[..|pTexts| - 1]);
      KeptLinesClean(SplitLines(pTexts[|pTexts| - 1]));
    }
  }

  /** A line is kept exactly when it is not all whitespace. */
  lemma StripEmpty(line: string)
    ensures Strip(line) == [] <==> AllSpace(line)
  {
    StripIsTrimmedSlice(line);
    var i := |line| - |StripLeft(line)|;
    var r := Strip(line);
    if r != [] {
      assert line[i] == r[0];
    } else {
      assert line == line[..i] + line[i..];
    }
  }

  /** One more line of a <p> text: written with its blank line when it is
      not all whitespace. */
  lemma KeepLine(before: seq<string>, lines: seq<string>, j: nat)
    requires j < |lines|
    ensures var s := Strip(lines[j]);
      Blocks(before + KeptLines(lines[..j + 1]))
        == if s != [] then Blocks(before + KeptLines(lines[..j])) + s + "\n\n"
           else Blocks(before + KeptLines(lines[..j]))
  {
    assert lines[..j + 1][..j] == lines[..j];
    var s := Strip(lines[j]);
    if s != [] {
      BlocksSnoc(before + KeptLines(lines[..j]), s);
      assert before + KeptLines(lines[..j + 1]) == before + KeptLines(lines[..j]) + [s];
    }
  }

  lemma TextLinesSnoc(pTexts: seq<string>, i: nat)
    requires i < |pTexts|
    ensures TextLines(pTexts[..i + 1]) == TextLines(pTexts[..i]) + KeptLines(SplitLines(pTexts[i]))
  {
    assert pTexts[..i + 1][..i] == pTexts[..i];
  }

  lemma BlocksSnoc(lines: seq<string>, x: string)
    ensures Blocks(lines + [x]) == Blocks(lines) + x + "\n\n"
  {
    assert (lines + [x])[..|lines|] == lines;
  }

  /** write_text_data: for each <p> text, each of its lines stripped, and
      the non-empty ones written with a blank line after them. */
  method WriteTextData(content: Option<seq<string>>) returns (written: string)
    ensures written == TextData(content)
  {
    written := "";
    if content.None? {
      return;
    }
    var pTexts := content.value;
    var i := 0;
    while i < |pTexts|
      invariant 0 <= i <= |pTexts|
      invariant written == Blocks(TextLines(pTexts[..i]))
    {
      var lines := SplitLines(pTexts[i]);
      ghost var before := TextLines(pTexts[..i]);
      var j := 0;
      assert before + KeptLines(lines[..0]) == before;
      while j < |lines|
        invariant 0 <= j <= |lines|
        invariant written == Blocks(before + KeptLines(lines[..j]))
      {
        var strippedLine := Strip(lines[j]);
        KeepLine(before, lines, j);
        if strippedLine != [] {
          written := written + strippedLine + "\n\n";
        }
        j := j + 1;
      }
      assert lines[..j] == lines;
      TextLinesSnoc(pTexts, i);
      i := i + 1;
    }
    assert pTexts[..i] == pTexts;
  }

  // ---------------------------------------------------------------------
  // Readers

  /** get_news_article (translate.py:31-39): the first segment without its
      first line (the URL). */
  function GetNewsArticle(content: string): string {
    var parts := Split(content, Divider);
    var lines := Split(parts[0], "\n");
    Join(lines[1..], "\n")
  }

  /** get_news_vocabularies (translate.py:42-50): the lines of the third
      segment, stripped, each cut before its first "：". */
  function GetNewsVocabularies(content: string): Result<string> {
    var parts := Split(content, Divider);
    if |parts| < 3 then Failure(IndexError)
    else
      var items := Split(Strip(parts[2]), "\n");
      Success(Join(Headwords(items), "\n"))
  }

  /** item.split("：")[0] for each item. */
  function Headwords(items: seq<string>): (r: seq<string>)
    ensures |r| == |items|
  {
    seq(|items|, i requires 0 <= i < |items| => Split(items[i], Colon)[0])
  }

  /** A line that is not whitespace only (Python's truthy line.strip()). */
  predicate NonBlank(line: string) {
    Strip(line) != []
  }

  /** The non-blank lines, in order. */
  function NonBlankLines(lines: seq<string>): (r: seq<string>)
    ensures |r| <= |lines|
    ensures forall k :: 0 <= k < |r| ==> NonBlank(r[k]) && r[k] in lines
    ensures r == Keep(lines, set l | l in lines && NonBlank(l))
  {
    if lines == [] then []
    else
      var rest := NonBlankLines(lines[1..]);
      KeepIrrelevant(lines[1..], set l | l in lines[1..] && NonBlank(l), set l | l in lines && NonBlank(l));
      if NonBlank(lines[0]) then [lines[0]] + rest else rest
  }

  /** read_news_article (check_sentiment.py:59-68): the non-blank lines but
      the first, joined, up to the first "---". */
  function ReadNewsArticle(content: string): string {
    var kept := NonBlankLines(ReadLines(content));
    var rest := if kept == [] then [] else kept[1..];
    Split(Join(rest, ""), Divider)[0]
  }

  /** get_vocab (send_line_message.py:77-82): the second segment, stripped. */
  function GetVocab(content: string): Result<string> {
    var parts := Split(content, Divider);
    if |parts| < 2 then Failure(IndexError) else Success(Strip(parts[1]))
  }

  /** save_quiz_vocab (main.py:214-224): the record appended to the past
      quiz file, from the second and third segments of the article file. */
  function SaveQuizVocab(content: string, today: string, newsUrl: string): Result<string> {
    var parts := Split(content, Divider);
    if |parts| < 3 then Failure(IndexError)
    else
      var vocab := Strip(parts[1]);
      var vocabDef := Strip(parts[2]);
      Success(today + "\n" + newsUrl + "\n" + vocab + "\n\n" + vocabDef + "\n\n" + "---\n\n")
  }

  /** The instruction and the questions push_quiz (main.py:227-236) sends:
      the first two segments of a quiz file, stripped. */
  function QuizParts(content: string): Result<(string, string)> {
    var parts := Split(content, Divider);
    if |parts| < 2 then Failure(IndexError) else Success((Strip(parts[0]), Strip(parts[1])))
  }

  // ---------------------------------------------------------------------
  // What each reader takes from a file

  /** The first three segments of a text split at "---", and when they exist. */
  lemma SplitSegments(content: string)
    ensures var parts := Split(content, Divider);
      && parts[0] == Before(content, Divider)
      && (|parts| >= 2 <==> Contains(content, Divider))
      && (|parts| >= 2 ==> parts[1] == Before(After(content, Divider), Divider))
      && (|parts| >= 3 <==> Contains(content, Divider) && Contains(After(content, Divider), Divider))
      && (|parts| >= 3 ==> parts[2] == Before(After(After(content, Divider), Divider), Divider))
  {
    SplitHead(content, Divider);
    SplitHasTwo(content, Divider);
    if Contains(content, Divider) {
      var rest := After(content, Divider);
      SplitAfter(content, Divider);
      SplitHead(rest, Divider);
      SplitHasTwo(rest, Divider);
      if Contains(rest, Divider) {
        SplitAfter(rest, Divider);
        SplitHead(After(rest, Divider), Divider);
      }
    }
  }

  /** get_news_article drops the first line of the first segment and keeps
      the rest as it was; a first segment of one line gives "". */
  lemma GetNewsArticleSpec(content: string)
    ensures var head := Before(content, Divider);
      GetNewsArticle(content) == if Contains(head, "\n") then After(head, "\n") else ""
  {
    var head := Split(content, Divider)[0];
    SplitHead(content, Divider);
    if Contains(head, "\n") {
      SplitAfter(head, "\n");
      SplitJoin(After(head, "\n"), "\n");
    } else {
      SplitWhole(head, "\n");
    }
  }

  lemma HeadwordsSpec(items: seq<string>)
    requires forall i :: 0 <= i < |items| ==> '\n' !in items[i]
    ensures forall i :: 0 <= i < |items| ==>
      && Headwords(items)[i] == Before(items[i], Colon)
      && !Contains(Headwords(items)[i], Colon)
      && (!Contains(items[i], Colon) ==> Headwords(items)[i] == items[i])
      && '\n' !in Headwords(items)[i]
  {
    forall i | 0 <= i < |items|
      ensures Headwords(items)[i] == Before(items[i], Colon) && '\n' !in Headwords(items)[i]
    {
      SplitHead(items[i], Colon);
      var h := Before(items[i], Colon);
      assert h == items[i][..|h|];
      forall k | 0 <= k < |h|
        ensures h[k] != '\n'
      {
        assert h[k] == items[i][k];
      }
    }
  }

  /** The parts of a split at "\n" hold no "\n". */
  lemma LinesHaveNoBreak(s: string)
    ensures forall i :: 0 <= i < |Split(s, "\n")| ==> '\n' !in Split(s, "\n")[i]
  {
    SplitPartsFree(s, "\n");
    forall i | 0 <= i < |Split(s, "\n")|
      ensures '\n' !in Split(s, "\n")[i]
    {
      CharContains(Split(s, "\n")[i], '\n');
    }
  }

  /** get_news_vocabularies fails with IndexError exactly when the file has
      fewer than two "---"; otherwise it returns one line per line of the
      stripped third segment, in order, each cut before its first "：" (a
      line without "：" comes back whole). */
  lemma GetNewsVocabulariesSpec(content: string)
    ensures var r := GetNewsVocabularies(content);
      && (r.Failure? <==> !(Contains(content, Divider) && Contains(After(content, Divider), Divider)))
      && (r.Failure? ==> r.error == IndexError)
      && (r.Success? ==>
            var items := Split(Strip(Before(After(After(content, Divider), Divider), Divider)), "\n");
            && Split(r.value, "\n") == Headwords(items)
            && forall i :: 0 <= i < |items| ==>
                 && Headwords(items)[i] == Before(items[i], Colon)
                 && (!Contains(items[i], Colon) ==> Headwords(items)[i] == items[i]))
  {
    SplitSegments(content);
    var r := GetNewsVocabularies(content);
    if r.Success? {
      var items := Split(Strip(Split(content, Divider)[2]), "\n");
      LinesHaveNoBreak(Strip(Split(content, Divider)[2]));
      HeadwordsSpec(items);
      JoinSplit(Headwords(items), "\n");
    }
  }

  /** get_vocab fails with IndexError exactly when the file has no "---";
      otherwise it is the stripped text between the first two. */
  lemma GetVocabSpec(content: string)
    ensures var r := GetVocab(content);
      && (r.Failure? <==> !Contains(content, Divider))
      && (r.Failure? ==> r.error == IndexError)
      && (r.Success? ==> r.value == Strip(Before(After(content, Divider), Divider)))
  {
    SplitSegments(content);
  }

  /** save_quiz_vocab needs the same three segments get_news_vocabularies
      needs, and records the date, the URL, what get_vocab returns and the
      stripped definitions, closed by a "---" line. */
  lemma SaveQuizVocabSpec(content: string, today: string, newsUrl: string)
    ensures var r := SaveQuizVocab(content, today, newsUrl);
      && (r.Failure? <==> GetNewsVocabularies(content).Failure?)
      && (r.Failure? ==> r.error == IndexError)
      && (r.Success? ==>
            && Contains(content, Divider) && Contains(After(content, Divider), Divider)
            && GetVocab(content).Success?
            && r.value == today + "\n" + newsUrl + "\n" + GetVocab(content).value + "\n\n"
                 + Strip(Before(After(After(content, Divider), Divider), Divider)) + "\n\n" + "---\n\n")
  {
    SplitSegments(content);
  }

  /** push_quiz fails with IndexError exactly when the quiz file has no
      "---"; otherwise it sends the stripped text before the first one and
      the stripped text between the first two. */
  lemma QuizPartsSpec(content: string)
    ensures var r := QuizParts(content);
      && (r.Failure? <==> !Contains(content, Divider))
      && (r.Failure? ==> r.error == IndexError)
      && (r.Success? ==> r.value == (Strip(Before(content, Divider)), Strip(Before(After(content, Divider), Divider))))
  {
    SplitSegments(content);
  }

  /** read_news_article never returns a "---", and returns a prefix of the
      kept lines after the first one, all of them when they hold no "---". */
  lemma ReadNewsArticleSpec(content: string)
    ensures var kept := NonBlankLines(ReadLines(content));
      var joined := Join(if kept == [] then [] else kept[1..], "");
      var r := ReadNewsArticle(content);
      && !Contains(r, Divider)
      && r == joined[..|r|]
      && (!Contains(joined, Divider) ==> r == joined)
  {
    var kept := NonBlankLines(ReadLines(content));
    SplitHead(Join(if kept == [] then [] else kept[1..], ""), Divider);
  }

  // ---------------------------------------------------------------------
  // The file main writes, read back

  /** The vocabulary lines of main.py:356-358: "\n" before each word. */
  function VocabBlock(words: seq<string>): string {
    if words == [] then "" else VocabBlock(words[..|words| - 1]) + "\n" + words[|words| - 1]
  }

  /** The definition lines of main.py:380-382: "\n" after each definition. */
  function DefinitionBlock(defs: seq<string>): string {
    if defs == [] then "" else DefinitionBlock(defs[..|defs| - 1]) + defs[|defs| - 1] + "\n"
  }

  /** The article file of main.py:278-382, given the text write_text_data
      appended for the date, the title and the body paragraphs. */
  function ArticleFile(url: string, text: string, words: seq<string>, defs: seq<string>): string {
    url + "\n\n" + text + "---\n" + VocabBlock(words) + "\n\n---\n\n" + DefinitionBlock(defs)
  }

  lemma {:induction false} VocabBlockJoin(words: seq<string>)
    ensures VocabBlock(words) == if words == [] then "" else "\n" + Join(words, "\n")
  {
    if words != [] {
      var init := words[..|words| - 1];
      VocabBlockJoin(init);
      JoinSnoc(init, words[|words| - 1], "\n");
      assert init + [words[|words| - 1]] == words;
    }
  }

  lemma {:induction false} DefinitionBlockJoin(defs: seq<string>)
    ensures DefinitionBlock(defs) == if defs == [] then "" else Join(defs, "\n") + "\n"
  {
    if defs != [] {
      var init := defs[..|defs| - 1];
      DefinitionBlockJoin(init);
      JoinSnoc(init, defs[|defs| - 1], "\n");
      assert init + [defs[|defs| - 1]] == defs;
    }
  }

  /** Lines joined with line breaks hold no "---" when no line does. */
  lemma {:induction false} JoinNoDivider(parts: seq<string>)
    requires forall k :: 0 <= k < |parts| ==> !Contains(parts[k], Divider)
    ensures !Contains(Join(parts, "\n"), Divider)
  {
    if |parts| == 1 {
    } else if |parts| >= 2 {
      JoinNoDivider(parts[1..]);
      NoOccurrenceOfChars("\n", Divider);
      NoOccurrenceConcat(parts[0], "\n", Divider);
      NoOccurrenceConcat(parts[0] + "\n", Join(parts[1..], "\n"), Divider);
    } else {
      NoOccurrenceOfChars("", Divider);
    }
  }

  /** The written article text holds no "---" when no kept line does, and
      ends with a line break unless it is empty. */
  lemma {:induction false} BlocksNoDivider(lines: seq<string>)
    requires forall k :: 0 <= k < |lines| ==> !Contains(lines[k], Divider)
    ensures !Contains(Blocks(lines), Divider)
    ensures Blocks(lines) == [] || Blocks(lines)[|Blocks(lines)| - 1] == '\n'
  {
    if lines == [] {
      NoOccurrenceOfChars("", Divider);
    } else {
      var init := lines[..|lines| - 1];
      var last := lines[|lines| - 1];
      BlocksNoDivider(init);
      NoOccurrenceOfChars("\n\n", Divider);
      if Blocks(init) == [] {
        assert Blocks(init) + last == last;
      } else {
        NoOccurrenceConcat(Blocks(init), last, Divider);
      }
      NoOccurrenceConcat(Blocks(init) + last, "\n\n", Divider);
    }
  }

  /** What the file's writer needs for its readers to find its segments:
      a one-line URL, and no "---" in the URL, the text, the words or the
      definitions. */
  ghost predicate Separable(url: string, lines: seq<string>, words: seq<string>, defs: seq<string>) {
    && '\n' !in url && !Contains(url, Divider)
    && (forall k :: 0 <= k < |lines| ==> !Contains(lines[k], Divider))
    && (forall k :: 0 <= k < |words| ==> !Contains(words[k], Divider))
    && (forall k :: 0 <= k < |defs| ==> !Contains(defs[k], Divider))
  }

  /** The three segments of the article file. */
  function HeadSegment(url: string, text: string): string {
    url + "\n\n" + text
  }

  function VocabSegment(words: seq<string>): string {
    "\n" + VocabBlock(words) + "\n\n"
  }

  function DefinitionSegment(defs: seq<string>): string {
    "\n\n" + DefinitionBlock(defs)
  }

  lemma HeadSegmentClean(url: string, lines: seq<string>)
    requires !Contains(url, Divider)
    requires forall k :: 0 <= k < |lines| ==> !Contains(lines[k], Divider)
    ensures var h := HeadSegment(url, Blocks(lines));
      !Contains(h, Divider) && h[|h| - 1] == '\n'
  {
    var h := HeadSegment(url, Blocks(lines));
    NoOccurrenceOfChars("\n\n", Divider);
    BlocksNoDivider(lines);
    NoOccurrenceConcat(url, "\n\n", Divider);
    if Blocks(lines) == [] {
      assert h == url + "\n\n";
    } else {
      NoOccurrenceConcat(url + "\n\n", Blocks(lines), Divider);
    }
  }

  lemma VocabSegmentShape(words: seq<string>)
    ensures VocabSegment(words) ==
      if words == [] then "\n\n\n" else "\n\n" + Join(words, "\n") + "\n\n"
  {
    VocabBlockJoin(words);
    if words != [] {
      var j := Join(words, "\n");
      assert VocabSegment(words) == "\n" + ("\n" + j) + "\n\n";
    }
  }

  lemma DefinitionSegmentShape(defs: seq<string>)
    ensures DefinitionSegment(defs) ==
      if defs == [] then "\n\n" else "\n\n" + Join(defs, "\n") + "\n"
  {
    DefinitionBlockJoin(defs);
    if defs != [] {
      var j := Join(defs, "\n");
      assert DefinitionSegment(defs) == "\n\n" + (j + "\n");
    }
  }

  lemma VocabSegmentClean(words: seq<string>)
    requires forall k :: 0 <= k < |words| ==> !Contains(words[k], Divider)
    ensures var v := VocabSegment(words);
      !Contains(v, Divider) && v[|v| - 1] == '\n'
  {
    VocabSegmentShape(words);
    NoOccurrenceOfChars("\n\n", Divider);
    if words == [] {
      NoOccurrenceOfChars("\n\n\n", Divider);
    } else {
      var j := Join(words, "\n");
      JoinNoDivider(words);
      NoOccurrenceConcat("\n\n", j, Divider);
      NoOccurrenceConcat("\n\n" + j, "\n\n", Divider);
    }
  }

  lemma DefinitionSegmentClean(defs: seq<string>)
    requires forall k :: 0 <= k < |defs| ==> !Contains(defs[k], Divider)
    ensures !Contains(DefinitionSegment(defs), Divider)
  {
    DefinitionSegmentShape(defs);
    NoOccurrenceOfChars("\n\n", Divider);
    if defs != [] {
      var j := Join(defs, "\n");
      NoOccurrenceOfChars("\n", Divider);
      JoinNoDivider(defs);
      NoOccurrenceConcat("\n\n", j, Divider);
      NoOccurrenceConcat("\n\n" + j, "\n", Divider);
    }
  }

  /** The article file splits at "---" into exactly the three segments main
      wrote: the URL and the text, the vocabulary, the definitions. */
  lemma ArticleSegments(url: string, lines: seq<string>, words: seq<string>, defs: seq<string>)
    requires Separable(url, lines, words, defs)
    ensures Split(ArticleFile(url, Blocks(lines), words, defs), Divider) ==
      [HeadSegment(url, Blocks(lines)), VocabSegment(words), DefinitionSegment(defs)]
  {
    var h := HeadSegment(url, Blocks(lines));
    var v := VocabSegment(words);
    var d := DefinitionSegment(defs);
    assert h + Divider + v + (Divider + d) == h + Divider + (v + Divider + d);
    assert ArticleFile(url, Blocks(lines), words, defs) == h + Divider + (v + Divider + d);
    HeadSegmentClean(url, lines);
    VocabSegmentClean(words);
    DefinitionSegmentClean(defs);
    calc {
      Split(h + Divider + (v + Divider + d), Divider);
      { FindAfterPrefix(h, Divider, v + Divider + d);
        SplitCons(h, Divider, v + Divider + d); }
      [h] + Split(v + Divider + d, Divider);
      { FindAfterPrefix(v, Divider, d);
        SplitCons(v, Divider, d); }
      [h] + ([v] + Split(d, Divider));
      { SplitWhole(d, Divider); }
      [h] + ([v] + [d]);
    }
  }

  lemma StripVocabSegment(words: seq<string>)
    requires Trimmed(Join(words, "\n"))
    ensures Strip(VocabSegment(words)) == Join(words, "\n")
  {
    VocabSegmentShape(words);
    if words == [] {
      StripSurrounded("\n\n\n", "", "");
      assert "\n\n\n" + "" + "" == "\n\n\n";
    } else {
      StripSurrounded("\n\n", Join(words, "\n"), "\n\n");
    }
  }

  lemma StripDefinitionSegment(defs: seq<string>)
    requires Trimmed(Join(defs, "\n"))
    ensures Strip(DefinitionSegment(defs)) == Join(defs, "\n")
  {
    DefinitionSegmentShape(defs);
    if defs == [] {
      StripSurrounded("\n\n", "", "");
      assert "\n\n" + "" + "" == "\n\n";
    } else {
      StripSurrounded("\n\n", Join(defs, "\n"), "\n");
    }
  }

  /** get_news_article of the article file is the written text after the
      URL line (the blank line after the URL stays as a leading "\n"). */
  lemma ArticleReadBack(url: string, lines: seq<string>, words: seq<string>, defs: seq<string>)
    requires Separable(url, lines, words, defs)
    ensures GetNewsArticle(ArticleFile(url, Blocks(lines), words, defs)) == "\n" + Blocks(lines)
  {
    ArticleSegments(url, lines, words, defs);
    HeadReadBack(url, Blocks(lines));
  }

  lemma HeadReadBack(url: string, text: string)
    requires '\n' !in url
    ensures Join(Split(HeadSegment(url, text), "\n")[1..], "\n") == "\n" + text
  {
    var rest := "\n" + text;
    assert HeadSegment(url, text) == url + "\n" + rest;
    CharContains(url, '\n');
    FindAfterPrefix(url, "\n", rest);
    SplitCons(url, "\n", rest);
    SplitJoin(rest, "\n");
  }

  /** get_vocab of the article file is the formatted words, one per line. */
  lemma VocabReadBack(url: string, lines: seq<string>, words: seq<string>, defs: seq<string>)
    requires Separable(url, lines, words, defs)
    requires Trimmed(Join(words, "\n"))
    ensures GetVocab(ArticleFile(url, Blocks(lines), words, defs)) == Success(Join(words, "\n"))
  {
    ArticleSegments(url, lines, words, defs);
    StripVocabSegment(words);
  }

  /** get_news_vocabularies of the article file gives the headword of each
      written definition, one per line, in the order written. */
  lemma DefinitionsReadBack(url: string, lines: seq<string>, words: seq<string>, defs: seq<string>)
    requires Separable(url, lines, words, defs)
    requires Trimmed(Join(defs, "\n"))
    requires forall k :: 0 <= k < |defs| ==> '\n' !in defs[k]
    ensures GetNewsVocabularies(ArticleFile(url, Blocks(lines), words, defs)) == Success(Join(Headwords(defs), "\n"))
  {
    ArticleSegments(url, lines, words, defs);
    StripDefinitionSegment(defs);
    if defs == [] {
      assert Split("", "\n") == [""];
      assert Headwords([""]) == [Split("", Colon)[0]];
    } else {
      JoinSplit(defs, "\n");
    }
  }

  /** save_quiz_vocab of the article file records the formatted words and
      the definitions exactly as main wrote them. */
  lemma SaveQuizVocabReadBack(url: string, lines: seq<string>, words: seq<string>, defs: seq<string>,
                              today: string, newsUrl: string)
    requires Separable(url, lines, words, defs)
    requires Trimmed(Join(words, "\n")) && Trimmed(Join(defs, "\n"))
    ensures SaveQuizVocab(ArticleFile(url, Blocks(lines), words, defs), today, newsUrl) ==
      Success(today + "\n" + newsUrl + "\n" + Join(words, "\n") + "\n\n" + Join(defs, "\n") + "\n\n" + "---\n\n")
  {
    ArticleSegments(url, lines, words, defs);
    StripVocabSegment(words);
    StripDefinitionSegment(defs);
  }

  // ---------------------------------------------------------------------
  // read_news_article of the article file

  /** Each line with its line break. */
  function TerminatedLines(lines: seq<string>): (r: seq<string>)
    ensures |r| == |lines|
    ensures forall i :: 0 <= i < |lines| ==> r[i] == lines[i] + "\n"
  {
    if lines == [] then [] else TerminatedLines(lines[..|lines| - 1]) + [lines[|lines| - 1] + "\n"]
  }

  /** What readlines() gives for the written text: each line, then the
      empty line after it. */
  function BlockLines(lines: seq<string>): seq<string> {
    if lines == [] then [] else BlockLines(lines[..|lines| - 1]) + [lines[|lines| - 1] + "\n", "\n"]
  }

  lemma {:induction false} ReadLinesOfBlocks(lines: seq<string>, b: string)
    requires forall k :: 0 <= k < |lines| ==> '\n' !in lines[k]
    ensures ReadLines(Blocks(lines) + b) == BlockLines(lines) + ReadLines(b)
  {
    if lines != [] {
      var init := lines[..|lines| - 1];
      var last := lines[|lines| - 1];
      var b' := last + "\n" + ("\n" + b);
      assert Blocks(lines) + b == Blocks(init) + b';
      ReadLinesOfBlocks(init, b');
      assert (last + "\n")[..|last|] == last;
      ReadLinesCons(last + "\n", "\n" + b);
      ReadLinesCons("\n", b);
      assert BlockLines(lines) + ReadLines(b)
        == BlockLines(init) + ([last + "\n"] + (["\n"] + ReadLines(b)));
    } else {
      assert Blocks(lines) + b == b;
    }
  }

  lemma NonBlankAppend(a: seq<string>, b: seq<string>)
    ensures NonBlankLines(a + b) == NonBlankLines(a) + NonBlankLines(b)
  {
    if a != [] {
      assert (a + b)[1..] == a[1..] + b;
      NonBlankAppend(a[1..], b);
    } else {
      assert a + b == b;
    }
  }

  /** A clean line with its line break is kept; the empty line is not. */
  lemma NonBlankTerminated(line: string)
    requires CleanLine(line)
    ensures NonBlank(line + "\n") && !NonBlank("\n")
  {
    StripEmpty(line + "\n");
    StripEmpty("\n");
    assert (line + "\n")[0] == line[0];
  }

  lemma {:induction false} NonBlankBlockLines(lines: seq<string>)
    requires forall k :: 0 <= k < |lines| ==> CleanLine(lines[k])
    ensures NonBlankLines(BlockLines(lines)) == TerminatedLines(lines)
  {
    if lines != [] {
      var init := lines[..|lines| - 1];
      var last := lines[|lines| - 1];
      NonBlankBlockLines(init);
      NonBlankAppend(BlockLines(init), [last + "\n", "\n"]);
      NonBlankTerminated(last);
      assert [last + "\n", "\n"][1..] == ["\n"];
    }
  }

  lemma {:induction false} TerminatedNoDivider(lines: seq<string>)
    requires forall k :: 0 <= k < |lines| ==> !Contains(lines[k], Divider)
    ensures var t := Join(TerminatedLines(lines), "");
      !Contains(t, Divider) && (t == [] || t[|t| - 1] == '\n')
  {
    NoOccurrenceOfChars("\n", Divider);
    if lines == [] {
      NoOccurrenceOfChars("", Divider);
      assert Join(TerminatedLines(lines), "") == "";
    } else {
      var init := lines[..|lines| - 1];
      var last := lines[|lines| - 1];
      var t0 := Join(TerminatedLines(init), "");
      TerminatedNoDivider(init);
      ConcatAppend(TerminatedLines(init), [last + "\n"]);
      assert Join([last + "\n"], "") == last + "\n";
      var t1 := t0 + last;
      if t0 == [] {
        assert t1 == last;
      } else if last == [] {
        assert t1 == t0;
      } else {
        NoOccurrenceConcat(t0, last, Divider);
      }
      NoOccurrenceConcat(t1, "\n", Divider);
      assert Join(TerminatedLines(lines), "") == t1 + "\n";
    }
  }

  /** readlines() of the article file: the URL line, the blank line, the
      text's lines with their blank lines, the "---" line, and the rest. */
  lemma ReadLinesOfArticle(url: string, lines: seq<string>, tail: string)
    requires '\n' !in url
    requires forall k :: 0 <= k < |lines| ==> '\n' !in lines[k]
    ensures ReadLines(url + "\n\n" + Blocks(lines) + "---\n" + tail) ==
      [url + "\n"] + (["\n"] + (BlockLines(lines) + (["---\n"] + ReadLines(tail))))
  {
    var first := url + "\n";
    var c := "---\n" + tail;
    var b := Blocks(lines) + c;
    assert url + "\n\n" + Blocks(lines) + "---\n" + tail == first + ("\n" + b);
    assert first[..|url|] == url;
    calc {
      ReadLines(first + ("\n" + b));
      { ReadLinesCons(first, "\n" + b); }
      [first] + ReadLines("\n" + b);
      { ReadLinesCons("\n", b); }
      [first] + (["\n"] + ReadLines(b));
      { ReadLinesOfBlocks(lines, c); }
      [first] + (["\n"] + (BlockLines(lines) + ReadLines(c)));
      { ReadLinesCons("---\n", tail); }
      [first] + (["\n"] + (BlockLines(lines) + (["---\n"] + ReadLines(tail))));
    }
  }

  /** The non-blank lines of the article file: the URL line, the text's
      lines, the "---" line, and what follows. */
  lemma KeptOfArticle(url: string, lines: seq<string>, tail: string)
    requires '\n' !in url && url != [] && !IsSpace(url[0])
    requires forall k :: 0 <= k < |lines| ==> CleanLine(lines[k])
    ensures NonBlankLines(ReadLines(url + "\n\n" + Blocks(lines) + "---\n" + tail)) ==
      [url + "\n"] + (TerminatedLines(lines) + (["---\n"] + NonBlankLines(ReadLines(tail))))
  {
    forall k | 0 <= k < |lines|
      ensures '\n' !in lines[k]
    {
      assert IsLineBreak('\n');
    }
    var first := url + "\n";
    var bl, r := BlockLines(lines), ReadLines(tail);
    StripEmpty(first);
    assert first[0] == url[0];
    StripEmpty("\n");
    StripEmpty("---\n");
    calc {
      NonBlankLines(ReadLines(url + "\n\n" + Blocks(lines) + "---\n" + tail));
      { ReadLinesOfArticle(url, lines, tail); }
      NonBlankLines([first] + (["\n"] + (bl + (["---\n"] + r))));
      { NonBlankCons(first, ["\n"] + (bl + (["---\n"] + r))); }
      [first] + NonBlankLines(["\n"] + (bl + (["---\n"] + r)));
      { NonBlankCons("\n", bl + (["---\n"] + r)); }
      [first] + NonBlankLines(bl + (["---\n"] + r));
      { NonBlankAppend(bl, ["---\n"] + r); NonBlankBlockLines(lines); }
      [first] + (TerminatedLines(lines) + NonBlankLines(["---\n"] + r));
      { NonBlankCons("---\n", r); }
      [first] + (TerminatedLines(lines) + (["---\n"] + NonBlankLines(r)));
    }
  }

  lemma NonBlankCons(x: string, rest: seq<string>)
    ensures NonBlankLines([x] + rest) == if NonBlank(x) then [x] + NonBlankLines(rest) else NonBlankLines(rest)
  {
    assert ([x] + rest)[1..] == rest;
  }

  /** read_news_article of a file made of a URL line, the written text
      and a "---" line: the text lines, each with its line break. */
  lemma ReadNewsArticleOf(url: string, lines: seq<string>, tail: string)
    requires '\n' !in url && url != [] && !IsSpace(url[0])
    requires forall k :: 0 <= k < |lines| ==> CleanLine(lines[k]) && !Contains(lines[k], Divider)
    ensures ReadNewsArticle(url + "\n\n" + Blocks(lines) + "---\n" + tail) == Join(TerminatedLines(lines), "")
  {
    var file := url + "\n\n" + Blocks(lines) + "---\n" + tail;
    KeptOfArticle(url, lines, tail);
    var more := NonBlankLines(ReadLines(tail));
    var body := TerminatedLines(lines) + (["---\n"] + more);
    var kept := NonBlankLines(ReadLines(file));
    assert kept[1..] == body;
    TerminatedNoDivider(lines);
    TextBeforeDivider(TerminatedLines(lines), more);
  }

  /** A "---" line written after some text is the divider followed by its
      line break; stated on plain variables, where the solver proves it
      without the Join terms of the caller in view. */
  lemma DividerLine(text: string, rest: string)
    ensures text + ("---\n" + rest) == text + Divider + ("\n" + rest)
  {
  }

  /** Joining the lines and cutting at the first "---" line keeps the lines
      before it when they hold no "---" themselves. */
  lemma TextBeforeDivider(terminated: seq<string>, more: seq<string>)
    requires var t := Join(terminated, "");
      !Contains(t, Divider) && (t == [] || t[|t| - 1] == '\n')
    ensures Split(Join(terminated + (["---\n"] + more), ""), Divider)[0] == Join(terminated, "")
  {
    var text := Join(terminated, "");
    var rest := Join(more, "");
    var whole := Join(terminated + (["---\n"] + more), "");
    ConcatAppend(terminated, ["---\n"] + more);
    ConcatCons("---\n", more);
    DividerLine(text, rest);
    SplitHead(whole, Divider);
    BeforeSeparator(text, Divider, "\n" + rest);
  }

  /** read_news_article of the article file gives back the written text
      lines, each with its line break, without the URL and the blank lines. */
  lemma ArticleTextReadBack(url: string, lines: seq<string>, words: seq<string>, defs: seq<string>)
    requires Separable(url, lines, words, defs)
    requires url != [] && !IsSpace(url[0])
    requires forall k :: 0 <= k < |lines| ==> CleanLine(lines[k])
    ensures ReadNewsArticle(ArticleFile(url, Blocks(lines), words, defs)) == Join(TerminatedLines(lines), "")
  {
    var tail := VocabBlock(words) + "\n\n---\n\n" + DefinitionBlock(defs);
    var head := url + "\n\n" + Blocks(lines) + "---\n";
    assert head + VocabBlock(words) + "\n\n---\n\n" + DefinitionBlock(defs) == head + tail;
    ReadNewsArticleOf(url, lines, tail);
  }

  /** The article file always has the two dividers main writes, so
      get_vocab and save_quiz_vocab never raise IndexError on it, whatever
      the URL, the text and the lists hold. */
  lemma ArticleFileReadable(url: string, text: string, words: seq<string>, defs: seq<string>, today: string)
    ensures GetVocab(ArticleFile(url, text, words, defs)).Success?
    ensures SaveQuizVocab(ArticleFile(url, text, words, defs), today, url).Success?
  {
    var a := url + "\n\n" + text;
    var b := "\n" + VocabBlock(words) + "\n\n";
    var c := "\n\n" + DefinitionBlock(defs);
    assert ArticleFile(url, text, words, defs) == a + Divider + b + Divider + c;
    TwoOccurrences(a, b, c, Divider);
    SplitSegments(ArticleFile(url, text, words, defs));
  }

}
