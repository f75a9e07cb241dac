/**
  Scraping the dictionary definitions of an article (get_definition.py):
  the vocabulary words are the page elements whose id starts with "RSHOK-",
  each id once in document order; hovering over each one shows a dictionary
  box whose text, with its whitespace removed and its first "1" replaced by a
  sense marker, becomes that word's definition entry.

  The page is given as the ids of its elements in document order and the
  browser's tooltip as an oracle from id to the box's text. The optional
  progress callback is recorded as events in the order the program makes
  them.
*/
module Definitions {
  import opened PyText
  import opened Collections

  /** The id prefix of a dictionary word (the regular expression ^RSHOK-). */
  const IdPrefix: string := "RSHOK-"

  /** The replacement for the first "1" of an entry; it is the UTF-8 bytes of
      "：" read as Windows-1252 text, followed by " 1". */
  const SenseMarker: string := "\U{EF}\U{BC}\U{161} 1"

  predicate MatchesIdPattern(id: string) {
    |IdPrefix| <= |id| && id[..|IdPrefix|] == IdPrefix
  }

  /** The ids soup.find_all(id=PATTERN) finds, in document order. */
  function MatchingIds(elementIds: seq<string>): (r: seq<string>)
    ensures forall x :: x in r <==> x in elementIds && MatchesIdPattern(x)
  {
    if elementIds == [] then []
    else
      var rest := MatchingIds(elementIds[1..]);
      if MatchesIdPattern(elementIds[0]) then [elementIds[0]] + rest else rest
  }

  /** get_number_of_word: the number of vocabulary ids and the ids themselves. */
  function NumberOfWord(elementIds: seq<string>): (nat, seq<string>) {
    var ids := Dedup(MatchingIds(elementIds));
    (|ids|, ids)
  }

  /** The vocabulary ids are the matching ids, each once, in the order of
      their first appearance, and the count is their number. */
  lemma NumberOfWordSpec(elementIds: seq<string>)
    ensures var (n, ids) := NumberOfWord(elementIds);
      && n == |ids|
      && Distinct(ids)
      && (forall x :: x in ids <==> x in elementIds && MatchesIdPattern(x))
      && (forall i, j :: 0 <= i < j < |ids| ==>
            FirstIndex(MatchingIds(elementIds), ids[i]) < FirstIndex(MatchingIds(elementIds), ids[j]))
  {
    DedupMembers(MatchingIds(elementIds));
    DedupOrder(MatchingIds(elementIds));
  }

  /** The text of one dictionary box, as the program stores it:
      "".join(text.split()) and then .replace("1", SenseMarker, 1). */
  function Normalise(text: string): string {
    ReplaceFirst(Join(Words(text), ""), "1", SenseMarker)
  }

  /** An entry is the box text without whitespace, with its first "1"
      turned into the sense marker; without a "1" it is the box text
      without whitespace and holds no whitespace at all. */
  lemma NormaliseSpec(text: string)
    ensures var squeezed := NonSpace(text);
      && (!Contains(squeezed, "1") ==> Normalise(text) == squeezed && NoSpace(Normalise(text)))
      && (Contains(squeezed, "1") ==>
            Normalise(text) == Before(squeezed, "1") + SenseMarker + After(squeezed, "1"))
  {
    JoinWords(text);
  }

  /** What get_definition_list records: an entry appended to the list, or a
      call of the progress callback with (index, total). */
  datatype Event = Appended(entry: string) | Progress(index: nat, total: nat)

  /** The entries for the first k ids. */
  function Entries(ids: seq<string>, tooltip: string -> string, k: nat): (r: seq<string>)
    requires k <= |ids|
    ensures |r| == k
    ensures forall i :: 0 <= i < k ==> r[i] == Normalise(tooltip(ids[i]))
  {
    if k == 0 then [] else Entries(ids, tooltip, k - 1) + [Normalise(tooltip(ids[k - 1]))]
  }

  /** The events of the first k iterations of the loop over the entries. */
  function Trace(entries: seq<string>, withCallback: bool, k: nat): seq<Event>
    requires k <= |entries|
  {
    if k == 0 then []
    else
      Trace(entries, withCallback, k - 1)
        + [Appended(entries[k - 1])]
        + (if withCallback then [Progress(k, |entries|)] else [])
  }

  /** With a callback, each entry is followed by exactly one call, whose
      index counts the entries so far (1 .. total) and whose total is the
      number of entries. */
  lemma {:induction false} TraceWithCallback(entries: seq<string>, k: nat)
    requires k <= |entries|
    ensures var t := Trace(entries, true, k);
      && |t| == 2 * k
      && (forall i :: 0 <= i < k ==>
            t[2 * i] == Appended(entries[i]) && t[2 * i + 1] == Progress(i + 1, |entries|))
  {
    if k > 0 {
      TraceWithCallback(entries, k - 1);
    }
  }

  /** Without a callback the loop only appends, one event per entry. */
  lemma {:induction false} TraceWithoutCallback(entries: seq<string>, k: nat)
    requires k <= |entries|
    ensures var t := Trace(entries, false, k);
      && |t| == k
      && (forall i :: 0 <= i < k ==> t[i] == Appended(entries[i]))
  {
    if k > 0 {
      TraceWithoutCallback(entries, k - 1);
    }
  }

  /** get_definition_list: one entry per vocabulary id, in id order, and the
      events of the callback interleaved with the appends. */
  method GetDefinitionList(elementIds: seq<string>, tooltip: string -> string, withCallback: bool)
    returns (definitionList: seq<string>, events: seq<Event>)
    ensures var ids := NumberOfWord(elementIds).1;
      && definitionList == Entries(ids, tooltip, |ids|)
      && events == Trace(definitionList, withCallback, |ids|)
  {
    var matchingIds := NumberOfWord(elementIds).1;
    var totalIds := |matchingIds|;
    definitionList := [];
    events := [];
    var index := 1;
    while index <= totalIds
      invariant 1 <= index <= totalIds + 1
      invariant definitionList == Entries(matchingIds, tooltip, index - 1)
      invariant events == Trace(Entries(matchingIds, tooltip, totalIds), withCallback, index - 1)
    {
      var textContent := tooltip(matchingIds[index - 1]);
      textContent := Join(Words(textContent), "");
      textContent := ReplaceFirst(textContent, "1", SenseMarker);
      definitionList := definitionList + [textContent];
      events := events + [Appended(textContent)];
      if withCallback {
        events := events + [Progress(index, totalIds)];
      }
      index := index + 1;
    }
  }
}
