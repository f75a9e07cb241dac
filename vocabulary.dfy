/**
  The vocabulary dictionary main builds from the article's dictionary anchors
  (main.py:295-316): surface form -> reading, as a Python dict that keeps
  insertion order and is later shrunk in place by the pronunciation quiz.
*/
module Vocabulary {
  import opened PyText
  import opened Collections

  /** A parsed <a class="dicWin"> anchor: its text and the texts of its <rt> tags. */
  datatype Anchor = Anchor(text: string, rts: seq<string>)

  /** The surface forms of the anchors, in document order. */
  function Texts(anchors: seq<Anchor>): (ts: seq<string>)
    ensures |ts| == |anchors|
    ensures forall i :: 0 <= i < |anchors| ==> ts[i] == anchors[i].text
  {
    if anchors == [] then []
    else Texts(anchors[..|anchors| - 1]) + [anchors[|anchors| - 1].text]
  }

  /** The dict after assigning every anchor in turn: a later anchor with the
      same surface form overwrites the earlier reading. */
  function ReadingMap(anchors: seq<Anchor>): (m: map<string, string>)
    ensures forall k :: k in m <==> k in Texts(anchors)
  {
    if anchors == [] then map[]
    else
      var last := anchors[|anchors| - 1];
      ReadingMap(anchors[..|anchors| - 1])[last.text := Join(last.rts, " ")]
  }

  /** The reading stored for a surface form is the one of its LAST anchor. */
  lemma {:induction false} ReadingMapLastWins(anchors: seq<Anchor>, i: nat)
    requires i < |anchors|
    requires forall j :: i < j < |anchors| ==> anchors[j].text != anchors[i].text
    ensures anchors[i].text in ReadingMap(anchors)
    ensures ReadingMap(anchors)[anchors[i].text] == Join(anchors[i].rts, " ")
  {
    var p := anchors[..|anchors| - 1];
    if i < |anchors| - 1 {
      ReadingMapLastWins(p, i);
    }
  }

  /** The reading loop of main.py:304-314: the rt texts joined with single
      spaces, or "" when the anchor has no rt. */
  method ReadingOf(rts: seq<string>) returns (furigana: string)
    ensures furigana == Join(rts, " ")
  {
    if rts == [] {
      furigana := "";
      return;
    }
    furigana := "";
    var i := 0;
    while i < |rts|
      invariant 0 <= i <= |rts|
      invariant furigana == Join(rts[..i], " ")
    {
      var curr := rts[i];
      JoinSnoc(rts[..i], curr, " ");
      if i > 0 {
        furigana := furigana + " " + curr;
      } else {
        furigana := curr;
      }
      assert rts[..i + 1] == rts[..i] + [curr];
      i := i + 1;
    }
    assert rts[..i] == rts;
  }

  /** The reconciliation splits the reading on " " again: that gives back the
      rt texts exactly when none of them holds a space itself. */
  lemma ReadingTokens(rts: seq<string>)
    requires rts != []
    requires forall k :: 0 <= k < |rts| ==> ' ' !in rts[k]
    ensures Split(Join(rts, " "), " ") == rts
  {
    JoinSplit(rts, " ");
  }

  /** A Python dict from surface forms to readings, with its insertion order. */
  class VocabularyDict {
    var keys: seq<string>
    var values: map<string, string>

    ghost predicate Valid()
      reads this
    {
      Distinct(keys) && (forall k :: k in keys <==> k in values)
    }

    /** The number of entries, len(d). */
    function Size(): nat
      reads this
    {
      |keys|
    }

    /** {} */
    constructor()
      ensures Valid() && keys == [] && values == map[]
    {
      keys := [];
      values := map[];
    }

    /** d[k] = v: a new key goes to the end, an existing key keeps its place. */
    method Put(k: string, v: string)
      requires Valid()
      modifies this
      ensures Valid()
      ensures values == old(values)[k := v]
      ensures keys == if k in old(values) then old(keys) else old(keys) + [k]
    {
      if k !in values {
        keys := keys + [k];
      }
      values := values[k := v];
    }

    /** d.pop(k) for a key that is present. */
    method Pop(k: string) returns (v: string)
      requires Valid() && k in values
      modifies this
      ensures Valid()
      ensures v == old(values)[k]
      ensures values == old(values) - {k}
      ensures keys == Without(old(keys), k)
      ensures |keys| == |old(keys)| - 1
    {
      v := values[k];
      WithoutLength(keys, k);
      keys := Without(keys, k);
      values := values - {k};
    }
  }

  /** main.py:295-316: one dict entry per distinct surface form, in order of
      first appearance, holding the reading of its last anchor. */
  method BuildVocabulary(anchors: seq<Anchor>) returns (d: VocabularyDict)
    ensures fresh(d) && d.Valid()
    ensures d.keys == Dedup(Texts(anchors))
    ensures d.values == ReadingMap(anchors)
  {
    d := new VocabularyDict();
    var i := 0;
    while i < |anchors|
      invariant 0 <= i <= |anchors|
      invariant fresh(d) && d.Valid()
      invariant d.keys == Dedup(Texts(anchors[..i]))
      invariant d.values == ReadingMap(anchors[..i])
    {
      var word := anchors[i].text;
      var furigana := ReadingOf(anchors[i].rts);
      d.Put(word, furigana);
      assert anchors[..i + 1][..i] == anchors[..i];
      i := i + 1;
    }
    assert anchors[..i] == anchors;
  }

  /** The dict's keys are exactly the surface forms, each once, ordered by
      first appearance. */
  lemma VocabularyKeys(anchors: seq<Anchor>)
    ensures Distinct(Dedup(Texts(anchors)))
    ensures forall k :: k in Dedup(Texts(anchors)) <==> k in ReadingMap(anchors)
  {
    DedupMembers(Texts(anchors));
  }
}
