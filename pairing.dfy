/**
  Pairing the vocabulary keys with the scraped definitions (main.py:367-376):
  zip walks both lists by position; a definition holding a full-width colon
  "：" yields key + "：" + the text after its first colon, and one without it
  is skipped (the IndexError of split("：", 1)[1] is swallowed).
*/
module Pairing {
  import opened Wrappers
  import opened PyText

  /** The full-width colon U+FF1A that separates a headword from its meaning. */
  const Colon: string := "："

  function Min(a: nat, b: nat): nat {
    if a <= b then a else b
  }

  /** The entry for one (key, definition) pair, or None when the definition
      has no colon. */
  function Entry(key: string, def: string): Option<string> {
    var parts := SplitOnce(def, Colon);
    if |parts| == 2 then Some(key + Colon + parts[1]) else None
  }

  /** A definition yields an entry exactly when it holds a colon, and the
      entry is the key, a colon, and the text after the first colon. */
  lemma EntryMeaning(key: string, def: string)
    ensures Entry(key, def).None? <==> !Contains(def, Colon)
    ensures Entry(key, def).Some? ==> Entry(key, def).value == key + Colon + After(def, Colon)
  {
    SplitOnceParts(def, Colon);
  }

  /** The list built from the first n pairs of the zip. */
  function PairedUpTo(keys: seq<string>, defs: seq<string>, n: nat): (r: seq<string>)
    requires n <= |keys| && n <= |defs|
    ensures |r| <= n
  {
    if n == 0 then []
    else
      var e := Entry(keys[n - 1], defs[n - 1]);
      PairedUpTo(keys, defs, n - 1) + if e.Some? then [e.value] else []
  }

  /** definition_list_original_word after the loop. */
  function Paired(keys: seq<string>, defs: seq<string>): (r: seq<string>)
    ensures |r| <= Min(|keys|, |defs|)
  {
    PairedUpTo(keys, defs, Min(|keys|, |defs|))
  }

  /** The loop of main.py:367-376 as written. */
  method PairDefinitions(keys: seq<string>, defs: seq<string>) returns (out: seq<string>)
    ensures out == Paired(keys, defs)
  {
    out := [];
    var n := Min(|keys|, |defs|);
    var i := 0;
    while i < n
      invariant 0 <= i <= n
      invariant out == PairedUpTo(keys, defs, i)
    {
      var key, meaning := keys[i], defs[i];
      var parts := SplitOnce(meaning, Colon);
      if |parts| == 2 {
        out := out + [key + Colon + parts[1]];
      }
      i := i + 1;
    }
  }

  /** The number of definitions among the first n that hold a colon. */
  function CountWithColon(defs: seq<string>, n: nat): (c: nat)
    requires n <= |defs|
    ensures c <= n
  {
    if n == 0 then 0
    else CountWithColon(defs, n - 1) + if Find(defs[n - 1], Colon).Some? then 1 else 0
  }

  /** Exactly the definitions with a colon produce an entry. */
  lemma {:induction false} PairedCount(keys: seq<string>, defs: seq<string>, n: nat)
    requires n <= |keys| && n <= |defs|
    ensures |PairedUpTo(keys, defs, n)| == CountWithColon(defs, n)
  {
    if n > 0 {
      PairedCount(keys, defs, n - 1);
    }
  }

  /** When every definition holds a colon, the output is the zip, entry by
      entry, with nothing skipped. */
  lemma {:induction false} PairedAllColon(keys: seq<string>, defs: seq<string>, n: nat)
    requires n <= |keys| && n <= |defs|
    requires forall i :: 0 <= i < n ==> Entry(keys[i], defs[i]).Some?
    ensures |PairedUpTo(keys, defs, n)| == n
    ensures forall i :: 0 <= i < n ==> PairedUpTo(keys, defs, n)[i] == Entry(keys[i], defs[i]).value
  {
    if n > 0 {
      PairedAllColon(keys, defs, n - 1);
      var r := PairedUpTo(keys, defs, n - 1);
      var e := Entry(keys[n - 1], defs[n - 1]);
      var out := PairedUpTo(keys, defs, n);
      assert out == r + [e.value];
      forall i | 0 <= i < n
        ensures out[i] == Entry(keys[i], defs[i]).value
      {
        if i < n - 1 {
          assert out[i] == r[i];
        } else {
          assert out[i] == e.value;
        }
      }
    }
  }

  /** Every paired definition holds a colon, right after its key. */
  lemma {:induction false} PairedHoldColon(keys: seq<string>, defs: seq<string>, n: nat)
    requires n <= |keys| && n <= |defs|
    ensures forall j :: 0 <= j < |PairedUpTo(keys, defs, n)| ==> Contains(PairedUpTo(keys, defs, n)[j], Colon)
  {
    if n > 0 {
      PairedHoldColon(keys, defs, n - 1);
      var e := Entry(keys[n - 1], defs[n - 1]);
      if e.Some? {
        EntryMeaning(keys[n - 1], defs[n - 1]);
        ContainsInside(keys[n - 1], Colon, After(defs[n - 1], Colon));
      }
    }
  }

  /** Nothing comes out when no definition holds a colon. */
  lemma {:induction false} PairedNoColon(keys: seq<string>, defs: seq<string>, n: nat)
    requires n <= |keys| && n <= |defs|
    requires forall i :: 0 <= i < n ==> !Contains(defs[i], Colon)
    ensures PairedUpTo(keys, defs, n) == []
  {
    if n > 0 {
      PairedNoColon(keys, defs, n - 1);
    }
  }

  /** Every entry starts with the key of its position, so the text before
      its first colon gives the key back when the key has no colon itself. */
  lemma {:induction false} PairedKeys(keys: seq<string>, defs: seq<string>, n: nat)
    requires n <= |keys| && n <= |defs|
    requires forall i :: 0 <= i < n ==> !Contains(keys[i], Colon)
    ensures forall j :: 0 <= j < |PairedUpTo(keys, defs, n)| ==>
      Before(PairedUpTo(keys, defs, n)[j], Colon) in keys[..n]
  {
    if n > 0 {
      PairedKeys(keys, defs, n - 1);
      var e := Entry(keys[n - 1], defs[n - 1]);
      if e.Some? {
        EntryKey(keys[n - 1], After(defs[n - 1], Colon));
      }
      assert forall k :: k in keys[..n - 1] ==> k in keys[..n];
    }
  }

  /** The text before the first colon of key + "：" + rest is key. */
  lemma EntryKey(key: string, rest: string)
    requires !Contains(key, Colon)
    ensures Before(key + Colon + rest, Colon) == key
  {
    CharContains(key, '：');
    FindAfterPrefix(key, Colon, rest);
    assert (key + Colon + rest)[..|key|] == key;
  }
}
