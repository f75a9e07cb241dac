/**
  Furigana reconciliation (main.py:318-352): each dictionary entry
  surface -> reading is rendered as one annotated word such as
  話(はな)し合(あ)う.  The rules are modelled as the program runs them,
  including two behaviours the comments of the program do not announce:
  the look-ahead test on the next character is always true, so every
  non-hiragana character takes a reading token; and once the tokens run out
  every "(whole reading)" already written is deleted again.
*/
module Furigana {
  import opened Wrappers
  import opened PyText
  import opened Collections
  import opened Vocabulary

  /** is_hiragana_char: the Hiragana block U+3040 .. U+309F. */
  predicate IsHiragana(c: char) {
    '\U{3040}' <= c <= '\U{309F}'
  }

  predicate HasHiragana(s: string) {
    exists i :: 0 <= i < |s| && IsHiragana(s[i])
  }

  /** The state of the rendering loop: the text written so far and the
      reading tokens not yet used (the deque). */
  datatype Progress = Progress(word: string, kana: seq<string>)

  /** Whether the loop annotates character i of the padded key: the test of
      main.py:332-336, whose third conjunct is a non-empty string and so
      always true. */
  predicate Annotates(keyp: string, i: nat)
    requires i < |keyp|
  {
    !IsHiragana(keyp[i]) && i + 1 < |keyp|
  }

  /** One iteration of the loop of main.py:331-344 on character c. */
  function Step(p: Progress, c: char, annotate: bool, value: string): Progress {
    if !annotate then Progress(p.word + [c], p.kana)
    else if p.kana != [] then Progress(p.word + [c] + "(" + p.kana[0] + ")", p.kana[1..])
    else Progress(ReplaceAll(p.word + [c], "(" + value + ")", ""), p.kana)
  }

  /** The loop state after the first k characters of the padded key. */
  function Walk(keyp: string, value: string, k: nat): Progress
    requires k <= |keyp|
  {
    if k == 0 then Progress("", Split(value, " "))
    else Step(Walk(keyp, value, k - 1), keyp[k - 1], Annotates(keyp, k - 1), value)
  }

  /** The word main.py:318-352 appends to the formatted list for key: value. */
  function Reconcile(key: string, value: string): string {
    var combine := HasHiragana(key);
    var keyp := if combine then key + " " else key;
    var word := if combine then Walk(keyp, value, |keyp|).word else "";
    if word != "" then ReplaceAll(word, " ", "")
    else ReplaceAll(keyp + "(" + value + ")", "()", "")
  }

  /** The flag loop of main.py:322-325. */
  method ContainsHiragana(key: string) returns (combine: bool)
    ensures combine == HasHiragana(key)
  {
    combine := false;
    var j := 0;
    while j < |key|
      invariant 0 <= j <= |key|
      invariant combine <==> exists i :: 0 <= i < j && IsHiragana(key[i])
    {
      if IsHiragana(key[j]) {
        combine := true;
      }
      j := j + 1;
    }
  }

  /** The rendering loop of main.py:330-344 over the padded key. */
  method RenderPadded(keyp: string, value: string) returns (word: string)
    ensures word == Walk(keyp, value, |keyp|).word
  {
    word := "";
    var kana := Split(value, " ");
    var i := 0;
    while i < |keyp|
      invariant 0 <= i <= |keyp|
      invariant Progress(word, kana) == Walk(keyp, value, i)
    {
      var c := keyp[i];
      if !IsHiragana(c) && i + 1 < |keyp| {
        if kana != [] {
          word := word + [c] + "(" + kana[0] + ")";
          kana := kana[1..];
        } else {
          word := word + [c];
          word := ReplaceAll(word, "(" + value + ")", "");
        }
      } else {
        word := word + [c];
      }
      i := i + 1;
    }
  }

  /** The body of main.py:320-352 for one entry. */
  method FormatWord(key: string, value: string) returns (formatted: string)
    ensures formatted == Reconcile(key, value)
  {
    var word := "";
    var combine := ContainsHiragana(key);
    var keyp := key;
    if combine {
      keyp := key + " ";
      word := RenderPadded(keyp, value);
    }
    if word != "" {
      formatted := ReplaceAll(word, " ", "");
    } else {
      formatted := keyp + "(" + value + ")";
      if Find(formatted, "()").Some? {
        formatted := ReplaceAll(formatted, "()", "");
      } else {
        ReplaceAllAbsent(formatted, "()", "");
      }
    }
  }

  /** The formatted words of main.py:320-352, one per key in key order,
      each key rendered with its reading (by `Reconcile` in the program). */
  function Formatted(keys: seq<string>, readings: map<string, string>, render: (string, string) -> string)
    : (r: seq<string>)
    requires forall k :: k in keys ==> k in readings
    ensures |r| == |keys|
  {
    if keys == [] then []
    else Formatted(keys[..|keys| - 1], readings, render) + [render(keys[|keys| - 1], readings[keys[|keys| - 1]])]
  }

  /** The i-th formatted word is the i-th key rendered with its reading. */
  lemma {:induction false} FormattedAt(keys: seq<string>, readings: map<string, string>,
                                       render: (string, string) -> string, i: nat)
    requires forall k :: k in keys ==> k in readings
    requires i < |keys|
    ensures Formatted(keys, readings, render)[i] == render(keys[i], readings[keys[i]])
  {
    var n := |keys| - 1;
    if i < n {
      var front := keys[..n];
      FormattedAt(front, readings, render, i);
      assert front[i] == keys[i];
    }
  }

  /** main.py:320-352 over the whole dict, in its key order. */
  method FormatWordList(d: VocabularyDict) returns (words: seq<string>)
    requires d.Valid()
    ensures words == Formatted(d.keys, d.values, Reconcile)
  {
    var keys, values := d.keys, d.values;
    words := [];
    var i := 0;
    while i < |keys|
      invariant 0 <= i <= |keys|
      invariant words == Formatted(keys[..i], values, Reconcile)
    {
      var key := keys[i];
      var w := FormatWord(key, values[key]);
      assert keys[..i + 1][..i] == keys[..i];
      words := words + [w];
      i := i + 1;
    }
    assert keys[..i] == keys;
  }

  // ---------------------------------------------------------------------
  // Surface forms without hiragana

  /** A text in which no '(' is directly followed by ')' holds no "()". */
  lemma NoPair(s: string)
    requires forall i :: 0 <= i < |s| - 1 ==> s[i] == '(' ==> s[i + 1] != ')'
    ensures !Contains(s, "()")
  {
    forall i: nat
      ensures !OccursAt(s, "()", i)
    {
      if i + 2 <= |s| {
        assert s[i..i + 2][0] == s[i];
        assert s[i..i + 2][1] == s[i + 1];
      }
    }
  }

  /** A surface form without hiragana, brackets or an empty reading renders
      as surface(reading), spaces of a multi-token reading included. */
  lemma {:induction false} NoHiraganaAnnotated(key: string, value: string)
    requires !HasHiragana(key)
    requires '(' !in key && ')' !in key && '(' !in value && ')' !in value
    requires value != ""
    ensures Reconcile(key, value) == key + "(" + value + ")"
  {
    var s := key + "(" + value + ")";
    forall i | 0 <= i < |s| - 1
      ensures s[i] == '(' ==> s[i + 1] != ')'
    {
      if i < |key| {
        assert s[i] == key[i];
      } else if i == |key| {
        assert s[i + 1] == value[0];
      } else {
        assert s[i] == value[i - |key| - 1];
      }
    }
    NoPair(s);
    ReplaceAllAbsent(s, "()", "");
  }

  /** An empty reading (a katakana word) gives the bare surface form. */
  lemma {:induction false} NoHiraganaEmptyReading(key: string)
    requires !HasHiragana(key)
    requires '(' !in key && ')' !in key
    ensures Reconcile(key, "") == key
  {
    var s := key + "()";
    assert key + "(" + "" + ")" == s;
    NoPair(key);
    FindAfterPrefix(key, "()", "");
    assert s == key + "()" + "";
    SplitCons(key, "()", "");
    SplitWhole("", "()");
    assert Split(s, "()") == [key, ""];
    JoinCons(key, [""], "");
    assert [key] + [""] == [key, ""];
    assert ReplaceAll(s, "()", "") == key;
  }

  // ---------------------------------------------------------------------
  // Surface forms with hiragana and enough reading tokens

  /** The number of non-hiragana characters in s. */
  function CountAnnotated(s: string): (n: nat)
    ensures n <= |s|
  {
    if s == [] then 0
    else CountAnnotated(s[..|s| - 1]) + (if IsHiragana(s[|s| - 1]) then 0 else 1)
  }

  /** The rendering the loop aims at: hiragana copied, and the n-th
      non-hiragana character followed by the n-th reading token in brackets
      while tokens last; the characters after that are copied bare. */
  function Interleave(key: string, toks: seq<string>): string {
    if key == [] then ""
    else
      var p := key[..|key| - 1];
      var c := key[|key| - 1];
      var n := CountAnnotated(p);
      Interleave(p, toks) + if IsHiragana(c) || n >= |toks| then [c] else [c] + "(" + toks[n] + ")"
  }

  lemma {:induction false} CountPrefix(s: string, k: nat)
    requires k <= |s|
    ensures CountAnnotated(s[..k]) <= CountAnnotated(s)
    decreases |s|
  {
    if k < |s| {
      assert s[..|s| - 1][..k] == s[..k];
      CountPrefix(s[..|s| - 1], k);
    } else {
      assert s[..k] == s;
    }
  }

  /** While tokens last, the loop has written Interleave of the prefix and
      used one token per non-hiragana character. */
  lemma {:induction false} WalkEnough(key: string, value: string, k: nat)
    requires k <= |key|
    requires CountAnnotated(key) <= |Split(value, " ")|
    ensures CountAnnotated(key[..k]) <= |Split(value, " ")|
    ensures Walk(key + " ", value, k) ==
      Progress(Interleave(key[..k], Split(value, " ")), Split(value, " ")[CountAnnotated(key[..k])..])
  {
    var toks := Split(value, " ");
    CountPrefix(key, k);
    if k > 0 {
      WalkEnough(key, value, k - 1);
      var p := key[..k - 1];
      assert key[..k][..k - 1] == p;
      var c := key[k - 1];
      assert (key + " ")[k - 1] == c;
      if !IsHiragana(c) {
        assert CountAnnotated(key[..k]) == CountAnnotated(p) + 1;
        var rest := toks[CountAnnotated(p)..];
        assert rest != [] && rest[0] == toks[CountAnnotated(p)];
        assert rest[1..] == toks[CountAnnotated(key[..k])..];
      }
    }
  }

  /** With at least one reading token per non-hiragana character, a surface
      form containing hiragana renders as Interleave with every space
      removed: the trailing pad and the spaces of the key alike. */
  lemma {:induction false} ReconcileEnoughTokens(key: string, value: string)
    requires HasHiragana(key)
    requires CountAnnotated(key) <= |Split(value, " ")|
    ensures Reconcile(key, value) == DeleteChar(Interleave(key, Split(value, " ")), ' ')
  {
    var keyp := key + " ";
    WalkEnough(key, value, |key|);
    assert key[..|key|] == key;
    assert !Annotates(keyp, |key|);
    var w := Interleave(key, Split(value, " "));
    assert Walk(keyp, value, |keyp|).word == w + " ";
    ReplaceCharByNothing(w + " ", ' ');
    DeleteCharAppend(w, " ", ' ');
  }

  // ---------------------------------------------------------------------
  // Worked examples

  lemma InterleaveHanashiau()
    ensures CountAnnotated("話し合う") == 2
    ensures Interleave("話し合う", ["はな", "あ"]) == "話(はな)し合(あ)う"
  {
    var key := "話し合う";
    var toks := ["はな", "あ"];
    assert key[..1] == "話" && key[..2] == "話し" && key[..3] == "話し合";
    assert CountAnnotated("話") == 1;
    assert CountAnnotated("話し") == 1;
    assert CountAnnotated("話し合") == 2;
    assert Interleave("話", toks) == "話(はな)";
    assert Interleave("話し", toks) == "話(はな)し";
    assert Interleave("話し合", toks) == "話(はな)し合(あ)";
  }

  lemma SpacelessHanashiau()
    ensures DeleteChar("話(はな)し合(あ)う", ' ') == "話(はな)し合(あ)う"
  {
    DeleteCharAbsent("話(はな)し合(あ)う", ' ');
  }

  /** The example of the program's own comment at main.py:318. */
  lemma ExampleHanashiau()
    ensures Reconcile("話し合う", "はな あ") == "話(はな)し合(あ)う"
  {
    assert IsHiragana("話し合う"[1]);
    JoinSplit(["はな", "あ"], " ");
    assert Join(["はな", "あ"], " ") == "はな あ";
    InterleaveHanashiau();
    SpacelessHanashiau();
    ReconcileEnoughTokens("話し合う", "はな あ");
  }

  lemma InterleaveBenkyousuru()
    ensures CountAnnotated("勉強する") == 2
    ensures Interleave("勉強する", ["べん", "きょう"]) == "勉(べん)強(きょう)する"
  {
    var key := "勉強する";
    var toks := ["べん", "きょう"];
    assert key[..1] == "勉" && key[..2] == "勉強" && key[..3] == "勉強す";
    assert CountAnnotated("勉") == 1;
    assert CountAnnotated("勉強") == 2;
    assert CountAnnotated("勉強す") == 2;
    assert Interleave("勉", toks) == "勉(べん)";
    assert Interleave("勉強", toks) == "勉(べん)強(きょう)";
    assert Interleave("勉強す", toks) == "勉(べん)強(きょう)す";
  }

  /** Every non-hiragana character takes a token, also one followed by
      another kanji: the look-ahead of main.py:335 does not hold it back. */
  lemma ExampleEveryKanjiAnnotated()
    ensures Reconcile("勉強する", "べん きょう") == "勉(べん)強(きょう)する"
  {
    assert IsHiragana("勉強する"[2]);
    JoinSplit(["べん", "きょう"], " ");
    assert Join(["べん", "きょう"], " ") == "べん きょう";
    InterleaveBenkyousuru();
    DeleteCharAbsent("勉(べん)強(きょう)する", ' ');
    ReconcileEnoughTokens("勉強する", "べん きょう");
  }

  // ---------------------------------------------------------------------
  // Surface forms with hiragana and more non-hiragana characters than
  // reading tokens

  /** A reading token as the walk writes it between brackets. */
  predicate CleanToken(t: string) {
    ' ' !in t && '(' !in t && ')' !in t
  }

  /** The tokens of a reading hold no space, and no bracket when the
      reading holds none. */
  lemma TokensClean(value: string)
    requires '(' !in value && ')' !in value
    ensures forall k :: 0 <= k < |Split(value, " ")| ==> CleanToken(Split(value, " ")[k])
  {
    var toks := Split(value, " ");
    SplitPartsFree(value, " ");
    forall k | 0 <= k < |toks|
      ensures CleanToken(toks[k])
    {
      CharContains(toks[k], ' ');
      if '(' in toks[k] {
        SplitPartWithin(value, " ", k, '(');
      }
      if ')' in toks[k] {
        SplitPartWithin(value, " ", k, ')');
      }
    }
  }

  /** Every '(' of s is closed later in s, and closed before any later
      space or '('. */
  ghost predicate Closed(s: string) {
    && (forall i, m :: 0 <= i < m < |s| && s[i] == '(' && (s[m] == ' ' || s[m] == '(') ==>
          exists e :: i < e < m && s[e] == ')')
    && (forall i :: 0 <= i < |s| && s[i] == '(' ==> exists e :: i < e < |s| && s[e] == ')')
  }

  lemma ClosedPlain(s: string, c: char)
    requires Closed(s) && c != '('
    ensures Closed(s + [c])
  {
    var t := s + [c];
    forall i, m | 0 <= i < m < |t| && t[i] == '(' && (t[m] == ' ' || t[m] == '(')
      ensures exists e :: i < e < m && t[e] == ')'
    {
      assert s[i] == '(';
      var e: int;
      if m < |s| {
        e :| i < e < m && s[e] == ')';
      } else {
        e :| i < e < |s| && s[e] == ')';
      }
      assert t[e] == ')';
    }
    forall i | 0 <= i < |t| && t[i] == '('
      ensures exists e :: i < e < |t| && t[e] == ')'
    {
      assert s[i] == '(';
      var e :| i < e < |s| && s[e] == ')';
      assert t[e] == ')';
    }
  }

  lemma ClosedAnnotated(s: string, tok: string)
    requires Closed(s) && CleanToken(tok)
    ensures Closed(s + "(" + tok + ")")
  {
    var t := s + "(" + tok + ")";
    var z := |t| - 1;
    assert t[|s|] == '(' && t[z] == ')';
    forall j | |s| < j < |t|
      ensures t[j] != '(' && t[j] != ' '
    {
      if j < z {
        assert t[j] == tok[j - |s| - 1];
      }
    }
    forall i, m | 0 <= i < m < |t| && t[i] == '(' && (t[m] == ' ' || t[m] == '(')
      ensures exists e :: i < e < m && t[e] == ')'
    {
      if i < |s| {
        assert s[i] == '(';
        var e: int;
        if m < |s| {
          e :| i < e < m && s[e] == ')';
        } else {
          e :| i < e < |s| && s[e] == ')';
        }
        assert t[e] == ')';
      }
    }
    forall i | 0 <= i < |t| && t[i] == '('
      ensures exists e :: i < e < |t| && t[e] == ')'
    {
      if i < |s| {
        assert s[i] == '(';
        var e :| i < e < |s| && s[e] == ')';
        assert t[e] == ')';
      }
    }
  }

  /** The rendering with bracket-free characters and tokens keeps every
      bracket it opens closed. */
  lemma {:induction false} ClosedInterleave(key: string, toks: seq<string>)
    requires '(' !in key
    requires forall k :: 0 <= k < |toks| ==> CleanToken(toks[k])
    ensures Closed(Interleave(key, toks))
  {
    if key != [] {
      var p := key[..|key| - 1];
      var c := key[|key| - 1];
      assert '(' !in p by {
        assert forall j :: 0 <= j < |p| ==> p[j] == key[j];
      }
      ClosedInterleave(p, toks);
      ClosedPlain(Interleave(p, toks), c);
      var n := CountAnnotated(p);
      if !IsHiragana(c) && n < |toks| {
        ClosedAnnotated(Interleave(p, toks) + [c], toks[n]);
        assert Interleave(key, toks) == Interleave(p, toks) + [c] + "(" + toks[n] + ")";
      }
    }
  }

  /** A text with no '(' does not hold "(value)". */
  lemma NoOpenNoReading(s: string, value: string)
    requires '(' !in s
    ensures !Contains(s, "(" + value + ")")
  {
    forall i: nat
      ensures !OccursAt(s, "(" + value + ")", i)
    {
      if i + |value| + 2 <= |s| {
        assert s[i..i + |value| + 2][0] == s[i];
      }
    }
  }

  /** A reading with a space cannot be found between brackets of a text
      whose brackets are all closed before any space. */
  lemma NoReadingIn(s: string, value: string)
    requires Closed(s) && ' ' in value && ')' !in value
    ensures !Contains(s, "(" + value + ")")
  {
    var pat := "(" + value + ")";
    var j :| 0 <= j < |value| && value[j] == ' ';
    assert pat[0] == '(' && pat[1 + j] == ' ';
    forall i: nat
      ensures !OccursAt(s, pat, i)
    {
      if i + |pat| <= |s| {
        var w := s[i..i + |pat|];
        if s[i] != '(' {
          assert w[0] != pat[0];
        } else if s[i + 1 + j] != ' ' {
          assert w[1 + j] != pat[1 + j];
        } else {
          var e :| i < e < i + 1 + j && s[e] == ')';
          assert pat[e - i] == value[e - i - 1];
          assert w[e - i] != pat[e - i];
        }
      }
    }
  }

  /** Once the tokens have run out, the deletion of "(value)" finds nothing
      in what was written, when value holds a space. */
  lemma NothingToDelete(p: string, c: char, value: string)
    requires '(' !in p && c != '('
    requires ' ' in value && '(' !in value && ')' !in value
    ensures var w := Interleave(p, Split(value, " ")) + [c];
      ReplaceAll(w, "(" + value + ")", "") == w
  {
    var toks := Split(value, " ");
    TokensClean(value);
    ClosedInterleave(p, toks);
    ClosedPlain(Interleave(p, toks), c);
    NoReadingIn(Interleave(p, toks) + [c], value);
    ReplaceAllAbsent(Interleave(p, toks) + [c], "(" + value + ")", "");
  }

  /** The walk over the padded key after k characters is one step after
      k - 1 of them, on the k-th character of the key. */
  lemma WalkLast(key: string, value: string, k: nat)
    requires 0 < k <= |key|
    ensures Walk(key + " ", value, k) ==
      Step(Walk(key + " ", value, k - 1), key[k - 1], !IsHiragana(key[k - 1]), value)
  {
    assert (key + " ")[k - 1] == key[k - 1];
  }

  /** The tokens not yet used after the rendering of p. */
  function Unused(p: string, toks: seq<string>): seq<string> {
    var n := CountAnnotated(p);
    toks[if n < |toks| then n else |toks|..]
  }

  /** The walk's state with two or more tokens: the rendering so far and
      the tokens not yet used. */
  function SeveralTokensState(p: string, toks: seq<string>): Progress {
    Progress(Interleave(p, toks), Unused(p, toks))
  }

  /** One step of the walk with two or more tokens. */
  lemma StepSeveralTokens(p: string, c: char, value: string)
    requires '(' !in p && c != '('
    requires ' ' in value && '(' !in value && ')' !in value
    ensures var toks := Split(value, " ");
      Step(SeveralTokensState(p, toks), c, !IsHiragana(c), value) == SeveralTokensState(p + [c], toks)
  {
    var toks := Split(value, " ");
    if IsHiragana(c) {
      StepKana(p, c, toks, value);
    } else if CountAnnotated(p) < |toks| {
      StepAnnotated(p, c, toks, value);
    } else {
      StepBare(p, c, value);
    }
  }

  /** A hiragana character is copied and uses no token. */
  lemma StepKana(p: string, c: char, toks: seq<string>, value: string)
    requires IsHiragana(c)
    ensures Step(SeveralTokensState(p, toks), c, false, value) == SeveralTokensState(p + [c], toks)
  {
    assert (p + [c])[..|p|] == p;
  }

  /** A non-hiragana character takes the next token while one is left. */
  lemma StepAnnotated(p: string, c: char, toks: seq<string>, value: string)
    requires !IsHiragana(c) && CountAnnotated(p) < |toks|
    ensures Step(SeveralTokensState(p, toks), c, true, value) == SeveralTokensState(p + [c], toks)
  {
    var n := CountAnnotated(p);
    assert (p + [c])[..|p|] == p;
    var rest := toks[n..];
    assert rest[0] == toks[n];
    assert rest[1..] == toks[n + 1..];
    assert Interleave(p, toks) + [c] + "(" + toks[n] + ")" == Interleave(p + [c], toks);
  }

  /** Once the tokens have run out, a non-hiragana character is copied bare
      and the deletion finds nothing. */
  lemma StepBare(p: string, c: char, value: string)
    requires '(' !in p && c != '(' && !IsHiragana(c)
    requires ' ' in value && '(' !in value && ')' !in value
    requires CountAnnotated(p) >= |Split(value, " ")|
    ensures var toks := Split(value, " ");
      Step(SeveralTokensState(p, toks), c, true, value) == SeveralTokensState(p + [c], toks)
  {
    assert (p + [c])[..|p|] == p;
    NothingToDelete(p, c, value);
  }

  /** The step of StepSeveralTokens on the k-th character of a key. */
  lemma StepSeveralTokensAt(key: string, value: string, k: nat)
    requires '(' !in key && 0 < k <= |key|
    requires ' ' in value && '(' !in value && ')' !in value
    ensures var toks := Split(value, " ");
      Step(SeveralTokensState(key[..k - 1], toks), key[k - 1], !IsHiragana(key[k - 1]), value) ==
      SeveralTokensState(key[..k], toks)
  {
    var p := key[..k - 1];
    assert p + [key[k - 1]] == key[..k];
    PrefixNoOpen(key, k - 1);
    StepSeveralTokens(p, key[k - 1], value);
  }

  /** With two or more tokens, the walk annotates the non-hiragana
      characters while tokens last and copies the rest bare: the
      deletion of "(value)" at main.py:341 never finds anything to delete,
      because every token lacks the space that value holds. */
  lemma {:induction false} WalkSeveralTokens(key: string, value: string, k: nat)
    requires k <= |key|
    requires '(' !in key && ' ' in value && '(' !in value && ')' !in value
    ensures var toks := Split(value, " ");
      Walk(key + " ", value, k) == SeveralTokensState(key[..k], toks)
  {
    if k > 0 {
      WalkSeveralTokens(key, value, k - 1);
      WalkLast(key, value, k);
      StepSeveralTokensAt(key, value, k);
    }
  }

  /** A reading of two or more tokens: whether or not they run out, the
      word is the rendering that annotates only the first tokens' worth of
      non-hiragana characters, with every space removed. */
  lemma {:induction false} ReconcileSeveralTokens(key: string, value: string)
    requires HasHiragana(key)
    requires '(' !in key && ' ' in value && '(' !in value && ')' !in value
    ensures |Split(value, " ")| >= 2
    ensures Reconcile(key, value) == DeleteChar(Interleave(key, Split(value, " ")), ' ')
  {
    CharContains(value, ' ');
    SplitHasTwo(value, " ");
    var keyp := key + " ";
    WalkSeveralTokens(key, value, |key|);
    assert key[..|key|] == key;
    assert !Annotates(keyp, |key|);
    var w := Interleave(key, Split(value, " "));
    assert Walk(keyp, value, |keyp|).word == w + " ";
    ReplaceCharByNothing(w + " ", ' ');
    DeleteCharAppend(w, " ", ' ');
  }

  /** A key without non-hiragana characters renders as itself. */
  lemma {:induction false} InterleaveNone(p: string, toks: seq<string>)
    requires CountAnnotated(p) == 0
    ensures Interleave(p, toks) == p
  {
    if p != [] {
      var q := p[..|p| - 1];
      InterleaveNone(q, toks);
      assert p == q + [p[|p| - 1]];
    }
  }

  /** With one token and one non-hiragana character, the rendering is the
      key with "(value)" inserted once. */
  lemma {:induction false} InterleaveOneToken(p: string, value: string) returns (x: string, y: string)
    requires CountAnnotated(p) == 1
    ensures Interleave(p, [value]) == x + "(" + value + ")" + y && x + y == p
  {
    var q := p[..|p| - 1];
    var c := p[|p| - 1];
    assert p == q + [c];
    if CountAnnotated(q) == 0 {
      InterleaveNone(q, [value]);
      x, y := p, "";
    } else {
      var x', y' := InterleaveOneToken(q, value);
      x, y := x', y' + [c];
    }
  }

  /** Deleting the one "(value)" of a text with no other '('. */
  lemma DeleteReading(x: string, value: string, y: string)
    requires '(' !in x && '(' !in y
    ensures ReplaceAll(x + "(" + value + ")" + y, "(" + value + ")", "") == x + y
  {
    var pat := "(" + value + ")";
    var s := x + pat + y;
    assert x + "(" + value + ")" + y == s;
    assert OccursAt(s, pat, |x|) by {
      assert s[|x|..|x| + |pat|] == pat;
    }
    forall j | 0 <= j < |x|
      ensures !OccursAt(s, pat, j)
    {
      if j + |pat| <= |s| {
        assert s[j..j + |pat|][0] == x[j];
      }
    }
    FindIsFirst(s, pat, |x|);
    SplitCons(x, pat, y);
    NoOpenNoReading(y, value);
    SplitWhole(y, pat);
    assert Split(s, pat) == [x, y];
    assert Join([x, y], "") == x + "" + y;
    assert x + "" + y == x + y;
  }

  /** The second non-hiragana character under a single token: the one
      annotation written so far is deleted. */
  lemma SecondDeletes(p: string, c: char, value: string)
    requires CountAnnotated(p) == 1 && '(' !in p && c != '('
    ensures ReplaceAll(Interleave(p, [value]) + [c], "(" + value + ")", "") == p + [c]
  {
    var x, y := InterleaveOneToken(p, value);
    assert '(' !in x && '(' !in y by {
      assert forall j :: 0 <= j < |x| ==> x[j] == p[j];
      assert forall j :: 0 <= j < |y| ==> y[j] == p[|x| + j];
    }
    assert Interleave(p, [value]) + [c] == x + "(" + value + ")" + (y + [c]);
    DeleteReading(x, value, y + [c]);
  }

  /** The walk's state under a single token: the key so far while no
      non-hiragana character was met, the key with its one annotation after
      the first, and the bare key from the second on. */
  function SingleTokenState(p: string, value: string): Progress {
    var n := CountAnnotated(p);
    if n == 0 then Progress(p, [value])
    else if n == 1 then Progress(Interleave(p, [value]), [])
    else Progress(p, [])
  }

  /** One step of the walk with a single token. */
  lemma StepSingleToken(p: string, c: char, value: string)
    requires '(' !in p && c != '('
    ensures Step(SingleTokenState(p, value), c, !IsHiragana(c), value) == SingleTokenState(p + [c], value)
  {
    var n := CountAnnotated(p);
    assert (p + [c])[..|p|] == p;
    if n == 0 {
      InterleaveNone(p, [value]);
      if IsHiragana(c) {
        InterleaveNone(p + [c], [value]);
      } else {
        assert p + [c] + "(" + value + ")" == Interleave(p + [c], [value]);
      }
    } else if n == 1 {
      if !IsHiragana(c) {
        SecondDeletes(p, c, value);
      }
    } else if !IsHiragana(c) {
      NoOpenNoReading(p + [c], value);
      ReplaceAllAbsent(p + [c], "(" + value + ")", "");
    }
  }

  /** Before the first character, the deque holds the whole reading. */
  lemma SingleTokenStart(key: string, value: string)
    requires ' ' !in value
    ensures Walk(key + " ", value, 0) == SingleTokenState(key[..0], value)
  {
    NoCharNoOccurrence(value, " ");
    SplitWhole(value, " ");
  }

  /** The step of StepSingleToken on the k-th character of a key. */
  lemma StepSingleTokenAt(key: string, value: string, k: nat)
    requires '(' !in key && 0 < k <= |key|
    ensures Step(SingleTokenState(key[..k - 1], value), key[k - 1], !IsHiragana(key[k - 1]), value) ==
      SingleTokenState(key[..k], value)
  {
    var p := key[..k - 1];
    assert p + [key[k - 1]] == key[..k];
    PrefixNoOpen(key, k - 1);
    StepSingleToken(p, key[k - 1], value);
  }

  /** A prefix of a key without '(' has none either. */
  lemma PrefixNoOpen(key: string, k: nat)
    requires '(' !in key && k <= |key|
    ensures '(' !in key[..k]
  {
    assert forall j :: 0 <= j < k ==> key[..k][j] == key[j];
  }

  /** With a single token, the first non-hiragana character takes it, the
      second finds the deque empty and deletes that annotation again, and
      from then on every character is copied bare. */
  lemma {:induction false} WalkSingleToken(key: string, value: string, k: nat)
    requires k <= |key|
    requires '(' !in key && ' ' !in value
    ensures Walk(key + " ", value, k) == SingleTokenState(key[..k], value)
  {
    if k == 0 {
      SingleTokenStart(key, value);
    } else {
      WalkSingleToken(key, value, k - 1);
      WalkLast(key, value, k);
      StepSingleTokenAt(key, value, k);
    }
  }

  /** A reading of a single token for a key with two or more non-hiragana
      characters: the annotation is deleted once the tokens run out, and the
      bare key comes back, without its spaces. */
  lemma {:induction false} ReconcileSingleToken(key: string, value: string)
    requires HasHiragana(key) && CountAnnotated(key) >= 2
    requires '(' !in key && ' ' !in value
    ensures Split(value, " ") == [value]
    ensures Reconcile(key, value) == DeleteChar(key, ' ')
  {
    NoCharNoOccurrence(value, " ");
    SplitWhole(value, " ");
    var keyp := key + " ";
    WalkSingleToken(key, value, |key|);
    assert key[..|key|] == key;
    assert !Annotates(keyp, |key|);
    assert Walk(keyp, value, |keyp|).word == keyp;
    ReplaceCharByNothing(keyp, ' ');
    DeleteCharAppend(key, " ", ' ');
  }

  /** The rendering writes one '(' per token used. */
  lemma {:induction false} InterleaveBrackets(key: string, toks: seq<string>)
    requires '(' !in key
    requires forall k :: 0 <= k < |toks| ==> '(' !in toks[k]
    ensures var n := CountAnnotated(key);
      multiset(Interleave(key, toks))['('] == if n < |toks| then n else |toks|
  {
    if key != [] {
      var p := key[..|key| - 1];
      var c := key[|key| - 1];
      assert '(' !in p by {
        assert forall j :: 0 <= j < |p| ==> p[j] == key[j];
      }
      InterleaveBrackets(p, toks);
      var n := CountAnnotated(p);
      var seg := if IsHiragana(c) || n >= |toks| then [c] else [c] + "(" + toks[n] + ")";
      assert Interleave(key, toks) == Interleave(p, toks) + seg;
      assert multiset(Interleave(key, toks)) == multiset(Interleave(p, toks)) + multiset(seg);
      if !IsHiragana(c) && n < |toks| {
        assert multiset(toks[n])['('] == 0;
        assert multiset(seg) == multiset([c]) + multiset("(") + multiset(toks[n]) + multiset(")");
      }
    }
  }

  /** However many tokens the reading has, the word never carries more
      bracketed readings than there are tokens. */
  lemma ReconcileBracketBound(key: string, value: string)
    requires '(' !in key && ')' !in key && '(' !in value && ')' !in value
    ensures multiset(Reconcile(key, value))['('] <= |Split(value, " ")|
  {
    if HasHiragana(key) {
      CombinedBracketBound(key, value);
    } else if value == "" {
      NoHiraganaEmptyReading(key);
    } else {
      NoHiraganaAnnotated(key, value);
      assert key + "(" + value + ")" == key + ['('] + value + [')'];
    }
  }

  /** The bound for a key with hiragana, case by case on how the tokens
      compare with the non-hiragana characters. */
  lemma CombinedBracketBound(key: string, value: string)
    requires HasHiragana(key)
    requires '(' !in key && ')' !in key && '(' !in value && ')' !in value
    ensures multiset(Reconcile(key, value))['('] <= |Split(value, " ")|
  {
    var toks := Split(value, " ");
    var w: string;
    if CountAnnotated(key) <= |toks| {
      ReconcileEnoughTokens(key, value);
      w := Interleave(key, toks);
      TokensClean(value);
      InterleaveBrackets(key, toks);
    } else if ' ' in value {
      ReconcileSeveralTokens(key, value);
      w := Interleave(key, toks);
      TokensClean(value);
      InterleaveBrackets(key, toks);
    } else {
      ReconcileSingleToken(key, value);
      w := key;
    }
    DeleteCharKeeps(w, ' ', '(');
  }

  /** A single token for two kanji: the second kanji finds the deque empty,
      and deleting "(べんきょう)" removes the annotation already written. */
  lemma ExampleTokensExhausted()
    ensures Reconcile("勉強する", "べんきょう") == "勉強する"
  {
    assert IsHiragana("勉強する"[2]);
    assert CountAnnotated("勉強する") == 2 by {
      InterleaveBenkyousuru();
    }
    ReconcileSingleToken("勉強する", "べんきょう");
    DeleteCharAbsent("勉強する", ' ');
  }
}
