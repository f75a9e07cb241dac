/**
  Choosing today's article (get_news_url): up to ten looks at the NHK News
  Web Easy home page; each look keeps the article links (those holding the
  "k1001" marker), takes the second to ninth of them, drops duplicates and
  the articles with fewer than three dictionary words, and picks one of the
  rest at random.

  The browser is an oracle: `pages(a)` is what attempt a saw (the page, or a
  navigation failure); `counts(a, url)` is the word count that attempt
  measured for url; `pick(a)` is the index random.choice chose.
*/
module Lister {
  import opened Wrappers
  import opened PyText
  import opened Collections

  const MaxUrlCheckingAttempts: nat := 10
  const MinUrlWordCount: nat := 3
  const NewsArticleUrlIdentifier: string := "k1001"

  /** The message of the RuntimeError, also written to the log. */
  const NoLinkMessage: string := "10回の試行後、3語以上のリンクが見つかりませんでした。"

  /** What one attempt saw: the hrefs of the page's links, in page order, or
      a navigation failure (WebDriverException). */
  datatype Page = Unreachable | Loaded(hrefs: seq<string>)

  /** The result of get_news_url, and the log file it leaves behind (None
      when it does not write one). */
  datatype UrlOutcome = UrlOutcome(result: Result<string>, log: Option<string>)

  /** The hrefs that contain the article marker, in page order. */
  function NewsLinks(hrefs: seq<string>): (r: seq<string>)
    ensures forall u :: u in r <==> u in hrefs && Contains(u, NewsArticleUrlIdentifier)
  {
    if hrefs == [] then []
    else
      var rest := NewsLinks(hrefs[1..]);
      if Find(hrefs[0], NewsArticleUrlIdentifier).Some? then [hrefs[0]] + rest else rest
  }

  /** news_links[1:9], with Python's clamping of slice bounds. */
  function Window(links: seq<string>): (r: seq<string>)
    ensures |r| <= 8
    ensures forall u :: u in r <==> exists j :: 1 <= j < 9 && j < |links| && links[j] == u
  {
    var lo := if |links| < 1 then |links| else 1;
    var hi := if |links| < 9 then |links| else 9;
    SliceMembers(links, lo, hi);
    links[lo..hi]
  }

  /** The members of a slice are the elements at the indices it spans. */
  lemma SliceMembers<T>(s: seq<T>, lo: nat, hi: nat)
    requires lo <= hi <= |s|
    ensures forall u :: u in s[lo..hi] <==> exists j :: lo <= j < hi && s[j] == u
  {
    forall u | u in s[lo..hi]
      ensures exists j :: lo <= j < hi && s[j] == u
    {
      var i :| 0 <= i < hi - lo && s[lo..hi][i] == u;
      assert s[lo + i] == u;
    }
    forall j | lo <= j < hi
      ensures s[j] in s[lo..hi]
    {
      assert s[lo..hi][j - lo] == s[j];
    }
  }

  /** The candidates whose word count reaches the minimum, in order. */
  function WordFilter(cands: seq<string>, counts: (nat, string) -> nat, a: nat): (r: seq<string>)
    ensures forall u :: u in r <==> u in cands && counts(a, u) >= MinUrlWordCount
    ensures Distinct(cands) ==> Distinct(r)
  {
    if cands == [] then []
    else
      var rest := WordFilter(cands[1..], counts, a);
      if counts(a, cands[0]) >= MinUrlWordCount then [cands[0]] + rest else rest
  }

  /** The links attempt a may choose from. */
  function Survivors(hrefs: seq<string>, counts: (nat, string) -> nat, a: nat): seq<string> {
    var window := Window(NewsLinks(hrefs));
    WordFilter(Dedup(window), counts, a)
  }

  /** A link that attempt a may return: an article link among the second to
      ninth article links of the page, with enough dictionary words. */
  ghost predicate Qualifies(hrefs: seq<string>, counts: (nat, string) -> nat, a: nat, u: string) {
    var links := NewsLinks(hrefs);
    && Contains(u, NewsArticleUrlIdentifier)
    && (exists j :: 1 <= j < 9 && j < |links| && links[j] == u)
    && counts(a, u) >= MinUrlWordCount
  }

  /** The survivors are exactly the qualifying links, each once. */
  lemma SurvivorsQualify(hrefs: seq<string>, counts: (nat, string) -> nat, a: nat)
    ensures Distinct(Survivors(hrefs, counts, a))
    ensures forall u :: u in Survivors(hrefs, counts, a) <==> Qualifies(hrefs, counts, a, u)
  {
    var links := NewsLinks(hrefs);
    var window := Window(links);
    DedupMembers(window);
    forall u
      ensures u in Survivors(hrefs, counts, a) <==> Qualifies(hrefs, counts, a, u)
    {
      if u in window {
        var j :| 1 <= j < 9 && j < |links| && links[j] == u;
        assert u in links;
      }
    }
  }

  /** What one attempt ends with: the page could not be loaded, or the
      links it may choose from. */
  datatype Look = NavigationFailed | Candidates(links: seq<string>)

  /** The look of every attempt. */
  function Looks(pages: nat -> Page, counts: (nat, string) -> nat): (looks: nat -> Look)
    ensures forall a :: looks(a).NavigationFailed? <==> pages(a).Unreachable?
    ensures forall a :: pages(a).Loaded? ==> looks(a) == Candidates(Survivors(pages(a).hrefs, counts, a))
  {
    (a: nat) =>
      match pages(a)
      case Unreachable => NavigationFailed
      case Loaded(hrefs) => Candidates(Survivors(hrefs, counts, a))
  }

  /** The outcome of the attempts from a on. */
  function Search(looks: nat -> Look, pick: nat -> nat, a: nat): Result<string>
    requires a <= MaxUrlCheckingAttempts
    decreases MaxUrlCheckingAttempts - a
  {
    if a == MaxUrlCheckingAttempts then Failure(RuntimeError(NoLinkMessage))
    else
      match looks(a)
      case NavigationFailed => Failure(ConnectionError)
      case Candidates(s) =>
        if s != [] then Success(s[pick(a) % |s|]) else Search(looks, pick, a + 1)
  }

  /** get_news_url: the chosen link, or the error and the log it writes. */
  function NewsUrl(pages: nat -> Page, counts: (nat, string) -> nat, pick: nat -> nat, today: string): UrlOutcome {
    var r := Search(Looks(pages, counts), pick, 0);
    UrlOutcome(r, if r == Failure(RuntimeError(NoLinkMessage)) then Some(today + "\n" + NoLinkMessage) else None)
  }

  /** Attempt a loaded the page and found nothing to choose from. */
  predicate Empty(looks: nat -> Look, a: nat) {
    looks(a) == Candidates([])
  }

  /** The attempts from a on return u at attempt k. */
  ghost predicate ChosenAt(looks: nat -> Look, a: nat, k: nat, u: string) {
    && a <= k < MaxUrlCheckingAttempts
    && looks(k).Candidates?
    && u in looks(k).links
    && (forall j :: a <= j < k ==> Empty(looks, j))
  }

  /** A returned link is one of the candidates of the attempt that chose it,
      and every earlier attempt found nothing. */
  lemma {:induction false} SearchFound(looks: nat -> Look, pick: nat -> nat, a: nat)
    requires a <= MaxUrlCheckingAttempts
    ensures var r := Search(looks, pick, a);
      r.Success? ==> exists k :: ChosenAt(looks, a, k, r.value)
    decreases MaxUrlCheckingAttempts - a
  {
    var r := Search(looks, pick, a);
    if a < MaxUrlCheckingAttempts && looks(a).Candidates? {
      var s := looks(a).links;
      if s != [] {
        assert ChosenAt(looks, a, a, r.value);
      } else if r.Success? {
        SearchFound(looks, pick, a + 1);
        var b := a + 1;
        var k: nat :| ChosenAt(looks, b, k, r.value);
        assert ChosenAt(looks, a, k, r.value);
      }
    }
  }

  /** The attempts give up with the RuntimeError exactly when every one of
      them loaded the page and found nothing. */
  lemma {:induction false} SearchExhausted(looks: nat -> Look, pick: nat -> nat, a: nat)
    requires a <= MaxUrlCheckingAttempts
    ensures Search(looks, pick, a) == Failure(RuntimeError(NoLinkMessage))
      <==> forall k :: a <= k < MaxUrlCheckingAttempts ==> Empty(looks, k)
    decreases MaxUrlCheckingAttempts - a
  {
    if a < MaxUrlCheckingAttempts {
      SearchExhausted(looks, pick, a + 1);
      if forall k :: a + 1 <= k < MaxUrlCheckingAttempts ==> Empty(looks, k) {
        if Empty(looks, a) {
          assert forall k :: a <= k < MaxUrlCheckingAttempts ==> Empty(looks, k);
        }
      }
    }
  }

  /** The attempts from a on fail to connect at attempt k. */
  ghost predicate FailedAt(looks: nat -> Look, a: nat, k: nat) {
    && a <= k < MaxUrlCheckingAttempts
    && looks(k).NavigationFailed?
    && (forall j :: a <= j < k ==> Empty(looks, j))
  }

  /** A navigation failure ends the search at once with ConnectionError:
      the error comes from the first attempt that could not load the page,
      after attempts that all found nothing. */
  lemma {:induction false} SearchConnection(looks: nat -> Look, pick: nat -> nat, a: nat)
    requires a <= MaxUrlCheckingAttempts
    ensures Search(looks, pick, a) == Failure(ConnectionError)
      <==> exists k :: FailedAt(looks, a, k)
    decreases MaxUrlCheckingAttempts - a
  {
    if a < MaxUrlCheckingAttempts {
      SearchConnection(looks, pick, a + 1);
      if looks(a).NavigationFailed? {
        assert FailedAt(looks, a, a);
      } else if Empty(looks, a) {
        var b := a + 1;
        if k: nat :| FailedAt(looks, b, k) {
          assert FailedAt(looks, a, k);
        }
        if k: nat :| FailedAt(looks, a, k) {
          assert FailedAt(looks, b, k);
        }
      }
    }
  }

  /** Attempt a loaded the page and found nothing to choose from. */
  ghost predicate Fruitless(pages: nat -> Page, counts: (nat, string) -> nat, a: nat) {
    pages(a).Loaded? && Survivors(pages(a).hrefs, counts, a) == []
  }

  /** get_news_url returns a link that qualifies on the attempt that chose
      it, after attempts that all loaded the page and found nothing. */
  lemma NewsUrlFound(pages: nat -> Page, counts: (nat, string) -> nat, pick: nat -> nat, today: string)
    ensures var r := NewsUrl(pages, counts, pick, today).result;
      r.Success? ==> exists k :: (0 <= k < MaxUrlCheckingAttempts && pages(k).Loaded?
        && Qualifies(pages(k).hrefs, counts, k, r.value)
        && forall j :: 0 <= j < k ==> Fruitless(pages, counts, j))
  {
    var looks := Looks(pages, counts);
    var r := Search(looks, pick, 0);
    SearchFound(looks, pick, 0);
    if r.Success? {
      var k: nat :| ChosenAt(looks, 0, k, r.value);
      SurvivorsQualify(pages(k).hrefs, counts, k);
      assert forall j :: 0 <= j < k ==> Fruitless(pages, counts, j) by {
        forall j | 0 <= j < k ensures Fruitless(pages, counts, j) {
          assert Empty(looks, j);
        }
      }
    }
  }

  /** get_news_url raises ConnectionError exactly when some attempt could
      not load the page after attempts that all found nothing. */
  lemma NewsUrlConnection(pages: nat -> Page, counts: (nat, string) -> nat, pick: nat -> nat, today: string)
    ensures NewsUrl(pages, counts, pick, today).result == Failure(ConnectionError)
      <==> exists k :: (0 <= k < MaxUrlCheckingAttempts && pages(k).Unreachable?
        && forall j :: 0 <= j < k ==> Fruitless(pages, counts, j))
  {
    var looks := Looks(pages, counts);
    SearchConnection(looks, pick, 0);
    FruitlessEmpty(pages, counts);
    if k: nat :| FailedAt(looks, 0, k) {
      assert 0 <= k < MaxUrlCheckingAttempts && pages(k).Unreachable?;
    }
    if k: nat :| k < MaxUrlCheckingAttempts && pages(k).Unreachable? && forall j :: 0 <= j < k ==> Fruitless(pages, counts, j) {
      assert FailedAt(looks, 0, k);
    }
  }

  /** A fruitless attempt is one whose look is empty. */
  lemma FruitlessEmpty(pages: nat -> Page, counts: (nat, string) -> nat)
    ensures forall a :: Fruitless(pages, counts, a) <==> Empty(Looks(pages, counts), a)
  {
  }

  /** The log is written, with the date line and the message, exactly when
      the RuntimeError is raised, that is when every attempt loaded the page
      and found nothing; it is never written otherwise. */
  lemma NewsUrlLog(pages: nat -> Page, counts: (nat, string) -> nat, pick: nat -> nat, today: string)
    ensures var o := NewsUrl(pages, counts, pick, today);
      && (o.log.Some? <==> forall k :: 0 <= k < MaxUrlCheckingAttempts ==> Fruitless(pages, counts, k))
      && (o.log.Some? ==> o.log.value == today + "\n" + NoLinkMessage && o.result.Failure?)
  {
    SearchExhausted(Looks(pages, counts), pick, 0);
    FruitlessEmpty(pages, counts);
  }

  /** The attempt loop of get_news_url. */
  method GetNewsUrl(pages: nat -> Page, counts: (nat, string) -> nat, pick: nat -> nat, today: string)
    returns (o: UrlOutcome)
    ensures o == NewsUrl(pages, counts, pick, today)
  {
    var a := 0;
    while a < MaxUrlCheckingAttempts
      invariant a <= MaxUrlCheckingAttempts
      invariant Search(Looks(pages, counts), pick, a) == Search(Looks(pages, counts), pick, 0)
      decreases MaxUrlCheckingAttempts - a
    {
      match pages(a) {
        case Unreachable =>
          return UrlOutcome(Failure(ConnectionError), None);
        case Loaded(hrefs) =>
          var current := Survivors(hrefs, counts, a);
          if current != [] {
            return UrlOutcome(Success(current[pick(a) % |current|]), None);
          }
      }
      a := a + 1;
    }
    return UrlOutcome(Failure(RuntimeError(NoLinkMessage)), Some(today + "\n" + NoLinkMessage));
  }
}
