/**
 * The application-wide article cache: a record from GTIN to article that starts
 * empty and is replaced, on each `setArticle`, by a copy with one entry set.
 */
module ArticleCache {
  import opened Model

  /** The cache before any article has been set. */
  const NoArticles: map<JsString, Article> := map[]

  /** The cache after `setArticle(article)`: the article is stored under its GTIN, over any earlier entry. */
  function SetArticle(articles: map<JsString, Article>, article: Article): (r: map<JsString, Article>)
    ensures article.gtin in r && r[article.gtin] == article
    ensures forall g :: g in articles && g != article.gtin ==> g in r && r[g] == articles[g]
    ensures r.Keys == articles.Keys + {article.gtin}
  {
    articles[article.gtin := article]
  }

  /** The number of cached articles grows by one exactly when the GTIN was new. */
  lemma SetArticleSize(articles: map<JsString, Article>, article: Article)
    ensures article.gtin in articles ==> |SetArticle(articles, article)| == |articles|
    ensures article.gtin !in articles ==> |SetArticle(articles, article)| == |articles| + 1
  {
    var r := SetArticle(articles, article);
    if article.gtin in articles {
      assert r.Keys == articles.Keys;
    } else {
      assert |r.Keys| == |articles.Keys + {article.gtin}| == |articles.Keys| + 1;
    }
  }

  /** Setting the same article twice is setting it once. */
  lemma SetArticleIdempotent(articles: map<JsString, Article>, article: Article)
    ensures SetArticle(SetArticle(articles, article), article) == SetArticle(articles, article)
  {
  }

  /** For one GTIN the last article set wins. */
  lemma LastSetWins(articles: map<JsString, Article>, first: Article, second: Article)
    requires first.gtin == second.gtin
    ensures SetArticle(SetArticle(articles, first), second) == SetArticle(articles, second)
  {
  }

  /** Articles with different GTINs can be set in either order. */
  lemma SetArticleCommutes(articles: map<JsString, Article>, a: Article, b: Article)
    requires a.gtin != b.gtin
    ensures SetArticle(SetArticle(articles, a), b) == SetArticle(SetArticle(articles, b), a)
  {
  }

  /** The cache after `setArticle` has been called with each of `updates`, in order. */
  function SetArticles(articles: map<JsString, Article>, updates: seq<Article>): (r: map<JsString, Article>)
    ensures articles.Keys <= r.Keys
    decreases |updates|
  {
    if updates == [] then articles else SetArticles(SetArticle(articles, updates[0]), updates[1..])
  }

  /** One more call acts on the cache the earlier calls left. */
  lemma {:induction false} SetArticlesSnoc(articles: map<JsString, Article>, updates: seq<Article>, last: Article)
    ensures SetArticles(articles, updates + [last]) == SetArticle(SetArticles(articles, updates), last)
    decreases |updates|
  {
    if updates == [] {
      assert updates + [last] == [last];
    } else {
      assert (updates + [last])[0] == updates[0];
      assert (updates + [last])[1..] == updates[1..] + [last];
      SetArticlesSnoc(SetArticle(articles, updates[0]), updates[1..], last);
    }
  }

  /** A GTIN no call mentions keeps its entry, or its absence. */
  lemma {:induction false} UntouchedGtin(articles: map<JsString, Article>, updates: seq<Article>, gtin: JsString)
    requires forall i :: 0 <= i < |updates| ==> updates[i].gtin != gtin
    ensures gtin in SetArticles(articles, updates) <==> gtin in articles
    ensures gtin in articles ==> SetArticles(articles, updates)[gtin] == articles[gtin]
    decreases |updates|
  {
    if updates != [] {
      UntouchedGtin(SetArticle(articles, updates[0]), updates[1..], gtin);
    }
  }

  /** After any history, a GTIN maps to the last article set for it. */
  lemma LastUpdateWins(articles: map<JsString, Article>, before: seq<Article>, article: Article, after: seq<Article>)
    requires forall i :: 0 <= i < |after| ==> after[i].gtin != article.gtin
    ensures article.gtin in SetArticles(articles, before + [article] + after)
    ensures SetArticles(articles, before + [article] + after)[article.gtin] == article
  {
    SetArticlesAppend(articles, before + [article], after);
    SetArticlesSnoc(articles, before, article);
    UntouchedGtin(SetArticles(articles, before + [article]), after, article.gtin);
  }

  /** A history of calls can be split anywhere. */
  lemma {:induction false} SetArticlesAppend(articles: map<JsString, Article>, first: seq<Article>, second: seq<Article>)
    ensures SetArticles(articles, first + second) == SetArticles(SetArticles(articles, first), second)
    decreases |first|
  {
    if first == [] {
      assert first + second == second;
    } else {
      assert (first + second)[0] == first[0];
      assert (first + second)[1..] == first[1..] + second;
      SetArticlesAppend(SetArticle(articles, first[0]), first[1..], second);
    }
  }

  /** The GTINs of a run of calls. */
  function Gtins(updates: seq<Article>): set<JsString>
  {
    set i | 0 <= i < |updates| :: updates[i].gtin
  }

  /** The GTINs of a run are its first call's and those of the rest. */
  lemma GtinsCons(updates: seq<Article>)
    requires updates != []
    ensures Gtins(updates) == {updates[0].gtin} + Gtins(updates[1..])
  {
    var all, rest := Gtins(updates), Gtins(updates[1..]);
    forall g | g in all ensures g in {updates[0].gtin} + rest {
      var i :| 0 <= i < |updates| && updates[i].gtin == g;
      if i > 0 {
        assert updates[1..][i - 1].gtin == g;
      }
    }
    forall g | g in rest ensures g in all {
      var i :| 0 <= i < |updates[1..]| && updates[1..][i].gtin == g;
      assert updates[i + 1].gtin == g;
    }
    assert updates[0].gtin in all;
  }

  /** After any history of calls, the cached GTINs are the earlier ones and those set. */
  lemma {:induction false} CachedGtins(articles: map<JsString, Article>, updates: seq<Article>)
    ensures SetArticles(articles, updates).Keys == articles.Keys + Gtins(updates)
    decreases |updates|
  {
    if updates != [] {
      CachedGtins(SetArticle(articles, updates[0]), updates[1..]);
      GtinsCons(updates);
    }
  }

  /** The cache starts empty, so it holds exactly the GTINs that have been set. */
  lemma CachedFromEmpty(updates: seq<Article>)
    ensures SetArticles(NoArticles, updates).Keys == Gtins(updates)
  {
    CachedGtins(NoArticles, updates);
  }
}
