/** The business news feed of StockPricePredictor.py (`business_news_feed`):
    at most fifteen headline articles, each rendered as its title, its image
    when it has one, its content and its link. The HTTP request and the JSON
    decoding are outside the model; the decoded article list is the input. */
module NewsFeed {
  import opened Wrappers

  /** Most articles the feed renders. */
  const MaxArticles := 15

  /** One decoded article; `urlToImage` is null for articles without an image. */
  datatype Article = Article(title: string, urlToImage: Option<string>, content: string, url: string)

  /** What the feed puts on the page, in order. */
  datatype Widget = Subheader(text: string) | Image(src: string) | Write(text: string)

  /** `min(15, len(articles))`. */
  function NewsCount(available: nat): (count: nat)
    ensures count <= MaxArticles && count <= available
    ensures count == MaxArticles || count == available
  {
    if available < MaxArticles then available else MaxArticles
  }

  /** The widgets for one article. Showing the image is attempted inside a
      `try` whose failure is ignored, so an article without an image still has
      its other fields rendered. */
  function ArticleWidgets(a: Article): seq<Widget>
  {
    var image := match a.urlToImage
      case Some(src) => [Image(src)]
      case None => [];
    [Subheader(a.title)] + image + [Write(a.content), Write(a.url)]
  }

  /** The widgets for a run of articles, rendered one after another. */
  function FeedWidgets(articles: seq<Article>): seq<Widget>
    decreases |articles|
  {
    if articles == [] then []
    else FeedWidgets(articles[..|articles| - 1]) + ArticleWidgets(articles[|articles| - 1])
  }

  /** The headline texts on a page, in order. */
  function Headlines(page: seq<Widget>): seq<string>
    decreases |page|
  {
    if page == [] then []
    else Headlines(page[..|page| - 1]) +
         (if page[|page| - 1].Subheader? then [page[|page| - 1].text] else [])
  }

  function Titles(articles: seq<Article>): (ts: seq<string>)
    ensures |ts| == |articles|
    ensures forall i :: 0 <= i < |articles| ==> ts[i] == articles[i].title
  {
    seq(|articles|, i requires 0 <= i < |articles| => articles[i].title)
  }

  /** The loop `for i in range(length)` rendering the first `length` articles.
      Every index it reads is a valid index into the article list. */
  method RenderNewsFeed(articles: seq<Article>) returns (page: seq<Widget>)
    ensures page == FeedWidgets(articles[..NewsCount(|articles|)])
    ensures Headlines(page) == Titles(articles[..NewsCount(|articles|)])
  {
    var length := NewsCount(|articles|);
    page := [];
    for i := 0 to length
      invariant page == FeedWidgets(articles[..i])
    {
      var news := articles[i].title;
      page := page + [Subheader(news)];
      match articles[i].urlToImage {
        case Some(image) => page := page + [Image(image)];
        case None =>
      }
      page := page + [Write(articles[i].content)];
      page := page + [Write(articles[i].url)];
      assert articles[..i + 1][..i] == articles[..i];
    }
    HeadlinesOfFeed(articles[..length]);
  }

  /** Headlines of two pages shown one after the other. */
  lemma {:induction false} HeadlinesAppend(p: seq<Widget>, q: seq<Widget>)
    ensures Headlines(p + q) == Headlines(p) + Headlines(q)
    decreases |q|
  {
    if q != [] {
      var q' := q[..|q| - 1];
      assert (p + q)[..|p + q| - 1] == p + q';
      assert (p + q)[|p + q| - 1] == q[|q| - 1];
      HeadlinesAppend(p, q');
    } else {
      assert p + q == p;
    }
  }

  /** Each article contributes exactly its own title as a headline. */
  lemma ArticleHeadline(a: Article)
    ensures Headlines(ArticleWidgets(a)) == [a.title]
  {
    var w := ArticleWidgets(a);
    var image := if a.urlToImage.Some? then [Image(a.urlToImage.value)] else [];
    assert w == [Subheader(a.title)] + image + [Write(a.content)] + [Write(a.url)];
    HeadlinesAppend([Subheader(a.title)] + image + [Write(a.content)], [Write(a.url)]);
    HeadlinesAppend([Subheader(a.title)] + image, [Write(a.content)]);
    HeadlinesAppend([Subheader(a.title)], image);
    assert Headlines([Subheader(a.title)]) == [a.title] by {
      assert [Subheader(a.title)][..0] == [];
    }
    if image != [] {
      assert image[..0] == [];
    }
    assert [Write(a.content)][..0] == [];
    assert [Write(a.url)][..0] == [];
  }

  /** The headlines of a feed are the articles' titles in order. */
  lemma {:induction false} HeadlinesOfFeed(articles: seq<Article>)
    ensures Headlines(FeedWidgets(articles)) == Titles(articles)
    decreases |articles|
  {
    if articles != [] {
      var init := articles[..|articles| - 1];
      HeadlinesOfFeed(init);
      HeadlinesAppend(FeedWidgets(init), ArticleWidgets(articles[|articles| - 1]));
      ArticleHeadline(articles[|articles| - 1]);
    }
  }

  /** The rendered page carries min(15, n) headlines: the titles of the
      first articles of the list, in the order received. */
  lemma RenderedHeadlines(articles: seq<Article>)
    ensures |Headlines(FeedWidgets(articles[..NewsCount(|articles|)]))| == NewsCount(|articles|)
    ensures forall i :: 0 <= i < NewsCount(|articles|) ==>
              Headlines(FeedWidgets(articles[..NewsCount(|articles|)]))[i] == articles[i].title
  {
    HeadlinesOfFeed(articles[..NewsCount(|articles|)]);
  }
}
