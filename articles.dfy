/** The fields of an article (src/lib/articles.ts) that the tag pages, the URL builder and the RSS feed read. */
module Articles {

  datatype Article = Article(
    slug: string,
    category: string,
    headline: string,
    subheadline: string,
    publishedAt: string,
    tags: seq<string>)
}
