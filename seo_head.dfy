/**
 * The OpenGraph and Twitter-card records behind the SEO head. The page
 * origin, which the site reads from the browser window, is a parameter:
 * the empty string stands for rendering without a window.
 */
module SeoHead {
  import opened Wrappers
  import opened JsStrings

  datatype OGTagsInput = OGTagsInput(title: string, description: string, image: Option<string>, url: Option<string>, pageType: Option<string>)

  datatype OGTags = OGTags(ogTitle: string, ogDescription: string, ogImage: string, ogUrl: string, ogType: string)

  const DefaultOgImage: string := "/img/og-default.png"
  const DefaultOgType: string := "website"

  /** `generateOGTags` with `window.location.origin` given as `baseUrl`. */
  function GenerateOGTags(input: OGTagsInput, baseUrl: string): (r: OGTags)
    ensures r.ogTitle == input.title && r.ogDescription == input.description
  {
    OGTags(input.title, input.description,
      Or(input.image, DefaultOgImage),
      if Truthy(input.url) then baseUrl + input.url.value else baseUrl,
      Or(input.pageType, DefaultOgType))
  }

  /** Image and type fall back to their defaults exactly when not given as non-empty strings. */
  lemma OGDefaults(input: OGTagsInput, baseUrl: string)
    ensures GenerateOGTags(input, baseUrl).ogImage == (if Truthy(input.image) then input.image.value else DefaultOgImage)
    ensures GenerateOGTags(input, baseUrl).ogType == (if Truthy(input.pageType) then input.pageType.value else DefaultOgType)
    ensures GenerateOGTags(input, baseUrl).ogImage != ""
    ensures GenerateOGTags(input, baseUrl).ogType != ""
  {
  }

  /**
   * The page URL is the origin followed by the path, an absent path
   * counting as empty: the conditional of the source agrees with plain
   * concatenation.
   */
  lemma OGUrlIsConcatenation(input: OGTagsInput, baseUrl: string)
    ensures GenerateOGTags(input, baseUrl).ogUrl == baseUrl + input.url.GetOr("")
  {
    if !Truthy(input.url) {
      assert baseUrl + "" == baseUrl;
    }
  }

  /** Without a window the URL is just the path. */
  lemma OGUrlWithoutWindow(input: OGTagsInput)
    ensures GenerateOGTags(input, "").ogUrl == input.url.GetOr("")
  {
    OGUrlIsConcatenation(input, "");
  }

  datatype TwitterInput = TwitterInput(title: string, description: string, image: Option<string>)

  datatype TwitterMeta = TwitterMeta(card: string, title: string, description: string, image: string)

  const TwitterCard: string := "summary_large_image"
  const DefaultTwitterImage: string := "/img/twitter-default.png"

  /** `generateTwitterMeta`: always a large-image card; the title and description are copied. */
  function GenerateTwitterMeta(input: TwitterInput): (r: TwitterMeta)
    ensures r.card == TwitterCard
    ensures r.title == input.title && r.description == input.description
  {
    TwitterMeta(TwitterCard, input.title, input.description, Or(input.image, DefaultTwitterImage))
  }

  /** The image is the given one when non-empty, otherwise the Twitter default. */
  lemma TwitterImage(input: TwitterInput)
    ensures Truthy(input.image) ==> GenerateTwitterMeta(input).image == input.image.value
    ensures !Truthy(input.image) ==> GenerateTwitterMeta(input).image == DefaultTwitterImage
  {
  }
}
