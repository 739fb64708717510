/**
 * The schema.org JSON-LD record builders: article, how-to and web-site
 * records assembled from their inputs with `||` defaults, step numbering
 * and a composed search URL. Free text is copied as given.
 */
module StructuredData {
  import opened Wrappers
  import opened JsStrings

  const SchemaContext: string := "https://schema.org"

  // ---------------------------------------------------------------
  // Article
  // ---------------------------------------------------------------

  datatype ArticleInput = ArticleInput(
    title: string, description: string, datePublished: string,
    dateModified: Option<string>, author: string, image: Option<string>, url: Option<string>)

  datatype Person = Person(schemaType: string, name: string)
  datatype WebPage = WebPage(schemaType: string, id: Option<string>)

  datatype ArticleSchema = ArticleSchema(
    context: string, schemaType: string, headline: string, description: string,
    datePublished: string, dateModified: string, author: Person,
    image: Option<string>, mainEntityOfPage: WebPage)

  /** `generateArticleSchema`; an absent or empty image or url becomes `undefined`. */
  function GenerateArticleSchema(input: ArticleInput): (r: ArticleSchema)
    ensures r.context == SchemaContext && r.schemaType == "Article"
    ensures r.headline == input.title && r.description == input.description
    ensures r.author == Person("Person", input.author)
    ensures r.mainEntityOfPage.schemaType == "WebPage"
  {
    ArticleSchema(SchemaContext, "Article", input.title, input.description,
      input.datePublished, Or(input.dateModified, input.datePublished),
      Person("Person", input.author), OrUndefined(input.image),
      WebPage("WebPage", OrUndefined(input.url)))
  }

  /** The modification date is the given one when it is a non-empty string, otherwise the publication date. */
  lemma ArticleDates(input: ArticleInput)
    ensures GenerateArticleSchema(input).datePublished == input.datePublished
    ensures Truthy(input.dateModified) ==> GenerateArticleSchema(input).dateModified == input.dateModified.value
    ensures !Truthy(input.dateModified) ==> GenerateArticleSchema(input).dateModified == input.datePublished
  {
  }

  /** Image and page id are present exactly when given as non-empty strings, and then verbatim. */
  lemma ArticleOptionalFields(input: ArticleInput)
    ensures GenerateArticleSchema(input).image.Some? <==> Truthy(input.image)
    ensures GenerateArticleSchema(input).image.Some? ==> GenerateArticleSchema(input).image == input.image
    ensures GenerateArticleSchema(input).mainEntityOfPage.id.Some? <==> Truthy(input.url)
    ensures GenerateArticleSchema(input).mainEntityOfPage.id.Some? ==> GenerateArticleSchema(input).mainEntityOfPage.id == input.url
  {
  }

  // ---------------------------------------------------------------
  // HowTo
  // ---------------------------------------------------------------

  datatype HowToStep = HowToStep(name: string, text: string, image: Option<string>)
  datatype HowToInput = HowToInput(
    name: string, description: string, steps: seq<HowToStep>,
    totalTime: Option<string>, image: Option<string>)

  datatype HowToStepRecord = HowToStepRecord(schemaType: string, position: nat, name: string, text: string, image: Option<string>)

  datatype HowToSchema = HowToSchema(
    context: string, schemaType: string, name: string, description: string,
    totalTime: Option<string>, image: Option<string>, step: seq<HowToStepRecord>)

  /** `steps.map((step, index) => ...)` with positions counted from 1. */
  function StepRecords(steps: seq<HowToStep>): seq<HowToStepRecord> {
    seq(|steps|, i requires 0 <= i < |steps| =>
      HowToStepRecord("HowToStep", i + 1, steps[i].name, steps[i].text, steps[i].image))
  }

  /** `generateHowToSchema`: totalTime and image copied as given, even when absent or empty. */
  function GenerateHowToSchema(input: HowToInput): (r: HowToSchema)
    ensures r.context == SchemaContext && r.schemaType == "HowTo"
    ensures r.name == input.name && r.description == input.description
    ensures r.totalTime == input.totalTime && r.image == input.image
    ensures |r.step| == |input.steps|
  {
    HowToSchema(SchemaContext, "HowTo", input.name, input.description,
      input.totalTime, input.image, StepRecords(input.steps))
  }

  /** The set of positions used by some step records. */
  function Positions(records: seq<HowToStepRecord>): set<nat> {
    set k | 0 <= k < |records| :: records[k].position
  }

  /**
   * One step record per input step, in order, each copying its step; the
   * positions are exactly 1 .. n and increase strictly along the list.
   */
  lemma HowToStepsNumbered(input: HowToInput)
    ensures var r := GenerateHowToSchema(input).step;
      && |r| == |input.steps|
      && (forall i :: 0 <= i < |r| ==>
            r[i].schemaType == "HowToStep" && r[i].name == input.steps[i].name
            && r[i].text == input.steps[i].text && r[i].image == input.steps[i].image)
      && (forall i, j :: 0 <= i < j < |r| ==> r[i].position < r[j].position)
      && (forall p: nat :: p in Positions(r) <==> 1 <= p <= |input.steps|)
  {
    var r := GenerateHowToSchema(input).step;
    var n := |input.steps|;
    forall p: nat | 1 <= p <= n
      ensures p in Positions(r)
    {
      assert r[p - 1].position == p;
    }
  }

  // ---------------------------------------------------------------
  // WebSite
  // ---------------------------------------------------------------

  datatype WebsiteInput = WebsiteInput(name: string, url: string, description: string, searchUrl: Option<string>)

  datatype EntryPoint = EntryPoint(schemaType: string, urlTemplate: string)
  datatype SearchAction = SearchAction(schemaType: string, target: EntryPoint, queryInput: string)

  datatype WebsiteSchema = WebsiteSchema(
    context: string, schemaType: string, name: string, url: string,
    description: string, potentialAction: SearchAction)

  const SearchTermSuffix: string := "?q={search_term_string}"
  const QueryInput: string := "required name=search_term_string"

  /** `generateWebsiteSchema`: the search target is the search URL, or the site URL plus "/search", with the query template. */
  function GenerateWebsiteSchema(input: WebsiteInput): (r: WebsiteSchema)
    ensures r.context == SchemaContext && r.schemaType == "WebSite"
    ensures r.name == input.name && r.url == input.url && r.description == input.description
    ensures r.potentialAction.schemaType == "SearchAction" && r.potentialAction.target.schemaType == "EntryPoint"
    ensures r.potentialAction.queryInput == QueryInput
  {
    WebsiteSchema(SchemaContext, "WebSite", input.name, input.url, input.description,
      SearchAction("SearchAction",
        EntryPoint("EntryPoint", Or(input.searchUrl, input.url + "/search") + SearchTermSuffix),
        QueryInput))
  }

  /**
   * The template ends in the query placeholder; what precedes it is the
   * search URL when that is a non-empty string and the site URL followed
   * by "/search" otherwise.
   */
  lemma WebsiteUrlTemplate(input: WebsiteInput)
    ensures var t := GenerateWebsiteSchema(input).potentialAction.target.urlTemplate;
      && |t| >= |SearchTermSuffix|
      && t[|t| - |SearchTermSuffix|..] == SearchTermSuffix
      && (Truthy(input.searchUrl) ==> t[..|t| - |SearchTermSuffix|] == input.searchUrl.value)
      && (!Truthy(input.searchUrl) ==> t[..|t| - |SearchTermSuffix|] == input.url + "/search")
  {
    var base := Or(input.searchUrl, input.url + "/search");
    var t := base + SearchTermSuffix;
    assert t[|base|..] == SearchTermSuffix;
    assert t[..|base|] == base;
  }
}
