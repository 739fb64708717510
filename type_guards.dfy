/**
 * The run-time type guards for search results and interactive props, over
 * a small model of JavaScript values.
 */
module TypeGuards {
  /** A JavaScript value as far as `typeof` and property lookup see it. */
  datatype JsValue =
    | Undefined
    | Null
    | Bool(b: bool)
    | Number(n: real)
    | Str(s: string)
    | Func
    | Object(fields: map<string, JsValue>)
    | Array(elements: seq<JsValue>)

  /** The `typeof` operator: `null` and arrays are objects, functions are not. */
  function TypeOf(v: JsValue): string {
    match v
    case Undefined => "undefined"
    case Null => "object"
    case Bool(_) => "boolean"
    case Number(_) => "number"
    case Str(_) => "string"
    case Func => "function"
    case Object(_) => "object"
    case Array(_) => "object"
  }

  /** `o[key]` on an object-typed value: a missing field reads as `undefined`. */
  function Property(v: JsValue, key: string): JsValue {
    match v
    case Object(fields) => if key in fields then fields[key] else Undefined
    case _ => Undefined
  }

  /** `typeof obj !== 'object' || obj === null` rejects, then `typeof` each required field. */
  function IsSearchResult(obj: JsValue): bool {
    if TypeOf(obj) != "object" || obj == Null then false
    else
      && TypeOf(Property(obj, "title")) == "string"
      && TypeOf(Property(obj, "url")) == "string"
      && TypeOf(Property(obj, "snippet")) == "string"
  }

  function IsInteractiveProps(obj: JsValue): bool {
    if TypeOf(obj) != "object" || obj == Null then false
    else TypeOf(Property(obj, "onAction")) == "function"
  }

  predicate HasString(fields: map<string, JsValue>, key: string) {
    key in fields && fields[key].Str?
  }

  /** A search result is exactly an object whose title, url and snippet are strings. */
  lemma IsSearchResultIff(obj: JsValue)
    ensures IsSearchResult(obj) <==>
      (obj.Object? && HasString(obj.fields, "title") && HasString(obj.fields, "url") && HasString(obj.fields, "snippet"))
  {
  }

  /** Null, primitives, functions and values without fields are never search results. */
  lemma NonObjectsAreNotSearchResults(obj: JsValue)
    requires !obj.Object?
    ensures !IsSearchResult(obj)
  {
  }

  /** Fields other than title, url and snippet, such as category and score, are not looked at. */
  lemma OtherFieldsIgnored(fields: map<string, JsValue>, key: string, value: JsValue)
    requires key != "title" && key != "url" && key != "snippet"
    ensures IsSearchResult(Object(fields[key := value])) == IsSearchResult(Object(fields))
    ensures IsSearchResult(Object(fields - {key})) == IsSearchResult(Object(fields))
  {
    IsSearchResultIff(Object(fields));
    IsSearchResultIff(Object(fields[key := value]));
    IsSearchResultIff(Object(fields - {key}));
  }

  /** `{ title: 'Missing URL' }` is rejected; a full result with a category is accepted. */
  lemma SearchResultExamples()
    ensures !IsSearchResult(Object(map["title" := Str("Missing URL")]))
    ensures IsSearchResult(Object(map["title" := Str("T"), "url" := Str("/t"), "snippet" := Str("s"), "category" := Str("c")]))
    ensures !IsSearchResult(Null)
  {
    IsSearchResultIff(Object(map["title" := Str("Missing URL")]));
  }

  /** Interactive props are exactly objects whose `onAction` is a function. */
  lemma IsInteractivePropsIff(obj: JsValue)
    ensures IsInteractiveProps(obj) <==> (obj.Object? && "onAction" in obj.fields && obj.fields["onAction"] == Func)
  {
  }
}
