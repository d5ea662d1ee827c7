/** The record shapes of one catalog entry, as delivered by the model
    directory. Optional fields of the JSON record are `Option`s. */
module Types {
  import opened Options

  /** Unit prices as decimal strings. Only `prompt` and `completion` are
      always present. */
  datatype Pricing = Pricing(
    prompt: string,
    completion: string,
    request: Option<string>,
    image: Option<string>,
    webSearch: Option<string>,
    internalReasoning: Option<string>,
    inputCacheRead: Option<string>,
    inputCacheWrite: Option<string>)

  /** Capability descriptor; `modality` is the legacy single-string form. */
  datatype Architecture = Architecture(
    modality: Option<string>,
    tokenizer: Option<string>,
    instructType: Nullable<string>,
    inputModalities: Option<seq<string>>,
    outputModalities: Option<seq<string>>)

  datatype TopProvider = TopProvider(
    contextLength: Option<int>,
    maxCompletionTokens: Option<int>,
    isModerated: Option<bool>,
    throughput: Option<string>)

  /** One catalog entry. JSON numbers that the core compares are integers here. */
  datatype Model = Model(
    id: string,
    name: string,
    description: Option<string>,
    pricing: Pricing,
    contextLength: int,
    architecture: Option<Architecture>,
    topProvider: Option<TopProvider>,
    supportedParameters: Option<seq<string>>,
    created: Option<int>,
    canonicalSlug: Option<string>)

  /** The closed set of sort criteria the catalog view offers. */
  datatype SortOption = PriceLowHigh | PriceHighLow | ContextHighLow | NameAToZ
}
