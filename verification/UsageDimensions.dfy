/** What usage is grouped and priced by. */
module UsageDimensions {
  import Text

  datatype Dimensions = Dimensions(
    apiGroupKey: string,
    model: string,
    authIndex: string,
    modelAlias: string,
    serviceTier: string,
    responseServiceTier: string,
    reasoningEffort: string,
    endpoint: string,
    executorType: string)
  {
    function Values(): seq<string> {
      [apiGroupKey, model, authIndex, modelAlias, serviceTier, responseServiceTier, reasoningEffort, endpoint,
        executorType]
    }
  }

  /** Trimmed, and blank required values under one name. */
  function Canonical(d: Dimensions): Dimensions {
    Dimensions(Text.Required(d.apiGroupKey), Text.Required(d.model), Text.TrimSpace(d.authIndex),
      Text.TrimSpace(d.modelAlias),
               Text.TrimSpace(d.serviceTier), Text.TrimSpace(d.responseServiceTier), Text.TrimSpace(d.reasoningEffort),
               Text.TrimSpace(d.endpoint), Text.TrimSpace(d.executorType))
  }
}
