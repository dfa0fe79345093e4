/**
 * The two choices that `execute` makes before posting the script, identical
 * in both editor components apart from the names of the directive fields:
 * which result tab to show, and which endpoint to post to.
 */
module Execution {
  import opened Js

  /** Index of the tab with the results view. */
  const ResultsTab := 0
  /** Index of the tab with the image view. */
  const ImageTab := 2

  /**
   * The selected tab after `execute`: the image tab when the script asked for
   * an image preview; otherwise the image tab gives way to the results tab
   * and any other tab stays.
   */
  function TabAfterExecute(tab: int, imagePreview: bool): (r: int)
    ensures r == ImageTab <==> imagePreview
    ensures !imagePreview && tab != ImageTab ==> r == tab
    ensures !imagePreview && tab == ImageTab ==> r == ResultsTab
  {
    if imagePreview then ImageTab else if tab == ImageTab then ResultsTab else tab
  }

  /** Executing twice with the same preview mode selects the same tab as executing once. */
  lemma TabAfterExecuteIdempotent(tab: int, imagePreview: bool)
    ensures TabAfterExecute(TabAfterExecute(tab, imagePreview), imagePreview) == TabAfterExecute(tab, imagePreview)
  {
  }

  /** `preview || 'none'` compared with the image token: only that exact token asks for images. */
  lemma PreviewFallback(preview: Option<string>, imageToken: string)
    requires imageToken != "" && imageToken != "none"
    ensures OrElse(preview, "none") == imageToken <==> preview == Some(imageToken)
  {
  }

  /** `endpoint || url`: the directive's endpoint when it is a non-empty string, the component's URL otherwise. */
  lemma EndpointFallback(endpoint: Option<string>, url: string)
    ensures endpoint.Some? && endpoint.value != "" ==> OrElse(endpoint, url) == endpoint.value
    ensures endpoint.None? || endpoint.value == "" ==> OrElse(endpoint, url) == url
  {
  }
}
