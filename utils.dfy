/**
 * The static methods of the `Utils` class in utils.js: the same three text helpers as lib/helpers.js,
 * written out again. Each is modelled as written and shown to agree with the helper.
 */
module Utils {
  import opened JsString
  import Helpers

  /** `Utils.sanitizeEpisode`. */
  function SanitizeEpisode(episodeTitle: string): string {
    Trim(ReplaceAll(episodeTitle, {'/'}, "-"))
  }

  /** `Utils.sanitizeContent` for a string: the chained replacements as written. */
  function SanitizeContent(str: string): string {
    ReplaceAll(ReplaceAll(ReplaceAll(ReplaceAll(ReplaceAll(ReplaceAll(ReplaceAll(ReplaceAll(ReplaceAll(ReplaceAll(ReplaceAll(
      str, {'"'}, "&quot;"), {'&'}, "&amp;"), {'<'}, "&lt;"), {'>'}, "&gt;"), {'\''}, ""), {' '}, "_"),
      {'á', 'Á'}, "a"), {'é', 'É'}, "e"), {'í', 'Í'}, "i"), {'ó', 'Ó'}, "o"), {'ú', 'Ú'}, "u")
  }

  /** `Utils.parseResponse`. */
  function ParseResponse(response: string): string {
    var result := "";
    if IndexOf(response, "413_Request_Entity_Too_Large") > -1 then "file_too_large" else result
  }

  /** `Utils.sanitizeEpisode` agrees with the helper, so its result has no `/` either. */
  lemma SanitizeEpisodeAgrees(episodeTitle: string)
    ensures SanitizeEpisode(episodeTitle) == Helpers.SanitizeEpisode(episodeTitle)
    ensures forall c :: c in SanitizeEpisode(episodeTitle) ==> c != '/'
  {
  }

  /** The chain as written is the helper's sequence of passes; so `"` becomes `&amp;quot;`, and
      quotes, angle brackets, spaces and accented vowels are all removed. */
  lemma SanitizeContentAgrees(str: string)
    ensures SanitizeContent(str) == Helpers.SanitizeContent(str)
    ensures forall c :: c in SanitizeContent(str) ==> c !in Helpers.Removed()
  {
    SanitizeContentIsChain(str, Helpers.ContentPasses);
    Helpers.SanitizeContentRemoves(str);
  }

  /** The chain as written applies the helper's passes in their order. */
  lemma SanitizeContentIsChain(str: string, passes: seq<Helpers.Pass>)
    requires passes == Helpers.ContentPasses
    ensures SanitizeContent(str) == Helpers.ApplyPasses(str, passes)
  {
  }

  /** `Utils.parseResponse` flags a response exactly when the helper does: when the 413 marker occurs. */
  lemma ParseResponseAgrees(response: string)
    ensures ParseResponse(response) == Helpers.ParseResponse(response)
    ensures ParseResponse(response) == "file_too_large" <==> Contains(response, Helpers.TooLargeMarker)
  {
  }
}
